/** The SODA collision query by id that findgeomupdates/1b-fetch_soda.py and
    fixnullgeom/fix_null_geom_in_carto.py send, and the list the scripts
    make of its decoded reply. */
module SodaQueries {
  import opened Common

  /** The $where, $order and $limit parameters of the GET request. */
  datatype SodaQuery = SodaQuery(where: string, order: string, limit: string)

  const WherePrefix := "collision_id IN ("

  /** The condition after the id list; zeroLatitude is how the script
      spells a zero latitude ('0' in one script, '0.0000000' in the
      other). */
  function WhereSuffix(zeroLatitude: string): string
  {
    ") AND latitude IS NOT NULL AND latitude != '" + zeroLatitude + "'"
  }

  /** The where clause: the ids joined by ',' inside IN (...), and only
      rows whose latitude is present and not zero. */
  function WhereClause(ids: seq<string>, zeroLatitude: string): (w: string)
    ensures |w| == |WherePrefix| + |Join(ids, ",")| + |WhereSuffix(zeroLatitude)|
    ensures w[..|WherePrefix|] == WherePrefix
    ensures w[|WherePrefix|..|w| - |WhereSuffix(zeroLatitude)|] == Join(ids, ",")
    ensures w[|w| - |WhereSuffix(zeroLatitude)|..] == WhereSuffix(zeroLatitude)
  {
    WherePrefix + Join(ids, ",") + WhereSuffix(zeroLatitude)
  }

  /** The ids can be read back out of the clause: splitting the IN list at
      ',' gives exactly the ids queried, in order, when none contains a
      comma. */
  lemma WhereClauseIds(ids: seq<string>, zeroLatitude: string)
    requires ids != [] && forall i :: 0 <= i < |ids| ==> ',' !in ids[i]
    ensures var w := WhereClause(ids, zeroLatitude);
      Split(w[|WherePrefix|..|w| - |WhereSuffix(zeroLatitude)|], ',') == ids
  {
    SplitJoin(ids, ',');
  }

  /** One element of the list `rows += reply` builds: a JSON array
      contributes its rows, a JSON object (an error reply) its keys. */
  datatype SodaItem = RowItem(row: Row) | KeyItem(key: string)

  /** The elements a reply contributes; keysOf lists a JSON object's keys in
      the order Python's dict iteration yields them. */
  function ReplyItems(reply: Reply, keysOf: map<string, Value> -> seq<string>): (r: seq<SodaItem>)
    ensures reply.ListReply? ==> |r| == |reply.items| && forall i :: 0 <= i < |r| ==> r[i] == RowItem(reply.items[i])
    ensures reply.ObjectReply? ==>
      (|r| == |keysOf(reply.fields)| && forall i :: 0 <= i < |r| ==> r[i] == KeyItem(keysOf(reply.fields)[i]))
  {
    match reply
    case ListReply(items) => seq(|items|, i requires 0 <= i < |items| => RowItem(items[i]))
    case ObjectReply(fields) =>
      var keys := keysOf(fields);
      seq(|keys|, i requires 0 <= i < |keys| => KeyItem(keys[i]))
  }
}
