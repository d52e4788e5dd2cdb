/** initialpolygonlinkage/linkthem.py: fill the crashes table's `assembly`
    column from the nyc_assembly polygons, one polygon at a time and, within
    a polygon, one residue class of cartodb_id at a time. CARTO's read and
    write endpoints are functions from statement to decoded reply. */
module PolygonLink {
  import opened Common
  import opened Chunks
  import opened Steps

  const PolygonsTable := "nyc_assembly"
  const CrashField := "assembly"

  /** HOWMANY_CHUNKS: the residue classes each polygon's update is cut
      into. */
  const HowManyChunks := 20

  // ------------------------------------------------------------ replies

  /** cartoapi_read(): the reply's rows; status 1 when it has no 'rows'
      member (a rows member that is not an array fails at its first use,
      also with status 1, before anything is written). */
  function CartoapiRead(reply: Reply): (r: Outcome<seq<Row>>)
    ensures r.Ok? <==> reply.ObjectReply? && "rows" in reply.fields && reply.fields["rows"].VRows?
    ensures r.Ok? ==> r.value == reply.fields["rows"].rows
    ensures r.Exit? ==> r.status == 1
  {
    if reply.ObjectReply? && "rows" in reply.fields && reply.fields["rows"].VRows? then Ok(reply.fields["rows"].rows)
    else Exit(1)
  }

  /** rows[0]['count'] of a COUNT(*) reply; an empty result or a missing
      column ends the script (IndexError, KeyError). */
  function FirstCount(reply: Reply): (r: Outcome<Value>)
    ensures r.Ok? <==> CartoapiRead(reply).Ok? && CartoapiRead(reply).value != [] && "count" in CartoapiRead(reply).value[0]
    ensures r.Ok? ==> r.value == CartoapiRead(reply).value[0]["count"]
    ensures r.Exit? ==> r.status == 1
  {
    match CartoapiRead(reply)
    case Exit(s) => Exit(s)
    case Ok(rows) => if rows != [] && "count" in rows[0] then Ok(rows[0]["count"]) else Exit(1)
  }

  /** [i['identifier'] for i in rows]. */
  function Identifiers(reply: Reply): (r: Outcome<seq<Value>>)
    ensures r.Ok? <==>
      (CartoapiRead(reply).Ok? && forall i :: 0 <= i < |CartoapiRead(reply).value| ==> "identifier" in CartoapiRead(reply).value[i])
    ensures r.Ok? ==>
      (|r.value| == |CartoapiRead(reply).value| &&
       forall i :: 0 <= i < |r.value| ==> r.value[i] == CartoapiRead(reply).value[i]["identifier"])
    ensures r.Exit? ==> r.status == 1
  {
    match CartoapiRead(reply)
    case Exit(s) => Exit(s)
    case Ok(rows) =>
      if forall i :: 0 <= i < |rows| ==> "identifier" in rows[i] then
        Ok(seq(|rows|, i requires 0 <= i < |rows| && "identifier" in rows[i] => rows[i]["identifier"]))
      else Exit(1)
  }

  /** cartoapi_write() followed by the progress line: the reply must carry
      'total_rows' (else status 1) and 'time' (else KeyError). */
  predicate WriteAccepted(reply: Reply)
  {
    reply.ObjectReply? && "total_rows" in reply.fields && "time" in reply.fields
  }

  // ------------------------------------------------------------ queries

  const NullCountQuery := "SELECT COUNT(*) FROM " + CrashesTable + " WHERE " + CrashField + " IS NULL"
  const PolygonCountQuery := "SELECT COUNT(*) FROM " + PolygonsTable
  const IdentifiersQuery := "SELECT DISTINCT identifier FROM " + PolygonsTable + " ORDER BY identifier"

  /** One UPDATE: the crashes of residue class `chunk` that lie in the
      polygon `identifier` get that identifier. */
  datatype LinkSql = LinkSql(identifier: Value, chunk: nat)

  function SetPart(q: LinkSql): string { "SET " + CrashField + "=" + Str(q.identifier) }
  const NullGuard := " WHERE " + CrashField + " IS NULL"
  function InsidePart(q: LinkSql): string
  {
    " AND ST_INTERSECTS(the_geom, (SELECT the_geom FROM " + PolygonsTable + " WHERE identifier=" + Str(q.identifier) + "))"
  }
  const ResiduePrefix := " AND cartodb_id % " + NatToString(HowManyChunks) + " = "

  function LinkPieces(q: LinkSql): seq<string>
  {
    ["UPDATE " + CrashesTable + " ", SetPart(q), NullGuard, InsidePart(q), ResiduePrefix, NatToString(q.chunk)]
  }

  function LinkText(q: LinkSql): string
  {
    Flatten(LinkPieces(q))
  }

  /** Each statement sets the column to the polygon's identifier, touches
      only crashes whose column is still NULL, tests the crash's point
      against that same polygon, and ends with the residue it covers, which
      reads back as the chunk number. */
  lemma LinkTextShape(q: LinkSql)
    ensures Contains(LinkText(q), SetPart(q))
    ensures Contains(LinkText(q), NullGuard)
    ensures Contains(LinkText(q), InsidePart(q))
    ensures Contains(LinkText(q), ResiduePrefix)
    ensures var t, d := LinkText(q), NatToString(q.chunk);
      |d| <= |t| && t[|t| - |d|..] == d && ParseDigits(t[|t| - |d|..]) == Some(q.chunk)
  {
    var ps := LinkPieces(q);
    FlattenContains(ps, 1);
    FlattenContains(ps, 2);
    FlattenContains(ps, 3);
    FlattenContains(ps, 4);
    FlattenEndsWith(ps);
    ParseNatToString(q.chunk);
  }

  /** The nested loops that build update_queries_list: identifiers outside,
      chunk numbers 0..19 inside. */
  method UpdateQueriesList(identifiers: seq<Value>) returns (queries: seq<LinkSql>)
    ensures |queries| == |identifiers| * HowManyChunks
    ensures forall a, b :: 0 <= a < |identifiers| && 0 <= b < HowManyChunks ==>
      queries[a * HowManyChunks + b] == LinkSql(identifiers[a], b)
  {
    queries := [];
    for a := 0 to |identifiers|
      invariant |queries| == a * HowManyChunks
      invariant forall a', b :: 0 <= a' < a && 0 <= b < HowManyChunks ==>
        queries[a' * HowManyChunks + b] == LinkSql(identifiers[a'], b)
    {
      for i := 0 to HowManyChunks
        invariant |queries| == a * HowManyChunks + i
        invariant forall a', b :: 0 <= a' < a && 0 <= b < HowManyChunks ==>
          queries[a' * HowManyChunks + b] == LinkSql(identifiers[a'], b)
        invariant forall b :: 0 <= b < i ==> queries[a * HowManyChunks + b] == LinkSql(identifiers[a], b)
      {
        queries := queries + [LinkSql(identifiers[a], i)];
      }
    }
  }

  /** The chunk numbers of polygon a's updates, in list order. */
  function PolygonChunks(queries: seq<LinkSql>, a: nat): (r: seq<int>)
    requires (a + 1) * HowManyChunks <= |queries|
    ensures |r| == HowManyChunks
    ensures forall b :: 0 <= b < HowManyChunks ==> r[b] == queries[a * HowManyChunks + b].chunk
  {
    seq(HowManyChunks, b requires 0 <= b < HowManyChunks => queries[a * HowManyChunks + b].chunk)
  }

  /** For each polygon, its twenty updates split the crashes by
      cartodb_id % 20: every cartodb_id is picked up by exactly one of
      them. */
  lemma ChunksCoverResidues(identifiers: seq<Value>, queries: seq<LinkSql>, a: nat, id: nat)
    requires a < |identifiers| && |queries| == |identifiers| * HowManyChunks
    requires forall a', b :: 0 <= a' < |identifiers| && 0 <= b < HowManyChunks ==>
      queries[a' * HowManyChunks + b] == LinkSql(identifiers[a'], b)
    ensures (a + 1) * HowManyChunks <= |queries|
    ensures exists b :: 0 <= b < HowManyChunks && PolygonChunks(queries, a)[b] == id % HowManyChunks
    ensures forall b, c ::
      (0 <= b < HowManyChunks && 0 <= c < HowManyChunks &&
       PolygonChunks(queries, a)[b] == id % HowManyChunks && PolygonChunks(queries, a)[c] == id % HowManyChunks)
      ==> b == c
  {
    assert (a + 1) * HowManyChunks <= |identifiers| * HowManyChunks;
    var cs := PolygonChunks(queries, a);
    forall b | 0 <= b < HowManyChunks ensures cs[b] == b {
      assert queries[a * HowManyChunks + b] == LinkSql(identifiers[a], b);
    }
    assert cs[id % HowManyChunks] == id % HowManyChunks;
  }

  // ---------------------------------------------------------------- main

  /** The checks before any write: nothing to do (status 0) when the
      null count is falsy; status 1 when there are no polygons or when the
      number of distinct identifiers differs from the number of polygons;
      otherwise the identifiers. */
  predicate ChecksPass(read: string -> Reply)
  {
    && FirstCount(read(NullCountQuery)).Ok? && Truthy(FirstCount(read(NullCountQuery)).value)
    && FirstCount(read(PolygonCountQuery)).Ok? && Truthy(FirstCount(read(PolygonCountQuery)).value)
    && Identifiers(read(IdentifiersQuery)).Ok?
    && IntEquals(|Identifiers(read(IdentifiersQuery)).value|, FirstCount(read(PolygonCountQuery)).value)
  }

  function Preflight(read: string -> Reply): (r: Outcome<seq<Value>>)
    ensures FirstCount(read(NullCountQuery)).Exit? ==> r == Exit(1)
    ensures
      (FirstCount(read(NullCountQuery)).Ok? && Truthy(FirstCount(read(NullCountQuery)).value) &&
       FirstCount(read(PolygonCountQuery)).Exit?)
      ==> r == Exit(1)
    ensures
      (FirstCount(read(NullCountQuery)).Ok? && Truthy(FirstCount(read(NullCountQuery)).value) &&
       FirstCount(read(PolygonCountQuery)).Ok? && Truthy(FirstCount(read(PolygonCountQuery)).value) &&
       Identifiers(read(IdentifiersQuery)).Exit?)
      ==> r == Exit(1)
    ensures r.Ok? <==> ChecksPass(read)
    ensures ChecksPass(read) ==> r == Ok(Identifiers(read(IdentifiersQuery)).value)
    ensures FirstCount(read(NullCountQuery)).Ok? && !Truthy(FirstCount(read(NullCountQuery)).value) ==> r == Exit(0)
    ensures
      (FirstCount(read(NullCountQuery)).Ok? && Truthy(FirstCount(read(NullCountQuery)).value) &&
       FirstCount(read(PolygonCountQuery)).Ok? && !Truthy(FirstCount(read(PolygonCountQuery)).value))
      ==> r == Exit(1)
    ensures r.Exit? && r.status != 1 ==> r.status == 0
    ensures r.Ok? ==>
      && FirstCount(read(NullCountQuery)).Ok? && Truthy(FirstCount(read(NullCountQuery)).value)
      && FirstCount(read(PolygonCountQuery)).Ok? && Truthy(FirstCount(read(PolygonCountQuery)).value)
      && Identifiers(read(IdentifiersQuery)) == Ok(r.value)
      && IntEquals(|r.value|, FirstCount(read(PolygonCountQuery)).value)
  {
    match FirstCount(read(NullCountQuery))
    case Exit(s) => Exit(s)
    case Ok(count) =>
      if !Truthy(count) then Exit(0)
      else match FirstCount(read(PolygonCountQuery))
        case Exit(s) => Exit(s)
        case Ok(polygons) =>
          if !Truthy(polygons) then Exit(1)
          else match Identifiers(read(IdentifiersQuery))
            case Exit(s) => Exit(s)
            case Ok(ids) => if !IntEquals(|ids|, polygons) then Exit(1) else Ok(ids)
  }

  /** The distinct-identifier check: with the other checks passed, a
      count of identifiers different from the polygon count ends the
      script with status 1. */
  lemma IdentifierCountChecked(read: string -> Reply)
    requires FirstCount(read(NullCountQuery)).Ok? && Truthy(FirstCount(read(NullCountQuery)).value)
    requires FirstCount(read(PolygonCountQuery)).Ok? && Truthy(FirstCount(read(PolygonCountQuery)).value)
    requires Identifiers(read(IdentifiersQuery)).Ok?
    requires !IntEquals(|Identifiers(read(IdentifiersQuery)).value|, FirstCount(read(PolygonCountQuery)).value)
    ensures Preflight(read) == Exit(1)
  {
  }

  /** One pass of the write loop: the statement is sent, and a reply
      without 'total_rows' or 'time' ends the script with status 1. */
  function WriteOut(write: LinkSql -> Reply, q: LinkSql): (seq<LinkSql>, Option<int>)
  {
    ([q], if WriteAccepted(write(q)) then None else Some(1))
  }

  function WriteStep(write: LinkSql -> Reply): LinkSql -> (seq<LinkSql>, Option<int>)
  {
    q => WriteOut(write, q)
  }

  /** The write loop: every query in turn, with the done counter. */
  method WriteAll(queries: seq<LinkSql>, write: LinkSql -> Reply) returns (submitted: seq<LinkSql>, exit: Option<int>)
    ensures (submitted, exit) == StepTrace(queries, WriteStep(write))
  {
    submitted := [];
    var done := 0;
    while done < |queries|
      invariant 0 <= done <= |queries|
      invariant StepTrace(queries[..done], WriteStep(write)) == (submitted, None)
    {
      StepTraceStep(queries, done, WriteStep(write));
      assert WriteStep(write)(queries[done]) == WriteOut(write, queries[done]);
      var sql := queries[done];
      submitted := submitted + [sql];
      var reply := write(sql);
      if !WriteAccepted(reply) {
        StepTraceStopsAt(queries, done, WriteStep(write));
        return submitted, Some(1);
      }
      done := done + 1;
    }
    assert queries[..done] == queries;
    exit := None;
  }

  /** The queries are sent in list order: what is sent is a prefix of the
      list, all of it unless a reply stops the script with status 1. */
  lemma SentInOrder(queries: seq<LinkSql>, write: LinkSql -> Reply)
    ensures var t := StepTrace(queries, WriteStep(write));
      && |t.0| <= |queries| && t.0 == queries[..|t.0|]
      && (t.1.None? ==> t.0 == queries)
      && (t.1.Some? ==> t.1 == Some(1) && |t.0| >= 1 && !WriteAccepted(write(queries[|t.0| - 1])))
  {
    SentPrefix(queries, write);
    SentStop(queries, write);
  }

  /** What is sent is a prefix of the queries, all of them unless the loop
      stopped. */
  lemma {:induction false} SentPrefix(queries: seq<LinkSql>, write: LinkSql -> Reply)
    ensures var t := StepTrace(queries, WriteStep(write));
      && |t.0| <= |queries| && t.0 == queries[..|t.0|]
      && (t.1.None? ==> t.0 == queries)
  {
    if queries != [] {
      var init := queries[..|queries| - 1];
      var last := queries[|queries| - 1];
      SentPrefix(init, write);
      assert WriteStep(write)(last) == WriteOut(write, last);
      var t := StepTrace(init, WriteStep(write));
      if t.1.Some? {
        assert queries[..|t.0|] == init[..|t.0|];
      } else {
        assert t.0 == init;
        assert init + [last] == queries;
      }
    }
  }

  /** A loop that stopped did so with status 1 right after sending the
      query whose reply lacks total_rows or time. */
  lemma {:induction false} SentStop(queries: seq<LinkSql>, write: LinkSql -> Reply)
    ensures var t := StepTrace(queries, WriteStep(write));
      t.1.Some? ==> t.1 == Some(1) && |t.0| >= 1 && |t.0| <= |queries| && !WriteAccepted(write(queries[|t.0| - 1]))
  {
    if queries != [] {
      var init := queries[..|queries| - 1];
      var last := queries[|queries| - 1];
      SentStop(init, write);
      SentPrefix(init, write);
      assert WriteStep(write)(last) == WriteOut(write, last);
      var t := StepTrace(init, WriteStep(write));
      if t.1.Some? {
        assert queries[|t.0| - 1] == init[|t.0| - 1];
      }
    }
  }

  /** main(): the checks, the query list, the writes. Nothing is written
      unless every check passes. */
  method Run(read: string -> Reply, write: LinkSql -> Reply) returns (submitted: seq<LinkSql>, exit: Option<int>)
    ensures Preflight(read).Exit? ==> submitted == [] && exit == Some(Preflight(read).status)
    ensures Preflight(read).Ok? ==>
      var ids := Preflight(read).value;
      && |submitted| <= |ids| * HowManyChunks
      && (forall k :: 0 <= k < |submitted| ==> submitted[k] == LinkSql(ids[k / HowManyChunks], k % HowManyChunks))
      && (exit.None? ==> |submitted| == |ids| * HowManyChunks)
      && (exit.Some? ==> exit == Some(1))
  {
    var ids := Preflight(read);
    if ids.Exit? {
      return [], Some(ids.status);
    }
    var queries := UpdateQueriesList(ids.value);
    submitted, exit := WriteAll(queries, write);
    SentInOrder(queries, write);
    forall k | 0 <= k < |submitted| ensures submitted[k] == LinkSql(ids.value[k / HowManyChunks], k % HowManyChunks) {
      assert k == (k / HowManyChunks) * HowManyChunks + k % HowManyChunks;
      assert k / HowManyChunks < |ids.value|;
    }
  }
}
