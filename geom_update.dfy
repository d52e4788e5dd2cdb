/** findgeomupdates/4-update_carto.py: one UPDATE per row of the diffs
    file, moving the crash to its new position and clearing its polygon
    assignments so that the nightly run fills them in again. CARTO is a
    function from statement to decoded reply. */
module GeomUpdate {
  import opened Common
  import opened Chunks
  import opened Steps

  /** The polygon-assignment columns the statement sets to NULL. */
  const NulledColumns: seq<string> := ["borough", "city_council", "senate", "assembly", "businessdistrict",
                                       "community_board", "neighborhood", "nypd_precinct"]

  /** The statement for one row: the new longitude and latitude, and the
      crash's socrata_id. */
  datatype MoveSql = MoveCrash(lng: string, lat: string, socrataId: string)

  function NullAssignments(): (r: seq<string>)
    ensures |r| == |NulledColumns| && forall k :: 0 <= k < |r| ==> r[k] == NulledColumns[k] + "=NULL"
  {
    seq(|NulledColumns|, k requires 0 <= k < |NulledColumns| => NulledColumns[k] + "=NULL")
  }

  const MoveHead := "UPDATE " + CrashesTable + " SET the_geom=ST_SETSRID("

  function GeomPart(s: MoveSql): string
  {
    "ST_GEOMFROMTEXT('POINT(" + s.lng + " " + s.lat + ")')"
  }

  function LngPart(s: MoveSql): string { "longitude=" + s.lng + "," }

  function LatPart(s: MoveSql): string { "latitude=" + s.lat + "," }

  function WherePart(s: MoveSql): string { " WHERE socrata_id=" + s.socrataId }

  /** The statement template in pieces, its line breaks and indents read
      as single spaces. */
  function MovePieces(s: MoveSql): seq<string>
  {
    [MoveHead, GeomPart(s), ", 4326), ", LngPart(s), " ", LatPart(s), " ", Join(NullAssignments(), ", "), WherePart(s)]
  }

  function MoveText(s: MoveSql): string
  {
    Flatten(MovePieces(s))
  }

  /** Every statement clears all eight polygon columns, puts the point at
      (longitude latitude) in that order, sets the two coordinate columns to
      the same values, and ends by selecting the crash by socrata_id. */
  lemma MoveTextShape(s: MoveSql)
    ensures forall k :: 0 <= k < |NulledColumns| ==> Contains(MoveText(s), NulledColumns[k] + "=NULL")
    ensures Contains(MoveText(s), GeomPart(s))
    ensures Contains(MoveText(s), LngPart(s)) && Contains(MoveText(s), LatPart(s))
    ensures |WherePart(s)| <= |MoveText(s)| && MoveText(s)[|MoveText(s)| - |WherePart(s)|..] == WherePart(s)
  {
    var ps := MovePieces(s);
    FlattenContains(ps, 1);
    FlattenContains(ps, 3);
    FlattenContains(ps, 5);
    FlattenEndsWith(ps);
    FlattenContains(ps, 7);
    forall k | 0 <= k < |NulledColumns| ensures Contains(MoveText(s), NulledColumns[k] + "=NULL") {
      JoinContains(NullAssignments(), ", ", k);
      ContainsTrans(MoveText(s), ps[7], NulledColumns[k] + "=NULL");
    }
  }

  /** The cells the loop reads: the three it prints and the three the
      statement uses. The lat_old and lng_old cells are never read. */
  predicate Readable(row: CsvRow)
  {
    "socrata_id" in row && "date_val" in row && "metersdiff" in row && "lng_new" in row && "lat_new" in row
  }

  function MoveOf(row: CsvRow): MoveSql
    requires Readable(row)
  {
    MoveCrash(row["lng_new"], row["lat_new"], row["socrata_id"])
  }

  /** One pass of the loop: a row missing a cell stops the script
      (KeyError) before its statement; otherwise the statement is sent, and
      a reply with an error stops the script after it. */
  function MoveStep(carto: MoveSql -> Reply, row: CsvRow): (seq<MoveSql>, Option<int>)
  {
    if !Readable(row) then ([], Some(1))
    else ([MoveOf(row)], if PerformCartoQuery(carto(MoveOf(row))).Exit? then Some(1) else None)
  }

  function UpdateStep(carto: MoveSql -> Reply): CsvRow -> (seq<MoveSql>, Option<int>)
  {
    row => MoveStep(carto, row)
  }

  /** run(): the update loop over the diffs file. */
  method Run(updates: seq<CsvRow>, carto: MoveSql -> Reply) returns (submitted: seq<MoveSql>, exit: Option<int>)
    ensures (submitted, exit) == StepTrace(updates, UpdateStep(carto))
  {
    submitted := [];
    var done := 0;
    while done < |updates|
      invariant 0 <= done <= |updates|
      invariant StepTrace(updates[..done], UpdateStep(carto)) == (submitted, None)
    {
      var row := updates[done];
      StepTraceStep(updates, done, UpdateStep(carto));
      assert UpdateStep(carto)(row) == MoveStep(carto, row);
      if !Readable(row) {
        StepTraceStopsAt(updates, done, UpdateStep(carto));
        assert submitted + [] == submitted;
        return submitted, Some(1);
      }
      var sql := MoveCrash(row["lng_new"], row["lat_new"], row["socrata_id"]);
      submitted := submitted + [sql];
      var reply := PerformCartoQuery(carto(sql));
      if reply.Exit? {
        StepTraceStopsAt(updates, done, UpdateStep(carto));
        return submitted, Some(reply.status);
      }
      done := done + 1;
    }
    assert updates[..done] == updates;
    exit := None;
  }

  /** The statements sent are those of the first rows, one per row, in
      file order; all of them when the loop gets through, and the script
      only ever stops with status 1. */
  lemma {:induction false} OneUpdatePerRow(updates: seq<CsvRow>, carto: MoveSql -> Reply)
    ensures var t := StepTrace(updates, UpdateStep(carto));
      && |t.0| <= |updates|
      && (forall j :: 0 <= j < |t.0| ==> Readable(updates[j]) && t.0[j] == MoveOf(updates[j]))
      && (t.1.None? ==> |t.0| == |updates|)
      && (t.1.Some? ==> t.1 == Some(1))
  {
    if updates != [] {
      var init := updates[..|updates| - 1];
      OneUpdatePerRow(init, carto);
      assert forall j :: 0 <= j < |init| ==> init[j] == updates[j];
      assert UpdateStep(carto)(updates[|updates| - 1]) == MoveStep(carto, updates[|updates| - 1]);
    }
  }
}
