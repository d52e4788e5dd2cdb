/** backlog/check_backlog.py: for one YYYY-MM month, fetch the socrata_ids
    CARTO already holds and the SODA crashes of that month, keep the crashes
    CARTO lacks, render them into INSERT value tuples (synthesising missing
    persons aggregates) and submit them in chunks of 40. The HTTP replies are
    parameters: functions from the query text to the decoded reply. */
module Backlog {
  import opened Common
  import opened Chunks
  import opened Months
  import opened CrashInsert
  import opened CrashRows

  /** Values inserted per statement. */
  const InsertChunkSize := 40

  const BacklogSchema := Schema("crash_date", "crash_time", "collision_id")

  // -------------------------------------------------- replies and queries

  /** The CARTO query for the month's socrata_ids: a half-open range. */
  function AlreadyIdsQuery(start: string, end: string): string
  {
    "SELECT DISTINCT socrata_id FROM " + CrashesTable +
    " WHERE socrata_id IS NOT NULL AND date_val >= '" + start + "' AND date_val < '" + end + "'"
  }

  /** The SODA $where clause for the month: the same half-open range. */
  function SodaWhere(start: string, end: string): string
  {
    "crash_date >= '" + start + "' AND crash_date < '" + end + "'"
  }

  /** int(r['socrata_id']); a missing key or a non-numeral ends the run. */
  function SocrataIdOf(r: Row): Outcome<int>
  {
    if "socrata_id" in r then
      (match PyInt(r["socrata_id"]) case Some(n) => Ok(n) case None => Exit(1))
    else Exit(1)
  }

  /** getcartoalreadyids on the decoded reply: a reply without rows, or with
      an empty rows list, ends the run with status 1 (its error branch names
      an undefined logger); otherwise every row's id, cast to int. */
  function GetCartoAlreadyIds(reply: Reply): (r: Outcome<seq<int>>)
    ensures (reply.ListReply? || NonEmptyRows(reply.fields).None?) ==> r == Exit(1)
    ensures r.Ok? <==>
      && reply.ObjectReply? && NonEmptyRows(reply.fields).Some?
      && forall i :: 0 <= i < |NonEmptyRows(reply.fields).value| ==> SocrataIdOf(NonEmptyRows(reply.fields).value[i]).Ok?
    ensures r.Ok? ==> var rows := reply.fields["rows"].rows;
      |r.value| == |rows| && forall i :: 0 <= i < |rows| ==> Ok(r.value[i]) == SocrataIdOf(rows[i])
    ensures r.Exit? ==> r.status == 1
  {
    match reply
    case ListReply(_) => Exit(1)
    case ObjectReply(fields) =>
      match NonEmptyRows(fields)
      case None => Exit(1)
      case Some(rows) =>
        MapOutcomeSpec(rows, SocrataIdOf);
        MapOutcome(rows, SocrataIdOf)
  }

  /** The id list has one int per returned row, in row order. */
  lemma AlreadyIdsPerRow(fields: map<string, Value>)
    requires GetCartoAlreadyIds(ObjectReply(fields)).Ok?
    ensures var rows, ids := fields["rows"].rows, GetCartoAlreadyIds(ObjectReply(fields)).value;
      |ids| == |rows| && forall i :: 0 <= i < |rows| ==> Ok(ids[i]) == SocrataIdOf(rows[i])
  {
    MapOutcomeSpec(fields["rows"].rows, SocrataIdOf);
  }

  /** getsodacrashes on the decoded reply: a non-empty list is the crash
      list; an object whose 'error' is truthy ends with status 1 (its error
      branch names an undefined logger), one without 'error' with status 1
      (KeyError); any other reply with status 2. */
  function GetSodaCrashes(reply: Reply): (r: Outcome<seq<Row>>)
    ensures r.Ok? <==> reply.ListReply? && reply.items != []
    ensures r.Ok? ==> r.value == reply.items
    ensures r.Exit? && r.status == 1 <==> reply.ObjectReply? && ("error" !in reply.fields || Truthy(reply.fields["error"]))
    ensures r.Exit? ==> r.status in {1, 2}
  {
    match reply
    case ListReply(items) => if items != [] then Ok(items) else Exit(2)
    case ObjectReply(fields) =>
      if "error" !in fields then Exit(1)
      else if Truthy(fields["error"]) then Exit(1)
      else Exit(2)
  }

  // ------------------------------------------------ filtertomissingcrashes

  /** int(crash['collision_id']). */
  function CollisionId(crash: Row): Option<int>
  {
    if "collision_id" in crash then PyInt(crash["collision_id"]) else None
  }

  /** Whether a crash is one CARTO lacks. */
  predicate IsMissing(crash: Row, idsalready: seq<int>)
  {
    CollisionId(crash).Some? && CollisionId(crash).value !in idsalready
  }

  function Missing(idsalready: seq<int>): Row -> bool
  {
    c => IsMissing(c, idsalready)
  }

  /** The outcome of the filter loop. */
  function MissingCrashes(allcrashes: seq<Row>, idsalready: seq<int>): Outcome<seq<Row>>
  {
    if exists i :: 0 <= i < |allcrashes| && CollisionId(allcrashes[i]).None? then Exit(1)
    else Ok(Filter(allcrashes, Missing(idsalready)))
  }

  /** filtertomissingcrashes: keeps, in order, the crashes whose id is not
      among the known ids; a crash without a readable id ends the run. */
  method FiltertoMissingCrashes(allcrashes: seq<Row>, idsalready: seq<int>) returns (r: Outcome<seq<Row>>)
    ensures r.Exit? <==> exists i :: 0 <= i < |allcrashes| && CollisionId(allcrashes[i]).None?
    ensures r.Exit? ==> r.status == 1
    ensures r.Ok? ==> r.value == Filter(allcrashes, Missing(idsalready))
    ensures r == MissingCrashes(allcrashes, idsalready)
  {
    MissingCrashesOutcome(allcrashes, idsalready);
    var filtered: seq<Row> := [];
    for i := 0 to |allcrashes|
      invariant forall j :: 0 <= j < i ==> CollisionId(allcrashes[j]).Some?
      invariant filtered == Filter(allcrashes[..i], Missing(idsalready))
    {
      var readable;
      readable, filtered := KeepIfMissing(allcrashes, idsalready, i, filtered);
      if !readable {
        MissingCrashesExit(allcrashes, idsalready, i);
        return Exit(1);
      }
    }
    assert allcrashes[..|allcrashes|] == allcrashes;
    MissingCrashesOk(allcrashes, idsalready);
    r := Ok(filtered);
  }

  /** One pass of the filter loop: crash i's id is read, and a readable
      unknown id appends the crash. */
  method KeepIfMissing(allcrashes: seq<Row>, idsalready: seq<int>, i: nat, filtered: seq<Row>)
      returns (readable: bool, next: seq<Row>)
    requires i < |allcrashes| && filtered == Filter(allcrashes[..i], Missing(idsalready))
    ensures readable <==> CollisionId(allcrashes[i]).Some?
    ensures readable ==> next == Filter(allcrashes[..i + 1], Missing(idsalready))
  {
    var id := CollisionId(allcrashes[i]);
    if id.None? {
      return false, filtered;
    }
    MissingStep(allcrashes, idsalready, i);
    next := if id.value !in idsalready then filtered + [allcrashes[i]] else filtered;
    readable := true;
  }

  lemma MissingCrashesOutcome(allcrashes: seq<Row>, idsalready: seq<int>)
    ensures var r := MissingCrashes(allcrashes, idsalready);
      && (r.Exit? <==> exists i :: 0 <= i < |allcrashes| && CollisionId(allcrashes[i]).None?)
      && (r.Exit? ==> r.status == 1)
      && (r.Ok? ==> r.value == Filter(allcrashes, Missing(idsalready)))
  {
  }

  /** One more crash with a readable id: kept iff its id is unknown. */
  lemma MissingStep(allcrashes: seq<Row>, idsalready: seq<int>, i: nat)
    requires i < |allcrashes| && CollisionId(allcrashes[i]).Some?
    ensures Filter(allcrashes[..i + 1], Missing(idsalready)) ==
      Filter(allcrashes[..i], Missing(idsalready)) +
      (if CollisionId(allcrashes[i]).value !in idsalready then [allcrashes[i]] else [])
  {
    FilterStep(allcrashes, i, Missing(idsalready));
    assert Missing(idsalready)(allcrashes[i]) == (CollisionId(allcrashes[i]).value !in idsalready);
  }

  lemma MissingCrashesExit(allcrashes: seq<Row>, idsalready: seq<int>, i: nat)
    requires i < |allcrashes| && CollisionId(allcrashes[i]).None?
    ensures MissingCrashes(allcrashes, idsalready) == Exit(1)
  {
  }

  lemma MissingCrashesOk(allcrashes: seq<Row>, idsalready: seq<int>)
    requires forall j :: 0 <= j < |allcrashes| ==> CollisionId(allcrashes[j]).Some?
    ensures MissingCrashes(allcrashes, idsalready) == Ok(Filter(allcrashes, Missing(idsalready)))
  {
  }

  /** The kept crashes are exactly the input crashes CARTO lacks, in input
      order. */
  lemma MissingCrashesSpec(allcrashes: seq<Row>, idsalready: seq<int>)
    ensures var kept := Filter(allcrashes, Missing(idsalready));
      && IsSubsequence(kept, allcrashes)
      && forall c :: c in kept <==> c in allcrashes && CollisionId(c).Some? && CollisionId(c).value !in idsalready
  {
    FilterSpec(allcrashes, Missing(idsalready));
  }

  // -------------------------------------------------------- soda2data

  /** int(a) + int(b) + int(c) over three count fields. */
  function SumOf(row: Row, a: string, b: string, c: string): Option<int>
  {
    if a in row && b in row && c in row then Sum3(row[a], row[b], row[c]) else None
  }

  /** int(x) + int(y) + int(z); None when one of them is not a numeral. */
  function Sum3(x: Value, y: Value, z: Value): Option<int>
  {
    match (PyInt(x), PyInt(y), PyInt(z))
    case (Some(u), Some(v), Some(w)) => Some(u + v + w)
    case _ => None
  }

  /** Fills one missing aggregate with the sum of its three modes. */
  function Synthesize(row: Row, total: string, a: string, b: string, c: string): Outcome<Row>
  {
    if total in row then Ok(row)
    else match SumOf(row, a, b, c)
      case None => Exit(1)
      case Some(n) => Ok(row[total := VNum(n)])
  }

  /** The two `if 'number_of_persons_X' not in row` assignments. */
  function SynthesizeAggregates(row: Row): Outcome<Row>
  {
    match Synthesize(row, "number_of_persons_killed", "number_of_motorist_killed", "number_of_cyclist_killed", "number_of_pedestrians_killed")
    case Exit(s) => Exit(s)
    case Ok(r1) => Synthesize(r1, "number_of_persons_injured", "number_of_motorist_injured", "number_of_cyclist_injured", "number_of_pedestrians_injured")
  }

  /** A present aggregate is left as it is; a missing one becomes motorist +
      cyclist + pedestrians of the same kind; no other field changes. */
  lemma AggregateSynthesis(row: Row)
    requires SynthesizeAggregates(row).Ok?
    ensures var r := SynthesizeAggregates(row).value;
      && r.Keys == row.Keys + {"number_of_persons_killed", "number_of_persons_injured"}
      && (forall k :: k in row ==> r[k] == row[k])
      && ("number_of_persons_killed" !in row ==>
            r["number_of_persons_killed"] == VNum(SumOf(row, "number_of_motorist_killed", "number_of_cyclist_killed", "number_of_pedestrians_killed").value))
      && ("number_of_persons_injured" !in row ==>
            r["number_of_persons_injured"] == VNum(SumOf(row, "number_of_motorist_injured", "number_of_cyclist_injured", "number_of_pedestrians_injured").value))
  {
    var r1 := Synthesize(row, "number_of_persons_killed", "number_of_motorist_killed", "number_of_cyclist_killed", "number_of_pedestrians_killed").value;
    SynthesizeSpec(row, "number_of_persons_killed", "number_of_motorist_killed", "number_of_cyclist_killed", "number_of_pedestrians_killed");
    SumOfAgrees(row, r1, "number_of_motorist_injured", "number_of_cyclist_injured", "number_of_pedestrians_injured");
    SynthesizeSpec(r1, "number_of_persons_injured", "number_of_motorist_injured", "number_of_cyclist_injured", "number_of_pedestrians_injured");
  }

  /** One aggregate: kept when present, otherwise added as the sum; no
      other field changes. */
  lemma SynthesizeSpec(row: Row, total: string, a: string, b: string, c: string)
    requires Synthesize(row, total, a, b, c).Ok?
    ensures var r := Synthesize(row, total, a, b, c).value;
      && r.Keys == row.Keys + {total}
      && (forall k :: k in row ==> r[k] == row[k])
      && (total !in row ==> r[total] == VNum(SumOf(row, a, b, c).value))
  {
  }

  /** A row that only gains a key other than a, b and c sums them alike. */
  lemma SumOfAgrees(row: Row, grown: Row, a: string, b: string, c: string)
    requires forall k :: k in row ==> k in grown && grown[k] == row[k]
    requires forall k :: k in grown && k !in row ==> k != a && k != b && k != c
    ensures SumOf(grown, a, b, c) == SumOf(row, a, b, c)
  {
  }

  /** One crash's value tuple: aggregates synthesised, then rendered. */
  function RenderCrash(strptime: string -> Option<DateTime>): Row -> Outcome<string>
  {
    row =>
      match SynthesizeAggregates(row)
      case Exit(s) => Exit(s)
      case Ok(full) => RenderRow(full, BacklogSchema, strptime)
  }

  /** soda2data: one value tuple per crash, in crash order. */
  method Soda2Data(datarows: seq<Row>, strptime: string -> Option<DateTime>) returns (r: Outcome<seq<string>>)
    ensures r == MapOutcome(datarows, RenderCrash(strptime))
  {
    var vals: seq<string> := [];
    for i := 0 to |datarows|
      invariant MapOutcome(datarows[..i], RenderCrash(strptime)) == Ok(vals)
    {
      MapOutcomeStep(datarows, i, RenderCrash(strptime));
      var v := RenderCrash(strptime)(datarows[i]);
      if v.Exit? {
        MapOutcomeStops(datarows, i + 1, RenderCrash(strptime));
        return Exit(v.status);
      }
      vals := vals + [v.value];
    }
    assert datarows[..|datarows|] == datarows;
    return Ok(vals);
  }

  // ------------------------------------------------------ main block

  /** One INSERT per chunk of 40 values, in chunk order. */
  function InsertStatements(vals: seq<string>): seq<InsertSql>
  {
    var chunks := ListChunks(vals, InsertChunkSize);
    seq(|chunks|, i requires 0 <= i < |chunks| => CreateSqlInsert(chunks[i]))
  }

  /** Everything the main block computes before its insert loop: the checked
      argument, the window, the known ids, the month's crashes, the missing
      ones, rendered. A bad argument ends the run with status 1 before any
      request is made. */
  function PrepareValues(args: seq<string>, carto: string -> Reply, soda: string -> Reply,
                         strptime: string -> Option<DateTime>): (r: Outcome<seq<string>>)
    ensures MonthArgument(args, BacklogYears).Exit? ==> r == Exit(1)
    ensures r.Ok? ==> MonthArgument(args, BacklogYears).Ok? && Yyyymm2DateRange(args[0]).Ok?
  {
    match MonthArgument(args, BacklogYears)
    case Exit(s) => Exit(s)
    case Ok(yyyymm) =>
      match Yyyymm2DateRange(yyyymm)
      case Exit(s) => Exit(s)
      case Ok(window) =>
        match GetCartoAlreadyIds(carto(AlreadyIdsQuery(window.0, window.1)))
        case Exit(s) => Exit(s)
        case Ok(ids) =>
          match GetSodaCrashes(soda(SodaWhere(window.0, window.1)))
          case Exit(s) => Exit(s)
          case Ok(crashes) =>
            match MissingCrashes(crashes, ids)
            case Exit(s) => Exit(s)
            case Ok(missing) => MapOutcome(missing, RenderCrash(strptime))
  }

  /** The main block: the statements submitted, or the exit status. */
  method Run(args: seq<string>, carto: string -> Reply, soda: string -> Reply,
             strptime: string -> Option<DateTime>) returns (r: Outcome<seq<InsertSql>>)
    ensures PrepareValues(args, carto, soda, strptime).Exit? ==> r == Exit(PrepareValues(args, carto, soda, strptime).status)
    ensures PrepareValues(args, carto, soda, strptime).Ok? ==> r == Ok(InsertStatements(PrepareValues(args, carto, soda, strptime).value))
  {
    var yyyymm := MonthArgument(args, BacklogYears);
    if yyyymm.Exit? {
      return Exit(yyyymm.status);
    }
    var window := Yyyymm2DateRange(yyyymm.value);
    if window.Exit? {
      return Exit(window.status);
    }
    var (startdate, enddate) := window.value;
    var ids := GetCartoAlreadyIds(carto(AlreadyIdsQuery(startdate, enddate)));
    if ids.Exit? {
      return Exit(ids.status);
    }
    var crashes := GetSodaCrashes(soda(SodaWhere(startdate, enddate)));
    if crashes.Exit? {
      return Exit(crashes.status);
    }
    var missing := FiltertoMissingCrashes(crashes.value, ids.value);
    if missing.Exit? {
      return Exit(missing.status);
    }
    var vals := Soda2Data(missing.value, strptime);
    if vals.Exit? {
      return Exit(vals.status);
    }
    var statements := SubmitChunks(vals.value);
    return Ok(statements);
  }

  /** The insert loop: one statement per chunk, counting the chunks done. */
  method SubmitChunks(vals: seq<string>) returns (statements: seq<InsertSql>)
    ensures statements == InsertStatements(vals)
  {
    var insertChunks := ListChunks(vals, InsertChunkSize);
    statements := [];
    var done := 0;
    while done < |insertChunks|
      invariant 0 <= done <= |insertChunks|
      invariant statements == InsertStatements(vals)[..done]
    {
      statements := statements + [CreateSqlInsert(insertChunks[done])];
      done := done + 1;
    }
  }

  /** The statements insert every rendered value exactly once, in order,
      at most 40 per statement. */
  lemma InsertChunksCoverValues(vals: seq<string>)
    ensures var chunks := ListChunks(vals, InsertChunkSize);
      && |InsertStatements(vals)| == |chunks|
      && Flatten(chunks) == vals
      && forall i :: 0 <= i < |chunks| ==> 0 < |chunks[i]| <= InsertChunkSize
  {
    FlattenListChunks(vals, InsertChunkSize);
    ChunkSizes(vals, InsertChunkSize);
  }
}
