/** main.py, the daily sync: the SODA reply check, the socrata_ids CARTO
    already holds, the rendering of every crash CARTO lacks into one INSERT,
    and the intersections crash-count refresh in five modulus blocks. HTTP
    replies are parameters; a submitted statement is recorded, not run. */
module MainSync {
  import opened Common
  import opened CrashInsert
  import opened CrashRows
  import Chunks

  const MainSchema := Schema("date", "time", "unique_key")

  // ------------------------------------------------------ get_soda_data

  /** The check on the SODA reply: a non-empty list goes on; an object with
      a truthy 'error' ends with status 1, one without 'error' with status 1
      (KeyError); anything else is "no data" and sys.exit(), status 0. */
  function ClassifySodaReply(reply: Reply): (r: Outcome<seq<Row>>)
    ensures r.Ok? <==> reply.ListReply? && reply.items != []
    ensures r.Ok? ==> r.value == reply.items
    ensures r == Exit(1) <==> reply.ObjectReply? && ("error" !in reply.fields || Truthy(reply.fields["error"]))
    ensures r.Exit? ==> r.status == 0 || r.status == 1
  {
    match reply
    case ListReply(items) => if items != [] then Ok(items) else Exit(0)
    case ObjectReply(fields) =>
      if "error" !in fields then Exit(1)
      else if Truthy(fields["error"]) then Exit(1)
      else Exit(0)
  }

  function SocrataIdValue(r: Row): Outcome<Value>
  {
    if "socrata_id" in r then Ok(r["socrata_id"]) else Exit(1)
  }

  /** The existing-id fetch: missing or empty rows are fatal (status 1),
      and so is a row without socrata_id (KeyError); otherwise each row's
      socrata_id exactly as decoded, not cast. */
  function ExistingIds(reply: Reply): (r: Outcome<seq<Value>>)
    ensures (reply.ListReply? || NonEmptyRows(reply.fields).None?) ==> r == Exit(1)
    ensures r.Ok? <==>
      && reply.ObjectReply? && NonEmptyRows(reply.fields).Some?
      && forall i :: 0 <= i < |NonEmptyRows(reply.fields).value| ==> "socrata_id" in NonEmptyRows(reply.fields).value[i]
    ensures r.Exit? ==> r == Exit(1)
    ensures r.Ok? ==> (
      && reply.ObjectReply? && NonEmptyRows(reply.fields).Some?
      && var rows := NonEmptyRows(reply.fields).value;
        |r.value| == |rows| && forall i :: 0 <= i < |rows| ==> "socrata_id" in rows[i] && r.value[i] == rows[i]["socrata_id"])
  {
    match reply
    case ListReply(_) => Exit(1)
    case ObjectReply(fields) =>
      match NonEmptyRows(fields)
      case None => Exit(1)
      case Some(rows) =>
        MapOutcomeSpec(rows, SocrataIdValue);
        MapOutcome(rows, SocrataIdValue)
  }

  // ------------------------------------------------- format_soda_response

  /** int(row['unique_key']). */
  function UniqueKey(row: Row): Option<int>
  {
    if "unique_key" in row then PyInt(row["unique_key"]) else None
  }

  /** `int(row['unique_key']) in already_ids`, with Python's int-to-value
      equality. */
  predicate AlreadyPresent(row: Row, already: seq<Value>)
  {
    UniqueKey(row).Some? && exists v :: v in already && IntEquals(UniqueKey(row).value, v)
  }

  predicate IsNew(row: Row, already: seq<Value>)
  {
    UniqueKey(row).Some? && !AlreadyPresent(row, already)
  }

  function RenderMain(strptime: string -> Option<DateTime>): Row -> Outcome<string>
  {
    row => RenderRow(row, MainSchema, strptime)
  }

  /** The rows the loop keeps: readable keys not yet at CARTO, in order. */
  function Kept(datarows: seq<Row>, already: seq<Value>): seq<Row>
  {
    Filter(datarows, row => IsNew(row, already))
  }

  /** One step of the loop: a row already at CARTO leaves the result as it
      is, a new one adds its rendering or stops the loop. */
  lemma KeptStep(datarows: seq<Row>, already: seq<Value>, f: Row -> Outcome<string>, i: nat, vals: seq<string>)
    requires i < |datarows| && MapOutcome(Kept(datarows[..i], already), f) == Ok(vals)
    ensures !IsNew(datarows[i], already) ==> MapOutcome(Kept(datarows[..i + 1], already), f) == Ok(vals)
    ensures IsNew(datarows[i], already) ==> (MapOutcome(Kept(datarows[..i + 1], already), f) ==
      match f(datarows[i]) case Exit(s) => Exit(s) case Ok(u) => Ok(vals + [u]))
  {
    assert datarows[..i + 1][..i] == datarows[..i];
    if IsNew(datarows[i], already) {
      MapOutcomeSnoc(Kept(datarows[..i], already), datarows[i], f);
    }
  }

  /** What the loop of format_soda_response collects: every row with a
      readable unique_key not yet at CARTO, rendered in order; any row whose
      unique_key cannot be read ends the run with status 1. */
  function NewRowValues(datarows: seq<Row>, already: seq<Value>, strptime: string -> Option<DateTime>): Outcome<seq<string>>
  {
    if exists i :: 0 <= i < |datarows| && UniqueKey(datarows[i]).None? then Exit(1)
    else MapOutcome(Kept(datarows, already), RenderMain(strptime))
  }

  /** format_soda_response: the rows already at CARTO are skipped, the
      others rendered in order; then the one INSERT of update_carto_table. */
  method FormatSodaResponse(datarows: seq<Row>, already: seq<Value>, strptime: string -> Option<DateTime>)
    returns (r: Outcome<InsertSql>)
    ensures NewRowValues(datarows, already, strptime).Exit? ==> r == Exit(1)
    ensures NewRowValues(datarows, already, strptime).Ok? ==> r == Ok(CreateSqlInsert(NewRowValues(datarows, already, strptime).value))
  {
    var vals := RenderNewRows(datarows, already, strptime);
    if vals.Exit? {
      return Exit(1);
    }
    return Ok(CreateSqlInsert(vals.value));
  }

  /** The loop of format_soda_response: the value tuples of the rows not
      yet at CARTO, in order; a row without unique_key, or one that cannot
      be rendered, ends the run with status 1. */
  method RenderNewRows(datarows: seq<Row>, already: seq<Value>, strptime: string -> Option<DateTime>)
    returns (r: Outcome<seq<string>>)
    ensures r == NewRowValues(datarows, already, strptime)
    ensures r.Exit? ==> r == Exit(1)
  {
    var vals: seq<string> := [];
    for i := 0 to |datarows|
      invariant forall j :: 0 <= j < i ==> UniqueKey(datarows[j]).Some?
      invariant MapOutcome(Kept(datarows[..i], already), RenderMain(strptime)) == Ok(vals)
    {
      var row := datarows[i];
      var key := UniqueKey(row);
      if key.None? {
        assert UniqueKey(datarows[i]).None?;
        return Exit(1);
      }
      assert forall j :: 0 <= j < i + 1 ==> UniqueKey(datarows[j]).Some?;
      KeptStep(datarows, already, RenderMain(strptime), i, vals);
      if exists v :: v in already && IntEquals(key.value, v) {
        continue;
      }
      var v := RenderMain(strptime)(row);
      if v.Exit? {
        RenderFailureExits(datarows, already, strptime, i);
        return Exit(1);
      }
      vals := vals + [v.value];
    }
    assert datarows[..|datarows|] == datarows;
    return Ok(vals);
  }

  /** A kept row that cannot be rendered ends the whole loop with status 1. */
  lemma RenderFailureExits(datarows: seq<Row>, already: seq<Value>, strptime: string -> Option<DateTime>, i: nat)
    requires i < |datarows|
    requires MapOutcome(Kept(datarows[..i + 1], already), RenderMain(strptime)).Exit?
    ensures NewRowValues(datarows, already, strptime) == Exit(1)
  {
    if !exists j :: 0 <= j < |datarows| && UniqueKey(datarows[j]).None? {
      var head, tail := Kept(datarows[..i + 1], already), Kept(datarows[i + 1..], already);
      assert Kept(datarows, already) == head + tail by {
        KeptSplit(datarows, already, i + 1);
      }
      assert MapOutcome(head + tail, RenderMain(strptime)) == Exit(1) by {
        MapOutcomePrefixExit(head, tail, RenderMain(strptime));
        RenderFailureStatus(head, strptime);
      }
    }
  }

  /** The kept rows of a list are those of its two parts, in order. */
  lemma KeptSplit(datarows: seq<Row>, already: seq<Value>, k: nat)
    requires k <= |datarows|
    ensures Kept(datarows, already) == Kept(datarows[..k], already) + Kept(datarows[k..], already)
  {
    assert datarows == datarows[..k] + datarows[k..];
    FilterAppend(datarows[..k], datarows[k..], row => IsNew(row, already));
  }

  /** Rendering only ever fails with status 1. */
  lemma {:induction false} RenderFailureStatus(rows: seq<Row>, strptime: string -> Option<DateTime>)
    ensures MapOutcome(rows, RenderMain(strptime)).Exit? ==> MapOutcome(rows, RenderMain(strptime)) == Exit(1)
  {
    if rows != [] {
      RenderFailureStatus(rows[..|rows| - 1], strptime);
    }
  }

  /** The rows rendered are exactly the input rows whose key is not among
      the ids already at CARTO, in input order, one value tuple each. */
  lemma NewRowsSpec(datarows: seq<Row>, already: seq<Value>, strptime: string -> Option<DateTime>)
    requires NewRowValues(datarows, already, strptime).Ok?
    ensures var kept := Kept(datarows, already);
      && IsSubsequence(kept, datarows)
      && (forall row :: row in kept <==> row in datarows && !AlreadyPresent(row, already))
      && |NewRowValues(datarows, already, strptime).value| == |kept|
      && forall i :: 0 <= i < |kept| ==> Ok(NewRowValues(datarows, already, strptime).value[i]) == RenderRow(kept[i], MainSchema, strptime)
  {
    assert forall i :: 0 <= i < |datarows| ==> UniqueKey(datarows[i]).Some?;
    KeptRows(datarows, already);
    RenderedRows(datarows, already, strptime);
  }

  /** With every key readable, the kept rows are the input rows not yet at
      CARTO, in input order. */
  lemma KeptRows(datarows: seq<Row>, already: seq<Value>)
    requires forall i :: 0 <= i < |datarows| ==> UniqueKey(datarows[i]).Some?
    ensures var kept := Kept(datarows, already);
      && IsSubsequence(kept, datarows)
      && (forall row :: row in kept <==> row in datarows && !AlreadyPresent(row, already))
  {
    var p := row => IsNew(row, already);
    FilterSpec(datarows, p);
  }

  /** One rendered value per kept row, in order. */
  lemma RenderedRows(datarows: seq<Row>, already: seq<Value>, strptime: string -> Option<DateTime>)
    requires NewRowValues(datarows, already, strptime).Ok?
    ensures var kept := Kept(datarows, already);
      && |NewRowValues(datarows, already, strptime).value| == |kept|
      && forall i :: 0 <= i < |kept| ==> Ok(NewRowValues(datarows, already, strptime).value[i]) == RenderRow(kept[i], MainSchema, strptime)
  {
    MapOutcomeSpec(Kept(datarows, already), RenderMain(strptime));
  }

  /** get_soda_data followed by format_soda_response: the SODA reply is
      checked, then the existing ids, then the new crashes become the one
      INSERT. The replies to the two date-bounded queries are parameters,
      since the date is today's. */
  method GetSodaData(sodaReply: Reply, cartoReply: Reply, strptime: string -> Option<DateTime>) returns (r: Outcome<InsertSql>)
    ensures ClassifySodaReply(sodaReply).Exit? ==> r == Exit(ClassifySodaReply(sodaReply).status)
    ensures ClassifySodaReply(sodaReply).Ok? && ExistingIds(cartoReply).Exit? ==> r == Exit(1)
    ensures ClassifySodaReply(sodaReply).Ok? && ExistingIds(cartoReply).Ok? ==>
      var rows, already := ClassifySodaReply(sodaReply).value, ExistingIds(cartoReply).value;
      (NewRowValues(rows, already, strptime).Exit? ==> r == Exit(1)) &&
      (NewRowValues(rows, already, strptime).Ok? ==> r == Ok(CreateSqlInsert(NewRowValues(rows, already, strptime).value)))
  {
    var crashdata := ClassifySodaReply(sodaReply);
    if crashdata.Exit? {
      return Exit(crashdata.status);
    }
    var socrataAlready := ExistingIds(cartoReply);
    if socrataAlready.Exit? {
      return Exit(1);
    }
    r := FormatSodaResponse(crashdata.value, socrataAlready.value, strptime);
  }

  // ------------------------------------- update_intersections_crashcount

  const IntersectionsTable := "nyc_intersections"
  const HowManyBlocks := 5

  /** get_date_monthsago_from_carto's query for 36 months back. */
  const MonthsAgoQuery := "SELECT current_date - INTERVAL '36 months' AS backthen"

  /** data['rows'][0]['backthen'], fatal (status 1) without rows or without
      that field. */
  function DateMonthsAgo(reply: Reply): (r: Outcome<string>)
    ensures r.Ok? <==> reply.ObjectReply? && NonEmptyRows(reply.fields).Some? && "backthen" in NonEmptyRows(reply.fields).value[0]
    ensures r.Ok? ==> r.value == Str(NonEmptyRows(reply.fields).value[0]["backthen"])
    ensures r.Exit? ==> r.status == 1
  {
    match reply
    case ListReply(_) => Exit(1)
    case ObjectReply(fields) =>
      match NonEmptyRows(fields)
      case None => Exit(1)
      case Some(rows) => if "backthen" in rows[0] then Ok(Str(rows[0]["backthen"])) else Exit(1)
  }

  /** The statements update_intersections_crashcount submits, held as their
      parts; their text is CrashcountText. */
  datatype CrashcountSql = ResetCrashcount | CountBlock(block: nat, since: string)

  /** The condition that selects block b: cartodb_id modulo 5 equals b. */
  function ResidueFilter(b: nat): string
  {
    IntersectionsTable + ".cartodb_id % " + NatToString(HowManyBlocks) + " = " + NatToString(b)
  }

  /** The crashes a block counts: injury or fatal crashes since `since`. */
  function SinceFilter(since: string): string
  {
    CrashesTable + ".date_val >= '" + since + "'"
  }

  const HarmFilter := "(" + CrashesTable + ".number_of_persons_injured > 0 OR " + CrashesTable + ".number_of_persons_killed > 0)"

  /** A block's statement, cut at its AND conditions. */
  function CountPieces(block: nat, since: string): seq<string>
  {
    ["WITH counts AS ( SELECT " + IntersectionsTable + ".the_geom, " + IntersectionsTable + ".cartodb_id, COUNT(*) AS howmany FROM " +
     CrashesTable + " JOIN " + IntersectionsTable + " ON ST_CONTAINS(" + IntersectionsTable + ".the_geom," + CrashesTable + ".the_geom)",
     " AND ", SinceFilter(since), " AND ", HarmFilter, " AND ", ResidueFilter(block),
     " GROUP BY " + IntersectionsTable + ".cartodb_id ) UPDATE " + IntersectionsTable +
     " SET crashcount = counts.howmany FROM counts WHERE " + IntersectionsTable + ".cartodb_id = counts.cartodb_id"]
  }

  /** The statement texts, whitespace read as single spaces. A block's
      statement counts, for the intersections whose cartodb_id leaves
      remainder `block` modulo 5, the injury or fatal crashes inside them
      since `since`. */
  function CrashcountText(s: CrashcountSql): string
  {
    match s
    case ResetCrashcount => "UPDATE " + IntersectionsTable + " SET crashcount=NULL"
    case CountBlock(block, since) => Chunks.Flatten(CountPieces(block, since))
  }

  /** Block b's statement counts the injury and fatal crashes since the
      given date and is restricted to the residue class b. */
  lemma CountBlockFilters(b: nat, since: string)
    ensures var t := CrashcountText(CountBlock(b, since));
      Contains(t, SinceFilter(since)) && Contains(t, HarmFilter) && Contains(t, ResidueFilter(b))
  {
    var ps := CountPieces(b, since);
    Chunks.FlattenContains(ps, 2);
    Chunks.FlattenContains(ps, 4);
    Chunks.FlattenContains(ps, 6);
  }

  /** The five residue filters are different: the last character of block
      b's filter is b's digit. */
  lemma ResidueFiltersDiffer(b: nat, c: nat)
    requires b < HowManyBlocks && c < HowManyBlocks
    ensures ResidueFilter(b) == ResidueFilter(c) <==> b == c
  {
    var fb, fc := ResidueFilter(b), ResidueFilter(c);
    assert NatToString(b) == [DigitChar(b)] && NatToString(c) == [DigitChar(c)];
    assert fb[|fb| - 1] == DigitChar(b) && fc[|fc| - 1] == DigitChar(c);
  }

  /** update_intersections_crashcount: the reset is submitted first; then
      the date is fetched (the run ends with status 1 if that fails, after
      the reset); then one statement per block 0..4, in block order. */
  method UpdateIntersectionsCrashcount(carto: string -> Reply) returns (submitted: seq<CrashcountSql>, exit: Option<int>)
    ensures |submitted| >= 1 && submitted[0] == ResetCrashcount
    ensures DateMonthsAgo(carto(MonthsAgoQuery)).Exit? ==> submitted == [ResetCrashcount] && exit == Some(1)
    ensures DateMonthsAgo(carto(MonthsAgoQuery)).Ok? ==>
      && exit.None? && |submitted| == 1 + HowManyBlocks
      && forall b :: 0 <= b < HowManyBlocks ==> submitted[1 + b] == CountBlock(b, DateMonthsAgo(carto(MonthsAgoQuery)).value)
  {
    submitted := [ResetCrashcount];
    var sincewhen := DateMonthsAgo(carto(MonthsAgoQuery));
    if sincewhen.Exit? {
      return submitted, Some(1);
    }
    for thisblock := 0 to HowManyBlocks
      invariant |submitted| == 1 + thisblock && submitted[0] == ResetCrashcount
      invariant forall b :: 0 <= b < thisblock ==> submitted[1 + b] == CountBlock(b, sincewhen.value)
    {
      submitted := submitted + [CountBlock(thisblock, sincewhen.value)];
    }
    return submitted, None;
  }

  /** The blocks submitted after the reset partition the intersections:
      every cartodb_id falls in exactly one of them, the one whose
      statement text carries the filter for the id's residue. */
  lemma BlocksPartition(blocks: seq<CrashcountSql>, since: string, id: nat)
    requires |blocks| == HowManyBlocks && forall b :: 0 <= b < HowManyBlocks ==> blocks[b] == CountBlock(b, since)
    ensures exists j :: 0 <= j < |blocks| && blocks[j].block == id % HowManyBlocks
    ensures forall j, k :: 0 <= j < |blocks| && 0 <= k < |blocks| && blocks[j].block == id % HowManyBlocks && blocks[k].block == id % HowManyBlocks ==> j == k
    ensures Contains(CrashcountText(blocks[id % HowManyBlocks]), ResidueFilter(id % HowManyBlocks))
    ensures forall j :: 0 <= j < |blocks| ==> (ResidueFilter(blocks[j].block) == ResidueFilter(id % HowManyBlocks) <==> j == id % HowManyBlocks)
  {
    assert blocks[id % HowManyBlocks].block == id % HowManyBlocks;
    CountBlockFilters(id % HowManyBlocks, since);
    forall j | 0 <= j < |blocks|
      ensures ResidueFilter(blocks[j].block) == ResidueFilter(id % HowManyBlocks) <==> j == id % HowManyBlocks
    {
      ResidueFiltersDiffer(j, id % HowManyBlocks);
    }
  }
}
