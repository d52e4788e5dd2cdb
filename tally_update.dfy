/** fixtallies/2-update_carto.py: one UPDATE per row of the diffs file,
    writing the corrected counts of one crash, with a progress line every
    100 rows, a VACUUM every 2500 rows, and a final VACUUM FULL. Submitted
    statements and progress lines are recorded as a trace of events. */
module TallyUpdate {
  import opened Common
  import Chunks

  /** The eight assignments in statement order: the column set, then the
      diffs column its value comes from. The pedestrian values come from
      the plural columns and go to the singular ones. */
  function Assignment(k: nat): (string, string)
    requires k < AssignmentCount
  {
    if k == 0 then ("number_of_persons_injured", "number_of_persons_injured")
    else if k == 1 then ("number_of_cyclist_injured", "number_of_cyclist_injured")
    else if k == 2 then ("number_of_motorist_injured", "number_of_motorist_injured")
    else if k == 3 then ("number_of_pedestrian_injured", "number_of_pedestrians_injured")
    else if k == 4 then ("number_of_persons_killed", "number_of_persons_killed")
    else if k == 5 then ("number_of_cyclist_killed", "number_of_cyclist_killed")
    else if k == 6 then ("number_of_motorist_killed", "number_of_motorist_killed")
    else ("number_of_pedestrian_killed", "number_of_pedestrians_killed")
  }

  const AssignmentCount := 8

  /** The statements, held as their parts; their text is TallyText. */
  datatype TallySql = UpdateCounts(values: seq<string>, socrataId: string) | Vacuum | VacuumFull

  /** Assignment k of the SET list: its column, '=', and value k. */
  function SetItem(values: seq<string>, k: nat): string
    requires k < |values| && |values| <= AssignmentCount
  {
    Assignment(k).0 + "=" + values[k]
  }

  function SetList(values: seq<string>, k: nat): string
    requires k <= |values| && |values| <= AssignmentCount
    decreases |values| - k
  {
    if k == |values| then ""
    else (if k == 0 then "" else ", ") + SetItem(values, k) + SetList(values, k + 1)
  }

  /** The statement texts, stripped, whitespace read as single spaces. */
  function TallyText(s: TallySql): string
  {
    match s
    case UpdateCounts(values, id) =>
      if |values| <= AssignmentCount then "UPDATE " + CrashesTable + " SET " + SetList(values, 0) + " WHERE socrata_id=" + id
      else ""
    case Vacuum => "VACUUM " + CrashesTable
    case VacuumFull => "VACUUM FULL " + CrashesTable
  }

  datatype Event = Submit(sql: TallySql) | Progress(done: nat)

  /** Every cell the statement reads is there; otherwise KeyError. */
  predicate RowReadable(row: CsvRow)
  {
    "socrata_id" in row && forall k :: 0 <= k < AssignmentCount ==> Assignment(k).1 in row
  }

  /** The UPDATE of one row: value k of the statement is the row's cell of
      diffs column k, the target is the row's socrata_id. */
  function UpdateOf(row: CsvRow): (s: TallySql)
    requires RowReadable(row)
    ensures s.UpdateCounts? && s.socrataId == row["socrata_id"] && |s.values| == AssignmentCount
    ensures forall k :: 0 <= k < AssignmentCount ==> s.values[k] == row[Assignment(k).1]
  {
    UpdateCounts(seq(AssignmentCount, k requires 0 <= k < AssignmentCount => row[Assignment(k).1]), row["socrata_id"])
  }

  /** Every assignment from position k on appears in the SET list. */
  lemma {:induction false} SetListAssigns(values: seq<string>, k: nat, j: nat)
    requires k <= j < |values| <= AssignmentCount
    ensures Contains(SetList(values, k), SetItem(values, j))
    decreases j - k
  {
    var sep := if k == 0 then "" else ", ";
    var item := SetItem(values, k);
    var rest := SetList(values, k + 1);
    assert SetList(values, k) == sep + item + rest;
    if j == k {
      ContainsPart(sep, item, rest);
    } else {
      SetListAssigns(values, k + 1, j);
      ContainsIn(sep + item, rest, "", SetItem(values, j));
      assert sep + item + rest + "" == SetList(values, k);
    }
  }

  /** The statement of one row sets each crashes-table column to the row's
      cell of its diffs column (the singular pedestrian columns from the
      plural diffs columns) and targets the row's socrata_id. */
  lemma UpdateTextAssigns(row: CsvRow)
    requires RowReadable(row)
    ensures var t, head := TallyText(UpdateOf(row)), "UPDATE " + CrashesTable + " SET ";
      && t[..|head|] == head
      && (forall k :: 0 <= k < AssignmentCount ==> Contains(t, Assignment(k).0 + "=" + row[Assignment(k).1]))
      && t[|t| - |" WHERE socrata_id=" + row["socrata_id"]|..] == " WHERE socrata_id=" + row["socrata_id"]
    ensures Assignment(3) == ("number_of_pedestrian_injured", "number_of_pedestrians_injured")
    ensures Assignment(7) == ("number_of_pedestrian_killed", "number_of_pedestrians_killed")
  {
    var s := UpdateOf(row);
    var head, assigns, tail := "UPDATE " + CrashesTable + " SET ", SetList(s.values, 0), " WHERE socrata_id=" + row["socrata_id"];
    var t := TallyText(s);
    assert t == head + assigns + tail;
    forall k | 0 <= k < AssignmentCount
      ensures Contains(t, Assignment(k).0 + "=" + row[Assignment(k).1])
    {
      SetListAssigns(s.values, 0, k);
      ContainsIn(head, assigns, tail, SetItem(s.values, k));
    }
    assert t[|t| - |tail|..] == tail;
  }

  /** What the n-th row (counting from 1) adds to the trace. */
  function RowEvents(row: CsvRow, n: nat): seq<Event>
    requires RowReadable(row)
  {
    [Submit(UpdateOf(row))] + (if n % 100 == 0 then [Progress(n)] else []) + (if n % 2500 == 0 then [Submit(Vacuum)] else [])
  }

  /** The row loop: the events of the rows in order, and the status 1 of
      the first row missing a column, after which nothing more happens. */
  function Trace(rows: seq<CsvRow>): (seq<Event>, Option<int>)
  {
    if rows == [] then ([], None)
    else Extend(Trace(rows[..|rows| - 1]), rows[|rows| - 1], |rows|)
  }

  /** The n-th row after the loop's state so far. */
  function Extend(before: (seq<Event>, Option<int>), row: CsvRow, n: nat): (seq<Event>, Option<int>)
  {
    if before.1.Some? then before
    else if !RowReadable(row) then (before.0, Some(1))
    else (before.0 + RowEvents(row, n), None)
  }

  /** run: the row loop, then VACUUM FULL, which is submitted even when
      there are no rows. */
  method Run(rows: seq<CsvRow>) returns (events: seq<Event>, exit: Option<int>)
    ensures exit == Trace(rows).1
    ensures exit.Some? ==> events == Trace(rows).0
    ensures exit.None? ==> events == Trace(rows).0 + [Submit(VacuumFull)]
  {
    events := [];
    var howmanydone: nat := 0;
    for i := 0 to |rows|
      invariant howmanydone == i
      invariant Trace(rows[..i]) == (events, None)
    {
      var crashinfo := rows[i];
      assert rows[..i + 1][..i] == rows[..i];
      if !RowReadable(crashinfo) {
        TraceStops(rows, i + 1);
        return events, Some(1);
      }
      ghost var before := events;
      events := events + [Submit(UpdateOf(crashinfo))];
      howmanydone := howmanydone + 1;
      if howmanydone % 100 == 0 {
        events := events + [Progress(howmanydone)];
      }
      if howmanydone % 2500 == 0 {
        events := events + [Submit(Vacuum)];
      }
      assert events == before + RowEvents(crashinfo, howmanydone);
    }
    assert rows[..|rows|] == rows;
    events := events + [Submit(VacuumFull)];
    return events, None;
  }

  lemma {:induction false} TraceStops(rows: seq<CsvRow>, i: nat)
    requires i <= |rows| && Trace(rows[..i]).1.Some?
    ensures Trace(rows) == Trace(rows[..i])
    decreases |rows| - i
  {
    if i < |rows| {
      assert rows[..i + 1][..i] == rows[..i];
      TraceStops(rows, i + 1);
    } else {
      assert rows[..i] == rows;
    }
  }

  // ------------------------------------------------------------ counting

  predicate IsUpdate(e: Event) { e.Submit? && e.sql.UpdateCounts? }
  predicate IsVacuum(e: Event) { e == Submit(Vacuum) }
  predicate IsProgress(e: Event) { e.Progress? }

  /** (n + 1) / d steps up by one exactly when d divides n + 1. */
  lemma DivStep(n: nat, d: nat)
    requires d > 0
    ensures (n + 1) / d == n / d + (if (n + 1) % d == 0 then 1 else 0)
  {
    var q, r := n / d, n % d;
    assert n == q * d + r;
    if r == d - 1 {
      assert n + 1 == (q + 1) * d + 0;
      Chunks.DivUnique(n + 1, d, q + 1, 0);
    } else {
      Chunks.DivUnique(n + 1, d, q, r + 1);
    }
  }

  lemma RowEventsCounts(row: CsvRow, n: nat)
    requires RowReadable(row)
    ensures Filter(RowEvents(row, n), IsUpdate) == [Submit(UpdateOf(row))]
    ensures |Filter(RowEvents(row, n), IsVacuum)| == if n % 2500 == 0 then 1 else 0
    ensures |Filter(RowEvents(row, n), IsProgress)| == if n % 100 == 0 then 1 else 0
  {
    var a, b, c := [Submit(UpdateOf(row))], (if n % 100 == 0 then [Progress(n)] else []), (if n % 2500 == 0 then [Submit(Vacuum)] else []);
    assert RowEvents(row, n) == a + b + c;
    FilterAppend(a + b, c, IsUpdate);
    FilterAppend(a, b, IsUpdate);
    FilterAppend(a + b, c, IsVacuum);
    FilterAppend(a, b, IsVacuum);
    FilterAppend(a + b, c, IsProgress);
    FilterAppend(a, b, IsProgress);
  }

  /** A run that did not stop had every row readable. */
  lemma {:induction false} TraceReadable(rows: seq<CsvRow>)
    requires Trace(rows).1.None?
    ensures forall i :: 0 <= i < |rows| ==> RowReadable(rows[i])
  {
    if rows != [] {
      var init := rows[..|rows| - 1];
      TraceReadable(init);
      assert forall i :: 0 <= i < |init| ==> init[i] == rows[i];
    }
  }

  /** The row loop's events of a run that did not stop, split at the last
      row. */
  lemma TraceSnoc(rows: seq<CsvRow>)
    requires rows != [] && Trace(rows).1.None?
    ensures Trace(rows[..|rows| - 1]).1.None? && RowReadable(rows[|rows| - 1])
    ensures Trace(rows).0 == Trace(rows[..|rows| - 1]).0 + RowEvents(rows[|rows| - 1], |rows|)
  {
  }

  /** One UPDATE per row, in row order. */
  function UpdatesOf(rows: seq<CsvRow>): (r: seq<Event>)
    requires forall i :: 0 <= i < |rows| ==> RowReadable(rows[i])
    ensures |r| == |rows| && forall i :: 0 <= i < |rows| ==> r[i] == Submit(UpdateOf(rows[i]))
  {
    if rows == [] then []
    else
      assert forall i :: 0 <= i < |rows| - 1 ==> rows[..|rows| - 1][i] == rows[i];
      UpdatesOf(rows[..|rows| - 1]) + [Submit(UpdateOf(rows[|rows| - 1]))]
  }

  /** The UPDATEs of a complete run: one per row, in row order. */
  lemma {:induction false} TraceUpdates(rows: seq<CsvRow>)
    requires Trace(rows).1.None?
    ensures forall i :: 0 <= i < |rows| ==> RowReadable(rows[i])
    ensures Filter(Trace(rows).0, IsUpdate) == UpdatesOf(rows)
  {
    TraceReadable(rows);
    if rows != [] {
      var init, last, n := rows[..|rows| - 1], rows[|rows| - 1], |rows|;
      TraceSnoc(rows);
      TraceUpdates(init);
      RowEventsCounts(last, n);
      FilterAppend(Trace(init).0, RowEvents(last, n), IsUpdate);
    }
  }

  /** The VACUUMs of a complete run: one per 2500 rows. */
  lemma {:induction false} TraceVacuums(rows: seq<CsvRow>)
    requires Trace(rows).1.None?
    ensures |Filter(Trace(rows).0, IsVacuum)| == |rows| / 2500
  {
    if rows != [] {
      var init, last, n := rows[..|rows| - 1], rows[|rows| - 1], |rows|;
      TraceSnoc(rows);
      TraceVacuums(init);
      RowEventsCounts(last, n);
      FilterAppend(Trace(init).0, RowEvents(last, n), IsVacuum);
      DivStep(n - 1, 2500);
    }
  }

  /** The progress lines of a complete run: one per 100 rows. */
  lemma {:induction false} TraceProgress(rows: seq<CsvRow>)
    requires Trace(rows).1.None?
    ensures |Filter(Trace(rows).0, IsProgress)| == |rows| / 100
  {
    if rows != [] {
      var init, last, n := rows[..|rows| - 1], rows[|rows| - 1], |rows|;
      TraceSnoc(rows);
      TraceProgress(init);
      RowEventsCounts(last, n);
      FilterAppend(Trace(init).0, RowEvents(last, n), IsProgress);
      DivStep(n - 1, 100);
    }
  }

  /** A run without a missing column submits exactly one UPDATE per row, in
      row order, |rows| / 2500 VACUUMs and |rows| / 100 progress lines. */
  lemma TraceCounts(rows: seq<CsvRow>)
    requires Trace(rows).1.None?
    ensures forall i :: 0 <= i < |rows| ==> RowReadable(rows[i])
    ensures Filter(Trace(rows).0, IsUpdate) == UpdatesOf(rows)
    ensures |Filter(Trace(rows).0, IsVacuum)| == |rows| / 2500
    ensures |Filter(Trace(rows).0, IsProgress)| == |rows| / 100
  {
    TraceUpdates(rows);
    TraceVacuums(rows);
    TraceProgress(rows);
  }

  /** VACUUM FULL appears nowhere in the row loop's events, so in a
      complete run it is the last statement and the only one. */
  lemma {:induction false} VacuumFullNowhere(rows: seq<CsvRow>)
    ensures Submit(VacuumFull) !in Trace(rows).0
  {
    if rows != [] {
      VacuumFullNowhere(rows[..|rows| - 1]);
    }
  }
}
