/** findgeomupdates/2-make_diffs_csv.py: the SODA rows whose collision_id is
    in the CARTO export, and the ones among them whose position moved more
    than the drift threshold, written out with their old and new
    coordinates. float() is a parameter that yields a value of an abstract
    type F (or None where it raises), str() of such a value another, and
    haversine an integer-valued function of four of them. */
module GeomDiffs {
  import opened Common
  import opened Chunks
  import opened Steps

  /** DISTANCE_THRESHOLD, in meters. */
  const DistanceThreshold := 15

  /** One entry of `updates`. */
  datatype Update<F> = Update(socrataId: string, cartodbId: string, dateVal: string,
                              latNew: F, lngNew: F, latOld: F, lngOld: F, metersdiff: int)

  const DiffsHeader: seq<string> := ["socrata_id", "cartodb_id", "date_val", "lat_new", "lng_new", "lat_old", "lng_old", "metersdiff"]

  // ---------------------------------------------------------- candidates

  /** [row for row in spamreader if row['collision_id'] in existing_records];
      a row without the column raises KeyError (status 1). */
  function PotentialUpdates(soda: seq<CsvRow>, existing: map<string, CsvRow>): Outcome<seq<CsvRow>>
  {
    if forall i :: 0 <= i < |soda| ==> "collision_id" in soda[i] then
      Ok(Filter(soda, Known(existing)))
    else Exit(1)
  }

  /** The comprehension's test. */
  predicate IsKnown(existing: map<string, CsvRow>, row: CsvRow)
  {
    "collision_id" in row && row["collision_id"] in existing
  }

  function Known(existing: map<string, CsvRow>): CsvRow -> bool
  {
    row => IsKnown(existing, row)
  }

  /** The candidates are exactly the SODA rows whose collision_id is a key
      of the CARTO map, in file order. */
  lemma PotentialUpdatesSpec(soda: seq<CsvRow>, existing: map<string, CsvRow>)
    ensures PotentialUpdates(soda, existing).Ok? <==> forall i :: 0 <= i < |soda| ==> "collision_id" in soda[i]
    ensures PotentialUpdates(soda, existing).Exit? ==> PotentialUpdates(soda, existing).status == 1
    ensures PotentialUpdates(soda, existing).Ok? ==>
      && (forall row :: row in PotentialUpdates(soda, existing).value <==>
            row in soda && "collision_id" in row && row["collision_id"] in existing)
      && IsSubsequence(PotentialUpdates(soda, existing).value, soda)
  {
    FilterSpec(soda, Known(existing));
    if PotentialUpdates(soda, existing).Ok? {
      var p := PotentialUpdates(soda, existing).value;
      assert p == Filter(soda, Known(existing));
      forall row ensures row in p <==> row in soda && "collision_id" in row && row["collision_id"] in existing {
        if row in soda {
          var i :| 0 <= i < |soda| && soda[i] == row;
          assert "collision_id" in soda[i];
        }
      }
    }
  }

  // ------------------------------------------------------------ drift

  /** lat_old, lng_old, lat_new, lng_new as float() reads them; None when a
      column is missing or float() rejects it. */
  function Coordinates<F>(oldRow: CsvRow, row: CsvRow, toFloat: string -> Option<F>): Option<(F, F, F, F)>
  {
    if "lat" in oldRow && "lng" in oldRow && "latitude" in row && "longitude" in row then
      match (toFloat(oldRow["lat"]), toFloat(oldRow["lng"]), toFloat(row["latitude"]), toFloat(row["longitude"]))
      case (Some(a), Some(b), Some(c), Some(d)) => Some((a, b, c, d))
      case _ => None
    else None
  }

  /** A candidate whose distance can be computed. */
  predicate Measurable<F>(existing: map<string, CsvRow>, toFloat: string -> Option<F>, row: CsvRow)
  {
    "collision_id" in row && row["collision_id"] in existing && Coordinates(existing[row["collision_id"]], row, toFloat).Some?
  }

  /** haversine(lat_old, lng_old, lat_new, lng_new). */
  function Meters<F>(existing: map<string, CsvRow>, toFloat: string -> Option<F>, haversine: (F, F, F, F) -> int, row: CsvRow): int
    requires Measurable(existing, toFloat, row)
  {
    var c := Coordinates(existing[row["collision_id"]], row, toFloat).value;
    haversine(c.0, c.1, c.2, c.3)
  }

  /** One pass of the comparison loop: skip when the distance is within the
      threshold, record the old identity and both positions otherwise;
      status 1 for a missing column or a rejected coordinate. */
  function DiffStep<F>(existing: map<string, CsvRow>, toFloat: string -> Option<F>, haversine: (F, F, F, F) -> int, row: CsvRow): (seq<Update<F>>, Option<int>)
  {
    if "collision_id" !in row || row["collision_id"] !in existing then ([], Some(1))
    else
      var oldRow := existing[row["collision_id"]];
      match Coordinates(oldRow, row, toFloat)
      case None => ([], Some(1))
      case Some((latOld, lngOld, latNew, lngNew)) =>
        var meters := haversine(latOld, lngOld, latNew, lngNew);
        if meters <= DistanceThreshold then ([], None)
        else if "socrata_id" in oldRow && "cartodb_id" in oldRow && "date_val" in oldRow then
          ([Update(oldRow["socrata_id"], oldRow["cartodb_id"], oldRow["date_val"], latNew, lngNew, latOld, lngOld, meters)], None)
        else ([], Some(1))
  }

  function Step<F>(existing: map<string, CsvRow>, toFloat: string -> Option<F>, haversine: (F, F, F, F) -> int): CsvRow -> (seq<Update<F>>, Option<int>)
  {
    row => DiffStep(existing, toFloat, haversine, row)
  }

  /** A candidate that does not stop the loop is recorded iff it moved more
      than the threshold (15 meters exactly is skipped), and its record
      carries the CARTO row's socrata_id, cartodb_id and date_val, the new
      and old positions and the distance. */
  lemma EmittedIffMoved<F>(existing: map<string, CsvRow>, toFloat: string -> Option<F>, haversine: (F, F, F, F) -> int, row: CsvRow)
    requires DiffStep(existing, toFloat, haversine, row).1.None?
    ensures Measurable(existing, toFloat, row)
    ensures DiffStep(existing, toFloat, haversine, row).0 != [] <==> Meters(existing, toFloat, haversine, row) > DistanceThreshold
    ensures DiffStep(existing, toFloat, haversine, row).0 != [] ==>
      var out, oldRow, c := DiffStep(existing, toFloat, haversine, row).0, existing[row["collision_id"]],
        Coordinates(existing[row["collision_id"]], row, toFloat).value;
      && |out| == 1 && "socrata_id" in oldRow && "cartodb_id" in oldRow && "date_val" in oldRow
      && out[0].socrataId == oldRow["socrata_id"] && out[0].cartodbId == oldRow["cartodb_id"] && out[0].dateVal == oldRow["date_val"]
      && out[0].latOld == c.0 && out[0].lngOld == c.1 && out[0].latNew == c.2 && out[0].lngNew == c.3
      && out[0].metersdiff == Meters(existing, toFloat, haversine, row)
  {
  }

  /** The script's records: every candidate in turn, or status 1. */
  function Updates<F>(cartoRows: seq<CsvRow>, sodaRows: seq<CsvRow>, toFloat: string -> Option<F>, haversine: (F, F, F, F) -> int): Outcome<seq<Update<F>>>
  {
    if !(forall i :: 0 <= i < |cartoRows| ==> "socrata_id" in cartoRows[i]) then Exit(1)
    else
      var existing := IndexBy(cartoRows, KeyOf("socrata_id"));
      match PotentialUpdates(sodaRows, existing)
      case Exit(s) => Exit(s)
      case Ok(potential) =>
        var t := StepTrace(potential, Step(existing, toFloat, haversine));
        if t.1.Some? then Exit(t.1.value) else Ok(t.0)
  }

  /** Moved: a candidate measured beyond the threshold. */
  predicate Moved<F>(existing: map<string, CsvRow>, toFloat: string -> Option<F>, haversine: (F, F, F, F) -> int, row: CsvRow)
  {
    Measurable(existing, toFloat, row) && Meters(existing, toFloat, haversine, row) > DistanceThreshold
  }

  function Moves<F>(existing: map<string, CsvRow>, toFloat: string -> Option<F>, haversine: (F, F, F, F) -> int): CsvRow -> bool
  {
    row => Moved(existing, toFloat, haversine, row)
  }

  /** A candidate yields at most one record, and stops the loop only with
      status 1. */
  lemma StepShape<F>(existing: map<string, CsvRow>, toFloat: string -> Option<F>, haversine: (F, F, F, F) -> int, row: CsvRow)
    ensures |DiffStep(existing, toFloat, haversine, row).0| <= 1
    ensures DiffStep(existing, toFloat, haversine, row).1.Some? ==> DiffStep(existing, toFloat, haversine, row).1 == Some(1)
  {
  }

  /** The comparison loop over the candidates: when it gets through, its
      records are those of the candidates that moved, one each, in
      candidate order; otherwise it stops with status 1. */
  lemma CandidatesTrace<F>(existing: map<string, CsvRow>, toFloat: string -> Option<F>, haversine: (F, F, F, F) -> int, potential: seq<CsvRow>)
    ensures var t := StepTrace(potential, Step(existing, toFloat, haversine));
      t.1.Some? ==> t.1 == Some(1)
    ensures var t, moved := StepTrace(potential, Step(existing, toFloat, haversine)), Filter(potential, Moves(existing, toFloat, haversine));
      t.1.None? ==>
        && |t.0| == |moved|
        && forall i :: 0 <= i < |moved| ==> DiffStep(existing, toFloat, haversine, moved[i]).0 == [t.0[i]]
  {
    if StepTrace(potential, Step(existing, toFloat, haversine)).1.Some? {
      CandidatesStop(existing, toFloat, haversine, potential);
    } else {
      CandidatesRecords(existing, toFloat, haversine, potential);
    }
  }

  lemma CandidatesStop<F>(existing: map<string, CsvRow>, toFloat: string -> Option<F>, haversine: (F, F, F, F) -> int, potential: seq<CsvRow>)
    requires StepTrace(potential, Step(existing, toFloat, haversine)).1.Some?
    ensures StepTrace(potential, Step(existing, toFloat, haversine)).1 == Some(1)
  {
    var f := Step(existing, toFloat, haversine);
    StepTraceFirstStop(potential, f);
    var i :| 0 <= i < |potential| && f(potential[i]).1.Some? && (forall j :: 0 <= j < i ==> f(potential[j]).1.None?) &&
      StepTrace(potential, f) == (Flatten(Outs(potential[..i + 1], f)), f(potential[i]).1);
    StepShape(existing, toFloat, haversine, potential[i]);
  }

  lemma CandidatesRecords<F>(existing: map<string, CsvRow>, toFloat: string -> Option<F>, haversine: (F, F, F, F) -> int, potential: seq<CsvRow>)
    requires StepTrace(potential, Step(existing, toFloat, haversine)).1.None?
    ensures var t, moved := StepTrace(potential, Step(existing, toFloat, haversine)), Filter(potential, Moves(existing, toFloat, haversine));
      && |t.0| == |moved|
      && forall i :: 0 <= i < |moved| ==> DiffStep(existing, toFloat, haversine, moved[i]).0 == [t.0[i]]
  {
    var f := Step(existing, toFloat, haversine);
    StepTraceAll(potential, f);
    forall i | 0 <= i < |potential| ensures |f(potential[i]).0| <= 1 {
      StepShape(existing, toFloat, haversine, potential[i]);
    }
    FlattenSingles(potential, f);
    WritesAreMoves(existing, toFloat, haversine, potential);
  }

  /** In a loop that gets through, the candidates that write are those
      that moved. */
  lemma WritesAreMoves<F>(existing: map<string, CsvRow>, toFloat: string -> Option<F>, haversine: (F, F, F, F) -> int, potential: seq<CsvRow>)
    requires forall i :: 0 <= i < |potential| ==> DiffStep(existing, toFloat, haversine, potential[i]).1.None?
    ensures Filter(potential, Writes(Step(existing, toFloat, haversine))) == Filter(potential, Moves(existing, toFloat, haversine))
  {
    var f := Step(existing, toFloat, haversine);
    forall i | 0 <= i < |potential|
      ensures Writes(f)(potential[i]) == Moves(existing, toFloat, haversine)(potential[i])
    {
      EmittedIffMoved(existing, toFloat, haversine, potential[i]);
    }
    FilterCongruent(potential, Writes(f), Moves(existing, toFloat, haversine));
  }

  /** The script's result: status 1, or the records of the candidates
      that moved. */
  lemma UpdatesSpec<F>(cartoRows: seq<CsvRow>, sodaRows: seq<CsvRow>, toFloat: string -> Option<F>, haversine: (F, F, F, F) -> int)
    ensures Updates(cartoRows, sodaRows, toFloat, haversine).Exit? ==> Updates(cartoRows, sodaRows, toFloat, haversine).status == 1
    ensures Updates(cartoRows, sodaRows, toFloat, haversine).Ok? ==>
      var existing := IndexBy(cartoRows, KeyOf("socrata_id"));
      && PotentialUpdates(sodaRows, existing).Ok?
      && var moved, us := Filter(PotentialUpdates(sodaRows, existing).value, Moves(existing, toFloat, haversine)),
           Updates(cartoRows, sodaRows, toFloat, haversine).value;
      && |us| == |moved|
      && forall i :: 0 <= i < |moved| ==> DiffStep(existing, toFloat, haversine, moved[i]).0 == [us[i]]
  {
    var existing := IndexBy(cartoRows, KeyOf("socrata_id"));
    PotentialUpdatesSpec(sodaRows, existing);
    if PotentialUpdates(sodaRows, existing).Ok? {
      CandidatesTrace(existing, toFloat, haversine, PotentialUpdates(sodaRows, existing).value);
    }
  }

  // ------------------------------------------------------------ output

  /** The update read as the dict the comparison loop appends: each key's
      value as csv.writer prints it; a key the dict lacks has none. */
  function UpdateField<F>(u: Update<F>, key: string, floatStr: F -> string): Option<string>
  {
    if key == "socrata_id" then Some(u.socrataId)
    else if key == "cartodb_id" then Some(u.cartodbId)
    else if key == "date_val" then Some(u.dateVal)
    else if key == "lat_new" then Some(floatStr(u.latNew))
    else if key == "lng_new" then Some(floatStr(u.lngNew))
    else if key == "lat_old" then Some(floatStr(u.latOld))
    else if key == "lng_old" then Some(floatStr(u.lngOld))
    else if key == "metersdiff" then Some(IntToString(u.metersdiff))
    else None
  }

  function OutputRow<F>(u: Update<F>, floatStr: F -> string): (r: seq<string>)
    ensures |r| == |DiffsHeader|
    ensures forall k :: 0 <= k < |DiffsHeader| ==> UpdateField(u, DiffsHeader[k], floatStr) == Some(r[k])
  {
    [u.socrataId, u.cartodbId, u.dateVal, floatStr(u.latNew), floatStr(u.lngNew), floatStr(u.latOld), floatStr(u.lngOld),
     IntToString(u.metersdiff)]
  }

  /** The body of the comparison loop for one candidate. */
  method CompareRow<F>(existing: map<string, CsvRow>, toFloat: string -> Option<F>, haversine: (F, F, F, F) -> int, row: CsvRow)
    returns (found: seq<Update<F>>, exit: Option<int>)
    ensures (found, exit) == DiffStep(existing, toFloat, haversine, row)
  {
    if "collision_id" !in row || row["collision_id"] !in existing {
      return [], Some(1);
    }
    var oldRow := existing[row["collision_id"]];
    var coords := Coordinates(oldRow, row, toFloat);
    if coords.None? {
      return [], Some(1);
    }
    var (latOld, lngOld, latNew, lngNew) := coords.value;
    var meters := haversine(latOld, lngOld, latNew, lngNew);
    var underthreshold := meters <= DistanceThreshold;
    if underthreshold {
      return [], None;
    }
    if !("socrata_id" in oldRow && "cartodb_id" in oldRow && "date_val" in oldRow) {
      return [], Some(1);
    }
    return [Update(oldRow["socrata_id"], oldRow["cartodb_id"], oldRow["date_val"], latNew, lngNew, latOld, lngOld, meters)], None;
  }

  /** run(): load the CARTO export into a map, filter the SODA rows, measure
      each candidate, then write the header and one line per record. */
  method Run<F>(cartoRows: seq<CsvRow>, sodaRows: seq<CsvRow>, toFloat: string -> Option<F>,
                haversine: (F, F, F, F) -> int, floatStr: F -> string)
    returns (r: Outcome<seq<seq<string>>>)
    ensures Updates(cartoRows, sodaRows, toFloat, haversine).Exit? ==> r == Exit(Updates(cartoRows, sodaRows, toFloat, haversine).status)
    ensures Updates(cartoRows, sodaRows, toFloat, haversine).Ok? ==>
      var us := Updates(cartoRows, sodaRows, toFloat, haversine).value;
      && r.Ok? && |r.value| == |us| + 1 && r.value[0] == DiffsHeader
      && forall i :: 0 <= i < |us| ==> r.value[i + 1] == OutputRow(us[i], floatStr)
  {
    var existing := LoadRecords(cartoRows, "socrata_id");
    if existing.Exit? {
      return Exit(1);
    }
    var potential := PotentialUpdates(sodaRows, existing.value);
    if potential.Exit? {
      return Exit(potential.status);
    }
    var updates, exit := CompareAll(existing.value, toFloat, haversine, potential.value);
    if exit.Some? {
      return Exit(exit.value);
    }
    var lines := OutputLines(updates, floatStr);
    return Ok(lines);
  }

  /** The comparison loop: CompareRow on each candidate in turn, stopping
      at the first that exits. */
  method CompareAll<F>(existing: map<string, CsvRow>, toFloat: string -> Option<F>, haversine: (F, F, F, F) -> int,
                       candidates: seq<CsvRow>)
    returns (updates: seq<Update<F>>, exit: Option<int>)
    ensures (updates, exit) == StepTrace(candidates, Step(existing, toFloat, haversine))
  {
    ghost var f := Step(existing, toFloat, haversine);
    updates := [];
    var i := 0;
    while i < |candidates|
      invariant 0 <= i <= |candidates|
      invariant StepTrace(candidates[..i], f) == (updates, None)
    {
      StepTraceStep(candidates, i, f);
      var found, stop := CompareRow(existing, toFloat, haversine, candidates[i]);
      assert f(candidates[i]) == (found, stop);
      updates := updates + found;
      if stop.Some? {
        StepTraceStopsAt(candidates, i, f);
        return updates, stop;
      }
      i := i + 1;
    }
    assert candidates[..i] == candidates;
    exit := None;
  }

  /** The CSV the script writes: the header, then one line per record. */
  method OutputLines<F>(updates: seq<Update<F>>, floatStr: F -> string) returns (lines: seq<seq<string>>)
    ensures |lines| == |updates| + 1 && lines[0] == DiffsHeader
    ensures forall i :: 0 <= i < |updates| ==> lines[i + 1] == OutputRow(updates[i], floatStr)
  {
    lines := [DiffsHeader];
    for k := 0 to |updates|
      invariant |lines| == k + 1 && lines[0] == DiffsHeader
      invariant forall j :: 0 <= j < k ==> lines[j + 1] == OutputRow(updates[j], floatStr)
    {
      lines := lines + [OutputRow(updates[k], floatStr)];
    }
  }
}
