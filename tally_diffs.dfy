/** fixtallies/1-diffs.py: the CARTO and SODA exports keyed by crash id,
    and the rows whose eight injury and fatality counts differ, with the
    SODA values, for the correction step. CSV files are sequences of rows;
    the order in which the CARTO dictionary yields its keys is a
    parameter. */
module TallyDiffs {
  import opened Common

  /** The eight compared pairs in the order the script reads them: the
      SODA column, then the CARTO column. SODA spells the pedestrian columns
      in the plural, CARTO in the singular. */
  const Pairs: seq<(string, string)> := [
    ("number_of_persons_injured", "number_of_persons_injured"),
    ("number_of_cyclist_injured", "number_of_cyclist_injured"),
    ("number_of_motorist_injured", "number_of_motorist_injured"),
    ("number_of_pedestrians_injured", "number_of_pedestrian_injured"),
    ("number_of_persons_killed", "number_of_persons_killed"),
    ("number_of_cyclist_killed", "number_of_cyclist_killed"),
    ("number_of_motorist_killed", "number_of_motorist_killed"),
    ("number_of_pedestrians_killed", "number_of_pedestrian_killed")]

  /** The header of the diffs file: the id, then the SODA count columns. */
  const DiffHeader: seq<string> := [
    "socrata_id",
    "number_of_persons_injured", "number_of_cyclist_injured", "number_of_motorist_injured", "number_of_pedestrians_injured",
    "number_of_persons_killed", "number_of_cyclist_killed", "number_of_motorist_killed", "number_of_pedestrians_killed"]

  // --------------------------------------------------------- comparison

  /** Every cell the comparison and the output row read is there. */
  predicate Readable(s: CsvRow, c: CsvRow)
  {
    "unique_key" in s && forall k :: 0 <= k < |Pairs| ==> Pairs[k].0 in s && Pairs[k].1 in c
  }

  /** All eight pairs equal, as strings: "1" and "01" differ. */
  predicate AllEqual(s: CsvRow, c: CsvRow)
    requires Readable(s, c)
  {
    forall k :: 0 <= k < |Pairs| ==> s[Pairs[k].0] == c[Pairs[k].1]
  }

  /** The comparison spelled out by column name. */
  lemma ComparedColumns(s: CsvRow, c: CsvRow)
    requires Readable(s, c)
    ensures "number_of_persons_injured" in s && "number_of_cyclist_injured" in s && "number_of_motorist_injured" in s
    ensures "number_of_pedestrians_injured" in s && "number_of_persons_killed" in s && "number_of_cyclist_killed" in s
    ensures "number_of_motorist_killed" in s && "number_of_pedestrians_killed" in s
    ensures "number_of_persons_injured" in c && "number_of_cyclist_injured" in c && "number_of_motorist_injured" in c
    ensures "number_of_pedestrian_injured" in c && "number_of_persons_killed" in c && "number_of_cyclist_killed" in c
    ensures "number_of_motorist_killed" in c && "number_of_pedestrian_killed" in c
    ensures AllEqual(s, c) <==>
      && s["number_of_persons_injured"] == c["number_of_persons_injured"]
      && s["number_of_cyclist_injured"] == c["number_of_cyclist_injured"]
      && s["number_of_motorist_injured"] == c["number_of_motorist_injured"]
      && s["number_of_pedestrians_injured"] == c["number_of_pedestrian_injured"]
      && s["number_of_persons_killed"] == c["number_of_persons_killed"]
      && s["number_of_cyclist_killed"] == c["number_of_cyclist_killed"]
      && s["number_of_motorist_killed"] == c["number_of_motorist_killed"]
      && s["number_of_pedestrians_killed"] == c["number_of_pedestrian_killed"]
  {
    assert Pairs[0].0 in s && Pairs[1].0 in s && Pairs[2].0 in s && Pairs[3].0 in s;
    assert Pairs[4].0 in s && Pairs[5].0 in s && Pairs[6].0 in s && Pairs[7].0 in s;
    assert Pairs[0].1 in c && Pairs[1].1 in c && Pairs[2].1 in c && Pairs[3].1 in c;
    assert Pairs[4].1 in c && Pairs[5].1 in c && Pairs[6].1 in c && Pairs[7].1 in c;
  }

  /** The diff row: the SODA unique_key and the eight SODA values, in
      header order. */
  function OutputRow(s: CsvRow): (r: seq<string>)
    requires "unique_key" in s && forall k :: 0 <= k < |Pairs| ==> Pairs[k].0 in s
    ensures |r| == |DiffHeader| && r[0] == s["unique_key"]
    ensures forall k :: 0 <= k < |Pairs| ==> DiffHeader[k + 1] == Pairs[k].0 && r[k + 1] == s[Pairs[k].0]
  {
    [s["unique_key"]] + seq(|Pairs|, k requires 0 <= k < |Pairs| => s[Pairs[k].0])
  }

  /** An id gets a diff row: CARTO and SODA both have it, and not all eight
      counts agree. */
  predicate Emitted(cm: map<string, CsvRow>, sm: map<string, CsvRow>, id: string)
  {
    id in cm && id in sm && Readable(sm[id], cm[id]) && !AllEqual(sm[id], cm[id])
  }

  /** The comparison loop over the CARTO ids in the given order: ids SODA
      lacks are skipped, equal counts are skipped, a missing column ends
      the script with status 1. */
  function Diffs(keys: seq<string>, cm: map<string, CsvRow>, sm: map<string, CsvRow>): Outcome<seq<seq<string>>>
  {
    if keys == [] then Ok([])
    else match Diffs(keys[..|keys| - 1], cm, sm)
      case Exit(s) => Exit(s)
      case Ok(rows) =>
        var id := keys[|keys| - 1];
        if id !in cm || id !in sm then Ok(rows)
        else if !Readable(sm[id], cm[id]) then Exit(1)
        else if AllEqual(sm[id], cm[id]) then Ok(rows)
        else Ok(rows + [OutputRow(sm[id])])
  }

  /** The ids that get a row, in key order. */
  function DiffIds(keys: seq<string>, cm: map<string, CsvRow>, sm: map<string, CsvRow>): seq<string>
  {
    Filter(keys, id => Emitted(cm, sm, id))
  }

  /** The loop ends with status 1 exactly when an id both sides hold misses
      a column; otherwise it yields one row per differing id, in key
      order, made of that id's SODA values. */
  lemma {:induction false} DiffsSpec(keys: seq<string>, cm: map<string, CsvRow>, sm: map<string, CsvRow>)
    ensures Diffs(keys, cm, sm).Exit? <==>
      exists i :: 0 <= i < |keys| && keys[i] in cm && keys[i] in sm && !Readable(sm[keys[i]], cm[keys[i]])
    ensures Diffs(keys, cm, sm).Exit? ==> Diffs(keys, cm, sm).status == 1
    ensures Diffs(keys, cm, sm).Ok? ==>
      var ids, rows := DiffIds(keys, cm, sm), Diffs(keys, cm, sm).value;
      |rows| == |ids| && forall i :: 0 <= i < |ids| ==> Emitted(cm, sm, ids[i]) && rows[i] == OutputRow(sm[ids[i]])
  {
    if keys != [] {
      var init := keys[..|keys| - 1];
      DiffsSpec(init, cm, sm);
      assert forall i :: 0 <= i < |init| ==> init[i] == keys[i];
      FilterSpec(init, id => Emitted(cm, sm, id));
      if Diffs(init, cm, sm).Ok? {
        var ids := DiffIds(init, cm, sm);
        assert forall i :: 0 <= i < |ids| ==> ids[i] in ids;
      }
    }
  }

  /** Only ids of both exports get a row; an id only SODA has never does. */
  lemma DiffIdsFromBoth(keys: seq<string>, cm: map<string, CsvRow>, sm: map<string, CsvRow>)
    ensures IsSubsequence(DiffIds(keys, cm, sm), keys)
    ensures forall id :: id in DiffIds(keys, cm, sm) <==> id in keys && Emitted(cm, sm, id)
    ensures forall id :: id in DiffIds(keys, cm, sm) ==> id in cm && id in sm
  {
    FilterSpec(keys, id => Emitted(cm, sm, id));
  }

  /** Once the loop has stopped, later ids do not matter. */
  lemma {:induction false} DiffsStops(keys: seq<string>, i: nat, cm: map<string, CsvRow>, sm: map<string, CsvRow>)
    requires i <= |keys| && Diffs(keys[..i], cm, sm).Exit?
    ensures Diffs(keys, cm, sm) == Diffs(keys[..i], cm, sm)
    decreases |keys| - i
  {
    if i < |keys| {
      assert keys[..i + 1][..i] == keys[..i];
      DiffsStops(keys, i + 1, cm, sm);
    } else {
      assert keys[..i] == keys;
    }
  }

  method Compare(keys: seq<string>, cm: map<string, CsvRow>, sm: map<string, CsvRow>) returns (r: Outcome<seq<seq<string>>>)
    ensures r == Diffs(keys, cm, sm)
  {
    var rows: seq<seq<string>> := [];
    for i := 0 to |keys|
      invariant Diffs(keys[..i], cm, sm) == Ok(rows)
    {
      var crashId := keys[i];
      assert keys[..i + 1][..i] == keys[..i];
      if crashId !in cm || crashId !in sm {
        continue;
      }
      var ccrash, scrash := cm[crashId], sm[crashId];
      if !Readable(scrash, ccrash) {
        DiffsStops(keys, i + 1, cm, sm);
        return Exit(1);
      }
      if AllEqual(scrash, ccrash) {
        continue;
      }
      rows := rows + [OutputRow(scrash)];
    }
    assert keys[..|keys|] == keys;
    return Ok(rows);
  }

  /** The script: both loads, then the header and the diff rows.
      `keysOf(m)` is the order in which the dictionary m yields its keys,
      each once. */
  method Run(cartoRows: seq<CsvRow>, sodaRows: seq<CsvRow>, keysOf: map<string, CsvRow> -> seq<string>)
    returns (r: Outcome<seq<seq<string>>>)
    ensures (exists i :: 0 <= i < |cartoRows| && "socrata_id" !in cartoRows[i]) ==> r == Exit(1)
    ensures ((forall i :: 0 <= i < |cartoRows| ==> "socrata_id" in cartoRows[i]) &&
             (exists i :: 0 <= i < |sodaRows| && "unique_key" !in sodaRows[i])) ==> r == Exit(1)
    ensures ((forall i :: 0 <= i < |cartoRows| ==> "socrata_id" in cartoRows[i]) &&
             (forall i :: 0 <= i < |sodaRows| ==> "unique_key" in sodaRows[i])) ==>
      var cm, sm := IndexBy(cartoRows, KeyOf("socrata_id")), IndexBy(sodaRows, KeyOf("unique_key"));
      r == match Diffs(keysOf(cm), cm, sm) case Exit(s) => Exit(s) case Ok(rows) => Ok([DiffHeader] + rows)
  {
    var carto := LoadRecords(cartoRows, "socrata_id");
    if carto.Exit? {
      return Exit(carto.status);
    }
    var soda := LoadRecords(sodaRows, "unique_key");
    if soda.Exit? {
      return Exit(soda.status);
    }
    var diffs := Compare(keysOf(carto.value), carto.value, soda.value);
    if diffs.Exit? {
      return Exit(diffs.status);
    }
    return Ok([DiffHeader] + diffs.value);
  }
}
