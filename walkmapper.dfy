/** walkmapper/mysql2carto.py: the obstruction loader. It reads the
    obstructions CARTO already holds (id and a summary fingerprint), the
    obstructions of the MySQL database with up to five photos each, and
    sorts the MySQL records into insert, update and skip lists by id and
    summary; the MySQL rows flagged isDelete that CARTO holds become the
    delete list, and a run submits only the deletes. MySQL query results,
    CARTO replies and MySQL's escape_string are parameters. */
module Walkmapper {
  import opened Common
  import opened Chunks
  import opened Steps

  // ------------------------------------------------------- run_carto_query

  /** run_carto_query's check: a reply without a 'rows' member ends the run
      with status 1 (a JSON array never has one). */
  function RunCartoQuery(reply: Reply): (r: Outcome<map<string, Value>>)
    ensures r.Ok? <==> reply.ObjectReply? && "rows" in reply.fields
    ensures r.Ok? ==> r.value == reply.fields
    ensures r.Exit? ==> r.status == 1
  {
    match reply
    case ListReply(_) => Exit(1)
    case ObjectReply(fields) => if "rows" in fields then Ok(fields) else Exit(1)
  }

  // ------------------------------------------------- the CARTO summaries

  /** One CARTO row as the map entry `int(row['id']) -> row['summary']`;
      a row without either field, or with an id int() rejects, ends the
      run with status 1. */
  function CartoEntry(row: Row): Outcome<(int, Value)>
  {
    if "id" !in row || "summary" !in row then Exit(1)
    else match PyInt(row["id"])
      case None => Exit(1)
      case Some(id) => Ok((id, row["summary"]))
  }

  function EntryKey(e: (int, Value)): int { e.0 }

  /** The dictionary the entries leave behind: a later entry for an id
      replaces an earlier one. */
  function SummaryMap(entries: seq<(int, Value)>): map<int, Value>
  {
    var byId := IndexBy(entries, EntryKey);
    map k | k in byId :: byId[k].1
  }

  lemma SummaryMapSnoc(entries: seq<(int, Value)>, e: (int, Value))
    ensures SummaryMap(entries + [e]) == SummaryMap(entries)[e.0 := e.1]
  {
    assert (entries + [e])[..|entries|] == entries;
  }

  /** alreadyincarto: the summaries of the CARTO reply's rows by id. */
  function CartoSummaries(reply: Reply): Outcome<map<int, Value>>
  {
    match RunCartoQuery(reply)
    case Exit(s) => Exit(s)
    case Ok(fields) =>
      if !fields["rows"].VRows? then Exit(1)
      else match MapOutcome(fields["rows"].rows, CartoEntry)
        case Exit(s) => Exit(s)
        case Ok(entries) => Ok(SummaryMap(entries))
  }

  /** The CARTO map holds exactly the ids of the reply's rows, each with the
      summary of the last row carrying that id. */
  lemma CartoSummariesLastWins(reply: Reply, id: int)
    requires CartoSummaries(reply).Ok?
    ensures var rows, m := reply.fields["rows"].rows, CartoSummaries(reply).value;
      && (id in m <==> exists i :: 0 <= i < |rows| && CartoEntry(rows[i]).Ok? && CartoEntry(rows[i]).value.0 == id)
      && (id in m ==> exists i :: (0 <= i < |rows| && CartoEntry(rows[i]) == Ok((id, m[id])) &&
            forall j :: i < j < |rows| ==> CartoEntry(rows[j]).Ok? && CartoEntry(rows[j]).value.0 != id))
  {
    var rows := reply.fields["rows"].rows;
    var entries := MapOutcome(rows, CartoEntry).value;
    MapOutcomeSpec(rows, CartoEntry);
    IndexByLastWins(entries, EntryKey, id);
  }

  // --------------------------------------------------------- obstructions

  /** A MySQL obstruction after the type corrections: its id, its summary
      fingerprint, and the image fields the photo pass sets. MySQL's CONCAT
      yields NULL when any of its arguments is NULL, so the summary may be
      None. */
  datatype Obstruction = Obstruction(id: int, summary: Option<string>, images: map<string, Option<string>>)

  /** The keys the photo pass writes the first five photos to: the fifth goes
      to "image6", a key nothing reads. */
  const ImageKeys: seq<string> := ["image1", "image2", "image3", "image4", "image6"]

  /** The keys whose values are appended to the summary, in order. */
  const SummaryKeys: seq<string> := ["image1", "image2", "image3", "image4", "image5"]

  /** `row['imageN'] if row['imageN'] else ''`. */
  function ImageText(images: map<string, Option<string>>, key: string): string
  {
    if key in images && images[key].Some? then images[key].value else ""
  }

  /** The image fields after the photo pass: image1..image5 reset to None,
      then the photos (the query's first five, in id order) assigned to the
      keys of ImageKeys. */
  function SlotImages(images: map<string, Option<string>>, photos: seq<Option<string>>): map<string, Option<string>>
  {
    var cleared := images["image1" := None]["image2" := None]["image3" := None]["image4" := None]["image5" := None];
    var set1 := if |photos| >= 1 then cleared["image1" := photos[0]] else cleared;
    var set2 := if |photos| >= 2 then set1["image2" := photos[1]] else set1;
    var set3 := if |photos| >= 3 then set2["image3" := photos[2]] else set2;
    var set4 := if |photos| >= 4 then set3["image4" := photos[3]] else set3;
    if |photos| >= 5 then set4["image6" := photos[4]] else set4
  }

  /** The photo pass on one row: the images slotted, then the truthy values
      of image1..image5 appended to the summary; `None += ''` raises
      TypeError, so a row without a summary ends the run with status 1. */
  function WithImages(row: Obstruction, photos: seq<Option<string>>): Outcome<Obstruction>
  {
    var images := SlotImages(row.images, photos);
    match row.summary
    case None => Exit(1)
    case Some(summary) =>
      Ok(Obstruction(row.id,
        Some(summary + ImageText(images, "image1") + ImageText(images, "image2") + ImageText(images, "image3") +
             ImageText(images, "image4") + ImageText(images, "image5")),
        images))
  }

  /** The photo slotting: photo k (k < 5) lands under ImageKeys[k]; image1..
      image4 without a photo, and image5 always, stay None; the other
      fields are kept. */
  lemma ImageSlots(images: map<string, Option<string>>, photos: seq<Option<string>>)
    ensures var r := SlotImages(images, photos);
      && (forall k :: 0 <= k < 5 && k < |photos| ==> ImageKeys[k] in r && r[ImageKeys[k]] == photos[k])
      && (forall k :: 0 <= k < 4 && k >= |photos| ==> r[SummaryKeys[k]] == None)
      && r["image5"] == None
      && (forall key :: key in images && key !in SummaryKeys && key != "image6" ==> key in r && r[key] == images[key])
  {
  }

  /** Photo k as the summary sees it: '' when absent or None. */
  function PhotoText(photos: seq<Option<string>>, k: nat): string
  {
    if k < |photos| && photos[k].Some? then photos[k].value else ""
  }

  /** A row without a summary stops the run; otherwise the summary gets the
      photos image1..image4 appended, in order, after the MySQL summary, a
      fifth photo never reaching it (it is stored under image6 and image5
      stays None); the id is kept and the images are the slotted ones. */
  lemma SummarySuffix(row: Obstruction, photos: seq<Option<string>>)
    ensures WithImages(row, photos).Exit? <==> row.summary.None?
    ensures WithImages(row, photos).Exit? ==> WithImages(row, photos).status == 1
    ensures row.summary.Some? ==>
      var r := WithImages(row, photos).value;
      && r.id == row.id && r.images == SlotImages(row.images, photos)
      && r.summary == Some(row.summary.value + PhotoText(photos, 0) + PhotoText(photos, 1) + PhotoText(photos, 2) + PhotoText(photos, 3))
  {
    var images := SlotImages(row.images, photos);
    ImageSlots(row.images, photos);
    assert ImageText(images, "image1") == PhotoText(photos, 0);
    assert ImageText(images, "image2") == PhotoText(photos, 1);
    assert ImageText(images, "image3") == PhotoText(photos, 2);
    assert ImageText(images, "image4") == PhotoText(photos, 3);
    assert ImageText(images, "image5") == "";
    if row.summary.Some? {
      var head := row.summary.value + PhotoText(photos, 0) + PhotoText(photos, 1) + PhotoText(photos, 2) + PhotoText(photos, 3);
      assert WithImages(row, photos).value.summary == Some(head + "");
      assert head + "" == head;
    }
  }

  function PhotoPass(photosOf: int -> seq<Option<string>>): Obstruction -> Outcome<Obstruction>
  {
    (row: Obstruction) => WithImages(row, photosOf(row.id))
  }

  /** The photo pass over all rows, each row's photos queried by its id:
      it stops with status 1 at the first row without a summary, and
      otherwise gives every row its images, in order. */
  function AllWithImages(found: seq<Obstruction>, photosOf: int -> seq<Option<string>>): (r: Outcome<seq<Obstruction>>)
    ensures r.Ok? <==> forall i :: 0 <= i < |found| ==> found[i].summary.Some?
    ensures r.Exit? ==> r.status == 1
    ensures r.Ok? ==>
      && |r.value| == |found|
      && forall i :: 0 <= i < |found| ==> r.value[i] == WithImages(found[i], photosOf(found[i].id)).value
  {
    var f := PhotoPass(photosOf);
    MapOutcomeSpec(found, f);
    assert forall i :: 0 <= i < |found| ==> f(found[i]) == WithImages(found[i], photosOf(found[i].id));
    MapOutcome(found, f)
  }

  // ------------------------------------------------------- classification

  /** Not in CARTO: insert. */
  predicate ToInsert(m: map<int, Value>, r: Obstruction)
  {
    r.id !in m
  }

  /** The summary as `!=` compares it with the JSON value from CARTO. */
  function SummaryOf(r: Obstruction): Value
  {
    match r.summary
    case None => VNull
    case Some(s) => VText(s)
  }

  /** In CARTO with another summary: update. A CARTO summary that is not the
      same text (null included) counts as different. */
  predicate ToUpdate(m: map<int, Value>, r: Obstruction)
  {
    r.id in m && SummaryOf(r) != m[r.id]
  }

  /** In CARTO with the same summary: skip. */
  predicate ToSkip(m: map<int, Value>, r: Obstruction)
  {
    r.id in m && SummaryOf(r) == m[r.id]
  }

  function InsertList(rows: seq<Obstruction>, m: map<int, Value>): seq<Obstruction>
  {
    Filter(rows, r => ToInsert(m, r))
  }

  function UpdateList(rows: seq<Obstruction>, m: map<int, Value>): seq<Obstruction>
  {
    Filter(rows, r => ToUpdate(m, r))
  }

  function SkipList(rows: seq<Obstruction>, m: map<int, Value>): seq<Obstruction>
  {
    Filter(rows, r => ToSkip(m, r))
  }

  /** One record more: it is appended to the list of its kind only. */
  lemma ClassifyStep(rows: seq<Obstruction>, m: map<int, Value>, i: nat)
    requires i < |rows|
    ensures InsertList(rows[..i + 1], m) == InsertList(rows[..i], m) + (if ToInsert(m, rows[i]) then [rows[i]] else [])
    ensures UpdateList(rows[..i + 1], m) == UpdateList(rows[..i], m) + (if ToUpdate(m, rows[i]) then [rows[i]] else [])
    ensures SkipList(rows[..i + 1], m) == SkipList(rows[..i], m) + (if ToSkip(m, rows[i]) then [rows[i]] else [])
  {
    assert rows[..i + 1][..i] == rows[..i];
  }

  /** Every record lands in exactly one of the three lists. */
  lemma ExactlyOneList(m: map<int, Value>, r: Obstruction)
    ensures ToInsert(m, r) || ToUpdate(m, r) || ToSkip(m, r)
    ensures !(ToInsert(m, r) && ToUpdate(m, r)) && !(ToInsert(m, r) && ToSkip(m, r)) && !(ToUpdate(m, r) && ToSkip(m, r))
  {
  }

  /** The three lists split the records: each keeps input order, holds
      exactly the records of its kind, and their lengths add up to the
      number of records. */
  lemma {:induction false} ListsPartition(rows: seq<Obstruction>, m: map<int, Value>)
    ensures |InsertList(rows, m)| + |UpdateList(rows, m)| + |SkipList(rows, m)| == |rows|
    ensures IsSubsequence(InsertList(rows, m), rows) && IsSubsequence(UpdateList(rows, m), rows) && IsSubsequence(SkipList(rows, m), rows)
    ensures forall r :: r in InsertList(rows, m) <==> r in rows && r.id !in m
    ensures forall r :: r in UpdateList(rows, m) <==> r in rows && r.id in m && SummaryOf(r) != m[r.id]
    ensures forall r :: r in SkipList(rows, m) <==> r in rows && r.id in m && SummaryOf(r) == m[r.id]
  {
    if rows != [] {
      ListsPartition(rows[..|rows| - 1], m);
    }
    FilterSpec(rows, r => ToInsert(m, r));
    FilterSpec(rows, r => ToUpdate(m, r));
    FilterSpec(rows, r => ToSkip(m, r));
  }

  /** The delete list: the isDelete rows whose id CARTO holds, in query
      order. */
  function DeleteList(deleted: seq<int>, m: map<int, Value>): seq<int>
  {
    Filter(deleted, id => id in m)
  }

  lemma DeleteStep(deleted: seq<int>, m: map<int, Value>, i: nat)
    requires i < |deleted|
    ensures DeleteList(deleted[..i + 1], m) == DeleteList(deleted[..i], m) + (if deleted[i] in m then [deleted[i]] else [])
  {
    assert deleted[..i + 1][..i] == deleted[..i];
  }

  lemma DeleteListSpec(deleted: seq<int>, m: map<int, Value>)
    ensures IsSubsequence(DeleteList(deleted, m), deleted)
    ensures forall id :: id in DeleteList(deleted, m) <==> id in deleted && id in m
  {
    FilterSpec(deleted, id => id in m);
  }

  // ------------------------------------------------------------ quoting

  /** A value quote_value is given: None, a bool, or text. */
  datatype Quotable = QNone | QBool(b: bool) | QText(s: string)

  /** escape_string: '' for None, MySQL's escaping (a parameter) otherwise. */
  function EscapeString(escape: string -> string, s: Option<string>): (r: string)
    ensures s.None? ==> r == ""
    ensures s.Some? ==> r == escape(s.value)
  {
    match s
    case None => ""
    case Some(t) => escape(t)
  }

  /** quote_value: NULL, TRUE and FALSE unquoted, anything else escaped
      inside single quotes. */
  function QuoteValue(escape: string -> string, v: Quotable): (r: string)
    ensures v.QNone? ==> r == "NULL"
    ensures v.QBool? ==> r == (if v.b then "TRUE" else "FALSE")
    ensures v.QText? ==> |r| >= 2 && r[0] == '\'' && r[|r| - 1] == '\'' && r[1..|r| - 1] == escape(v.s)
  {
    match v
    case QNone => "NULL"
    case QBool(b) => if b then "TRUE" else "FALSE"
    case QText(s) => "'" + EscapeString(escape, Some(s)) + "'"
  }

  /** Quoting keeps the three kinds apart: no text, whatever the escape
      makes of it, renders as NULL, TRUE or FALSE, and distinct texts stay
      distinct whenever the escape keeps them apart. */
  lemma QuoteValueDistinguishes(escape: string -> string, v: Quotable, w: Quotable)
    requires v != w && (v.QText? && w.QText? ==> escape(v.s) != escape(w.s))
    ensures QuoteValue(escape, v) != QuoteValue(escape, w)
  {
    var a, b := QuoteValue(escape, v), QuoteValue(escape, w);
    if v.QText? && w.QText? {
      assert a[1..|a| - 1] != b[1..|b| - 1];
    } else if v.QText? {
      assert a[0] == '\'' && b[0] != '\'';
    } else if w.QText? {
      assert b[0] == '\'' && a[0] != '\'';
    }
  }

  // ---------------------------------------------------------------- run

  /** SUMMARY_FIELDS_CARTO: the columns CARTO concatenates into the
      summary, the images last. */
  const SummaryFieldsCarto: seq<string> := [
    "isFirstTime", "COALESCE(createdAt::varchar, '0000-00-00')",
    "isSecondTime", "COALESCE(secondTimeSendDate::varchar, '0000-00-00')",
    "isThirdTime", "COALESCE(thirdTimeSendDate::varchar, '0000-00-00')",
    "isCompleted", "COALESCE(completedDate::varchar, '0000-00-00')",
    "image1", "image2", "image3", "image4", "image5"]

  /** The CARTO query of fetch_mysql_obstruction_records, whitespace read as
      single spaces. */
  function SummaryQuery(): string
  {
    "SELECT id, CONCAT(" + Join(SummaryFieldsCarto, ",") + ") AS summary FROM walkmapper_obstructions"
  }

  function DeleteStatement(id: int): string
  {
    "DELETE FROM walkmapper_obstructions WHERE id=" + IntToString(id)
  }

  /** One pass of run's loop over records_to_delete: the DELETE for the id
      goes through run_carto_query, whose exit ends the run with status 1. */
  function DeleteOut(carto: string -> Reply, id: int): (seq<string>, Option<int>)
  {
    ([DeleteStatement(id)], if RunCartoQuery(carto(DeleteStatement(id))).Exit? then Some(1) else None)
  }

  function DeletePass(carto: string -> Reply): int -> (seq<string>, Option<int>)
  {
    id => DeleteOut(carto, id)
  }

  /** run's loop over records_to_delete. */
  method SubmitDeletes(ids: seq<int>, carto: string -> Reply) returns (submitted: seq<string>, exit: Option<int>)
    ensures (submitted, exit) == StepTrace(ids, DeletePass(carto))
  {
    submitted := [];
    var i := 0;
    while i < |ids|
      invariant 0 <= i <= |ids|
      invariant StepTrace(ids[..i], DeletePass(carto)) == (submitted, None)
    {
      StepTraceStep(ids, i, DeletePass(carto));
      var sql := DeleteStatement(ids[i]);
      submitted := submitted + [sql];
      if RunCartoQuery(carto(sql)).Exit? {
        StepTraceStopsAt(ids, i, DeletePass(carto));
        return submitted, Some(1);
      }
      i := i + 1;
    }
    assert ids[..i] == ids;
    exit := None;
  }

  /** The deletes go out one per listed id, in order; a run that gets
      through has every reply carry rows; one that stops does so with
      status 1 at the first reply without rows, after which nothing more is
      sent. */
  lemma DeletesSpec(ids: seq<int>, carto: string -> Reply)
    ensures var t := StepTrace(ids, DeletePass(carto));
      && |t.0| <= |ids| && (forall j :: 0 <= j < |t.0| ==> t.0[j] == DeleteStatement(ids[j]))
      && (t.1.None? ==> |t.0| == |ids| && forall j :: 0 <= j < |t.0| ==> RunCartoQuery(carto(t.0[j])).Ok?)
      && (t.1.Some? ==>
            && t.1 == Some(1) && |t.0| > 0 && RunCartoQuery(carto(t.0[|t.0| - 1])).Exit?
            && forall j :: 0 <= j < |t.0| - 1 ==> RunCartoQuery(carto(t.0[j])).Ok?)
  {
    if StepTrace(ids, DeletePass(carto)).1.None? {
      DeletesThrough(ids, carto);
    } else {
      DeletesStopped(ids, carto);
      DeletesStoppedReplies(ids, carto);
    }
  }

  lemma DeletesThrough(ids: seq<int>, carto: string -> Reply)
    requires StepTrace(ids, DeletePass(carto)).1.None?
    ensures var out := StepTrace(ids, DeletePass(carto)).0;
      && |out| == |ids| && (forall j :: 0 <= j < |out| ==> out[j] == DeleteStatement(ids[j]))
      && forall j :: 0 <= j < |out| ==> RunCartoQuery(carto(out[j])).Ok?
  {
    var f := DeletePass(carto);
    StepTraceAll(ids, f);
    DeletesSent(ids, carto);
    forall j | 0 <= j < |ids| ensures RunCartoQuery(carto(DeleteStatement(ids[j]))).Ok? {
      assert f(ids[j]) == DeleteOut(carto, ids[j]);
    }
  }

  /** A run that stops has sent the DELETEs of a non-empty prefix of the
      ids and ends with status 1. */
  lemma DeletesStopped(ids: seq<int>, carto: string -> Reply)
    requires StepTrace(ids, DeletePass(carto)).1.Some?
    ensures var t := StepTrace(ids, DeletePass(carto));
      && t.1 == Some(1) && 0 < |t.0| <= |ids| && (forall j :: 0 <= j < |t.0| ==> t.0[j] == DeleteStatement(ids[j]))
  {
    var i := DeletesFirstStop(ids, carto);
    DeletesStopAt(ids, carto, i);
  }

  /** In a run that stops, the last reply has no rows and every earlier
      one has. */
  lemma DeletesStoppedReplies(ids: seq<int>, carto: string -> Reply)
    requires StepTrace(ids, DeletePass(carto)).1.Some?
    ensures var t := StepTrace(ids, DeletePass(carto));
      && |t.0| > 0 && RunCartoQuery(carto(t.0[|t.0| - 1])).Exit?
      && forall j :: 0 <= j < |t.0| - 1 ==> RunCartoQuery(carto(t.0[j])).Ok?
  {
    var i := DeletesFirstStop(ids, carto);
    DeletesStopAt(ids, carto, i);
  }

  /** The position of the first DELETE whose reply has no rows. */
  lemma DeletesFirstStop(ids: seq<int>, carto: string -> Reply) returns (i: nat)
    requires StepTrace(ids, DeletePass(carto)).1.Some?
    ensures i < |ids| && RunCartoQuery(carto(DeleteStatement(ids[i]))).Exit?
    ensures forall j :: 0 <= j < i ==> DeletePass(carto)(ids[j]).1.None?
    ensures StepTrace(ids, DeletePass(carto)) == (Flatten(Outs(ids[..i + 1], DeletePass(carto))), Some(1))
  {
    var f := DeletePass(carto);
    StepTraceFirstStop(ids, f);
    i :| 0 <= i < |ids| && f(ids[i]).1.Some? && (forall j :: 0 <= j < i ==> f(ids[j]).1.None?) &&
      StepTrace(ids, f) == (Flatten(Outs(ids[..i + 1], f)), f(ids[i]).1);
    assert f(ids[i]) == DeleteOut(carto, ids[i]);
  }

  /** The DELETEs up to and including the first one that fails. */
  lemma DeletesStopAt(ids: seq<int>, carto: string -> Reply, i: nat)
    requires i < |ids| && RunCartoQuery(carto(DeleteStatement(ids[i]))).Exit?
    requires forall j :: 0 <= j < i ==> DeletePass(carto)(ids[j]).1.None?
    ensures var out := Flatten(Outs(ids[..i + 1], DeletePass(carto)));
      && |out| == i + 1 && (forall j :: 0 <= j <= i ==> out[j] == DeleteStatement(ids[j]))
      && RunCartoQuery(carto(out[i])).Exit?
      && forall j :: 0 <= j < i ==> RunCartoQuery(carto(out[j])).Ok?
  {
    var f := DeletePass(carto);
    var prefix := ids[..i + 1];
    DeletesSent(prefix, carto);
    var out := Flatten(Outs(prefix, f));
    forall j | 0 <= j <= i ensures out[j] == DeleteStatement(ids[j]) {
      assert prefix[j] == ids[j];
    }
    forall j | 0 <= j < i ensures RunCartoQuery(carto(out[j])).Ok? {
      assert f(ids[j]) == DeleteOut(carto, ids[j]);
    }
  }

  /** Every id writes its one DELETE. */
  lemma DeletesSent(ids: seq<int>, carto: string -> Reply)
    ensures var out := Flatten(Outs(ids, DeletePass(carto)));
      |out| == |ids| && forall j :: 0 <= j < |ids| ==> out[j] == DeleteStatement(ids[j])
  {
    var f := DeletePass(carto);
    forall j | 0 <= j < |ids| ensures |f(ids[j]).0| <= 1 && Writes(f)(ids[j]) {
      assert f(ids[j]) == DeleteOut(carto, ids[j]);
    }
    FlattenSingles(ids, f);
    FilterAll(ids, Writes(f));
    forall j | 0 <= j < |ids| ensures Flatten(Outs(ids, f))[j] == DeleteStatement(ids[j]) {
      assert f(ids[j]).0 == [DeleteStatement(ids[j])];
    }
  }

  /** The first part of fetch_mysql_obstruction_records: the CARTO query
      and the loop that fills alreadyincarto. */
  method FetchCartoSummaries(reply: Reply) returns (r: Outcome<map<int, Value>>)
    ensures r == CartoSummaries(reply)
  {
    var gotten := RunCartoQuery(reply);
    if gotten.Exit? {
      return Exit(gotten.status);
    }
    if !gotten.value["rows"].VRows? {
      return Exit(1);
    }
    var cartoRows := gotten.value["rows"].rows;
    var alreadyincarto: map<int, Value> := map[];
    ghost var entries: seq<(int, Value)> := [];
    for i := 0 to |cartoRows|
      invariant MapOutcome(cartoRows[..i], CartoEntry) == Ok(entries)
      invariant alreadyincarto == SummaryMap(entries)
    {
      MapOutcomeStep(cartoRows, i, CartoEntry);
      var entry := CartoEntry(cartoRows[i]);
      if entry.Exit? {
        MapOutcomeStops(cartoRows, i + 1, CartoEntry);
        return Exit(entry.status);
      }
      SummaryMapSnoc(entries, entry.value);
      alreadyincarto := alreadyincarto[entry.value.0 := entry.value.1];
      entries := entries + [entry.value];
    }
    assert cartoRows[..|cartoRows|] == cartoRows;
    return Ok(alreadyincarto);
  }

  /** The photo pass: each row of found_obstructions updated in turn with
      the photos queried for its id, until a row without a summary. */
  method FetchPhotos(found: seq<Obstruction>, photosOf: int -> seq<Option<string>>) returns (r: Outcome<seq<Obstruction>>)
    ensures r == AllWithImages(found, photosOf)
  {
    ghost var f := PhotoPass(photosOf);
    var rows := found;
    for i := 0 to |rows|
      invariant |rows| == |found| && rows[i..] == found[i..]
      invariant MapOutcome(found[..i], f) == Ok(rows[..i])
    {
      MapOutcomeStep(found, i, f);
      assert rows[i] == found[i];
      var row := WithImages(rows[i], photosOf(rows[i].id));
      if row.Exit? {
        MapOutcomeStops(found, i + 1, f);
        return Exit(row.status);
      }
      assert rows[i := row.value][..i + 1] == rows[..i] + [row.value];
      rows := rows[i := row.value];
    }
    assert found[..|found|] == found && rows[..|rows|] == rows;
    return Ok(rows);
  }

  /** The loader and the four lists fetch_mysql_obstruction_records sets. */
  class ObstructionLoader {
    var recordsToInsert: seq<Obstruction>
    var recordsToUpdate: seq<Obstruction>
    var recordsToSkip: seq<Obstruction>
    var recordsToDelete: seq<int>

    constructor ()
      ensures recordsToInsert == [] && recordsToUpdate == [] && recordsToSkip == [] && recordsToDelete == []
    {
      recordsToInsert, recordsToUpdate, recordsToSkip, recordsToDelete := [], [], [], [];
    }

    /** fetch_mysql_obstruction_records: `reply` answers the CARTO summary
        query, `found` are the MySQL obstructions, `photosOf(id)` the photo
        query for one id, `deleted` the ids of the isDelete rows. A CARTO
        failure, or a MySQL row without a summary, ends the run with status
        1 and sets no list. */
    method FetchMysqlObstructionRecords(reply: Reply, found: seq<Obstruction>, photosOf: int -> seq<Option<string>>, deleted: seq<int>)
      returns (exit: Option<int>)
      modifies this
      ensures CartoSummaries(reply).Exit? ==> exit == Some(1) && unchanged(this)
      ensures CartoSummaries(reply).Ok? && AllWithImages(found, photosOf).Exit? ==> exit == Some(1) && unchanged(this)
      ensures CartoSummaries(reply).Ok? && AllWithImages(found, photosOf).Ok? ==>
        var m, rows := CartoSummaries(reply).value, AllWithImages(found, photosOf).value;
        && exit.None?
        && recordsToInsert == InsertList(rows, m)
        && recordsToUpdate == UpdateList(rows, m)
        && recordsToSkip == SkipList(rows, m)
        && recordsToDelete == DeleteList(deleted, m)
    {
      var already := FetchCartoSummaries(reply);
      if already.Exit? {
        return Some(1);
      }
      var alreadyincarto := already.value;
      var withImages := FetchPhotos(found, photosOf);
      if withImages.Exit? {
        return Some(1);
      }
      var rows := withImages.value;

      SortRecords(rows, alreadyincarto);
      CollectDeletes(deleted, alreadyincarto);
      return None;
    }

    /** The insert/update/skip loop: each found row is appended to the list
        its id and summary call for. */
    method SortRecords(rows: seq<Obstruction>, alreadyincarto: map<int, Value>)
      modifies this
      ensures recordsToInsert == InsertList(rows, alreadyincarto)
      ensures recordsToUpdate == UpdateList(rows, alreadyincarto)
      ensures recordsToSkip == SkipList(rows, alreadyincarto)
      ensures recordsToDelete == old(recordsToDelete)
    {
      recordsToInsert, recordsToUpdate, recordsToSkip := [], [], [];
      for i := 0 to |rows|
        invariant recordsToInsert == InsertList(rows[..i], alreadyincarto)
        invariant recordsToUpdate == UpdateList(rows[..i], alreadyincarto)
        invariant recordsToSkip == SkipList(rows[..i], alreadyincarto)
        invariant recordsToDelete == old(recordsToDelete)
      {
        var thisone := rows[i];
        ClassifyStep(rows, alreadyincarto, i);
        if thisone.id !in alreadyincarto {
          recordsToInsert := recordsToInsert + [thisone];
        } else if SummaryOf(thisone) != alreadyincarto[thisone.id] {
          recordsToUpdate := recordsToUpdate + [thisone];
        } else {
          recordsToSkip := recordsToSkip + [thisone];
        }
      }
      assert rows[..|rows|] == rows;
    }

    /** The delete loop: the isDelete ids CARTO knows, in query order. */
    method CollectDeletes(deleted: seq<int>, alreadyincarto: map<int, Value>)
      modifies this
      ensures recordsToDelete == DeleteList(deleted, alreadyincarto)
      ensures recordsToInsert == old(recordsToInsert) && recordsToUpdate == old(recordsToUpdate)
      ensures recordsToSkip == old(recordsToSkip)
    {
      recordsToDelete := [];
      for i := 0 to |deleted|
        invariant recordsToDelete == DeleteList(deleted[..i], alreadyincarto)
        invariant recordsToInsert == old(recordsToInsert) && recordsToUpdate == old(recordsToUpdate)
        invariant recordsToSkip == old(recordsToSkip)
      {
        DeleteStep(deleted, alreadyincarto, i);
        if deleted[i] in alreadyincarto {
          recordsToDelete := recordsToDelete + [deleted[i]];
        }
      }
      assert deleted[..|deleted|] == deleted;
    }

    /** run: the fetch, then only the deletes; the insert, update and
        boundary loops are commented out in the script. */
    method Run(carto: string -> Reply, found: seq<Obstruction>, photosOf: int -> seq<Option<string>>, deleted: seq<int>)
      returns (submitted: seq<string>, exit: Option<int>)
      modifies this
      ensures CartoSummaries(carto(SummaryQuery())).Exit? ==> exit == Some(1) && submitted == []
      ensures AllWithImages(found, photosOf).Exit? ==> exit == Some(1) && submitted == []
      ensures CartoSummaries(carto(SummaryQuery())).Ok? && AllWithImages(found, photosOf).Ok? ==>
        var ids := DeleteList(deleted, CartoSummaries(carto(SummaryQuery())).value);
        && recordsToDelete == ids
        && |submitted| <= |ids| && (forall j :: 0 <= j < |submitted| ==> submitted[j] == DeleteStatement(ids[j]))
        && (exit.None? ==> |submitted| == |ids|)
        && (exit.Some? ==> exit == Some(1))
    {
      var fetched := FetchMysqlObstructionRecords(carto(SummaryQuery()), found, photosOf, deleted);
      if fetched.Some? {
        return [], fetched;
      }
      submitted, exit := SubmitDeletes(recordsToDelete, carto);
      DeletesSpec(recordsToDelete, carto);
    }
  }
}
