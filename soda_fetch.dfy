/** findgeomupdates/1b-fetch_soda.py: the CARTO export's socrata_ids are
    looked up in SODA 500 at a time, the replies are concatenated in chunk
    order, and the rows are written out as a four-column CSV. The SODA API
    is a function from request to decoded reply. */
module SodaFetch {
  import opened Common
  import opened Chunks
  import opened Steps
  import opened SodaQueries

  const SodaChunkSize := 500

  const SodaHeader: seq<string> := ["collision_id", "crash_date", "longitude", "latitude"]

  // ------------------------------------------------------------ reading

  function SocrataIdCell(row: CsvRow): Outcome<string>
  {
    if "socrata_id" in row then Ok(row["socrata_id"]) else Exit(1)
  }

  /** [row['socrata_id'] for row in spamreader]. */
  function CartoIds(rows: seq<CsvRow>): Outcome<seq<string>>
  {
    MapOutcome(rows, SocrataIdCell)
  }

  /** The ids are the socrata_id cells in file order; a row without one
      ends the script with a KeyError. */
  lemma CartoIdsSpec(rows: seq<CsvRow>)
    ensures CartoIds(rows).Ok? <==> forall i :: 0 <= i < |rows| ==> "socrata_id" in rows[i]
    ensures CartoIds(rows).Ok? ==>
      (|CartoIds(rows).value| == |rows| &&
       forall i :: 0 <= i < |rows| ==> "socrata_id" in rows[i] && CartoIds(rows).value[i] == rows[i]["socrata_id"])
    ensures CartoIds(rows).Exit? ==> CartoIds(rows).status == 1
  {
    MapOutcomeSpec(rows, SocrataIdCell);
  }

  // ----------------------------------------------------------- querying

  /** getsodaforcrashids(ids): the request for one chunk. str() of a CSV
      cell is the cell itself. The function returns the decoded reply as it
      is: its list and error checks come after the `return` and never run. */
  function SodaRequest(ids: seq<string>): SodaQuery
  {
    SodaQuery(WhereClause(ids, "0"), "collision_id ASC", "50000")
  }

  /** What each chunk's reply adds to soda_rows. */
  function Replies(chunks: seq<seq<string>>, soda: SodaQuery -> Reply, keysOf: map<string, Value> -> seq<string>): (r: seq<seq<SodaItem>>)
    ensures |r| == |chunks| && forall j :: 0 <= j < |chunks| ==> r[j] == ReplyItems(soda(SodaRequest(chunks[j])), keysOf)
  {
    seq(|chunks|, j requires 0 <= j < |chunks| => ReplyItems(soda(SodaRequest(chunks[j])), keysOf))
  }

  /** The query loop: one request per chunk of 500 ids, in order, and
      `soda_rows += reply` after each. */
  method FetchSodaRows(ids: seq<string>, soda: SodaQuery -> Reply, keysOf: map<string, Value> -> seq<string>)
    returns (queried: seq<seq<string>>, sodaRows: seq<SodaItem>)
    ensures queried == ListChunks(ids, SodaChunkSize)
    ensures sodaRows == Flatten(Replies(queried, soda, keysOf))
  {
    var sodaChunks := ListChunks(ids, SodaChunkSize);
    sodaRows := [];
    var done := 0;
    while done < |sodaChunks|
      invariant 0 <= done <= |sodaChunks|
      invariant sodaRows == Flatten(Replies(sodaChunks[..done], soda, keysOf))
    {
      var reply := soda(SodaRequest(sodaChunks[done]));
      RepliesSnoc(sodaChunks, done, soda, keysOf);
      sodaRows := sodaRows + ReplyItems(reply, keysOf);
      done := done + 1;
    }
    assert sodaChunks[..done] == sodaChunks;
    queried := sodaChunks;
  }

  lemma RepliesSnoc(chunks: seq<seq<string>>, j: nat, soda: SodaQuery -> Reply, keysOf: map<string, Value> -> seq<string>)
    requires j < |chunks|
    ensures Flatten(Replies(chunks[..j + 1], soda, keysOf)) ==
      Flatten(Replies(chunks[..j], soda, keysOf)) + ReplyItems(soda(SodaRequest(chunks[j])), keysOf)
  {
    var last := ReplyItems(soda(SodaRequest(chunks[j])), keysOf);
    assert Replies(chunks[..j + 1], soda, keysOf) == Replies(chunks[..j], soda, keysOf) + [last];
    FlattenAppend(Replies(chunks[..j], soda, keysOf), [last]);
    FlattenCons(last, []);
    assert [last] + [] == [last];
  }

  /** The requests ask for every id exactly once, in order, at most 500 per
      request, and there are ceil(len / 500) of them. */
  lemma QueriesCoverIds(ids: seq<string>)
    ensures var chunks := ListChunks(ids, SodaChunkSize);
      && Flatten(chunks) == ids
      && |chunks| == (|ids| + SodaChunkSize - 1) / SodaChunkSize
      && forall j :: 0 <= j < |chunks| ==> 0 < |chunks[j]| <= SodaChunkSize
  {
    FlattenListChunks(ids, SodaChunkSize);
    ChunkSizes(ids, SodaChunkSize);
  }

  // ------------------------------------------------------------ writing

  /** A csv.writer cell: None becomes the empty string, anything else its
      str(). */
  function Cell(v: Value): string
  {
    if v.VNull? then "" else Str(v)
  }

  /** The elements the write loop writes a line for: rows that carry a
      collision_id. */
  predicate IsWritten(item: SodaItem)
  {
    item.RowItem? && "collision_id" in item.row
  }

  /** An element the write loop stops at: a row with a collision_id but
      without one of the other three columns (KeyError), or a key string
      that contains "collision_id", which is then indexed by a string
      (TypeError). */
  predicate Fails(item: SodaItem)
  {
    match item
    case RowItem(row) => "collision_id" in row && !("crash_date" in row && "longitude" in row && "latitude" in row)
    case KeyItem(key) => Contains(key, "collision_id")
  }

  function RowLine(row: Row): seq<string>
    requires "collision_id" in row && "crash_date" in row && "longitude" in row && "latitude" in row
  {
    [Cell(row["collision_id"]), Cell(row["crash_date"]), Cell(row["longitude"]), Cell(row["latitude"])]
  }

  /** One pass of the write loop: skip an element without a collision_id,
      write the four cells of a row that has all four, stop with status 1
      otherwise. */
  function WriteStep(item: SodaItem): (seq<seq<string>>, Option<int>)
  {
    match item
    case RowItem(row) =>
      if "collision_id" !in row then ([], None)
      else if "crash_date" in row && "longitude" in row && "latitude" in row then ([RowLine(row)], None)
      else ([], Some(1))
    case KeyItem(key) =>
      if Contains(key, "collision_id") then ([], Some(1)) else ([], None)
  }

  /** The CSV the script writes: the header, then the write loop. */
  method WriteSodaCsv(sodaRows: seq<SodaItem>) returns (lines: seq<seq<string>>, exit: Option<int>)
    ensures lines == [SodaHeader] + StepTrace(sodaRows, WriteStep).0
    ensures exit == StepTrace(sodaRows, WriteStep).1
  {
    lines := [SodaHeader];
    var i := 0;
    while i < |sodaRows|
      invariant 0 <= i <= |sodaRows|
      invariant StepTrace(sodaRows[..i], WriteStep).1.None?
      invariant lines == [SodaHeader] + StepTrace(sodaRows[..i], WriteStep).0
    {
      StepTraceStep(sodaRows, i, WriteStep);
      match sodaRows[i] {
        case RowItem(row) =>
          if "collision_id" in row {
            if !("crash_date" in row && "longitude" in row && "latitude" in row) {
              StepTraceStopsAt(sodaRows, i, WriteStep);
              return lines, Some(1);
            }
            lines := lines + [[Cell(row["collision_id"]), Cell(row["crash_date"]), Cell(row["longitude"]), Cell(row["latitude"])]];
          }
        case KeyItem(key) =>
          if Contains(key, "collision_id") {
            StepTraceStopsAt(sodaRows, i, WriteStep);
            return lines, Some(1);
          }
      }
      i := i + 1;
    }
    assert sodaRows[..i] == sodaRows;
    exit := None;
  }

  /** A write loop that runs to the end writes exactly the elements that
      carry a collision_id, in order, each as its four cells. */
  lemma WrittenRows(items: seq<SodaItem>)
    requires StepTrace(items, WriteStep).1.None?
    ensures var kept, out := Filter(items, IsWritten), StepTrace(items, WriteStep).0;
      && |out| == |kept|
      && forall i :: 0 <= i < |kept| ==>
        && kept[i].RowItem? && "collision_id" in kept[i].row && "crash_date" in kept[i].row
        && "longitude" in kept[i].row && "latitude" in kept[i].row
        && out[i] == RowLine(kept[i].row)
  {
    StepTraceAll(items, WriteStep);
    FlattenSingles(items, WriteStep);
    forall i | 0 <= i < |items| ensures Writes(WriteStep)(items[i]) == IsWritten(items[i]) {
      assert WriteStep(items[i]).1.None?;
    }
    FilterCongruent(items, Writes(WriteStep), IsWritten);
  }

  /** The write loop stops only at an element that Fails, the first one,
      and always with status 1. */
  lemma WriteStops(items: seq<SodaItem>)
    requires StepTrace(items, WriteStep).1.Some?
    ensures StepTrace(items, WriteStep).1 == Some(1)
    ensures exists i :: 0 <= i < |items| && Fails(items[i]) && forall j :: 0 <= j < i ==> !Fails(items[j])
  {
    StepTraceFirstStop(items, WriteStep);
    var i :| 0 <= i < |items| && WriteStep(items[i]).1.Some? && (forall j :: 0 <= j < i ==> WriteStep(items[j]).1.None?) &&
      StepTrace(items, WriteStep) == (Flatten(Outs(items[..i + 1], WriteStep)), WriteStep(items[i]).1);
    StopsIffFails(items[i]);
    forall j | 0 <= j < i ensures !Fails(items[j]) {
      StopsIffFails(items[j]);
    }
  }

  /** One pass stops exactly at an element that Fails, with status 1. */
  lemma StopsIffFails(item: SodaItem)
    ensures WriteStep(item).1.Some? <==> Fails(item)
    ensures WriteStep(item).1.Some? ==> WriteStep(item).1 == Some(1)
  {
  }

  // ---------------------------------------------------------------- run

  /** run(): read the ids, query SODA chunk by chunk, write the CSV. A
      missing socrata_id stops the script before any request. */
  method Run(cartoRows: seq<CsvRow>, soda: SodaQuery -> Reply, keysOf: map<string, Value> -> seq<string>)
    returns (queried: seq<seq<string>>, lines: seq<seq<string>>, exit: Option<int>)
    ensures CartoIds(cartoRows).Exit? ==> queried == [] && lines == [] && exit == Some(1)
    ensures CartoIds(cartoRows).Ok? ==>
      && queried == ListChunks(CartoIds(cartoRows).value, SodaChunkSize)
      && lines == [SodaHeader] + StepTrace(Flatten(Replies(queried, soda, keysOf)), WriteStep).0
      && exit == StepTrace(Flatten(Replies(queried, soda, keysOf)), WriteStep).1
  {
    var ids := CartoIds(cartoRows);
    if ids.Exit? {
      CartoIdsSpec(cartoRows);
      return [], [], Some(1);
    }
    var sodaRows;
    queried, sodaRows := FetchSodaRows(ids.value, soda, keysOf);
    lines, exit := WriteSodaCsv(sodaRows);
  }
}
