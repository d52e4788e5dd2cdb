# NYC Crash Mapper ETL scripts, modelled in Dafny

The NYC Crash Mapper keeps a CARTO table of collisions (`crashes_all_prod`)
in step with the city's Socrata (SODA) open-data feed. A family of small
Python scripts does the work: the daily sync (`main.py`), a month-by-month
backlog loader, a Walkmapper obstruction syncer, repair scripts for the
injury tallies, moved geometries and missing geometries, a one-off polygon
linkage, and a refresh of the high-crash intersections view.

This project models the logic in those scripts once the I/O is stripped
away:

- reconciliation: which records to insert, update, skip or delete;
- statement rendering: value tuples, INSERT, UPDATE and DELETE texts;
- batching: `list_chunks`, residue-class partitions, the VACUUM counter;
- the small state machines: argument checks, reply classification, and
  batch-job polling.

Every HTTP reply, CSV file and MySQL result set becomes a parameter. Replies
are decoded JSON (`Common.Reply`). Services are functions from request to
reply. A script's end by `sys.exit(n)` is `Exit(n)`, and an uncaught
exception is `Exit(1)`.

One module per script, plus shared modules:

- `Common`: values, replies, strings, numbers, keyed maps, filters;
- `Chunks`: `list_chunks`;
- `Steps`: the "write something, maybe stop" loop shape;
- `Months`: the month argument;
- `SodaQueries`: the SODA id query;
- `CrashRows` and `CrashInsert`: the crash tuple and its INSERT.

Loops that the scripts run step by step are Dafny methods with loop
invariants. Each method is proved equal to a specification function, and
the lemmas about that function state what the script promises. The
Walkmapper loader, whose methods fill object fields, is a class.

## Model

| member | source | states |
|---|---|---|
| Common.PerformCartoQuery | findgeomupdates/findgeomupdates_config.py:40-53 | a non-empty `rows` member (an array or a string) is returned as it is; a `rows` member without a length (null, number, boolean) exits 1 (TypeError); otherwise an `error` key exits 1; otherwise the result is None; fixnullgeom/fix_null_geom_in_carto.py:98-111 reads replies the same way |
| Common.LoadRecords | fixtallies/1-diffs.py:19-32 | the CSV rows are keyed by the id column, a later duplicate wins; a row without the column exits 1; findgeomupdates/2-make_diffs_csv.py:9-16 keys the existing CARTO rows by socrata_id the same way |
| Common.IndexByLastWins | fixtallies/1-diffs.py:24-32 | each key maps to the last row that carries it |
| Common.SplitJoin | findgeomupdates/1b-fetch_soda.py:64 | joining comma-free ids with ',' and splitting again gives the ids back |
| Common.FilterSpec | backlog/check_backlog.py:100-105 | a filter keeps exactly the elements satisfying the predicate, in order, as a subsequence |
| Common.NumeralSpec | main.py:172 | int() on stripped text accepts exactly an optional + or - followed by digits with single '_' separators between them; the value is the digits' value, negated after a '-'; backlog/check_backlog.py:70,103 and walkmapper/mysql2carto.py:112 read ids with the same int() |
| Common.PyIntRoundTrip | main.py:172 | int(str(n)) == n for every int, negative ones included |
| Common.NegativeRoundTrip | backlog/check_backlog.py:70 | a '-' followed by the digits of m reads as -m |
| Common.SurroundingSpacesIgnored | backlog/check_backlog.py:70 | spaces around a numeral, signed or not, do not change what int() reads |
| Common.NoBreakSpaceStripped | main.py:198-216 | strip() removes a trailing no-break space from a street name |
| Common.MapOutcomeSpec | backlog/check_backlog.py:108-209 | a per-row renderer run over a list fails iff some row fails, with the first failure's status; otherwise it yields one output per row, in order |
| Chunks.FlattenListChunks | findgeomupdates/findgeomupdates_config.py:35-36 | concatenating the chunks of list_chunks gives the list back; the backlog's copy at backlog/check_backlog.py:353-354 is the same comprehension |
| Chunks.ChunkSizes | findgeomupdates/findgeomupdates_config.py:35-36 | there are ceil(len/n) chunks, none for the empty list; each is non-empty and at most n long; all but the last are exactly n |
| Steps.StepTraceSpec | findgeomupdates/4-update_carto.py:18-50 | the write loop stops iff some element stops it; it writes every element's output up to and including the first that stops it |
| Steps.FlattenSingles | findgeomupdates/1b-fetch_soda.py:38-52 | when each element writes at most one line, the lines are exactly those of the elements that write, in order |
| Months.MonthArgument | backlog/check_backlog.py:367-374 | the argument is accepted iff it is present and matches a 2015-2022 year and a 01-12 month; otherwise exit 1; fixnullgeom/fix_null_geom_in_carto.py:34-40 is the same check with the years 2015-2021; the accepted years are a parameter |
| Months.DateRangeOfArgument | backlog/check_backlog.py:40-49 | a YYYY-MM month gives the first of that month and the first of the next month, December rolling over to January; fixnullgeom/fix_null_geom_in_carto.py:59-68 computes the same window |
| Months.HalfOpenWindow | backlog/check_backlog.py:42-54 | a date lies in [start, end) iff it falls in the given month |
| Months.Yyyymm2DateRange | backlog/check_backlog.py:40-49 | the corrected range equals the written one on every seven-character argument |
| Months.TrailingNewlineMisreadsMonth | backlog/check_backlog.py:43 | an argument with a trailing newline passes the check of either script but the written range reads the wrong month; fixnullgeom/fix_null_geom_in_carto.py:62 has the same slice |
| Backlog.GetCartoAlreadyIds | backlog/check_backlog.py:52-71 | a reply without rows, or with an empty rows list, exits 1; the result is Ok exactly when every row's socrata_id passes int(), and then it holds one int per row, in row order; any exit has status 1 |
| Backlog.AlreadyIdsPerRow | backlog/check_backlog.py:69-71 | one integer id per returned row, in row order |
| Backlog.GetSodaCrashes | backlog/check_backlog.py:74-97 | a non-empty list goes on unchanged; an object whose error is truthy or missing exits 1; anything else exits 2 |
| Backlog.FiltertoMissingCrashes | backlog/check_backlog.py:100-105 | keeps, in order, the crashes whose int(collision_id) is not already known; a non-numeric id exits 1 |
| Backlog.MissingCrashesSpec | backlog/check_backlog.py:100-105 | the kept crashes are exactly the input crashes CARTO lacks, in input order |
| Backlog.AggregateSynthesis | backlog/check_backlog.py:176-179 | a missing persons total becomes motorist + cyclist + pedestrians; a present one is untouched |
| Backlog.Soda2Data | backlog/check_backlog.py:108-209 | one value tuple per crash, in crash order, or the first row's failure |
| Backlog.PrepareValues | backlog/check_backlog.py:361-392 | a missing or malformed month argument exits 1 before any request; a result means the argument passed and its window was read |
| Backlog.Run | backlog/check_backlog.py:361-406 | every check's exit, as Backlog.PrepareValues computes it, comes through; otherwise one INSERT per chunk of 40 values |
| Backlog.SubmitChunks | backlog/check_backlog.py:396-403 | the insert loop submits one statement per chunk, in chunk order |
| Backlog.InsertChunksCoverValues | backlog/check_backlog.py:396-403 | the statements insert every value exactly once, in order, at most 40 per statement |
| CrashRows.FormatStringForPostgresArray | backlog/check_backlog.py:212-237 | an unknown field exits 2; otherwise the present keys in lookup order are quoted inside ARRAY[...]::text[]; main.py:108-133 builds the same array but exits 1 for an unknown field; the exit status is a parameter |
| CrashRows.KeyName | backlog/check_backlog.py:223-230 | the i-th key is contributing_factor_vehicle_i, vehicle_type_code1, vehicle_type_code2, then vehicle_type_code_i |
| CrashRows.EmptyArray | main.py:119-133 | a row with none of the five keys gives ARRAY[]::text[] |
| CrashRows.QuotedPresentFromKeys | main.py:119-133 | every array item is the quoted value of a present key |
| CrashRows.GeometryRule | main.py:179-194 | with both coordinates truthy the geometry is the point (lng lat); otherwise geometry, lat and lng are null; the backlog renderer at backlog/check_backlog.py:120-140 uses the same rule |
| CrashRows.Defaults | main.py:198-219 | missing street names and zip become ''; present street names are stripped of the whitespace str.isspace() names, the Unicode spaces and separators included; borough is '' and crash_count is '1' |
| CrashRows.YearMonthFromTimestamp | backlog/check_backlog.py:182-206 | the year and month columns are the first fields of date_val |
| CrashRows.ArgumentsByColumn | main.py:228-255 | format argument k is the value column k of the INSERT receives: counts, zip, streets, borough, the timestamp at date_val (slot 13), coordinates and point, the two arrays, year, month, crash_count, and the id last at socrata_id |
| CrashRows.CountFields | main.py:230-238 | the eight count columns read the SODA count fields in order; the singular pedestrian columns read the plural SODA fields |
| CrashInsert.FormatStringForInsertVal | backlog/check_backlog.py:240-256 | the template is the 23 placeholders, comma-joined, in parentheses; main.py:136-152 builds the same template |
| CrashInsert.TemplateMatchesColumns | backlog/check_backlog.py:266-292 | 23 placeholders for 23 columns; dollar-quoted exactly at the text columns; the timestamptz slot at date_val |
| CrashInsert.Placeholders | main.py:144-152 | slot i holds the placeholder for column i |
| CrashInsert.CreateSqlInsert | backlog/check_backlog.py:259-332 | the statement carries the given tuples into the crashes table under the 23 template columns, in template order |
| CrashInsert.SocrataIdLast | backlog/check_backlog.py:289-328 | socrata_id, which the NOT IN guard tests, is the last inserted column and the last column the SELECT list reads |
| CrashInsert.FillReplacesField | main.py:136-152 | filling slot i replaces the `{i}` field of placeholder i by the argument and keeps its quoting |
| CrashInsert.InsertShape | main.py:331-334 | the statement names the columns, inserts the given tuples and guards on socrata_id NOT IN the table |
| MainSync.ClassifySodaReply | main.py:74-82 | a non-empty list goes on; an object with a truthy or missing error exits 1; anything else exits 0 |
| MainSync.ExistingIds | main.py:84-99 | missing or empty rows are fatal (exit 1), and so is a row without socrata_id; the result is Ok exactly when the rows are non-empty and all carry socrata_id, and then it holds one socrata_id per row, in order |
| MainSync.FormatSodaResponse | main.py:155-262 | the INSERT of exactly the rows not yet at CARTO, rendered in order; a render failure exits 1 |
| MainSync.RenderNewRows | main.py:169-255 | the loop yields exactly the value tuples of the rows not yet at CARTO, in order; a row without unique_key or one it cannot render ends the run with status 1 |
| MainSync.NewRowsSpec | main.py:169-173 | the rendered rows are exactly the input rows whose unique_key is not among the known ids, in order |
| MainSync.RenderFailureExits | main.py:231 | one kept row that cannot be rendered ends the whole loop with status 1 |
| MainSync.GetSodaData | main.py:51-104 | the SODA check's exit, then the id fetch's exit come through; otherwise the INSERT of the new rows |
| MainSync.DateMonthsAgo | main.py:29-48 | the first row's backthen value, or exit 1 without rows or without it |
| MainSync.UpdateIntersectionsCrashcount | main.py:462-493 | the reset is submitted first, then the five block updates for residues 0..4 |
| MainSync.CountBlockFilters | main.py:474-489 | block b's statement counts crashes since the fetched date, with an injury or a death, in intersections whose cartodb_id % 5 = b |
| MainSync.ResidueFiltersDiffer | main.py:485 | the five blocks' residue filters are pairwise different |
| MainSync.BlocksPartition | main.py:470-492 | every intersection id falls in exactly one of the five blocks, the one whose statement carries the filter for the id's residue |
| Walkmapper.RunCartoQuery | walkmapper/mysql2carto.py:85-99 | a reply without rows exits 1; otherwise the reply itself |
| Walkmapper.CartoSummariesLastWins | walkmapper/mysql2carto.py:105-112 | each int(id) maps to the summary of its last row |
| Walkmapper.ImageSlots | walkmapper/mysql2carto.py:171-197 | the first four photos fill image1..image4, a fifth lands in image6, and image5 stays None |
| Walkmapper.SummarySuffix | walkmapper/mysql2carto.py:199-203 | the summary gets the present image1..image5 values appended in order |
| Walkmapper.AllWithImages | walkmapper/mysql2carto.py:169-203 | every found row gets its images, in order |
| Walkmapper.ExactlyOneList | walkmapper/mysql2carto.py:209-219 | each record is in exactly one of insert, update and skip |
| Walkmapper.ListsPartition | walkmapper/mysql2carto.py:209-219 | insert is the unknown ids, update the known ids with a changed summary, skip the unchanged; all three keep input order |
| Walkmapper.DeleteListSpec | walkmapper/mysql2carto.py:222-241 | the delete list is the deleted ids known to CARTO, in query order |
| Walkmapper.EscapeString | walkmapper/mysql2carto.py:251-256 | None escapes to ''; any other string is passed to the escape function |
| Walkmapper.QuoteValue | walkmapper/mysql2carto.py:259-267 | None is NULL, booleans are TRUE/FALSE, anything else is the escaped text in single quotes |
| Walkmapper.QuoteValueDistinguishes | walkmapper/mysql2carto.py:259-267 | different values quote differently when the escape keeps them apart |
| Walkmapper.SubmitDeletes | walkmapper/mysql2carto.py:360-370 | the delete loop computes the write-and-maybe-stop trace of its ids |
| Walkmapper.DeletesSpec | walkmapper/mysql2carto.py:360-370 | one DELETE per listed id, in order; a full run got rows back for each; a stopped run ends with exit 1 right after the first reply without rows |
| Walkmapper.FetchCartoSummaries | walkmapper/mysql2carto.py:105-112 | the loop builds the id-to-summary map, last row winning |
| Walkmapper.FetchPhotos | walkmapper/mysql2carto.py:169-203 | the loop gives every row its images |
| Walkmapper.ObstructionLoader.FetchMysqlObstructionRecords | walkmapper/mysql2carto.py:102-241 | the four lists are set to the insert, update, skip and delete lists |
| Walkmapper.ObstructionLoader.SortRecords | walkmapper/mysql2carto.py:209-219 | the loop leaves the insert, update and skip lists set to the unknown ids, the changed summaries and the unchanged ones, and the delete list untouched |
| Walkmapper.ObstructionLoader.CollectDeletes | walkmapper/mysql2carto.py:222-241 | the loop leaves the delete list set to the deleted ids CARTO knows, in query order, and the other three lists untouched |
| Walkmapper.ObstructionLoader.Run | walkmapper/mysql2carto.py:70-82 | only the deletes are submitted; insert and update are commented out |
| TallyDiffs.ComparedColumns | fixtallies/1-diffs.py:58-83 | the rows agree iff all eight count strings agree, plural SODA pedestrian columns against singular CARTO ones |
| TallyDiffs.OutputRow | fixtallies/1-diffs.py:86-96 | a diff row is unique_key then the eight SODA values, in header order |
| TallyDiffs.DiffsSpec | fixtallies/1-diffs.py:52-96 | exit 1 iff an id both sides hold misses a column; otherwise one row per differing id, in key order |
| TallyDiffs.DiffIdsFromBoth | fixtallies/1-diffs.py:52-56 | only ids in both exports get a row; ids only in SODA never do |
| TallyDiffs.Compare | fixtallies/1-diffs.py:52-96 | the comparison loop computes the diff rows |
| TallyDiffs.Run | fixtallies/1-diffs.py:19-96 | either load's exit comes through; otherwise the header and the diff rows |
| TallyUpdate.UpdateTextAssigns | fixtallies/2-update_carto.py:30-53 | the statement text starts UPDATE crashes_all_prod SET, assigns every count column the row's cell of its diffs column (number_of_pedestrian_injured/killed from the plural diffs columns) and ends WHERE socrata_id= the row's id |
| TallyUpdate.SetListAssigns | fixtallies/2-update_carto.py:32-40 | every assignment from a position on appears in the SET list |
| TallyUpdate.Run | fixtallies/2-update_carto.py:24-71 | the row loop's events, then VACUUM FULL unless a row ended the run |
| TallyUpdate.RowEventsCounts | fixtallies/2-update_carto.py:58-68 | a row adds one UPDATE; a VACUUM when its count is a multiple of 2500; a progress line at multiples of 100 |
| TallyUpdate.TraceCounts | fixtallies/2-update_carto.py:30-68 | a full run submits one UPDATE per row in order, len/2500 VACUUMs and len/100 progress lines |
| TallyUpdate.VacuumFullNowhere | fixtallies/2-update_carto.py:71 | VACUUM FULL appears only as the last statement |
| SodaQueries.WhereClauseIds | findgeomupdates/1b-fetch_soda.py:64 | splitting the clause's IN list at ',' gives back exactly the ids queried, in order; fixnullgeom/fix_null_geom_in_carto.py:73 builds the same clause |
| SodaFetch.CartoIdsSpec | findgeomupdates/1b-fetch_soda.py:13 | one socrata_id per CARTO row, in order; a row without it exits 1 |
| SodaFetch.FetchSodaRows | findgeomupdates/1b-fetch_soda.py:16-25 | the ids are queried in chunks of 500, in order, and the replies concatenated |
| SodaFetch.QueriesCoverIds | findgeomupdates/1b-fetch_soda.py:16-25 | the chunks concatenate to the ids; there are ceil(len/500) of them, each at most 500 |
| SodaFetch.WriteSodaCsv | findgeomupdates/1b-fetch_soda.py:27-52 | the header, then the write loop's lines |
| SodaFetch.WrittenRows | findgeomupdates/1b-fetch_soda.py:38-52 | rows without collision_id are skipped; each written row is collision_id, crash_date, longitude, latitude, in order |
| SodaFetch.WriteStops | findgeomupdates/1b-fetch_soda.py:47-52 | the loop stops with status 1 exactly at the first element it cannot write |
| SodaFetch.Run | findgeomupdates/1b-fetch_soda.py:9-52 | the id load's exit, or the chunked queries and the CSV lines |
| GeomDiffs.PotentialUpdatesSpec | findgeomupdates/2-make_diffs_csv.py:23 | exactly the SODA rows whose collision_id is a known socrata_id, in file order |
| GeomDiffs.EmittedIffMoved | findgeomupdates/2-make_diffs_csv.py:36-59 | a record is emitted iff its meters exceed 15, carrying the old ids and date, both coordinate pairs and the meters |
| GeomDiffs.UpdatesSpec | findgeomupdates/2-make_diffs_csv.py:26-59 | any exit has status 1; otherwise one update per moved record, in order |
| GeomDiffs.OutputRow | findgeomupdates/2-make_diffs_csv.py:78-88 | an output row has the header's eight columns, and column k holds the update's value for header key k |
| GeomDiffs.CompareRow | findgeomupdates/2-make_diffs_csv.py:28-59 | one pass of the distance loop |
| GeomDiffs.CompareAll | findgeomupdates/2-make_diffs_csv.py:26-59 | the distance loop over the candidates, stopping at the first exit |
| GeomDiffs.OutputLines | findgeomupdates/2-make_diffs_csv.py:78-88 | the header, then one output row per update, in order |
| GeomDiffs.Run | findgeomupdates/2-make_diffs_csv.py:9-88 | the exit, or the header and one output row per update |
| GeomUpdate.MoveTextShape | findgeomupdates/4-update_carto.py:28-47 | the UPDATE nulls all eight polygon columns, sets POINT(lng lat) and the two coordinates, and ends WHERE socrata_id = the row's id |
| GeomUpdate.Run | findgeomupdates/4-update_carto.py:17-50 | the loop submits the rows' statements until a failed reply |
| GeomUpdate.OneUpdatePerRow | findgeomupdates/4-update_carto.py:18-49 | one UPDATE per diff row, in file order; a full run covers every row; a stop has status 1 |
| NullGeom.NullGeomIds | fixnullgeom/fix_null_geom_in_carto.py:114-124 | the socrata_id of each returned row, in row order; exit 1 otherwise |
| NullGeom.RequestNamesIds | fixnullgeom/fix_null_geom_in_carto.py:71-73 | the request's where clause names exactly the given ids and the 0.0000000 latitude guard |
| NullGeom.FixTextShape | fixnullgeom/fix_null_geom_in_carto.py:127-144 | the UPDATE sets latitude, longitude and POINT(lng lat), and ends WHERE socrata_id = the collision_id |
| NullGeom.UpdateCartoGeom | fixnullgeom/fix_null_geom_in_carto.py:127-144 | one record's fix, with the reply check |
| NullGeom.OneFixPerRecord | fixnullgeom/fix_null_geom_in_carto.py:53-54 | one UPDATE per record, in order, until a failed reply |
| NullGeom.Records | fixnullgeom/fix_null_geom_in_carto.py:32-51 | the argument, id and SODA steps, with exit 1 from any of them |
| NullGeom.FindRecords | fixnullgeom/fix_null_geom_in_carto.py:32-51 | computes those records |
| NullGeom.UpdateAll | fixnullgeom/fix_null_geom_in_carto.py:53-54 | the update loop |
| NullGeom.Run | fixnullgeom/fix_null_geom_in_carto.py:32-56 | nothing is submitted when a check fails; otherwise the update loop over the records |
| PolygonLink.CartoapiRead | initialpolygonlinkage/linkthem.py:105-118 | a reply without a rows array exits 1; otherwise its rows |
| PolygonLink.FirstCount | initialpolygonlinkage/linkthem.py:38-40 | rows[0]['count'], exit 1 without a first row or without the column |
| PolygonLink.Identifiers | initialpolygonlinkage/linkthem.py:58-60 | the identifier of each returned row, in order; exit 1 if a row lacks it |
| PolygonLink.Preflight | initialpolygonlinkage/linkthem.py:37-65 | a failed read of the null count, the polygon count or the identifiers exits 1; a falsy null count exits 0; zero polygons exits 1; the result is Ok exactly when both counts are truthy and the identifiers are as many as the polygons, and then it is those identifiers |
| PolygonLink.IdentifierCountChecked | initialpolygonlinkage/linkthem.py:63-65 | an identifier count different from the polygon count exits 1 |
| PolygonLink.UpdateQueriesList | initialpolygonlinkage/linkthem.py:68-79 | identifiers x 20 queries, identifier-major, query a*20+b for identifier a and chunk b |
| PolygonLink.ChunksCoverResidues | initialpolygonlinkage/linkthem.py:70-77 | for each identifier every cartodb_id residue is covered by exactly one of its twenty chunks |
| PolygonLink.LinkTextShape | initialpolygonlinkage/linkthem.py:71-78 | each UPDATE sets assembly to the identifier, only where it is NULL, inside that polygon, ending with the chunk's residue |
| PolygonLink.WriteAll | initialpolygonlinkage/linkthem.py:95-101 | the write loop over the queries |
| PolygonLink.SentInOrder | initialpolygonlinkage/linkthem.py:121-135 | the queries go out in order; all of them unless a reply without total_rows or time exits 1 |
| PolygonLink.Run | initialpolygonlinkage/linkthem.py:27-101 | nothing is written unless the checks pass; then query k is for identifier k/20 and chunk k%20 |
| HighCrash.BatchJobs | highcrash_intersections/refresh_intersections_highestcrashes.py:35-57 | create mode starts the five-statement batch, refresh mode the one-statement batch, any other mode none |
| HighCrash.StatementsShape | highcrash_intersections/refresh_intersections_highestcrashes.py:39-55 | every statement names the view; create drops it first and re-creates it from the counted intersections, highest first |
| HighCrash.StartBatchJob | highcrash_intersections/refresh_intersections_highestcrashes.py:80-101 | a truthy error or a missing job_id exits 1; otherwise the job id |
| HighCrash.PollStep | highcrash_intersections/refresh_intersections_highestcrashes.py:119-133 | running and pending poll again, done finishes with the reply, anything else fails |
| HighCrash.Wait | highcrash_intersections/refresh_intersections_highestcrashes.py:111-135 | a failed wait has status 1 |
| HighCrash.WaitSpec | highcrash_intersections/refresh_intersections_highestcrashes.py:116-135 | the first reply that is neither running nor pending decides: done returns it, anything else exits 1 |
| HighCrash.WaitBatchJob | highcrash_intersections/refresh_intersections_highestcrashes.py:111-135 | the polling loop computes that outcome |
| HighCrash.TopIntersections | highcrash_intersections/refresh_intersections_highestcrashes.py:59-75 | exit 1 unless the rows are non-empty and each has name, borough and crashcount |
| HighCrash.Run | highcrash_intersections/refresh_intersections_highestcrashes.py:34-77 | at most one batch, then the wait, then the read; each failure exits 1 |

## Left out

- HTTP, MySQL, CSV files, printing, logging and `time.sleep`: replies and files are parameters, and nothing is printed.
- The environment-variable checks in each `__main__` block: they read the process environment.
- The `RequestException` handlers: a transport failure is not modelled; every reply arrives.
- Floating point: `float(...)`, `haversine` and the float-to-text conversion are function parameters. So neither R = 6372800 nor "identical points give 0" is modelled; the distance is an integer returned by that parameter.
- `datetime.strptime`/`strftime` and `MySQLdb.escape_string` are function parameters; a date is year, month and day.
- Python's dict iteration order is a `keysOf` parameter that lists each key once.
- SQL semantics: what the server does with a statement (CONCAT, ST_Intersects, materialized views, VACUUM) is out of scope; only the statement text or its parts are modelled. Statement whitespace is read as single spaces, and several statements are held as datatypes of their parts.
- `filter_carto_data`, `update_borough`, `update_city_council`, `update_community_board`, `update_neighborhood` and `update_nypd_precinct` in main.py: fixed SQL texts whose work is done server-side. `main` only calls them in turn; `update_carto_table` only submits the INSERT that MainSync.FormatSodaResponse returns.
- Walkmapper `insert_record_to_carto`, `update_record_in_carto`, `intersect_boundaries`: called only from the commented-out loop in `run`.
- Walkmapper.ObstructionLoader.FetchMysqlObstructionRecords: the row dicts the script mutates in place are modelled as new values; the int(), float() and .date() conversions of the found rows and the float() of the delete rows are not modelled, so rows arrive already converted and a value they reject does not end the run.
- TallyDiffs.Run: rows written to the CSV before a KeyError are not part of its result; the run is an `Exit(1)`.
- `performcartoquery` in fixtallies/2-update_carto.py and backlog/check_backlog.py: exit 2 on a transport error, which is not modelled (see the RequestException line); the reply is not checked, and the submissions are modelled without replies.
- findgeomupdates/1a-fetch_carto.py and vehicletypecrosswalk/check_vehicletypes.py: one query and a dump.
- PolygonLink.CartoapiRead: a `rows` member that is not an array fails at its first use in the script; the model treats it as an immediate exit 1.
- HighCrash.WaitBatchJob: the source polls forever; the model reads a finite list of replies and reports "still waiting" when they run out.
- HighCrash.Run: the final loop only logs the rows; the model returns them.
- The crash_date[:10] that `update_carto_geom` computes is only logged.
- Backlog.Run: computes its window with the corrected month reading (Months.Yyyymm2DateRange), not the written `int(yyyymm[-2:])`; the two agree on every seven-character argument and differ only for an argument with a trailing newline (see Findings).
- Backlog.PrepareValues: the same corrected month reading as Backlog.Run.
- NullGeom.Records: the same corrected month reading, where fixnullgeom/fix_null_geom_in_carto.py:62 uses `int(yyyymm[-2:])` (see Findings).
- NullGeom.FindRecords: the same corrected month reading as NullGeom.Records.
- NullGeom.Run: the same corrected month reading as NullGeom.Records.
- Common.PyIntText: the non-ASCII decimal digits that Python 3's int() also accepts (Arabic-Indic, Devanagari, fullwidth and the other Nd digits) read as a ValueError, so Backlog.GetCartoAlreadyIds, Backlog.FiltertoMissingCrashes, Backlog.AggregateSynthesis, MainSync.RenderNewRows and Walkmapper.CartoSummariesLastWins end with status 1 on an id or count written in them; ids from CARTO, SODA and MySQL are ASCII numerals.
- HowManyIntersections: the script's docstring says 100 intersections; the code uses 500, and so does the model.

## Findings

| source | as written | input that shows it | evidently intended | confidence | as-written member | corrected member |
|---|---|---|---|---|---|---|
| backlog/check_backlog.py:43 | the month is `int(yyyymm[-2:])`, the last two characters, while the check at line 368 uses `$`, which also accepts one trailing newline | the argument "2016-11\n" passes the check and gives the range 2016-01-01 to 2016-02-01 | the month is the two characters after the dash, giving 2016-11-01 to 2016-12-01 | not executed | Months.Yyyymm2DateRangeAsWritten, Months.TrailingNewlineMisreadsMonth | Months.Yyyymm2DateRange |
| fixnullgeom/fix_null_geom_in_carto.py:62 | the same `int(yyyymm[-2:])` month, after the same `$` check at line 36 | "2016-11\n" passes the check and gives the window 2016-01-01 to 2016-02-01 | 2016-11-01 to 2016-12-01 | not executed | Months.Yyyymm2DateRangeAsWritten, Months.TrailingNewlineMisreadsMonth | Months.Yyyymm2DateRange |
