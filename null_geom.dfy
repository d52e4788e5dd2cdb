/** fixnullgeom/fix_null_geom_in_carto.py: for one month, the CARTO crashes
    without a usable geometry are looked up in SODA by collision_id, and
    every record SODA returns has its position written back to CARTO.
    CARTO and SODA are functions from request to decoded reply; float() is
    a parameter yielding a value of an abstract type F, str() of such a
    value another. */
module NullGeom {
  import opened Common
  import opened Chunks
  import opened Steps
  import opened Months
  import opened SodaQueries

  // ------------------------------------------------------- CARTO side

  /** list_cartodb_null_geoms' query: crashes with a socrata_id whose
      geometry is missing or at x = 0, in the half-open date window. */
  function NullGeomQuery(start: string, end: string): string
  {
    "SELECT cartodb_id, socrata_id, date_val::date FROM " + CrashesTable +
    " WHERE socrata_id IS NOT NULL AND (the_geom IS NULL OR ST_X(the_geom) = 0)" +
    " AND date_val >= '" + start + "' AND date_val < '" + end + "' ORDER BY date_val"
  }

  /** The ids list_cartodb_null_geoms returns: the socrata_id of every row
      performcartoquery returns, in row order. A reply without rows and
      without an error leaves None, which the comprehension cannot iterate
      (TypeError); rows given as a string yield characters, which cannot be
      indexed by 'socrata_id' (TypeError); those, an error reply and a row
      without socrata_id all end the script with status 1. */
  function NullGeomIds(reply: Reply): (r: Outcome<seq<Value>>)
    ensures r.Ok? <==>
      (reply.ObjectReply? && NonEmptyRows(reply.fields).Some? &&
       forall i :: 0 <= i < |reply.fields["rows"].rows| ==> "socrata_id" in reply.fields["rows"].rows[i])
    ensures r.Exit? ==> r.status == 1
    ensures r.Ok? ==>
      var rows := reply.fields["rows"].rows;
      |r.value| == |rows| && forall i :: 0 <= i < |rows| ==> r.value[i] == rows[i]["socrata_id"]
  {
    match PerformCartoQuery(reply)
    case Exit(s) => Exit(s)
    case Ok(None) => Exit(1)
    case Ok(Some(VRows(rows))) =>
      if forall i :: 0 <= i < |rows| ==> "socrata_id" in rows[i] then
        Ok(seq(|rows|, i requires 0 <= i < |rows| && "socrata_id" in rows[i] => rows[i]["socrata_id"]))
      else Exit(1)
    case Ok(Some(_)) => Exit(1)
  }

  // -------------------------------------------------------- SODA side

  /** get_soda_for_collision_ids' request: str() of each id inside the IN
      list, a present and non-zero latitude, oldest crash first. The
      function returns the decoded reply as it is: its list and error checks
      come after the `return` and never run. */
  function NullGeomRequest(ids: seq<Value>): SodaQuery
  {
    SodaQuery(WhereClause(IdTexts(ids), "0.0000000"), "crash_date ASC", "50000")
  }

  function IdTexts(ids: seq<Value>): (r: seq<string>)
    ensures |r| == |ids| && forall i :: 0 <= i < |ids| ==> r[i] == Str(ids[i])
  {
    seq(|ids|, i requires 0 <= i < |ids| => Str(ids[i]))
  }

  /** The request asks for exactly the ids found, in order. */
  lemma RequestNamesIds(ids: seq<Value>)
    requires ids != [] && forall i :: 0 <= i < |ids| ==> ',' !in Str(ids[i])
    ensures var w := NullGeomRequest(ids).where;
      |WherePrefix| + |WhereSuffix("0.0000000")| <= |w| &&
      Split(w[|WherePrefix|..|w| - |WhereSuffix("0.0000000")|], ',') == IdTexts(ids)
  {
    WhereClauseIds(IdTexts(ids), "0.0000000");
  }

  // ------------------------------------------------------ the update

  /** The UPDATE update_carto_geom sends: the new latitude and longitude
      as str(float(...)), and the record's collision_id as the socrata_id
      to match. */
  datatype GeomFix = GeomFix(latitude: string, longitude: string, socrataId: string)

  function PointPart(s: GeomFix): string
  {
    "POINT(" + s.longitude + " " + s.latitude + ")"
  }

  function FixPieces(s: GeomFix): seq<string>
  {
    ["UPDATE " + CrashesTable + " SET ", "latitude=" + s.latitude, ", ", "longitude=" + s.longitude, ", the_geom=",
     "ST_GEOMFROMTEXT('", PointPart(s), "', 4326)", " WHERE socrata_id=" + s.socrataId]
  }

  function FixText(s: GeomFix): string
  {
    Flatten(FixPieces(s))
  }

  /** The statement sets both coordinate columns, builds the point with the
      longitude first, and ends by selecting the crash by its id. */
  lemma FixTextShape(s: GeomFix)
    ensures Contains(FixText(s), "latitude=" + s.latitude) && Contains(FixText(s), "longitude=" + s.longitude)
    ensures Contains(FixText(s), PointPart(s))
    ensures var w, t := " WHERE socrata_id=" + s.socrataId, FixText(s); |w| <= |t| && t[|t| - |w|..] == w
  {
    var ps := FixPieces(s);
    FlattenContains(ps, 1);
    FlattenContains(ps, 3);
    FlattenContains(ps, 6);
    FlattenEndsWith(ps);
  }

  /** What update_carto_geom reads from one record: the collision_id, a
      crash_date it can slice (text), and two coordinates float() accepts. */
  predicate Fixable<F>(toFloat: Value -> Option<F>, item: SodaItem)
  {
    && item.RowItem?
    && "collision_id" in item.row && "crash_date" in item.row && item.row["crash_date"].VText?
    && "longitude" in item.row && "latitude" in item.row
    && toFloat(item.row["longitude"]).Some? && toFloat(item.row["latitude"]).Some?
  }

  function FixOf<F>(toFloat: Value -> Option<F>, floatStr: F -> string, item: SodaItem): GeomFix
    requires Fixable(toFloat, item)
  {
    GeomFix(floatStr(toFloat(item.row["latitude"]).value), floatStr(toFloat(item.row["longitude"]).value),
            Str(item.row["collision_id"]))
  }

  /** update_carto_geom(crashinfo): a record it cannot read stops the
      script (KeyError, TypeError for a key string or an unsliceable date,
      ValueError from float()) before any statement; otherwise the
      statement is sent, and an error reply stops the script after it. */
  function FixRecord<F>(carto: GeomFix -> Reply, toFloat: Value -> Option<F>, floatStr: F -> string, item: SodaItem): (seq<GeomFix>, Option<int>)
  {
    if !Fixable(toFloat, item) then ([], Some(1))
    else
      var s := FixOf(toFloat, floatStr, item);
      ([s], if PerformCartoQuery(carto(s)).Exit? then Some(1) else None)
  }

  function FixStep<F>(carto: GeomFix -> Reply, toFloat: Value -> Option<F>, floatStr: F -> string): SodaItem -> (seq<GeomFix>, Option<int>)
  {
    item => FixRecord(carto, toFloat, floatStr, item)
  }

  method UpdateCartoGeom<F>(carto: GeomFix -> Reply, toFloat: Value -> Option<F>, floatStr: F -> string, crashinfo: SodaItem)
    returns (sent: seq<GeomFix>, exit: Option<int>)
    ensures (sent, exit) == FixRecord(carto, toFloat, floatStr, crashinfo)
  {
    if crashinfo.KeyItem? {
      return [], Some(1);
    }
    var row := crashinfo.row;
    if !("collision_id" in row && "crash_date" in row && row["crash_date"].VText?) {
      return [], Some(1);
    }
    var socrataId := row["collision_id"];
    var crashdate := Slice(row["crash_date"].s, 0, 10);
    if !("longitude" in row && "latitude" in row) {
      return [], Some(1);
    }
    var longitude := toFloat(row["longitude"]);
    var latitude := toFloat(row["latitude"]);
    if longitude.None? || latitude.None? {
      return [], Some(1);
    }
    var sql := GeomFix(floatStr(latitude.value), floatStr(longitude.value), Str(socrataId));
    var reply := PerformCartoQuery(carto(sql));
    return [sql], if reply.Exit? then Some(reply.status) else None;
  }

  /** The statements sent are those of the first records, one per record,
      in reply order; all of them when the loop gets through, and the
      script only ever stops with status 1. */
  lemma {:induction false} OneFixPerRecord<F>(items: seq<SodaItem>, carto: GeomFix -> Reply, toFloat: Value -> Option<F>, floatStr: F -> string)
    ensures var t := StepTrace(items, FixStep(carto, toFloat, floatStr));
      && |t.0| <= |items|
      && (forall j :: 0 <= j < |t.0| ==> Fixable(toFloat, items[j]) && t.0[j] == FixOf(toFloat, floatStr, items[j]))
      && (t.1.None? ==> |t.0| == |items|)
      && (t.1.Some? ==> t.1 == Some(1))
  {
    if items != [] {
      var init := items[..|items| - 1];
      OneFixPerRecord(init, carto, toFloat, floatStr);
      assert forall j :: 0 <= j < |init| ==> init[j] == items[j];
      var last := items[|items| - 1];
      assert FixStep(carto, toFloat, floatStr)(last) == FixRecord(carto, toFloat, floatStr, last);
    }
  }

  // ---------------------------------------------------------------- run

  /** Everything before the update loop: the checked argument, its window,
      the CARTO ids and the SODA records for them; or the status that ends
      the script first. */
  function Records(args: seq<string>, carto: string -> Reply, soda: SodaQuery -> Reply,
                   keysOf: map<string, Value> -> seq<string>): (r: Outcome<seq<SodaItem>>)
    ensures r.Exit? ==> r.status == 1
    ensures r.Ok? ==>
      && MonthArgument(args, NullGeomYears).Ok?
      && Yyyymm2DateRange(args[0]).Ok?
      && var (start, end) := Yyyymm2DateRange(args[0]).value;
      && NullGeomIds(carto(NullGeomQuery(start, end))).Ok?
      && r.value == ReplyItems(soda(NullGeomRequest(NullGeomIds(carto(NullGeomQuery(start, end))).value)), keysOf)
  {
    match MonthArgument(args, NullGeomYears)
    case Exit(s) => Exit(s)
    case Ok(yyyymm) =>
      match Yyyymm2DateRange(yyyymm)
      case Exit(s) => Exit(1)
      case Ok((start, end)) =>
        match NullGeomIds(carto(NullGeomQuery(start, end)))
        case Exit(s) => Exit(s)
        case Ok(ids) => Ok(ReplyItems(soda(NullGeomRequest(ids)), keysOf))
  }

  /** run(): check the argument, find the null geometries, fetch SODA's
      records for them, and update each in turn. */
  method Run<F>(args: seq<string>, carto: string -> Reply, cartoUpdate: GeomFix -> Reply, soda: SodaQuery -> Reply,
                keysOf: map<string, Value> -> seq<string>, toFloat: Value -> Option<F>, floatStr: F -> string)
    returns (submitted: seq<GeomFix>, exit: Option<int>)
    ensures Records(args, carto, soda, keysOf).Exit? ==> submitted == [] && exit == Some(1)
    ensures Records(args, carto, soda, keysOf).Ok? ==>
      (submitted, exit) == StepTrace(Records(args, carto, soda, keysOf).value, FixStep(cartoUpdate, toFloat, floatStr))
  {
    var newcrashdata := FindRecords(args, carto, soda, keysOf);
    if newcrashdata.Exit? {
      return [], Some(newcrashdata.status);
    }
    submitted, exit := UpdateAll(newcrashdata.value, cartoUpdate, toFloat, floatStr);
  }

  /** The part of run() before the loop. */
  method FindRecords(args: seq<string>, carto: string -> Reply, soda: SodaQuery -> Reply,
                     keysOf: map<string, Value> -> seq<string>) returns (r: Outcome<seq<SodaItem>>)
    ensures r == Records(args, carto, soda, keysOf)
  {
    var yyyymm := MonthArgument(args, NullGeomYears);
    if yyyymm.Exit? {
      return Exit(yyyymm.status);
    }
    var window := Yyyymm2DateRange(yyyymm.value);
    if window.Exit? {
      return Exit(1);
    }
    var (startdate, enddate) := window.value;
    var nullGeomSocrataIds := NullGeomIds(carto(NullGeomQuery(startdate, enddate)));
    if nullGeomSocrataIds.Exit? {
      return Exit(nullGeomSocrataIds.status);
    }
    return Ok(ReplyItems(soda(NullGeomRequest(nullGeomSocrataIds.value)), keysOf));
  }

  /** The loop of run(): update_carto_geom for every record. */
  method UpdateAll<F>(newcrashdata: seq<SodaItem>, cartoUpdate: GeomFix -> Reply, toFloat: Value -> Option<F>, floatStr: F -> string)
    returns (submitted: seq<GeomFix>, exit: Option<int>)
    ensures (submitted, exit) == StepTrace(newcrashdata, FixStep(cartoUpdate, toFloat, floatStr))
  {
    ghost var f := FixStep(cartoUpdate, toFloat, floatStr);
    submitted := [];
    var i := 0;
    while i < |newcrashdata|
      invariant 0 <= i <= |newcrashdata|
      invariant StepTrace(newcrashdata[..i], f) == (submitted, None)
    {
      StepTraceStep(newcrashdata, i, f);
      var sent, stop := UpdateCartoGeom(cartoUpdate, toFloat, floatStr, newcrashdata[i]);
      submitted := submitted + sent;
      if stop.Some? {
        StepTraceStopsAt(newcrashdata, i, f);
        return submitted, stop;
      }
      i := i + 1;
    }
    assert newcrashdata[..i] == newcrashdata;
    exit := None;
  }
}
