/** Rendering one SODA collision row into a parenthesised value tuple of the
    crashes table's INSERT, as main.py and backlog/check_backlog.py both do:
    the Postgres text-array builder, the 23-slot insert template with its
    matching 23-name column list, the latitude/longitude geometry rule, and
    the INSERT statement that skips socrata_ids already in the table. The two
    scripts differ only in the field names of the date, time and id, in
    whether a missing persons aggregate is synthesised, and in the exit
    status of a bad array field name; a Schema carries those differences. */
module CrashRows {
  import opened Common
  import opened CrashInsert

  // ------------------------------------------------- Postgres text arrays

  const ContributingFactor := "contributing_factor_vehicle"
  const VehicleType := "vehicle_type_code"

  /** The five keys looked up for each array field, in lookup order: the
      vehicle-type field drops the underscore for its first two keys. */
  const ContributingFactorKeys: seq<string> := [
    "contributing_factor_vehicle_1", "contributing_factor_vehicle_2",
    "contributing_factor_vehicle_3", "contributing_factor_vehicle_4",
    "contributing_factor_vehicle_5"]
  const VehicleTypeKeys: seq<string> := [
    "vehicle_type_code1", "vehicle_type_code2",
    "vehicle_type_code_3", "vehicle_type_code_4", "vehicle_type_code_5"]

  function ArrayKeys(field: string): seq<string>
  {
    if field == ContributingFactor then ContributingFactorKeys else VehicleTypeKeys
  }

  /** "'{0}'".format(v): the value between single quotes, unescaped. */
  function Quoted(v: Value): string
  {
    "'" + Str(v) + "'"
  }

  /** The quoted values of those keys that are present, in key order. */
  function QuotedPresent(values: Row, keys: seq<string>): (r: seq<string>)
    ensures |r| <= |keys|
    ensures r == [] <==> forall k :: k in keys ==> k !in values
  {
    if keys == [] then []
    else
      var init := QuotedPresent(values, keys[..|keys| - 1]);
      var last := keys[|keys| - 1];
      assert forall k :: k in keys <==> k in keys[..|keys| - 1] || k == last;
      if last in values then init + [Quoted(values[last])] else init
  }

  /** "ARRAY[%s]::text[]" % ','.join(items). */
  function ArrayLiteral(items: seq<string>): string
  {
    "ARRAY[" + Join(items, ",") + "]::text[]"
  }

  /** The name of the i-th key, as the loop body formats it. */
  lemma KeyName(field: string, i: nat)
    requires field == ContributingFactor || field == VehicleType
    requires 1 <= i <= 5
    ensures (if field == ContributingFactor || (field == VehicleType && i > 2)
             then field + "_" + NatToString(i) else field + NatToString(i)) == ArrayKeys(field)[i - 1]
  {
    assert NatToString(i) == [DigitChar(i)];
  }

  /** format_string_for_postgres_array: any field name other than the two
      array fields terminates with badStatus (2 in the backlog loader, 1 in
      main.py); otherwise the present keys are quoted in lookup order. */
  method FormatStringForPostgresArray(values: Row, field: string, badStatus: int) returns (r: Outcome<string>)
    ensures field != ContributingFactor && field != VehicleType ==> r == Exit(badStatus)
    ensures field == ContributingFactor || field == VehicleType ==>
      r == Ok(ArrayLiteral(QuotedPresent(values, ArrayKeys(field))))
  {
    if field != ContributingFactor && field != VehicleType {
      return Exit(badStatus);
    }
    var tmp: seq<string> := [];
    for i := 1 to 6
      invariant tmp == QuotedPresent(values, ArrayKeys(field)[..i - 1])
    {
      var full: string;
      if field == ContributingFactor || (field == VehicleType && i > 2) {
        full := field + "_" + NatToString(i);
      } else {
        full := field + NatToString(i);
      }
      KeyName(field, i);
      assert ArrayKeys(field)[..i][..i - 1] == ArrayKeys(field)[..i - 1];
      if full in values {
        tmp := tmp + [Quoted(values[full])];
      }
    }
    assert ArrayKeys(field)[..5] == ArrayKeys(field);
    return Ok(ArrayLiteral(tmp));
  }

  /** A row with none of the five keys renders the empty array. */
  lemma EmptyArray(values: Row, field: string)
    requires forall k :: k in ArrayKeys(field) ==> k !in values
    ensures ArrayLiteral(QuotedPresent(values, ArrayKeys(field))) == "ARRAY[]::text[]"
  {
  }

  /** Each quoted item is the value of a present key, and the items follow
      the lookup order of the keys. */
  lemma {:induction false} QuotedPresentFromKeys(values: Row, keys: seq<string>, j: nat)
    requires j < |QuotedPresent(values, keys)|
    ensures exists i :: 0 <= i < |keys| && keys[i] in values && QuotedPresent(values, keys)[j] == Quoted(values[keys[i]])
  {
    var init := QuotedPresent(values, keys[..|keys| - 1]);
    if j < |init| {
      QuotedPresentFromKeys(values, keys[..|keys| - 1], j);
      var i :| 0 <= i < |keys| - 1 && keys[..|keys| - 1][i] in values &&
        init[j] == Quoted(values[keys[..|keys| - 1][i]]);
      assert keys[i] == keys[..|keys| - 1][i];
    } else {
      assert QuotedPresent(values, keys)[j] == Quoted(values[keys[|keys| - 1]]);
    }
  }

  // ------------------------------------------------------ row rendering

  /** The field names in which the two scripts differ. */
  datatype Schema = Schema(dateKey: string, timeKey: string, idKey: string)

  /** datetime as strptime leaves it for '%Y-%m-%dT%H:%M'. */
  datatype DateTime = DateTime(year: nat, month: nat, day: nat, hour: nat, minute: nat)

  /** strftime('%Y-%m-%dT%H:%M:%SZ'); seconds are always zero. */
  function Timestamp(t: DateTime): string
  {
    ZeroPad(t.year, 4) + "-" + ZeroPad(t.month, 2) + "-" + ZeroPad(t.day, 2) + "T" +
    ZeroPad(t.hour, 2) + ":" + ZeroPad(t.minute, 2) + ":00Z"
  }

  /** The six per-mode counts and the two aggregates, in column order. */
  const CountKeys: seq<string> := [
    "number_of_motorist_killed", "number_of_motorist_injured",
    "number_of_cyclist_killed", "number_of_cyclist_injured",
    "number_of_pedestrians_killed", "number_of_pedestrians_injured",
    "number_of_persons_killed", "number_of_persons_injured"]

  /** row[key] if key in row else None, as the `if key in row` tests read it. */
  function Lookup(row: Row, key: string): Value
  {
    if key in row then row[key] else VNull
  }

  /** A street name: stripped when present, '' when absent; None when the
      value is not text (str.strip on it raises). */
  function StreetName(row: Row, key: string): Option<string>
  {
    if key !in row then Some("")
    else if row[key].VText? then Some(Strip(row[key].s))
    else None
  }

  /** The date string "%sT%s" % (row[date].split('T')[0], row[time]). */
  function DateString(row: Row, schema: Schema): Option<string>
  {
    if schema.dateKey in row && row[schema.dateKey].VText? && schema.timeKey in row then
      Some(Before(row[schema.dateKey].s, 'T') + "T" + Str(row[schema.timeKey]))
    else None
  }

  /** Everything the format call needs is there: the date parses, the
      counts and the id exist, street names are text. */
  predicate Renderable(row: Row, schema: Schema, strptime: string -> Option<DateTime>)
  {
    && DateString(row, schema).Some?
    && strptime(DateString(row, schema).value).Some?
    && (forall k :: k in CountKeys ==> k in row)
    && schema.idKey in row
    && StreetName(row, "on_street_name").Some?
    && StreetName(row, "off_street_name").Some?
    && StreetName(row, "cross_street_name").Some?
  }

  /** `if lat and lng`: both present and truthy. */
  predicate HasPoint(row: Row)
  {
    Truthy(Lookup(row, "latitude")) && Truthy(Lookup(row, "longitude"))
  }

  /** The 23 format arguments by column. */
  datatype CrashArgs = CrashArgs(
    counts: seq<string>, zipCode: string, offStreet: string, crossStreet: string,
    onStreet: string, borough: string, dateVal: string, longitude: string,
    latitude: string, geom: string, vehicleType: string, contributingFactor: string,
    year: string, month: string, crashCount: string, socrataId: string)

  /** The arguments in the order the format call passes them. */
  function ArgumentList(c: CrashArgs): (r: seq<string>)
    requires |c.counts| == 8
    ensures |r| == SlotCount
    ensures r[..8] == c.counts && r[8] == c.zipCode && r[9] == c.offStreet && r[10] == c.crossStreet
    ensures r[11] == c.onStreet && r[12] == c.borough
    ensures r[13] == c.dateVal && r[14] == c.longitude && r[15] == c.latitude && r[16] == c.geom
    ensures r[17] == c.vehicleType && r[18] == c.contributingFactor && r[19] == c.year
    ensures r[20] == c.month && r[21] == c.crashCount && r[22] == c.socrataId
  {
    c.counts + [c.zipCode, c.offStreet, c.crossStreet, c.onStreet, c.borough, c.dateVal,
      c.longitude, c.latitude, c.geom, c.vehicleType, c.contributingFactor, c.year, c.month,
      c.crashCount, c.socrataId]
  }

  /** The SODA field a count column of the crashes table is read from: the
      column's own name, except that the singular pedestrian columns take
      the plural SODA fields. */
  function SodaCountField(c: Column): string
  {
    match c
    case PedestrianKilled => "number_of_pedestrians_killed"
    case PedestrianInjured => "number_of_pedestrians_injured"
    case _ => Name(c)
  }

  predicate IsCountColumn(c: Column)
  {
    c.MotoristKilled? || c.MotoristInjured? || c.CyclistKilled? || c.CyclistInjured? ||
    c.PedestrianKilled? || c.PedestrianInjured? || c.PersonsKilled? || c.PersonsInjured?
  }

  /** The text of a street-name field, '' where StreetName fails (never
      under Renderable). */
  function StreetText(row: Row, key: string): string
  {
    match StreetName(row, key)
    case Some(s) => s
    case None => ""
  }

  /** What each column of the crashes table receives from a SODA row whose
      date and time parsed to t: counts from their SODA fields, the street
      names and zip code with their defaults, the timestamp and its year and
      month, the coordinates and point by the geometry rule, the two text
      arrays, the constants, and the row's id. */
  function ColumnValue(row: Row, idKey: string, t: DateTime, c: Column): string
  {
    match c
    case ZipCode => if "zip_code" in row then Str(row["zip_code"]) else ""
    case OffStreetName => StreetText(row, "off_street_name")
    case CrossStreetName => StreetText(row, "cross_street_name")
    case OnStreetName => StreetText(row, "on_street_name")
    case Borough => ""
    case DateVal => Timestamp(t)
    case Longitude => if HasPoint(row) then Str(row["longitude"]) else "null"
    case Latitude => if HasPoint(row) then Str(row["latitude"]) else "null"
    case TheGeom =>
      if HasPoint(row) then "ST_GeomFromText('Point(" + Str(row["longitude"]) + " " + Str(row["latitude"]) + ")', 4326)"
      else "null"
    case VehicleTypeColumn => ArrayLiteral(QuotedPresent(row, VehicleTypeKeys))
    case ContributingFactorColumn => ArrayLiteral(QuotedPresent(row, ContributingFactorKeys))
    case Year => ZeroPad(t.year, 4)
    case Month => ZeroPad(t.month, 2)
    case CrashCount => "1"
    case SocrataId => if idKey in row then Str(row[idKey]) else ""
    case _ => if SodaCountField(c) in row then Str(row[SodaCountField(c)]) else ""
  }

  /** The format arguments of a row whose date and time parsed to t, in the
      field order of the format call. */
  function ColumnArguments(row: Row, idKey: string, t: DateTime): (c: CrashArgs)
    ensures |c.counts| == 8
  {
    CrashArgs(
      seq(8, i requires 0 <= i < 8 => ColumnValue(row, idKey, t, ColumnAt(i))),
      ColumnValue(row, idKey, t, ZipCode),
      ColumnValue(row, idKey, t, OffStreetName),
      ColumnValue(row, idKey, t, CrossStreetName),
      ColumnValue(row, idKey, t, OnStreetName),
      ColumnValue(row, idKey, t, Borough),
      ColumnValue(row, idKey, t, DateVal),
      ColumnValue(row, idKey, t, Longitude),
      ColumnValue(row, idKey, t, Latitude),
      ColumnValue(row, idKey, t, TheGeom),
      ColumnValue(row, idKey, t, VehicleTypeColumn),
      ColumnValue(row, idKey, t, ContributingFactorColumn),
      ColumnValue(row, idKey, t, Year),
      ColumnValue(row, idKey, t, Month),
      ColumnValue(row, idKey, t, CrashCount),
      ColumnValue(row, idKey, t, SocrataId))
  }

  /** The parsed date and time of a renderable row. */
  function ParsedTime(row: Row, schema: Schema, strptime: string -> Option<DateTime>): DateTime
    requires Renderable(row, schema, strptime)
  {
    strptime(DateString(row, schema).value).value
  }

  /** The arguments of the format call for one row. */
  function Arguments(row: Row, schema: Schema, strptime: string -> Option<DateTime>): (c: CrashArgs)
    requires Renderable(row, schema, strptime)
    ensures |c.counts| == 8
  {
    ColumnArguments(row, schema.idKey, ParsedTime(row, schema, strptime))
  }

  /** The format call lines up with the column list: argument k is what
      column k of the INSERT receives, so the timestamp goes to date_val
      (the timestamptz slot), the id to socrata_id, and the count columns
      take their SODA fields. */
  lemma ArgumentsByColumn(row: Row, idKey: string, t: DateTime)
    ensures var a := ArgumentList(ColumnArguments(row, idKey, t));
      forall k :: 0 <= k < SlotCount ==> a[k] == ColumnValue(row, idKey, t, ColumnAt(k))
  {
    ArgumentsInRange(row, idKey, t, 0, 8);
    ArgumentsInRange(row, idKey, t, 8, 13);
    ArgumentsInRange(row, idKey, t, 13, 18);
    ArgumentsInRange(row, idKey, t, 18, SlotCount);
  }

  /** ArgumentsByColumn for the slots lo..hi-1. */
  lemma ArgumentsInRange(row: Row, idKey: string, t: DateTime, lo: nat, hi: nat)
    requires (lo, hi) in {(0, 8), (8, 13), (13, 18), (18, SlotCount)}
    ensures var a := ArgumentList(ColumnArguments(row, idKey, t));
      forall k :: lo <= k < hi ==> a[k] == ColumnValue(row, idKey, t, ColumnAt(k))
  {
    var a := ArgumentList(ColumnArguments(row, idKey, t));
    forall k | lo <= k < hi ensures a[k] == ColumnValue(row, idKey, t, ColumnAt(k)) {
      if k < 8 {
        assert a[k] == a[..8][k];
      }
    }
  }

  /** The count columns read the SODA count fields in the script's order;
      the two pedestrian columns, singular in the crashes table, read the
      plural SODA fields. */
  lemma CountFields(row: Row, idKey: string, t: DateTime)
    requires forall k :: k in CountKeys ==> k in row
    ensures forall k :: 0 <= k < 8 ==>
      IsCountColumn(ColumnAt(k)) && SodaCountField(ColumnAt(k)) == CountKeys[k] &&
      ColumnValue(row, idKey, t, ColumnAt(k)) == Str(row[CountKeys[k]])
    ensures ColumnName(4) == "number_of_pedestrian_killed" && SodaCountField(ColumnAt(4)) == "number_of_pedestrians_killed"
    ensures ColumnName(5) == "number_of_pedestrian_injured" && SodaCountField(ColumnAt(5)) == "number_of_pedestrians_injured"
  {
    forall k | 0 <= k < 8
      ensures IsCountColumn(ColumnAt(k)) && SodaCountField(ColumnAt(k)) == CountKeys[k]
    {
    }
  }

  /** The value tuple of one row; a row the code cannot render terminates
      the script with status 1 (KeyError, ValueError or AttributeError). */
  function RenderRow(row: Row, schema: Schema, strptime: string -> Option<DateTime>): Outcome<string>
  {
    if Renderable(row, schema, strptime) then Ok(FillTemplate(ArgumentList(Arguments(row, schema, strptime))))
    else Exit(1)
  }

  /** The geometry rule: with both coordinates truthy the point is built
      longitude first from the same strings the coordinate columns carry;
      otherwise all three are the SQL literal null. */
  lemma GeometryRule(row: Row, idKey: string, t: DateTime)
    ensures var lng, lat, geom := ColumnValue(row, idKey, t, Longitude),
        ColumnValue(row, idKey, t, Latitude), ColumnValue(row, idKey, t, TheGeom);
      if Truthy(Lookup(row, "latitude")) && Truthy(Lookup(row, "longitude")) then
        lng == Str(row["longitude"]) && lat == Str(row["latitude"]) &&
        geom == "ST_GeomFromText('Point(" + lng + " " + lat + ")', 4326)"
      else lng == "null" && lat == "null" && geom == "null"
  {
  }

  /** Missing street names and zip code become '', present street names are
      stripped of surrounding whitespace, borough is always '' and
      crash_count always '1'; the socrata_id is the row's id. */
  lemma Defaults(row: Row, idKey: string, t: DateTime)
    ensures var on := ColumnValue(row, idKey, t, OnStreetName);
      && ("zip_code" !in row ==> ColumnValue(row, idKey, t, ZipCode) == "")
      && ("off_street_name" !in row ==> ColumnValue(row, idKey, t, OffStreetName) == "")
      && ("cross_street_name" !in row ==> ColumnValue(row, idKey, t, CrossStreetName) == "")
      && ("on_street_name" !in row ==> on == "")
      && ("on_street_name" in row && row["on_street_name"].VText? ==> on == Strip(row["on_street_name"].s))
      && (on == [] || (!IsSpace(on[0]) && !IsSpace(on[|on| - 1])))
      && ColumnValue(row, idKey, t, Borough) == "" && ColumnValue(row, idKey, t, CrashCount) == "1"
      && (idKey in row ==> ColumnValue(row, idKey, t, SocrataId) == Str(row[idKey]))
  {
  }

  /** The year and month columns repeat the first fields of date_val. */
  lemma YearMonthFromTimestamp(row: Row, idKey: string, t: DateTime)
    requires t.year <= 9999 && t.month <= 99
    ensures var d := ColumnValue(row, idKey, t, DateVal);
      d[..4] == ColumnValue(row, idKey, t, Year) && d[4] == '-' && d[5..7] == ColumnValue(row, idKey, t, Month)
  {
    TimestampFields(t);
  }

  /** The timestamp text begins with the padded year and month. */
  lemma TimestampFields(t: DateTime)
    requires t.year <= 9999 && t.month <= 99
    ensures var s := Timestamp(t);
      s[..4] == ZeroPad(t.year, 4) && s[4] == '-' && s[5..7] == ZeroPad(t.month, 2)
  {
    PadWidth(t.year, 4);
    PadWidth(t.month, 2);
    var y, m := ZeroPad(t.year, 4), ZeroPad(t.month, 2);
    var rest := "-" + ZeroPad(t.day, 2) + "T" + ZeroPad(t.hour, 2) + ":" + ZeroPad(t.minute, 2) + ":00Z";
    assert Timestamp(t) == y + "-" + m + rest;
  }

  lemma PadWidth(n: nat, w: nat)
    requires 1 <= w && n < Pow10(w)
    ensures |ZeroPad(n, w)| == w
  {
    DigitsBound(n, w);
  }

  function Pow10(w: nat): nat
  {
    if w == 0 then 1 else 10 * Pow10(w - 1)
  }

  lemma {:induction false} DigitsBound(n: nat, w: nat)
    requires 1 <= w && n < Pow10(w)
    ensures |NatToString(n)| <= w
  {
    if n >= 10 {
      assert Pow10(1) == 10;
      assert w >= 2;
      DigitsBound(n / 10, w - 1);
    }
  }
}
