/** The INSERT side of the crashes-table loaders in main.py and
    backlog/check_backlog.py: the 23-slot value template, the matching
    column list, and the statement that skips socrata_ids already in the
    table. */
module CrashInsert {
  import opened Common

  // ---------------------------------------------------- insert template

  datatype Slot = Bare | DollarQuoted | Timestamptz

  /** What format_string_for_insert_val puts in slot i. */
  function SlotOf(i: nat): Slot
  {
    if i < 8 || i >= 14 then Bare else if i == 13 then Timestamptz else DollarQuoted
  }

  /** One placeholder: "{i}", "'{i}'::timestamptz" or "$${i}$$". */
  function Placeholder(i: nat): string
  {
    var f := "{" + NatToString(i) + "}";
    match SlotOf(i)
    case Bare => f
    case Timestamptz => "'" + f + "'::timestamptz"
    case DollarQuoted => "$$" + f + "$$"
  }

  /** The first n placeholders. */
  function Placeholders(n: nat): (r: seq<string>)
    ensures |r| == n && forall i :: 0 <= i < n ==> r[i] == Placeholder(i)
  {
    if n == 0 then [] else Placeholders(n - 1) + [Placeholder(n - 1)]
  }

  const SlotCount := 23

  /** format_string_for_insert_val: the 23 placeholders joined by commas
      inside parentheses. */
  method FormatStringForInsertVal() returns (template: string)
    ensures template == "(" + Join(Placeholders(SlotCount), ",") + ")"
  {
    var parts: seq<string> := [];
    for i := 0 to 23
      invariant parts == Placeholders(i)
    {
      var f := "{" + NatToString(i) + "}";
      if i < 8 || i >= 14 {
        parts := parts + [f];
      } else if i == 13 {
        parts := parts + ["'" + f + "'::timestamptz"];
      } else {
        parts := parts + ["$$" + f + "$$"];
      }
    }
    template := "(" + Join(parts, ",") + ")";
  }

  /** The columns of the crashes table that the INSERT fills. */
  datatype Column =
    | MotoristKilled | MotoristInjured | CyclistKilled | CyclistInjured
    | PedestrianKilled | PedestrianInjured | PersonsKilled | PersonsInjured
    | ZipCode | OffStreetName | CrossStreetName | OnStreetName | Borough
    | DateVal | Longitude | Latitude | TheGeom | VehicleTypeColumn | ContributingFactorColumn
    | Year | Month | CrashCount | SocrataId

  /** A column's name in the crashes table. */
  function Name(c: Column): string
  {
    match c
    case MotoristKilled => "number_of_motorist_killed"
    case MotoristInjured => "number_of_motorist_injured"
    case CyclistKilled => "number_of_cyclist_killed"
    case CyclistInjured => "number_of_cyclist_injured"
    case PedestrianKilled => "number_of_pedestrian_killed"
    case PedestrianInjured => "number_of_pedestrian_injured"
    case PersonsKilled => "number_of_persons_killed"
    case PersonsInjured => "number_of_persons_injured"
    case ZipCode => "zip_code"
    case OffStreetName => "off_street_name"
    case CrossStreetName => "cross_street_name"
    case OnStreetName => "on_street_name"
    case Borough => "borough"
    case DateVal => "date_val"
    case Longitude => "longitude"
    case Latitude => "latitude"
    case TheGeom => "the_geom"
    case VehicleTypeColumn => "vehicle_type"
    case ContributingFactorColumn => "contributing_factor"
    case Year => "year"
    case Month => "month"
    case CrashCount => "crash_count"
    case SocrataId => "socrata_id"
  }

  /** The column on the i-th non-blank line of create_sql_insert's
      column_names_string. */
  function ColumnAt(i: nat): Column
    requires i < SlotCount
  {
    if i == 0 then MotoristKilled else if i == 1 then MotoristInjured
    else if i == 2 then CyclistKilled else if i == 3 then CyclistInjured
    else if i == 4 then PedestrianKilled else if i == 5 then PedestrianInjured
    else if i == 6 then PersonsKilled else if i == 7 then PersonsInjured
    else if i == 8 then ZipCode else if i == 9 then OffStreetName
    else if i == 10 then CrossStreetName else if i == 11 then OnStreetName
    else if i == 12 then Borough else if i == 13 then DateVal
    else if i == 14 then Longitude else if i == 15 then Latitude
    else if i == 16 then TheGeom else if i == 17 then VehicleTypeColumn
    else if i == 18 then ContributingFactorColumn else if i == 19 then Year
    else if i == 20 then Month else if i == 21 then CrashCount
    else SocrataId
  }

  function ColumnName(i: nat): string
    requires i < SlotCount
  {
    Name(ColumnAt(i))
  }

  function ColumnNames(): (r: seq<string>)
    ensures |r| == SlotCount
  {
    seq(SlotCount, i requires 0 <= i < SlotCount => ColumnName(i))
  }

  /** The crashes table's text columns, which need dollar quoting. */
  const TextColumns: set<string> := {"zip_code", "off_street_name", "cross_street_name", "on_street_name", "borough"}

  /** The template and the column list line up: one placeholder per column,
      dollar quotes exactly on the text columns, the timestamp cast exactly
      on date_val. */
  lemma TemplateMatchesColumns()
    ensures |ColumnNames()| == SlotCount == |Placeholders(SlotCount)|
    ensures forall i :: 0 <= i < SlotCount ==> (SlotOf(i) == DollarQuoted <==> ColumnNames()[i] in TextColumns)
    ensures forall i :: 0 <= i < SlotCount ==> (SlotOf(i) == Timestamptz <==> ColumnNames()[i] == "date_val")
  {
    forall i | 0 <= i < SlotCount
      ensures (SlotOf(i) == DollarQuoted <==> ColumnName(i) in TextColumns)
      && (SlotOf(i) == Timestamptz <==> ColumnName(i) == "date_val")
    {
    }
  }

  /** template.format(*args): every placeholder replaced by its argument. */
  function FillTemplate(args: seq<string>): (r: string)
    requires |args| == SlotCount
  {
    "(" + Join(seq(SlotCount, i requires 0 <= i < SlotCount => Fill(SlotOf(i), args[i])), ",") + ")"
  }

  function Fill(s: Slot, arg: string): string
  {
    match s
    case Bare => arg
    case Timestamptz => "'" + arg + "'::timestamptz"
    case DollarQuoted => "$$" + arg + "$$"
  }

  /** What a slot puts before and after its "{i}" field. */
  function Wrapper(s: Slot): (string, string)
  {
    match s
    case Bare => ("", "")
    case Timestamptz => ("'", "'::timestamptz")
    case DollarQuoted => ("$$", "$$")
  }

  /** Filling slot i replaces exactly the "{i}" field of placeholder i by
      the argument and keeps the quoting around it. */
  lemma FillReplacesField(i: nat, arg: string)
    ensures var w := Wrapper(SlotOf(i));
      Placeholder(i) == w.0 + ("{" + NatToString(i) + "}") + w.1 &&
      Fill(SlotOf(i), arg) == w.0 + arg + w.1
  {
    var f := "{" + NatToString(i) + "}";
    match SlotOf(i)
    case Bare =>
      assert "" + f + "" == f;
      assert "" + arg + "" == arg;
    case Timestamptz =>
    case DollarQuoted =>
  }

  // ------------------------------------------------------------- INSERT

  /** The SELECT list: "n.c" for every inserted column, in column order
      (the statement spells the 23 names out in that order). */
  function SelectList(columns: seq<string>): (r: seq<string>)
    ensures |r| == |columns| && forall i :: 0 <= i < |columns| ==> r[i] == "n." + columns[i]
  {
    seq(|columns|, i requires 0 <= i < |columns| => "n." + columns[i])
  }

  function InsertHead(columns: seq<string>): string
  {
    "WITH n(" + Join(columns, ",") + ") AS ( VALUES "
  }

  function InsertMiddle(columns: seq<string>, table: string): string
  {
    " ) INSERT INTO " + table + " (" + Join(columns, ",") + ") SELECT " + Join(SelectList(columns), ", ") + " FROM n "
  }

  /** The NOT IN guard that keeps rows whose socrata_id is already in the
      table out of the insert. */
  function NotInGuard(table: string): string
  {
    "WHERE n.socrata_id NOT IN ( SELECT socrata_id FROM " + table + " WHERE socrata_id IS NOT NULL )"
  }

  /** The statement template of create_sql_insert, with its line breaks and
      indents read as single spaces. */
  function InsertStatement(columns: seq<string>, table: string, vals: seq<string>): string
  {
    InsertHead(columns) + Join(vals, ",") + InsertMiddle(columns, table) + NotInGuard(table)
  }

  /** An INSERT statement held as its parts; its text is InsertText. */
  datatype InsertSql = InsertSql(columns: seq<string>, table: string, values: seq<string>)

  function InsertText(s: InsertSql): string
  {
    InsertStatement(s.columns, s.table, s.values)
  }

  /** create_sql_insert(vals): the given tuples into the crashes table's 23
      columns. */
  function CreateSqlInsert(vals: seq<string>): (s: InsertSql)
    ensures s.values == vals && s.columns == ColumnNames() && s.table == CrashesTable
  {
    InsertSql(ColumnNames(), CrashesTable, vals)
  }

  /** The guard's n.socrata_id is the last column of the WITH list, which
      the SELECT list reads last. */
  lemma SocrataIdLast()
    ensures ColumnNames()[SlotCount - 1] == "socrata_id"
    ensures SelectList(ColumnNames())[SlotCount - 1] == "n.socrata_id"
  {
    assert ColumnNames()[SlotCount - 1] == ColumnName(22);
  }

  lemma Parts(a: string, b: string, c: string, d: string)
    ensures var s := a + b + c + d;
      s[..|a|] == a && s[|a|..|a| + |b|] == b && s[|s| - |d|..] == d
  {
    var s := a + b + c + d;
    assert s == a + (b + (c + d));
    assert s[|s| - |d|..] == d;
  }

  /** The statement names the columns, then inserts the given tuples in
      order, and always ends with the guard against ids already present. */
  lemma InsertShape(columns: seq<string>, table: string, vals: seq<string>)
    ensures var sql, head, body := InsertStatement(columns, table, vals), InsertHead(columns), Join(vals, ",");
      && sql[..|head|] == head
      && sql[|head|..|head| + |body|] == body
      && sql[|sql| - |NotInGuard(table)|..] == NotInGuard(table)
  {
    Parts(InsertHead(columns), Join(vals, ","), InsertMiddle(columns, table), NotInGuard(table));
  }
}
