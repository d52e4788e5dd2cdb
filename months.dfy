/** The one positional YYYY-MM argument of the backlog loader and of the
    null-geometry fixer, and yyyymm2daterange: the month it names as the
    half-open window [first of the month, first of the next month). */
module Months {
  import opened Common

  datatype Date = Date(year: nat, month: nat, day: nat)

  /** date.isoformat(): YYYY-MM-DD. */
  function IsoDate(d: Date): string
  {
    ZeroPad(d.year, 4) + "-" + ZeroPad(d.month, 2) + "-" + ZeroPad(d.day, 2)
  }

  predicate DateLe(a: Date, b: Date)
  {
    a.year < b.year || (a.year == b.year && (a.month < b.month || (a.month == b.month && a.day <= b.day)))
  }

  predicate ValidDate(d: Date)
  {
    1 <= d.month <= 12 && 1 <= d.day <= 31
  }

  /** The first day of the month after year y, month m (relativedelta(months=1)
      applied to the first of the month). */
  function NextMonthStart(y: nat, m: nat): Date
  {
    if m == 12 then Date(y + 1, 1, 1) else Date(y, m + 1, 1)
  }

  // ------------------------------------------------ argument validation

  const MonthTokens: seq<string> := ["01", "02", "03", "04", "05", "06", "07", "08", "09", "10", "11", "12"]

  /** The years check_backlog.py accepts. */
  const BacklogYears: seq<string> := ["2015", "2016", "2017", "2018", "2019", "2020", "2021", "2022"]

  /** The years fix_null_geom_in_carto.py accepts. */
  const NullGeomYears: seq<string> := ["2015", "2016", "2017", "2018", "2019", "2020", "2021"]

  /** re.match(r'^(Y1|Y2|...)\-(01|...|12)$', s). Python's `$` also matches
      just before a final newline, so one trailing '\n' is accepted. */
  predicate MonthArgMatches(s: string, years: seq<string>)
  {
    && (|s| == 7 || (|s| == 8 && s[7] == '\n'))
    && s[..4] in years
    && s[4] == '-'
    && s[5..7] in MonthTokens
  }

  /** sys.argv[1] checked against the pattern: a missing argument
      (IndexError) and a mismatch both print the usage hint and exit 1;
      any further arguments are ignored. */
  function MonthArgument(args: seq<string>, years: seq<string>): (r: Outcome<string>)
    ensures r.Ok? <==> args != [] && MonthArgMatches(args[0], years)
    ensures r.Ok? ==> r.value == args[0]
    ensures r.Exit? ==> r.status == 1
  {
    if args == [] then Exit(1)
    else if !MonthArgMatches(args[0], years) then Exit(1)
    else Ok(args[0])
  }

  // -------------------------------------------------- yyyymm2daterange

  /** Python's s[i:j] with both ends clipped to the string. */
  function Slice(s: string, i: nat, j: nat): string
  {
    var a := if i <= |s| then i else |s|;
    var b := if j <= |s| then j else |s|;
    if a <= b then s[a..b] else []
  }

  /** datetime.date(y, m, 1) and the first of the following month, in ISO
      form; ValueError (exit 1) when the month or year is out of range. */
  function MonthWindow(year: Option<int>, month: Option<int>): Outcome<(string, string)>
  {
    if year.None? || month.None? then Exit(1)
    else if !(1 <= year.value <= 9999 && 1 <= month.value <= 12) then Exit(1)
    else
      var next := NextMonthStart(year.value, month.value);
      if next.year > 9999 then Exit(1)
      else Ok((IsoDate(Date(year.value, month.value, 1)), IsoDate(next)))
  }

  /** yyyymm2daterange AS WRITTEN: the month is int(yyyymm[-2:]), the last
      two characters of the argument. */
  function Yyyymm2DateRangeAsWritten(s: string): Outcome<(string, string)>
  {
    MonthWindow(PyIntText(Slice(s, 0, 4)), PyIntText(if |s| >= 2 then s[|s| - 2..] else s))
  }

  /** yyyymm2daterange as evidently intended: the month is the two digits
      after the dash, yyyymm[5:7]. It agrees with the written version on
      every argument without a trailing newline. */
  function Yyyymm2DateRange(s: string): (r: Outcome<(string, string)>)
    ensures |s| == 7 ==> r == Yyyymm2DateRangeAsWritten(s)
  {
    assert |s| == 7 ==> s[|s| - 2..] == Slice(s, 5, 7);
    MonthWindow(PyIntText(Slice(s, 0, 4)), PyIntText(Slice(s, 5, 7)))
  }

  lemma Pad2(n: nat)
    requires n <= 99
    ensures |ZeroPad(n, 2)| == 2
    ensures PyIntText(ZeroPad(n, 2)) == Some(n)
  {
    if n < 10 {
      Pad2Small(n);
    } else {
      Pad2Large(n);
    }
    PyIntDigits(ZeroPad(n, 2));
  }

  lemma Pad2Small(n: nat)
    requires n < 10
    ensures ZeroPad(n, 2) == ['0', DigitChar(n)]
    ensures ParseDigits(ZeroPad(n, 2)) == Some(n)
  {
    assert NatToString(n) == [DigitChar(n)];
    var s := ['0', DigitChar(n)];
    assert s[..1] == ['0'];
    assert ParseDigits(['0']) == Some(0);
  }

  lemma Pad2Large(n: nat)
    requires 10 <= n <= 99
    ensures ZeroPad(n, 2) == NatToString(n) && |NatToString(n)| == 2
    ensures ParseDigits(ZeroPad(n, 2)) == Some(n)
  {
    var q := n / 10;
    assert q < 10;
    assert NatToString(q) == [DigitChar(q)];
    ParseNatToString(n);
  }

  lemma Pad4(n: nat)
    requires 1000 <= n <= 9999
    ensures |ZeroPad(n, 4)| == 4
    ensures PyIntText(ZeroPad(n, 4)) == Some(n)
  {
    assert NatToString(n / 1000) == [DigitChar(n / 1000)];
    assert |NatToString(n / 100)| == 2;
    assert |NatToString(n / 10)| == 3;
    assert |NatToString(n)| == 4;
    ParseNatToString(n);
    PyIntDigits(ZeroPad(n, 4));
  }

  /** s begins "YYYY-MM" with the four digits of y and the two of m. */
  predicate SpellsMonth(s: string, y: nat, m: nat)
  {
    |s| >= 7 && s[..4] == ZeroPad(y, 4) && s[4] == '-' && s[5..7] == ZeroPad(m, 2)
  }

  lemma ReadsYearAndMonth(s: string, y: nat, m: nat)
    requires 1000 <= y <= 9999 && m <= 99 && SpellsMonth(s, y, m)
    ensures PyIntText(Slice(s, 0, 4)) == Some(y) && PyIntText(Slice(s, 5, 7)) == Some(m)
  {
    ReadsYear(s, y, m);
    ReadsMonth(s, y, m);
  }

  lemma ReadsYear(s: string, y: nat, m: nat)
    requires 1000 <= y <= 9999 && SpellsMonth(s, y, m)
    ensures PyIntText(Slice(s, 0, 4)) == Some(y)
  {
    var ys := s[..4];
    assert Slice(s, 0, 4) == ys;
    assert ys == ZeroPad(y, 4);
    Pad4(y);
  }

  lemma ReadsMonth(s: string, y: nat, m: nat)
    requires m <= 99 && SpellsMonth(s, y, m)
    ensures PyIntText(Slice(s, 5, 7)) == Some(m)
  {
    var ms := s[5..7];
    assert Slice(s, 5, 7) == ms;
    assert ms == ZeroPad(m, 2);
    Pad2(m);
  }

  lemma WindowOfMonth(y: nat, m: nat)
    requires 1000 <= y <= 9998 && 1 <= m <= 12
    ensures MonthWindow(Some(y), Some(m)) == Ok((IsoDate(Date(y, m, 1)), IsoDate(NextMonthStart(y, m))))
  {
  }

  lemma FirstOfSpelledMonth(s: string, y: nat, m: nat)
    requires SpellsMonth(s, y, m)
    ensures IsoDate(Date(y, m, 1)) == s[..7] + "-01"
  {
    assert ZeroPad(1, 2) == "01" by {
      assert NatToString(1) == "1";
    }
    assert s[..7] == s[..4] + "-" + s[5..7];
  }

  /** The window of an argument that begins "YYYY-MM" (with or without the
      newline the pattern lets through) starts on the first of that month
      and ends on the first of the next month, December rolling over into
      January of the next year. */
  lemma DateRangeOfArgument(s: string, y: nat, m: nat)
    requires 1000 <= y <= 9998 && 1 <= m <= 12 && SpellsMonth(s, y, m)
    ensures Yyyymm2DateRange(s) == Ok((s[..7] + "-01", IsoDate(NextMonthStart(y, m))))
  {
    ReadsYearAndMonth(s, y, m);
    WindowOfMonth(y, m);
    FirstOfSpelledMonth(s, y, m);
  }

  /** The window is half-open: a calendar date d satisfies
      start <= d < end exactly when it lies in the named month, so
      consecutive months neither overlap nor leave a gap. */
  lemma HalfOpenWindow(y: nat, m: nat, d: Date)
    requires 1 <= m <= 12 && ValidDate(d)
    ensures DateLe(Date(y, m, 1), d) && !DateLe(NextMonthStart(y, m), d) <==> d.year == y && d.month == m
  {
  }

  lemma Spell2016()
    ensures ZeroPad(2016, 4) == "2016"
  {
    assert NatToString(2) == "2";
    assert NatToString(20) == "20";
    assert NatToString(201) == "201";
  }

  lemma SmallPads()
    ensures ZeroPad(1, 2) == "01" && ZeroPad(2, 2) == "02"
    ensures ZeroPad(11, 2) == "11" && ZeroPad(12, 2) == "12"
  {
    assert NatToString(1) == "1" && NatToString(2) == "2";
    assert NatToString(11) == "11" && NatToString(12) == "12";
  }

  lemma NewlineArgumentMatches()
    ensures MonthArgMatches("2016-11\n", BacklogYears)
    ensures MonthArgMatches("2016-11\n", NullGeomYears)
  {
    var s := "2016-11\n";
    assert s[..4] == BacklogYears[1];
    assert s[..4] == NullGeomYears[1];
    assert s[5..7] == MonthTokens[10];
  }

  lemma ReadsNewlineMonth()
    ensures PyIntText("1\n") == Some(1)
  {
    var s := "1\n";
    assert StripLeft(s) == s;
    assert StripRight(s[..1]) == "1";
    assert StripRight(s) == "1";
    assert DigitValue('1') == 1;
    PyIntDigits("1");
  }

  lemma ReadsYear2016()
    ensures PyIntText("2016") == Some(2016)
  {
    Spell2016();
    Pad4(2016);
  }

  /** The first of month m of 2016 in ISO form, given m's two digits. */
  lemma IsoFirst2016(m: nat, mm: string)
    requires ZeroPad(m, 2) == mm
    ensures IsoDate(Date(2016, m, 1)) == "2016-" + mm + "-01"
  {
    Spell2016();
    assert ZeroPad(1, 2) == "01" by {
      assert NatToString(1) == "1";
    }
  }

  lemma WindowsOf2016()
    ensures MonthWindow(Some(2016), Some(1)) == Ok(("2016-01-01", "2016-02-01"))
    ensures MonthWindow(Some(2016), Some(11)) == Ok(("2016-11-01", "2016-12-01"))
  {
    WindowOfJanuary2016();
    WindowOfNovember2016();
  }

  lemma WindowOfJanuary2016()
    ensures MonthWindow(Some(2016), Some(1)) == Ok(("2016-01-01", "2016-02-01"))
  {
    WindowOfMonth(2016, 1);
    SmallPads();
    IsoFirst2016(1, "01");
    IsoFirst2016(2, "02");
    assert "2016-" + "01" + "-01" == "2016-01-01";
    assert "2016-" + "02" + "-01" == "2016-02-01";
    assert NextMonthStart(2016, 1) == Date(2016, 2, 1);
  }

  lemma WindowOfNovember2016()
    ensures MonthWindow(Some(2016), Some(11)) == Ok(("2016-11-01", "2016-12-01"))
  {
    WindowOfMonth(2016, 11);
    SmallPads();
    IsoFirst2016(11, "11");
    IsoFirst2016(12, "12");
    assert "2016-" + "11" + "-01" == "2016-11-01";
    assert "2016-" + "12" + "-01" == "2016-12-01";
    assert NextMonthStart(2016, 11) == Date(2016, 12, 1);
  }

  lemma NewlineArgumentReads(s: string)
    requires s == "2016-11\n"
    ensures PyIntText(Slice(s, 0, 4)) == Some(2016)
    ensures PyIntText(s[|s| - 2..]) == Some(1)
    ensures PyIntText(Slice(s, 5, 7)) == Some(11)
  {
    assert Slice(s, 0, 4) == "2016";
    assert s[|s| - 2..] == "1\n";
    assert Slice(s, 5, 7) == "11";
    ReadsYear2016();
    ReadsNewlineMonth();
    assert PyIntText("11") == Some(11) by {
      SmallPads();
      Pad2(11);
    }
  }

  lemma NewlineArgumentAsWritten(s: string)
    requires s == "2016-11\n"
    ensures Yyyymm2DateRangeAsWritten(s) == Ok(("2016-01-01", "2016-02-01"))
  {
    NewlineArgumentReads(s);
    WindowsOf2016();
  }

  lemma NewlineArgumentCorrected(s: string)
    requires s == "2016-11\n"
    ensures Yyyymm2DateRange(s) == Ok(("2016-11-01", "2016-12-01"))
  {
    NewlineArgumentReads(s);
    WindowsOf2016();
  }

  /** The written version misreads a trailing newline that the pattern
      accepts, in both scripts: "2016-11\n" yields January 2016 instead of
      November. */
  lemma TrailingNewlineMisreadsMonth()
    ensures MonthArgMatches("2016-11\n", BacklogYears)
    ensures MonthArgMatches("2016-11\n", NullGeomYears)
    ensures Yyyymm2DateRangeAsWritten("2016-11\n") == Ok(("2016-01-01", "2016-02-01"))
    ensures Yyyymm2DateRange("2016-11\n") == Ok(("2016-11-01", "2016-12-01"))
  {
    NewlineArgumentMatches();
    NewlineArgumentAsWritten("2016-11\n");
    NewlineArgumentCorrected("2016-11\n");
  }
}
