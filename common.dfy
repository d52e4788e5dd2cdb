/** Values, replies and the small string and number helpers that every script
    of the crash-mapper ETL shares: JSON values as the HTTP APIs hand them
    over, Python's truthiness, str() and int() on them, ','.join, str.strip,
    and the "later row wins" dictionary that the scripts build in loops. */
module Common {

  datatype Option<T> = None | Some(value: T)

  /** How a Python step ends: with a value, or by terminating the process
      with an exit status (sys.exit(n), or 1 for an uncaught exception). */
  datatype Outcome<T> = Ok(value: T) | Exit(status: int)

  /** One JSON value as decoded by requests' .json(); a field map is a row. */
  datatype Value =
    | VNull
    | VBool(b: bool)
    | VNum(n: int)
    | VText(s: string)
    | VRows(rows: seq<Row>)

  type Row = map<string, Value>

  /** One csv.DictReader row: column name to cell text. */
  type CsvRow = map<string, string>

  /** A decoded reply: a JSON array of rows, or a JSON object. */
  datatype Reply = ListReply(items: seq<Row>) | ObjectReply(fields: map<string, Value>)

  /** CARTO_CRASHES_TABLE, the CARTO table every script reads and writes. */
  const CrashesTable := "crashes_all_prod"

  /** Python truthiness of a JSON value. */
  predicate Truthy(v: Value)
  {
    match v
    case VNull => false
    case VBool(b) => b
    case VNum(n) => n != 0
    case VText(s) => s != ""
    case VRows(rs) => rs != []
  }

  /** Python `a == b` between an int and a decoded JSON value (True == 1). */
  predicate IntEquals(n: int, v: Value)
  {
    match v
    case VNum(m) => m == n
    case VBool(b) => n == (if b then 1 else 0)
    case _ => false
  }

  /** Python `'rows' in data and len(data['rows'])`, for a rows member that
      is a JSON array; Some(rows) exactly when that test is true. */
  function NonEmptyRows(fields: map<string, Value>): (r: Option<seq<Row>>)
    ensures r.Some? <==> "rows" in fields && fields["rows"].VRows? && fields["rows"].rows != []
    ensures r.Some? ==> r.value == fields["rows"].rows
  {
    if "rows" in fields && fields["rows"].VRows? && fields["rows"].rows != [] then Some(fields["rows"].rows) else None
  }

  /** A value Python's len() accepts: a JSON array or a string. */
  predicate HasLen(v: Value)
  {
    v.VRows? || v.VText?
  }

  /** performcartoquery()'s reading of a CARTO reply
      (findgeomupdates/findgeomupdates_config.py and
      fixnullgeom/fix_null_geom_in_carto.py): `'rows' in data and
      len(data['rows'])`. A non-empty 'rows' member (an array, or a string)
      is returned as it is; a 'rows' member len() rejects (null, a number, a
      boolean) raises TypeError, status 1; otherwise an 'error' member ends
      the script with status 1, and without one the function falls off its
      end and returns None. A JSON array has neither member. */
  function PerformCartoQuery(reply: Reply): (r: Outcome<Option<Value>>)
    ensures (r.Ok? && r.value.Some?) <==>
      reply.ObjectReply? && "rows" in reply.fields && HasLen(reply.fields["rows"]) && Truthy(reply.fields["rows"])
    ensures r.Ok? && r.value.Some? ==> r.value.value == reply.fields["rows"]
    ensures r.Exit? <==>
      (reply.ObjectReply? &&
       (("rows" in reply.fields && !HasLen(reply.fields["rows"])) ||
        (("rows" !in reply.fields || !Truthy(reply.fields["rows"])) && "error" in reply.fields)))
    ensures r.Exit? ==> r.status == 1
  {
    match reply
    case ListReply(_) => Ok(None)
    case ObjectReply(fields) =>
      if "rows" in fields && !HasLen(fields["rows"]) then Exit(1)
      else if "rows" in fields && Truthy(fields["rows"]) then Ok(Some(fields["rows"]))
      else if "error" in fields then Exit(1)
      else Ok(None)
  }

  /** With a rows array, the reading is the one the scripts expect: the
      rows when there are any; otherwise an error member exits 1 and no
      error member gives None. */
  lemma PerformCartoQueryRows(reply: Reply)
    requires reply.ObjectReply? && "rows" in reply.fields && reply.fields["rows"].VRows?
    ensures var rows := reply.fields["rows"].rows;
      && (rows != [] ==> PerformCartoQuery(reply) == Ok(Some(VRows(rows))))
      && (rows == [] && "error" in reply.fields ==> PerformCartoQuery(reply) == Exit(1))
      && (rows == [] && "error" !in reply.fields ==> PerformCartoQuery(reply) == Ok(None))
  {
  }

  // ---------------------------------------------------------------- strings

  /** ','.join(parts) and friends. */
  function Join(parts: seq<string>, sep: string): string
  {
    if |parts| == 0 then ""
    else if |parts| == 1 then parts[0]
    else parts[0] + sep + Join(parts[1..], sep)
  }

  lemma {:induction false} JoinAppend(parts: seq<string>, p: string, sep: string)
    requires parts != []
    ensures Join(parts + [p], sep) == Join(parts, sep) + sep + p
  {
    if |parts| == 1 {
      assert parts + [p] == [parts[0], p];
    } else {
      assert (parts + [p])[1..] == parts[1..] + [p];
      JoinAppend(parts[1..], p, sep);
    }
  }

  /** Python's str.isspace(): the ASCII controls \t..\r and \x1c..\x1f,
      the space, and the Unicode separators and spaces. */
  predicate IsSpace(c: char)
  {
    || '\t' <= c <= '\r' || '\U{1C}' <= c <= ' '
    || c == '\U{85}' || c == '\U{A0}' || c == '\U{1680}'
    || '\U{2000}' <= c <= '\U{200A}'
    || c == '\U{2028}' || c == '\U{2029}' || c == '\U{202F}' || c == '\U{205F}' || c == '\U{3000}'
  }

  function StripLeft(s: string): (r: string)
    ensures |r| <= |s| && r == s[|s| - |r|..]
    ensures r == [] || !IsSpace(r[0])
  {
    if s != [] && IsSpace(s[0]) then StripLeft(s[1..]) else s
  }

  /** What StripLeft drops is whitespace. */
  lemma {:induction false} StripLeftSpaces(s: string)
    ensures forall k :: 0 <= k < |s| - |StripLeft(s)| ==> IsSpace(s[k])
  {
    if s != [] && IsSpace(s[0]) {
      StripLeftSpaces(s[1..]);
      forall k | 1 <= k < |s| - |StripLeft(s)| ensures IsSpace(s[k]) {
        assert s[k] == s[1..][k - 1];
      }
    }
  }

  function StripRight(s: string): (r: string)
    ensures |r| <= |s| && r == s[..|r|]
    ensures r == [] || !IsSpace(r[|r| - 1])
  {
    if s != [] && IsSpace(s[|s| - 1]) then StripRight(s[..|s| - 1]) else s
  }

  /** What StripRight drops is whitespace. */
  lemma {:induction false} StripRightSpaces(s: string)
    ensures forall k :: |StripRight(s)| <= k < |s| ==> IsSpace(s[k])
  {
    if s != [] && IsSpace(s[|s| - 1]) {
      StripRightSpaces(s[..|s| - 1]);
      forall k | |StripRight(s)| <= k < |s| - 1 ensures IsSpace(s[k]) {
        assert s[k] == s[..|s| - 1][k];
      }
    }
  }

  /** Python str.strip() with no argument. */
  function Strip(s: string): (r: string)
    ensures r == [] || (!IsSpace(r[0]) && !IsSpace(r[|r| - 1]))
  {
    var l := StripLeft(s);
    var r := StripRight(l);
    assert r != [] ==> r[0] == l[0];
    r
  }

  /** What strip() removes is whitespace at either end, nothing else. */
  lemma StripIsInfix(s: string)
    ensures var r, i := Strip(s), |s| - |StripLeft(s)|;
      && i + |r| <= |s| && r == s[i..i + |r|]
      && (forall k :: 0 <= k < i ==> IsSpace(s[k]))
      && (forall k :: i + |r| <= k < |s| ==> IsSpace(s[k]))
  {
    StripSlice(s);
    StripLeftSpaces(s);
    StripTail(s);
  }

  lemma StripSlice(s: string)
    ensures var r, i := Strip(s), |s| - |StripLeft(s)|;
      i + |r| <= |s| && r == s[i..i + |r|]
  {
    var l := StripLeft(s);
    var r := StripRight(l);
    var i := |s| - |l|;
    assert Strip(s) == r;
    SliceOfSuffix(s, i, |r|);
  }

  /** The first m elements of s[i..] are s[i..i + m]. */
  lemma SliceOfSuffix<T>(s: seq<T>, i: nat, m: nat)
    requires i + m <= |s|
    ensures s[i..][..m] == s[i..i + m]
  {
  }

  lemma StripTail(s: string)
    ensures var r, i := Strip(s), |s| - |StripLeft(s)|;
      forall k :: i + |r| <= k < |s| ==> IsSpace(s[k])
  {
    var l := StripLeft(s);
    var r := StripRight(l);
    var i := |s| - |l|;
    assert Strip(s) == r;
    StripRightSpaces(l);
    forall k | i + |r| <= k < |s| ensures IsSpace(s[k]) {
      assert s[k] == l[k - i];
    }
  }

  /** The part of s before the first occurrence of c: Python s.split(c)[0]. */
  function Before(s: string, c: char): (r: string)
    ensures r <= s && c !in r
    ensures |r| < |s| ==> s[|r|] == c
  {
    if s == [] || s[0] == c then [] else [s[0]] + Before(s[1..], c)
  }

  /** Python s.split(c) for a one-character separator. */
  function Split(s: string, c: char): (r: seq<string>)
    ensures |r| >= 1
    decreases |s|
  {
    if c !in s then [s]
    else
      var b := Before(s, c);
      assert b != s;
      [b] + Split(s[|b| + 1..], c)
  }

  lemma {:induction false} BeforeConcat(a: string, c: char, b: string)
    requires c !in a
    ensures Before(a + [c] + b, c) == a
  {
    if a != [] {
      assert (a + [c] + b)[1..] == a[1..] + [c] + b;
      BeforeConcat(a[1..], c, b);
    }
  }

  /** Splitting at the first separator. */
  lemma SplitStep(a: string, c: char, b: string)
    requires c !in a
    ensures Split(a + [c] + b, c) == [a] + Split(b, c)
  {
    var s := a + [c] + b;
    assert s[|a|] == c;
    BeforeConcat(a, c, b);
    assert s[|a| + 1..] == b;
  }

  /** Splitting a joined list at the separator gives the list back, when
      no part contains the separator. */
  lemma {:induction false} SplitJoin(parts: seq<string>, c: char)
    requires parts != [] && forall i :: 0 <= i < |parts| ==> c !in parts[i]
    ensures Split(Join(parts, [c]), c) == parts
  {
    if |parts| > 1 {
      var rest := Join(parts[1..], [c]);
      assert Join(parts, [c]) == parts[0] + [c] + rest;
      SplitStep(parts[0], c, rest);
      SplitJoin(parts[1..], c);
      assert parts == [parts[0]] + parts[1..];
    }
  }

  /** Python `p in s` on strings: p occurs in s. */
  predicate Contains(s: string, p: string)
  {
    exists i, j :: 0 <= i <= j <= |s| && s[i..j] == p
  }

  lemma ContainsPart(a: string, b: string, c: string)
    ensures Contains(a + b + c, b)
  {
    var s := a + b + c;
    assert s[|a|..|a| + |b|] == b;
  }

  lemma ContainsIn(a: string, b: string, c: string, p: string)
    requires Contains(b, p)
    ensures Contains(a + b + c, p)
  {
    var i, j :| 0 <= i <= j <= |b| && b[i..j] == p;
    var s := a + b + c;
    assert s[|a| + i..|a| + j] == b[i..j];
  }

  /** What occurs in a piece occurs wherever the piece does. */
  lemma ContainsTrans(t: string, n: string, p: string)
    requires Contains(t, n) && Contains(n, p)
    ensures Contains(t, p)
  {
    var i, j :| 0 <= i <= j <= |t| && t[i..j] == n;
    var a, b :| 0 <= a <= b <= |n| && n[a..b] == p;
    assert |t[i + a..i + b]| == |p|;
    forall k | 0 <= k < |p| ensures t[i + a..i + b][k] == p[k] {
      assert p[k] == n[a + k] == t[i + a + k];
    }
    assert t[i + a..i + b] == p;
  }

  /** Every part occurs in the joined text. */
  lemma {:induction false} JoinContains(parts: seq<string>, sep: string, k: nat)
    requires k < |parts|
    ensures Contains(Join(parts, sep), parts[k])
  {
    if |parts| == 1 {
      assert Join(parts, sep)[0..|parts[0]|] == parts[0];
    } else if k == 0 {
      assert parts[0][0..|parts[0]|] == parts[0];
      ContainsIn([], parts[0], sep + Join(parts[1..], sep), parts[0]);
      assert [] + parts[0] + (sep + Join(parts[1..], sep)) == Join(parts, sep);
    } else {
      JoinContains(parts[1..], sep, k - 1);
      ContainsIn(parts[0] + sep, Join(parts[1..], sep), [], parts[k]);
      assert parts[0] + sep + Join(parts[1..], sep) + [] == Join(parts, sep);
    }
  }

  // ---------------------------------------------------------------- numbers

  predicate IsDigit(c: char) { '0' <= c <= '9' }

  function DigitChar(d: nat): (c: char)
    requires d < 10
    ensures IsDigit(c)
  {
    ('0' as int + d) as char
  }

  function DigitValue(c: char): (d: nat)
    requires IsDigit(c)
    ensures d < 10 && DigitChar(d) == c
  {
    (c as int - '0' as int) as nat
  }

  /** Python str(n) for a non-negative int. */
  function NatToString(n: nat): (s: string)
    ensures s != [] && forall k :: 0 <= k < |s| ==> IsDigit(s[k])
  {
    if n < 10 then [DigitChar(n)] else NatToString(n / 10) + [DigitChar(n % 10)]
  }

  /** Decimal value of a string of digits, most significant first; None
      when s is empty or holds anything but digits. */
  function ParseDigits(s: string): (r: Option<nat>)
    ensures r.Some? <==> s != [] && forall k :: 0 <= k < |s| ==> IsDigit(s[k])
  {
    if s == [] then None
    else if !IsDigit(s[|s| - 1]) then None
    else if |s| == 1 then Some(DigitValue(s[0]))
    else match ParseDigits(s[..|s| - 1])
      case None => None
      case Some(v) => Some(10 * v + DigitValue(s[|s| - 1]))
  }

  /** The body of a decimal numeral as Python 3's int() reads it: digits,
      with single '_' separators between digits. */
  predicate DigitGroups(s: string)
  {
    s != [] && IsDigit(s[0]) &&
    (|s| == 1 || (if s[1] == '_' then DigitGroups(s[2..]) else DigitGroups(s[1..])))
  }

  /** s without its '_' separators. */
  function WithoutSeparators(s: string): (r: string)
    ensures |r| <= |s|
  {
    if s == [] then []
    else (if s[0] == '_' then [] else [s[0]]) + WithoutSeparators(s[1..])
  }

  /** A numeral body is a digit string once its separators are dropped. */
  lemma {:induction false} GroupsAreDigits(s: string)
    requires DigitGroups(s)
    ensures var d := WithoutSeparators(s); d != [] && forall k :: 0 <= k < |d| ==> IsDigit(d[k])
  {
    if |s| > 1 {
      var rest := if s[1] == '_' then s[2..] else s[1..];
      GroupsAreDigits(rest);
      if s[1] == '_' {
        assert WithoutSeparators(s[1..]) == WithoutSeparators(rest);
      }
    }
  }

  /** A digit string is a numeral body with nothing to drop. */
  lemma {:induction false} DigitsAreGroups(s: string)
    requires s != [] && forall k :: 0 <= k < |s| ==> IsDigit(s[k])
    ensures DigitGroups(s) && WithoutSeparators(s) == s
  {
    if |s| > 1 {
      DigitsAreGroups(s[1..]);
    }
  }

  /** The value of a numeral body; None unless DigitGroups holds. */
  function Unsigned(s: string): (r: Option<nat>)
    ensures r.Some? <==> DigitGroups(s)
  {
    if !DigitGroups(s) then None
    else
      GroupsAreDigits(s);
      ParseDigits(WithoutSeparators(s))
  }

  predicate IsSign(c: char) { c == '+' || c == '-' }

  /** int() on text with no surrounding whitespace: an optional sign, then
      a numeral body. */
  function Numeral(t: string): Option<int>
  {
    if t != [] && IsSign(t[0]) then
      match Unsigned(t[1..])
      case None => None
      case Some(n) => Some(if t[0] == '-' then -(n as int) else n as int)
    else
      match Unsigned(t)
      case None => None
      case Some(n) => Some(n as int)
  }

  /** int() accepts exactly an optional sign followed by a numeral body,
      and negates the body's value after a '-'. */
  lemma NumeralSpec(t: string)
    ensures var r := Numeral(t);
      && (r.Some? <==> t != [] && (if IsSign(t[0]) then DigitGroups(t[1..]) else DigitGroups(t)))
      && (r.Some? && t[0] == '-' ==> r.value == -(Unsigned(t[1..]).value as int))
      && (r.Some? && t[0] != '-' ==> r.value == Unsigned(if t[0] == '+' then t[1..] else t).value)
  {
  }

  /** Python 3 int(s) on text: surrounding whitespace is ignored; None
      stands for the ValueError anything else raises. */
  function PyIntText(s: string): Option<int>
  {
    Numeral(Strip(s))
  }

  /** A plain digit string reads as its decimal value. */
  lemma PyIntDigits(s: string)
    requires s != [] && forall k :: 0 <= k < |s| ==> IsDigit(s[k])
    ensures Strip(s) == s
    ensures PyIntText(s) == Some(ParseDigits(s).value as int)
  {
    StripUnspaced(s);
    NumeralDigits(s);
  }

  lemma StripUnspaced(s: string)
    requires s != [] && !IsSpace(s[0]) && !IsSpace(s[|s| - 1])
    ensures Strip(s) == s
  {
    StripLeftKeeps(s);
    StripRightKeeps(s);
  }

  lemma NumeralDigits(s: string)
    requires s != [] && forall k :: 0 <= k < |s| ==> IsDigit(s[k])
    ensures Numeral(s) == Some(ParseDigits(s).value as int)
  {
    UnsignedDigits(s);
    assert !IsSign(s[0]);
  }

  lemma UnsignedDigits(s: string)
    requires s != [] && forall k :: 0 <= k < |s| ==> IsDigit(s[k])
    ensures Unsigned(s) == ParseDigits(s)
  {
    DigitsAreGroups(s);
  }

  /** A '-' followed by the numeral of m reads as -m. */
  lemma NegativeRoundTrip(t: string, m: nat)
    requires |t| >= 2 && t[0] == '-' && t[1..] == NatToString(m)
    ensures Strip(t) == t
    ensures PyIntText(t) == Some(-(m as int))
  {
    assert !IsSpace(t[|t| - 1]) by {
      assert t[|t| - 1] == t[1..][|t| - 2];
    }
    StripUnspaced(t);
    assert Unsigned(t[1..]) == Some(m) by {
      UnsignedDigits(NatToString(m));
      ParseNatToString(m);
    }
    NumeralNegative(t);
  }

  lemma NumeralNegative(t: string)
    requires t != [] && t[0] == '-' && Unsigned(t[1..]).Some?
    ensures Numeral(t) == Some(-(Unsigned(t[1..]).value as int))
  {
  }

  /** int(str(n)) == n: the numeral Python prints for any int reads back as
      that int. */
  lemma PyIntRoundTrip(n: int)
    ensures PyIntText(IntToString(n)) == Some(n)
  {
    if n < 0 {
      var t := IntToString(n);
      assert t[1..] == NatToString(-n);
      NegativeRoundTrip(t, -n);
    } else {
      assert ParseDigits(NatToString(n)) == Some(n) by {
        ParseNatToString(n);
      }
      PyIntDigits(NatToString(n));
    }
  }

  /** strip() removes a trailing no-break space, as str.isspace() counts
      it as whitespace. */
  lemma NoBreakSpaceStripped(name: string)
    requires name != [] && !IsSpace(name[0]) && !IsSpace(name[|name| - 1])
    ensures Strip(name + "\U{A0}") == name
  {
    var b := name + "\U{A0}";
    assert !IsSpace(b[0]) && b[..|b| - 1] == name;
    assert StripLeft(b) == b;
    StripUnspaced(name);
    assert StripRight(b) == StripRight(name);
  }

  /** strip() drops a space on either side of a word. */
  lemma StripPadded(x: string)
    requires x != [] && !IsSpace(x[0]) && !IsSpace(x[|x| - 1])
    ensures Strip(" " + x + " ") == x
  {
    var y := x + [' '];
    assert " " + x + " " == [' '] + y;
    assert StripLeft([' '] + y) == y by {
      StripLeftSpace(' ', y);
      assert y[0] == x[0];
      StripLeftKeeps(y);
    }
    assert StripRight(y) == x by {
      StripRightSpace(x, ' ');
      StripRightKeeps(x);
    }
  }

  lemma StripLeftSpace(c: char, s: string)
    requires IsSpace(c)
    ensures StripLeft([c] + s) == StripLeft(s)
  {
    assert ([c] + s)[1..] == s;
  }

  lemma StripRightSpace(s: string, c: char)
    requires IsSpace(c)
    ensures StripRight(s + [c]) == StripRight(s)
  {
    assert (s + [c])[..|s|] == s;
  }

  lemma StripLeftKeeps(s: string)
    requires s != [] && !IsSpace(s[0])
    ensures StripLeft(s) == s
  {
  }

  lemma StripRightKeeps(s: string)
    requires s != [] && !IsSpace(s[|s| - 1])
    ensures StripRight(s) == s
  {
  }

  /** int(" " + x + " ") == int(x): spaces around a numeral, signed or
      not, do not change what int() reads. */
  lemma SurroundingSpacesIgnored(x: string)
    requires x != [] && !IsSpace(x[0]) && !IsSpace(x[|x| - 1])
    ensures PyIntText(" " + x + " ") == PyIntText(x)
  {
    StripPadded(x);
    StripUnspaced(x);
  }

  /** Python int(v) on a decoded JSON value; None stands for the exception. */
  function PyInt(v: Value): Option<int>
  {
    match v
    case VNum(n) => Some(n)
    case VBool(b) => Some(if b then 1 else 0)
    case VText(s) => PyIntText(s)
    case _ => None
  }

  /** Python str(n) for any int. */
  function IntToString(n: int): string
  {
    if n < 0 then "-" + NatToString(-n) else NatToString(n)
  }

  /** Python str(v) / '{}'.format(v) of a decoded JSON value. */
  function Str(v: Value): string
  {
    match v
    case VNull => "None"
    case VBool(b) => if b then "True" else "False"
    case VNum(n) => IntToString(n)
    case VText(s) => s
    case VRows(_) => "[...]"
  }

  /** int() reads back what str() writes. */
  lemma {:induction false} ParseNatToString(n: nat)
    ensures ParseDigits(NatToString(n)) == Some(n)
  {
    if n >= 10 {
      var s, q, d := NatToString(n), n / 10, n % 10;
      assert n == 10 * q + d;
      assert s == NatToString(q) + [DigitChar(d)];
      assert s[..|s| - 1] == NatToString(q);
      ParseNatToString(q);
    }
  }

  /** str(n) left-padded with zeros to at least w characters, as strftime
      and isoformat() render %Y, %m, %d, %H and %M. */
  function ZeroPad(n: nat, w: nat): (s: string)
    ensures |s| >= w
  {
    var d := NatToString(n);
    if |d| >= w then d else seq(w - |d|, _ => '0') + d
  }

  // ------------------------------------------------------ dictionaries

  /** The dictionary a loop `d[key(row)] = row` leaves behind: one entry per
      key, holding the LAST row with that key. */
  function IndexBy<T, K>(rows: seq<T>, key: T -> K): map<K, T>
  {
    if rows == [] then map[]
    else IndexBy(rows[..|rows| - 1], key)[key(rows[|rows| - 1]) := rows[|rows| - 1]]
  }

  /** A key is in the dictionary iff some row carries it, and its entry is
      the last such row. */
  lemma IndexByLastWins<T, K>(rows: seq<T>, key: T -> K, k: K)
    ensures k in IndexBy(rows, key) <==> exists i :: 0 <= i < |rows| && key(rows[i]) == k
    ensures k in IndexBy(rows, key) ==>
      exists i :: 0 <= i < |rows| && key(rows[i]) == k && IndexBy(rows, key)[k] == rows[i] &&
        forall j :: i < j < |rows| ==> key(rows[j]) != k
  {
    IndexByKeys(rows, key, k);
    if k in IndexBy(rows, key) {
      var i := IndexByLast(rows, key, k);
    }
  }

  /** The keys of the dictionary are the keys of the rows. */
  lemma {:induction false} IndexByKeys<T, K>(rows: seq<T>, key: T -> K, k: K)
    ensures k in IndexBy(rows, key) <==> exists i :: 0 <= i < |rows| && key(rows[i]) == k
  {
    if rows != [] {
      var init := rows[..|rows| - 1];
      IndexByKeys(init, key, k);
      if exists i :: 0 <= i < |rows| && key(rows[i]) == k {
        var i :| 0 <= i < |rows| && key(rows[i]) == k;
        if i < |init| {
          assert key(init[i]) == k;
        }
      }
      if exists i :: 0 <= i < |init| && key(init[i]) == k {
        var i :| 0 <= i < |init| && key(init[i]) == k;
        assert key(rows[i]) == k;
      }
    }
  }

  /** The entry of a key is its last row: the index of that row. */
  lemma {:induction false} IndexByLast<T, K>(rows: seq<T>, key: T -> K, k: K) returns (i: nat)
    requires k in IndexBy(rows, key)
    ensures i < |rows| && key(rows[i]) == k && IndexBy(rows, key)[k] == rows[i]
    ensures forall j :: i < j < |rows| ==> key(rows[j]) != k
  {
    var init := rows[..|rows| - 1];
    if key(rows[|rows| - 1]) == k {
      i := |rows| - 1;
    } else {
      i := IndexByLast(init, key, k);
      assert rows[i] == init[i];
      assert forall j :: i < j < |init| ==> rows[j] == init[j];
    }
  }

  function KeyOf(key: string): CsvRow -> string
  {
    row => if key in row then row[key] else ""
  }

  /** The CSV load loops `records[row[key]] = row` (fixtallies/1-diffs.py,
      findgeomupdates/2-make_diffs_csv.py): a later row with the same id
      replaces an earlier one; a row without the key column ends the script
      (KeyError, status 1). */
  method LoadRecords(rows: seq<CsvRow>, key: string) returns (r: Outcome<map<string, CsvRow>>)
    ensures r.Ok? <==> forall i :: 0 <= i < |rows| ==> key in rows[i]
    ensures r.Exit? ==> r.status == 1
    ensures r.Ok? ==> r.value == IndexBy(rows, KeyOf(key))
  {
    var records: map<string, CsvRow> := map[];
    for i := 0 to |rows|
      invariant forall j :: 0 <= j < i ==> key in rows[j]
      invariant records == IndexBy(rows[..i], KeyOf(key))
    {
      var crashinfo := rows[i];
      if key !in crashinfo {
        return Exit(1);
      }
      assert rows[..i + 1][..i] == rows[..i];
      records := records[crashinfo[key] := crashinfo];
    }
    assert rows[..|rows|] == rows;
    return Ok(records);
  }

  // ------------------------------------------------------------ loops

  /** A loop that renders each element in turn and stops the process at the
      first element it cannot render. */
  function MapOutcome<T, U>(xs: seq<T>, f: T -> Outcome<U>): Outcome<seq<U>>
  {
    if xs == [] then Ok([])
    else match MapOutcome(xs[..|xs| - 1], f)
      case Exit(s) => Exit(s)
      case Ok(init) => (match f(xs[|xs| - 1]) case Exit(s) => Exit(s) case Ok(u) => Ok(init + [u]))
  }

  /** The loop yields one result per element, in order, exactly when every
      element renders; otherwise it ends with the status of the first
      element that does not. */
  lemma {:induction false} MapOutcomeSpec<T, U>(xs: seq<T>, f: T -> Outcome<U>)
    ensures MapOutcome(xs, f).Ok? <==> forall i :: 0 <= i < |xs| ==> f(xs[i]).Ok?
    ensures MapOutcome(xs, f).Ok? ==>
      |MapOutcome(xs, f).value| == |xs| &&
      forall i :: 0 <= i < |xs| ==> MapOutcome(xs, f).value[i] == f(xs[i]).value
    ensures MapOutcome(xs, f).Exit? ==>
      exists i :: 0 <= i < |xs| && f(xs[i]).Exit? && MapOutcome(xs, f).status == f(xs[i]).status &&
        forall j :: 0 <= j < i ==> f(xs[j]).Ok?
  {
    if xs != [] {
      var init := xs[..|xs| - 1];
      MapOutcomeSpec(init, f);
      assert forall i :: 0 <= i < |init| ==> init[i] == xs[i];
      if MapOutcome(init, f).Exit? {
        var i :| 0 <= i < |init| && f(init[i]).Exit? && MapOutcome(init, f).status == f(init[i]).status &&
          forall j :: 0 <= j < i ==> f(init[j]).Ok?;
        assert f(xs[i]).Exit?;
      }
    }
  }

  /** Extending a loop that has not failed by one more element. */
  lemma MapOutcomeStep<T, U>(xs: seq<T>, i: nat, f: T -> Outcome<U>)
    requires i < |xs| && MapOutcome(xs[..i], f).Ok?
    ensures MapOutcome(xs[..i + 1], f) ==
      match f(xs[i]) case Exit(s) => Exit(s) case Ok(u) => Ok(MapOutcome(xs[..i], f).value + [u])
  {
    assert xs[..i + 1][..i] == xs[..i];
  }

  /** Once the loop has stopped, later elements do not matter. */
  lemma {:induction false} MapOutcomeStops<T, U>(xs: seq<T>, i: nat, f: T -> Outcome<U>)
    requires i <= |xs| && MapOutcome(xs[..i], f).Exit?
    ensures MapOutcome(xs, f) == MapOutcome(xs[..i], f)
    decreases |xs| - i
  {
    if i < |xs| {
      assert xs[..i + 1][..i] == xs[..i];
      MapOutcomeStops(xs, i + 1, f);
    } else {
      assert xs[..i] == xs;
    }
  }

  /** One more element after a successful prefix. */
  lemma MapOutcomeSnoc<T, U>(xs: seq<T>, x: T, f: T -> Outcome<U>)
    requires MapOutcome(xs, f).Ok?
    ensures MapOutcome(xs + [x], f) ==
      match f(x) case Exit(s) => Exit(s) case Ok(u) => Ok(MapOutcome(xs, f).value + [u])
  {
    assert (xs + [x])[..|xs|] == xs;
  }

  /** A prefix that stops the loop stops it for any continuation. */
  lemma MapOutcomePrefixExit<T, U>(xs: seq<T>, ys: seq<T>, f: T -> Outcome<U>)
    requires MapOutcome(xs, f).Exit?
    ensures MapOutcome(xs + ys, f) == MapOutcome(xs, f)
  {
    assert (xs + ys)[..|xs|] == xs;
    MapOutcomeStops(xs + ys, |xs|, f);
  }

  /** [x for x in xs if p(x)]. */
  function Filter<T>(xs: seq<T>, p: T -> bool): (r: seq<T>)
    ensures |r| <= |xs|
  {
    if xs == [] then []
    else if p(xs[|xs| - 1]) then Filter(xs[..|xs| - 1], p) + [xs[|xs| - 1]]
    else Filter(xs[..|xs| - 1], p)
  }

  /** The filter of one more element. */
  lemma FilterStep<T>(xs: seq<T>, i: nat, p: T -> bool)
    requires i < |xs|
    ensures Filter(xs[..i + 1], p) == Filter(xs[..i], p) + (if p(xs[i]) then [xs[i]] else [])
  {
    assert xs[..i + 1][..i] == xs[..i];
  }

  /** Two tests that agree on every element filter alike. */
  lemma {:induction false} FilterCongruent<T>(xs: seq<T>, p: T -> bool, q: T -> bool)
    requires forall i :: 0 <= i < |xs| ==> p(xs[i]) == q(xs[i])
    ensures Filter(xs, p) == Filter(xs, q)
  {
    if xs != [] {
      FilterCongruent(xs[..|xs| - 1], p, q);
    }
  }

  /** A test every element passes keeps the whole list. */
  lemma {:induction false} FilterAll<T>(xs: seq<T>, p: T -> bool)
    requires forall i :: 0 <= i < |xs| ==> p(xs[i])
    ensures Filter(xs, p) == xs
  {
    if xs != [] {
      FilterAll(xs[..|xs| - 1], p);
    }
  }

  /** a can be obtained from b by deleting elements: it keeps b's order. */
  predicate IsSubsequence<T(==)>(a: seq<T>, b: seq<T>)
    decreases |b|
  {
    if a == [] then true
    else if b == [] then false
    else (a[|a| - 1] == b[|b| - 1] && IsSubsequence(a[..|a| - 1], b[..|b| - 1])) || IsSubsequence(a, b[..|b| - 1])
  }

  /** The filtered list holds exactly the elements that pass, in their
      original order. */
  lemma {:induction false} FilterSpec<T>(xs: seq<T>, p: T -> bool)
    ensures forall x :: x in Filter(xs, p) <==> x in xs && p(x)
    ensures IsSubsequence(Filter(xs, p), xs)
  {
    if xs != [] {
      var init := xs[..|xs| - 1];
      FilterSpec(init, p);
      assert xs == init + [xs[|xs| - 1]];
      var r := Filter(xs, p);
      if p(xs[|xs| - 1]) {
        assert r[..|r| - 1] == Filter(init, p);
      } else {
        SubsequenceOfInit(r, xs);
      }
    }
  }

  lemma SubsequenceOfInit<T>(a: seq<T>, b: seq<T>)
    requires b != [] && IsSubsequence(a, b[..|b| - 1])
    ensures IsSubsequence(a, b)
  {
  }

  lemma {:induction false} FilterAppend<T>(xs: seq<T>, ys: seq<T>, p: T -> bool)
    ensures Filter(xs + ys, p) == Filter(xs, p) + Filter(ys, p)
    decreases |ys|
  {
    if ys == [] {
      assert xs + ys == xs;
    } else {
      var init := ys[..|ys| - 1];
      assert (xs + ys)[..|xs + ys| - 1] == xs + init;
      FilterAppend(xs, init, p);
    }
  }
}
