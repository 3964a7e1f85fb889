/**
 * The string handling of Python's `str`, `int()`, `Decimal()` and `datetime.strptime` /
 * `strftime` that the importers rely on, restricted to the forms the data files use.
 */
module Text {
  import opened Wrappers
  import opened Calendar

  predicate IsDigit(c: char) { '0' <= c <= '9' }

  /** The ASCII whitespace `str.strip()` removes. */
  predicate IsSpace(c: char)
  {
    c == ' ' || c == '\t' || c == '\n' || c == '\r' || c as int == 11 || c as int == 12
  }

  predicate AllDigits(s: string) { forall i :: 0 <= i < |s| ==> IsDigit(s[i]) }

  function StripLeft(s: string): (r: string)
    ensures r == [] || !IsSpace(r[0])
    ensures exists k :: 0 <= k <= |s| && r == s[k..] && forall i :: 0 <= i < k ==> IsSpace(s[i])
  {
    if s != [] && IsSpace(s[0]) then
      var r := StripLeft(s[1..]);
      var k :| 0 <= k <= |s[1..]| && r == s[1..][k..] && forall i :: 0 <= i < k ==> IsSpace(s[1..][i]);
      assert r == s[k + 1..];
      r
    else
      assert s == s[0..];
      s
  }

  function StripRight(s: string): (r: string)
    ensures r == [] || !IsSpace(r[|r| - 1])
    ensures exists k :: 0 <= k <= |s| && r == s[..k] && forall i :: k <= i < |s| ==> IsSpace(s[i])
  {
    if s != [] && IsSpace(s[|s| - 1]) then
      var init := s[..|s| - 1];
      var r := StripRight(init);
      var k :| 0 <= k <= |init| && r == init[..k] && forall i :: k <= i < |init| ==> IsSpace(init[i]);
      assert r == s[..k];
      r
    else
      assert s == s[..|s|];
      s
  }

  /** `s.strip()` */
  function Strip(s: string): string
  {
    StripRight(StripLeft(s))
  }

  /** A string with no surrounding whitespace is its own strip. */
  lemma StripNoSpace(s: string)
    requires s == [] || (!IsSpace(s[0]) && !IsSpace(s[|s| - 1]))
    ensures Strip(s) == s
  {
  }

  /** The index of the first `c` in `s`. */
  function IndexOf(s: string, c: char): (k: nat)
    requires c in s
    ensures k < |s| && s[k] == c && c !in s[..k]
  {
    if s[0] == c then 0 else 1 + IndexOf(s[1..], c)
  }

  /** `sub` occurs in `s` at position `i`. */
  predicate OccursAt(s: string, sub: string, i: int)
  {
    0 <= i && i + |sub| <= |s| && s[i..i + |sub|] == sub
  }

  /** Python's `sub in s` on strings. */
  predicate Contains(s: string, sub: string)
  {
    exists i :: 0 <= i <= |s| && OccursAt(s, sub, i)
  }

  /** `sep.join(parts)` */
  function Join(parts: seq<string>, sep: char): string
    requires |parts| >= 1
  {
    if |parts| == 1 then parts[0] else parts[0] + [sep] + Join(parts[1..], sep)
  }

  /** `s.split(sep)` with a one-character separator: the pieces between separators, at least one. */
  function Split(s: string, sep: char): (parts: seq<string>)
    ensures |parts| >= 1
    ensures forall i :: 0 <= i < |parts| ==> sep !in parts[i]
    ensures Join(parts, sep) == s
    decreases |s|
  {
    if sep !in s then [s]
    else
      var k := IndexOf(s, sep);
      var rest := Split(s[k + 1..], sep);
      assert s == s[..k] + [sep] + s[k + 1..];
      [s[..k]] + rest
  }

  /** Splitting the join of separator-free pieces gives the pieces back. */
  lemma {:induction false} SplitJoin(parts: seq<string>, sep: char)
    requires |parts| >= 1
    requires forall i :: 0 <= i < |parts| ==> sep !in parts[i]
    ensures Split(Join(parts, sep), sep) == parts
    decreases |parts|
  {
    if |parts| > 1 {
      var s := Join(parts, sep);
      var p := parts[0];
      assert s == p + [sep] + Join(parts[1..], sep);
      assert s[|p|] == sep;
      assert s[..|p|] == p;
      assert IndexOf(s, sep) == |p|;
      assert s[|p| + 1..] == Join(parts[1..], sep);
      SplitJoin(parts[1..], sep);
    }
  }

  /** `s.replace(c, '')` */
  function RemoveAll(s: string, c: char): (r: string)
    ensures c !in r
    ensures |r| <= |s|
  {
    if s == [] then [] else (if s[0] == c then [] else [s[0]]) + RemoveAll(s[1..], c)
  }

  /** The value of a string of decimal digits. */
  function DigitsValue(s: string): nat
    requires AllDigits(s)
  {
    if s == [] then 0 else 10 * DigitsValue(s[..|s| - 1]) + (s[|s| - 1] as int - '0' as int)
  }

  function DigitChar(d: nat): char
    requires d < 10
  {
    ('0' as int + d) as char
  }

  /** `str(n)` for a non-negative integer. */
  function NatToString(n: nat): (s: string)
    ensures |s| >= 1 && AllDigits(s)
    ensures DigitsValue(s) == n
  {
    if n < 10 then [DigitChar(n)]
    else
      var s := NatToString(n / 10) + [DigitChar(n % 10)];
      assert s[..|s| - 1] == NatToString(n / 10);
      s
  }

  /** `str(n)` */
  function IntToString(n: int): string
  {
    if n < 0 then "-" + NatToString(-n) else NatToString(n)
  }

  /** `int(s)`: optional surrounding whitespace, an optional sign and at least one digit; otherwise ValueError. */
  function ParseInt(s: string): Option<int>
  {
    var t := Strip(s);
    if |t| > 0 && (t[0] == '-' || t[0] == '+') then
      var body := t[1..];
      if body != [] && AllDigits(body) then
        var v: int := DigitsValue(body);
        Some(if t[0] == '-' then -v else v)
      else None
    else if t != [] && AllDigits(t) then Some(DigitsValue(t))
    else None
  }

  /** `int(str(n)) == n` */
  lemma ParseIntRoundTrip(n: int)
    ensures ParseInt(IntToString(n)) == Some(n)
  {
    var s := IntToString(n);
    StripNoSpace(s);
    if n < 0 {
      assert s[1..] == NatToString(-n);
    }
  }

  function Pow10(k: nat): (p: nat)
    ensures p >= 1
  {
    if k == 0 then 1 else 10 * Pow10(k - 1)
  }

  /** The value of the unsigned decimal `ip.fp`. */
  function DecimalValue(ip: string, fp: string): real
    requires AllDigits(ip) && AllDigits(fp)
  {
    DigitsValue(ip) as real + DigitsValue(fp) as real / Pow10(|fp|) as real
  }

  /** An unsigned decimal: digits with an optional fraction part, at least one digit in all. */
  function ParseUnsignedDecimal(t: string): Option<real>
  {
    if '.' in t then
      var k := IndexOf(t, '.');
      var ip, fp := t[..k], t[k + 1..];
      if AllDigits(ip) && AllDigits(fp) && |ip| + |fp| > 0 then Some(DecimalValue(ip, fp)) else None
    else if t != [] && AllDigits(t) then Some(DigitsValue(t) as real)
    else None
  }

  /** `Decimal(s)` for plain decimal literals; any other string raises InvalidOperation (None here). */
  function ParseDecimal(s: string): Option<real>
  {
    var t := Strip(s);
    if |t| > 0 && (t[0] == '-' || t[0] == '+') then
      match ParseUnsignedDecimal(t[1..])
      case Some(v) => Some(if t[0] == '-' then -v else v)
      case None => None
    else ParseUnsignedDecimal(t)
  }

  /** `Decimal(str(n)) == n` */
  lemma ParseDecimalOfInt(n: int)
    ensures ParseDecimal(IntToString(n)) == Some(n as real)
  {
    var s := IntToString(n);
    StripNoSpace(s);
    if n < 0 {
      assert s[1..] == NatToString(-n);
    }
  }

  /** A numeral of `lo` to `hi` digits whose value lies in `[min, max]`: a `strptime` field. */
  function ParseField(s: string, lo: nat, hi: nat, min: int, max: int): (r: Option<int>)
    ensures r.Some? ==> min <= r.value <= max
  {
    if lo <= |s| <= hi && AllDigits(s) && min <= DigitsValue(s) <= max then Some(DigitsValue(s)) else None
  }

  /** `%Y`, `%m` and `%d`: four-digit year, month and day of one or two digits, then a date check. */
  function ParseDateFields(y: string, m: string, d: string): (r: Option<Date>)
    ensures r.Some? ==> ValidDate(r.value)
  {
    match (ParseField(y, 4, 4, 0, 9999), ParseField(m, 1, 2, 1, 12), ParseField(d, 1, 2, 1, 31))
    case (Some(yy), Some(mm), Some(dd)) =>
      if dd <= DaysInMonth(yy, mm) && yy >= 1 then Some(Date(yy, mm, dd)) else None
    case _ => None
  }

  /** `datetime.strptime(s, '%Y-%m-%d').date()` */
  function ParseYmd(s: string): (r: Option<Date>)
    ensures r.Some? ==> ValidDate(r.value)
  {
    var p := Split(s, '-');
    if |p| == 3 then ParseDateFields(p[0], p[1], p[2]) else None
  }

  /** `datetime.strptime(s, '%d/%m/%Y').date()` */
  function ParseDmy(s: string): (r: Option<Date>)
    ensures r.Some? ==> ValidDate(r.value)
  {
    var p := Split(s, '/');
    if |p| == 3 then ParseDateFields(p[2], p[1], p[0]) else None
  }

  /** A two-digit, zero-padded field. */
  function Pad2(n: nat): (s: string)
    requires n < 100
  {
    if n < 10 then "0" + NatToString(n) else NatToString(n)
  }

  lemma Pad2Value(n: nat)
    requires n < 100
    ensures |Pad2(n)| == 2 && AllDigits(Pad2(n)) && DigitsValue(Pad2(n)) == n
  {
    if n < 10 {
      assert Pad2(n)[..1] == "0";
    } else {
      assert NatToString(n / 10) == [DigitChar(n / 10)];
    }
  }

  /** `d.strftime('%d/%m/%Y')` */
  function FormatDmy(d: Date): string
    requires ValidDate(d) && 1000 <= d.year <= 9999
  {
    Pad2(d.day) + "/" + Pad2(d.month) + "/" + NatToString(d.year)
  }

  /** A date written with `%d/%m/%Y` reads back as the same date. */
  lemma DmyRoundTrip(d: Date)
    requires ValidDate(d) && 1000 <= d.year <= 9999
    ensures ParseDmy(FormatDmy(d)) == Some(d)
  {
    Pad2Value(d.day);
    Pad2Value(d.month);
    var ys := NatToString(d.year);
    assert |ys| == 4 by { YearDigits(d.year); }
    var parts := [Pad2(d.day), Pad2(d.month), ys];
    forall i | 0 <= i < 3 ensures '/' !in parts[i] {
      assert AllDigits(parts[i]);
    }
    assert parts[1..] == [Pad2(d.month), ys] && parts[1..][1..] == [ys];
    assert Join(parts[1..], '/') == Pad2(d.month) + "/" + ys;
    assert Join(parts, '/') == Pad2(d.day) + "/" + (Pad2(d.month) + "/" + ys);
    assert Join(parts, '/') == FormatDmy(d);
    SplitJoin(parts, '/');
  }

  lemma YearDigits(y: nat)
    requires 1000 <= y <= 9999
    ensures |NatToString(y)| == 4
  {
    var a := y / 10;
    var b := a / 10;
    assert |NatToString(b / 10)| == 1;
    assert |NatToString(b)| == 2;
    assert |NatToString(a)| == 3;
  }

  /** A numeral holds no separator. */
  lemma DigitsHaveNo(s: string, c: char)
    requires AllDigits(s) && !IsDigit(c)
    ensures c !in s
  {
  }

  /** Splitting two separator-free pieces joined by the separator gives them back. */
  lemma SplitTwo(a: string, b: string, sep: char)
    requires sep !in a && sep !in b
    ensures Split(a + [sep] + b, sep) == [a, b]
  {
    var parts := [a, b];
    assert parts[1..] == [b];
    assert Join(parts, sep) == a + [sep] + b;
    SplitJoin(parts, sep);
  }

  /** Splitting three separator-free pieces joined by the separator gives them back. */
  lemma SplitThree(a: string, b: string, c: string, sep: char)
    requires sep !in a && sep !in b && sep !in c
    ensures Split(a + [sep] + b + [sep] + c, sep) == [a, b, c]
  {
    var parts := [a, b, c];
    assert parts[1..] == [b, c] && parts[1..][1..] == [c];
    assert Join(parts[1..], sep) == b + [sep] + c;
    assert Join(parts, sep) == a + [sep] + (b + [sep] + c);
    assert a + [sep] + (b + [sep] + c) == a + [sep] + b + [sep] + c;
    SplitJoin(parts, sep);
  }

  /** `d.isoformat()`: `%Y-%m-%d` for a four-digit year. */
  function FormatYmd(d: Date): string
    requires ValidDate(d) && 1000 <= d.year <= 9999
  {
    NatToString(d.year) + "-" + Pad2(d.month) + "-" + Pad2(d.day)
  }

  /** A date written with `%Y-%m-%d` reads back as the same date. */
  lemma YmdRoundTrip(d: Date)
    requires ValidDate(d) && 1000 <= d.year <= 9999
    ensures ParseYmd(FormatYmd(d)) == Some(d)
    ensures ' ' !in FormatYmd(d)
  {
    Pad2Value(d.day);
    Pad2Value(d.month);
    var ys := NatToString(d.year);
    YearDigits(d.year);
    DigitsHaveNo(ys, '-');
    DigitsHaveNo(Pad2(d.month), '-');
    DigitsHaveNo(Pad2(d.day), '-');
    DigitsHaveNo(ys, ' ');
    DigitsHaveNo(Pad2(d.month), ' ');
    DigitsHaveNo(Pad2(d.day), ' ');
    assert FormatYmd(d) == ys + ['-'] + Pad2(d.month) + ['-'] + Pad2(d.day);
    SplitThree(ys, Pad2(d.month), Pad2(d.day), '-');
  }

  /** `str(t)` of a `datetime` without microseconds: `%Y-%m-%d %H:%M:%S`. */
  function FormatYmdHms(t: DateTime): string
    requires ValidDateTime(t) && 1000 <= t.date.year <= 9999
  {
    FormatYmd(t.date) + " " + Pad2(t.hour) + ":" + Pad2(t.minute) + ":" + Pad2(t.second)
  }

  /** A timestamp written with `%Y-%m-%d %H:%M:%S` reads back as the same date and time. */
  lemma YmdHmsRoundTrip(t: DateTime)
    requires ValidDateTime(t) && 1000 <= t.date.year <= 9999
    ensures ParseYmdHms(FormatYmdHms(t)) == Some(t)
  {
    YmdRoundTrip(t.date);
    Pad2Value(t.hour);
    Pad2Value(t.minute);
    Pad2Value(t.second);
    var ds := FormatYmd(t.date);
    var hh, mi, ss := Pad2(t.hour), Pad2(t.minute), Pad2(t.second);
    DigitsHaveNo(hh, ':');
    DigitsHaveNo(mi, ':');
    DigitsHaveNo(ss, ':');
    DigitsHaveNo(hh, ' ');
    DigitsHaveNo(mi, ' ');
    DigitsHaveNo(ss, ' ');
    var clock := hh + [':'] + mi + [':'] + ss;
    assert FormatYmdHms(t) == ds + [' '] + clock;
    SplitTwo(ds, clock, ' ');
    SplitThree(hh, mi, ss, ':');
  }

  /** `datetime.strptime(s, '%Y-%m-%d %H:%M:%S')` */
  function ParseYmdHms(s: string): (r: Option<DateTime>)
    ensures r.Some? ==> ValidDateTime(r.value)
  {
    var p := Split(s, ' ');
    if |p| != 2 then None
    else
      var t := Split(p[1], ':');
      if |t| != 3 then None
      else
        match (ParseYmd(p[0]), ParseField(t[0], 1, 2, 0, 23), ParseField(t[1], 1, 2, 0, 59), ParseField(t[2], 1, 2, 0, 59))
        case (Some(d), Some(hh), Some(mi), Some(ss)) => Some(DateTime(d, hh, mi, ss))
        case _ => None
  }

  function LowerChar(c: char): char
  {
    if 'A' <= c <= 'Z' then (c as int + 32) as char else c
  }

  /** `path.lower().endswith('.csv')` */
  predicate EndsWithCsv(path: string)
  {
    |path| >= 4 && LowerChar(path[|path| - 4]) == '.' && LowerChar(path[|path| - 3]) == 'c'
      && LowerChar(path[|path| - 2]) == 's' && LowerChar(path[|path| - 1]) == 'v'
  }
}
