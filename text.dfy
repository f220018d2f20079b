/** Text handling shared by the catalog, the ledger and the reports: the
    whitespace that Python's str.strip() and str.split() remove, and the
    decimal numerals that the two CSV files hold. */
module Text {
  import opened Wrappers

  /** One CSV row: the fields a CSV reader yields for one line (a blank line
      yields no fields at all). */
  type Row = seq<string>

  /** A CSV file as the program sees it: absent, or present with its rows,
      the header row included. */
  datatype CsvFile = Missing | Present(rows: seq<Row>)

  /** The characters for which Python's str.isspace() holds. */
  predicate IsSpace(c: char) {
    var n := c as int;
    (9 <= n <= 13) || (28 <= n <= 32) || n == 0x85 || n == 0xA0 || n == 0x1680
    || (0x2000 <= n <= 0x200A) || n == 0x2028 || n == 0x2029 || n == 0x202F
    || n == 0x205F || n == 0x3000
  }

  predicate AllSpace(s: string) {
    forall i :: 0 <= i < |s| ==> IsSpace(s[i])
  }

  /** The index of the first character at or after i that is not whitespace
      (|s| when there is none). */
  function LeadEnd(s: string, i: nat): (r: nat)
    requires i <= |s|
    ensures i <= r <= |s|
    ensures forall k :: i <= k < r ==> IsSpace(s[k])
    ensures r == |s| || !IsSpace(s[r])
    decreases |s| - i
  {
    if i < |s| && IsSpace(s[i]) then LeadEnd(s, i + 1) else i
  }

  /** The index just past the last character before j that is not
      whitespace (0 when there is none). */
  function TrailStart(s: string, j: nat): (r: nat)
    requires j <= |s|
    ensures r <= j
    ensures forall k :: r <= k < j ==> IsSpace(s[k])
    ensures r == 0 || !IsSpace(s[r - 1])
  {
    if j > 0 && IsSpace(s[j - 1]) then TrailStart(s, j - 1) else j
  }

  /** The index of the first whitespace character at or after i (|s| when
      there is none). */
  function WordEnd(s: string, i: nat): (r: nat)
    requires i <= |s|
    ensures i <= r <= |s|
    ensures forall k :: i <= k < r ==> !IsSpace(s[k])
    ensures r == |s| || IsSpace(s[r])
    decreases |s| - i
  {
    if i < |s| && !IsSpace(s[i]) then WordEnd(s, i + 1) else i
  }

  /** Python's s.strip(): s without its leading and trailing whitespace. */
  function Strip(s: string): (r: string)
    ensures |r| <= |s|
    ensures r == [] <==> AllSpace(s)
    ensures r == [] || (!IsSpace(r[0]) && !IsSpace(r[|r| - 1]))
    ensures exists i, j ::
      0 <= i <= j <= |s| && r == s[i..j] && AllSpace(s[..i]) && AllSpace(s[j..])
  {
    var a := LeadEnd(s, 0);
    if a == |s| then
      assert s[|s|..] == [] && s[..|s|] == s;
      []
    else
      var b := TrailStart(s, |s|);
      assert a < b;
      s[a..b]
  }

  /** Stripping text that neither starts nor ends with whitespace changes nothing. */
  lemma StripUnchanged(s: string)
    requires s == [] || (!IsSpace(s[0]) && !IsSpace(s[|s| - 1]))
    ensures Strip(s) == s
  {
    if s != [] {
      assert LeadEnd(s, 0) == 0 && TrailStart(s, |s|) == |s|;
      assert s[0..|s|] == s;
    }
  }

  /** Python's s.split()[0]: the first whitespace-delimited word, if any. It
      starts after the leading whitespace and ends at the next whitespace or
      at the end of s. */
  function FirstWord(s: string): (r: Option<string>)
    ensures r.Some? <==> !AllSpace(s)
    ensures r.Some? ==> r.value != [] && !exists i :: 0 <= i < |r.value| && IsSpace(r.value[i])
    ensures r.Some? ==>
      exists i :: 0 <= i && i + |r.value| <= |s| && AllSpace(s[..i])
        && s[i..i + |r.value|] == r.value
        && (i + |r.value| == |s| || IsSpace(s[i + |r.value|]))
  {
    var a := LeadEnd(s, 0);
    if a == |s| then None else
      var b := WordEnd(s, a);
      assert a < b && a + |s[a..b]| == b;
      assert AllSpace(s[..a]);
      Some(s[a..b])
  }

  /** A word followed by nothing or by whitespace is the first word of the text. */
  lemma FirstWordOf(w: string, rest: string)
    requires w != [] && forall i :: 0 <= i < |w| ==> !IsSpace(w[i])
    requires rest == [] || IsSpace(rest[0])
    ensures FirstWord(w + rest) == Some(w)
  {
    var s := w + rest;
    assert LeadEnd(s, 0) == 0;
    var b := WordEnd(s, 0);
    assert forall k :: 0 <= k < |w| ==> s[k] == w[k];
    assert |w| < |s| ==> s[|w|] == rest[0];
    assert b == |w|;
    assert s[0..b] == w;
  }

  /** Splits s at the first occurrence of sep. */
  function Cut(s: string, sep: char): (r: Option<(string, string)>)
    ensures r.None? <==> sep !in s
    ensures r.Some? ==> s == r.value.0 + [sep] + r.value.1 && sep !in r.value.0
  {
    if s == [] then None
    else if s[0] == sep then Some(([], s[1..]))
    else match Cut(s[1..], sep)
      case None => None
      case Some(parts) => Some(([s[0]] + parts.0, parts.1))
  }

  /** A text that contains sep splits at its first occurrence. */
  lemma {:induction false} CutAtFirst(a: string, sep: char, b: string)
    requires sep !in a
    ensures Cut(a + [sep] + b, sep) == Some((a, b))
  {
    if a != [] {
      var s := a + [sep] + b;
      assert s[0] == a[0] != sep;
      assert s[1..] == a[1..] + [sep] + b;
      CutAtFirst(a[1..], sep, b);
      assert [a[0]] + a[1..] == a;
    } else {
      assert (a + [sep] + b)[1..] == b;
    }
  }

  predicate IsDigit(c: char) {
    '0' <= c <= '9'
  }

  predicate AllDigits(s: string) {
    forall i :: 0 <= i < |s| ==> IsDigit(s[i])
  }

  /** The value of a string of decimal digits, most significant first. */
  function DigitsValue(s: string): nat
    requires AllDigits(s)
  {
    if s == [] then 0 else 10 * DigitsValue(s[..|s| - 1]) + (s[|s| - 1] as int - '0' as int)
  }

  function Digit(d: nat): (c: char)
    requires d < 10
    ensures IsDigit(c) && c as int - '0' as int == d
  {
    ('0' as int + d) as char
  }

  /** Python's str() of a non-negative int. */
  function FormatNat(n: nat): (r: string)
    ensures r != [] && AllDigits(r)
  {
    if n < 10 then [Digit(n)] else FormatNat(n / 10) + [Digit(n % 10)]
  }

  /** Python's str() of an int. */
  function FormatInt(i: int): (r: string)
    ensures r != [] && !IsSpace(r[0]) && !IsSpace(r[|r| - 1])
  {
    if i < 0 then "-" + FormatNat(-i) else FormatNat(i)
  }

  /** Python's int(s): optional surrounding whitespace, an optional sign, and
      at least one decimal digit. */
  function ParseInt(s: string): (r: Option<int>)
    ensures r.Some? ==> !AllSpace(s)
  {
    var t := Strip(s);
    if |t| >= 2 && (t[0] == '-' || t[0] == '+') && AllDigits(t[1..]) then
      var v: int := DigitsValue(t[1..]);
      Some(if t[0] == '-' then -v else v)
    else if t != [] && AllDigits(t) then Some(DigitsValue(t))
    else None
  }

  /** Python's float(s) for a price written with at most two decimals, in
      cents: optional surrounding whitespace, an optional sign, digits, and an
      optional point followed by at most two digits (at least one digit in all). */
  function ParseCents(s: string): (r: Option<int>)
    ensures r.Some? ==> !AllSpace(s)
  {
    ParseSignedCents(Strip(s))
  }

  function ParseSignedCents(t: string): (r: Option<int>)
    ensures r.Some? ==> t != []
  {
    if t != [] && (t[0] == '-' || t[0] == '+') then
      match ParseUnsignedCents(t[1..])
      case None => None
      case Some(v) => var i: int := v; Some(if t[0] == '-' then -i else i)
    else ParseUnsignedCents(t)
  }

  function ParseUnsignedCents(t: string): Option<nat> {
    match Cut(t, '.')
    case None =>
      if t != [] && AllDigits(t) then Some(100 * DigitsValue(t)) else None
    case Some(parts) =>
      var (whole, frac) := parts;
      if AllDigits(whole) && AllDigits(frac) && |whole| + |frac| >= 1 && |frac| <= 2 then
        Some(100 * DigitsValue(whole) + (if |frac| == 1 then 10 * DigitsValue(frac) else DigitsValue(frac)))
      else None
  }

  /** A price in cents written with a point and exactly two decimals. */
  function FormatCents(c: int): (r: string)
    ensures r != [] && !IsSpace(r[0]) && !IsSpace(r[|r| - 1])
  {
    if c < 0 then "-" + UnsignedCentsText(-c) else UnsignedCentsText(c)
  }

  function UnsignedCentsText(a: nat): (r: string)
    ensures r != [] && IsDigit(r[0]) && IsDigit(r[|r| - 1])
  {
    var x := a % 100;
    FormatNat(a / 100) + "." + [Digit(x / 10), Digit(x % 10)]
  }

  lemma {:induction false} FormatNatValue(n: nat)
    ensures DigitsValue(FormatNat(n)) == n
  {
    if n >= 10 {
      var s := FormatNat(n);
      assert s[..|s| - 1] == FormatNat(n / 10);
      FormatNatValue(n / 10);
    }
  }

  /** int() of a plain string of digits is its value. */
  lemma ParseIntOfDigits(d: string)
    requires d != [] && AllDigits(d)
    ensures ParseInt(d) == Some(DigitsValue(d))
  {
    assert IsDigit(d[0]) && IsDigit(d[|d| - 1]);
    StripUnchanged(d);
  }

  /** int() of a minus sign followed by digits is the negated value. */
  lemma ParseIntMinus(d: string)
    requires d != [] && AllDigits(d)
    ensures ParseInt("-" + d) == Some(-(DigitsValue(d) as int))
  {
    var t := "-" + d;
    assert t[1..] == d && t[|t| - 1] == d[|d| - 1];
    StripUnchanged(t);
  }

  /** int(str(i)) == i. */
  lemma ParseFormatInt(i: int)
    ensures ParseInt(FormatInt(i)) == Some(i)
  {
    if i < 0 {
      var d := FormatNat(-i);
      FormatNatValue(-i);
      ParseIntMinus(d);
      assert FormatInt(i) == "-" + d;
    } else {
      var d := FormatNat(i);
      FormatNatValue(i);
      ParseIntOfDigits(d);
      assert FormatInt(i) == d;
    }
  }

  lemma TwoDigitsValue(x: nat)
    requires x < 100
    ensures DigitsValue([Digit(x / 10), Digit(x % 10)]) == x
  {
    var frac := [Digit(x / 10), Digit(x % 10)];
    assert frac[..1] == [Digit(x / 10)] && frac[..1][..0] == [];
    assert DigitsValue(frac[..1]) == x / 10;
  }

  lemma ParseUnsignedCentsText(a: nat)
    ensures ParseUnsignedCents(UnsignedCentsText(a)) == Some(a)
  {
    var x := a % 100;
    var whole := FormatNat(a / 100);
    var frac := [Digit(x / 10), Digit(x % 10)];
    assert UnsignedCentsText(a) == whole + ['.'] + frac;
    assert '.' !in whole by {
      assert forall i :: 0 <= i < |whole| ==> IsDigit(whole[i]);
    }
    CutAtFirst(whole, '.', frac);
    assert AllDigits(whole) && AllDigits(frac) && |frac| == 2;
    FormatNatValue(a / 100);
    TwoDigitsValue(x);
    assert 100 * (a / 100) + x == a;
  }

  lemma ParseSignedCentsText(a: nat, s: string)
    requires s == ['-'] + UnsignedCentsText(a)
    ensures ParseCents(s) == Some(-(a as int))
  {
    assert s[1..] == UnsignedCentsText(a);
    ParseUnsignedCentsText(a);
    assert ParseSignedCents(s) == Some(-(a as int));
    StripUnchanged(s);
  }

  /** Reading back a price written by FormatCents gives the same number of cents. */
  lemma ParseFormatCents(c: int)
    ensures ParseCents(FormatCents(c)) == Some(c)
  {
    if c < 0 {
      ParseSignedCentsText(-c, FormatCents(c));
    } else {
      StripUnchanged(FormatCents(c));
      ParseUnsignedCentsText(c);
    }
  }
}
