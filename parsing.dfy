/**
 * The text conversions the server applies to request values: Python's
 * `int()` and `float()` on strings, `str.split` on one separator character,
 * and Django's date-field parsing of `YYYY-MM-DD` text; with the decimal
 * spellings that the pages produce, as their partners.
 */
module Parsing {
  import opened Common

  // ---------------------------------------------------------------------------
  // Decimal digits
  // ---------------------------------------------------------------------------

  predicate IsDigit(c: char) {
    '0' <= c <= '9'
  }

  predicate AllDigits(s: string) {
    forall i :: 0 <= i < |s| ==> IsDigit(s[i])
  }

  function DigitValue(c: char): (n: nat)
    requires IsDigit(c)
    ensures n < 10
  {
    c as int - '0' as int
  }

  function DigitChar(n: nat): (c: char)
    requires n < 10
    ensures IsDigit(c) && DigitValue(c) == n
  {
    ('0' as int + n) as char
  }

  /** The number a string of decimal digits denotes; leading zeros are allowed. */
  function DigitsValue(s: string): nat
    requires AllDigits(s)
  {
    if s == [] then 0 else DigitsValue(s[..|s| - 1]) * 10 + DigitValue(s[|s| - 1])
  }

  /** The shortest decimal spelling of `n` (JavaScript `String(n)` on a natural number). */
  function NatToDecimal(n: nat): (s: string)
    ensures |s| > 0 && AllDigits(s)
  {
    if n < 10 then [DigitChar(n)] else NatToDecimal(n / 10) + [DigitChar(n % 10)]
  }

  lemma {:induction false} NatToDecimalValue(n: nat)
    ensures DigitsValue(NatToDecimal(n)) == n
  {
    if n >= 10 {
      NatToDecimalValue(n / 10);
      var s := NatToDecimal(n);
      assert s[..|s| - 1] == NatToDecimal(n / 10);
    }
  }

  function Pow10(k: nat): (p: nat)
    ensures p >= 1
  {
    if k == 0 then 1 else 10 * Pow10(k - 1)
  }

  /** A number below `10^k` is spelt with at most `k` digits. */
  lemma {:induction false} NatToDecimalLength(n: nat, k: nat)
    requires 1 <= k && n < Pow10(k)
    ensures |NatToDecimal(n)| <= k
  {
    if n >= 10 {
      assert k >= 2;
      assert n / 10 < Pow10(k - 1);
      NatToDecimalLength(n / 10, k - 1);
    }
  }

  function Zeros(k: nat): (s: string)
    ensures |s| == k && AllDigits(s)
    ensures forall i :: 0 <= i < k ==> s[i] == '0'
  {
    if k == 0 then [] else Zeros(k - 1) + ['0']
  }

  lemma {:induction false} LeadingZerosValue(k: nat, d: string)
    requires AllDigits(d)
    ensures AllDigits(Zeros(k) + d)
    ensures DigitsValue(Zeros(k) + d) == DigitsValue(d)
    decreases k, |d|
  {
    var s := Zeros(k) + d;
    if d == [] {
      assert s == Zeros(k);
      if k > 0 {
        assert s[..|s| - 1] == Zeros(k - 1);
        LeadingZerosValue(k - 1, []);
        assert Zeros(k - 1) + [] == Zeros(k - 1);
      }
    } else {
      assert s[..|s| - 1] == Zeros(k) + d[..|d| - 1];
      LeadingZerosValue(k, d[..|d| - 1]);
    }
  }

  /** `String(n).padStart(width, '0')`. */
  function PadDecimal(n: nat, width: nat): (s: string)
    ensures |s| >= width && AllDigits(s)
  {
    var d := NatToDecimal(n);
    if |d| >= width then d else Zeros(width - |d|) + d
  }

  lemma {:induction false} PadDecimalValue(n: nat, width: nat)
    ensures DigitsValue(PadDecimal(n, width)) == n
  {
    var d := NatToDecimal(n);
    var padded := PadDecimal(n, width);
    assert DigitsValue(d) == n by { NatToDecimalValue(n); }
    if |d| < width {
      assert padded == Zeros(width - |d|) + d;
      assert DigitsValue(Zeros(width - |d|) + d) == DigitsValue(d) by { LeadingZerosValue(width - |d|, d); }
    } else {
      assert padded == d;
    }
  }

  /** Padding is exact when the number has at most `width` digits. */
  lemma PadDecimalLength(n: nat, width: nat)
    requires 1 <= width && n < Pow10(width)
    ensures |PadDecimal(n, width)| == width
  {
    NatToDecimalLength(n, width);
  }

  // ---------------------------------------------------------------------------
  // Whitespace and separators
  // ---------------------------------------------------------------------------

  /**
   * The whitespace `int()` and `float()` skip around a number: the ASCII
   * spaces of C's `isspace` (tab to carriage return, and space) and the
   * Unicode whitespace above U+007F, which CPython turns into spaces first.
   * The separators U+001C to U+001F, which `str.strip()` also removes, are
   * not skipped: they make the conversion fail.
   */
  predicate IsSpace(c: char) {
    || c == ' ' || '\t' <= c <= '\r'
    || c == '\U{0085}' || c == '\U{00A0}' || c == '\U{1680}' || '\U{2000}' <= c <= '\U{200A}'
    || c == '\U{2028}' || c == '\U{2029}' || c == '\U{202F}' || c == '\U{205F}' || c == '\U{3000}'
  }

  function TrimLeft(s: string): (r: string)
    ensures |r| <= |s| && r == s[|s| - |r|..]
    ensures r != [] ==> !IsSpace(r[0])
  {
    if s != [] && IsSpace(s[0]) then TrimLeft(s[1..]) else s
  }

  function TrimRight(s: string): (r: string)
    ensures |r| <= |s| && r == s[..|r|]
    ensures r != [] ==> !IsSpace(r[|r| - 1])
  {
    if s != [] && IsSpace(s[|s| - 1]) then TrimRight(s[..|s| - 1]) else s
  }

  /** The text between the leading and the trailing whitespace, as `int()` and `float()` strip it. */
  function Strip(s: string): (r: string)
    ensures |r| <= |s|
    ensures r != [] ==> !IsSpace(r[0]) && !IsSpace(r[|r| - 1])
  {
    TrimRight(TrimLeft(s))
  }

  /** Stripping only removes characters: every character of the result is one of the text's. */
  lemma StripKeepsCharacters(s: string)
    ensures forall i :: 0 <= i < |Strip(s)| ==> Strip(s)[i] in s
  {
    var l := TrimLeft(s);
    var r := TrimRight(l);
    forall i | 0 <= i < |r| ensures r[i] in s {
      assert r[i] == l[i] == s[|s| - |l| + i];
    }
  }

  lemma StripUnspaced(s: string)
    requires s != [] && !IsSpace(s[0]) && !IsSpace(s[|s| - 1])
    ensures Strip(s) == s
  {
  }

  /** The position of the first `c` in `s`, if any. */
  function IndexOf(s: string, c: char): (r: Option<nat>)
    ensures r.Some? ==> r.value < |s| && s[r.value] == c && c !in s[..r.value]
    ensures r.None? ==> c !in s
  {
    if s == [] then None
    else if s[0] == c then Some(0)
    else match IndexOf(s[1..], c)
      case None => None
      case Some(i) => Some(i + 1)
  }

  /** `s.split(sep)`: the pieces between the separators, empty pieces included. */
  function SplitOn(s: string, sep: char): (parts: seq<string>)
    ensures |parts| >= 1
    ensures forall i :: 0 <= i < |parts| ==> sep !in parts[i]
    decreases |s|
  {
    match IndexOf(s, sep)
    case None => [s]
    case Some(i) => [s[..i]] + SplitOn(s[i + 1..], sep)
  }

  /** `sep.join(parts)`. */
  function Join(parts: seq<string>, sep: char): string
    requires |parts| >= 1
  {
    if |parts| == 1 then parts[0] else parts[0] + [sep] + Join(parts[1..], sep)
  }

  /** Splitting and joining back give the original text. */
  lemma {:induction false} JoinSplit(s: string, sep: char)
    ensures Join(SplitOn(s, sep), sep) == s
    decreases |s|
  {
    match IndexOf(s, sep)
    case None =>
    case Some(i) =>
      var rest := SplitOn(s[i + 1..], sep);
      assert SplitOn(s, sep) == [s[..i]] + rest;
      JoinSplit(s[i + 1..], sep);
      JoinCons(s[..i], rest, sep);
      assert s == s[..i] + [sep] + s[i + 1..];
  }

  lemma JoinCons(x: string, rest: seq<string>, sep: char)
    requires |rest| >= 1
    ensures Join([x] + rest, sep) == x + [sep] + Join(rest, sep)
  {
    assert ([x] + rest)[1..] == rest;
  }

  /** Joining pieces free of the separator and splitting again gives the pieces back. */
  lemma {:induction false} SplitJoin(parts: seq<string>, sep: char)
    requires |parts| >= 1
    requires forall i :: 0 <= i < |parts| ==> sep !in parts[i]
    ensures SplitOn(Join(parts, sep), sep) == parts
  {
    if |parts| > 1 {
      var rest := Join(parts[1..], sep);
      var s := parts[0] + [sep] + rest;
      assert IndexOf(s, sep) == Some(|parts[0]|) by {
        IndexOfAfter(parts[0], sep, rest);
      }
      assert s[..|parts[0]|] == parts[0];
      assert s[|parts[0]| + 1..] == rest;
      SplitJoin(parts[1..], sep);
    }
  }

  lemma {:induction false} IndexOfAfter(a: string, c: char, b: string)
    requires c !in a
    ensures IndexOf(a + [c] + b, c) == Some(|a|)
  {
    if a == [] {
      assert (a + [c] + b)[0] == c;
    } else {
      assert (a + [c] + b)[1..] == a[1..] + [c] + b;
      IndexOfAfter(a[1..], c, b);
    }
  }

  // ---------------------------------------------------------------------------
  // Python int() and float()
  // ---------------------------------------------------------------------------

  /** Digits that single underscores may separate, as Python's number grammar allows. */
  predicate DigitPart(s: string) {
    && |s| > 0 && IsDigit(s[0]) && IsDigit(s[|s| - 1])
    && (forall i :: 0 <= i < |s| ==> IsDigit(s[i]) || s[i] == '_')
    && (forall i :: 0 <= i < |s| - 1 && s[i] == '_' ==> s[i + 1] != '_')
  }

  /** The digits of a digit part, with the separating underscores removed. */
  function DropUnderscores(s: string): (r: string)
    requires forall i :: 0 <= i < |s| ==> IsDigit(s[i]) || s[i] == '_'
    ensures AllDigits(r) && |r| <= |s|
  {
    if s == [] then []
    else
      assert forall i :: 0 <= i < |s[1..]| ==> IsDigit(s[1..][i]) || s[1..][i] == '_' by {
        forall i | 0 <= i < |s[1..]| ensures IsDigit(s[1..][i]) || s[1..][i] == '_' {
          assert s[1..][i] == s[i + 1];
        }
      }
      (if s[0] == '_' then [] else [s[0]]) + DropUnderscores(s[1..])
  }

  function PartValue(s: string): nat
    requires DigitPart(s)
  {
    DigitsValue(DropUnderscores(s))
  }

  lemma {:induction false} DigitsArePart(s: string)
    requires |s| > 0 && AllDigits(s)
    ensures DigitPart(s) && PartValue(s) == DigitsValue(s)
  {
    NoUnderscoresToDrop(s);
  }

  lemma {:induction false} NoUnderscoresToDrop(s: string)
    requires AllDigits(s)
    ensures DropUnderscores(s) == s
  {
    if s != [] {
      assert AllDigits(s[1..]) by {
        forall i | 0 <= i < |s[1..]| ensures IsDigit(s[1..][i]) { assert s[1..][i] == s[i + 1]; }
      }
      NoUnderscoresToDrop(s[1..]);
      assert s == [s[0]] + s[1..];
    }
  }

  /** The optional leading sign of already stripped text: whether it is a minus, and the rest. */
  function SplitSign(t: string): (r: (bool, string))
    ensures r.0 ==> |t| > 0 && t[0] == '-'
    ensures |r.1| <= |t| && r.1 == t[|t| - |r.1|..]
  {
    if |t| > 0 && (t[0] == '+' || t[0] == '-') then (t[0] == '-', t[1..])
    else (false, t)
  }

  function Signed(negative: bool, v: int): int {
    if negative then -v else v
  }

  function SignedReal(negative: bool, v: real): real {
    if negative then -v else v
  }

  /** `int(text)` with base 10: `None` where Python raises `ValueError`. */
  function PyInt(text: string): Option<int> {
    var sb := SplitSign(Strip(text));
    if DigitPart(sb.1) then Some(Signed(sb.0, PartValue(sb.1))) else None
  }

  /** Whitespace on both sides of a number is skipped, including Unicode spaces such as U+3000. */
  lemma IntSkipsSpaces(c: char, d: char, t: string)
    requires IsSpace(c) && IsSpace(d) && |t| > 0 && AllDigits(t)
    ensures PyInt([c] + t + [d]) == Some(DigitsValue(t))
    ensures IsSpace('\U{3000}') && IsSpace('\U{00A0}') && IsSpace('\U{0085}')
  {
    assert IsDigit(t[0]) && IsDigit(t[|t| - 1]);
    StripSurrounded(c, t, d);
    StripUnspaced(t);
    ParseDigitsText(t);
  }

  /** One space on each side of unspaced text is stripped. */
  lemma StripSurrounded(c: char, t: string, d: char)
    requires IsSpace(c) && IsSpace(d) && t != [] && !IsSpace(t[0]) && !IsSpace(t[|t| - 1])
    ensures Strip([c] + t + [d]) == t
  {
    var s := [c] + t + [d];
    assert s[1..] == t + [d];
    assert (t + [d])[0] == t[0];
    assert TrimLeft(s) == t + [d];
    assert (t + [d])[..|t|] == t;
    assert TrimRight(t) == t;
  }

  /** An information separator is not whitespace to `int()`: the conversion fails. */
  lemma IntRefusesSeparator()
    ensures PyInt("\U{001C}5") == None
  {
    var c := "\U{001C}5";
    assert TrimLeft(c) == c && TrimRight(c) == c;
    assert !DigitPart(SplitSign(c).1);
  }

  /** The exponent of a float literal: `e`/`E`, an optional sign, digits. */
  function ExponentValue(e: string): Option<int> {
    var sb := SplitSign(e);
    if DigitPart(sb.1) then Some(Signed(sb.0, PartValue(sb.1))) else None
  }

  /** `x * 10^k`. */
  function TimesPow10(x: real, k: nat): real {
    if k == 0 then x else TimesPow10(x, k - 1) * 10.0
  }

  /** `x / 10^k`. */
  function DivPow10(x: real, k: nat): real {
    if k == 0 then x else DivPow10(x, k - 1) / 10.0
  }

  function Scale(x: real, e: int): real {
    if e >= 0 then TimesPow10(x, e) else DivPow10(x, -e)
  }

  /** A float literal without sign or exponent: `d`, `d.`, `d.d` or `.d`. */
  function MantissaValue(m: string): Option<real> {
    match IndexOf(m, '.')
    case None => if DigitPart(m) then Some(PartValue(m) as real) else None
    case Some(i) =>
      var whole := m[..i];
      var frac := m[i + 1..];
      if (whole == [] || DigitPart(whole)) && (frac == [] || DigitPart(frac)) && (whole != [] || frac != []) then
        var w := if whole == [] then 0 else PartValue(whole);
        var f := if frac == [] then 0.0 else DivPow10(PartValue(frac) as real, |DropUnderscores(frac)|);
        Some(w as real + f)
      else None
  }

  function IndexOfExponent(s: string): (r: Option<nat>)
    ensures r.Some? ==> r.value < |s| && (s[r.value] == 'e' || s[r.value] == 'E')
    ensures r.None? ==> 'e' !in s && 'E' !in s
  {
    if s == [] then None
    else if s[0] == 'e' || s[0] == 'E' then Some(0)
    else match IndexOfExponent(s[1..])
      case None => None
      case Some(i) => Some(i + 1)
  }

  /**
   * `float(text)` for finite decimal literals: `None` where Python raises
   * `ValueError`. The spellings of infinity and NaN are not represented.
   */
  function PyFloat(text: string): Option<real> {
    var sb := SplitSign(Strip(text));
    var u := UnsignedFloat(sb.1);
    if u.Some? then Some(SignedReal(sb.0, u.value)) else None
  }

  /** A float literal after its sign: a mantissa, optionally followed by an exponent. */
  function UnsignedFloat(body: string): Option<real> {
    match IndexOfExponent(body)
    case None => MantissaValue(body)
    case Some(i) =>
      var v, e := MantissaValue(body[..i]), ExponentValue(body[i + 1..]);
      if v.Some? && e.Some? then Some(Scale(v.value, e.value)) else None
  }

  /** `float()` accepts every string `int()` accepts, with the same value. */
  lemma PyFloatExtendsPyInt(text: string, n: int)
    requires PyInt(text) == Some(n)
    ensures PyFloat(text) == Some(n as real)
  {
    UnsignedFloatOfDigitPart(SplitSign(Strip(text)).1);
  }

  /** A digit part contains neither a decimal point nor an exponent marker. */
  lemma DigitPartHasNoMarks(s: string)
    requires DigitPart(s)
    ensures IndexOfExponent(s) == None && IndexOf(s, '.') == None
  {
    assert 'e' !in s && 'E' !in s && '.' !in s by {
      forall i | 0 <= i < |s| ensures s[i] != 'e' && s[i] != 'E' && s[i] != '.' {
        assert IsDigit(s[i]) || s[i] == '_';
      }
    }
  }

  lemma UnsignedFloatOfDigitPart(s: string)
    requires DigitPart(s)
    ensures UnsignedFloat(s) == Some(PartValue(s) as real)
  {
    DigitPartHasNoMarks(s);
  }

  /** Text with no minus sign never converts to a negative number. */
  lemma PyIntNoMinus(text: string, n: int)
    requires '-' !in text && PyInt(text) == Some(n)
    ensures n >= 0
  {
    var t := Strip(text);
    StripKeepsCharacters(text);
    if |t| > 0 {
      assert t[0] in text;
    }
  }

  lemma {:induction false} ParseDigitsText(s: string)
    requires |s| > 0 && AllDigits(s)
    ensures PyInt(s) == Some(DigitsValue(s))
  {
    DigitsArePart(s);
    assert IsDigit(s[0]) && IsDigit(s[|s| - 1]);
    StripUnspaced(s);
    assert SplitSign(s) == (false, s);
  }

  /** The decimal spelling of an integer converts back to that integer. */
  lemma {:induction false} PyIntOfDecimal(n: int)
    ensures n >= 0 ==> PyInt(NatToDecimal(n)) == Some(n)
    ensures n < 0 ==> PyInt("-" + NatToDecimal(-n)) == Some(n)
  {
    if n >= 0 {
      var d := NatToDecimal(n);
      NatToDecimalValue(n);
      ParseDigitsText(d);
    } else {
      var d := NatToDecimal(-n);
      NatToDecimalValue(-n);
      DigitsArePart(d);
      var s := "-" + d;
      assert IsDigit(s[|s| - 1]);
      StripUnspaced(s);
      assert s[1..] == d;
      assert SplitSign(s) == (true, d);
    }
  }

  // ---------------------------------------------------------------------------
  // Month and date strings
  // ---------------------------------------------------------------------------

  /**
   * `year, month = map(int, text.split('-'))`: exactly two pieces, each
   * accepted by `int()`; the month is not range-checked.
   */
  function ParseYearMonth(text: string): (r: Option<(int, int)>)
    ensures r.Some? ==> r.value.0 >= 0 && r.value.1 >= 0
  {
    var parts := SplitOn(text, '-');
    if |parts| != 2 then None
    else match (PyInt(parts[0]), PyInt(parts[1]))
      case (Some(y), Some(m)) =>
        PyIntNoMinus(parts[0], y);
        PyIntNoMinus(parts[1], m);
        Some((y, m))
      case _ => None
  }

  /** The `YYYY-MM` value of a month input. */
  function FormatYearMonth(y: nat, m: nat): string {
    PadDecimal(y, 4) + "-" + PadDecimal(m, 2)
  }

  /** Digit strings never contain the `-` separator. */
  lemma DigitsHaveNoDash(s: string)
    requires AllDigits(s)
    ensures '-' !in s
  {
    forall i | 0 <= i < |s| ensures s[i] != '-' { assert IsDigit(s[i]); }
  }

  lemma ParseYearMonthRoundTrip(y: nat, m: nat)
    ensures ParseYearMonth(FormatYearMonth(y, m)) == Some((y, m))
  {
    var a, b := PadDecimal(y, 4), PadDecimal(m, 2);
    assert SplitOn(FormatYearMonth(y, m), '-') == [a, b] by {
      DigitsHaveNoDash(a);
      DigitsHaveNoDash(b);
      assert FormatYearMonth(y, m) == Join([a, b], '-');
      SplitJoin([a, b], '-');
    }
    assert PyInt(a) == Some(y as int) by {
      ParseDigitsText(a);
      PadDecimalValue(y, 4);
    }
    assert PyInt(b) == Some(m as int) by {
      ParseDigitsText(b);
      PadDecimalValue(m, 2);
    }
    ParseYearMonthOfParts(FormatYearMonth(y, m), a, b, y, m);
  }

  lemma ParseYearMonthOfParts(text: string, a: string, b: string, y: int, m: int)
    requires SplitOn(text, '-') == [a, b] && PyInt(a) == Some(y) && PyInt(b) == Some(m)
    ensures ParseYearMonth(text) == Some((y, m))
  {
  }

  /** Drops one final line feed, where the pattern's `$` may also match. */
  function DropFinalNewline(s: string): string {
    if |s| > 0 && s[|s| - 1] == '\n' then s[..|s| - 1] else s
  }

  /**
   * A date field's parsing of text: the pattern `\d{4}-\d{1,2}-\d{1,2}$` and
   * then the calendar check of `datetime.date`; `None` is the "invalid date"
   * validation error.
   */
  function ParseIsoDate(s: string): (r: Option<Date>)
    ensures r.Some? ==> ValidDate(r.value) && 1 <= r.value.year <= 9999
  {
    var parts := SplitOn(DropFinalNewline(s), '-');
    if |parts| == 3 && |parts[0]| == 4 && 1 <= |parts[1]| <= 2 && 1 <= |parts[2]| <= 2
       && AllDigits(parts[0]) && AllDigits(parts[1]) && AllDigits(parts[2]) then
      var y, m, d := DigitsValue(parts[0]), DigitsValue(parts[1]), DigitsValue(parts[2]);
      FourDigitsBound(parts[0]);
      if 1 <= y && 1 <= m <= 12 && 1 <= d <= DaysInMonth(y, m) then Some(Date(y, m, d)) else None
    else None
  }

  lemma {:induction false} FourDigitsBound(s: string)
    requires AllDigits(s)
    ensures DigitsValue(s) < Pow10(|s|)
  {
    if s != [] {
      FourDigitsBound(s[..|s| - 1]);
    }
  }

  /** `YYYY-MM-DD`, the text a date field serialises to and `toISOString().split('T')[0]` gives. */
  function FormatIsoDate(d: Date): string
    requires d.year >= 0 && d.month >= 0 && d.day >= 0
  {
    PadDecimal(d.year, 4) + "-" + PadDecimal(d.month, 2) + "-" + PadDecimal(d.day, 2)
  }

  lemma ParseIsoDateRoundTrip(d: Date)
    requires ValidDate(d) && 1 <= d.year <= 9999
    ensures ParseIsoDate(FormatIsoDate(d)) == Some(d)
  {
    var a, b, c := PadDecimal(d.year, 4), PadDecimal(d.month, 2), PadDecimal(d.day, 2);
    assert |a| == 4 && |b| == 2 && |c| == 2 by {
      PadDecimalLength(d.year, 4);
      PadDecimalLength(d.month, 2);
      PadDecimalLength(d.day, 2);
    }
    assert DigitsValue(a) == d.year && DigitsValue(b) == d.month && DigitsValue(c) == d.day by {
      PadDecimalValue(d.year, 4);
      PadDecimalValue(d.month, 2);
      PadDecimalValue(d.day, 2);
    }
    DashedParts(a, b, c);
    ParseIsoDateOfParts(FormatIsoDate(d), a, b, c, d);
  }

  /** Three digit strings joined by dashes split back into those three, with no final line feed. */
  lemma DashedParts(a: string, b: string, c: string)
    requires AllDigits(a) && AllDigits(b) && AllDigits(c) && c != []
    ensures DropFinalNewline(a + "-" + b + "-" + c) == a + "-" + b + "-" + c
    ensures SplitOn(a + "-" + b + "-" + c, '-') == [a, b, c]
  {
    DashedEnd(a + "-" + b + "-", c);
    DigitsHaveNoDash(a);
    DigitsHaveNoDash(b);
    DigitsHaveNoDash(c);
    JoinThree(a, b, c);
    SplitJoin([a, b, c], '-');
  }

  lemma DashedEnd(prefix: string, c: string)
    requires AllDigits(c) && c != []
    ensures DropFinalNewline(prefix + c) == prefix + c
  {
    var s := prefix + c;
    assert s[|s| - 1] == c[|c| - 1];
    assert IsDigit(c[|c| - 1]);
  }

  lemma JoinThree(a: string, b: string, c: string)
    ensures Join([a, b, c], '-') == a + "-" + b + "-" + c
  {
    assert [a, b, c][1..] == [b, c] && [b, c][1..] == [c];
    assert Join([b, c], '-') == b + "-" + c;
    assert Join([a, b, c], '-') == a + "-" + Join([b, c], '-');
  }

  lemma ParseIsoDateOfParts(s: string, a: string, b: string, c: string, d: Date)
    requires DropFinalNewline(s) == s && SplitOn(s, '-') == [a, b, c]
    requires |a| == 4 && |b| == 2 && |c| == 2 && AllDigits(a) && AllDigits(b) && AllDigits(c)
    requires DigitsValue(a) == d.year && DigitsValue(b) == d.month && DigitsValue(c) == d.day
    requires ValidDate(d) && 1 <= d.year
    ensures ParseIsoDate(s) == Some(d)
  {
  }

  /** Distinct real dates have distinct `YYYY-MM-DD` spellings. */
  lemma FormatIsoDateInjective(d1: Date, d2: Date)
    requires ValidDate(d1) && 1 <= d1.year <= 9999
    requires ValidDate(d2) && 1 <= d2.year <= 9999
    ensures FormatIsoDate(d1) == FormatIsoDate(d2) <==> d1 == d2
  {
    ParseIsoDateRoundTrip(d1);
    ParseIsoDateRoundTrip(d2);
  }
}
