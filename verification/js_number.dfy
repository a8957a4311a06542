/**
  JavaScript's global `parseFloat`, which the framework's `min` and `max`
  validators apply to a control's value. The function skips leading white
  space, then reads the longest prefix that is a decimal literal: an
  optional sign, then `Infinity` or digits with an optional fraction and an
  optional exponent. When no such prefix exists the result is `NaN`.
  Results are exact reals. IEEE-754 rounding, overflow to `Infinity` and
  underflow to zero are not modelled.
 */
module JsNumber {
  import opened Text

  /** What `parseFloat` can return. */
  datatype Parsed = NaN | Finite(value: real) | Infinite(positive: bool)

  /** The white-space and line-terminator characters the parse skips at the start. */
  predicate IsJsSpace(c: char)
  {
    || c == '\t' || c == '\n' || c == '\r' || c == ' '
    || c == '\U{000B}' || c == '\U{000C}' || c == '\U{00A0}' || c == '\U{FEFF}'
    || c == '\U{1680}' || ('\U{2000}' <= c <= '\U{200A}')
    || c == '\U{2028}' || c == '\U{2029}' || c == '\U{202F}' || c == '\U{205F}' || c == '\U{3000}'
  }

  /** `s` without its leading white space. */
  function SkipSpace(s: string): (r: string)
    ensures |r| <= |s| && r == s[|s| - |r|..]
    ensures r == "" || !IsJsSpace(r[0])
    ensures forall i :: 0 <= i < |s| - |r| ==> IsJsSpace(s[i])
  {
    if |s| > 0 && IsJsSpace(s[0]) then
      var r := SkipSpace(s[1..]);
      assert forall i :: 1 <= i < |s| - |r| ==> s[i] == s[1..][i - 1];
      r
    else s
  }

  /** The length of the run of decimal digits `s` starts with. */
  function DigitRun(s: string): (n: nat)
    ensures n <= |s|
    ensures forall i :: 0 <= i < n ==> IsDigit(s[i])
    ensures n == |s| || !IsDigit(s[n])
  {
    if |s| > 0 && IsDigit(s[0]) then 1 + DigitRun(s[1..]) else 0
  }

  function Pow10(k: nat): (r: nat)
    ensures r >= 1
  {
    if k == 0 then 1 else 10 * Pow10(k - 1)
  }

  /** 10 to the power `-k`, by repeated division by ten. */
  function TenthPower(k: nat): (r: real)
    ensures 0.0 < r <= 1.0
  {
    if k == 0 then 1.0 else TenthPower(k - 1) / 10.0
  }

  /**
    The factor an exponent part (`e` or `E`, an optional sign, at least one
    digit) at the start of `t` contributes. When there is no such part it
    is 1.
   */
  function ExponentScale(t: string): (r: real)
    ensures r > 0.0
  {
    if |t| > 0 && (t[0] == 'e' || t[0] == 'E') then
      var u := t[1..];
      var d := if |u| > 0 && (u[0] == '+' || u[0] == '-') then u[1..] else u;
      var k := DigitRun(d);
      if k == 0 then 1.0
      else if |u| > 0 && u[0] == '-' then TenthPower(DigitsValue(d[..k]))
      else Pow10(DigitsValue(d[..k])) as real
    else 1.0
  }

  /** The value of the digit string `f` read as the fraction `0.f`: below one, never negative. */
  function FractionValue(f: string): (r: real)
    requires AllDigits(f)
    ensures 0.0 <= r < 1.0
  {
    if |f| == 0 then 0.0
    else ((f[0] as int - '0' as int) as real + FractionValue(f[1..])) / 10.0
  }

  /** Whether `s` starts with the word `Infinity`. */
  predicate StartsInfinity(s: string)
  {
    && |s| >= 8
    && s[0] == 'I' && s[1] == 'n' && s[2] == 'f' && s[3] == 'i'
    && s[4] == 'n' && s[5] == 'i' && s[6] == 't' && s[7] == 'y'
  }

  /**
    The shape of an unsigned decimal literal: `i` integer digits, then,
    when `dot` holds, a `.` and `f` fraction digits. What follows may hold
    the exponent.
   */
  datatype Literal = Literal(i: nat, dot: bool, f: nat)

  /** How far the digits, point and fraction digits at the start of `s` reach. */
  function Scan(s: string): (r: Literal)
    ensures r.i + (if r.dot then 1 + r.f else 0) <= |s|
    ensures r.dot ==> r.i < |s| && s[r.i] == '.'
    ensures !r.dot ==> r.f == 0
  {
    var i := DigitRun(s);
    var dot := i < |s| && s[i] == '.';
    Literal(i, dot, if dot then DigitRun(s[i + 1..]) else 0)
  }

  /** The index just past the digits, point and fraction digits. */
  function End(l: Literal): nat
  {
    l.i + (if l.dot then 1 + l.f else 0)
  }

  /** The value of the digits and fraction described by `l`, before the exponent. */
  function Mantissa(s: string, l: Literal): real
    requires l == Scan(s)
  {
    DigitsValue(s[..l.i]) as real + (if l.dot then FractionValue(s[l.i + 1..l.i + 1 + l.f]) else 0.0)
  }

  /** The product of the mantissa and the exponent's scale. */
  function Times(x: real, y: real): real
  {
    x * y
  }

  /** The literal after the sign: `Infinity`, or digits, fraction and exponent. */
  function Unsigned(s: string): Parsed
  {
    if StartsInfinity(s) then Infinite(true)
    else
      var l := Scan(s);
      if l.i == 0 && l.f == 0 then NaN
      else Finite(Times(Mantissa(s, l), ExponentScale(s[End(l)..])))
  }

  function Negate(p: Parsed): (r: Parsed)
    ensures r.NaN? <==> p.NaN?
    ensures p.Finite? ==> r == Finite(-p.value)
    ensures p.Infinite? ==> r == Infinite(!p.positive)
  {
    match p
    case NaN => NaN
    case Finite(x) => Finite(-x)
    case Infinite(pos) => Infinite(!pos)
  }

  /** An optional sign at the start of `t`: whether it is `-`, and the text after it. */
  function SplitSign(t: string): (r: (bool, string))
    ensures r.1 == (if |t| > 0 && (t[0] == '-' || t[0] == '+') then t[1..] else t)
    ensures r.0 <==> |t| > 0 && t[0] == '-'
  {
    if |t| > 0 && (t[0] == '-' || t[0] == '+') then (t[0] == '-', t[1..]) else (false, t)
  }

  /** `parseFloat(s)`. */
  function ParseFloat(s: string): Parsed
  {
    var (negative, u) := SplitSign(SkipSpace(s));
    if negative then Negate(Unsigned(u)) else Unsigned(u)
  }

  // ---------------------------------------------------------------------------
  // Properties

  /** A string that starts with a digit and consists only of digits parses to its decimal value. */
  lemma ParseFloatDigits(s: string)
    requires |s| > 0 && AllDigits(s)
    ensures ParseFloat(s) == Finite(DigitsValue(s) as real)
  {
    DigitRunPrefix(s, "");
    assert s + "" == s;
    UnsignedDigitsThen(s, "");
  }

  /**
    A digit string followed by text that cannot continue a literal (no digit,
    no `.`, no exponent mark) parses as the digit string alone: the rest is
    ignored.
   */
  lemma ParseFloatIgnoresTail(d: string, t: string)
    requires |d| > 0 && AllDigits(d)
    requires t == "" || !(IsDigit(t[0]) || t[0] == '.' || t[0] == 'e' || t[0] == 'E')
    ensures ParseFloat(d + t) == Finite(DigitsValue(d) as real)
  {
    UnsignedDigitsThen(d, t);
  }

  /** The step both lemmas above share: `Unsigned` and `ParseFloat` of such a string. */
  lemma UnsignedDigitsThen(d: string, t: string)
    requires |d| > 0 && AllDigits(d)
    requires t == "" || !(IsDigit(t[0]) || t[0] == '.' || t[0] == 'e' || t[0] == 'E')
    ensures ParseFloat(d + t) == Unsigned(d + t) == Finite(DigitsValue(d) as real)
  {
    var s := d + t;
    assert s[0] == d[0];
    ParseFloatUnsigned(s);
    assert Unsigned(s) == Finite(DigitsValue(d) as real * 1.0) by {
      DigitRunPrefix(d, t);
      assert s[|d|..] == t;
      assert Scan(s) == Literal(|d|, false, 0);
      assert Mantissa(s, Scan(s)) == DigitsValue(d) as real by {
        assert s[..|d|] == d;
      }
      assert ExponentScale(s[End(Scan(s))..]) == 1.0;
      UnsignedFinite(s, DigitsValue(d) as real, 1.0);
    }
  }

  /** The digit run of `d + t` is all of `d` when `t` does not start with a digit. */
  lemma {:induction false} DigitRunPrefix(d: string, t: string)
    requires AllDigits(d)
    requires t == "" || !IsDigit(t[0])
    ensures DigitRun(d + t) == |d|
    decreases |d|
  {
    if |d| == 0 {
      assert d + t == t;
    } else {
      assert (d + t)[1..] == d[1..] + t;
      DigitRunPrefix(d[1..], t);
    }
  }

  /** Leading white space never changes the result. */
  lemma ParseFloatSkipsSpace(c: char, s: string)
    requires IsJsSpace(c)
    ensures ParseFloat([c] + s) == ParseFloat(s)
  {
    assert ([c] + s)[1..] == s;
  }

  /** A minus sign negates whatever the rest parses to. */
  lemma ParseFloatMinus(s: string)
    ensures ParseFloat("-" + s) == Negate(Unsigned(s))
  {
    assert ("-" + s)[1..] == s;
  }

  /**
    A string that after its white space starts with neither a digit, a
    sign, a `.` nor an `I` has no numeric prefix at all.
   */
  lemma ParseFloatNaN(s: string)
    requires var t := SkipSpace(s);
      t == "" || !(IsDigit(t[0]) || t[0] == '-' || t[0] == '+' || t[0] == '.' || t[0] == 'I')
    ensures ParseFloat(s) == NaN
  {
  }

  /** A string starting with a digit or a point is read without sign or white space. */
  lemma ParseFloatUnsigned(s: string)
    requires |s| > 0 && (IsDigit(s[0]) || s[0] == '.')
    ensures ParseFloat(s) == Unsigned(s)
    ensures !StartsInfinity(s)
  {
    assert SkipSpace(s) == s;
    assert SplitSign(s) == (false, s);
  }

  /** A literal with at least one digit is finite: its mantissa times its exponent's scale. */
  lemma UnsignedFinite(s: string, x: real, scale: real)
    requires !StartsInfinity(s)
    requires Scan(s).i + Scan(s).f > 0
    requires Mantissa(s, Scan(s)) == x
    requires ExponentScale(s[End(Scan(s))..]) == scale
    ensures Unsigned(s) == Finite(Times(x, scale))
  {
  }

  /** The digit run of `s` ends at `i` when the first `i` characters are digits and the next is not. */
  lemma {:induction false} DigitRunStops(s: string, i: nat)
    requires i <= |s| && AllDigits(s[..i])
    requires i == |s| || !IsDigit(s[i])
    ensures DigitRun(s) == i
    decreases i
  {
    if i > 0 {
      assert s[0] == s[..i][0];
      assert s[1..][..i - 1] == s[..i][1..];
      DigitRunStops(s[1..], i - 1);
    }
  }

  /** How `Scan` reads a string of digits, one point at `i`, and digits. */
  lemma ScanDecimal(s: string, i: nat)
    requires i < |s| && s[i] == '.'
    requires AllDigits(s[..i]) && AllDigits(s[i + 1..])
    ensures Scan(s) == Literal(i, true, |s| - i - 1)
    ensures End(Scan(s)) == |s|
  {
    DigitRunStops(s, i);
    var t := s[i + 1..];
    assert t[..|t|] == t;
    DigitRunStops(t, |t|);
  }

  /** The mantissa of such a string: the integer part plus the fraction. */
  lemma DecimalMantissa(s: string, i: nat)
    requires i < |s| && s[i] == '.'
    requires AllDigits(s[..i]) && AllDigits(s[i + 1..])
    ensures Mantissa(s, Scan(s)) == DigitsValue(s[..i]) as real + FractionValue(s[i + 1..])
  {
    ScanDecimal(s, i);
    assert s[i + 1..i + 1 + (|s| - i - 1)] == s[i + 1..];
  }

  /** Nothing follows the fraction digits, so the scale is 1. */
  lemma DecimalScale(s: string, i: nat)
    requires i < |s| && s[i] == '.'
    requires AllDigits(s[..i]) && AllDigits(s[i + 1..])
    ensures ExponentScale(s[End(Scan(s))..]) == 1.0
  {
    ScanDecimal(s, i);
    assert s[|s|..] == "";
  }

  /** Such a string starts with a digit or with its point. */
  lemma DecimalStart(s: string, i: nat)
    requires i < |s| && s[i] == '.'
    requires AllDigits(s[..i])
    ensures IsDigit(s[0]) || s[0] == '.'
  {
    if i > 0 {
      assert s[0] == s[..i][0];
    }
  }

  /** The unsigned reading of such a string, with at least one digit. */
  lemma DecimalUnsigned(s: string, i: nat)
    requires i < |s| && s[i] == '.' && |s| > 1
    requires AllDigits(s[..i]) && AllDigits(s[i + 1..])
    requires !StartsInfinity(s)
    ensures Unsigned(s) == Finite(DigitsValue(s[..i]) as real + FractionValue(s[i + 1..]))
  {
    ScanDecimal(s, i);
    DecimalMantissa(s, i);
    DecimalScale(s, i);
    UnsignedFinite(s, DigitsValue(s[..i]) as real + FractionValue(s[i + 1..]), 1.0);
  }

  /**
    Digits, a point at index `i` and digits (either run may be empty, not
    both) parse to the integer part plus the fraction.
   */
  lemma ParseFloatDecimal(s: string, i: nat)
    requires i < |s| && s[i] == '.' && |s| > 1
    requires AllDigits(s[..i]) && AllDigits(s[i + 1..])
    ensures ParseFloat(s) == Finite(DigitsValue(s[..i]) as real + FractionValue(s[i + 1..]))
  {
    calc {
      ParseFloat(s);
      { DecimalStart(s, i); ParseFloatUnsigned(s); }
      Unsigned(s);
      { DecimalUnsigned(s, i); }
      Finite(DigitsValue(s[..i]) as real + FractionValue(s[i + 1..]));
    }
  }

  /** How `Scan` reads digits followed by an exponent mark. */
  lemma ScanBeforeExponent(d: string, e: string)
    requires AllDigits(d)
    ensures Scan(d + "e" + e) == Literal(|d|, false, 0)
  {
    var s := d + "e" + e;
    assert s == d + ("e" + e);
    DigitRunPrefix(d, "e" + e);
    assert s[|d|] == 'e';
  }

  /**
    Digits followed by an exponent `e` and digits parse to the integer times
    that power of ten.
   */
  lemma ParseFloatExponent(d: string, e: string)
    requires AllDigits(d) && AllDigits(e) && |d| > 0 && |e| > 0
    ensures ParseFloat(d + "e" + e) == Finite(DigitsValue(d) as real * Pow10(DigitsValue(e)) as real)
  {
    var s := d + "e" + e;
    assert s[0] == d[0];
    ParseFloatUnsigned(s);
    ExponentUnsigned(d, e);
  }

  /** The unsigned reading of digits followed by an exponent. */
  lemma ExponentUnsigned(d: string, e: string)
    requires AllDigits(d) && AllDigits(e) && |d| > 0 && |e| > 0
    requires !StartsInfinity(d + "e" + e)
    ensures Unsigned(d + "e" + e) == Finite(Times(DigitsValue(d) as real, Pow10(DigitsValue(e)) as real))
  {
    var s := d + "e" + e;
    ScanBeforeExponent(d, e);
    var l := Scan(s);
    assert Mantissa(s, l) == DigitsValue(d) as real by {
      assert s[..|d|] == d;
    }
    ExponentScaleDigits(e);
    assert s[End(l)..] == "e" + e;
    UnsignedFinite(s, DigitsValue(d) as real, Pow10(DigitsValue(e)) as real);
  }

  /** An exponent mark followed by digits scales by that power of ten. */
  lemma ExponentScaleDigits(e: string)
    requires AllDigits(e) && |e| > 0
    ensures ExponentScale("e" + e) == Pow10(DigitsValue(e)) as real
  {
    assert ("e" + e)[1..] == e;
    DigitRunPrefix(e, "");
    assert e + "" == e && e[..|e|] == e;
  }
}
