/**
  String helpers the source gets from JavaScript: integer-to-decimal
  conversion (template literals such as `level-${level}`), `String.repeat`
  and `Array.join`, with the facts the rest of the model relies on.
 */
module Text {

  predicate IsDigit(c: char)
  {
    '0' <= c <= '9'
  }

  predicate AllDigits(s: string)
  {
    forall i :: 0 <= i < |s| ==> IsDigit(s[i])
  }

  /** The decimal digit character for `d`. */
  function DigitChar(d: nat): (c: char)
    requires d < 10
    ensures IsDigit(c)
    ensures c as int - '0' as int == d
  {
    (d + '0' as int) as char
  }

  /** The value of a string of decimal digits, most significant first. */
  function DigitsValue(s: string): nat
    requires AllDigits(s)
  {
    if |s| == 0 then 0
    else 10 * DigitsValue(s[..|s| - 1]) + (s[|s| - 1] as int - '0' as int)
  }

  /** The value of a one-digit string. */
  lemma DigitsValueOne(s: string)
    requires |s| == 1 && AllDigits(s)
    ensures DigitsValue(s) == s[0] as int - '0' as int
  {
    assert s[..0] == [];
  }

  /** The value of a two-digit string. */
  lemma DigitsValueTwo(s: string)
    requires |s| == 2 && AllDigits(s)
    ensures DigitsValue(s) == 10 * (s[0] as int - '0' as int) + (s[1] as int - '0' as int)
  {
    DigitsValueOne(s[..1]);
  }

  /** Decimal rendering of a natural number, as `String(n)` gives it. */
  function NatToString(n: nat): (s: string)
    ensures 1 <= |s|
    ensures AllDigits(s)
    ensures n < 10 <==> |s| == 1
  {
    if n < 10 then [DigitChar(n)] else NatToString(n / 10) + [DigitChar(n % 10)]
  }

  /** Decimal rendering of an integer with a leading '-' when negative. */
  function IntToString(n: int): (s: string)
    ensures 1 <= |s|
    ensures n >= 0 ==> AllDigits(s)
    ensures n < 0 ==> s[0] == '-' && AllDigits(s[1..])
  {
    if n >= 0 then NatToString(n) else "-" + NatToString(-n)
  }

  /** Reading back the digits of `NatToString(n)` gives `n`. */
  lemma {:induction false} NatToStringRoundTrip(n: nat)
    ensures DigitsValue(NatToString(n)) == n
  {
    if n >= 10 {
      var s := NatToString(n);
      NatToStringRoundTrip(n / 10);
      assert s[..|s| - 1] == NatToString(n / 10);
    }
  }

  /** Distinct integers render as distinct strings. */
  lemma IntToStringInjective(a: int, b: int)
    requires IntToString(a) == IntToString(b)
    ensures a == b
  {
    if a >= 0 && b >= 0 {
      NatToStringRoundTrip(a);
      NatToStringRoundTrip(b);
    } else if a < 0 && b < 0 {
      assert NatToString(-a) == IntToString(a)[1..];
      assert NatToString(-b) == IntToString(b)[1..];
      NatToStringRoundTrip(-a);
      NatToStringRoundTrip(-b);
    }
  }

  /** No rendering of an integer contains `c` unless `c` is a digit or '-'. */
  lemma IntToStringAvoids(n: int, c: char)
    requires !IsDigit(c) && c != '-'
    ensures c !in IntToString(n)
  {
    var s := IntToString(n);
    if n < 0 {
      forall i | 1 <= i < |s|
        ensures s[i] != c
      {
        assert s[1..][i - 1] == s[i];
      }
    }
  }

  /** `String.repeat`: `n` copies of `c`. */
  function Repeat(c: char, n: nat): (s: string)
    ensures |s| == n
    ensures forall i :: 0 <= i < n ==> s[i] == c
  {
    if n == 0 then [] else Repeat(c, n - 1) + [c]
  }

  lemma {:induction false} CountRepeat(c: char, n: nat)
    ensures Count(Repeat(c, n), c) == n
  {
    if n > 0 {
      CountRepeat(c, n - 1);
      assert Repeat(c, n)[..n - 1] == Repeat(c, n - 1);
    }
  }

  /** `Array.join`: the parts in order with `sep` between neighbours. */
  function Join(parts: seq<string>, sep: string): string
  {
    if |parts| == 0 then ""
    else if |parts| == 1 then parts[0]
    else Join(parts[..|parts| - 1], sep) + sep + parts[|parts| - 1]
  }

  /** Number of occurrences of `c` in `s`. */
  function Count(s: string, c: char): nat
  {
    if |s| == 0 then 0 else Count(s[..|s| - 1], c) + (if s[|s| - 1] == c then 1 else 0)
  }

  lemma {:induction false} CountAppend(a: string, b: string, c: char)
    ensures Count(a + b, c) == Count(a, c) + Count(b, c)
    decreases |b|
  {
    if |b| == 0 {
      assert a + b == a;
    } else {
      assert (a + b)[..|a + b| - 1] == a + b[..|b| - 1];
      CountAppend(a, b[..|b| - 1], c);
    }
  }

  lemma {:induction false} CountAbsent(s: string, c: char)
    requires c !in s
    ensures Count(s, c) == 0
    decreases |s|
  {
    if |s| > 0 {
      assert forall x :: x in s[..|s| - 1] ==> x in s;
      CountAbsent(s[..|s| - 1], c);
    }
  }

  /**
    Joining `k` parts none of which contains `c` with a separator holding `c`
    exactly once yields exactly `k - 1` occurrences of `c`: the parts can be
    told apart again, one per line when `c` is a line break.
   */
  lemma {:induction false} JoinSeparatorCount(parts: seq<string>, sep: string, c: char)
    requires |parts| >= 1
    requires Count(sep, c) == 1
    requires forall i :: 0 <= i < |parts| ==> c !in parts[i]
    ensures Count(Join(parts, sep), c) == |parts| - 1
    decreases |parts|
  {
    var last := parts[|parts| - 1];
    CountAbsent(last, c);
    if |parts| > 1 {
      var init := parts[..|parts| - 1];
      JoinSeparatorCount(init, sep, c);
      CountAppend(Join(init, sep) + sep, last, c);
      CountAppend(Join(init, sep), sep, c);
    }
  }

  /** A one-character string holds its character once. */
  lemma CountSingle(c: char)
    ensures Count([c], c) == 1
  {
    assert [c][..0] == [];
  }

  /**
    A string made of a `c`-free head, the mark `c` and any tail determines
    its head: the head ends at the first `c`.
   */
  lemma HeadBeforeMark(a: string, b: string, c: char, x: string, y: string)
    requires c !in a && c !in b
    requires a + [c] + x == b + [c] + y
    ensures a == b
  {
    var s := a + [c] + x;
    assert s[|a|] == c && s[..|a|] == a;
    assert s[|b|] == c && s[..|b|] == b;
    assert |a| == |b| by {
      assert forall i :: 0 <= i < |a| ==> s[i] == a[i];
      assert forall i :: 0 <= i < |b| ==> s[i] == b[i];
    }
  }
}
