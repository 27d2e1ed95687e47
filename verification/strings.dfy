/**
 * The pieces of JavaScript string behaviour the application relies on:
 * `String(n)` for integers, the relational operators on strings, the
 * comparison used by `Array.prototype.sort()` without a comparator, and
 * `Array.prototype.join`.
 */
module Strings {

  predicate IsDigit(c: char) {
    '0' <= c <= '9'
  }

  function Digit(n: int): (c: char)
    requires 0 <= n <= 9
    ensures IsDigit(c) && c as int == '0' as int + n
  {
    ('0' as int + n) as char
  }

  function DigitValue(c: char): (n: int)
    requires IsDigit(c)
    ensures 0 <= n <= 9 && Digit(n) == c
    ensures forall k :: 0 <= k <= 9 && c == Digit(k) ==> n == k
  {
    c as int - '0' as int
  }

  /** The decimal numeral of a natural number, without leading zeros. */
  function NatToString(n: nat): (s: string)
    ensures |s| >= 1
    ensures forall i :: 0 <= i < |s| ==> IsDigit(s[i])
    ensures |s| == 1 <==> n < 10
  {
    if n < 10 then [Digit(n)] else NatToString(n / 10) + [Digit(n % 10)]
  }

  /** `String(n)` for an integer-valued JavaScript number. */
  function IntToString(n: int): string {
    if n < 0 then "-" + NatToString(-n) else NatToString(n)
  }

  lemma {:induction false} NatToStringInjective(a: nat, b: nat)
    requires NatToString(a) == NatToString(b)
    ensures a == b
  {
    var s := NatToString(a);
    if a >= 10 && b >= 10 {
      assert s[..|s| - 1] == NatToString(a / 10) && s[..|s| - 1] == NatToString(b / 10);
      NatToStringInjective(a / 10, b / 10);
      assert Digit(a % 10) == s[|s| - 1] == Digit(b % 10);
      assert DigitValue(Digit(a % 10)) == a % 10;
      assert DigitValue(Digit(b % 10)) == b % 10;
    } else if a < 10 && b < 10 {
      assert DigitValue(s[0]) == a && DigitValue(s[0]) == b;
    }
  }

  /** A numeral starts with '-' exactly when the number is negative. */
  lemma IntToStringSign(n: int)
    ensures |IntToString(n)| >= 1
    ensures IntToString(n)[0] == '-' <==> n < 0
  {
    if n >= 0 {
      assert IsDigit(NatToString(n)[0]);
    }
  }

  /** Distinct integers have distinct numerals. */
  lemma IntToStringInjective(a: int, b: int)
    requires IntToString(a) == IntToString(b)
    ensures a == b
  {
    IntToStringSign(a);
    IntToStringSign(b);
    var s := IntToString(a);
    if a < 0 {
      assert s[1..] == NatToString(-a) && s[1..] == NatToString(-b);
      NatToStringInjective(-a, -b);
    } else {
      NatToStringInjective(a, b);
    }
  }

  /** A numeral is a digit or '-' followed by digits only. */
  lemma IntToStringDigits(n: int)
    ensures |IntToString(n)| >= 1
    ensures IsDigit(IntToString(n)[0]) || IntToString(n)[0] == '-'
    ensures forall k :: 1 <= k < |IntToString(n)| ==> IsDigit(IntToString(n)[k])
  {
    var s := IntToString(n);
    if n < 0 {
      forall k | 1 <= k < |s| ensures IsDigit(s[k]) {
        assert s[k] == NatToString(-n)[k - 1];
      }
    }
  }

  /** A numeral followed by a non-digit is not a proper prefix of another numeral. */
  lemma NumeralNotShorter(a: int, x: string, b: int, y: string)
    requires IntToString(a) + x == IntToString(b) + y
    requires x == [] || !IsDigit(x[0])
    ensures |IntToString(a)| >= |IntToString(b)|
  {
    var sa, sb := IntToString(a), IntToString(b);
    IntToStringDigits(a);
    IntToStringDigits(b);
    assert forall k :: 1 <= k < |sb| ==> IsDigit((sb + y)[k]);
    assert |sa| < |sa + x| ==> !IsDigit((sa + x)[|sa|]);
  }

  /**
   * A numeral followed by text that does not start with a digit can be read
   * back: the number and the text after it are both determined.
   */
  lemma NumeralPrefix(a: int, x: string, b: int, y: string)
    requires IntToString(a) + x == IntToString(b) + y
    requires x == [] || !IsDigit(x[0])
    requires y == [] || !IsDigit(y[0])
    ensures a == b && x == y
  {
    var sa, sb := IntToString(a), IntToString(b);
    NumeralNotShorter(a, x, b, y);
    NumeralNotShorter(b, y, a, x);
    assert sa == (sa + x)[..|sa|] && sb == (sb + y)[..|sb|];
    IntToStringInjective(a, b);
    assert x == (sa + x)[|sa|..] && y == (sb + y)[|sb|..];
  }

  /**
   * JavaScript `a < b` on strings: the first differing character decides,
   * and a proper prefix comes first.
   */
  predicate StrLess(a: string, b: string)
    decreases |a|
  {
    if |b| == 0 then false
    else if |a| == 0 then true
    else if a[0] != b[0] then a[0] < b[0]
    else StrLess(a[1..], b[1..])
  }

  lemma {:induction false} StrLessIrreflexive(a: string)
    ensures !StrLess(a, a)
    decreases |a|
  {
    if |a| > 0 {
      StrLessIrreflexive(a[1..]);
    }
  }

  lemma {:induction false} StrLessTransitive(a: string, b: string, c: string)
    requires StrLess(a, b) && StrLess(b, c)
    ensures StrLess(a, c)
    decreases |a|
  {
    if |a| > 0 && a[0] == b[0] && b[0] == c[0] {
      StrLessTransitive(a[1..], b[1..], c[1..]);
    }
  }

  lemma {:induction false} StrLessTotal(a: string, b: string)
    requires a != b
    ensures StrLess(a, b) || StrLess(b, a)
    decreases |a|
  {
    if |a| > 0 && |b| > 0 && a[0] == b[0] {
      assert a == [a[0]] + a[1..] && b == [b[0]] + b[1..];
      StrLessTotal(a[1..], b[1..]);
    }
  }

  lemma {:induction false} StrLessAsymmetric(a: string, b: string)
    requires StrLess(a, b)
    ensures !StrLess(b, a)
    decreases |a|
  {
    if |a| > 0 && a[0] == b[0] {
      StrLessAsymmetric(a[1..], b[1..]);
    }
  }

  /** Comparing two strings that start with prefixes of the same length. */
  lemma {:induction false} StrLessAppend(p: string, x: string, q: string, y: string)
    requires |p| == |q|
    ensures StrLess(p + x, q + y) <==> StrLess(p, q) || (p == q && StrLess(x, y))
    decreases |p|
  {
    if |p| > 0 {
      assert (p + x)[0] == p[0] && (q + y)[0] == q[0];
      assert (p + x)[1..] == p[1..] + x && (q + y)[1..] == q[1..] + y;
      StrLessAppend(p[1..], x, q[1..], y);
      if p[0] == q[0] {
        assert p == q <==> p[1..] == q[1..];
      }
    } else {
      assert p == q == [];
      assert p + x == x && q + y == y;
    }
  }

  /**
   * The order `Array.prototype.sort()` uses when no comparator is given:
   * both numbers are converted to strings and compared as strings.
   */
  predicate JsBefore(x: int, y: int) {
    StrLess(IntToString(x), IntToString(y))
  }

  /** `JsBefore` is a strict total order on integers. */
  lemma JsBeforeStrictTotal(x: int, y: int, z: int)
    ensures !JsBefore(x, x)
    ensures x != y ==> JsBefore(x, y) || JsBefore(y, x)
    ensures JsBefore(x, y) ==> !JsBefore(y, x)
    ensures JsBefore(x, y) && JsBefore(y, z) ==> JsBefore(x, z)
  {
    StrLessIrreflexive(IntToString(x));
    if x != y {
      if IntToString(x) == IntToString(y) {
        IntToStringInjective(x, y);
      }
      StrLessTotal(IntToString(x), IntToString(y));
    }
    if JsBefore(x, y) {
      StrLessAsymmetric(IntToString(x), IntToString(y));
      if JsBefore(y, z) {
        StrLessTransitive(IntToString(x), IntToString(y), IntToString(z));
      }
    }
  }

  /** On one-digit numbers (every weekday index) string order is numeric order. */
  lemma JsBeforeOnDigits(x: int, y: int)
    requires 0 <= x <= 9 && 0 <= y <= 9
    ensures JsBefore(x, y) <==> x < y
  {
    assert IntToString(x) == [Digit(x)] && IntToString(y) == [Digit(y)];
    assert StrLess([Digit(x)], [Digit(y)]) <==> Digit(x) < Digit(y) by {
      assert [Digit(x)][1..] == [] && [Digit(y)][1..] == [];
    }
    assert Digit(x) as int == '0' as int + x && Digit(y) as int == '0' as int + y;
  }

  /** A counterexample to numeric order: `[10, 9].sort()` leaves 10 first. */
  lemma JsBeforeNotNumeric()
    ensures JsBefore(10, 9)
  {
    assert IntToString(10) == NatToString(1) + [Digit(0)] == ['1', '0'];
    assert IntToString(9) == ['9'];
  }

  /** `parts.join(sep)`. */
  function Join(parts: seq<string>, sep: string): (s: string)
    ensures parts == [] ==> s == ""
    ensures |parts| == 1 ==> s == parts[0]
  {
    if |parts| == 0 then ""
    else if |parts| == 1 then parts[0]
    else parts[0] + sep + Join(parts[1..], sep)
  }
}
