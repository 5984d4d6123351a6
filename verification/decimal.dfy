/** Decimal digit strings: the canonical rendering of a natural number
    (Python's `str(n)` / `f"{n}"`), fixed-width zero-padded renderings
    (`strftime`'s `%m`, `%d`, `%Y` and the fractional part of `:.4f`), and
    the value of a digit string, which is the inverse of both. */
module Decimal {

  predicate IsDigit(c: char) {
    '0' <= c <= '9'
  }

  predicate AllDigits(s: string) {
    forall i :: 0 <= i < |s| ==> IsDigit(s[i])
  }

  /** A digit string as `Digits` produces it: non-empty, no leading zero
      unless it is the single digit "0". */
  predicate Canonical(s: string) {
    |s| > 0 && AllDigits(s) && (s[0] == '0' ==> |s| == 1)
  }

  function DigitValue(c: char): (d: nat)
    requires IsDigit(c)
    ensures d < 10
  {
    c as int - '0' as int
  }

  function DigitChar(d: nat): (c: char)
    requires d < 10
    ensures IsDigit(c) && DigitValue(c) == d
  {
    ('0' as int + d) as char
  }

  function Pow10(w: nat): (p: nat)
    ensures p >= 1
  {
    if w == 0 then 1 else 10 * Pow10(w - 1)
  }

  /** The number a digit string denotes, most significant digit first. */
  function ValueOf(s: string): nat
    requires AllDigits(s)
  {
    if |s| == 0 then 0 else ValueOf(s[..|s| - 1]) * 10 + DigitValue(s[|s| - 1])
  }

  /** The shortest decimal rendering of `n`. */
  function Digits(n: nat): (s: string)
    ensures Canonical(s)
    ensures n < 10 <==> |s| == 1
    ensures n == 0 <==> s == "0"
  {
    if n < 10 then [DigitChar(n)] else Digits(n / 10) + [DigitChar(n % 10)]
  }

  /** The lowest `w` decimal digits of `n`, zero-padded to width `w`. */
  function LowDigits(n: nat, w: nat): (s: string)
    ensures |s| == w && AllDigits(s)
  {
    if w == 0 then [] else LowDigits(n / 10, w - 1) + [DigitChar(n % 10)]
  }

  lemma {:induction false} ValueOfAppend(s: string, c: char)
    requires AllDigits(s) && IsDigit(c)
    ensures ValueOf(s + [c]) == ValueOf(s) * 10 + DigitValue(c)
  {
    assert (s + [c])[..|s + [c]| - 1] == s;
  }

  /** Reading back the canonical rendering gives the number. */
  lemma {:induction false} DigitsRoundTrip(n: nat)
    ensures ValueOf(Digits(n)) == n
  {
    if n >= 10 {
      DigitsRoundTrip(n / 10);
      ValueOfAppend(Digits(n / 10), DigitChar(n % 10));
    }
  }

  lemma {:induction false} LeadingDigitBound(s: string)
    requires AllDigits(s) && |s| > 0
    ensures ValueOf(s) >= DigitValue(s[0])
  {
    if |s| > 1 {
      var p := s[..|s| - 1];
      LeadingDigitBound(p);
      assert p[0] == s[0];
    }
  }

  /** Rendering the value of a canonical digit string gives the string back:
      `Digits` and `ValueOf` are inverse bijections between the naturals and
      the canonical strings. */
  lemma {:induction false} CanonicalRoundTrip(s: string)
    requires Canonical(s)
    ensures Digits(ValueOf(s)) == s
  {
    var p, c := s[..|s| - 1], s[|s| - 1];
    var d := DigitValue(c);
    DigitCharValue(c);
    assert s == p + [c];
    ValueOfAppend(p, c);
    if |p| == 0 {
      assert ValueOf(s) == d;
    } else {
      var q := ValueOf(p);
      assert p[0] == s[0];
      LeadingDigitBound(p);
      CanonicalRoundTrip(p);
      DivModTen(q, d);
      assert ValueOf(s) == q * 10 + d >= 10;
      assert Digits(ValueOf(s)) == Digits(q) + [DigitChar(d)];
    }
  }

  lemma DigitCharValue(c: char)
    requires IsDigit(c)
    ensures DigitChar(DigitValue(c)) == c
  {
  }

  lemma DivModTen(q: nat, d: nat)
    requires d < 10
    ensures (q * 10 + d) / 10 == q && (q * 10 + d) % 10 == d
  {
  }

  /** A zero-padded field is read back exactly when the number fits in it. */
  lemma {:induction false} LowDigitsRoundTrip(n: nat, w: nat)
    ensures ValueOf(LowDigits(n, w)) == n <==> n < Pow10(w)
  {
    if w > 0 {
      LowDigitsRoundTrip(n / 10, w - 1);
      LowDigitsBound(n / 10, w - 1);
      ValueOfAppend(LowDigits(n / 10, w - 1), DigitChar(n % 10));
    } else {
      assert LowDigits(n, w) == [];
    }
  }

  lemma {:induction false} LowDigitsBound(n: nat, w: nat)
    ensures ValueOf(LowDigits(n, w)) < Pow10(w)
  {
    if w > 0 {
      LowDigitsBound(n / 10, w - 1);
      ValueOfAppend(LowDigits(n / 10, w - 1), DigitChar(n % 10));
    }
  }

  /** A fixed-width field of the right length is rendered back from its
      value: `LowDigits(_, w)` and `ValueOf` are inverse on w-digit strings. */
  lemma {:induction false} FixedWidthRoundTrip(s: string)
    requires AllDigits(s)
    ensures LowDigits(ValueOf(s), |s|) == s
  {
    if |s| > 0 {
      var p, c := s[..|s| - 1], s[|s| - 1];
      assert s == p + [c];
      FixedWidthRoundTrip(p);
      ValueOfAppend(p, c);
      DivModTen(ValueOf(p), DigitValue(c));
    }
  }

  /** The canonical rendering fits in `w` characters exactly when the number
      is below `10^w`. */
  lemma {:induction false} DigitsWidth(n: nat, w: nat)
    requires w >= 1
    ensures |Digits(n)| <= w <==> n < Pow10(w)
  {
    if n >= 10 && w > 1 {
      DigitsWidth(n / 10, w - 1);
    } else if n >= 10 {
      assert |Digits(n)| == |Digits(n / 10)| + 1;
    }
  }

  /** Splitting off the last three digits of a number of four or more digits. */
  lemma {:induction false} DigitsSplitThree(n: nat)
    requires n >= 1000
    ensures Digits(n) == Digits(n / 1000) + LowDigits(n, 3)
  {
    var a, b, c := n / 10, n / 10 / 10, n / 10 / 10 / 10;
    assert c == n / 1000;
    assert Digits(n) == Digits(a) + [DigitChar(n % 10)];
    assert Digits(a) == Digits(b) + [DigitChar(a % 10)];
    assert Digits(b) == Digits(c) + [DigitChar(b % 10)];
    assert LowDigits(b, 1) == [DigitChar(b % 10)];
  }
}
