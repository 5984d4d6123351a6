/** The thousands separator of Python's `,` format option, as applied to an
    already-rounded non-negative amount (`f"{x:,.0f}"`, and the integer
    part of `f"{x:,.4f}"`): the decimal digits are grouped in threes from
    the right and the groups joined with commas. */
module Grouping {
  import opened Decimal

  /** `n` with a comma between every group of three digits. */
  function Group(n: nat): (s: string)
    ensures WellGrouped(s)
  {
    if n < 1000 then
      DigitsWidth(n, 3);
      Digits(n)
    else
      var g := Group(n / 1000);
      GroupedExtend(g, LowDigits(n, 3));
      g + "," + LowDigits(n, 3)
  }

  /** Appending a comma and a full group keeps the layout. */
  lemma GroupedExtend(g: string, t: string)
    requires WellGrouped(g) && |t| == 3 && AllDigits(t)
    ensures WellGrouped(g + "," + t)
  {
    var s := g + "," + t;
    forall i | 0 <= i < |s|
      ensures if (|s| - i) % 4 == 0 then s[i] == ',' else IsDigit(s[i])
    {
      if i < |g| {
        assert (|s| - i) % 4 == (|g| - i) % 4;
      } else if i > |g| {
        assert s[i] == t[i - |g| - 1];
      }
    }
  }

  /** The layout of a grouped number, read from the right: every fourth
      character is a comma and all others are digits, and the string does not
      start with a comma. Equivalently, the groups after the first have
      exactly three digits and the first group has one to three. */
  predicate WellGrouped(s: string) {
    && |s| % 4 != 0
    && forall i :: 0 <= i < |s| ==>
         if (|s| - i) % 4 == 0 then s[i] == ',' else IsDigit(s[i])
  }

  /** The digits of a grouped number, separators dropped. */
  function RemoveCommas(s: string): (r: string)
    ensures |r| <= |s| && ',' !in r
  {
    if |s| == 0 then []
    else if s[0] == ',' then RemoveCommas(s[1..])
    else [s[0]] + RemoveCommas(s[1..])
  }

  /** The amount a grouped rendering denotes. */
  function ParseGrouped(s: string): nat
    requires WellGrouped(s)
  {
    RemoveCommasOfGrouped(s);
    ValueOf(RemoveCommas(s))
  }

  lemma {:induction false} RemoveCommasAppend(s: string, t: string)
    ensures RemoveCommas(s + t) == RemoveCommas(s) + RemoveCommas(t)
  {
    if |s| > 0 {
      assert (s + t)[1..] == s[1..] + t;
      RemoveCommasAppend(s[1..], t);
    } else {
      assert s + t == t;
    }
  }

  lemma {:induction false} RemoveCommasOfDigits(s: string)
    requires AllDigits(s)
    ensures RemoveCommas(s) == s
  {
    if |s| > 0 {
      RemoveCommasOfDigits(s[1..]);
    }
  }

  /** Whatever is left after the commas of a grouped string are dropped is
      digits only. */
  lemma RemoveCommasOfGrouped(s: string)
    requires WellGrouped(s)
    ensures AllDigits(RemoveCommas(s))
  {
    forall t: string | forall i :: 0 <= i < |t| ==> t[i] == ',' || IsDigit(t[i])
      ensures AllDigits(RemoveCommas(t))
    {
      DigitsOrCommas(t);
    }
  }

  lemma {:induction false} DigitsOrCommas(t: string)
    requires forall i :: 0 <= i < |t| ==> t[i] == ',' || IsDigit(t[i])
    ensures AllDigits(RemoveCommas(t))
  {
    if |t| > 0 {
      DigitsOrCommas(t[1..]);
    }
  }

  /** Removing the commas gives back the plain decimal digits. */
  lemma {:induction false} GroupRemoveCommas(n: nat)
    ensures RemoveCommas(Group(n)) == Digits(n)
  {
    if n < 1000 {
      RemoveCommasOfDigits(Digits(n));
    } else {
      GroupRemoveCommas(n / 1000);
      RemoveCommasAppend(Group(n / 1000) + ",", LowDigits(n, 3));
      RemoveCommasAppend(Group(n / 1000), ",");
      RemoveCommasOfDigits(LowDigits(n, 3));
      DigitsSplitThree(n);
    }
  }

  /** Reading a grouped rendering back gives the amount. */
  lemma GroupRoundTrip(n: nat)
    ensures ParseGrouped(Group(n)) == n
  {
    GroupRemoveCommas(n);
    DigitsRoundTrip(n);
  }

  /** A comma appears exactly when the amount has four or more digits. */
  lemma {:induction false} GroupHasCommaIffLarge(n: nat)
    ensures ',' in Group(n) <==> n >= 1000
  {
    if n < 1000 {
      assert AllDigits(Group(n));
      assert forall i :: 0 <= i < |Group(n)| ==> Group(n)[i] != ',';
    } else {
      var g := Group(n / 1000);
      assert Group(n)[|g|] == ',';
    }
  }

  /** The first group never has a leading zero, unless the amount is zero. */
  lemma GroupNoLeadingZero(n: nat)
    ensures Group(n)[0] == '0' <==> n == 0
  {
    var s := Group(n);
    GroupRemoveCommas(n);
    assert s[0] != ',';
    assert RemoveCommas(s)[0] == s[0];
  }

  /** The number of commas is one per full group of three digits beyond the
      first group. */
  lemma {:induction false} GroupLength(n: nat)
    ensures |Group(n)| == |Digits(n)| + (|Digits(n)| - 1) / 3
  {
    if n >= 1000 {
      GroupLength(n / 1000);
      DigitsSplitThree(n);
    }
  }

  /** A well-grouped string is fixed by its digits: `Group(n)` is the only
      well-grouped layout of the digits of `n`. */
  lemma {:induction false} WellGroupedUnique(s: string, n: nat)
    requires WellGrouped(s) && RemoveCommas(s) == Digits(n)
    ensures s == Group(n)
    decreases |s|
  {
    if |s| < 4 {
      assert AllDigits(s);
      RemoveCommasOfDigits(s);
      DigitsWidth(n, 3);
    } else {
      var p := SplitGrouped(s, n);
      WellGroupedUnique(p, n / 1000);
    }
  }

  /** A grouped layout of the digits of `n` with four or more characters is
      a grouped layout of the digits of `n / 1000`, a comma and the last
      three digits of `n`. */
  lemma SplitGrouped(s: string, n: nat) returns (p: string)
    requires WellGrouped(s) && RemoveCommas(s) == Digits(n) && |s| >= 4
    ensures n >= 1000 && |p| < |s| && s == p + "," + LowDigits(n, 3)
    ensures WellGrouped(p) && RemoveCommas(p) == Digits(n / 1000)
  {
    var t;
    p, t := LastGroup(s);
    RemoveCommasAppend(p + ",", t);
    RemoveCommasAppend(p, ",");
    RemoveCommasOfDigits(t);
    var q := RemoveCommas(p);
    assert Digits(n) == q + t;
    assert |q| > 0 by {
      assert p[0] != ',';
    }
    DigitsWidth(n, 3);
    DigitsSplitThree(n);
    assert q == Digits(n / 1000) by {
      assert Digits(n)[..|q|] == q;
    }
    assert t == LowDigits(n, 3) by {
      assert Digits(n)[|q|..] == t;
    }
  }

  /** A grouped string of four or more characters ends in a comma and a full
      group of three digits, after a shorter grouped string. */
  lemma LastGroup(s: string) returns (p: string, t: string)
    requires WellGrouped(s) && |s| >= 4
    ensures s == p + "," + t && |t| == 3 && AllDigits(t) && WellGrouped(p)
  {
    p, t := s[..|s| - 4], s[|s| - 3..];
    assert s[|s| - 4] == ',';
    assert s == p + "," + t;
    forall i | 0 <= i < |p|
      ensures if (|p| - i) % 4 == 0 then p[i] == ',' else IsDigit(p[i])
    {
      assert p[i] == s[i];
    }
    forall j | 0 <= j < 3
      ensures IsDigit(t[j])
    {
      assert t[j] == s[|s| - 3 + j];
    }
  }

  /** A circulating supply of 19000000 is shown as `19,000,000`. */
  lemma GroupExample()
    ensures Group(19000000) == "19,000,000"
  {
    assert Group(19) == "19" by {
      assert Digits(19) == Digits(1) + "9";
    }
    ThreeZeros(19);
    var g := Group(19000);
    assert g == Group(19) + "," + LowDigits(19000, 3);
    assert g == "19,000";
    ThreeZeros(19000);
    assert Group(19000000) == g + "," + LowDigits(19000000, 3);
  }

  /** A multiple of a thousand ends in three zeros. */
  lemma ThreeZeros(k: nat)
    ensures LowDigits(k * 1000, 3) == "000"
  {
    var n := k * 1000;
    assert n / 10 == k * 100 && n % 10 == 0;
    assert n / 10 / 10 == k * 10 && n / 10 % 10 == 0;
    assert n / 10 / 10 / 10 == k && n / 10 / 10 % 10 == 0;
    assert DigitChar(0) == '0';
    assert LowDigits(k * 10, 1) == "0";
    assert LowDigits(k * 100, 2) == "00";
  }
}
