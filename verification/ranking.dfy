/** The coin records the listings endpoint returns, and the ranking step of
    `get_coin_data`: `sorted(data, key=percent_change_24h, reverse=True)`.
    Python's sort is stable also when reversed, so records with equal change
    keep the order the endpoint returned them in; the ranking is modelled as
    a stable insertion sort. */
module Ranking {

  /** One listing record, with the fields the table shows. The amounts are
      already rounded to the precision they are printed with: `price` counts
      ten-thousandths of a US dollar, `marketCap`, `volume24h` and
      `circulatingSupply` are whole units. `change24h` is the raw 24-hour
      percent change, used for ordering and classification. */
  datatype Coin = Coin(
    name: string,
    symbol: string,
    price: nat,
    change24h: real,
    marketCap: nat,
    volume24h: nat,
    circulatingSupply: nat)

  /** Non-increasing in the 24-hour change. */
  predicate RankedDesc(s: seq<Coin>) {
    forall i, j :: 0 <= i < j < |s| ==> s[i].change24h >= s[j].change24h
  }

  /** The records of `s` whose change equals `k`, in the order of `s`. */
  function WithChange(s: seq<Coin>, k: real): (r: seq<Coin>)
    ensures |r| <= |s|
    ensures forall i :: 0 <= i < |r| ==> r[i].change24h == k
  {
    if |s| == 0 then []
    else (if s[0].change24h == k then [s[0]] else []) + WithChange(s[1..], k)
  }

  /** Places `c` before the first record whose change does not exceed its
      own, so `c` goes ahead of the records it ties with. */
  function Insert(c: Coin, s: seq<Coin>): (r: seq<Coin>)
    ensures multiset(r) == multiset(s) + multiset{c}
    ensures RankedDesc(s) ==> RankedDesc(r)
  {
    if |s| == 0 || c.change24h >= s[0].change24h then
      [c] + s
    else
      var t := Insert(c, s[1..]);
      assert s == [s[0]] + s[1..];
      InsertBelowHead(c, s, t);
      [s[0]] + t
  }

  /** Everything `Insert` puts behind a larger head stays at most the head. */
  lemma InsertBelowHead(c: Coin, s: seq<Coin>, t: seq<Coin>)
    requires |s| > 0 && c.change24h < s[0].change24h
    requires multiset(t) == multiset(s[1..]) + multiset{c}
    requires RankedDesc(s) ==> RankedDesc(t)
    ensures RankedDesc(s) ==> RankedDesc([s[0]] + t)
  {
    if RankedDesc(s) {
      var r := [s[0]] + t;
      forall j | 1 <= j < |r|
        ensures r[0].change24h >= r[j].change24h
      {
        var x := r[j];
        assert x in multiset(t);
        if x != c {
          assert x in multiset(s[1..]);
          var m :| 0 <= m < |s[1..]| && s[1..][m] == x;
          assert s[m + 1] == x;
        }
      }
    }
  }

  /** The fetched records, most-risen first (`update_daily_coin_price.py` line 27). */
  function Rank(s: seq<Coin>): (r: seq<Coin>)
    ensures multiset(r) == multiset(s)
    ensures RankedDesc(r)
  {
    if |s| == 0 then []
    else
      assert s == [s[0]] + s[1..];
      Insert(s[0], Rank(s[1..]))
  }

  /** Ranking keeps every record, adds none, and keeps the length. */
  lemma RankIsPermutation(s: seq<Coin>)
    ensures |Rank(s)| == |s|
    ensures forall c :: c in Rank(s) <==> c in s
  {
    assert |multiset(Rank(s))| == |multiset(s)|;
    assert forall c :: c in Rank(s) <==> c in multiset(Rank(s));
  }

  lemma {:induction false} WithChangeAppend(a: seq<Coin>, b: seq<Coin>, k: real)
    ensures WithChange(a + b, k) == WithChange(a, k) + WithChange(b, k)
  {
    if |a| > 0 {
      assert (a + b)[1..] == a[1..] + b;
      WithChangeAppend(a[1..], b, k);
    } else {
      assert a + b == b;
    }
  }

  /** Inserting `c` adds it in front of the records it ties with. */
  lemma {:induction false} InsertTies(c: Coin, s: seq<Coin>, k: real)
    ensures WithChange(Insert(c, s), k)
         == (if c.change24h == k then [c] else []) + WithChange(s, k)
  {
    if |s| == 0 || c.change24h >= s[0].change24h {
      WithChangeAppend([c], s, k);
    } else {
      InsertTies(c, s[1..], k);
      WithChangeAppend([s[0]], Insert(c, s[1..]), k);
    }
  }

  /** Stability: among records with equal change, the ranked order is the
      fetched order. */
  lemma {:induction false} RankIsStable(s: seq<Coin>, k: real)
    ensures WithChange(Rank(s), k) == WithChange(s, k)
  {
    if |s| > 0 {
      RankIsStable(s[1..], k);
      InsertTies(s[0], Rank(s[1..]), k);
    }
  }

  lemma {:induction false} NoTies(s: seq<Coin>, k: real)
    requires forall i :: 0 <= i < |s| ==> s[i].change24h != k
    ensures WithChange(s, k) == []
  {
    if |s| > 0 {
      NoTies(s[1..], k);
    }
  }

  /** Two different non-increasing arrangements disagree on the order of
      some group of ties; the result is the change value of such a group. */
  lemma {:induction false} OrderWitness(a: seq<Coin>, b: seq<Coin>) returns (k: real)
    requires RankedDesc(a) && RankedDesc(b) && a != b
    ensures WithChange(a, k) != WithChange(b, k)
    decreases |a|
  {
    if |a| == 0 {
      k := b[0].change24h;
      assert WithChange(b, k)[0] == b[0];
    } else if |b| == 0 {
      k := a[0].change24h;
      assert WithChange(a, k)[0] == a[0];
    } else {
      var ka, kb := a[0].change24h, b[0].change24h;
      if ka > kb {
        k := ka;
        NoTies(b, k);
        assert WithChange(a, k)[0] == a[0];
      } else if kb > ka {
        k := kb;
        NoTies(a, k);
        assert WithChange(b, k)[0] == b[0];
      } else if a[0] != b[0] {
        k := ka;
        assert WithChange(a, k)[0] == a[0] && WithChange(b, k)[0] == b[0];
      } else {
        assert a == [a[0]] + a[1..] && b == [b[0]] + b[1..];
        k := OrderWitness(a[1..], b[1..]);
        var h := if ka == k then [a[0]] else [];
        assert WithChange(a, k) == h + WithChange(a[1..], k);
        assert WithChange(b, k) == h + WithChange(b[1..], k);
        assert WithChange(a[1..], k) == WithChange(a, k)[|h|..];
        assert WithChange(b[1..], k) == WithChange(b, k)[|h|..];
      }
    }
  }

  /** Two non-increasing arrangements that agree on the order of every group
      of ties are the same arrangement. */
  lemma TiesDetermineOrder(a: seq<Coin>, b: seq<Coin>)
    requires RankedDesc(a) && RankedDesc(b)
    requires forall k :: WithChange(a, k) == WithChange(b, k)
    ensures a == b
  {
    if a != b {
      var k := OrderWitness(a, b);
      assert false;
    }
  }

  /** The ranking is the only non-increasing arrangement that keeps ties in
      fetched order: any such arrangement equals `Rank(s)`. */
  lemma RankIsUnique(s: seq<Coin>, r: seq<Coin>)
    requires RankedDesc(r)
    requires forall k :: WithChange(r, k) == WithChange(s, k)
    ensures r == Rank(s)
  {
    forall k
      ensures WithChange(r, k) == WithChange(Rank(s), k)
    {
      RankIsStable(s, k);
    }
    TiesDetermineOrder(r, Rank(s));
  }

  /** Records with 24-hour changes of 5, -2 and 20 percent rank as 20, 5, -2. */
  lemma RankOfThree(a: Coin, b: Coin, c: Coin)
    requires a.change24h == 5.0 && b.change24h == -2.0 && c.change24h == 20.0
    ensures Rank([a, b, c]) == [c, a, b]
  {
    var s := [a, b, c];
    assert s[1..][1..] == [c];
    var r1 := Rank([c]);
    assert r1 == [c];
    var r2 := Insert(b, r1);
    assert r2 == [c] + Insert(b, []) == [c, b];
    var r3 := Insert(a, r2);
    assert r2[1..] == [b];
    assert r3 == [c] + Insert(a, [b]) == [c, a, b];
  }
}
