/**
 * The price ranking of lib/state/Market.ts (getPricesWithRanking), which
 * lib/state/Page.ts repeats line for line.
 *
 * A price map is the list of its entries in insertion order, as a JS Map
 * iterates them. The entries are sorted by descending price with a stable
 * sort (Array.prototype.sort), and a running counter hands out dense
 * ranks: the top price is rank 1, equal prices share a rank and each
 * strictly lower price is one rank further down. The first entry is the
 * leader only when its price is strictly above every other price.
 */
module Ranking {
  import opened JsMap

  type Entry = (string, real)

  /** One row of the ranking: { rank, price, isLeader }. */
  datatype Ranked = Ranked(rank: nat, price: real, isLeader: bool)

  // ---------------------------------------------------------------------
  // The stable descending sort

  predicate SortedDesc(t: seq<Entry>) {
    forall i, j :: 0 <= i < j < |t| ==> t[i].1 >= t[j].1
  }

  /** Places e in front of the first entry whose price is not above its own. */
  function Insert(e: Entry, t: seq<Entry>): (r: seq<Entry>)
    ensures |r| == |t| + 1
  {
    if t == [] || e.1 >= t[0].1 then [e] + t else [t[0]] + Insert(e, t[1..])
  }

  /** sort((a, b) => b[1] - a[1]) on the entries: descending, stable. */
  function SortDesc(s: seq<Entry>): (t: seq<Entry>)
    ensures |t| == |s|
  {
    if s == [] then [] else Insert(s[0], SortDesc(s[1..]))
  }

  /** The entries with price p, in their order. */
  function WithPrice(s: seq<Entry>, p: real): (r: seq<Entry>)
    ensures |r| <= |s|
  {
    if s == [] then [] else (if s[0].1 == p then [s[0]] else []) + WithPrice(s[1..], p)
  }

  lemma {:induction false} WithPriceAppend(a: seq<Entry>, b: seq<Entry>, p: real)
    ensures WithPrice(a + b, p) == WithPrice(a, p) + WithPrice(b, p)
  {
    if a != [] {
      var h := if a[0].1 == p then [a[0]] else [];
      assert (a + b)[0] == a[0];
      assert (a + b)[1..] == a[1..] + b;
      assert WithPrice(a + b, p) == h + WithPrice(a[1..] + b, p);
      assert WithPrice(a, p) == h + WithPrice(a[1..], p);
      WithPriceAppend(a[1..], b, p);
      assert h + (WithPrice(a[1..], p) + WithPrice(b, p)) == (h + WithPrice(a[1..], p)) + WithPrice(b, p);
    } else {
      assert a + b == b;
    }
  }

  lemma {:induction false} InsertMultiset(e: Entry, t: seq<Entry>)
    ensures multiset(Insert(e, t)) == multiset([e]) + multiset(t)
  {
    if t != [] && e.1 < t[0].1 {
      InsertMultiset(e, t[1..]);
      assert t == [t[0]] + t[1..];
    }
  }

  lemma {:induction false} InsertSorted(e: Entry, t: seq<Entry>)
    requires SortedDesc(t)
    ensures SortedDesc(Insert(e, t))
  {
    if t != [] && e.1 < t[0].1 {
      InsertSorted(e, t[1..]);
      InsertMultiset(e, t[1..]);
      var rest := Insert(e, t[1..]);
      assert Insert(e, t) == [t[0]] + rest;
      forall j | 0 <= j < |rest| ensures t[0].1 >= rest[j].1 {
        assert rest[j] in multiset(rest);
        assert rest[j] == e || rest[j] in multiset(t[1..]);
      }
    }
  }

  lemma {:induction false} InsertStable(e: Entry, t: seq<Entry>, p: real)
    ensures WithPrice(Insert(e, t), p) == WithPrice([e] + t, p)
  {
    if t != [] && e.1 < t[0].1 {
      InsertStable(e, t[1..], p);
      assert t == [t[0]] + t[1..];
      var rest := Insert(e, t[1..]);
      assert Insert(e, t) == [t[0]] + rest;
      WithPriceAppend([t[0]], rest, p);
      WithPriceAppend([e], t[1..], p);
      WithPriceAppend([t[0]], t[1..], p);
      WithPriceAppend([e], t, p);
    }
  }

  /** The sort is a descending, stable permutation: among entries of equal
      price the input order is kept. */
  lemma {:induction false} SortDescProperties(s: seq<Entry>)
    ensures multiset(SortDesc(s)) == multiset(s)
    ensures SortedDesc(SortDesc(s))
    ensures forall p :: WithPrice(SortDesc(s), p) == WithPrice(s, p)
  {
    if s != [] {
      SortDescProperties(s[1..]);
      InsertMultiset(s[0], SortDesc(s[1..]));
      InsertSorted(s[0], SortDesc(s[1..]));
      assert s == [s[0]] + s[1..];
      forall p ensures WithPrice(SortDesc(s), p) == WithPrice(s, p) {
        InsertStable(s[0], SortDesc(s[1..]), p);
        WithPriceAppend([s[0]], SortDesc(s[1..]), p);
        WithPriceAppend([s[0]], s[1..], p);
      }
    }
  }

  // ---------------------------------------------------------------------
  // The functional specification of the ranking

  function Prices(s: seq<Entry>): set<real> {
    set e | e in s :: e.1
  }

  /** The prices of ps strictly above p. */
  function Above(ps: set<real>, p: real): set<real> {
    set q | q in ps && q > p
  }

  /** A dense rank: one more than the number of distinct prices above p. */
  function RankOf(s: seq<Entry>, p: real): (rank: nat)
    ensures rank >= 1
  {
    1 + |Above(Prices(s), p)|
  }

  function MaxPrice(s: seq<Entry>): (m: real)
    requires s != []
    ensures exists i :: 0 <= i < |s| && s[i].1 == m
    ensures forall i :: 0 <= i < |s| ==> s[i].1 <= m
  {
    if |s| == 1 then s[0].1
    else
      var m' := MaxPrice(s[1..]);
      assert forall i :: 1 <= i < |s| ==> s[i] == s[1..][i - 1];
      if s[0].1 >= m' then s[0].1 else m'
  }

  /** At least two entries, and exactly one of them has the top price. */
  predicate UniqueTop(s: seq<Entry>) {
    |s| >= 2 && |WithPrice(s, MaxPrice(s))| == 1
  }

  /** The ranking: the sorted entries, each with its dense rank, and the
      leader flag on the first entry when its price is the unique top. */
  function Rankings(s: seq<Entry>): (r: seq<(string, Ranked)>)
    ensures |r| == |s|
  {
    var t := SortDesc(s);
    seq(|t|, i requires 0 <= i < |t| =>
      (t[i].0, Ranked(RankOf(s, t[i].1), t[i].1, i == 0 && UniqueTop(s))))
  }


  // ---------------------------------------------------------------------
  // What the ranking promises

  /** The ranking lists exactly the input entries (same keys with the same
      prices), by descending price, stably. */
  lemma RankingsPermutation(s: seq<Entry>)
    ensures var r := Rankings(s);
      && multiset(seq(|r|, i requires 0 <= i < |r| => (r[i].0, r[i].1.price))) == multiset(s)
      && (forall i, j :: 0 <= i < j < |r| ==> r[i].1.price >= r[j].1.price)
  {
    var r := Rankings(s);
    SortDescProperties(s);
    assert seq(|r|, i requires 0 <= i < |r| => (r[i].0, r[i].1.price)) == SortDesc(s);
  }

  /** A Map's keys stay distinct through the ranking. */
  lemma RankingsKeysDistinct(s: seq<Entry>)
    requires DistinctKeys(s)
    ensures DistinctKeys(Rankings(s))
  {
    var t := SortDesc(s);
    SortDescProperties(s);
    DistinctKeysPermutation(s, t);
    forall i | 0 <= i < |t| ensures Rankings(s)[i].0 == t[i].0 {
      RankingsAt(s, i);
    }
  }

  lemma SortedAt(s: seq<Entry>, i: nat)
    requires i + 1 < |s|
    ensures |SortDesc(s)| == |s| && SortDesc(s)[i + 1].1 <= SortDesc(s)[i].1
  {
    SortDescProperties(s);
  }

  /** Rankings entry by entry. */
  lemma RankingsAt(s: seq<Entry>, i: nat)
    requires i < |s|
    ensures |SortDesc(s)| == |s|
    ensures var t := SortDesc(s);
      Rankings(s)[i] == (t[i].0, Ranked(RankOf(s, t[i].1), t[i].1, i == 0 && UniqueTop(s)))
  {
  }

  /** A permutation of entries with distinct keys has distinct keys. */
  lemma DistinctKeysPermutation(s: seq<Entry>, t: seq<Entry>)
    requires DistinctKeys(s) && multiset(s) == multiset(t)
    ensures DistinctKeys(t)
  {
    forall i, j | 0 <= i < j < |t| ensures t[i].0 != t[j].0 {
      assert t[i] in multiset(s) && t[j] in multiset(s);
      if t[i] == t[j] {
        TwoCopies(t, i, j);
        AtMostOneCopy(s, t[i]);
      } else {
        var a :| 0 <= a < |s| && s[a] == t[i];
        var b :| 0 <= b < |s| && s[b] == t[j];
        assert a != b;
      }
    }
  }

  lemma TwoCopies(t: seq<Entry>, i: nat, j: nat)
    requires i < j < |t| && t[i] == t[j]
    ensures multiset(t)[t[i]] >= 2
  {
    assert t == t[..i] + [t[i]] + t[i + 1..j] + [t[j]] + t[j + 1..];
  }

  lemma {:induction false} AtMostOneCopy(s: seq<Entry>, x: Entry)
    requires DistinctKeys(s)
    ensures multiset(s)[x] <= 1
  {
    if s != [] {
      assert s == [s[0]] + s[1..];
      AtMostOneCopy(s[1..], x);
      if s[0] == x {
        assert x !in s[1..];
      }
    }
  }

  /** The top entry has rank 1. */
  lemma TopRankIsOne(s: seq<Entry>)
    requires s != []
    ensures Rankings(s)[0].1.rank == 1
  {
    var t := SortDesc(s);
    SortDescProperties(s);
    RankingsAt(s, 0);
    SamePrices(s);
    assert Above(Prices(t), t[0].1) == {} by {
      forall q | q in Prices(t) ensures q <= t[0].1 {
        var e :| e in t && e.1 == q;
      }
    }
  }

  /** Dense ranks: each next entry in the ranking has the same rank when its
      price is equal, and exactly one more when it is strictly lower. */
  lemma RankStep(s: seq<Entry>, i: nat)
    requires i + 1 < |s|
    ensures var r := Rankings(s);
      && (r[i + 1].1.price == r[i].1.price ==> r[i + 1].1.rank == r[i].1.rank)
      && (r[i + 1].1.price < r[i].1.price ==> r[i + 1].1.rank == r[i].1.rank + 1)
  {
    RankingsAt(s, i);
    RankingsAt(s, i + 1);
    RankOfStep(s, i);
  }

  /** The rank of the next sorted price, by the definition of RankOf. */
  lemma RankOfStep(s: seq<Entry>, i: nat)
    requires i + 1 < |s|
    ensures |SortDesc(s)| == |s|
    ensures var t := SortDesc(s);
      && t[i + 1].1 <= t[i].1
      && RankOf(s, t[i + 1].1) == RankOf(s, t[i].1) + (if t[i + 1].1 < t[i].1 then 1 else 0)
  {
    var t := SortDesc(s);
    SortDescProperties(s);
    SamePrices(s);
    if t[i + 1].1 < t[i].1 {
      AboveStep(t, i);
    }
  }

  /** In a sorted list, stepping down to a strictly lower price adds exactly
      one price above. */
  lemma AboveStep(t: seq<Entry>, i: nat)
    requires SortedDesc(t) && i + 1 < |t| && t[i + 1].1 < t[i].1
    ensures |Above(Prices(t), t[i + 1].1)| == |Above(Prices(t), t[i].1)| + 1
  {
    var lo, hi := Above(Prices(t), t[i].1), Above(Prices(t), t[i + 1].1);
    forall q | q in hi ensures q in lo || q == t[i].1 {
      var e :| e in t && e.1 == q;
      var j :| 0 <= j < |t| && t[j] == e;
      assert j <= i;
    }
    assert t[i] in t;
    assert t[i].1 in Prices(t);
    assert hi == lo + {t[i].1};
    assert t[i].1 !in lo;
  }

  lemma SamePrices(s: seq<Entry>)
    ensures Prices(SortDesc(s)) == Prices(s)
  {
    SortDescProperties(s);
    var t := SortDesc(s);
    forall e ensures e in t <==> e in s {
      assert e in t <==> e in multiset(t);
    }
  }

  /** The leader flag is set on the first entry only, and exactly when its
      price is strictly above the price of every other entry. */
  lemma LeaderIsUniqueTop(s: seq<Entry>)
    ensures var r := Rankings(s);
      forall i :: 0 <= i < |r| ==>
        (r[i].1.isLeader <==>
          i == 0 && |r| >= 2 && forall j :: 0 < j < |r| ==> r[j].1.price < r[0].1.price)
  {
    var t := SortDesc(s);
    var r := Rankings(s);
    SortDescProperties(s);
    forall i | 0 <= i < |r| ensures r[i].1.price == t[i].1 && r[i].1.isLeader == (i == 0 && UniqueTop(s)) {
      RankingsAt(s, i);
    }
    if |s| >= 2 {
      UniqueTopSorted(s);
    }
  }

  /** With at least two entries, the top price is unique exactly when the
      second sorted price is below the first. */
  lemma UniqueTopSorted(s: seq<Entry>)
    requires |s| >= 2
    ensures |SortDesc(s)| == |s|
    ensures UniqueTop(s) <==> SortDesc(s)[1].1 < SortDesc(s)[0].1
  {
    var t := SortDesc(s);
    SortDescProperties(s);
    TopIsMax(s);
    TopCount(t);
  }

  /** In a sorted list, the top price occurs once exactly when the second
      price is lower. */
  lemma TopCount(t: seq<Entry>)
    requires SortedDesc(t) && |t| >= 2
    ensures |WithPrice(t, t[0].1)| == 1 <==> t[1].1 < t[0].1
  {
    var m := t[0].1;
    assert t == [t[0]] + t[1..];
    WithPriceAppend([t[0]], t[1..], m);
    if t[1].1 < m {
      NoneWithPrice(t[1..], m);
    } else {
      assert t[1..] == [t[1]] + t[2..];
      WithPriceAppend([t[1]], t[2..], m);
    }
  }

  lemma TopIsMax(s: seq<Entry>)
    requires s != []
    ensures SortDesc(s) != [] && SortDesc(s)[0].1 == MaxPrice(s)
  {
    var t := SortDesc(s);
    SortDescProperties(s);
    assert t[0] in multiset(s);
    var k :| 0 <= k < |s| && s[k].1 == MaxPrice(s);
    assert s[k] in multiset(t);
  }

  lemma {:induction false} NoneWithPrice(t: seq<Entry>, p: real)
    requires forall i :: 0 <= i < |t| ==> t[i].1 < p
    ensures WithPrice(t, p) == []
  {
    if t != [] {
      NoneWithPrice(t[1..], p);
    }
  }

  /** Array.prototype.find over the ranking for the entry with isLeader:
      its position, or -1 when there is none. */
  function FindLeader(r: seq<(string, Ranked)>): (i: int)
    ensures -1 <= i < |r|
    ensures i >= 0 ==> r[i].1.isLeader && forall j :: 0 <= j < i ==> !r[j].1.isLeader
    ensures i == -1 ==> forall j :: 0 <= j < |r| ==> !r[j].1.isLeader
  {
    if r == [] then -1
    else if r[0].1.isLeader then 0
    else
      var i := FindLeader(r[1..]);
      if i == -1 then -1 else i + 1
  }

  /** A leader is found exactly when one input entry is priced strictly
      above all the others (and there are at least two); it is that entry. */
  lemma FindLeaderIsUniqueTop(s: seq<Entry>)
    ensures var r := Rankings(s);
      && (FindLeader(r) != -1 <==> |s| >= 2 && exists k :: 0 <= k < |s| && StrictlyTop(s, k))
      && (FindLeader(r) != -1 ==>
            FindLeader(r) == 0 && exists k :: 0 <= k < |s| && StrictlyTop(s, k) && s[k] == (r[0].0, r[0].1.price))
  {
    var r := Rankings(s);
    LeaderIsUniqueTop(s);
    if |s| >= 2 {
      var t := SortDesc(s);
      SortDescProperties(s);
      RankingsAt(s, 0);
      assert t[0] in multiset(s);
      var k :| 0 <= k < |s| && s[k] == t[0];
      TopIsMax(s);
      if UniqueTop(s) {
        assert FindLeader(r) == 0;
        forall j | 0 <= j < |s| && j != k ensures s[j].1 < s[k].1 {
          if s[j].1 == s[k].1 {
            WithPriceTwo(s, j, k, s[k].1);
          }
        }
        assert StrictlyTop(s, k);
      } else {
        forall k' | 0 <= k' < |s| ensures !StrictlyTop(s, k') {
          if StrictlyTop(s, k') {
            StrictlyTopIsUnique(s, k');
          }
        }
      }
    }
  }

  /** Entry k is priced strictly above every other entry. */
  predicate StrictlyTop(s: seq<Entry>, k: nat)
    requires k < |s|
  {
    forall j :: 0 <= j < |s| && j != k ==> s[j].1 < s[k].1
  }

  lemma StrictlyTopIsUnique(s: seq<Entry>, k: nat)
    requires k < |s| && |s| >= 2 && StrictlyTop(s, k)
    ensures UniqueTop(s)
  {
    var m := MaxPrice(s);
    assert s[k].1 == m;
    assert s == s[..k] + [s[k]] + s[k + 1..];
    WithPriceAppend(s[..k] + [s[k]], s[k + 1..], m);
    WithPriceAppend(s[..k], [s[k]], m);
    var tail := s[k + 1..];
    forall j | 0 <= j < |tail| ensures tail[j].1 < m {
      assert tail[j] == s[k + 1 + j];
    }
    NoneWithPrice(s[..k], m);
    NoneWithPrice(s[k + 1..], m);
  }

  /** Two entries at price m put at least two entries in WithPrice(s, m). */
  lemma WithPriceTwo(s: seq<Entry>, j: nat, k: nat, m: real)
    requires j < |s| && k < |s| && j != k && s[j].1 == m && s[k].1 == m
    ensures |WithPrice(s, m)| >= 2
  {
    var a, b := if j < k then j else k, if j < k then k else j;
    assert s == s[..a] + ([s[a]] + s[a + 1..b] + [s[b]]) + s[b + 1..];
    WithPriceAppend(s[..a] + ([s[a]] + s[a + 1..b] + [s[b]]), s[b + 1..], m);
    WithPriceAppend(s[..a], [s[a]] + s[a + 1..b] + [s[b]], m);
    WithPriceAppend([s[a]] + s[a + 1..b], [s[b]], m);
    WithPriceAppend([s[a]], s[a + 1..b], m);
  }

  // ---------------------------------------------------------------------
  // The loop of getPricesWithRanking

  /** The forEach over the sorted entries with the running rank counter;
      the result is the ranking of the functional specification. */
  method GetPricesWithRanking(prices: seq<Entry>) returns (map': seq<(string, Ranked)>)
    requires DistinctKeys(prices)
    ensures map' == Rankings(prices)
    ensures DistinctKeys(map')
  {
    var sorted := SortDesc(prices);
    map' := [];
    var rank := 1;
    if sorted != [] {
      TopRankIsOne(prices);
      RankingsAt(prices, 0);
    }
    for index := 0 to |sorted|
      invariant |map'| == index
      invariant index < |sorted| ==> rank == RankOf(prices, sorted[index].1)
      invariant forall k :: 0 <= k < index ==> map'[k] == Rankings(prices)[k]
    {
      ghost var want := Rankings(prices)[index];
      RankingsAt(prices, index);
      var (category, price) := sorted[index];
      var isLast := index == |sorted| - 1;
      var val := Ranked(rank, price, false);
      if !isLast {
        var nextPrice := sorted[index + 1].1;
        RankOfStep(prices, index);
        if nextPrice < price {
          rank := rank + 1;
        }
        if index == 0 {
          UniqueTopSorted(prices);
        }
        if index == 0 && rank == 2 {
          val := val.(isLeader := true);
        }
      }
      assert (category, val) == want;
      map' := map' + [(category, val)];
    }
    RankingsKeysDistinct(prices);
  }

  /** Four categories priced .5, .3, .3, .1: ranks 1, 2, 2, 3 and the first
      is the leader. */
  lemma ExampleTiedMiddle()
    ensures var r := Rankings([("A", 0.5), ("B", 0.3), ("C", 0.3), ("D", 0.1)]);
      && r[0] == ("A", Ranked(1, 0.5, true))
      && r[1] == ("B", Ranked(2, 0.3, false))
      && r[2] == ("C", Ranked(2, 0.3, false))
      && r[3] == ("D", Ranked(3, 0.1, false))
  {
    var s := [("A", 0.5), ("B", 0.3), ("C", 0.3), ("D", 0.1)];
    TiedMiddleFacts(s);
    RankingsAt(s, 0);
    RankingsAt(s, 1);
    RankingsAt(s, 2);
    RankingsAt(s, 3);
  }

  lemma TiedMiddleFacts(s: seq<Entry>)
    requires s == [("A", 0.5), ("B", 0.3), ("C", 0.3), ("D", 0.1)]
    ensures SortDesc(s) == s && UniqueTop(s)
    ensures RankOf(s, 0.5) == 1 && RankOf(s, 0.3) == 2 && RankOf(s, 0.1) == 3
  {
    assert SortDesc(s) == s by {
      assert SortDesc(s[3..]) == s[3..];
      assert SortDesc(s[2..]) == s[2..];
      assert SortDesc(s[1..]) == s[1..];
    }
    TiedMiddleRanks(s);
    assert UniqueTop(s) by {
      assert MaxPrice(s[2..]) == 0.3;
      assert MaxPrice(s[1..]) == 0.3;
      NoneWithPrice(s[1..], 0.5);
    }
  }

  lemma TiedMiddleRanks(s: seq<Entry>)
    requires s == [("A", 0.5), ("B", 0.3), ("C", 0.3), ("D", 0.1)]
    ensures RankOf(s, 0.5) == 1 && RankOf(s, 0.3) == 2 && RankOf(s, 0.1) == 3
  {
    assert Prices(s) == {0.5, 0.3, 0.1} by {
      assert s[0] in s && s[1] in s && s[3] in s;
    }
    assert Above(Prices(s), 0.5) == {};
    assert Above(Prices(s), 0.3) == {0.5};
    assert Above(Prices(s), 0.1) == {0.5, 0.3};
  }

  /** Two categories tied at the top: both rank 1 and neither leads. */
  lemma ExampleTiedTop()
    ensures var r := Rankings([("A", 0.2), ("B", 0.4), ("C", 0.4)]);
      && r[0] == ("B", Ranked(1, 0.4, false))
      && r[1] == ("C", Ranked(1, 0.4, false))
      && r[2] == ("A", Ranked(2, 0.2, false))
  {
    var s := [("A", 0.2), ("B", 0.4), ("C", 0.4)];
    assert SortDesc(s) == [("B", 0.4), ("C", 0.4), ("A", 0.2)] by {
      assert SortDesc(s[2..]) == s[2..];
      assert SortDesc(s[1..]) == s[1..];
    }
    assert Prices(s) == {0.2, 0.4} by {
      assert s[0] in s && s[1] in s;
    }
    assert RankOf(s, 0.4) == 1 && RankOf(s, 0.2) == 2 by {
      assert Above(Prices(s), 0.4) == {};
      assert Above(Prices(s), 0.2) == {0.4};
    }
    assert !UniqueTop(s) by {
      assert MaxPrice(s) == 0.4 by {
        assert MaxPrice(s[1..]) == 0.4;
      }
      assert WithPrice(s, 0.4) == [("B", 0.4), ("C", 0.4)];
    }
    RankingsAt(s, 0);
    RankingsAt(s, 1);
    RankingsAt(s, 2);
  }
}
