/**
 * The trade cards of lib/components/derby/TradeCards.tsx: the market's
 * categories are dealt into two columns, and each card finds its
 * category's position and leader flag.
 */
module TradeCards {
  import opened Common
  import opened JsMap
  import Ranking

  /** The first n categories at even positions, in order. */
  function Evens<T>(s: seq<T>, n: nat): seq<T>
    requires n <= |s|
  {
    if n == 0 then [] else Evens(s, n - 1) + (if (n - 1) % 2 == 0 then [s[n - 1]] else [])
  }

  /** The first n categories at odd positions, in order. */
  function Odds<T>(s: seq<T>, n: nat): seq<T>
    requires n <= |s|
  {
    if n == 0 then [] else Odds(s, n - 1) + (if (n - 1) % 2 == 1 then [s[n - 1]] else [])
  }

  /** The columns after the first n categories: none, one holding the
      first category, or the even and the odd positions. */
  function ColumnsAfter<T>(s: seq<T>, n: nat): seq<seq<T>>
    requires n <= |s|
  {
    if n == 0 then [] else if n == 1 then [[s[0]]] else [Evens(s, n), Odds(s, n)]
  }

  /** The forEach that deals the categories: the first opens column 0, the
      second opens column 1, and after that an even index joins column 0
      and an odd one column 1. */
  method SplitColumns(categories: seq<string>) returns (columns: seq<seq<string>>)
    ensures columns == ColumnsAfter(categories, |categories|)
  {
    columns := [];
    for index := 0 to |categories|
      invariant columns == ColumnsAfter(categories, index)
    {
      var item := categories[index];
      if |columns| == 0 {
        columns := [[item]];
      } else if |columns| == 1 {
        columns := columns + [[item]];
        assert Evens(categories, 1) == [categories[0]];
        assert Evens(categories, 2) == [categories[0]];
        assert Odds(categories, 1) == [];
        assert Odds(categories, 2) == [item];
      } else if index % 2 == 0 {
        assert index >= 2 && columns == [Evens(categories, index), Odds(categories, index)];
        columns := [columns[0] + [item], columns[1]];
        assert Evens(categories, index + 1) == Evens(categories, index) + [item];
        assert Odds(categories, index + 1) == Odds(categories, index) + [];
        assert Odds(categories, index) + [] == Odds(categories, index);
        assert columns == [Evens(categories, index + 1), Odds(categories, index + 1)];
      } else {
        assert index >= 2 && columns == [Evens(categories, index), Odds(categories, index)];
        columns := [columns[0], columns[1] + [item]];
        assert Evens(categories, index + 1) == Evens(categories, index) + [];
        assert Odds(categories, index + 1) == Odds(categories, index) + [item];
        assert Evens(categories, index) + [] == Evens(categories, index);
        assert columns == [Evens(categories, index + 1), Odds(categories, index + 1)];
      }
    }
  }

  /** Column 0 holds the categories at even positions and column 1 those at
      odd positions, each in the market's order. */
  lemma {:induction false} ColumnsByParity<T>(s: seq<T>, n: nat)
    requires n <= |s|
    ensures |Evens(s, n)| == (n + 1) / 2 && |Odds(s, n)| == n / 2
    ensures forall k :: 0 <= k < |Evens(s, n)| ==> Evens(s, n)[k] == s[2 * k]
    ensures forall k :: 0 <= k < |Odds(s, n)| ==> Odds(s, n)[k] == s[2 * k + 1]
  {
    if n > 0 {
      ColumnsByParity(s, n - 1);
    }
  }

  /** The first category whose lower-cased name equals that of name, from
      position k on; -1 when there is none. */
  function FindCategoryFrom(categories: seq<string>, name: string, k: nat): (i: int)
    requires k <= |categories|
    ensures i == -1 || k <= i < |categories|
    ensures i >= 0 ==> ToLower(categories[i]) == ToLower(name)
    ensures forall j :: k <= j < |categories| && (i == -1 || j < i) ==> ToLower(categories[j]) != ToLower(name)
    decreases |categories| - k
  {
    if k == |categories| then -1
    else if ToLower(categories[k]) == ToLower(name) then k
    else FindCategoryFrom(categories, name, k + 1)
  }

  /** The index a card passes on: findIndex with a case-insensitive
      comparison. */
  function CardIndex(categories: seq<string>, name: string): int
  {
    FindCategoryFrom(categories, name, 0)
  }

  /** The card of category k finds a category at or before k with the same
      lower-cased name; it finds k itself when no two categories differ
      only in case. */
  lemma CardIndexOf(categories: seq<string>, k: nat)
    requires k < |categories|
    ensures 0 <= CardIndex(categories, categories[k]) <= k
    ensures ToLower(categories[CardIndex(categories, categories[k])]) == ToLower(categories[k])
    ensures (forall i, j :: 0 <= i < j < |categories| ==> ToLower(categories[i]) != ToLower(categories[j]))
      ==> CardIndex(categories, categories[k]) == k
  {
  }

  /** One card: the category's index, its lower-cased name, and whether it
      leads. */
  datatype Card = Card(index: int, team: string, isLeader: bool)

  /** What TradeCards renders: nothing before the prices or the ranking are
      there; a crash when a column is missing or a category has no ranking
      entry; otherwise the two columns of cards. */
  datatype CardsView = NotRendered | Crashed | Rendered(left: seq<Card>, right: seq<Card>)

  /** Every category of the column has a ranking entry. */
  predicate Ranked(column: seq<string>, ranking: seq<(string, Ranking.Ranked)>) {
    forall c :: c in column ==> Lookup(ranking, c).Some?
  }

  /** The cards of one column, in its order. */
  function CardsOf(column: seq<string>, categories: seq<string>, ranking: seq<(string, Ranking.Ranked)>): (cards: seq<Card>)
    requires Ranked(column, ranking)
    ensures |cards| == |column|
    ensures forall k :: 0 <= k < |column| ==>
      cards[k] == Card(CardIndex(categories, column[k]), ToLower(column[k]), Lookup(ranking, column[k]).value.isLeader)
  {
    seq(|column|, k requires 0 <= k < |column| =>
      Card(CardIndex(categories, column[k]), ToLower(column[k]), Lookup(ranking, column[k]).value.isLeader))
  }

  /** The rendering of TradeCards for the given market categories. */
  function View(categories: seq<string>, pricesLoaded: bool,
                ranking: Option<seq<(string, Ranking.Ranked)>>): (v: CardsView)
    ensures v.NotRendered? <==> !pricesLoaded || ranking.None?
    ensures v.Crashed? <==> pricesLoaded && ranking.Some? && (|categories| < 2 || !Ranked(categories, ranking.value))
  {
    if !pricesLoaded || ranking.None? then NotRendered
    else
      var columns := ColumnsAfter(categories, |categories|);
      if |columns| < 2 then Crashed
      else if !Ranked(columns[0], ranking.value) || !Ranked(columns[1], ranking.value) then
        ColumnsCover(categories);
        Crashed
      else
        ColumnsCover(categories);
        Rendered(CardsOf(columns[0], categories, ranking.value), CardsOf(columns[1], categories, ranking.value))
  }

  /** Every position lands in exactly one column: an even position i at
      place i / 2 of column 0, an odd one at place i / 2 of column 1. */
  lemma ColumnOfPosition<T>(s: seq<T>, i: nat)
    requires i < |s|
    ensures i % 2 == 0 ==> i / 2 < |Evens(s, |s|)| && Evens(s, |s|)[i / 2] == s[i]
    ensures i % 2 == 1 ==> i / 2 < |Odds(s, |s|)| && Odds(s, |s|)[i / 2] == s[i]
  {
    ColumnsByParity(s, |s|);
  }

  /** A category is in one of the columns exactly when it is a market
      category. */
  lemma ColumnsCover<T>(s: seq<T>)
    ensures forall c :: c in Evens(s, |s|) || c in Odds(s, |s|) <==> c in s
  {
    var n := |s|;
    ColumnsByParity(s, n);
    forall i | 0 <= i < n
      ensures s[i] in Evens(s, n) || s[i] in Odds(s, n)
    {
      ColumnOfPosition(s, i);
    }
    forall k | 0 <= k < |Evens(s, n)|
      ensures Evens(s, n)[k] in s
    {
      assert Evens(s, n)[k] == s[2 * k];
    }
    forall k | 0 <= k < |Odds(s, n)|
      ensures Odds(s, n)[k] in s
    {
      assert Odds(s, n)[k] == s[2 * k + 1];
    }
  }

  /** A rendered view shows the card of category 2k as the k-th card of
      the left column and the card of category 2k + 1 as the k-th card of
      the right column, pointing at the first category with its
      lower-cased name and carrying its ranking's leader flag. */
  lemma RenderedCards(categories: seq<string>, ranking: seq<(string, Ranking.Ranked)>)
    requires View(categories, true, Some(ranking)).Rendered?
    ensures var v := View(categories, true, Some(ranking));
      && |v.left| == (|categories| + 1) / 2 && |v.right| == |categories| / 2
      && (forall k :: 0 <= k < |v.left| ==>
            v.left[k].team == ToLower(categories[2 * k])
            && v.left[k].isLeader == Lookup(ranking, categories[2 * k]).value.isLeader
            && 0 <= v.left[k].index <= 2 * k)
      && (forall k :: 0 <= k < |v.right| ==>
            v.right[k].team == ToLower(categories[2 * k + 1])
            && v.right[k].isLeader == Lookup(ranking, categories[2 * k + 1]).value.isLeader
            && 0 <= v.right[k].index <= 2 * k + 1)
  {
    var n := |categories|;
    ColumnsByParity(categories, n);
    forall k | 0 <= k < (n + 1) / 2
      ensures 0 <= CardIndex(categories, categories[2 * k]) <= 2 * k
    {
      CardIndexOf(categories, 2 * k);
    }
    forall k | 0 <= k < n / 2
      ensures 0 <= CardIndex(categories, categories[2 * k + 1]) <= 2 * k + 1
    {
      CardIndexOf(categories, 2 * k + 1);
    }
  }
}
