/**
 * The page store of lib/state/Page.ts: the ranking shown on a derby page,
 * the winner of a resolved market, whether the account can redeem, and
 * the table of exchange stores, one per (buy or sell, category index).
 */
module Page {
  import opened Common
  import opened JsMap
  import opened Market
  import opened Exchange
  import Ranking

  datatype TradeKind = Buy | Sell

  /** The key of the exchange-store table: JSON.stringify of the kind and
      the index is one string per pair, so the pair itself is the key. */
  datatype StoreKey = StoreKey(kind: TradeKind, categoryIndex: int)

  /** The names a store for this key is created with: a buy store pays
      with "ztg" for the category, a sell store the reverse. An index past
      the categories names nothing (undefined). */
  function KeyOptions(categories: seq<string>, key: StoreKey): (o: StoreOptions)
    ensures var category := if 0 <= key.categoryIndex < |categories| then Some(categories[key.categoryIndex]) else None;
      && (key.kind == Buy ==> o.fromName == Some("ztg") && o.toName == category)
      && (key.kind == Sell ==> o.fromName == category && o.toName == Some("ztg"))
  {
    var category := if 0 <= key.categoryIndex < |categories| then Some(categories[key.categoryIndex]) else None;
    match key.kind
    case Buy => StoreOptions(Some("ztg"), category)
    case Sell => StoreOptions(category, Some("ztg"))
  }

  /** The names a page store passes are always among the options. */
  lemma KeyOptionsFound(market: Market, key: StoreKey)
    requires Tradable(market)
    ensures var o := KeyOptions(market.categories, key);
      && (o.fromName.Some? ==> FindByName(AssetOptions(market), o.fromName.value) >= 0)
      && (o.toName.Some? ==> FindByName(AssetOptions(market), o.toName.value) >= 0)
  {
    var opts := AssetOptions(market);
    assert opts[|opts| - 1].name == "ztg";
    if 0 <= key.categoryIndex < |market.categories| {
      assert opts[key.categoryIndex].name == market.categories[key.categoryIndex];
    }
  }

  /** A buy store starts paying with ZTG for the category's asset, a sell
      store the reverse (categories named apart from each other and from
      "ztg"). */
  lemma TradeDirection(market: Market, i: int)
    requires Tradable(market) && NamesDistinct(AssetOptions(market)) && 0 <= i < |market.categories|
    ensures var opts := AssetOptions(market);
      && InitialAssets(opts, KeyOptions(market.categories, StoreKey(Buy, i))) == (Some(opts[|opts| - 1]), Some(opts[i]))
      && InitialAssets(opts, KeyOptions(market.categories, StoreKey(Sell, i))) == (Some(opts[i]), Some(opts[|opts| - 1]))
  {
    var opts := AssetOptions(market);
    assert FindByName(opts, "ztg") == |opts| - 1 by {
      assert opts[|opts| - 1].name == "ztg";
    }
    assert FindByName(opts, market.categories[i]) == i by {
      assert opts[i].name == market.categories[i];
    }
  }

  /** The winner's name as shown: lower-cased, with "equilibrium" shown as
      "genshiro". */
  function WinnerName(category: string): (name: string)
    ensures ToLower(category) == "equilibrium" ==> name == "genshiro"
    ensures ToLower(category) != "equilibrium" ==> name == ToLower(category)
    ensures forall i :: 0 <= i < |name| ==> !('A' <= name[i] <= 'Z')
  {
    var lower := ToLower(category);
    if lower == "equilibrium" then "genshiro" else lower
  }

  class PageStore {
    const market: Market
    var pricesWithRanking: Option<seq<(string, Ranking.Ranked)>>
    var canRedeem: bool
    var exchangeStores: map<StoreKey, ExchangeStore>

    /** Every stored exchange store trades on this page's market with the
        names of its key, and no store sits under two keys. */
    ghost predicate Valid()
      reads this
    {
      && (forall k :: k in exchangeStores ==>
            exchangeStores[k].market == market && exchangeStores[k].options == KeyOptions(market.categories, k))
      && (forall k1, k2 :: k1 in exchangeStores && k2 in exchangeStores && k1 != k2 ==>
            exchangeStores[k1] != exchangeStores[k2])
    }

    constructor (market: Market)
      ensures Valid() && this.market == market
      ensures pricesWithRanking.None? && !canRedeem && exchangeStores == map[]
    {
      this.market := market;
      pricesWithRanking := None;
      canRedeem := false;
      exchangeStores := map[];
    }

    /** setPricesWithRanking: stores the ranking of the given prices. */
    method SetPricesWithRanking(prices: PriceMap)
      requires prices.Valid()
      modifies this
      ensures pricesWithRanking == Some(Ranking.Rankings(prices.entries))
      ensures canRedeem == old(canRedeem) && exchangeStores == old(exchangeStores)
    {
      var ranking := Ranking.GetPricesWithRanking(prices.entries);
      pricesWithRanking := Some(ranking);
    }

    /** A stored ranking with a leader. */
    predicate HasLeader()
      reads this
    {
      pricesWithRanking.Some? && Ranking.FindLeader(pricesWithRanking.value) >= 0
    }

    /** getLeadingCategory: the name of the first entry flagged leader. */
    function GetLeadingCategory(): (category: string)
      reads this
      requires HasLeader()
      ensures exists i :: 0 <= i < |pricesWithRanking.value| && pricesWithRanking.value[i].0 == category
                          && pricesWithRanking.value[i].1.isLeader
                          && forall j :: 0 <= j < i ==> !pricesWithRanking.value[j].1.isLeader
    {
      pricesWithRanking.value[Ranking.FindLeader(pricesWithRanking.value)].0
    }

    /** For a stored ranking of a price map, the leading category is the
        category priced strictly above all others. */
    lemma LeadingCategoryIsUniqueTop(prices: seq<Ranking.Entry>)
      requires pricesWithRanking == Some(Ranking.Rankings(prices)) && HasLeader()
      ensures exists k :: 0 <= k < |prices| && Ranking.StrictlyTop(prices, k) && prices[k].0 == GetLeadingCategory()
    {
      Ranking.FindLeaderIsUniqueTop(prices);
    }

    /** winner: false (None) unless the market is resolved; then the
        leading category's display name. */
    function Winner(): (w: Option<string>)
      reads this, market
      requires market.Is(Resolved) ==> HasLeader()
      ensures w.None? <==> !market.Is(Resolved)
      ensures w.Some? ==> w.value == WinnerName(GetLeadingCategory())
    {
      if !market.Is(Resolved) then None else Some(WinnerName(GetLeadingCategory()))
    }

    /** setCanRedeem: false without a winner, otherwise whether the
        account holds any of the leading category's asset. */
    method SetCanRedeem(accountBalance: string -> real)
      requires market.Is(Resolved) ==> HasLeader()
      modifies this
      ensures pricesWithRanking == old(pricesWithRanking) && exchangeStores == old(exchangeStores)
      ensures canRedeem <==> Winner().Some? && accountBalance(GetLeadingCategory()) > 0.0
    {
      if Winner().None? {
        canRedeem := false;
        return;
      }
      var category := GetLeadingCategory();
      canRedeem := accountBalance(category) > 0.0;
    }

    /** createExchangeStore: the stored store for the key, or a new store
        with the key's names, stored under the key. */
    method CreateExchangeStore(kind: TradeKind, categoryIndex: int) returns (store: ExchangeStore)
      requires Valid() && Tradable(market)
      modifies this
      ensures Valid()
      ensures var key := StoreKey(kind, categoryIndex);
        && key in exchangeStores && store == exchangeStores[key]
        && (key in old(exchangeStores) ==> exchangeStores == old(exchangeStores))
        && (key !in old(exchangeStores) ==> fresh(store) && exchangeStores == old(exchangeStores)[key := store])
      ensures store.market == market && store.options == KeyOptions(market.categories, StoreKey(kind, categoryIndex))
      ensures pricesWithRanking == old(pricesWithRanking) && canRedeem == old(canRedeem)
    {
      var key := StoreKey(kind, categoryIndex);
      if key in exchangeStores {
        return exchangeStores[key];
      }
      var options := KeyOptions(market.categories, key);
      KeyOptionsFound(market, key);
      store := new ExchangeStore(market, options);
      exchangeStores := exchangeStores[key := store];
    }

    /** updateExchangeBalances: both stores of the category read their
        balances again. */
    method UpdateExchangeBalances(categoryIndex: int, balance: AssetId -> real, activeBalance: real,
                                  accountBalance: AssetId -> real)
      requires Valid()
      requires StoreKey(Buy, categoryIndex) in exchangeStores && StoreKey(Sell, categoryIndex) in exchangeStores
      requires exchangeStores[StoreKey(Buy, categoryIndex)].fromAsset.Some?
      requires exchangeStores[StoreKey(Buy, categoryIndex)].toAsset.Some?
      requires exchangeStores[StoreKey(Sell, categoryIndex)].fromAsset.Some?
      requires exchangeStores[StoreKey(Sell, categoryIndex)].toAsset.Some?
      modifies exchangeStores[StoreKey(Buy, categoryIndex)], exchangeStores[StoreKey(Sell, categoryIndex)]
      ensures forall kind :: kind in {Buy, Sell} ==>
        var s := exchangeStores[StoreKey(kind, categoryIndex)];
        && s.fromAsset == old(s.fromAsset) && s.toAsset == old(s.toAsset)
        && s.fromPoolBalance == Some(balance(s.fromAsset.value.value))
        && s.toPoolBalance == Some(balance(s.toAsset.value.value))
        && s.fromBalance == Some(AccountBalanceOf(s.fromAsset.value, activeBalance, accountBalance))
        && s.toBalance == Some(AccountBalanceOf(s.toAsset.value, activeBalance, accountBalance))
        && s.fromAmount == old(s.fromAmount) && s.toAmount == old(s.toAmount)
        && s.spotPrice == old(s.spotPrice) && s.loaded == old(s.loaded)
    {
      var buy := exchangeStores[StoreKey(Buy, categoryIndex)];
      var sell := exchangeStores[StoreKey(Sell, categoryIndex)];
      buy.InitializeBalances(balance, activeBalance, accountBalance);
      sell.InitializeBalances(balance, activeBalance, accountBalance);
    }
  }
}
