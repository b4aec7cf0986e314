/**
 * The market store of lib/state/Market.ts: the market's lifecycle status,
 * the map from category names to pool assets, the pool weights by name,
 * spot prices from the pool, the two price caches (ztgPrices, assetPrices)
 * and what is derived from them (the ranking and the leading asset).
 *
 * Chain reads are parameters: `balance(asset)` is the pool account's
 * balance of an asset, and getPoolBalance of a name is the balance of the
 * asset categoryAssetMap gives that name (ZTG for "ztg").
 */
module Market {
  import opened Common
  import opened JsMap
  import Ranking
  import AmmMath

  /** The statuses of lib/types.ts. Ended is the UI's own: the chain never
      reports it. */
  datatype MarketStatus = Proposed | Active | Ended | Reported | Disputed | Resolved

  /** A pool asset: the base token or an outcome of a categorical market. */
  datatype AssetId = Ztg | CategoricalOutcome(marketId: nat, index: nat)

  datatype Pool = Pool(assets: seq<AssetId>, weights: map<AssetId, real>, swapFee: real)

  datatype Dispute = Dispute(at: nat, disputant: string, outcome: nat)

  /** The pool of a derby market: one asset per category and ZTG last, each
      with a positive weight. */
  predicate PoolFits(p: Pool, categories: seq<string>) {
    && |p.assets| == |categories| + 1
    && p.assets[|categories|] == Ztg
    && forall a :: a in p.assets ==> a in p.weights && p.weights[a] > 0.0
  }

  /** categoryAssetMap without the final "ztg" entry, after the first n
      categories: each category set to the asset at its position, in
      order. */
  function CategoryAssets(categories: seq<string>, assets: seq<AssetId>, n: nat): (m: seq<(string, AssetId)>)
    requires n <= |categories| <= |assets|
    ensures DistinctKeys(m)
  {
    if n == 0 then []
    else
      var m' := CategoryAssets(categories, assets, n - 1);
      LookupUpdate(m', categories[n - 1], assets[n - 1], categories[n - 1]);
      Update(m', categories[n - 1], assets[n - 1])
  }

  /** The map built by categoryAssetMap's forEach gives each category the
      asset at its LAST position in the list. */
  lemma {:induction false} CategoryAssetsLookup(categories: seq<string>, assets: seq<AssetId>, n: nat, i: nat)
    requires n <= |categories| <= |assets| && i < n
    requires forall j :: i < j < n ==> categories[j] != categories[i]
    ensures Lookup(CategoryAssets(categories, assets, n), categories[i]) == Some(assets[i])
  {
    var m' := CategoryAssets(categories, assets, n - 1);
    LookupUpdate(m', categories[n - 1], assets[n - 1], categories[i]);
    if i < n - 1 {
      CategoryAssetsLookup(categories, assets, n - 1, i);
    }
  }

  /** A name that is no category is not in the map. */
  lemma {:induction false} CategoryAssetsMissing(categories: seq<string>, assets: seq<AssetId>, n: nat, k: string)
    requires n <= |categories| <= |assets|
    requires forall j :: 0 <= j < n ==> categories[j] != k
    ensures Lookup(CategoryAssets(categories, assets, n), k) == None
  {
    if n > 0 {
      var m' := CategoryAssets(categories, assets, n - 1);
      LookupUpdate(m', categories[n - 1], assets[n - 1], k);
      CategoryAssetsMissing(categories, assets, n - 1, k);
    }
  }

  /** The whole map, with "ztg" set last to the last asset. */
  lemma AssetMapLookup(categories: seq<string>, assets: seq<AssetId>, name: string)
    requires |assets| == |categories| + 1
    ensures Lookup(Update(CategoryAssets(categories, assets, |categories|), "ztg", assets[|categories|]), name) ==
      if name == "ztg" then Some(assets[|categories|])
      else if name in categories then Some(assets[LastPosition(categories, name)])
      else None
  {
    var m' := CategoryAssets(categories, assets, |categories|);
    LookupUpdate(m', "ztg", assets[|categories|], name);
    if name != "ztg" {
      if name in categories {
        CategoryAssetsLookup(categories, assets, |categories|, LastPosition(categories, name));
      } else {
        CategoryAssetsMissing(categories, assets, |categories|, name);
      }
    }
  }

  /** No category name occurs twice. */
  predicate CategoriesDistinct(names: seq<string>) {
    forall i, j :: 0 <= i < j < |names| ==> names[i] != names[j]
  }

  /** Setting the next of distinct names on a map keyed by the names before
      it appends that name last. */
  lemma NewKeyLast(m: seq<(string, real)>, k: string, v: real, names: seq<string>, i: nat)
    requires i < |names| && k == names[i]
    requires CategoriesDistinct(names) ==> Keys(m) == names[..i]
    ensures CategoriesDistinct(names) ==> Keys(Update(m, k, v)) == names[..i + 1]
  {
    if CategoriesDistinct(names) {
      forall j | 0 <= j < |m|
        ensures m[j].0 != k
      {
        assert m[j].0 == Keys(m)[j] == names[j];
      }
      UpdateKeys(m, k, v);
      assert names[..i + 1] == names[..i] + [k];
    }
  }

  class Market {
    /** The category names, market.categories[].name. */
    const categories: seq<string>
    /** The status the chain reports. */
    var chainStatus: MarketStatus
    var endTimestamp: int
    /** The timestamp of the latest block, kept by the app store. */
    var blockTimestamp: int
    var disputes: seq<Dispute>
    /** The pool, read once by init. */
    const pool: Option<Pool>
    /** report.outcome.categorical, when the market has a report. */
    var reportedOutcome: Option<nat>
    /** Prices of the category assets in ZTG. */
    var ztgPrices: PriceMap
    /** Prices of one ZTG in each category asset. */
    var assetPrices: PriceMap

    ghost predicate Valid()
      reads this, ztgPrices, assetPrices
    {
      && ztgPrices != assetPrices
      && ztgPrices.Valid() && assetPrices.Valid()
      && chainStatus != Ended
      && (pool.Some? ==> PoolFits(pool.value, categories))
    }

    constructor (categories: seq<string>, chainStatus: MarketStatus, endTimestamp: int,
                 blockTimestamp: int, disputes: seq<Dispute>, pool: Option<Pool>,
                 reportedOutcome: Option<nat>)
      requires chainStatus != Ended
      requires pool.Some? ==> PoolFits(pool.value, categories)
      ensures Valid() && fresh(ztgPrices) && fresh(assetPrices)
      ensures this.categories == categories && this.chainStatus == chainStatus
      ensures this.endTimestamp == endTimestamp && this.blockTimestamp == blockTimestamp
      ensures this.disputes == disputes && this.pool == pool && this.reportedOutcome == reportedOutcome
      ensures ztgPrices.entries == [] && assetPrices.entries == []
    {
      this.categories := categories;
      this.chainStatus := chainStatus;
      this.endTimestamp := endTimestamp;
      this.blockTimestamp := blockTimestamp;
      this.disputes := disputes;
      this.pool := pool;
      this.reportedOutcome := reportedOutcome;
      ztgPrices := new PriceMap();
      assetPrices := new PriceMap();
    }

    // -------------------------------------------------------------------
    // Lifecycle

    function EndPassed(): bool
      reads this
    {
      endTimestamp < blockTimestamp
    }

    /** The status shown: Ended once the end time has passed on an Active
        market, the chain's status otherwise. */
    function Status(): (s: MarketStatus)
      reads this
      ensures chainStatus != Ended ==> (s == Ended <==> EndPassed() && chainStatus == Active)
      ensures s != Ended ==> s == chainStatus
      ensures s != chainStatus ==> s == Ended && chainStatus == Active
    {
      if EndPassed() && chainStatus == Active then Ended else chainStatus
    }

    function Is(status: MarketStatus): bool
      reads this
    {
      Status() == status
    }

    /** A market can be resolved once its end time has passed while the
        chain still reports it Active. */
    function CanResolve(): (b: bool)
      reads this
      ensures chainStatus != Ended ==> (b <==> EndPassed() && chainStatus == Active)
    {
      Is(Ended)
    }

    /** The name of the reported category; None without a report (null) and
        for an index past the categories (undefined). */
    function ReportedOutcomeText(): (text: Option<string>)
      reads this
      ensures text.Some? <==> reportedOutcome.Some? && reportedOutcome.value < |categories|
      ensures text.Some? ==> text.value in categories
    {
      if reportedOutcome.Some? && reportedOutcome.value < |categories|
      then Some(categories[reportedOutcome.value]) else None
    }

    /** The latest dispute, null when there is none. */
    function LastDispute(): (d: Option<Dispute>)
      reads this
      ensures d.None? <==> disputes == []
      ensures d.Some? ==> d.value == disputes[|disputes| - 1] && d.value in disputes
    {
      var len := |disputes|;
      if len == 0 then None else Some(disputes[len - 1])
    }

    // -------------------------------------------------------------------
    // Assets and weights

    /** categoryAssetMap: each category to its pool asset, then "ztg" to the
        last pool asset. */
    function CategoryAssetMap(): (m: seq<(string, AssetId)>)
      requires pool.Some? && PoolFits(pool.value, categories)
      ensures DistinctKeys(m)
    {
      var assets := pool.value.assets;
      Update(CategoryAssets(categories, assets, |categories|), "ztg", assets[|assets| - 1])
    }

    /** The asset categoryAssetMap gives a name: the last pool asset for
        "ztg", otherwise the asset at the name's last position. */
    function AssetOf(name: string): (a: AssetId)
      requires pool.Some? && PoolFits(pool.value, categories)
      requires name == "ztg" || name in categories
      ensures a in pool.value.assets
    {
      var assets := pool.value.assets;
      if name == "ztg" then assets[|assets| - 1]
      else assets[LastPosition(categories, name)]
    }

    /** categoryAssetMap holds exactly "ztg" and the categories, each with
        the asset AssetOf names. */
    lemma CategoryAssetMapLookup(name: string)
      requires pool.Some? && PoolFits(pool.value, categories)
      ensures Lookup(CategoryAssetMap(), name) ==
        if name == "ztg" || name in categories then Some(AssetOf(name)) else None
    {
      AssetMapLookup(categories, pool.value.assets, name);
    }

    /** The weight of a name: the pool weight of ZTG for "ztg", of the
        category's asset otherwise. */
    function NameWeight(name: string): (w: real)
      requires pool.Some? && PoolFits(pool.value, categories)
      requires name == "ztg" || name in categories
      ensures w > 0.0
    {
      pool.value.weights[AssetOf(name)]
    }

    /** weights: every name of categoryAssetMap with its weight; undefined
        (None) without a pool. */
    function Weights(): (w: Option<map<string, real>>)
      requires pool.Some? ==> PoolFits(pool.value, categories)
      ensures w.None? <==> pool.None?
      ensures w.Some? ==> forall k :: k in w.value <==> k == "ztg" || k in categories
      ensures w.Some? ==> forall k :: k in w.value ==> w.value[k] > 0.0
    {
      if pool.None? then None
      else Some(map k | k in {"ztg"} + (set c | c in categories) :: NameWeight(k))
    }

    /** weights reads every entry of categoryAssetMap: "ztg" gets the
        weight of Ztg, every other name the weight of its asset. */
    lemma WeightsFromAssetMap(name: string)
      requires pool.Some? && PoolFits(pool.value, categories)
      ensures name in Weights().value <==> Lookup(CategoryAssetMap(), name).Some?
      ensures name == "ztg" ==> Weights().value[name] == pool.value.weights[Ztg]
      ensures name != "ztg" && name in Weights().value ==>
        Lookup(CategoryAssetMap(), name) == Some(AssetOf(name))
        && Weights().value[name] == pool.value.weights[AssetOf(name)]
    {
      CategoryAssetMapLookup(name);
    }

    // -------------------------------------------------------------------
    // Prices

    /** getSpotPrice has what it needs: weights for both names and a
        non-zero out-balance (or no pool at all). */
    predicate Quotable(balance: AssetId -> real, assetIn: string, assetOut: string)
    {
      pool.None? ||
        (PoolFits(pool.value, categories)
         && (assetIn == "ztg" || assetIn in categories)
         && (assetOut == "ztg" || assetOut in categories)
         && balance(AssetOf(assetOut)) != 0.0)
    }

    /** The spot price with fee "0": the price of one unit of assetOut
        counted in assetIn; 0 without a pool. It is the price that equates
        the weighted balances. */
    function GetSpotPrice(balance: AssetId -> real, assetIn: string, assetOut: string): (price: real)
      requires Quotable(balance, assetIn, assetOut)
      ensures pool.None? ==> price == 0.0
      ensures pool.Some? ==>
        price * (balance(AssetOf(assetOut)) / NameWeight(assetOut)) == balance(AssetOf(assetIn)) / NameWeight(assetIn)
    {
      if pool.None? then 0.0
      else
        var wIn, wOut := NameWeight(assetIn), NameWeight(assetOut);
        var bIn, bOut := balance(AssetOf(assetIn)), balance(AssetOf(assetOut));
        AmmMath.SpotPriceNoFee(bIn, wIn, bOut, wOut);
        var price := AmmMath.SpotPrice(bIn, wIn, bOut, wOut, 0.0);
        assert price * (bOut / wOut) == bIn / wIn;
        price
    }

    /** The price of y counted in x and the price of x counted in y are
        reciprocal. */
    lemma SpotPriceSwap(balance: AssetId -> real, x: string, y: string)
      requires pool.Some? && Quotable(balance, x, y) && Quotable(balance, y, x)
      ensures GetSpotPrice(balance, x, y) * GetSpotPrice(balance, y, x) == 1.0
    {
      AmmMath.SpotPriceReciprocal(balance(AssetOf(x)), NameWeight(x), balance(AssetOf(y)), NameWeight(y));
    }

    /** getZtgPrices: a new map from each category to the price of its asset
        in ZTG. */
    method GetZtgPrices(balance: AssetId -> real) returns (m: PriceMap)
      requires forall c :: c in categories ==> Quotable(balance, "ztg", c)
      ensures fresh(m) && m.Valid()
      ensures forall c :: m.Get(c) == if c in categories then Some(GetSpotPrice(balance, "ztg", c)) else None
      ensures CategoriesDistinct(categories) ==> Keys(m.entries) == categories
    {
      m := new PriceMap();
      for i := 0 to |categories|
        invariant fresh(m) && m.Valid()
        invariant forall c :: m.Get(c) == if c in categories[..i] then Some(GetSpotPrice(balance, "ztg", c)) else None
        invariant CategoriesDistinct(categories) ==> Keys(m.entries) == categories[..i]
      {
        var category := categories[i];
        NewKeyLast(m.entries, category, GetSpotPrice(balance, "ztg", category), categories, i);
        m.Set(category, GetSpotPrice(balance, "ztg", category));
        assert categories[..i + 1] == categories[..i] + [category];
      }
      assert categories[..|categories|] == categories;
    }

    /** getAssetPrices: a new map from each category to the price of one ZTG
        in that category's asset. */
    method GetAssetPrices(balance: AssetId -> real) returns (m: PriceMap)
      requires forall c :: c in categories ==> Quotable(balance, c, "ztg")
      ensures fresh(m) && m.Valid()
      ensures forall c :: m.Get(c) == if c in categories then Some(GetSpotPrice(balance, c, "ztg")) else None
      ensures CategoriesDistinct(categories) ==> Keys(m.entries) == categories
    {
      m := new PriceMap();
      for i := 0 to |categories|
        invariant fresh(m) && m.Valid()
        invariant forall c :: m.Get(c) == if c in categories[..i] then Some(GetSpotPrice(balance, c, "ztg")) else None
        invariant CategoriesDistinct(categories) ==> Keys(m.entries) == categories[..i]
      {
        var category := categories[i];
        NewKeyLast(m.entries, category, GetSpotPrice(balance, category, "ztg"), categories, i);
        m.Set(category, GetSpotPrice(balance, category, "ztg"));
        assert categories[..i + 1] == categories[..i] + [category];
      }
      assert categories[..|categories|] == categories;
    }

    /** fetchPrices: both caches are replaced by new maps keyed exactly by
        the categories. */
    method FetchPrices(balance: AssetId -> real)
      requires Valid()
      requires forall c :: c in categories ==> Quotable(balance, "ztg", c) && Quotable(balance, c, "ztg")
      modifies this
      ensures chainStatus == old(chainStatus)
      ensures endTimestamp == old(endTimestamp) && blockTimestamp == old(blockTimestamp)
      ensures disputes == old(disputes) && reportedOutcome == old(reportedOutcome)
      ensures Valid() && fresh(ztgPrices) && fresh(assetPrices)
      ensures forall c :: ztgPrices.Get(c) == if c in categories then Some(GetSpotPrice(balance, "ztg", c)) else None
      ensures forall c :: assetPrices.Get(c) == if c in categories then Some(GetSpotPrice(balance, c, "ztg")) else None
      ensures CategoriesDistinct(categories) ==> Keys(ztgPrices.entries) == categories && Keys(assetPrices.entries) == categories
    {
      var ztg := GetZtgPrices(balance);
      var asset := GetAssetPrices(balance);
      ztgPrices := ztg;
      assetPrices := asset;
    }

    /** updatePrices: the existing maps are updated in place at one key;
        both map objects and every other entry stay as they were. */
    method UpdatePrices(balance: AssetId -> real, category: string)
      requires Valid()
      requires Quotable(balance, "ztg", category) && Quotable(balance, category, "ztg")
      modifies ztgPrices, assetPrices
      ensures Valid()
      ensures ztgPrices.entries == Update(old(ztgPrices.entries), category, GetSpotPrice(balance, "ztg", category))
      ensures assetPrices.entries == Update(old(assetPrices.entries), category, GetSpotPrice(balance, category, "ztg"))
      ensures ztgPrices.Get(category) == Some(GetSpotPrice(balance, "ztg", category))
      ensures assetPrices.Get(category) == Some(GetSpotPrice(balance, category, "ztg"))
      ensures forall k :: k != category ==> ztgPrices.Get(k) == old(ztgPrices.Get(k)) && assetPrices.Get(k) == old(assetPrices.Get(k))
    {
      var ztgPrice := GetSpotPrice(balance, "ztg", category);
      var ztgMap := ztgPrices;
      ztgMap.Set(category, ztgPrice);
      var assetPrice := GetSpotPrice(balance, category, "ztg");
      var assetMap := assetPrices;
      assetMap.Set(category, assetPrice);
    }

    // -------------------------------------------------------------------
    // Ranking

    /** The ranking of the ZTG prices. */
    function RankingOf(): seq<(string, Ranking.Ranked)>
      reads this, ztgPrices
    {
      Ranking.Rankings(ztgPrices.entries)
    }

    /** leadingAsset: the leader's name and price, null when no category
        leads. */
    function LeadingAsset(): (leader: Option<(string, real)>)
      reads this, ztgPrices
      ensures leader.None? <==> forall i :: 0 <= i < |RankingOf()| ==> !RankingOf()[i].1.isLeader
      ensures leader.Some? ==> exists i :: 0 <= i < |RankingOf()| && RankingOf()[i].1.isLeader
                                 && leader.value == (RankingOf()[i].0, RankingOf()[i].1.price)
    {
      var r := RankingOf();
      var i := Ranking.FindLeader(r);
      if i == -1 then None else Some((r[i].0, r[i].1.price))
    }

    /** The leading asset is the category whose ZTG price is strictly above
        every other category's price, when there is one and at least two
        categories are priced. */
    lemma LeadingAssetIsUniqueTop()
      ensures var s := ztgPrices.entries;
        && (LeadingAsset().Some? <==> |s| >= 2 && exists k :: 0 <= k < |s| && Ranking.StrictlyTop(s, k))
        && (LeadingAsset().Some? ==> exists k :: 0 <= k < |s| && Ranking.StrictlyTop(s, k) && s[k] == LeadingAsset().value)
    {
      Ranking.FindLeaderIsUniqueTop(ztgPrices.entries);
    }
  }

  /** The last position of name in names, -1 when it is absent. */
  function LastPosition(names: seq<string>, name: string): (p: int)
    ensures -1 <= p < |names|
    ensures p == -1 <==> name !in names
    ensures p >= 0 ==> names[p] == name && forall j :: p < j < |names| ==> names[j] != name
  {
    LastBefore(names, name, |names|)
  }

  /** The last position of name among the first n names, or -1. */
  function LastBefore(names: seq<string>, name: string, n: nat): (p: int)
    requires n <= |names|
    ensures -1 <= p < n
    ensures p >= 0 ==> names[p] == name
    ensures forall j :: p < j < n ==> names[j] != name
  {
    if n == 0 then -1
    else if names[n - 1] == name then n - 1
    else LastBefore(names, name, n - 1)
  }
}
