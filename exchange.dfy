/**
 * The exchange store of lib/state/Exchange.ts: one trade form's state, the
 * asset to pay with and the asset to receive, the two amounts, the
 * account's and the pool's balances of both assets and the spot price.
 *
 * Chain reads are parameters: `balance(asset)` is the pool account's
 * balance of an asset, `accountBalance(asset)` the trading account's
 * balance of an outcome asset and `activeBalance` its ZTG balance.
 * Exponentiation is the parameter `pow` of the pool formulas.
 */
module Exchange {
  import opened Common
  import opened JsMap
  import opened Market
  import AmmMath

  /** An entry of the asset selector: a name ("ztg" or a category) and its
      pool asset. */
  datatype AssetOption = AssetOption(name: string, value: AssetId)

  datatype Field = From | To

  /** What setAsset is given: a name to look up among the options, or an
      option itself. */
  datatype AssetChoice = ByName(name: string) | ByOption(option: AssetOption)

  /** The constructor's options: names to start from and to, each optional. */
  datatype StoreOptions = StoreOptions(fromName: Option<string>, toName: Option<string>)

  /** An amount argument of the setters: missing or the empty string (both
      falsy), or a decimal. */
  datatype AmountArg = NoAmount | Amount(value: real)

  /** The pool of a market with one asset per category and ZTG last. */
  predicate Tradable(market: Market) {
    market.pool.Some? && PoolFits(market.pool.value, market.categories)
  }

  /** assetOptions: one option per pool asset, in order; the last is named
      "ztg" and the i-th of the others after the i-th category. */
  function AssetOptions(market: Market): (opts: seq<AssetOption>)
    requires Tradable(market)
    ensures |opts| == |market.categories| + 1 == |market.pool.value.assets|
    ensures opts[|opts| - 1] == AssetOption("ztg", Ztg)
    ensures forall i :: 0 <= i < |opts| - 1 ==> opts[i].name == market.categories[i]
    ensures forall i :: 0 <= i < |opts| ==> opts[i].value == market.pool.value.assets[i]
  {
    var assets := market.pool.value.assets;
    seq(|assets|, i requires 0 <= i < |assets| =>
      AssetOption(if i == |assets| - 1 then "ztg" else market.categories[i], assets[i]))
  }

  predicate NamesDistinct(opts: seq<AssetOption>) {
    forall i, j :: 0 <= i < j < |opts| ==> opts[i].name != opts[j].name
  }

  /** The option names are distinct exactly when the categories are and
      none of them is "ztg". */
  lemma OptionNamesDistinct(market: Market)
    requires Tradable(market)
    ensures NamesDistinct(AssetOptions(market)) <==>
      "ztg" !in market.categories && forall i, j :: 0 <= i < j < |market.categories| ==> market.categories[i] != market.categories[j]
  {
    var opts := AssetOptions(market);
    var cs := market.categories;
    if NamesDistinct(opts) {
      forall i, j | 0 <= i < j < |cs| ensures cs[i] != cs[j] {
        assert opts[i].name == cs[i] && opts[j].name == cs[j];
      }
    }
  }

  /** With distinct names each option carries the asset the market's
      categoryAssetMap gives its name, so both stores agree on weights and
      balances. */
  lemma OptionsMatchAssetMap(market: Market, i: nat)
    requires Tradable(market) && NamesDistinct(AssetOptions(market)) && i < |AssetOptions(market)|
    ensures Lookup(market.CategoryAssetMap(), AssetOptions(market)[i].name) == Some(AssetOptions(market)[i].value)
    ensures market.AssetOf(AssetOptions(market)[i].name) == AssetOptions(market)[i].value
  {
    var opts := AssetOptions(market);
    market.CategoryAssetMapLookup(opts[i].name);
    if i < |opts| - 1 {
      var p := LastPosition(market.categories, opts[i].name);
      assert opts[p].name == opts[i].name;
    }
  }

  /** findIndex by name: the first option with that name, or -1. */
  function FindByName(opts: seq<AssetOption>, name: string): (i: int)
    ensures -1 <= i < |opts|
    ensures i >= 0 ==> opts[i].name == name && forall j :: 0 <= j < i ==> opts[j].name != name
    ensures i == -1 <==> forall j :: 0 <= j < |opts| ==> opts[j].name != name
  {
    if opts == [] then -1
    else if opts[0].name == name then 0
    else
      var i := FindByName(opts[1..], name);
      if i == -1 then -1 else i + 1
  }

  /** The option a collision moves the other side to: the first option
      when the chosen name is the last option's, the last option otherwise. */
  function OtherAsset(opts: seq<AssetOption>, name: string): (o: AssetOption)
    requires |opts| >= 1
    ensures o in opts
    ensures |opts| >= 2 && NamesDistinct(opts) ==> o.name != name
    ensures o == opts[0] || o == opts[|opts| - 1]
  {
    var idx := FindByName(opts, name);
    if idx == |opts| - 1 then opts[0] else opts[|opts| - 1]
  }

  /** The collision rule of setAsset: the named side takes c; when the
      other side holds the same name it moves to OtherAsset. */
  function Pick(opts: seq<AssetOption>, field: Field, c: AssetOption,
                from: Option<AssetOption>, to: Option<AssetOption>): (r: (Option<AssetOption>, Option<AssetOption>))
    requires |opts| >= 1
    ensures field == From ==> r.0 == Some(c)
    ensures field == To ==> r.1 == Some(c)
    ensures field == From && !(to.Some? && to.value.name == c.name) ==> r.1 == to
    ensures field == To && !(from.Some? && from.value.name == c.name) ==> r.0 == from
    ensures field == From && to.Some? && to.value.name == c.name ==> r.1 == Some(OtherAsset(opts, c.name))
    ensures field == To && from.Some? && from.value.name == c.name ==> r.0 == Some(OtherAsset(opts, c.name))
  {
    match field
    case From =>
      var same := to.Some? && to.value.name == c.name;
      (Some(c), if same then Some(OtherAsset(opts, c.name)) else to)
    case To =>
      var same := from.Some? && from.value.name == c.name;
      (if same then Some(OtherAsset(opts, c.name)) else from, Some(c))
  }

  /** After setAsset the two sides never share a name (with at least two
      options, all named differently), and each side that is set is one
      of the options or the chosen asset. */
  lemma PickSeparates(opts: seq<AssetOption>, field: Field, c: AssetOption,
                      from: Option<AssetOption>, to: Option<AssetOption>)
    requires |opts| >= 2 && NamesDistinct(opts)
    ensures var r := Pick(opts, field, c, from, to);
      r.0.Some? && r.1.Some? ==> r.0.value.name != r.1.value.name
  {
  }

  /** On a collision the other side becomes the first option exactly when
      the chosen asset is the last option. */
  lemma CollisionTarget(opts: seq<AssetOption>, c: AssetOption)
    requires |opts| >= 2 && NamesDistinct(opts) && c in opts
    ensures OtherAsset(opts, c.name) == if c == opts[|opts| - 1] then opts[0] else opts[|opts| - 1]
  {
    var idx := FindByName(opts, c.name);
    var k :| 0 <= k < |opts| && opts[k] == c;
    assert idx == k;
  }

  /** The option setAsset is given, a name resolved with find. */
  function Resolve(opts: seq<AssetOption>, choice: AssetChoice): (c: AssetOption)
    requires choice.ByName? ==> FindByName(opts, choice.name) >= 0
    ensures choice.ByName? ==> c in opts && c.name == choice.name
    ensures choice.ByOption? ==> c == choice.option
  {
    match choice
    case ByName(name) => opts[FindByName(opts, name)]
    case ByOption(option) => option
  }

  /** A setAsset argument the source can handle: a name among the options,
      or one of the options. */
  predicate Choosable(opts: seq<AssetOption>, choice: AssetChoice) {
    match choice
    case ByName(name) => FindByName(opts, name) >= 0
    case ByOption(option) => option in opts
  }

  /** The assets initialize starts with: the named option or the first
      (from) and the named option or the last (to), each put through
      setAsset in that order. */
  function InitialAssets(opts: seq<AssetOption>, options: StoreOptions): (r: (Option<AssetOption>, Option<AssetOption>))
    requires |opts| >= 1
    requires options.fromName.Some? ==> FindByName(opts, options.fromName.value) >= 0
    requires options.toName.Some? ==> FindByName(opts, options.toName.value) >= 0
    ensures r.0.Some? && r.1.Some? && r.0.value in opts && r.1.value in opts
  {
    var from := if options.fromName.Some? then Resolve(opts, ByName(options.fromName.value)) else opts[0];
    var to := if options.toName.Some? then Resolve(opts, ByName(options.toName.value)) else opts[|opts| - 1];
    var afterFrom := Pick(opts, From, from, None, None);
    Pick(opts, To, to, afterFrom.0, afterFrom.1)
  }

  /** With no names given a store trades the first option for the last. */
  lemma InitialDefaults(opts: seq<AssetOption>)
    requires |opts| >= 2 && NamesDistinct(opts)
    ensures InitialAssets(opts, StoreOptions(None, None)) == (Some(opts[0]), Some(opts[|opts| - 1]))
  {
  }

  // ---------------------------------------------------------------------
  // Price impact

  /** calcImpact as written: the balances after the trade take fromAmount
      OUT of the in-balance. The result is a percentage. */
  function ImpactAsWritten(balanceIn: real, weightIn: real, balanceOut: real, weightOut: real, swapFee: real,
                           amountIn: real, amountOut: real): (percent: real)
    requires weightIn != 0.0 && weightOut != 0.0 && swapFee != 1.0
    requires balanceOut != 0.0 && balanceOut - amountOut != 0.0
    requires AmmMath.SpotPrice(balanceIn, weightIn, balanceOut, weightOut, swapFee) != 0.0
    ensures (AmmMath.Quotable(balanceIn, weightIn, balanceOut, weightOut, swapFee)
             && 0.0 < amountIn < balanceIn && amountOut == 0.0) ==> percent < 0.0
  {
    DepositAsWithdrawal(balanceIn, weightIn, balanceOut, weightOut, swapFee, amountIn);
    var before := AmmMath.SpotPrice(balanceIn, weightIn, balanceOut, weightOut, swapFee);
    var after := AmmMath.SpotPrice(balanceIn - amountIn, weightIn, balanceOut - amountOut, weightOut, swapFee);
    (after - before) / before * 100.0
  }

  /** Taking a deposit out of the in-balance, as calcImpact does, lowers
      the price it compares against: the reported change is negative. */
  lemma DepositAsWithdrawal(balanceIn: real, weightIn: real, balanceOut: real, weightOut: real, swapFee: real,
                            amountIn: real)
    requires weightIn != 0.0 && weightOut != 0.0 && swapFee != 1.0 && balanceOut != 0.0
    ensures AmmMath.Quotable(balanceIn, weightIn, balanceOut, weightOut, swapFee) && 0.0 < amountIn < balanceIn ==>
      var before := AmmMath.SpotPrice(balanceIn, weightIn, balanceOut, weightOut, swapFee);
      var after := AmmMath.SpotPrice(balanceIn - amountIn, weightIn, balanceOut - 0.0, weightOut, swapFee);
      before != 0.0 && (after - before) / before * 100.0 < 0.0
  {
    if AmmMath.Quotable(balanceIn, weightIn, balanceOut, weightOut, swapFee) && 0.0 < amountIn < balanceIn {
      var before := AmmMath.SpotPrice(balanceIn, weightIn, balanceOut, weightOut, swapFee);
      var after := AmmMath.SpotPrice(balanceIn - amountIn, weightIn, balanceOut, weightOut, swapFee);
      assert balanceOut - 0.0 == balanceOut;
      AmmMath.SpotPricePositive(balanceIn - amountIn, weightIn, balanceOut, weightOut, swapFee);
      AmmMath.SpotPriceMonotone(balanceIn - amountIn, balanceIn, weightIn, balanceOut, balanceOut, weightOut, swapFee);
      ScaledLoss(before, after);
    }
  }

  /** (after - before) / before * 100 is negative when after < before. */
  lemma ScaledLoss(before: real, after: real)
    requires 0.0 < after < before
    ensures (after - before) / before * 100.0 < 0.0
  {
    AmmMath.PositiveQuotient(before - after, before);
    assert (after - before) / before == -((before - after) / before);
  }

  /** The change of the spot price caused by a trade, in percent: the pool
      receives amountIn and pays out amountOut. */
  function Impact(balanceIn: real, weightIn: real, balanceOut: real, weightOut: real, swapFee: real,
                  amountIn: real, amountOut: real): (percent: real)
    requires AmmMath.Quotable(balanceIn, weightIn, balanceOut, weightOut, swapFee)
    requires amountOut < balanceOut
    ensures 0.0 <= amountIn && 0.0 <= amountOut ==> percent >= 0.0
    ensures (0.0 < amountIn && 0.0 <= amountOut) || (0.0 <= amountIn && 0.0 < amountOut) ==> percent > 0.0
  {
    ImpactPositive(balanceIn, weightIn, balanceOut, weightOut, swapFee, amountIn, amountOut);
    var before := AmmMath.SpotPrice(balanceIn, weightIn, balanceOut, weightOut, swapFee);
    var after := AmmMath.SpotPrice(balanceIn + amountIn, weightIn, balanceOut - amountOut, weightOut, swapFee);
    (after - before) / before * 100.0
  }

  /** A trade that puts tokens in and takes tokens out never lowers the
      price of the out-asset, and raises it when either amount is positive. */
  lemma ImpactPositive(balanceIn: real, weightIn: real, balanceOut: real, weightOut: real, swapFee: real,
                       amountIn: real, amountOut: real)
    requires AmmMath.Quotable(balanceIn, weightIn, balanceOut, weightOut, swapFee)
    requires amountOut < balanceOut
    ensures AmmMath.SpotPrice(balanceIn, weightIn, balanceOut, weightOut, swapFee) > 0.0
    ensures var before := AmmMath.SpotPrice(balanceIn, weightIn, balanceOut, weightOut, swapFee);
      var after := AmmMath.SpotPrice(balanceIn + amountIn, weightIn, balanceOut - amountOut, weightOut, swapFee);
      && (0.0 <= amountIn && 0.0 <= amountOut ==> (after - before) / before * 100.0 >= 0.0)
      && ((0.0 < amountIn && 0.0 <= amountOut) || (0.0 <= amountIn && 0.0 < amountOut) ==> (after - before) / before * 100.0 > 0.0)
  {
    var before := AmmMath.SpotPrice(balanceIn, weightIn, balanceOut, weightOut, swapFee);
    var after := AmmMath.SpotPrice(balanceIn + amountIn, weightIn, balanceOut - amountOut, weightOut, swapFee);
    AmmMath.SpotPricePositive(balanceIn, weightIn, balanceOut, weightOut, swapFee);
    if 0.0 <= amountIn && 0.0 <= amountOut {
      AmmMath.SpotPriceMonotone(balanceIn, balanceIn + amountIn, weightIn, balanceOut, balanceOut - amountOut, weightOut, swapFee);
      ScaledGain(before, after);
    }
  }

  /** (after - before) / before * 100 has the sign of after - before. */
  lemma ScaledGain(before: real, after: real)
    requires 0.0 < before <= after
    ensures (after - before) / before * 100.0 >= 0.0
    ensures after > before ==> (after - before) / before * 100.0 > 0.0
  {
    AmmMath.PositiveQuotientOfNonNegative(after - before, before);
    if after > before {
      AmmMath.PositiveQuotient(after - before, before);
    }
  }

  /** The formula as written reports a price drop for a trade that raises
      the price: 10 in against the equal-weight quote of 100/11 out of a
      100/100 pool. */
  lemma ImpactAsWrittenSignWrong()
    ensures AmmMath.SpotPrice(100.0, 1.0, 100.0, 1.0, 0.0) == 1.0
    ensures ImpactAsWritten(100.0, 1.0, 100.0, 1.0, 0.0, 10.0, 100.0 / 11.0) == -1.0
    ensures Impact(100.0, 1.0, 100.0, 1.0, 0.0, 10.0, 100.0 / 11.0) == 21.0
  {
    var out := 100.0 - 100.0 / 11.0;
    assert out == 1000.0 / 11.0;
    assert AmmMath.SpotPrice(90.0, 1.0, out, 1.0, 0.0) == 0.99 by {
      AmmMath.SpotPriceUnique(90.0, 1.0, out, 1.0, 0.0, 0.99);
    }
    assert AmmMath.SpotPrice(110.0, 1.0, out, 1.0, 0.0) == 1.21 by {
      AmmMath.SpotPriceUnique(110.0, 1.0, out, 1.0, 0.0, 1.21);
    }
    assert AmmMath.SpotPrice(100.0, 1.0, 100.0, 1.0, 0.0) == 1.0 by {
      AmmMath.SpotPriceUnique(100.0, 1.0, 100.0, 1.0, 0.0, 1.0);
    }
  }

  // ---------------------------------------------------------------------
  // The store

  class ExchangeStore {
    const market: Market
    const options: StoreOptions
    var loaded: bool
    var fromAsset: Option<AssetOption>
    var toAsset: Option<AssetOption>
    var fromAmount: Option<real>
    var toAmount: Option<real>
    /** The account's balances of the two assets. */
    var fromBalance: Option<real>
    var toBalance: Option<real>
    /** The pool's balances of the two assets. */
    var fromPoolBalance: Option<real>
    var toPoolBalance: Option<real>
    var spotPrice: Option<real>

    /** The market has a derby pool and each side that is set is one of
        its options. */
    ghost predicate Valid()
      reads this
    {
      && Tradable(market)
      && (fromAsset.Some? ==> fromAsset.value in AssetOptions(market))
      && (toAsset.Some? ==> toAsset.value in AssetOptions(market))
    }

    /** The constructor and the synchronous part of initialize: both sides
        chosen through setAsset, both amounts "0", nothing loaded yet. */
    constructor (market: Market, options: StoreOptions)
      requires Tradable(market)
      requires options.fromName.Some? ==> FindByName(AssetOptions(market), options.fromName.value) >= 0
      requires options.toName.Some? ==> FindByName(AssetOptions(market), options.toName.value) >= 0
      ensures Valid() && this.market == market && this.options == options && !loaded
      ensures (fromAsset, toAsset) == InitialAssets(AssetOptions(market), options)
      ensures fromAmount == Some(0.0) && toAmount == Some(0.0)
      ensures fromBalance.None? && toBalance.None? && fromPoolBalance.None? && toPoolBalance.None?
      ensures spotPrice.None?
    {
      this.market := market;
      this.options := options;
      loaded := false;
      fromAsset, toAsset := None, None;
      fromAmount, toAmount := None, None;
      fromBalance, toBalance := None, None;
      fromPoolBalance, toPoolBalance := None, None;
      spotPrice := None;
      new;
      var opts := AssetOptions(market);
      var from := if options.fromName.Some? then ByName(options.fromName.value) else ByOption(opts[0]);
      var to := if options.toName.Some? then ByName(options.toName.value) else ByOption(opts[|opts| - 1]);
      SetAsset(From, from);
      SetAsset(To, to);
      SetFromAmount(Amount(0.0));
      SetToAmount(Amount(0.0));
    }

    /** The rest of initialize, once the chain reads resolve: balances,
        then the spot price, then loaded. */
    method CompleteInitialize(balance: AssetId -> real, activeBalance: real, accountBalance: AssetId -> real)
      requires Valid() && fromAsset.Some? && toAsset.Some?
      requires market.Quotable(balance, fromAsset.value.name, toAsset.value.name)
      modifies this
      ensures Valid() && loaded
      ensures fromAsset == old(fromAsset) && toAsset == old(toAsset)
      ensures fromAmount == old(fromAmount) && toAmount == old(toAmount)
      ensures fromPoolBalance == Some(balance(fromAsset.value.value)) && toPoolBalance == Some(balance(toAsset.value.value))
      ensures fromBalance == Some(AccountBalanceOf(fromAsset.value, activeBalance, accountBalance))
      ensures toBalance == Some(AccountBalanceOf(toAsset.value, activeBalance, accountBalance))
      ensures spotPrice == Some(market.GetSpotPrice(balance, fromAsset.value.name, toAsset.value.name))
    {
      InitializeBalances(balance, activeBalance, accountBalance);
      SetSpotPrice(balance);
      loaded := true;
    }

    /** setFromAmount: a missing or empty amount leaves fromAmount as it was. */
    method SetFromAmount(amount: AmountArg)
      modifies this
      ensures fromAmount == if amount.Amount? then Some(amount.value) else old(fromAmount)
      ensures toAmount == old(toAmount) && fromAsset == old(fromAsset) && toAsset == old(toAsset)
      ensures loaded == old(loaded) && spotPrice == old(spotPrice)
      ensures fromBalance == old(fromBalance) && toBalance == old(toBalance)
      ensures fromPoolBalance == old(fromPoolBalance) && toPoolBalance == old(toPoolBalance)
    {
      if amount.Amount? {
        fromAmount := Some(amount.value);
      }
    }

    /** setToAmount: a missing or empty amount leaves toAmount as it was. */
    method SetToAmount(amount: AmountArg)
      modifies this
      ensures toAmount == if amount.Amount? then Some(amount.value) else old(toAmount)
      ensures fromAmount == old(fromAmount) && fromAsset == old(fromAsset) && toAsset == old(toAsset)
      ensures loaded == old(loaded) && spotPrice == old(spotPrice)
      ensures fromBalance == old(fromBalance) && toBalance == old(toBalance)
      ensures fromPoolBalance == old(fromPoolBalance) && toPoolBalance == old(toPoolBalance)
    {
      if amount.Amount? {
        toAmount := Some(amount.value);
      }
    }

    /** setAsset: the named side takes the chosen asset; on a name
        collision the other side moves to OtherAsset. Nothing else changes. */
    method SetAsset(field: Field, asset: AssetChoice)
      requires Valid() && Choosable(AssetOptions(market), asset)
      modifies this
      ensures Valid()
      ensures (fromAsset, toAsset) == Pick(AssetOptions(market), field, Resolve(AssetOptions(market), asset), old(fromAsset), old(toAsset))
      ensures |AssetOptions(market)| >= 2 && NamesDistinct(AssetOptions(market))
        ==> (fromAsset.Some? && toAsset.Some? ==> fromAsset.value.name != toAsset.value.name)
      ensures fromAmount == old(fromAmount) && toAmount == old(toAmount)
      ensures loaded == old(loaded) && spotPrice == old(spotPrice)
      ensures fromBalance == old(fromBalance) && toBalance == old(toBalance)
      ensures fromPoolBalance == old(fromPoolBalance) && toPoolBalance == old(toPoolBalance)
    {
      var opts := AssetOptions(market);
      var c := Resolve(opts, asset);
      var r := Pick(opts, field, c, fromAsset, toAsset);
      if |opts| >= 2 && NamesDistinct(opts) {
        PickSeparates(opts, field, c, fromAsset, toAsset);
      }
      if r.0.Some? {
        fromAsset := r.0;
      }
      if r.1.Some? {
        toAsset := r.1;
      }
    }

    /** swapAssets: the two sides trade places; the amounts stay (the
        setters get ""), and the spot price and balances are read again. */
    method SwapAssets(balance: AssetId -> real, activeBalance: real, accountBalance: AssetId -> real)
      requires Valid() && fromAsset.Some? && toAsset.Some?
      requires market.Quotable(balance, toAsset.value.name, fromAsset.value.name)
      modifies this
      ensures Valid()
      ensures fromAsset == old(toAsset) && toAsset == old(fromAsset)
      ensures fromAmount == old(fromAmount) && toAmount == old(toAmount) && loaded == old(loaded)
      ensures spotPrice == Some(market.GetSpotPrice(balance, fromAsset.value.name, toAsset.value.name))
      ensures fromPoolBalance == Some(balance(fromAsset.value.value)) && toPoolBalance == Some(balance(toAsset.value.value))
      ensures fromBalance == Some(AccountBalanceOf(fromAsset.value, activeBalance, accountBalance))
      ensures toBalance == Some(AccountBalanceOf(toAsset.value, activeBalance, accountBalance))
    {
      var from := fromAsset;
      fromAsset := toAsset;
      toAsset := from;
      SetFromAmount(NoAmount);
      SetToAmount(NoAmount);
      SetSpotPrice(balance);
      InitializeBalances(balance, activeBalance, accountBalance);
    }

    /** initializeBalances: setPoolBalances, then setAccountBalances. */
    method InitializeBalances(balance: AssetId -> real, activeBalance: real, accountBalance: AssetId -> real)
      requires fromAsset.Some? && toAsset.Some?
      modifies this
      ensures fromAsset == old(fromAsset) && toAsset == old(toAsset)
      ensures fromPoolBalance == Some(balance(fromAsset.value.value)) && toPoolBalance == Some(balance(toAsset.value.value))
      ensures fromBalance == Some(AccountBalanceOf(fromAsset.value, activeBalance, accountBalance))
      ensures toBalance == Some(AccountBalanceOf(toAsset.value, activeBalance, accountBalance))
      ensures fromAmount == old(fromAmount) && toAmount == old(toAmount)
      ensures loaded == old(loaded) && spotPrice == old(spotPrice)
    {
      fromPoolBalance := Some(balance(fromAsset.value.value));
      toPoolBalance := Some(balance(toAsset.value.value));
      fromBalance := Some(AccountBalanceOf(fromAsset.value, activeBalance, accountBalance));
      toBalance := Some(AccountBalanceOf(toAsset.value, activeBalance, accountBalance));
    }

    /** setSpotPrice: the market's spot price for the pair, the price of
        one to-asset counted in the from-asset. */
    method SetSpotPrice(balance: AssetId -> real)
      requires Valid() && fromAsset.Some? && toAsset.Some?
      requires market.Quotable(balance, fromAsset.value.name, toAsset.value.name)
      modifies this
      ensures fromAsset == old(fromAsset) && toAsset == old(toAsset)
      ensures spotPrice == Some(market.GetSpotPrice(balance, fromAsset.value.name, toAsset.value.name))
      ensures fromAmount == old(fromAmount) && toAmount == old(toAmount) && loaded == old(loaded)
      ensures fromBalance == old(fromBalance) && toBalance == old(toBalance)
      ensures fromPoolBalance == old(fromPoolBalance) && toPoolBalance == old(toPoolBalance)
    {
      spotPrice := Some(market.GetSpotPrice(balance, fromAsset.value.name, toAsset.value.name));
    }

    /** inWeight: the pool weight of the from-asset; null without one. */
    function InWeight(): (w: Option<real>)
      reads this
      requires Valid()
      ensures w.None? <==> fromAsset.None?
      ensures w.Some? ==> w.value > 0.0 && w.value == market.pool.value.weights[fromAsset.value.value]
    {
      if fromAsset.None? then None else Some(market.pool.value.weights[fromAsset.value.value])
    }

    /** outWeight: the pool weight of the to-asset; null without one. */
    function OutWeight(): (w: Option<real>)
      reads this
      requires Valid()
      ensures w.None? <==> toAsset.None?
      ensures w.Some? ==> w.value > 0.0 && w.value == market.pool.value.weights[toAsset.value.value]
    {
      if toAsset.None? then None else Some(market.pool.value.weights[toAsset.value.value])
    }

    /** Both pool balances and both weights are known. */
    ghost predicate Priced()
      reads this
    {
      Valid() && fromAsset.Some? && toAsset.Some? && fromPoolBalance.Some? && toPoolBalance.Some?
    }

    /** The pool quote is live: positive balances and a fee below one. */
    ghost predicate Live()
      reads this
    {
      && Priced()
      && AmmMath.Quotable(fromPoolBalance.value, InWeight().value, toPoolBalance.value, OutWeight().value,
                          market.pool.value.swapFee)
    }

    /** getAmountOut: calcOutGivenIn on the pool balances, the weights
        and the pool's swap fee. */
    function GetAmountOut(pow: (real, real) -> real): (amountOut: real)
      reads this
      requires Live() && fromAmount.Some? && 0.0 <= fromAmount.value
      ensures AmmMath.PowLaws(pow) && fromAmount.value == 0.0 ==> amountOut == 0.0
    {
      var fee := market.pool.value.swapFee;
      AmmMath.OutBaseInUnit(fromPoolBalance.value, fromAmount.value, fee);
      AmmMath.OutGivenIn(pow, fromPoolBalance.value, InWeight().value, toPoolBalance.value, OutWeight().value,
                         fromAmount.value, fee)
    }

    /** getAmountIn: calcInGivenOut on the pool balances, the weights and
        the pool's swap fee. */
    function GetAmountIn(pow: (real, real) -> real): (amountIn: real)
      reads this
      requires Live() && toAmount.Some? && toAmount.value < toPoolBalance.value
      ensures AmmMath.PowLaws(pow) && toAmount.value == 0.0 ==> amountIn == 0.0
    {
      AmmMath.InGivenOut(pow, fromPoolBalance.value, InWeight().value, toPoolBalance.value, OutWeight().value,
                         toAmount.value, market.pool.value.swapFee)
    }

    /** The out-quote is never negative and always less than the pool holds. */
    lemma AmountOutBounds(pow: (real, real) -> real)
      requires AmmMath.PowLaws(pow)
      requires Live() && fromAmount.Some? && 0.0 <= fromAmount.value
      ensures 0.0 <= GetAmountOut(pow) < toPoolBalance.value
    {
      AmmMath.OutGivenInBounds(pow, fromPoolBalance.value, InWeight().value, toPoolBalance.value, OutWeight().value,
                               fromAmount.value, market.pool.value.swapFee);
    }

    /** The in-quote is never negative. */
    lemma AmountInBounds(pow: (real, real) -> real)
      requires AmmMath.PowLaws(pow)
      requires Live() && toAmount.Some? && 0.0 <= toAmount.value < toPoolBalance.value
      ensures 0.0 <= GetAmountIn(pow)
    {
      AmmMath.InGivenOutNonNegative(pow, fromPoolBalance.value, InWeight().value, toPoolBalance.value, OutWeight().value,
                                    toAmount.value, market.pool.value.swapFee);
    }

    /** Quoting the out-amount of fromAmount and then the in-amount of that
        quote gives fromAmount back. */
    lemma AmountRoundTrip(pow: (real, real) -> real)
      requires AmmMath.PowLaws(pow) && AmmMath.PowInverseLaws(pow)
      requires Live() && fromAmount.Some? && 0.0 <= fromAmount.value
      requires toAmount == Some(GetAmountOut(pow))
      ensures 0.0 <= toAmount.value < toPoolBalance.value
      ensures GetAmountIn(pow) == fromAmount.value
    {
      AmountOutBounds(pow);
      AmmMath.RoundTrip(pow, fromPoolBalance.value, InWeight().value, toPoolBalance.value, OutWeight().value,
                        fromAmount.value, market.pool.value.swapFee);
    }

    /** cost: fromAmount priced at the spot price; null without a spot
        price. */
    function Cost(): (c: Option<real>)
      reads this
      requires spotPrice.Some? ==> fromAmount.Some?
      ensures c.None? <==> spotPrice.None?
      ensures c.Some? && spotPrice.value != 0.0 ==> c.value / spotPrice.value == fromAmount.value
      ensures c.Some? && (fromAmount.value == 0.0 || spotPrice.value == 0.0) ==> c.value == 0.0
    {
      if spotPrice.None? then None else Some(spotPrice.value * fromAmount.value)
    }

    /** maxProfit: with ZTG to pay, what is received beyond what is paid;
        null for any other from-asset. */
    function MaxProfit(): (profit: Option<real>)
      reads this
      requires fromAsset.Some?
      requires fromAsset.value.value == Ztg ==> fromAmount.Some? && toAmount.Some?
      ensures profit.Some? <==> fromAsset.value.value == Ztg
      ensures profit.Some? ==> fromAmount.value + profit.value == toAmount.value
    {
      if fromAsset.value.value == Ztg then Some(toAmount.value - fromAmount.value) else None
    }

    /** calcImpact: how much the trade of fromAmount for toAmount moves the
        spot price, in percent (the corrected formula). */
    function CalcImpact(balance: AssetId -> real): (percent: real)
      reads this
      requires Valid() && fromAsset.Some? && toAsset.Some? && fromAmount.Some? && toAmount.Some?
      requires AmmMath.Quotable(balance(fromAsset.value.value), InWeight().value, balance(toAsset.value.value),
                                OutWeight().value, market.pool.value.swapFee)
      requires toAmount.value < balance(toAsset.value.value)
      ensures 0.0 <= fromAmount.value && 0.0 <= toAmount.value ==> percent >= 0.0
      ensures 0.0 < fromAmount.value && 0.0 <= toAmount.value ==> percent > 0.0
    {
      Impact(balance(fromAsset.value.value), InWeight().value, balance(toAsset.value.value), OutWeight().value,
             market.pool.value.swapFee, fromAmount.value, toAmount.value)
    }
  }

  /** setAccountBalances for one side: the active ZTG balance for "ztg",
      the account's token balance of the asset otherwise. */
  function AccountBalanceOf(option: AssetOption, activeBalance: real, accountBalance: AssetId -> real): (b: real)
    ensures option.name == "ztg" ==> b == activeBalance
    ensures option.name != "ztg" ==> b == accountBalance(option.value)
  {
    if option.name == "ztg" then activeBalance else accountBalance(option.value)
  }
}
