/**
 * The handlers and display rules of lib/components/derby/ExchangeForm.tsx
 * that are plain logic: typing an amount, the quote recomputation, the
 * Max link, the displayed spot price, the overbought rule and the reset
 * after a successful trade. The form's own `spotPrice` state is an
 * optional price (the empty string is None).
 */
module ExchangeForm {
  import opened Common
  import opened JsMap
  import opened Market
  import opened Exchange
  import opened Page
  import AmmMath

  /** calcExchangeValues: "From" quotes the out-amount of fromAmount;
      anything else quotes the in-amount of toAmount. */
  method CalcExchangeValues(store: ExchangeStore, fromOrTo: Field, pow: (real, real) -> real)
    requires store.Live()
    requires fromOrTo == From ==> store.fromAmount.Some? && 0.0 <= store.fromAmount.value
    requires fromOrTo == To ==> store.toAmount.Some? && 0.0 <= store.toAmount.value < store.toPoolBalance.value
    modifies store
    ensures store.fromAsset == old(store.fromAsset) && store.toAsset == old(store.toAsset)
    ensures store.fromPoolBalance == old(store.fromPoolBalance) && store.toPoolBalance == old(store.toPoolBalance)
    ensures store.fromBalance == old(store.fromBalance) && store.toBalance == old(store.toBalance)
    ensures store.spotPrice == old(store.spotPrice) && store.loaded == old(store.loaded)
    ensures store.Live()
    ensures fromOrTo == From ==> store.fromAmount == old(store.fromAmount) && store.toAmount == Some(old(store.GetAmountOut(pow)))
    ensures fromOrTo == To ==> store.toAmount == old(store.toAmount) && store.fromAmount == Some(old(store.GetAmountIn(pow)))
    ensures fromOrTo == From && AmmMath.PowLaws(pow) ==> 0.0 <= store.toAmount.value < store.toPoolBalance.value
    ensures fromOrTo == From && AmmMath.PowLaws(pow) && AmmMath.PowInverseLaws(pow) ==>
      store.GetAmountIn(pow) == store.fromAmount.value
  {
    if fromOrTo == From {
      var amountOut := store.GetAmountOut(pow);
      store.SetToAmount(Amount(amountOut));
      if AmmMath.PowLaws(pow) {
        store.AmountOutBounds(pow);
        if AmmMath.PowInverseLaws(pow) {
          store.AmountRoundTrip(pow);
        }
      }
    } else {
      var amountIn := store.GetAmountIn(pow);
      store.SetFromAmount(Amount(amountIn));
    }
  }

  /** onInputAmountChange: an empty input counts as "0"; then the out-amount
      is quoted. */
  method OnInputAmountChange(store: ExchangeStore, v: AmountArg, pow: (real, real) -> real)
    requires store.Live()
    requires v.Amount? ==> 0.0 <= v.value
    modifies store
    ensures store.fromAsset == old(store.fromAsset) && store.toAsset == old(store.toAsset)
    ensures store.fromPoolBalance == old(store.fromPoolBalance) && store.toPoolBalance == old(store.toPoolBalance)
    ensures store.fromBalance == old(store.fromBalance) && store.toBalance == old(store.toBalance)
    ensures store.spotPrice == old(store.spotPrice) && store.loaded == old(store.loaded)
    ensures store.Live()
    ensures store.fromAmount == Some(if v.NoAmount? then 0.0 else v.value)
    ensures store.toAmount == Some(store.GetAmountOut(pow))
    ensures AmmMath.PowLaws(pow) && v.NoAmount? ==> store.toAmount == Some(0.0)
  {
    if v.NoAmount? {
      store.SetFromAmount(Amount(0.0));
    } else {
      store.SetFromAmount(v);
    }
    CalcExchangeValues(store, From, pow);
    if AmmMath.PowLaws(pow) {
      store.AmountOutBounds(pow);
    }
  }

  /** The ZTG amount the Max link offers: the active balance less 0.1 for
      fees, and never below 0. */
  function MaxSpendable(activeBalance: real): (amount: real)
    ensures 0.0 <= amount
    ensures activeBalance >= 0.1 ==> amount + 0.1 == activeBalance
    ensures activeBalance < 0.1 ==> amount == 0.0
  {
    var balance := activeBalance - 0.1;
    if balance < 0.0 then 0.0 else balance
  }

  /** onMaxClicked: ZTG to pay puts MaxSpendable in the amount; another
      asset puts the account's whole token balance (read from the chain);
      then the out-amount is quoted. */
  method OnMaxClicked(store: ExchangeStore, activeBalance: real, tokenBalance: real, pow: (real, real) -> real)
    requires store.Live() && 0.0 <= tokenBalance
    modifies store
    ensures store.fromAsset == old(store.fromAsset) && store.toAsset == old(store.toAsset)
    ensures store.fromPoolBalance == old(store.fromPoolBalance) && store.toPoolBalance == old(store.toPoolBalance)
    ensures store.fromBalance == old(store.fromBalance) && store.toBalance == old(store.toBalance)
    ensures store.spotPrice == old(store.spotPrice) && store.loaded == old(store.loaded)
    ensures store.Live()
    ensures store.fromAmount == Some(if store.fromAsset.value.name == "ztg" then MaxSpendable(activeBalance) else tokenBalance)
    ensures store.toAmount == Some(store.GetAmountOut(pow))
  {
    var amount;
    if store.fromAsset.value.name == "ztg" {
      amount := MaxSpendable(activeBalance);
    } else {
      amount := tokenBalance;
    }
    store.SetFromAmount(Amount(amount));
    CalcExchangeValues(store, From, pow);
  }

  /** The spot-price effect: once the store is loaded, the shown price is
      the ZTG price of the to-category when paying with "ztg", otherwise
      the asset price of the from-category; it changes only when that
      entry exists. */
  function ShownSpotPrice(loaded: bool, fromName: string, toName: string,
                          ztgPrices: seq<(string, real)>, assetPrices: seq<(string, real)>,
                          shown: Option<real>): (price: Option<real>)
    ensures !loaded ==> price == shown
    ensures loaded && fromName == "ztg" ==>
      price == if Lookup(ztgPrices, toName).Some? then Lookup(ztgPrices, toName) else shown
    ensures loaded && fromName != "ztg" ==>
      price == if Lookup(assetPrices, fromName).Some? then Lookup(assetPrices, fromName) else shown
  {
    if !loaded then shown
    else
      var entry := if fromName == "ztg" then Lookup(ztgPrices, toName) else Lookup(assetPrices, fromName);
      if entry.Some? then entry else shown
  }

  /** After fetchPrices, a loaded buy form for category c shows the price
      of one c token in ZTG, and a sell form the price of one ZTG in c
      tokens. */
  lemma ShownPriceAfterFetch(market: Market, balance: AssetId -> real, c: string, shown: Option<real>)
    requires c in market.categories && c != "ztg"
    requires forall k :: k in market.categories ==> market.Quotable(balance, "ztg", k) && market.Quotable(balance, k, "ztg")
    requires forall k :: market.ztgPrices.Get(k) == (if k in market.categories then Some(market.GetSpotPrice(balance, "ztg", k)) else None)
    requires forall k :: market.assetPrices.Get(k) == (if k in market.categories then Some(market.GetSpotPrice(balance, k, "ztg")) else None)
    ensures ShownSpotPrice(true, "ztg", c, market.ztgPrices.entries, market.assetPrices.entries, shown)
         == Some(market.GetSpotPrice(balance, "ztg", c))
    ensures ShownSpotPrice(true, c, "ztg", market.ztgPrices.entries, market.assetPrices.entries, shown)
         == Some(market.GetSpotPrice(balance, c, "ztg"))
  {
    assert market.ztgPrices.Get(c) == Lookup(market.ztgPrices.entries, c);
    assert market.assetPrices.Get(c) == Lookup(market.assetPrices.entries, c);
  }

  /** isOverbought: paying with ZTG at a shown price above 1 (the empty
      price reads as 0). */
  function IsOverbought(fromName: string, shown: Option<real>): (overbought: bool)
    ensures overbought <==> fromName == "ztg" && shown.Some? && shown.value > 1.0
    ensures overbought ==> fromName == "ztg"
  {
    fromName == "ztg" && (if shown.Some? then shown.value else 0.0) > 1.0
  }

  /** What the form renders besides the inputs. */
  datatype FormView = FormView(amountDisabled: bool, maxLink: bool, slippage: bool,
                               signButton: bool, overboughtNotice: bool)

  /** An overbought form disables the amount input and hides the Max link,
      the slippage field and the Sign Transaction button, showing a notice
      instead: exactly one of the button and the notice is rendered. */
  function ViewOf(overbought: bool): (v: FormView)
    ensures v.signButton != v.overboughtNotice
    ensures v.signButton <==> !overbought
    ensures v.amountDisabled == v.overboughtNotice
    ensures v.maxLink == v.signButton && v.slippage == v.signButton
  {
    FormView(overbought, !overbought, !overbought, !overbought, overbought)
  }

  /** The success callback of a trade: prices are fetched again, both
      stores of the category read their balances, and both amounts of the
      form's store return to "0"; the other store keeps its amounts. */
  method OnTradeSuccess(market: Market, page: PageStore, store: ExchangeStore, kind: TradeKind, catIndex: int,
                        balance: AssetId -> real, activeBalance: real, accountBalance: AssetId -> real)
    requires market.Valid() && page.market == market && page.Valid()
    requires forall c :: c in market.categories ==> market.Quotable(balance, "ztg", c) && market.Quotable(balance, c, "ztg")
    requires StoreKey(Buy, catIndex) in page.exchangeStores && StoreKey(Sell, catIndex) in page.exchangeStores
    requires store == page.exchangeStores[StoreKey(kind, catIndex)]
    requires forall k :: k in {Buy, Sell} ==>
      page.exchangeStores[StoreKey(k, catIndex)].fromAsset.Some? && page.exchangeStores[StoreKey(k, catIndex)].toAsset.Some?
    modifies market, page.exchangeStores[StoreKey(Buy, catIndex)], page.exchangeStores[StoreKey(Sell, catIndex)]
    ensures market.Valid()
    ensures forall c :: market.ztgPrices.Get(c) == if c in market.categories then Some(market.GetSpotPrice(balance, "ztg", c)) else None
    ensures forall c :: market.assetPrices.Get(c) == if c in market.categories then Some(market.GetSpotPrice(balance, c, "ztg")) else None
    ensures store.fromAmount == Some(0.0) && store.toAmount == Some(0.0)
    ensures store.fromAsset == old(store.fromAsset) && store.toAsset == old(store.toAsset)
    ensures store.fromPoolBalance == Some(balance(store.fromAsset.value.value))
    ensures store.toPoolBalance == Some(balance(store.toAsset.value.value))
    ensures store.fromBalance == Some(AccountBalanceOf(store.fromAsset.value, activeBalance, accountBalance))
    ensures store.toBalance == Some(AccountBalanceOf(store.toAsset.value, activeBalance, accountBalance))
    ensures store.spotPrice == old(store.spotPrice) && store.loaded == old(store.loaded)
    ensures forall k :: k in {Buy, Sell} && k != kind ==>
      var s := page.exchangeStores[StoreKey(k, catIndex)];
      && s.fromAsset == old(s.fromAsset) && s.toAsset == old(s.toAsset)
      && s.fromPoolBalance == Some(balance(s.fromAsset.value.value))
      && s.toPoolBalance == Some(balance(s.toAsset.value.value))
      && s.fromBalance == Some(AccountBalanceOf(s.fromAsset.value, activeBalance, accountBalance))
      && s.toBalance == Some(AccountBalanceOf(s.toAsset.value, activeBalance, accountBalance))
      && s.fromAmount == old(s.fromAmount) && s.toAmount == old(s.toAmount)
      && s.spotPrice == old(s.spotPrice) && s.loaded == old(s.loaded)
  {
    market.FetchPrices(balance);
    page.UpdateExchangeBalances(catIndex, balance, activeBalance, accountBalance);
    store.SetFromAmount(Amount(0.0));
    store.SetToAmount(Amount(0.0));
  }
}
