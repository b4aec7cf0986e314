# Derby trading core in Dafny

Derby is a web front end for Zeitgeist prediction markets. Each market is
shown as a horse race. The categories of a categorical market are the
horses, and a horse's position is its outcome token's price in ZTG, the
base token. Users buy and sell outcome tokens against the market's
weighted constant-value pool.

This project models the logic behind that page and proves properties of it:

- **AmmMath** (`amm_math.dfy`): the pool formulas of `lib/math.ts`. These
  are the spot price, the amount out for an amount in, and the amount in
  for an amount out.
- **Ranking** (`ranking.dfy`): the price ranking of `lib/state/Market.ts`,
  which `lib/state/Page.ts` repeats. Entries are sorted by descending
  price with a stable sort. Ranks are dense, and the top entry is the
  leader only when its price is strictly above every other price.
- **Market** (`market.dfy`): the market store. It covers the lifecycle
  status, the map from category names to pool assets, the weights, spot
  prices, the two price maps (`ztgPrices`, `assetPrices`) with their
  refresh, and the leading asset.
- **Exchange** (`exchange.dfy`): the store of one trade form. It covers the
  asset options and the collision rule of `setAsset`, the amounts, the
  balances, the quotes, cost, maximum profit and price impact.
- **Page** (`page.dfy`): the page store. It covers the stored ranking, the
  winner, redeemability, and the table of exchange stores keyed by (buy or
  sell, category index).
- **ExchangeForm** (`exchange_form.dfy`): the handlers of the trade form.
  These are typing an amount, the Max link, the shown spot price, the
  overbought rule and the reset after a successful trade.
- **AmountInput** (`amount_input.dfy`): the amount field. It covers the
  regular expression, the `prepareVal` clean-up loop, `checkVal`, `strip`
  and the trim on blur.
- **Track** (`track.dfy`): the buy/sell form toggles with their
  animation effect, the price percentage, and which controls are rendered.
- **TradeCards** (`trade_cards.dfy`): how categories are dealt into two
  columns of cards.
- **Wallets** (`wallets.dfy`): the wallet store. It covers error messages
  per extension, account labels, the default account and the account
  setters.
- **Util** (`util.dfy`): `shortenAddress`, and the callbacks that
  `processEvents` and `extrinsicCallback` trigger for a transaction result.
- **JsMap** and **Common**: a JavaScript `Map` with string keys, kept as
  a list of entries in insertion order, plus `slice` and ASCII lower-casing.

How the model represents the source:

- Decimal.js values become exact `real`s.
- Chain reads become parameters: the pool's balance of an asset, the
  account's balances and the active ZTG balance.
- Dafny has no real power function, so exponentiation is a parameter
  `pow`. The properties that need it assume only the laws of real
  exponentiation they use (`AmmMath.PowLaws`, `AmmMath.PowInverseLaws`).
- A `Map` the stores share and update in place is a class
  (`JsMap.PriceMap`).
- A store whose fields its methods change is a class with those fields.
- A callback call is recorded as an action in a trace instead of being run.

## Model

| member | source | states |
|---|---|---|
| AmmMath.SpotPrice | lib/math.ts:5-18 | the price times (1 - fee) times the weighted out-balance equals the weighted in-balance |
| AmmMath.SpotPriceUnique | lib/math.ts:5-18 | the spot price is the only value satisfying that equation |
| AmmMath.SpotPriceNoFee | lib/math.ts:5-18 | with no fee the price is the ratio of the weighted balances |
| AmmMath.SpotPricePositive | lib/math.ts:5-18 | positive balances and weights and a fee below one give a positive price |
| AmmMath.SpotPriceMonotone | lib/math.ts:5-18 | more in-balance or less out-balance never lowers the price, and raises it when either changes strictly |
| AmmMath.SpotPriceScaleBalances | lib/math.ts:5-18 | scaling both balances by one positive factor leaves the price unchanged |
| AmmMath.SpotPriceScaleWeights | lib/math.ts:5-18 | scaling both weights by one positive factor leaves the price unchanged |
| AmmMath.SpotPriceReciprocal | lib/math.ts:5-18 | with no fee, the price of a in b times the price of b in a is 1 |
| AmmMath.SpotPriceFeeAboveRatio | lib/math.ts:5-18 | a fee strictly between 0 and 1 puts the price strictly above the fee-free ratio |
| AmmMath.OutGivenIn | lib/math.ts:20-39 | under the power laws, selling nothing buys nothing |
| AmmMath.OutGivenInBounds | lib/math.ts:20-39 | a quote from a live pool is at least 0 and below the out-balance, so it never drains the pool |
| AmmMath.OutGivenInStrictlyIncreasing | lib/math.ts:20-39 | selling strictly more buys strictly more |
| AmmMath.OutGivenInEqualWeights | lib/math.ts:20-39 | with equal weights the out-quote is the fee-adjusted constant-product amount |
| AmmMath.OutGivenInExample | lib/math.ts:20-39 | 10 in to a 100/100 pool with equal weights and no fee gives 100/11 out |
| AmmMath.InGivenOut | lib/math.ts:41-57 | under the power laws, buying nothing costs nothing |
| AmmMath.InGivenOutNonNegative | lib/math.ts:41-57 | within the out-balance the in-quote is never negative |
| AmmMath.InGivenOutEqualWeights | lib/math.ts:41-57 | with equal weights the in-quote is the fee-adjusted constant-product amount |
| AmmMath.RoundTripEqualWeights | lib/math.ts:20-57 | with equal weights, the in-quote for the out-quote of an amount is that amount |
| AmmMath.RoundTrip | lib/math.ts:20-57 | the same round trip for any positive weights, under the inverse laws of exponentiation |
| JsMap.IndexOf | lib/state/Market.ts:251-262 | the position `Map.get` and `Map.set` look a key up at: the first entry holding it, or -1 when no entry has it |
| JsMap.Lookup | lib/components/derby/Track.tsx:219 | Map.get is None exactly when no entry has the key, and otherwise the value of an entry with that key |
| JsMap.UpdateKeys | lib/state/Market.ts:251-262 | Map.set keeps iteration order: a present key stays in place and a new key goes last |
| JsMap.LookupUpdate | lib/state/Market.ts:251-262 | after set the key holds the new value, every other key keeps its value, and keys stay distinct |
| JsMap.PriceMap.Set | lib/state/Market.ts:251-262 | the entries are updated in place at one key and no other key changes |
| Ranking.SortDescProperties | lib/state/Market.ts:155 | the sort is a permutation of the entries, descending by price, and stable among equal prices |
| Ranking.SortDesc | lib/state/Market.ts:155 | the sorted list has as many entries as the input |
| Ranking.Rankings | lib/state/Market.ts:146-177 | one ranked row per entry of the price list |
| Ranking.InsertSorted | lib/state/Market.ts:155 | inserting into a descending list keeps it descending |
| Ranking.InsertMultiset | lib/state/Market.ts:155 | inserting adds exactly the one entry |
| Ranking.InsertStable | lib/state/Market.ts:155 | inserting keeps the order among entries of equal price |
| Ranking.MaxPrice | lib/state/Market.ts:146-177 | the largest price, attained by some entry |
| Ranking.RankingsPermutation | lib/state/Market.ts:146-177 | the ranking lists exactly the input entries, with their prices |
| Ranking.RankingsKeysDistinct | lib/state/Market.ts:146-177 | distinct map keys stay distinct in the ranking |
| Ranking.TopRankIsOne | lib/state/Market.ts:161-174 | the first ranked entry has rank 1 |
| Ranking.RankStep | lib/state/Market.ts:161-174 | dense ranks: the next entry keeps the rank on an equal price and goes one rank down on a lower price |
| Ranking.TopIsMax | lib/state/Market.ts:155 | the first sorted entry carries the largest price |
| Ranking.LeaderIsUniqueTop | lib/state/Market.ts:161-174 | only the first entry can lead, and it leads exactly when its price is strictly above all others |
| Ranking.UniqueTopSorted | lib/state/Market.ts:161-174 | the top price is unique exactly when the second sorted price is lower |
| Ranking.FindLeader | lib/state/Market.ts:133-144 | find returns the first entry flagged leader, or -1 when none is |
| Ranking.FindLeaderIsUniqueTop | lib/state/Market.ts:133-144 | a leader is found exactly when at least two entries exist and one is priced strictly above every other, and it is that one |
| Ranking.StrictlyTopIsUnique | lib/state/Market.ts:161-174 | an entry priced strictly above the others makes the top price unique |
| Ranking.GetPricesWithRanking | lib/state/Market.ts:146-177 | the forEach with its running rank counter computes exactly the specified ranking, with distinct keys; lib/state/Page.ts:99-130 repeats the same loop |
| Ranking.ExampleTiedMiddle | lib/state/Market.ts:146-177 | prices .5, .3, .3, .1 rank 1, 2, 2, 3 and the first leads |
| Ranking.ExampleTiedTop | lib/state/Market.ts:146-177 | two categories tied at the top both rank 1 and neither leads |
| Market.CategoryAssetsLookup | lib/state/Market.ts:100-107 | the forEach gives each category the asset at its last position in the list |
| Market.CategoryAssetsMissing | lib/state/Market.ts:100-107 | a name that is no category is not in the map |
| Market.AssetMapLookup | lib/state/Market.ts:100-107 | the complete map: "ztg" maps to the last asset, a category to the asset at its last position, and any other name is absent |
| Market.LastPosition | lib/state/Market.ts:102-104 | the last position of a name, or -1 exactly when it is absent |
| Market.Market.constructor | lib/state/Market.ts:328-330 | a store over the given market with two fresh empty price maps |
| Market.Market.Status | lib/state/Market.ts:52-57 | the shown status differs from the chain's only as Ended, for an Active market whose end time has passed |
| Market.Market.CanResolve | lib/state/Market.ts:88-90 | resolvable exactly when the end time has passed on an Active market |
| Market.Market.ReportedOutcomeText | lib/state/Market.ts:59-72 | a category name exactly when a report exists and its index names a category |
| Market.Market.LastDispute | lib/state/Market.ts:305-311 | the last dispute, and None exactly when there are none |
| Market.Market.CategoryAssetMap | lib/state/Market.ts:100-107 | the category-to-asset map has distinct keys |
| Market.Market.AssetOf | lib/state/Market.ts:100-107 | the asset a name maps to is a pool asset |
| Market.Market.CategoryAssetMapLookup | lib/state/Market.ts:100-107 | the map holds exactly "ztg" and the categories, each with its asset |
| Market.Market.NameWeight | lib/state/Market.ts:109-124 | every mapped name has a positive weight |
| Market.Market.Weights | lib/state/Market.ts:109-124 | undefined exactly without a pool; otherwise keyed exactly by "ztg" and the categories, all weights positive |
| Market.Market.WeightsFromAssetMap | lib/state/Market.ts:109-124 | the weights are read through the asset map: "ztg" has the ZTG weight and each category the weight of its asset |
| Market.Market.GetSpotPrice | lib/state/Market.ts:189-205 | 0 without a pool; otherwise the fee-free price that equates the two weighted balances |
| Market.Market.SpotPriceSwap | lib/state/Market.ts:189-205 | the price of x in y times the price of y in x is 1 |
| Market.Market.GetZtgPrices | lib/state/Market.ts:220-231 | a new map keyed exactly by the categories, in their order when no name repeats, each holding the price of one token of that category in ZTG |
| Market.Market.GetAssetPrices | lib/state/Market.ts:207-218 | a new map keyed exactly by the categories, in their order when no name repeats, each holding the price of one ZTG in tokens of that category |
| Market.Market.FetchPrices | lib/state/Market.ts:236-243 | both caches are replaced by new maps holding the current prices of every category, keyed in category order when no name repeats |
| Market.Market.UpdatePrices | lib/state/Market.ts:251-262 | both existing maps are updated in place at one category and no other key changes |
| Market.Market.LeadingAsset | lib/state/Market.ts:133-144 | the leader's name and price, and None exactly when no ranked entry leads |
| Market.Market.LeadingAssetIsUniqueTop | lib/state/Market.ts:126-144 | the leading asset is the category priced strictly above all others, when there is one among at least two |
| Exchange.AssetOptions | lib/state/Exchange.ts:114-129 | one option per pool asset in order, named by category, with "ztg" last |
| Exchange.OptionNamesDistinct | lib/state/Exchange.ts:114-129 | option names are distinct exactly when the categories are distinct and none is named "ztg" |
| Exchange.OptionsMatchAssetMap | lib/state/Exchange.ts:114-129 | with distinct names, each option carries the asset the market's categoryAssetMap gives its name |
| Exchange.FindByName | lib/state/Exchange.ts:170-174 | the first option with the name, or -1 exactly when no option has it |
| Exchange.OtherAsset | lib/state/Exchange.ts:188-197 | on a collision the other side moves to the first or the last option, never to the colliding name |
| Exchange.CollisionTarget | lib/state/Exchange.ts:188-197 | the first option exactly when the colliding one is the last, and the last option otherwise |
| Exchange.Pick | lib/state/Exchange.ts:180-204 | the chosen side takes the option; the other side stays unless the names collide |
| Exchange.PickSeparates | lib/state/Exchange.ts:168-205 | with at least two options, all named differently, the two sides never share a name after setAsset, whatever they held before |
| Exchange.Resolve | lib/state/Exchange.ts:169-174 | a name resolves to the option of that name; an option is taken as given |
| Exchange.InitialAssets | lib/state/Exchange.ts:139-159 | initialize sets both sides, each to one of the options |
| Exchange.InitialDefaults | lib/state/Exchange.ts:139-159 | with no names given, a store trades the first option for the last |
| Exchange.Impact | lib/state/Exchange.ts:277-308 | the corrected price impact is non-negative for a trade that pays in and takes out, and positive when either amount is positive |
| Exchange.ImpactPositive | lib/state/Exchange.ts:277-308 | after the pool receives the in-amount and pays the out-amount, the spot price is never lower than before |
| Exchange.ImpactAsWrittenSignWrong | lib/state/Exchange.ts:285 | for 10 in and 100/11 out of a 100/100 pool, the formula as written gives -1 percent where the trade raises the price by 21 percent |
| Exchange.ImpactAsWritten | lib/state/Exchange.ts:277-308 | as written, a trade that receives nothing from a quotable pool is reported as a negative impact, although the pool only gains the paid amount |
| Exchange.DepositAsWithdrawal | lib/state/Exchange.ts:285 | taking the paid amount out of the in-balance, as the source does, lowers the spot price, so the percentage is negative |
| Exchange.AccountBalanceOf | lib/state/Exchange.ts:25-51 | the active ZTG balance for "ztg", and otherwise the account's balance of the option's asset |
| Exchange.ExchangeStore.constructor | lib/state/Exchange.ts:131-159 | both sides are set to the initial assets, both amounts are 0, and the balances and spot price are not yet known |
| Exchange.ExchangeStore.CompleteInitialize | lib/state/Exchange.ts:139-159 | the store is loaded with both pool balances, both account balances and the spot price of its pair |
| Exchange.ExchangeStore.SetFromAmount | lib/state/Exchange.ts:80-84 | a given amount replaces fromAmount; a missing or empty one leaves it; nothing else changes |
| Exchange.ExchangeStore.SetToAmount | lib/state/Exchange.ts:86-90 | a given amount replaces toAmount; a missing or empty one leaves it; nothing else changes |
| Exchange.ExchangeStore.SetAsset | lib/state/Exchange.ts:168-205 | the sides become the collision rule's pick and stay valid; with at least two options, all named differently, the two sides end up with different names; amounts, balances, spot price and loading state are unchanged |
| Exchange.ExchangeStore.SwapAssets | lib/state/Exchange.ts:210-218 | the sides trade places, the amounts stay, and the price and balances are read again for the new pair |
| Exchange.ExchangeStore.InitializeBalances | lib/state/Exchange.ts:220-223 | pool and account balances of both sides are read again; nothing else changes |
| Exchange.ExchangeStore.SetSpotPrice | lib/state/Exchange.ts:255-266 | the spot price becomes the market's price of the pair; nothing else changes |
| Exchange.ExchangeStore.InWeight | lib/state/Exchange.ts:96-103 | null exactly without a from-asset, otherwise its positive pool weight |
| Exchange.ExchangeStore.OutWeight | lib/state/Exchange.ts:105-112 | null exactly without a to-asset, otherwise its positive pool weight |
| Exchange.ExchangeStore.AmountOutBounds | lib/state/Exchange.ts:228-237 | the out-quote is never negative and always below the pool's balance of the to-asset |
| Exchange.ExchangeStore.AmountInBounds | lib/state/Exchange.ts:239-248 | the in-quote is never negative |
| Exchange.ExchangeStore.GetAmountOut | lib/state/Exchange.ts:228-237 | the out-quote of the store's pool is 0 when fromAmount is 0 |
| Exchange.ExchangeStore.GetAmountIn | lib/state/Exchange.ts:239-248 | the in-quote of the store's pool is 0 when toAmount is 0 |
| Exchange.ExchangeStore.AmountRoundTrip | lib/state/Exchange.ts:228-248 | the in-quote for the out-quote of fromAmount is fromAmount |
| Exchange.ExchangeStore.Cost | lib/state/Exchange.ts:268-271 | null exactly without a spot price; otherwise 0 when fromAmount or the price is 0, and cost divided by a non-zero price gives back fromAmount |
| Exchange.ExchangeStore.MaxProfit | lib/state/Exchange.ts:314-319 | defined exactly when paying with ZTG, and then fromAmount plus the profit is toAmount |
| Exchange.ExchangeStore.CalcImpact | lib/state/Exchange.ts:277-308 | the corrected impact of the store's trade is never negative, and positive for a positive fromAmount |
| Page.KeyOptions | lib/state/Page.ts:89-92 | a buy store pays with "ztg" for the category and a sell store the reverse; an index past the categories names nothing |
| Page.KeyOptionsFound | lib/state/Page.ts:76-97 | every name a page store passes is among the store's options |
| Page.TradeDirection | lib/state/Page.ts:76-97 | a buy store starts from ZTG to the category's asset, and a sell store the reverse |
| Page.WinnerName | lib/state/Page.ts:62-72 | the lower-cased name, with "equilibrium" shown as "genshiro"; no upper-case letter remains |
| Page.PageStore.constructor | lib/state/Page.ts:31-36 | no ranking, not redeemable, no exchange stores |
| Page.PageStore.SetPricesWithRanking | lib/state/Page.ts:23-25 | the stored ranking is the ranking of the given prices |
| Page.PageStore.GetLeadingCategory | lib/state/Page.ts:52-60 | the name of the first entry flagged leader: no earlier entry is flagged |
| Page.PageStore.LeadingCategoryIsUniqueTop | lib/state/Page.ts:52-60 | the leading category is the one priced strictly above all others |
| Page.PageStore.Winner | lib/state/Page.ts:62-72 | none exactly when the market is not resolved; otherwise the leader's display name |
| Page.PageStore.SetCanRedeem | lib/state/Page.ts:40-50 | redeemable exactly when there is a winner and the account holds some of its asset |
| Page.PageStore.CreateExchangeStore | lib/state/Page.ts:76-97 | the stored store for the key, or a fresh one with the key's names stored under it; no store sits under two keys |
| Page.PageStore.UpdateExchangeBalances | lib/state/Page.ts:132-148 | both stores of the category read their balances again and keep everything else |
| ExchangeForm.CalcExchangeValues | lib/components/derby/ExchangeForm.tsx:147-155 | "From" sets toAmount to the out-quote, which is below the pool balance and round-trips; "To" sets fromAmount to the in-quote |
| ExchangeForm.OnInputAmountChange | lib/components/derby/ExchangeForm.tsx:117-125 | an empty input counts as 0, then toAmount is the out-quote, which is 0 for an empty input; assets, pool and account balances, spot price and loading state are unchanged |
| ExchangeForm.MaxSpendable | lib/components/derby/ExchangeForm.tsx:128-133 | the active balance less 0.1, never below 0 |
| ExchangeForm.OnMaxClicked | lib/components/derby/ExchangeForm.tsx:127-145 | fromAmount becomes the spendable ZTG or the token balance, and toAmount the out-quote over the unchanged pool balances; assets, account balances, spot price and loading state are unchanged |
| ExchangeForm.ShownSpotPrice | lib/components/derby/ExchangeForm.tsx:86-100 | once loaded, the ZTG price of the to-category when paying with ZTG, otherwise the asset price of the from-category; it changes only when that entry exists |
| ExchangeForm.ShownPriceAfterFetch | lib/components/derby/ExchangeForm.tsx:86-100 | after fetchPrices, a buy form shows the price of one token of its category in ZTG and a sell form the price of one ZTG in that category's tokens |
| ExchangeForm.IsOverbought | lib/components/derby/ExchangeForm.tsx:242-244 | overbought exactly when paying with ZTG at a shown price above 1 |
| ExchangeForm.ViewOf | lib/components/derby/ExchangeForm.tsx:275-378 | an overbought form disables the input and shows the notice instead of the Max link, slippage and the sign button |
| ExchangeForm.OnTradeSuccess | lib/components/derby/ExchangeForm.tsx:164-186 | after a trade, both price maps hold the current prices; the form's store has its pool and account balances read again, both amounts at 0, and its assets, spot price and loading state unchanged; the other store of the category has its balances read again and everything else unchanged |
| AmountInput.DigitsEnd | lib/components/ui/AmountInput.tsx:85 | the end of the digit run starting at an index |
| AmountInput.MatchAmount | lib/components/ui/AmountInput.tsx:85 | no match exactly when the text does not start with a digit; a match is a prefix of the text |
| AmountInput.MatchShape | lib/components/ui/AmountInput.tsx:85 | a match has the pattern's shape: digits, then optionally '.' and at most n digits |
| AmountInput.MatchIsLongest | lib/components/ui/AmountInput.tsx:85 | the match is the longest prefix of that shape |
| AmountInput.MatchWhole | lib/components/ui/AmountInput.tsx:85 | text of the shape matches in full |
| AmountInput.StripZeros | lib/components/ui/AmountInput.tsx:43-60 | the integer part without its leading zeros, keeping at least one character |
| AmountInput.CountLeadingZeros | lib/components/ui/AmountInput.tsx:44-56 | the loop counts the leading zeros, always leaving the last character |
| AmountInput.PrepareVal | lib/components/ui/AmountInput.tsx:33-61 | the method computes the specified clean-up |
| AmountInput.PreparedUnchanged | lib/components/ui/AmountInput.tsx:33-42 | "", "0", "0." and text neither starting nor ending with '0' come back as given |
| AmountInput.PreparedParts | lib/components/ui/AmountInput.tsx:43-60 | otherwise the integer part loses its leading zeros and the fraction after the first '.' is kept |
| AmountInput.PreparedClean | lib/components/ui/AmountInput.tsx:33-61 | clean text of the shape is left as it is |
| AmountInput.Prepared | lib/components/ui/AmountInput.tsx:33-61 | the prepared text is never longer than the typed text, and nonempty text never becomes empty |
| AmountInput.CheckVal | lib/components/ui/AmountInput.tsx:62-71 | "" for undefined or non-matching text, otherwise the cleaned match |
| AmountInput.CheckValShape | lib/components/ui/AmountInput.tsx:62-71 | the result is empty or of the pattern's shape, without a superfluous leading zero |
| AmountInput.CheckValIdempotent | lib/components/ui/AmountInput.tsx:62-71 | checking an already checked value changes nothing |
| AmountInput.Strip | lib/components/ui/AmountInput.tsx:105-110 | drops a trailing '.' and nothing else |
| AmountInput.BlurTrim | lib/components/ui/AmountInput.tsx:155 | text that does not end in a fraction after its last '.' is kept; a fraction of zeros is dropped together with its '.'; otherwise only trailing zeros go, and the last digit kept is not '0' |
| AmountInput.BlurTrimDropsZeros | lib/components/ui/AmountInput.tsx:155 | "1.500" becomes "1.5" |
| AmountInput.BlurTrimDropsDot | lib/components/ui/AmountInput.tsx:155 | "2.00" and "3." become "2" and "3" |
| AmountInput.BlurTrimKeeps | lib/components/ui/AmountInput.tsx:155 | "1.05" and "10" are kept |
| AmountInput.FromProp | lib/components/ui/AmountInput.tsx:91-99 | "" and "0" are taken as given, and any other value prop through checkVal |
| AmountInput.EmittedHasNoTrailingDot | lib/components/ui/AmountInput.tsx:135-150 | for any text the constructor and handlers can leave in the field, a nonempty emitted value never ends with '.' |
| AmountInput.StrippedShape | lib/components/ui/AmountInput.tsx:105-110 | stripped text of the shape is nonempty and does not end with '.' |
| AmountInput.AmountField.constructor | lib/components/ui/AmountInput.tsx:91-101 | the field starts unfocused with the value prop as the field takes it |
| AmountInput.AmountField.OnValueProp | lib/components/ui/AmountInput.tsx:112-120 | a new value prop replaces the text |
| AmountInput.AmountField.OnChanged | lib/components/ui/AmountInput.tsx:148-150 | the typed text through checkVal, so empty or of the pattern's shape |
| AmountInput.AmountField.OnFocus | lib/components/ui/AmountInput.tsx:180 | the field gains focus and keeps its text |
| AmountInput.AmountField.OnBlured | lib/components/ui/AmountInput.tsx:152-167 | the trimmed text through checkVal; the field loses focus |
| AmountInput.AmountField.ToEmit | lib/components/ui/AmountInput.tsx:135-146 | nothing when the text equals the value prop; otherwise the text without its trailing '.', and "" or "0" as they are |
| Track.FormToggle.constructor | lib/components/derby/Track.tsx:10-15 | no form shown or requested and nothing animating, which is a settled state |
| Track.FormToggle.RunEffect | lib/components/derby/Track.tsx:35-48 | a shown and still requested form stops animating at once; otherwise a timer is scheduled exactly when the shown state differs from the request |
| Track.FormToggle.ToggleBuyForm | lib/components/derby/Track.tsx:17-21 | the buy request flips and the sell request clears; from a settled state the page reaches a settled or one-timer state again |
| Track.FormToggle.ToggleSellForm | lib/components/derby/Track.tsx:23-27 | the mirror image of the buy toggle |
| Track.FormToggle.CloseForm | lib/components/derby/Track.tsx:29-33 | both requests clear, and a timer to hide the form is scheduled when one was requested |
| Track.FormToggle.TimerFires | lib/components/derby/Track.tsx:43-46 | the oldest timer sets the shown state and ends the animation, after which the page is settled |
| Track.PriceEffect | lib/components/derby/Track.tsx:213-226 | a resolved leader is drawn at 100; otherwise a price above 1 is overbought at 100, a lower price is drawn at 100 times the price, and a missing entry throws |
| Track.PercentClamped | lib/components/derby/Track.tsx:213-226 | a non-negative price puts the horse between 0 and 100 percent |
| Track.PercentMonotone | lib/components/derby/Track.tsx:213-226 | a higher price never draws the horse further back |
| Track.ControlsOf | lib/components/derby/Track.tsx:321-353 | controls appear only on an active market; an overbought category has no buy button or form; a form is open when rendered and requested |
| Track.AtMostOneFormOpen | lib/components/derby/Track.tsx:321-353 | at most one form is open, and a buy form only on an active market that is not overbought |
| TradeCards.SplitColumns | lib/components/derby/TradeCards.tsx:15-30 | the loop deals the categories into the specified columns |
| TradeCards.ColumnsByParity | lib/components/derby/TradeCards.tsx:15-30 | column 0 holds the even positions and column 1 the odd positions, each in market order |
| TradeCards.ColumnOfPosition | lib/components/derby/TradeCards.tsx:24-29 | position i lands at place i / 2 of the column of its parity |
| TradeCards.ColumnsCover | lib/components/derby/TradeCards.tsx:15-30 | a name is in a column exactly when it is a category |
| TradeCards.FindCategoryFrom | lib/components/derby/TradeCards.tsx:50-52 | the first category equal to the name after lower-casing, or -1 |
| TradeCards.CardIndexOf | lib/components/derby/TradeCards.tsx:50-52 | a card finds a category at or before its own, with the same lower-cased name, and finds its own when no two names differ only in case |
| TradeCards.CardsOf | lib/components/derby/TradeCards.tsx:49-60 | one card per category of a column, with its index, lower-cased name and leader flag |
| TradeCards.View | lib/components/derby/TradeCards.tsx:36-77 | nothing before the prices and the ranking exist; a crash with fewer than two categories or an unranked category; otherwise the two columns of cards |
| TradeCards.RenderedCards | lib/components/derby/TradeCards.tsx:46-77 | the k-th left card is category 2k and the k-th right card category 2k+1, each with its leader flag |
| Util.ShortenAddress | lib/util/index.ts:35-41 | the first start characters, "..." and the last end characters; an end of 0 repeats the whole address |
| Util.ShortenDefault | lib/util/index.ts:35-41 | the defaults keep 6 leading and 4 trailing characters |
| Util.ShortenParts | lib/util/index.ts:35-41 | whatever the arguments, the result is a prefix of the address, "...", and a suffix of it |
| Util.ShortenZeroEnd | lib/util/index.ts:40 | an end of 0 keeps the whole address after "..." |
| Util.KindOf | lib/util/index.ts:77-84 | the two failure method names are recognised exactly |
| Util.ProcessEvents | lib/util/index.ts:66-90 | the loop produces the specified trace of callback calls |
| Util.EventCounts | lib/util/index.ts:75-89 | each call for one event happens exactly as often as the rules for its kind say |
| Util.TraceCounts | lib/util/index.ts:75-89 | over all events, each call is counted per event, with unsub once per event |
| Util.TraceShape | lib/util/index.ts:66-90 | every call is one of the given callbacks for one of the events |
| Util.EventEndsWithUnsub | lib/util/index.ts:88 | with unsub given, each event's last call is unsub |
| Util.ExtrinsicCallback | lib/util/index.ts:92-141 | the callback produces the specified trace for one result |
| Util.OneBranch | lib/util/index.ts:109-140 | exactly one status branch runs |
| Util.InBlockWithoutSuccess | lib/util/index.ts:111-139 | an in-block result with no success callback falls through to broadcast |
| Util.InBlockSuccess | lib/util/index.ts:111-117 | an in-block result calls the caller's success callback once per success-method event that the batch fail callback does not take, and never the finalized callback |
| Util.FinalizedSuccess | lib/util/index.ts:118-124 | with the default success method, a finalized result calls the finalized callback once per "ExtrinsicSuccess" event, whether or not a success callback is given |
| Util.EventsTrace | lib/util/index.ts:66-90 | at most three actions per event; with an unsub, at least one per event, and the last action is the unsub |
| Util.Dispatch | lib/util/index.ts:109-140 | the event branches stay within three actions per event; a retracted result ends with the unsub, or with the missing-unsub note; any other status makes at most one call |
| Util.UnsubPerEvent | lib/util/index.ts:88 | in-block and finalized results call unsub once per event, and never without unsub |
| Wallets.FindErrorFrom | lib/state/wallets/index.ts:89-91 | the first message of the extension at or after the index, or -1 |
| Wallets.SetErrorIn | lib/state/wallets/index.ts:88-103 | the message is appended for a new extension and replaces the old one otherwise |
| Wallets.SetErrorFound | lib/state/wallets/index.ts:88-103 | afterwards the extension's message is the new one, the others stay, and there is still one message per extension |
| Wallets.UnsetAsWritten | lib/state/wallets/index.ts:105-113 | with a match one message is removed; with no match the result is all but the last message followed by the whole list |
| Wallets.UnsetMissingRepeats | lib/state/wallets/index.ts:105-113 | unsetting an extension without a message, from a list of two, duplicates the first message |
| Wallets.Unset | lib/state/wallets/index.ts:105-113 | the corrected removal leaves the list unchanged without a match and removes one message with one |
| Wallets.UnsetRemoves | lib/state/wallets/index.ts:105-113 | afterwards no message of the extension remains, exactly the found one is gone, and the others keep their order |
| Wallets.DecimalString | lib/state/wallets/index.ts:140 | the template literal writes a number as a nonempty string of digits |
| Wallets.DecimalRoundTrip | lib/state/wallets/index.ts:140 | reading the digits back gives the number |
| Wallets.SelectOptions | lib/state/wallets/index.ts:137-144 | one option per account in order, with its address and its name or "Account #i" |
| Wallets.UnnamedLabelsDistinct | lib/state/wallets/index.ts:137-144 | two unnamed accounts get different labels |
| Wallets.FindAccountFrom | lib/state/wallets/index.ts:76 | the first account with the address at or after the index, or -1 |
| Wallets.DefaultAccount | lib/state/wallets/index.ts:152-163 | the stored address's account when one is stored and found, else the first account |
| Wallets.DefaultIsFirstStored | lib/state/wallets/index.ts:156-159 | no account before the default one carries the stored address |
| Wallets.WalletStore.constructor | lib/state/wallets/index.ts:35-146 | no wallet, no messages, no accounts, no active account, zero balance, not connected |
| Wallets.WalletStore.FaultyConnection | lib/state/wallets/index.ts:84-86 | the connection is reported faulty exactly when the error-message list holds at least one message |
| Wallets.WalletStore.SetErrorMessageForExtension | lib/state/wallets/index.ts:88-103 | records and returns the message, keeping one message per extension |
| Wallets.WalletStore.UnsetErrorMessage | lib/state/wallets/index.ts:105-113 | removes the extension's message and leaves the others in order; uses the corrected removal, which leaves the list alone when the extension has no message (see Findings) |
| Wallets.WalletStore.ClearErrorMessages | lib/state/wallets/index.ts:115-117 | no messages remain and the connection is no longer faulty |
| Wallets.WalletStore.AccountSelectOptions | lib/state/wallets/index.ts:137-144 | one option per account, with its address, captioned by the account's name or, for an unnamed account, "Account #" and its position |
| Wallets.WalletStore.SetActiveAccount | lib/state/wallets/index.ts:66-80 | null clears the account and zeroes the balance; an account is taken as given; an address is looked up, and undefined when missing |
| Wallets.WalletStore.SetAccounts | lib/state/wallets/index.ts:121-123 | with the accounts reaction (149-168): a nonempty list clears the wallet's error through the corrected removal and activates the default account, and an empty one activates null |
| Wallets.WalletStore.DisconnectWallet | lib/state/wallets/index.ts:221-225 | no wallet, no accounts, no active account, zero balance, not connected |

## Left out

- Decimal.js arithmetic, `toFixed`, `toString` and string-to-number
  parsing: amounts are exact reals. Setters take a missing or empty
  amount, or a number.
- Division by zero in Decimal.js (Infinity or NaN): the pool formulas
  require non-zero divisors.
- Exponentiation: `pow` is a parameter constrained by the laws the proofs
  use. No concrete power function is modelled.
- Chain queries, `getPoolBalance` (`lib/state/Market.ts:268-286`) and
  `getAccountBalance` (`lib/state/Market.ts:294-303`): they are parameter
  functions from asset to balance.
- `setCanRedeem`'s balance lookup is likewise a parameter.
- Asynchrony:
  - every `await` and `runInAction` is taken to complete before the next
    step;
  - a trade submitted while a refresh is in flight is not modelled;
  - `Market.init` (`lib/state/Market.ts:338-354`) is reduced to the
    constructor's pool argument and `FetchPrices`;
  - `periodicPriceUpdate` (`lib/state/Market.ts:356-376`), an RxJS
    interval, is not modelled beyond the `FetchPrices` it repeats.
- Exchange.ExchangeStore.constructor: only the synchronous part of
  `initialize` is modelled. The chain reads that follow are
  `CompleteInitialize`.
- Exchange.ExchangeStore.SetAsset: it requires a name found among the
  options, or one of the options. With an unknown name the source spreads
  `undefined` into an empty option, which the model does not represent.
- Exchange.ExchangeStore.CalcImpact: it uses the corrected formula (see
  Findings). The source's Decimal-to-number conversion is not modelled.
- MobX reactions and React effects run right after the handler that
  triggers them:
  - the wallets reaction is folded into `SetAccounts` (see below);
  - the 700 ms timer of the form toggle is an explicit step,
    `TimerFires`.
- Track.FormToggle.ToggleBuyForm: the invariant is proved only from a
  settled page. While an animation runs the buttons are disabled
  (`Track.tsx:162`, `Track.tsx:171`), so clicks in that state are not
  modelled.
- AmountInput.AmountField.OnBlured: the clamp to the `max` and `min` props
  (`AmountInput.tsx:157-162`) is dropped for the core field. It compares
  parsed numbers, and number parsing is not modelled. The fields in use do
  pass these props: the trade form always passes `max`
  (`ExchangeForm.tsx:288`) and the slippage field passes `min="0.5"`
  (`ExchangeForm.tsx:333`), so a blurred value beyond them is not clamped
  in the model.
- The focus effects of the amount field (`onFocusChange`, the
  `isFocused` prop) are DOM focus handling and are left out.
- Common.ToLower: it lower-cases ASCII letters only. Unicode case mapping
  is not modelled.
- Event data in `processEvents`:
  - an event is its method name and its data is referred to by position;
  - `toHuman()` and the failure details are left out;
  - notifications are recorded as trace actions.
- The slippage and maximum-price effect (`ExchangeForm.tsx:102-108`) and
  the transaction flow (`processTransaction`, `openTransactionModal`,
  `ConfirmDialogContent`): these are signing and dialogs.
- Wallet enabling: `getWalletByExtensionName`, `setWallet`, the
  account-change and balance subscriptions, `getAccounts`, the enable loop
  and address encoding are extension I/O. The connected wallet is kept as
  its extension name.
- Wallets.WalletStore.UnsetErrorMessage: it uses the corrected removal
  (see Findings). Where the extension has no message the source keeps all
  but the last message and then all of them again, so messages repeat;
  the model leaves the list unchanged.
- Wallets.WalletStore.SetAccounts: the folded accounts reaction
  (`wallets/index.ts:149-168`) clears the error through the corrected
  removal. When the connected wallet has no message the source reaches
  index -1 and repeats messages; the model leaves them alone.
- Page.PageStore.GetLeadingCategory: it requires an entry flagged leader.
  Without one the source reads `[0]` of the `undefined` that `.find`
  returns (`Page.ts:52-60`) and throws; the model does not represent the
  exception.
- Page.PageStore.Winner: on a resolved market it requires a leader, for
  the same reason; without one the source throws.
- Page.PageStore.SetCanRedeem: on a resolved market it requires a leader,
  for the same reason; without one the source throws before the balance
  query.
- Rendering markup, styling and layout: only the render decisions are
  modelled (which controls appear, what a view shows).

## Findings

| source | as written | input that shows it | evidently intended | confidence | as-written member | corrected member |
|---|---|---|---|---|---|---|
| lib/state/Exchange.ts:285 | the balance after the trade is `balIn.sub(this.fromAmount)`, which takes the paid amount out of the pool's in-balance | a 100/100 pool with equal weights and no fee, 10 paid in and 100/11 received: the result is -1 percent | the pool receives the paid amount (`balIn.add`), so the price rises by 21 percent and the impact is never negative | not executed | Exchange.ImpactAsWritten, Exchange.ImpactAsWrittenSignWrong | Exchange.Impact, Exchange.ImpactPositive |
| lib/state/wallets/index.ts:105-113 | with no message for the extension, `findIndex` gives -1, and the list becomes `slice(0, -1)` followed by `slice(0)` | messages for "polkadot-js" and "subwallet", then unsetting "talisman": the first message appears twice | a missing extension leaves the list unchanged, with one message per extension | not executed | Wallets.UnsetAsWritten, Wallets.UnsetMissingRepeats | Wallets.Unset, Wallets.UnsetRemoves |
