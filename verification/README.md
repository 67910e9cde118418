# Martlock hide-to-leather arbitrage, modelled in Dafny

This project models the computation behind the "Calculate Best Trades" button of a
market-arbitrage calculator for a game economy. The page fetches buy and sell orders for raw
hides and crafted leather, then works out the profit of buying hides and tanning them into
leather in Martlock. It charges the sell-order tax, subtracts the resource-return-rate
discount, scales the profit to one mount load, and shows the result rows sorted by trip
profit.

The model has six modules, one file each:

- `Wrappers` (`wrappers.dfy`): the `Option` type used by the identifier parser.
- `ItemIds` (`item_ids.dfy`): the `T<tier>_HIDE@<enchant>` / `T<tier>_LEATHER@<enchant>`
  identifiers and the ingredient rule. It also has a parser that inverts them exactly, and
  `FetchIds`, the 51-entry list sent to the price query, written as the source's nested loop.
- `MarketIndex` (`market_index.dfy`): the fetched price record and the two lookups. The first
  is the Martlock sell orders, a left fold in which a later record for an item overwrites an
  earlier one, as a dictionary built from a frame does. The second is the best hide buy order
  per hide item across all towns, a group-by maximum.
- `Calculator` (`calculator.dfy`): the constant tables and the profit-per-bar and trip-profit
  formulas. It also rounds for display (half to even) and runs the tier 4..8 × enchant 0..4
  loop with its skip rule.
- `Ranking` (`ranking.dfy`): the descending sort on the rounded trip profit.
- `TradeScreen` (`trade_screen.dfy`): one button press from fetched records to what the page
  shows. It includes the crash described under Findings.

Inputs that the program gets from the outside world are parameters here:

- the fetched records, as a `seq<PriceRecord>`;
- the mount name, which must be a key of `Mounts`, because the select box offers only those;
- the return rate, which must be at least 15, the minimum of the number input.

Money is whole silver (`int`). Profits are exact `real`s. `int(capacity / weight)` is
`Floor` of the exact quotient, which is the same thing for the non-negative capacities
involved.

Where the code and the intent one might read into it differ, the model follows the code:

- Trip profit divides hides per trip by hides per bar without flooring (line 71). Partial
  bars therefore count.
- The Martlock lookup keeps the last Martlock record per item, not the lowest sell order
  (lines 41-43).
- The sort key is the trip profit already rounded for display (lines 78 and 81).
- An empty fetch draws nothing at all, because line 38 has no else branch. No "no data"
  message is shown.
- `sort_values` uses pandas' default, which is not a stable sort. The model's contracts
  promise only order and permutation. `Ranking.SortedTripColumnUnique` shows that the trip
  profit column shown is the same whichever way ties are broken.

## Model

| member | source | states |
|---|---|---|
| `ItemIds.Suffix` | streamlit_app.py:28 | the enchantment suffix is empty exactly when the enchantment is 0 |
| `ItemIds.ParseIdOfId` | streamlit_app.py:28-29 | parsing an item's identifier gives back that item (material, tier, enchantment) |
| `ItemIds.IdOfParseId` | streamlit_app.py:28-29 | every string the parser accepts is exactly the identifier of the item it returns |
| `ItemIds.IdInjective` | streamlit_app.py:25-29 | two items have the same identifier exactly when they are the same item |
| `ItemIds.IngredientIsLowerLeather` | streamlit_app.py:54 | the ingredient is `T3_LEATHER` exactly for tier 4; otherwise it is the leather one tier lower with the same enchantment |
| `ItemIds.HideIdContainsHide` | streamlit_app.py:46 | every hide identifier contains `HIDE`, so every hide the loop looks up is eligible for the best-buy lookup |
| `ItemIds.AppendPair` | streamlit_app.py:29 | one inner-loop step appends the hide then the leather of (t, e), and the list stays duplicate-free and in loop order |
| `ItemIds.FetchIds` | streamlit_app.py:25-29 | the list has 51 entries and starts with `T3_LEATHER`; for each t in 4..8 and e in 0..4 the hide of (t, e) is followed by its leather at a fixed position; no entry repeats; every recipe ingredient is in the list |
| `MarketIndex.HomeSellOrders` | streamlit_app.py:41-43 | keys are exactly the items that have a Martlock record; each value is the sell price of the last Martlock record for that item |
| `MarketIndex.HomeRecords` | streamlit_app.py:41 | contains exactly the Martlock records, as a set, and is no longer than the input |
| `MarketIndex.HomeRecordsSingle` | streamlit_app.py:41 | one record is kept exactly when its town is Martlock |
| `MarketIndex.HomeRecordsAppend` | streamlit_app.py:41 | filtering a concatenation is the concatenation of the filtered parts, so the Martlock records keep their order and repetitions |
| `MarketIndex.HomeSellOrdersIgnoreOtherTowns` | streamlit_app.py:41-43 | the Martlock sell lookup built from all records equals the one built from the Martlock records alone |
| `MarketIndex.SameHomeRecordsSameSellOrders` | streamlit_app.py:41-43 | two fetches with the same Martlock records give the same sell lookup, so other towns never change leather or ingredient prices |
| `MarketIndex.BestHideBuy` | streamlit_app.py:46 | keys are exactly the identifiers containing `HIDE` that have a record in some town; each value is at least every such record's buy order and equals one of them |
| `MarketIndex.BestHideBuyOrderIndependent` | streamlit_app.py:46 | the best hide lookup does not depend on the order of the records |
| `Calculator.ProfitRisesWithLeatherPrice` | streamlit_app.py:63-67 | profit per bar strictly increases with the leather price |
| `Calculator.ProfitFallsWithHidePrice` | streamlit_app.py:63-67 | for a return rate of at most 100%, a higher hide price never raises profit per bar |
| `Calculator.HidesPerTripFits` | streamlit_app.py:70 | hides per trip is the largest whole number of hides whose weight fits in the capacity |
| `Calculator.MountsCarryHides` | streamlit_app.py:6-11 | every mount in the table carries at least one hide of every tier |
| `Calculator.TripProfitSign` | streamlit_app.py:71 | with at least one hide per trip, trip profit is positive, negative or zero exactly when profit per bar is |
| `Calculator.RoundHalfEven` | streamlit_app.py:77-78 | the displayed value is within one half of the exact one, and an exact half goes to the even neighbour |
| `Calculator.RoundMonotone` | streamlit_app.py:78 | rounding keeps order: a larger profit never displays as a smaller one |
| `Calculator.RowsFrom` | streamlit_app.py:49-61 | from loop position k on: every row fits its lookups, rows keep loop order without repeats, and a combination has a row exactly when it qualifies |
| `Calculator.Rows` | streamlit_app.py:49-79 | at most 25 rows; each fits its lookups; rows are in tier-then-enchant order; (t, e) has a row exactly when the Martlock leather sell price (0 if absent) and the best hide bid (0 if absent) are both above 0 |
| `Calculator.NoSellOrdersNoRows` | streamlit_app.py:57-61 | without any Martlock sell order no row is produced |
| `Calculator.SingleQualifierSingleRow` | streamlit_app.py:49-79 | when exactly one combination qualifies, the result is that combination's row alone |
| `Calculator.WorkedExample` | streamlit_app.py:63-78 | for hides at 100, `T3_LEATHER` at 150, `T4_LEATHER` at 600, a stag and a 15.2% return rate, the only row is `T4_LEATHER` with profit per bar 264 and trip profit 199867 |
| `Ranking.Insert` | streamlit_app.py:81 | inserting into a descending sequence keeps it descending and adds exactly that row |
| `Ranking.SortByTripProfit` | streamlit_app.py:81 | the result is descending by trip profit and is a permutation of the input |
| `Ranking.SortedTripColumnUnique` | streamlit_app.py:81 | any two descending orderings of the same rows show the same trip-profit column |
| `TradeScreen.Calculate` | streamlit_app.py:37-81 | the result is a permutation of the computed rows, at most 25 long, and each row's trip profit is at least the next row's |
| `TradeScreen.RowIffBothPricesPositive` | streamlit_app.py:57-61 | (t, e) appears in the sorted result exactly when its leather has a positive Martlock sell order and its hide a positive buy order somewhere |
| `TradeScreen.SortedRowsFit` | streamlit_app.py:73-81 | every row of the sorted result carries the prices from the lookups and the rounded formulas |
| `TradeScreen.NoRecordsNoRows` | streamlit_app.py:37-38 | an empty fetch yields no rows |
| `TradeScreen.OtherTownsOnlyReachHideBids` | streamlit_app.py:41-59 | two fetches with the same Martlock records and the same best hide bids give the same result |
| `TradeScreen.RenderAsWritten` | streamlit_app.py:36-81 | as the program behaves: the page is blank, a table or the missing-column failure; it is blank exactly when the fetch is empty; a non-empty fetch fails exactly when no combination qualifies; a table holds the sorted, non-empty result |
| `TradeScreen.NoHomeRecordsFails` | streamlit_app.py:81 | a non-empty fetch without any Martlock record makes the program's sort fail on the missing column |
| `TradeScreen.SingleForeignHideBidFails` | streamlit_app.py:81 | one tier-4 hide bid from Lymhurst is enough to make the program fail |
| `TradeScreen.Render` | streamlit_app.py:36-81 | corrected page: never fails and never stays blank; shows the notice exactly when no row qualifies, an empty fetch included; otherwise shows the sorted permutation of the rows |

## Left out

- Page setup, title, sidebar widgets, button and table drawing (lines 13-20, 36, 81) are presentation. The mount and return rate are parameters, and what the page shows is the `Screen` value.
- The HTTP request, JSON decoding, the bare `except` and the 300-second cache (lines 23-34) are network I/O and framework caching. The fetched data is the input record sequence, and a failed request is the empty sequence.
- The Martlock buy-order lookup (line 42) is built but never read, so it is not modelled.
- Record timestamps are not used by this file and are not part of `PriceRecord`.
- Pandas details beyond filtering, group-by maximum and last-key-wins dictionaries are not modelled. That includes missing values and a response that lacks the expected columns.
- Floating point is not modelled. Constants such as 0.935 and 0.3 are exact reals. `Calculator.HidesPerTrip` is the floor of the exact quotient, and this agrees with the float cast on every mount and tier in the tables. Float error can therefore only matter in the profit values, where a value near a .5 rounding boundary may round differently. `round` is Python's half-to-even applied to the exact value.
- Tiers and enchantments are single decimal digits in the identifiers (`ItemIds.ValidItem`). The program only ever uses tiers 3..8 and enchantments 0..4.
- `Calculator.Row` carries the tier and enchantment next to the displayed columns. Both are determined by the item identifier (`ItemIds.ParseIdOfId`).

## Findings

| source | as written | input that shows it | evidently intended | confidence | as-written member | corrected member |
|---|---|---|---|---|---|---|
| streamlit_app.py:81 | Suppose the fetch returns records but no tier/enchant combination qualifies. Then `results` is empty and `pd.DataFrame(results)` has no columns, so `sort_values("Total Trip Profit")` raises a KeyError instead of drawing anything. | one record: item `T4_HIDE`, town Lymhurst, buy order 120, no Martlock record at all | show a "no data" notice (or an empty table) when nothing qualifies | high (not executed) | `TradeScreen.RenderAsWritten`, shown by `TradeScreen.SingleForeignHideBidFails` | `TradeScreen.Render` |
