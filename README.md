# Moving-average crossover trader with position limits

This project models the trader in `support-resistance/test-1.py`, and proves properties of the model. That trader is the per-call strategy for a market-making simulator.

On each call the simulator hands the trader three things:
- a snapshot of the order books, one per product;
- the trader's current positions;
- the opaque state string the trader returned on the previous call.

The trader then:
1. Decodes its per-product state: a price history plus support and resistance fields.
2. Goes through the books in order. For each one it appends the book's mid-price to the product's history, but only when both sides of the book are non-empty.
3. Classifies the trend by comparing the mean of the last two prices with the mean of the last five (fewer when the history is shorter).
4. On an upward trend, places an order at the best ask; on a downward trend, at the best bid. As written (lines 62 and 66), the ask-side quantity is `-min(best_ask_amount, limit - position)`: resting ask quantities are negative, so this buys the whole resting volume and the limit never caps it. The bid-side quantity is `min(best_bid_amount, position + limit)`, which is positive and so buys at the bid instead of selling (see Findings). The model states that sizing as written. The trader it models then uses the corrected sizing: a buy or a sell of the resting volume, capped so that the position stays within the symmetric per-product limit.
5. Returns the orders, no conversion request, and the re-encoded state.

The model has five modules:
- `Market`: the simulator's records.
  - A book side is a sequence of (price, quantity) levels in the simulator's order. Its best level is its first entry.
  - The snapshot's books form a sequence in the snapshot's own order.
- `Averages`: the trailing moving average (`calculate_moving_average`) over `seq<real>`, with the sum and mean facts the trend proofs use.
- `Strategy`: one product's step, split into three functions:
  - `Observe`: extend the history.
  - `Classify`: the trend.
  - `Decide`: the order or the missing-limit failure.
  
  It also holds the order-sizing functions, as the source writes them and corrected (see Findings).
- `StateCodec`: decoding and encoding the state string.
  - The JSON text format is a parameter: a `Codec` made of a decode function (None where the text does not parse) and an encode function (None where serialising fails).
  - `Load` and `Save` model the fallbacks around them.
- `Engine`: the `Trader` class.
  - Its constant configuration, set by its constructor.
  - `Run`, a loop over the snapshot's books that updates the state map and the result map step by step.
  - The functions `ObserveBooks` and `DecideBooks` fold all the books in order and specify what `Run` computes.
  - Lemmas say what those folds leave for each product.

Python floats are modelled as `real` and quantities as `int`. Order quantities follow the simulator's sign convention:
- resting sell quantities are listed as negative numbers;
- resting buy quantities are listed as positive numbers;
- an order with a positive quantity buys and one with a negative quantity sells.

## Model

| member | source | states |
|---|---|---|
| Market.PositionOf | support-resistance/test-1.py:47-47 | A product's position is its entry in the positions table, and 0 when it has none |
| Market.MidPrice | support-resistance/test-1.py:49-53 | With both book sides non-empty, twice the mid-price is the first ask price plus the first bid price |
| Averages.Sum | support-resistance/test-1.py:18-18 | Python's `sum` over a price list; its bounds and its split over a concatenation are stated by SumAppend, SumAtLeast, SumAtMost, SumBelow and SumAbove |
| Averages.TrailingWindow | support-resistance/test-1.py:17-18 | The slice averaged has exactly Min(window, length) prices |
| Averages.MovingAverage | support-resistance/test-1.py:13-20 | An empty price list averages to 0; a window below 1 is excluded only for non-empty lists |
| Averages.MovingAverageIsWindowMean | support-resistance/test-1.py:13-20 | On a non-empty list the window is the list's suffix of Min(window, length) > 0 prices, and the average times that count is the window's sum |
| Averages.AverageWithinWindow | support-resistance/test-1.py:17-18 | The average lies between the smallest and the largest price of the trailing window |
| Averages.AverageOfConstantWindow | support-resistance/test-1.py:17-18 | A trailing window holding one repeated price p averages to exactly p |
| Averages.RecentMeanAbove | support-resistance/test-1.py:56-58 | If every older price is below m and no recent price is, the recent mean exceeds the mean of all of them |
| Averages.RecentMeanBelow | support-resistance/test-1.py:56-58 | The mirror: older prices all above m and no recent one above m puts the recent mean below the overall mean |
| Strategy.ShortHistoryIsSideways | support-resistance/test-1.py:56-58 | With at most two prices (and a long window of at least two) both averages see the same prices and the trend is sideways |
| Strategy.ConstantWindowIsSideways | support-resistance/test-1.py:56-58 | A long window of one repeated price gives a sideways trend |
| Strategy.RisingWindowIsUpward | support-resistance/test-1.py:56-58 | A history rising strictly across the long window (of at least three prices) is classified upward |
| Strategy.FallingWindowIsDownward | support-resistance/test-1.py:56-58 | A history falling strictly across the long window (of at least three prices) is classified downward |
| Strategy.Observe | support-resistance/test-1.py:49-54 | Extends the history by the mid-price exactly when both book sides are non-empty; its effect per product is stated by Engine.HistoryUpdate and Engine.NewProductStartsFresh |
| Strategy.Classify | support-resistance/test-1.py:56-58 | The trend of a history: upward when the short average exceeds the long one, downward when below, sideways otherwise; stated on concrete histories by the four trend lemmas above |
| Strategy.Decide | support-resistance/test-1.py:56-67 | One product's decision on its extended history, with the corrected sizing (see Findings); its meaning is stated by DecisionShape, DecisionPlacement and DecisionKeepsPositionWithinLimit |
| Strategy.BuyQuantityAsWritten | support-resistance/test-1.py:62-62 | The buy size as written is exactly the larger of the negated resting ask quantity and position minus limit, i.e. `-min(best_ask_amount, limit - position)` |
| Strategy.AsWrittenBuyOverrunsLimit | support-resistance/test-1.py:61-63 | When the resting ask quantity is more negative than the headroom, filling the as-written buy takes the position past the limit |
| Strategy.SellQuantityAsWritten | support-resistance/test-1.py:66-66 | The sell size as written is exactly the smaller of the resting bid quantity and position plus limit, i.e. `min(best_bid_amount, position + limit)` |
| Strategy.AsWrittenSellBuys | support-resistance/test-1.py:65-67 | With a positive resting bid quantity, the as-written "sell" has a positive quantity, so it is a buy |
| Strategy.BuyQuantity | support-resistance/test-1.py:61-63 | Below the limit, the buy takes the whole resting ask quantity or exactly the headroom, whichever is smaller: never past the limit, positive when the ask side has volume |
| Strategy.SellQuantity | support-resistance/test-1.py:65-67 | Above minus the limit, the sell takes the whole resting bid quantity or exactly the headroom down to minus the limit: never past it, negative when the bid side has volume |
| Strategy.DecisionShape | support-resistance/test-1.py:49-67 | A decision places at most one order, for its own product; none on an empty book side or a sideways trend; it fails exactly when a non-sideways trend meets a product without a limit |
| Strategy.DecisionPlacement | support-resistance/test-1.py:61-67 | For a product with a limit and both book sides: a buy at the best ask on an upward trend below the limit, a sell at the best bid on a downward trend above minus the limit, and no order at the limit |
| Strategy.DecisionKeepsPositionWithinLimit | support-resistance/test-1.py:61-67 | Filling the decided order keeps a position that was within the limit within it |
| StateCodec.Load | support-resistance/test-1.py:28-33 | An empty string or one that does not decode gives the empty state map; otherwise the decoded map |
| StateCodec.Save | support-resistance/test-1.py:75-79 | The encoded state, or "{}" when encoding fails |
| StateCodec.SavedStateIsLoadedNext | support-resistance/test-1.py:75-79 | With a codec that reads back what it writes, the next call loads exactly the state this call saved, or the empty state after an encoding failure |
| Engine.Trader.constructor | support-resistance/test-1.py:6-11 | The long window is 5 and the limits are 20 for AMETHYSTS and 20 for STARFRUIT, nothing else |
| Engine.Trader.ProcessProduct | support-resistance/test-1.py:38-67 | The per-product step returns the record extended by the observation, and fails or returns orders exactly as the decision on the extended history says |
| Engine.Trader.Run | support-resistance/test-1.py:22-82 | The orders are the in-order fold of the decisions over the snapshot from the loaded state; the saved string is the encoded fold of the observations; conversions are None |
| Engine.Entry | support-resistance/test-1.py:41-42 | A product's loaded record, or the fresh record with no support, no resistance and an empty history when it has none |
| Engine.ObserveBooks | support-resistance/test-1.py:35-70 | The state after observing the books in order; what it leaves per product is stated by ObserveBooksKeys, ObserveBooksOther and ObserveBooksAt |
| Engine.DecideBooks | support-resistance/test-1.py:35-70 | The result map after deciding the books in order, each from the state observed so far; what it leaves per product is stated by DecideBooksOther and DecideBooksAt |
| Engine.ObserveBooksKeys | support-resistance/test-1.py:35-42 | After a call the state holds exactly the prior products and the snapshot's |
| Engine.ObserveBooksOther | support-resistance/test-1.py:35-42 | A product absent from the snapshot keeps its prior record, or stays absent |
| Engine.ObserveBooksAt | support-resistance/test-1.py:41-54 | With distinct products, each product of the snapshot is observed exactly once, from its prior (or fresh) record |
| Engine.DecideBooksOther | support-resistance/test-1.py:35-69 | A product absent from the snapshot gets no result entry |
| Engine.DecideBooksAt | support-resistance/test-1.py:35-73 | With distinct products, a product of the snapshot has a result entry exactly when its decision did not fail, holding the decided orders |
| Engine.ProductResult | support-resistance/test-1.py:35-73 | For each book of the snapshot: its product's saved record is the loaded one observed once, and its result entry exists exactly when the decision on that record did not fail, holding the decided orders |
| Engine.SavedProducts | support-resistance/test-1.py:35-42 | The saved state's products are the prior ones plus the snapshot's; products not in the snapshot pass through unchanged |
| Engine.OrdersOnlyForSnapshotProducts | support-resistance/test-1.py:35-69 | The result names only products of the snapshot |
| Engine.HistoryUpdate | support-resistance/test-1.py:49-54 | With both book sides, a product's history grows by exactly its mid-price at the end, earlier entries unchanged; otherwise it is unchanged; support and resistance are carried |
| Engine.HistoriesOnlyGrow | support-resistance/test-1.py:44-70 | Every saved history extends the loaded one by at most one price |
| Engine.NewProductStartsFresh | support-resistance/test-1.py:41-42 | A product seen for the first time has no support or resistance and a history of just its mid-price, or empty |
| Engine.AtMostOneOrder | support-resistance/test-1.py:49-69 | Each product gets at most one order, for itself, and an empty entry on an empty book side or a sideways trend |
| Engine.MissingLimitDropsResult | support-resistance/test-1.py:61-73 | A product lacks a result entry exactly when both sides are present, it has no limit and the trend is not sideways; its history has still been extended |
| Engine.OrdersKeepPositionWithinLimit | support-resistance/test-1.py:61-67 | Under the simulator's sign convention, a product's order never takes a position within its limit out of it |
| Engine.FirstObservationPlacesNothing | support-resistance/test-1.py:56-58 | A product whose loaded history is empty gets an empty order list |

## Left out

- Logging: every `print` call (lines 7, 11, 15, 19, 23-25, 33, 37, 73, 78) is a pure side effect and is not modelled.
- JSON text: `json.loads` and `json.dumps` (lines 31, 76) are not modelled. The caller supplies them as a `Codec`. A decoded value that is not a map of well-formed product records is outside the model: its type is `StateMap`.
- The simulator's `datamodel` types (line 2) are replaced by plain records and sequences. The snapshot's observations (line 25) are read only for logging and are not modelled.
- Floating point: prices and averages are `real`, with no rounding.
- Exceptions: only the `KeyError` from looking up a missing position limit (lines 61 and 65, caught at 72-73) is modelled, as the `MissingLimit` outcome. Every other exception path is treated as unreachable.
- The limit lookup happens only after the trend test, as in the source. So a product without a limit fails only on a non-sideways trend.
- Support and resistance are written once (line 42) and never read. They are carried unchanged as opaque fields.
- Conversions are always None (line 81).
- Averages.MovingAverage: a window below 1 on a non-empty price list is excluded by its precondition. Python would divide by zero at 0 and slice from the wrong end for negative windows, but the trader only passes windows of at least 1.
- Dictionary iteration: the snapshot's books and book sides are sequences in the simulator's insertion order. The lemmas about a call's effect on individual products require distinct products, as a dictionary's keys are. `Run` itself needs no such assumption.
- Engine.Trader.Run: orders are sized by the corrected `BuyQuantity` and `SellQuantity`, not by the as-written lines 62 and 66 (see Findings). The as-written sizing is modelled and analysed separately.
- Engine.Trader.ProcessProduct: computes the corrected sizing, not lines 62 and 66 as written (see Findings).
- Strategy.Decide: decides with the corrected sizing, not lines 62 and 66 as written (see Findings).
- Strategy.DecisionPlacement: states the corrected quantities, not those of lines 62 and 66 as written (see Findings).
- Strategy.DecisionKeepsPositionWithinLimit: holds for the corrected sizing, not for lines 62 and 66 as written, which break it (see Findings).
- Engine.OrdersKeepPositionWithinLimit: holds for the corrected sizing, not for lines 62 and 66 as written, which break it (see Findings).
- Engine.DecideBooks, Engine.ProductResult: the orders they describe are those of the corrected sizing (see Findings).
- Key order of the saved state: `json.dumps` (line 76) writes the products in the dictionary's insertion order (loaded products first, then new ones in snapshot order). The model's `Codec` encodes an unordered map, so that order is not modelled; the next call decodes the same map either way.
- Other strategy variants in the repository (the fixed, adaptive and exponential moving-average traders under `Moving Average/`) are not part of this model.

## Findings

| source | as written | input that shows it | evidently intended | confidence | as-written member | corrected member |
|---|---|---|---|---|---|---|
| support-resistance/test-1.py:62 | `-min(best_ask_amount, limit - position)` | Resting ask quantity -30 (sells are listed as negative), position 0, limit 20: the buy quantity is 30 and the position would reach 30 > 20 | Buy `min(-best_ask_amount, limit - position)`: the resting volume, capped by the headroom | medium, not executed | Strategy.BuyQuantityAsWritten, Strategy.AsWrittenBuyOverrunsLimit | Strategy.BuyQuantity, Strategy.Decide, Strategy.DecisionPlacement, Strategy.DecisionKeepsPositionWithinLimit, Engine.Trader.ProcessProduct, Engine.OrdersKeepPositionWithinLimit |
| support-resistance/test-1.py:66 | `min(best_bid_amount, position + limit)` | Resting bid quantity 5 (buys are listed as positive), position 0, limit 20: the "sell" quantity is 5, which is a buy at the bid | Sell `-min(best_bid_amount, position + limit)`: a negative quantity, capped by the headroom down to minus the limit | medium, not executed | Strategy.SellQuantityAsWritten, Strategy.AsWrittenSellBuys | Strategy.SellQuantity, Strategy.Decide, Strategy.DecisionPlacement, Strategy.DecisionKeepsPositionWithinLimit, Engine.Trader.ProcessProduct, Engine.OrdersKeepPositionWithinLimit |

Both findings rest on the simulator's sign convention, which this file does not state. The repository's other traders (`Moving Average/Moving Average.py`) size a buy by the negated ask quantity and a sell by the negated bid quantity, which is why the confidence is medium.
