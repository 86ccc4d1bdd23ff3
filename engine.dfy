/**
 * The trader: one call of `Run` goes through the snapshot's books in order,
 * extends each product's saved price history, classifies the trend and places
 * at most one order per product, then saves the updated state.
 */
module Engine {

  import opened Market
  import opened Averages
  import opened Strategy
  import opened StateCodec

  /** The record a product is processed from: its record in `m`, or a fresh one if it has none. */
  function Entry(m: StateMap, product: string): (e: ProductState)
    ensures product in m ==> e == m[product]
    ensures product !in m ==> e == FreshProductState
  {
    if product in m then m[product] else FreshProductState
  }

  /**
   * The state map after observing `books` in order, starting from `prior`:
   * each book extends its product's record, a fresh one if it had none.
   */
  function ObserveBooks(prior: StateMap, books: seq<Book>): StateMap
    decreases |books|
  {
    if books == [] then prior
    else
      var before, book := ObserveBooks(prior, books[..|books| - 1]), books[|books| - 1];
      before[book.product := Observe(Entry(before, book.product), book.depth)]
  }

  /**
   * The orders after processing `books` in order, starting from `prior`: each
   * book's decision, on its product's record once observed, adds an entry
   * unless it failed.
   */
  function DecideBooks(prior: StateMap, books: seq<Book>, positions: map<string, int>,
                       limits: map<string, int>, baseWindow: Window): map<string, seq<Order>>
    decreases |books|
  {
    if books == [] then map[]
    else
      var init, book := books[..|books| - 1], books[|books| - 1];
      var before := DecideBooks(prior, init, positions, limits, baseWindow);
      Record(before, book.product, BookOutcome(ObserveBooks(prior, init), book, positions, limits, baseWindow))
  }

  /** The result after one product's outcome: its orders entered unless it failed. */
  function Record(result: map<string, seq<Order>>, product: string, outcome: Outcome): map<string, seq<Order>> {
    if outcome.Placed? then result[product := outcome.orders] else result
  }

  /** Recording one product's outcome leaves every other product's entry as it was. */
  lemma RecordOther(result: map<string, seq<Order>>, product: string, outcome: Outcome, p: string)
    requires p != product
    ensures p in Record(result, product, outcome) <==> p in result
    ensures p in result ==> Record(result, product, outcome)[p] == result[p]
  {
  }

  /** The decision for `book` when its product's record is taken from `m`. */
  function BookOutcome(m: StateMap, book: Book, positions: map<string, int>,
                       limits: map<string, int>, baseWindow: Window): Outcome
  {
    Decide(book.product, book.depth, Observe(Entry(m, book.product), book.depth).priceHistory,
           PositionOf(positions, book.product), limits, baseWindow)
  }

  /** Observing a prefix one book longer is one more observation. */
  lemma ObservePrefixStep(prior: StateMap, books: seq<Book>, i: nat)
    requires i < |books|
    ensures var before, book := ObserveBooks(prior, books[..i]), books[i];
      ObserveBooks(prior, books[..i + 1]) == before[book.product := Observe(Entry(before, book.product), book.depth)]
  {
    assert books[..i + 1][..i] == books[..i];
  }

  /** Deciding a prefix one book longer is one more decision, on the state observed before it. */
  lemma DecidePrefixStep(prior: StateMap, books: seq<Book>, i: nat, positions: map<string, int>,
                         limits: map<string, int>, baseWindow: Window)
    requires i < |books|
    ensures var outcome := BookOutcome(ObserveBooks(prior, books[..i]), books[i], positions, limits, baseWindow);
      var before := DecideBooks(prior, books[..i], positions, limits, baseWindow);
      DecideBooks(prior, books[..i + 1], positions, limits, baseWindow) == Record(before, books[i].product, outcome)
  {
    assert books[..i + 1][..i] == books[..i];
  }

  /** The state map a call with `state` saves, given the state map it loaded. */
  function NextState(state: TradingState, prior: StateMap): StateMap
  {
    ObserveBooks(prior, state.orderDepths)
  }

  /** The orders a call with `state` returns, given the state map it loaded. */
  function NextResult(state: TradingState, prior: StateMap, limits: map<string, int>,
                      baseWindow: Window): map<string, seq<Order>>
  {
    DecideBooks(prior, state.orderDepths, state.position, limits, baseWindow)
  }

  /** Writing a record over one just inserted leaves the same map as writing it directly. */
  lemma UpdateOverwrites(m: StateMap, inserted: StateMap, k: string, v: ProductState)
    requires inserted == m || inserted == m[k := FreshProductState]
    ensures inserted[k := v] == m[k := v]
  {
  }

  class Trader {
    /** The long moving-average window. */
    const baseWindowSize: Window
    /** The symmetric position limit of each product the trader knows. */
    const positionLimits: map<string, int>

    constructor ()
      ensures baseWindowSize == 5
      ensures positionLimits == map["AMETHYSTS" := 20, "STARFRUIT" := 20]
    {
      baseWindowSize := 5;
      positionLimits := map["AMETHYSTS" := 20, "STARFRUIT" := 20];
    }

    /**
     * The body of the per-product step of a call, from reading the product's
     * history to building its orders. Returns the product's record with the
     * history as extended, the orders, and whether looking up a missing
     * position limit made the step fail.
     */
    method ProcessProduct(product: string, orderDepth: OrderDepth, entry: ProductState, currentPosition: int)
      returns (updated: ProductState, orders: seq<Order>, failed: bool)
      ensures updated == Observe(entry, orderDepth)
      ensures failed <==> Decide(product, orderDepth, updated.priceHistory, currentPosition,
                                  positionLimits, baseWindowSize).MissingLimit?
      ensures !failed ==> orders == Decide(product, orderDepth, updated.priceHistory, currentPosition,
                                           positionLimits, baseWindowSize).orders
    {
      orders := [];
      failed := false;
      var priceHistory := entry.priceHistory;
      if |orderDepth.sellOrders| > 0 && |orderDepth.buyOrders| > 0 {
        var bestAsk, bestBid := orderDepth.sellOrders[0], orderDepth.buyOrders[0];
        var midPrice := (bestAsk.price + bestBid.price) as real / 2.0;
        priceHistory := priceHistory + [midPrice];
        var trend := Classify(priceHistory, baseWindowSize);
        if trend == Upward {
          if product !in positionLimits {
            failed := true;
          } else if currentPosition < positionLimits[product] {
            var quantity := BuyQuantity(bestAsk.quantity, positionLimits[product], currentPosition);
            orders := orders + [Order(product, bestAsk.price, quantity)];
          }
        } else if trend == Downward {
          if product !in positionLimits {
            failed := true;
          } else if currentPosition > -positionLimits[product] {
            var quantity := SellQuantity(bestBid.quantity, positionLimits[product], currentPosition);
            orders := orders + [Order(product, bestBid.price, quantity)];
          }
        }
      }
      updated := entry.(priceHistory := priceHistory);
    }

    /**
     * One call from the simulator. Returns the orders per product, the
     * conversions request (none) and the encoded state for the next call.
     */
    method Run(state: TradingState, codec: Codec)
      returns (result: map<string, seq<Order>>, conversions: Option<int>, traderDataStr: string)
      ensures result == NextResult(state, Load(codec, state.traderData), positionLimits, baseWindowSize)
      ensures conversions == None
      ensures traderDataStr
           == Save(codec, NextState(state, Load(codec, state.traderData)))
    {
      result := map[];
      var traderData := Load(codec, state.traderData);
      ghost var prior := traderData;
      for i := 0 to |state.orderDepths|
        invariant traderData == ObserveBooks(prior, state.orderDepths[..i])
        invariant result == DecideBooks(prior, state.orderDepths[..i], state.position, positionLimits, baseWindowSize)
      {
        var product, orderDepth := state.orderDepths[i].product, state.orderDepths[i].depth;
        ghost var before := traderData;
        ghost var entry := Observe(Entry(traderData, product), orderDepth);
        if product !in traderData {
          traderData := traderData[product := FreshProductState];
        }
        ghost var inserted := traderData;
        var currentPosition := PositionOf(state.position, product);
        var updated, orders, failed := ProcessProduct(product, orderDepth, traderData[product], currentPosition);
        assert updated == entry;
        // The history list is shared with the saved record, so the appended
        // mid-price stays in the state even when the product then fails.
        traderData := traderData[product := updated];
        if !failed {
          result := result[product := orders];
        }
        UpdateOverwrites(before, inserted, product, entry);
        ObservePrefixStep(prior, state.orderDepths, i);
        DecidePrefixStep(prior, state.orderDepths, i, state.position, positionLimits, baseWindowSize);
      }
      assert state.orderDepths[..|state.orderDepths|] == state.orderDepths;
      conversions := None;
      traderDataStr := Save(codec, traderData);
    }
  }

  /** A prefix of books with distinct products has distinct products, and the last product is not among them. */
  lemma DistinctPrefix(books: seq<Book>)
    requires |books| > 0 && DistinctProducts(books)
    ensures DistinctProducts(books[..|books| - 1])
    ensures books[|books| - 1].product !in Products(books[..|books| - 1])
  {
    var init := books[..|books| - 1];
    assert forall i :: 0 <= i < |init| ==> init[i] == books[i];
  }

  /** The products of `books` are those of all but the last book and the last book's. */
  lemma ProductsOfPrefix(books: seq<Book>)
    requires |books| > 0
    ensures Products(books) == Products(books[..|books| - 1]) + {books[|books| - 1].product}
  {
    var n := |books| - 1;
    var init := books[..n];
    assert forall i :: 0 <= i < n ==> init[i] == books[i];
    assert forall p :: p in Products(init) ==> p in Products(books);
    assert books[n].product in Products(books);
  }

  /** Observing keeps the prior products and adds those of the books. */
  lemma {:induction false} ObserveBooksKeys(prior: StateMap, books: seq<Book>)
    ensures ObserveBooks(prior, books).Keys == prior.Keys + Products(books)
    decreases |books|
  {
    if books != [] {
      ProductsOfPrefix(books);
      ObserveBooksKeys(prior, books[..|books| - 1]);
    }
  }

  /** A product none of the books names keeps its prior record, or stays absent. */
  lemma {:induction false} ObserveBooksOther(prior: StateMap, books: seq<Book>, p: string)
    requires p !in Products(books)
    ensures && (p in ObserveBooks(prior, books) <==> p in prior)
            && (p in prior ==> ObserveBooks(prior, books)[p] == prior[p])
    ensures Entry(ObserveBooks(prior, books), p) == Entry(prior, p)
    decreases |books|
  {
    if books != [] {
      ProductsOfPrefix(books);
      ObserveBooksOther(prior, books[..|books| - 1], p);
    }
  }

  /** Among books with distinct products, each book's product is observed once, from its prior record. */
  lemma {:induction false} ObserveBooksAt(prior: StateMap, books: seq<Book>, i: nat)
    requires DistinctProducts(books) && i < |books|
    ensures && books[i].product in ObserveBooks(prior, books)
            && ObserveBooks(prior, books)[books[i].product] == Observe(Entry(prior, books[i].product), books[i].depth)
    decreases |books|
  {
    var n := |books| - 1;
    var init := books[..n];
    DistinctPrefix(books);
    if i == n {
      ObserveBooksOther(prior, init, books[n].product);
    } else {
      assert init[i] == books[i];
      ObserveBooksAt(prior, init, i);
    }
  }

  /** A product none of the books names gets no orders. */
  lemma {:induction false} DecideBooksOther(prior: StateMap, books: seq<Book>, positions: map<string, int>,
                                            limits: map<string, int>, baseWindow: Window, p: string)
    requires p !in Products(books)
    ensures p !in DecideBooks(prior, books, positions, limits, baseWindow)
    decreases |books|
  {
    if books != [] {
      ProductsOfPrefix(books);
      DecideBooksOther(prior, books[..|books| - 1], positions, limits, baseWindow, p);
    }
  }

  /**
   * Among books with distinct products, a book's product has orders exactly
   * when its decision on the prior record did not fail, and they are the ones decided.
   */
  lemma {:induction false} DecideBooksAt(prior: StateMap, books: seq<Book>, positions: map<string, int>,
                                         limits: map<string, int>, baseWindow: Window, i: nat)
    requires DistinctProducts(books) && i < |books|
    ensures var out, outcome := DecideBooks(prior, books, positions, limits, baseWindow),
                                BookOutcome(prior, books[i], positions, limits, baseWindow);
      && (books[i].product in out <==> outcome.Placed?)
      && (books[i].product in out ==> out[books[i].product] == outcome.orders)
    decreases |books|
  {
    var n := |books| - 1;
    var init := books[..n];
    DistinctPrefix(books);
    if i == n {
      DecideBooksLast(prior, books, positions, limits, baseWindow);
    } else {
      assert init[i] == books[i];
      DecideBooksAt(prior, init, positions, limits, baseWindow, i);
      RecordOther(DecideBooks(prior, init, positions, limits, baseWindow), books[n].product,
                  BookOutcome(ObserveBooks(prior, init), books[n], positions, limits, baseWindow), books[i].product);
    }
  }

  /** The last book's decision is taken on its product's prior record, which the earlier books leave alone. */
  lemma DecideBooksLast(prior: StateMap, books: seq<Book>, positions: map<string, int>,
                        limits: map<string, int>, baseWindow: Window)
    requires |books| > 0
    requires books[|books| - 1].product !in Products(books[..|books| - 1])
    ensures var book := books[|books| - 1];
      var out, outcome := DecideBooks(prior, books, positions, limits, baseWindow),
                          BookOutcome(prior, book, positions, limits, baseWindow);
      && (book.product in out <==> outcome.Placed?)
      && (book.product in out ==> out[book.product] == outcome.orders)
  {
    var n := |books| - 1;
    var init, book := books[..n], books[n];
    ObserveBooksOther(prior, init, book.product);
    DecideBooksOther(prior, init, positions, limits, baseWindow, book.product);
    assert BookOutcome(ObserveBooks(prior, init), book, positions, limits, baseWindow)
        == BookOutcome(prior, book, positions, limits, baseWindow);
  }

  /** The saved state covers the prior products and the snapshot's; products not in the snapshot pass through. */
  lemma SavedProducts(state: TradingState, prior: StateMap)
    ensures NextState(state, prior).Keys == prior.Keys + Products(state.orderDepths)
    ensures forall p :: p in prior && p !in Products(state.orderDepths) ==>
      NextState(state, prior)[p] == prior[p]
  {
    ObserveBooksKeys(prior, state.orderDepths);
    forall p | p in prior && p !in Products(state.orderDepths)
      ensures NextState(state, prior)[p] == prior[p]
    {
      ObserveBooksOther(prior, state.orderDepths, p);
    }
  }

  /** The orders name only products of the snapshot. */
  lemma OrdersOnlyForSnapshotProducts(state: TradingState, prior: StateMap, limits: map<string, int>,
                                      baseWindow: Window)
    ensures NextResult(state, prior, limits, baseWindow).Keys <= Products(state.orderDepths)
  {
    forall p | p !in Products(state.orderDepths)
      ensures p !in NextResult(state, prior, limits, baseWindow)
    {
      DecideBooksOther(prior, state.orderDepths, state.position, limits, baseWindow, p);
    }
  }

  /**
   * A product of the snapshot gains exactly its mid-price at the end of its
   * history when both book sides are present, and nothing otherwise; its
   * support and resistance are carried unchanged.
   */
  lemma HistoryUpdate(state: TradingState, prior: StateMap, i: nat)
    requires DistinctProducts(state.orderDepths) && i < |state.orderDepths|
    ensures var book := state.orderDepths[i];
      var before := Entry(prior, book.product);
      book.product in NextState(state, prior) &&
      var after := NextState(state, prior)[book.product];
      && after.support == before.support
      && after.resistance == before.resistance
      && (HasBothSides(book.depth) ==>
            |after.priceHistory| == |before.priceHistory| + 1
            && after.priceHistory[..|before.priceHistory|] == before.priceHistory
            && after.priceHistory[|before.priceHistory|] == MidPrice(book.depth))
      && (!HasBothSides(book.depth) ==> after.priceHistory == before.priceHistory)
  {
    ObserveBooksAt(prior, state.orderDepths, i);
    ObserveBooksKeys(prior, state.orderDepths);
    var book := state.orderDepths[i];
    assert book.product in Products(state.orderDepths);
    var before, after := Entry(prior, book.product), NextState(state, prior)[book.product];
    if HasBothSides(book.depth) {
      assert after.priceHistory == before.priceHistory + [MidPrice(book.depth)];
    }
  }

  /**
   * What a call leaves for the snapshot's book `i`: its product's record
   * observed once from the loaded one, and its orders exactly when the
   * decision on that record did not fail.
   */
  lemma ProductResult(state: TradingState, prior: StateMap, limits: map<string, int>,
                      baseWindow: Window, i: nat)
    requires DistinctProducts(state.orderDepths) && i < |state.orderDepths|
    ensures var book, next, result := state.orderDepths[i], NextState(state, prior),
                                      NextResult(state, prior, limits, baseWindow);
      var entry := Observe(Entry(prior, book.product), book.depth);
      var outcome := Decide(book.product, book.depth, entry.priceHistory,
                            PositionOf(state.position, book.product), limits, baseWindow);
      && book.product in next && next[book.product] == entry
      && (book.product in result <==> outcome.Placed?)
      && (book.product in result ==> result[book.product] == outcome.orders)
  {
    ObserveBooksAt(prior, state.orderDepths, i);
    DecideBooksAt(prior, state.orderDepths, state.position, limits, baseWindow, i);
  }

  /** Every saved history keeps the one it was loaded with as a prefix and grows by at most one price. */
  lemma HistoriesOnlyGrow(state: TradingState, prior: StateMap, p: string)
    requires DistinctProducts(state.orderDepths)
    requires p in prior
    ensures var next := NextState(state, prior);
      && p in next
      && |prior[p].priceHistory| <= |next[p].priceHistory| <= |prior[p].priceHistory| + 1
      && next[p].priceHistory[..|prior[p].priceHistory|] == prior[p].priceHistory
  {
    if p in Products(state.orderDepths) {
      var i :| 0 <= i < |state.orderDepths| && state.orderDepths[i].product == p;
      HistoryUpdate(state, prior, i);
    } else {
      ObserveBooksOther(prior, state.orderDepths, p);
    }
  }

  /** A product seen for the first time starts from an empty history and no support or resistance. */
  lemma NewProductStartsFresh(state: TradingState, prior: StateMap, i: nat)
    requires DistinctProducts(state.orderDepths) && i < |state.orderDepths|
    requires state.orderDepths[i].product !in prior
    ensures var book, next := state.orderDepths[i], NextState(state, prior);
      && book.product in next
      && next[book.product].support == None
      && next[book.product].resistance == None
      && next[book.product].priceHistory == (if HasBothSides(book.depth) then [MidPrice(book.depth)] else [])
  {
    ObserveBooksAt(prior, state.orderDepths, i);
  }

  /**
   * Each product gets at most one order, for itself; none when a book side
   * is empty or the trend is sideways.
   */
  lemma AtMostOneOrder(state: TradingState, prior: StateMap, limits: map<string, int>,
                       baseWindow: Window, i: nat)
    requires DistinctProducts(state.orderDepths) && i < |state.orderDepths|
    ensures var book, next, result := state.orderDepths[i], NextState(state, prior),
                                      NextResult(state, prior, limits, baseWindow);
      var p := book.product;
      && p in next
      && (p in result ==> |result[p]| <= 1 && forall o :: o in result[p] ==> o.symbol == p)
      && (!HasBothSides(book.depth) ==> p in result && result[p] == [])
      && (HasBothSides(book.depth) && Classify(next[p].priceHistory, baseWindow) == Sideways
          ==> p in result && result[p] == [])
  {
    var book := state.orderDepths[i];
    var entry := Observe(Entry(prior, book.product), book.depth);
    ObserveBooksAt(prior, state.orderDepths, i);
    DecideBooksAt(prior, state.orderDepths, state.position, limits, baseWindow, i);
    DecisionShape(book.product, book.depth, entry.priceHistory, PositionOf(state.position, book.product),
                  limits, baseWindow);
  }

  /**
   * A product of the snapshot is missing from the result exactly when both
   * book sides are present, the trend is not sideways and it has no position
   * limit; its history has then still been extended.
   */
  lemma MissingLimitDropsResult(state: TradingState, prior: StateMap, limits: map<string, int>,
                                baseWindow: Window, i: nat)
    requires DistinctProducts(state.orderDepths) && i < |state.orderDepths|
    ensures var book, next := state.orderDepths[i], NextState(state, prior);
      && book.product in next
      && (book.product !in NextResult(state, prior, limits, baseWindow) <==>
            && HasBothSides(book.depth)
            && book.product !in limits
            && Classify(next[book.product].priceHistory, baseWindow) != Sideways)
      && (book.product !in NextResult(state, prior, limits, baseWindow) ==>
            next[book.product].priceHistory == Entry(prior, book.product).priceHistory + [MidPrice(book.depth)])
  {
    var book := state.orderDepths[i];
    var entry := Observe(Entry(prior, book.product), book.depth);
    ObserveBooksAt(prior, state.orderDepths, i);
    DecideBooksAt(prior, state.orderDepths, state.position, limits, baseWindow, i);
    DecisionShape(book.product, book.depth, entry.priceHistory, PositionOf(state.position, book.product),
                  limits, baseWindow);
  }

  /**
   * With resting sells listed as negative and resting buys as positive
   * quantities, filling a product's order keeps a position that was within
   * its limit within it.
   */
  lemma OrdersKeepPositionWithinLimit(state: TradingState, prior: StateMap, limits: map<string, int>,
                                      baseWindow: Window, i: nat)
    requires DistinctProducts(state.orderDepths) && i < |state.orderDepths|
    requires var book := state.orderDepths[i];
      && book.product in limits
      && (|book.depth.sellOrders| > 0 ==> book.depth.sellOrders[0].quantity <= 0)
      && (|book.depth.buyOrders| > 0 ==> book.depth.buyOrders[0].quantity >= 0)
      && -limits[book.product] <= PositionOf(state.position, book.product) <= limits[book.product]
    ensures var p, result := state.orderDepths[i].product, NextResult(state, prior, limits, baseWindow);
      && p in result
      && forall o :: o in result[p] ==> -limits[p] <= PositionOf(state.position, p) + o.quantity <= limits[p]
  {
    var book := state.orderDepths[i];
    var entry := Observe(Entry(prior, book.product), book.depth);
    DecideBooksAt(prior, state.orderDepths, state.position, limits, baseWindow, i);
    DecisionKeepsPositionWithinLimit(book.product, book.depth, entry.priceHistory,
                                     PositionOf(state.position, book.product), limits, baseWindow);
  }

  /** The first observation of a product's prices never places an order: both averages coincide. */
  lemma FirstObservationPlacesNothing(state: TradingState, prior: StateMap, limits: map<string, int>,
                                      baseWindow: Window, i: nat)
    requires DistinctProducts(state.orderDepths) && i < |state.orderDepths|
    requires Entry(prior, state.orderDepths[i].product).priceHistory == []
    ensures var p, result := state.orderDepths[i].product, NextResult(state, prior, limits, baseWindow);
      p in result && result[p] == []
  {
    var book := state.orderDepths[i];
    var entry := Observe(Entry(prior, book.product), book.depth);
    DecideBooksAt(prior, state.orderDepths, state.position, limits, baseWindow, i);
    ShortHistoryIsSideways(entry.priceHistory, baseWindow);
    DecisionShape(book.product, book.depth, entry.priceHistory, PositionOf(state.position, book.product),
                  limits, baseWindow);
  }
}
