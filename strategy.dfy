/**
 * The per-product decision of the moving-average crossover strategy with
 * position limits: how a call's book extends the price history, how the
 * history is classified into a trend, and which order the trend produces.
 */
module Strategy {

  import opened Market
  import opened Averages

  /** A moving-average window length the trader may use. */
  type Window = n: int | n >= 1 witness 1

  datatype Trend = Upward | Downward | Sideways

  /**
   * Compares the average of the last two prices with the average of the last
   * `baseWindow` prices (fewer when the history is shorter).
   */
  function Classify(history: seq<real>, baseWindow: Window): Trend {
    var shortAverage := MovingAverage(history, Min(|history|, 2));
    var longAverage := MovingAverage(history, Min(|history|, baseWindow));
    if shortAverage > longAverage then Upward
    else if shortAverage < longAverage then Downward
    else Sideways
  }

  /** With at most two prices (and a long window of two or more) both averages see the same prices. */
  lemma ShortHistoryIsSideways(history: seq<real>, baseWindow: Window)
    requires |history| <= Min(2, baseWindow)
    ensures Classify(history, baseWindow) == Sideways
  {
    assert Min(|history|, 2) == Min(|history|, baseWindow) == |history|;
  }

  /** A long window holding one repeated price gives no trend. */
  lemma ConstantWindowIsSideways(history: seq<real>, baseWindow: Window, p: real)
    requires baseWindow >= 2
    requires forall i :: |history| - Min(|history|, baseWindow) <= i < |history| ==> history[i] == p
    ensures Classify(history, baseWindow) == Sideways
  {
    if |history| > 0 {
      var k := |history|;
      var longWindow := TrailingWindow(history, Min(k, baseWindow));
      var shortWindow := TrailingWindow(history, Min(k, 2));
      assert forall i :: 0 <= i < |longWindow| ==> longWindow[i] == history[k - |longWindow| + i];
      assert forall i :: 0 <= i < |shortWindow| ==> shortWindow[i] == history[k - |shortWindow| + i];
      AverageOfConstantWindow(history, Min(k, baseWindow), p);
      AverageOfConstantWindow(history, Min(k, 2), p);
    }
  }

  /** A history rising strictly across the whole long window is an upward trend. */
  lemma RisingWindowIsUpward(history: seq<real>, baseWindow: Window)
    requires baseWindow >= 3 && |history| >= 3
    requires forall i, j :: |history| - Min(|history|, baseWindow) <= i < j < |history| ==> history[i] < history[j]
    ensures Classify(history, baseWindow) == Upward
  {
    var k, n := |history|, Min(|history|, baseWindow);
    var older, recent := history[k - n..k - 2], history[k - 2..];
    assert history[k - n..] == older + recent;
    assert forall i :: 0 <= i < |older| ==> older[i] == history[k - n + i];
    assert forall j :: 0 <= j < |recent| ==> recent[j] == history[k - 2 + j];
    RecentMeanAbove(older, recent, history[k - 2]);
    assert TrailingWindow(history, Min(k, 2)) == recent;
    assert TrailingWindow(history, n) == older + recent;
    assert MovingAverage(history, Min(k, 2)) == Sum(recent) / (|recent| as real);
    assert MovingAverage(history, n) == Sum(older + recent) / (|older + recent| as real);
  }

  /** A history falling strictly across the whole long window is a downward trend. */
  lemma FallingWindowIsDownward(history: seq<real>, baseWindow: Window)
    requires baseWindow >= 3 && |history| >= 3
    requires forall i, j :: |history| - Min(|history|, baseWindow) <= i < j < |history| ==> history[i] > history[j]
    ensures Classify(history, baseWindow) == Downward
  {
    var k, n := |history|, Min(|history|, baseWindow);
    var older, recent := history[k - n..k - 2], history[k - 2..];
    assert history[k - n..] == older + recent;
    assert forall i :: 0 <= i < |older| ==> older[i] == history[k - n + i];
    assert forall j :: 0 <= j < |recent| ==> recent[j] == history[k - 2 + j];
    RecentMeanBelow(older, recent, history[k - 2]);
    assert TrailingWindow(history, Min(k, 2)) == recent;
    assert TrailingWindow(history, n) == older + recent;
    assert MovingAverage(history, Min(k, 2)) == Sum(recent) / (|recent| as real);
    assert MovingAverage(history, n) == Sum(older + recent) / (|older + recent| as real);
  }

  // Order sizing. The simulator lists resting sell quantities as negative
  // numbers and resting buy quantities as positive ones; an order with a
  // positive quantity buys and one with a negative quantity sells.

  /** The buy quantity as the trader writes it: the negated minimum of the resting ask quantity and the headroom. */
  function BuyQuantityAsWritten(bestAskAmount: int, limit: int, position: int): (q: int)
    requires position < limit
    ensures q == -bestAskAmount || q == position - limit
    ensures q >= position - limit
    ensures q >= -bestAskAmount
  {
    -Min(bestAskAmount, limit - position)
  }

  /** With a negative resting ask quantity larger than the headroom, the as-written buy overshoots the limit. */
  lemma AsWrittenBuyOverrunsLimit(bestAskAmount: int, limit: int, position: int)
    requires position < limit
    requires bestAskAmount < position - limit
    ensures position + BuyQuantityAsWritten(bestAskAmount, limit, position) > limit
  {
  }

  /** The sell quantity as the trader writes it: the minimum of the resting bid quantity and the headroom. */
  function SellQuantityAsWritten(bestBidAmount: int, limit: int, position: int): (q: int)
    requires position > -limit
    ensures q <= position + limit
    ensures q <= bestBidAmount
    ensures q == bestBidAmount || q == position + limit
  {
    Min(bestBidAmount, position + limit)
  }

  /** With a positive resting bid quantity, the as-written "sell" has a positive quantity, so it buys. */
  lemma AsWrittenSellBuys(bestBidAmount: int, limit: int, position: int)
    requires position > -limit
    requires bestBidAmount > 0
    ensures SellQuantityAsWritten(bestBidAmount, limit, position) > 0
  {
  }

  /** Buys the resting ask quantity, but no more than brings the position up to the limit. */
  function BuyQuantity(bestAskAmount: int, limit: int, position: int): (q: int)
    requires position < limit
    ensures position + q <= limit
    ensures q <= -bestAskAmount
    ensures q == -bestAskAmount || position + q == limit
    ensures bestAskAmount <= 0 ==> q >= 0
    ensures bestAskAmount < 0 ==> q > 0
  {
    Min(-bestAskAmount, limit - position)
  }

  /** Sells the resting bid quantity, but no more than brings the position down to minus the limit. */
  function SellQuantity(bestBidAmount: int, limit: int, position: int): (q: int)
    requires position > -limit
    ensures position + q >= -limit
    ensures -q <= bestBidAmount
    ensures -q == bestBidAmount || position + q == -limit
    ensures bestBidAmount >= 0 ==> q <= 0
    ensures bestBidAmount > 0 ==> q < 0
  {
    -Min(bestBidAmount, position + limit)
  }

  /** The product's record after this call's book: the mid-price is appended when both sides are present. */
  function Observe(entry: ProductState, depth: OrderDepth): ProductState {
    if HasBothSides(depth) then entry.(priceHistory := entry.priceHistory + [MidPrice(depth)])
    else entry
  }

  /**
   * What one product's processing yields: the orders placed, or the failure
   * that a product without a position limit meets once a trend asks for one.
   */
  datatype Outcome = Placed(orders: seq<Order>) | MissingLimit

  /**
   * The decision for `product` given its book and its history after this
   * call's observation: at most one order, at the best ask on an upward trend
   * and at the best bid on a downward one, while the position allows it.
   */
  function Decide(product: string, depth: OrderDepth, history: seq<real>, position: int,
                  limits: map<string, int>, baseWindow: Window): Outcome
  {
    if !HasBothSides(depth) then Placed([])
    else
      var bestAsk, bestBid := depth.sellOrders[0], depth.buyOrders[0];
      match Classify(history, baseWindow)
      case Sideways => Placed([])
      case Upward =>
        if product !in limits then MissingLimit
        else if position < limits[product] then
          Placed([Order(product, bestAsk.price, BuyQuantity(bestAsk.quantity, limits[product], position))])
        else Placed([])
      case Downward =>
        if product !in limits then MissingLimit
        else if position > -limits[product] then
          Placed([Order(product, bestBid.price, SellQuantity(bestBid.quantity, limits[product], position))])
        else Placed([])
  }

  /**
   * A decision places at most one order, for its own product; nothing when a
   * book side is empty or the trend is sideways; and it fails exactly when a
   * trend asks for the limit of a product that has none.
   */
  lemma DecisionShape(product: string, depth: OrderDepth, history: seq<real>, position: int,
                      limits: map<string, int>, baseWindow: Window)
    ensures var out := Decide(product, depth, history, position, limits, baseWindow);
      && (out.Placed? ==> |out.orders| <= 1 && forall o :: o in out.orders ==> o.symbol == product)
      && (!HasBothSides(depth) ==> out == Placed([]))
      && (HasBothSides(depth) && Classify(history, baseWindow) == Sideways ==> out == Placed([]))
      && (out.MissingLimit? <==>
            HasBothSides(depth) && product !in limits && Classify(history, baseWindow) != Sideways)
  {
  }

  /**
   * For a product with a limit and both book sides: a buy at the best ask on
   * an upward trend below the limit, a sell at the best bid on a downward
   * trend above minus the limit, nothing otherwise.
   */
  lemma DecisionPlacement(product: string, depth: OrderDepth, history: seq<real>, position: int,
                          limits: map<string, int>, baseWindow: Window)
    requires product in limits && HasBothSides(depth)
    ensures var out, trend := Decide(product, depth, history, position, limits, baseWindow), Classify(history, baseWindow);
      var ask, bid, limit := depth.sellOrders[0], depth.buyOrders[0], limits[product];
      && out.Placed?
      && (trend == Upward && position < limit ==>
            out.orders == [Order(product, ask.price, Min(-ask.quantity, limit - position))])
      && (trend == Downward && position > -limit ==>
            out.orders == [Order(product, bid.price, -Min(bid.quantity, position + limit))])
      && (trend == Upward && position >= limit ==> out.orders == [])
      && (trend == Downward && position <= -limit ==> out.orders == [])
  {
  }

  /**
   * With resting sells listed as negative and resting buys as positive
   * quantities, filling the decided order keeps a position that was within
   * the product's limit within it.
   */
  lemma {:induction false} DecisionKeepsPositionWithinLimit(product: string, depth: OrderDepth, history: seq<real>,
                                                            position: int, limits: map<string, int>,
                                                            baseWindow: Window)
    requires product in limits
    requires |depth.sellOrders| > 0 ==> depth.sellOrders[0].quantity <= 0
    requires |depth.buyOrders| > 0 ==> depth.buyOrders[0].quantity >= 0
    requires -limits[product] <= position <= limits[product]
    ensures var out := Decide(product, depth, history, position, limits, baseWindow);
      out.Placed? && forall o :: o in out.orders ==> -limits[product] <= position + o.quantity <= limits[product]
  {
    var out := Decide(product, depth, history, position, limits, baseWindow);
    if HasBothSides(depth) {
      var ask, bid, limit := depth.sellOrders[0], depth.buyOrders[0], limits[product];
      if Classify(history, baseWindow) == Upward && position < limit {
        var q := BuyQuantity(ask.quantity, limit, position);
        assert out.orders == [Order(product, ask.price, q)];
      } else if Classify(history, baseWindow) == Downward && position > -limit {
        var q := SellQuantity(bid.quantity, limit, position);
        assert out.orders == [Order(product, bid.price, q)];
      }
    }
  }
}
