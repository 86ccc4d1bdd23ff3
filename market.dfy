/**
 * The values the trading simulator hands to the trader on each call, and the
 * per-product record the trader keeps in its opaque state blob.
 */
module Market {

  datatype Option<+T> = None | Some(value: T)

  /** One resting price level of a book side, as the simulator lists it: (price, quantity). */
  datatype Level = Level(price: int, quantity: int)

  /**
   * A product's order book. Each side is listed in the simulator's order; the
   * trader takes the FIRST entry of each side as its best level.
   */
  datatype OrderDepth = OrderDepth(sellOrders: seq<Level>, buyOrders: seq<Level>)

  /** An order: positive quantity buys, negative quantity sells. */
  datatype Order = Order(symbol: string, price: int, quantity: int)

  /** A product's book, as one entry of the snapshot's ordered mapping from product to book. */
  datatype Book = Book(product: string, depth: OrderDepth)

  /**
   * The per-call snapshot: the previous state blob, the books in the
   * snapshot's own order and the current positions.
   */
  datatype TradingState = TradingState(
    traderData: string,
    orderDepths: seq<Book>,
    position: map<string, int>)

  /** The products of a snapshot's books. */
  function Products(books: seq<Book>): set<string> {
    set i | 0 <= i < |books| :: books[i].product
  }

  /** No product has two books, as in the simulator's mapping. */
  predicate DistinctProducts(books: seq<Book>) {
    forall i, j :: 0 <= i < j < |books| ==> books[i].product != books[j].product
  }

  /**
   * What the trader remembers about one product between calls. Support and
   * resistance are written once and never read; they are carried unchanged.
   */
  datatype ProductState = ProductState(
    priceHistory: seq<real>,
    support: Option<real>,
    resistance: Option<real>)

  type StateMap = map<string, ProductState>

  /** The record given to a product seen for the first time. */
  const FreshProductState: ProductState := ProductState([], None, None)

  /** The current position of a product; a product without one holds 0. */
  function PositionOf(positions: map<string, int>, product: string): (pos: int)
    ensures product in positions ==> pos == positions[product]
    ensures product !in positions ==> pos == 0
  {
    if product in positions then positions[product] else 0
  }

  /** Both sides of the book have at least one resting level. */
  predicate HasBothSides(depth: OrderDepth) {
    |depth.sellOrders| > 0 && |depth.buyOrders| > 0
  }

  /** The mean of the first sell level's price and the first buy level's price. */
  function MidPrice(depth: OrderDepth): (mid: real)
    requires HasBothSides(depth)
    ensures 2.0 * mid == (depth.sellOrders[0].price + depth.buyOrders[0].price) as real
  {
    (depth.sellOrders[0].price + depth.buyOrders[0].price) as real / 2.0
  }
}
