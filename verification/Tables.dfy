/** The four tables that carts and orders live in, and the object that holds them.
    A row is a value (the database hands out copies); the tables themselves change in place. */
module Tables {
  import opened Wrappers

  /** What the services throw. NullModel is the run-time error of reading a property of a missing row. */
  datatype Failure =
    | CartMissing
    | LineMissing
    | UnitMissing
    | OrderMissing
    | TransitionRefused
    | ShippingTransitionRefused
    | NullModel

  datatype OrderStatus =
    | Cart | Pending | Confirmed | Processing | OnHold
    | Shipped | Completed | Cancelled | Refunded | Failed

  datatype ShippingStatus =
    | NotRequired | Pending | Confirmed | Shipped | InTransit | Delivered | Returned | Lost

  /** What identifies a line inside one order. */
  datatype Key = Key(product: int, variant: int, unit: int)

  /** A customer of 0 stands for an absent one, as the source treats both alike. */
  datatype Order = Order(
    id: nat, code: string, customer: int,
    status: OrderStatus, shipping: ShippingStatus,
    totalCost: int, finalCost: int, note: Option<string>)

  datatype Line = Line(
    id: nat, order: nat, key: Key, quantity: int,
    price: int, totalCost: int, serviceFee: int, tax: int, discount: int, finalCost: int,
    status: OrderStatus, shipping: ShippingStatus, deleted: bool, note: Option<string>)

  /** What a client asks of one line: a quantity, and a note and statuses if it names any. */
  datatype Ask = Ask(
    quantity: int, note: Property<string>, status: Option<OrderStatus>, shipping: Option<ShippingStatus>)

  /** What a client gives at checkout: a note, and the recipient and dates as columns by name. */
  datatype CheckoutInput = CheckoutInput(note: Property<string>, columns: map<string, string>)

  datatype Shipping = Shipping(id: nat, line: nat, to: CheckoutInput, status: ShippingStatus)

  datatype History = History(order: nat, status: Option<OrderStatus>, shipping: Option<ShippingStatus>)

  /** One snapshot of everything the cart and order services read or write. Shipping and history rows are
      only ever appended, so those tables are sequences and a shipping's id is its position.
      `units` gives the current price of each conversion unit. */
  datatype Tables = Tables(
    orders: map<nat, Order>, lines: map<nat, Line>, shippings: seq<Shipping>,
    history: seq<History>, units: map<int, int>,
    nextOrder: nat, nextLine: nat)

  class Database {
    var orders: map<nat, Order>
    var lines: map<nat, Line>
    var shippings: seq<Shipping>
    var history: seq<History>
    var units: map<int, int>
    var nextOrder: nat
    var nextLine: nat

    function State(): Tables
      reads this
    {
      Tables(orders, lines, shippings, history, units, nextOrder, nextLine)
    }

    constructor ()
      ensures State() == Tables(map[], map[], [], [], map[], 0, 0)
    {
      orders, lines, shippings, history, units := map[], map[], [], [], map[];
      nextOrder, nextLine := 0, 0;
    }
  }
}
