/** The services as their clients see them: one call after another, each of them one step of a run. */
module Shop {
  import opened Wrappers
  import opened Tables
  import opened ShopSpec
  import opened ShopRuns
  import opened Records
  import opened Carts
  import StatusWalk

  /** A client's call. The new codes are the code generator's answers to it. */
  datatype Call =
    | CreateCart(input: NewOrder, newCode: string)
    | AddToCart(code: string, key: Key, quantity: int, note: Property<string>)
    | RemoveFromCart(code: string, key: Key)
    | ClearCart(code: string)
    | CheckoutCart(code: string, to: CheckoutInput, newCode: string)
    | ChangeStatus(order: nat, target: OrderStatus)
    | ShipOrder(order: nat)
    | ChangeShipping(order: nat, state: ShippingStatus)

  /** The step is the call, with what the database and the scheduler chose filled in. */
  predicate Describes(a: Action, call: Call) {
    match call
    case CreateCart(input, newCode) => a.Create? && a.input == input && a.generated == newCode
    case AddToCart(code, key, quantity, note) =>
      a.Add? && a.code == code && a.key == key && a.ask == Ask(quantity, note, None, None)
    case RemoveFromCart(code, key) => a.Remove? && a.code == code && a.key == key
    case ClearCart(code) => a.Clear? && a.code == code
    case CheckoutCart(code, to, newCode) => a.Place? && a.code == code && a.to == to && a.generated == newCode
    case ChangeStatus(order, target) => a == SetStatus(order, target)
    case ShipOrder(order) => a == Ship(order)
    case ChangeShipping(order, state) => a == SetShipping(order, state)
  }

  /** The cart mutations. Whatever happens inside, the tables move by one enabled step of the run relation. */
  method CallCart(carts: CartService, call: Call) returns (ghost a: Action)
    requires carts.Wired() && Inv(carts.db.State())
    requires call.CreateCart? || call.AddToCart? || call.RemoveFromCart? || call.ClearCart? || call.CheckoutCart?
    modifies carts.db
    ensures Describes(a, call) && Enabled(old(carts.db.State()), a)
    ensures carts.db.State() == Apply(old(carts.db.State()), a) && Inv(carts.db.State())
  {
    match call {
      case CreateCart(input, newCode) =>
        var r, found := carts.CreateCart(input, newCode);
        a := Create(input, newCode, found);
      case AddToCart(code, key, quantity, note) =>
        var r, cart := carts.AddToCart(code, key, quantity, note);
        a := Add(code, cart, key, Ask(quantity, note, None, None));
      case RemoveFromCart(code, key) =>
        var r, cart := carts.RemoveFromCart(code, key);
        a := Remove(code, cart, key);
      case ClearCart(code) =>
        var r, cart := carts.ClearCart(code);
        a := Clear(code, cart);
      case CheckoutCart(code, to, newCode) =>
        var r, cart, insertion := carts.CheckoutCart(code, to, newCode);
        a := Place(code, cart, newCode, to, insertion);
    }
  }

  /** The status mutations, each with an options object of its own. */
  method CallStatus(carts: CartService, call: Call) returns (ghost a: Action)
    requires carts.Wired() && Inv(carts.db.State())
    requires call.ChangeStatus? || call.ShipOrder?
             || (call.ChangeShipping? && call.state in {InTransit, Delivered, Returned})
    modifies carts.db
    ensures Describes(a, call) && Enabled(old(carts.db.State()), a)
    ensures carts.db.State() == Apply(old(carts.db.State()), a) && Inv(carts.db.State())
  {
    var options := new Options<Order>(null);
    ghost var before := carts.db.State();
    match call {
      case ChangeStatus(order, target) =>
        a := SetStatus(order, target);
        var r := carts.orders.ChangeStatus(order, target, false, options);
      case ShipOrder(order) =>
        a := Ship(order);
        var r := carts.orders.ShippedOrder(order, options);
      case ChangeShipping(order, state) =>
        a := SetShipping(order, state);
        var r := carts.orders.ChangeShippingStatus(order, state, options);
    }
    ApplyKeepsInv(before, a);
  }

  /** The named status mutations, as clients call them. */
  method CallNamed(carts: CartService, op: StatusWalk.Operation, order: nat) returns (ghost a: Action)
    requires carts.Wired() && Inv(carts.db.State())
    modifies carts.db
    ensures a == StatusWalk.ActionOf(op, order) && Enabled(old(carts.db.State()), a)
    ensures carts.db.State() == Apply(old(carts.db.State()), a) && Inv(carts.db.State())
  {
    var options := new Options<Order>(null);
    ghost var before := carts.db.State();
    a := StatusWalk.ActionOf(op, order);
    match op {
      case ToPending => var r := carts.orders.PeddingOrder(order, options);
      case ToConfirmed => var r := carts.orders.ConfirmedOrder(order, options);
      case ToProcessing => var r := carts.orders.ProcessingOrder(order, options);
      case ToShipped => var r := carts.orders.ShippedOrder(order, options);
      case ToTransit => var r := carts.orders.InTransitOrder(order, options);
      case ToDelivered => var r := carts.orders.DeliveredOrder(order, options);
      case ToReturned => var r := carts.orders.ReturnedOrder(order, options);
      case ToCompleted => var r := carts.orders.CompletedOrder(order, options);
      case ToRefunded => var r := carts.orders.RefundedOrder(order, options);
      case ToCancelled => var r := carts.orders.CancelledOrder(order, options);
    }
    ApplyKeepsInv(before, a);
  }
}
