/** What each cart and order operation does to the tables, as functions on snapshots.
    The service classes are proved against these functions; the laws of whole runs are proved about them. */
module ShopSpec {
  import opened Wrappers
  import opened Tables

  // ---------------------------------------------------------------- lines and their costs

  /** The live lines of an order. */
  ghost function LinesOf(lines: map<nat, Line>, order: nat): (ids: set<nat>)
    ensures ids <= lines.Keys
  {
    set id | id in lines && lines[id].order == order && !lines[id].deleted
  }

  /** The rows an add looks among: soft-deleted ones included. */
  ghost function Matches(lines: map<nat, Line>, order: nat, key: Key): (ids: set<nat>)
    ensures ids <= lines.Keys
  {
    set id | id in lines && lines[id].order == order && lines[id].key == key
  }

  /** Some element of a set of rows; keys being unique, there is at most one. */
  ghost function Any(ids: set<nat>): (id: nat)
    requires ids != {}
    ensures id in ids
  {
    var id :| id in ids;
    id
  }

  datatype Costs = Costs(total: int, final: int) {
    function Plus(l: Line): Costs { Costs(total + l.totalCost, final + l.finalCost) }
  }

  ghost function SumCosts(lines: map<nat, Line>, ids: set<nat>): Costs
    requires ids <= lines.Keys
  {
    if ids == {} then Costs(0, 0)
    else
      var id :| id in ids;
      SumCosts(lines, ids - {id}).Plus(lines[id])
  }

  /** Any line can be the one taken out first, so the order in which rows are added up does not matter. */
  lemma {:induction false} SumCostsSplit(lines: map<nat, Line>, ids: set<nat>, id: nat)
    requires id in ids && ids <= lines.Keys
    ensures SumCosts(lines, ids) == SumCosts(lines, ids - {id}).Plus(lines[id])
    decreases ids
  {
    var first :| first in ids && SumCosts(lines, ids) == SumCosts(lines, ids - {first}).Plus(lines[first]);
    if first != id {
      SumCostsSplit(lines, ids - {first}, id);
      SumCostsSplit(lines, ids - {id}, first);
      var rest := ids - {first} - {id};
      assert rest == ids - {id} - {first};
      assert SumCosts(lines, ids) == SumCosts(lines, rest).Plus(lines[id]).Plus(lines[first]);
      assert SumCosts(lines, ids - {id}) == SumCosts(lines, rest).Plus(lines[first]);
    }
  }

  lemma {:induction false} SumCostsFrame(a: map<nat, Line>, b: map<nat, Line>, ids: set<nat>)
    requires ids <= a.Keys && ids <= b.Keys
    requires forall id :: id in ids ==>
      a[id].totalCost == b[id].totalCost && a[id].finalCost == b[id].finalCost
    ensures SumCosts(a, ids) == SumCosts(b, ids)
    decreases ids
  {
    if ids != {} {
      var id :| id in ids;
      SumCostsSplit(a, ids, id);
      SumCostsSplit(b, ids, id);
      SumCostsFrame(a, b, ids - {id});
    }
  }

  /** summaryOrderDetail: price read from the unit, every fee zero. */
  function Priced(l: Line, price: int): Line {
    var total := price * l.quantity;
    l.(price := price, totalCost := total, serviceFee := 0, tax := 0, discount := 0, finalCost := total + 0 + 0 - 0)
  }

  /** The client's data assigned into a line. */
  function Written(l: Line, ask: Ask): Line {
    l.(quantity := ask.quantity, note := Overwrite(l.note, ask.note),
       status := if ask.status.Some? then ask.status.value else l.status,
       shipping := if ask.shipping.Some? then ask.shipping.value else l.shipping)
  }

  /** A line as it is before anything has been written into it. */
  function BlankLine(id: nat, order: nat, key: Key): Line {
    Line(id, order, key, 0, 0, 0, 0, 0, 0, 0, OrderStatus.Pending, NotRequired, false, None)
  }

  function FreshLine(id: nat, order: nat, key: Key, ask: Ask, price: int): Line {
    Priced(Written(BlankLine(id, order, key), ask), price)
  }

  // ---------------------------------------------------------------- effects

  datatype Effect = Effect(after: Tables, outcome: Result<Option<Order>, Failure>)

  ghost function SetOrder(t: Tables, o: Order): Tables {
    t.(orders := t.orders[o.id := o])
  }

  /** refreshOrder: reload the order with its live lines, recompute both totals, save. */
  ghost function Refresh(t: Tables, id: nat): Effect {
    if id !in t.orders then Effect(t, Err(OrderMissing))
    else
      var c := SumCosts(t.lines, LinesOf(t.lines, id));
      var o := t.orders[id].(totalCost := c.total, finalCost := c.final);
      Effect(t.(orders := t.orders[id := o]), Ok(Some(o)))
  }

  /** getOne by id, which passes over soft-deleted lines. */
  ghost function FindLine(t: Tables, id: nat): Option<Line> {
    if id in t.lines && !t.lines[id].deleted then Some(t.lines[id]) else None
  }

  /** createOrderDetail: overwrite the row with the same key, soft-deleted or not, or insert one.
      An overwrite re-reads the price and keeps the row's deleted mark. */
  ghost function PutLine(t: Tables, order: nat, key: Key, ask: Ask): Result<Tables, Failure> {
    if key.unit !in t.units then Err(UnitMissing)
    else if Matches(t.lines, order, key) != {} then
      var id := Any(Matches(t.lines, order, key));
      Ok(t.(lines := t.lines[id := Priced(Written(t.lines[id], ask), t.units[key.unit])]))
    else
      Ok(t.(lines := t.lines[t.nextLine := FreshLine(t.nextLine, order, key, ask, t.units[key.unit])],
            nextLine := t.nextLine + 1))
  }

  predicate IsHit(o: Order, customer: int, code: string) {
    o.status == Cart && if customer != 0 then o.customer == customer else o.code == code
  }

  /** getCart: by customer when there is one, by code otherwise, and only among open carts.
      Codes are not unique in the schema, so any matching row may be the one found. */
  ghost predicate Finds(t: Tables, customer: int, code: string, found: Option<nat>) {
    if customer == 0 && code == "" then found == None
    else match found
      case Some(id) => id in t.orders && IsHit(t.orders[id], customer, code)
      case None => forall id :: id in t.orders ==> !IsHit(t.orders[id], customer, code)
  }

  /** An open cart that a lookup is for: with a customer, one of that customer; without one, one under that very code,
      and none for the empty code. */
  predicate IsMeant(o: Order, customer: int, code: string) {
    && o.status == Cart
    && (customer != 0 ==> o.customer == customer)
    && (customer == 0 ==> code != "" && o.code == code)
  }

  /** The client's part of a new order; its two totals are accepted and then overwritten. */
  datatype NewOrder = NewOrder(
    code: string, customer: int, status: OrderStatus, shipping: ShippingStatus,
    totalCost: int, finalCost: int, note: Property<string>)

  ghost function CreateCart(t: Tables, input: NewOrder, generated: string, found: Option<nat>): Effect
    requires found.Some? ==> found.value in t.orders
  {
    match found
    case Some(id) => Effect(t, Ok(Some(t.orders[id])))
    case None =>
      var code := if input.code == "" then generated else input.code;
      var o :=
        Order(t.nextOrder, code, input.customer, input.status, input.shipping, 0, 0, Overwrite(None, input.note));
      Effect(t.(orders := t.orders[o.id := o], nextOrder := t.nextOrder + 1), Ok(Some(o)))
  }

  ghost function AddToCart(t: Tables, cart: Option<nat>, key: Key, ask: Ask): Effect {
    match cart
    case None => Effect(t, Ok(None))
    case Some(c) =>
      match PutLine(t, c, key, ask)
      case Err(e) => Effect(t, Err(e))
      case Ok(put) => Refresh(put, c)
  }

  ghost function RemoveFromCart(t: Tables, cart: Option<nat>, key: Key): Effect {
    match cart
    case None => Effect(t, Err(CartMissing))
    case Some(c) =>
      var live := Matches(t.lines, c, key) * LinesOf(t.lines, c);
      if live == {} then Effect(t, Err(LineMissing))
      else
        var id := Any(live);
        Refresh(t.(lines := t.lines - {id}), c)
  }

  ghost function ClearCart(t: Tables, cart: Option<nat>): Effect {
    match cart
    case None => Effect(t, Err(CartMissing))
    case Some(c) => Refresh(t.(lines := t.lines - LinesOf(t.lines, c)), c)
  }

  // ---------------------------------------------------------------- status changes

  /** ORDER_TRANSITIONS; a status with no entry allows nothing. */
  function OrderTransitions(s: OrderStatus): seq<OrderStatus> {
    match s
    case Cart => [OrderStatus.Pending]
    case Pending => [OrderStatus.Confirmed, Cancelled]
    case Confirmed => [Processing, Cancelled]
    case Processing => [OrderStatus.Shipped, OnHold, Cancelled]
    case OnHold => [Processing, Cancelled]
    case Shipped => [Completed]
    case Completed => [Refunded]
    case _ => []
  }

  /** SHIPPING_TRANSITIONS. */
  function ShippingTransitions(s: ShippingStatus): seq<ShippingStatus> {
    match s
    case NotRequired => [ShippingStatus.Pending]
    case Pending => [ShippingStatus.Confirmed]
    case Confirmed => [ShippingStatus.Shipped]
    case Shipped => [InTransit, Returned]
    case InTransit => [Delivered, Returned, Lost]
    case Delivered => [Returned]
    case _ => []
  }

  /** A status operation also leaves the caller's shared `options.model` behind. */
  datatype StatusEffect = StatusEffect(after: Tables, model: Option<Order>, outcome: Result<Order, Failure>)

  ghost function FindOrder(t: Tables, id: nat): Option<Order> {
    if id in t.orders then Some(t.orders[id]) else None
  }

  ghost function Log(t: Tables, h: History): Tables {
    t.(history := t.history + [h])
  }

  ghost function ChangeStatus(t: Tables, model: Option<Order>, id: nat, target: OrderStatus, skip: bool): StatusEffect {
    var m := if model.None? then FindOrder(t, id) else model;
    if m.None? then StatusEffect(t, None, Err(NullModel))
    else if !skip && target !in OrderTransitions(m.value.status) then StatusEffect(t, m, Err(TransitionRefused))
    else if m.value.id != id then StatusEffect(t, m, Err(OrderMissing))
    else
      var o := m.value.(status := target);
      var saved := SetOrder(t, o);
      StatusEffect(
        if target == OrderStatus.Shipped then saved else Log(saved, History(id, Some(target), None)),
        Some(o), Ok(o))
  }

  ghost function ChangeShipping(t: Tables, model: Option<Order>, id: nat, target: ShippingStatus): StatusEffect {
    var m := if model.None? then FindOrder(t, id) else model;
    if m.None? then StatusEffect(t, None, Err(NullModel))
    else if target !in ShippingTransitions(m.value.shipping) then StatusEffect(t, m, Err(ShippingTransitionRefused))
    else if m.value.id != id then StatusEffect(t, m, Err(OrderMissing))
    else
      var o := m.value.(shipping := target);
      StatusEffect(Log(SetOrder(t, o), History(id, None, Some(target))), Some(o), Ok(o))
  }

  /** shippedOrder: two writes through one shared model, the first kept when the second is refused. */
  ghost function ShipOrder(t: Tables, model: Option<Order>, id: nat): StatusEffect {
    var first := ChangeStatus(t, model, id, OrderStatus.Shipped, false);
    if first.outcome.Err? then first
    else ChangeShipping(first.after, first.model, id, ShippingStatus.Shipped)
  }

  // ---------------------------------------------------------------- checkout

  ghost predicate NoRepeats(s: seq<nat>) {
    forall i, j :: 0 <= i < j < |s| ==> s[i] != s[j]
  }

  /** `insertion` lists exactly the given lines, each once. */
  ghost predicate Lists(insertion: seq<nat>, ids: set<nat>) {
    NoRepeats(insertion) && (forall id :: id in ids <==> id in insertion)
  }

  lemma ListsInit(s: seq<nat>, x: nat, ids: set<nat>)
    requires Lists(s + [x], ids)
    ensures x in ids && Lists(s, ids - {x})
  {
    var all := s + [x];
    assert all[|s|] == x && forall i :: 0 <= i < |s| ==> s[i] == all[i];
  }

  /** The shipping rows created when the lines' inserts reach the table in the given order. */
  function ShippingRows(next: nat, insertion: seq<nat>, to: CheckoutInput): (rows: seq<Shipping>) {
    seq(|insertion|, i requires 0 <= i < |insertion| => Shipping(next + i, insertion[i], to, NotRequired))
  }

  /** Every listed line has had its shipping row inserted and its own status written. */
  ghost function FanOut(t: Tables, insertion: seq<nat>, to: CheckoutInput): Tables {
    t.(lines := map id | id in t.lines ::
         if id in insertion then t.lines[id].(shipping := NotRequired) else t.lines[id],
       shippings := t.shippings + ShippingRows(|t.shippings|, insertion, to))
  }

  /** The order row that checkout writes. */
  function PlacedOrder(o: Order, generated: string, to: CheckoutInput): Order {
    o.(code := generated, status := OrderStatus.Pending, note := Overwrite(o.note, to.note))
  }

  ghost function Checkout(
      t: Tables, cart: Option<nat>, generated: string, to: CheckoutInput, insertion: seq<nat>): Effect
    requires cart.Some? ==> cart.value in t.orders
  {
    match cart
    case None => Effect(t, Err(CartMissing))
    case Some(c) =>
      var placed := PlacedOrder(t.orders[c], generated, to);
      var saved := SetOrder(FanOut(t, insertion, to), placed);
      Refresh(ChangeStatus(saved, None, c, OrderStatus.Pending, true).after, c)
  }

  // ---------------------------------------------------------------- what every operation keeps

  ghost predicate OrdersIdentified(orders: map<nat, Order>, next: nat) {
    forall o :: o in orders ==> orders[o].id == o < next
  }

  ghost predicate LinesIdentified(lines: map<nat, Line>, next: nat, owners: set<nat>) {
    forall l :: l in lines ==> lines[l].id == l < next && lines[l].order in owners
  }

  ghost predicate ShippingsIdentified(shippings: seq<Shipping>) {
    forall s :: 0 <= s < |shippings| ==> shippings[s].id == s
  }

  /** Cart operations delete rows for good, so a soft-deleted line never arises. */
  ghost predicate NoneSoftDeleted(lines: map<nat, Line>) {
    forall l :: l in lines ==> !lines[l].deleted
  }

  predicate SameKey(a: Line, b: Line) {
    a.order == b.order && a.key == b.key
  }

  ghost predicate UniqueKeys(lines: map<nat, Line>) {
    forall a, b :: a in lines && b in lines && SameKey(lines[a], lines[b]) ==> a == b
  }

  predicate LineAddsUp(l: Line) {
    l.totalCost == l.price * l.quantity == l.finalCost && l.serviceFee == l.tax == l.discount == 0
  }

  ghost predicate LinesAddUp(lines: map<nat, Line>) {
    forall l :: l in lines ==> LineAddsUp(lines[l])
  }

  ghost predicate OrderAddsUp(o: Order, lines: map<nat, Line>) {
    Costs(o.totalCost, o.finalCost) == SumCosts(lines, LinesOf(lines, o.id))
  }

  ghost predicate OrdersAddUp(orders: map<nat, Order>, lines: map<nat, Line>) {
    forall o :: o in orders ==> OrderAddsUp(orders[o], lines)
  }

  predicate SameCustomersCarts(a: Order, b: Order) {
    a.status == b.status == Cart && a.customer == b.customer != 0
  }

  ghost predicate OneOpenCart(orders: map<nat, Order>) {
    forall a, b :: a in orders && b in orders && SameCustomersCarts(orders[a], orders[b]) ==> a == b
  }

  /** Only placed orders have shipping rows, so removing a cart line never strands one. */
  ghost predicate ShippingsPlaced(shippings: seq<Shipping>, lines: map<nat, Line>, orders: map<nat, Order>) {
    forall s :: 0 <= s < |shippings| ==>
      var l := shippings[s].line;
      l in lines && lines[l].order in orders && orders[lines[l].order].status != Cart
  }

  /** Orders and lines are stored under their ids, and every line has its order. */
  ghost predicate Identified(t: Tables) {
    OrdersIdentified(t.orders, t.nextOrder) && LinesIdentified(t.lines, t.nextLine, t.orders.Keys)
  }

  /** Everything but the orders' totals. */
  ghost predicate Sound(t: Tables) {
    && Identified(t)
    && ShippingsIdentified(t.shippings)
    && NoneSoftDeleted(t.lines)
    && UniqueKeys(t.lines)
    && LinesAddUp(t.lines)
    && OneOpenCart(t.orders)
    && ShippingsPlaced(t.shippings, t.lines, t.orders)
  }

  ghost predicate Inv(t: Tables) {
    Sound(t) && OrdersAddUp(t.orders, t.lines)
  }
}
