/** Sequential runs of cart and order operations, and the invariant that all of them keep. */
module ShopRuns {
  import opened Wrappers
  import opened Tables
  import opened ShopSpec

  /** One operation with its environment's choices resolved: the row a lookup by code found,
      the code generator's answer, the order in which checkout's inserts reached the table.
      Reprice is what product management does to the prices between two cart operations. */
  datatype Action =
    | Reprice(prices: map<int, int>)
    | Create(input: NewOrder, generated: string, found: Option<nat>)
    | Add(code: string, cart: Option<nat>, key: Key, ask: Ask)
    | Remove(code: string, cart: Option<nat>, key: Key)
    | Clear(code: string, cart: Option<nat>)
    | Place(code: string, cart: Option<nat>, generated: string, to: CheckoutInput, insertion: seq<nat>)
    | SetStatus(order: nat, target: OrderStatus)
    | Ship(order: nat)
    | SetShipping(order: nat, state: ShippingStatus)

  /** The choices recorded in an action are ones the tables allow. The named shipping operations
      other than shippedOrder move to three states only. */
  ghost predicate Enabled(t: Tables, a: Action) {
    match a
    case Reprice(_) => true
    case Create(input, _, found) => Finds(t, input.customer, input.code, found)
    case Add(code, cart, _, _) => Finds(t, 0, code, cart)
    case Remove(code, cart, _) => Finds(t, 0, code, cart)
    case Clear(code, cart) => Finds(t, 0, code, cart)
    case Place(code, cart, _, _, insertion) =>
      Finds(t, 0, code, cart) && (cart.Some? ==> Lists(insertion, LinesOf(t.lines, cart.value)))
    case SetStatus(_, _) => true
    case Ship(_) => true
    case SetShipping(_, state) => state in {InTransit, Delivered, Returned}
  }

  ghost function Apply(t: Tables, a: Action): Tables
    requires Enabled(t, a)
  {
    match a
    case Reprice(prices) => t.(units := prices)
    case Create(input, generated, found) => CreateCart(t, input, generated, found).after
    case Add(_, cart, key, ask) => AddToCart(t, cart, key, ask).after
    case Remove(_, cart, key) => RemoveFromCart(t, cart, key).after
    case Clear(_, cart) => ClearCart(t, cart).after
    case Place(_, cart, generated, to, insertion) => Checkout(t, cart, generated, to, insertion).after
    case SetStatus(order, target) => ChangeStatus(t, None, order, target, false).after
    case Ship(order) => ShipOrder(t, None, order).after
    case SetShipping(order, state) => ChangeShipping(t, None, order, state).after
  }

  ghost predicate CanRun(t: Tables, run: seq<Action>)
    decreases |run|
  {
    run == [] || (Enabled(t, run[0]) && CanRun(Apply(t, run[0]), run[1..]))
  }

  ghost function Run(t: Tables, run: seq<Action>): Tables
    requires CanRun(t, run)
    decreases |run|
  {
    if run == [] then t else Run(Apply(t, run[0]), run[1..])
  }

  /** The first actions of a run are a run, and the others run on from where it ends. */
  lemma {:induction false} RunSplits(t: Tables, run: seq<Action>, i: nat)
    requires CanRun(t, run) && i <= |run|
    ensures CanRun(t, run[..i]) && CanRun(Run(t, run[..i]), run[i..])
    ensures Run(t, run) == Run(Run(t, run[..i]), run[i..])
    decreases |run|
  {
    if i == 0 {
      assert run[..0] == [] && run[0..] == run;
    } else {
      RunSplits(Apply(t, run[0]), run[1..], i - 1);
      assert run[..i][1..] == run[1..][..i - 1] && run[1..][i - 1..] == run[i..];
    }
  }

  /** A lookup finds such a cart, and comes back empty only if there is none. */
  lemma FindsMeans(t: Tables, customer: int, code: string, found: Option<nat>)
    ensures found.Some? ==>
      (Finds(t, customer, code, found) <==>
        found.value in t.orders && IsMeant(t.orders[found.value], customer, code))
    ensures found.None? ==>
      (Finds(t, customer, code, found) <==> forall id :: id in t.orders ==> !IsMeant(t.orders[id], customer, code))
  {}

  // ---------------------------------------------------------------- the invariant, operation by operation

  ghost predicate OthersAddUp(orders: map<nat, Order>, lines: map<nat, Line>, c: nat) {
    forall o :: o in orders && o != c ==> OrderAddsUp(orders[o], lines)
  }

  /** The invariant while order `c` waits for its totals to be recomputed. */
  ghost predicate InvBut(t: Tables, c: nat) {
    Sound(t) && OthersAddUp(t.orders, t.lines, c)
  }

  lemma RefreshRestores(t: Tables, c: nat)
    requires InvBut(t, c) && c in t.orders
    ensures Inv(Refresh(t, c).after)
  {
    var u := Refresh(t, c).after;
    assert u.orders[c].id == c;
    assert OrdersIdentified(u.orders, u.nextOrder);
    assert OneOpenCart(u.orders);
    assert ShippingsPlaced(u.shippings, u.lines, u.orders);
    assert u.orders.Keys == t.orders.Keys;
  }

  /** Changing the lines of one order leaves the other orders' sums alone. */
  lemma LinesChangeKeepsOthers(orders: map<nat, Order>, a: map<nat, Line>, b: map<nat, Line>, c: nat)
    requires OrdersAddUp(orders, a)
    requires forall o :: o in orders ==> orders[o].id == o
    requires forall o :: o in orders && o != c ==> LinesOf(a, o) == LinesOf(b, o)
    requires forall l :: l in a && l in b && a[l].order != c ==> b[l] == a[l]
    ensures OthersAddUp(orders, b, c)
  {
    forall o | o in orders && o != c
      ensures OrderAddsUp(orders[o], b)
    {
      assert OrderAddsUp(orders[o], a);
      SumCostsFrame(a, b, LinesOf(a, o));
    }
  }

  ghost predicate NoLine(lines: map<nat, Line>, c: nat, key: Key) {
    forall l :: l in lines ==> !(lines[l].order == c && lines[l].key == key)
  }

  /** What an add writes: one row of order c under the key, either the row already there or a fresh one. */
  ghost predicate IsPut(t: Tables, u: Tables, c: nat, key: Key, id: nat, row: Line) {
    && row.order == c && row.key == key && row.id == id && !row.deleted && LineAddsUp(row)
    && u == t.(lines := t.lines[id := row], nextLine := u.nextLine)
    && (if id in t.lines
        then t.lines[id].order == c && t.lines[id].key == key && u.nextLine == t.nextLine
        else id == t.nextLine && u.nextLine == id + 1 && NoLine(t.lines, c, key))
  }

  lemma PutLineShape(t: Tables, c: nat, key: Key, ask: Ask) returns (id: nat, row: Line)
    requires Sound(t) && PutLine(t, c, key, ask).Ok?
    ensures IsPut(t, PutLine(t, c, key, ask).value, c, key, id, row)
    ensures row.quantity == ask.quantity && key.unit in t.units && row.price == t.units[key.unit]
  {
    var ids := Matches(t.lines, c, key);
    id := if ids != {} then Any(ids) else t.nextLine;
    row := PutLine(t, c, key, ask).value.lines[id];
    assert ids == {} ==> forall l :: l in t.lines ==> l !in ids;
  }

  lemma PutKeepsUniqueKeys(t: Tables, u: Tables, c: nat, key: Key, id: nat, row: Line)
    requires IsPut(t, u, c, key, id, row) && UniqueKeys(t.lines)
    ensures UniqueKeys(u.lines)
  {}

  lemma PutKeepsPlaced(t: Tables, u: Tables, c: nat, key: Key, id: nat, row: Line)
    requires IsPut(t, u, c, key, id, row) && ShippingsPlaced(t.shippings, t.lines, t.orders)
    ensures ShippingsPlaced(u.shippings, u.lines, u.orders)
  {}

  lemma PutKeepsSound(t: Tables, u: Tables, c: nat, key: Key, id: nat, row: Line)
    requires IsPut(t, u, c, key, id, row) && Sound(t) && c in t.orders
    ensures Sound(u)
  {
    PutKeepsUniqueKeys(t, u, c, key, id, row);
    PutKeepsPlaced(t, u, c, key, id, row);
  }

  lemma PutKeeps(t: Tables, u: Tables, c: nat, key: Key, id: nat, row: Line)
    requires IsPut(t, u, c, key, id, row) && Inv(t) && c in t.orders
    ensures InvBut(u, c)
  {
    PutKeepsSound(t, u, c, key, id, row);
    LinesChangeKeepsOthers(t.orders, t.lines, u.lines, c);
  }

  lemma DropKeepsSound(t: Tables, u: Tables, c: nat, gone: set<nat>)
    requires u == t.(lines := t.lines - gone) && gone <= LinesOf(t.lines, c)
    requires Sound(t) && c in t.orders && t.orders[c].status == Cart
    ensures Sound(u)
  {}

  lemma DropKeeps(t: Tables, u: Tables, c: nat, gone: set<nat>)
    requires u == t.(lines := t.lines - gone) && gone <= LinesOf(t.lines, c)
    requires Inv(t) && c in t.orders && t.orders[c].status == Cart
    ensures InvBut(u, c)
  {
    DropKeepsSound(t, u, c, gone);
    LinesChangeKeepsOthers(t.orders, t.lines, u.lines, c);
  }

  /** A change to one order row that respects carts and totals keeps the invariant. */
  lemma SetOrderKeeps(t: Tables, u: Tables, o: Order)
    requires Inv(t) && o.id in t.orders
    requires u == t.(orders := t.orders[o.id := o], history := u.history)
    requires o.totalCost == t.orders[o.id].totalCost && o.finalCost == t.orders[o.id].finalCost
    requires o.customer == t.orders[o.id].customer
    requires o.status == Cart ==> t.orders[o.id].status == Cart
    ensures Inv(u)
  {
    assert OrderAddsUp(t.orders[o.id], t.lines);
    assert u.orders.Keys == t.orders.Keys;
  }

  lemma CreateKeeps(t: Tables, input: NewOrder, generated: string, found: Option<nat>)
    requires Inv(t) && Finds(t, input.customer, input.code, found)
    ensures Inv(CreateCart(t, input, generated, found).after)
  {
    if found.None? {
      var u := CreateCart(t, input, generated, found).after;
      var o := u.orders[t.nextOrder];
      assert LinesOf(t.lines, o.id) == {};
      forall x | x in t.orders
        ensures !SameCustomersCarts(t.orders[x], o)
      {
        if input.customer != 0 { assert !IsHit(t.orders[x], input.customer, input.code); }
      }
      assert OneOpenCart(u.orders);
    }
  }

  lemma StatusKeeps(t: Tables, id: nat, target: OrderStatus)
    requires Inv(t)
    ensures Inv(ChangeStatus(t, None, id, target, false).after)
  {
    var e := ChangeStatus(t, None, id, target, false);
    if e.outcome.Ok? { SetOrderKeeps(t, e.after, e.outcome.value); }
  }

  lemma ShippingKeeps(t: Tables, model: Option<Order>, id: nat, state: ShippingStatus)
    requires Inv(t) && (model.Some? ==> id in t.orders && model.value == t.orders[id])
    ensures Inv(ChangeShipping(t, model, id, state).after)
  {
    var e := ChangeShipping(t, model, id, state);
    if e.outcome.Ok? { SetOrderKeeps(t, e.after, e.outcome.value); }
  }

  /** The tables just after checkout has written the order row: fan-out done, order placed. */
  ghost function Placed(t: Tables, c: nat, generated: string, to: CheckoutInput, insertion: seq<nat>): Tables
    requires c in t.orders
  {
    SetOrder(FanOut(t, insertion, to), PlacedOrder(t.orders[c], generated, to))
  }

  lemma PlacedKeepsSound(t: Tables, c: nat, generated: string, to: CheckoutInput, insertion: seq<nat>)
    requires Sound(t) && c in t.orders && Lists(insertion, LinesOf(t.lines, c))
    ensures Sound(Placed(t, c, generated, to, insertion))
  {
    var u := Placed(t, c, generated, to, insertion);
    forall s | 0 <= s < |u.shippings|
      ensures u.shippings[s].id == s
      ensures var l := u.shippings[s].line;
        l in u.lines && u.lines[l].order in u.orders && u.orders[u.lines[l].order].status != Cart
    {
      if s >= |t.shippings| {
        assert insertion[s - |t.shippings|] in LinesOf(t.lines, c);
      }
    }
    assert u.orders.Keys == t.orders.Keys;
  }

  lemma PlacedKeeps(t: Tables, c: nat, generated: string, to: CheckoutInput, insertion: seq<nat>)
    requires Inv(t) && c in t.orders && Lists(insertion, LinesOf(t.lines, c))
    ensures InvBut(Placed(t, c, generated, to, insertion), c)
  {
    var u := Placed(t, c, generated, to, insertion);
    PlacedKeepsSound(t, c, generated, to, insertion);
    assert forall o :: o in t.orders ==> LinesOf(t.lines, o) == LinesOf(u.lines, o);
    assert forall l :: l in t.lines && t.lines[l].order != c ==> l !in LinesOf(t.lines, c);
    LinesChangeKeepsOthers(t.orders, t.lines, u.lines, c);
  }

  /** Checkout's own change of status finds the order already PENDING: it only adds a log entry. */
  lemma PlacedAlready(t: Tables, c: nat, generated: string, to: CheckoutInput, insertion: seq<nat>)
    requires c in t.orders && t.orders[c].id == c
    ensures var u := Placed(t, c, generated, to, insertion);
      ChangeStatus(u, None, c, OrderStatus.Pending, true).after == Log(u, History(c, Some(OrderStatus.Pending), None))
  {}

  lemma LogKeeps(t: Tables, c: nat, h: History)
    requires InvBut(t, c)
    ensures InvBut(Log(t, h), c)
  {}

  lemma CheckoutKeeps(t: Tables, cart: Option<nat>, generated: string, to: CheckoutInput, insertion: seq<nat>)
    requires Inv(t) && (cart.Some? ==> cart.value in t.orders && Lists(insertion, LinesOf(t.lines, cart.value)))
    ensures Inv(Checkout(t, cart, generated, to, insertion).after)
  {
    if cart.Some? {
      var c := cart.value;
      var u := Placed(t, c, generated, to, insertion);
      PlacedKeeps(t, c, generated, to, insertion);
      var v := ChangeStatus(u, None, c, OrderStatus.Pending, true).after;
      PlacedAlready(t, c, generated, to, insertion);
      LogKeeps(u, c, History(c, Some(OrderStatus.Pending), None));
      RefreshRestores(v, c);
    }
  }

  lemma AddKeeps(t: Tables, cart: Option<nat>, key: Key, ask: Ask)
    requires Inv(t) && (cart.Some? ==> cart.value in t.orders)
    ensures Inv(AddToCart(t, cart, key, ask).after)
  {
    if cart.Some? && key.unit in t.units {
      var u := PutLine(t, cart.value, key, ask).value;
      var id, row := PutLineShape(t, cart.value, key, ask);
      PutKeeps(t, u, cart.value, key, id, row);
      RefreshRestores(u, cart.value);
    }
  }

  lemma DropThenRefreshKeeps(t: Tables, c: nat, gone: set<nat>)
    requires Inv(t) && c in t.orders && t.orders[c].status == Cart && gone <= LinesOf(t.lines, c)
    ensures Inv(Refresh(t.(lines := t.lines - gone), c).after)
  {
    var u := t.(lines := t.lines - gone);
    DropKeeps(t, u, c, gone);
    RefreshRestores(u, c);
  }

  lemma RemoveKeeps(t: Tables, cart: Option<nat>, key: Key)
    requires Inv(t) && (cart.Some? ==> cart.value in t.orders && t.orders[cart.value].status == Cart)
    ensures Inv(RemoveFromCart(t, cart, key).after)
  {
    if cart.Some? {
      var live := Matches(t.lines, cart.value, key) * LinesOf(t.lines, cart.value);
      if live != {} { DropThenRefreshKeeps(t, cart.value, {Any(live)}); }
    }
  }

  /** Unique line keys, at most one open cart per customer, no soft-deleted line, and totals that add up:
      every operation keeps them, whatever row a lookup finds and in whatever order inserts land. */
  lemma ApplyKeepsInv(t: Tables, a: Action)
    requires Inv(t) && Enabled(t, a)
    ensures Inv(Apply(t, a))
  {
    match a {
      case Reprice(_) =>
      case Create(input, generated, found) => CreateKeeps(t, input, generated, found);
      case Add(_, cart, key, ask) => AddKeeps(t, cart, key, ask);
      case Remove(_, cart, key) => RemoveKeeps(t, cart, key);
      case Clear(_, cart) => if cart.Some? { DropThenRefreshKeeps(t, cart.value, LinesOf(t.lines, cart.value)); }
      case Place(_, cart, generated, to, insertion) => CheckoutKeeps(t, cart, generated, to, insertion);
      case SetStatus(order, target) => StatusKeeps(t, order, target);
      case Ship(order) =>
        var first := ChangeStatus(t, None, order, OrderStatus.Shipped, false);
        StatusKeeps(t, order, OrderStatus.Shipped);
        if first.outcome.Ok? { ShippingKeeps(first.after, first.model, order, ShippingStatus.Shipped); }
      case SetShipping(order, state) => ShippingKeeps(t, None, order, state);
    }
  }

  lemma {:induction false} RunKeepsInv(t: Tables, run: seq<Action>)
    requires Inv(t) && CanRun(t, run)
    ensures Inv(Run(t, run))
    decreases |run|
  {
    if run != [] {
      ApplyKeepsInv(t, run[0]);
      RunKeepsInv(Apply(t, run[0]), run[1..]);
    }
  }

  /** Where every run can start: no rows, whatever the prices. */
  lemma EmptyIsGood(prices: map<int, int>)
    ensures Inv(Tables(map[], map[], [], [], prices, 0, 0))
  {}

  /** So the invariant holds after every run from an empty database. */
  lemma EveryRunIsGood(prices: map<int, int>, run: seq<Action>)
    requires CanRun(Tables(map[], map[], [], [], prices, 0, 0), run)
    ensures Inv(Run(Tables(map[], map[], [], [], prices, 0, 0), run))
  {
    EmptyIsGood(prices);
    RunKeepsInv(Tables(map[], map[], [], [], prices, 0, 0), run);
  }
}
