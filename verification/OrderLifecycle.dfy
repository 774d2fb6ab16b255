/** What a run can and cannot do to one order: open carts, frozen orders, the status walk and its log. */
module OrderLifecycle {
  import opened Wrappers
  import opened Tables
  import opened ShopSpec
  import opened ShopRuns

  // ---------------------------------------------------------------- open carts

  /** As long as a customer's cart is open, whatever ran since it was created, creating one for that customer finds it
      and changes nothing. */
  lemma CreateAgainFindsIt(u: Tables, id: nat, again: NewOrder, generated: string, found: Option<nat>)
    requires Inv(u) && id in u.orders && u.orders[id].status == Cart
    requires again.customer != 0 && u.orders[id].customer == again.customer
    requires Finds(u, again.customer, again.code, found)
    ensures found == Some(id)
    ensures CreateCart(u, again, generated, found) == Effect(u, Ok(Some(u.orders[id])))
  {
    assert IsHit(u.orders[id], again.customer, again.code);
    if found.Some? { assert SameCustomersCarts(u.orders[id], u.orders[found.value]); }
  }

  /** A create that finds no cart adds exactly one order, under the next id: the client's code, or the generated one
      where it gave none, the client's customer, statuses and note, and totals of zero whatever the client sent. */
  lemma CreateAddsOne(t: Tables, input: NewOrder, generated: string)
    ensures var u := CreateCart(t, input, generated, None).after;
      var o := Order(
        t.nextOrder, if |input.code| > 0 then input.code else generated, input.customer, input.status, input.shipping,
        0, 0, if input.note.Given? then Some(input.note.value) else None);
      u == t.(orders := t.orders[t.nextOrder := o], nextOrder := t.nextOrder + 1)
      && CreateCart(t, input, generated, None).outcome == Ok(Some(o))
  {}

  /** Creating a cart twice in a row adds one row only if the client asked for status CART and gave a customer
      or a code to find it by. The input's default status is PENDING, and then every call adds an order. */
  lemma RepeatedCreate(t: Tables, input: NewOrder, generated: string, second: string, found: Option<nat>)
    requires Inv(t) && Finds(t, input.customer, input.code, None)
    requires Finds(CreateCart(t, input, generated, None).after, input.customer, input.code, found)
    ensures var u := CreateCart(t, input, generated, None).after;
      && (found.Some? ==> found.value in u.orders)
      && (CreateCart(u, input, second, found).after == u
          <==> input.status == Cart && (input.customer != 0 || input.code != ""))
  {
    var u := CreateCart(t, input, generated, None).after;
    var o := u.orders[t.nextOrder];
    if input.customer != 0 || input.code != "" {
      assert IsHit(o, input.customer, input.code) <==> input.status == Cart;
      assert forall x :: x in t.orders ==> !IsHit(t.orders[x], input.customer, input.code);
    }
    if found.None? { assert CreateCart(u, input, second, found).after.nextOrder == u.nextOrder + 1; }
  }

  // ---------------------------------------------------------------- checkout ends the cart

  /** The tables after checkout of c: fan-out, the order row placed with the totals it had, one log entry. */
  lemma CheckoutTables(t: Tables, c: nat, generated: string, to: CheckoutInput, insertion: seq<nat>)
    requires Inv(t) && c in t.orders && Lists(insertion, LinesOf(t.lines, c))
    ensures var o := PlacedOrder(t.orders[c], generated, to);
      Checkout(t, Some(c), generated, to, insertion) ==
      Effect(Log(SetOrder(FanOut(t, insertion, to), o), History(c, Some(OrderStatus.Pending), None)), Ok(Some(o)))
  {
    var u := Placed(t, c, generated, to, insertion);
    PlacedAlready(t, c, generated, to, insertion);
    var v := Log(u, History(c, Some(OrderStatus.Pending), None));
    assert OrderAddsUp(t.orders[c], t.lines);
    assert LinesOf(v.lines, c) == LinesOf(t.lines, c);
    SumCostsFrame(v.lines, t.lines, LinesOf(t.lines, c));
    assert v.orders[c := v.orders[c]] == v.orders;
  }

  /** No lookup finds an order that has just stopped being a cart, and its customer has no other. */
  lemma PlacedIsNoCart(t: Tables, u: Tables, c: nat, customer: int, code: string, found: Option<nat>)
    requires Inv(t) && c in t.orders && t.orders[c].status == Cart
    requires c in u.orders && u.orders == t.orders[c := u.orders[c]] && u.orders[c].status != Cart
    requires Finds(u, customer, code, found)
    ensures found != Some(c) && (customer != 0 && customer == t.orders[c].customer ==> found == None)
  {
    assert forall o :: o in t.orders && o != c ==> !SameCustomersCarts(t.orders[c], t.orders[o]);
  }

  /** Checkout of an open cart turns that very order into a PENDING one under a new code and with the client's note,
      with the totals it had, one log entry more and every line NOT_REQUIRED; afterwards neither its customer nor
      anybody else finds it as a cart. */
  lemma CheckoutEndsTheCart(t: Tables, c: nat, generated: string, to: CheckoutInput, insertion: seq<nat>,
                            customer: int, code: string, found: Option<nat>)
    requires Inv(t) && c in t.orders && t.orders[c].status == Cart && Lists(insertion, LinesOf(t.lines, c))
    requires Finds(Checkout(t, Some(c), generated, to, insertion).after, customer, code, found)
    ensures var u := Checkout(t, Some(c), generated, to, insertion).after;
      var note := if to.note.Given? then Some(to.note.value) else if to.note.Null? then None else t.orders[c].note;
      var o := t.orders[c].(code := generated, status := OrderStatus.Pending, note := note);
      && u == t.(orders := t.orders[c := o], lines := u.lines, shippings := u.shippings,
                 history := t.history + [History(c, Some(OrderStatus.Pending), None)])
      && Checkout(t, Some(c), generated, to, insertion).outcome == Ok(Some(o))
      && (forall l :: l in LinesOf(t.lines, c) ==> l in u.lines && u.lines[l] == t.lines[l].(shipping := NotRequired))
      && found != Some(c)
      && (customer != 0 && customer == t.orders[c].customer ==> found == None)
  {
    CheckoutTables(t, c, generated, to, insertion);
    PlacedIsNoCart(t, Checkout(t, Some(c), generated, to, insertion).after, c, customer, code, found);
  }

  // ---------------------------------------------------------------- frozen after checkout

  /** The parts of an order that only an open cart may change: its rows and its totals. */
  ghost predicate SameContents(t: Tables, u: Tables, o: nat) {
    && o in t.orders && o in u.orders
    && u.orders[o].totalCost == t.orders[o].totalCost && u.orders[o].finalCost == t.orders[o].finalCost
    && u.orders[o].customer == t.orders[o].customer && u.orders[o].code == t.orders[o].code
    && u.orders[o].note == t.orders[o].note
    && (forall l :: l in t.lines && t.lines[l].order == o ==> l in u.lines && u.lines[l] == t.lines[l])
    && (forall l :: l in u.lines && u.lines[l].order == o ==> l in t.lines && t.lines[l].order == o)
  }

  lemma RefreshSparesOthers(t: Tables, c: nat, o: nat)
    requires c in t.orders && o in t.orders && o != c
    ensures SameContents(t, Refresh(t, c).after, o) && Refresh(t, c).after.orders[o] == t.orders[o]
  {}

  lemma SameContentsTrans(t: Tables, u: Tables, v: Tables, o: nat)
    requires SameContents(t, u, o) && SameContents(u, v, o)
    ensures SameContents(t, v, o)
  {}

  lemma PlaceSparesOthers(t: Tables, c: nat, generated: string, to: CheckoutInput, insertion: seq<nat>, o: nat)
    requires Sound(t) && c in t.orders && o in t.orders && o != c && Lists(insertion, LinesOf(t.lines, c))
    ensures SameContents(t, Checkout(t, Some(c), generated, to, insertion).after, o)
    ensures Checkout(t, Some(c), generated, to, insertion).after.orders[o] == t.orders[o]
  {
    var u := Placed(t, c, generated, to, insertion);
    assert forall l :: l in t.lines && t.lines[l].order == o ==> l !in LinesOf(t.lines, c);
    assert SameContents(t, u, o);
    var v := ChangeStatus(u, None, c, OrderStatus.Pending, true).after;
    assert SameContents(u, v, o);
    RefreshSparesOthers(v, c, o);
  }

  lemma AddSparesOthers(t: Tables, c: nat, key: Key, ask: Ask, o: nat)
    requires Sound(t) && c in t.orders && o in t.orders && o != c
    ensures SameContents(t, AddToCart(t, Some(c), key, ask).after, o)
    ensures AddToCart(t, Some(c), key, ask).after.orders[o] == t.orders[o]
  {
    if key.unit in t.units {
      var u := PutLine(t, c, key, ask).value;
      var id, row := PutLineShape(t, c, key, ask);
      assert SameContents(t, u, o);
      RefreshSparesOthers(u, c, o);
    }
  }

  lemma DropSparesOthers(t: Tables, c: nat, gone: set<nat>, o: nat)
    requires c in t.orders && o in t.orders && o != c && gone <= LinesOf(t.lines, c)
    ensures SameContents(t, Refresh(t.(lines := t.lines - gone), c).after, o)
    ensures Refresh(t.(lines := t.lines - gone), c).after.orders[o] == t.orders[o]
  {
    var u := t.(lines := t.lines - gone);
    assert SameContents(t, u, o);
    RefreshSparesOthers(u, c, o);
  }

  /** The order that a cart operation resolved to. */
  function Target(a: Action): Option<nat> {
    match a
    case Add(_, cart, _, _) => cart
    case Remove(_, cart, _) => cart
    case Clear(_, cart) => cart
    case Place(_, cart, _, _, _) => cart
    case _ => None
  }

  /** A cart operation leaves every order but the one it resolved to exactly as it was. */
  lemma CartOpsSpareOthers(t: Tables, a: Action, o: nat)
    requires Inv(t) && Enabled(t, a) && o in t.orders && Target(a) != Some(o)
    requires !a.SetStatus? && !a.Ship? && !a.SetShipping?
    ensures SameContents(t, Apply(t, a), o) && Apply(t, a).orders[o] == t.orders[o]
  {
    match a {
      case Add(_, cart, key, ask) =>
        if cart.Some? { AddSparesOthers(t, cart.value, key, ask, o); }
      case Remove(_, cart, key) =>
        if cart.Some? {
          var live := Matches(t.lines, cart.value, key) * LinesOf(t.lines, cart.value);
          if live != {} { DropSparesOthers(t, cart.value, {Any(live)}, o); }
        }
      case Clear(_, cart) =>
        if cart.Some? { DropSparesOthers(t, cart.value, LinesOf(t.lines, cart.value), o); }
      case Place(_, cart, generated, to, insertion) =>
        if cart.Some? { PlaceSparesOthers(t, cart.value, generated, to, insertion, o); }
      case _ =>
    }
  }

  /** Adding, removing, clearing and checking out reach the cart that was named and no other order: the one they
      resolve to is open and has the given code, every order that is not that one stays exactly as it is, and if no
      open cart has the code, nothing changes at all. */
  lemma ReachesTheNamedCart(t: Tables, a: Action)
    requires Inv(t) && Enabled(t, a) && (a.Add? || a.Remove? || a.Clear? || a.Place?)
    ensures a.cart.Some? ==>
      var c := a.cart.value;
      c in t.orders && t.orders[c].status == Cart && t.orders[c].code == a.code && a.code != ""
    ensures a.cart.None? ==> Apply(t, a) == t
    ensures a.cart.None? <==>
      a.code == "" || forall o :: o in t.orders && t.orders[o].status == Cart ==> t.orders[o].code != a.code
    ensures forall o :: o in t.orders && a.cart != Some(o) ==>
      SameContents(t, Apply(t, a), o) && Apply(t, a).orders[o] == t.orders[o]
    ensures forall o :: o in t.orders && (t.orders[o].status != Cart || t.orders[o].code != a.code) ==>
      SameContents(t, Apply(t, a), o) && Apply(t, a).orders[o] == t.orders[o]
  {
    FindsMeans(t, 0, a.code, a.cart);
    forall o | o in t.orders && a.cart != Some(o)
      ensures SameContents(t, Apply(t, a), o) && Apply(t, a).orders[o] == t.orders[o]
    {
      CartOpsSpareOthers(t, a, o);
    }
  }

  /** Only the two statuses of order o may have changed, and it is no cart. */
  ghost predicate OnlyStatuses(t: Tables, u: Tables, o: nat) {
    && u.lines == t.lines && o in t.orders && o in u.orders && u.orders[o].status != Cart
    && u.orders[o] == t.orders[o].(status := u.orders[o].status, shipping := u.orders[o].shipping)
  }

  lemma StatusFreezes(t: Tables, x: nat, target: OrderStatus, o: nat)
    requires OrdersIdentified(t.orders, t.nextOrder) && o in t.orders && t.orders[o].status != Cart
    ensures OnlyStatuses(t, ChangeStatus(t, None, x, target, false).after, o)
  {}

  lemma ShippingFreezes(t: Tables, model: Option<Order>, x: nat, state: ShippingStatus, o: nat)
    requires OrdersIdentified(t.orders, t.nextOrder) && o in t.orders && t.orders[o].status != Cart
    requires model.Some? ==> x in t.orders && model.value == t.orders[x]
    ensures OnlyStatuses(t, ChangeShipping(t, model, x, state).after, o)
  {}

  lemma StatusOpsFreeze(t: Tables, a: Action, o: nat)
    requires OrdersIdentified(t.orders, t.nextOrder) && Enabled(t, a) && o in t.orders && t.orders[o].status != Cart
    requires a.SetStatus? || a.Ship? || a.SetShipping?
    ensures OnlyStatuses(t, Apply(t, a), o)
  {
    match a {
      case SetStatus(x, target) => StatusFreezes(t, x, target, o);
      case SetShipping(x, state) => ShippingFreezes(t, None, x, state, o);
      case Ship(x) =>
        var first := ChangeStatus(t, None, x, OrderStatus.Shipped, false);
        StatusFreezes(t, x, OrderStatus.Shipped, o);
        if first.outcome.Ok? {
          assert x in first.after.orders && first.model == Some(first.after.orders[x]);
          ShippingFreezes(first.after, first.model, x, ShippingStatus.Shipped, o);
        }
    }
  }

  lemma StepFreezes(t: Tables, a: Action, o: nat)
    requires Inv(t) && Enabled(t, a) && o in t.orders && t.orders[o].status != Cart
    ensures SameContents(t, Apply(t, a), o) && Apply(t, a).orders[o].status != Cart
  {
    if a.SetStatus? || a.Ship? || a.SetShipping? { StatusOpsFreeze(t, a, o); } else { CartOpsSpareOthers(t, a, o); }
  }

  /** Over every run, an order that is no longer a cart keeps its lines, totals, customer and code,
      and never becomes a cart again. */
  lemma {:induction false} RunFreezes(t: Tables, run: seq<Action>, o: nat)
    requires Inv(t) && CanRun(t, run) && o in t.orders && t.orders[o].status != Cart
    ensures SameContents(t, Run(t, run), o) && Run(t, run).orders[o].status != Cart
    decreases |run|
  {
    if run != [] {
      var u := Apply(t, run[0]);
      StepFreezes(t, run[0], o);
      ApplyKeepsInv(t, run[0]);
      RunFreezes(u, run[1..], o);
      SameContentsTrans(t, u, Run(t, run), o);
    }
  }
}
