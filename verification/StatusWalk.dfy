/** One order's walk through its two status tables over a whole run, and the history log beside it. */
module StatusWalk {
  import opened Wrappers
  import opened Tables
  import opened ShopSpec
  import opened ShopRuns

  datatype Mark = Mark(status: OrderStatus, shipping: ShippingStatus)

  ghost function MarkOf(t: Tables, o: nat): Mark
    requires o in t.orders
  {
    Mark(t.orders[o].status, t.orders[o].shipping)
  }

  /** What an action does to one order's pair. */
  function Step(m: Mark, o: nat, a: Action): Mark {
    match a
    case Place(_, cart, _, _, _) => if cart == Some(o) && m.status == Cart then m.(status := OrderStatus.Pending) else m
    case SetStatus(x, target) => if x == o && target in OrderTransitions(m.status) then m.(status := target) else m
    case Ship(x) =>
      if x != o || m.status != Processing then m
      else if m.shipping != ShippingStatus.Confirmed then m.(status := OrderStatus.Shipped)
      else Mark(OrderStatus.Shipped, ShippingStatus.Shipped)
    case SetShipping(x, state) =>
      if x == o && state in ShippingTransitions(m.shipping) then m.(shipping := state) else m
    case _ => m
  }

  /** The log entries an action appends for one order. A validated change to SHIPPED is not logged by itself. */
  function Entries(m: Mark, o: nat, a: Action): seq<History> {
    match a
    case Place(_, cart, _, _, _) =>
      if cart == Some(o) && m.status == Cart then [History(o, Some(OrderStatus.Pending), None)] else []
    case SetStatus(x, target) =>
      if x == o && target in OrderTransitions(m.status) && target != OrderStatus.Shipped
      then [History(o, Some(target), None)] else []
    case Ship(x) =>
      if x == o && m == Mark(Processing, ShippingStatus.Confirmed)
      then [History(o, None, Some(ShippingStatus.Shipped))] else []
    case SetShipping(x, state) =>
      if x == o && state in ShippingTransitions(m.shipping) then [History(o, None, Some(state))] else []
    case _ => []
  }

  function LogOf(history: seq<History>, o: nat): seq<History> {
    if history == [] then []
    else LogOf(history[..|history| - 1], o) + if history[|history| - 1].order == o then [history[|history| - 1]] else []
  }

  /** An entry ends its own order's log and shows in no other's. */
  lemma LogOfLogged(t: Tables, h: History, o: nat)
    ensures LogOf(Log(t, h).history, o) == LogOf(t.history, o) + if h.order == o then [h] else []
  {
    assert Log(t, h).history[..|t.history|] == t.history;
  }

  lemma PlaceSteps(t: Tables, a: Action, o: nat)
    requires Inv(t) && Enabled(t, a) && o in t.orders && a.Place?
    ensures o in Apply(t, a).orders && MarkOf(Apply(t, a), o) == Step(MarkOf(t, o), o, a)
    ensures LogOf(Apply(t, a).history, o) == LogOf(t.history, o) + Entries(MarkOf(t, o), o, a)
  {
    if a.cart.Some? {
      var c := a.cart.value;
      var u := Placed(t, c, a.generated, a.to, a.insertion);
      LogOfLogged(u, History(c, Some(OrderStatus.Pending), None), o);
    }
  }

  /** The guard: a change is refused exactly off the table or without the order, a refusal changes nothing, and a
      change that is allowed touches the one status and at most the log. */
  lemma GuardIsExact(t: Tables, x: nat, target: OrderStatus)
    requires OrdersIdentified(t.orders, t.nextOrder)
    ensures var e := ChangeStatus(t, None, x, target, false);
      && (e.outcome.Ok? <==> x in t.orders && target in OrderTransitions(t.orders[x].status))
      && (e.outcome.Err? ==> e.after == t)
      && (e.outcome.Ok? ==>
            e.after == t.(orders := t.orders[x := t.orders[x].(status := target)], history := e.after.history))
  {}

  lemma StatusSteps(t: Tables, x: nat, target: OrderStatus, o: nat)
    requires OrdersIdentified(t.orders, t.nextOrder) && o in t.orders
    ensures var u := ChangeStatus(t, None, x, target, false).after;
      && o in u.orders && MarkOf(u, o) == Step(MarkOf(t, o), o, SetStatus(x, target))
      && LogOf(u.history, o) == LogOf(t.history, o) + Entries(MarkOf(t, o), o, SetStatus(x, target))
  {
    if x in t.orders {
      LogOfLogged(SetOrder(t, t.orders[x].(status := target)), History(x, Some(target), None), o);
    }
  }

  lemma ShippingSteps(t: Tables, model: Option<Order>, x: nat, state: ShippingStatus, o: nat)
    requires OrdersIdentified(t.orders, t.nextOrder) && o in t.orders
    requires model.Some? ==> x in t.orders && model.value == t.orders[x]
    ensures var u := ChangeShipping(t, model, x, state).after;
      && o in u.orders && MarkOf(u, o) == Step(MarkOf(t, o), o, SetShipping(x, state))
      && LogOf(u.history, o) == LogOf(t.history, o) + Entries(MarkOf(t, o), o, SetShipping(x, state))
  {
    if x in t.orders {
      LogOfLogged(SetOrder(t, t.orders[x].(shipping := state)), History(x, None, Some(state)), o);
    }
  }

  /** shippedOrder on one pair: the second step is taken only when the first went through. */
  lemma ShipIsTwoSteps(m: Mark, o: nat, x: nat, through: bool)
    requires x == o ==> (through <==> m.status == Processing)
    ensures var first, second := SetStatus(x, OrderStatus.Shipped), SetShipping(x, ShippingStatus.Shipped);
      var n := Step(m, o, first);
      && Step(m, o, Ship(x)) == (if through then Step(n, o, second) else n)
      && Entries(m, o, Ship(x)) == Entries(m, o, first) + (if through then Entries(n, o, second) else [])
  {}

  lemma FirstWrite(t: Tables, x: nat)
    requires OrdersIdentified(t.orders, t.nextOrder)
    ensures var first := ChangeStatus(t, None, x, OrderStatus.Shipped, false);
      && (first.outcome.Ok? <==> x in t.orders && t.orders[x].status == Processing)
      && OrdersIdentified(first.after.orders, first.after.nextOrder)
      && (first.outcome.Ok? ==> x in first.after.orders && first.model == Some(first.after.orders[x]))
  {}

  lemma ShipSteps(t: Tables, x: nat, o: nat)
    requires OrdersIdentified(t.orders, t.nextOrder) && o in t.orders
    ensures var u := ShipOrder(t, None, x).after;
      && o in u.orders && MarkOf(u, o) == Step(MarkOf(t, o), o, Ship(x))
      && LogOf(u.history, o) == LogOf(t.history, o) + Entries(MarkOf(t, o), o, Ship(x))
  {
    var first := ChangeStatus(t, None, x, OrderStatus.Shipped, false);
    FirstWrite(t, x);
    StatusSteps(t, x, OrderStatus.Shipped, o);
    ShipIsTwoSteps(MarkOf(t, o), o, x, first.outcome.Ok?);
    if first.outcome.Ok? { ShippingSteps(first.after, first.model, x, ShippingStatus.Shipped, o); }
  }

  lemma QuietSteps(t: Tables, a: Action, o: nat)
    requires OrdersIdentified(t.orders, t.nextOrder) && Enabled(t, a) && o in t.orders
    requires a.Reprice? || a.Create? || a.Add? || a.Remove? || a.Clear?
    ensures o in Apply(t, a).orders && MarkOf(Apply(t, a), o) == MarkOf(t, o)
    ensures Apply(t, a).history == t.history
  {}

  lemma ApplySteps(t: Tables, a: Action, o: nat)
    requires Inv(t) && Enabled(t, a) && o in t.orders
    ensures o in Apply(t, a).orders && MarkOf(Apply(t, a), o) == Step(MarkOf(t, o), o, a)
    ensures LogOf(Apply(t, a).history, o) == LogOf(t.history, o) + Entries(MarkOf(t, o), o, a)
  {
    match a {
      case Place(_, _, _, _, _) => PlaceSteps(t, a, o);
      case SetStatus(x, target) => StatusSteps(t, x, target, o);
      case Ship(x) => ShipSteps(t, x, o);
      case SetShipping(x, state) => ShippingSteps(t, None, x, state, o);
      case _ => QuietSteps(t, a, o);
    }
  }

  /** shippedOrder succeeds exactly on a PROCESSING order whose shipping is CONFIRMED; on a PROCESSING order
      with any other shipping status it throws and leaves its first write behind, unlogged. */
  lemma ShipCompletes(t: Tables, o: nat)
    requires OrdersIdentified(t.orders, t.nextOrder) && o in t.orders
    ensures ShipOrder(t, None, o).outcome.Ok? <==> MarkOf(t, o) == Mark(Processing, ShippingStatus.Confirmed)
    ensures ShipOrder(t, None, o).outcome.Err? ==>
      (ShipOrder(t, None, o).after != t <==> MarkOf(t, o).status == Processing)
  {
    if t.orders[o].status == Processing {
      assert ShipOrder(t, None, o).after.orders[o].status == OrderStatus.Shipped;
    }
  }

  // ---------------------------------------------------------------- the named operations

  /** The two transition tables read backwards: from where each status can be entered. */
  lemma EnteredFrom(s: OrderStatus)
    ensures Cart !in OrderTransitions(s) && Failed !in OrderTransitions(s)
    ensures OrderStatus.Pending in OrderTransitions(s) <==> s == Cart
    ensures OrderStatus.Confirmed in OrderTransitions(s) <==> s == OrderStatus.Pending
    ensures Processing in OrderTransitions(s) <==> s == OrderStatus.Confirmed || s == OnHold
    ensures OnHold in OrderTransitions(s) <==> s == Processing
    ensures OrderStatus.Shipped in OrderTransitions(s) <==> s == Processing
    ensures Completed in OrderTransitions(s) <==> s == OrderStatus.Shipped
    ensures Refunded in OrderTransitions(s) <==> s == Completed
    ensures Cancelled in OrderTransitions(s) <==>
      s == OrderStatus.Pending || s == OrderStatus.Confirmed || s == Processing || s == OnHold
  {}

  lemma ShippingEnteredFrom(s: ShippingStatus)
    ensures NotRequired !in ShippingTransitions(s)
    ensures ShippingStatus.Pending in ShippingTransitions(s) <==> s == NotRequired
    ensures ShippingStatus.Confirmed in ShippingTransitions(s) <==> s == ShippingStatus.Pending
    ensures ShippingStatus.Shipped in ShippingTransitions(s) <==> s == ShippingStatus.Confirmed
    ensures InTransit in ShippingTransitions(s) <==> s == ShippingStatus.Shipped
    ensures Delivered in ShippingTransitions(s) <==> s == InTransit
    ensures Lost in ShippingTransitions(s) <==> s == InTransit
    ensures Returned in ShippingTransitions(s) <==> s == ShippingStatus.Shipped || s == InTransit || s == Delivered
  {}

  /** peddingOrder, confirmedOrder, processingOrder, shippedOrder, inTransitOrder, deliveredOrder, returnedOrder,
      completedOrder, refundedOrder and cancelledOrder. */
  datatype Operation =
    | ToPending | ToConfirmed | ToProcessing | ToShipped | ToTransit | ToDelivered | ToReturned
    | ToCompleted | ToRefunded | ToCancelled

  /** The step that each named operation on order x is. */
  function ActionOf(op: Operation, x: nat): Action {
    match op
    case ToPending => SetStatus(x, OrderStatus.Pending)
    case ToConfirmed => SetStatus(x, OrderStatus.Confirmed)
    case ToProcessing => SetStatus(x, Processing)
    case ToShipped => Ship(x)
    case ToTransit => SetShipping(x, InTransit)
    case ToDelivered => SetShipping(x, Delivered)
    case ToReturned => SetShipping(x, Returned)
    case ToCompleted => SetStatus(x, Completed)
    case ToRefunded => SetStatus(x, Refunded)
    case ToCancelled => SetStatus(x, Cancelled)
  }

  /** The pairs on which an operation succeeds. */
  predicate Allows(op: Operation, m: Mark) {
    match op
    case ToPending => m.status == Cart
    case ToConfirmed => m.status == OrderStatus.Pending
    case ToProcessing => m.status == OrderStatus.Confirmed || m.status == OnHold
    case ToShipped => m.status == Processing && m.shipping == ShippingStatus.Confirmed
    case ToTransit => m.shipping == ShippingStatus.Shipped
    case ToDelivered => m.shipping == InTransit
    case ToReturned => m.shipping == ShippingStatus.Shipped || m.shipping == InTransit || m.shipping == Delivered
    case ToCompleted => m.status == OrderStatus.Shipped
    case ToRefunded => m.status == Completed
    case ToCancelled =>
      m.status == OrderStatus.Pending || m.status == OrderStatus.Confirmed || m.status == Processing
      || m.status == OnHold
  }

  /** Where a success leads, and the one entry that it logs. */
  function Reached(op: Operation, m: Mark): Mark {
    match op
    case ToPending => Mark(OrderStatus.Pending, m.shipping)
    case ToConfirmed => Mark(OrderStatus.Confirmed, m.shipping)
    case ToProcessing => Mark(Processing, m.shipping)
    case ToShipped => Mark(OrderStatus.Shipped, ShippingStatus.Shipped)
    case ToTransit => Mark(m.status, InTransit)
    case ToDelivered => Mark(m.status, Delivered)
    case ToReturned => Mark(m.status, Returned)
    case ToCompleted => Mark(Completed, m.shipping)
    case ToRefunded => Mark(Refunded, m.shipping)
    case ToCancelled => Mark(Cancelled, m.shipping)
  }

  function LoggedBy(op: Operation, x: nat): History {
    match op
    case ToPending => History(x, Some(OrderStatus.Pending), None)
    case ToConfirmed => History(x, Some(OrderStatus.Confirmed), None)
    case ToProcessing => History(x, Some(Processing), None)
    case ToShipped => History(x, None, Some(ShippingStatus.Shipped))
    case ToTransit => History(x, None, Some(InTransit))
    case ToDelivered => History(x, None, Some(Delivered))
    case ToReturned => History(x, None, Some(Returned))
    case ToCompleted => History(x, Some(Completed), None)
    case ToRefunded => History(x, Some(Refunded), None)
    case ToCancelled => History(x, Some(Cancelled), None)
  }

  ghost function Marked(t: Tables, x: nat, m: Mark): Tables
    requires x in t.orders
  {
    t.(orders := t.orders[x := t.orders[x].(status := m.status, shipping := m.shipping)])
  }

  /** What one operation makes of the tables. */
  ghost function Performed(t: Tables, op: Operation, x: nat): Tables {
    if x !in t.orders then t
    else
      var m := MarkOf(t, x);
      if Allows(op, m) then Log(Marked(t, x, Reached(op, m)), LoggedBy(op, x))
      else if op.ToShipped? && m.status == Processing then Marked(t, x, Mark(OrderStatus.Shipped, m.shipping))
      else t
  }

  predicate MovesShipping(op: Operation) {
    op.ToTransit? || op.ToDelivered? || op.ToReturned?
  }

  lemma ShippingOperations(t: Tables, op: Operation, x: nat)
    requires OrdersIdentified(t.orders, t.nextOrder) && MovesShipping(op)
    ensures Apply(t, ActionOf(op, x)) == Performed(t, op, x)
  {
    if x in t.orders { ShippingEnteredFrom(t.orders[x].shipping); }
  }

  lemma StatusOperations(t: Tables, op: Operation, x: nat)
    requires OrdersIdentified(t.orders, t.nextOrder) && !MovesShipping(op) && !op.ToShipped?
    ensures Apply(t, ActionOf(op, x)) == Performed(t, op, x)
  {
    if x in t.orders { EnteredFrom(t.orders[x].status); }
  }

  lemma ShipOperation(t: Tables, x: nat)
    requires OrdersIdentified(t.orders, t.nextOrder)
    ensures Apply(t, ActionOf(ToShipped, x)) == Performed(t, ToShipped, x)
  {
    FirstWrite(t, x);
    if x in t.orders { ShippingEnteredFrom(t.orders[x].shipping); }
  }

  /** Every named operation, told outright: the pairs on which it succeeds, the pair it leads to, the one entry it
      logs, and that everything else stays. Where it fails nothing changes, but for a shippedOrder on a PROCESSING
      order, which leaves that order SHIPPED. */
  lemma NamedOperations(t: Tables, op: Operation, x: nat)
    requires OrdersIdentified(t.orders, t.nextOrder)
    ensures Enabled(t, ActionOf(op, x)) && Apply(t, ActionOf(op, x)) == Performed(t, op, x)
  {
    if op.ToShipped? { ShipOperation(t, x); }
    else if MovesShipping(op) { ShippingOperations(t, op, x); }
    else { StatusOperations(t, op, x); }
  }

  // ---------------------------------------------------------------- replaying the log

  function ReplayOne(m: Mark, h: History): Mark {
    var n := if h.status.Some? then m.(status := h.status.value) else m;
    match h.shipping
    case None => n
    case Some(s) => if s == ShippingStatus.Shipped then Mark(OrderStatus.Shipped, s) else n.(shipping := s)
  }

  function Replay(m: Mark, log: seq<History>): Mark {
    if log == [] then m else ReplayOne(Replay(m, log[..|log| - 1]), log[|log| - 1])
  }

  lemma {:induction false} ReplayAppend(m: Mark, a: seq<History>, b: seq<History>)
    requires |b| <= 1
    ensures Replay(m, a + b) == if b == [] then Replay(m, a) else ReplayOne(Replay(m, a), b[0])
  {
    if b == [] { assert a + b == a; } else { assert (a + b)[..|a|] == a; }
  }

  /** Whether the last change of the order's status was a shippedOrder cut short between its two writes. */
  function Stuck(stuck: bool, m: Mark, o: nat, a: Action): bool {
    if a == Ship(o) && m.status == Processing then m.shipping != ShippingStatus.Confirmed
    else stuck && Step(m, o, a).status == m.status
  }

  /** What the log says about an order, given what the row says and whether it is stuck. */
  function LogView(m: Mark, stuck: bool): Mark {
    if stuck then Mark(Processing, m.shipping) else m
  }

  /** SetStatus to SHIPPED is the one validated change that skips the log; shippedOrder is its only caller. */
  predicate Logged(a: Action) {
    a.SetStatus? ==> a.target != OrderStatus.Shipped
  }

  lemma ReplayStep(m: Mark, stuck: bool, o: nat, a: Action)
    requires Logged(a) && (stuck ==> m.status == OrderStatus.Shipped)
    requires a.SetShipping? ==> a.state != ShippingStatus.Shipped
    ensures |Entries(m, o, a)| <= 1
    ensures var n, s := Step(m, o, a), Stuck(stuck, m, o, a);
      && (s ==> n.status == OrderStatus.Shipped)
      && LogView(n, s) == if Entries(m, o, a) == [] then LogView(m, stuck)
                          else ReplayOne(LogView(m, stuck), Entries(m, o, a)[0])
  {}

  ghost function RunStuck(stuck: bool, t: Tables, run: seq<Action>, o: nat): bool
    requires CanRun(t, run) && Inv(t) && o in t.orders
    decreases |run|
  {
    if run == [] then stuck
    else
      ApplySteps(t, run[0], o);
      ApplyKeepsInv(t, run[0]);
      RunStuck(Stuck(stuck, MarkOf(t, o), o, run[0]), Apply(t, run[0]), run[1..], o)
  }

  lemma {:induction false} ReplayRun(
      t: Tables, run: seq<Action>, o: nat, start: Mark, stuck: bool, before: seq<History>)
    requires Inv(t) && CanRun(t, run) && o in t.orders
    requires forall a :: a in run ==> Logged(a)
    requires stuck ==> MarkOf(t, o).status == OrderStatus.Shipped
    requires before <= LogOf(t.history, o)
    requires Replay(start, LogOf(t.history, o)[|before|..]) == LogView(MarkOf(t, o), stuck)
    ensures var u, s := Run(t, run), RunStuck(stuck, t, run, o);
      && o in u.orders && before <= LogOf(u.history, o)
      && (s ==> MarkOf(u, o).status == OrderStatus.Shipped)
      && Replay(start, LogOf(u.history, o)[|before|..]) == LogView(MarkOf(u, o), s)
    decreases |run|
  {
    if run != [] {
      var a, m := run[0], MarkOf(t, o);
      var u := Apply(t, a);
      ApplySteps(t, a, o);
      ApplyKeepsInv(t, a);
      ReplayStep(m, stuck, o, a);
      var log := LogOf(t.history, o);
      ReplayAppend(start, log[|before|..], Entries(m, o, a));
      assert LogOf(u.history, o)[|before|..] == log[|before|..] + Entries(m, o, a);
      ReplayRun(u, run[1..], o, start, Stuck(stuck, m, o, a), before);
    }
  }

  /** Over every run of checkout and the named status operations, replaying the entries logged since the start
      gives the stored pair, unless the order's last status change was a shippedOrder that stopped halfway:
      then, and only then, the row says SHIPPED where the log still says PROCESSING. */
  lemma HistoryReplays(t: Tables, run: seq<Action>, o: nat)
    requires Inv(t) && CanRun(t, run) && o in t.orders
    requires forall a :: a in run ==> Logged(a)
    ensures var u, before := Run(t, run), LogOf(t.history, o);
      && o in u.orders && before <= LogOf(u.history, o)
      && var replayed, stored := Replay(MarkOf(t, o), LogOf(u.history, o)[|before|..]), MarkOf(u, o);
      && replayed.shipping == stored.shipping
      && (if RunStuck(false, t, run, o)
          then stored.status == OrderStatus.Shipped && replayed.status == Processing
          else replayed == stored)
  {
    ReplayRun(t, run, o, MarkOf(t, o), false, LogOf(t.history, o));
  }

  lemma OnlyCreateAdds(t: Tables, a: Action, o: nat)
    requires Inv(t) && Enabled(t, a) && o !in t.orders && o in Apply(t, a).orders
    ensures a.Create? && a.found.None? && t.nextOrder == o
    ensures MarkOf(Apply(t, a), o) == Mark(a.input.status, a.input.shipping) && Apply(t, a).history == t.history
  {}

  lemma UnbornPlace(t: Tables, a: Action, o: nat)
    requires Inv(t) && Enabled(t, a) && a.Place? && o !in t.orders
    ensures LogOf(Apply(t, a).history, o) == LogOf(t.history, o)
  {
    if a.cart.Some? {
      var u := Placed(t, a.cart.value, a.generated, a.to, a.insertion);
      PlacedAlready(t, a.cart.value, a.generated, a.to, a.insertion);
      LogOfLogged(u, History(a.cart.value, Some(OrderStatus.Pending), None), o);
    }
  }

  lemma UnbornStatus(t: Tables, x: nat, target: OrderStatus, o: nat)
    requires OrdersIdentified(t.orders, t.nextOrder) && o !in t.orders
    ensures var u := ChangeStatus(t, None, x, target, false).after;
      LogOf(u.history, o) == LogOf(t.history, o) && o !in u.orders
  {
    if x in t.orders {
      LogOfLogged(SetOrder(t, t.orders[x].(status := target)), History(x, Some(target), None), o);
    }
  }

  lemma UnbornShipping(t: Tables, model: Option<Order>, x: nat, state: ShippingStatus, o: nat)
    requires OrdersIdentified(t.orders, t.nextOrder) && o !in t.orders
    requires model.Some? ==> x in t.orders && model.value == t.orders[x]
    ensures LogOf(ChangeShipping(t, model, x, state).after.history, o) == LogOf(t.history, o)
  {
    if x in t.orders {
      LogOfLogged(SetOrder(t, t.orders[x].(shipping := state)), History(x, None, Some(state)), o);
    }
  }

  /** Nothing is logged for an order that does not exist yet. */
  lemma UnbornSteps(t: Tables, a: Action, o: nat)
    requires Inv(t) && Enabled(t, a) && o !in t.orders
    ensures LogOf(Apply(t, a).history, o) == LogOf(t.history, o)
  {
    match a {
      case Place(_, _, _, _, _) => UnbornPlace(t, a, o);
      case SetStatus(x, target) => UnbornStatus(t, x, target, o);
      case SetShipping(x, state) => UnbornShipping(t, None, x, state, o);
      case Ship(x) =>
        var first := ChangeStatus(t, None, x, OrderStatus.Shipped, false);
        FirstWrite(t, x);
        UnbornStatus(t, x, OrderStatus.Shipped, o);
        if first.outcome.Ok? { UnbornShipping(first.after, first.model, x, ShippingStatus.Shipped, o); }
      case _ =>
        assert Apply(t, a).history == t.history;
    }
  }

  lemma PrefixUnfolds(t: Tables, run: seq<Action>, j: nat)
    requires CanRun(t, run) && j < |run| && CanRun(Apply(t, run[0]), run[1..][..j])
    ensures CanRun(t, run[..j + 1]) && Run(t, run[..j + 1]) == Run(Apply(t, run[0]), run[1..][..j])
  {
    assert run[..j + 1][0] == run[0] && run[..j + 1][1..] == run[1..][..j];
  }

  /** Action i of the run created order o, for which nothing had been logged before. */
  ghost predicate IsBirth(t: Tables, run: seq<Action>, o: nat, i: nat) {
    && i < |run| && CanRun(t, run[..i]) && Enabled(Run(t, run[..i]), run[i])
    && var b := Run(t, run[..i]);
    && o !in b.orders && o in Apply(b, run[i]).orders && LogOf(b.history, o) == []
  }

  lemma BirthLater(t: Tables, run: seq<Action>, o: nat, j: nat)
    requires CanRun(t, run) && run != [] && IsBirth(Apply(t, run[0]), run[1..], o, j)
    ensures IsBirth(t, run, o, j + 1)
  {
    PrefixUnfolds(t, run, j);
    assert run[1..][j] == run[j + 1];
  }

  lemma BirthNow(t: Tables, run: seq<Action>, o: nat)
    requires CanRun(t, run) && run != [] && LogOf(t.history, o) == []
    requires o !in t.orders && o in Apply(t, run[0]).orders
    ensures IsBirth(t, run, o, 0)
  {
    assert run[..0] == [];
  }

  lemma {:induction false} BirthOf(t: Tables, run: seq<Action>, o: nat) returns (i: nat)
    requires Inv(t) && CanRun(t, run) && o !in t.orders && LogOf(t.history, o) == []
    requires o in Run(t, run).orders
    ensures IsBirth(t, run, o, i)
    decreases |run|
  {
    if o in Apply(t, run[0]).orders {
      i := 0;
      BirthNow(t, run, o);
    } else {
      UnbornSteps(t, run[0], o);
      ApplyKeepsInv(t, run[0]);
      var j := BirthOf(Apply(t, run[0]), run[1..], o);
      i := j + 1;
      BirthLater(t, run, o, j);
    }
  }

  /** The order as it was born: what the log replays from, and the tables right after. */
  lemma BornAs(t: Tables, run: seq<Action>, o: nat, i: nat)
    requires Inv(t) && CanRun(t, run) && IsBirth(t, run, o, i)
    ensures run[i].Create? && CanRun(t, run[..i + 1]) && CanRun(Run(t, run[..i + 1]), run[i + 1..])
    ensures var b := Run(t, run[..i + 1]);
      && Inv(b) && o in b.orders && MarkOf(b, o) == Mark(run[i].input.status, run[i].input.shipping)
      && LogOf(b.history, o) == [] && Run(b, run[i + 1..]) == Run(t, run)
  {
    var b := Run(t, run[..i]);
    RunKeepsInv(t, run[..i]);
    OnlyCreateAdds(b, run[i], o);
    ApplyKeepsInv(b, run[i]);
    RunSplits(t, run, i + 1);
    RunSplits(t, run[..i + 1], i);
    assert run[..i + 1][..i] == run[..i] && run[..i + 1][i..] == [run[i]] && [run[i]][1..] == [];
    assert Run(b, [run[i]]) == Apply(b, run[i]);
  }

  /** Over every run from an empty database, each order was created in it, and its whole log replays from the pair
      that it was created with to the stored one, again but for a shippedOrder that stopped halfway as the last
      change of status. */
  lemma WholeLogReplays(prices: map<int, int>, run: seq<Action>, o: nat) returns (i: nat)
    requires CanRun(Tables(map[], map[], [], [], prices, 0, 0), run)
    requires o in Run(Tables(map[], map[], [], [], prices, 0, 0), run).orders
    requires forall a :: a in run ==> Logged(a)
    ensures var t := Tables(map[], map[], [], [], prices, 0, 0);
      && i < |run| && run[i].Create? && CanRun(t, run[..i + 1])
      && var b, u := Run(t, run[..i + 1]), Run(t, run);
      && Inv(b) && o in b.orders && CanRun(b, run[i + 1..])
      && var born, stored := Mark(run[i].input.status, run[i].input.shipping), MarkOf(u, o);
      && var replayed := Replay(born, LogOf(u.history, o));
      && replayed.shipping == stored.shipping
      && (if RunStuck(false, b, run[i + 1..], o)
          then stored.status == OrderStatus.Shipped && replayed.status == Processing
          else replayed == stored)
  {
    var t := Tables(map[], map[], [], [], prices, 0, 0);
    EmptyIsGood(prices);
    i := BirthOf(t, run, o);
    BornAs(t, run, o, i);
    var b, u := Run(t, run[..i + 1]), Run(t, run);
    HistoryReplays(b, run[i + 1..], o);
    assert LogOf(u.history, o)[|LogOf(b.history, o)|..] == LogOf(u.history, o);
  }

  // ---------------------------------------------------------------- how far a walk can go

  /** The statuses of an order before the run and after each of its actions. */
  function Trail(m: Mark, o: nat, run: seq<Action>): (trail: seq<Mark>)
    ensures |trail| == |run| + 1 && trail[0] == m
    decreases |run|
  {
    if run == [] then [m] else [m] + Trail(Step(m, o, run[0]), o, run[1..])
  }

  lemma {:induction false} TrailIsReal(t: Tables, run: seq<Action>, o: nat)
    requires Inv(t) && CanRun(t, run) && o in t.orders
    ensures o in Run(t, run).orders && MarkOf(Run(t, run), o) == Trail(MarkOf(t, o), o, run)[|run|]
    decreases |run|
  {
    if run != [] {
      ApplySteps(t, run[0], o);
      ApplyKeepsInv(t, run[0]);
      TrailIsReal(Apply(t, run[0]), run[1..], o);
    }
  }

  lemma {:induction false} TrailPrefix(m: Mark, o: nat, run: seq<Action>, i: nat)
    requires i <= |run|
    ensures Trail(m, o, run[..i])[i] == Trail(m, o, run)[i]
    decreases |run|
  {
    if i > 0 {
      TrailPrefix(Step(m, o, run[0]), o, run[1..], i - 1);
      assert run[..i][1..] == run[1..][..i - 1];
    }
  }

  lemma StoredAt(t: Tables, run: seq<Action>, o: nat, i: nat)
    requires Inv(t) && CanRun(t, run) && o in t.orders && i <= |run|
    ensures CanRun(t, run[..i]) && o in Run(t, run[..i]).orders
    ensures MarkOf(Run(t, run[..i]), o) == Trail(MarkOf(t, o), o, run)[i]
  {
    RunSplits(t, run, i);
    TrailIsReal(t, run[..i], o);
    TrailPrefix(MarkOf(t, o), o, run, i);
  }

  /** The pair that the tables hold for order o at the start of a run and after each of its actions. */
  ghost function Stored(t: Tables, run: seq<Action>, o: nat): (marks: seq<Mark>)
    requires Inv(t) && CanRun(t, run) && o in t.orders
    ensures |marks| == |run| + 1
  {
    seq(|run| + 1, i requires 0 <= i <= |run| =>
      StoredAt(t, run, o, i);
      MarkOf(Run(t, run[..i]), o))
  }

  /** The tables follow the walk at every point of a run. */
  lemma StoredIsTrail(t: Tables, run: seq<Action>, o: nat)
    requires Inv(t) && CanRun(t, run) && o in t.orders
    ensures Stored(t, run, o) == Trail(MarkOf(t, o), o, run)
  {
    var trail := Trail(MarkOf(t, o), o, run);
    forall i | 0 <= i <= |run|
      ensures Stored(t, run, o)[i] == trail[i]
    {
      StoredAt(t, run, o, i);
    }
  }

  /** One step along the tables or in place. */
  predicate Moves(m: Mark, n: Mark) {
    && (n.status == m.status || n.status in OrderTransitions(m.status))
    && (n.shipping == m.shipping || n.shipping in ShippingTransitions(m.shipping))
  }

  /** Every action follows the two tables: it moves each status along one allowed edge or not at all. */
  lemma StepFollowsTables(m: Mark, o: nat, a: Action)
    ensures Moves(m, Step(m, o, a))
  {}

  /** How many changes a status still allows, not counting the detours through ON_HOLD. */
  function Rank(s: OrderStatus): nat {
    match s
    case Cart => 6
    case Pending => 5
    case Confirmed => 4
    case Processing => 3
    case OnHold => 4
    case Shipped => 2
    case Completed => 1
    case _ => 0
  }

  function ShippingRank(s: ShippingStatus): nat {
    match s
    case NotRequired => 6
    case Pending => 5
    case Confirmed => 4
    case Shipped => 3
    case InTransit => 2
    case Delivered => 1
    case _ => 0
  }

  function OrderChanges(trail: seq<Mark>): nat {
    if |trail| <= 1 then 0
    else OrderChanges(trail[1..]) + if trail[0].status != trail[1].status then 1 else 0
  }

  function HoldEntries(trail: seq<Mark>): nat {
    if |trail| <= 1 then 0
    else HoldEntries(trail[1..]) + if trail[0].status != trail[1].status == OnHold then 1 else 0
  }

  function ShippingChanges(trail: seq<Mark>): nat {
    if |trail| <= 1 then 0
    else ShippingChanges(trail[1..]) + if trail[0].shipping != trail[1].shipping then 1 else 0
  }

  predicate Follows(trail: seq<Mark>) {
    forall i {:trigger trail[i]} :: 0 <= i < |trail| - 1 ==> Moves(trail[i], trail[i + 1])
  }

  lemma FollowsFrom(m: Mark, rest: seq<Mark>)
    requires rest != [] && Follows(rest) && Moves(m, rest[0])
    ensures Follows([m] + rest)
  {
    var trail := [m] + rest;
    forall i {:trigger trail[i]} | 0 <= i < |trail| - 1
      ensures Moves(trail[i], trail[i + 1])
    {
      assert trail[i + 1] == rest[i] && (i > 0 ==> trail[i] == rest[i - 1]);
    }
  }

  lemma FollowsRest(trail: seq<Mark>)
    requires trail != [] && Follows(trail)
    ensures Follows(trail[1..])
  {
    var rest := trail[1..];
    forall i {:trigger rest[i]} | 0 <= i < |rest| - 1
      ensures Moves(rest[i], rest[i + 1])
    {
      assert rest[i] == trail[i + 1] && rest[i + 1] == trail[i + 2];
    }
  }

  lemma {:induction false} TrailFollows(m: Mark, o: nat, run: seq<Action>)
    ensures Follows(Trail(m, o, run))
    decreases |run|
  {
    if run != [] {
      var n := Step(m, o, run[0]);
      StepFollowsTables(m, o, run[0]);
      TrailFollows(n, o, run[1..]);
      FollowsFrom(m, Trail(n, o, run[1..]));
    }
  }

  lemma RankDrops(m: Mark, n: Mark)
    requires Moves(m, n)
    ensures n.status != m.status ==> Rank(n.status) < Rank(m.status) + if n.status == OnHold then 2 else 0
    ensures n.shipping != m.shipping ==> ShippingRank(n.shipping) < ShippingRank(m.shipping)
  {}

  /** Changes are bounded along any walk that follows the tables, however long it is. */
  lemma {:induction false} WalkBounded(trail: seq<Mark>)
    requires trail != [] && Follows(trail)
    ensures OrderChanges(trail) <= Rank(trail[0].status) - Rank(trail[|trail| - 1].status) + 2 * HoldEntries(trail)
    ensures ShippingChanges(trail) <= ShippingRank(trail[0].shipping) - ShippingRank(trail[|trail| - 1].shipping)
    decreases |trail|
  {
    if |trail| > 1 {
      var rest := trail[1..];
      FollowsRest(trail);
      WalkBounded(rest);
      RankDrops(trail[0], trail[1]);
    }
  }

  lemma TrailBounded(m: Mark, o: nat, run: seq<Action>)
    ensures var trail := Trail(m, o, run);
      OrderChanges(trail) <= 6 + 2 * HoldEntries(trail) && ShippingChanges(trail) <= 6
  {
    TrailFollows(m, o, run);
    WalkBounded(Trail(m, o, run));
  }

  /** Over every run: at most 6 order changes plus 2 for each entry into ON_HOLD, at most 6 shipping changes. */
  lemma RunBounded(t: Tables, run: seq<Action>, o: nat)
    requires Inv(t) && CanRun(t, run) && o in t.orders
    ensures var marks := Stored(t, run, o);
      OrderChanges(marks) <= 6 + 2 * HoldEntries(marks) && ShippingChanges(marks) <= 6
  {
    StoredIsTrail(t, run, o);
    TrailBounded(MarkOf(t, o), o, run);
  }

  /** The targets of the named operations that only set a status. */
  predicate Named(a: Action) {
    a.SetStatus? ==>
      a.target in {OrderStatus.Pending, OrderStatus.Confirmed, Processing, Completed, Refunded, Cancelled}
  }

  lemma {:induction false} NeverHeld(m: Mark, o: nat, run: seq<Action>)
    requires forall a :: a in run ==> Named(a)
    ensures HoldEntries(Trail(m, o, run)) == 0
    decreases |run|
  {
    if run != [] {
      var n := Step(m, o, run[0]);
      NeverHeld(n, o, run[1..]);
      assert Named(run[0]);
      assert Trail(m, o, run)[1..] == Trail(n, o, run[1..]);
    }
  }

  lemma {:induction false} StaysOffHold(trail: seq<Mark>, j: nat)
    requires HoldEntries(trail) == 0 && j < |trail| && trail[0].status != OnHold
    ensures trail[j].status != OnHold
    decreases j
  {
    if j > 0 { StaysOffHold(trail[1..], j - 1); }
  }

  /** None of the named operations puts an order on hold, so over every run of them there are at most 6 order changes,
      and an order that is not ON_HOLD at the start never is. */
  lemma NamedRunBounded(t: Tables, run: seq<Action>, o: nat)
    requires Inv(t) && CanRun(t, run) && o in t.orders && forall a :: a in run ==> Named(a)
    ensures var marks := Stored(t, run, o);
      && OrderChanges(marks) <= 6
      && (t.orders[o].status != OnHold ==> forall i :: 0 <= i <= |run| ==> marks[i].status != OnHold)
  {
    var marks := Stored(t, run, o);
    StoredIsTrail(t, run, o);
    TrailBounded(MarkOf(t, o), o, run);
    NeverHeld(MarkOf(t, o), o, run);
    if t.orders[o].status != OnHold {
      StoredAt(t, run, o, 0);
      forall i | 0 <= i <= |run|
        ensures marks[i].status != OnHold
      {
        StaysOffHold(marks, i);
      }
    }
  }

  predicate BeforeShipping(s: OrderStatus) {
    s in {Cart, OrderStatus.Pending, OrderStatus.Confirmed, Processing, OnHold}
  }

  predicate AfterShipping(s: OrderStatus) {
    s in {OrderStatus.Shipped, Completed, Refunded}
  }

  lemma {:induction false} NeverBack(trail: seq<Mark>, i: nat, j: nat)
    requires Follows(trail) && i <= j < |trail| && AfterShipping(trail[i].status)
    ensures AfterShipping(trail[j].status)
    ensures trail[i].status in {Completed, Refunded} ==> trail[j].status in {Completed, Refunded}
    decreases j - i
  {
    if i < j {
      assert trail[i + 1].status == trail[i].status || trail[i + 1].status in OrderTransitions(trail[i].status);
      NeverBack(trail, i + 1, j);
    }
  }

  lemma {:induction false} PassesShipped(trail: seq<Mark>, j: nat) returns (i: nat)
    requires Follows(trail) && j < |trail| && BeforeShipping(trail[0].status) && AfterShipping(trail[j].status)
    ensures i <= j && trail[i].status == OrderStatus.Shipped
    decreases j
  {
    if trail[j].status == OrderStatus.Shipped {
      i := j;
    } else {
      assert trail[j].status == trail[j - 1].status || trail[j].status in OrderTransitions(trail[j - 1].status);
      i := PassesShipped(trail, j - 1);
    }
  }

  lemma {:induction false} PassesCompleted(trail: seq<Mark>, j: nat) returns (i: nat)
    requires Follows(trail) && j < |trail| && BeforeShipping(trail[0].status)
    requires trail[j].status in {Completed, Refunded}
    ensures i <= j && trail[i].status == Completed
    decreases j
  {
    if trail[j].status == Completed {
      i := j;
    } else {
      assert trail[j].status == trail[j - 1].status || trail[j].status in OrderTransitions(trail[j - 1].status);
      i := PassesCompleted(trail, j - 1);
    }
  }

  /** A refund is only reached through SHIPPED and then COMPLETED: the tables hold first the one and later the
      other. */
  lemma RefundTakesTheRoad(t: Tables, run: seq<Action>, o: nat) returns (i: nat, j: nat)
    requires Inv(t) && CanRun(t, run) && o in t.orders && BeforeShipping(MarkOf(t, o).status)
    requires o in Run(t, run).orders && MarkOf(Run(t, run), o).status == Refunded
    ensures i < j < |run| && CanRun(t, run[..i]) && CanRun(t, run[..j])
    ensures var early, late := Run(t, run[..i]), Run(t, run[..j]);
      && o in early.orders && early.orders[o].status == OrderStatus.Shipped
      && o in late.orders && late.orders[o].status == Completed
  {
    var trail := Trail(MarkOf(t, o), o, run);
    TrailIsReal(t, run, o);
    TrailFollows(MarkOf(t, o), o, run);
    j := PassesCompleted(trail, |run|);
    i := PassesShipped(trail, j);
    StoredAt(t, run, o, i);
    StoredAt(t, run, o, j);
  }

  /** Once an order has been SHIPPED it is never cancelled, held or reopened. */
  lemma ShippedIsNeverCancelled(t: Tables, run: seq<Action>, o: nat)
    requires Inv(t) && CanRun(t, run) && o in t.orders && AfterShipping(MarkOf(t, o).status)
    ensures o in Run(t, run).orders && AfterShipping(MarkOf(Run(t, run), o).status)
  {
    TrailIsReal(t, run, o);
    TrailFollows(MarkOf(t, o), o, run);
    NeverBack(Trail(MarkOf(t, o), o, run), 0, |run|);
  }

  lemma NothingConfirms(m: Mark, o: nat, a: Action)
    requires m.shipping in {NotRequired, ShippingStatus.Pending}
    requires a.SetShipping? ==> a.state in {InTransit, Delivered, Returned}
    ensures Step(m, o, a).shipping == m.shipping
  {}

  /** No named operation confirms a shipment, so an order whose shipping starts at NOT_REQUIRED (the default) or
      PENDING keeps that shipping status through every run, and no shippedOrder on it ever completes. */
  lemma {:induction false} ShipmentNeverStarts(t: Tables, run: seq<Action>, o: nat)
    requires Inv(t) && CanRun(t, run) && o in t.orders
    requires t.orders[o].shipping in {NotRequired, ShippingStatus.Pending}
    ensures var u := Run(t, run);
      o in u.orders && u.orders[o].shipping == t.orders[o].shipping && ShipOrder(u, None, o).outcome.Err?
    decreases |run|
  {
    if run == [] {
      ShipCompletes(t, o);
    } else {
      ApplySteps(t, run[0], o);
      ApplyKeepsInv(t, run[0]);
      NothingConfirms(MarkOf(t, o), o, run[0]);
      ShipmentNeverStarts(Apply(t, run[0]), run[1..], o);
    }
  }
}
