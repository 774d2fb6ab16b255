/** The cart's operations over the shared tables. A transaction wrapper adds nothing here: its callback runs
    as a plain call and nothing is rolled back. */
module Carts {
  import opened Wrappers
  import opened Tables
  import opened ShopSpec
  import opened Records
  import opened OrderDetails
  import opened Orders
  import opened CheckoutFanOut
  import ShopRuns

  lemma IdsCover(rows: seq<Line>, ids: set<nat>)
    requires Lists(Ids(rows), ids)
    ensures (set l | l in rows :: l.id) == ids
  {
    IdsOfRows(rows);
  }

  function StepsOf(task: Task): nat {
    match task
    case Waiting => 3
    case Inserted(_) => 2
    case Loaded(_, _) => 1
    case Finished(_) => 0
  }

  /** How many statements the tasks still have to run. */
  ghost function StepsLeft(tasks: map<nat, Task>, ids: set<nat>): nat
    requires ids <= tasks.Keys
  {
    if ids == {} then 0
    else
      var l := Any(ids);
      StepsLeft(tasks, ids - {l}) + StepsOf(tasks[l])
  }

  lemma {:induction false} StepsLeftDrops(tasks: map<nat, Task>, ids: set<nat>, l: nat, task: Task)
    requires ids <= tasks.Keys && l in tasks
    ensures StepsLeft(tasks[l := task], ids) ==
      StepsLeft(tasks, ids) - if l in ids then StepsOf(tasks[l]) - StepsOf(task) else 0
    decreases ids
  {
    if ids != {} { StepsLeftDrops(tasks, ids - {Any(ids)}, l, task); }
  }

  lemma StepMovesOn(w: World, ids: set<nat>, l: nat, to: CheckoutInput)
    requires ids <= w.tasks.Keys && l in ids && l in w.t.lines && !w.tasks[l].Finished?
    ensures ids <= StepTask(w, l, to).tasks.Keys
    ensures StepsLeft(StepTask(w, l, to).tasks, ids) < StepsLeft(w.tasks, ids)
  {
    StepsLeftDrops(w.tasks, ids, l, StepTask(w, l, to).tasks[l]);
  }

  lemma BulkIsDrop(before: map<nat, Line>, after: map<nat, Line>, rows: seq<Line>, ids: set<nat>)
    requires Lists(Ids(rows), ids)
    requires forall l :: l in after <==> l in before && l !in Ids(rows)
    requires forall l :: l in after ==> after[l] == before[l]
    ensures after == before - ids
  {}

  class CartService {
    const db: Database
    const details: OrderDetailService
    const orders: OrderService

    ghost predicate Wired() {
      details.db == db && orders.db == db && orders.details == details
    }

    constructor (db: Database)
      ensures this.db == db && Wired()
    {
      var lines := new OrderDetailService(db);
      this.db, this.details := db, lines;
      this.orders := new OrderService(db, lines);
    }

    /** What lookups, and nothing else, decided: which row a code or a customer led to. */
    ghost function Id(found: Option<Order>): Option<nat> {
      if found.Some? then Some(found.value.id) else None
    }

    method GetCart(customer: int, code: string) returns (found: Option<Order>)
      requires Identified(db.State())
      ensures Finds(db.State(), customer, code, Id(found))
      ensures found.Some? ==>
        && found.value.id in db.orders && found.value == db.orders[found.value.id]
        && IsMeant(found.value, customer, code)
      ensures found.None? ==> forall id :: id in db.orders ==> !IsMeant(db.orders[id], customer, code)
    {
      ShopRuns.FindsMeans(db.State(), customer, code, None);
      if customer == 0 && code == "" { return None; }
      if id :| id in db.orders && IsHit(db.orders[id], customer, code) {
        found := Some(db.orders[id]);
      } else {
        found := None;
      }
    }

    method CreateCart(input: NewOrder, generated: string)
      returns (r: Result<Option<Order>, Failure>, ghost found: Option<nat>)
      requires Wired() && Inv(db.State())
      modifies db
      ensures Finds(old(db.State()), input.customer, input.code, found)
      ensures Effect(db.State(), r) == ShopSpec.CreateCart(old(db.State()), input, generated, found)
      ensures Inv(db.State())
    {
      ghost var before := db.State();
      var present := GetCart(input.customer, input.code);
      found := Id(present);
      if present.Some? {
        r := Ok(present);
      } else {
        var data := if input.code == "" then input.(code := generated) else input;
        var o := orders.CreateOrder(data);
        r := Ok(Some(o));
      }
      ShopRuns.CreateKeeps(before, input, generated, found);
    }

    method AddToCart(code: string, key: Key, quantity: int, note: Property<string>)
      returns (r: Result<Option<Order>, Failure>, ghost cart: Option<nat>)
      requires Wired() && Inv(db.State())
      modifies db
      ensures Finds(old(db.State()), 0, code, cart)
      ensures Effect(db.State(), r) == ShopSpec.AddToCart(
        old(db.State()), cart, key, Ask(quantity, note, None, None))
      ensures Inv(db.State()) && (r.Err? ==> db.State() == old(db.State()))
    {
      ghost var before := db.State();
      var found := GetCart(0, code);
      cart := Id(found);
      var ask := Ask(quantity, note, None, None);
      ShopRuns.AddKeeps(before, cart, key, ask);
      if found.None? { return Ok(None), cart; }
      var line := details.CreateOrderDetail(LineInput(found.value.id, key, ask), Some(found.value.id));
      if line.Err? { return Err(line.error), cart; }
      ghost var id, row := ShopRuns.PutLineShape(before, found.value.id, key, ask);
      ShopRuns.PutKeepsSound(before, db.State(), found.value.id, key, id, row);
      r := orders.RefreshOrder(found.value.id);
    }

    method RemoveFromCart(code: string, key: Key) returns (r: Result<Option<Order>, Failure>, ghost cart: Option<nat>)
      requires Wired() && Inv(db.State())
      modifies db
      ensures Finds(old(db.State()), 0, code, cart)
      ensures Effect(db.State(), r) == ShopSpec.RemoveFromCart(old(db.State()), cart, key)
      ensures Inv(db.State()) && (r.Err? ==> db.State() == old(db.State()))
    {
      ghost var before := db.State();
      var found := GetCart(0, code);
      cart := Id(found);
      ShopRuns.RemoveKeeps(before, cart, key);
      if found.None? { return Err(CartMissing), cart; }
      var line := details.GetOne(found.value.id, key, false);
      if line.None? { return Err(LineMissing), cart; }
      ghost var live := Matches(before.lines, found.value.id, key) * LinesOf(before.lines, found.value.id);
      assert line.value.id in live && Any(live) == line.value.id;
      ShopRuns.DropKeepsSound(
        before, before.(lines := before.lines - {line.value.id}), found.value.id, {line.value.id});
      var model := new Record(line.value);
      var options := new Options(model);
      var gone := details.HardDelete(line.value.id, options);
      r := orders.RefreshOrder(found.value.id);
    }

    method ClearCart(code: string) returns (r: Result<Option<Order>, Failure>, ghost cart: Option<nat>)
      requires Wired() && Inv(db.State())
      modifies db
      ensures Finds(old(db.State()), 0, code, cart)
      ensures Effect(db.State(), r) == ShopSpec.ClearCart(old(db.State()), cart)
      ensures Inv(db.State()) && (r.Err? ==> db.State() == old(db.State()))
    {
      ghost var before := db.State();
      var found := GetCart(0, code);
      cart := Id(found);
      if found.None? { return Err(CartMissing), cart; }
      var c := found.value.id;
      ghost var ids := LinesOf(before.lines, c);
      ShopRuns.DropKeepsSound(before, before.(lines := before.lines - ids), c, ids);
      ShopRuns.DropThenRefreshKeeps(before, c, ids);
      var rows := details.GetMany(c);
      details.BulkHardDelete(rows);
      BulkIsDrop(before.lines, db.lines, rows, ids);
      r := orders.RefreshOrder(c);
    }

    /** createOrderShipping, one database statement at a time: insert the shipping row, load the line, save the line
        with the shipping row's status. */
    method RunStatement(l: nat, to: CheckoutInput, tasks: map<nat, Task>, ghost insertion: seq<nat>)
      returns (next: map<nat, Task>, ghost inserted: seq<nat>)
      requires l in tasks && l in db.lines && !tasks[l].Finished?
      modifies db`lines, db`shippings
      ensures World(db.State(), next, inserted) == StepTask(old(World(db.State(), tasks, insertion)), l, to)
    {
      inserted := insertion;
      match tasks[l] {
        case Waiting =>
          var row := Shipping(|db.shippings|, l, to, NotRequired);
          db.shippings := db.shippings + [row];
          next, inserted := tasks[l := Inserted(row)], insertion + [l];
        case Inserted(row) =>
          next := tasks[l := Loaded(row, db.lines[l])];
        case Loaded(row, copy) =>
          db.lines := db.lines[l := copy.(shipping := row.status)];
          next := tasks[l := Finished(row)];
      }
    }

    /** The fan-out of checkout: the tasks run concurrently, so at every turn the scheduler picks any task that is
        not done, and that task performs its next database statement. */
    method CreateShippings(ids: set<nat>, to: CheckoutInput) returns (ghost insertion: seq<nat>)
      requires ids <= db.lines.Keys
      modifies db`lines, db`shippings
      ensures Lists(insertion, ids) && db.State() == FanOut(old(db.State()), insertion, to)
    {
      ghost var before := db.State();
      var tasks := map id | id in ids :: Waiting;
      insertion := [];
      ghost var w := Start(before, ids);
      StartBetween(before, ids, to);
      while exists l :: l in tasks && !tasks[l].Finished?
        invariant w == World(db.State(), tasks, insertion) && Between(before, ids, to, w)
        decreases StepsLeft(tasks, ids)
      {
        var l :| l in tasks && !tasks[l].Finished?;
        StepBetween(before, ids, to, w, l);
        StepMovesOn(w, ids, l, to);
        w := StepTask(w, l, to);
        tasks, insertion := RunStatement(l, to, tasks, insertion);
      }
      FinishedIsFanOut(before, ids, to, w);
    }

    /** The ids of the cart's live lines. */
    method LineIds(c: nat) returns (ids: set<nat>)
      requires Wired() && Identified(db.State())
      ensures ids == LinesOf(db.lines, c)
    {
      var rows := details.GetMany(c);
      ids := set l | l in rows :: l.id;
      IdsCover(rows, LinesOf(db.lines, c));
    }

    /** The order write of checkout, through the loaded cart as the shared model. */
    method PlaceOrder(loaded: Order, generated: string, to: CheckoutInput)
      requires Wired()
      modifies db`orders
      ensures db.State() == SetOrder(old(db.State()), PlacedOrder(loaded, generated, to))
    {
      var model := new Record(loaded);
      var shared := new Options(model);
      var saved := orders.Update(
        loaded.id, Patch(Some(OrderStatus.Pending), None, Some(generated), to.note, None), shared);
    }

    method CheckoutCart(code: string, to: CheckoutInput, generated: string)
      returns (r: Result<Option<Order>, Failure>, ghost cart: Option<nat>, ghost insertion: seq<nat>)
      requires Wired() && Inv(db.State())
      modifies db
      ensures Finds(old(db.State()), 0, code, cart)
      ensures cart.Some? ==> Lists(insertion, LinesOf(old(db.lines), cart.value))
      ensures Effect(db.State(), r) == Checkout(old(db.State()), cart, generated, to, insertion)
      ensures Inv(db.State()) && (r.Err? ==> db.State() == old(db.State()))
    {
      ghost var before := db.State();
      insertion := [];
      var found := GetCart(0, code);
      cart := Id(found);
      if found.None? { return Err(CartMissing), cart, insertion; }
      var c := found.value.id;
      var ids := LineIds(c);
      insertion := CreateShippings(ids, to);
      PlaceOrder(found.value, generated, to);
      ghost var placed := db.State();
      assert placed == ShopRuns.Placed(before, c, generated, to, insertion);
      ShopRuns.PlacedKeepsSound(before, c, generated, to, insertion);
      ShopRuns.CheckoutKeeps(before, cart, generated, to, insertion);
      var own := new Options<Order>(null);
      var changed := orders.ChangeStatus(c, OrderStatus.Pending, true, own);
      assert db.State() == placed.(history := db.history);
      r := orders.RefreshOrder(c);
    }
  }
}
