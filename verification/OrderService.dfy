/** Orders: saving through a shared model, the guarded status engine, totals. */
module Orders {
  import opened Wrappers
  import opened Tables
  import opened ShopSpec
  import opened Records
  import opened OrderDetails

  /** The fields an update assigns into the model. */
  datatype Patch = Patch(
    status: Option<OrderStatus>, shipping: Option<ShippingStatus>, code: Option<string>, note: Property<string>,
    costs: Option<Costs>)

  function Assign(o: Order, p: Patch): Order {
    Order(o.id,
          if p.code.Some? then p.code.value else o.code, o.customer,
          if p.status.Some? then p.status.value else o.status,
          if p.shipping.Some? then p.shipping.value else o.shipping,
          if p.costs.Some? then p.costs.value.total else o.totalCost,
          if p.costs.Some? then p.costs.value.final else o.finalCost,
          Overwrite(o.note, p.note))
  }

  /** The reduce over an array of lines. */
  function AddUp(rows: seq<Line>): Costs {
    if rows == [] then Costs(0, 0) else AddUp(rows[..|rows| - 1]).Plus(rows[|rows| - 1])
  }

  /** Whatever order the rows come in, the reduce gives the sum over the set of lines. */
  lemma {:induction false} AddUpIsSum(rows: seq<Line>, lines: map<nat, Line>, ids: set<nat>)
    requires Lists(Ids(rows), ids) && ids <= lines.Keys
    requires forall i :: 0 <= i < |rows| ==> rows[i].id in lines && rows[i] == lines[rows[i].id]
    ensures AddUp(rows) == SumCosts(lines, ids)
    decreases |rows|
  {
    if rows == [] {
      assert forall id :: id in ids ==> id in Ids(rows);
      assert ids == {};
    } else {
      var init, last := rows[..|rows| - 1], rows[|rows| - 1];
      var listing := Ids(rows);
      assert listing == Ids(init) + [last.id];
      ListsInit(Ids(init), last.id, ids);
      AddUpIsSum(init, lines, ids - {last.id});
      SumCostsSplit(lines, ids, last.id);
    }
  }

  lemma AssignOne(o: Order, status: OrderStatus, shipping: ShippingStatus)
    ensures Assign(o, Patch(Some(status), None, None, Absent, None)) == o.(status := status)
    ensures Assign(o, Patch(None, Some(shipping), None, Absent, None)) == o.(shipping := shipping)
  {}

  class OrderService {
    const db: Database
    const details: OrderDetailService

    constructor (db: Database, details: OrderDetailService)
      requires details.db == db
      ensures this.db == db && this.details == details
    {
      this.db, this.details := db, details;
    }

    method GetOne(id: nat) returns (found: Option<Order>)
      ensures found == FindOrder(db.State(), id)
    {
      found := if id in db.orders then Some(db.orders[id]) else None;
    }

    method Load(id: nat, options: Options<Order>)
      modifies options
      ensures KeepsModel(options) && db.State() == old(db.State())
      ensures options.Row() == if old(options.model) == null then FindOrder(db.State(), id) else old(options.Row())
    {
      if options.model == null {
        var found := GetOne(id);
        if found.Some? { options.model := new Record(found.value); }
      }
    }

    /** AbstractService.update: the patch is assigned into the shared model, and the whole model is saved. */
    method Update(id: nat, patch: Patch, options: Options<Order>) returns (r: Result<Order, Failure>)
      modifies db`orders, options, options.model
      ensures KeepsModel(options)
      ensures var m := if old(options.Row()).None? then FindOrder(old(db.State()), id) else old(options.Row());
        if m.None? || m.value.id != id
        then r == Err(OrderMissing) && db.State() == old(db.State()) && options.Row() == m
        else r == Ok(Assign(m.value, patch)) && db.State() == SetOrder(old(db.State()), r.value)
             && options.Row() == Some(r.value)
    {
      Load(id, options);
      if options.model == null || options.model.row.id != id { return Err(OrderMissing); }
      options.model.row := Assign(options.model.row, patch);
      db.orders := db.orders[id := options.model.row];
      r := Ok(options.model.row);
    }

    method CreateHistory(h: History)
      modifies db`history
      ensures db.State() == Log(old(db.State()), h)
    {
      db.history := db.history + [h];
    }

    /** The first half of changeStatus: the model loaded and, unless told otherwise, its change validated. */
    method LoadAndValidate(id: nat, target: OrderStatus, skip: bool, options: Options<Order>)
      returns (error: Option<Failure>)
      modifies options
      ensures KeepsModel(options) && db.State() == old(db.State())
      ensures options.Row() == if old(options.model) == null then FindOrder(db.State(), id) else old(options.Row())
      ensures match options.Row()
        case None => error == Some(NullModel)
        case Some(o) => error == if skip || target in OrderTransitions(o.status) then None else Some(TransitionRefused)
    {
      Load(id, options);
      if options.model == null { return Some(NullModel); }
      if !skip && target !in OrderTransitions(options.model.row.status) { return Some(TransitionRefused); }
      error := None;
    }

    /** afterStatusChange: every new status but SHIPPED goes into the log. */
    method AfterStatusChange(o: Order, target: OrderStatus)
      modifies db`history
      ensures db.State() ==
        if target == OrderStatus.Shipped then old(db.State())
        else Log(old(db.State()), History(o.id, Some(target), None))
    {
      if target != OrderStatus.Shipped { CreateHistory(History(o.id, Some(target), None)); }
    }

    /** changeStatus: load, validate, save, log; the one unlogged target is SHIPPED. */
    method ChangeStatus(id: nat, target: OrderStatus, skip: bool, options: Options<Order>)
      returns (r: Result<Order, Failure>)
      modifies db`orders, db`history, options, options.model
      ensures KeepsModel(options)
      ensures StatusEffect(db.State(), options.Row(), r) ==
        ShopSpec.ChangeStatus(old(db.State()), old(options.Row()), id, target, skip)
    {
      var error := LoadAndValidate(id, target, skip, options);
      if error.Some? { return Err(error.value); }
      AssignOne(options.model.row, target, NotRequired);
      r := Update(id, Patch(Some(target), None, None, Absent, None), options);
      if r.Ok? { AfterStatusChange(r.value, target); }
    }

    method ChangeShippingStatus(id: nat, target: ShippingStatus, options: Options<Order>)
      returns (r: Result<Order, Failure>)
      modifies db`orders, db`history, options, options.model
      ensures KeepsModel(options)
      ensures StatusEffect(db.State(), options.Row(), r) ==
        ChangeShipping(old(db.State()), old(options.Row()), id, target)
    {
      Load(id, options);
      if options.model == null { return Err(NullModel); }
      if target !in ShippingTransitions(options.model.row.shipping) { return Err(ShippingTransitionRefused); }
      r := Update(id, Patch(None, Some(target), None, Absent, None), options);
      if r.Err? { return r; }
      CreateHistory(History(id, None, Some(target)));
    }

    /** The order that an operation goes by: the caller's model, or the stored row. */
    ghost function Held(id: nat, options: Options<Order>): Option<Order>
      reads db, options, options.model
    {
      if options.model == null then FindOrder(db.State(), id) else options.Row()
    }

    /** peddingOrder and the operations after it: one guarded change each, told by where it may start. */
    method PeddingOrder(id: nat, options: Options<Order>) returns (r: Result<Order, Failure>)
      modifies db`orders, db`history, options, options.model
      ensures KeepsModel(options)
      ensures StatusEffect(db.State(), options.Row(), r) ==
        ShopSpec.ChangeStatus(old(db.State()), old(options.Row()), id, OrderStatus.Pending, false)
      ensures var m := old(Held(id, options));
        r.Ok? <==> m.Some? && m.value.id == id && m.value.status == Cart
    {
      r := ChangeStatus(id, OrderStatus.Pending, false, options);
    }

    method ConfirmedOrder(id: nat, options: Options<Order>) returns (r: Result<Order, Failure>)
      modifies db`orders, db`history, options, options.model
      ensures KeepsModel(options)
      ensures StatusEffect(db.State(), options.Row(), r) ==
        ShopSpec.ChangeStatus(old(db.State()), old(options.Row()), id, OrderStatus.Confirmed, false)
      ensures var m := old(Held(id, options));
        r.Ok? <==> m.Some? && m.value.id == id && m.value.status == OrderStatus.Pending
    {
      r := ChangeStatus(id, OrderStatus.Confirmed, false, options);
    }

    method ProcessingOrder(id: nat, options: Options<Order>) returns (r: Result<Order, Failure>)
      modifies db`orders, db`history, options, options.model
      ensures KeepsModel(options)
      ensures StatusEffect(db.State(), options.Row(), r) ==
        ShopSpec.ChangeStatus(old(db.State()), old(options.Row()), id, Processing, false)
      ensures var m := old(Held(id, options));
        r.Ok? <==> m.Some? && m.value.id == id && m.value.status in {OrderStatus.Confirmed, OnHold}
    {
      r := ChangeStatus(id, Processing, false, options);
    }

    method CompletedOrder(id: nat, options: Options<Order>) returns (r: Result<Order, Failure>)
      modifies db`orders, db`history, options, options.model
      ensures KeepsModel(options)
      ensures StatusEffect(db.State(), options.Row(), r) ==
        ShopSpec.ChangeStatus(old(db.State()), old(options.Row()), id, Completed, false)
      ensures var m := old(Held(id, options));
        r.Ok? <==> m.Some? && m.value.id == id && m.value.status == OrderStatus.Shipped
    {
      r := ChangeStatus(id, Completed, false, options);
    }

    method RefundedOrder(id: nat, options: Options<Order>) returns (r: Result<Order, Failure>)
      modifies db`orders, db`history, options, options.model
      ensures KeepsModel(options)
      ensures StatusEffect(db.State(), options.Row(), r) ==
        ShopSpec.ChangeStatus(old(db.State()), old(options.Row()), id, Refunded, false)
      ensures var m := old(Held(id, options));
        r.Ok? <==> m.Some? && m.value.id == id && m.value.status == Completed
    {
      r := ChangeStatus(id, Refunded, false, options);
    }

    method CancelledOrder(id: nat, options: Options<Order>) returns (r: Result<Order, Failure>)
      modifies db`orders, db`history, options, options.model
      ensures KeepsModel(options)
      ensures StatusEffect(db.State(), options.Row(), r) ==
        ShopSpec.ChangeStatus(old(db.State()), old(options.Row()), id, Cancelled, false)
      ensures var m := old(Held(id, options));
        r.Ok? <==> m.Some? && m.value.id == id
                   && m.value.status in {OrderStatus.Pending, OrderStatus.Confirmed, Processing, OnHold}
    {
      r := ChangeStatus(id, Cancelled, false, options);
    }

    method InTransitOrder(id: nat, options: Options<Order>) returns (r: Result<Order, Failure>)
      modifies db`orders, db`history, options, options.model
      ensures KeepsModel(options)
      ensures StatusEffect(db.State(), options.Row(), r) ==
        ChangeShipping(old(db.State()), old(options.Row()), id, InTransit)
      ensures var m := old(Held(id, options));
        r.Ok? <==> m.Some? && m.value.id == id && m.value.shipping == ShippingStatus.Shipped
    {
      r := ChangeShippingStatus(id, InTransit, options);
    }

    method DeliveredOrder(id: nat, options: Options<Order>) returns (r: Result<Order, Failure>)
      modifies db`orders, db`history, options, options.model
      ensures KeepsModel(options)
      ensures StatusEffect(db.State(), options.Row(), r) ==
        ChangeShipping(old(db.State()), old(options.Row()), id, Delivered)
      ensures var m := old(Held(id, options));
        r.Ok? <==> m.Some? && m.value.id == id && m.value.shipping == InTransit
    {
      r := ChangeShippingStatus(id, Delivered, options);
    }

    method ReturnedOrder(id: nat, options: Options<Order>) returns (r: Result<Order, Failure>)
      modifies db`orders, db`history, options, options.model
      ensures KeepsModel(options)
      ensures StatusEffect(db.State(), options.Row(), r) ==
        ChangeShipping(old(db.State()), old(options.Row()), id, Returned)
      ensures var m := old(Held(id, options));
        r.Ok? <==> m.Some? && m.value.id == id && m.value.shipping in {ShippingStatus.Shipped, InTransit, Delivered}
    {
      r := ChangeShippingStatus(id, Returned, options);
    }

    /** shippedOrder: both writes go through the one options object, so the second saves what the first assigned. */
    method ShippedOrder(id: nat, options: Options<Order>) returns (r: Result<Order, Failure>)
      modifies db`orders, db`history, options, options.model
      ensures KeepsModel(options)
      ensures StatusEffect(db.State(), options.Row(), r) == ShipOrder(old(db.State()), old(options.Row()), id)
      ensures var m := old(Held(id, options));
        r.Ok? <==> m.Some? && m.value.id == id && m.value.status == Processing
                   && m.value.shipping == ShippingStatus.Confirmed
    {
      r := ChangeStatus(id, OrderStatus.Shipped, false, options);
      if r.Err? { return r; }
      r := ChangeShippingStatus(id, ShippingStatus.Shipped, options);
    }

    /** summaryOrder: adds up the rows the database returned, in the order it returned them. */
    method SummaryOrder(order: Record<Order>)
      requires Identified(db.State()) && details.db == db
      modifies order
      ensures var c := SumCosts(db.lines, LinesOf(db.lines, old(order.row.id)));
        order.row == old(order.row).(totalCost := c.total, finalCost := c.final)
    {
      var rows := details.GetMany(order.row.id);
      AddUpIsSum(rows, db.lines, LinesOf(db.lines, order.row.id));
      var c := AddUp(rows);
      order.row := order.row.(totalCost := c.total);
      order.row := order.row.(finalCost := c.final);
    }

    /** updateOrder with no client data, as refreshOrder calls it. */
    method RefreshOrder(id: nat) returns (r: Result<Option<Order>, Failure>)
      requires Identified(db.State()) && details.db == db
      modifies db`orders
      ensures Effect(db.State(), r) == Refresh(old(db.State()), id)
    {
      var options := new Options<Order>(null);
      Load(id, options);
      if options.model == null || options.model.row.id != id { return Err(OrderMissing); }
      SummaryOrder(options.model);
      var costs := Costs(options.model.row.totalCost, options.model.row.finalCost);
      var saved := Update(id, Patch(None, None, None, Absent, Some(costs)), options);
      r := Ok(Some(saved.value));
    }

    /** createOrder without nested lines: the row is inserted with the client's totals, then summed up and saved
        again. */
    method CreateOrder(data: NewOrder) returns (o: Order)
      modifies db`orders, db`nextOrder
      ensures var t := old(db.State());
        o == Order(t.nextOrder, data.code, data.customer, data.status, data.shipping, 0, 0, Overwrite(None, data.note))
        && db.State() == t.(orders := t.orders[o.id := o], nextOrder := t.nextOrder + 1)
    {
      var record := new Record(
        Order(db.nextOrder, data.code, data.customer, data.status, data.shipping, data.totalCost, data.finalCost,
              Overwrite(None, data.note)));
      db.orders := db.orders[db.nextOrder := record.row];
      db.nextOrder := db.nextOrder + 1;
      var costs := AddUp([]);
      record.row := record.row.(totalCost := costs.total, finalCost := costs.final);
      db.orders := db.orders[record.row.id := record.row];
      o := record.row;
    }
  }
}
