/** Lines of an order: find-or-overwrite, and the price summary. */
module OrderDetails {
  import opened Wrappers
  import opened Tables
  import opened ShopSpec
  import opened Records
  import opened CartRefinement

  /** The client's part of a line. */
  datatype LineInput = LineInput(order: nat, key: Key, ask: Ask)

  class OrderDetailService {
    const db: Database

    constructor (db: Database)
      ensures this.db == db
    {
      this.db := db;
    }

    /** getOne by key; only an add asks for soft-deleted rows as well. */
    method GetOne(order: nat, key: Key, withDeleted: bool) returns (found: Option<Line>)
      ensures match found
        case Some(l) =>
          exists id :: id in Matches(db.lines, order, key) && db.lines[id] == l && (withDeleted || !l.deleted)
        case None =>
          (if withDeleted then Matches(db.lines, order, key)
           else Matches(db.lines, order, key) * LinesOf(db.lines, order)) == {}
    {
      if id :| id in db.lines && db.lines[id].order == order && db.lines[id].key == key
               && (withDeleted || !db.lines[id].deleted) {
        found := Some(db.lines[id]);
      } else {
        found := None;
      }
    }

    /** getMany by order: the live lines, in whatever order the database returns them. */
    method GetMany(order: nat) returns (rows: seq<Line>)
      requires Identified(db.State())
      ensures forall i :: 0 <= i < |rows| ==> rows[i].id in db.lines && rows[i] == db.lines[rows[i].id]
      ensures Lists(Ids(rows), LinesOf(db.lines, order))
    {
      var listing := ListIds(set id | id in db.lines && db.lines[id].order == order && !db.lines[id].deleted);
      rows := [];
      for i := 0 to |listing|
        invariant Ids(rows) == listing[..i]
        invariant forall j :: 0 <= j < |rows| ==> rows[j].id in db.lines && rows[j] == db.lines[rows[j].id]
      {
        assert listing[i] in LinesOf(db.lines, order);
        rows := rows + [db.lines[listing[i]]];
      }
    }

    /** fetchPrices: an unknown conversion unit is a domain error. */
    method FetchPrices(unit: int) returns (r: Result<map<int, int>, Failure>)
      ensures unit in db.units ==> r == Ok(map[unit := db.units[unit]])
      ensures unit !in db.units ==> r == Err(UnitMissing)
    {
      r := if unit in db.units then Ok(map[unit := db.units[unit]]) else Err(UnitMissing);
    }

    /** summaryOrderDetail: writes the price and every cost field of the record in place. */
    method Summarise(line: Record<Line>, prices: map<int, int>)
      modifies line
      ensures var unit := old(line.row).key.unit;
        line.row == Priced(old(line.row), if unit in prices then prices[unit] else 0)
    {
      var price := if line.row.key.unit in prices then prices[line.row.key.unit] else 0;
      var serviceFee, tax, discount := 0, 0, 0;
      var totalCost := price * line.row.quantity;
      var finalCost := totalCost + serviceFee + tax - discount;
      line.row := line.row.(price := price);
      line.row := line.row.(totalCost := totalCost);
      line.row := line.row.(serviceFee := serviceFee, tax := tax, discount := discount);
      line.row := line.row.(finalCost := finalCost);
    }

    /** updateOrderDetail: check the owner and the model, assign into the shared model, re-read the price, save.
        Every check comes before the one write to the tables, but the last one after the model has been changed. */
    method UpdateOrderDetail(id: nat, data: LineInput, owner: Option<nat>, options: Options<Line>)
      returns (r: Result<Line, Failure>)
      modifies db`lines, options, options.model
      ensures KeepsModel(options)
      ensures var before, model := old(db.State()), old(options.Row());
        var stranger := if owner.Some? then owner.value != data.order else data.order !in before.orders;
        var m := if model.None? then FindLine(before, id) else model;
        if stranger then r == Err(LineMissing) && db.State() == before && options.Row() == model
        else if m.None? || m.value.id != id then r == Err(LineMissing) && db.State() == before && options.Row() == m
        else
          var written := Written(m.value.(order := data.order, key := data.key), data.ask);
          if data.key.unit !in before.units
          then r == Err(UnitMissing) && db.State() == before && options.Row() == Some(written)
          else
            var l := Priced(written, before.units[data.key.unit]);
            r == Ok(l) && db.State() == before.(lines := before.lines[id := l]) && options.Row() == Some(l)
    {
      if if owner.Some? then owner.value != data.order else data.order !in db.orders { return Err(LineMissing); }
      if options.model == null && id in db.lines && !db.lines[id].deleted {
        options.model := new Record(db.lines[id]);
      }
      if options.model == null || options.model.row.id != id { return Err(LineMissing); }
      options.model.row := Written(options.model.row.(order := data.order, key := data.key), data.ask);
      var prices := FetchPrices(data.key.unit);
      if prices.Err? { return Err(prices.error); }
      Summarise(options.model, prices.value);
      db.lines := db.lines[id := options.model.row];
      r := Ok(options.model.row);
    }

    /** createOrderDetail: overwrite the row with the same key in the given order, or insert one there. Without an
        order it fails, even when the one the data names exists; data that names another order fails only on an
        overwrite. The line shows in the order afterwards unless the row was a soft-deleted one, which stays
        deleted. */
    method CreateOrderDetail(data: LineInput, owner: Option<nat>) returns (r: Result<Line, Failure>)
      requires Identified(db.State()) && UniqueKeys(db.lines)
      modifies db`lines, db`nextLine
      ensures owner.None? ==> r == Err(OrderMissing) && db.State() == old(db.State())
      ensures owner.Some? ==>
        if owner.value != data.order && Matches(old(db.lines), owner.value, data.key) != {}
        then r == Err(LineMissing) && db.State() == old(db.State())
        else
          match PutLine(old(db.State()), owner.value, data.key, data.ask)
          case Ok(put) => r.Ok? && db.State() == put
          case Err(e) => r == Err(e) && db.State() == old(db.State())
      ensures owner.Some? && r.Ok? ==>
        && r.value.id in db.lines && db.lines[r.value.id] == r.value
        && (Look(db.lines, owner.value, data.key) == Some(ItemOf(r.value)) <==>
            forall l :: l in Matches(old(db.lines), owner.value, data.key) ==> !old(db.lines)[l].deleted)
    {
      if owner.None? { return Err(OrderMissing); }
      var present := GetOne(owner.value, data.key, true);
      if data.key.unit in db.units { AddShowsUp(db.State(), owner.value, data.key, data.ask); }
      if present.Some? {
        var model := new Record(present.value);
        var options := new Options(model);
        assert Any(Matches(db.lines, owner.value, data.key)) == present.value.id;
        r := UpdateOrderDetail(present.value.id, data, owner, options);
      } else {
        var prices := FetchPrices(data.key.unit);
        if prices.Err? { return Err(prices.error); }
        var line := new Record(Written(BlankLine(db.nextLine, owner.value, data.key), data.ask));
        Summarise(line, prices.value);
        db.lines := db.lines[db.nextLine := line.row];
        db.nextLine := db.nextLine + 1;
        r := Ok(line.row);
      }
    }

    /** hardDelete: the shared model's row goes for good; without a model the row is loaded, which a soft-deleted one
        cannot be. */
    method HardDelete(id: nat, options: Options<Line>) returns (r: Result<Line, Failure>)
      modifies db`lines, options
      ensures KeepsModel(options)
      ensures var before, model := old(db.State()), old(options.Row());
        var m := if model.None? then FindLine(before, id) else model;
        if m.None? || m.value.id != id then r == Err(LineMissing) && db.State() == before
        else r == Ok(m.value) && db.State() == before.(lines := before.lines - {id})
    {
      if options.model == null && id in db.lines && !db.lines[id].deleted {
        options.model := new Record(db.lines[id]);
      }
      if options.model == null || options.model.row.id != id { return Err(LineMissing); }
      db.lines := db.lines - {options.model.row.id};
      r := Ok(options.model.row);
    }

    /** bulkHardDelete: a row stays exactly when no given row has its id, and then as it was. */
    method BulkHardDelete(rows: seq<Line>)
      modifies db`lines
      ensures db.State() == old(db.State()).(lines := db.lines)
      ensures forall l :: l in db.lines <==> l in old(db.lines) && l !in Ids(rows)
      ensures forall l :: l in db.lines ==> db.lines[l] == old(db.lines)[l]
    {
      db.lines := db.lines - set row | row in rows :: row.id;
      assert forall l :: l in Ids(rows) <==> exists row :: row in rows && row.id == l by { IdsOfRows(rows); }
    }
  }
}
