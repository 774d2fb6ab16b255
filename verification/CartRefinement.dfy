/** A cart is a map: the rows and row ids of every run implement a plain map from key to
    (quantity, price at the last add), and the stored totals are that map's worth. */
module CartRefinement {
  import opened Wrappers
  import opened Tables
  import opened ShopSpec
  import opened ShopRuns

  datatype Item = Item(quantity: int, price: int) {
    function Cost(): int { price * quantity }
  }

  type CartMap = map<Key, Item>

  function ItemOf(l: Line): Item {
    Item(l.quantity, l.price)
  }

  /** The live rows of order c under one key: at most one, keys being unique. */
  ghost function Live(lines: map<nat, Line>, c: nat, k: Key): set<nat> {
    Matches(lines, c, k) * LinesOf(lines, c)
  }

  /** What the rows of order c say about a key. */
  ghost function Look(lines: map<nat, Line>, c: nat, k: Key): Option<Item> {
    if Live(lines, c, k) == {} then None else Some(ItemOf(lines[Any(Live(lines, c, k))]))
  }

  function Get(m: CartMap, k: Key): Option<Item> {
    if k in m then Some(m[k]) else None
  }

  /** The rows of order c stand for the map m: both say the same about every key. */
  ghost predicate Represents(lines: map<nat, Line>, c: nat, m: CartMap) {
    forall k :: Look(lines, c, k) == Get(m, k)
  }

  /** Every order stands for a map, and for one only; a fresh order stands for the empty one. */
  lemma EveryOrderIsAMap(lines: map<nat, Line>, c: nat) returns (m: CartMap)
    ensures Represents(lines, c, m)
    ensures forall n :: Represents(lines, c, n) ==> n == m
    ensures LinesOf(lines, c) == {} ==> m == map[]
  {
    var keys := set l | l in LinesOf(lines, c) :: lines[l].key;
    m := map k | k in keys && Look(lines, c, k).Some? :: Look(lines, c, k).value;
    forall k
      ensures Look(lines, c, k) == Get(m, k)
    {
      if Live(lines, c, k) != {} {
        assert lines[Any(Live(lines, c, k))].key == k;
      }
    }
    forall n | Represents(lines, c, n)
      ensures n == m
    {
      assert forall k :: Get(n, k) == Look(lines, c, k) == Get(m, k);
      assert forall k :: k in n <==> Get(n, k).Some?;
      assert forall k :: k in m <==> Get(m, k).Some?;
      assert n.Keys == m.Keys;
      assert forall k :: k in n ==> n[k] == Get(n, k).value == m[k];
    }
  }

  // ---------------------------------------------------------------- refinement

  /** One cart seen abstractly, beside the prices in force. */
  datatype Shelf = Shelf(prices: map<int, int>, items: CartMap)

  /** The plain map's reading of an action: add is map update at the current price, remove is key
      deletion, clear is the empty map, and everything else leaves the map alone. */
  ghost function ShelfStep(s: Shelf, c: nat, a: Action): Shelf {
    match a
    case Reprice(prices) => s.(prices := prices)
    case Add(_, cart, key, ask) =>
      if cart == Some(c) && key.unit in s.prices
      then s.(items := s.items[key := Item(ask.quantity, s.prices[key.unit])])
      else s
    case Remove(_, cart, key) => if cart == Some(c) then s.(items := s.items - {key}) else s
    case Clear(_, cart) => if cart == Some(c) then s.(items := map[]) else s
    case _ => s
  }

  ghost function ShelfRun(s: Shelf, c: nat, run: seq<Action>): Shelf
    decreases |run|
  {
    if run == [] then s else ShelfRun(ShelfStep(s, c, run[0]), c, run[1..])
  }

  ghost predicate Implements(t: Tables, c: nat, s: Shelf) {
    t.units == s.prices && Represents(t.lines, c, s.items)
  }

  lemma PutIsUpdate(t: Tables, u: Tables, c: nat, key: Key, id: nat, row: Line, x: nat, k: Key)
    requires IsPut(t, u, c, key, id, row) && UniqueKeys(u.lines)
    ensures Look(u.lines, x, k) == if x == c && k == key then Some(ItemOf(row)) else Look(t.lines, x, k)
  {
    if x == c && k == key {
      assert id in Live(u.lines, x, k);
    } else {
      assert Live(u.lines, x, k) == Live(t.lines, x, k);
    }
  }

  lemma AddRefines(t: Tables, cart: Option<nat>, key: Key, ask: Ask, c: nat, s: Shelf)
    requires Inv(t) && (cart.Some? ==> cart.value in t.orders) && Implements(t, c, s)
    ensures Implements(AddToCart(t, cart, key, ask).after, c, ShelfStep(s, c, Add("", cart, key, ask)))
  {
    if cart.Some? && key.unit in t.units {
      var u := PutLine(t, cart.value, key, ask).value;
      var id, row := PutLineShape(t, cart.value, key, ask);
      PutKeepsUniqueKeys(t, u, cart.value, key, id, row);
      forall k
        ensures Look(u.lines, c, k) == Get(ShelfStep(s, c, Add("", cart, key, ask)).items, k)
      {
        PutIsUpdate(t, u, cart.value, key, id, row, c, k);
      }
    }
  }

  /** Dropping rows of order x that hold exactly the given keys drops those keys and no others. */
  lemma DropIsDeletion(lines: map<nat, Line>, x: nat, gone: set<nat>, keys: set<Key>, c: nat, k: Key)
    requires gone <= LinesOf(lines, x)
    requires forall l :: l in LinesOf(lines, x) ==> (l in gone <==> lines[l].key in keys)
    ensures Look(lines - gone, c, k) == if c == x && k in keys then None else Look(lines, c, k)
  {
    if c == x && k in keys {
      assert Live(lines - gone, c, k) == {};
    } else {
      assert Live(lines - gone, c, k) == Live(lines, c, k);
    }
  }

  lemma RemoveRefines(t: Tables, cart: Option<nat>, key: Key, c: nat, s: Shelf)
    requires Inv(t) && Implements(t, c, s)
    ensures Implements(RemoveFromCart(t, cart, key).after, c, ShelfStep(s, c, Remove("", cart, key)))
  {
    if cart.Some? {
      var x := cart.value;
      var live := Live(t.lines, x, key);
      var u := RemoveFromCart(t, cart, key).after;
      forall k
        ensures Look(u.lines, c, k) == Get(ShelfStep(s, c, Remove("", cart, key)).items, k)
      {
        assert Look(t.lines, c, k) == Get(s.items, k);
        if live != {} {
          assert Any(live) in live;
          DropIsDeletion(t.lines, x, {Any(live)}, {key}, c, k);
        }
      }
    }
  }

  lemma ClearRefines(t: Tables, cart: Option<nat>, c: nat, s: Shelf)
    requires Inv(t) && Implements(t, c, s)
    ensures Implements(ClearCart(t, cart).after, c, ShelfStep(s, c, Clear("", cart)))
  {
    if cart.Some? {
      var x := cart.value;
      var u := ClearCart(t, cart).after;
      var keys := set l | l in LinesOf(t.lines, x) :: t.lines[l].key;
      forall k
        ensures Look(u.lines, c, k) == Get(ShelfStep(s, c, Clear("", cart)).items, k)
      {
        assert Look(t.lines, c, k) == Get(s.items, k);
        DropIsDeletion(t.lines, x, LinesOf(t.lines, x), keys, c, k);
        assert c == x && k !in keys ==> Live(t.lines, c, k) == {};
      }
    }
  }

  lemma PlaceRefines(t: Tables, c: nat, x: nat, generated: string, to: CheckoutInput, insertion: seq<nat>, m: CartMap)
    requires Inv(t) && x in t.orders && Represents(t.lines, c, m)
    ensures Represents(Checkout(t, Some(x), generated, to, insertion).after.lines, c, m)
  {
    var u := FanOut(t, insertion, to);
    assert Checkout(t, Some(x), generated, to, insertion).after.lines == u.lines;
    forall k
      ensures Look(u.lines, c, k) == Get(m, k)
    {
      assert Look(t.lines, c, k) == Get(m, k);
      assert Live(u.lines, c, k) == Live(t.lines, c, k);
    }
  }

  lemma StepRefines(t: Tables, a: Action, c: nat, s: Shelf)
    requires Inv(t) && Enabled(t, a) && Implements(t, c, s)
    ensures Implements(Apply(t, a), c, ShelfStep(s, c, a))
  {
    match a {
      case Add(_, cart, key, ask) => AddRefines(t, cart, key, ask, c, s);
      case Remove(_, cart, key) => RemoveRefines(t, cart, key, c, s);
      case Clear(_, cart) => ClearRefines(t, cart, c, s);
      case Place(_, cart, generated, to, insertion) =>
        if cart.Some? { PlaceRefines(t, c, cart.value, generated, to, insertion, s.items); }
      case _ =>
    }
  }

  /** Over every run and for every order, the rows implement the plain map: whatever map they stand
      for at the start, they stand at the end for the map that the plain operations reach from it. */
  lemma {:induction false} RunRefines(t: Tables, run: seq<Action>, c: nat, s: Shelf)
    requires Inv(t) && CanRun(t, run) && Implements(t, c, s)
    ensures Implements(Run(t, run), c, ShelfRun(s, c, run))
    decreases |run|
  {
    if run != [] {
      ApplyKeepsInv(t, run[0]);
      StepRefines(t, run[0], c, s);
      RunRefines(Apply(t, run[0]), run[1..], c, ShelfStep(s, c, run[0]));
    }
  }

  /** Which operations on an open cart fail, told by its map alone: an add for an unknown unit, a removal of a key the
      map does not hold, and nothing else. A failure leaves every table as it was. */
  lemma FailsExactlyWhen(t: Tables, c: nat, key: Key, ask: Ask, m: CartMap,
                         generated: string, to: CheckoutInput, insertion: seq<nat>)
    requires Inv(t) && c in t.orders && Represents(t.lines, c, m)
    ensures AddToCart(t, Some(c), key, ask) == Effect(t, Err(UnitMissing)) <==> key.unit !in t.units
    ensures AddToCart(t, Some(c), key, ask).outcome.Ok? <==> key.unit in t.units
    ensures RemoveFromCart(t, Some(c), key) == Effect(t, Err(LineMissing)) <==> key !in m
    ensures RemoveFromCart(t, Some(c), key).outcome.Ok? <==> key in m
    ensures ClearCart(t, Some(c)).outcome.Ok? && Checkout(t, Some(c), generated, to, insertion).outcome.Ok?
  {
    assert Look(t.lines, c, key) == Get(m, key);
  }

  // ---------------------------------------------------------------- money

  ghost function Worth(m: CartMap): int
    decreases m.Keys
  {
    if m == map[] then 0
    else
      var k :| k in m;
      Worth(m - {k}) + m[k].Cost()
  }

  lemma {:induction false} WorthSplit(m: CartMap, k: Key)
    requires k in m
    ensures Worth(m) == Worth(m - {k}) + m[k].Cost()
    decreases m.Keys
  {
    var first :| first in m && Worth(m) == Worth(m - {first}) + m[first].Cost();
    if first != k {
      WorthSplit(m - {first}, k);
      WorthSplit(m - {k}, first);
      assert m - {first} - {k} == m - {k} - {first};
    }
  }

  lemma LiveKeyIsMapped(lines: map<nat, Line>, c: nat, m: CartMap, l: nat)
    requires Represents(lines, c, m) && l in LinesOf(lines, c)
    ensures lines[l].key in m
  {
    assert l in Live(lines, c, lines[l].key);
    assert Look(lines, c, lines[l].key) == Get(m, lines[l].key);
  }

  lemma {:induction false} SumIsWorth(lines: map<nat, Line>, c: nat, m: CartMap)
    requires UniqueKeys(lines) && LinesAddUp(lines) && Represents(lines, c, m)
    ensures SumCosts(lines, LinesOf(lines, c)) == Costs(Worth(m), Worth(m))
    decreases m.Keys
  {
    var ids := LinesOf(lines, c);
    if m == map[] {
      forall l | l in ids
        ensures lines[l].key in m
      {
        LiveKeyIsMapped(lines, c, m, l);
      }
      assert ids == {};
    } else {
      var k :| k in m;
      assert Look(lines, c, k) == Get(m, k);
      var l := Any(Live(lines, c, k));
      var left := lines - {l};
      forall q
        ensures Look(left, c, q) == Get(m - {k}, q)
      {
        assert Look(lines, c, q) == Get(m, q);
        DropIsDeletion(lines, c, {l}, {k}, c, q);
      }
      SumIsWorth(left, c, m - {k});
      assert LinesOf(left, c) == ids - {l};
      SumCostsSplit(lines, ids, l);
      SumCostsFrame(lines, left, ids - {l});
      WorthSplit(m, k);
    }
  }

  /** The stored totals of every order are the worth of its map. */
  lemma TotalsAreWorth(t: Tables, c: nat, m: CartMap)
    requires Inv(t) && c in t.orders && Represents(t.lines, c, m)
    ensures t.orders[c].totalCost == t.orders[c].finalCost == Worth(m)
  {
    SumIsWorth(t.lines, c, m);
    assert OrderAddsUp(t.orders[c], t.lines);
  }

  function CostAt(m: CartMap, k: Key): int {
    if k in m then m[k].Cost() else 0
  }

  lemma WorthUpdate(m: CartMap, k: Key, item: Item)
    ensures Worth(m[k := item]) == Worth(m) - CostAt(m, k) + item.Cost()
  {
    WorthSplit(m[k := item], k);
    assert m[k := item] - {k} == m - {k};
    if k in m { WorthSplit(m, k); } else { assert m - {k} == m; }
  }

  /** Conservation over whole runs: from any good tables, after any run, each line's total and final
      cost are price times quantity and each order's totals are the worth that the plain map reaches. */
  lemma MoneyConserved(t: Tables, run: seq<Action>, c: nat, s: Shelf)
    requires Inv(t) && CanRun(t, run) && Implements(t, c, s) && c in Run(t, run).orders
    ensures var u := Run(t, run);
      && (forall l :: l in u.lines ==> LineAddsUp(u.lines[l]))
      && u.orders[c].totalCost == u.orders[c].finalCost == Worth(ShelfRun(s, c, run).items)
  {
    RunKeepsInv(t, run);
    RunRefines(t, run, c, s);
    TotalsAreWorth(Run(t, run), c, ShelfRun(s, c, run).items);
  }

  /** From an empty database every run leaves each order worth the map that its adds, removals and clears alone
      describe, starting from the empty one. */
  lemma MoneyFromNothing(prices: map<int, int>, run: seq<Action>, c: nat)
    requires CanRun(Tables(map[], map[], [], [], prices, 0, 0), run)
    requires c in Run(Tables(map[], map[], [], [], prices, 0, 0), run).orders
    ensures var u := Run(Tables(map[], map[], [], [], prices, 0, 0), run);
      var items := ShelfRun(Shelf(prices, map[]), c, run).items;
      Represents(u.lines, c, items) && u.orders[c].totalCost == u.orders[c].finalCost == Worth(items)
  {
    var t := Tables(map[], map[], [], [], prices, 0, 0);
    EmptyIsGood(prices);
    var m := EveryOrderIsAMap(t.lines, c);
    RunRefines(t, run, c, Shelf(prices, map[]));
    MoneyConserved(t, run, c, Shelf(prices, map[]));
  }

  /** An add moves the order's total by the new line's cost minus the old one's. */
  lemma AddMovesTotal(t: Tables, c: nat, key: Key, ask: Ask, m: CartMap)
    requires Inv(t) && c in t.orders && key.unit in t.units && Represents(t.lines, c, m)
    ensures var u := AddToCart(t, Some(c), key, ask).after;
      c in u.orders
      && u.orders[c].totalCost == t.orders[c].totalCost - CostAt(m, key) + t.units[key.unit] * ask.quantity
  {
    var u := AddToCart(t, Some(c), key, ask).after;
    var item := Item(ask.quantity, t.units[key.unit]);
    AddRefines(t, Some(c), key, ask, c, Shelf(t.units, m));
    AddKeeps(t, Some(c), key, ask);
    TotalsAreWorth(t, c, m);
    TotalsAreWorth(u, c, m[key := item]);
    WorthUpdate(m, key, item);
  }

  lemma PutNew(t: Tables, u: Tables, c: nat, key: Key, id: nat, row: Line)
    requires IsPut(t, u, c, key, id, row) && NoneSoftDeleted(t.lines) && Look(t.lines, c, key) == None
    ensures id == t.nextLine && id !in t.lines && Live(u.lines, c, key) == {id}
  {
    assert forall l :: l in t.lines ==> l !in Live(t.lines, c, key);
  }

  lemma RefreshOfSummedUp(t: Tables, u: Tables, c: nat)
    requires Inv(t) && c in t.orders && u.lines == t.lines && c in u.orders && u.orders == t.orders[c := u.orders[c]]
    requires u.orders[c] == t.orders[c].(totalCost := u.orders[c].totalCost, finalCost := u.orders[c].finalCost)
    ensures Refresh(u, c).after == u.(orders := t.orders)
  {
    assert OrderAddsUp(t.orders[c], t.lines);
    assert t.orders[c := t.orders[c]] == t.orders;
  }

  /** Adding a key the cart does not hold and removing it again restores every table;
      only the row id that the insert used up is gone. */
  lemma AddThenRemove(t: Tables, c: nat, key: Key, ask: Ask)
    requires Inv(t) && c in t.orders && key.unit in t.units && Look(t.lines, c, key) == None
    ensures var added := AddToCart(t, Some(c), key, ask).after;
      RemoveFromCart(added, Some(c), key).after == t.(nextLine := t.nextLine + 1)
  {
    var put := PutLine(t, c, key, ask).value;
    var id, row := PutLineShape(t, c, key, ask);
    PutNew(t, put, c, key, id, row);
    var added := AddToCart(t, Some(c), key, ask).after;
    assert added.lines == put.lines && Live(added.lines, c, key) == {id};
    var dropped := added.(lines := added.lines - {id});
    assert dropped.lines == t.lines;
    RefreshOfSummedUp(t, dropped, c);
  }

  /** The row that an add leaves behind, column by column: the client's quantity, the unit's current price and what
      they cost, no fees, the client's note and statuses, or where it gave none those that were there. Nothing else
      changes but the order's totals. */
  lemma AddWrites(t: Tables, c: nat, key: Key, ask: Ask) returns (id: nat)
    requires Inv(t) && c in t.orders && key.unit in t.units
    ensures if id in t.lines then t.lines[id].order == c && t.lines[id].key == key
            else id == t.nextLine && NoLine(t.lines, c, key)
    ensures var price, present := t.units[key.unit], id in t.lines;
      var status := if ask.status.Some? then ask.status.value
                    else if present then t.lines[id].status else OrderStatus.Pending;
      var shipping := if ask.shipping.Some? then ask.shipping.value
                      else if present then t.lines[id].shipping else NotRequired;
      var note := if ask.note.Given? then Some(ask.note.value)
                  else if ask.note.Absent? && present then t.lines[id].note else None;
      var row := Line(
        id, c, key, ask.quantity, price, price * ask.quantity, 0, 0, 0, price * ask.quantity,
        status, shipping, false, note);
      var u := AddToCart(t, Some(c), key, ask).after;
      && c in u.orders
      && u == t.(lines := t.lines[id := row], nextLine := if present then t.nextLine else id + 1,
                 orders := t.orders[c := t.orders[c].(totalCost := u.orders[c].totalCost,
                                                      finalCost := u.orders[c].finalCost)])
  {
    var ids := Matches(t.lines, c, key);
    id := if ids != {} then Any(ids) else t.nextLine;
    assert ids == {} ==> forall l :: l in t.lines ==> l !in ids;
  }

  /** Where a soft-deleted row with the same key exists, an add writes to it and leaves it deleted: the field
      names the code resets are not the columns'. An add shows up in the cart exactly when no such row is hit. */
  lemma AddShowsUp(t: Tables, c: nat, key: Key, ask: Ask)
    requires UniqueKeys(t.lines) && LinesIdentified(t.lines, t.nextLine, t.orders.Keys)
    requires key.unit in t.units
    ensures PutLine(t, c, key, ask).Ok?
    ensures var u := PutLine(t, c, key, ask).value;
      (Look(u.lines, c, key) == Some(Item(ask.quantity, t.units[key.unit]))) <==>
      (forall l :: l in Matches(t.lines, c, key) ==> !t.lines[l].deleted)
  {
    var u := PutLine(t, c, key, ask).value;
    var ids := Matches(t.lines, c, key);
    if ids == {} {
      assert Live(u.lines, c, key) == {t.nextLine} by {
        assert forall l :: l in t.lines ==> l !in ids;
      }
    } else {
      var l := Any(ids);
      assert ids == {l};
      assert Live(u.lines, c, key) == if t.lines[l].deleted then {} else {l};
    }
  }
}
