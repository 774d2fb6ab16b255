/** Sorting and slicing of a query's result: the defaults, the tie-breaker, the pages and their metadata. */
module Paging {
  import opened Wrappers

  datatype Direction = Asc | Desc

  /** A sort specification: columns in order of weight, each once. */
  type Order = seq<(string, Direction)>

  /** A row as sorting sees it: its id and the rank of its value in every column. */
  datatype Row = Row(id: int, columns: map<string, int>)

  function Rank(r: Row, column: string): int {
    if column == "id" then r.id else if column in r.columns then r.columns[column] else 0
  }

  /** Columns of one object are distinct. */
  ghost predicate DistinctColumns(o: Order) {
    forall i, j :: 0 <= i < j < |o| ==> o[i].0 != o[j].0
  }

  // ---------------------------------------------------------------- the query, filled in place

  function Lookup(o: Order, column: string): Option<Direction> {
    if o == [] then None else if o[0].0 == column then Some(o[0].1) else Lookup(o[1..], column)
  }

  function Without(o: Order, columns: set<string>): Order {
    if o == [] then [] else (if o[0].0 in columns then [] else [o[0]]) + Without(o[1..], columns)
  }

  function Or<T>(o: Option<T>, default: T): T {
    match o
    case Some(v) => v
    case None => default
  }

  /** The two defaults keep their places even where the client overrides their direction, and the client's other
      columns come behind them in the client's order. */
  function Effective(client: Order): Order {
    [("created_at", Or(Lookup(client, "created_at"), Desc)), ("id", Or(Lookup(client, "id"), Desc))]
    + Without(client, {"created_at", "id"})
  }

  /** Writing a property: an existing one keeps its place, a new one goes to the end. */
  function Put(o: Order, entry: (string, Direction)): Order {
    if o == [] then [entry] else if o[0].0 == entry.0 then [entry] + o[1..] else [o[0]] + Put(o[1..], entry)
  }

  /** Spreading one object into another: its properties written one by one. */
  function Spread(o: Order, over: Order): Order
    decreases |over|
  {
    if over == [] then o else Spread(Put(o, over[0]), over[1..])
  }

  lemma {:induction false} PutNew(front: Order, entry: (string, Direction))
    requires forall i :: 0 <= i < |front| ==> front[i].0 != entry.0
    ensures Put(front, entry) == front + [entry]
  {
    if front != [] { PutNew(front[1..], entry); }
  }

  lemma PutFirst(head: (string, Direction), rest: Order, entry: (string, Direction))
    ensures Put([head] + rest, entry) == if head.0 == entry.0 then [entry] + rest else [head] + Put(rest, entry)
  {
    assert ([head] + rest)[1..] == rest;
  }

  lemma PutThird(first: (string, Direction), second: (string, Direction), tail: Order, entry: (string, Direction))
    requires first.0 != entry.0 && second.0 != entry.0 && forall i :: 0 <= i < |tail| ==> tail[i].0 != entry.0
    ensures Put([first, second] + tail, entry) == [first, second] + (tail + [entry])
  {
    assert [first, second] + tail == [first] + ([second] + tail);
    PutFirst(first, [second] + tail, entry);
    PutFirst(second, tail, entry);
    PutNew(tail, entry);
    assert [first] + ([second] + (tail + [entry])) == [first, second] + (tail + [entry]);
  }

  lemma PutSecond(first: (string, Direction), second: (string, Direction), tail: Order, entry: (string, Direction))
    requires first.0 != entry.0 == second.0
    ensures Put([first, second] + tail, entry) == [first, entry] + tail
  {
    assert [first, second] + tail == [first] + ([second] + tail);
    PutFirst(first, [second] + tail, entry);
    PutFirst(second, tail, entry);
    assert [first] + ([entry] + tail) == [first, entry] + tail;
  }

  /** What one written property does to the defaults and the columns behind them. */
  lemma PutOverDefaults(created: Direction, id: Direction, tail: Order, entry: (string, Direction))
    requires forall i :: 0 <= i < |tail| ==> tail[i].0 != entry.0
    ensures Put([("created_at", created), ("id", id)] + tail, entry) ==
      if entry.0 == "created_at" then [entry, ("id", id)] + tail
      else if entry.0 == "id" then [("created_at", created), entry] + tail
      else [("created_at", created), ("id", id)] + (tail + [entry])
  {
    var first, second := ("created_at", created), ("id", id);
    if entry.0 == "created_at" {
      assert [first, second] + tail == [first] + ([second] + tail);
      PutFirst(first, [second] + tail, entry);
      assert [entry] + ([second] + tail) == [entry, second] + tail;
    } else if entry.0 == "id" {
      PutSecond(first, second, tail, entry);
    } else {
      PutThird(first, second, tail, entry);
    }
  }

  lemma {:induction false} NotThere(o: Order, column: string)
    requires forall i :: 0 <= i < |o| ==> o[i].0 != column
    ensures Lookup(o, column) == None
  {
    if o != [] { NotThere(o[1..], column); }
  }

  /** Spreading the client's order over the two defaults and what has come behind them already. */
  lemma {:induction false} SpreadOverDefaults(created: Direction, id: Direction, tail: Order, over: Order)
    requires DistinctColumns(over)
    requires forall i, j :: 0 <= i < |tail| && 0 <= j < |over| ==> tail[i].0 != over[j].0
    ensures Spread([("created_at", created), ("id", id)] + tail, over) ==
      [("created_at", Or(Lookup(over, "created_at"), created)), ("id", Or(Lookup(over, "id"), id))]
      + (tail + Without(over, {"created_at", "id"}))
    decreases |over|
  {
    if over == [] {
      assert tail + [] == tail;
    } else {
      var entry, rest := over[0], over[1..];
      PutOverDefaults(created, id, tail, entry);
      if entry.0 == "created_at" {
        NotThere(rest, "created_at");
        SpreadOverDefaults(entry.1, id, tail, rest);
        assert [] + Without(rest, {"created_at", "id"}) == Without(rest, {"created_at", "id"});
      } else if entry.0 == "id" {
        NotThere(rest, "id");
        SpreadOverDefaults(created, entry.1, tail, rest);
        assert [] + Without(rest, {"created_at", "id"}) == Without(rest, {"created_at", "id"});
      } else {
        SpreadOverDefaults(created, id, tail + [entry], rest);
        assert tail + [entry] + Without(rest, {"created_at", "id"})
            == tail + ([entry] + Without(rest, {"created_at", "id"}));
      }
    }
  }

  datatype Kind = Paged | All

  /** Every property is nullable for the client, and null is not the same as absent. */
  datatype Pagination = Pagination(page: Property<int>, limit: Property<int>, kind: Property<Kind>)

  /** Spreading one property over a default: only an absent one leaves the default. */
  function Over<T>(given: Property<T>, default: Property<T>): Property<T> {
    if given.Absent? then default else given
  }

  class Query {
    var pagination: Option<Pagination>
    var order: Order

    constructor (pagination: Option<Pagination>, order: Order)
      ensures this.pagination == pagination && this.order == order
    {
      this.pagination, this.order := pagination, order;
    }

    /** After this no page or limit is absent, but one that the client sent as null is still null. */
    method HandlePagination()
      modifies `pagination
      ensures pagination.Some? && !pagination.value.page.Absent? && !pagination.value.limit.Absent?
      ensures old(pagination).None? ==> pagination.value == Pagination(Given(1), Given(50), Absent)
      ensures old(pagination).Some? ==>
        var p, q := old(pagination).value, pagination.value;
        && (if p.page.Absent? then q.page == Given(1) else q.page == p.page)
        && (if p.limit.Absent? then q.limit == Given(50) else q.limit == p.limit)
        && q.kind == p.kind
    {
      var default := Pagination(Given(1), Given(50), Absent);
      match pagination {
        case None => pagination := Some(default);
        case Some(p) =>
          pagination := Some(
            Pagination(Over(p.page, default.page), Over(p.limit, default.limit), Over(p.kind, default.kind)));
      }
    }

    /** The defaults with the client's properties written over them come out as the effective order. */
    method HandleOrder()
      requires DistinctColumns(order)
      modifies `order
      ensures order == Effective(old(order))
    {
      SpreadOverDefaults(Desc, Desc, [], order);
      var default := [("created_at", Desc), ("id", Desc)];
      assert default + [] == default;
      assert [] + Without(order, {"created_at", "id"}) == Without(order, {"created_at", "id"});
      order := Spread(default, order);
    }
  }

  // ---------------------------------------------------------------- sorting

  /** a comes before b: the first column on which they differ decides. */
  predicate Before(o: Order, a: Row, b: Row) {
    o != [] &&
    var (x, y) := (Rank(a, o[0].0), Rank(b, o[0].0));
    if x == y then Before(o[1..], a, b) else if o[0].1 == Asc then x < y else x > y
  }

  /** The database's ORDER BY: no row stands behind one that it must precede. */
  ghost predicate Sorted(o: Order, rows: seq<Row>) {
    forall i, j :: 0 <= i < j < |rows| ==> !Before(o, rows[j], rows[i])
  }

  ghost predicate DistinctIds(rows: seq<Row>) {
    forall i, j :: 0 <= i < j < |rows| ==> rows[i].id != rows[j].id
  }

  /** The two columns that decide, whatever else the client asked for. */
  function Deciding(client: Order): Order {
    Effective(client)[..2]
  }

  /** Two rows with different ids are told apart by created_at and id alone, so any other column a client
      sorts by never matters. */
  lemma TieBreakerDecides(client: Order, a: Row, b: Row)
    requires a.id != b.id
    ensures Before(Effective(client), a, b) <==> Before(Deciding(client), a, b)
    ensures Before(Effective(client), a, b) <==> !Before(Effective(client), b, a)
  {
    var o, d := Effective(client), Deciding(client);
    assert o[1] == o[1..][0] && d[1..][0] == o[1] && d[0] == o[0];
    assert Rank(a, "id") != Rank(b, "id");
    assert Before(o[1..], a, b) == Before(d[1..], a, b);
    assert Before(o[1..], b, a) == !Before(o[1..], a, b);
  }

  predicate Ahead(client: Order, column: string, a: Row, b: Row) {
    if (column, Asc) in client then Rank(a, column) < Rank(b, column) else Rank(a, column) > Rank(b, column)
  }

  /** What a lookup finds is what the client wrote. */
  lemma {:induction false} LookupFinds(o: Order, column: string, d: Direction)
    requires DistinctColumns(o)
    ensures Lookup(o, column) == Some(d) <==> (column, d) in o
  {
    if o != [] {
      LookupFinds(o[1..], column, d);
      if o[0].0 == column { assert forall i :: 0 < i < |o| ==> o[i].0 != column; }
    }
  }

  /** The order that a query is sorted by, entry by entry. */
  lemma EffectiveIs(client: Order)
    requires DistinctColumns(client)
    ensures var o := Effective(client);
      && |o| >= 2 && o[0].0 == "created_at" && o[1].0 == "id"
      && (o[0].1 == Asc <==> ("created_at", Asc) in client) && (o[1].1 == Asc <==> ("id", Asc) in client)
      && (forall e :: e in o[2..] <==> e in client && e.0 != "created_at" && e.0 != "id")
  {
    LookupFinds(client, "created_at", Asc);
    LookupFinds(client, "created_at", Desc);
    LookupFinds(client, "id", Asc);
    LookupFinds(client, "id", Desc);
    WithoutKeeps(client, {"created_at", "id"});
    assert Effective(client)[2..] == Without(client, {"created_at", "id"});
  }

  lemma {:induction false} WithoutKeeps(o: Order, columns: set<string>)
    ensures forall e :: e in Without(o, columns) <==> e in o && e.0 !in columns
  {
    if o != [] { WithoutKeeps(o[1..], columns); }
  }

  /** What decides: created_at, newest first, and behind it id, largest first, each the other way round only where the
      client says so. */
  lemma NewestFirst(client: Order, a: Row, b: Row)
    requires DistinctColumns(client)
    ensures Rank(a, "created_at") == Rank(b, "created_at") && a.id != b.id ==>
      (Before(Effective(client), a, b) <==> Ahead(client, "id", a, b))
    ensures Rank(a, "created_at") != Rank(b, "created_at") ==>
      (Before(Effective(client), a, b) <==> Ahead(client, "created_at", a, b))
  {
    var o := Effective(client);
    EffectiveIs(client);
    assert o[1] == o[1..][0];
  }

  ghost function Elements(rows: seq<Row>): set<Row> {
    set r | r in rows
  }

  /** Two sorted arrangements of the same rows begin with the same row. */
  lemma SameFirst(client: Order, a: seq<Row>, b: seq<Row>)
    requires Sorted(Effective(client), a) && Sorted(Effective(client), b)
    requires DistinctIds(a) && DistinctIds(b) && Elements(a) == Elements(b) && a != [] && b != []
    ensures a[0] == b[0]
  {
    assert a[0] in Elements(b) && b[0] in Elements(a);
    var j :| 0 <= j < |b| && b[j] == a[0];
    var i :| 0 <= i < |a| && a[i] == b[0];
    assert i > 0 ==> !Before(Effective(client), b[0], a[0]);
    assert j > 0 ==> !Before(Effective(client), a[0], b[0]);
    if i > 0 { TieBreakerDecides(client, a[i], a[0]); }
  }

  lemma HasElement(rows: seq<Row>)
    requires rows != []
    ensures Elements(rows) != {}
  {
    assert rows[0] in Elements(rows);
  }

  lemma TailElements(rows: seq<Row>)
    requires DistinctIds(rows) && rows != []
    ensures Elements(rows[1..]) == Elements(rows) - {rows[0]}
  {
    forall r | r in rows && r != rows[0]
      ensures r in rows[1..]
    {
      var i :| 0 <= i < |rows| && rows[i] == r;
      assert rows[1..][i - 1] == r;
    }
  }

  /** For every client order there is only one sorted arrangement of a set of rows: paging is stable. */
  lemma {:induction false} SortedIsUnique(client: Order, a: seq<Row>, b: seq<Row>)
    requires Sorted(Effective(client), a) && Sorted(Effective(client), b)
    requires DistinctIds(a) && DistinctIds(b) && Elements(a) == Elements(b)
    ensures a == b
    decreases |a|
  {
    if a == [] {
      if b != [] { HasElement(b); }
    } else {
      assert a[0] in Elements(b);
      SameFirst(client, a, b);
      TailElements(a);
      TailElements(b);
      SortedIsUnique(client, a[1..], b[1..]);
      assert a == [a[0]] + a[1..] && b == [b[0]] + b[1..];
    }
  }

  /** Sorting by the effective order is sorting by created_at and id. */
  lemma OtherColumnsNeverMatter(client: Order, rows: seq<Row>)
    requires DistinctIds(rows)
    ensures Sorted(Effective(client), rows) <==> Sorted(Deciding(client), rows)
  {
    forall i, j | 0 <= i < j < |rows|
      ensures Before(Effective(client), rows[j], rows[i]) <==> Before(Deciding(client), rows[j], rows[i])
    {
      TieBreakerDecides(client, rows[j], rows[i]);
    }
  }

  // ---------------------------------------------------------------- pages

  function Min(a: int, b: int): int {
    if a < b then a else b
  }

  /** skip (page - 1) * limit, take limit. */
  function Page<T>(rows: seq<T>, page: nat, limit: nat): seq<T>
    requires page >= 1
  {
    var skip := (page - 1) * limit;
    if skip >= |rows| then [] else rows[skip..Min(skip + limit, |rows|)]
  }

  lemma MulMono(a: int, b: int, c: nat)
    requires a <= b
    ensures a * c <= b * c
  {}

  /** The least whole number that is no less than a quotient, for a divisor of either sign. */
  function Ceil(n: nat, d: int): int
    requires d != 0
  {
    if d > 0 then (n + d - 1) / d else -(n / -d)
  }

  lemma CeilBounds(n: nat, d: int)
    requires d != 0
    ensures d > 0 ==> (Ceil(n, d) - 1) * d < n <= Ceil(n, d) * d
    ensures d < 0 ==> (Ceil(n, d) - 1) * d > n >= Ceil(n, d) * d
  {
    if d > 0 {
      var x := Ceil(n, d);
      assert n + d - 1 == x * d + (n + d - 1) % d;
      assert (x - 1) * d == x * d - d;
    } else {
      var q := n / -d;
      assert n == q * -d + n % -d;
      assert q * -d == -q * d && (-q - 1) * d == -q * d - d;
    }
  }

  lemma CeilIs(n: nat, d: nat, q: nat)
    requires d > 0 && q >= 1 && (q - 1) * d < n <= q * d
    ensures Ceil(n, d) == q
  {
    CeilBounds(n, d);
    var x := Ceil(n, d);
    if x < q { MulMono(x, q - 1, d); } else if x > q { MulMono(q, x - 1, d); }
  }

  /** A null page or page size is shown as null. */
  datatype Metadata = Metadata(currentPage: Option<int>, pageSize: Option<int>, totalItems: nat, totalPages: int)

  /** A destructured property: the configured default stands in for an absent one only. */
  function Shown(p: Property<int>, configured: int): Option<int> {
    match p
    case Absent => Some(configured)
    case Null => None
    case Given(v) => Some(v)
  }

  function TotalPages(total: nat, limit: nat): nat {
    if total != 0 && limit != 0 then Ceil(total, limit) else 1
  }

  /** responseMetadata: None when there is no pagination to read from, which throws. Asking for ALL replaces page and
      limit. The pages are just enough for all items; without items or a usable limit there is one. */
  method ResponseMetadata(total: nat, pagination: Option<Pagination>, defaultPage: int, defaultLimit: int)
    returns (m: Option<Metadata>)
    ensures m.None? <==> pagination.None?
    ensures m.Some? ==>
      var p, all := pagination.value, pagination.value.kind == Given(All);
      && m.value.totalItems == total
      && m.value.currentPage ==
         (if all then Some(1) else if p.page.Absent? then Some(defaultPage)
          else if p.page.Null? then None else Some(p.page.value))
      && m.value.pageSize ==
         (if all then Some(total) else if p.limit.Absent? then Some(defaultLimit)
          else if p.limit.Null? then None else Some(p.limit.value))
      && (all || total == 0 || m.value.pageSize == None || m.value.pageSize == Some(0) ==> m.value.totalPages == 1)
      && (total > 0 && m.value.pageSize.Some? && m.value.pageSize.value > 0 ==>
            var n, l := m.value.totalPages, m.value.pageSize.value;
            (n - 1) * l < total <= n * l && n == TotalPages(total, l))
      && (total > 0 && m.value.pageSize.Some? && m.value.pageSize.value < 0 ==> m.value.totalPages <= 0)
  {
    if pagination.None? { return None; }
    var page, limit := Shown(pagination.value.page, defaultPage), Shown(pagination.value.limit, defaultLimit);
    if pagination.value.kind == Given(All) { page, limit := Some(1), Some(total); }
    var pages := 1;
    if total != 0 && limit.Some? && limit.value != 0 {
      pages := Ceil(total, limit.value);
      CeilBounds(total, limit.value);
      if limit.value == total { CeilIs(total, total, 1); }
    }
    m := Some(Metadata(page, limit, total, pages));
  }

  function FirstPages<T>(rows: seq<T>, pages: nat, limit: nat): seq<T> {
    if pages == 0 then [] else FirstPages(rows, pages - 1, limit) + Page(rows, pages, limit)
  }

  lemma PageEnd(pages: nat, limit: nat)
    requires pages > 0
    ensures pages * limit == (pages - 1) * limit + limit && (pages - 1) * limit >= 0
  {}

  lemma {:induction false} FirstPagesArePrefix<T>(rows: seq<T>, pages: nat, limit: nat)
    ensures FirstPages(rows, pages, limit) == rows[..Min(pages * limit, |rows|)]
    decreases pages
  {
    if pages > 0 {
      FirstPagesArePrefix(rows, pages - 1, limit);
      PageEnd(pages, limit);
    } else {
      assert pages * limit == 0;
    }
  }

  /** How one page lies against the last one. */
  lemma PageSize<T>(rows: seq<T>, page: nat, total: nat, limit: nat)
    requires limit >= 1 && page >= 1 && (total - 1) * limit < |rows| <= total * limit
    ensures page < total ==> |Page(rows, page, limit)| == limit
    ensures page == total ==> 0 < |Page(rows, page, limit)| <= limit
    ensures page > total ==> Page(rows, page, limit) == []
  {
    assert page * limit == (page - 1) * limit + limit;
    if page < total { MulMono(page, total - 1, limit); } else if page > total { MulMono(total, page - 1, limit); }
  }

  lemma TotalIsEnough(n: nat, limit: nat)
    requires limit >= 1
    ensures var total := TotalPages(n, limit);
      total >= 1 && n <= total * limit && (if n == 0 then total == 1 else (total - 1) * limit < n)
  {
    if n > 0 { CeilBounds(n, limit); }
  }

  /** Pages 1 to total_pages put together are the whole sorted result, without gap or overlap; every page but the last
      is full, the last is not empty unless the result is, and every later page is empty. */
  lemma PagesPartition<T>(rows: seq<T>, limit: nat, page: nat)
    requires limit >= 1 && page >= 1
    ensures var total := TotalPages(|rows|, limit);
      && FirstPages(rows, total, limit) == rows
      && (page < total ==> |Page(rows, page, limit)| == limit)
      && (page == total ==> |Page(rows, page, limit)| <= limit && (|Page(rows, page, limit)| == 0 <==> rows == []))
      && (page > total ==> Page(rows, page, limit) == [])
  {
    var total := TotalPages(|rows|, limit);
    FirstPagesArePrefix(rows, total, limit);
    TotalIsEnough(|rows|, limit);
    if rows != [] { PageSize(rows, page, total, limit); }
    assert rows[..|rows|] == rows;
  }
}
