/** Batched loading: one query for many keys, indexed or grouped, against loading each key alone. */
module Dataloader {
  /** A row of some table: its id and the value of the column that relates it to a parent. */
  datatype Row = Row(id: nat, parent: nat, data: int)

  type Table = map<nat, Row>

  ghost predicate IsTable(t: Table) {
    forall id :: id in t ==> t[id].id == id
  }

  function Flat(keys: seq<seq<nat>>): seq<nat> {
    if keys == [] then [] else keys[0] + Flat(keys[1..])
  }

  lemma {:induction false} FlatHolds(keys: seq<seq<nat>>, i: nat, id: nat)
    requires i < |keys| && id in keys[i]
    ensures id in Flat(keys)
    decreases |keys|
  {
    if i > 0 { FlatHolds(keys[1..], i - 1, id); }
  }

  // ---------------------------------------------------------------- queries

  /** Each id once, in order of first appearance. */
  function Dedup(ids: seq<nat>): (unique: seq<nat>)
    ensures forall id :: id in unique <==> id in ids
    ensures forall i, j :: 0 <= i < j < |unique| ==> unique[i] != unique[j]
  {
    if ids == [] then []
    else
      var init, last := Dedup(ids[..|ids| - 1]), ids[|ids| - 1];
      if last in init then init else init + [last]
  }

  ghost predicate FirstAt(ids: seq<nat>, id: nat, a: nat) {
    a < |ids| && ids[a] == id && id !in ids[..a]
  }

  /** Each id first appears before those that stand behind it in the result. */
  lemma {:induction false} DedupKeepsOrder(ids: seq<nat>, i: nat, j: nat)
    requires i < j < |Dedup(ids)|
    ensures exists a: nat, b: nat :: a < b && FirstAt(ids, Dedup(ids)[i], a) && FirstAt(ids, Dedup(ids)[j], b)
    decreases |ids|
  {
    var n := |ids| - 1;
    var init := ids[..n];
    var d := Dedup(init);
    if j < |d| {
      DedupKeepsOrder(init, i, j);
      var a: nat, b: nat :| a < b && FirstAt(init, d[i], a) && FirstAt(init, d[j], b);
      assert ids[..a] == init[..a] && ids[..b] == init[..b];
      assert FirstAt(ids, Dedup(ids)[i], a) && FirstAt(ids, Dedup(ids)[j], b);
    } else {
      var a := FirstAppearance(init, d[i]);
      assert ids[..a] == init[..a];
      assert Dedup(ids) == d + [ids[n]];
      assert FirstAt(ids, Dedup(ids)[i], a) && FirstAt(ids, Dedup(ids)[j], n);
    }
  }

  lemma {:induction false} FirstAppearance(ids: seq<nat>, id: nat) returns (a: nat)
    requires id in ids
    ensures FirstAt(ids, id, a)
    decreases |ids|
  {
    var n := |ids| - 1;
    if id in ids[..n] {
      a := FirstAppearance(ids[..n], id);
      assert ids[..n][..a] == ids[..a];
    } else {
      a := n;
    }
  }

  ghost predicate NoRowTwice(rows: seq<Row>) {
    forall i, j :: 0 <= i < j < |rows| ==> rows[i] != rows[j]
  }

  /** A query's result: exactly the rows asked for, each once, in whatever order the database likes. */
  ghost predicate AnswersIds(rows: seq<Row>, t: Table, ids: seq<nat>) {
    && NoRowTwice(rows)
    && (forall r :: r in rows <==> r.id in t && t[r.id] == r && r.id in ids)
  }

  ghost predicate AnswersParents(rows: seq<Row>, t: Table, parents: seq<nat>) {
    && NoRowTwice(rows)
    && (forall r :: r in rows <==> r.id in t && t[r.id] == r && r.parent in parents)
  }

  // ---------------------------------------------------------------- createLoader

  /** Rows by id; of two rows with one id the later one counts. */
  function ById(rows: seq<Row>): map<nat, Row> {
    if rows == [] then map[] else ById(rows[..|rows| - 1])[rows[|rows| - 1].id := rows[|rows| - 1]]
  }

  lemma {:induction false} ByIdFinds(rows: seq<Row>, id: nat)
    ensures id in ById(rows) ==> ById(rows)[id] in rows && ById(rows)[id].id == id
    ensures id !in ById(rows) ==> forall r :: r in rows ==> r.id != id
  {
    if rows != [] {
      var init, last := rows[..|rows| - 1], rows[|rows| - 1];
      ByIdFinds(init, id);
      assert rows == init + [last];
    }
  }

  /** A list field's resolver: stored ids, looked up and the misses dropped. */
  function Resolve(ids: seq<nat>, index: map<nat, Row>): seq<Row> {
    if ids == [] then []
    else Resolve(ids[..|ids| - 1], index) + if ids[|ids| - 1] in index then [index[ids[|ids| - 1]]] else []
  }

  /** The positions of the ids that exist, in order. */
  ghost predicate Kept(pos: seq<nat>, ids: seq<nat>, t: Table) {
    && (forall j, k :: 0 <= j < k < |pos| ==> pos[j] < pos[k])
    && (forall i :: i in pos <==> 0 <= i < |ids| && ids[i] in t)
  }

  /** The k-th row shown is the one under the id at the k-th of the positions. */
  ghost predicate Shows(shown: seq<Row>, pos: seq<nat>, ids: seq<nat>, t: Table) {
    |shown| == |pos| && forall k :: 0 <= k < |pos| ==> pos[k] < |ids| && ids[pos[k]] in t && shown[k] == t[ids[pos[k]]]
  }

  lemma KeptGrows(init: seq<nat>, pos: seq<nat>, ids: seq<nat>, n: nat, t: Table)
    requires n + 1 == |ids| && Kept(init, ids[..n], t) && pos == if ids[n] in t then init + [n] else init
    ensures Kept(pos, ids, t)
  {
    forall j | 0 <= j < |init|
      ensures init[j] < n
    {
      assert init[j] in init;
    }
  }

  lemma ShowsMore(shown: seq<Row>, init: seq<nat>, ids: seq<nat>, n: nat, t: Table)
    requires n + 1 == |ids| && Shows(shown, init, ids[..n], t)
    ensures Shows(shown, init, ids, t)
    ensures ids[n] in t ==> Shows(shown + [t[ids[n]]], init + [n], ids, t)
  {}

  lemma {:induction false} ResolveShows(ids: seq<nat>, t: Table) returns (pos: seq<nat>)
    ensures Kept(pos, ids, t) && Shows(Resolve(ids, t), pos, ids, t)
  {
    if ids == [] {
      pos := [];
    } else {
      var n := |ids| - 1;
      var init := ResolveShows(ids[..n], t);
      pos := if ids[n] in t then init + [n] else init;
      KeptGrows(init, pos, ids, n, t);
      ShowsMore(Resolve(ids[..n], t), init, ids, n, t);
    }
  }

  lemma Inhabited(pos: seq<nat>)
    ensures pos != [] ==> pos[0] in pos
  {}

  /** Strictly increasing positions that leave none out are all of them, each in its place. */
  lemma {:induction false} NoneLeftOut(pos: seq<nat>, n: nat)
    requires forall j, k :: 0 <= j < k < |pos| ==> pos[j] < pos[k]
    requires forall i :: i in pos <==> 0 <= i < n
    ensures |pos| == n && forall k :: 0 <= k < n ==> pos[k] == k
  {
    if n == 0 {
      Inhabited(pos);
    } else {
      assert n - 1 in pos;
      var m :| 0 <= m < |pos| && pos[m] == n - 1;
      var init := pos[..|pos| - 1];
      assert pos[|pos| - 1] in pos && pos == init + [pos[|pos| - 1]];
      assert m == |pos| - 1;
      forall i | 0 <= i < n - 1
        ensures i in init
      {
        assert i in pos;
      }
      forall i | i in init
        ensures i < n - 1
      {
        var k :| 0 <= k < |init| && init[k] == i;
        assert pos[k] < pos[m];
      }
      NoneLeftOut(init, n - 1);
    }
  }

  lemma {:induction false} BatchResolves(t: Table, keys: seq<seq<nat>>, i: nat, rows: seq<Row>, ids: seq<nat>)
    requires IsTable(t) && i < |keys| && ids <= keys[i] && AnswersIds(rows, t, Dedup(Flat(keys)))
    ensures Resolve(ids, ById(rows)) == Resolve(ids, t)
    decreases |ids|
  {
    if ids != [] {
      var id := ids[|ids| - 1];
      BatchResolves(t, keys, i, rows, ids[..|ids| - 1]);
      assert id == keys[i][|ids| - 1];
      FlatHolds(keys, i, id);
      ByIdFinds(rows, id);
      if id in t { assert t[id] in rows; }
    }
  }

  /** A list field shows exactly the existing rows, in the order of the stored ids, duplicates kept: whatever order
      the database returned, and whatever else was in the batch. Where every id exists, row k is that of the k-th id.
      */
  lemma ListFieldIsExact(t: Table, keys: seq<seq<nat>>, i: nat, rows: seq<Row>) returns (pos: seq<nat>)
    requires IsTable(t) && i < |keys| && AnswersIds(rows, t, Dedup(Flat(keys)))
    ensures Kept(pos, keys[i], t) && Shows(Resolve(keys[i], ById(rows)), pos, keys[i], t)
    ensures (forall id :: id in keys[i] ==> id in t) ==>
      var shown := Resolve(keys[i], ById(rows));
      |shown| == |keys[i]| && forall k :: 0 <= k < |shown| ==> shown[k] == t[keys[i][k]]
  {
    BatchResolves(t, keys, i, rows, keys[i]);
    pos := ResolveShows(keys[i], t);
    if forall id :: id in keys[i] ==> id in t {
      assert forall k :: 0 <= k < |keys[i]| ==> keys[i][k] in t;
      NoneLeftOut(pos, |keys[i]|);
    }
  }

  // ---------------------------------------------------------------- createRelatedLoader

  /** The rows of one parent, in the order in which they came. */
  function Group(rows: seq<Row>, parent: nat): seq<Row> {
    if rows == [] then []
    else Group(rows[..|rows| - 1], parent) + if rows[|rows| - 1].parent == parent then [rows[|rows| - 1]] else []
  }

  /** The batch function's loop: an array per parent, each row pushed onto its parent's. */
  method GroupByParent(rows: seq<Row>) returns (groups: map<nat, seq<Row>>)
    ensures forall p :: p in groups <==> Group(rows, p) != []
    ensures forall p :: p in groups ==> groups[p] == Group(rows, p)
  {
    groups := map[];
    for i := 0 to |rows|
      invariant forall p :: p in groups <==> Group(rows[..i], p) != []
      invariant forall p :: p in groups ==> groups[p] == Group(rows[..i], p)
    {
      assert rows[..i + 1][..i] == rows[..i];
      var key := rows[i].parent;
      if key !in groups { groups := groups[key := []]; }
      groups := groups[key := groups[key] + [rows[i]]];
    }
    assert rows[..|rows|] == rows;
  }

  lemma {:induction false} GroupHolds(rows: seq<Row>, parent: nat, r: Row)
    ensures r in Group(rows, parent) <==> r in rows && r.parent == parent
  {
    if rows != [] {
      GroupHolds(rows[..|rows| - 1], parent, r);
      assert rows == rows[..|rows| - 1] + [rows[|rows| - 1]];
    }
  }

  lemma {:induction false} GroupCounts(rows: seq<Row>, parent: nat, r: Row)
    ensures multiset(Group(rows, parent))[r] == if r.parent == parent then multiset(rows)[r] else 0
  {
    if rows != [] {
      GroupCounts(rows[..|rows| - 1], parent, r);
      assert rows == rows[..|rows| - 1] + [rows[|rows| - 1]];
    }
  }

  lemma {:induction false} OnceEach(rows: seq<Row>, r: Row)
    requires NoRowTwice(rows)
    ensures multiset(rows)[r] == if r in rows then 1 else 0
  {
    if rows != [] {
      OnceEach(rows[..|rows| - 1], r);
      assert rows == rows[..|rows| - 1] + [rows[|rows| - 1]];
    }
  }

  /** A parent's group in any batch has the same rows, each as often, as when that parent is loaded alone. */
  lemma BatchAgreesWithSingle(t: Table, keys: seq<seq<nat>>, i: nat, parent: nat, batch: seq<Row>, alone: seq<Row>)
    requires i < |keys| && parent in keys[i]
    requires AnswersParents(batch, t, Flat(keys)) && AnswersParents(alone, t, [parent])
    ensures multiset(Group(batch, parent)) == multiset(Group(alone, parent)) == multiset(alone)
  {
    FlatHolds(keys, i, parent);
    forall r: Row
      ensures multiset(Group(batch, parent))[r] == multiset(Group(alone, parent))[r] == multiset(alone)[r]
    {
      GroupCounts(batch, parent, r);
      GroupCounts(alone, parent, r);
      OnceEach(batch, r);
      OnceEach(alone, r);
      assert r.parent in [parent] <==> r.parent == parent;
    }
  }

  /** A group keeps the order in which its rows came from the database. */
  lemma {:induction false} GroupKeepsOrder(rows: seq<Row>, parent: nat, i: nat, j: nat)
    requires i < j < |Group(rows, parent)|
    ensures exists a, b :: 0 <= a < b < |rows| && rows[a] == Group(rows, parent)[i] && rows[b] == Group(rows, parent)[j]
    decreases |rows|
  {
    var init, last := rows[..|rows| - 1], rows[|rows| - 1];
    var g := Group(init, parent);
    if j < |g| {
      GroupKeepsOrder(init, parent, i, j);
      var a, b :| 0 <= a < b < |init| && init[a] == g[i] && init[b] == g[j];
      assert rows[a] == g[i] && rows[b] == g[j];
    } else {
      GroupHolds(init, parent, g[i]);
      var a :| 0 <= a < |init| && init[a] == g[i];
      assert rows[a] == g[i] && rows[|rows| - 1] == last;
    }
  }
}
