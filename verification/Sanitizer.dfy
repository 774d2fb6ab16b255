/** The input sanitiser: a walk over a client's arguments that rewrites their strings in place. */
module Sanitizer {
  import opened Wrappers

  // ---------------------------------------------------------------- arguments as values

  /** Other stands for numbers, booleans, null and undefined. `allow` lists the fields that the object's class lets
      hold rich text; it is None where the object has no constructor that could carry such a list. */
  datatype Tree =
    | Text(text: string)
    | Other(tag: int)
    | Branch(isArray: bool, allow: Option<set<string>>, fields: seq<Field>)

  datatype Field = Field(name: string, value: Tree)

  /** sanitizeHtml with each of its two sets of options. */
  datatype Cleaner = Cleaner(rich: string -> string, plain: string -> string)

  function Clean(c: Cleaner, name: string, allow: set<string>, s: string): string {
    if name in allow then c.rich(s) else c.plain(s)
  }

  /** The fields whose rich text is kept. An array's class keeps none; an object without a class makes the lookup
      throw. */
  function Allowed(isArray: bool, allow: Option<set<string>>): Option<set<string>> {
    if isArray then Some({}) else allow
  }

  /** sanitizeObject on an object, or on an array met as one: the new tree, and whether the walk got through. */
  function SanitizeRecord(c: Cleaner, t: Tree): (r: (Tree, bool))
    requires t.Branch?
    ensures r.0.Branch?
    decreases t, 0
  {
    match Allowed(t.isArray, t.allow)
    case None => (t, false)
    case Some(allow) =>
      var r := SanitizeFields(c, allow, t.fields);
      (t.(fields := r.0), r.1)
  }

  /** The loop over Object.keys; a throw leaves the remaining fields as they were. */
  function SanitizeFields(c: Cleaner, allow: set<string>, fs: seq<Field>): (r: (seq<Field>, bool))
    ensures |r.0| == |fs|
    decreases fs, 1
  {
    if fs == [] then ([], true)
    else
      var first := SanitizeField(c, allow, fs[0]);
      if !first.1 then ([fs[0].(value := first.0)] + fs[1..], false)
      else
        var rest := SanitizeFields(c, allow, fs[1..]);
        ([fs[0].(value := first.0)] + rest.0, rest.1)
  }

  function SanitizeField(c: Cleaner, allow: set<string>, f: Field): (r: (Tree, bool))
    decreases f, 1
  {
    match f.value
    case Text(s) => (Text(Clean(c, f.name, allow, s)), true)
    case Other(_) => (f.value, true)
    case Branch(isArray, _, items) =>
      if !isArray then SanitizeRecord(c, f.value)
      else
        var r := SanitizeItems(c, items);
        (f.value.(fields := r.0), r.1)
  }

  /** The walk over an array in a field: strings are passed over, objects and nested arrays are sanitised as
      records. */
  function SanitizeItems(c: Cleaner, fs: seq<Field>): (r: (seq<Field>, bool))
    ensures |r.0| == |fs|
    decreases fs, 1
  {
    if fs == [] then ([], true)
    else
      var first := SanitizeItem(c, fs[0]);
      if !first.1 then ([fs[0].(value := first.0)] + fs[1..], false)
      else
        var rest := SanitizeItems(c, fs[1..]);
        ([fs[0].(value := first.0)] + rest.0, rest.1)
  }

  function SanitizeItem(c: Cleaner, f: Field): (r: (Tree, bool))
    decreases f, 1
  {
    if f.value.Branch? then SanitizeRecord(c, f.value) else (f.value, true)
  }

  // ---------------------------------------------------------------- arguments in memory

  datatype Value = Str(text: string) | Atom(tag: int) | Ref(node: Node)

  ghost function TreeOf(v: Value): Tree
    reads if v.Ref? then {v.node} else {}
  {
    match v
    case Str(s) => Text(s)
    case Atom(tag) => Other(tag)
    case Ref(n) => n.model
  }

  function Children(vs: seq<Value>): set<Node> {
    set i | 0 <= i < |vs| && vs[i].Ref? :: vs[i].node
  }

  ghost function Below(vs: seq<Value>): set<Node>
    reads Children(vs)
  {
    set i, n | 0 <= i < |vs| && vs[i].Ref? && n in vs[i].node.Repr :: n
  }

  lemma InBelow(vs: seq<Value>, i: nat)
    requires i < |vs| && vs[i].Ref?
    ensures vs[i].node in Children(vs) && vs[i].node.Repr <= Below(vs)
  {}

  ghost function Holding(keys: seq<string>, vs: seq<Value>): (fields: seq<Field>)
    requires |keys| == |vs|
    reads Children(vs)
    ensures |fields| == |keys|
  {
    seq(|keys|, i requires 0 <= i < |keys| reads Children(vs) => Field(keys[i], TreeOf(vs[i])))
  }

  /** No two subtrees share a node. */
  ghost predicate Disjoint(vs: seq<Value>)
    reads Children(vs)
  {
    forall i, j :: 0 <= i < j < |vs| && vs[i].Ref? && vs[j].Ref? ==> vs[i].node.Repr !! vs[j].node.Repr
  }

  /** One turn of a loop over the fields, seen in the specification: position i is done, or the walk has stopped
      there. */
  lemma Turn(fields: seq<Field>, before: seq<Field>, now: seq<Field>, i: nat,
             rest: (seq<Field>, bool), whole: (seq<Field>, bool), ok: bool)
    requires i < |fields| == |before| == |now| && now == before[i := now[i]] && before[i..] == fields[i..]
    requires whole == if ok then ([now[i]] + rest.0, rest.1) else ([now[i]] + fields[i + 1..], false)
    ensures now[i + 1..] == fields[i + 1..]
    ensures ok ==> Prepend(now[..i + 1], rest) == Prepend(before[..i], whole)
    ensures !ok ==> (now, false) == Prepend(before[..i], whole)
  {
    assert forall j :: i < j < |fields| ==> before[j] == before[i..][j - i] == fields[i..][j - i] == fields[j];
    assert now[..i + 1] == before[..i] + [now[i]];
    if ok { PrependOne(before[..i], now[i], rest); } else { assert now == before[..i] + ([now[i]] + fields[i + 1..]); }
  }

  /** An object or an array: its own keys in order, and the values that the walk overwrites. */
  class Node {
    const isArray: bool
    const allow: Option<set<string>>
    const keys: seq<string>
    var values: seq<Value>
    ghost var model: Tree
    ghost var Repr: set<Node>

    /** Children lie inside Repr and apart from one another. */
    ghost predicate Apart()
      reads this, Children(values)
    {
      && this in Repr && |keys| == |values|
      && model.Branch? && model.isArray == isArray && model.allow == allow && |model.fields| == |keys|
      && (forall i :: 0 <= i < |values| && values[i].Ref? ==> Owns(values[i].node))
      && Disjoint(values)
    }

    ghost predicate Owns(n: Node)
      reads this, n
    {
      n in n.Repr && n.Repr <= Repr && this !in n.Repr
    }

    /** The model tells what is stored at position i. */
    ghost predicate Models(i: nat)
      requires i < |values|
      reads this, Children(values)
    {
      && |keys| == |values| && model.Branch? && |model.fields| == |keys|
      && model.fields[i] == Field(keys[i], TreeOf(values[i]))
    }

    /** A tree, and `model` is what it holds. */
    ghost predicate Valid()
      reads this, Repr
      decreases Repr
    {
      && this in Repr && Children(values) <= Repr
      && Apart()
      && (forall i :: 0 <= i < |values| ==> Models(i))
      && (forall i :: 0 <= i < |values| && values[i].Ref? ==> values[i].node.Valid())
    }

    constructor (isArray: bool, allow: Option<set<string>>, keys: seq<string>, values: seq<Value>)
      requires |keys| == |values|
      requires forall i :: 0 <= i < |values| && values[i].Ref? ==> values[i].node.Valid()
      requires Disjoint(values)
      ensures Valid() && this.isArray == isArray && this.allow == allow && this.keys == keys && this.values == values
      ensures Repr == {this} + Below(values)
    {
      this.isArray, this.allow, this.keys, this.values := isArray, allow, keys, values;
      this.Repr := {this} + Below(values);
      this.model := Branch(isArray, allow, Holding(keys, values));
      new;
      forall i | 0 <= i < |values| && values[i].Ref?
        ensures Owns(values[i].node) && values[i].node.Valid()
      {
        InBelow(values, i);
      }
      assert forall i :: 0 <= i < |values| ==> Models(i);
    }

    /** A write at position i, or below it, leaves the other positions alone. */
    twostate lemma Rest(i: nat)
      requires old(Valid()) && i < |keys| && |values| == |keys| && Repr == old(Repr) && model == old(model)
      requires forall j :: 0 <= j < |keys| && j != i ==> values[j] == old(values[j])
      requires forall n :: n in Repr && n != this && !(old(values[i]).Ref? && n in old(values[i].node.Repr)) ==>
        unchanged(n)
      requires old(values[i]).Ref? <==> values[i].Ref?
      requires values[i].Ref? ==>
        values[i] == old(values[i]) && values[i].node.Valid() && values[i].node.Repr == old(values[i].node.Repr)
      ensures Apart() && Children(values) <= Repr
      ensures forall j :: 0 <= j < |keys| && j != i ==> Models(j)
      ensures forall j :: 0 <= j < |keys| && values[j].Ref? ==> values[j].node.Valid()
    {
      forall j | 0 <= j < |keys| && j != i
        ensures Models(j)
        ensures values[j].Ref? ==> values[j].node.Valid() && values[j].node.Repr == old(values[j].node.Repr)
      {
        assert old(Models(j));
        if values[j].Ref? {
          var n := values[j].node;
          assert old(Owns(n));
          assert n.Repr == old(n.Repr);
        }
      }
    }

    /** The value at position i has been written, or changed inside: the model follows. */
    ghost method Follow(i: nat)
      requires Apart() && i < |keys| && Children(values) <= Repr
      requires forall j :: 0 <= j < |keys| && j != i ==> Models(j)
      requires forall j :: 0 <= j < |keys| && values[j].Ref? ==> values[j].node.Valid()
      modifies `model
      ensures Valid() && model == old(model).(fields := old(model.fields)[i := Field(keys[i], TreeOf(values[i]))])
    {
      assert forall j :: 0 <= j < |keys| && values[j].Ref? ==> Owns(values[j].node) && values[j].node != this;
      model := model.(fields := model.fields[i := Field(keys[i], TreeOf(values[i]))]);
      forall j | 0 <= j < |keys|
        ensures Models(j)
      {
        assert |model.fields| == |keys|;
        assert j != i ==> old(Models(j));
        assert values[j].Ref? ==> old(Owns(values[j].node));
        assert TreeOf(values[j]) == old(TreeOf(values[j]));
      }
    }

    /** One turn of the loop: the value at position i. */
    method SanitizeAt(c: Cleaner, allowed: set<string>, i: nat) returns (ok: bool)
      requires Valid() && i < |keys|
      modifies Repr
      ensures Valid() && Repr == old(Repr)
      ensures model == old(model).(fields := old(model.fields)[i := model.fields[i]])
      ensures model.fields[i].name == old(model.fields[i].name)
      ensures (model.fields[i].value, ok) == SanitizeField(c, allowed, old(model.fields[i]))
      decreases Repr, 0
    {
      ok := true;
      assert Models(i);
      match values[i] {
        case Str(s) => values := values[i := Str(Clean(c, keys[i], allowed, s))];
        case Atom(_) =>
        case Ref(n) => if n.isArray { ok := n.SanitizeElements(c); } else { ok := n.SanitizeObject(c); }
      }
      Rest(i);
      Follow(i);
    }

    /** One element of an array in a field. */
    method SanitizeElement(c: Cleaner, i: nat) returns (ok: bool)
      requires Valid() && i < |keys|
      modifies Repr
      ensures Valid() && Repr == old(Repr)
      ensures model == old(model).(fields := old(model.fields)[i := model.fields[i]])
      ensures model.fields[i].name == old(model.fields[i].name)
      ensures (model.fields[i].value, ok) == SanitizeItem(c, old(model.fields[i]))
      decreases Repr, 0
    {
      ok := true;
      assert Models(i);
      if values[i].Ref? { ok := values[i].node.SanitizeObject(c); }
      Rest(i);
      Follow(i);
    }

    /** The walk over an array in a field. */
    method SanitizeElements(c: Cleaner) returns (ok: bool)
      requires Valid()
      modifies Repr
      ensures Valid() && Repr == old(Repr)
      ensures var r := SanitizeItems(c, old(model.fields)); model == old(model).(fields := r.0) && ok == r.1
      decreases Repr, 1
    {
      ghost var fields := model.fields;
      PrependNothing(SanitizeItems(c, fields));
      assert model.fields[..0] == [] && fields[0..] == fields;
      for i := 0 to |keys|
        invariant Valid() && Repr == old(Repr) && model == old(model).(fields := model.fields)
        invariant model.fields[i..] == fields[i..]
        invariant Prepend(model.fields[..i], SanitizeItems(c, fields[i..])) == SanitizeItems(c, fields)
      {
        ghost var before := model.fields;
        assert before[i] == before[i..][0] == fields[i] && fields[i..][1..] == fields[i + 1..];
        ok := SanitizeElement(c, i);
        Turn(fields, before, model.fields, i, SanitizeItems(c, fields[i + 1..]), SanitizeItems(c, fields[i..]), ok);
        if !ok { return false; }
      }
      assert model.fields[..|keys|] + [] == model.fields;
      ok := true;
    }

    /** sanitizeObject. Strings are overwritten with their clean form; nothing outside the tree is written. */
    method SanitizeObject(c: Cleaner) returns (ok: bool)
      requires Valid()
      modifies Repr
      ensures Valid() && Repr == old(Repr)
      ensures (model, ok) == SanitizeRecord(c, old(model))
      decreases Repr, 1
    {
      var allowed := Allowed(isArray, allow);
      if allowed.None? { return false; }
      ghost var fields := model.fields;
      assert SanitizeRecord(c, model).0 == model.(fields := SanitizeFields(c, allowed.value, fields).0);
      PrependNothing(SanitizeFields(c, allowed.value, fields));
      assert model.fields[..0] == [] && fields[0..] == fields;
      for i := 0 to |keys|
        invariant Valid() && Repr == old(Repr) && model == old(model).(fields := model.fields)
        invariant model.fields[i..] == fields[i..]
        invariant Prepend(model.fields[..i], SanitizeFields(c, allowed.value, fields[i..]))
                  == SanitizeFields(c, allowed.value, fields)
      {
        ghost var before := model.fields;
        assert before[i] == before[i..][0] == fields[i] && fields[i..][1..] == fields[i + 1..];
        ok := SanitizeAt(c, allowed.value, i);
        Turn(fields, before, model.fields, i, SanitizeFields(c, allowed.value, fields[i + 1..]),
             SanitizeFields(c, allowed.value, fields[i..]), ok);
        if !ok { return false; }
      }
      assert model.fields[..|keys|] + [] == model.fields;
      ok := true;
    }
  }

  ghost predicate IsValid(v: Value)
    reads if v.Ref? then {v.node} + v.node.Repr else {}
  {
    v.Ref? ==> v.node.Valid()
  }

  /** An argument that is no object is left alone, even a string. */
  function SanitizeArgument(c: Cleaner, t: Tree): (Tree, bool) {
    if t.Branch? then SanitizeRecord(c, t) else (t, true)
  }

  /** intercept: the arguments named input and data, one after the other; a throw in the first spares the second. */
  method Intercept(c: Cleaner, input: Value, data: Value) returns (ok: bool)
    requires IsValid(input) && IsValid(data) && (input.Ref? && data.Ref? ==> input.node.Repr !! data.node.Repr)
    modifies if input.Ref? then input.node.Repr else {}, if data.Ref? then data.node.Repr else {}
    ensures IsValid(input) && IsValid(data)
    ensures var first := SanitizeArgument(c, old(TreeOf(input)));
      var second := if first.1 then SanitizeArgument(c, old(TreeOf(data))) else (old(TreeOf(data)), false);
      TreeOf(input) == first.0 && TreeOf(data) == second.0 && ok == second.1
  {
    ok := true;
    if input.Ref? { ok := input.node.SanitizeObject(c); }
    if !ok { return false; }
    if data.Ref? { ok := data.node.SanitizeObject(c); }
  }

  // ---------------------------------------------------------------- when the walk gets through

  /** Every object at every depth has a class to ask. */
  predicate Classed(t: Tree)
    decreases t, 0
  {
    t.Branch? ==> (t.isArray || t.allow.Some?) && AllClassed(t.fields)
  }

  predicate AllClassed(fs: seq<Field>)
    decreases fs, 1
  {
    fs == [] || (Classed(fs[0].value) && AllClassed(fs[1..]))
  }

  /** The walk gets through exactly when no object anywhere in the tree lacks a class. */
  lemma {:induction false} CompletesWhenClassed(c: Cleaner, t: Tree)
    requires t.Branch?
    ensures SanitizeRecord(c, t).1 <==> Classed(t)
    decreases t, 0
  {
    if Allowed(t.isArray, t.allow).Some? { FieldsComplete(c, Allowed(t.isArray, t.allow).value, t.fields); }
  }

  lemma {:induction false} FieldsComplete(c: Cleaner, allow: set<string>, fs: seq<Field>)
    ensures SanitizeFields(c, allow, fs).1 <==> AllClassed(fs)
    decreases fs, 1
  {
    if fs != [] {
      var v := fs[0].value;
      if v.Branch? {
        if v.isArray { ItemsComplete(c, v.fields); } else { CompletesWhenClassed(c, v); }
      }
      FieldsComplete(c, allow, fs[1..]);
    }
  }

  lemma {:induction false} ItemsComplete(c: Cleaner, fs: seq<Field>)
    ensures SanitizeItems(c, fs).1 <==> AllClassed(fs)
    decreases fs, 1
  {
    if fs != [] {
      if fs[0].value.Branch? { CompletesWhenClassed(c, fs[0].value); }
      ItemsComplete(c, fs[1..]);
    }
  }

  // ---------------------------------------------------------------- what became of each string

  /** A way down from a tree: at each step the position of a field. */
  predicate IsPath(t: Tree, path: seq<nat>)
    decreases |path|
  {
    path == [] || (t.Branch? && path[0] < |t.fields| && IsPath(t.fields[path[0]].value, path[1..]))
  }

  function At(t: Tree, path: seq<nat>): Tree
    requires IsPath(t, path)
    decreases |path|
  {
    if path == [] then t else At(t.fields[path[0]].value, path[1..])
  }

  /** The object or array that a path's last step is taken from. */
  function Holder(t: Tree, path: seq<nat>): (h: Tree)
    requires IsPath(t, path) && path != []
    ensures h.Branch? && path[|path| - 1] < |h.fields|
    decreases |path|
  {
    if |path| == 1 then t else Holder(t.fields[path[0]].value, path[1..])
  }

  /** How many arrays lie one inside the other around a path's end, counted inwards from the last object or, where
      there is none, from just inside the argument itself; n counts those around t, t included. */
  function Nesting(t: Tree, path: seq<nat>, n: nat): nat
    requires IsPath(t, path) && path != []
    decreases |path|
  {
    if |path| == 1 then n
    else
      var u := t.fields[path[0]].value;
      assert IsPath(u, path[1..]) && path[1..] != [];
      Nesting(u, path[1..], if u.isArray then n + 1 else 0)
  }

  /** What a value is to become. Odd nesting shields a string; any other string is cleaned as rich text if its holder
      is no array and the holder's class lists the field, and as plain text otherwise. */
  function Expected(c: Cleaner, t: Tree, path: seq<nat>, n: nat): Tree
    requires IsPath(t, path) && path != []
  {
    var h := Holder(t, path);
    var name := h.fields[path[|path| - 1]].name;
    match At(t, path)
    case Text(s) =>
      if Nesting(t, path, n) % 2 == 1 then Text(s)
      else if !h.isArray && h.allow.Some? && name in h.allow.value then Text(c.rich(s))
      else Text(c.plain(s))
    case v => v
  }

  /** The walk on a branch around which n arrays are nested: as a record, or by forEach. */
  function Walk(c: Cleaner, t: Tree, n: nat): (Tree, bool)
    requires t.Branch? && (n % 2 == 1 ==> t.isArray)
  {
    if n % 2 == 0 then SanitizeRecord(c, t)
    else
      var r := SanitizeItems(c, t.fields);
      (t.(fields := r.0), r.1)
  }

  lemma {:induction false} FieldsEach(c: Cleaner, allow: set<string>, fs: seq<Field>, i: nat)
    requires SanitizeFields(c, allow, fs).1 && i < |fs|
    ensures SanitizeField(c, allow, fs[i]).1
    ensures SanitizeFields(c, allow, fs).0[i] == fs[i].(value := SanitizeField(c, allow, fs[i]).0)
    decreases |fs|
  {
    if i > 0 { FieldsEach(c, allow, fs[1..], i - 1); }
  }

  lemma {:induction false} ItemsEach(c: Cleaner, fs: seq<Field>, i: nat)
    requires SanitizeItems(c, fs).1 && i < |fs|
    ensures SanitizeItem(c, fs[i]).1
    ensures SanitizeItems(c, fs).0[i] == fs[i].(value := SanitizeItem(c, fs[i]).0)
    decreases |fs|
  {
    if i > 0 { ItemsEach(c, fs[1..], i - 1); }
  }

  lemma OneStep(t: Tree, i: nat)
    requires t.Branch? && i < |t.fields|
    ensures IsPath(t, [i]) && At(t, [i]) == t.fields[i].value
  {
    var path := [i];
    assert path[1..] == [];
    assert IsPath(t.fields[i].value, []);
  }

  /** One step down: what the walk does to the value at position i. */
  lemma WalkStep(c: Cleaner, t: Tree, n: nat, i: nat)
    requires t.Branch? && (n % 2 == 1 ==> t.isArray) && Walk(c, t, n).1 && i < |t.fields|
    ensures var r, u := Walk(c, t, n).0, t.fields[i].value;
      && r.Branch? && r.isArray == t.isArray && r.allow == t.allow && |r.fields| == |t.fields|
      && r.fields[i].name == t.fields[i].name
      && (u.Other? ==> r.fields[i].value == u)
      && (u.Text? ==> r.fields[i].value == Expected(c, t, [i], n))
      && (u.Branch? ==>
            var m := if u.isArray then n + 1 else 0;
            Walk(c, u, m).1 && r.fields[i].value == Walk(c, u, m).0)
  {
    OneStep(t, i);
    if n % 2 == 0 { FieldsEach(c, Allowed(t.isArray, t.allow).value, t.fields, i); } else { ItemsEach(c, t.fields, i); }
  }

  predicate SameShape(a: Tree, b: Tree) {
    && b.Branch? == a.Branch?
    && (a.Branch? ==> a.isArray == b.isArray && a.allow == b.allow && |a.fields| == |b.fields|
                      && forall i :: 0 <= i < |a.fields| ==> a.fields[i].name == b.fields[i].name)
  }

  lemma {:induction false} WalkReaches(c: Cleaner, t: Tree, n: nat, path: seq<nat>)
    requires t.Branch? && (n % 2 == 1 ==> t.isArray) && Walk(c, t, n).1 && IsPath(t, path) && path != []
    ensures var r := Walk(c, t, n).0;
      && IsPath(r, path) && SameShape(At(t, path), At(r, path))
      && (!At(t, path).Branch? ==> At(r, path) == Expected(c, t, path, n))
    decreases |path|
  {
    var r, i := Walk(c, t, n).0, path[0];
    var u := t.fields[i].value;
    WalkStep(c, t, n, i);
    if |path| == 1 {
      assert path == [i];
      OneStep(t, i);
      assert IsPath(r, [i]) && At(r, [i]) == r.fields[i].value by { OneStep(r, i); }
      if u.Branch? {
        var m := if u.isArray then n + 1 else 0;
        forall j | 0 <= j < |u.fields|
          ensures Walk(c, u, m).0.fields[j].name == u.fields[j].name
        {
          WalkStep(c, u, m, j);
        }
      }
    } else {
      WalkReaches(c, u, if u.isArray then n + 1 else 0, path[1..]);
    }
  }

  /** After a walk that gets through, at every depth: the same objects, arrays, keys and non-strings; every string
      cleaned as rich or plain text by its own object's class, except in an array that is the first, third, fifth
      ... of arrays nested directly in one another below a field. So strings in a field's array are left as they
      were, but strings in an array inside that array are not. */
  lemma SanitizedEverywhere(c: Cleaner, t: Tree, path: seq<nat>)
    requires t.Branch? && Classed(t) && IsPath(t, path) && path != []
    ensures var r := SanitizeRecord(c, t).0;
      && IsPath(r, path) && SameShape(At(t, path), At(r, path))
      && (At(t, path).Other? ==> At(r, path) == At(t, path))
      && (At(t, path).Text? ==>
            var h, s := Holder(t, path), At(t, path).text;
            if Nesting(t, path, 0) % 2 == 1 then At(r, path) == Text(s)
            else if !h.isArray && h.allow.Some? && h.fields[path[|path| - 1]].name in h.allow.value
            then At(r, path) == Text(c.rich(s))
            else At(r, path) == Text(c.plain(s)))
  {
    CompletesWhenClassed(c, t);
    WalkReaches(c, t, 0, path);
  }
}
