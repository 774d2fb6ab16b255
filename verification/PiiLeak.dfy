/** When a masked log record still shows personal data: through property names, which the walk copies as they are, and
    through the objects that it meets a second time. */
module PiiLeak {
  import opened Wrappers
  import opened EmailPattern
  import opened PiiMask

  // ---------------------------------------------------------------- how often the walk meets an object

  /** The objects that a value, or a list of values or fields, leads the walk to; nothing under a personal key does.
      */
  function Met(v: Value): multiset<Ref> {
    if v.Object? then multiset{v.ref} else multiset{}
  }

  function MetAll(vs: seq<Value>): multiset<Ref> {
    if vs == [] then multiset{} else Met(vs[0]) + MetAll(vs[1..])
  }

  function MetField(f: Field): multiset<Ref> {
    if IsPiiField(f.0) then multiset{} else Met(f.1)
  }

  function MetFields(fs: seq<Field>): multiset<Ref> {
    if fs == [] then multiset{} else MetField(fs[0]) + MetFields(fs[1..])
  }

  function MetIn(n: Node): multiset<Ref> {
    match n
    case Items(items) => MetAll(items)
    case Fields(fields) => MetFields(fields)
  }

  ghost function SumMet(g: Graph, s: set<Ref>): multiset<Ref>
    requires s <= g.Keys
  {
    if s == {} then multiset{}
    else
      var r :| r in s;
      MetIn(g[r]) + SumMet(g, s - {r})
  }

  lemma {:induction false} SumMetSplit(g: Graph, s: set<Ref>, r: Ref)
    requires s <= g.Keys && r in s
    ensures SumMet(g, s) == MetIn(g[r]) + SumMet(g, s - {r})
    decreases s
  {
    var first :| first in s && SumMet(g, s) == MetIn(g[first]) + SumMet(g, s - {first});
    if first != r {
      SumMetSplit(g, s - {first}, r);
      SumMetSplit(g, s - {r}, first);
      assert s - {first} - {r} == s - {r} - {first};
    }
  }

  /** Two balances add up. */
  lemma AddBalances<T>(o: multiset<T>, a: multiset<T>, m: multiset<T>, x: multiset<T>,
                       p: multiset<T>, b: multiset<T>, n: multiset<T>, y: multiset<T>)
    requires o + a == m + x && p + b == n + y
    ensures (o + p) + (a + b) == (m + n) + (x + y)
  {
    forall r
      ensures ((o + p) + (a + b))[r] == ((m + n) + (x + y))[r]
    {
      assert (o + a)[r] == (m + x)[r] && (p + b)[r] == (n + y)[r];
    }
  }

  lemma AddLater<T>(x: multiset<T>, y: multiset<T>, z: multiset<T>)
    ensures x + (y + z) == (x + y) + z
  {}

  lemma {:induction false} SumMetUnion(g: Graph, a: set<Ref>, b: set<Ref>)
    requires a <= g.Keys && b <= g.Keys && a !! b
    ensures SumMet(g, a + b) == SumMet(g, a) + SumMet(g, b)
    decreases a
  {
    if a == {} {
      assert a + b == b;
    } else {
      var r :| r in a;
      SumMetSplit(g, a, r);
      SumMetSplit(g, a + b, r);
      SumMetUnion(g, a - {r}, b);
      assert a + b - {r} == (a - {r}) + b;
      AddLater(MetIn(g[r]), SumMet(g, a - {r}), SumMet(g, b));
    }
  }

  /** The objects of the input that stand in a result as themselves, each as often as it does. */
  function Originals(o: Out): multiset<Ref>
    decreases o, 0
  {
    match o
    case NewArray(es) => OriginalsAll(es)
    case NewObject(ms) => OriginalsIn(ms)
    case Original(r) => multiset{r}
    case _ => multiset{}
  }

  function OriginalsAll(es: seq<Out>): multiset<Ref>
    decreases es, 1
  {
    if es == [] then multiset{} else Originals(es[0]) + OriginalsAll(es[1..])
  }

  function OriginalsIn(ms: seq<Member>): multiset<Ref>
    decreases ms, 1
  {
    if ms == [] then multiset{} else Originals(ms[0].value) + OriginalsIn(ms[1..])
  }

  /** The walk's balance: every meeting is either the one that enters the object or one that hands it out as itself.
      */
  ghost predicate Balanced(g: Graph, originals: multiset<Ref>, met: multiset<Ref>, seen: set<Ref>, after: set<Ref>) {
    && seen <= after && after - seen <= g.Keys
    && originals + multiset(after - seen) == met + SumMet(g, after - seen)
    && forall r :: r in originals ==> r in after
  }

  lemma BalanceNothing(g: Graph, seen: set<Ref>)
    ensures Balanced(g, multiset{}, multiset{}, seen, seen)
  {
    var none: set<Ref> := {};
    assert seen - seen == none && multiset(none) == multiset{} && SumMet(g, none) == multiset{};
  }

  lemma BalanceJoins(g: Graph, o1: multiset<Ref>, m1: multiset<Ref>, o2: multiset<Ref>, m2: multiset<Ref>,
                     seen: set<Ref>, middle: set<Ref>, after: set<Ref>)
    requires Balanced(g, o1, m1, seen, middle) && Balanced(g, o2, m2, middle, after)
    ensures Balanced(g, o1 + o2, m1 + m2, seen, after)
  {
    var a, b := middle - seen, after - middle;
    assert after - seen == a + b;
    SumMetUnion(g, a, b);
    assert multiset(a + b) == multiset(a) + multiset(b);
    AddBalances(o1, multiset(a), m1, SumMet(g, a), o2, multiset(b), m2, SumMet(g, b));
  }

  lemma BalanceEnters(g: Graph, ref: Ref, originals: multiset<Ref>, seen: set<Ref>, after: set<Ref>)
    requires ref in g && ref !in seen && Balanced(g, originals, MetIn(g[ref]), seen + {ref}, after)
    ensures Balanced(g, originals, multiset{ref}, seen, after)
  {
    var below := after - (seen + {ref});
    assert after - seen == below + {ref} && below + {ref} - {ref} == below;
    SumMetSplit(g, after - seen, ref);
    assert multiset(below + {ref}) == multiset(below) + multiset{ref};
  }

  lemma {:induction false} VisitBalances(g: Graph, v: Value, key: Option<string>, seen: set<Ref>)
    requires Closed(g) && InGraph(g, v)
    ensures Balanced(g, Originals(Visit(g, v, key, seen).0), Met(v), seen, Visit(g, v, key, seen).1)
    decreases g.Keys - seen, 0
  {
    BalanceNothing(g, seen);
    if v.Object? {
      if v.ref !in seen {
        assert v.ref in g.Keys - seen && g.Keys - (seen + {v.ref}) < g.Keys - seen;
        match g[v.ref] {
          case Items(items) => VisitAllBalances(g, items, key, seen + {v.ref});
          case Fields(fields) => VisitFieldsBalances(g, fields, seen + {v.ref});
        }
        BalanceEnters(g, v.ref, Originals(Visit(g, v, key, seen).0), seen, Visit(g, v, key, seen).1);
      }
    }
  }

  lemma {:induction false} VisitAllBalances(g: Graph, vs: seq<Value>, key: Option<string>, seen: set<Ref>)
    requires Closed(g) && InGraphAll(g, vs)
    ensures var r := VisitAll(g, vs, key, seen); Balanced(g, OriginalsAll(r.0), MetAll(vs), seen, r.1)
    decreases g.Keys - seen, 1, |vs|
  {
    if vs == [] {
      BalanceNothing(g, seen);
    } else {
      var first := Visit(g, vs[0], key, seen);
      VisitBalances(g, vs[0], key, seen);
      assert g.Keys - first.1 == g.Keys - seen || g.Keys - first.1 < g.Keys - seen;
      VisitAllBalances(g, vs[1..], key, first.1);
      var rest := VisitAll(g, vs[1..], key, first.1);
      assert ([first.0] + rest.0)[1..] == rest.0;
      BalanceJoins(g, Originals(first.0), Met(vs[0]), OriginalsAll(rest.0), MetAll(vs[1..]), seen, first.1, rest.1);
    }
  }

  lemma {:induction false} VisitFieldsBalances(g: Graph, fs: seq<Field>, seen: set<Ref>)
    requires Closed(g) && InGraphFields(g, fs)
    ensures var r := VisitFields(g, fs, seen); Balanced(g, OriginalsIn(r.0), MetFields(fs), seen, r.1)
    decreases g.Keys - seen, 1, |fs|
  {
    BalanceNothing(g, seen);
    if fs != [] {
      var first := VisitField(g, fs[0], seen);
      if !IsPiiField(fs[0].0) { VisitBalances(g, fs[0].1, Some(fs[0].0), seen); }
      assert g.Keys - first.1 == g.Keys - seen || g.Keys - first.1 < g.Keys - seen;
      VisitFieldsBalances(g, fs[1..], first.1);
      var rest := VisitFields(g, fs[1..], first.1);
      assert ([Member(fs[0].0, first.0)] + rest.0)[1..] == rest.0;
      BalanceJoins(
        g, Originals(first.0), MetField(fs[0]), OriginalsIn(rest.0), MetFields(fs[1..]), seen, first.1, rest.1);
    }
  }

  // ---------------------------------------------------------------- what the walk gets to see

  /** The set holds what the record leads to, and what its own members lead to. */
  ghost predicate Covers(g: Graph, info: Value, s: set<Ref>) {
    && s <= g.Keys
    && (forall r :: r in Met(info) ==> r in s)
    && (forall a, r :: a in s && r in MetIn(g[a]) ==> r in s)
  }

  /** The objects that the record leads to outside personal keys, directly or not, and no others. */
  ghost predicate IsVisible(g: Graph, info: Value, s: set<Ref>) {
    Covers(g, info, s) && forall t :: Covers(g, info, t) ==> s <= t
  }

  ghost predicate ClosedIn(g: Graph, t: set<Ref>) {
    t <= g.Keys && forall a, r :: a in t && r in MetIn(g[a]) ==> r in t
  }

  lemma {:induction false} EntersOnlyNeeded(g: Graph, v: Value, key: Option<string>, seen: set<Ref>, t: set<Ref>)
    requires Closed(g) && InGraph(g, v) && ClosedIn(g, t) && forall r :: r in Met(v) ==> r in t
    ensures Visit(g, v, key, seen).1 - seen <= t
    decreases g.Keys - seen, 0
  {
    if v.Object? && v.ref !in seen {
      assert v.ref in Met(v);
      assert v.ref in g.Keys - seen && g.Keys - (seen + {v.ref}) < g.Keys - seen;
      match g[v.ref] {
        case Items(items) => EntersOnlyNeededAll(g, items, key, seen + {v.ref}, t);
        case Fields(fields) => EntersOnlyNeededFields(g, fields, seen + {v.ref}, t);
      }
    }
  }

  lemma {:induction false} EntersOnlyNeededAll(
      g: Graph, vs: seq<Value>, key: Option<string>, seen: set<Ref>, t: set<Ref>)
    requires Closed(g) && InGraphAll(g, vs) && ClosedIn(g, t) && forall r :: r in MetAll(vs) ==> r in t
    ensures VisitAll(g, vs, key, seen).1 - seen <= t
    decreases g.Keys - seen, 1, |vs|
  {
    if vs != [] {
      var first := Visit(g, vs[0], key, seen);
      EntersOnlyNeeded(g, vs[0], key, seen, t);
      assert g.Keys - first.1 == g.Keys - seen || g.Keys - first.1 < g.Keys - seen;
      EntersOnlyNeededAll(g, vs[1..], key, first.1, t);
    }
  }

  lemma {:induction false} EntersOnlyNeededFields(g: Graph, fs: seq<Field>, seen: set<Ref>, t: set<Ref>)
    requires Closed(g) && InGraphFields(g, fs) && ClosedIn(g, t) && forall r :: r in MetFields(fs) ==> r in t
    ensures VisitFields(g, fs, seen).1 - seen <= t
    decreases g.Keys - seen, 1, |fs|
  {
    if fs != [] {
      var first := VisitField(g, fs[0], seen);
      if !IsPiiField(fs[0].0) { EntersOnlyNeeded(g, fs[0].1, Some(fs[0].0), seen, t); }
      assert g.Keys - first.1 == g.Keys - seen || g.Keys - first.1 < g.Keys - seen;
      EntersOnlyNeededFields(g, fs[1..], first.1, t);
    }
  }

  /** What the walk enters is exactly what is visible. */
  lemma EntersTheVisible(g: Graph, info: Value)
    requires Closed(g) && InGraph(g, info)
    ensures IsVisible(g, info, Visit(g, info, None, {}).1)
  {
    var v := Visit(g, info, None, {});
    VisitBalances(g, info, None, {});
    assert v.1 - {} == v.1;
    forall a, r | a in v.1 && r in MetIn(g[a])
      ensures r in v.1
    {
      SumMetSplit(g, v.1, a);
      assert r in Originals(v.0) + multiset(v.1);
    }
    forall r | r in Met(info)
      ensures r in v.1
    {
      assert r in Originals(v.0) + multiset(v.1);
    }
    forall t | Covers(g, info, t)
      ensures v.1 <= t
    {
      EntersOnlyNeeded(g, info, None, {}, t);
    }
  }

  /** How often the walk comes to an object, in a record with the given visible objects. */
  ghost function Meetings(g: Graph, info: Value, s: set<Ref>): multiset<Ref>
    requires s <= g.Keys
  {
    Met(info) + SumMet(g, s)
  }

  lemma BalanceFromNothing(g: Graph, originals: multiset<Ref>, met: multiset<Ref>, s: set<Ref>, r: Ref)
    requires s <= g.Keys && Balanced(g, originals, met, {}, s)
    ensures originals[r] + (if r in s then 1 else 0) == (met + SumMet(g, s))[r]
    ensures r in originals <==> (met + SumMet(g, s))[r] >= 2
  {
    assert s - {} == s;
    assert (originals + multiset(s))[r] == (met + SumMet(g, s))[r];
  }

  lemma VisibleIsUnique(g: Graph, info: Value, s: set<Ref>, t: set<Ref>)
    requires IsVisible(g, info, s) && IsVisible(g, info, t)
    ensures s == t
  {}

  /** Conservation: an object stands in the masked record as itself exactly once less often than the walk comes to
      it. */
  lemma OriginalsAreRepeats(g: Graph, info: Value, s: set<Ref>, r: Ref)
    requires Closed(g) && InGraph(g, info) && IsVisible(g, info, s)
    ensures Originals(Visit(g, info, None, {}).0)[r] + (if r in s then 1 else 0) == Meetings(g, info, s)[r]
    ensures r in Originals(Visit(g, info, None, {}).0) <==> Meetings(g, info, s)[r] >= 2
  {
    var v := Visit(g, info, None, {});
    EntersTheVisible(g, info);
    VisibleIsUnique(g, info, s, v.1);
    VisitBalances(g, info, None, {});
    BalanceFromNothing(g, Originals(v.0), Met(info), s, r);
  }

  // ---------------------------------------------------------------- what an original shows

  function Below(n: Node): seq<Value> {
    match n
    case Items(items) => items
    case Fields(fields) => seq(|fields|, i requires 0 <= i < |fields| => fields[i].1)
  }

  /** A way through the input from object to object, under any key. */
  predicate IsWay(g: Graph, way: seq<Ref>) {
    && way != [] && (forall i :: 0 <= i < |way| ==> way[i] in g)
    && forall i :: 0 < i < |way| ==> Object(way[i]) in Below(g[way[i - 1]])
  }

  ghost predicate Leads(g: Graph, a: Ref, b: Ref) {
    exists way :: IsWay(g, way) && way[0] == a && way[|way| - 1] == b
  }

  /** A text with an address in it. */
  ghost predicate ShowsText(v: Value) {
    v.Text? && !Free(v.text)
  }

  /** Some property of an object has an address in its name. */
  ghost predicate NamesAddress(n: Node) {
    n.Fields? && exists i :: 0 <= i < |n.fields| && !Free(n.fields[i].0)
  }

  /** An object with an address in a text or a name, or with a value under a personal key other than the redaction. */
  ghost predicate Personal(n: Node) {
    || NamesAddress(n)
    || (exists i :: 0 <= i < |Below(n)| && ShowsText(Below(n)[i]))
    || (n.Fields? && exists i :: 0 <= i < |n.fields| && IsPiiField(n.fields[i].0) && n.fields[i].1 != Text(REDACTED))
  }

  ghost predicate Leaky(g: Graph, r: Ref) {
    exists x :: x in g && Leads(g, r, x) && Personal(g[x])
  }

  /** A masked record, read with its names and through the originals in it, shows an address or an unredacted value
      under a personal key. */
  ghost predicate Shows(g: Graph, o: Out) {
    match o
    case Masked(s) => !Free(s)
    case NewArray(es) => exists i :: 0 <= i < |es| && Shows(g, es[i])
    case NewObject(ms) => exists i :: 0 <= i < |ms| && ShowsMember(g, ms[i])
    case Original(r) => Leaky(g, r)
    case Same(_) => false
  }

  ghost predicate ShowsMember(g: Graph, m: Member) {
    !Free(m.name) || (IsPiiField(m.name) && m.value != Masked(REDACTED)) || Shows(g, m.value)
  }

  // ---------------------------------------------------------------- names

  /** The walk gives a built object its entries' names, those of personal entries included. */
  lemma {:induction false} NamesAreKept(g: Graph, fs: seq<Field>, seen: set<Ref>, i: nat)
    requires Closed(g) && InGraphFields(g, fs) && i < |fs|
    ensures VisitFields(g, fs, seen).0[i].name == fs[i].0
    decreases |fs|
  {
    if i > 0 { NamesAreKept(g, fs[1..], VisitField(g, fs[0], seen).1, i - 1); }
  }

  /** Some object that the walk built has an address in a name. */
  ghost predicate BuiltName(o: Out)
    decreases o, 0
  {
    match o
    case NewArray(es) => BuiltNameAll(es)
    case NewObject(ms) => BuiltNameIn(ms)
    case _ => false
  }

  ghost predicate BuiltNameAll(es: seq<Out>)
    decreases es, 1
  {
    es != [] && (BuiltName(es[0]) || BuiltNameAll(es[1..]))
  }

  ghost predicate BuiltNameIn(ms: seq<Member>)
    decreases ms, 1
  {
    ms != [] && (!Free(ms[0].name) || BuiltName(ms[0].value) || BuiltNameIn(ms[1..]))
  }

  ghost predicate AddressAmong(g: Graph, s: set<Ref>) {
    exists r :: r in s && r in g && NamesAddress(g[r])
  }

  lemma AmongUnion(g: Graph, a: set<Ref>, b: set<Ref>)
    ensures AddressAmong(g, a + b) <==> AddressAmong(g, a) || AddressAmong(g, b)
  {
    if AddressAmong(g, a) {
      var r :| r in a && r in g && NamesAddress(g[r]);
      assert r in a + b;
    }
    if AddressAmong(g, b) {
      var r :| r in b && r in g && NamesAddress(g[r]);
      assert r in a + b;
    }
  }

  lemma AmongSteps(g: Graph, seen: set<Ref>, middle: set<Ref>, after: set<Ref>)
    requires seen <= middle <= after
    ensures AddressAmong(g, after - seen) <==> AddressAmong(g, middle - seen) || AddressAmong(g, after - middle)
  {
    assert after - seen == (middle - seen) + (after - middle);
    AmongUnion(g, middle - seen, after - middle);
  }

  lemma AmongEntered(g: Graph, ref: Ref, seen: set<Ref>, after: set<Ref>)
    requires ref in g && ref !in seen && seen + {ref} <= after
    ensures AddressAmong(g, after - seen) <==> NamesAddress(g[ref]) || AddressAmong(g, after - (seen + {ref}))
  {
    AmongSteps(g, seen, seen + {ref}, after);
    assert seen + {ref} - seen == {ref};
    assert ref in {ref};
  }

  /** Some entry of a list has an address in its name. */
  ghost predicate AddressIn(fs: seq<Field>) {
    exists i :: 0 <= i < |fs| && !Free(fs[i].0)
  }

  lemma AddressInSplits(fs: seq<Field>)
    requires fs != []
    ensures AddressIn(fs) <==> !Free(fs[0].0) || AddressIn(fs[1..])
  {
    if AddressIn(fs[1..]) {
      var i :| 0 <= i < |fs[1..]| && !Free(fs[1..][i].0);
      assert !Free(fs[i + 1].0);
    }
    if AddressIn(fs) {
      var i :| 0 <= i < |fs| && !Free(fs[i].0);
      assert i > 0 ==> !Free(fs[1..][i - 1].0);
    }
  }

  /** What the walk built has an address in a name exactly when an object that it entered has one. */
  lemma {:induction false} VisitNames(g: Graph, v: Value, key: Option<string>, seen: set<Ref>)
    requires Closed(g) && InGraph(g, v)
    ensures var r := Visit(g, v, key, seen); BuiltName(r.0) <==> AddressAmong(g, r.1 - seen)
    decreases g.Keys - seen, 0
  {
    if v.Object? && v.ref !in seen {
      assert v.ref in g.Keys - seen && g.Keys - (seen + {v.ref}) < g.Keys - seen;
      AmongEntered(g, v.ref, seen, Visit(g, v, key, seen).1);
      match g[v.ref] {
        case Items(items) => VisitAllNames(g, items, key, seen + {v.ref});
        case Fields(fields) => VisitFieldsNames(g, fields, seen + {v.ref});
      }
    }
  }

  lemma {:induction false} VisitAllNames(g: Graph, vs: seq<Value>, key: Option<string>, seen: set<Ref>)
    requires Closed(g) && InGraphAll(g, vs)
    ensures var r := VisitAll(g, vs, key, seen); BuiltNameAll(r.0) <==> AddressAmong(g, r.1 - seen)
    decreases g.Keys - seen, 1, |vs|
  {
    if vs != [] {
      var first := Visit(g, vs[0], key, seen);
      VisitNames(g, vs[0], key, seen);
      SmallerOrSame(g, seen, first.1);
      VisitAllNames(g, vs[1..], key, first.1);
      var rest := VisitAll(g, vs[1..], key, first.1);
      assert ([first.0] + rest.0)[1..] == rest.0;
      AmongSteps(g, seen, first.1, rest.1);
    }
  }

  lemma {:induction false} VisitFieldsNames(g: Graph, fs: seq<Field>, seen: set<Ref>)
    requires Closed(g) && InGraphFields(g, fs)
    ensures var r := VisitFields(g, fs, seen);
      BuiltNameIn(r.0) <==> AddressIn(fs) || AddressAmong(g, r.1 - seen)
    decreases g.Keys - seen, 1, |fs|
  {
    if fs != [] {
      var first := VisitField(g, fs[0], seen);
      if !IsPiiField(fs[0].0) { VisitNames(g, fs[0].1, Some(fs[0].0), seen); }
      assert BuiltName(first.0) <==> AddressAmong(g, first.1 - seen);
      SmallerOrSame(g, seen, first.1);
      VisitFieldsNames(g, fs[1..], first.1);
      var rest := VisitFields(g, fs[1..], first.1);
      assert ([Member(fs[0].0, first.0)] + rest.0)[1..] == rest.0;
      AmongSteps(g, seen, first.1, rest.1);
      AddressInSplits(fs);
    }
  }

  lemma {:induction false} BuiltNameAllIs(es: seq<Out>)
    ensures BuiltNameAll(es) <==> exists i :: 0 <= i < |es| && BuiltName(es[i])
  {
    if es != [] {
      BuiltNameAllIs(es[1..]);
      if i :| 0 <= i < |es| && BuiltName(es[i]) { assert i > 0 ==> BuiltName(es[1..][i - 1]); }
      if i :| 0 <= i < |es[1..]| && BuiltName(es[1..][i]) { assert BuiltName(es[i + 1]); }
    }
  }

  ghost predicate BuiltNameAt(m: Member) {
    !Free(m.name) || BuiltName(m.value)
  }

  lemma {:induction false} BuiltNameInIs(ms: seq<Member>)
    ensures BuiltNameIn(ms) <==> exists i :: 0 <= i < |ms| && BuiltNameAt(ms[i])
  {
    if ms != [] {
      BuiltNameInIs(ms[1..]);
      if i :| 0 <= i < |ms| && BuiltNameAt(ms[i]) { assert i > 0 ==> BuiltNameAt(ms[1..][i - 1]); }
      if i :| 0 <= i < |ms[1..]| && BuiltNameAt(ms[1..][i]) { assert BuiltNameAt(ms[i + 1]); }
    }
  }

  // ---------------------------------------------------------------- names and originals, and nothing else

  lemma {:induction false} OriginalAmong(es: seq<Out>, i: nat)
    requires i < |es|
    ensures Originals(es[i]) <= OriginalsAll(es)
    decreases |es|
  {
    if i > 0 { OriginalAmong(es[1..], i - 1); }
  }

  lemma {:induction false} OriginalFrom(es: seq<Out>, r: Ref) returns (i: nat)
    requires r in OriginalsAll(es)
    ensures i < |es| && r in Originals(es[i])
    decreases |es|
  {
    i := 0;
    if r !in Originals(es[0]) {
      var j := OriginalFrom(es[1..], r);
      i := j + 1;
    }
  }

  function Values(ms: seq<Member>): seq<Out> {
    seq(|ms|, i requires 0 <= i < |ms| => ms[i].value)
  }

  lemma {:induction false} OriginalsOfValues(ms: seq<Member>)
    ensures OriginalsIn(ms) == OriginalsAll(Values(ms))
    decreases |ms|
  {
    if ms != [] {
      OriginalsOfValues(ms[1..]);
      assert Values(ms)[1..] == Values(ms[1..]);
    }
  }

  ghost predicate LeaksThrough(g: Graph, originals: multiset<Ref>) {
    exists r :: r in originals && Leaky(g, r)
  }

  lemma AnyLeaks(g: Graph, es: seq<Out>)
    ensures LeaksThrough(g, OriginalsAll(es)) <==> exists i :: 0 <= i < |es| && LeaksThrough(g, Originals(es[i]))
  {
    if i :| 0 <= i < |es| && LeaksThrough(g, Originals(es[i])) {
      OriginalAmong(es, i);
      var r :| r in Originals(es[i]) && Leaky(g, r);
      assert r in OriginalsAll(es);
    }
    if LeaksThrough(g, OriginalsAll(es)) {
      var r :| r in OriginalsAll(es) && Leaky(g, r);
      var i := OriginalFrom(es, r);
      assert LeaksThrough(g, Originals(es[i]));
    }
  }

  lemma ArrayShows(g: Graph, es: seq<Out>)
    requires forall i :: 0 <= i < |es| ==>
      (Shows(g, es[i]) <==> BuiltName(es[i]) || LeaksThrough(g, Originals(es[i])))
    ensures Shows(g, NewArray(es)) <==> BuiltNameAll(es) || LeaksThrough(g, OriginalsAll(es))
  {
    BuiltNameAllIs(es);
    AnyLeaks(g, es);
  }

  lemma ObjectShows(g: Graph, ms: seq<Member>)
    requires MembersSafe(ms)
    requires forall i :: 0 <= i < |ms| ==>
      (Shows(g, ms[i].value) <==> BuiltName(ms[i].value) || LeaksThrough(g, Originals(ms[i].value)))
    ensures Shows(g, NewObject(ms)) <==> BuiltNameIn(ms) || LeaksThrough(g, OriginalsIn(ms))
  {
    var es := Values(ms);
    BuiltNameInIs(ms);
    OriginalsOfValues(ms);
    AnyLeaks(g, es);
    forall i | 0 <= i < |ms|
      ensures ShowsMember(g, ms[i]) <==> BuiltNameAt(ms[i]) || LeaksThrough(g, Originals(es[i]))
    {
      assert es[i] == ms[i].value;
    }
  }

  /** The values that the walk built are safe, so personal data shows in a name, through an original, or not at all.
      */
  lemma {:induction false} ShowsInNamesOrOriginals(g: Graph, o: Out)
    requires Safe(o)
    ensures Shows(g, o) <==> BuiltName(o) || LeaksThrough(g, Originals(o))
    decreases o
  {
    match o {
      case NewArray(es) =>
        forall i | 0 <= i < |es|
          ensures Shows(g, es[i]) <==> BuiltName(es[i]) || LeaksThrough(g, Originals(es[i]))
        {
          ShowsInNamesOrOriginals(g, es[i]);
        }
        ArrayShows(g, es);
      case NewObject(ms) =>
        forall i | 0 <= i < |ms|
          ensures Shows(g, ms[i].value) <==> BuiltName(ms[i].value) || LeaksThrough(g, Originals(ms[i].value))
        {
          ShowsInNamesOrOriginals(g, ms[i].value);
        }
        ObjectShows(g, ms);
      case Original(r) =>
        assert Leaky(g, r) ==> r in Originals(o);
      case _ =>
    }
  }

  /** A masked log record shows personal data if and only if some visible object has an address in a property's
      name, or some object that the walk comes to at least twice leads, in the input, to personal data of any kind.
      */
  lemma LeaksExactlyWhen(g: Graph, info: Value, s: set<Ref>)
    requires Closed(g) && InGraph(g, info) && IsVisible(g, info, s)
    ensures Shows(g, Visit(g, info, None, {}).0) <==>
      || (exists r :: r in s && NamesAddress(g[r]))
      || (exists r :: r in Meetings(g, info, s) && Meetings(g, info, s)[r] >= 2 && Leaky(g, r))
  {
    var v := Visit(g, info, None, {});
    VisitIsSafe(g, info, None, {});
    ShowsInNamesOrOriginals(g, v.0);
    EntersTheVisible(g, info);
    VisibleIsUnique(g, info, s, v.1);
    VisitNames(g, info, None, {});
    assert v.1 - {} == s;
    forall r
      ensures r in Originals(v.0) <==> Meetings(g, info, s)[r] >= 2
    {
      OriginalsAreRepeats(g, info, s, r);
    }
  }

  lemma ShortestAddress()
    ensures !Free("a@b.co")
  {
    var s := "a@b.co";
    EmailFromShape(s, 1, 3);
    assert s[0..6] == s;
  }

  lemma OneMember(m: Member)
    requires m.value.Masked? || m.value.Same?
    ensures OriginalsIn([m]) == multiset{}
  {
    assert [m][1..] == [];
    assert Originals(m.value) + OriginalsIn([]) == multiset{};
  }

  /** A record of one object with one plain property under the given name. */
  lemma OneProperty(g: Graph, name: string, v: Value)
    requires g == map[0 := Fields([(name, v)])] && !v.Object?
    ensures Closed(g)
    ensures var o := Visit(g, Object(0), None, {}).0;
      o.NewObject? && |o.members| == 1 && o.members[0].name == name && Originals(o) == multiset{}
  {
    var fs := g[0].fields;
    assert fs[1..] == [] && {} + {0} == {0};
    assert Closed(g);
    var first, value := VisitField(g, fs[0], {0}), Visit(g, v, Some(name), {0});
    assert value.0.Masked? || value.0.Same?;
    assert VisitFields(g, fs, {0}).0 == [Member(name, first.0)] + [];
    var ms := VisitFields(g, fs, {0}).0;
    assert Visit(g, Object(0), None, {}).0 == NewObject(ms);
    assert ms == [Member(name, first.0)];
    OneMember(ms[0]);
  }

  /** A record with an address for a property's name, in which no object repeats, shows that address. */
  lemma AddressAsName(g: Graph, v: Value)
    requires g == map[0 := Fields([("a@b.co", v)])] && !v.Object?
    ensures Closed(g) && Originals(Visit(g, Object(0), None, {}).0) == multiset{}
    ensures Shows(g, Visit(g, Object(0), None, {}).0)
  {
    var name := g[0].fields[0].0;
    ShortestAddress();
    OneProperty(g, name, v);
    var o := Visit(g, Object(0), None, {}).0;
    assert ShowsMember(g, o.members[0]);
  }
}
