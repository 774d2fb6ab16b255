/** The log masker's walk over an object graph that may share objects and may be cyclic. */
module PiiMask {
  import opened Wrappers
  import opened EmailPattern

  // ---------------------------------------------------------------- which keys are personal

  const PII_FIELDS: seq<string> := ["password", "token", "authorization", "cookie", "creditcard", "secret"]
  const REDACTED: string := "[REDACTED]"

  /** One character of a key after toLowerCase and the removal of everything but a-z and 0-9. The Kelvin sign
      and the dotted capital I are the two characters outside ASCII whose lower case contains an ASCII letter. */
  function NormalizeChar(c: char): string {
    if 'A' <= c <= 'Z' then [c - 'A' + 'a']
    else if 'a' <= c <= 'z' || '0' <= c <= '9' then [c]
    else if c == '\U{212A}' then "k"
    else if c == '\U{130}' then "i"
    else ""
  }

  function NormalizeKey(key: string): string {
    if key == "" then "" else NormalizeKey(key[..|key| - 1]) + NormalizeChar(key[|key| - 1])
  }

  predicate Includes(s: string, part: string) {
    part <= s || (s != "" && Includes(s[1..], part))
  }

  predicate IncludesAny(s: string, parts: seq<string>)
    decreases |parts|, |s|
  {
    parts != [] && (Includes(s, parts[0]) || IncludesAny(s, parts[1..]))
  }

  predicate IsPiiField(key: string) {
    IncludesAny(NormalizeKey(key), PII_FIELDS)
  }

  ghost predicate HoldsAt(s: string, part: string, i: nat) {
    i + |part| <= |s| && s[i..i + |part|] == part
  }

  ghost predicate HoldsSome(s: string, parts: seq<string>) {
    exists f: string, i: nat :: f in parts && HoldsAt(s, f, i)
  }

  lemma HoldsAtStart(s: string, part: string)
    ensures HoldsAt(s, part, 0) <==> part <= s
  {}

  lemma HoldsLater(s: string, part: string, i: nat)
    requires s != ""
    ensures HoldsAt(s, part, i + 1) <==> HoldsAt(s[1..], part, i)
  {
    if i + 1 + |part| <= |s| { assert s[i + 1..i + 1 + |part|] == s[1..][i..i + |part|]; }
  }

  lemma {:induction false} IncludesIs(s: string, part: string)
    ensures Includes(s, part) <==> exists i: nat :: HoldsAt(s, part, i)
  {
    HoldsAtStart(s, part);
    if s != "" {
      IncludesIs(s[1..], part);
      forall i: nat
        ensures HoldsAt(s, part, i + 1) <==> HoldsAt(s[1..], part, i)
      {
        HoldsLater(s, part, i);
      }
      if i: nat :| HoldsAt(s[1..], part, i) { assert HoldsAt(s, part, i + 1); }
      if i: nat :| HoldsAt(s, part, i) { assert i == 0 || HoldsAt(s[1..], part, i - 1); }
    }
  }

  lemma {:induction false} IncludesAnyIs(s: string, parts: seq<string>)
    ensures IncludesAny(s, parts) <==> HoldsSome(s, parts)
    decreases |parts|
  {
    if parts != [] {
      IncludesIs(s, parts[0]);
      IncludesAnyIs(s, parts[1..]);
      assert forall f :: f in parts <==> f == parts[0] || f in parts[1..];
    }
  }

  /** A key as the field list is compared with it: lower-case letters and digits only. */
  predicate IsNormal(s: string) {
    forall i :: 0 <= i < |s| ==> 'a' <= s[i] <= 'z' || '0' <= s[i] <= '9'
  }

  lemma {:induction false} NormalizeIsNormal(key: string)
    ensures IsNormal(NormalizeKey(key))
  {
    if key != "" { NormalizeIsNormal(key[..|key| - 1]); }
  }

  lemma {:induction false} NormalStays(key: string)
    requires IsNormal(key)
    ensures NormalizeKey(key) == key
  {
    if key != "" { NormalStays(key[..|key| - 1]); }
  }

  // ---------------------------------------------------------------- and how they are spelled

  /** A character of a key that counts as the lower-case letter or digit w. */
  predicate Reads(c: char, w: char) {
    || (c == w && ('a' <= w <= 'z' || '0' <= w <= '9'))
    || ('A' <= c <= 'Z' && c as int + 32 == w as int)
    || (c == '\U{212A}' && w == 'k')
    || (c == '\U{130}' && w == 'i')
  }

  /** A character that counts as nothing. */
  predicate Silent(c: char) {
    !('A' <= c <= 'Z' || 'a' <= c <= 'z' || '0' <= c <= '9' || c == '\U{212A}' || c == '\U{130}')
  }

  ghost predicate Increasing(pos: seq<nat>) {
    forall j, k :: 0 <= j < k < |pos| ==> pos[j] < pos[k]
  }

  ghost predicate ReadsEach(key: string, pos: seq<nat>, word: string) {
    |pos| == |word| && forall k :: 0 <= k < |pos| ==> pos[k] < |key| && Reads(key[pos[k]], word[k])
  }

  ghost predicate SilentBetween(key: string, pos: seq<nat>) {
    pos != [] ==> forall i :: pos[0] <= i <= pos[|pos| - 1] && i !in pos ==> i < |key| && Silent(key[i])
  }

  /** The word stands in the key, letter by letter at the given positions, with nothing but silent characters in
      between. */
  ghost predicate Spells(key: string, pos: seq<nat>, word: string) {
    Increasing(pos) && ReadsEach(key, pos, word) && SilentBetween(key, pos)
  }

  /** The positions that do count. */
  function Sounding(key: string): seq<nat> {
    if key == "" then []
    else Sounding(key[..|key| - 1]) + if Silent(key[|key| - 1]) then [] else [|key| - 1]
  }

  ghost predicate AreSounding(key: string, all: seq<nat>) {
    Increasing(all) && forall i :: i in all <==> 0 <= i < |key| && !Silent(key[i])
  }

  lemma {:induction false} SoundingIs(key: string)
    ensures AreSounding(key, Sounding(key))
  {
    if key != "" {
      var init := Sounding(key[..|key| - 1]);
      SoundingIs(key[..|key| - 1]);
      forall k | 0 <= k < |init|
        ensures init[k] < |key| - 1
      {
        assert init[k] in init;
      }
    }
  }

  /** Each of them gives one character of the normalised key. */
  lemma {:induction false} SoundingReads(key: string)
    ensures ReadsEach(key, Sounding(key), NormalizeKey(key))
  {
    if key != "" { SoundingReads(key[..|key| - 1]); }
  }

  /** Between two neighbours of an increasing list nothing of the list is left out. */
  lemma WindowHasAll(all: seq<nat>, i: nat, n: nat, x: nat)
    requires Increasing(all)
    requires 0 < n && i + n <= |all| && all[i] <= x <= all[i + n - 1] && x in all
    ensures x in all[i..i + n]
  {
    var m :| 0 <= m < |all| && all[m] == x;
    assert all[i..i + n][m - i] == x;
  }

  lemma WindowIsSilent(key: string, all: seq<nat>, i: nat, n: nat)
    requires AreSounding(key, all) && 0 < n && i + n <= |all|
    ensures SilentBetween(key, all[i..i + n])
  {
    var pos := all[i..i + n];
    assert all[i + n - 1] in all;
    forall x | pos[0] <= x <= pos[|pos| - 1] && x !in pos
      ensures x < |key| && Silent(key[x])
    {
      if x in all { WindowHasAll(all, i, n, x); }
    }
  }

  lemma WindowReads(key: string, all: seq<nat>, normal: string, word: string, i: nat)
    requires ReadsEach(key, all, normal) && HoldsAt(normal, word, i)
    ensures ReadsEach(key, all[i..i + |word|], word)
  {
    assert forall k :: 0 <= k < |word| ==> word[k] == normal[i..i + |word|][k];
  }

  /** A word that stands in the normalised key is spelled in the key. */
  lemma WindowSpells(key: string, all: seq<nat>, normal: string, word: string, i: nat) returns (pos: seq<nat>)
    requires AreSounding(key, all) && ReadsEach(key, all, normal) && HoldsAt(normal, word, i) && word != ""
    ensures Spells(key, pos, word)
  {
    WindowReads(key, all, normal, word, i);
    WindowIsSilent(key, all, i, |word|);
    pos := all[i..i + |word|];
  }

  lemma Nearer(key: string, all: seq<nat>, pos: seq<nat>, k: nat, m: nat)
    requires AreSounding(key, all) && Increasing(pos) && SilentBetween(key, pos)
    requires 0 < k < |pos| && 0 < m < |all| && all[m - 1] == pos[k - 1] && pos[k] in all
    ensures all[m] == pos[k]
  {
    var n :| 0 <= n < |all| && all[n] == pos[k];
    var x := all[m];
    assert x in all;
    if x != pos[k] {
      assert pos[0] <= x <= pos[|pos| - 1];
      var j :| 0 <= j < |pos| && pos[j] == x;
      assert false;
    }
  }

  /** The positions of a spelled word follow one another among those that count. */
  lemma {:induction false} SpelledInStep(
      key: string, all: seq<nat>, pos: seq<nat>, word: string, i: nat, k: nat)
    requires AreSounding(key, all) && Spells(key, pos, word) && k < |pos| && i < |all| && all[i] == pos[0]
    ensures i + k < |all| && all[i + k] == pos[k]
    decreases k
  {
    if k > 0 {
      SpelledInStep(key, all, pos, word, i, k - 1);
      assert Reads(key[pos[k]], word[k]);
      assert pos[k] in all && pos[k - 1] < pos[k];
      Nearer(key, all, pos, k, i + k);
    }
  }

  lemma HoldsFrom(s: string, part: string, i: nat)
    requires i + |part| <= |s| && forall k :: 0 <= k < |part| ==> s[i + k] == part[k]
    ensures HoldsAt(s, part, i)
  {
    assert s[i..i + |part|] == part;
  }

  /** And a word that is spelled in the key stands in the normalised key. */
  lemma SpelledHolds(key: string, all: seq<nat>, normal: string, pos: seq<nat>, word: string) returns (i: nat)
    requires AreSounding(key, all) && ReadsEach(key, all, normal) && Spells(key, pos, word) && word != ""
    ensures HoldsAt(normal, word, i)
  {
    assert Reads(key[pos[0]], word[0]);
    i :| 0 <= i < |all| && all[i] == pos[0];
    forall k | 0 <= k < |word|
      ensures i + k < |normal| && normal[i + k] == word[k]
    {
      SpelledInStep(key, all, pos, word, i, k);
      assert Reads(key[pos[k]], word[k]) && Reads(key[pos[k]], normal[i + k]);
    }
    SpelledInStep(key, all, pos, word, i, |word| - 1);
    HoldsFrom(normal, word, i);
  }

  /** A key is personal exactly when one of the six words stands in it, each letter in either case and with any
      punctuation in between. */
  lemma PiiFieldIs(key: string)
    ensures IsPiiField(key) <==>
      exists word, pos ::
        word in ["password", "token", "authorization", "cookie", "creditcard", "secret"] && Spells(key, pos, word)
  {
    IncludesAnyIs(NormalizeKey(key), PII_FIELDS);
    SoundingIs(key);
    SoundingReads(key);
    if IsPiiField(key) {
      var word, i: nat :| word in PII_FIELDS && HoldsAt(NormalizeKey(key), word, i);
      var pos := WindowSpells(key, Sounding(key), NormalizeKey(key), word, i);
    }
    if word, pos :| word in PII_FIELDS && Spells(key, pos, word) {
      var i := SpelledHolds(key, Sounding(key), NormalizeKey(key), pos, word);
    }
  }

  /** Once normalised a key stays as it is, and it is as personal as before. */
  lemma NormalizedOnce(key: string)
    ensures IsNormal(NormalizeKey(key)) && NormalizeKey(NormalizeKey(key)) == NormalizeKey(key)
    ensures IsPiiField(NormalizeKey(key)) == IsPiiField(key)
  {
    NormalizeIsNormal(key);
    NormalStays(NormalizeKey(key));
  }

  predicate SameLetter(c: char, d: char) {
    || c == d
    || ('A' <= c <= 'Z' && c as int + 32 == d as int)
    || ('A' <= d <= 'Z' && d as int + 32 == c as int)
  }

  predicate SameButCase(a: string, b: string) {
    |a| == |b| && forall i :: 0 <= i < |a| ==> SameLetter(a[i], b[i])
  }

  lemma SpellsInAnyCase(a: string, b: string, pos: seq<nat>, word: string)
    requires SameButCase(a, b) && Spells(a, pos, word)
    ensures Spells(b, pos, word)
  {
    forall k | 0 <= k < |pos|
      ensures Reads(b[pos[k]], word[k])
    {
      assert SameLetter(a[pos[k]], b[pos[k]]) && Reads(a[pos[k]], word[k]);
    }
    forall i | pos != [] && pos[0] <= i <= pos[|pos| - 1] && i !in pos
      ensures Silent(b[i])
    {
      assert SameLetter(a[i], b[i]) && Silent(a[i]);
    }
  }

  /** Case makes no difference. */
  lemma CaseDoesNotMatter(a: string, b: string)
    requires SameButCase(a, b)
    ensures IsPiiField(a) <==> IsPiiField(b)
  {
    PiiFieldIs(a);
    PiiFieldIs(b);
    assert SameButCase(b, a);
    if word, pos :| word in PII_FIELDS && Spells(a, pos, word) { SpellsInAnyCase(a, b, pos, word); }
    if word, pos :| word in PII_FIELDS && Spells(b, pos, word) { SpellsInAnyCase(b, a, pos, word); }
  }

  function From(a: nat, n: nat): (pos: seq<nat>)
    ensures |pos| == n && forall k :: 0 <= k < n ==> pos[k] == a + k
  {
    seq(n, k requires 0 <= k < n => a + k)
  }

  lemma SpelledInOne(before: string, word: string, after: string)
    requires IsNormal(word)
    ensures Spells(before + word + after, From(|before|, |word|), word)
  {
    var pos := From(|before|, |word|);
    forall i | |before| <= i < |before| + |word|
      ensures i in pos
    {
      assert pos[i - |before|] == i;
    }
  }

  lemma SameAround(before: string, word: string, written: string, after: string)
    requires SameButCase(word, written)
    ensures SameButCase(before + word + after, before + written + after)
  {
    var a, b, n := before + word + after, before + written + after, |before|;
    forall i | 0 <= i < |a|
      ensures SameLetter(a[i], b[i])
    {
      if n <= i < n + |word| { assert a[i] == word[i - n] && b[i] == written[i - n]; } else { assert a[i] == b[i]; }
    }
  }

  /** Each of the six words is personal, in any case and with anything around it. */
  lemma WordsArePersonal(before: string, word: string, written: string, after: string)
    requires word in ["password", "token", "authorization", "cookie", "creditcard", "secret"]
    requires SameButCase(word, written)
    ensures IsPiiField(before + written + after)
  {
    SpelledInOne(before, word, after);
    PiiFieldIs(before + word + after);
    SameAround(before, word, written, after);
    CaseDoesNotMatter(before + word + after, before + written + after);
  }

  // ---------------------------------------------------------------- graphs and results

  type Ref = nat

  /** A value as the walk meets it. Other stands for numbers, booleans, functions and the like. */
  datatype Value = Null | Undefined | Text(text: string) | Other(tag: int) | Object(ref: Ref)

  type Field = (string, Value)

  /** An array or a plain object with its own enumerable entries, in order. */
  datatype Node = Items(items: seq<Value>) | Fields(fields: seq<Field>)

  type Graph = map<Ref, Node>

  predicate InGraphAll(g: Graph, vs: seq<Value>) {
    forall i :: 0 <= i < |vs| ==> InGraph(g, vs[i])
  }

  predicate InGraphFields(g: Graph, fs: seq<Field>) {
    forall i :: 0 <= i < |fs| ==> InGraph(g, fs[i].1)
  }

  ghost predicate Closed(g: Graph) {
    forall r :: r in g ==>
      (g[r].Items? ==> InGraphAll(g, g[r].items)) && (g[r].Fields? ==> InGraphFields(g, g[r].fields))
  }

  predicate InGraph(g: Graph, v: Value) {
    v.Object? ==> v.ref in g
  }

  /** What the walk builds: fresh arrays and objects, except that an object met before is handed
      out again as it is, by reference and unmasked. */
  datatype Out =
    | Same(value: Value)
    | Masked(text: string)
    | NewArray(elements: seq<Out>)
    | NewObject(members: seq<Member>)
    | Original(ref: Ref)

  datatype Member = Member(name: string, value: Out)

  function MaskText(s: string, key: Option<string>): string {
    if key.Some? && key.value != "" && IsPiiField(key.value) then REDACTED else MaskEmails(s)
  }

  /** Result and `seen` set of visit(value, key, seen). */
  ghost function Visit(g: Graph, v: Value, key: Option<string>, seen: set<Ref>): (r: (Out, set<Ref>))
    requires Closed(g) && InGraph(g, v)
    ensures seen <= r.1
    decreases g.Keys - seen, 0
  {
    match v
    case Text(s) => (Masked(MaskText(s, key)), seen)
    case Object(ref) =>
      if ref in seen then (Original(ref), seen)
      else
        assert ref in g.Keys - seen && g.Keys - (seen + {ref}) < g.Keys - seen;
        (match g[ref]
         case Items(items) =>
           var r := VisitAll(g, items, key, seen + {ref});
           (NewArray(r.0), r.1)
         case Fields(fields) =>
           var r := VisitFields(g, fields, seen + {ref});
           (NewObject(r.0), r.1))
    case _ => (Same(v), seen)
  }

  /** The walk over an array: every element under the array's own key. */
  ghost function VisitAll(g: Graph, vs: seq<Value>, key: Option<string>, seen: set<Ref>): (r: (seq<Out>, set<Ref>))
    requires Closed(g) && InGraphAll(g, vs)
    ensures seen <= r.1 && |r.0| == |vs|
    decreases g.Keys - seen, 1, |vs|
  {
    if vs == [] then ([], seen)
    else
      var first := Visit(g, vs[0], key, seen);
      assert g.Keys - first.1 == g.Keys - seen || g.Keys - first.1 < g.Keys - seen;
      var rest := VisitAll(g, vs[1..], key, first.1);
      ([first.0] + rest.0, rest.1)
  }

  ghost function VisitFields(g: Graph, fs: seq<Field>, seen: set<Ref>): (r: (seq<Member>, set<Ref>))
    requires Closed(g) && InGraphFields(g, fs)
    ensures seen <= r.1 && |r.0| == |fs|
    decreases g.Keys - seen, 2, |fs|
  {
    if fs == [] then ([], seen)
    else
      var first := VisitField(g, fs[0], seen);
      assert g.Keys - first.1 == g.Keys - seen || g.Keys - first.1 < g.Keys - seen;
      var rest := VisitFields(g, fs[1..], first.1);
      ([Member(fs[0].0, first.0)] + rest.0, rest.1)
  }

  /** A value under a personal key is replaced unseen. */
  ghost function VisitField(g: Graph, f: Field, seen: set<Ref>): (r: (Out, set<Ref>))
    requires Closed(g) && InGraph(g, f.1)
    ensures seen <= r.1
    decreases g.Keys - seen, 1, 0
  {
    if IsPiiField(f.0) then (Masked(REDACTED), seen) else Visit(g, f.1, Some(f.0), seen)
  }

  // ---------------------------------------------------------------- the walk itself

  lemma SmallerOrSame(g: Graph, before: set<Ref>, after: set<Ref>)
    requires before <= after
    ensures g.Keys - after == g.Keys - before || g.Keys - after < g.Keys - before
  {}

  /** The walk's `seen`. The log records every entry into an object. */
  class WeakSet {
    var members: set<Ref>
    ghost var log: seq<Ref>

    constructor ()
      ensures members == {} && log == []
    {
      members, log := {}, [];
    }

    ghost predicate Valid()
      reads this
    {
      && (forall r :: r in members <==> r in log)
      && (forall i, j :: 0 <= i < j < |log| ==> log[i] != log[j])
    }

    method Add(ref: Ref)
      requires Valid() && ref !in members
      modifies this
      ensures Valid() && members == old(members) + {ref} && log == old(log) + [ref]
    {
      members, log := members + {ref}, log + [ref];
    }
  }

  /** visit: terminates on every finite graph, enters each object at most once (the log never repeats), and writes
      nothing but `seen`. */
  method VisitValue(g: Graph, v: Value, key: Option<string>, seen: WeakSet) returns (out: Out)
    requires Closed(g) && InGraph(g, v) && seen.Valid()
    modifies seen
    ensures (out, seen.members) == Visit(g, v, key, old(seen.members))
    ensures seen.Valid() && old(seen.log) <= seen.log
    decreases g.Keys - seen.members, 0
  {
    match v {
      case Text(s) => out := Masked(MaskText(s, key));
      case Object(ref) =>
        if ref in seen.members { return Original(ref); }
        ghost var left := g.Keys - seen.members;
        seen.Add(ref);
        assert ref in left && g.Keys - seen.members < left;
        match g[ref] {
          case Items(items) =>
            var elements := VisitItems(g, items, key, seen);
            out := NewArray(elements);
          case Fields(fields) =>
            var members := VisitEntries(g, fields, seen);
            out := NewObject(members);
        }
      case _ => out := Same(v);
    }
  }

  method VisitItems(g: Graph, items: seq<Value>, key: Option<string>, seen: WeakSet) returns (elements: seq<Out>)
    requires Closed(g) && InGraphAll(g, items) && seen.Valid()
    modifies seen
    ensures (elements, seen.members) == VisitAll(g, items, key, old(seen.members))
    ensures seen.Valid() && old(seen.log) <= seen.log
    decreases g.Keys - seen.members, 1
  {
    ghost var entered := seen.members;
    elements := [];
    assert items[0..] == items;
    PrependNothing(VisitAll(g, items, key, entered));
    for i := 0 to |items|
      invariant seen.Valid() && old(seen.log) <= seen.log && entered <= seen.members
      invariant Prepend(elements, VisitAll(g, items[i..], key, seen.members)) == VisitAll(g, items, key, entered)
    {
      assert items[i..][0] == items[i] && items[i..][1..] == items[i + 1..];
      SmallerOrSame(g, entered, seen.members);
      var element := VisitValue(g, items[i], key, seen);
      PrependOne(elements, element, VisitAll(g, items[i + 1..], key, seen.members));
      elements := elements + [element];
    }
    assert elements + [] == elements;
  }

  method VisitEntries(g: Graph, fields: seq<Field>, seen: WeakSet) returns (members: seq<Member>)
    requires Closed(g) && InGraphFields(g, fields) && seen.Valid()
    modifies seen
    ensures (members, seen.members) == VisitFields(g, fields, old(seen.members))
    ensures seen.Valid() && old(seen.log) <= seen.log
    decreases g.Keys - seen.members, 1
  {
    ghost var entered := seen.members;
    members := [];
    assert fields[0..] == fields;
    PrependNothing(VisitFields(g, fields, entered));
    for i := 0 to |fields|
      invariant seen.Valid() && old(seen.log) <= seen.log && entered <= seen.members
      invariant Prepend(members, VisitFields(g, fields[i..], seen.members)) == VisitFields(g, fields, entered)
    {
      assert fields[i..][0] == fields[i] && fields[i..][1..] == fields[i + 1..];
      SmallerOrSame(g, entered, seen.members);
      var (k, value) := fields[i];
      var member := Masked(REDACTED);
      if !IsPiiField(k) { member := VisitValue(g, value, Some(k), seen); }
      PrependOne(members, Member(k, member), VisitFields(g, fields[i + 1..], seen.members));
      members := members + [Member(k, member)];
    }
    assert members + [] == members;
  }

  /** The winston format: one walk from the log record, with a fresh `seen`. */
  method MaskRecord(g: Graph, info: Value) returns (out: Out)
    requires Closed(g) && InGraph(g, info)
    ensures out == Visit(g, info, None, {}).0
  {
    var seen := new WeakSet();
    out := VisitValue(g, info, None, seen);
  }

  // ---------------------------------------------------------------- tree-shaped input

  /** A finite unfolding of the part of a graph that the walk looks at: what lies under a personal key is Hidden. */
  datatype Tree =
    | Leaf(value: Value)
    | Hidden
    | ArrayOf(ref: Ref, elements: seq<Tree>)
    | ObjectOf(ref: Ref, members: seq<Branch>)

  datatype Branch = Branch(name: string, tree: Tree)

  ghost predicate Denotes(g: Graph, v: Value, t: Tree)
    decreases t, 0
  {
    match t
    case Leaf(value) => v == value && !v.Object?
    case Hidden => false
    case ArrayOf(ref, elements) =>
      v == Object(ref) && ref in g && g[ref].Items? && DenotesAll(g, g[ref].items, elements)
    case ObjectOf(ref, members) =>
      v == Object(ref) && ref in g && g[ref].Fields? && DenotesFields(g, g[ref].fields, members)
  }

  ghost predicate DenotesAll(g: Graph, vs: seq<Value>, ts: seq<Tree>)
    decreases ts, 1
  {
    if ts == [] then vs == [] else vs != [] && Denotes(g, vs[0], ts[0]) && DenotesAll(g, vs[1..], ts[1..])
  }

  ghost predicate DenotesFields(g: Graph, fs: seq<Field>, ts: seq<Branch>)
    decreases ts, 1
  {
    if ts == [] then fs == []
    else
      fs != [] && DenotesField(g, fs[0], ts[0]) && DenotesFields(g, fs[1..], ts[1..])
  }

  ghost predicate DenotesField(g: Graph, f: Field, t: Branch)
    decreases t, 1
  {
    f.0 == t.name && if IsPiiField(f.0) then t.tree == Hidden else Denotes(g, f.1, t.tree)
  }

  /** The objects of a tree, each with the multiplicity with which the walk meets it. */
  ghost function Refs(t: Tree): multiset<Ref>
    decreases t, 0
  {
    match t
    case Leaf(_) => multiset{}
    case Hidden => multiset{}
    case ArrayOf(ref, elements) => multiset{ref} + RefsAll(elements)
    case ObjectOf(ref, members) => multiset{ref} + RefsFields(members)
  }

  ghost function RefsAll(ts: seq<Tree>): multiset<Ref>
    decreases ts, 1
  {
    if ts == [] then multiset{} else Refs(ts[0]) + RefsAll(ts[1..])
  }

  ghost function RefsFields(ts: seq<Branch>): multiset<Ref>
    decreases ts, 1
  {
    if ts == [] then multiset{} else Refs(ts[0].tree) + RefsFields(ts[1..])
  }

  /** No object is met twice, and none has been seen before. */
  ghost predicate Once(refs: multiset<Ref>, seen: set<Ref>) {
    forall r :: r in refs ==> refs[r] == 1 && r !in seen
  }

  ghost function Support(refs: multiset<Ref>): (s: set<Ref>) {
    set r | r in refs
  }

  /** The pure recursive masker: REDACTED under every personal key at any depth, every other string e-mail masked. */
  ghost function MaskTree(t: Tree, key: Option<string>): Out
    decreases t, 0
  {
    match t
    case Leaf(Text(s)) => Masked(MaskText(s, key))
    case Leaf(v) => Same(v)
    case Hidden => Masked(REDACTED)
    case ArrayOf(_, elements) => NewArray(MaskTrees(elements, key))
    case ObjectOf(_, members) => NewObject(MaskMembers(members))
  }

  ghost function MaskTrees(ts: seq<Tree>, key: Option<string>): (outs: seq<Out>)
    ensures |outs| == |ts|
    decreases ts, 1
  {
    if ts == [] then [] else [MaskTree(ts[0], key)] + MaskTrees(ts[1..], key)
  }

  ghost function MaskMembers(ts: seq<Branch>): (outs: seq<Member>)
    ensures |outs| == |ts|
    decreases ts, 1
  {
    if ts == [] then [] else [Member(ts[0].name, MaskTree(ts[0].tree, Some(ts[0].name)))] + MaskMembers(ts[1..])
  }

  lemma OnceSplits(a: multiset<Ref>, b: multiset<Ref>, seen: set<Ref>)
    requires Once(a + b, seen)
    ensures Once(a, seen) && Once(b, seen + Support(a)) && Support(a + b) == Support(a) + Support(b)
  {
    forall r | r in a
      ensures a[r] == 1 && r !in seen
    {
      assert r in a + b;
    }
    forall r | r in b
      ensures b[r] == 1 && r !in seen + Support(a)
    {
      assert r in a + b && (a + b)[r] == a[r] + b[r];
    }
  }

  /** Entering an object on the way into a tree. */
  lemma EnterOnce(ref: Ref, below: multiset<Ref>, seen: set<Ref>)
    requires Once(multiset{ref} + below, seen)
    ensures ref !in seen && Once(below, seen + {ref})
    ensures seen + {ref} + Support(below) == seen + Support(multiset{ref} + below)
  {
    OnceSplits(multiset{ref}, below, seen);
    assert Support(multiset{ref}) == {ref};
    assert ref in multiset{ref} + below;
  }

  /** On tree-shaped input the walk is the pure recursive masker. */
  lemma {:induction false} VisitTree(g: Graph, v: Value, t: Tree, key: Option<string>, seen: set<Ref>)
    requires Closed(g) && InGraph(g, v) && Denotes(g, v, t) && Once(Refs(t), seen)
    ensures Visit(g, v, key, seen) == (MaskTree(t, key), seen + Support(Refs(t)))
    decreases t, 0
  {
    match t {
      case Leaf(_) => assert seen + Support(multiset{}) == seen;
      case ArrayOf(ref, elements) =>
        EnterOnce(ref, RefsAll(elements), seen);
        VisitTrees(g, g[ref].items, elements, key, seen + {ref});
      case ObjectOf(ref, members) =>
        EnterOnce(ref, RefsFields(members), seen);
        VisitMembers(g, g[ref].fields, members, seen + {ref});
    }
  }

  lemma {:induction false} VisitTrees(g: Graph, vs: seq<Value>, ts: seq<Tree>, key: Option<string>, seen: set<Ref>)
    requires Closed(g) && InGraphAll(g, vs) && DenotesAll(g, vs, ts) && Once(RefsAll(ts), seen)
    ensures VisitAll(g, vs, key, seen) == (MaskTrees(ts, key), seen + Support(RefsAll(ts)))
    decreases ts, 1
  {
    if ts != [] {
      OnceSplits(Refs(ts[0]), RefsAll(ts[1..]), seen);
      VisitTree(g, vs[0], ts[0], key, seen);
      VisitTrees(g, vs[1..], ts[1..], key, seen + Support(Refs(ts[0])));
      assert seen + Support(Refs(ts[0])) + Support(RefsAll(ts[1..])) == seen + Support(RefsAll(ts));
    } else {
      assert seen + Support(multiset{}) == seen;
    }
  }

  lemma {:induction false} VisitMember(g: Graph, f: Field, t: Branch, seen: set<Ref>)
    requires Closed(g) && InGraph(g, f.1) && DenotesField(g, f, t) && Once(Refs(t.tree), seen)
    ensures VisitField(g, f, seen) == (MaskTree(t.tree, Some(t.name)), seen + Support(Refs(t.tree)))
    decreases t, 1
  {
    if IsPiiField(f.0) {
      assert seen + Support(multiset{}) == seen;
    } else {
      VisitTree(g, f.1, t.tree, Some(f.0), seen);
    }
  }

  lemma {:induction false} VisitMembers(g: Graph, fs: seq<Field>, ts: seq<Branch>, seen: set<Ref>)
    requires Closed(g) && InGraphFields(g, fs) && DenotesFields(g, fs, ts) && Once(RefsFields(ts), seen)
    ensures VisitFields(g, fs, seen) == (MaskMembers(ts), seen + Support(RefsFields(ts)))
    decreases ts, 1
  {
    if ts != [] {
      var t := ts[0].tree;
      OnceSplits(Refs(t), RefsFields(ts[1..]), seen);
      VisitMember(g, fs[0], ts[0], seen);
      VisitMembers(g, fs[1..], ts[1..], seen + Support(Refs(t)));
      assert seen + Support(Refs(t)) + Support(RefsFields(ts[1..])) == seen + Support(RefsFields(ts));
    } else {
      assert seen + Support(multiset{}) == seen;
    }
  }

  // ---------------------------------------------------------------- what became of each value

  /** A way down a tree: at each step the position of an element or a member. */
  predicate IsWay(t: Tree, way: seq<nat>)
    decreases |way|
  {
    way == [] ||
    match t
    case ArrayOf(_, elements) => way[0] < |elements| && IsWay(elements[way[0]], way[1..])
    case ObjectOf(_, members) => way[0] < |members| && IsWay(members[way[0]].tree, way[1..])
    case _ => false
  }

  function TreeAt(t: Tree, way: seq<nat>): Tree
    requires IsWay(t, way)
    decreases |way|
  {
    if way == [] then t
    else if t.ArrayOf? then TreeAt(t.elements[way[0]], way[1..])
    else TreeAt(t.members[way[0]].tree, way[1..])
  }

  /** The same way down a masked record. */
  predicate IsOutWay(o: Out, way: seq<nat>)
    decreases |way|
  {
    way == [] ||
    match o
    case NewArray(elements) => way[0] < |elements| && IsOutWay(elements[way[0]], way[1..])
    case NewObject(members) => way[0] < |members| && IsOutWay(members[way[0]].value, way[1..])
    case _ => false
  }

  function OutAt(o: Out, way: seq<nat>): Out
    requires IsOutWay(o, way)
    decreases |way|
  {
    if way == [] then o
    else if o.NewArray? then OutAt(o.elements[way[0]], way[1..])
    else OutAt(o.members[way[0]].value, way[1..])
  }

  /** The key that a value stands under: the nearest member's name, arrays in between or not, or else the key that the
      walk began with. */
  function KeyAt(t: Tree, way: seq<nat>, key: Option<string>): Option<string>
    requires IsWay(t, way)
    decreases |way|
  {
    if way == [] then key
    else if t.ArrayOf? then KeyAt(t.elements[way[0]], way[1..], key)
    else KeyAt(t.members[way[0]].tree, way[1..], Some(t.members[way[0]].name))
  }

  /** What each kind of value is to become under its key. */
  ghost predicate Becomes(t: Tree, key: Option<string>, o: Out) {
    match t
    case Leaf(Text(s)) =>
      o == if key.Some? && IsPiiField(key.value) then Masked("[REDACTED]") else Masked(MaskEmails(s))
    case Leaf(v) => o == Same(v)
    case Hidden => o == Masked("[REDACTED]")
    case ArrayOf(_, elements) => o.NewArray? && |o.elements| == |elements|
    case ObjectOf(_, members) =>
      && o.NewObject? && |o.members| == |members|
      && forall i :: 0 <= i < |members| ==> o.members[i].name == members[i].name
  }

  lemma {:induction false} MaskTreesEach(ts: seq<Tree>, key: Option<string>, i: nat)
    requires i < |ts|
    ensures MaskTrees(ts, key)[i] == MaskTree(ts[i], key)
  {
    if i > 0 { MaskTreesEach(ts[1..], key, i - 1); }
  }

  lemma {:induction false} MaskMembersEach(ts: seq<Branch>, i: nat)
    requires i < |ts|
    ensures MaskMembers(ts)[i] == Member(ts[i].name, MaskTree(ts[i].tree, Some(ts[i].name)))
  {
    if i > 0 { MaskMembersEach(ts[1..], i - 1); }
  }

  lemma {:induction false} DenotesEach(g: Graph, vs: seq<Value>, ts: seq<Tree>, i: nat)
    requires DenotesAll(g, vs, ts) && i < |ts|
    ensures i < |vs| && Denotes(g, vs[i], ts[i])
    decreases i
  {
    if i > 0 { DenotesEach(g, vs[1..], ts[1..], i - 1); }
  }

  lemma {:induction false} DenotesFieldEach(g: Graph, fs: seq<Field>, ts: seq<Branch>, i: nat)
    requires DenotesFields(g, fs, ts) && i < |ts|
    ensures i < |fs| && DenotesField(g, fs[i], ts[i])
    decreases i
  {
    if i > 0 { DenotesFieldEach(g, fs[1..], ts[1..], i - 1); }
  }

  lemma NoNameIsHarmless()
    ensures !IsPiiField("")
  {
    PiiFieldIs("");
  }

  lemma MaskHere(t: Tree, key: Option<string>)
    ensures Becomes(t, key, MaskTree(t, key))
  {
    NoNameIsHarmless();
    if t.ObjectOf? {
      forall i | 0 <= i < |t.members|
        ensures MaskMembers(t.members)[i].name == t.members[i].name
      {
        MaskMembersEach(t.members, i);
      }
    }
  }

  lemma HiddenEnds(way: seq<nat>, key: Option<string>)
    requires IsWay(Hidden, way)
    ensures way == [] && IsOutWay(MaskTree(Hidden, key), way)
    ensures TreeAt(Hidden, way) == Hidden && OutAt(MaskTree(Hidden, key), way) == Masked(REDACTED)
  {}

  lemma {:induction false} MaskReaches(g: Graph, v: Value, t: Tree, key: Option<string>, way: seq<nat>)
    requires Denotes(g, v, t) && IsWay(t, way)
    ensures IsOutWay(MaskTree(t, key), way)
    ensures Becomes(TreeAt(t, way), KeyAt(t, way, key), OutAt(MaskTree(t, key), way))
    decreases |way|
  {
    if way == [] {
      MaskHere(t, key);
    } else if t.ArrayOf? {
      var i := way[0];
      DenotesEach(g, g[t.ref].items, t.elements, i);
      MaskTreesEach(t.elements, key, i);
      MaskReaches(g, g[t.ref].items[i], t.elements[i], key, way[1..]);
    } else {
      var i := way[0];
      DenotesFieldEach(g, g[t.ref].fields, t.members, i);
      var f, b := g[t.ref].fields[i], t.members[i];
      MaskMembersEach(t.members, i);
      if b.tree == Hidden {
        HiddenEnds(way[1..], Some(b.name));
      } else {
        MaskReaches(g, f.1, b.tree, Some(b.name), way[1..]);
      }
    }
  }

  /** At every depth of a tree-shaped value: whatever lies under a personal key has become "[REDACTED]", every other
      string has its addresses masked, every other value is the same, and arrays and objects have kept their sizes
      and names. A walk that begins with a personal key redacts the strings that no member's name stands over. */
  lemma MaskedEverywhere(g: Graph, v: Value, t: Tree, key: Option<string>, way: seq<nat>)
    requires Closed(g) && InGraph(g, v) && Denotes(g, v, t) && Once(Refs(t), {}) && IsWay(t, way)
    ensures var o := Visit(g, v, key, {}).0;
      IsOutWay(o, way) && Becomes(TreeAt(t, way), KeyAt(t, way, key), OutAt(o, way))
  {
    VisitTree(g, v, t, key, {});
    MaskReaches(g, v, t, key, way);
  }

  // ---------------------------------------------------------------- and only on tree-shaped input

  /** The result holds no object of the input. */
  predicate Fresh(o: Out) {
    match o
    case NewArray(es) => AllFresh(es)
    case NewObject(ms) => MembersFresh(ms)
    case Original(_) => false
    case _ => true
  }

  predicate AllFresh(es: seq<Out>) {
    forall i :: 0 <= i < |es| ==> Fresh(es[i])
  }

  predicate MembersFresh(ms: seq<Member>) {
    forall i :: 0 <= i < |ms| ==> Fresh(ms[i].value)
  }

  lemma FreshParts(e: Out, es: seq<Out>)
    requires AllFresh([e] + es)
    ensures Fresh(e) && AllFresh(es)
  {
    assert ([e] + es)[0] == e && forall i :: 0 <= i < |es| ==> es[i] == ([e] + es)[i + 1];
  }

  lemma FreshMemberParts(m: Member, ms: seq<Member>)
    requires MembersFresh([m] + ms)
    ensures Fresh(m.value) && MembersFresh(ms)
  {
    assert ([m] + ms)[0] == m && forall i :: 0 <= i < |ms| ==> ms[i] == ([m] + ms)[i + 1];
  }

  lemma OnceJoins(a: multiset<Ref>, b: multiset<Ref>, seen: set<Ref>)
    requires Once(a, seen) && Once(b, seen + Support(a))
    ensures Once(a + b, seen) && Support(a + b) == Support(a) + Support(b)
  {
    forall r | r in a + b
      ensures (a + b)[r] == 1 && r !in seen
    {
      if r in a { assert r in Support(a); }
    }
  }

  lemma JoinTrees(g: Graph, vs: seq<Value>, t: Tree, rest: seq<Tree>, seen: set<Ref>, middle: set<Ref>)
    requires vs != [] && Denotes(g, vs[0], t) && DenotesAll(g, vs[1..], rest)
    requires Once(Refs(t), seen) && Once(RefsAll(rest), middle) && middle == seen + Support(Refs(t))
    ensures DenotesAll(g, vs, [t] + rest) && Once(RefsAll([t] + rest), seen)
    ensures middle + Support(RefsAll(rest)) == seen + Support(RefsAll([t] + rest))
  {
    assert ([t] + rest)[1..] == rest;
    OnceJoins(Refs(t), RefsAll(rest), seen);
  }

  lemma {:induction false} FreshVisit(g: Graph, v: Value, key: Option<string>, seen: set<Ref>) returns (t: Tree)
    requires Closed(g) && InGraph(g, v) && Fresh(Visit(g, v, key, seen).0)
    ensures Denotes(g, v, t) && Once(Refs(t), seen) && Visit(g, v, key, seen).1 == seen + Support(Refs(t))
    decreases g.Keys - seen, 0
  {
    if v.Object? {
      var ref := v.ref;
      assert ref in g.Keys - seen && g.Keys - (seen + {ref}) < g.Keys - seen;
      assert Support(multiset{ref}) == {ref};
      match g[ref] {
        case Items(items) =>
          var ts := FreshVisitAll(g, items, key, seen + {ref});
          t := ArrayOf(ref, ts);
          OnceJoins(multiset{ref}, RefsAll(ts), seen);
        case Fields(fields) =>
          var ts := FreshVisitFields(g, fields, seen + {ref});
          t := ObjectOf(ref, ts);
          OnceJoins(multiset{ref}, RefsFields(ts), seen);
      }
    } else {
      t := Leaf(v);
    }
  }

  lemma {:induction false} FreshVisitAll(g: Graph, vs: seq<Value>, key: Option<string>, seen: set<Ref>)
    returns (ts: seq<Tree>)
    requires Closed(g) && InGraphAll(g, vs)
    requires AllFresh(VisitAll(g, vs, key, seen).0)
    ensures DenotesAll(g, vs, ts) && Once(RefsAll(ts), seen)
    ensures VisitAll(g, vs, key, seen).1 == seen + Support(RefsAll(ts))
    decreases g.Keys - seen, 1, |vs|
  {
    if vs == [] {
      ts := [];
    } else {
      var first := Visit(g, vs[0], key, seen);
      FreshParts(first.0, VisitAll(g, vs[1..], key, first.1).0);
      var t := FreshVisit(g, vs[0], key, seen);
      assert g.Keys - first.1 == g.Keys - seen || g.Keys - first.1 < g.Keys - seen;
      var rest := FreshVisitAll(g, vs[1..], key, first.1);
      ts := [t] + rest;
      JoinTrees(g, vs, t, rest, seen, first.1);
    }
  }

  lemma {:induction false} FreshVisitField(g: Graph, f: Field, seen: set<Ref>) returns (t: Branch)
    requires Closed(g) && InGraph(g, f.1) && Fresh(VisitField(g, f, seen).0)
    ensures DenotesField(g, f, t) && Once(Refs(t.tree), seen)
    ensures VisitField(g, f, seen).1 == seen + Support(Refs(t.tree))
    decreases g.Keys - seen, 1, 0
  {
    if IsPiiField(f.0) {
      t := Branch(f.0, Hidden);
    } else {
      var tree := FreshVisit(g, f.1, Some(f.0), seen);
      t := Branch(f.0, tree);
    }
  }

  lemma {:induction false} FreshVisitFields(g: Graph, fs: seq<Field>, seen: set<Ref>) returns (ts: seq<Branch>)
    requires Closed(g) && InGraphFields(g, fs)
    requires MembersFresh(VisitFields(g, fs, seen).0)
    ensures DenotesFields(g, fs, ts) && Once(RefsFields(ts), seen)
    ensures VisitFields(g, fs, seen).1 == seen + Support(RefsFields(ts))
    decreases g.Keys - seen, 1, |fs|
  {
    if fs == [] {
      ts := [];
    } else {
      var first := VisitField(g, fs[0], seen);
      FreshMemberParts(Member(fs[0].0, first.0), VisitFields(g, fs[1..], first.1).0);
      var t := FreshVisitField(g, fs[0], seen);
      assert g.Keys - first.1 == g.Keys - seen || g.Keys - first.1 < g.Keys - seen;
      var rest := FreshVisitFields(g, fs[1..], first.1);
      ts := [t] + rest;
      OnceJoins(Refs(t.tree), RefsFields(rest), seen);
    }
  }

  lemma {:induction false} MaskTreeFresh(t: Tree, key: Option<string>)
    ensures Fresh(MaskTree(t, key))
    decreases t, 0
  {
    match t {
      case ArrayOf(_, elements) => MaskTreesFresh(elements, key);
      case ObjectOf(_, members) => MaskMembersFresh(members);
      case _ =>
    }
  }

  lemma {:induction false} MaskTreesFresh(ts: seq<Tree>, key: Option<string>)
    ensures AllFresh(MaskTrees(ts, key))
    decreases ts, 1
  {
    if ts != [] {
      MaskTreeFresh(ts[0], key);
      MaskTreesFresh(ts[1..], key);
      assert forall i :: 0 < i < |ts| ==> MaskTrees(ts, key)[i] == MaskTrees(ts[1..], key)[i - 1];
    }
  }

  lemma {:induction false} MaskMembersFresh(ts: seq<Branch>)
    ensures MembersFresh(MaskMembers(ts))
    decreases ts, 1
  {
    if ts != [] {
      MaskTreeFresh(ts[0].tree, Some(ts[0].name));
      MaskMembersFresh(ts[1..]);
      assert forall i :: 0 < i < |ts| ==> MaskMembers(ts)[i] == MaskMembers(ts[1..])[i - 1];
    }
  }

  /** The masked record is free of the input's own objects exactly when the part of the input outside personal keys
      is a tree. Where an object is shared or cyclic, its second occurrence is the original, with nothing masked. */
  lemma FreshOnlyOnTrees(g: Graph, info: Value)
    requires Closed(g) && InGraph(g, info)
    ensures Fresh(Visit(g, info, None, {}).0) <==> exists t :: Denotes(g, info, t) && Once(Refs(t), {})
  {
    if Fresh(Visit(g, info, None, {}).0) {
      var t := FreshVisit(g, info, None, {});
    }
    if t :| Denotes(g, info, t) && Once(Refs(t), {}) {
      VisitTree(g, info, t, None, {});
      MaskTreeFresh(t, None);
    }
  }

  /** Listing one object twice is enough: whatever it holds, it comes out unmasked the second time. */
  lemma SharedObjectEscapes(g: Graph, a: Ref, r: Ref)
    requires Closed(g) && a in g && r in g && g[a] == Items([Object(r), Object(r)])
    ensures var o := Visit(g, Object(a), None, {}).0;
      o.NewArray? && |o.elements| == 2 && o.elements[1] == Original(r)
  {
    var items, last := g[a].items, [Object(r)];
    assert {} + {a} == {a} && items[1..] == last && last[1..] == [];
    var first := Visit(g, Object(r), None, {a});
    assert r in first.1;
    assert VisitAll(g, last, None, first.1).0 == [Original(r)] + [];
  }

  // ---------------------------------------------------------------- what a masked record shows

  /** No text that stands as a value holds an e-mail address, and every value under a personal key is REDACTED.
      Names are not looked at: the walk copies them as they are. */
  ghost predicate Safe(o: Out) {
    match o
    case Masked(s) => Free(s)
    case NewArray(es) => AllSafe(es)
    case NewObject(ms) => MembersSafe(ms)
    case _ => true
  }

  ghost predicate AllSafe(es: seq<Out>) {
    forall i :: 0 <= i < |es| ==> Safe(es[i])
  }

  ghost predicate MembersSafe(ms: seq<Member>) {
    forall i :: 0 <= i < |ms| ==> Safe(ms[i].value) && (IsPiiField(ms[i].name) ==> ms[i].value == Masked(REDACTED))
  }

  lemma RedactedIsFree()
    ensures Free(REDACTED)
  {
    forall b, e | 0 <= b <= e <= |REDACTED|
      ensures !Matches(EMAIL, REDACTED[b..e])
    {
      assert forall i :: 0 <= i < e - b ==> REDACTED[b..e][i] == REDACTED[b + i] && REDACTED[b + i] != '@';
      if Matches(EMAIL, REDACTED[b..e]) { var at, dot := EmailShape(REDACTED[b..e]); }
    }
  }

  lemma MaskedTextIsFree(s: string, key: Option<string>)
    ensures Free(MaskText(s, key)) && MaskText(MaskText(s, key), key) == MaskText(s, key)
  {
    RedactedIsFree();
    MaskedIsFree(s);
    MaskChangesOnlyEmails(s);
  }

  /** On every graph, cyclic or shared, the values that the walk built itself are safe; only an Original or a name
      can leak. */
  lemma {:induction false} VisitIsSafe(g: Graph, v: Value, key: Option<string>, seen: set<Ref>)
    requires Closed(g) && InGraph(g, v)
    ensures Safe(Visit(g, v, key, seen).0)
    decreases g.Keys - seen, 0
  {
    if v.Text? {
      MaskedTextIsFree(v.text, key);
    } else if v.Object? && v.ref !in seen {
      assert v.ref in g.Keys - seen && g.Keys - (seen + {v.ref}) < g.Keys - seen;
      match g[v.ref] {
        case Items(items) => VisitAllIsSafe(g, items, key, seen + {v.ref});
        case Fields(fields) => VisitFieldsIsSafe(g, fields, seen + {v.ref});
      }
    }
  }

  lemma {:induction false} VisitAllIsSafe(g: Graph, vs: seq<Value>, key: Option<string>, seen: set<Ref>)
    requires Closed(g) && InGraphAll(g, vs)
    ensures AllSafe(VisitAll(g, vs, key, seen).0)
    decreases g.Keys - seen, 1, |vs|
  {
    if vs != [] {
      var first := Visit(g, vs[0], key, seen);
      VisitIsSafe(g, vs[0], key, seen);
      assert g.Keys - first.1 == g.Keys - seen || g.Keys - first.1 < g.Keys - seen;
      VisitAllIsSafe(g, vs[1..], key, first.1);
    }
  }

  lemma {:induction false} VisitFieldsIsSafe(g: Graph, fs: seq<Field>, seen: set<Ref>)
    requires Closed(g) && InGraphFields(g, fs)
    ensures MembersSafe(VisitFields(g, fs, seen).0)
    decreases g.Keys - seen, 1, |fs|
  {
    if fs != [] {
      var first := VisitField(g, fs[0], seen);
      RedactedIsFree();
      if !IsPiiField(fs[0].0) { VisitIsSafe(g, fs[0].1, Some(fs[0].0), seen); }
      assert g.Keys - first.1 == g.Keys - seen || g.Keys - first.1 < g.Keys - seen;
      VisitFieldsIsSafe(g, fs[1..], first.1);
    }
  }

  // ---------------------------------------------------------------- masking twice

  /** The tree t, which hides what lies under personal keys, reads as the masked record o. */
  ghost predicate ReadsAs(t: Tree, o: Out)
    decreases t, 0
  {
    match t
    case Leaf(Text(s)) => o == Masked(s)
    case Leaf(v) => o == Same(v)
    case Hidden => o == Masked(REDACTED)
    case ArrayOf(_, elements) => o.NewArray? && AllReadAs(elements, o.elements)
    case ObjectOf(_, members) => o.NewObject? && MembersReadAs(members, o.members)
  }

  ghost predicate AllReadAs(ts: seq<Tree>, os: seq<Out>)
    decreases ts, 1
  {
    if ts == [] then os == [] else os != [] && ReadsAs(ts[0], os[0]) && AllReadAs(ts[1..], os[1..])
  }

  ghost predicate MembersReadAs(ts: seq<Branch>, os: seq<Member>)
    decreases ts, 1
  {
    if ts == [] then os == []
    else os != [] && ts[0].name == os[0].name && ReadsAs(ts[0].tree, os[0].value) && MembersReadAs(ts[1..], os[1..])
  }

  lemma MaskTextKeepsRedacted(key: Option<string>)
    ensures MaskText(REDACTED, key) == REDACTED
  {
    RedactedIsFree();
    MaskChangesOnlyEmails(REDACTED);
  }

  lemma {:induction false} MaskTwice(t: Tree, u: Tree, key: Option<string>)
    requires ReadsAs(u, MaskTree(t, key))
    ensures MaskTree(u, key) == MaskTree(t, key)
    decreases t, 0
  {
    match t {
      case Leaf(v) => if v.Text? { MaskedTextIsFree(v.text, key); }
      case Hidden => MaskTextKeepsRedacted(key);
      case ArrayOf(_, elements) => MaskTwiceAll(elements, u.elements, key);
      case ObjectOf(_, members) => MaskTwiceMembers(members, u.members);
    }
  }

  lemma {:induction false} MaskTwiceAll(ts: seq<Tree>, us: seq<Tree>, key: Option<string>)
    requires AllReadAs(us, MaskTrees(ts, key))
    ensures MaskTrees(us, key) == MaskTrees(ts, key)
    decreases ts, 1
  {
    if ts != [] {
      assert MaskTrees(ts, key)[1..] == MaskTrees(ts[1..], key);
      MaskTwice(ts[0], us[0], key);
      MaskTwiceAll(ts[1..], us[1..], key);
    }
  }

  lemma {:induction false} MaskTwiceMembers(ts: seq<Branch>, us: seq<Branch>)
    requires MembersReadAs(us, MaskMembers(ts))
    ensures MaskMembers(us) == MaskMembers(ts)
    decreases ts, 1
  {
    if ts != [] {
      assert MaskMembers(ts)[1..] == MaskMembers(ts[1..]);
      MaskTwice(ts[0].tree, us[0].tree, Some(ts[0].name));
      MaskTwiceMembers(ts[1..], us[1..]);
    }
  }

  /** Masking is idempotent on trees: a record whose content is the masked record comes out of the walk unchanged. */
  lemma MaskerIsIdempotent(g: Graph, info: Value, t: Tree, h: Graph, again: Value, u: Tree)
    requires Closed(g) && InGraph(g, info) && Denotes(g, info, t) && Once(Refs(t), {})
    requires Closed(h) && InGraph(h, again) && Denotes(h, again, u) && Once(Refs(u), {})
    requires ReadsAs(u, Visit(g, info, None, {}).0)
    ensures Visit(h, again, None, {}).0 == Visit(g, info, None, {}).0
  {
    VisitTree(g, info, t, None, {});
    VisitTree(h, again, u, None, {});
    MaskTwice(t, u, None);
  }
}
