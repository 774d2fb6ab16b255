/** From a client's where-object to the find options handed to the database. */
module WhereCompiler {
  import opened Wrappers

  /** The one complaint of the compiler: $between wants exactly two bounds. */
  datatype Refusal = NotTwoBounds

  /** operatorMap's keys, in its order: $eq, $ne, $lt, $lte, $gt, $gte, $in, $nIn, $contains, $nContains, $iContains,
      $nIContains, $null, $nNull, $between, and then containsAll, containsAny and containsValue for Integer and for
      String. */
  datatype Op =
    | Eq | Ne | Lt | Lte | Gt | Gte | InList | NotInList
    | Contains | NotContains | IContains | NotIContains | NoValue | AnyValue | Range
    | AllIntegers | AnyInteger | ValueInteger | AllStrings | AnyString | ValueString

  /** The name of an entry: one of operatorMap's keys, or any other string. */
  datatype Name = Known(op: Op) | Other(text: string)

  datatype Scalar = Num(n: int) | Text(s: string) | Bool(b: bool) | Null

  datatype Arg = One(value: Scalar) | Many(values: seq<Arg>) | Nested(entries: seq<(string, Arg)>)

  /** A template string around one argument. */
  datatype Pattern = Pattern(before: string, arg: Arg, after: string)

  datatype Find =
    | Equal(arg: Arg)
    | Not(inner: Find)
    | LessThan(arg: Arg) | LessThanOrEqual(arg: Arg) | MoreThan(arg: Arg) | MoreThanOrEqual(arg: Arg)
    | In(values: seq<Arg>)
    | Like(pattern: Pattern) | ILike(pattern: Pattern)
    | IsNull
    | Between(low: Arg, high: Arg)
    | ContainsAll(arg: Arg, elementType: string) | ContainsAny(arg: Arg, elementType: string) | HasElement(arg: Arg)
    | Unknown(name: Name, arg: Arg) | Bare

  /** A property of the where-object: a scalar, or an object with entries. An array, a nested relation or a misspelt
      operator is such an object too, one with entries that name no operator, and a date is one without entries. */
  datatype Value = Plain(value: Scalar) | Operators(entries: seq<(Name, Arg)>)

  type Where = seq<(string, Value)>

  function Listed(a: Arg): seq<Arg> {
    if a.Many? then a.values else [a]
  }

  function BetweenOf(a: Arg): Result<Find, Refusal> {
    if a.Many? && |a.values| == 2 then Ok(Between(a.values[0], a.values[1])) else Err(NotTwoBounds)
  }

  /** What an operator makes of its argument. Only $between can refuse it. */
  function Act(op: Op, a: Arg): Result<Find, Refusal> {
    match op
    case Eq => Ok(Equal(a))
    case Ne => Ok(Not(Equal(a)))
    case Lt => Ok(LessThan(a))
    case Lte => Ok(LessThanOrEqual(a))
    case Gt => Ok(MoreThan(a))
    case Gte => Ok(MoreThanOrEqual(a))
    case InList => Ok(In(Listed(a)))
    case NotInList => Ok(Not(In(Listed(a))))
    case Contains => Ok(Like(Pattern("%", a, "%")))
    case NotContains => Ok(Not(Like(Pattern("%", a, "%"))))
    case IContains => Ok(ILike(Pattern("%", a, "%")))
    case NotIContains => Ok(Not(ILike(Pattern("%", a, "%"))))
    case NoValue => Ok(IsNull)
    case AnyValue => Ok(Not(IsNull))
    case Range => BetweenOf(a)
    case AllIntegers => Ok(ContainsAll(a, "integer"))
    case AnyInteger => Ok(ContainsAny(a, "integer"))
    case ValueInteger => Ok(HasElement(a))
    case AllStrings => Ok(ContainsAll(a, "string"))
    case AnyString => Ok(ContainsAny(a, "string"))
    case ValueString => Ok(HasElement(a))
  }

  /** A lookup in operatorMap and a call of what it finds: None for a name that it does not hold. */
  function Operator(name: Name, a: Arg): Option<Result<Find, Refusal>> {
    match name
    case Known(op) => Some(Act(op, a))
    case Other(_) => None
  }

  // ---------------------------------------------------------------- what is recognised

  predicate Refuses(entry: (Name, Arg)) {
    Operator(entry.0, entry.1) == Some(Err(NotTwoBounds))
  }

  function Named(o: Option<Result<Find, Refusal>>): seq<Find> {
    match o
    case Some(Ok(f)) => [f]
    case _ => []
  }

  /** The conditions that an operator object names, in order. */
  function Recognised(entries: seq<(Name, Arg)>): seq<Find> {
    if entries == [] then []
    else
      Recognised(entries[..|entries| - 1]) + Named(Operator(entries[|entries| - 1].0, entries[|entries| - 1].1))
  }

  function Conditions(v: Value): seq<Find> {
    match v
    case Plain(s) => [Equal(One(s))]
    case Operators(entries) => Recognised(entries)
  }

  ghost predicate Clean(v: Value) {
    v.Operators? ==> forall i :: 0 <= i < |v.entries| ==> !Refuses(v.entries[i])
  }

  ghost predicate AllClean(where: Where) {
    forall i :: 0 <= i < |where| ==> Clean(where[i].1)
  }

  /** A where-object read as a conjunction: each key with the conditions its value names. */
  type Conjunction = seq<(string, seq<Find>)>

  function Conjuncts(where: Where): (c: Conjunction)
    ensures |c| == |where|
  {
    seq(|where|, i requires 0 <= i < |where| => (where[i].0, Conditions(where[i].1)))
  }

  /** What applyWhere leaves for one key: the last condition its value names. */
  function Put(options: map<string, Find>, key: string, found: seq<Find>): map<string, Find> {
    if found == [] then options else options[key := found[|found| - 1]]
  }

  function Compiled(c: Conjunction): map<string, Find> {
    if c == [] then map[]
    else
      var (key, found) := c[|c| - 1];
      Put(Compiled(c[..|c| - 1]), key, found)
  }

  lemma PutNamed(options: map<string, Find>, key: string, found: seq<Find>, o: Option<Result<Find, Refusal>>)
    ensures Put(options, key, found + Named(o)) ==
      if o.Some? && o.value.Ok? then Put(options, key, found)[key := o.value.value] else Put(options, key, found)
  {
    assert found + [] == found;
  }

  lemma RecognisedGrow(
      entries: seq<(Name, Arg)>, j: nat, o: Option<Result<Find, Refusal>>, options: map<string, Find>, key: string)
    requires j < |entries| && o == Operator(entries[j].0, entries[j].1)
    ensures var before := Put(options, key, Recognised(entries[..j]));
      Put(options, key, Recognised(entries[..j + 1])) ==
        if o.Some? && o.value.Ok? then before[key := o.value.value] else before
  {
    assert entries[..j + 1][..j] == entries[..j];
    PutNamed(options, key, Recognised(entries[..j]), o);
  }

  /** One key: a scalar is taken as it is; of an object's operators each overwrites the one before it. */
  method ApplyKey(options: map<string, Find>, key: string, value: Value) returns (r: Result<map<string, Find>, Refusal>)
    ensures r == if Clean(value) then Ok(Put(options, key, Conditions(value))) else Err(NotTwoBounds)
  {
    var filled := options;
    match value {
      case Plain(s) => filled := filled[key := Equal(One(s))];
      case Operators(entries) =>
        for j := 0 to |entries|
          invariant forall k :: 0 <= k < j ==> !Refuses(entries[k])
          invariant filled == Put(options, key, Recognised(entries[..j]))
        {
          var found := Operator(entries[j].0, entries[j].1);
          RecognisedGrow(entries, j, found, options, key);
          if found.Some? {
            if found.value.Err? {
              assert Refuses(entries[j]);
              return Err(NotTwoBounds);
            }
            filled := filled[key := found.value.value];
          }
        }
        assert entries[..|entries|] == entries;
    }
    r := Ok(filled);
  }

  lemma ConjunctsGrow(where: Where, i: nat)
    requires i < |where|
    ensures Compiled(Conjuncts(where[..i + 1])) ==
      Put(Compiled(Conjuncts(where[..i])), where[i].0, Conditions(where[i].1))
  {
    assert Conjuncts(where[..i + 1])[..i] == Conjuncts(where[..i]);
  }

  /** applyWhere: the keys in order, until one of them is refused. */
  method ApplyWhere(where: Where) returns (r: Result<map<string, Find>, Refusal>)
    ensures r == if AllClean(where) then Ok(Compiled(Conjuncts(where))) else Err(NotTwoBounds)
  {
    var options: map<string, Find> := map[];
    for i := 0 to |where|
      invariant AllClean(where[..i]) && options == Compiled(Conjuncts(where[..i]))
    {
      ConjunctsGrow(where, i);
      var filled := ApplyKey(options, where[i].0, where[i].1);
      if filled.Err? {
        assert !Clean(where[i].1);
        return filled;
      }
      options := filled.value;
    }
    assert where[..|where|] == where;
    r := Ok(options);
  }

  // ---------------------------------------------------------------- what it means

  /** Keys of one object are distinct. */
  ghost predicate DistinctKeys(c: Conjunction) {
    forall i, j :: 0 <= i < j < |c| ==> c[i].0 != c[j].0
  }

  /** One row, seen as the conditions it satisfies, each on its column: any meaning at all for the operators. */
  type Row = iset<(string, Find)>

  ghost predicate Accepts(options: map<string, Find>, row: Row) {
    forall k :: k in options ==> (k, options[k]) in row
  }

  /** A whole conjunction: every condition of every key. */
  ghost predicate Satisfies(c: Conjunction, row: Row) {
    forall i, j :: 0 <= i < |c| && 0 <= j < |c[i].1| ==> (c[i].0, c[i].1[j]) in row
  }

  function Last(found: seq<Find>): Find
    requires found != []
  {
    found[|found| - 1]
  }

  /** The conjunction that keeps only the last condition of each key. */
  ghost predicate SatisfiesLast(c: Conjunction, row: Row) {
    forall i :: 0 <= i < |c| && c[i].1 != [] ==> (c[i].0, Last(c[i].1)) in row
  }

  predicate IsEntryFor(c: Conjunction, k: string, i: int) {
    0 <= i < |c| && c[i].0 == k && c[i].1 != []
  }

  lemma {:induction false} CompiledHolds(c: Conjunction, i: nat)
    requires DistinctKeys(c) && i < |c| && c[i].1 != []
    ensures c[i].0 in Compiled(c) && Compiled(c)[c[i].0] == Last(c[i].1)
    decreases |c|
  {
    var n := |c| - 1;
    if i < n { CompiledHolds(c[..n], i); }
  }

  lemma {:induction false} CompiledComesFrom(c: Conjunction, k: string) returns (i: nat)
    requires k in Compiled(c)
    ensures IsEntryFor(c, k, i)
    decreases |c|
  {
    var n := |c| - 1;
    if c[n].0 == k && c[n].1 != [] { i := n; } else { i := CompiledComesFrom(c[..n], k); }
  }

  /** The compiled options mean exactly the conjunction of each key's last condition. */
  lemma CompiledMeansLast(c: Conjunction, row: Row)
    requires DistinctKeys(c)
    ensures Accepts(Compiled(c), row) <==> SatisfiesLast(c, row)
  {
    forall i | 0 <= i < |c| && c[i].1 != []
      ensures c[i].0 in Compiled(c) && Compiled(c)[c[i].0] == Last(c[i].1)
    {
      CompiledHolds(c, i);
    }
    forall k | k in Compiled(c)
      ensures exists i :: IsEntryFor(c, k, i)
    {
      var i := CompiledComesFrom(c, k);
    }
  }

  /** Every condition of each key is the one that its last operator names: true at once when no key has two. */
  ghost predicate NothingLost(c: Conjunction) {
    forall i, j :: 0 <= i < |c| && 0 <= j < |c[i].1| ==> c[i].1[j] == Last(c[i].1)
  }

  lemma KeptExactly(c: Conjunction, row: Row)
    requires DistinctKeys(c) && NothingLost(c)
    ensures Accepts(Compiled(c), row) <==> Satisfies(c, row)
  {
    CompiledMeansLast(c, row);
    forall i | 0 <= i < |c| && c[i].1 != [] && Satisfies(c, row)
      ensures (c[i].0, Last(c[i].1)) in row
    {
      assert (c[i].0, c[i].1[|c[i].1| - 1]) in row;
    }
  }

  predicate Differ(a: (string, Find), b: (string, Find)) {
    a != b
  }

  /** The row that meets every condition but one. */
  ghost function AllBut(lost: (string, Find)): Row {
    iset p: (string, Find) | Differ(p, lost)
  }

  /** It is accepted all the same when that one was overwritten. */
  lemma DroppedRow(c: Conjunction, i: nat, j: nat)
    requires DistinctKeys(c) && i < |c| && j < |c[i].1| && c[i].1[j] != Last(c[i].1)
    ensures Accepts(Compiled(c), AllBut((c[i].0, c[i].1[j]))) && !Satisfies(c, AllBut((c[i].0, c[i].1[j])))
  {
    var lost := (c[i].0, c[i].1[j]);
    var row := AllBut(lost);
    CompiledMeansLast(c, row);
    forall x | 0 <= x < |c| && c[x].1 != []
      ensures (c[x].0, Last(c[x].1)) in row
    {
      assert Differ((c[x].0, Last(c[x].1)), lost);
    }
    assert lost !in row;
  }

  /** The compiled options keep a whole conjunction, whatever its conditions mean, if and only if no key names two
      different ones. Otherwise all but the last are dropped in silence. */
  lemma KeptWhenNothingLost(c: Conjunction)
    requires DistinctKeys(c)
    ensures NothingLost(c) <==> forall row: Row :: Accepts(Compiled(c), row) <==> Satisfies(c, row)
  {
    if NothingLost(c) {
      forall row: Row
        ensures Accepts(Compiled(c), row) <==> Satisfies(c, row)
      {
        KeptExactly(c, row);
      }
    } else {
      var i, j :| 0 <= i < |c| && 0 <= j < |c[i].1| && c[i].1[j] != Last(c[i].1);
      DroppedRow(c, i, j);
    }
  }

  // ---------------------------------------------------------------- what the client asked for

  /** The condition behind one entry; one that names no operator still asks for something. */
  function AskedBy(entry: (Name, Arg)): Find {
    match Operator(entry.0, entry.1)
    case Some(Ok(f)) => f
    case _ => Unknown(entry.0, entry.1)
  }

  /** What the client asks of one key: every entry counts, and an object without entries counts as itself. */
  function Asked(v: Value): (asked: seq<Find>) {
    match v
    case Plain(s) => [Equal(One(s))]
    case Operators(entries) =>
      if entries == [] then [Bare] else seq(|entries|, i requires 0 <= i < |entries| => AskedBy(entries[i]))
  }

  function Demands(where: Where): (c: Conjunction)
    ensures |c| == |where|
  {
    seq(|where|, i requires 0 <= i < |where| => (where[i].0, Asked(where[i].1)))
  }

  /** The compiler knows every entry of the value, and there is one. */
  predicate Understood(v: Value) {
    v.Operators? ==>
      v.entries != [] && forall i :: 0 <= i < |v.entries| ==> Operator(v.entries[i].0, v.entries[i].1).Some?
  }

  predicate AllUnderstood(where: Where) {
    forall i :: 0 <= i < |where| ==> Understood(where[i].1)
  }

  lemma OperatorIsKnown(name: Name, a: Arg)
    ensures var o := Operator(name, a); o.Some? && o.value.Ok? ==> !o.value.value.Unknown? && !o.value.value.Bare?
  {}

  /** Whatever is recognised was asked for, by an entry that names an operator. */
  lemma {:induction false} RecognisedWasAsked(entries: seq<(Name, Arg)>, j: nat) returns (i: nat)
    requires j < |Recognised(entries)|
    ensures i < |entries| && Recognised(entries)[j] == AskedBy(entries[i])
    ensures !Recognised(entries)[j].Unknown? && !Recognised(entries)[j].Bare?
    decreases |entries|
  {
    var n := |entries| - 1;
    var init, o := Recognised(entries[..n]), Operator(entries[n].0, entries[n].1);
    if j < |init| {
      i := RecognisedWasAsked(entries[..n], j);
    } else {
      i := n;
      OperatorIsKnown(entries[n].0, entries[n].1);
      assert Named(o) == [AskedBy(entries[n])];
    }
  }

  lemma {:induction false} AllRecognised(entries: seq<(Name, Arg)>)
    requires forall i :: 0 <= i < |entries| ==> Operator(entries[i].0, entries[i].1).Some? && !Refuses(entries[i])
    ensures Recognised(entries) == seq(|entries|, i requires 0 <= i < |entries| => AskedBy(entries[i]))
    decreases |entries|
  {
    if entries != [] {
      var n := |entries| - 1;
      AllRecognised(entries[..n]);
      assert Named(Operator(entries[n].0, entries[n].1)) == [AskedBy(entries[n])];
    }
  }

  lemma DemandsUnderstood(where: Where)
    requires AllClean(where) && AllUnderstood(where)
    ensures Demands(where) == Conjuncts(where)
  {
    forall i | 0 <= i < |where|
      ensures Asked(where[i].1) == Conditions(where[i].1)
    {
      if where[i].1.Operators? { AllRecognised(where[i].1.entries); }
    }
  }

  /** A row that meets everything the client asked for is never turned away. */
  lemma NeverRejects(where: Where, row: Row)
    requires DistinctKeys(Conjuncts(where)) && Satisfies(Demands(where), row)
    ensures Accepts(Compiled(Conjuncts(where)), row)
  {
    var c, d := Conjuncts(where), Demands(where);
    CompiledMeansLast(c, row);
    forall i | 0 <= i < |c| && c[i].1 != []
      ensures (c[i].0, Last(c[i].1)) in row
    {
      var v := where[i].1;
      var j := 0;
      if v.Operators? { j := RecognisedWasAsked(v.entries, |c[i].1| - 1); }
      assert d[i].1[j] == Last(c[i].1);
    }
  }

  /** Something that the compiler does not know: an entry's name, or an object without entries. */
  lemma NotUnderstood(v: Value) returns (j: nat)
    requires !Understood(v)
    ensures j < |Asked(v)| && (Asked(v)[j].Unknown? || Asked(v)[j].Bare?)
  {
    j := 0;
    if v.entries != [] {
      j :| 0 <= j < |v.entries| && Operator(v.entries[j].0, v.entries[j].1).None?;
      assert Asked(v)[j] == AskedBy(v.entries[j]);
    }
  }

  /** What the compiler keeps is never what it does not know. */
  lemma KeptIsKnown(v: Value)
    requires Conditions(v) != []
    ensures var kept := Last(Conditions(v)); !kept.Unknown? && !kept.Bare?
  {
    if v.Operators? { var y := RecognisedWasAsked(v.entries, |Conditions(v)| - 1); }
  }

  lemma IgnoredIsAccepted(where: Where, lost: (string, Find))
    requires DistinctKeys(Conjuncts(where)) && (lost.1.Unknown? || lost.1.Bare?)
    ensures Accepts(Compiled(Conjuncts(where)), AllBut(lost))
  {
    var c := Conjuncts(where);
    CompiledMeansLast(c, AllBut(lost));
    forall x | 0 <= x < |c| && c[x].1 != []
      ensures (c[x].0, Last(c[x].1)) in AllBut(lost)
    {
      KeptIsKnown(where[x].1);
      assert Differ((c[x].0, Last(c[x].1)), lost);
    }
  }

  /** A row that meets everything but that is accepted all the same. */
  lemma IgnoredRow(where: Where, i: nat, j: nat)
    requires DistinctKeys(Conjuncts(where)) && i < |where| && j < |Asked(where[i].1)|
    requires var lost := Asked(where[i].1)[j]; lost.Unknown? || lost.Bare?
    ensures var row := AllBut((where[i].0, Asked(where[i].1)[j]));
      Accepts(Compiled(Conjuncts(where)), row) && !Satisfies(Demands(where), row)
  {
    var d, lost := Demands(where), (where[i].0, Asked(where[i].1)[j]);
    IgnoredIsAccepted(where, lost);
    assert (d[i].0, d[i].1[j]) == lost && lost !in AllBut(lost);
  }

  /** The compiled filter is exact, whatever the conditions mean, if and only if the compiler knows every entry of
      every object, no object is without entries, and no key names two different conditions. */
  lemma ExactExactlyWhen(where: Where)
    requires DistinctKeys(Conjuncts(where)) && AllClean(where)
    ensures AllUnderstood(where) && NothingLost(Conjuncts(where)) <==>
      forall row: Row :: Accepts(Compiled(Conjuncts(where)), row) <==> Satisfies(Demands(where), row)
  {
    if AllUnderstood(where) {
      DemandsUnderstood(where);
      KeptWhenNothingLost(Conjuncts(where));
    } else {
      var i :| 0 <= i < |where| && !Understood(where[i].1);
      var j := NotUnderstood(where[i].1);
      IgnoredRow(where, i, j);
    }
  }
}
