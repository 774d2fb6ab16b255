/** Which rows a filter finds once the database has read its conditions. Truth has three values, as in SQL. */
module WhereMeaning {
  import opened Wrappers
  import opened WhereCompiler

  /** What is stored in one column of one row: nothing, a value, or an array of values. */
  datatype Cell = Empty | Holds(value: Scalar) | Lists(values: seq<Scalar>)

  /** The database's two pattern tests, each of a text against a pattern, and the client's way of writing an argument
      into a template string. */
  datatype Engine = Engine(like: (string, string) -> bool, ilike: (string, string) -> bool, show: Arg -> string)

  function Written(e: Engine, p: Pattern): string {
    p.before + e.show(p.arg) + p.after
  }

  function Negated(truth: Option<bool>): Option<bool> {
    if truth.Some? then Some(!truth.value) else None
  }

  /** A comparison with null is neither true nor false, and neither is one between values of different kinds. */
  function IsEqual(arg: Arg, v: Scalar): Option<bool> {
    if !arg.One? then None
    else
      match (arg.value, v)
      case (Num(n), Num(x)) => Some(x == n)
      case (Text(s), Text(t)) => Some(t == s)
      case (Bool(b), Bool(c)) => Some(c == b)
      case _ => None
  }

  /** How the number in a cell lies to the argument: -1 below, 0 equal, 1 above. */
  function Compared(arg: Arg, v: Scalar): Option<int> {
    if !arg.One? then None
    else
      match (arg.value, v)
      case (Num(n), Num(x)) => Some(if x < n then -1 else if x == n then 0 else 1)
      case _ => None
  }

  function IsIn(args: seq<Arg>, v: Scalar): Option<bool> {
    if args == [] then Some(false)
    else
      var first, rest := IsEqual(args[0], v), IsIn(args[1..], v);
      if first == Some(true) || rest == Some(true) then Some(true)
      else if first.None? || rest.None? then None
      else Some(false)
  }

  /** The values of an array argument. */
  predicate Names(arg: Arg, v: Scalar) {
    if arg.Many? then One(v) in arg.values else arg == One(v)
  }

  predicate AllNamed(arg: Arg, vs: seq<Scalar>) {
    forall a :: a in Listed(arg) ==> a.One? && a.value in vs
  }

  predicate AnyNamed(arg: Arg, vs: seq<Scalar>) {
    exists v :: v in vs && Names(arg, v)
  }

  /** What a condition says of a cell. Only a test for null says anything of an empty one. */
  function Truth(e: Engine, f: Find, cell: Cell): Option<bool> {
    match f
    case IsNull => Some(cell.Empty?)
    case Not(inner) => Negated(Truth(e, inner, cell))
    case _ =>
      match cell
      case Empty => None
      case Holds(v) => TruthOf(e, f, v)
      case Lists(vs) =>
        match f
        case ContainsAll(arg, _) => Some(AllNamed(arg, vs))
        case ContainsAny(arg, _) => Some(AnyNamed(arg, vs))
        case HasElement(arg) => if arg.One? then Some(arg.value in vs) else None
        case _ => None
  }

  function TruthOf(e: Engine, f: Find, v: Scalar): Option<bool> {
    match f
    case Equal(arg) => IsEqual(arg, v)
    case LessThan(arg) => var c := Compared(arg, v); if c.Some? then Some(c.value < 0) else None
    case LessThanOrEqual(arg) => var c := Compared(arg, v); if c.Some? then Some(c.value <= 0) else None
    case MoreThan(arg) => var c := Compared(arg, v); if c.Some? then Some(c.value > 0) else None
    case MoreThanOrEqual(arg) => var c := Compared(arg, v); if c.Some? then Some(c.value >= 0) else None
    case In(args) => IsIn(args, v)
    case Between(low, high) =>
      var l, h := Compared(low, v), Compared(high, v);
      if l.Some? && h.Some? then Some(l.value >= 0 && h.value <= 0) else None
    case Like(pattern) => if v.Text? then Some(e.like(v.s, Written(e, pattern))) else None
    case ILike(pattern) => if v.Text? then Some(e.ilike(v.s, Written(e, pattern))) else None
    case _ => None
  }

  /** The conditions that a row of cells satisfies. */
  ghost function Satisfied(e: Engine, cells: map<string, Cell>): Row {
    iset p: (string, Find) | p.0 in cells && Truth(e, p.1, cells[p.0]) == Some(true)
  }

  /** The filter is compiled, and the row is found by it. */
  ghost predicate Finds(e: Engine, where: Where, cells: map<string, Cell>) {
    AllClean(where) && Accepts(Compiled(Conjuncts(where)), Satisfied(e, cells))
  }

  /** A filter that asks one thing of one column: `{ key: { op: arg } }`. */
  function Single(key: string, op: Op, arg: Arg): Where {
    [(key, Operators([(Known(op), arg)]))]
  }

  ghost predicate FindsBy(e: Engine, op: Op, arg: Arg, cell: Cell) {
    Finds(e, Single("column", op, arg), map["column" := cell])
  }

  lemma SingleCompiles(key: string, op: Op, arg: Arg)
    ensures AllClean(Single(key, op, arg)) <==> Act(op, arg).Ok?
    ensures Act(op, arg).Ok? ==> Compiled(Conjuncts(Single(key, op, arg))) == map[key := Act(op, arg).value]
  {
    var where := Single(key, op, arg);
    var entries := where[0].1.entries;
    assert Refuses(entries[0]) <==> Act(op, arg).Err?;
    assert entries[..0] == [] && Recognised([]) == [];
    assert Recognised(entries) == [] + Named(Some(Act(op, arg)));
    assert Conjuncts(where)[..0] == [] && Compiled([]) == map[];
  }

  lemma OneCondition(e: Engine, key: string, f: Find, cell: Cell)
    ensures Accepts(map[key := f], Satisfied(e, map[key := cell])) <==> Truth(e, f, cell) == Some(true)
  {
    var options, row := map[key := f], Satisfied(e, map[key := cell]);
    assert (key, f) in row <==> Truth(e, f, cell) == Some(true);
    assert key in options && options[key] == f;
  }

  lemma FoundWhenTrue(e: Engine, op: Op, arg: Arg, cell: Cell)
    ensures FindsBy(e, op, arg, cell) <==>
      Act(op, arg).Ok? && Truth(e, Act(op, arg).value, cell) == Some(true)
  {
    SingleCompiles("column", op, arg);
    if Act(op, arg).Ok? { OneCondition(e, "column", Act(op, arg).value, cell); }
  }

  // ---------------------------------------------------------------- numbers

  function Number(n: int): Arg {
    One(Num(n))
  }

  function Numbers(ns: seq<int>): (args: seq<Arg>)
    ensures |args| == |ns|
  {
    seq(|ns|, i requires 0 <= i < |ns| => Number(ns[i]))
  }

  lemma {:induction false} InNumbers(ns: seq<int>, x: int)
    ensures IsIn(Numbers(ns), Num(x)) == Some(x in ns)
  {
    if ns != [] {
      InNumbers(ns[1..], x);
      assert Numbers(ns)[1..] == Numbers(ns[1..]);
    }
  }

  /** Which numbers $eq and $ne find. */
  lemma NumbersEqual(e: Engine, x: int, n: int)
    ensures FindsBy(e, Eq, Number(n), Holds(Num(x))) <==> x == n
    ensures FindsBy(e, Ne, Number(n), Holds(Num(x))) <==> x != n
  {
    FoundWhenTrue(e, Eq, Number(n), Holds(Num(x)));
    FoundWhenTrue(e, Ne, Number(n), Holds(Num(x)));
  }

  /** Which $lt and $lte. */
  lemma NumbersLess(e: Engine, x: int, n: int)
    ensures FindsBy(e, Lt, Number(n), Holds(Num(x))) <==> x < n
    ensures FindsBy(e, Lte, Number(n), Holds(Num(x))) <==> x <= n
  {
    FoundWhenTrue(e, Lt, Number(n), Holds(Num(x)));
    FoundWhenTrue(e, Lte, Number(n), Holds(Num(x)));
  }

  /** Which $gt and $gte. */
  lemma NumbersMore(e: Engine, x: int, n: int)
    ensures FindsBy(e, Gt, Number(n), Holds(Num(x))) <==> x > n
    ensures FindsBy(e, Gte, Number(n), Holds(Num(x))) <==> x >= n
  {
    FoundWhenTrue(e, Gt, Number(n), Holds(Num(x)));
    FoundWhenTrue(e, Gte, Number(n), Holds(Num(x)));
  }

  /** Which $in and $nIn find with a list. */
  lemma NumbersListed(e: Engine, x: int, ns: seq<int>)
    ensures FindsBy(e, InList, Many(Numbers(ns)), Holds(Num(x))) <==> x in ns
    ensures FindsBy(e, NotInList, Many(Numbers(ns)), Holds(Num(x))) <==> x !in ns
  {
    InNumbers(ns, x);
    FoundWhenTrue(e, InList, Many(Numbers(ns)), Holds(Num(x)));
    FoundWhenTrue(e, NotInList, Many(Numbers(ns)), Holds(Num(x)));
  }

  /** One value alone counts as a list of one. */
  lemma OneNumberListed(e: Engine, x: int, n: int)
    ensures FindsBy(e, InList, Number(n), Holds(Num(x))) <==> x == n
    ensures FindsBy(e, NotInList, Number(n), Holds(Num(x))) <==> x != n
  {
    var args := Listed(Number(n));
    assert args == [Number(n)] && args[1..] == [];
    assert IsIn(args, Num(x)) == Some(x == n);
    FoundWhenTrue(e, InList, Number(n), Holds(Num(x)));
    FoundWhenTrue(e, NotInList, Number(n), Holds(Num(x)));
  }

  /** $between includes both bounds, and a list of any other length is refused. */
  lemma NumbersBetween(e: Engine, x: int, ns: seq<int>)
    ensures |ns| == 2 ==> (FindsBy(e, Range, Many(Numbers(ns)), Holds(Num(x))) <==> ns[0] <= x <= ns[1])
    ensures |ns| != 2 ==> !AllClean(Single("column", Range, Many(Numbers(ns))))
  {
    FoundWhenTrue(e, Range, Many(Numbers(ns)), Holds(Num(x)));
    SingleCompiles("column", Range, Many(Numbers(ns)));
  }

  // ---------------------------------------------------------------- empty cells

  /** An operator's condition on an empty cell. */
  lemma UnknownOfEmpty(e: Engine, op: Op, arg: Arg)
    ensures Act(op, arg).Ok? ==> (Truth(e, Act(op, arg).value, Empty) == Some(true) <==> op == NoValue)
  {}

  /** A row without a value is found by $null and by nothing else, a negated operator included. */
  lemma OnlyNullFindsEmpty(e: Engine, op: Op, arg: Arg)
    ensures FindsBy(e, op, arg, Empty) <==> op == NoValue
  {
    FoundWhenTrue(e, op, arg, Empty);
    UnknownOfEmpty(e, op, arg);
  }

  /** Any value is found by $nNull, and none by $null. */
  lemma AnyValueIsFound(e: Engine, arg: Arg, v: Scalar)
    ensures FindsBy(e, AnyValue, arg, Holds(v)) && !FindsBy(e, NoValue, arg, Holds(v))
  {
    FoundWhenTrue(e, AnyValue, arg, Holds(v));
    FoundWhenTrue(e, NoValue, arg, Holds(v));
  }

  // ---------------------------------------------------------------- texts and arrays

  /** The text operators test against the argument with a percent sign on either side ... */
  lemma TextsContaining(e: Engine, text: string, part: Arg)
    ensures FindsBy(e, Contains, part, Holds(Text(text))) <==> e.like(text, "%" + e.show(part) + "%")
    ensures FindsBy(e, NotContains, part, Holds(Text(text))) <==> !e.like(text, "%" + e.show(part) + "%")
  {
    FoundWhenTrue(e, Contains, part, Holds(Text(text)));
    FoundWhenTrue(e, NotContains, part, Holds(Text(text)));
  }

  /** ... and with an i they use the test that ignores case. */
  lemma TextsContainingInAnyCase(e: Engine, text: string, part: Arg)
    ensures FindsBy(e, IContains, part, Holds(Text(text))) <==> e.ilike(text, "%" + e.show(part) + "%")
    ensures FindsBy(e, NotIContains, part, Holds(Text(text))) <==> !e.ilike(text, "%" + e.show(part) + "%")
  {
    FoundWhenTrue(e, IContains, part, Holds(Text(text)));
    FoundWhenTrue(e, NotIContains, part, Holds(Text(text)));
  }

  function Ones(vs: seq<Scalar>): (args: seq<Arg>)
    ensures |args| == |vs|
  {
    seq(|vs|, i requires 0 <= i < |vs| => One(vs[i]))
  }

  lemma OnesIn(vs: seq<Scalar>, v: Scalar)
    ensures One(v) in Ones(vs) <==> v in vs
  {
    if v in vs {
      var i :| 0 <= i < |vs| && vs[i] == v;
      assert Ones(vs)[i] == One(v);
    }
  }

  predicate HoldsAll(named: seq<Scalar>, stored: seq<Scalar>) {
    forall v :: v in named ==> v in stored
  }

  predicate HoldsAny(named: seq<Scalar>, stored: seq<Scalar>) {
    exists v :: v in named && v in stored
  }

  /** What the two tests of several values say of an array column. */
  lemma NamedByOnes(named: seq<Scalar>, stored: seq<Scalar>)
    ensures AllNamed(Many(Ones(named)), stored) <==> HoldsAll(named, stored)
    ensures AnyNamed(Many(Ones(named)), stored) <==> HoldsAny(named, stored)
  {
    forall v
      ensures One(v) in Ones(named) <==> v in named
    {
      OnesIn(named, v);
    }
    assert forall a :: a in Ones(named) ==> a.One?;
    if exists v :: v in named && v in stored {
      var v :| v in named && v in stored;
      assert v in stored && Names(Many(Ones(named)), v);
    }
  }

  /** An array column is found by "all" if it holds every named value: integers and strings alike. */
  lemma ArraysWithAll(e: Engine, named: seq<Scalar>, stored: seq<Scalar>)
    ensures FindsBy(e, AllIntegers, Many(Ones(named)), Lists(stored)) <==> HoldsAll(named, stored)
    ensures FindsBy(e, AllStrings, Many(Ones(named)), Lists(stored)) <==> HoldsAll(named, stored)
  {
    NamedByOnes(named, stored);
    FoundWhenTrue(e, AllIntegers, Many(Ones(named)), Lists(stored));
    FoundWhenTrue(e, AllStrings, Many(Ones(named)), Lists(stored));
  }

  /** By "any" if it holds one of them. */
  lemma ArraysWithAny(e: Engine, named: seq<Scalar>, stored: seq<Scalar>)
    ensures FindsBy(e, AnyInteger, Many(Ones(named)), Lists(stored)) <==> HoldsAny(named, stored)
    ensures FindsBy(e, AnyString, Many(Ones(named)), Lists(stored)) <==> HoldsAny(named, stored)
  {
    NamedByOnes(named, stored);
    FoundWhenTrue(e, AnyInteger, Many(Ones(named)), Lists(stored));
    FoundWhenTrue(e, AnyString, Many(Ones(named)), Lists(stored));
  }

  /** And by "value" if it holds that one. */
  lemma ArraysWithOne(e: Engine, one: Scalar, stored: seq<Scalar>)
    ensures FindsBy(e, ValueInteger, One(one), Lists(stored)) <==> one in stored
    ensures FindsBy(e, ValueString, One(one), Lists(stored)) <==> one in stored
  {
    FoundWhenTrue(e, ValueInteger, One(one), Lists(stored));
    FoundWhenTrue(e, ValueString, One(one), Lists(stored));
  }

  // ---------------------------------------------------------------- several columns

  /** A filter of plain values finds a row exactly when every column named holds the value given for it. */
  lemma PlainValues(e: Engine, wanted: seq<(string, int)>, cells: map<string, Cell>)
    requires forall i, j :: 0 <= i < j < |wanted| ==> wanted[i].0 != wanted[j].0
    ensures var where := seq(|wanted|, i requires 0 <= i < |wanted| => (wanted[i].0, Plain(Num(wanted[i].1))));
      Finds(e, where, cells) <==>
        forall i :: 0 <= i < |wanted| ==>
          wanted[i].0 in cells && cells[wanted[i].0] == Holds(Num(wanted[i].1))
  {
    var where := seq(|wanted|, i requires 0 <= i < |wanted| => (wanted[i].0, Plain(Num(wanted[i].1))));
    var c, row := Conjuncts(where), Satisfied(e, cells);
    CompiledMeansLast(c, row);
    forall i | 0 <= i < |c|
      ensures c[i].1 == [Equal(Number(wanted[i].1))]
      ensures (c[i].0, Last(c[i].1)) in row <==>
        wanted[i].0 in cells && cells[wanted[i].0] == Holds(Num(wanted[i].1))
    {}
  }
}
