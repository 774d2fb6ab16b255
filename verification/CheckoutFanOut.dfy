/** Checkout's Promise.all: one task per cart line, each inserting a shipping row, reading its line
    and writing it back, interleaved in any way. */
module CheckoutFanOut {
  import opened Tables
  import opened ShopSpec

  /** How far one line's task has come; the created row and the loaded copy are its own local values. */
  datatype Task =
    | Waiting
    | Inserted(result: Shipping)
    | Loaded(result: Shipping, copy: Line)
    | Finished(result: Shipping)

  /** The tables, every task, and the lines in the order their inserts reached the table. */
  datatype World = World(t: Tables, tasks: map<nat, Task>, insertion: seq<nat>)

  ghost function Start(t: Tables, ids: set<nat>): World {
    World(t, map id | id in ids :: Waiting, [])
  }

  /** Line l's next database statement; a line that is done does nothing more. */
  ghost function StepTask(w: World, l: nat, to: CheckoutInput): World
    requires l in w.tasks && l in w.t.lines
  {
    match w.tasks[l]
    case Waiting =>
      var row := Shipping(|w.t.shippings|, l, to, NotRequired);
      World(w.t.(shippings := w.t.shippings + [row]), w.tasks[l := Inserted(row)], w.insertion + [l])
    case Inserted(row) => w.(tasks := w.tasks[l := Loaded(row, w.t.lines[l])])
    case Loaded(row, copy) =>
      World(w.t.(lines := w.t.lines[l := copy.(shipping := row.status)]), w.tasks[l := Finished(row)], w.insertion)
    case Finished(_) => w
  }

  ghost predicate AllFinished(w: World) {
    forall l :: l in w.tasks ==> w.tasks[l].Finished?
  }

  ghost predicate HasRow(tasks: map<nat, Task>, l: nat, shipping: nat)
    requires l in tasks
  {
    !tasks[l].Waiting? && tasks[l].result.id == shipping && tasks[l].result.line == l
  }

  /** Each insert so far belongs to one task that has left the starting point, and the ids were handed out in order.
      */
  ghost predicate TasksMatch(next: nat, ids: set<nat>, tasks: map<nat, Task>, insertion: seq<nat>) {
    && tasks.Keys == ids
    && NoRepeats(insertion)
    && (forall i :: 0 <= i < |insertion| ==> insertion[i] in ids && HasRow(tasks, insertion[i], next + i))
    && (forall l :: l in ids ==> (tasks[l].Waiting? <==> l !in insertion))
    && (forall l :: l in ids && !tasks[l].Waiting? ==> tasks[l].result.status == NotRequired)
  }

  /** A line is as it was until its own task writes it; every copy in a task's hands is current. */
  ghost predicate LinesMatch(lines: map<nat, Line>, now: map<nat, Line>, tasks: map<nat, Task>) {
    && now.Keys == lines.Keys
    && (forall l :: l in tasks && l in lines && tasks[l].Loaded? ==> tasks[l].copy == lines[l])
    && (forall l :: l in lines ==>
          now[l] == if l in tasks && tasks[l].Finished? then lines[l].(shipping := NotRequired) else lines[l])
  }

  /** What holds between any two statements, however the tasks are interleaved. */
  ghost predicate Between(t: Tables, ids: set<nat>, to: CheckoutInput, w: World) {
    && ids <= t.lines.Keys
    && TasksMatch(|t.shippings|, ids, w.tasks, w.insertion)
    && LinesMatch(t.lines, w.t.lines, w.tasks)
    && w.t == t.(lines := w.t.lines,
                 shippings := t.shippings + ShippingRows(|t.shippings|, w.insertion, to))
  }

  lemma StartBetween(t: Tables, ids: set<nat>, to: CheckoutInput)
    requires ids <= t.lines.Keys
    ensures Between(t, ids, to, Start(t, ids))
  {
    assert ShippingRows(|t.shippings|, [], to) == [];
  }

  lemma RowsGrow(next: nat, insertion: seq<nat>, l: nat, to: CheckoutInput)
    ensures ShippingRows(next, insertion + [l], to) ==
      ShippingRows(next, insertion, to) + [Shipping(next + |insertion|, l, to, NotRequired)]
  {}

  lemma InsertKeepsTasks(next: nat, ids: set<nat>, tasks: map<nat, Task>, insertion: seq<nat>, l: nat, row: Shipping)
    requires TasksMatch(next, ids, tasks, insertion) && l in ids && tasks[l].Waiting?
    requires row.id == next + |insertion| && row.line == l && row.status == NotRequired
    ensures TasksMatch(next, ids, tasks[l := Inserted(row)], insertion + [l])
  {}

  lemma MoveKeepsTasks(next: nat, ids: set<nat>, tasks: map<nat, Task>, insertion: seq<nat>, l: nat, task: Task)
    requires TasksMatch(next, ids, tasks, insertion) && l in ids && !tasks[l].Waiting?
    requires !task.Waiting? && task.result == tasks[l].result
    ensures TasksMatch(next, ids, tasks[l := task], insertion)
  {
    forall i | 0 <= i < |insertion|
      ensures HasRow(tasks[l := task], insertion[i], next + i)
    {
      assert HasRow(tasks, insertion[i], next + i);
    }
  }

  lemma MoveKeepsLines(lines: map<nat, Line>, now: map<nat, Line>, tasks: map<nat, Task>, l: nat, task: Task)
    requires LinesMatch(lines, now, tasks) && l in tasks && l in lines && !tasks[l].Finished? && !task.Finished?
    requires task.Loaded? ==> task.copy == now[l]
    ensures LinesMatch(lines, now, tasks[l := task])
  {}

  lemma WriteKeepsLines(lines: map<nat, Line>, now: map<nat, Line>, tasks: map<nat, Task>, l: nat)
    requires LinesMatch(lines, now, tasks) && l in tasks && l in lines && tasks[l].Loaded?
    ensures LinesMatch(lines, now[l := tasks[l].copy.(shipping := NotRequired)], tasks[l := Finished(tasks[l].result)])
  {}

  lemma InsertBetween(t: Tables, ids: set<nat>, to: CheckoutInput, w: World, l: nat)
    requires Between(t, ids, to, w) && l in ids && w.tasks[l].Waiting?
    ensures Between(t, ids, to, StepTask(w, l, to))
  {
    var v := StepTask(w, l, to);
    RowsGrow(|t.shippings|, w.insertion, l, to);
    InsertKeepsTasks(|t.shippings|, ids, w.tasks, w.insertion, l, v.tasks[l].result);
    MoveKeepsLines(t.lines, w.t.lines, w.tasks, l, v.tasks[l]);
    assert v.t.shippings == t.shippings + ShippingRows(|t.shippings|, v.insertion, to);
  }

  lemma StepBetween(t: Tables, ids: set<nat>, to: CheckoutInput, w: World, l: nat)
    requires Between(t, ids, to, w) && l in ids
    ensures Between(t, ids, to, StepTask(w, l, to))
  {
    var task := w.tasks[l];
    if task.Waiting? {
      InsertBetween(t, ids, to, w, l);
    } else if task.Inserted? {
      MoveKeepsTasks(|t.shippings|, ids, w.tasks, w.insertion, l, Loaded(task.result, w.t.lines[l]));
      MoveKeepsLines(t.lines, w.t.lines, w.tasks, l, Loaded(task.result, w.t.lines[l]));
    } else if task.Loaded? {
      MoveKeepsTasks(|t.shippings|, ids, w.tasks, w.insertion, l, Finished(task.result));
      WriteKeepsLines(t.lines, w.t.lines, w.tasks, l);
    }
  }

  /** When all tasks are done, the tables are the sequential fan-out's for the order the inserts arrived in. */
  lemma FinishedIsFanOut(t: Tables, ids: set<nat>, to: CheckoutInput, w: World)
    requires Between(t, ids, to, w) && AllFinished(w)
    ensures w.t == FanOut(t, w.insertion, to) && Lists(w.insertion, ids)
  {
    assert w.t.lines == FanOut(t, w.insertion, to).lines;
  }

  // ---------------------------------------------------------------- schedules

  /** A schedule names, statement by statement, whose turn it is. */
  ghost function RunTasks(w: World, schedule: seq<nat>, to: CheckoutInput): World
    requires w.tasks.Keys <= w.t.lines.Keys && forall l :: l in schedule ==> l in w.tasks
    decreases |schedule|
  {
    if schedule == [] then w
    else RunTasks(StepTask(w, schedule[0], to), schedule[1..], to)
  }

  lemma {:induction false} ScheduleBetween(t: Tables, ids: set<nat>, to: CheckoutInput, w: World, schedule: seq<nat>)
    requires Between(t, ids, to, w) && forall l :: l in schedule ==> l in ids
    ensures Between(t, ids, to, RunTasks(w, schedule, to))
    decreases |schedule|
  {
    if schedule != [] {
      StepBetween(t, ids, to, w, schedule[0]);
      ScheduleBetween(t, ids, to, StepTask(w, schedule[0], to), schedule[1..]);
    }
  }

  /** The sequential loop's schedule: each line's three statements in a row. */
  function OneByOne(order: seq<nat>): (schedule: seq<nat>)
    ensures forall l :: l in schedule ==> l in order
  {
    if order == [] then [] else [order[0], order[0], order[0]] + OneByOne(order[1..])
  }

  lemma ThreeSteps(w: World, l: nat, rest: seq<nat>, to: CheckoutInput)
    requires w.tasks.Keys <= w.t.lines.Keys && l in w.tasks && w.tasks[l].Waiting?
    requires forall x :: x in rest ==> x in w.tasks
    ensures var v := StepTask(StepTask(StepTask(w, l, to), l, to), l, to);
      && RunTasks(w, [l, l, l] + rest, to) == RunTasks(v, rest, to)
      && v.tasks == w.tasks[l := v.tasks[l]] && v.tasks[l].Finished? && v.insertion == w.insertion + [l]
  {
    var one := StepTask(w, l, to);
    var two := StepTask(one, l, to);
    assert ([l, l, l] + rest)[1..] == [l, l] + rest;
    assert ([l, l] + rest)[1..] == [l] + rest;
    assert ([l] + rest)[1..] == rest;
    assert RunTasks(one, [l, l] + rest, to) == RunTasks(two, [l] + rest, to);
  }

  lemma {:induction false} OneByOneFinishes(w: World, order: seq<nat>, to: CheckoutInput)
    requires w.tasks.Keys <= w.t.lines.Keys && NoRepeats(order)
    requires forall l :: l in order ==> l in w.tasks && w.tasks[l].Waiting?
    requires forall l :: l in w.tasks && l !in order ==> w.tasks[l].Finished?
    ensures AllFinished(RunTasks(w, OneByOne(order), to))
    ensures RunTasks(w, OneByOne(order), to).insertion == w.insertion + order
    decreases |order|
  {
    if order != [] {
      var l, rest := order[0], order[1..];
      ThreeSteps(w, l, OneByOne(rest), to);
      OneByOneFinishes(StepTask(StepTask(StepTask(w, l, to), l, to), l, to), rest, to);
      assert order == [l] + rest;
    }
  }

  ghost function IndexOf(s: seq<nat>, l: nat): (i: nat)
    requires l in s
    ensures i < |s| && s[i] == l
  {
    var i :| 0 <= i < |s| && s[i] == l;
    i
  }

  /** `ren` is a one-to-one renaming of the positions of a into those of b; renamed rows differ in their id only. */
  ghost predicate Renames(ren: seq<nat>, a: seq<Shipping>, b: seq<Shipping>) {
    && |ren| == |a| == |b| && NoRepeats(ren)
    && (forall i :: 0 <= i < |ren| ==> ren[i] < |b| && b[ren[i]] == a[i].(id := b[ren[i]].id))
  }

  lemma RowsRename(next: nat, a: seq<nat>, b: seq<nat>, to: CheckoutInput) returns (ren: seq<nat>)
    requires NoRepeats(a) && |a| == |b| && forall i :: 0 <= i < |a| ==> a[i] in b
    ensures Renames(ren, ShippingRows(next, a, to), ShippingRows(next, b, to))
  {
    ren := seq(|a|, i requires 0 <= i < |a| => IndexOf(b, a[i]));
    forall i, j | 0 <= i < j < |a|
      ensures ren[i] != ren[j]
    {
      assert b[ren[i]] == a[i] && b[ren[j]] == a[j];
    }
  }

  /** The shipping rows that were not there before. */
  ghost function NewRows(t: Tables, u: Tables): seq<Shipping>
    requires |t.shippings| <= |u.shippings|
  {
    u.shippings[|t.shippings|..]
  }

  lemma FanOutRows(t: Tables, insertion: seq<nat>, to: CheckoutInput)
    ensures NewRows(t, FanOut(t, insertion, to)) == ShippingRows(|t.shippings|, insertion, to)
  {}

  /** The one row for line l among new rows that are numbered on from next: for the client's recipient, and
      NOT_REQUIRED. */
  ghost predicate IsOnlyRow(rows: seq<Shipping>, next: nat, to: CheckoutInput, l: nat, s: nat) {
    && s < |rows| && rows[s] == Shipping(next + s, l, to, NotRequired)
    && forall x :: 0 <= x < |rows| && rows[x].line == l ==> x == s
  }

  lemma OneRowEach(next: nat, insertion: seq<nat>, to: CheckoutInput, l: nat)
    requires NoRepeats(insertion) && l in insertion
    ensures exists s :: IsOnlyRow(ShippingRows(next, insertion, to), next, to, l, s)
  {
    assert IsOnlyRow(ShippingRows(next, insertion, to), next, to, l, IndexOf(insertion, l));
  }

  /** Any schedule that finishes every task ends at a fan-out for some order of insertion. */
  lemma ScheduleIsFanOut(t: Tables, ids: set<nat>, schedule: seq<nat>, to: CheckoutInput) returns (insertion: seq<nat>)
    requires ids <= t.lines.Keys && forall l :: l in schedule ==> l in ids
    requires AllFinished(RunTasks(Start(t, ids), schedule, to))
    ensures Lists(insertion, ids) && RunTasks(Start(t, ids), schedule, to).t == FanOut(t, insertion, to)
  {
    var w := RunTasks(Start(t, ids), schedule, to);
    StartBetween(t, ids, to);
    ScheduleBetween(t, ids, to, Start(t, ids), schedule);
    FinishedIsFanOut(t, ids, to, w);
    insertion := w.insertion;
  }

  ghost function Elements(s: seq<nat>): set<nat> {
    set x | x in s
  }

  lemma {:induction false} CountNoRepeats(s: seq<nat>)
    requires NoRepeats(s)
    ensures |Elements(s)| == |s|
  {
    if s != [] {
      var init := s[..|s| - 1];
      CountNoRepeats(init);
      assert Elements(s) == Elements(init) + {s[|s| - 1]};
    }
  }

  lemma ListsSameLength(a: seq<nat>, b: seq<nat>, ids: set<nat>)
    requires Lists(a, ids) && Lists(b, ids)
    ensures |a| == |b| == |ids|
  {
    CountNoRepeats(a);
    CountNoRepeats(b);
    assert Elements(a) == ids == Elements(b);
  }

  /** Two fan-outs over the same lines differ in the ids of the new shipping rows only. */
  lemma FanOutsAgree(t: Tables, ids: set<nat>, a: seq<nat>, b: seq<nat>, to: CheckoutInput)
    requires Lists(a, ids) && Lists(b, ids)
    ensures var u, v := FanOut(t, b, to), FanOut(t, a, to);
      && u == v.(shippings := u.shippings)
      && t.shippings <= u.shippings && t.shippings <= v.shippings
      && (exists ren :: Renames(ren, NewRows(t, v), NewRows(t, u)))
  {
    ListsSameLength(a, b, ids);
    assert forall i :: 0 <= i < |a| ==> a[i] in ids;
    FanOutRows(t, a, to);
    FanOutRows(t, b, to);
    var ren := RowsRename(|t.shippings|, a, b, to);
    assert FanOut(t, a, to).lines == FanOut(t, b, to).lines;
  }

  /** Confluence: however the tasks interleave, a finished fan-out ends where the sequential loop ends, up to a
      one-to-one renaming of the newly generated shipping ids. */
  lemma CheckoutConfluence(t: Tables, ids: set<nat>, order: seq<nat>, schedule: seq<nat>, to: CheckoutInput)
    requires ids <= t.lines.Keys && Lists(order, ids)
    requires forall l :: l in schedule ==> l in ids
    requires AllFinished(RunTasks(Start(t, ids), schedule, to))
    ensures AllFinished(RunTasks(Start(t, ids), OneByOne(order), to))
    ensures var u, v := RunTasks(Start(t, ids), schedule, to).t, RunTasks(Start(t, ids), OneByOne(order), to).t;
      && u == v.(shippings := u.shippings)
      && t.shippings <= u.shippings && t.shippings <= v.shippings
      && (exists ren :: Renames(ren, NewRows(t, v), NewRows(t, u)))
  {
    OneByOneFinishes(Start(t, ids), order, to);
    var a := ScheduleIsFanOut(t, ids, OneByOne(order), to);
    var b := ScheduleIsFanOut(t, ids, schedule, to);
    FanOutsAgree(t, ids, a, b, to);
  }

  /** After any finished schedule each line is NOT_REQUIRED and has exactly one new shipping row, which carries the
      client's data; and no row is new besides those. */
  lemma CheckoutCoversEveryLine(t: Tables, ids: set<nat>, schedule: seq<nat>, to: CheckoutInput, l: nat)
    requires ids <= t.lines.Keys && l in ids
    requires forall x :: x in schedule ==> x in ids
    requires AllFinished(RunTasks(Start(t, ids), schedule, to))
    ensures var u := RunTasks(Start(t, ids), schedule, to).t;
      && u.lines.Keys == t.lines.Keys && u.lines[l] == t.lines[l].(shipping := NotRequired)
      && t.shippings <= u.shippings && |NewRows(t, u)| == |ids|
      && (exists s :: IsOnlyRow(NewRows(t, u), |t.shippings|, to, l, s))
  {
    var insertion := ScheduleIsFanOut(t, ids, schedule, to);
    FanOutRows(t, insertion, to);
    OneRowEach(|t.shippings|, insertion, to, l);
    ListsSameLength(insertion, insertion, ids);
  }
}
