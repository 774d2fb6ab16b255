/** The e-mail pattern of the log masker, matched the way a backtracking engine matches it:
    leftmost start, greedy repetition, the first alternative that lets the rest succeed. */
module EmailPattern {
  import opened Wrappers

  // ---------------------------------------------------------------- patterns

  datatype Class = Local | Domain | Letter | At | Dot

  predicate IsLetter(c: char) { 'a' <= c <= 'z' || 'A' <= c <= 'Z' }

  predicate IsDigit(c: char) { '0' <= c <= '9' }

  /** The pattern is case-insensitive and not in Unicode mode, so only ASCII letters count as letters. */
  predicate In(c: char, k: Class) {
    match k
    case Local => IsLetter(c) || IsDigit(c) || c == '.' || c == '_' || c == '%' || c == '+' || c == '-'
    case Domain => IsLetter(c) || IsDigit(c) || c == '.' || c == '-'
    case Letter => IsLetter(c)
    case At => c == '@'
    case Dot => c == '.'
  }

  datatype Pattern =
    | One(class_: Class)
    | Many(class_: Class)
    | Then(first: Pattern, second: Pattern)

  /** An address: local characters, an '@', domain characters, a dot and at least two letters. */
  const EMAIL: Pattern := Then(Many(Local), AFTER_LOCAL)
  const AFTER_LOCAL: Pattern := Then(One(At), Then(Many(Domain), AFTER_DOMAIN))
  const AFTER_DOMAIN: Pattern := Then(One(Dot), Then(One(Letter), Many(Letter)))

  ghost predicate AllIn(s: string, k: Class) {
    forall i :: 0 <= i < |s| ==> In(s[i], k)
  }

  /** The language of a pattern. */
  ghost predicate Matches(p: Pattern, s: string)
    decreases p, |s|
  {
    match p
    case One(k) => |s| == 1 && In(s[0], k)
    case Many(k) => |s| >= 1 && AllIn(s, k)
    case Then(a, b) => exists i :: 0 <= i <= |s| && Matches(a, s[..i]) && Matches(b, s[i..])
  }

  // ---------------------------------------------------------------- the backtracking engine

  /** How many characters from i on are in the class. */
  function Reach(k: Class, s: string, i: nat): (n: nat)
    requires i <= |s|
    ensures i + n <= |s| && AllIn(s[i..i + n], k)
    ensures i + n < |s| ==> !In(s[i + n], k)
    decreases |s| - i
  {
    if i < |s| && In(s[i], k) then 1 + Reach(k, s, i + 1) else 0
  }

  ghost predicate Within(ends: seq<nat>, lo: nat, hi: nat) {
    forall j :: 0 <= j < |ends| ==> lo <= ends[j] <= hi
  }

  /** Counting down from hi to lo: a greedy repetition tries its longest match first. */
  function Downward(hi: nat, lo: nat): (ends: seq<nat>)
    ensures |ends| == if hi < lo then 0 else hi - lo + 1
    ensures forall j :: 0 <= j < |ends| ==> ends[j] == hi - j
    decreases hi - lo
  {
    if hi < lo then [] else [hi] + if hi == 0 then [] else Downward(hi - 1, lo)
  }

  /** The end positions a matcher started at i would reach, in the order in which it would try them. */
  function Tries(p: Pattern, s: string, i: nat): (ends: seq<nat>)
    requires i <= |s|
    ensures Within(ends, i, |s|)
    decreases p, 0, 0, |s|
  {
    match p
    case One(k) => if i < |s| && In(s[i], k) then [i + 1] else []
    case Many(k) => Downward(i + Reach(k, s, i), i + 1)
    case Then(a, b) => TryEach(b, s, Tries(a, s, i), i)
  }

  /** The continuation, tried from each end in turn. */
  function TryEach(p: Pattern, s: string, starts: seq<nat>, from: nat): (ends: seq<nat>)
    requires Within(starts, from, |s|)
    ensures Within(ends, from, |s|)
    decreases p, 1, |starts|, |s|
  {
    if starts == [] then [] else Tries(p, s, starts[0]) + TryEach(p, s, starts[1..], from)
  }

  function FirstEnd(p: Pattern, s: string, i: nat): (end: Option<nat>)
    requires i <= |s|
    ensures end.Some? ==> i <= end.value <= |s|
  {
    var ends := Tries(p, s, i);
    if ends == [] then None else Some(ends[0])
  }

  lemma ManyExact(k: Class, s: string, i: nat, e: nat)
    requires i <= e <= |s|
    ensures e in Tries(Many(k), s, i) <==> Matches(Many(k), s[i..e])
  {
    var n := Reach(k, s, i);
    var ends := Downward(i + n, i + 1);
    if i < e <= i + n {
      assert ends[i + n - e] == e;
      assert forall j :: 0 <= j < e - i ==> s[i..e][j] == s[i..i + n][j];
    } else if i < e {
      assert s[i..e][n] == s[i + n];
    }
  }

  lemma ThenSplits(a: Pattern, b: Pattern, s: string) returns (i: nat)
    requires Matches(Then(a, b), s)
    ensures i <= |s| && Matches(a, s[..i]) && Matches(b, s[i..])
  {
    i :| 0 <= i <= |s| && Matches(a, s[..i]) && Matches(b, s[i..]);
  }

  lemma {:induction false} TryEachFrom(p: Pattern, s: string, starts: seq<nat>, from: nat, e: nat) returns (m: nat)
    requires Within(starts, from, |s|) && e in TryEach(p, s, starts, from)
    ensures m in starts && from <= m <= |s| && e in Tries(p, s, m)
    decreases |starts|
  {
    if e in Tries(p, s, starts[0]) {
      m := starts[0];
    } else {
      m := TryEachFrom(p, s, starts[1..], from, e);
    }
  }

  lemma {:induction false} TryEachReaches(p: Pattern, s: string, starts: seq<nat>, from: nat, m: nat, e: nat)
    requires Within(starts, from, |s|) && m in starts && from <= m <= |s| && e in Tries(p, s, m)
    ensures e in TryEach(p, s, starts, from)
    decreases |starts|
  {
    if m != starts[0] { TryEachReaches(p, s, starts[1..], from, m, e); }
  }

  lemma SplitSlice(s: string, i: nat, e: nat, j: nat)
    requires i + j <= e <= |s|
    ensures s[i..e][..j] == s[i..i + j] && s[i..e][j..] == s[i + j..e]
  {}

  lemma ThenSplitsAt(a: Pattern, b: Pattern, s: string, i: nat, e: nat) returns (m: nat)
    requires i <= e <= |s| && Matches(Then(a, b), s[i..e])
    ensures i <= m <= e && Matches(a, s[i..m]) && Matches(b, s[m..e])
  {
    var j := ThenSplits(a, b, s[i..e]);
    SplitSlice(s, i, e, j);
    m := i + j;
  }

  lemma ThenTries(a: Pattern, b: Pattern, s: string, i: nat)
    requires i <= |s|
    ensures Tries(Then(a, b), s, i) == TryEach(b, s, Tries(a, s, i), i)
  {}

  lemma ThenJoins(a: Pattern, b: Pattern, s: string, i: nat, m: nat, e: nat)
    requires i <= m <= e <= |s| && Matches(a, s[i..m]) && Matches(b, s[m..e])
    ensures Matches(Then(a, b), s[i..e])
  {
    SplitSlice(s, i, e, m - i);
  }

  lemma ThenReaches(a: Pattern, b: Pattern, s: string, i: nat, m: nat, e: nat)
    requires i <= m <= |s| && m in Tries(a, s, i) && e in Tries(b, s, m)
    ensures e in Tries(Then(a, b), s, i)
  {
    ThenTries(a, b, s, i);
    TryEachReaches(b, s, Tries(a, s, i), i, m, e);
  }

  /** Every end the engine tries is a real match ... */
  lemma {:induction false} TriesSound(p: Pattern, s: string, i: nat, e: nat)
    requires i <= |s| && e in Tries(p, s, i)
    ensures i <= e <= |s| && Matches(p, s[i..e])
    decreases p
  {
    match p {
      case One(_) =>
      case Many(k) => ManyExact(k, s, i, e);
      case Then(a, b) =>
        var m := TryEachFrom(b, s, Tries(a, s, i), i, e);
        TriesSound(a, s, i, m);
        TriesSound(b, s, m, e);
        ThenJoins(a, b, s, i, m, e);
    }
  }

  /** ... and every real match is among the ends it would try. */
  lemma {:induction false} TriesComplete(p: Pattern, s: string, i: nat, e: nat)
    requires i <= e <= |s| && Matches(p, s[i..e])
    ensures e in Tries(p, s, i)
    decreases p
  {
    match p {
      case One(_) =>
      case Many(k) => ManyExact(k, s, i, e);
      case Then(a, b) =>
        var m := ThenSplitsAt(a, b, s, i, e);
        TriesComplete(a, s, i, m);
        TriesComplete(b, s, m, e);
        ThenReaches(a, b, s, i, m, e);
    }
  }

  // ---------------------------------------------------------------- replacing

  /** No part of the text is an e-mail address. */
  ghost predicate Free(s: string) {
    forall b, e :: 0 <= b <= e <= |s| ==> !Matches(EMAIL, s[b..e])
  }

  lemma TopLevelShape(s: string)
    requires Matches(AFTER_DOMAIN, s)
    ensures |s| >= 3 && s[0] == '.' && AllIn(s[1..], Letter)
  {
    var i := ThenSplits(One(Dot), Then(One(Letter), Many(Letter)), s);
    var j := ThenSplits(One(Letter), Many(Letter), s[i..]);
    assert s == s[..1] + s[1..][..1] + s[1..][1..];
  }

  lemma HostShape(s: string) returns (dot: nat)
    requires Matches(Then(Many(Domain), AFTER_DOMAIN), s)
    ensures 0 < dot && dot + 3 <= |s| && AllIn(s[..dot], Domain) && s[dot] == '.' && AllIn(s[dot + 1..], Letter)
  {
    dot := ThenSplits(Many(Domain), AFTER_DOMAIN, s);
    TopLevelShape(s[dot..]);
    assert s[dot..][1..] == s[dot + 1..];
  }

  /** What every address looks like: local characters, '@', domain characters, a dot, two letters or more. */
  ghost predicate EmailAt(s: string, at: nat, dot: nat) {
    && 0 < at && at + 1 < dot && dot + 3 <= |s| && s[at] == '@' && s[dot] == '.'
    && AllIn(s[..at], Local) && AllIn(s[at + 1..dot], Domain) && AllIn(s[dot + 1..], Letter)
  }

  lemma EmailShape(s: string) returns (at: nat, dot: nat)
    requires Matches(EMAIL, s)
    ensures EmailAt(s, at, dot)
  {
    at := ThenSplits(Many(Local), AFTER_LOCAL, s);
    var one := ThenSplits(One(At), Then(Many(Domain), AFTER_DOMAIN), s[at..]);
    assert s[at..][one..] == s[at + 1..];
    var n := HostShape(s[at + 1..]);
    dot := at + 1 + n;
    assert s[at + 1..][..n] == s[at + 1..dot];
    assert s[at + 1..][n + 1..] == s[dot + 1..];
  }

  /** And whatever looks like that is an address. */
  lemma EmailFromShape(s: string, at: nat, dot: nat)
    requires EmailAt(s, at, dot)
    ensures Matches(EMAIL, s)
  {
    var n := |s|;
    assert forall j :: dot < j < n ==> s[j] == s[dot + 1..][j - dot - 1];
    ThenJoins(One(Letter), Many(Letter), s, dot + 1, dot + 2, n);
    ThenJoins(One(Dot), Then(One(Letter), Many(Letter)), s, dot, dot + 1, n);
    ThenJoins(Many(Domain), AFTER_DOMAIN, s, at + 1, dot, n);
    ThenJoins(One(At), Then(Many(Domain), AFTER_DOMAIN), s, at, at + 1, n);
    assert s[0..at] == s[..at] && s[0..n] == s;
    ThenJoins(Many(Local), AFTER_LOCAL, s, 0, at, n);
  }

  lemma NoStarInEmail(s: string, at: nat, dot: nat)
    requires EmailAt(s, at, dot)
    ensures '*' !in s
  {
    forall i | 0 <= i < |s|
      ensures s[i] != '*'
    {
      if i < at { assert s[i] == s[..at][i]; }
      else if at < i < dot { assert s[i] == s[at + 1..dot][i - at - 1]; }
      else if dot < i { assert s[i] == s[dot + 1..][i - dot - 1]; }
    }
  }

  // ---------------------------------------------------------------- greedy is longest

  predicate FirstIsMax(ends: seq<nat>) {
    forall j :: 0 <= j < |ends| ==> ends[j] <= ends[0]
  }

  lemma TryOne(p: Pattern, s: string, start: nat, from: nat)
    requires from <= start <= |s|
    ensures TryEach(p, s, [start], from) == Tries(p, s, start)
  {
    assert TryEach(p, s, [start][1..], from) == [];
  }

  lemma TriesAfterOne(k: Class, p: Pattern, s: string, m: nat)
    requires m <= |s|
    ensures Tries(Then(One(k), p), s, m) == if m < |s| && In(s[m], k) then Tries(p, s, m + 1) else []
  {
    if m < |s| && In(s[m], k) { TryOne(p, s, m + 1, m); }
  }

  lemma TopLevelTries(s: string, m: nat)
    requires m <= |s|
    ensures FirstIsMax(Tries(AFTER_DOMAIN, s, m))
    ensures Tries(AFTER_DOMAIN, s, m) != [] ==> m < |s| && s[m] == '.'
  {
    TriesAfterOne(Dot, Then(One(Letter), Many(Letter)), s, m);
    if m < |s| { TriesAfterOne(Letter, Many(Letter), s, m + 1); }
  }

  /** Once an earlier start leads to a match, no later start leads beyond that earlier start. */
  ghost predicate Overtakes(p: Pattern, s: string, starts: seq<nat>)
    requires Within(starts, 0, |s|)
  {
    forall j, k, e :: 0 <= j < k < |starts| && Tries(p, s, starts[j]) != [] && e in Tries(p, s, starts[k]) ==>
      e <= starts[j]
  }

  ghost predicate EachMax(p: Pattern, s: string, starts: seq<nat>)
    requires Within(starts, 0, |s|)
  {
    forall j :: 0 <= j < |starts| ==> FirstIsMax(Tries(p, s, starts[j]))
  }

  lemma TryEachInside(p: Pattern, s: string, starts: seq<nat>, from: nat, e: nat) returns (k: nat)
    requires Within(starts, from, |s|) && e in TryEach(p, s, starts, from)
    ensures k < |starts| && starts[k] <= |s| && e in Tries(p, s, starts[k])
  {
    var m := TryEachFrom(p, s, starts, from, e);
    k :| 0 <= k < |starts| && starts[k] == m;
  }

  lemma {:induction false} FirstOfEachIsMax(p: Pattern, s: string, starts: seq<nat>, from: nat)
    requires Within(starts, from, |s|) && EachMax(p, s, starts) && Overtakes(p, s, starts)
    ensures FirstIsMax(TryEach(p, s, starts, from))
    decreases |starts|
  {
    if starts != [] {
      var rest := starts[1..];
      var first, later := Tries(p, s, starts[0]), TryEach(p, s, rest, from);
      assert forall j :: 0 <= j < |rest| ==> rest[j] == starts[j + 1];
      FirstOfEachIsMax(p, s, rest, from);
      if first == [] {
        assert first + later == later;
      } else {
        forall j | 0 <= j < |later|
          ensures later[j] <= starts[0]
        {
          var k := TryEachInside(p, s, rest, from, later[j]);
        }
      }
    }
  }

  /** A dot further on beats every end that an earlier dot could reach: letters stop at a dot. */
  lemma LaterDotWins(s: string, m: nat, dot: nat, e: nat)
    requires dot < m < |s| && s[m] == '.' && e in Tries(AFTER_DOMAIN, s, dot)
    ensures e <= m
  {
    TriesSound(AFTER_DOMAIN, s, dot, e);
    TopLevelShape(s[dot..e]);
    assert forall x :: dot < x < e ==> s[x] == s[dot..e][1..][x - dot - 1];
  }

  lemma HostMax(s: string, i: nat)
    requires i <= |s|
    ensures FirstIsMax(Tries(Then(Many(Domain), AFTER_DOMAIN), s, i))
  {
    var starts := Tries(Many(Domain), s, i);
    forall j | 0 <= j < |starts|
      ensures FirstIsMax(Tries(AFTER_DOMAIN, s, starts[j]))
    {
      TopLevelTries(s, starts[j]);
    }
    forall j, k, e | 0 <= j < k < |starts| && Tries(AFTER_DOMAIN, s, starts[j]) != []
                     && e in Tries(AFTER_DOMAIN, s, starts[k])
      ensures e <= starts[j]
    {
      TopLevelTries(s, starts[j]);
      LaterDotWins(s, starts[j], starts[k], e);
    }
    FirstOfEachIsMax(AFTER_DOMAIN, s, starts, i);
  }

  lemma AtTries(s: string, m: nat)
    requires m <= |s|
    ensures FirstIsMax(Tries(AFTER_LOCAL, s, m))
    ensures Tries(AFTER_LOCAL, s, m) != [] ==> m < |s| && s[m] == '@'
  {
    TriesAfterOne(At, Then(Many(Domain), AFTER_DOMAIN), s, m);
    if m < |s| { HostMax(s, m + 1); }
  }

  lemma InRun(s: string, i: nat, m: nat)
    requires i <= |s| && i < m < i + Reach(Local, s, i)
    ensures s[m] != '@'
  {
    assert s[m] == s[i..i + Reach(Local, s, i)][m - i];
  }

  /** Only the longest run of local characters can be followed by an '@'. */
  lemma EmailMax(s: string, i: nat)
    requires i <= |s|
    ensures FirstIsMax(Tries(EMAIL, s, i))
  {
    var starts := Tries(Many(Local), s, i);
    forall j | 0 <= j < |starts|
      ensures FirstIsMax(Tries(AFTER_LOCAL, s, starts[j]))
    {
      AtTries(s, starts[j]);
    }
    forall k | 1 <= k < |starts|
      ensures Tries(AFTER_LOCAL, s, starts[k]) == []
    {
      AtTries(s, starts[k]);
      InRun(s, i, starts[k]);
    }
    FirstOfEachIsMax(AFTER_LOCAL, s, starts, i);
  }

  lemma TriesExact(p: Pattern, s: string, i: nat, e: nat)
    requires i <= e <= |s|
    ensures e in Tries(p, s, i) <==> Matches(p, s[i..e])
  {
    if Matches(p, s[i..e]) { TriesComplete(p, s, i, e); }
    if e in Tries(p, s, i) { TriesSound(p, s, i, e); }
  }

  /** The engine's first match is the longest there is: on this pattern, greedy backtracking and leftmost-longest
      matching agree. */
  lemma GreedyIsLongest(s: string, i: nat, e: nat)
    requires i <= e <= |s|
    ensures FirstEnd(EMAIL, s, i) == Some(e) <==>
      Matches(EMAIL, s[i..e]) && forall f :: e < f <= |s| ==> !Matches(EMAIL, s[i..f])
  {
    var ends := Tries(EMAIL, s, i);
    EmailMax(s, i);
    forall f | i <= f <= |s|
      ensures Matches(EMAIL, s[i..f]) <==> f in ends
    {
      TriesExact(EMAIL, s, i, f);
    }
    assert ends != [] ==> ends[0] in ends;
  }

  ghost predicate IsEnd(s: string, i: nat, end: Option<nat>)
    requires i < |s|
  {
    match end
    case Some(e) => i < e <= |s| && Matches(EMAIL, s[i..e])
    case None => forall e :: i <= e <= |s| ==> !Matches(EMAIL, s[i..e])
  }

  /** Where a match starting at each position would end, if there is one. */
  ghost predicate AreEnds(s: string, ends: seq<Option<nat>>) {
    |ends| == |s| && forall i :: 0 <= i < |s| ==> IsEnd(s, i, ends[i])
  }

  lemma FirstEndIsEnd(s: string, i: nat)
    requires i < |s|
    ensures IsEnd(s, i, FirstEnd(EMAIL, s, i))
  {
    match FirstEnd(EMAIL, s, i) {
      case Some(e) =>
        TriesSound(EMAIL, s, i, e);
        var at, dot := EmailShape(s[i..e]);
      case None =>
        forall e | i <= e <= |s| && Matches(EMAIL, s[i..e])
          ensures e in Tries(EMAIL, s, i)
        {
          TriesComplete(EMAIL, s, i, e);
        }
    }
  }

  function Ends(s: string): (ends: seq<Option<nat>>)
    ensures AreEnds(s, ends)
  {
    forall i | 0 <= i < |s| ensures IsEnd(s, i, FirstEnd(EMAIL, s, i)) { FirstEndIsEnd(s, i); }
    seq(|s|, i requires 0 <= i < |s| => FirstEnd(EMAIL, s, i))
  }

  /** The global replace from position i on: a match is replaced and skipped, any other character is copied.
      The first group is everything up to the '@'. */
  function Splice(s: string, ends: seq<Option<nat>>, i: nat): string
    requires i <= |s| && AreEnds(s, ends)
    decreases |s| - i
  {
    if i == |s| then ""
    else
      assert IsEnd(s, i, ends[i]);
      match ends[i]
      case None => [s[i]] + Splice(s, ends, i + 1)
      case Some(e) => s[i..i + Reach(Local, s, i)] + "@***" + Splice(s, ends, e)
  }

  /** Every address in a text loses its domain to three stars. */
  function MaskEmails(s: string): string {
    Splice(s, Ends(s), 0)
  }

  lemma {:induction false} ReachIs(k: Class, s: string, i: nat, n: nat)
    requires i + n < |s| && !In(s[i + n], k) && forall j :: i <= j < i + n ==> In(s[j], k)
    ensures Reach(k, s, i) == n
    decreases n
  {
    if n > 0 { ReachIs(k, s, i + 1, n - 1); }
  }

  lemma LocalPart(s: string, i: nat, e: nat) returns (k: nat)
    requires i <= e <= |s| && Matches(EMAIL, s[i..e])
    ensures k == Reach(Local, s, i) && i + k < e && s[i + k] == '@'
  {
    var dot;
    k, dot := EmailShape(s[i..e]);
    forall j | i <= j < i + k
      ensures In(s[j], Local)
    {
      assert s[j] == s[i..e][..k][j - i];
    }
    ReachIs(Local, s, i, k);
  }

  lemma StarPieces(front: string, rest: string, m: string)
    requires m == front + "@***" + rest
    ensures var k := |front|;
      && k + 4 <= |m| && m[..k] == front && m[..k + 1] == front + "@"
      && m[k + 1] == m[k + 2] == m[k + 3] == '*' && m[k + 4..] == rest
  {}

  lemma LocalEnd(s: string, ends: seq<Option<nat>>, i: nat)
    requires i < |s| && AreEnds(s, ends) && ends[i].Some?
    ensures var at := i + Reach(Local, s, i); i < ends[i].value <= |s| && at < |s| && s[at] == '@'
  {
    assert IsEnd(s, i, ends[i]);
    var k := LocalPart(s, i, ends[i].value);
  }

  lemma SpliceAtMatch(s: string, ends: seq<Option<nat>>, i: nat)
    requires i < |s| && AreEnds(s, ends) && ends[i].Some? && i < ends[i].value <= |s|
    ensures Splice(s, ends, i) == s[i..i + Reach(Local, s, i)] + "@***" + Splice(s, ends, ends[i].value)
  {}

  /** The masked text from a match on: the local part, '@', three stars, and the rest behind the match. */
  lemma AtMatch(s: string, ends: seq<Option<nat>>, i: nat) returns (k: nat, m: string)
    requires i < |s| && AreEnds(s, ends) && ends[i].Some?
    ensures m == Splice(s, ends, i) && k + 4 <= |m| && i + k < |s|
    ensures m[..k + 1] == s[i..i + k + 1] && AllIn(m[..k], Local) && m[k + 1] == m[k + 2] == m[k + 3] == '*'
    ensures i < ends[i].value <= |s| && m[k + 4..] == Splice(s, ends, ends[i].value)
  {
    LocalEnd(s, ends, i);
    SpliceAtMatch(s, ends, i);
    k, m := Reach(Local, s, i), Splice(s, ends, i);
    StarPieces(s[i..i + k], Splice(s, ends, ends[i].value), m);
    assert s[i..i + k + 1] == s[i..i + k] + "@";
  }

  lemma AtOther(s: string, ends: seq<Option<nat>>, i: nat) returns (m: string)
    requires i < |s| && AreEnds(s, ends) && ends[i].None?
    ensures m == Splice(s, ends, i) && m == [s[i]] + Splice(s, ends, i + 1)
  {
    m := Splice(s, ends, i);
  }

  lemma ConsPrefix(c: char, rest: string, n: nat, x: char)
    requires 0 < n <= |rest| + 1
    ensures ([c] + rest)[..n] == [c] + rest[..n - 1]
    ensures x !in ([c] + rest)[..n] ==> x !in rest[..n - 1]
  {
    assert ([c] + rest)[..n] == [c] + rest[..n - 1];
  }

  lemma StarStops(m: string, front: string, n: nat)
    requires |front| < |m| && m[..|front|] == front && m[|front|] == '*' && n <= |m| && '*' !in m[..n]
    ensures n <= |front| && m[..n] == front[..n]
  {
    assert forall j :: 0 <= j < n ==> m[j] == m[..n][j];
  }

  /** As long as no star appears, the masked text still reads like the original. */
  lemma {:induction false} UnstarredIsOriginal(s: string, ends: seq<Option<nat>>, i: nat, n: nat)
    requires i <= |s| && AreEnds(s, ends) && n <= |Splice(s, ends, i)| && '*' !in Splice(s, ends, i)[..n]
    ensures i + n <= |s| && Splice(s, ends, i)[..n] == s[i..i + n]
    decreases |s| - i
  {
    if 0 < n && i < |s| {
      if ends[i].None? {
        var m := AtOther(s, ends, i);
        ConsPrefix(s[i], Splice(s, ends, i + 1), n, '*');
        UnstarredIsOriginal(s, ends, i + 1, n - 1);
        assert s[i..i + n] == [s[i]] + s[i + 1..i + n];
      } else {
        var k, m := AtMatch(s, ends, i);
        StarStops(m, s[i..i + k + 1], n);
        assert s[i..i + k + 1][..n] == s[i..i + n];
      }
    }
  }

  lemma NoEmailInEmpty()
    ensures !Matches(EMAIL, "")
  {
    if Matches(EMAIL, "") { var at, dot := EmailShape(""); }
  }

  /** Of three stars in a row, a text that begins before the last one ends before the first or holds one. */
  lemma StarInside(m: string, k: nat, b: nat, n: nat)
    requires k + 4 <= |m| && b + n <= |m| && b < k + 4 && m[k + 1] == m[k + 2] == m[k + 3] == '*'
    ensures '*' in m[b..b + n] || n == 0 || b + n <= k + 1
  {
    if n > 0 && k + 1 < b + n {
      var x := if b <= k + 1 then k + 1 else b;
      assert m[b..b + n][x - b] == '*';
    }
  }

  /** Local characters with at most one character behind them hold no address. */
  lemma NoEmailInLocal(m: string, k: nat, b: nat, n: nat)
    requires k < |m| && b + n <= k + 1 && AllIn(m[..k], Local)
    ensures !Matches(EMAIL, m[b..b + n])
  {
    var w := m[b..b + n];
    assert forall j :: 0 <= j < k ==> m[j] == m[..k][j];
    assert forall j :: 0 <= j < n - 1 ==> w[j] == m[b + j] && In(w[j], Local);
    if Matches(EMAIL, w) { var at, dot := EmailShape(w); }
  }

  /** Local characters and an '@' behind them hold no address, and neither does anything with a star. */
  lemma NoEmailBeforeStar(m: string, k: nat, b: nat, n: nat)
    requires k + 4 <= |m| && b + n <= |m| && b < k + 4
    requires AllIn(m[..k], Local) && m[k + 1] == m[k + 2] == m[k + 3] == '*'
    ensures !Matches(EMAIL, m[b..b + n])
  {
    StarInside(m, k, b, n);
    if '*' in m[b..b + n] {
      if Matches(EMAIL, m[b..b + n]) {
        var at, dot := EmailShape(m[b..b + n]);
        NoStarInEmail(m[b..b + n], at, dot);
      }
    } else if n == 0 {
      NoEmailInEmpty();
      assert m[b..b + n] == "";
    } else {
      NoEmailInLocal(m, k, b, n);
    }
  }

  lemma NoEmailAtStart(s: string, ends: seq<Option<nat>>, i: nat, n: nat)
    requires i < |s| && AreEnds(s, ends) && ends[i] == None && n <= |Splice(s, ends, i)|
    ensures !Matches(EMAIL, Splice(s, ends, i)[..n])
  {
    var w := Splice(s, ends, i)[..n];
    assert IsEnd(s, i, ends[i]);
    if Matches(EMAIL, w) {
      var at, dot := EmailShape(w);
      NoStarInEmail(w, at, dot);
      UnstarredIsOriginal(s, ends, i, n);
    }
  }

  lemma DropSlice(m: string, d: nat, b: nat, n: nat)
    requires d <= b && b + n <= |m|
    ensures m[b..b + n] == m[d..][b - d..b - d + n]
  {}

  lemma {:induction false} NoEmailFrom(s: string, ends: seq<Option<nat>>, i: nat, b: nat, n: nat)
    requires i <= |s| && AreEnds(s, ends) && b + n <= |Splice(s, ends, i)|
    ensures !Matches(EMAIL, Splice(s, ends, i)[b..b + n])
    decreases |s| - i
  {
    if i == |s| {
      NoEmailInEmpty();
      assert Splice(s, ends, i)[b..b + n] == "";
    } else if ends[i].None? {
      var m := AtOther(s, ends, i);
      if b == 0 {
        NoEmailAtStart(s, ends, i, n);
      } else {
        var rest := Splice(s, ends, i + 1);
        NoEmailFrom(s, ends, i + 1, b - 1, n);
        assert m[1..] == rest;
        DropSlice(m, 1, b, n);
      }
    } else {
      var k, m := AtMatch(s, ends, i);
      if b < k + 4 {
        NoEmailBeforeStar(m, k, b, n);
      } else {
        var rest := m[k + 4..];
        NoEmailFrom(s, ends, ends[i].value, b - k - 4, n);
        DropSlice(m, k + 4, b, n);
      }
    }
  }

  /** After masking, no substring of the text is an e-mail address: for every string, wherever the matches lie. */
  lemma MaskedIsFree(s: string)
    ensures Free(MaskEmails(s))
  {
    var m := MaskEmails(s);
    forall b, e | 0 <= b <= e <= |m|
      ensures !Matches(EMAIL, m[b..e])
    {
      NoEmailFrom(s, Ends(s), 0, b, e - b);
    }
  }

  lemma {:induction false} FreeIsKept(s: string, ends: seq<Option<nat>>, i: nat)
    requires i <= |s| && AreEnds(s, ends) && Free(s)
    ensures Splice(s, ends, i) == s[i..]
    decreases |s| - i
  {
    if i < |s| {
      assert IsEnd(s, i, ends[i]);
      FreeIsKept(s, ends, i + 1);
    }
  }

  /** Masking changes a text exactly when it holds an address; so masking twice is masking once. */
  lemma MaskChangesOnlyEmails(s: string)
    ensures MaskEmails(s) == s <==> Free(s)
    ensures MaskEmails(MaskEmails(s)) == MaskEmails(s)
  {
    MaskedIsFree(s);
    if Free(s) { FreeIsKept(s, Ends(s), 0); }
    FreeIsKept(MaskEmails(s), Ends(MaskEmails(s)), 0);
  }
}
