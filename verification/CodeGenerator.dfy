/** Order codes: a prefix, a dash, the time in base 36, and a random tail. */
module CodeGenerator {
  import opened Wrappers

  /** The 36 digits, which are also the random tail's alphabet. */
  predicate IsDigit(c: char) {
    '0' <= c <= '9' || 'A' <= c <= 'Z'
  }

  function DigitOf(c: char): nat {
    if '0' <= c <= '9' then (c - '0') as nat else if 'A' <= c <= 'Z' then (c - 'A') as nat + 10 else 0
  }

  function Digit(d: nat): (c: char)
    requires d < 36
    ensures IsDigit(c) && DigitOf(c) == d
  {
    if d < 10 then '0' + d as char else 'A' + (d - 10) as char
  }

  /** The alphabet, spelled out. */
  lemma DigitsAre(d: nat)
    requires d < 36
    ensures Digit(d) == "0123456789ABCDEFGHIJKLMNOPQRSTUVWXYZ"[d]
  {}

  /** A number in base 36, in capitals and without leading zeros. */
  function Print(n: nat): (s: string)
    ensures s != [] && forall i :: 0 <= i < |s| ==> IsDigit(s[i])
  {
    if n < 36 then [Digit(n)] else Print(n / 36) + [Digit(n % 36)]
  }

  /** generateCode, with the clock's and the random generator's answers as arguments. */
  function GenerateCode(prefix: string, now: nat, tail: string): string {
    prefix + "-" + Print(now) + tail
  }

  predicate IsTail(tail: string) {
    |tail| == 4 && forall i :: 0 <= i < 4 ==> IsDigit(tail[i])
  }

  // ---------------------------------------------------------------- reading a code back

  function Parse(s: string): nat {
    if s == "" then 0 else Parse(s[..|s| - 1]) * 36 + DigitOf(s[|s| - 1])
  }

  lemma {:induction false} ParsePrint(n: nat)
    ensures Parse(Print(n)) == n
  {
    var s := Print(n);
    if n >= 36 {
      ParsePrint(n / 36);
      assert s[..|s| - 1] == Print(n / 36);
    } else {
      assert s[..|s| - 1] == "";
    }
  }

  datatype Code = Code(prefix: string, time: nat, tail: string)

  function LastDash(s: string): (at: Option<nat>)
    ensures at.Some? ==> at.value < |s|
  {
    if s == "" then None else if s[|s| - 1] == '-' then Some(|s| - 1) else LastDash(s[..|s| - 1])
  }

  function Decode(code: string): Option<Code> {
    match LastDash(code)
    case None => None
    case Some(at) =>
      if |code| < at + 5 then None
      else Some(Code(code[..at], Parse(code[at + 1..|code| - 4]), code[|code| - 4..]))
  }

  lemma {:induction false} LastDashAt(before: string, after: string)
    requires '-' !in after
    ensures LastDash(before + "-" + after) == Some(|before|)
    decreases |after|
  {
    var s := before + "-" + after;
    if after != "" {
      var init := after[..|after| - 1];
      assert s[..|s| - 1] == before + "-" + init;
      assert s[|s| - 1] == after[|after| - 1];
      LastDashAt(before, init);
    }
  }

  /** A code determines its prefix, its time and its tail: for every prefix, dashes in it or not. */
  lemma CodeDecodes(prefix: string, now: nat, tail: string)
    requires IsTail(tail)
    ensures Decode(GenerateCode(prefix, now, tail)) == Some(Code(prefix, now, tail))
  {
    var code, after := GenerateCode(prefix, now, tail), Print(now) + tail;
    assert code == prefix + "-" + after;
    LastDashAt(prefix, after);
    ParsePrint(now);
    var at := |prefix|;
    assert code[..at] == prefix;
    assert code[at + 1..|code| - 4] == Print(now);
    assert code[|code| - 4..] == tail;
  }

  // ---------------------------------------------------------------- sorting codes

  /** The order in which strings are compared: character by character, a proper prefix first. */
  predicate Less(a: string, b: string) {
    b != "" && (a == "" || a[0] < b[0] || (a[0] == b[0] && Less(a[1..], b[1..])))
  }

  lemma {:induction false} LessAfter(common: string, a: string, b: string)
    ensures Less(common + a, common + b) <==> Less(a, b)
  {
    if common == "" {
      assert common + a == a && common + b == b;
    } else {
      LessAfter(common[1..], a, b);
      assert (common + a)[1..] == common[1..] + a && (common + b)[1..] == common[1..] + b;
    }
  }

  /** Behind two different texts of the same length, nothing matters any more. */
  lemma {:induction false} LessBefore(a: string, b: string, x: string, y: string)
    requires |a| == |b| && a != b
    ensures Less(a + x, b + y) <==> Less(a, b)
  {
    assert (a + x)[1..] == a[1..] + x && (b + y)[1..] == b[1..] + y;
    if a[0] == b[0] {
      assert a == [a[0]] + a[1..] && b == [b[0]] + b[1..];
      LessBefore(a[1..], b[1..], x, y);
    }
  }

  lemma DigitsSort(d: nat, e: nat)
    requires d < 36 && e < 36
    ensures Less([Digit(d)], [Digit(e)]) <==> d < e
    ensures Digit(d) == Digit(e) <==> d == e
  {}

  /** Numbers with equally many digits sort as their digits do. */
  lemma {:induction false} PrintSorts(n: nat, m: nat)
    requires |Print(n)| == |Print(m)|
    ensures Less(Print(n), Print(m)) <==> n < m
    ensures Print(n) == Print(m) <==> n == m
  {
    ParsePrint(n);
    ParsePrint(m);
    DigitsSort(n % 36, m % 36);
    if n >= 36 && m >= 36 {
      PrintSorts(n / 36, m / 36);
      if n / 36 == m / 36 {
        LessAfter(Print(n / 36), [Digit(n % 36)], [Digit(m % 36)]);
      } else {
        LessBefore(Print(n / 36), Print(m / 36), [Digit(n % 36)], [Digit(m % 36)]);
      }
    }
  }

  /** With one prefix and equally many time digits, codes sort by time first and by tail within one millisecond. */
  lemma CodesSort(prefix: string, n: nat, m: nat, a: string, b: string)
    requires |Print(n)| == |Print(m)|
    ensures Less(GenerateCode(prefix, n, a), GenerateCode(prefix, m, b)) <==> n < m || (n == m && Less(a, b))
  {
    var front := prefix + "-";
    assert GenerateCode(prefix, n, a) == front + (Print(n) + a);
    assert GenerateCode(prefix, m, b) == front + (Print(m) + b);
    LessAfter(front, Print(n) + a, Print(m) + b);
    PrintSorts(n, m);
    if n == m { LessAfter(Print(n), a, b); } else { LessBefore(Print(n), Print(m), a, b); }
  }

  function Power(k: nat): nat {
    if k == 0 then 1 else 36 * Power(k - 1)
  }

  lemma {:induction false} PowerPositive(k: nat)
    ensures Power(k) >= 1
  {
    if k > 0 { PowerPositive(k - 1); }
  }

  lemma {:induction false} PrintLength(n: nat, k: nat)
    requires k >= 1
    ensures |Print(n)| <= k <==> n < Power(k)
  {
    if n >= 36 && k > 1 {
      PrintLength(n / 36, k - 1);
      assert n == n / 36 * 36 + n % 36;
    } else if k > 1 {
      PowerPositive(k - 1);
    }
  }

  /** The time has eight digits from the year 1972 to the year 2059; all codes made in that span sort by time. */
  lemma CodesOfOurTimeSort(prefix: string, n: nat, m: nat, a: string, b: string)
    requires 78_364_164_096 <= n < m < 2_821_109_907_456
    ensures Less(GenerateCode(prefix, n, a), GenerateCode(prefix, m, b))
  {
    assert Power(2) == 36 * Power(1) && Power(4) == 36 * Power(3)
        && Power(6) == 36 * Power(5) && Power(8) == 36 * Power(7);
    assert Power(3) == 46656 && Power(6) == 2176782336 && Power(7) == 78_364_164_096 && Power(8) == 2_821_109_907_456;
    PrintLength(n, 7);
    PrintLength(n, 8);
    PrintLength(m, 7);
    PrintLength(m, 8);
    CodesSort(prefix, n, m, a, b);
  }
}
