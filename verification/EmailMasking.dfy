/** What masking the addresses in a text keeps and what it replaces. */
module EmailMasking {
  import opened Wrappers
  import opened EmailPattern

  // ---------------------------------------------------------------- what is kept and what is replaced

  predicate Alphanumeric(c: char) {
    'a' <= c <= 'z' || 'A' <= c <= 'Z' || '0' <= c <= '9'
  }

  /** An address, character by character. */
  ghost predicate IsAddress(s: string, at: nat, dot: nat) {
    && 0 < at && at + 1 < dot && dot + 3 <= |s| && s[at] == '@' && s[dot] == '.'
    && (forall i :: 0 <= i < at ==> Alphanumeric(s[i]) || s[i] in "._%+-")
    && (forall i :: at < i < dot ==> Alphanumeric(s[i]) || s[i] in ".-")
    && (forall i :: dot < i < |s| ==> Alphanumeric(s[i]) && !('0' <= s[i] <= '9'))
  }

  lemma AddressIsEmail(s: string, at: nat, dot: nat)
    ensures IsAddress(s, at, dot) <==> EmailAt(s, at, dot)
  {
    if 0 < at && at + 1 < dot && dot + 3 <= |s| {
      assert AllIn(s[..at], Local) <==> forall i :: 0 <= i < at ==> In(s[i], Local) by {
        assert forall i :: 0 <= i < at ==> s[..at][i] == s[i];
      }
      assert AllIn(s[at + 1..dot], Domain) <==> forall i :: at < i < dot ==> In(s[i], Domain) by {
        assert forall i :: at < i < dot ==> s[at + 1..dot][i - at - 1] == s[i];
      }
      assert AllIn(s[dot + 1..], Letter) <==> forall i :: dot < i < |s| ==> In(s[i], Letter) by {
        assert forall i :: dot < i < |s| ==> s[dot + 1..][i - dot - 1] == s[i];
      }
    }
  }

  /** The pattern's language, told by its characters. */
  lemma EmailIs(s: string)
    ensures Matches(EMAIL, s) <==> exists at, dot :: IsAddress(s, at, dot)
  {
    if Matches(EMAIL, s) {
      var at, dot := EmailShape(s);
      AddressIsEmail(s, at, dot);
    }
    if at, dot :| IsAddress(s, at, dot) {
      AddressIsEmail(s, at, dot);
      EmailFromShape(s, at, dot);
    }
  }

  /** One match in a text: where it begins, where its '@' stands, and where it ends. */
  datatype Match = Match(begin: nat, at: nat, end: nat)

  /** The longest match that begins at its place. */
  ghost predicate IsLongest(s: string, m: Match) {
    && m.begin < m.at < m.end <= |s| && Matches(EMAIL, s[m.begin..m.end])
    && s[m.at] == '@' && '@' !in s[m.begin..m.at]
    && forall e {:trigger Matches(EMAIL, s[m.begin..e])} :: m.end < e <= |s| ==> !Matches(EMAIL, s[m.begin..e])
  }

  ghost predicate NoneBegins(s: string, from: nat, to: nat)
    requires to <= |s|
  {
    forall b, e {:trigger Matches(EMAIL, s[b..e])} ::
      from <= b < to && b <= e <= |s| ==> !Matches(EMAIL, s[b..e])
  }

  /** The matches of a scan from position i on, each the leftmost behind the one before it and the longest there. */
  ghost predicate IsScan(s: string, ms: seq<Match>, i: nat)
    decreases |ms|
  {
    i <= |s| &&
    if ms == [] then NoneBegins(s, i, |s|)
    else i <= ms[0].begin && IsLongest(s, ms[0]) && NoneBegins(s, i, ms[0].begin) && IsScan(s, ms[1..], ms[0].end)
  }

  /** The text from i on with three stars for what stands behind the '@' of each match. */
  function Starred(s: string, ms: seq<Match>, i: nat): string
    decreases |ms|
  {
    if ms == [] then if i <= |s| then s[i..] else ""
    else if i <= ms[0].at < |s| then s[i..ms[0].at + 1] + "***" + Starred(s, ms[1..], ms[0].end)
    else ""
  }

  lemma EndIsFirst(s: string, i: nat, e: nat)
    requires i < |s| && i <= e <= |s| && Matches(EMAIL, s[i..e])
    requires forall f :: e < f <= |s| ==> !Matches(EMAIL, s[i..f])
    ensures Ends(s)[i] == Some(e)
  {
    GreedyIsLongest(s, i, e);
  }

  lemma NowhereIn(s: string, c: char, b: nat, e: nat)
    requires b <= e <= |s| && c !in s[b..e]
    ensures forall j :: b <= j < e ==> s[j] != c
  {
    assert forall j :: b <= j < e ==> s[j] == s[b..e][j - b];
  }

  lemma NoAtInRun(s: string, i: nat)
    requires i <= |s|
    ensures '@' !in s[i..i + Reach(Local, s, i)]
  {
    assert forall c :: c in s[i..i + Reach(Local, s, i)] ==> In(c, Local);
  }

  lemma AtSign(s: string, m: Match)
    requires IsLongest(s, m)
    ensures m.at == m.begin + Reach(Local, s, m.begin)
  {
    var k := LocalPart(s, m.begin, m.end);
    NowhereIn(s, '@', m.begin, m.at);
    NoAtInRun(s, m.begin);
    NowhereIn(s, '@', m.begin, m.begin + k);
  }

  lemma StarsInFront(s: string, i: nat, m: Match, rest: string)
    requires i <= m.begin <= m.at < |s| && s[m.at] == '@'
    ensures s[i..m.begin] + (s[m.begin..m.at] + "@***" + rest) == s[i..m.at + 1] + "***" + rest
  {
    assert s[i..m.at + 1] == s[i..m.begin] + s[m.begin..m.at] + "@";
  }

  lemma NoEndBefore(s: string, i: nat, b: nat)
    requires i < b <= |s| && NoneBegins(s, i, b)
    ensures Ends(s)[i].None? && NoneBegins(s, i + 1, b)
  {
    assert IsEnd(s, i, Ends(s)[i]);
  }

  lemma SliceCons(s: string, i: nat, b: nat, rest: string)
    requires i < b <= |s|
    ensures [s[i]] + (s[i + 1..b] + rest) == s[i..b] + rest
  {
    assert s[i..b] == [s[i]] + s[i + 1..b];
  }

  lemma {:induction false} CopiesTo(s: string, i: nat, b: nat)
    requires i <= b <= |s| && NoneBegins(s, i, b)
    ensures Splice(s, Ends(s), i) == s[i..b] + Splice(s, Ends(s), b)
    decreases b - i
  {
    var rest := Splice(s, Ends(s), b);
    if i < b {
      NoEndBefore(s, i, b);
      var m := AtOther(s, Ends(s), i);
      CopiesTo(s, i + 1, b);
      SliceCons(s, i, b, rest);
    } else {
      assert s[i..b] + rest == rest;
    }
  }

  lemma AtLongest(s: string, m: Match)
    requires IsLongest(s, m)
    ensures Splice(s, Ends(s), m.begin) == s[m.begin..m.at] + "@***" + Splice(s, Ends(s), m.end)
  {
    EndIsFirst(s, m.begin, m.end);
    AtSign(s, m);
    SpliceAtMatch(s, Ends(s), m.begin);
  }

  lemma Joined(s: string, i: nat, m: Match, whole: string, middle: string, rest: string)
    requires i <= m.begin <= m.at < |s| && s[m.at] == '@'
    requires whole == s[i..m.begin] + middle && middle == s[m.begin..m.at] + "@***" + rest
    ensures whole == s[i..m.at + 1] + "***" + rest
  {
    StarsInFront(s, i, m, rest);
  }

  /** The text up to and over one longest match. */
  lemma OverMatch(s: string, i: nat, m: Match) returns (whole: string, rest: string)
    requires i <= m.begin && IsLongest(s, m) && NoneBegins(s, i, m.begin)
    ensures whole == Splice(s, Ends(s), i) && rest == Splice(s, Ends(s), m.end)
    ensures whole == s[i..m.at + 1] + "***" + rest
  {
    CopiesTo(s, i, m.begin);
    AtLongest(s, m);
    whole, rest := Splice(s, Ends(s), i), Splice(s, Ends(s), m.end);
    Joined(s, i, m, whole, Splice(s, Ends(s), m.begin), rest);
  }

  lemma StarredFirst(s: string, ms: seq<Match>, i: nat)
    requires ms != [] && i <= ms[0].at < |s|
    ensures Starred(s, ms, i) == s[i..ms[0].at + 1] + "***" + Starred(s, ms[1..], ms[0].end)
  {}

  lemma NothingLeft(s: string, i: nat)
    requires i <= |s| && NoneBegins(s, i, |s|)
    ensures Splice(s, Ends(s), i) == s[i..]
  {
    CopiesTo(s, i, |s|);
    assert s[i..|s|] + "" == s[i..];
  }

  /** The text up to and over the first match of a scan. */
  lemma OverFirst(s: string, ms: seq<Match>, i: nat) returns (whole: string, rest: string)
    requires IsScan(s, ms, i) && ms != []
    ensures i <= ms[0].at < |s| && ms[0].end <= |s| && IsScan(s, ms[1..], ms[0].end)
    ensures whole == Splice(s, Ends(s), i) && rest == Splice(s, Ends(s), ms[0].end)
    ensures whole == s[i..ms[0].at + 1] + "***" + rest
  {
    whole, rest := OverMatch(s, i, ms[0]);
  }

  /** Whatever scan one makes of a text, masking it is putting the stars in. */
  lemma {:induction false} ScanIsSpliced(s: string, ms: seq<Match>, i: nat)
    requires IsScan(s, ms, i)
    ensures i <= |s| && Splice(s, Ends(s), i) == Starred(s, ms, i)
    decreases |ms|
  {
    if ms == [] {
      NothingLeft(s, i);
    } else {
      var whole, rest := OverFirst(s, ms, i);
      ScanIsSpliced(s, ms[1..], ms[0].end);
      StarredFirst(s, ms, i);
    }
  }

  lemma LongestAt(s: string, i: nat) returns (m: Match)
    requires i < |s| && Ends(s)[i].Some?
    ensures m.begin == i && Ends(s)[i] == Some(m.end) && IsLongest(s, m)
  {
    assert IsEnd(s, i, Ends(s)[i]);
    var e := Ends(s)[i].value;
    GreedyIsLongest(s, i, e);
    var k := LocalPart(s, i, e);
    m := Match(i, i + k, e);
    NoAtInRun(s, i);
  }

  /** Every text has a scan. */
  lemma {:induction false} ScanFrom(s: string, i: nat) returns (ms: seq<Match>)
    requires i <= |s|
    ensures IsScan(s, ms, i)
    decreases |s| - i
  {
    if i == |s| {
      ms := [];
    } else if Ends(s)[i].Some? {
      var m := LongestAt(s, i);
      var rest := ScanFrom(s, m.end);
      ms := [m] + rest;
    } else {
      assert IsEnd(s, i, Ends(s)[i]);
      ms := ScanFrom(s, i + 1);
    }
  }

  /** Masking keeps everything but what stands behind the '@' of each leftmost longest match, and puts three stars
      there. */
  lemma MaskIsStarred(s: string) returns (ms: seq<Match>)
    ensures IsScan(s, ms, 0) && MaskEmails(s) == Starred(s, ms, 0)
    ensures forall other :: IsScan(s, other, 0) ==> MaskEmails(s) == Starred(s, other, 0)
  {
    ms := ScanFrom(s, 0);
    forall other | IsScan(s, other, 0)
      ensures MaskEmails(s) == Starred(s, other, 0)
    {
      ScanIsSpliced(s, other, 0);
    }
  }
}
