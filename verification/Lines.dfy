/** Cutting a text into lines that keep their terminators, shared by the models: `splitlines(keepends=True)`
    and `readlines` differ only in which characters end a line, so that is a parameter. */
module Lines {
  import opened Ordering

  ghost predicate IsFirstLine(s: string, k: nat, brk: char -> bool) {
    0 < k <= |s| && (forall i | 0 <= i < k - 1 :: !brk(s[i])) && (k < |s| ==> brk(s[k - 1]))
  }

  /** Length of the first line, its terminator included. */
  function FirstLine(s: string, brk: char -> bool): (k: nat)
    requires s != []
    ensures IsFirstLine(s, k, brk)
  {
    if brk(s[0]) || |s| == 1 then 1 else 1 + FirstLine(s[1..], brk)
  }

  function Split(s: string, brk: char -> bool): seq<string> {
    if s == [] then [] else var k := FirstLine(s, brk); [s[..k]] + Split(s[k..], brk)
  }

  function Joined(lines: seq<string>): string {
    if lines == [] then [] else Joined(lines[..|lines| - 1]) + lines[|lines| - 1]
  }

  predicate EndsWith(s: string, brk: char -> bool) { s != [] && brk(s[|s| - 1]) }

  /** A line: not empty, with a boundary at its end or nowhere. */
  ghost predicate IsLine(s: string, brk: char -> bool) {
    s != [] && forall i | 0 <= i < |s| - 1 :: !brk(s[i])
  }

  /** Lines, of which only the last may lack its terminator. */
  ghost predicate AreLines(lines: seq<string>, brk: char -> bool) {
    && (forall i | 0 <= i < |lines| :: IsLine(lines[i], brk))
    && (forall i | 0 <= i < |lines| - 1 :: EndsWith(lines[i], brk))
  }

  lemma {:induction false} JoinedConcat(a: seq<string>, b: seq<string>)
    ensures Joined(a + b) == Joined(a) + Joined(b)
  {
    if b == [] {
      assert a + b == a;
    } else {
      var n := |b| - 1;
      assert (a + b)[..|a| + n] == a + b[..n];
      JoinedConcat(a, b[..n]);
      ConcatAssociative(Joined(a), Joined(b[..n]), b[n]);
    }
  }

  lemma JoinedCons(l: string, lines: seq<string>)
    ensures Joined([l] + lines) == l + Joined(lines)
  {
    JoinedConcat([l], lines);
    assert [l][..0] == [];
  }

  lemma AreLinesCons(l: string, rest: seq<string>, brk: char -> bool)
    requires IsLine(l, brk) && AreLines(rest, brk) && (rest == [] || EndsWith(l, brk))
    ensures AreLines([l] + rest, brk)
  {
    hide IsLine, EndsWith;
  }

  lemma Cut(s: string, brk: char -> bool) returns (l: string, rest: string)
    requires s != []
    ensures s == l + rest && |rest| < |s| && IsLine(l, brk) && (rest == [] || EndsWith(l, brk))
    ensures Split(s, brk) == [l] + Split(rest, brk)
  {
    var k := FirstLine(s, brk);
    l, rest := s[..k], s[k..];
  }

  lemma SplitSome(s: string, brk: char -> bool)
    ensures Split(s, brk) == [] <==> s == []
  {
    if s != [] { var l, rest := Cut(s, brk); }
  }

  /** Splitting loses nothing, cuts into lines, and only the last may lack its terminator. */
  lemma {:induction false} SplitExact(s: string, brk: char -> bool)
    ensures Joined(Split(s, brk)) == s && AreLines(Split(s, brk), brk)
    decreases |s|
  {
    if s != [] {
      var l, rest := Cut(s, brk);
      SplitExact(rest, brk);
      SplitSome(rest, brk);
      JoinedCons(l, Split(rest, brk));
      AreLinesCons(l, Split(rest, brk), brk);
    }
  }

  lemma {:induction false} FirstLineUnique(s: string, k: nat, brk: char -> bool)
    requires IsFirstLine(s, k, brk)
    ensures FirstLine(s, brk) == k
  {
    if k > 1 {
      assert !brk(s[0]);
      assert forall i | 0 <= i < |s| - 1 :: s[1..][i] == s[i + 1];
      FirstLineUnique(s[1..], k - 1, brk);
    }
  }

  /** Whatever is cut at a boundary has found the first line. */
  lemma SplitCons(l: string, rest: string, brk: char -> bool)
    requires IsLine(l, brk) && (rest == [] || EndsWith(l, brk))
    ensures Split(l + rest, brk) == [l] + Split(rest, brk)
  {
    var s := l + rest;
    assert IsFirstLine(s, |l|, brk);
    FirstLineUnique(s, |l|, brk);
    assert s[..|l|] == l && s[|l|..] == rest;
  }

  lemma OneLine(l: string, brk: char -> bool)
    requires IsLine(l, brk)
    ensures Split(l, brk) == [l]
  {
    SplitCons(l, [], brk);
    assert l + [] == l && [l] + [] == [l];
  }

  lemma ConsConcat(x: string, a: seq<string>, b: seq<string>)
    ensures [x] + (a + b) == ([x] + a) + b
  {
  }

  lemma EndOfRest(a: string, l: string, rest: string, brk: char -> bool)
    requires a == l + rest && EndsWith(a, brk)
    ensures rest == [] || EndsWith(rest, brk)
    ensures rest == [] ==> EndsWith(l, brk)
  {
  }

  /** Text that ends at a boundary can be split on its own. */
  lemma {:induction false} SplitConcat(a: string, b: string, brk: char -> bool)
    requires a == [] || EndsWith(a, brk)
    ensures Split(a + b, brk) == Split(a, brk) + Split(b, brk)
    decreases |a|
  {
    if a == [] {
      assert a + b == b;
    } else {
      hide Split, IsLine, EndsWith;
      var l, rest := Cut(a, brk);
      EndOfRest(a, l, rest, brk);
      SplitConcat(rest, b, brk);
      SplitCons(l, rest + b, brk);
      ConcatAssociative(l, rest, b);
      ConsConcat(l, Split(rest, brk), Split(b, brk));
    }
  }

  lemma Uncons(lines: seq<string>, brk: char -> bool)
    requires AreLines(lines, brk) && lines != []
    ensures lines == [lines[0]] + lines[1..] && AreLines(lines[1..], brk)
    ensures IsLine(lines[0], brk) && (lines[1..] == [] || EndsWith(lines[0], brk))
  {
    hide IsLine, EndsWith;
    assert forall i | 0 <= i < |lines| - 1 :: lines[1..][i] == lines[i + 1];
  }

  /** Lines that are written are read back as they were. */
  lemma {:induction false} WrittenReadBack(lines: seq<string>, brk: char -> bool)
    requires AreLines(lines, brk)
    ensures Split(Joined(lines), brk) == lines
  {
    if lines != [] {
      hide AreLines, Split, Joined, IsLine, EndsWith;
      Uncons(lines, brk);
      WrittenReadBack(lines[1..], brk);
      JoinedCons(lines[0], lines[1..]);
      assert lines[1..] == [] ==> Joined(lines[1..]) == [] by { JoinedNothing(); }
      SplitCons(lines[0], Joined(lines[1..]), brk);
    } else {
      assert Joined(lines) == [];
    }
  }

  lemma JoinedNothing()
    ensures Joined([]) == []
  {
  }
}
