/** The stream readers of `exp.py`: a child's output arrives in arbitrary chunks and must reach the log
    file and the metric parser line by line. Two copies of the splitter exist, one in
    `_drain_stdout_nonblock` and one inside `run_one`. The line parser is a parameter. */
module LineReassembly {
  import opened Lines
  import opened Ordering

  /** The line boundaries of Python's `splitlines` in text mode, where carriage returns have already
      been translated. */
  predicate IsBreak(c: char) {
    c == '\n' || c == '\U{0B}' || c == '\U{0C}' || c == '\U{1C}' || c == '\U{1D}' || c == '\U{1E}'
    || c == '\U{85}' || c == '\U{2028}' || c == '\U{2029}'
  }

  predicate EndsWithBreak(s: string) { EndsWith(s, IsBreak) }

  predicate EndsWithNewline(s: string) { s != [] && s[|s| - 1] == '\n' }

  /** `splitlines(keepends=True)`. */
  function SplitLines(s: string): seq<string> { Split(s, IsBreak) }

  /** Printable ASCII, tabs and newlines. */
  predicate IsPlain(c: char) { c == '\n' || c == '\t' || ' ' <= c <= '~' }

  /** Plain text is cut after every newline and nowhere else. */
  lemma PlainLines(text: string)
    requires forall c | c in text :: IsPlain(c)
    ensures var lines := SplitLines(text);
            && Joined(lines) == text
            && (forall i | 0 <= i < |lines| :: |lines[i]| > 0 && '\n' !in lines[i][..|lines[i]| - 1])
            && forall i | 0 <= i < |lines| - 1 :: lines[i] != [] && lines[i][|lines[i]| - 1] == '\n'
  {
    var lines := SplitLines(text);
    SplitExact(text, IsBreak);
    assert IsBreak('\n');
    hide Split, IsBreak;
    forall i | 0 <= i < |lines| - 1 ensures lines[i] != [] && lines[i][|lines[i]| - 1] == '\n' {
      assert IsLine(lines[i], IsBreak) && EndsWith(lines[i], IsBreak);
      LineInText(lines, i);
      var c := lines[i][|lines[i]| - 1];
      assert c in Joined(lines);
      OnlyPlainBreak(c);
    }
    forall i | 0 <= i < |lines| ensures |lines[i]| > 0 && '\n' !in lines[i][..|lines[i]| - 1] {
      assert IsLine(lines[i], IsBreak);
    }
  }

  lemma OnlyPlainBreak(c: char)
    ensures IsPlain(c) && IsBreak(c) <==> c == '\n'
  {
  }

  lemma {:induction false} LineInText(lines: seq<string>, i: nat)
    requires i < |lines|
    ensures forall c | c in lines[i] :: c in Joined(lines)
  {
    if i < |lines| - 1 { LineInText(lines[..|lines| - 1], i); }
  }

  // ---------------------------------------------------------------------------------------
  // What a reader has passed on, and what it still holds
  // ---------------------------------------------------------------------------------------

  /** The lines handed on once `text` has been read. */
  function Complete(text: string): seq<string> {
    var lines := SplitLines(text);
    if EndsWithNewline(text) || lines == [] then lines else lines[..|lines| - 1]
  }

  /** The part of `text` still in the buffer. */
  function Hold(text: string): string {
    var lines := SplitLines(text);
    if EndsWithNewline(text) || lines == [] then [] else lines[|lines| - 1]
  }

  lemma CompleteAndHold(text: string)
    ensures Joined(Complete(text)) + Hold(text) == text
    ensures Joined(Complete(text)) == [] || EndsWithBreak(Joined(Complete(text)))
    ensures SplitLines(Joined(Complete(text))) == Complete(text)
    ensures Hold(text) == [] || (IsLine(Hold(text), IsBreak) && !EndsWithNewline(Hold(text)))
  {
    SplitExact(text, IsBreak);
    var lines := SplitLines(text);
    hide Split;
    if EndsWithNewline(text) || lines == [] {
      assert IsBreak('\n');
      assert text + [] == text;
    } else {
      hide IsBreak;
      var n := |lines| - 1;
      FrontLines(lines);
      LastJoined(lines);
    }
  }

  lemma FrontLines(lines: seq<string>)
    requires AreLines(lines, IsBreak) && lines != []
    ensures var front := lines[..|lines| - 1];
            Split(Joined(front), IsBreak) == front && (Joined(front) == [] || EndsWithBreak(Joined(front)))
  {
    hide IsBreak, IsLine, Split, Joined;
    var front := lines[..|lines| - 1];
    assert forall i | 0 <= i < |front| :: front[i] == lines[i] && EndsWithBreak(front[i]);
    WrittenReadBack(front, IsBreak);
    JoinedEnds(front);
  }

  lemma {:induction false} LastJoined(lines: seq<string>)
    requires lines != []
    ensures Joined(lines) != [] && lines[|lines| - 1] != [] ==>
              Joined(lines)[|Joined(lines)| - 1] == lines[|lines| - 1][|lines[|lines| - 1]| - 1]
  {
  }

  lemma {:induction false} JoinedEnds(lines: seq<string>)
    requires forall i | 0 <= i < |lines| :: EndsWithBreak(lines[i])
    ensures if lines == [] then Joined(lines) == [] else EndsWithBreak(Joined(lines))
  {
    hide IsBreak;
    if lines != [] {
      var last := lines[|lines| - 1];
      assert EndsWithBreak(last);
      assert Joined(lines)[|Joined(lines)| - 1] == last[|last| - 1];
    }
  }

  /** Text after a boundary is split, and held, as if the text before it were not there. */
  lemma CompleteShift(done: string, rest: string)
    requires (done == [] || EndsWithBreak(done)) && rest != []
    ensures Complete(done + rest) == SplitLines(done) + Complete(rest)
    ensures Hold(done + rest) == Hold(rest)
  {
    hide IsBreak, Split;
    SplitConcat(done, rest, IsBreak);
    SplitSome(rest, IsBreak);
    DropLastConcat(SplitLines(done), SplitLines(rest));
    assert (done + rest)[|done + rest| - 1] == rest[|rest| - 1];
  }

  lemma DropLastConcat<T>(a: seq<T>, b: seq<T>)
    requires b != []
    ensures (a + b)[..|a + b| - 1] == a + b[..|b| - 1] && (a + b)[|a + b| - 1] == b[|b| - 1]
  {
  }

  lemma NothingMore(text: string)
    requires Hold(text) == []
    ensures Complete(text) == Complete(text) + Complete([]) && Hold([]) == []
  {
    SplitSome([], IsBreak);
  }

  /** Reading one more chunk: what was held is split again together with the chunk. */
  lemma OneChunk(text: string, chunk: string)
    ensures Complete(text + chunk) == Complete(text) + Complete(Hold(text) + chunk)
    ensures Hold(text + chunk) == Hold(Hold(text) + chunk)
  {
    hide IsBreak, Joined, Complete, Hold, SplitLines, EndsWithBreak, EndsWithNewline;
    CompleteAndHold(text);
    var (done, rest) := (Joined(Complete(text)), Hold(text) + chunk);
    assert text + chunk == done + rest;
    if rest == [] {
      assert Hold(text) == [] && chunk == [] && text + chunk == text;
      NothingMore(text);
    } else {
      CompleteShift(done, rest);
    }
  }

  function Fold<Agg>(parse: (string, Agg) -> Agg, lines: seq<string>, agg: Agg): Agg {
    if lines == [] then agg else parse(lines[|lines| - 1], Fold(parse, lines[..|lines| - 1], agg))
  }

  lemma {:induction false} FoldConcat<Agg>(parse: (string, Agg) -> Agg, a: seq<string>, b: seq<string>, agg: Agg)
    ensures Fold(parse, a + b, agg) == Fold(parse, b, Fold(parse, a, agg))
  {
    if b == [] {
      assert a + b == a;
    } else {
      var n := |b| - 1;
      assert (a + b)[..|a| + n] == a + b[..n];
      FoldConcat(parse, a, b[..n], agg);
    }
  }

  /** The values the metrics take: from the first, each line in turn makes the next of the one before. */
  ghost predicate IsTrace<Agg>(trace: seq<Agg>, parse: (string, Agg) -> Agg, lines: seq<string>, first: Agg) {
    && |trace| == |lines| + 1 && trace[0] == first
    && forall i: nat | i < |lines| :: trace[i + 1] == parse(lines[i], trace[i])
  }

  lemma {:induction false} FoldTrace<Agg>(parse: (string, Agg) -> Agg, lines: seq<string>, first: Agg)
    returns (trace: seq<Agg>)
    ensures IsTrace(trace, parse, lines, first) && trace[|lines|] == Fold(parse, lines, first)
  {
    if lines == [] {
      trace := [first];
    } else {
      trace := FoldTrace(parse, lines[..|lines| - 1], first);
      trace := trace + [parse(lines[|lines| - 1], trace[|lines| - 1])];
    }
  }

  /** `splitlines()` without the terminators. */
  function Chomp(line: string): string {
    if EndsWithBreak(line) then line[..|line| - 1] else line
  }

  /** Of a line only the boundary at its end, if there is one, is taken away. */
  lemma ChompExact(line: string)
    requires IsLine(line, IsBreak)
    ensures forall c | c in Chomp(line) :: !IsBreak(c)
    ensures Chomp(line) == line || exists c :: IsBreak(c) && line == Chomp(line) + [c]
  {
    hide IsBreak;
    if EndsWithBreak(line) {
      var c := line[|line| - 1];
      assert line == Chomp(line) + [c];
    }
  }

  function SplitBare(s: string): seq<string> {
    seq(|SplitLines(s)|, i requires 0 <= i < |SplitLines(s)| => Chomp(SplitLines(s)[i]))
  }

  /** The lines of a whole output as the parser sees them. */
  function LinesOf(text: string): seq<string> {
    Complete(text) + SplitBare(Hold(text))
  }

  /** Folding over them is folding over the lines passed on and then over what is left. */
  lemma LeftoverLines<Agg>(parse: (string, Agg) -> Agg, text: string, agg: Agg)
    ensures Fold(parse, LinesOf(text), agg) == Fold(parse, SplitBare(Hold(text)), Fold(parse, Complete(text), agg))
    ensures Hold(text) == [] ==> LinesOf(text) == Complete(text)
  {
    hide IsBreak, Complete, Hold;
    FoldConcat(parse, Complete(text), SplitBare(Hold(text)), agg);
    if Hold(text) == [] {
      assert SplitBare(Hold(text)) == [];
      assert Complete(text) + [] == Complete(text);
    }
  }

  /** They are the lines of the text, except that a last line ended by a boundary other than a newline
      loses that terminator. */
  lemma LinesOfMeaning(text: string)
    ensures LinesOf(text) ==
            var lines := SplitLines(text);
            if text == [] || EndsWithNewline(text) then lines
            else assert lines != [] by { SplitSome(text, IsBreak); } lines[..|lines| - 1] + [Chomp(lines[|lines| - 1])]
  {
    SplitSome(text, IsBreak);
    hide IsBreak, Split;
    var lines := SplitLines(text);
    if text == [] || EndsWithNewline(text) {
      assert SplitBare([]) == [] by { SplitSome([], IsBreak); }
      assert LinesOf(text) == lines + [];
    } else {
      HeldLine(text);
      hide SplitBare, Chomp;
      assert LinesOf(text) == lines[..|lines| - 1] + [Chomp(lines[|lines| - 1])];
    }
  }

  /** So they are simply the lines exactly when the output does not end in such a boundary. */
  lemma LinesOfUsual(text: string)
    ensures LinesOf(text) == SplitLines(text) <==> EndsWithNewline(text) || !EndsWithBreak(text)
  {
    hide IsBreak, Split, SplitLines, LinesOf, SplitBare, Complete, EndsWithBreak;
    LinesOfMeaning(text);
    SplitSome(text, IsBreak);
    if text != [] && !EndsWithNewline(text) {
      HeldLine(text);
      var lines := SplitLines(text);
      LastDecides(lines, Chomp(lines[|lines| - 1]));
    } else if text == [] {
      assert !EndsWithBreak(text) by { NothingEnds(text); }
    }
  }

  lemma NothingEnds(text: string)
    requires text == []
    ensures !EndsWithBreak(text)
  {
  }

  lemma LastDecides<T>(s: seq<T>, x: T)
    requires s != []
    ensures s[..|s| - 1] + [x] == s <==> x == s[|s| - 1]
  {
    if s[..|s| - 1] + [x] == s { assert (s[..|s| - 1] + [x])[|s| - 1] == x; }
  }

  lemma HeldLine(text: string)
    requires text != [] && !EndsWithNewline(text)
    ensures Hold(text) != [] && SplitBare(Hold(text)) == [Chomp(Hold(text))]
    ensures EndsWithBreak(Hold(text)) <==> EndsWithBreak(text)
  {
    SplitSome(text, IsBreak);
    SplitExact(text, IsBreak);
    CompleteAndHold(text);
    OneLine(Hold(text), IsBreak);
  }

  // ---------------------------------------------------------------------------------------
  // The programs
  // ---------------------------------------------------------------------------------------

  class Reader<Agg> {
    const parse: (string, Agg) -> Agg
    ghost const header: string
    ghost const start: Agg
    var buf: string
    var log: string
    var agg: Agg

    /** `text` is the output read so far: log and buffer together hold it all, and the metrics are the
        fold over the lines handed on. */
    ghost predicate HasRead(text: string)
      reads this
    {
      && log + buf == header + text
      && log == header + Joined(Complete(text)) && buf == Hold(text)
      && agg == Fold(parse, Complete(text), start)
    }

    constructor (parse: (string, Agg) -> Agg, header: string, agg: Agg)
      ensures HasRead([]) && this.parse == parse && this.header == header && this.start == agg
    {
      this.parse := parse;
      this.header, this.start := header, agg;
      buf, log, this.agg := [], header, agg;
    }

    /** Write and parse the lines, in order. */
    method PassOn(lines: seq<string>)
      modifies this`log, this`agg
      ensures log == old(log) + Joined(lines) && agg == Fold(parse, lines, old(agg))
    {
      for i := 0 to |lines|
        invariant log == old(log) + Joined(lines[..i]) && agg == Fold(parse, lines[..i], old(agg))
      {
        assert lines[..i + 1][..i] == lines[..i];
        log := log + lines[i];
        agg := parse(lines[i], agg);
      }
      assert lines[..|lines|] == lines;
    }

    /** The splitter of `_drain_stdout_nonblock`: complete lines out, the rest stays in the buffer. */
    method SplitBuffer(chunk: string) returns (lines: seq<string>)
      modifies this`buf
      ensures lines == Complete(old(buf) + chunk) && buf == Hold(old(buf) + chunk)
    {
      buf := buf + chunk;
      lines := SplitLines(buf);
      if !EndsWithNewline(buf) && lines != [] {
        buf := lines[|lines| - 1];
        lines := lines[..|lines| - 1];
      } else {
        buf := [];
      }
    }

    /** `_drain_stdout_nonblock`. */
    method DrainStdout(chunk: string, ghost text: string)
      requires HasRead(text)
      modifies this`buf, this`log, this`agg
      ensures HasRead(text + chunk)
    {
      if chunk == [] {
        assert text + chunk == text;
        return;
      }
      hide Complete, Hold, Joined, Fold;
      OneChunk(text, chunk);
      Extend(parse, header, text, chunk, start);
      var lines := SplitBuffer(chunk);
      if lines != [] {
        PassOn(lines);
      } else {
        NoLines(parse, log, agg);
      }
    }

    /** After the process has ended: what is left in the buffer is written and parsed. */
    method FlushLeftover(ghost text: string)
      requires HasRead(text)
      modifies this`buf, this`log, this`agg
      ensures buf == [] && log == header + text && agg == Fold(parse, LinesOf(text), start)
    {
      LeftoverLines(parse, text, start);
      hide Complete, Hold, Joined, SplitBare, Split, LinesOf;
      if buf != [] {
        log := log + buf;
        var lines := SplitBare(buf);
        for i := 0 to |lines|
          invariant agg == Fold(parse, lines[..i], old(agg)) && buf == old(buf)
          invariant log == header + text
        {
          assert lines[..i + 1][..i] == lines[..i];
          agg := parse(lines[i], agg);
        }
        assert lines[..|lines|] == lines;
        buf := [];
      } else {
        assert log + [] == log;
      }
    }

    /** However the output is cut into chunks, the log ends up with the whole of it and the metrics are
        one fold over the lines of the whole output. */
    method ReadAll(chunks: seq<string>)
      requires HasRead([])
      modifies this`buf, this`log, this`agg
      ensures log == header + Joined(chunks) && agg == Fold(parse, LinesOf(Joined(chunks)), start)
      ensures exists trace :: IsTrace(trace, parse, LinesOf(Joined(chunks)), start) && agg == trace[|trace| - 1]
    {
      for i := 0 to |chunks|
        invariant HasRead(Joined(chunks[..i]))
      {
        assert chunks[..i + 1][..i] == chunks[..i];
        DrainStdout(chunks[i], Joined(chunks[..i]));
      }
      assert chunks[..|chunks|] == chunks;
      FlushLeftover(Joined(chunks));
      ghost var trace := FoldTrace(parse, LinesOf(Joined(chunks)), start);
    }

    /** The loop of `run_one`, with its own copy of the splitter, meets the same specification. */
    method RunOne(chunks: seq<string>)
      requires HasRead([])
      modifies this`buf, this`log, this`agg
      ensures log == header + Joined(chunks) && agg == Fold(parse, LinesOf(Joined(chunks)), start)
      ensures exists trace :: IsTrace(trace, parse, LinesOf(Joined(chunks)), start) && agg == trace[|trace| - 1]
    {
      for i := 0 to |chunks|
        invariant HasRead(Joined(chunks[..i]))
      {
        assert chunks[..i + 1][..i] == chunks[..i];
        RunOneChunk(chunks[i], Joined(chunks[..i]));
      }
      assert chunks[..|chunks|] == chunks;
      FlushLeftover(Joined(chunks));
      ghost var trace := FoldTrace(parse, LinesOf(Joined(chunks)), start);
    }

    /** The splitter of that loop. */
    method SplitBufferInline(chunk: string) returns (lines: seq<string>)
      requires chunk != []
      modifies this`buf
      ensures lines == Complete(old(buf) + chunk) && buf == Hold(old(buf) + chunk)
    {
      buf := buf + chunk;
      SplitSome(buf, IsBreak);
      lines := SplitLines(buf);
      if !EndsWithNewline(buf) {
        buf := lines[|lines| - 1];
        lines := lines[..|lines| - 1];
      } else {
        buf := [];
      }
    }

    /** One iteration of that loop. */
    method RunOneChunk(chunk: string, ghost text: string)
      requires HasRead(text)
      modifies this`buf, this`log, this`agg
      ensures HasRead(text + chunk)
    {
      if chunk != [] {
        hide Complete, Hold, Joined, Fold;
        OneChunk(text, chunk);
        Extend(parse, header, text, chunk, start);
        var lines := SplitBufferInline(chunk);
        PassOn(lines);
      } else {
        assert text + chunk == text;
      }
    }
  }

  lemma NoLines<Agg>(parse: (string, Agg) -> Agg, log: string, agg: Agg)
    ensures Fold(parse, [], agg) == agg && log + Joined([]) == log
  {
  }

  lemma Extend<Agg>(parse: (string, Agg) -> Agg, header: string, text: string, chunk: string, agg: Agg)
    ensures var (old', new') := (Complete(text), Complete(Hold(text) + chunk));
            && Fold(parse, Complete(text + chunk), agg) == Fold(parse, new', Fold(parse, old', agg))
            && (header + Joined(old')) + Joined(new') == header + Joined(Complete(text + chunk))
            && (header + Joined(Complete(text + chunk))) + Hold(text + chunk) == header + (text + chunk)
  {
    hide IsBreak, Complete, Hold, Fold, Joined;
    OneChunk(text, chunk);
    FoldConcat(parse, Complete(text), Complete(Hold(text) + chunk), agg);
    JoinedConcat(Complete(text), Complete(Hold(text) + chunk));
    CompleteAndHold(text + chunk);
    ConcatAssociative(header, Joined(Complete(text)), Joined(Complete(Hold(text) + chunk)));
    ConcatAssociative(header, Joined(Complete(text + chunk)), Hold(text + chunk));
  }
}
