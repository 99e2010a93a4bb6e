/** The line-style fixer: a pass over a file's lines that honours formatting guards, checks each line and,
    when fixing, overwrites it in place. A fix may itself create a guard line. */
module StyleFixer {
  import opened Lines
  import opened Ordering

  datatype LineResult = LineResult(compliant: bool, fixed: string)

  const TAB_SIZE: nat := 4

  // ---------------------------------------------------------------------------------------
  // Reading and writing lines
  // ---------------------------------------------------------------------------------------

  predicate IsNewline(c: char) { c == '\n' }

  /** `readlines`, newline translation already done. */
  function ReadLines(t: string): seq<string> { Split(t, IsNewline) }

  /** A file's lines are cut after every newline and nowhere else. */
  lemma ReadLinesExact(t: string)
    ensures var lines := ReadLines(t);
            && Joined(lines) == t
            && (forall i | 0 <= i < |lines| :: |lines[i]| > 0 && '\n' !in lines[i][..|lines[i]| - 1])
            && forall i | 0 <= i < |lines| - 1 :: lines[i] != [] && lines[i][|lines[i]| - 1] == '\n'
  {
    var lines := ReadLines(t);
    SplitExact(t, IsNewline);
    hide Split;
    forall i | 0 <= i < |lines| ensures |lines[i]| > 0 && '\n' !in lines[i][..|lines[i]| - 1] {
      assert IsLine(lines[i], IsNewline);
    }
    forall i | 0 <= i < |lines| - 1 ensures lines[i] != [] && lines[i][|lines[i]| - 1] == '\n' {
      assert EndsWith(lines[i], IsNewline);
    }
  }

  // ---------------------------------------------------------------------------------------
  // White space and tabs
  // ---------------------------------------------------------------------------------------

  /** `str.isspace` of one character. */
  predicate IsSpace(ch: char) {
    var c := ch as int;
    || 0x09 <= c <= 0x0D || 0x1C <= c <= 0x20 || c == 0x85 || c == 0xA0 || c == 0x1680
    || 0x2000 <= c <= 0x200A || c == 0x2028 || c == 0x2029 || c == 0x202F || c == 0x205F || c == 0x3000
  }

  /** Of the ASCII characters the blank, tab, newline, carriage return and seven other control characters are white
      space, and no visible one is. */
  lemma SpaceInAscii(c: char)
    requires (c as int) < 128
    ensures IsSpace(c) <==> c in {' ', '\t', '\n', '\r', '\U{0B}', '\U{0C}', '\U{1C}', '\U{1D}', '\U{1E}', '\U{1F}'}
    ensures '!' <= c <= '~' ==> !IsSpace(c)
  {
    assert c as int == 0x0B <==> c == '\U{0B}';
  }

  predicate Blank(s: string) { forall i | 0 <= i < |s| :: IsSpace(s[i]) }

  function Rstrip(s: string): (r: string)
    ensures |r| <= |s|
  {
    if s != "" && IsSpace(s[|s| - 1]) then Rstrip(s[..|s| - 1]) else s
  }

  /** What `rstrip` takes away. */
  function Trailing(s: string): string { s[|Rstrip(s)|..] }

  lemma {:induction false} RstripExact(s: string)
    ensures s == Rstrip(s) + Trailing(s) && Blank(Trailing(s))
    ensures Rstrip(s) == "" || !IsSpace(Rstrip(s)[|Rstrip(s)| - 1])
  {
    if s != "" && IsSpace(s[|s| - 1]) {
      var front := s[..|s| - 1];
      RstripExact(front);
      hide IsSpace;
      assert s == Rstrip(front) + Trailing(front) + [s[|s| - 1]];
      assert Trailing(s) == Trailing(front) + [s[|s| - 1]];
    }
  }

  function Lstrip(s: string): (r: string)
    ensures |r| <= |s|
  {
    if s != "" && IsSpace(s[0]) then Lstrip(s[1..]) else s
  }

  lemma {:induction false} LstripExact(s: string)
    ensures |Lstrip(s)| <= |s| && s[|s| - |Lstrip(s)|..] == Lstrip(s) && Blank(s[..|s| - |Lstrip(s)|])
    ensures Lstrip(s) == "" || !IsSpace(Lstrip(s)[0])
  {
    if s != "" && IsSpace(s[0]) {
      var (tail, n) := (s[1..], |s| - |Lstrip(s)|);
      LstripExact(tail);
      forall i | 0 <= i < n ensures IsSpace(s[i]) {
        if i > 0 { assert s[i] == tail[..n - 1][i - 1]; }
      }
    }
  }

  function Strip(s: string): string { Lstrip(Rstrip(s)) }

  lemma SameCut(s: string, n: nat, m: nat)
    requires n <= |s| && m <= |s|
    requires forall i | n <= i < |s| :: IsSpace(s[i])
    requires forall i | m <= i < |s| :: IsSpace(s[i])
    requires (n > 0 ==> !IsSpace(s[n - 1])) && (m > 0 ==> !IsSpace(s[m - 1]))
    ensures n == m
  {
  }

  /** Whatever splits a text into blanks and a part that does not end in a space has found its `rstrip`. */
  lemma RstripUnique(r: string, post: string)
    requires Blank(post) && (r == "" || !IsSpace(r[|r| - 1]))
    ensures Rstrip(r + post) == r
  {
    hide IsSpace, Rstrip;
    var (s, x) := (r + post, Rstrip(r + post));
    RstripExact(s);
    CutUnique(x, Trailing(s), r, post);
  }

  lemma CutUnique(x: string, y: string, r: string, post: string)
    requires x + y == r + post && Blank(y) && Blank(post)
    requires (x == "" || !IsSpace(x[|x| - 1])) && (r == "" || !IsSpace(r[|r| - 1]))
    ensures x == r
  {
    hide IsSpace;
    var s := r + post;
    forall i | |x| <= i < |s| ensures IsSpace(s[i]) { assert (x + y)[i] == y[i - |x|]; }
    forall i | |r| <= i < |s| ensures IsSpace(s[i]) { assert s[i] == post[i - |r|]; }
    assert x != "" ==> (x + y)[|x| - 1] == x[|x| - 1];
    SameCut(s, |x|, |r|);
    assert (x + y)[..|x|] == x && s[..|r|] == r;
  }

  lemma SameStart(s: string, n: nat, m: nat)
    requires n <= |s| && m <= |s|
    requires forall i | 0 <= i < n :: IsSpace(s[i])
    requires forall i | 0 <= i < m :: IsSpace(s[i])
    requires (n < |s| ==> !IsSpace(s[n])) && (m < |s| ==> !IsSpace(s[m]))
    ensures n == m
  {
  }

  lemma LstripUnique(pre: string, l: string)
    requires Blank(pre) && (l == "" || !IsSpace(l[0]))
    ensures Lstrip(pre + l) == l
  {
    hide IsSpace;
    var s := pre + l;
    LstripExact(s);
    var n := |s| - |Lstrip(s)|;
    forall i | 0 <= i < n ensures IsSpace(s[i]) { assert s[i] == s[..n][i]; }
    forall i | 0 <= i < |pre| ensures IsSpace(s[i]) { assert s[i] == pre[i]; }
    SameStart(s, n, |pre|);
  }

  function Leading(s: string): string { Rstrip(s)[..|Rstrip(s)| - |Strip(s)|] }

  /** The words of a text between its outer blanks. */
  ghost predicate Bare(mid: string) { mid != "" && !IsSpace(mid[0]) && !IsSpace(mid[|mid| - 1]) }

  lemma StripUnique(pre: string, mid: string, post: string)
    requires Blank(pre) && Bare(mid) && Blank(post)
    ensures Strip(pre + mid + post) == mid
  {
    RstripUnique(pre + mid, post);
    LstripUnique(pre, mid);
  }

  lemma StripParts(s: string)
    ensures Blank(Leading(s)) && Blank(Trailing(s)) && s == Leading(s) + Strip(s) + Trailing(s)
    ensures Strip(s) != "" ==> Bare(Strip(s))
  {
    hide IsSpace, Rstrip, Lstrip;
    var r := Rstrip(s);
    RstripExact(s);
    LstripExact(r);
    assert r == Leading(s) + Strip(s);
    if Strip(s) != "" { assert Strip(s)[|Strip(s)| - 1] == r[|r| - 1]; }
  }

  function Spaces(n: nat): (s: string)
    ensures |s| == n && forall i | 0 <= i < n :: s[i] == ' '
  {
    seq(n, _ => ' ')
  }

  function NextColumn(column: nat, c: char): nat {
    if c == '\t' then column + TAB_SIZE - column % TAB_SIZE
    else if c == '\n' || c == '\r' then 0
    else column + 1
  }

  function Expansion(column: nat, c: char): string {
    if c == '\t' then Spaces(TAB_SIZE - column % TAB_SIZE) else [c]
  }

  /** `expandtabs(TAB_SIZE)` of text that starts in `column`. */
  function ExpandTabs(s: string, column: nat): string {
    if s == "" then "" else Expansion(column, s[0]) + ExpandTabs(s[1..], NextColumn(column, s[0]))
  }

  function ColumnAfter(s: string, column: nat): nat {
    if s == "" then column else ColumnAfter(s[1..], NextColumn(column, s[0]))
  }

  predicate OneRow(s: string) { '\n' !in s && '\r' !in s }

  lemma {:induction false} ExpandConcat(a: string, b: string, column: nat)
    ensures ExpandTabs(a + b, column) == ExpandTabs(a, column) + ExpandTabs(b, ColumnAfter(a, column))
  {
    if a == "" {
      assert a + b == b;
    } else {
      hide Expansion, NextColumn;
      var (x, c') := (Expansion(column, a[0]), NextColumn(column, a[0]));
      ExpandConcat(a[1..], b, c');
      assert (a + b)[1..] == a[1..] + b;
      ConcatAssociative(x, ExpandTabs(a[1..], c'), ExpandTabs(b, ColumnAfter(a, column)));
    }
  }

  lemma ExpandPrefix(s: string, column: nat, i: nat)
    requires 0 < i <= |s|
    ensures ExpandTabs(s[..i], column)
            == Expansion(column, s[0]) + ExpandTabs(s[1..][..i - 1], NextColumn(column, s[0]))
  {
    assert s[..i][1..] == s[1..][..i - 1];
  }

  /** The tab at index `i` of a text that starts in `column` widens to the next multiple of the tab size. */
  ghost predicate AlignedAt(s: string, column: nat, i: nat)
    requires i < |s|
  {
    var (before, after) := (column + |ExpandTabs(s[..i], column)|, column + |ExpandTabs(s[..i + 1], column)|);
    after % TAB_SIZE == 0 && before < after <= before + TAB_SIZE
  }

  lemma {:induction false} TabAligned(s: string, column: nat, i: nat)
    requires OneRow(s) && i < |s| && s[i] == '\t'
    ensures AlignedAt(s, column, i)
  {
    if i == 0 {
      FirstTabAligned(s, column);
    } else {
      ExpandPrefix(s, column, i);
      ExpandPrefix(s, column, i + 1);
      TailOneRow(s);
      hide ExpandTabs, Expansion, OneRow;
      TabAligned(s[1..], NextColumn(column, s[0]), i - 1);
      WidthOfOne(column, s[0]);
      hide NextColumn;
      assert s[1..][..i - 1 + 1] == s[1..][..i];
    }
  }

  lemma FirstTabAligned(s: string, column: nat)
    requires s != "" && s[0] == '\t'
    ensures AlignedAt(s, column, 0)
  {
    ExpandPrefix(s, column, 1);
    assert s[..0] == "" && s[1..][..0] == "";
  }

  lemma TailOneRow(s: string)
    requires OneRow(s) && s != ""
    ensures OneRow(s[1..]) && s[0] != '\n' && s[0] != '\r'
  {
    assert s[0] in s && forall x | x in s[1..] :: x in s;
  }

  lemma WidthOfOne(column: nat, c: char)
    requires c != '\n' && c != '\r'
    ensures NextColumn(column, c) == column + |Expansion(column, c)|
  {
  }

  /** Within a row the width of the expansion is the column reached, as without tabs, and every tab ends at
      a multiple of the tab size, no more than one tab size further on. */
  lemma {:induction false} ExpansionAligns(s: string, column: nat)
    requires OneRow(s)
    ensures ColumnAfter(s, column) == column + |ExpandTabs(s, column)|
    ensures forall i | 0 <= i < |s| && s[i] == '\t' :: AlignedAt(s, column, i)
  {
    forall i | 0 <= i < |s| && s[i] == '\t' ensures AlignedAt(s, column, i) { TabAligned(s, column, i); }
    if s != "" {
      TailOneRow(s);
      WidthOfOne(column, s[0]);
      ExpansionAligns(s[1..], NextColumn(column, s[0]));
    }
  }

  /** A text without its blanks and tabs. */
  function Ink(s: string): string {
    if s == "" then ""
    else InkOf(s[0]) + Ink(s[1..])
  }

  function InkOf(c: char): string { if c == ' ' || c == '\t' then "" else [c] }

  lemma {:induction false} InkConcat(a: string, b: string)
    ensures Ink(a + b) == Ink(a) + Ink(b)
  {
    if a == "" {
      assert a + b == b;
    } else {
      hide InkOf;
      InkConcat(a[1..], b);
      assert (a + b)[1..] == a[1..] + b;
      ConcatAssociative(InkOf(a[0]), Ink(a[1..]), Ink(b));
    }
  }

  lemma {:induction false} InkOfBlanks(s: string)
    requires forall i | 0 <= i < |s| :: s[i] == ' '
    ensures Ink(s) == ""
  {
    if s != "" { InkOfBlanks(s[1..]); }
  }

  /** Expanding removes every tab, leaves everything that is neither a blank nor a tab where it was in
      the reading order, and changes a text exactly when it holds a tab. */
  lemma {:induction false} ExpandExact(s: string, column: nat)
    ensures '\t' !in ExpandTabs(s, column)
    ensures Ink(ExpandTabs(s, column)) == Ink(s)
    ensures ExpandTabs(s, column) == s <==> '\t' !in s
  {
    if s != "" {
      var (x, rest) := (Expansion(column, s[0]), ExpandTabs(s[1..], NextColumn(column, s[0])));
      ExpandExact(s[1..], NextColumn(column, s[0]));
      InkConcat(x, rest);
      if s[0] == '\t' {
        InkOfBlanks(x);
        assert (x + rest)[0] == ' ';
      } else {
        assert s == [s[0]] + s[1..];
        assert Ink([s[0]]) == InkOf(s[0]);
      }
    }
  }

  /** One more character of a text whose expansion so far is `before`: a tab becomes the 1 to 4 blanks that bring its
      row to a multiple of 4, and anything else stays. */
  ghost predicate ExpandsNext(before: string, after: string, c: char) {
    if c != '\t' then after == before + [c]
    else exists head, row :: CutsRow(before, head, row) && FillsRow(before, after, row)
  }

  /** `row` is what stands after the last line break. */
  ghost predicate CutsRow(text: string, head: string, row: string) {
    && text == head + row && '\n' !in row && '\r' !in row
    && (head == "" || head[|head| - 1] == '\n' || head[|head| - 1] == '\r')
  }

  ghost predicate FillsRow(before: string, after: string, row: string) {
    && before <= after && 1 <= |after| - |before| <= 4 && (|row| + |after| - |before|) % 4 == 0
    && forall i | |before| <= i < |after| :: after[i] == ' '
  }

  /** The expansions of the text's starts, one character more each time. */
  ghost predicate ExpandsBy(steps: seq<string>, s: string, expanded: string) {
    && |steps| == |s| + 1 && steps[0] == "" && steps[|s|] == expanded
    && forall i: nat | i < |s| :: ExpandsNext(steps[i], steps[i + 1], s[i])
  }

  lemma {:induction false} ColumnConcat(a: string, b: string, column: nat)
    ensures ColumnAfter(a + b, column) == ColumnAfter(b, ColumnAfter(a, column))
  {
    if a == "" {
      assert a + b == b;
    } else {
      hide NextColumn;
      assert (a + b)[1..] == a[1..] + b;
      ColumnConcat(a[1..], b, NextColumn(column, a[0]));
    }
  }

  lemma OneCharacter(c: char, column: nat)
    ensures ExpandTabs([c], column) == Expansion(column, c) && ColumnAfter([c], column) == NextColumn(column, c)
  {
    assert [c][1..] == "" && Expansion(column, c) + "" == Expansion(column, c);
  }

  lemma ExpandSnoc(s: string, c: char)
    ensures ExpandTabs(s + [c], 0) == ExpandTabs(s, 0) + Expansion(ColumnAfter(s, 0), c)
    ensures ColumnAfter(s + [c], 0) == NextColumn(ColumnAfter(s, 0), c)
  {
    ExpandConcat(s, [c], 0);
    ColumnConcat(s, [c], 0);
    OneCharacter(c, ColumnAfter(s, 0));
  }

  lemma RowGrows(text: string, head: string, row: string, c: char) returns (head': string, row': string)
    requires CutsRow(text, head, row)
    ensures CutsRow(text + Expansion(|row|, c), head', row') && |row'| == NextColumn(|row|, c)
  {
    var more := text + Expansion(|row|, c);
    if c == '\n' || c == '\r' {
      head', row' := more, "";
    } else {
      head', row' := head, row + Expansion(|row|, c);
    }
  }

  /** The column reached is the length of the last row of the expansion. */
  lemma {:induction false} LastRow(s: string) returns (head: string, row: string)
    ensures CutsRow(ExpandTabs(s, 0), head, row) && |row| == ColumnAfter(s, 0)
  {
    if s == "" {
      head, row := "", "";
    } else {
      var (front, c) := (s[..|s| - 1], s[|s| - 1]);
      assert s == front + [c];
      head, row := LastRow(front);
      ExpandSnoc(front, c);
      hide CutsRow, ExpandTabs, ColumnAfter, Expansion, NextColumn;
      head, row := RowGrows(ExpandTabs(front, 0), head, row, c);
    }
  }

  lemma ExpandsOneMore(s: string, c: char)
    ensures ExpandsNext(ExpandTabs(s, 0), ExpandTabs(s + [c], 0), c)
  {
    ExpandSnoc(s, c);
    if c == '\t' {
      var head, row := LastRow(s);
      var (before, after) := (ExpandTabs(s, 0), ExpandTabs(s + [c], 0));
      hide CutsRow, ExpandTabs, ColumnAfter;
      assert FillsRow(before, after, row);
    }
  }

  lemma ExpandsByMore(steps: seq<string>, s: string, c: char)
    requires ExpandsBy(steps, s, ExpandTabs(s, 0))
    ensures ExpandsBy(steps + [ExpandTabs(s + [c], 0)], s + [c], ExpandTabs(s + [c], 0))
  {
    ExpandsOneMore(s, c);
    hide ExpandsNext, ExpandTabs;
    var more := steps + [ExpandTabs(s + [c], 0)];
    forall i: nat | i < |s| + 1 ensures ExpandsNext(more[i], more[i + 1], (s + [c])[i]) {
      if i < |s| { assert ExpandsNext(steps[i], steps[i + 1], s[i]); }
    }
  }

  /** What expanding a text does, character by character. */
  lemma {:induction false} ExpandsExactly(s: string) returns (steps: seq<string>)
    ensures ExpandsBy(steps, s, ExpandTabs(s, 0))
  {
    if s == "" {
      steps := [""];
    } else {
      assert s == s[..|s| - 1] + [s[|s| - 1]];
      steps := ExpandsExactly(s[..|s| - 1]);
      ExpandsByMore(steps, s[..|s| - 1], s[|s| - 1]);
      steps := steps + [ExpandTabs(s, 0)];
    }
  }

  // ---------------------------------------------------------------------------------------
  // Guards
  // ---------------------------------------------------------------------------------------

  predicate IsGuardOn(line: string) {
    var l := Strip(line);
    l == "// clang-format on" || l == "# cmake-format: on" || l == "# fmt: on"
  }

  predicate IsGuardOff(line: string) {
    var l := Strip(line);
    l == "// clang-format off" || l == "# cmake-format: off" || l == "# fmt: off"
  }

  predicate IsGuard(line: string) { IsGuardOn(line) || IsGuardOff(line) }

  /** Is formatting enabled once the first `n` lines have been passed? */
  predicate Enabled(lines: seq<string>, n: nat)
    requires n <= |lines|
  {
    n == 0 || (IsGuardOn(lines[n - 1]) || (!IsGuardOff(lines[n - 1]) && Enabled(lines, n - 1)))
  }

  lemma GuardsExclusive(line: string)
    ensures !(IsGuardOn(line) && IsGuardOff(line))
  {
  }

  ghost predicate SwitchedOff(lines: seq<string>, n: nat)
    requires n <= |lines|
  {
    exists j | 0 <= j < n :: IsGuardOff(lines[j]) && forall k | j < k < n :: !IsGuardOn(lines[k])
  }

  lemma SwitchedOffStep(lines: seq<string>, n: nat)
    requires 0 < n <= |lines|
    ensures SwitchedOff(lines, n) <==>
            IsGuardOff(lines[n - 1]) || (SwitchedOff(lines, n - 1) && !IsGuardOn(lines[n - 1]))
  {
    hide IsGuardOn, IsGuardOff;
    if SwitchedOff(lines, n - 1) && !IsGuardOn(lines[n - 1]) {
      var j :| 0 <= j < n - 1 && IsGuardOff(lines[j]) && forall k | j < k < n - 1 :: !IsGuardOn(lines[k]);
      assert forall k | j < k < n :: !IsGuardOn(lines[k]);
    }
  }

  /** Formatting is disabled exactly when some guard switched it off and none has switched it on since. */
  lemma {:induction false} EnabledMeaning(lines: seq<string>, n: nat)
    requires n <= |lines|
    ensures !Enabled(lines, n) <==> SwitchedOff(lines, n)
  {
    hide IsGuardOn, IsGuardOff;
    if n > 0 {
      hide SwitchedOff;
      EnabledMeaning(lines, n - 1);
      SwitchedOffStep(lines, n);
      GuardsExclusive(lines[n - 1]);
    }
  }

  /** Nothing but the text stands in the line, though there may be white space around it. */
  ghost predicate StandsAlone(text: string, line: string) {
    exists pre, post :: Blank(pre) && Blank(post) && line == pre + text + post
  }

  ghost predicate SaysOn(line: string) {
    StandsAlone("// clang-format on", line) || StandsAlone("# cmake-format: on", line) || StandsAlone("# fmt: on", line)
  }

  ghost predicate SaysOff(line: string) {
    || StandsAlone("// clang-format off", line) || StandsAlone("# cmake-format: off", line)
    || StandsAlone("# fmt: off", line)
  }

  lemma StandsAloneExactly(text: string, line: string)
    requires Bare(text)
    ensures StandsAlone(text, line) <==> Strip(line) == text
  {
    hide IsSpace, Strip;
    StripParts(line);
    if pre, post :| Blank(pre) && Blank(post) && line == pre + text + post {
      StripUnique(pre, text, post);
    }
  }

  /** Which lines are guards. */
  lemma GuardsExactly(line: string)
    ensures IsGuardOn(line) <==> SaysOn(line)
    ensures IsGuardOff(line) <==> SaysOff(line)
  {
    hide Strip, StandsAlone;
    StandsAloneExactly("// clang-format on", line);
    StandsAloneExactly("# cmake-format: on", line);
    StandsAloneExactly("# fmt: on", line);
    StandsAloneExactly("// clang-format off", line);
    StandsAloneExactly("# cmake-format: off", line);
    StandsAloneExactly("# fmt: off", line);
  }

  /** Is line `i` looked at? Guard lines always are. */
  predicate Checked(lines: seq<string>, respectGuards: bool, i: nat)
    requires i < |lines|
  {
    !respectGuards || Enabled(lines, i + 1) || IsGuard(lines[i])
  }

  /** Guards are respected, the line is none, and the last guard above it says off. */
  ghost predicate Skipped(lines: seq<string>, respectGuards: bool, i: nat)
    requires i < |lines|
  {
    && respectGuards && !SaysOn(lines[i]) && !SaysOff(lines[i])
    && exists j | 0 <= j < i :: SaysOff(lines[j]) && forall k | j < k < i :: !SaysOn(lines[k])
  }

  lemma SkippedExactly(lines: seq<string>, respectGuards: bool, i: nat)
    requires i < |lines|
    ensures Skipped(lines, respectGuards, i) <==> !Checked(lines, respectGuards, i)
  {
    hide IsGuardOn, IsGuardOff, SaysOn, SaysOff;
    forall k | 0 <= k < |lines|
      ensures IsGuardOn(lines[k]) == SaysOn(lines[k]) && IsGuardOff(lines[k]) == SaysOff(lines[k])
    {
      GuardsExactly(lines[k]);
    }
    EnabledMeaning(lines, i);
    hide Enabled;
    if !IsGuard(lines[i]) { OneLineOn(lines, i); }
  }

  lemma OneLineOn(lines: seq<string>, i: nat)
    requires i < |lines| && !IsGuard(lines[i])
    ensures Enabled(lines, i + 1) == Enabled(lines, i)
  {
    hide IsGuardOn, IsGuardOff;
  }

  // ---------------------------------------------------------------------------------------
  // What a pass decides and writes
  // ---------------------------------------------------------------------------------------

  type LineCheck = string -> LineResult

  predicate Offends(lines: seq<string>, respectGuards: bool, check: LineCheck, i: nat)
    requires i < |lines|
  {
    Checked(lines, respectGuards, i) && !check(lines[i]).compliant
  }

  ghost predicate Compliant(lines: seq<string>, respectGuards: bool, check: LineCheck) {
    forall i | 0 <= i < |lines| :: !Offends(lines, respectGuards, check, i)
  }

  function FixedLine(lines: seq<string>, respectGuards: bool, check: LineCheck, i: nat): string
    requires i < |lines|
  {
    if Offends(lines, respectGuards, check, i) then check(lines[i]).fixed else lines[i]
  }

  function FixedLines(lines: seq<string>, respectGuards: bool, check: LineCheck): (fixed: seq<string>)
    ensures |fixed| == |lines| && forall i | 0 <= i < |lines| :: fixed[i] == FixedLine(lines, respectGuards, check, i)
  {
    seq(|lines|, i requires 0 <= i < |lines| => FixedLine(lines, respectGuards, check, i))
  }

  /** The text a fixing pass leaves. */
  function Fixed(text: string, respectGuards: bool, check: LineCheck): string {
    Joined(FixedLines(ReadLines(text), respectGuards, check))
  }

  /** The offending lines among the first `n`. */
  function OffendersUpTo(lines: seq<string>, respectGuards: bool, check: LineCheck, n: nat): seq<nat>
    requires n <= |lines|
  {
    if n == 0 then []
    else OffendersUpTo(lines, respectGuards, check, n - 1)
         + (if Offends(lines, respectGuards, check, n - 1) then [n - 1] else [])
  }

  lemma {:induction false} OffendersMembers(lines: seq<string>, respectGuards: bool, check: LineCheck, n: nat)
    requires n <= |lines|
    ensures forall i: nat :: i in OffendersUpTo(lines, respectGuards, check, n) <==>
                             i < n && Offends(lines, respectGuards, check, i)
  {
    if n > 0 { OffendersMembers(lines, respectGuards, check, n - 1); }
  }

  lemma {:induction false} OffendersGrow(lines: seq<string>, respectGuards: bool, check: LineCheck, n: nat, m: nat)
    requires n <= m <= |lines|
    ensures OffendersUpTo(lines, respectGuards, check, n) <= OffendersUpTo(lines, respectGuards, check, m)
    decreases m
  {
    if n < m { OffendersGrow(lines, respectGuards, check, n, m - 1); }
  }

  lemma FirstOffender(lines: seq<string>, respectGuards: bool, check: LineCheck, i: nat)
    requires i < |lines| && Offends(lines, respectGuards, check, i) && OffendersUpTo(lines, respectGuards, check,
              i) == []
    ensures var offenders := OffendersUpTo(lines, respectGuards, check, |lines|);
            offenders != [] && offenders[..1] == [i] && !Compliant(lines, respectGuards, check)
  {
    OffendersGrow(lines, respectGuards, check, i + 1, |lines|);
  }

  lemma NoOffenders(lines: seq<string>, respectGuards: bool, check: LineCheck)
    ensures Compliant(lines, respectGuards, check) <==> OffendersUpTo(lines, respectGuards, check, |lines|) == []
  {
    OffendersMembers(lines, respectGuards, check, |lines|);
    hide Offends, OffendersUpTo;
    var offenders := OffendersUpTo(lines, respectGuards, check, |lines|);
    if offenders != [] {
      assert offenders[0] in offenders;
    }
    if !Compliant(lines, respectGuards, check) {
      var i: nat :| i < |lines| && Offends(lines, respectGuards, check, i);
      assert i in offenders;
    }
  }

  /** The line is not skipped, and the check finds fault with it. */
  ghost predicate Faulty(lines: seq<string>, respectGuards: bool, check: LineCheck, i: nat)
    requires i < |lines|
  {
    !Skipped(lines, respectGuards, i) && !check(lines[i]).compliant
  }

  /** The faulty lines, from the top of the file down. */
  ghost predicate ListsFaulty(listed: seq<nat>, lines: seq<string>, respectGuards: bool, check: LineCheck) {
    Increasing(listed) && forall i: nat :: i in listed <==> i < |lines| && Faulty(lines, respectGuards, check, i)
  }

  /** Every faulty line replaced by what the check makes of it, and the others kept. */
  ghost predicate Repairs(after: seq<string>, lines: seq<string>, respectGuards: bool, check: LineCheck) {
    && |after| == |lines|
    && forall i | 0 <= i < |lines| ::
         after[i] == if Faulty(lines, respectGuards, check, i) then check(lines[i]).fixed else lines[i]
  }

  lemma FaultyExactly(lines: seq<string>, respectGuards: bool, check: LineCheck, i: nat)
    requires i < |lines|
    ensures Faulty(lines, respectGuards, check, i) <==> Offends(lines, respectGuards, check, i)
  {
    SkippedExactly(lines, respectGuards, i);
    hide Skipped, Checked;
  }

  lemma {:induction false} OffendersIncrease(lines: seq<string>, respectGuards: bool, check: LineCheck, n: nat)
    requires n <= |lines|
    ensures Increasing(OffendersUpTo(lines, respectGuards, check, n))
    ensures forall i | i in OffendersUpTo(lines, respectGuards, check, n) :: i < n
  {
    hide Offends;
    if n > 0 {
      OffendersIncrease(lines, respectGuards, check, n - 1);
      var before := OffendersUpTo(lines, respectGuards, check, n - 1);
      assert forall m | 0 <= m < |before| :: before[m] in before;
    }
  }

  /** What a pass reports, decides and writes, line by line. */
  lemma PassExact(lines: seq<string>, respectGuards: bool, check: LineCheck)
    ensures ListsFaulty(OffendersUpTo(lines, respectGuards, check, |lines|), lines, respectGuards, check)
    ensures Repairs(FixedLines(lines, respectGuards, check), lines, respectGuards, check)
    ensures Compliant(lines, respectGuards, check) <==>
            forall i: nat | i < |lines| :: !Faulty(lines, respectGuards, check, i)
  {
    forall i: nat | i < |lines|
      ensures Faulty(lines, respectGuards, check, i) <==> Offends(lines, respectGuards, check, i)
    {
      FaultyExactly(lines, respectGuards, check, i);
    }
    OffendersIncrease(lines, respectGuards, check, |lines|);
    OffendersMembers(lines, respectGuards, check, |lines|);
    hide Faulty, Offends, OffendersUpTo;
  }

  /** A file that complies is left as it is by a fixing pass. */
  lemma CompliantUnchanged(text: string, respectGuards: bool, check: LineCheck)
    requires Compliant(ReadLines(text), respectGuards, check)
    ensures Fixed(text, respectGuards, check) == text
  {
    SplitExact(text, IsNewline);
    assert FixedLines(ReadLines(text), respectGuards, check) == ReadLines(text);
  }

  /** All a pass over a text does: the verdict, the lines reported, and the text afterwards. */
  ghost predicate Passes(text: string, fix: bool, verbose: bool, respectGuards: bool, check: LineCheck,
                         isFileCompliant: bool, reported: seq<nat>, text': string)
  {
    var lines := ReadLines(text);
    && (isFileCompliant <==> forall i: nat | i < |lines| :: !Faulty(lines, respectGuards, check, i))
    && (exists listed :: ListsFaulty(listed, lines, respectGuards, check)
          && reported == if fix || verbose || listed == [] then listed else listed[..1])
    && if fix then exists after :: Repairs(after, lines, respectGuards, check) && text' == Joined(after)
       else text' == text
  }

  lemma PassesExactly(text: string, fix: bool, verbose: bool, respectGuards: bool, check: LineCheck, reported: seq<nat>)
    requires var offenders := OffendersUpTo(ReadLines(text), respectGuards, check, |ReadLines(text)|);
             reported == if fix || verbose || offenders == [] then offenders else offenders[..1]
    ensures Passes(text, fix, verbose, respectGuards, check, Compliant(ReadLines(text), respectGuards, check), reported,
                   if fix then Fixed(text, respectGuards, check) else text)
  {
    PassExact(ReadLines(text), respectGuards, check);
    hide Faulty, ListsFaulty, Repairs, ReadLines, Joined, OffendersUpTo, Compliant;
  }

  class SourceFile {
    var text: string

    constructor (text: string)
      ensures this.text == text
    {
      this.text := text;
    }

    /** The verdict is the same in every mode, although a quiet check stops at the first offending line;
        only a fixing pass over an offending file writes. `reported` are the lines complained about. */
    method CheckManuallyFile(fix: bool, verbose: bool, respectGuards: bool, check: LineCheck)
      returns (isFileCompliant: bool, reported: seq<nat>)
      modifies this
      ensures isFileCompliant <==> Compliant(ReadLines(old(text)), respectGuards, check)
      ensures text == if fix then Fixed(old(text), respectGuards, check) else old(text)
      ensures var offenders := OffendersUpTo(ReadLines(old(text)), respectGuards, check, |ReadLines(old(text))|);
              if fix || verbose || offenders == [] then reported == offenders else reported == offenders[..1]
      ensures Passes(old(text), fix, verbose, respectGuards, check, isFileCompliant, reported, text)
    {
      hide IsGuardOn, IsGuardOff, ReadLines, Joined, Compliant, Passes;
      isFileCompliant, reported := true, [];
      var clangFormatEnabled := true;
      ghost var lines := ReadLines(text);
      var fileLines := Loaded(ReadLines(text));
      var i := 0;
      while i < fileLines.Length
        invariant text == old(text) && i <= fileLines.Length == |lines|
        invariant respectGuards ==> clangFormatEnabled == Enabled(lines, i)
        invariant forall k | 0 <= k < i :: fileLines[k] == FixedLine(lines, respectGuards, check, k)
        invariant forall k | i <= k < |lines| :: fileLines[k] == lines[k]
        invariant reported == OffendersUpTo(lines, respectGuards, check, i)
        invariant isFileCompliant <==> reported == []
        invariant isFileCompliant || fix || verbose
      {
        var line := fileLines[i];
        if respectGuards {
          if IsGuardOn(line) {
            clangFormatEnabled := true;
          } else if IsGuardOff(line) {
            clangFormatEnabled := false;
          }
          if !clangFormatEnabled && !IsGuard(line) {
            i := i + 1;
            continue;
          }
        }
        var result := check(line);
        if !result.compliant {
          isFileCompliant := false;
          fileLines[i] := result.fixed;
          reported := reported + [i];
          if !fix && !verbose {
            FirstOffender(lines, respectGuards, check, i);
            PassesExactly(text, fix, verbose, respectGuards, check, reported);
            return;
          }
        }
        i := i + 1;
      }
      NoOffenders(lines, respectGuards, check);
      PassesExactly(text, fix, verbose, respectGuards, check, reported);
      assert fileLines[..] == FixedLines(lines, respectGuards, check);
      if fix && !isFileCompliant {
        text := Joined(fileLines[..]);
      } else if isFileCompliant {
        CompliantUnchanged(text, respectGuards, check);
      }
    }

    /** The list of lines, to be overwritten in place. */
    static method Loaded(lines: seq<string>) returns (a: array<string>)
      ensures fresh(a) && a[..] == lines
    {
      a := new string[|lines|](i requires 0 <= i < |lines| => lines[i]);
    }
  }

  // ---------------------------------------------------------------------------------------
  // Fixing settles a file
  // ---------------------------------------------------------------------------------------

  /** What a line check must promise for its fixes to last: a fixed line is a line again and complies, and
      a guard line stays the guard it was. A fix may turn an ordinary line into a guard. */
  ghost predicate Settles(check: LineCheck) {
    forall l {:trigger SettlesOn(check, l)} | IsLine(l, IsNewline) :: SettlesOn(check, l)
  }

  ghost predicate SettlesOn(check: LineCheck, l: string) {
    var fixed := check(l).fixed;
    && (check(l).compliant || check(fixed).compliant)
    && IsLine(fixed, IsNewline) && (EndsWith(l, IsNewline) ==> EndsWith(fixed, IsNewline))
    && (IsGuardOn(l) ==> IsGuardOn(fixed)) && (IsGuardOff(l) ==> IsGuardOff(fixed))
  }

  lemma FixedAreLines(lines: seq<string>, respectGuards: bool, check: LineCheck)
    requires AreLines(lines, IsNewline) && Settles(check)
    ensures AreLines(FixedLines(lines, respectGuards, check), IsNewline)
  {
    hide IsGuardOn, IsGuardOff, IsLine, EndsWith, Offends;
    forall i | 0 <= i < |lines| ensures IsLine(FixedLines(lines, respectGuards, check)[i], IsNewline) {
      assert SettlesOn(check, lines[i]);
    }
    forall i | 0 <= i < |lines| - 1 ensures EndsWith(FixedLines(lines, respectGuards, check)[i], IsNewline) {
      assert SettlesOn(check, lines[i]) && EndsWith(lines[i], IsNewline);
    }
  }

  lemma FixedGuards(lines: seq<string>, check: LineCheck, i: nat)
    requires AreLines(lines, IsNewline) && Settles(check) && i < |lines|
    ensures IsGuardOn(lines[i]) ==> IsGuardOn(FixedLines(lines, true, check)[i])
    ensures IsGuardOff(lines[i]) ==> IsGuardOff(FixedLines(lines, true, check)[i])
    ensures !Enabled(lines, i + 1) && !IsGuard(lines[i]) ==> FixedLines(lines, true, check)[i] == lines[i]
    ensures !(IsGuardOn(FixedLines(lines, true, check)[i]) && IsGuardOff(FixedLines(lines, true, check)[i]))
  {
    GuardsExclusive(FixedLines(lines, true, check)[i]);
    hide IsGuardOn, IsGuardOff, IsLine, EndsWith, Enabled;
    assert SettlesOn(check, lines[i]);
  }

  /** After a fix formatting is enabled only where it was: a line becomes a guard only where lines are
      being checked, and that is where formatting was enabled already. */
  lemma {:induction false} FixNeverEnables(lines: seq<string>, check: LineCheck, n: nat)
    requires AreLines(lines, IsNewline) && Settles(check) && n <= |lines|
    ensures Enabled(FixedLines(lines, true, check), n) ==> Enabled(lines, n)
  {
    hide IsGuardOn, IsGuardOff, AreLines, Settles, FixedLine;
    if n > 0 {
      FixNeverEnables(lines, check, n - 1);
      FixedGuards(lines, check, n - 1);
    }
  }

  lemma FixedComplies(lines: seq<string>, respectGuards: bool, check: LineCheck)
    requires AreLines(lines, IsNewline) && Settles(check)
    ensures Compliant(FixedLines(lines, respectGuards, check), respectGuards, check)
  {
    var fixed := FixedLines(lines, respectGuards, check);
    hide IsGuardOn, IsGuardOff, IsLine, EndsWith;
    forall i | 0 <= i < |lines| ensures !Offends(fixed, respectGuards, check, i) {
      assert SettlesOn(check, lines[i]);
      if respectGuards { FixNeverEnables(lines, check, i + 1); }
    }
  }

  /** Fixing a file leaves one that complies, and a second fix changes nothing. */
  lemma FixSettles(text: string, respectGuards: bool, check: LineCheck)
    requires Settles(check)
    ensures var t := Fixed(text, respectGuards, check);
            && ReadLines(t) == FixedLines(ReadLines(text), respectGuards, check)
            && Compliant(ReadLines(t), respectGuards, check)
            && Fixed(t, respectGuards, check) == t
  {
    SplitExact(text, IsNewline);
    hide Settles, Compliant, AreLines;
    FixedAreLines(ReadLines(text), respectGuards, check);
    WrittenReadBack(FixedLines(ReadLines(text), respectGuards, check), IsNewline);
    FixedComplies(ReadLines(text), respectGuards, check);
    CompliantUnchanged(Fixed(text, respectGuards, check), respectGuards, check);
  }

  lemma NotChecked(lines: seq<string>, off: nat, i: nat)
    requires off < i < |lines| && IsGuardOff(lines[off]) && forall k | off < k <= i :: !IsGuard(lines[k])
    ensures !Checked(lines, true, i)
  {
    hide IsGuardOn, IsGuardOff;
    EnabledMeaning(lines, i + 1);
  }

  /** A line below a guard that switches formatting off, with no guard in between and none itself, is left
      alone. */
  lemma GuardedOffUntouched(text: string, check: LineCheck, off: nat, i: nat)
    requires Settles(check) && off < i < |ReadLines(text)| && IsGuardOff(ReadLines(text)[off])
    requires forall k | off < k <= i :: !IsGuard(ReadLines(text)[k])
    ensures var after := ReadLines(Fixed(text, true, check));
            |after| == |ReadLines(text)| && after[i] == ReadLines(text)[i]
  {
    NotChecked(ReadLines(text), off, i);
    hide Checked, Settles, IsGuardOn, IsGuardOff, ReadLines, Fixed;
    FixSettles(text, true, check);
  }

  ghost predicate SameRegions(lines: seq<string>, fixed: seq<string>)
    requires |fixed| == |lines|
  {
    forall n | 0 <= n <= |lines| :: Enabled(fixed, n) == Enabled(lines, n)
  }

  /** No offending line of an enabled region is fixed into a guard that switches formatting off. */
  ghost predicate SwitchesNothingOff(lines: seq<string>, check: LineCheck) {
    forall i | 0 <= i < |lines| && Enabled(lines, i + 1) && !check(lines[i]).compliant ::
      !IsGuardOff(check(lines[i]).fixed)
  }

  /** A fix leaves the guarded regions as they were exactly when it turns no line of an enabled region into
      a guard that switches formatting off. */
  lemma FixKeepsRegions(lines: seq<string>, check: LineCheck)
    requires AreLines(lines, IsNewline) && Settles(check)
    ensures SameRegions(lines, FixedLines(lines, true, check)) <==> SwitchesNothingOff(lines, check)
  {
    var fixed := FixedLines(lines, true, check);
    if SwitchesNothingOff(lines, check) {
      forall n | 0 <= n <= |lines| ensures Enabled(fixed, n) == Enabled(lines, n) {
        RegionsKept(lines, check, n);
      }
    }
    if SameRegions(lines, fixed) {
      forall i | 0 <= i < |lines| && Enabled(lines, i + 1) && !check(lines[i]).compliant
        ensures !IsGuardOff(check(lines[i]).fixed)
      {
        FixedGuards(lines, check, i);
        hide IsGuardOn, IsGuardOff;
        assert Enabled(fixed, i + 1);
      }
    }
  }

  lemma {:induction false} RegionsKept(lines: seq<string>, check: LineCheck, n: nat)
    requires AreLines(lines, IsNewline) && Settles(check) && n <= |lines|
    requires SwitchesNothingOff(lines, check)
    ensures Enabled(FixedLines(lines, true, check), n) == Enabled(lines, n)
  {
    hide IsGuardOn, IsGuardOff, AreLines, Settles;
    if n > 0 {
      RegionsKept(lines, check, n - 1);
      FixedGuards(lines, check, n - 1);
    }
  }

  // ---------------------------------------------------------------------------------------
  // The tab and the whitespace checks
  // ---------------------------------------------------------------------------------------

  function CheckTabsLine(line: string): LineResult {
    if '\t' in line then LineResult(false, ExpandTabs(line, 0)) else LineResult(true, line)
  }

  function CheckWhitespaceLine(line: string): LineResult {
    var fixed := Rstrip(line) + "\n";
    LineResult(fixed == line, fixed)
  }

  /** The tab check faults a line with a tab in it, and its fix is the expansion of the whole line. */
  lemma TabCheckExact(line: string) returns (steps: seq<string>)
    ensures CheckTabsLine(line).compliant <==> forall i | 0 <= i < |line| :: line[i] != '\t'
    ensures !CheckTabsLine(line).compliant ==> ExpandsBy(steps, line, CheckTabsLine(line).fixed)
  {
    steps := ExpandsExactly(line);
    hide ExpandsBy, ExpandTabs;
    if '\t' in line { var i :| 0 <= i < |line| && line[i] == '\t'; }
  }

  /** The whitespace check wants a line to end, after its last visible character, in a newline and nothing else. */
  lemma WhitespaceCheckExact(line: string) returns (kept: string, cut: string)
    ensures line == kept + cut && Blank(cut) && (kept == "" || !IsSpace(kept[|kept| - 1]))
    ensures CheckWhitespaceLine(line).fixed == kept + "\n"
    ensures CheckWhitespaceLine(line).compliant <==> cut == "\n"
  {
    kept, cut := Rstrip(line), Trailing(line);
    RstripExact(line);
    WhitespaceCompliance(line);
  }

  lemma {:induction false} ExpandNewlines(s: string, column: nat)
    ensures '\n' in ExpandTabs(s, column) <==> '\n' in s
    ensures s != "" ==> ExpandTabs(s, column) != ""
  {
    if s != "" {
      ExpandNewlines(s[1..], NextColumn(column, s[0]));
      assert s == [s[0]] + s[1..];
    }
  }

  lemma ExpandLine(l: string)
    requires IsLine(l, IsNewline)
    ensures IsLine(ExpandTabs(l, 0), IsNewline) && (EndsWith(l, IsNewline) ==> EndsWith(ExpandTabs(l, 0), IsNewline))
  {
    if EndsWith(l, IsNewline) {
      var b := l[..|l| - 1];
      assert l == b + "\n";
      ExpandConcat(b, "\n", 0);
      ExpandNewlines(b, 0);
      ExpandExact("\n", ColumnAfter(b, 0));
    } else {
      ExpandNewlines(l, 0);
    }
  }

  lemma {:induction false} ExpandBlank(s: string, column: nat)
    requires Blank(s)
    ensures Blank(ExpandTabs(s, column))
  {
    if s != "" { ExpandBlank(s[1..], NextColumn(column, s[0])); }
  }

  /** The column in which the words of a line begin. */
  function IndentColumn(l: string): nat {
    ColumnAfter(Leading(l), 0)
  }

  lemma {:induction false} ExpandKeepsEnd(s: string, column: nat)
    requires s != "" && !IsSpace(s[|s| - 1])
    ensures ExpandTabs(s, column) != "" && !IsSpace(ExpandTabs(s, column)[|ExpandTabs(s, column)| - 1])
  {
    if |s| > 1 {
      hide IsSpace;
      ExpandKeepsEnd(s[1..], NextColumn(column, s[0]));
    } else {
      ExpandExact(s, column);
    }
  }

  lemma ExpandBare(mid: string, column: nat)
    requires Bare(mid)
    ensures Bare(ExpandTabs(mid, column))
  {
    ExpandKeepsEnd(mid, column);
    assert ExpandTabs(mid, column)[0] == mid[0];
  }

  lemma StripBlank(s: string)
    requires Blank(s)
    ensures Strip(s) == ""
  {
    RstripUnique("", s);
    assert "" + s == s;
  }

  /** Expansion works on the words between the outer blanks. */
  lemma StripOfExpansion(l: string)
    ensures Strip(ExpandTabs(l, 0)) == ExpandTabs(Strip(l), IndentColumn(l))
  {
    StripParts(l);
    var (pre, mid, post) := (Leading(l), Strip(l), Trailing(l));
    if mid == "" {
      assert forall i | 0 <= i < |l| :: IsSpace(l[i]);
      ExpandBlank(l, 0);
      StripBlank(ExpandTabs(l, 0));
    } else {
      ExpandConcat(pre + mid, post, 0);
      ExpandConcat(pre, mid, 0);
      ExpandBare(mid, ColumnAfter(pre, 0));
      ExpandBlank(pre, 0);
      ExpandBlank(post, ColumnAfter(pre + mid, 0));
      hide ExpandTabs, ColumnAfter, Strip, Bare, Blank;
      StripUnique(ExpandTabs(pre, 0), ExpandTabs(mid, ColumnAfter(pre, 0)),
                  ExpandTabs(post, ColumnAfter(pre + mid, 0)));
    }
  }

  // Which lines become guards.

  /** No two blanks in a row, and a single row without tabs. */
  predicate SingleSpaced(g: string) {
    OneRow(g) && '\t' !in g && forall i | 0 <= i < |g| - 1 :: !(g[i] == ' ' && g[i + 1] == ' ')
  }

  /** `mid` is `g` with some blanks replaced by tabs, each of which ends just before a tab stop when the
      text starts in `column`. */
  predicate Retabbed(mid: string, g: string, column: nat) {
    |mid| == |g| && forall i | 0 <= i < |mid| ::
      mid[i] == g[i] || (mid[i] == '\t' && g[i] == ' ' && (column + i) % TAB_SIZE == TAB_SIZE - 1)
  }

  lemma RetabbedStep(mid: string, g: string, column: nat)
    requires mid != "" && g != ""
    ensures Retabbed(mid, g, column) <==>
            && (mid[0] == g[0] || (mid[0] == '\t' && g[0] == ' ' && column % TAB_SIZE == TAB_SIZE - 1))
            && Retabbed(mid[1..], g[1..], column + 1)
  {
    var (m', g') := (mid[1..], g[1..]);
    if Retabbed(m', g', column + 1) {
      forall i | 1 <= i < |mid|
        ensures mid[i] == g[i] || (mid[i] == '\t' && g[i] == ' ' && (column + i) % TAB_SIZE == TAB_SIZE - 1)
      {
        assert mid[i] == m'[i - 1] && g[i] == g'[i - 1];
      }
    }
    if Retabbed(mid, g, column) {
      forall i | 0 <= i < |m'|
        ensures m'[i] == g'[i] || (m'[i] == '\t' && g'[i] == ' ' && (column + 1 + i) % TAB_SIZE == TAB_SIZE - 1)
      {
        assert mid[i + 1] == m'[i] && g[i + 1] == g'[i];
      }
    }
  }

  lemma TailSingleSpaced(g: string)
    requires SingleSpaced(g) && g != ""
    ensures SingleSpaced(g[1..]) && g[0] != '\t' && NextColumn(0, g[0]) == 1
    ensures |g| > 1 && g[0] == ' ' ==> g[1] != ' '
  {
    assert g[0] in g && forall c | c in g[1..] :: c in g;
    assert forall i | 0 <= i < |g| - 1 :: g[1..][i] == g[i + 1];
  }

  lemma HeadExpands(c: char, rest: string, g: string, column: nat)
    requires g != "" && SingleSpaced(g)
    ensures Expansion(column, c) + rest == g <==>
            (c == g[0] || (c == '\t' && g[0] == ' ' && column % TAB_SIZE == TAB_SIZE - 1)) && rest == g[1..]
  {
    TailSingleSpaced(g);
    var (e, x) := (Expansion(column, c), Expansion(column, c) + rest);
    assert x[0] == e[0] == if c == '\t' then ' ' else c;
    assert |e| > 1 ==> c == '\t' && x[1] == e[1] == ' ';
    assert |e| == 1 ==> x == [e[0]] + rest;
    assert g == [g[0]] + g[1..];
  }

  /** What expands to a text without double blanks: that text with tabs for blanks where a tab is as wide as a
      blank. */
  lemma {:induction false} ExpandsTo(mid: string, g: string, column: nat)
    requires SingleSpaced(g)
    ensures ExpandTabs(mid, column) == g <==> Retabbed(mid, g, column)
  {
    if mid != "" && g != "" {
      var (c, g') := (mid[0], g[1..]);
      hide SingleSpaced, Retabbed;
      TailSingleSpaced(g);
      RetabbedStep(mid, g, column);
      HeadExpands(c, ExpandTabs(mid[1..], NextColumn(column, c)), g, column);
      ExpandsTo(mid[1..], g', column + 1);
      hide Expansion;
      assert c == g[0] ==> NextColumn(column, c) == column + 1;
      assert c == '\t' && column % TAB_SIZE == TAB_SIZE - 1 ==> NextColumn(column, c) == column + 1;
    } else if mid != "" {
      ExpandNewlines(mid, column);
    }
  }

  /** A line that a tab fix turns into a guard that switches formatting off. */
  predicate LooksOff(l: string) {
    var (mid, column) := (Strip(l), IndentColumn(l));
    Retabbed(mid, "// clang-format off", column) || Retabbed(mid, "# cmake-format: off", column)
    || Retabbed(mid, "# fmt: off", column)
  }

  lemma OffTexts()
    ensures SingleSpaced("// clang-format off") && SingleSpaced("# cmake-format: off") && SingleSpaced("# fmt: off")
  {
    hide SingleSpaced;
    ClangText();
    CmakeText();
    FmtText();
  }

  lemma ClangText()
    ensures SingleSpaced("// clang-format off")
  {
  }

  lemma CmakeText()
    ensures SingleSpaced("# cmake-format: off")
  {
  }

  lemma FmtText()
    ensures SingleSpaced("# fmt: off")
  {
  }

  /** Expanding a line's tabs gives an off guard exactly when the line is one already, but for tabs in place of
      blanks where a tab is one column wide. */
  lemma BecomesOff(l: string)
    ensures IsGuardOff(ExpandTabs(l, 0)) <==> LooksOff(l)
  {
    OffTexts();
    StripOfExpansion(l);
    hide Strip, ExpandTabs, IndentColumn, Retabbed, SingleSpaced;
    ExpandsTo(Strip(l), "// clang-format off", IndentColumn(l));
    ExpandsTo(Strip(l), "# cmake-format: off", IndentColumn(l));
    ExpandsTo(Strip(l), "# fmt: off", IndentColumn(l));
  }

  lemma GuardHasNoTab(l: string)
    ensures IsGuard(l) ==> Strip(l) != "" && '\t' !in Strip(l)
  {
    hide Strip;
  }

  lemma TabFixKeepsGuard(l: string)
    requires IsGuard(l)
    ensures Strip(ExpandTabs(l, 0)) == Strip(l)
  {
    GuardHasNoTab(l);
    hide IsGuard;
    StripOfExpansion(l);
    ExpandExact(Strip(l), IndentColumn(l));
  }

  lemma TabsSettle()
    ensures Settles(CheckTabsLine)
  {
    hide IsLine, EndsWith, ExpandTabs, Strip;
    forall l | IsLine(l, IsNewline) ensures SettlesOn(CheckTabsLine, l) {
      ExpandLine(l);
      ExpandExact(l, 0);
      if IsGuard(l) { TabFixKeepsGuard(l); }
    }
  }

  /** A whitespace fix changes nothing between the outer blanks. */
  lemma WhitespaceFixKeepsStrip(l: string)
    ensures Rstrip(CheckWhitespaceLine(l).fixed) == Rstrip(l)
    ensures Strip(CheckWhitespaceLine(l).fixed) == Strip(l)
  {
    RstripExact(l);
    RstripUnique(Rstrip(l), "\n");
  }

  lemma WhitespaceFixIsLine(l: string)
    requires IsLine(l, IsNewline)
    ensures IsLine(CheckWhitespaceLine(l).fixed, IsNewline) && EndsWith(CheckWhitespaceLine(l).fixed, IsNewline)
  {
    RstripExact(l);
    if Rstrip(l) != "" { assert Rstrip(l)[|Rstrip(l)| - 1] == l[|Rstrip(l)| - 1]; }
  }

  lemma WhitespaceSettles()
    ensures Settles(CheckWhitespaceLine)
  {
    hide IsLine, EndsWith, Strip, Rstrip;
    forall l | IsLine(l, IsNewline) ensures SettlesOn(CheckWhitespaceLine, l) {
      WhitespaceFixIsLine(l);
      WhitespaceFixKeepsStrip(l);
    }
  }

  /** The tab check: fixing leaves a file that complies and a second fix changes nothing, whatever the file. */
  lemma TabFixLasts(text: string)
    ensures var t := Fixed(text, true, CheckTabsLine);
            Compliant(ReadLines(t), true, CheckTabsLine) && Fixed(t, true, CheckTabsLine) == t
  {
    TabsSettle();
    FixSettles(text, true, CheckTabsLine);
  }

  lemma WhitespaceFixLasts(text: string)
    ensures var t := Fixed(text, false, CheckWhitespaceLine);
            Compliant(ReadLines(t), false, CheckWhitespaceLine) && Fixed(t, false, CheckWhitespaceLine) == t
  {
    WhitespaceSettles();
    FixSettles(text, false, CheckWhitespaceLine);
  }

  // ---------------------------------------------------------------------------------------
  // One check after the other
  // ---------------------------------------------------------------------------------------

  lemma ExpandsToNewline(s: string, column: nat)
    ensures ExpandTabs(s, column) == "\n" <==> s == "\n"
  {
    ExpandExact(s, column);
    if '\t' in s {
      ExpandConcatAtTab(s, column);
    }
  }

  lemma {:induction false} ExpandConcatAtTab(s: string, column: nat)
    requires '\t' in s
    ensures ' ' in ExpandTabs(s, column)
  {
    var (x, rest) := (Expansion(column, s[0]), ExpandTabs(s[1..], NextColumn(column, s[0])));
    if s[0] == '\t' {
      assert (x + rest)[0] == ' ';
    } else {
      assert s == [s[0]] + s[1..];
      ExpandConcatAtTab(s[1..], NextColumn(column, s[0]));
      assert forall c | c in rest :: c in x + rest;
    }
  }

  lemma RstripOfExpansion(l: string)
    ensures Rstrip(ExpandTabs(l, 0)) == ExpandTabs(Rstrip(l), 0)
    ensures ExpandTabs(l, 0) == ExpandTabs(Rstrip(l), 0) + ExpandTabs(Trailing(l), ColumnAfter(Rstrip(l), 0))
  {
    var (r, post) := (Rstrip(l), Trailing(l));
    RstripExact(l);
    ExpandConcat(r, post, 0);
    ExpandBlank(post, ColumnAfter(r, 0));
    if r != "" { ExpandKeepsEnd(r, 0); }
    RstripUnique(ExpandTabs(r, 0), ExpandTabs(post, ColumnAfter(r, 0)));
  }

  lemma WhitespaceCompliance(l: string)
    ensures CheckWhitespaceLine(l).compliant <==> Trailing(l) == "\n"
  {
    RstripExact(l);
    if Rstrip(l) + "\n" == l { assert (Rstrip(l) + "\n")[|Rstrip(l)|..] == "\n"; }
  }

  /** Fixing a line's tabs never changes what the whitespace check says of it. */
  lemma TabFixKeepsWhitespace(l: string)
    ensures CheckWhitespaceLine(CheckTabsLine(l).fixed).compliant == CheckWhitespaceLine(l).compliant
  {
    if '\t' in l {
      var e := ExpandTabs(l, 0);
      RstripOfExpansion(l);
      WhitespaceCompliance(l);
      WhitespaceCompliance(e);
      ExpandsToNewline(Trailing(l), ColumnAfter(Rstrip(l), 0));
      RstripExact(e);
      assert e[|Rstrip(e)|..] == ExpandTabs(Trailing(l), ColumnAfter(Rstrip(l), 0));
    }
  }

  /** Fixing a file's tabs never changes the whitespace verdict. */
  lemma TabFixKeepsWhitespaceVerdict(text: string)
    ensures Compliant(ReadLines(Fixed(text, true, CheckTabsLine)), false, CheckWhitespaceLine)
            <==> Compliant(ReadLines(text), false, CheckWhitespaceLine)
  {
    TabsSettle();
    hide Settles, Checked, ReadLines, Fixed, CheckTabsLine, CheckWhitespaceLine;
    FixSettles(text, true, CheckTabsLine);
    KeptVerdict(ReadLines(text));
  }

  lemma KeptVerdict(lines: seq<string>)
    ensures Compliant(FixedLines(lines, true, CheckTabsLine), false, CheckWhitespaceLine)
            <==> Compliant(lines, false, CheckWhitespaceLine)
  {
    hide CheckTabsLine, CheckWhitespaceLine, Enabled, IsGuard;
    var fixed := FixedLines(lines, true, CheckTabsLine);
    forall i | 0 <= i < |lines|
      ensures Offends(fixed, false, CheckWhitespaceLine, i) == Offends(lines, false, CheckWhitespaceLine, i)
    {
      TabFixKeepsWhitespace(lines[i]);
    }
  }

  /** The two checks in the order they are run: afterwards the file complies with both. */
  lemma BothChecksLast(text: string)
    ensures var t := Fixed(Fixed(text, false, CheckWhitespaceLine), true, CheckTabsLine);
            && Compliant(ReadLines(t), false, CheckWhitespaceLine) && Compliant(ReadLines(t), true, CheckTabsLine)
            && Fixed(Fixed(t, false, CheckWhitespaceLine), true, CheckTabsLine) == t
  {
    var t1 := Fixed(text, false, CheckWhitespaceLine);
    var t := Fixed(t1, true, CheckTabsLine);
    hide Fixed, Compliant, ReadLines;
    WhitespaceFixLasts(text);
    TabFixLasts(t1);
    TabFixKeepsWhitespaceVerdict(t1);
    CompliantUnchanged(t, false, CheckWhitespaceLine);
  }

  /** A tab fix leaves the guarded regions as they were exactly when no line of an enabled region looks, to the
      eye, like a guard that switches formatting off. */
  lemma TabFixKeepsRegions(lines: seq<string>)
    requires AreLines(lines, IsNewline)
    ensures SameRegions(lines, FixedLines(lines, true, CheckTabsLine)) <==>
            forall i | 0 <= i < |lines| && Enabled(lines, i + 1) :: !LooksOff(lines[i])
  {
    TabsSettle();
    FixKeepsRegions(lines, CheckTabsLine);
    hide Settles, SameRegions, LooksOff, IsGuardOn, IsGuardOff, ExpandTabs, AreLines;
    forall i | 0 <= i < |lines| && Enabled(lines, i + 1)
      ensures LooksOff(lines[i]) <==> !CheckTabsLine(lines[i]).compliant && IsGuardOff(CheckTabsLine(lines[i]).fixed)
    {
      GuardsExclusive(lines[i]);
      BecomesOff(lines[i]);
      ExpandExact(lines[i], 0);
    }
  }

  lemma ExpandThirdColumn(pre: string, words: string)
    requires '\t' !in pre && '\t' !in words && OneRow(pre) && |pre| % TAB_SIZE == 3
    ensures ExpandTabs(pre + "\t" + words, 0) == pre + " " + words
  {
    hide ExpandTabs, ColumnAfter;
    ExpandExact(pre, 0);
    ExpansionAligns(pre, 0);
    ExpandConcat(pre + "\t", words, 0);
    ExpandConcat(pre, "\t", 0);
    ExpandOneTab(|pre|);
    ExpandExact(words, ColumnAfter(pre + "\t", 0));
  }

  lemma ExpandPhantom()
    ensures ExpandTabs("  " + "#\tfmt: off" + "\n", 0) == "  " + "# fmt: off" + "\n"
  {
    ExpandThirdColumn("  #", "fmt: off\n");
    hide ExpandTabs;
    assert "  " + "#\tfmt: off" + "\n" == "  #" + "\t" + "fmt: off\n";
    assert "  #" + " " + "fmt: off\n" == "  " + "# fmt: off" + "\n";
  }

  lemma ExpandOneTab(column: nat)
    requires column % TAB_SIZE == 3
    ensures ExpandTabs("\t", column) == " "
  {
    assert "\t"[1..] == "";
  }

  lemma StripIndented(mid: string)
    requires Bare(mid)
    ensures Strip("  " + mid + "\n") == mid
  {
    StripUnique("  ", mid, "\n");
  }

  lemma PhantomIsNoGuard()
    ensures !IsGuard("  " + "#\tfmt: off" + "\n")
  {
    var mid := "#\tfmt: off";
    assert mid[1] == '\t';
    StripIndented(mid);
    hide IsGuard, Strip;
    GuardHasNoTab("  " + mid + "\n");
  }

  lemma GuardAppears()
    ensures IsGuardOff("  " + "# fmt: off" + "\n")
  {
    StripIndented("# fmt: off");
    hide Strip;
  }

  /** A tab fix can create a guard: an ordinary line below it is checked before the fix and no longer
      after it. */
  lemma FixCanDisable(rest: string)
    requires !IsGuard(rest) && '\t' !in rest
    ensures var lines := ["  " + "#\tfmt: off" + "\n", rest];
            Checked(lines, true, 1) && !Checked(FixedLines(lines, true, CheckTabsLine), true, 1)
  {
    hide IsGuard, IsGuardOff, ExpandTabs, Checked, FixedLines;
    var line := "  " + "#\tfmt: off" + "\n";
    assert line[3] == '\t';
    PhantomIsNoGuard();
    ExpandPhantom();
    GuardAppears();
    Disables(line, rest);
  }

  lemma CheckedBelow(lines: seq<string>)
    requires |lines| == 2 && !IsGuard(lines[0]) && !IsGuard(lines[1])
    ensures Checked(lines, true, 0) && Checked(lines, true, 1)
  {
    hide IsGuardOn, IsGuardOff;
    assert Enabled(lines, 0);
    assert Enabled(lines, 1);
  }

  lemma UncheckedBelow(lines: seq<string>)
    requires |lines| == 2 && IsGuardOff(lines[0]) && !IsGuard(lines[1])
    ensures !Checked(lines, true, 1)
  {
    GuardsExclusive(lines[0]);
    hide IsGuardOn, IsGuardOff;
    assert !Enabled(lines, 1);
  }

  lemma Disables(line: string, rest: string)
    requires !IsGuard(line) && '\t' in line && IsGuardOff(ExpandTabs(line, 0))
    requires !IsGuard(rest) && '\t' !in rest
    ensures Checked([line, rest], true, 1) && !Checked(FixedLines([line, rest], true, CheckTabsLine), true, 1)
  {
    hide Checked, ExpandTabs, IsGuard, IsGuardOff;
    var lines := [line, rest];
    CheckedBelow(lines);
    UncheckedBelow(FixedLines(lines, true, CheckTabsLine));
  }
}
