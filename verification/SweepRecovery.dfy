/** Resuming a sweep whose run file is lost: the rows made from the summary are loaded as if they were run rows, and
    their keys count as complete. */
module SweepRecovery {
  import opened Options
  import Resume = SweepResume
  import Summary = SweepSummary

  // ---------------------------------------------------------------------------------------
  // Integers as text
  // ---------------------------------------------------------------------------------------

  function Digit(d: nat): char
    requires d < 10
  {
    "0123456789"[d]
  }

  function Digits(n: nat): string {
    if n < 10 then [Digit(n)] else Digits(n / 10) + [Digit(n % 10)]
  }

  /** `str` of an integer. */
  function Text(n: int): (s: string)
    ensures s != ""
  {
    if n < 0 then "-" + Digits(-n) else Digits(n)
  }

  function Value(s: string): nat {
    if s == "" then 0 else 10 * Value(s[..|s| - 1]) + DigitValue(s[|s| - 1])
  }

  function DigitValue(c: char): nat { if '0' <= c <= '9' then c as nat - '0' as nat else 0 }

  lemma {:induction false} ValueOfDigits(n: nat)
    ensures Digits(n) != "" && Value(Digits(n)) == n && Digits(n)[0] != '-'
  {
    var (d, s) := (n % 10, Digits(n));
    assert DigitValue(Digit(d)) == d && Digit(d) != '-';
    if n >= 10 {
      ValueOfDigits(n / 10);
      assert s[..|s| - 1] == Digits(n / 10);
    } else {
      assert s[..0] == "";
    }
  }

  /** Decimal: one digit is its own text, a further digit is appended on the right, and a minus sign goes in front. */
  lemma TextMeaning(m: int, d: nat)
    requires d < 10
    ensures Text(d) == ['0' + d as char]
    ensures m > 0 ==> Text(10 * m + d) == Text(m) + Text(d) && Text(-m) == "-" + Text(m)
  {
    if m > 0 { assert (10 * m + d) / 10 == m && (10 * m + d) % 10 == d; }
  }

  /** Different integers have different texts. */
  lemma TextInjective(m: int, n: int)
    requires Text(m) == Text(n)
    ensures m == n
  {
    ValueOfDigits(if m < 0 then -m else m);
    ValueOfDigits(if n < 0 then -n else n);
    hide Digits, Value;
    if m < 0 && n < 0 {
      assert Text(m)[1..] == Digits(-m) && Text(n)[1..] == Digits(-n);
    }
  }

  // ---------------------------------------------------------------------------------------
  // From summary rows to run rows
  // ---------------------------------------------------------------------------------------

  /** A run row as the resume logic reads it. */
  function AsRunRow(r: Summary.Row, scaleName: string): Resume.Row {
    Resume.Row(r.key.topology, scaleName, Text(r.key.scale), r.key.routing, Text(r.key.dataSize), Text(r.key.threads),
               Text(r.repetition), Resume.Number(if r.success then 0 else 1))
  }

  function KeyFor(key: Summary.Key, scaleName: string, repetition: int): Resume.CaseKey {
    Resume.CaseKey(key.topology, scaleName, Text(key.scale), key.routing, Text(key.dataSize), Text(key.threads),
                   Text(repetition))
  }

  function AsRunRows(rows: seq<Summary.Row>, scaleName: string): (r: seq<Resume.Row>)
    ensures |r| == |rows| && forall i | 0 <= i < |rows| :: r[i] == AsRunRow(rows[i], scaleName)
  {
    seq(|rows|, i requires 0 <= i < |rows| => AsRunRow(rows[i], scaleName))
  }

  /** What is loaded when only the summary of `rows` is left. */
  function Recovered(rows: seq<Summary.Row>, topology: string, scaleName: string): seq<Resume.Row> {
    AsRunRows(Summary.Synthesized(Summary.Summary(rows), topology), scaleName)
  }

  /** The key looked for is that of the case with the same numbers. */
  lemma KeyForCase(key: Summary.Key, cfg: Resume.Config, c: Resume.Case, n: int)
    requires cfg.topology == key.topology && c.routing == key.routing && c.scale == Text(key.scale)
    requires c.dataSize == Text(key.dataSize) && c.threads == Text(key.threads) && c.repetition == Text(n)
    ensures KeyFor(key, cfg.scaleName, n) == Resume.KeyOf(cfg, c)
  {
    hide Text;
  }

  /** Loading leaves such rows alone, whatever the default data size. */
  lemma RecoveredNormal(rows: seq<Summary.Row>, topology: string, cfg: Resume.Config)
    ensures Resume.Normal(Recovered(rows, topology, cfg.scaleName), cfg)
  {
    hide Summary.Synthesized, Summary.Summary, Text;
  }

  lemma KeyForInjective(k: Summary.Key, l: Summary.Key, scaleName: string, m: int, n: int)
    requires KeyFor(k, scaleName, m) == KeyFor(l, scaleName, n)
    ensures k == l && m == n
  {
    hide Text;
    TextInjective(k.scale, l.scale);
    TextInjective(k.dataSize, l.dataSize);
    TextInjective(k.threads, l.threads);
    TextInjective(m, n);
  }

  lemma {:induction false} CopiesMembers(s: Summary.SummaryRow, n: nat, r: Summary.Row)
    ensures r in Summary.Copies(s, n) <==>
            r.key == s.key && r.success && r.metrics == s.means && 1 <= r.repetition <= n
  {
    if n > 0 { CopiesMembers(s, n - 1, r); }
  }

  /** The repetitions a summary row stands for. */
  function Repeats(s: Summary.SummaryRow): nat { if s.repeatCount > 1 then s.repeatCount else 1 }

  lemma {:induction false} SynthesizedMembers(summary: seq<Summary.SummaryRow>, topology: string, r: Summary.Row)
    ensures r in Summary.Synthesized(summary, topology) <==>
            exists s | s in summary :: Summary.Kept(s, topology) && r in Summary.RowsFor(s)
  {
    if summary != [] {
      var (front, last) := (summary[..|summary| - 1], summary[|summary| - 1]);
      assert summary == front + [last];
      SynthesizedMembers(front, topology, r);
      hide Summary.RowsFor, Summary.Kept;
    }
  }

  /** A successful run row completes its key, and no other row does. */
  lemma RowCompletes(r: Summary.Row, scaleName: string, key: Summary.Key, n: int)
    requires r.success && r.key.topology != "" && r.key.routing != "" && scaleName != ""
    ensures Resume.Completes(AsRunRow(r, scaleName), Resume.SkipSuccess)
    ensures Resume.RowKey(AsRunRow(r, scaleName)) == Some(KeyFor(key, scaleName, n)) <==>
            r.key == key && r.repetition == n
  {
    hide Text;
    if Resume.RowKey(AsRunRow(r, scaleName)) == Some(KeyFor(key, scaleName, n)) {
      KeyForInjective(r.key, key, scaleName, r.repetition, n);
    }
  }

  lemma RecoveredMembers(rows: seq<Summary.Row>, topology: string, scaleName: string, key: Summary.Key, n: int)
    requires topology != "" && scaleName != ""
    ensures KeyFor(key, scaleName, n) in Resume.CompletedKeys(Recovered(rows, topology, scaleName), Resume.SkipSuccess)
            <==> exists r | r in Summary.Synthesized(Summary.Summary(rows), topology) ::
                   r.key == key && r.repetition == n
  {
    var made := Summary.Synthesized(Summary.Summary(rows), topology);
    var loaded := Recovered(rows, topology, scaleName);
    forall r | r in made ensures r.success && r.key.topology == topology && r.key.routing != "" {
      Summary.SynthesizedKept(Summary.Summary(rows), topology, r);
      SynthesizedSucceeds(Summary.Summary(rows), topology, r);
    }
    hide Summary.Synthesized, Summary.Summary, Resume.RowKey, Resume.Completes, AsRunRow, KeyFor, Recovered;
    forall i | 0 <= i < |made|
      ensures Resume.Completes(loaded[i], Resume.SkipSuccess)
      ensures Resume.RowKey(loaded[i]) == Some(KeyFor(key, scaleName, n)) <==>
              made[i].key == key && made[i].repetition == n
    {
      RecoveredAt(rows, topology, scaleName, i);
      assert made[i] in made;
      RowCompletes(made[i], scaleName, key, n);
    }
    RecoveredSize(rows, topology, scaleName);
    KeysByIndex(loaded, KeyFor(key, scaleName, n));
    if r :| r in made && r.key == key && r.repetition == n {
      var i :| 0 <= i < |made| && made[i] == r;
      assert Resume.RowKey(loaded[i]) == Some(KeyFor(key, scaleName, n));
    }
  }

  lemma RecoveredSize(rows: seq<Summary.Row>, topology: string, scaleName: string)
    ensures |Recovered(rows, topology, scaleName)| == |Summary.Synthesized(Summary.Summary(rows), topology)|
  {
  }

  lemma RecoveredAt(rows: seq<Summary.Row>, topology: string, scaleName: string, i: nat)
    requires i < |Summary.Synthesized(Summary.Summary(rows), topology)|
    ensures i < |Recovered(rows, topology, scaleName)|
    ensures Recovered(rows, topology, scaleName)[i]
            == AsRunRow(Summary.Synthesized(Summary.Summary(rows), topology)[i], scaleName)
  {
  }

  lemma KeysByIndex(loaded: seq<Resume.Row>, k: Resume.CaseKey)
    requires forall i | 0 <= i < |loaded| :: Resume.Completes(loaded[i], Resume.SkipSuccess)
    ensures k in Resume.CompletedKeys(loaded, Resume.SkipSuccess)
            <==> exists i | 0 <= i < |loaded| :: Resume.RowKey(loaded[i]) == Some(k)
  {
  }

  lemma SynthesizedSucceeds(summary: seq<Summary.SummaryRow>, topology: string, r: Summary.Row)
    requires r in Summary.Synthesized(summary, topology)
    ensures r.success
  {
    SynthesizedMembers(summary, topology, r);
    var s :| s in summary && Summary.Kept(s, topology) && r in Summary.RowsFor(s);
    CopiesMembers(s, Repeats(s), r);
  }

  ghost predicate Succeeded(rows: seq<Summary.Row>, key: Summary.Key) {
    exists r | r in rows :: r.success && r.key == key
  }

  /** Repetition `n` of a key is made from a summary exactly when a kept row has the key and stands for it. */
  lemma MadeFor(s: seq<Summary.SummaryRow>, topology: string, key: Summary.Key, n: int)
    ensures (exists r | r in Summary.Synthesized(s, topology) :: r.key == key && r.repetition == n) <==>
            exists x | x in s :: Summary.Kept(x, topology) && x.key == key && 1 <= n <= Repeats(x)
  {
    if r :| r in Summary.Synthesized(s, topology) && r.key == key && r.repetition == n {
      SynthesizedMembers(s, topology, r);
      var x :| x in s && Summary.Kept(x, topology) && r in Summary.RowsFor(x);
      CopiesMembers(x, Repeats(x), r);
    }
    if x :| x in s && Summary.Kept(x, topology) && x.key == key && 1 <= n <= Repeats(x) {
      var r := Summary.Row(key, n, true, x.means);
      CopiesMembers(x, Repeats(x), r);
      SynthesizedMembers(s, topology, r);
    }
  }

  lemma SummaryRowFor(rows: seq<Summary.Row>, topology: string, key: Summary.Key, n: int)
    ensures (exists x | x in Summary.Summary(rows) :: Summary.Kept(x, topology) && x.key == key && 1 <= n <= Repeats(x))
            <==> && Succeeded(rows, key) && key.topology == topology && key.routing != ""
                 && 1 <= n <= Repeats(Summary.SummaryOf(rows, key))
  {
    var s := Summary.Summary(rows);
    Summary.SummaryKeysExact(rows);
    hide Summary.Summary, Summary.SummaryOf, Repeats;
    if x :| x in s && Summary.Kept(x, topology) && x.key == key && 1 <= n <= Repeats(x) {
      Summary.KeyListed(s, x);
    }
    if Succeeded(rows, key) {
      assert key in Summary.SummaryKeys(s);
      var i :| 0 <= i < |s| && s[i].key == key;
      assert s[i] in s;
    }
  }

  /** The repetitions a successful key stands for: as many as it has successful wall times, and the first in any
      case. */
  ghost predicate StoodFor(rows: seq<Summary.Row>, key: Summary.Key, n: int) {
    n == 1 || 1 <= n <= |Summary.Cells(rows, key, Summary.Wall)|
  }

  lemma RepeatsCounted(rows: seq<Summary.Row>, key: Summary.Key, n: int)
    ensures 1 <= n <= Repeats(Summary.SummaryOf(rows, key)) <==> StoodFor(rows, key, n)
  {
    Summary.ValuesCounted(rows, key, Summary.Wall);
    hide Summary.Cells, Summary.Values;
  }

  /** Which cases count as complete once the run file is lost: repetitions 1 up to the number of successful wall
      times, or 1, of every successful key of the topology that names a routing. */
  lemma RecoveredExactly(rows: seq<Summary.Row>, topology: string, scaleName: string, key: Summary.Key, n: int)
    requires topology != "" && scaleName != ""
    ensures KeyFor(key, scaleName, n) in Resume.CompletedKeys(Recovered(rows, topology, scaleName), Resume.SkipSuccess)
            <==> && Succeeded(rows, key) && key.topology == topology && key.routing != "" && StoodFor(rows, key, n)
  {
    hide *;
    RecoveredMembers(rows, topology, scaleName, key, n);
    MadeFor(Summary.Summary(rows), topology, key, n);
    SummaryRowFor(rows, topology, key, n);
    RepeatsCounted(rows, key, n);
  }

  ghost predicate RunSucceeded(rows: seq<Summary.Row>, key: Summary.Key, n: int) {
    exists r | r in rows :: r.success && r.key == key && r.repetition == n
  }

  /** Does the case count as complete once the run file is lost? */
  ghost predicate TakenForComplete(rows: seq<Summary.Row>, scaleName: string, key: Summary.Key, n: int) {
    KeyFor(key, scaleName, n) in Resume.CompletedKeys(Recovered(rows, key.topology, scaleName), Resume.SkipSuccess)
  }

  /** So the recovered state is true to a key's runs exactly when the repetitions that succeeded are those from 1 up
      to the number of wall times. */
  lemma RecoveryFaithful(rows: seq<Summary.Row>, scaleName: string, key: Summary.Key)
    requires key.topology != "" && scaleName != "" && key.routing != "" && Succeeded(rows, key)
    ensures (forall n: int :: TakenForComplete(rows, scaleName, key, n) <==> RunSucceeded(rows, key, n)) <==>
            (forall n: int :: RunSucceeded(rows, key, n) <==> StoodFor(rows, key, n))
  {
    forall n: int ensures TakenForComplete(rows, scaleName, key, n) <==> StoodFor(rows, key, n) {
      RecoveredExactly(rows, key.topology, scaleName, key, n);
    }
    hide TakenForComplete, RunSucceeded, StoodFor;
  }

  /** Example: the first repetition failed and the second succeeded. Recovery takes the first for complete and runs
      the second again. */
  lemma WrongRepetition(key: Summary.Key, scaleName: string, wall: real)
    requires key.topology != "" && key.routing != "" && scaleName != ""
    ensures var rows := [Summary.Row(key, 1, false, map[]), Summary.Row(key, 2, true, map[Summary.Wall := wall])];
            && TakenForComplete(rows, scaleName, key, 1) && !RunSucceeded(rows, key, 1)
            && !TakenForComplete(rows, scaleName, key, 2) && RunSucceeded(rows, key, 2)
  {
    var rows := [Summary.Row(key, 1, false, map[]), Summary.Row(key, 2, true, map[Summary.Wall := wall])];
    assert rows[1] in rows;
    assert Summary.Cells(rows, key, Summary.Wall) == {1};
    RecoveredExactly(rows, key.topology, scaleName, key, 1);
    RecoveredExactly(rows, key.topology, scaleName, key, 2);
  }
}
