/** Crash and resume of the topology sweep: an invocation loads the run file, skips the cases its policy
    calls complete, runs the others one by one and rewrites the file after each; it may be cut at any
    case boundary and started again. Cells are strings, as in the CSV file. */
module SweepResume {
  import opened Options
  import opened Ordering

  /** A return-code cell as `int()` reads it. */
  datatype Code = Number(n: int) | Garbage

  datatype Row = Row(topology: string, scaleName: string, scale: string, routing: string,
                     dataSize: string, threads: string, repetition: string, rc: Code)

  datatype CaseKey = CaseKey(topology: string, scaleName: string, scale: string, routing: string,
                             dataSize: string, threads: string, repetition: string)

  datatype Policy = SkipSuccess | SkipAny | RerunFailed | RerunAll

  /** What stays the same when a sweep is resumed. `defaultDataSize` is blank unless there is exactly one
      data size; `fromSummary` is what the summary file yields when there is no run file. */
  datatype Config = Config(topology: string, scaleName: string, defaultDataSize: string, fromSummary: seq<Row>)

  datatype Case = Case(routing: string, scale: string, dataSize: string, repetition: string, threads: string)

  /** A finished run: its return code and the routing the program reported. */
  datatype Outcome = Outcome(rc: int, routing: string)

  /** One invocation: the cases in order, what running the i-th of them would give, and after how many
      cases it is cut short, if it is. */
  datatype Invocation = Invocation(policy: Policy, cases: seq<Case>, outcomes: nat -> Outcome, cut: Option<nat>)

  // ---------------------------------------------------------------------------------------
  // Keys and loading
  // ---------------------------------------------------------------------------------------

  function RowKey(r: Row): Option<CaseKey> {
    if r.topology == "" || r.scaleName == "" || r.scale == "" || r.routing == ""
       || r.dataSize == "" || r.threads == "" || r.repetition == ""
    then None
    else Some(CaseKey(r.topology, r.scaleName, r.scale, r.routing, r.dataSize, r.threads, r.repetition))
  }

  function KeyOf(cfg: Config, c: Case): CaseKey {
    CaseKey(cfg.topology, cfg.scaleName, c.scale, c.routing, c.dataSize, c.threads, c.repetition)
  }

  function NormalizeRow(r: Row, defaultDataSize: string): Row {
    r.(dataSize := if r.dataSize == "" then defaultDataSize else r.dataSize,
       threads := if r.threads == "" then "1" else r.threads)
  }

  function Normalize(rows: seq<Row>, defaultDataSize: string): (n: seq<Row>)
    ensures |n| == |rows| && forall i | 0 <= i < |rows| :: n[i] == NormalizeRow(rows[i], defaultDataSize)
  {
    seq(|rows|, i requires 0 <= i < |rows| => NormalizeRow(rows[i], defaultDataSize))
  }

  function Load(disk: Option<seq<Row>>, cfg: Config): seq<Row> {
    if disk.Some? then Normalize(disk.value, cfg.defaultDataSize) else cfg.fromSummary
  }

  /** `int(rc) == 0`. */
  predicate Succeeded(r: Row) { r.rc.Number? && r.rc.n == 0 }

  /** Does this row make its case complete under the policy? */
  predicate Completes(r: Row, policy: Policy) {
    RowKey(r).Some? && (policy == SkipAny || Succeeded(r))
  }

  function CompletedKeys(rows: seq<Row>, policy: Policy): set<CaseKey> {
    if policy == RerunAll then {} else set r | r in rows && Completes(r, policy) :: RowKey(r).value
  }

  method CompletedCaseKeys(rows: seq<Row>, policy: Policy) returns (completed: set<CaseKey>)
    ensures completed == CompletedKeys(rows, policy)
  {
    completed := {};
    if policy == RerunAll {
      return;
    }
    for i := 0 to |rows|
      invariant completed == CompletedKeys(rows[..i], policy)
    {
      var row := rows[i];
      assert rows[..i + 1] == rows[..i] + [row];
      CompletedSnoc(rows[..i], row, policy);
      var key := RowKey(row);
      if key.None? {
        continue;
      }
      if policy == SkipAny {
        completed := completed + {key.value};
        continue;
      }
      var rc := if row.rc.Number? then row.rc.n else -1;
      if rc == 0 {
        completed := completed + {key.value};
      }
    }
    assert rows[..|rows|] == rows;
  }

  lemma CompletedSnoc(rows: seq<Row>, r: Row, policy: Policy)
    requires policy != RerunAll
    ensures CompletedKeys(rows + [r], policy)
            == CompletedKeys(rows, policy) + (if Completes(r, policy) then {RowKey(r).value} else {})
  {
    assert forall x | x in rows + [r] :: x in rows || x == r;
    assert forall x | x in rows :: x in rows + [r];
    assert r in rows + [r];
  }

  // ---------------------------------------------------------------------------------------
  // An invocation
  // ---------------------------------------------------------------------------------------

  function MakeRow(cfg: Config, c: Case, o: Outcome): Row {
    Row(cfg.topology, cfg.scaleName, c.scale, o.routing, c.dataSize, c.threads, c.repetition, Number(o.rc))
  }

  datatype Progress = Progress(rows: seq<Row>, completed: set<CaseKey>, written: bool)

  function RunCase(p: Progress, cfg: Config, c: Case, o: Outcome): Progress {
    if KeyOf(cfg, c) in p.completed then p
    else Progress(p.rows + [MakeRow(cfg, c, o)],
                  if o.rc == 0 then p.completed + {KeyOf(cfg, c)} else p.completed, true)
  }

  function RunCases(p: Progress, cfg: Config, inv: Invocation, n: nat): Progress
    requires n <= |inv.cases|
  {
    if n == 0 then p else RunCase(RunCases(p, cfg, inv, n - 1), cfg, inv.cases[n - 1], inv.outcomes(n - 1))
  }

  /** The rows and completed keys with which the case loop starts. */
  function Begin(disk: Option<seq<Row>>, cfg: Config, policy: Policy): Progress {
    var rows := if policy == RerunAll then [] else Load(disk, cfg);
    Progress(rows, CompletedKeys(rows, policy), false)
  }

  function CasesRun(inv: Invocation): nat {
    if inv.cut.Some? && inv.cut.value < |inv.cases| then inv.cut.value else |inv.cases|
  }

  /** The run file afterwards: a complete invocation always writes it, a cut one has if it ran a case. */
  function AfterInvocation(disk: Option<seq<Row>>, cfg: Config, inv: Invocation): Option<seq<Row>> {
    var p := RunCases(Begin(disk, cfg, inv.policy), cfg, inv, CasesRun(inv));
    if p.written || inv.cut.None? then Some(p.rows) else disk
  }

  function AfterAll(disk: Option<seq<Row>>, cfg: Config, invs: seq<Invocation>): Option<seq<Row>> {
    if invs == [] then disk
    else AfterInvocation(AfterAll(disk, cfg, invs[..|invs| - 1]), cfg, invs[|invs| - 1])
  }

  class Sweep {
    const cfg: Config
    var runsFile: Option<seq<Row>>

    constructor (cfg: Config, runsFile: Option<seq<Row>>)
      ensures this.cfg == cfg && this.runsFile == runsFile
    {
      this.cfg, this.runsFile := cfg, runsFile;
    }

    /** The part of `main` from loading the rows to the end of the case loop. */
    method Invoke(inv: Invocation)
      modifies this
      ensures runsFile == AfterInvocation(old(runsFile), cfg, inv)
      ensures exists start, ran :: Does(old(runsFile), cfg, inv, runsFile, start, ran)
    {
      ghost var start, ran := InvocationExact(runsFile, cfg, inv);
      hide Does, CompletedKeys, KeyOf, NormalizeRow;
      var rows: seq<Row> := [];
      if inv.policy != RerunAll {
        if runsFile.Some? {
          rows := Normalize(runsFile.value, cfg.defaultDataSize);
        } else {
          rows := cfg.fromSummary;
        }
      }
      var completed := CompletedCaseKeys(rows, inv.policy);
      ghost var p0 := Begin(runsFile, cfg, inv.policy);
      for i := 0 to |inv.cases|
        invariant i <= CasesRun(inv)
        invariant var p := RunCases(p0, cfg, inv, i);
                  && rows == p.rows && completed == p.completed
                  && runsFile == if p.written then Some(p.rows) else old(runsFile)
      {
        if inv.cut.Some? && inv.cut.value <= i {
          return;
        }
        var currentKey := KeyOf(cfg, inv.cases[i]);
        if currentKey in completed {
          continue;
        }
        var outcome := inv.outcomes(i);
        var row := MakeRow(cfg, inv.cases[i], outcome);
        rows := rows + [row];
        if row.rc.n == 0 {
          completed := completed + {currentKey};
        }
        runsFile := Some(rows);
      }
      if inv.cut.None? {
        runsFile := Some(rows);
      }
    }
  }

  // ---------------------------------------------------------------------------------------
  // Safety over any sequence of cut and resumed invocations
  // ---------------------------------------------------------------------------------------

  /** How many successful rows a key has. */
  function Successes(rows: seq<Row>, k: CaseKey): nat {
    if rows == [] then 0
    else var r := rows[|rows| - 1];
         Successes(rows[..|rows| - 1], k) + (if Succeeded(r) && RowKey(r) == Some(k) then 1 else 0)
  }

  /** As many as it had, or one. */
  function MostSuccesses(rows: seq<Row>, k: CaseKey): nat {
    if Successes(rows, k) > 1 then Successes(rows, k) else 1
  }

  /** No cell of the case's key is blank. */
  predicate Filled(cfg: Config, c: Case) {
    && cfg.topology != "" && cfg.scaleName != ""
    && c.routing != "" && c.scale != "" && c.dataSize != "" && c.repetition != "" && c.threads != ""
  }

  /** The program reports the routing it was asked for. */
  ghost predicate Honest(inv: Invocation) {
    forall i | 0 <= i < |inv.cases| :: inv.outcomes(i).routing == inv.cases[i].routing
  }

  /** Rows that loading leaves alone. */
  ghost predicate Normal(rows: seq<Row>, cfg: Config) {
    Normalize(rows, cfg.defaultDataSize) == rows
  }

  ghost predicate Resumes(cfg: Config, inv: Invocation) {
    inv.policy == SkipSuccess && Honest(inv) && forall c | c in inv.cases :: Filled(cfg, c)
  }

  lemma LoadIsNormal(disk: Option<seq<Row>>, cfg: Config)
    requires Normal(cfg.fromSummary, cfg)
    ensures Normal(Load(disk, cfg), cfg)
  {
  }

  lemma {:induction false} SuccessesMembers(rows: seq<Row>, k: CaseKey)
    ensures Successes(rows, k) > 0 <==> k in CompletedKeys(rows, SkipSuccess)
  {
    if rows != [] {
      var n := |rows| - 1;
      assert rows == rows[..n] + [rows[n]];
      CompletedSnoc(rows[..n], rows[n], SkipSuccess);
      SuccessesMembers(rows[..n], k);
    }
  }

  /** What the case loop keeps: the completed keys are those of the rows. */
  ghost predicate LoopInv(p: Progress, rows0: seq<Row>, cfg: Config) {
    && rows0 <= p.rows && Normal(p.rows, cfg)
    && p.completed == CompletedKeys(p.rows, SkipSuccess)
    && (!p.written ==> p.rows == rows0)
    && forall k :: Successes(p.rows, k) <= MostSuccesses(rows0, k)
  }

  lemma RunCaseKeeps(p: Progress, rows0: seq<Row>, cfg: Config, c: Case, o: Outcome)
    requires LoopInv(p, rows0, cfg) && Filled(cfg, c)
    requires o.routing == c.routing
    ensures LoopInv(RunCase(p, cfg, c, o), rows0, cfg)
  {
    if KeyOf(cfg, c) !in p.completed {
      var (r, p') := (MakeRow(cfg, c, o), RunCase(p, cfg, c, o));
      assert RowKey(r) == Some(KeyOf(cfg, c));
      CompletedSnoc(p.rows, r, SkipSuccess);
      assert Normalize(p'.rows, cfg.defaultDataSize) == Normalize(p.rows, cfg.defaultDataSize) + [r];
      forall k ensures Successes(p'.rows, k) <= MostSuccesses(rows0, k) {
        assert p'.rows[..|p.rows|] == p.rows;
        SuccessesMembers(p.rows, k);
      }
    }
  }

  lemma {:induction false} RunCasesKeeps(p: Progress, rows0: seq<Row>, cfg: Config, inv: Invocation, n: nat)
    requires LoopInv(p, rows0, cfg) && Resumes(cfg, inv) && n <= |inv.cases|
    ensures LoopInv(RunCases(p, cfg, inv, n), rows0, cfg)
  {
    if n > 0 {
      RunCasesKeeps(p, rows0, cfg, inv, n - 1);
      assert inv.cases[n - 1] in inv.cases;
      RunCaseKeeps(RunCases(p, cfg, inv, n - 1), rows0, cfg, inv.cases[n - 1], inv.outcomes(n - 1));
    }
  }

  /** One invocation, cut or not: the rows loaded next time extend those loaded this time, and no key
      gains a second success. */
  lemma InvocationSafe(disk: Option<seq<Row>>, cfg: Config, inv: Invocation)
    requires Normal(cfg.fromSummary, cfg) && Resumes(cfg, inv)
    ensures var (rows, rows') := (Load(disk, cfg), Load(AfterInvocation(disk, cfg, inv), cfg));
            rows <= rows' && forall k :: Successes(rows', k) <= MostSuccesses(rows, k)
  {
    var rows := Load(disk, cfg);
    LoadIsNormal(disk, cfg);
    RunCasesKeeps(Begin(disk, cfg, SkipSuccess), rows, cfg, inv, CasesRun(inv));
  }

  /** Any sequence of such invocations: earlier rows stay a prefix, and the number of successful rows of a
      key never rises above one, or above what it was to begin with. */
  lemma {:induction false} SequenceSafe(disk: Option<seq<Row>>, cfg: Config, invs: seq<Invocation>)
    requires Normal(cfg.fromSummary, cfg) && forall inv | inv in invs :: Resumes(cfg, inv)
    ensures var (rows, rows') := (Load(disk, cfg), Load(AfterAll(disk, cfg, invs), cfg));
            rows <= rows' && forall k :: Successes(rows', k) <= MostSuccesses(rows, k)
  {
    if invs != [] {
      var n := |invs| - 1;
      assert invs[n] in invs && forall inv | inv in invs[..n] :: inv in invs;
      SequenceSafe(disk, cfg, invs[..n]);
      InvocationSafe(AfterAll(disk, cfg, invs[..n]), cfg, invs[n]);
    }
  }

  // ---------------------------------------------------------------------------------------
  // Reaching the end
  // ---------------------------------------------------------------------------------------

  ghost predicate AllComplete(rows: seq<Row>, cfg: Config, inv: Invocation) {
    forall c | c in inv.cases :: KeyOf(cfg, c) in CompletedKeys(rows, inv.policy)
  }

  /** An invocation runs nothing exactly when every one of its cases is complete. */
  lemma {:induction false} RunsNothing(p: Progress, cfg: Config, inv: Invocation, n: nat)
    requires n <= |inv.cases| && !p.written
    ensures RunCases(p, cfg, inv, n).written <==> exists i | 0 <= i < n :: KeyOf(cfg, inv.cases[i]) !in p.completed
    ensures !RunCases(p, cfg, inv, n).written ==> RunCases(p, cfg, inv, n) == p
  {
    if n > 0 { RunsNothing(p, cfg, inv, n - 1); }
  }

  /** Once every case has succeeded a further invocation runs nothing and keeps the rows. */
  lemma CompleteRunsNothing(disk: Option<seq<Row>>, cfg: Config, inv: Invocation)
    requires Normal(cfg.fromSummary, cfg) && inv.policy == SkipSuccess
    ensures RunCases(Begin(disk, cfg, SkipSuccess), cfg, inv, |inv.cases|).written <==>
            !AllComplete(Load(disk, cfg), cfg, inv)
    ensures AllComplete(Load(disk, cfg), cfg, inv) ==> Load(AfterInvocation(disk, cfg, inv), cfg) == Load(disk, cfg)
  {
    var p := Begin(disk, cfg, SkipSuccess);
    RunsNothing(p, cfg, inv, |inv.cases|);
    RunsNothing(p, cfg, inv, CasesRun(inv));
    LoadIsNormal(disk, cfg);
    if AllComplete(Load(disk, cfg), cfg, inv) {
      forall i | 0 <= i < |inv.cases| ensures KeyOf(cfg, inv.cases[i]) in p.completed {
        assert inv.cases[i] in inv.cases;
      }
    }
  }

  lemma RunCaseGrows(p: Progress, cfg: Config, c: Case, o: Outcome)
    ensures p.completed <= RunCase(p, cfg, c, o).completed
    ensures o.rc == 0 ==> KeyOf(cfg, c) in RunCase(p, cfg, c, o).completed
  {
  }

  lemma {:induction false} CasesBecomeComplete(p: Progress, cfg: Config, inv: Invocation, n: nat)
    requires n <= |inv.cases|
    requires forall i | 0 <= i < n :: inv.outcomes(i).rc == 0
    ensures forall i | 0 <= i < n :: KeyOf(cfg, inv.cases[i]) in RunCases(p, cfg, inv, n).completed
  {
    if n > 0 {
      CasesBecomeComplete(p, cfg, inv, n - 1);
      RunCaseGrows(RunCases(p, cfg, inv, n - 1), cfg, inv.cases[n - 1], inv.outcomes(n - 1));
    }
  }

  /** An invocation that is not cut and whose runs all succeed leaves every case complete. */
  lemma UncutCompletes(disk: Option<seq<Row>>, cfg: Config, inv: Invocation)
    requires Normal(cfg.fromSummary, cfg) && Resumes(cfg, inv) && inv.cut.None?
    requires forall i | 0 <= i < |inv.cases| :: inv.outcomes(i).rc == 0
    ensures AllComplete(Load(AfterInvocation(disk, cfg, inv), cfg), cfg, inv)
  {
    LoadIsNormal(disk, cfg);
    var p := Begin(disk, cfg, SkipSuccess);
    CasesBecomeComplete(p, cfg, inv, |inv.cases|);
    RunCasesKeeps(p, Load(disk, cfg), cfg, inv, |inv.cases|);
    forall c | c in inv.cases ensures KeyOf(cfg, c) in RunCases(p, cfg, inv, |inv.cases|).completed {
      var i :| 0 <= i < |inv.cases| && inv.cases[i] == c;
    }
  }

  // ---------------------------------------------------------------------------------------
  // What counts as complete when programs report other routings
  // ---------------------------------------------------------------------------------------

  /** The key that the row of a run completes, if it completes any: that of the case with the reported routing. */
  ghost predicate Gives(cfg: Config, c: Case, o: Outcome, policy: Policy, k: CaseKey) {
    o.routing != "" && (policy == SkipAny || o.rc == 0) && k == KeyOf(cfg, c.(routing := o.routing))
  }

  /** What the row of a run completes, for every key: the key of the case with the reported routing, and nothing
      else, if the policy is content with the return code. */
  lemma RecordedRowCompletes(rows: seq<Row>, cfg: Config, c: Case, o: Outcome, policy: Policy, k: CaseKey)
    requires Filled(cfg, c) && policy != RerunAll
    ensures k in CompletedKeys(rows + [MakeRow(cfg, c, o)], policy)
            <==> k in CompletedKeys(rows, policy) || Gives(cfg, c, o, policy, k)
  {
    CompletedSnoc(rows, MakeRow(cfg, c, o), policy);
    hide CompletedKeys;
  }

  /** In particular it completes the case that was run exactly when the routing reported is the one asked for. */
  lemma OwnKeyGiven(cfg: Config, c: Case, o: Outcome)
    requires Filled(cfg, c)
    ensures Gives(cfg, c, o, SkipSuccess, KeyOf(cfg, c)) <==> o.rc == 0 && o.routing == c.routing
  {
  }

  /** Is the i-th case run, when the keys `done` are complete at the start? It is unless its key is complete or an
      earlier run of the same case succeeded. */
  ghost predicate RunsCase(cfg: Config, inv: Invocation, done: set<CaseKey>, i: nat)
    requires i < |inv.cases|
  {
    && KeyOf(cfg, inv.cases[i]) !in done
    && forall j | 0 <= j < i && inv.cases[j] == inv.cases[i] :: inv.outcomes(j).rc != 0
  }

  ghost predicate SucceededBefore(cfg: Config, inv: Invocation, n: nat, k: CaseKey)
    requires n <= |inv.cases|
  {
    exists j | 0 <= j < n :: KeyOf(cfg, inv.cases[j]) == k && inv.outcomes(j).rc == 0
  }

  lemma SucceededOneMore(cfg: Config, inv: Invocation, n: nat, k: CaseKey)
    requires n < |inv.cases|
    ensures SucceededBefore(cfg, inv, n + 1, k) <==>
            SucceededBefore(cfg, inv, n, k) || (KeyOf(cfg, inv.cases[n]) == k && inv.outcomes(n).rc == 0)
  {
    hide KeyOf;
  }

  lemma {:induction false} CompletedInRun(p: Progress, cfg: Config, inv: Invocation, n: nat, k: CaseKey)
    requires n <= |inv.cases|
    ensures k in RunCases(p, cfg, inv, n).completed <==> k in p.completed || SucceededBefore(cfg, inv, n, k)
  {
    if n > 0 {
      hide KeyOf, SucceededBefore;
      CompletedInRun(p, cfg, inv, n - 1, k);
      SucceededOneMore(cfg, inv, n - 1, k);
    }
  }

  lemma RunsExactly(p: Progress, cfg: Config, inv: Invocation, i: nat)
    requires i < |inv.cases|
    ensures KeyOf(cfg, inv.cases[i]) !in RunCases(p, cfg, inv, i).completed <==> RunsCase(cfg, inv, p.completed, i)
  {
    CompletedInRun(p, cfg, inv, i, KeyOf(cfg, inv.cases[i]));
    hide RunCases;
  }

  /** Some case run among the first `n` gives the key. */
  ghost predicate GivenBy(cfg: Config, inv: Invocation, done: set<CaseKey>, n: nat, policy: Policy, k: CaseKey)
    requires n <= |inv.cases|
  {
    exists i | 0 <= i < n :: RunsCase(cfg, inv, done, i) && Gives(cfg, inv.cases[i], inv.outcomes(i), policy, k)
  }

  lemma GivenByOneMore(cfg: Config, inv: Invocation, done: set<CaseKey>, n: nat, policy: Policy, k: CaseKey)
    requires n < |inv.cases|
    ensures GivenBy(cfg, inv, done, n + 1, policy, k) <==>
            || GivenBy(cfg, inv, done, n, policy, k)
            || (RunsCase(cfg, inv, done, n) && Gives(cfg, inv.cases[n], inv.outcomes(n), policy, k))
  {
    hide RunsCase, Gives;
  }

  lemma NothingGiven(p: Progress, cfg: Config, inv: Invocation, policy: Policy, k: CaseKey)
    ensures RunCases(p, cfg, inv, 0) == p && !GivenBy(cfg, inv, p.completed, 0, policy, k)
  {
  }

  lemma RowsStep(p: Progress, cfg: Config, inv: Invocation, n: nat)
    requires n < |inv.cases|
    ensures RunCases(p, cfg, inv, n + 1).rows
            == if KeyOf(cfg, inv.cases[n]) in RunCases(p, cfg, inv, n).completed then RunCases(p, cfg, inv, n).rows
               else RunCases(p, cfg, inv, n).rows + [MakeRow(cfg, inv.cases[n], inv.outcomes(n))]
  {
    hide KeyOf, MakeRow;
  }

  lemma {:induction false} RowsComplete(p: Progress, cfg: Config, inv: Invocation, n: nat, policy: Policy, k: CaseKey)
    requires n <= |inv.cases| && policy != RerunAll && forall c | c in inv.cases :: Filled(cfg, c)
    ensures k in CompletedKeys(RunCases(p, cfg, inv, n).rows, policy)
            <==> k in CompletedKeys(p.rows, policy) || GivenBy(cfg, inv, p.completed, n, policy, k)
  {
    hide CompletedKeys, GivenBy, RunsCase, Gives, KeyOf, Filled, MakeRow, RunCases, RunCase;
    if n == 0 {
      NothingGiven(p, cfg, inv, policy, k);
    } else {
      var (c, o, q) := (inv.cases[n - 1], inv.outcomes(n - 1), RunCases(p, cfg, inv, n - 1));
      assert c in inv.cases;
      RowsStep(p, cfg, inv, n - 1);
      RowsComplete(p, cfg, inv, n - 1, policy, k);
      GivenByOneMore(cfg, inv, p.completed, n - 1, policy, k);
      RunsExactly(p, cfg, inv, n - 1);
      RecordedRowCompletes(q.rows, cfg, c, o, policy, k);
    }
  }

  lemma {:induction false} RowsNormal(p: Progress, cfg: Config, inv: Invocation, n: nat)
    requires n <= |inv.cases| && Normal(p.rows, cfg) && forall c | c in inv.cases :: Filled(cfg, c)
    ensures var q := RunCases(p, cfg, inv, n); Normal(q.rows, cfg) && (!q.written ==> q.rows == p.rows)
  {
    if n > 0 {
      var (c, o, q) := (inv.cases[n - 1], inv.outcomes(n - 1), RunCases(p, cfg, inv, n - 1));
      assert c in inv.cases;
      RowsNormal(p, cfg, inv, n - 1);
      NormalSnoc(q.rows, MakeRow(cfg, c, o), cfg);
      hide Normal, MakeRow, KeyOf;
    }
  }

  lemma NormalSnoc(rows: seq<Row>, r: Row, cfg: Config)
    requires Normal(rows, cfg) && r.dataSize != "" && r.threads != ""
    ensures Normal(rows + [r], cfg)
  {
    assert Normalize(rows + [r], cfg.defaultDataSize) == Normalize(rows, cfg.defaultDataSize) + [r];
  }

  // ---------------------------------------------------------------------------------------
  // What an invocation leaves in the file, cell by cell
  // ---------------------------------------------------------------------------------------

  /** Loading fills in a blank data size and a blank number of threads and changes nothing else. */
  ghost predicate IsLoaded(l: Row, r: Row, defaultDataSize: string) {
    && l.topology == r.topology && l.scaleName == r.scaleName && l.scale == r.scale && l.routing == r.routing
    && l.repetition == r.repetition && l.rc == r.rc
    && l.dataSize == (if |r.dataSize| > 0 then r.dataSize else defaultDataSize)
    && l.threads == (if |r.threads| > 0 then r.threads else "1")
  }

  /** The rows an invocation starts from: none when everything is run again, else those of the run file, else those the
      summary file yields. */
  ghost predicate StartsFrom(rows: seq<Row>, disk: Option<seq<Row>>, cfg: Config, policy: Policy) {
    if policy == RerunAll then |rows| == 0
    else if disk.None? then rows == cfg.fromSummary
    else |rows| == |disk.value| && forall i | 0 <= i < |rows| :: IsLoaded(rows[i], disk.value[i], cfg.defaultDataSize)
  }

  /** The row fills every cell of the case's key with the case's own, and its return code is 0 or does not matter. */
  ghost predicate Covers(r: Row, cfg: Config, c: Case, policy: Policy) {
    && r.topology == cfg.topology && r.scaleName == cfg.scaleName && r.scale == c.scale && r.routing == c.routing
    && r.dataSize == c.dataSize && r.threads == c.threads && r.repetition == c.repetition
    && "" !in {r.topology, r.scaleName, r.scale, r.routing, r.dataSize, r.threads, r.repetition}
    && (r.rc == Number(0) || policy == SkipAny)
  }

  /** Nothing the invocation starts from covers the case, and no earlier run of the same case returned 0. */
  ghost predicate MustRun(start: seq<Row>, cfg: Config, inv: Invocation, i: nat)
    requires i < |inv.cases|
  {
    && (forall r | r in start :: !Covers(r, cfg, inv.cases[i], inv.policy))
    && forall j | 0 <= j < i && inv.cases[j] == inv.cases[i] :: inv.outcomes(j).rc != 0
  }

  /** The row of a run: the case's cells, but the routing and the return code that the run reported. */
  ghost predicate Reports(r: Row, cfg: Config, c: Case, o: Outcome) {
    && r.topology == cfg.topology && r.scaleName == cfg.scaleName && r.scale == c.scale && r.dataSize == c.dataSize
    && r.threads == c.threads && r.repetition == c.repetition && r.routing == o.routing && r.rc == Number(o.rc)
  }

  /** The rows started from, and then one for each of the cases at `ran`. */
  ghost predicate RowsWritten(rows: seq<Row>, start: seq<Row>, cfg: Config, inv: Invocation, ran: seq<nat>) {
    && start <= rows && |rows| == |start| + |ran|
    && forall m | 0 <= m < |ran| ::
         ran[m] < |inv.cases| && Reports(rows[|start| + m], cfg, inv.cases[ran[m]], inv.outcomes(ran[m]))
  }

  /** `ran` are the places of the cases run, in order, among the first `n`. */
  ghost predicate RanBefore(ran: seq<nat>, start: seq<Row>, cfg: Config, inv: Invocation, n: nat)
    requires n <= |inv.cases|
  {
    Increasing(ran) && forall i: nat :: i in ran <==> i < n && MustRun(start, cfg, inv, i)
  }

  /** All an invocation does: it runs, in order, the cases before the cut that must be run, and leaves a file with a row
      for each of them, unless it was cut before it ran any. */
  ghost predicate Does(disk: Option<seq<Row>>, cfg: Config, inv: Invocation, after: Option<seq<Row>>,
                       start: seq<Row>, ran: seq<nat>)
  {
    && StartsFrom(start, disk, cfg, inv.policy)
    && RanBefore(ran, start, cfg, inv, if inv.cut.None? then |inv.cases| else Min(inv.cut.value, |inv.cases|))
    && if inv.cut.Some? && ran == [] then after == disk
       else after.Some? && RowsWritten(after.value, start, cfg, inv, ran)
  }

  function Min(a: nat, b: nat): nat { if a < b then a else b }

  lemma CoversExactly(r: Row, cfg: Config, c: Case, policy: Policy)
    requires policy != RerunAll
    ensures Covers(r, cfg, c, policy) <==> Completes(r, policy) && RowKey(r) == Some(KeyOf(cfg, c))
  {
  }

  lemma MustRunExactly(start: seq<Row>, cfg: Config, inv: Invocation, i: nat)
    requires i < |inv.cases| && (inv.policy == RerunAll ==> start == [])
    ensures MustRun(start, cfg, inv, i) <==> RunsCase(cfg, inv, CompletedKeys(start, inv.policy), i)
  {
    hide Covers, RowKey, KeyOf;
    if inv.policy != RerunAll {
      forall r | r in start
        ensures Covers(r, cfg, inv.cases[i], inv.policy)
                <==> Completes(r, inv.policy) && RowKey(r) == Some(KeyOf(cfg, inv.cases[i]))
      {
        CoversExactly(r, cfg, inv.cases[i], inv.policy);
      }
    }
  }

  lemma RowsWrittenSnoc(rows: seq<Row>, start: seq<Row>, cfg: Config, inv: Invocation, ran: seq<nat>, i: nat)
    requires RowsWritten(rows, start, cfg, inv, ran) && i < |inv.cases|
    ensures RowsWritten(rows + [MakeRow(cfg, inv.cases[i], inv.outcomes(i))], start, cfg, inv, ran + [i])
  {
  }

  lemma RanOneMore(ran: seq<nat>, start: seq<Row>, cfg: Config, inv: Invocation, n: nat)
    requires n < |inv.cases| && RanBefore(ran, start, cfg, inv, n)
    ensures RanBefore(if MustRun(start, cfg, inv, n) then ran + [n] else ran, start, cfg, inv, n + 1)
  {
    hide MustRun;
    forall m | 0 <= m < |ran| ensures ran[m] < n { assert ran[m] in ran; }
    forall i: nat ensures i in ran + [n] <==> i in ran || i == n { assert (ran + [n])[|ran|] == n; }
  }

  lemma RunCasesStep(p: Progress, cfg: Config, inv: Invocation, n: nat)
    requires n < |inv.cases| && p.completed == CompletedKeys(p.rows, inv.policy)
    requires inv.policy == RerunAll ==> p.rows == []
    ensures var (q, q') := (RunCases(p, cfg, inv, n), RunCases(p, cfg, inv, n + 1));
            if MustRun(p.rows, cfg, inv, n)
            then q'.rows == q.rows + [MakeRow(cfg, inv.cases[n], inv.outcomes(n))] && q'.written
            else q'.rows == q.rows && q'.written == q.written
  {
    MustRunExactly(p.rows, cfg, inv, n);
    RunsExactly(p, cfg, inv, n);
    hide MustRun, RunsCase, CompletedKeys, KeyOf, MakeRow;
  }

  lemma RunCasesStart(p: Progress, cfg: Config, inv: Invocation)
    ensures RanBefore([], p.rows, cfg, inv, 0) && RowsWritten(p.rows, p.rows, cfg, inv, [])
    ensures RunCases(p, cfg, inv, 0) == p
  {
    hide MustRun;
  }

  lemma {:induction false} RunCasesWrites(p: Progress, cfg: Config, inv: Invocation, n: nat) returns (ran: seq<nat>)
    requires n <= |inv.cases| && !p.written && p.completed == CompletedKeys(p.rows, inv.policy)
    requires inv.policy == RerunAll ==> p.rows == []
    ensures RanBefore(ran, p.rows, cfg, inv, n)
    ensures RowsWritten(RunCases(p, cfg, inv, n).rows, p.rows, cfg, inv, ran)
    ensures RunCases(p, cfg, inv, n).written <==> ran != []
  {
    hide *;
    if n == 0 {
      RunCasesStart(p, cfg, inv);
      ran := [];
    } else {
      ran := RunCasesWrites(p, cfg, inv, n - 1);
      RanOneMore(ran, p.rows, cfg, inv, n - 1);
      RunCasesStep(p, cfg, inv, n - 1);
      RowsWrittenSnoc(RunCases(p, cfg, inv, n - 1).rows, p.rows, cfg, inv, ran, n - 1);
      if MustRun(p.rows, cfg, inv, n - 1) { ran := ran + [n - 1]; }
    }
  }

  /** An invocation under any policy, cut anywhere or not, does that and nothing else. */
  lemma InvocationExact(disk: Option<seq<Row>>, cfg: Config, inv: Invocation) returns (start: seq<Row>, ran: seq<nat>)
    ensures Does(disk, cfg, inv, AfterInvocation(disk, cfg, inv), start, ran)
  {
    var p := Begin(disk, cfg, inv.policy);
    start := p.rows;
    ran := RunCasesWrites(p, cfg, inv, CasesRun(inv));
    hide RanBefore, RowsWritten, CompletedKeys, RunCases;
  }

  lemma {:induction false} RunsAlike(p: Progress, cfg: Config, other: seq<Row>, inv: Invocation, n: nat)
    requires n <= |inv.cases|
    ensures RunCases(p, cfg, inv, n) == RunCases(p, cfg.(fromSummary := other), inv, n)
  {
    if n > 0 { RunsAlike(p, cfg, other, inv, n - 1); }
  }

  /** Running everything again forgets what was there: whatever the files held before, an invocation that is not cut
      leaves one row for each case it runs, in order, and runs all but repeats of cases that succeeded. */
  lemma RerunForgets(disk: Option<seq<Row>>, disk': Option<seq<Row>>, cfg: Config, other: seq<Row>, inv: Invocation)
    returns (ran: seq<nat>)
    requires inv.policy == RerunAll && inv.cut.None?
    ensures var after := AfterInvocation(disk, cfg, inv);
            && after == AfterInvocation(disk', cfg.(fromSummary := other), inv)
            && after.Some? && RowsWritten(after.value, [], cfg, inv, ran) && Increasing(ran)
            && forall i: nat :: i in ran <==>
                 && i < |inv.cases|
                 && forall j | 0 <= j < i && inv.cases[j] == inv.cases[i] :: inv.outcomes(j).rc != 0
  {
    var start, places := InvocationExact(disk, cfg, inv);
    ran := places;
    RunsAlike(Begin(disk, cfg, RerunAll), cfg, other, inv, |inv.cases|);
    hide RowsWritten, RunCases;
  }

  /** Which keys are complete, in the cells of the file: some row has them, blanks filled in, and succeeded or need
      not. */
  lemma CompleteExactly(disk: Option<seq<Row>>, cfg: Config, c: Case, policy: Policy)
    requires policy != RerunAll && disk.Some?
    ensures KeyOf(cfg, c) in CompletedKeys(Load(disk, cfg), policy) <==>
            exists r, l | r in disk.value && IsLoaded(l, r, cfg.defaultDataSize) :: Covers(l, cfg, c, policy)
  {
    var rows := Load(disk, cfg);
    hide RowKey, KeyOf, Covers;
    forall r ensures Covers(r, cfg, c, policy) <==> Completes(r, policy) && RowKey(r) == Some(KeyOf(cfg, c)) {
      CoversExactly(r, cfg, c, policy);
    }
    if KeyOf(cfg, c) in CompletedKeys(rows, policy) {
      var i :| 0 <= i < |rows| && Completes(rows[i], policy) && RowKey(rows[i]) == Some(KeyOf(cfg, c));
      assert disk.value[i] in disk.value && IsLoaded(rows[i], disk.value[i], cfg.defaultDataSize);
    }
    if r, l :| r in disk.value && IsLoaded(l, r, cfg.defaultDataSize) && Covers(l, cfg, c, policy) {
      var i :| 0 <= i < |disk.value| && disk.value[i] == r;
      assert rows[i] == l && rows[i] in rows;
    }
  }

  /** An invocation that keeps the rows it loads. */
  ghost predicate Keeps(cfg: Config, inv: Invocation) {
    inv.policy != RerunAll && forall c | c in inv.cases :: Filled(cfg, c)
  }

  /** The keys complete when an invocation starts. */
  ghost function Done(disk: Option<seq<Row>>, cfg: Config, policy: Policy): set<CaseKey> {
    CompletedKeys(Load(disk, cfg), policy)
  }

  lemma LoadedAfter(disk: Option<seq<Row>>, cfg: Config, inv: Invocation)
    requires Normal(cfg.fromSummary, cfg) && Keeps(cfg, inv)
    ensures Load(AfterInvocation(disk, cfg, inv), cfg)
            == RunCases(Begin(disk, cfg, inv.policy), cfg, inv, CasesRun(inv)).rows
  {
    LoadIsNormal(disk, cfg);
    RowsNormal(Begin(disk, cfg, inv.policy), cfg, inv, CasesRun(inv));
    hide CompletedKeys, RunCases;
  }

  /** What an invocation adds to the complete keys. */
  ghost predicate Adds(disk: Option<seq<Row>>, cfg: Config, inv: Invocation, policy: Policy, k: CaseKey) {
    GivenBy(cfg, inv, Done(disk, cfg, inv.policy), CasesRun(inv), policy, k)
  }

  /** An invocation of any number of cases, cut anywhere or not, whatever its programs report: the keys complete
      for the next one are those complete before and those given by the cases it runs. */
  lemma InvocationCompletes(disk: Option<seq<Row>>, cfg: Config, inv: Invocation, policy: Policy, k: CaseKey)
    requires Normal(cfg.fromSummary, cfg) && Keeps(cfg, inv) && policy != RerunAll
    ensures k in Done(AfterInvocation(disk, cfg, inv), cfg, policy) <==>
            k in Done(disk, cfg, policy) || Adds(disk, cfg, inv, policy, k)
  {
    LoadedAfter(disk, cfg, inv);
    RowsComplete(Begin(disk, cfg, inv.policy), cfg, inv, CasesRun(inv), policy, k);
    hide CompletedKeys, RunCases, GivenBy, AfterInvocation, Load;
  }

  /** So the next invocation of the same cases runs nothing exactly when every case was complete before or is given
      by one that is run. */
  lemma NextRunsNothing(disk: Option<seq<Row>>, cfg: Config, inv: Invocation)
    requires Normal(cfg.fromSummary, cfg) && Keeps(cfg, inv) && inv.policy == SkipSuccess
    ensures AllComplete(Load(AfterInvocation(disk, cfg, inv), cfg), cfg, inv) <==>
            forall c | c in inv.cases ::
              KeyOf(cfg, c) in Done(disk, cfg, SkipSuccess) || Adds(disk, cfg, inv, SkipSuccess, KeyOf(cfg, c))
  {
    forall c | c in inv.cases
      ensures KeyOf(cfg, c) in Done(AfterInvocation(disk, cfg, inv), cfg, SkipSuccess) <==>
              KeyOf(cfg, c) in Done(disk, cfg, SkipSuccess) || Adds(disk, cfg, inv, SkipSuccess, KeyOf(cfg, c))
    {
      InvocationCompletes(disk, cfg, inv, SkipSuccess, KeyOf(cfg, c));
    }
    hide CompletedKeys, AfterInvocation, Load, Adds, KeyOf;
  }

  /** One of the first `n` invocations adds the key. */
  ghost predicate AddedBy(disk: Option<seq<Row>>, cfg: Config, invs: seq<Invocation>, n: nat, policy: Policy,
                          k: CaseKey)
    requires n <= |invs|
  {
    exists m | 0 <= m < n :: Adds(AfterAll(disk, cfg, invs[..m]), cfg, invs[m], policy, k)
  }

  lemma AddedByOneMore(disk: Option<seq<Row>>, cfg: Config, invs: seq<Invocation>, n: nat, policy: Policy, k: CaseKey)
    requires n < |invs|
    ensures AddedBy(disk, cfg, invs, n + 1, policy, k) <==>
            AddedBy(disk, cfg, invs, n, policy, k) || Adds(AfterAll(disk, cfg, invs[..n]), cfg, invs[n], policy, k)
  {
    hide Adds, AfterAll;
  }

  lemma NothingYet(disk: Option<seq<Row>>, cfg: Config, invs: seq<Invocation>, policy: Policy, k: CaseKey)
    ensures AfterAll(disk, cfg, invs[..0]) == disk && !AddedBy(disk, cfg, invs, 0, policy, k)
  {
  }

  /** And over any sequence of invocations. */
  lemma {:induction false} SequenceCompletes(disk: Option<seq<Row>>, cfg: Config, invs: seq<Invocation>, n: nat,
                                             policy: Policy, k: CaseKey)
    requires Normal(cfg.fromSummary, cfg) && (forall inv | inv in invs :: Keeps(cfg, inv))
    requires n <= |invs| && policy != RerunAll
    ensures k in Done(AfterAll(disk, cfg, invs[..n]), cfg, policy) <==>
            k in Done(disk, cfg, policy) || AddedBy(disk, cfg, invs, n, policy, k)
  {
    hide Done, Adds, AddedBy, AfterAll, AfterInvocation, Keeps, Normal;
    NothingYet(disk, cfg, invs, policy, k);
    if n > 0 {
      assert invs[n - 1] in invs;
      AfterAllSnoc(disk, cfg, invs, n - 1);
      SequenceCompletes(disk, cfg, invs, n - 1, policy, k);
      AddedByOneMore(disk, cfg, invs, n - 1, policy, k);
      InvocationCompletes(AfterAll(disk, cfg, invs[..n - 1]), cfg, invs[n - 1], policy, k);
    }
  }

  lemma AfterAllSnoc(disk: Option<seq<Row>>, cfg: Config, invs: seq<Invocation>, n: nat)
    requires n < |invs|
    ensures AfterAll(disk, cfg, invs[..n + 1]) == AfterInvocation(AfterAll(disk, cfg, invs[..n]), cfg, invs[n])
  {
    assert invs[..n + 1][..n] == invs[..n];
  }

  /** The case is among those the invocation gets to, and one of its occurrences is run. */
  ghost predicate Runs(disk: Option<seq<Row>>, cfg: Config, inv: Invocation, c: Case) {
    exists i | 0 <= i < CasesRun(inv) :: inv.cases[i] == c && RunsCase(cfg, inv, Done(disk, cfg, inv.policy), i)
  }

  lemma {:induction false} FirstOccurrence(cases: seq<Case>, c: Case, n: nat) returns (i: nat)
    requires n <= |cases| && c in cases[..n]
    ensures i < n && cases[i] == c && forall j | 0 <= j < i :: cases[j] != c
  {
    if c in cases[..n - 1] {
      i := FirstOccurrence(cases, c, n - 1);
    } else {
      i := n - 1;
    }
  }

  lemma RunsUnlessDone(disk: Option<seq<Row>>, cfg: Config, inv: Invocation, c: Case)
    requires c in inv.cases[..CasesRun(inv)]
    ensures Runs(disk, cfg, inv, c) <==> KeyOf(cfg, c) !in Done(disk, cfg, inv.policy)
  {
    var i := FirstOccurrence(inv.cases, c, CasesRun(inv));
    hide Done;
  }

  /** When a sweep runs a case again: an invocation that gets to it runs it exactly when it was not complete to
      begin with and no earlier invocation ran a successful case that reported its key. */
  lemma RunsAgainExactly(disk: Option<seq<Row>>, cfg: Config, invs: seq<Invocation>, n: nat, c: Case)
    requires Normal(cfg.fromSummary, cfg) && forall inv | inv in invs :: Keeps(cfg, inv)
    requires n < |invs| && invs[n].policy == SkipSuccess && c in invs[n].cases[..CasesRun(invs[n])]
    ensures Runs(AfterAll(disk, cfg, invs[..n]), cfg, invs[n], c) <==>
            KeyOf(cfg, c) !in Done(disk, cfg, SkipSuccess) && !AddedBy(disk, cfg, invs, n, SkipSuccess, KeyOf(cfg, c))
  {
    SequenceCompletes(disk, cfg, invs, n, SkipSuccess, KeyOf(cfg, c));
    hide Runs, Done, AddedBy, AfterAll, CasesRun;
    RunsUnlessDone(AfterAll(disk, cfg, invs[..n]), cfg, invs[n], c);
  }

  /** No successful run reports the case's routing together with the rest of its key. */
  ghost predicate Unreported(inv: Invocation, c: Case) {
    forall i | 0 <= i < |inv.cases| && inv.outcomes(i).rc == 0 ::
      inv.cases[i].(routing := inv.outcomes(i).routing) != c
  }

  lemma UnreportedAddsNothing(disk: Option<seq<Row>>, cfg: Config, inv: Invocation, c: Case)
    requires Unreported(inv, c)
    ensures !Adds(disk, cfg, inv, SkipSuccess, KeyOf(cfg, c))
  {
    hide Done, RunsCase;
  }

  /** Why the reported routing matters: a case that no successful run reports is run by every invocation that gets to
      it, though its own runs succeed, and however often the sweep is resumed. */
  lemma MisreportedRoutingReruns(disk: Option<seq<Row>>, cfg: Config, invs: seq<Invocation>, n: nat, c: Case)
    requires Normal(cfg.fromSummary, cfg) && forall inv | inv in invs :: Keeps(cfg, inv) && Unreported(inv, c)
    requires n < |invs| && invs[n].policy == SkipSuccess && c in invs[n].cases[..CasesRun(invs[n])]
    requires KeyOf(cfg, c) !in Done(disk, cfg, SkipSuccess)
    ensures Runs(AfterAll(disk, cfg, invs[..n]), cfg, invs[n], c)
  {
    forall m | 0 <= m < n ensures !Adds(AfterAll(disk, cfg, invs[..m]), cfg, invs[m], SkipSuccess, KeyOf(cfg, c)) {
      assert invs[m] in invs;
      UnreportedAddsNothing(AfterAll(disk, cfg, invs[..m]), cfg, invs[m], c);
    }
    RunsAgainExactly(disk, cfg, invs, n, c);
  }

  /** When a case whose runs all fail is complete afterwards: exactly when another case, which is run and succeeds,
      reports its key. */
  lemma FailedCaseCompletes(disk: Option<seq<Row>>, cfg: Config, inv: Invocation, c: Case)
    requires Normal(cfg.fromSummary, cfg) && Keeps(cfg, inv) && Filled(cfg, c)
    requires KeyOf(cfg, c) !in Done(disk, cfg, SkipSuccess)
    requires forall i | 0 <= i < CasesRun(inv) && inv.cases[i] == c :: inv.outcomes(i).rc != 0
    ensures KeyOf(cfg, c) in Done(AfterInvocation(disk, cfg, inv), cfg, SkipSuccess) <==>
            exists i | 0 <= i < CasesRun(inv) ::
              && inv.cases[i] != c && RunsCase(cfg, inv, Done(disk, cfg, inv.policy), i)
              && inv.outcomes(i).rc == 0 && inv.cases[i].(routing := inv.outcomes(i).routing) == c
  {
    InvocationCompletes(disk, cfg, inv, SkipSuccess, KeyOf(cfg, c));
    hide Done, RunsCase;
    forall i | 0 <= i < CasesRun(inv)
      ensures Gives(cfg, inv.cases[i], inv.outcomes(i), SkipSuccess, KeyOf(cfg, c)) <==>
              inv.outcomes(i).rc == 0 && inv.cases[i].(routing := inv.outcomes(i).routing) == c
    {
    }
  }

  /** Example: `b` is run and fails, and `a`, which differs from it in the routing only, succeeds and reports the
      routing of `b`. From then on `b` is never run again, though it has never succeeded. */
  lemma NeverSucceededYetComplete(disk: Option<seq<Row>>, cfg: Config, invs: seq<Invocation>, a: Case, b: Case, n: nat)
    requires Normal(cfg.fromSummary, cfg) && forall inv | inv in invs :: Keeps(cfg, inv)
    requires 0 < n < |invs| && invs[0].policy == SkipSuccess && invs[0].cases == [a, b] && invs[0].cut.None?
    requires a != b && a == b.(routing := a.routing)
    requires KeyOf(cfg, a) !in Done(disk, cfg, SkipSuccess)
    requires invs[0].outcomes(0) == Outcome(0, b.routing) && invs[0].outcomes(1).rc != 0
    requires invs[n].policy == SkipSuccess && b in invs[n].cases[..CasesRun(invs[n])]
    ensures KeyOf(cfg, b) !in Done(disk, cfg, SkipSuccess) ==> Runs(disk, cfg, invs[0], b)
    ensures !Runs(AfterAll(disk, cfg, invs[..n]), cfg, invs[n], b)
  {
    var inv := invs[0];
    assert inv in invs && b in inv.cases;
    assert invs[..0] == [] && AfterAll(disk, cfg, []) == disk;
    assert RunsCase(cfg, inv, Done(disk, cfg, SkipSuccess), 0);
    assert Gives(cfg, inv.cases[0], inv.outcomes(0), SkipSuccess, KeyOf(cfg, b));
    assert Adds(AfterAll(disk, cfg, invs[..0]), cfg, inv, SkipSuccess, KeyOf(cfg, b));
    assert inv.cases[1] == b;
    RunsUnlessDone(disk, cfg, inv, b);
    hide Adds, Done, Runs;
    RunsAgainExactly(disk, cfg, invs, n, b);
  }
}
