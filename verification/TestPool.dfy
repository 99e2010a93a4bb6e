/** The worker pool of `test.py`: a main thread that queues jobs and then one poison pill per
    worker, workers that take from the queue while it is still being filled, and a collector that
    tallies what comes back. Each shared-state step is one action; runs are arbitrary
    interleavings, and the interrupt flag may be raised between any two steps. */
module TestPool {
  import opened Ordering

  /** `id` stands for the identity of the Python object. */
  datatype Job = Job(id: nat, displayName: string, isSkip: bool, skipReason: string,
                     isBreak: bool, returncode: int)

  const PILL := Job(0, "", false, "", true, 0)

  /** A worker between iterations, holding a job it has not looked at further, running a job's
      command, or returned. */
  datatype Worker = Idle | Got(job: Job) | Running(job: Job) | Exited

  datatype Tally = Tally(passed: nat, failed: nat, crashed: nat, valgrind: nat, skipped: nat,
                         failedNames: seq<string>, crashedNames: seq<string>,
                         valgrindNames: seq<string>, skippedNames: seq<string>)

  const NO_RESULTS := Tally(0, 0, 0, 0, 0, [], [], [], [])

  /** `collected` lists the jobs the collector has received, in order; `joined` counts the threads
      already joined. */
  datatype State = State(todo: seq<Job>, jobs: nat, totalTests: nat, pillsLeft: nat,
                         input: seq<Job>, workers: seq<Worker>, threadExit: bool,
                         output: seq<Job>, collected: seq<Job>, tally: Tally, joined: nat)

  datatype Action =
    | Dispatch | PutPill | Collect | Join
    | Take(w: nat) | Check(w: nat) | Finish(w: nat, rc: int)
    | Interrupt

  // ---------------------------------------------------------------------------------------
  // Results
  // ---------------------------------------------------------------------------------------

  datatype Status = Interrupted | Skip | Pass | Fail | Valgrind | Crash

  function StatusOf(j: Job): Status {
    if j.isBreak then Interrupted
    else if j.isSkip then Skip
    else if j.returncode == 0 then Pass
    else if j.returncode == 1 then Fail
    else if j.returncode == 2 then Valgrind
    else Crash
  }

  function Label(j: Job): string {
    if j.isSkip then j.displayName + " (" + j.skipReason + ")" else j.displayName
  }

  /** What the collector does with one job. */
  function TallyJob(t: Tally, j: Job): Tally {
    if j.isBreak then t
    else if j.isSkip then t.(skipped := t.skipped + 1,
                             skippedNames := t.skippedNames + [j.displayName + " (" + j.skipReason + ")"])
    else if j.returncode == 0 then t.(passed := t.passed + 1)
    else if j.returncode == 1 then t.(failed := t.failed + 1, failedNames := t.failedNames + [j.displayName])
    else if j.returncode == 2 then
      t.(valgrind := t.valgrind + 1, valgrindNames := t.valgrindNames + [j.displayName])
    else t.(crashed := t.crashed + 1, crashedNames := t.crashedNames + [j.displayName])
  }

  function TallyAll(js: seq<Job>): Tally {
    if js == [] then NO_RESULTS else TallyJob(TallyAll(js[..|js| - 1]), js[|js| - 1])
  }

  function Picker(k: Status): Job -> seq<string> {
    j => if StatusOf(j) == k then [Label(j)] else []
  }

  /** The labels of the jobs with a given status, in order. */
  function NamesOf(js: seq<Job>, k: Status): seq<string> {
    FlatMap(Picker(k), js)
  }

  /** Every counter counts, and every list lists, exactly the jobs of its status; the five counters
      and the interrupted jobs account for everything collected. */
  lemma {:induction false} TallyMeaning(js: seq<Job>)
    ensures var t := TallyAll(js);
      && t.passed == |NamesOf(js, Pass)|
      && t.failed == |NamesOf(js, Fail)| && t.failedNames == NamesOf(js, Fail)
      && t.crashed == |NamesOf(js, Crash)| && t.crashedNames == NamesOf(js, Crash)
      && t.valgrind == |NamesOf(js, Valgrind)| && t.valgrindNames == NamesOf(js, Valgrind)
      && t.skipped == |NamesOf(js, Skip)| && t.skippedNames == NamesOf(js, Skip)
      && t.passed + t.failed + t.crashed + t.valgrind + t.skipped + |NamesOf(js, Interrupted)| == |js|
  {
    if js != [] { TallyMeaning(js[..|js| - 1]); }
  }

  /** Nothing has status `k` exactly when its list is empty. */
  lemma {:induction false} NamesOfEmpty(js: seq<Job>, k: Status)
    ensures NamesOf(js, k) == [] <==> forall j | j in js :: StatusOf(j) != k
  {
    if js != [] {
      var n := |js| - 1;
      NamesOfEmpty(js[..n], k);
      assert js == js[..n] + [js[n]];
    }
  }

  function ExitCode(t: Tally, total: nat): int {
    if t.passed + t.skipped == total then 0 else 1
  }

  /** The exit code is 0 exactly when every collected job passed or was skipped. */
  lemma ExitCodeMeaning(js: seq<Job>)
    ensures ExitCode(TallyAll(js), |js|) == 0 <==>
            forall j | j in js :: StatusOf(j) == Pass || StatusOf(j) == Skip
  {
    TallyMeaning(js);
    NamesOfEmpty(js, Fail);
    NamesOfEmpty(js, Crash);
    NamesOfEmpty(js, Valgrind);
    NamesOfEmpty(js, Interrupted);
    assert forall j | j in js :: StatusOf(j) in {Interrupted, Skip, Pass, Fail, Valgrind, Crash};
  }

  // ---------------------------------------------------------------------------------------
  // The protocol
  // ---------------------------------------------------------------------------------------

  function Init(all: seq<Job>, processors: nat): State {
    State(all, 0, 0, processors, [], seq(processors, _ => Idle), false, [], [], NO_RESULTS, 0)
  }

  predicate Done(s: State) {
    s.todo == [] && s.pillsLeft == 0 && |s.collected| == s.jobs && s.joined == |s.workers|
  }

  // The main thread: dispatch, pills, collection, joins.

  predicate CanDispatch(s: State) { s.todo != [] }

  function DispatchStep(s: State): State
    requires CanDispatch(s)
  {
    s.(todo := s.todo[1..], input := s.input + [s.todo[0]], jobs := s.jobs + 1, totalTests := s.totalTests + 1)
  }

  predicate CanPutPill(s: State) { s.todo == [] && s.pillsLeft > 0 }

  function PutPillStep(s: State): State
    requires CanPutPill(s)
  {
    s.(pillsLeft := s.pillsLeft - 1, input := s.input + [PILL])
  }

  predicate CanCollect(s: State) {
    s.todo == [] && s.pillsLeft == 0 && |s.collected| < s.jobs && s.output != []
  }

  function CollectStep(s: State): State
    requires CanCollect(s)
  {
    s.(output := s.output[1..], collected := s.collected + [s.output[0]], tally := TallyJob(s.tally, s.output[0]))
  }

  predicate CanJoin(s: State) {
    s.todo == [] && s.pillsLeft == 0 && |s.collected| == s.jobs
    && s.joined < |s.workers| && s.workers[s.joined] == Exited
  }

  function JoinStep(s: State): State
    requires CanJoin(s)
  {
    s.(joined := s.joined + 1)
  }

  // A worker: take from the queue, look at the flags, hand back.

  predicate CanTake(s: State, w: nat) { w < |s.workers| && s.workers[w] == Idle && s.input != [] }

  function TakeStep(s: State, w: nat): State
    requires CanTake(s, w)
  {
    var j := s.input[0];
    s.(input := s.input[1..], workers := s.workers[w := if j.isBreak then Exited else Got(j)])
  }

  predicate CanCheck(s: State, w: nat) { w < |s.workers| && s.workers[w].Got? }

  function CheckStep(s: State, w: nat): State
    requires CanCheck(s, w)
  {
    var j := s.workers[w].job;
    if s.threadExit then s.(output := s.output + [j.(isBreak := true)], workers := s.workers[w := Idle])
    else if j.isSkip then s.(output := s.output + [j], workers := s.workers[w := Idle])
    else s.(workers := s.workers[w := Running(j)])
  }

  /** A command's return code is a function of the job, except that one still running when the
      interrupt arrives may return anything. */
  predicate CanFinish(s: State, w: nat, rc: int, outcome: Job -> int) {
    w < |s.workers| && s.workers[w].Running? && (s.threadExit || rc == outcome(s.workers[w].job))
  }

  function FinishStep(s: State, w: nat, rc: int): State
    requires w < |s.workers| && s.workers[w].Running?
  {
    s.(output := s.output + [s.workers[w].job.(returncode := rc)], workers := s.workers[w := Idle])
  }

  predicate Enabled(s: State, a: Action, outcome: Job -> int) {
    match a
    case Dispatch => CanDispatch(s)
    case PutPill => CanPutPill(s)
    case Collect => CanCollect(s)
    case Join => CanJoin(s)
    case Take(w) => CanTake(s, w)
    case Check(w) => CanCheck(s, w)
    case Finish(w, rc) => CanFinish(s, w, rc, outcome)
    case Interrupt => !s.threadExit
  }

  function Apply(s: State, a: Action, outcome: Job -> int): State
    requires Enabled(s, a, outcome)
  {
    match a
    case Dispatch => DispatchStep(s)
    case PutPill => PutPillStep(s)
    case Collect => CollectStep(s)
    case Join => JoinStep(s)
    case Take(w) => TakeStep(s, w)
    case Check(w) => CheckStep(s, w)
    case Finish(w, rc) => FinishStep(s, w, rc)
    case Interrupt => s.(threadExit := true)
  }

  /** A run: the states visited and the actions between them. */
  ghost predicate IsRun(ss: seq<State>, acts: seq<Action>, outcome: Job -> int) {
    && |ss| == |acts| + 1
    && forall i | 0 <= i < |acts| ::
         Enabled(ss[i], acts[i], outcome) && ss[i + 1] == Apply(ss[i], acts[i], outcome)
  }

  // ---------------------------------------------------------------------------------------
  // The invariant
  // ---------------------------------------------------------------------------------------

  /** The jobs waiting in the input queue, pills left out. */
  function Reals(q: seq<Job>): seq<Job> {
    if q == [] then [] else if q[0].isBreak then Reals(q[1..]) else [q[0]] + Reals(q[1..])
  }

  function Pills(q: seq<Job>): nat {
    if q == [] then 0 else (if q[0].isBreak then 1 else 0) + Pills(q[1..])
  }

  function HeldBy(w: Worker): multiset<Job> {
    match w
    case Got(j) => multiset{j}
    case Running(j) => multiset{j}
    case _ => multiset{}
  }

  function Held(ws: seq<Worker>): multiset<Job> {
    if ws == [] then multiset{} else HeldBy(ws[0]) + Held(ws[1..])
  }

  function Live(ws: seq<Worker>): nat {
    if ws == [] then 0 else (if ws[0] == Exited then 0 else 1) + Live(ws[1..])
  }

  function Weight(w: Worker): nat {
    match w case Got(_) => 3 case Running(_) => 2 case _ => 0
  }

  function Weights(ws: seq<Worker>): nat {
    if ws == [] then 0 else Weight(ws[0]) + Weights(ws[1..])
  }

  /** The job as it was dispatched. */
  function Orig(j: Job): Job {
    j.(isBreak := false, returncode := 0)
  }

  function Origs(js: seq<Job>): (r: seq<Job>)
    ensures |r| == |js|
    ensures forall i | 0 <= i < |js| :: r[i] == Orig(js[i])
  {
    seq(|js|, i requires 0 <= i < |js| => Orig(js[i]))
  }

  /** What a worker hands back for a job when nothing interrupts it. */
  function Completed(j: Job, outcome: Job -> int): Job {
    if j.isSkip then j else j.(returncode := outcome(j))
  }

  function Completer(outcome: Job -> int): Job -> seq<Job> {
    j => [Completed(j, outcome)]
  }

  /** The sequential reference: every job run in dispatch order. */
  function CompletedAll(js: seq<Job>, outcome: Job -> int): seq<Job> {
    FlatMap(Completer(outcome), js)
  }

  ghost predicate Fresh(j: Job) { Orig(j) == j }

  ghost predicate Settled(j: Job, interrupted: bool, outcome: Job -> int) {
    !interrupted ==> j == Completed(Orig(j), outcome)
  }

  /** Every dispatched job is in exactly one place. */
  ghost predicate Conserved(s: State, all: seq<Job>) {
    && s.jobs == s.totalTests <= |all|
    && s.todo == all[s.jobs..]
    && Places(s) == multiset(all[..s.jobs])
  }

  /** Where dispatched jobs can be: queued, held by a worker, handed back, or collected. */
  ghost function Places(s: State): multiset<Job> {
    multiset(Reals(s.input)) + Held(s.workers) + multiset(Origs(s.output)) + multiset(Origs(s.collected))
  }

  /** Pills come after all jobs, and live workers match the pills still to be taken. */
  ghost predicate PillProtocol(s: State) {
    && (forall i, j | 0 <= i < j < |s.input| :: s.input[i].isBreak ==> s.input[j].isBreak)
    && Live(s.workers) == Pills(s.input) + s.pillsLeft
    && (s.todo != [] ==> Live(s.workers) == s.pillsLeft == |s.workers|)
    && (Live(s.workers) < |s.workers| ==> s.todo == [] && Reals(s.input) == [])
  }

  ghost predicate Results(s: State, outcome: Job -> int) {
    && (forall j | j in s.input && !j.isBreak :: Fresh(j))
    && (forall w | 0 <= w < |s.workers| && s.workers[w].Got? :: Fresh(s.workers[w].job))
    && (forall w | 0 <= w < |s.workers| && s.workers[w].Running? ::
          Fresh(s.workers[w].job) && !s.workers[w].job.isSkip)
    && (forall j | j in s.output :: Settled(j, s.threadExit, outcome))
    && (forall j | j in s.collected :: Settled(j, s.threadExit, outcome))
    && s.tally == TallyAll(s.collected)
  }

  ghost predicate MainOrder(s: State) {
    && (s.collected != [] || s.joined > 0 ==> s.todo == [] && s.pillsLeft == 0)
    && (s.joined > 0 ==> |s.collected| == s.jobs)
    && s.joined <= |s.workers|
    && forall w | 0 <= w < s.joined :: s.workers[w] == Exited
  }

  ghost predicate Inv(s: State, all: seq<Job>, processors: nat, outcome: Job -> int) {
    && |s.workers| == processors
    && (forall j | j in all :: Fresh(j))
    && Conserved(s, all) && PillProtocol(s) && Results(s, outcome) && MainOrder(s)
  }

  // Facts about the summaries above.

  lemma {:induction false} UpdateHeld(ws: seq<Worker>, w: nat, x: Worker)
    requires w < |ws|
    ensures Held(ws[w := x]) + HeldBy(ws[w]) == Held(ws) + HeldBy(x)
  {
    var rest := ws[1..];
    if w == 0 {
      assert ws[0 := x][1..] == rest;
    } else {
      assert ws[w := x][1..] == rest[w - 1 := x];
      UpdateHeld(rest, w - 1, x);
      AddFront(HeldBy(ws[0]), Held(rest[w - 1 := x]), HeldBy(ws[w]), Held(rest), HeldBy(x));
    }
  }

  lemma AddFront<T>(h: multiset<T>, a: multiset<T>, b: multiset<T>, c: multiset<T>, d: multiset<T>)
    requires a + b == c + d
    ensures (h + a) + b == (h + c) + d
  {
    assert (h + a) + b == h + (a + b);
    assert (h + c) + d == h + (c + d);
  }

  lemma Cancel<T>(a: multiset<T>, b: multiset<T>, x: multiset<T>)
    requires a + x == b + x
    ensures a == b
  {
    assert a == (a + x) - x;
    assert b == (b + x) - x;
  }

  lemma SameHeld(ws: seq<Worker>, w: nat, x: Worker)
    requires w < |ws| && HeldBy(x) == HeldBy(ws[w])
    ensures Held(ws[w := x]) == Held(ws)
  {
    UpdateHeld(ws, w, x);
    Cancel(Held(ws[w := x]), Held(ws), HeldBy(x));
  }

  lemma {:induction false} UpdateCounts(ws: seq<Worker>, w: nat, x: Worker)
    requires w < |ws|
    ensures Live(ws[w := x]) + (if ws[w] == Exited then 0 else 1) == Live(ws) + (if x == Exited then 0 else 1)
    ensures Weights(ws[w := x]) + Weight(ws[w]) == Weights(ws) + Weight(x)
  {
    var rest := ws[1..];
    if w == 0 {
      assert ws[0 := x][1..] == rest;
    } else {
      assert ws[w := x][1..] == rest[w - 1 := x];
      UpdateCounts(rest, w - 1, x);
    }
  }

  lemma {:induction false} ExitedNotLive(ws: seq<Worker>, w: nat)
    requires w < |ws| && ws[w] == Exited
    ensures Live(ws) < |ws|
  {
    LiveBound(ws[1..]);
    if w > 0 { ExitedNotLive(ws[1..], w - 1); }
  }

  lemma {:induction false} LiveBound(ws: seq<Worker>)
    ensures Live(ws) <= |ws|
  {
    if ws != [] { LiveBound(ws[1..]); }
  }

  lemma {:induction false} Append(q: seq<Job>, j: Job)
    ensures Reals(q + [j]) == Reals(q) + (if j.isBreak then [] else [j])
    ensures Pills(q + [j]) == Pills(q) + (if j.isBreak then 1 else 0)
  {
    if q == [] {
      assert [j][1..] == [];
    } else {
      assert (q + [j])[1..] == q[1..] + [j];
      Append(q[1..], j);
    }
  }

  lemma {:induction false} RealsIn(q: seq<Job>)
    ensures |Reals(q)| + Pills(q) == |q|
    ensures forall j | j in Reals(q) :: j in q && !j.isBreak
    ensures (forall j | j in q :: j.isBreak) ==> Reals(q) == []
  {
    if q != [] { RealsIn(q[1..]); }
  }

  lemma {:induction false} AllIdle(n: nat)
    ensures Held(seq(n, _ => Idle)) == multiset{}
    ensures Live(seq(n, _ => Idle)) == n
    ensures Weights(seq(n, _ => Idle)) == 0
  {
    if n > 0 {
      var ws := seq(n, _ => Idle);
      assert ws[1..] == seq(n - 1, _ => Idle);
      AllIdle(n - 1);
    }
  }

  lemma InitInv(all: seq<Job>, processors: nat, outcome: Job -> int)
    requires forall j | j in all :: Fresh(j)
    ensures Inv(Init(all, processors), all, processors, outcome)
  {
    AllIdle(processors);
  }

  // One lemma per kind of step. Conservation first: every step moves at most one job.

  lemma MoveOne<T>(a: multiset<T>, a': multiset<T>, b: multiset<T>, b': multiset<T>, x: multiset<T>)
    requires a == a' + x && b' == b + x
    ensures a + b == a' + b'
  {
  }

  lemma OrigsAppend(js: seq<Job>, j: Job)
    ensures multiset(Origs(js + [j])) == multiset(Origs(js)) + multiset{Orig(j)}
  {
    assert Origs(js + [j]) == Origs(js) + [Orig(j)];
  }

  lemma DispatchConserves(s: State, all: seq<Job>)
    requires Conserved(s, all) && CanDispatch(s) && Fresh(s.todo[0])
    ensures Conserved(DispatchStep(s), all)
  {
    var j := s.todo[0];
    assert j == all[s.jobs] && all[..s.jobs + 1] == all[..s.jobs] + [j] && all[s.jobs..][1..] == all[s.jobs + 1..];
    Append(s.input, j);
    hide Reals, Held, Origs;
    AddFirst(Reals(s.input), j, Held(s.workers), multiset(Origs(s.output)), multiset(Origs(s.collected)));
  }

  lemma AddFirst<T>(q: seq<T>, x: T, b: multiset<T>, c: multiset<T>, d: multiset<T>)
    ensures multiset(q + [x]) + b + c + d == (multiset(q) + b + c + d) + multiset{x}
  {
  }

  lemma TakeMoves(q: seq<Job>, ws: seq<Worker>, w: nat)
    requires q != [] && w < |ws| && ws[w] == Idle
    ensures var x := if q[0].isBreak then Exited else Got(q[0]);
            multiset(Reals(q)) + Held(ws) == multiset(Reals(q[1..])) + Held(ws[w := x])
  {
    var j := q[0];
    var rest := Reals(q[1..]);
    if j.isBreak {
      SameHeld(ws, w, Exited);
    } else {
      UpdateHeld(ws, w, Got(j));
      assert Held(ws[w := Got(j)]) == Held(ws) + multiset{j};
      assert multiset([j] + rest) == multiset(rest) + multiset{j};
      MoveOne(multiset([j] + rest), multiset(rest), Held(ws), Held(ws[w := Got(j)]), multiset{j});
    }
  }

  lemma TakeConserves(s: State, w: nat, all: seq<Job>)
    requires Conserved(s, all) && CanTake(s, w)
    ensures Conserved(TakeStep(s, w), all)
  {
    TakeMoves(s.input, s.workers, w);
  }

  lemma HandBackConserves(s: State, s': State, w: nat, j: Job, all: seq<Job>)
    requires Conserved(s, all) && w < |s.workers| && HeldBy(s.workers[w]) == multiset{Orig(j)}
    requires s' == s.(output := s.output + [j], workers := s.workers[w := Idle])
    ensures Conserved(s', all)
  {
    UpdateHeld(s.workers, w, Idle);
    OrigsAppend(s.output, j);
    var (h, h') := (Held(s.workers), Held(s'.workers));
    var (o, o') := (multiset(Origs(s.output)), multiset(Origs(s'.output)));
    MoveOne(h, h', o, o', multiset{Orig(j)});
    var (r, c) := (multiset(Reals(s.input)), multiset(Origs(s.collected)));
    Regroup(r, h, o, c);
    Regroup(r, h', o', c);
  }

  lemma Regroup<T>(a: multiset<T>, b: multiset<T>, c: multiset<T>, d: multiset<T>)
    ensures a + b + c + d == a + (b + c) + d
  {
  }

  lemma CollectConserves(s: State, all: seq<Job>)
    requires Conserved(s, all) && CanCollect(s)
    ensures Conserved(CollectStep(s), all)
  {
    var s' := CollectStep(s);
    var j := s.output[0];
    assert Origs(s.output) == [Orig(j)] + Origs(s'.output);
    OrigsAppend(s.collected, j);
    MoveOne(multiset(Origs(s.output)), multiset(Origs(s'.output)),
            multiset(Origs(s.collected)), multiset(Origs(s'.collected)), multiset{Orig(j)});
  }

  // The rest of the invariant.

  lemma {:induction false} NoPills(q: seq<Job>)
    requires Pills(q) == 0
    ensures forall j | j in q :: !j.isBreak
  {
    if q != [] { NoPills(q[1..]); }
  }

  lemma DispatchProtocol(s: State)
    requires PillProtocol(s) && CanDispatch(s) && !s.todo[0].isBreak
    ensures PillProtocol(DispatchStep(s))
  {
    Append(s.input, s.todo[0]);
    NoPills(s.input);
  }

  lemma DispatchResults(s: State, outcome: Job -> int)
    requires Results(s, outcome) && CanDispatch(s) && Fresh(s.todo[0])
    ensures Results(DispatchStep(s), outcome)
  {
    hide TallyAll, Settled;
  }

  lemma DispatchKeeps(s: State, all: seq<Job>, n: nat, outcome: Job -> int)
    requires Inv(s, all, n, outcome) && CanDispatch(s)
    ensures Inv(DispatchStep(s), all, n, outcome)
  {
    NextIsFresh(s, all);
    hide Conserved, PillProtocol, Results, Fresh;
    DispatchConserves(s, all);
    DispatchProtocol(s);
    DispatchResults(s, outcome);
  }

  lemma NextIsFresh(s: State, all: seq<Job>)
    requires Conserved(s, all) && CanDispatch(s) && forall j | j in all :: Fresh(j)
    ensures Fresh(s.todo[0]) && !s.todo[0].isBreak
  {
    assert s.todo[0] in all;
  }

  lemma PutPillProtocol(s: State)
    requires PillProtocol(s) && CanPutPill(s)
    ensures PillProtocol(PutPillStep(s))
  {
    Append(s.input, PILL);
  }

  lemma PutPillConserves(s: State, all: seq<Job>)
    requires Conserved(s, all) && CanPutPill(s)
    ensures Conserved(PutPillStep(s), all)
  {
    Append(s.input, PILL);
  }

  lemma PutPillResults(s: State, outcome: Job -> int)
    requires Results(s, outcome) && CanPutPill(s)
    ensures Results(PutPillStep(s), outcome)
  {
  }

  lemma PutPillKeeps(s: State, all: seq<Job>, n: nat, outcome: Job -> int)
    requires Inv(s, all, n, outcome) && CanPutPill(s)
    ensures Inv(PutPillStep(s), all, n, outcome)
  {
    hide Conserved, PillProtocol, Results, Fresh;
    PutPillConserves(s, all);
    PutPillProtocol(s);
    PutPillResults(s, outcome);
  }

  lemma TakeProtocol(s: State, w: nat)
    requires PillProtocol(s) && CanTake(s, w)
    ensures PillProtocol(TakeStep(s, w))
  {
    var s' := TakeStep(s, w);
    UpdateCounts(s.workers, w, s'.workers[w]);
    LiveBound(s'.workers);
    RealsIn(s'.input);
    if s.input[0].isBreak {
      assert forall i | 0 <= i < |s'.input| :: s'.input[i] == s.input[i + 1];
      assert Pills(s.input) > 0;
    }
  }

  lemma TakeResults(s: State, w: nat, outcome: Job -> int)
    requires Results(s, outcome) && CanTake(s, w)
    ensures Results(TakeStep(s, w), outcome)
  {
    assert s.input[0] in s.input;
  }

  lemma TakeKeeps(s: State, w: nat, all: seq<Job>, n: nat, outcome: Job -> int)
    requires Inv(s, all, n, outcome) && CanTake(s, w)
    ensures Inv(TakeStep(s, w), all, n, outcome)
  {
    hide Conserved, PillProtocol, Results, Settled, Fresh;
    TakeConserves(s, w, all);
    TakeProtocol(s, w);
    TakeResults(s, w, outcome);
  }

  /** A worker that stays alive leaves the queue protocol alone. */
  lemma WorkerStepProtocol(s: State, s': State, w: nat)
    requires PillProtocol(s) && w < |s.workers| == |s'.workers| && s.workers[w] != Exited
    requires s'.workers[w] != Exited && s'.workers == s.workers[w := s'.workers[w]]
    requires s'.todo == s.todo && s'.input == s.input && s'.pillsLeft == s.pillsLeft
    ensures PillProtocol(s')
  {
    UpdateCounts(s.workers, w, s'.workers[w]);
  }

  lemma HandBackResults(s: State, s': State, w: nat, j: Job, outcome: Job -> int)
    requires Results(s, outcome) && w < |s.workers| && Settled(j, s.threadExit, outcome)
    requires s' == s.(output := s.output + [j], workers := s.workers[w := Idle])
    ensures Results(s', outcome)
  {
  }

  /** A worker hands back the job it holds, with its break flag or its return code set. */
  lemma HandBackKeeps(s: State, s': State, w: nat, j: Job, all: seq<Job>, n: nat, outcome: Job -> int)
    requires Inv(s, all, n, outcome) && w < |s.workers| && Settled(j, s.threadExit, outcome)
    requires s.workers[w] == Got(Orig(j)) || s.workers[w] == Running(Orig(j))
    requires s' == s.(output := s.output + [j], workers := s.workers[w := Idle])
    ensures Inv(s', all, n, outcome)
  {
    hide Conserved, PillProtocol, Results, Settled, Fresh;
    HandBackConserves(s, s', w, j, all);
    WorkerStepProtocol(s, s', w);
    HandBackResults(s, s', w, j, outcome);
    assert MainOrder(s');
  }

  lemma StartConserves(s: State, s': State, w: nat, all: seq<Job>)
    requires Conserved(s, all) && w < |s.workers| && s.workers[w].Got?
    requires s' == s.(workers := s.workers[w := Running(s.workers[w].job)])
    ensures Conserved(s', all)
  {
    SameHeld(s.workers, w, s'.workers[w]);
  }

  lemma StartResults(s: State, s': State, w: nat, outcome: Job -> int)
    requires Results(s, outcome) && w < |s.workers| && s.workers[w].Got? && !s.workers[w].job.isSkip
    requires s' == s.(workers := s.workers[w := Running(s.workers[w].job)])
    ensures Results(s', outcome)
  {
  }

  lemma StartKeeps(s: State, s': State, w: nat, all: seq<Job>, n: nat, outcome: Job -> int)
    requires Inv(s, all, n, outcome) && w < |s.workers| && s.workers[w].Got? && !s.workers[w].job.isSkip
    requires s' == s.(workers := s.workers[w := Running(s.workers[w].job)])
    ensures Inv(s', all, n, outcome)
  {
    hide Conserved, PillProtocol, Results, Fresh;
    StartConserves(s, s', w, all);
    WorkerStepProtocol(s, s', w);
    StartResults(s, s', w, outcome);
  }

  lemma CheckKeeps(s: State, w: nat, all: seq<Job>, n: nat, outcome: Job -> int)
    requires Inv(s, all, n, outcome) && CanCheck(s, w)
    ensures Inv(CheckStep(s, w), all, n, outcome)
  {
    var s' := CheckStep(s, w);
    var j := s.workers[w].job;
    if s.threadExit {
      HandBackKeeps(s, s', w, j.(isBreak := true), all, n, outcome);
    } else if j.isSkip {
      HandBackKeeps(s, s', w, j, all, n, outcome);
    } else {
      StartKeeps(s, s', w, all, n, outcome);
    }
  }

  lemma FinishKeeps(s: State, w: nat, rc: int, all: seq<Job>, n: nat, outcome: Job -> int)
    requires Inv(s, all, n, outcome) && CanFinish(s, w, rc, outcome)
    ensures Inv(FinishStep(s, w, rc), all, n, outcome)
  {
    HandBackKeeps(s, FinishStep(s, w, rc), w, s.workers[w].job.(returncode := rc), all, n, outcome);
  }

  lemma CollectResults(s: State, outcome: Job -> int)
    requires Results(s, outcome) && CanCollect(s)
    ensures Results(CollectStep(s), outcome)
  {
    var s' := CollectStep(s);
    assert s'.collected[..|s'.collected| - 1] == s.collected;
    assert s.output[0] in s.output;
  }

  lemma CollectKeeps(s: State, all: seq<Job>, n: nat, outcome: Job -> int)
    requires Inv(s, all, n, outcome) && CanCollect(s)
    ensures Inv(CollectStep(s), all, n, outcome)
  {
    CollectConserves(s, all);
    CollectResults(s, outcome);
  }

  lemma JoinKeeps(s: State, all: seq<Job>, n: nat, outcome: Job -> int)
    requires Inv(s, all, n, outcome) && CanJoin(s)
    ensures Inv(JoinStep(s), all, n, outcome)
  {
    hide Reals, Held, Origs, Live, Pills, TallyAll, Fresh, Settled;
  }

  lemma InterruptKeeps(s: State, all: seq<Job>, n: nat, outcome: Job -> int)
    requires Inv(s, all, n, outcome) && Enabled(s, Interrupt, outcome)
    ensures Inv(Apply(s, Interrupt, outcome), all, n, outcome)
  {
  }

  /** Every step keeps the invariant. */
  lemma StepKeeps(s: State, a: Action, all: seq<Job>, n: nat, outcome: Job -> int)
    requires Inv(s, all, n, outcome) && Enabled(s, a, outcome)
    ensures Inv(Apply(s, a, outcome), all, n, outcome)
  {
    match a {
      case Dispatch => DispatchKeeps(s, all, n, outcome);
      case PutPill => PutPillKeeps(s, all, n, outcome);
      case Collect => CollectKeeps(s, all, n, outcome);
      case Join => JoinKeeps(s, all, n, outcome);
      case Take(w) => TakeKeeps(s, w, all, n, outcome);
      case Check(w) => CheckKeeps(s, w, all, n, outcome);
      case Finish(w, rc) => FinishKeeps(s, w, rc, all, n, outcome);
      case Interrupt => InterruptKeeps(s, all, n, outcome);
    }
  }

  // ---------------------------------------------------------------------------------------
  // Progress
  // ---------------------------------------------------------------------------------------

  function Measure(s: State): int {
    5 * |s.todo| + 2 * s.pillsLeft + 4 * |Reals(s.input)| + Pills(s.input) + Weights(s.workers)
    + |s.output| + (|s.workers| - s.joined) + (if s.threadExit then 0 else 1)
  }

  lemma DispatchDecreases(s: State, all: seq<Job>, n: nat, outcome: Job -> int)
    requires Inv(s, all, n, outcome) && CanDispatch(s)
    ensures Measure(DispatchStep(s)) < Measure(s)
  {
    var j := s.todo[0];
    assert j in all && Fresh(j);
    Append(s.input, j);
  }

  lemma WorkerDecreases(s: State, a: Action, outcome: Job -> int)
    requires Enabled(s, a, outcome) && (a.Take? || a.Check? || a.Finish?)
    ensures Measure(Apply(s, a, outcome)) < Measure(s)
  {
    UpdateCounts(s.workers, a.w, Apply(s, a, outcome).workers[a.w]);
  }

  lemma StepDecreases(s: State, a: Action, all: seq<Job>, n: nat, outcome: Job -> int)
    requires Inv(s, all, n, outcome) && Enabled(s, a, outcome)
    ensures Measure(Apply(s, a, outcome)) < Measure(s)
  {
    match a {
      case Dispatch => DispatchDecreases(s, all, n, outcome);
      case PutPill => Append(s.input, PILL);
      case Take(w) => WorkerDecreases(s, a, outcome);
      case Check(w) => WorkerDecreases(s, a, outcome);
      case Finish(w, _) => WorkerDecreases(s, a, outcome);
      case _ =>
    }
  }

  lemma Sizes(s: State, all: seq<Job>)
    requires Conserved(s, all)
    ensures |Reals(s.input)| + |Held(s.workers)| + |s.output| + |s.collected| == s.jobs
  {
    assert |Places(s)| == |Reals(s.input)| + |Held(s.workers)| + |s.output| + |s.collected|;
  }

  lemma {:induction false} AllExited(ws: seq<Worker>)
    requires forall w | 0 <= w < |ws| :: ws[w] == Exited
    ensures Live(ws) == 0 && Held(ws) == multiset{}
  {
    if ws != [] { AllExited(ws[1..]); }
  }

  lemma {:induction false} SomeLive(ws: seq<Worker>, w: nat)
    requires w < |ws| && ws[w] != Exited
    ensures Live(ws) > 0
  {
    if w > 0 { SomeLive(ws[1..], w - 1); }
  }

  /** With a worker in the pool there is no deadlock: until everything is joined, some step other
      than an interrupt can be taken. */
  lemma Progress(s: State, all: seq<Job>, n: nat, outcome: Job -> int) returns (a: Action)
    requires Inv(s, all, n, outcome) && n > 0 && !Done(s)
    ensures a != Interrupt && Enabled(s, a, outcome)
  {
    if s.todo != [] { return Dispatch; }
    if s.pillsLeft > 0 { return PutPill; }
    if w: nat :| w < n && s.workers[w].Got? { return Check(w); }
    if w: nat :| w < n && s.workers[w].Running? { return Finish(w, outcome(s.workers[w].job)); }
    if w: nat :| w < n && s.workers[w] == Idle {
      SomeLive(s.workers, w);
      return Take(w);
    }
    AllExited(s.workers);
    Sizes(s, all);
    RealsIn(s.input);
    return if |s.collected| < s.jobs then Collect else Join;
  }

  lemma {:induction false} RunInvariant(ss: seq<State>, acts: seq<Action>, all: seq<Job>, n: nat,
            outcome: Job -> int, k: nat)
    requires IsRun(ss, acts, outcome) && ss[0] == Init(all, n) && k < |ss|
    requires forall j | j in all :: Fresh(j)
    ensures Inv(ss[k], all, n, outcome)
    ensures Measure(ss[k]) <= 5 * |all| + 3 * n + 1 - k
  {
    if k == 0 {
      InitInv(all, n, outcome);
      AllIdle(n);
    } else {
      RunInvariant(ss, acts, all, n, outcome, k - 1);
      StepKeeps(ss[k - 1], acts[k - 1], all, n, outcome);
      StepDecreases(ss[k - 1], acts[k - 1], all, n, outcome);
    }
  }

  /** Every run is short, and one that can go no further (interrupts aside) has collected every job
      and joined every thread. */
  lemma RunsFinish(ss: seq<State>, acts: seq<Action>, all: seq<Job>, n: nat, outcome: Job -> int)
    requires IsRun(ss, acts, outcome) && ss[0] == Init(all, n) && n > 0
    requires forall j | j in all :: Fresh(j)
    ensures |acts| <= 5 * |all| + 3 * n + 1
    ensures (forall a | Enabled(ss[|acts|], a, outcome) :: a == Interrupt) ==> Done(ss[|acts|])
  {
    RunInvariant(ss, acts, all, n, outcome, |acts|);
    assert Measure(ss[|acts|]) >= 0;
    if !Done(ss[|acts|]) {
      var a := Progress(ss[|acts|], all, n, outcome);
    }
  }

  /** Once the flag is up no worker starts another job: whatever still runs later was running then. */
  lemma {:induction false} InterruptStopsWork(ss: seq<State>, acts: seq<Action>, outcome: Job -> int, k: nat,
            m: nat, w: nat)
    requires IsRun(ss, acts, outcome) && k <= m < |ss| && ss[k].threadExit
    ensures ss[m].threadExit && |ss[m].workers| == |ss[k].workers|
    ensures w < |ss[m].workers| && ss[m].workers[w].Running? ==> ss[m].workers[w] == ss[k].workers[w]
    decreases m
  {
    if k < m {
      InterruptStopsWork(ss, acts, outcome, k, m - 1, w);
      assert ss[m] == Apply(ss[m - 1], acts[m - 1], outcome);
    }
  }

  /** Everything handed back so far, in the order in which it was. */
  function Delivered(s: State): seq<Job> { s.collected + s.output }

  /** `x` is the result of a command that is running in `s`. */
  ghost predicate RunsIn(s: State, x: Job) {
    exists w | 0 <= w < |s.workers| :: s.workers[w].Running? && x == s.workers[w].job.(returncode := x.returncode)
  }

  lemma DeliversOne(s: State, a: Action, outcome: Job -> int)
    requires Enabled(s, a, outcome)
    ensures var (before, after) := (Delivered(s), Delivered(Apply(s, a, outcome)));
            before <= after && |after| <= |before| + 1
            && (s.threadExit && |after| > |before| ==>
                after[|before|].isBreak || (a.Finish? && after[|before|] == s.workers[a.w].job.(returncode := a.rc)))
  {
    var (before, after) := (Delivered(s), Delivered(Apply(s, a, outcome)));
    if a == Collect {
      assert s.output == [s.output[0]] + s.output[1..];
      assert after == before;
    }
  }

  /** From index `n` on, everything delivered is flagged or comes from a command running in `s`. */
  ghost predicate FlaggedFrom(s: State, n: nat, delivered: seq<Job>) {
    forall i | n <= i < |delivered| :: delivered[i].isBreak || RunsIn(s, delivered[i])
  }

  lemma FlaggedOneMore(s: State, n: nat, before: seq<Job>, after: seq<Job>)
    requires n <= |before| && before <= after && |after| <= |before| + 1 && FlaggedFrom(s, n, before)
    requires |after| > |before| ==> after[|before|].isBreak || RunsIn(s, after[|before|])
    ensures FlaggedFrom(s, n, after)
  {
    hide RunsIn;
  }

  lemma StepAt(ss: seq<State>, acts: seq<Action>, outcome: Job -> int, i: nat)
    requires IsRun(ss, acts, outcome) && i + 1 < |ss|
    ensures i < |acts| && Enabled(ss[i], acts[i], outcome) && ss[i + 1] == Apply(ss[i], acts[i], outcome)
  {
    hide Enabled, Apply;
  }

  /** Results are collected in the order in which they are handed back, and after an interrupt whatever comes
      back is flagged as having no result, unless its command was running when the flag went up. */
  lemma {:induction false} InterruptFlagsTheRest(ss: seq<State>, acts: seq<Action>, outcome: Job -> int, k: nat, m: nat)
    requires IsRun(ss, acts, outcome) && k <= m < |ss|
    ensures Delivered(ss[k]) <= Delivered(ss[m])
    ensures ss[k].threadExit ==> FlaggedFrom(ss[k], |Delivered(ss[k])|, Delivered(ss[m]))
    decreases m
  {
    hide Delivered, Apply, Enabled, RunsIn, IsRun;
    if k < m {
      hide FlaggedFrom;
      InterruptFlagsTheRest(ss, acts, outcome, k, m - 1);
      StepAt(ss, acts, outcome, m - 1);
      DeliversOne(ss[m - 1], acts[m - 1], outcome);
      if ss[k].threadExit {
        InterruptStopsWork(ss, acts, outcome, k, m - 1, 0);
        if acts[m - 1].Finish? { FinishedRanThen(ss, acts, outcome, k, m); }
        FlaggedOneMore(ss[k], |Delivered(ss[k])|, Delivered(ss[m - 1]), Delivered(ss[m]));
      }
    }
  }

  lemma FinishedRanThen(ss: seq<State>, acts: seq<Action>, outcome: Job -> int, k: nat, m: nat)
    requires IsRun(ss, acts, outcome) && k < m < |ss| && ss[k].threadExit && acts[m - 1].Finish?
    ensures Enabled(ss[m - 1], acts[m - 1], outcome)
    ensures RunsIn(ss[k], ss[m - 1].workers[acts[m - 1].w].job.(returncode := acts[m - 1].rc))
  {
    var w := acts[m - 1].w;
    assert Enabled(ss[m - 1], acts[m - 1], outcome);
    InterruptStopsWork(ss, acts, outcome, k, m - 1, w);
    assert ss[k].workers[w].Running?;
  }

  // ---------------------------------------------------------------------------------------
  // What a finished run reports
  // ---------------------------------------------------------------------------------------

  /** At the end every dispatched job has been collected exactly once, interrupted or not, and the
      queues are empty. */
  lemma FinishedConserves(s: State, all: seq<Job>, n: nat, outcome: Job -> int)
    requires Inv(s, all, n, outcome) && Done(s)
    ensures s.input == [] && s.output == [] && forall w | 0 <= w < n :: s.workers[w] == Exited
    ensures multiset(Origs(s.collected)) == multiset(all)
    ensures |s.collected| == |all| == s.jobs == s.totalTests && s.tally == TallyAll(s.collected)
  {
    AllExited(s.workers);
    Sizes(s, all);
    RealsIn(s.input);
    assert s.todo == all[s.jobs..] && all[..s.jobs] == all;
    assert Places(s) == multiset(Origs(s.collected));
  }

  /** The five counters and the interrupted jobs make up the total, and the result is 0 exactly when
      every job passed or was skipped without being interrupted. */
  lemma FinishedTally(s: State, all: seq<Job>, n: nat, outcome: Job -> int)
    requires Inv(s, all, n, outcome) && Done(s)
    ensures var t := s.tally;
            t.passed + t.failed + t.crashed + t.valgrind + t.skipped + |NamesOf(s.collected,
                      Interrupted)| == s.totalTests
    ensures ExitCode(s.tally, s.totalTests) == 0 <==>
            forall j | j in s.collected :: !j.isBreak && (j.isSkip || j.returncode == 0)
  {
    hide Inv, Done, TallyAll, NamesOf, Origs;
    FinishedConserves(s, all, n, outcome);
    TallyMeaning(s.collected);
    ExitCodeMeaning(s.collected);
  }

  /** What `run_tests` prints and returns: the counters, the lists after `sort`, the exit code. */
  datatype Report = Report(passed: nat, failed: nat, crashed: nat, valgrind: nat, skipped: nat, total: nat,
                           failedNames: seq<string>, crashedNames: seq<string>, valgrindNames: seq<string>,
                           skippedNames: seq<string>, code: int)

  function ReportOf(t: Tally, total: nat): Report {
    Report(t.passed, t.failed, t.crashed, t.valgrind, t.skipped, total,
           Sort(t.failedNames, StringLeq), Sort(t.crashedNames, StringLeq),
           Sort(t.valgrindNames, StringLeq), Sort(t.skippedNames, StringLeq), ExitCode(t, total))
  }

  lemma ReportPerm(a: seq<Job>, b: seq<Job>)
    requires multiset(a) == multiset(b)
    ensures ReportOf(TallyAll(a), |a|) == ReportOf(TallyAll(b), |b|)
    ensures ReportsResults(ReportOf(TallyAll(a), |a|), b)
  {
    hide NamesOf, TallyAll, Sort, ReportsResults;
    TallyMeaning(a);
    TallyMeaning(b);
    assert |multiset(a)| == |a| && |multiset(b)| == |b|;
    SameNames(a, b, Pass);
    SameNames(a, b, Fail);
    SameNames(a, b, Crash);
    SameNames(a, b, Valgrind);
    SameNames(a, b, Skip);
    ReportExact(b);
  }

  lemma SameNames(a: seq<Job>, b: seq<Job>, k: Status)
    requires multiset(a) == multiset(b)
    ensures |NamesOf(a, k)| == |NamesOf(b, k)|
    ensures Sort(NamesOf(a, k), StringLeq) == Sort(NamesOf(b, k), StringLeq)
  {
    FlatMapPerm(Picker(k), a, b);
    assert |multiset(NamesOf(a, k))| == |NamesOf(a, k)| && |multiset(NamesOf(b, k))| == |NamesOf(b, k)|;
    StringOrder();
    SortCanonical(NamesOf(a, k), NamesOf(b, k), StringLeq);
  }

  // What a report says, in terms of the jobs themselves.

  function DisplayNames(js: seq<Job>): (r: seq<string>)
    ensures |r| == |js| && forall i | 0 <= i < |js| :: r[i] == js[i].displayName
  {
    seq(|js|, i requires 0 <= i < |js| => js[i].displayName)
  }

  function SkipLabels(js: seq<Job>): (r: seq<string>)
    ensures |r| == |js| && forall i | 0 <= i < |js| :: r[i] == js[i].displayName + " (" + js[i].skipReason + ")"
  {
    seq(|js|, i requires 0 <= i < |js| => js[i].displayName + " (" + js[i].skipReason + ")")
  }

  /** `names` are in text order and hold, each as often as it occurs, the labels at the places `which`. */
  ghost predicate Lists(names: seq<string>, labels: seq<string>, which: set<nat>) {
    && (forall i, j | 0 <= i < j < |names| :: InTextOrder(names[i], names[j]))
    && forall x :: multiset(names)[x] == |set i: nat | i in which && i < |labels| && labels[i] == x|
  }

  /** The places of the results, interrupted and skipped jobs aside, with a return code. */
  ghost function Returned(js: seq<Job>, rc: int): (r: set<nat>)
    ensures forall i :: i in r <==> 0 <= i < |js| && !js[i].isBreak && !js[i].isSkip && js[i].returncode == rc
  {
    set i: nat | i < |js| && !js[i].isBreak && !js[i].isSkip && js[i].returncode == rc
  }

  /** Those whose return code is none of the three known ones. */
  ghost function ReturnedOther(js: seq<Job>): (r: set<nat>)
    ensures forall i :: i in r <==> 0 <= i < |js| && !js[i].isBreak && !js[i].isSkip
                                    && js[i].returncode != 0 && js[i].returncode != 1 && js[i].returncode != 2
  {
    set i: nat | i < |js| && !js[i].isBreak && !js[i].isSkip
                 && js[i].returncode != 0 && js[i].returncode != 1 && js[i].returncode != 2
  }

  ghost function LeftOut(js: seq<Job>): (r: set<nat>)
    ensures forall i :: i in r <==> 0 <= i < |js| && !js[i].isBreak && js[i].isSkip
  {
    set i: nat | i < |js| && !js[i].isBreak && js[i].isSkip
  }

  /** The report on a list of results: everything by the flags and return codes of the jobs in it. */
  ghost predicate ReportsResults(r: Report, js: seq<Job>) {
    && r.total == |js|
    && r.passed == |Returned(js, 0)|
    && r.failed == |Returned(js, 1)| && Lists(r.failedNames, DisplayNames(js), Returned(js, 1))
    && r.valgrind == |Returned(js, 2)| && Lists(r.valgrindNames, DisplayNames(js), Returned(js, 2))
    && r.crashed == |ReturnedOther(js)| && Lists(r.crashedNames, DisplayNames(js), ReturnedOther(js))
    && r.skipped == |LeftOut(js)| && Lists(r.skippedNames, SkipLabels(js), LeftOut(js))
    && r.code == if forall j | j in js :: !j.isBreak && (j.isSkip || j.returncode == 0) then 0 else 1
  }

  /** The places of the jobs that are not skipped and return `rc`. */
  ghost function Returns(all: seq<Job>, outcome: Job -> int, rc: int): (r: set<nat>)
    ensures forall i :: i in r <==> 0 <= i < |all| && !all[i].isSkip && outcome(all[i]) == rc
  {
    set i: nat | i < |all| && !all[i].isSkip && outcome(all[i]) == rc
  }

  ghost function ReturnsOther(all: seq<Job>, outcome: Job -> int): (r: set<nat>)
    ensures forall i :: i in r <==> 0 <= i < |all| && !all[i].isSkip
                                    && outcome(all[i]) != 0 && outcome(all[i]) != 1 && outcome(all[i]) != 2
  {
    set i: nat | i < |all| && !all[i].isSkip && outcome(all[i]) != 0 && outcome(all[i]) != 1 && outcome(all[i]) != 2
  }

  ghost function Skipped(all: seq<Job>): (r: set<nat>)
    ensures forall i :: i in r <==> 0 <= i < |all| && all[i].isSkip
  {
    set i: nat | i < |all| && all[i].isSkip
  }

  /** The report on an uninterrupted run of `all`: everything by the skip flags and by what the jobs return. */
  ghost predicate Reports(r: Report, all: seq<Job>, outcome: Job -> int) {
    && r.total == |all|
    && r.passed == |Returns(all, outcome, 0)|
    && r.failed == |Returns(all, outcome, 1)| && Lists(r.failedNames, DisplayNames(all), Returns(all, outcome, 1))
    && r.valgrind == |Returns(all, outcome, 2)|
    && Lists(r.valgrindNames, DisplayNames(all), Returns(all, outcome, 2))
    && r.crashed == |ReturnsOther(all, outcome)|
    && Lists(r.crashedNames, DisplayNames(all), ReturnsOther(all, outcome))
    && r.skipped == |Skipped(all)| && Lists(r.skippedNames, SkipLabels(all), Skipped(all))
    && r.code == if forall j | j in all :: j.isSkip || outcome(j) == 0 then 0 else 1
  }

  function HasStatus(k: Status): Job -> bool { j => StatusOf(j) == k }

  function HasLabel(k: Status, x: string): Job -> bool { j => StatusOf(j) == k && Label(j) == x }

  /** The places of the jobs with a status. */
  ghost function PlacesOf(js: seq<Job>, k: Status): set<nat> { Where(js, HasStatus(k)) }

  lemma NamesCount(js: seq<Job>, k: Status, x: string)
    ensures |NamesOf(js, k)| == |PlacesOf(js, k)|
    ensures multiset(NamesOf(js, k))[x] == |Where(js, HasLabel(k, x))|
  {
    hide StatusOf, Label, FlatMap, Where;
    FlatMapCounts(Picker(k), js, HasStatus(k), Label, x, HasLabel(k, x));
  }

  lemma LabelledPlaces(js: seq<Job>, k: Status, labels: seq<string>, x: string)
    requires |labels| == |js| && forall i | 0 <= i < |js| && StatusOf(js[i]) == k :: Label(js[i]) == labels[i]
    ensures Where(js, HasLabel(k, x)) == set i: nat | i in PlacesOf(js, k) && i < |labels| && labels[i] == x
  {
    hide StatusOf, Label;
  }

  /** Sorting the labels of a status lists them. */
  lemma SortedNamesList(js: seq<Job>, k: Status, labels: seq<string>)
    requires |labels| == |js| && forall i | 0 <= i < |js| && StatusOf(js[i]) == k :: Label(js[i]) == labels[i]
    ensures Lists(Sort(NamesOf(js, k), StringLeq), labels, PlacesOf(js, k))
    ensures |NamesOf(js, k)| == |PlacesOf(js, k)|
  {
    var (names, which) := (NamesOf(js, k), PlacesOf(js, k));
    var sorted := Sort(names, StringLeq);
    StringOrder();
    SortCorrect(names, StringLeq);
    hide Sort, NamesOf, Label, InTextOrder, StringLeq, Where, StatusOf, PlacesOf;
    forall i, j | 0 <= i < j < |sorted| ensures InTextOrder(sorted[i], sorted[j]) {
      StringLeqMeaning(sorted[i], sorted[j]);
    }
    forall x ensures multiset(sorted)[x] == |set i: nat | i in which && i < |labels| && labels[i] == x| {
      NamesCount(js, k, x);
      LabelledPlaces(js, k, labels, x);
    }
    NamesCount(js, k, "");
  }

  lemma PassesCount(js: seq<Job>)
    ensures |NamesOf(js, Pass)| == |PlacesOf(js, Pass)|
  {
    NamesCount(js, Pass, "");
  }

  lemma PlainLabels(js: seq<Job>)
    ensures forall i | 0 <= i < |js| && StatusOf(js[i]) == Fail :: Label(js[i]) == DisplayNames(js)[i]
    ensures forall i | 0 <= i < |js| && StatusOf(js[i]) == Valgrind :: Label(js[i]) == DisplayNames(js)[i]
    ensures forall i | 0 <= i < |js| && StatusOf(js[i]) == Crash :: Label(js[i]) == DisplayNames(js)[i]
    ensures forall i | 0 <= i < |js| && StatusOf(js[i]) == Skip :: Label(js[i]) == SkipLabels(js)[i]
  {
  }

  /** The report made from the tally of a list of results is the report on that list. */
  lemma ReportExact(js: seq<Job>)
    ensures ReportsResults(ReportOf(TallyAll(js), |js|), js)
  {
    hide Lists, NamesOf, TallyAll, Sort, PlacesOf, StatusOf, Label, DisplayNames, SkipLabels, ExitCode;
    hide Returned, ReturnedOther, LeftOut;
    TallyMeaning(js);
    ExitCodeResults(js);
    StatusPlaces(js);
    PlainLabels(js);
    PassesCount(js);
    SortedNamesList(js, Fail, DisplayNames(js));
    SortedNamesList(js, Valgrind, DisplayNames(js));
    SortedNamesList(js, Crash, DisplayNames(js));
    SortedNamesList(js, Skip, SkipLabels(js));
  }

  lemma ExitCodeResults(js: seq<Job>)
    ensures ExitCode(TallyAll(js), |js|)
            == if forall j | j in js :: !j.isBreak && (j.isSkip || j.returncode == 0) then 0 else 1
  {
    ExitCodeMeaning(js);
    hide TallyAll;
  }

  lemma StatusPlaces(js: seq<Job>)
    ensures PlacesOf(js, Pass) == Returned(js, 0) && PlacesOf(js, Fail) == Returned(js, 1)
    ensures PlacesOf(js, Valgrind) == Returned(js, 2) && PlacesOf(js, Crash) == ReturnedOther(js)
    ensures PlacesOf(js, Skip) == LeftOut(js)
  {
  }

  lemma {:induction false} CompletedAt(js: seq<Job>, outcome: Job -> int)
    ensures |CompletedAll(js, outcome)| == |js|
    ensures forall i | 0 <= i < |js| :: CompletedAll(js, outcome)[i] == Completed(js[i], outcome)
  {
    if js != [] {
      CompletedAt(js[..|js| - 1], outcome);
    }
  }

  lemma CompletedPlaces(all: seq<Job>, outcome: Job -> int)
    requires forall j | j in all :: Fresh(j)
    ensures var js := CompletedAll(all, outcome);
            && (forall rc :: Returned(js, rc) == Returns(all, outcome, rc))
            && ReturnedOther(js) == ReturnsOther(all, outcome) && LeftOut(js) == Skipped(all)
            && DisplayNames(js) == DisplayNames(all) && SkipLabels(js) == SkipLabels(all) && |js| == |all|
            && ((forall j | j in js :: !j.isBreak && (j.isSkip || j.returncode == 0)) <==>
                forall j | j in all :: j.isSkip || outcome(j) == 0)
  {
    var js := CompletedAll(all, outcome);
    CompletedAt(all, outcome);
    hide CompletedAll, Returned, Returns, ReturnedOther, ReturnsOther, LeftOut, Skipped, DisplayNames, SkipLabels;
    forall i | 0 <= i < |all|
      ensures !js[i].isBreak && js[i].isSkip == all[i].isSkip && js[i].displayName == all[i].displayName
      ensures js[i].skipReason == all[i].skipReason && (!all[i].isSkip ==> js[i].returncode == outcome(all[i]))
    {
      assert all[i] in all && Fresh(all[i]);
    }
    hide Fresh, Completed;
    forall rc ensures Returned(js, rc) == Returns(all, outcome, rc) { }
    if forall j | j in js :: !j.isBreak && (j.isSkip || j.returncode == 0) {
      forall i | 0 <= i < |all| ensures all[i].isSkip || outcome(all[i]) == 0 { assert js[i] in js; }
    }
    if forall j | j in all :: j.isSkip || outcome(j) == 0 {
      forall i | 0 <= i < |js| ensures js[i].isSkip || js[i].returncode == 0 { assert all[i] in all; }
    }
  }

  /** The report on the results of the sequential run is the report on the run. */
  lemma SequentialReports(r: Report, all: seq<Job>, outcome: Job -> int)
    requires ReportsResults(r, CompletedAll(all, outcome)) && forall j | j in all :: Fresh(j)
    ensures Reports(r, all, outcome)
  {
    CompletedPlaces(all, outcome);
    hide CompletedAll, Lists, Fresh, Returned, Returns, ReturnedOther, ReturnsOther, LeftOut, Skipped;
    hide DisplayNames, SkipLabels;
  }

  lemma {:induction false} CollectedAsReference(js: seq<Job>, outcome: Job -> int)
    requires forall j | j in js :: j == Completed(Orig(j), outcome)
    ensures js == CompletedAll(Origs(js), outcome)
  {
    if js != [] {
      var n := |js| - 1;
      assert Origs(js)[..n] == Origs(js[..n]);
      assert js[n] in js && js == js[..n] + [js[n]];
      CollectedAsReference(js[..n], outcome);
    }
  }

  /** With no interrupt, every interleaving of any number of workers reports what running the jobs one
      after the other reports: what the skip flags and the jobs' return codes say. */
  lemma ParallelRefinesSequential(s: State, all: seq<Job>, n: nat, outcome: Job -> int)
    requires Inv(s, all, n, outcome) && Done(s) && !s.threadExit
    ensures ReportOf(s.tally, s.totalTests) == ReportOf(TallyAll(CompletedAll(all, outcome)), |all|)
    ensures Reports(ReportOf(s.tally, s.totalTests), all, outcome)
  {
    FinishedConserves(s, all, n, outcome);
    assert forall j | j in all :: Fresh(j);
    assert forall j | j in s.collected :: Settled(j, false, outcome);
    hide Inv, Done, Fresh, ReportOf, TallyAll, Reports, ReportsResults;
    CollectedAsReference(s.collected, outcome);
    FlatMapPerm(Completer(outcome), Origs(s.collected), all);
    CompletedAt(all, outcome);
    hide CompletedAll;
    ReportPerm(s.collected, CompletedAll(all, outcome));
    SequentialReports(ReportOf(s.tally, s.totalTests), all, outcome);
  }

  /** What a finished run has collected and reports. */
  lemma FinishedRun(s: State, all: seq<Job>, n: nat, outcome: Job -> int)
    requires Inv(s, all, n, outcome) && Done(s)
    ensures multiset(Origs(s.collected)) == multiset(all)
    ensures ExitCode(s.tally, s.totalTests) == 0 <==>
            forall j | j in s.collected :: !j.isBreak && (j.isSkip || j.returncode == 0)
    ensures ReportsResults(ReportOf(s.tally, s.totalTests), s.collected)
    ensures !s.threadExit ==>
              && ReportOf(s.tally, s.totalTests) == ReportOf(TallyAll(CompletedAll(all, outcome)), |all|)
              && Reports(ReportOf(s.tally, s.totalTests), all, outcome)
  {
    hide Done, Inv, TallyAll, CompletedAll, ReportOf, ReportsResults, Reports, Origs;
    FinishedConserves(s, all, n, outcome);
    FinishedTally(s, all, n, outcome);
    ReportExact(s.collected);
    if !s.threadExit { ParallelRefinesSequential(s, all, n, outcome); }
  }

  /** Every run that gets to the end, whatever the interleaving, the number of workers and the moment of an
      interrupt: each job is collected once, the report says of each result what its flags and its return code say,
      and an uninterrupted run reports what the sequential one does. */
  lemma RunReports(ss: seq<State>, acts: seq<Action>, all: seq<Job>, n: nat, outcome: Job -> int)
    requires IsRun(ss, acts, outcome) && ss[0] == Init(all, n) && Done(ss[|acts|])
    requires forall j | j in all :: Fresh(j)
    ensures var s := ss[|acts|];
            && multiset(Origs(s.collected)) == multiset(all)
            && (ExitCode(s.tally, s.totalTests) == 0 <==>
                forall j | j in s.collected :: !j.isBreak && (j.isSkip || j.returncode == 0))
            && ReportsResults(ReportOf(s.tally, s.totalTests), s.collected)
            && ((forall i | 0 <= i < |acts| :: acts[i] != Interrupt) ==>
                && ReportOf(s.tally, s.totalTests) == ReportOf(TallyAll(CompletedAll(all, outcome)), |all|)
                && Reports(ReportOf(s.tally, s.totalTests), all, outcome))
  {
    RunInvariant(ss, acts, all, n, outcome, |acts|);
    hide Inv, Done, TallyAll, CompletedAll, ReportOf, ExitCode, Origs, ReportsResults, Reports;
    FinishedRun(ss[|acts|], all, n, outcome);
    if forall i | 0 <= i < |acts| :: acts[i] != Interrupt { FlagStaysDown(ss, acts, outcome, |acts|); }
  }

  /** The jobs the workers have taken from the queue in the first `k` steps, in the order in which they were taken. */
  ghost function Taken(ss: seq<State>, acts: seq<Action>, k: nat): seq<Job>
    requires k <= |acts| && k < |ss|
  {
    if k == 0 then []
    else Taken(ss, acts, k - 1) + TakenBy(acts[k - 1], ss[k])
  }

  /** What a step takes from the queue. */
  ghost function TakenBy(a: Action, s': State): seq<Job> {
    if a.Take? && a.w < |s'.workers| && s'.workers[a.w].Got? then [s'.workers[a.w].job] else []
  }

  lemma RealsHead(q: seq<Job>)
    requires q != []
    ensures Reals(q) == (if q[0].isBreak then [] else [q[0]]) + Reals(q[1..])
  {
  }

  lemma TakenAtDispatch(s: State, all: seq<Job>, taken: seq<Job>)
    requires Conserved(s, all) && CanDispatch(s) && (forall j | j in all :: Fresh(j))
    requires taken + Reals(s.input) == all[..s.jobs]
    ensures s.jobs + 1 <= |all| && taken + Reals(DispatchStep(s).input) == all[..s.jobs + 1]
  {
    var j := s.todo[0];
    NextIsFresh(s, all);
    assert j == all[s.jobs] && s.jobs + 1 <= |all|;
    hide Conserved, Fresh, Reals;
    Append(s.input, j);
    ConcatAssociative(taken, Reals(s.input), [j]);
    assert all[..s.jobs + 1] == all[..s.jobs] + [j];
  }

  lemma TakenAtTake(s: State, w: nat, taken: seq<Job>)
    requires CanTake(s, w)
    ensures taken + TakenBy(Take(w), TakeStep(s, w)) + Reals(TakeStep(s, w).input) == taken + Reals(s.input)
  {
    hide Reals;
    RealsHead(s.input);
    assert TakenBy(Take(w), TakeStep(s, w)) == if s.input[0].isBreak then [] else [s.input[0]];
    hide TakenBy;
    ConcatAssociative(taken, TakenBy(Take(w), TakeStep(s, w)), Reals(s.input[1..]));
  }

  lemma TakenStep(s: State, a: Action, all: seq<Job>, outcome: Job -> int, taken: seq<Job>)
    requires Conserved(s, all) && (forall j | j in all :: Fresh(j))
    requires Enabled(s, a, outcome) && taken + Reals(s.input) == all[..s.jobs]
    ensures var s' := Apply(s, a, outcome);
            s'.jobs <= |all| && taken + TakenBy(a, s') + Reals(s'.input) == all[..s'.jobs]
  {
    assert s.jobs <= |all|;
    hide Conserved, Fresh, Reals, TakenBy;
    NotTaken(a, Apply(s, a, outcome));
    assert taken + [] == taken;
    if a == Dispatch {
      TakenAtDispatch(s, all, taken);
    } else if a.Take? {
      hide TakeStep;
      TakenAtTake(s, a.w, taken);
      TakeKeepsJobs(s, a.w);
    } else if a == PutPill {
      Append(s.input, PILL);
      assert Reals(s.input) + [] == Reals(s.input);
    }
  }

  lemma TakeKeepsJobs(s: State, w: nat)
    requires CanTake(s, w)
    ensures TakeStep(s, w).jobs == s.jobs
  {
  }

  lemma NotTaken(a: Action, s': State)
    ensures !a.Take? ==> TakenBy(a, s') == []
  {
  }

  lemma FirstPart<T>(t: seq<T>, r: seq<T>, all: seq<T>, n: nat)
    requires n <= |all| && t + r == all[..n]
    ensures t <= all && (r == [] && n == |all| ==> t == all)
  {
    assert all == all[..n] + all[n..];
    assert all == t + (r + all[n..]);
  }

  /** Jobs are taken in the order in which they were dispatched: those taken so far are the first of the list, and in
      the end they are the list. */
  lemma {:induction false} TakenInOrder(ss: seq<State>, acts: seq<Action>, all: seq<Job>, n: nat, outcome: Job -> int,
                                        k: nat)
    requires IsRun(ss, acts, outcome) && ss[0] == Init(all, n) && k < |ss|
    requires forall j | j in all :: Fresh(j)
    ensures Taken(ss, acts, k) <= all && (Done(ss[k]) ==> Taken(ss, acts, k) == all)
  {
    assert Reals([]) == [] && k <= |acts|;
    hide Taken, Reals, Inv, Done, IsRun, Init, Fresh, Origs, Measure;
    TakenSoFar(ss, acts, all, n, outcome, k);
    RunInvariant(ss, acts, all, n, outcome, k);
    FirstPart(Taken(ss, acts, k), Reals(ss[k].input), all, ss[k].jobs);
    if Done(ss[k]) { FinishedConserves(ss[k], all, n, outcome); }
  }

  lemma {:induction false} TakenSoFar(ss: seq<State>, acts: seq<Action>, all: seq<Job>, n: nat, outcome: Job -> int,
                                      k: nat)
    requires IsRun(ss, acts, outcome) && ss[0] == Init(all, n) && k < |ss|
    requires forall j | j in all :: Fresh(j)
    ensures ss[k].jobs <= |all| && Taken(ss, acts, k) + Reals(ss[k].input) == all[..ss[k].jobs]
  {
    assert k <= |acts|;
    hide Enabled, Apply, IsRun, Reals, Fresh, TakenBy;
    if k == 0 {
      assert Reals([]) == [] by { RealsIn([]); }
    } else {
      TakenSoFar(ss, acts, all, n, outcome, k - 1);
      RunInvariant(ss, acts, all, n, outcome, k - 1);
      assert Conserved(ss[k - 1], all);
      hide Inv, Conserved;
      StepAt(ss, acts, outcome, k - 1);
      TakenStep(ss[k - 1], acts[k - 1], all, outcome, Taken(ss, acts, k - 1));
    }
  }

  lemma {:induction false} FlagStaysDown(ss: seq<State>, acts: seq<Action>, outcome: Job -> int, k: nat)
    requires IsRun(ss, acts, outcome) && !ss[0].threadExit && k < |ss|
    requires forall i | 0 <= i < |acts| :: acts[i] != Interrupt
    ensures !ss[k].threadExit
  {
    if k > 0 { FlagStaysDown(ss, acts, outcome, k - 1); }
  }

  // ---------------------------------------------------------------------------------------
  // The program
  // ---------------------------------------------------------------------------------------

  lemma CodeOf(t: Tally, total: nat)
    ensures ReportOf(t, total).code == ExitCode(t, total)
  {
  }

  /** The shared queues, the threads, the interrupt flag and the main thread's variables. */
  class TestRunner {
    const all: seq<Job>
    const outcome: Job -> int
    var todo: seq<Job>
    var jobs: nat
    var totalTests: nat
    var pillsLeft: nat
    var inputQueue: seq<Job>
    var outputQueue: seq<Job>
    var threads: seq<Worker>
    var threadExit: bool
    var collected: seq<Job>
    var joined: nat
    var passedTests: nat
    var failedTests: nat
    var crashedTests: nat
    var valgrindErrors: nat
    var skippedTests: nat
    var failedTestnames: seq<string>
    var crashedTestnames: seq<string>
    var valgrindTestnames: seq<string>
    var skippedTestnames: seq<string>

    function Counters(): Tally
      reads `passedTests, `failedTests, `crashedTests, `valgrindErrors, `skippedTests
      reads `failedTestnames, `crashedTestnames, `valgrindTestnames, `skippedTestnames
    {
      Tally(passedTests, failedTests, crashedTests, valgrindErrors, skippedTests,
            failedTestnames, crashedTestnames, valgrindTestnames, skippedTestnames)
    }

    function View(): State
      reads this
    {
      State(todo, jobs, totalTests, pillsLeft, inputQueue, threads, threadExit, outputQueue, collected,
            Counters(), joined)
    }

    constructor (all: seq<Job>, processors: nat, outcome: Job -> int)
      ensures View() == Init(all, processors) && this.all == all && this.outcome == outcome
    {
      this.all, this.outcome := all, outcome;
      todo, jobs, totalTests, pillsLeft := all, 0, 0, processors;
      inputQueue, outputQueue, threads, threadExit := [], [], seq(processors, _ => Idle), false;
      collected, joined := [], 0;
      passedTests, failedTests, crashedTests, valgrindErrors, skippedTests := 0, 0, 0, 0, 0;
      failedTestnames, crashedTestnames, valgrindTestnames, skippedTestnames := [], [], [], [];
    }

    method DispatchNext()
      requires CanDispatch(View())
      modifies this
      ensures View() == DispatchStep(old(View()))
    {
      inputQueue := inputQueue + [todo[0]];
      todo := todo[1..];
      jobs := jobs + 1;
      totalTests := totalTests + 1;
    }

    method PutBreak()
      requires CanPutPill(View())
      modifies this
      ensures View() == PutPillStep(old(View()))
    {
      inputQueue := inputQueue + [PILL];
      pillsLeft := pillsLeft - 1;
    }

    /** `job = self.input_queue.get()`, returning on a break job. */
    method WorkerGet(w: nat)
      requires CanTake(View(), w)
      modifies this
      ensures View() == TakeStep(old(View()), w)
    {
      var job := inputQueue[0];
      inputQueue := inputQueue[1..];
      if job.isBreak {
        threads := threads[w := Exited];
      } else {
        threads := threads[w := Got(job)];
      }
    }

    /** The tests of the interrupt flag and of the skip flag. */
    method WorkerCheck(w: nat)
      requires CanCheck(View(), w)
      modifies this
      ensures View() == CheckStep(old(View()), w)
    {
      var job := threads[w].job;
      if threadExit {
        job := job.(isBreak := true);
        outputQueue := outputQueue + [job];
        threads := threads[w := Idle];
        return;
      }
      if job.isSkip {
        outputQueue := outputQueue + [job];
        threads := threads[w := Idle];
      } else {
        threads := threads[w := Running(job)];
      }
    }

    method WorkerFinish(w: nat, rc: int)
      requires CanFinish(View(), w, rc, outcome)
      modifies this
      ensures View() == FinishStep(old(View()), w, rc)
    {
      var job := threads[w].job;
      job := job.(returncode := rc);
      outputQueue := outputQueue + [job];
      threads := threads[w := Idle];
    }

    method SigintHook()
      modifies this
      ensures View() == old(View()).(threadExit := true)
    {
      threadExit := true;
    }

    /** One iteration of the collection loop. */
    method CollectNext()
      requires CanCollect(View())
      modifies this
      ensures View() == CollectStep(old(View()))
    {
      hide TallyJob, Counters;
      var job := outputQueue[0];
      outputQueue := outputQueue[1..];
      collected := collected + [job];
      RecordResult(job);
    }

    method RecordResult(job: Job)
      modifies this`passedTests, this`failedTests, this`crashedTests, this`valgrindErrors, this`skippedTests
      modifies this`failedTestnames, this`crashedTestnames, this`valgrindTestnames, this`skippedTestnames
      ensures Counters() == TallyJob(old(Counters()), job)
    {
      if job.isBreak {
        return;
      }
      if job.isSkip {
        skippedTests := skippedTests + 1;
        skippedTestnames := skippedTestnames + [job.displayName + " (" + job.skipReason + ")"];
      } else if job.returncode == 0 {
        passedTests := passedTests + 1;
      } else if job.returncode == 1 {
        failedTests := failedTests + 1;
        failedTestnames := failedTestnames + [job.displayName];
      } else if job.returncode == 2 {
        valgrindErrors := valgrindErrors + 1;
        valgrindTestnames := valgrindTestnames + [job.displayName];
      } else {
        crashedTests := crashedTests + 1;
        crashedTestnames := crashedTestnames + [job.displayName];
      }
    }

    method JoinNext()
      requires CanJoin(View())
      modifies this
      ensures View() == JoinStep(old(View()))
    {
      joined := joined + 1;
    }

    method Perform(a: Action)
      requires Enabled(View(), a, outcome)
      modifies this
      ensures View() == Apply(old(View()), a, outcome)
    {
      match a {
        case Dispatch => DispatchNext();
        case PutPill => PutBreak();
        case Collect => CollectNext();
        case Join => JoinNext();
        case Take(w) => WorkerGet(w);
        case Check(w) => WorkerCheck(w);
        case Finish(w, rc) => WorkerFinish(w, rc);
        case Interrupt => SigintHook();
      }
    }

    /** A whole run under an arbitrary scheduler: whatever enabled step it picks next, the run ends,
        everything dispatched has been collected, and the report is the one on the results collected; without
        an interrupt it is the sequential one, and says of every job what its skip flag and its return code
        say. */
    method RunTests() returns (code: int, report: Report)
      requires View() == Init(all, |threads|) && |threads| > 0
      requires forall j | j in all :: Fresh(j)
      modifies this
      ensures Done(View()) && multiset(Origs(collected)) == multiset(all) && code == report.code
      ensures code == 0 <==> forall j | j in collected :: !j.isBreak && (j.isSkip || j.returncode == 0)
      ensures ReportsResults(report, collected)
      ensures !threadExit ==>
                report == ReportOf(TallyAll(CompletedAll(all, outcome)), |all|) && Reports(report, all, outcome)
    {
      hide Inv, Fresh, ReportOf, TallyAll, CompletedAll, ReportsResults, Reports, Origs, ExitCode;
      InitInv(all, |threads|, outcome);
      RunToEnd();
      FinishedRun(View(), all, |threads|, outcome);
      ghost var ended := View();
      report := PrintSummary();
      code := report.code;
      CodeOf(ended.tally, totalTests);
    }

    method RunToEnd()
      requires Inv(View(), all, |threads|, outcome) && |threads| > 0
      modifies this
      ensures |threads| == old(|threads|) && Inv(View(), all, |threads|, outcome) && Done(View())
    {
      hide Inv, Measure;
      while !Done(View())
        invariant |threads| == old(|threads|) && Inv(View(), all, |threads|, outcome)
        decreases Measure(View())
      {
        ScheduleNext();
      }
    }

    /** The lists are sorted in place; the code is what `run_tests` returns. */
    method PrintSummary() returns (report: Report)
      modifies this`failedTestnames, this`crashedTestnames, this`valgrindTestnames, this`skippedTestnames
      ensures report == ReportOf(old(Counters()), totalTests)
      ensures skippedTestnames == report.skippedNames && failedTestnames == report.failedNames
      ensures crashedTestnames == report.crashedNames && valgrindTestnames == report.valgrindNames
    {
      skippedTestnames := Sort(skippedTestnames, StringLeq);
      failedTestnames := Sort(failedTestnames, StringLeq);
      crashedTestnames := Sort(crashedTestnames, StringLeq);
      valgrindTestnames := Sort(valgrindTestnames, StringLeq);
      var code := 1;
      if passedTests + skippedTests == totalTests {
        code := 0;
      }
      report := Report(passedTests, failedTests, crashedTests, valgrindErrors, skippedTests, totalTests,
                       failedTestnames, crashedTestnames, valgrindTestnames, skippedTestnames, code);
    }

    method ScheduleNext()
      requires Inv(View(), all, |threads|, outcome) && |threads| > 0 && !Done(View())
      modifies this
      ensures |threads| == old(|threads|) && Inv(View(), all, |threads|, outcome)
      ensures 0 <= Measure(View()) < old(Measure(View()))
    {
      var a: Action := *;
      if !Enabled(View(), a, outcome) {
        a := SomeStep();
      }
      StepKeeps(View(), a, all, |threads|, outcome);
      StepDecreases(View(), a, all, |threads|, outcome);
      Perform(a);
    }

    method SomeStep() returns (a: Action)
      requires Inv(View(), all, |threads|, outcome) && |threads| > 0 && !Done(View())
      ensures Enabled(View(), a, outcome)
    {
      if todo != [] { return Dispatch; }
      if pillsLeft > 0 { return PutPill; }
      for w := 0 to |threads|
        invariant forall v | 0 <= v < w :: threads[v] == Exited || (threads[v] == Idle && inputQueue == [])
      {
        match threads[w] {
          case Got(_) => return Check(w);
          case Running(job) => return Finish(w, outcome(job));
          case Idle => if inputQueue != [] { return Take(w); }
          case Exited =>
        }
      }
      ghost var p := Progress(View(), all, |threads|, outcome);
      return if |collected| < jobs then Collect else Join;
    }
  }
}
