/** The experiment scheduler of `exp.py`: experiments wait in a list, run one per core, and the live
    loop polls the running processes and starts the next experiments on the cores just freed. What
    the machine does (which processes have ended, whether the memory guard lets a start through,
    whether a start succeeds) is given pass by pass as an `Env`. */
module Orchestrator {
  import opened Options
  import opened Ordering

  datatype Experiment = Experiment(name: string)

  datatype Proc = Proc(core: int, exp: Experiment)

  datatype Row = Row(exp: Experiment, core: int, rc: int)

  /** One call of `try_start_next_on`: held back by the memory guard, failed in the `try`, or started. */
  datatype Attempt = Blocked | Failed | Started

  /** One pass: the return codes of the processes that have ended, whether the guard lets the restart loop
      run, and how a start on each core would go. */
  datatype Env = Env(ended: int -> Option<int>, memoryOk: bool, attempt: int -> Attempt)

  /** `running` is a dictionary in insertion order; `started` lists the experiments in the order in
      which they were started. */
  datatype Sched = Sched(started: seq<Experiment>, pending: seq<Experiment>, running: seq<Proc>,
                         rows: seq<Row>, finished: nat)

  function Init(exps: seq<Experiment>): Sched {
    Sched([], exps, [], [], 0)
  }

  // ---------------------------------------------------------------------------------------
  // The scheduler
  // ---------------------------------------------------------------------------------------

  /** `running[core] = rec`: replace the entry of the core, or append one. */
  function Put(running: seq<Proc>, p: Proc): seq<Proc> {
    if running == [] then [p]
    else if running[0].core == p.core then [p] + running[1..]
    else [running[0]] + Put(running[1..], p)
  }

  function TryStart(s: Sched, core: int, a: Attempt): Sched {
    if s.pending == [] || a != Started then s
    else s.(started := s.started + [s.pending[0]], pending := s.pending[1..],
            running := Put(s.running, Proc(core, s.pending[0])))
  }

  function StartOn(s: Sched, cores: seq<int>, attempt: int -> Attempt): Sched {
    if cores == [] then s
    else var n := |cores| - 1; TryStart(StartOn(s, cores[..n], attempt), cores[n], attempt(cores[n]))
  }

  /** The running processes found ended, and those not. */
  function Ended(ps: seq<Proc>, env: Env): seq<Proc> {
    if ps == [] then []
    else var n := |ps| - 1; Ended(ps[..n], env) + (if env.ended(ps[n].core).Some? then [ps[n]] else [])
  }

  function Remaining(ps: seq<Proc>, env: Env): seq<Proc> {
    if ps == [] then []
    else var n := |ps| - 1; Remaining(ps[..n], env) + (if env.ended(ps[n].core).Some? then [] else [ps[n]])
  }

  function RowsOf(ps: seq<Proc>, env: Env): seq<Row> {
    if ps == [] then []
    else var n := |ps| - 1;
         RowsOf(ps[..n], env)
         + (if env.ended(ps[n].core).Some? then [Row(ps[n].exp, ps[n].core, env.ended(ps[n].core).value)] else [])
  }

  function Cores(ps: seq<Proc>): seq<int> {
    if ps == [] then [] else Cores(ps[..|ps| - 1]) + [ps[|ps| - 1].core]
  }

  function Exps(ps: seq<Proc>): seq<Experiment> {
    if ps == [] then [] else Exps(ps[..|ps| - 1]) + [ps[|ps| - 1].exp]
  }

  function RowExps(rows: seq<Row>): seq<Experiment> {
    if rows == [] then [] else RowExps(rows[..|rows| - 1]) + [rows[|rows| - 1].exp]
  }

  function Reap(s: Sched, env: Env): Sched {
    s.(running := Remaining(s.running, env), rows := s.rows + RowsOf(s.running, env),
       finished := s.finished + |Ended(s.running, env)|)
  }

  /** One pass of the live loop: reap, then restart on exactly the cores freed by this pass. */
  function Pass(s: Sched, env: Env): Sched {
    var s1 := Reap(s, env);
    if env.memoryOk then StartOn(s1, Cores(Ended(s.running, env)), env.attempt) else s1
  }

  // ---------------------------------------------------------------------------------------
  // Safety
  // ---------------------------------------------------------------------------------------

  /** Start order followed by the waiting list is the input; each started experiment is running or has
      its one row; each core runs at most one. */
  ghost predicate Inv(s: Sched, exps: seq<Experiment>, cores: set<int>) {
    && s.started + s.pending == exps
    && multiset(s.started) == multiset(Exps(s.running)) + multiset(RowExps(s.rows))
    && s.finished == |s.rows|
    && Distinct(Cores(s.running)) && forall c | c in Cores(s.running) :: c in cores
  }

  lemma {:induction false} PutNew(running: seq<Proc>, p: Proc)
    requires p.core !in Cores(running)
    ensures Put(running, p) == running + [p]
  {
    if running != [] {
      CoresConcat([running[0]], running[1..]);
      assert [running[0]] + running[1..] == running;
      assert Cores([running[0]]) == [running[0].core];
      PutNew(running[1..], p);
    }
  }

  lemma {:induction false} CoresConcat(a: seq<Proc>, b: seq<Proc>)
    ensures Cores(a + b) == Cores(a) + Cores(b)
    ensures |Cores(b)| == |b|
  {
    if b == [] {
      assert a + b == a;
    } else {
      var n := |b| - 1;
      assert (a + b)[..|a| + n] == a + b[..n];
      CoresConcat(a, b[..n]);
    }
  }

  lemma ExpsSnoc(ps: seq<Proc>, p: Proc)
    ensures Exps(ps + [p]) == Exps(ps) + [p.exp]
  {
    assert (ps + [p])[..|ps|] == ps;
  }

  lemma CoresSnoc(ps: seq<Proc>, p: Proc)
    ensures Cores(ps + [p]) == Cores(ps) + [p.core]
  {
    assert (ps + [p])[..|ps|] == ps;
  }

  lemma MoveHead<T>(front: seq<T>, back: seq<T>)
    requires back != []
    ensures (front + [back[0]]) + back[1..] == front + back
  {
  }

  lemma StartOne(s: Sched, core: int, exps: seq<Experiment>, cores: set<int>)
    requires Inv(s, exps, cores) && core in cores && core !in Cores(s.running) && s.pending != []
    ensures var (s', p) := (TryStart(s, core, Started), Proc(core, s.pending[0]));
            Inv(s', exps, cores) && s'.running == s.running + [p] && Cores(s'.running) == Cores(s.running) + [core]
  {
    hide Put, Cores, Exps, RowExps, Distinct;
    var p := Proc(core, s.pending[0]);
    PutNew(s.running, p);
    CoresSnoc(s.running, p);
    ExpsSnoc(s.running, p);
    DistinctSnoc(Cores(s.running), core);
    MoveHead(s.started, s.pending);
    AddOne(s.started, Exps(s.running), RowExps(s.rows), p.exp);
  }

  lemma TryStartKeeps(s: Sched, core: int, a: Attempt, exps: seq<Experiment>, cores: set<int>)
    requires Inv(s, exps, cores) && core in cores && core !in Cores(s.running)
    ensures Inv(TryStart(s, core, a), exps, cores)
    ensures if s.pending != [] && a == Started
            then && TryStart(s, core, a).running == s.running + [Proc(core, s.pending[0])]
                 && Cores(TryStart(s, core, a).running) == Cores(s.running) + [core]
            else TryStart(s, core, a) == s
  {
    if s.pending != [] && a == Started { StartOne(s, core, exps, cores); }
  }

  lemma StartOnSnoc(s: Sched, cs: seq<int>, c: int, attempt: int -> Attempt)
    ensures StartOn(s, cs + [c], attempt) == TryStart(StartOn(s, cs, attempt), c, attempt(c))
  {
    assert (cs + [c])[..|cs|] == cs;
  }

  /** The cores a run of starts adds are among those offered. */
  lemma {:induction false} StartOnKeeps(s: Sched, cs: seq<int>, attempt: int -> Attempt, exps: seq<Experiment>,
                                        cores: set<int>)
    requires Inv(s, exps, cores) && Distinct(cs)
    requires forall c | c in cs :: c in cores && c !in Cores(s.running)
    ensures var s' := StartOn(s, cs, attempt);
            && Inv(s', exps, cores)
            && (forall c | c in Cores(s'.running) :: c in Cores(s.running) || c in cs)
            && s.running <= s'.running && s'.rows == s.rows
            && |s'.running| <= |s.running| + |cs|
  {
    if cs != [] {
      var (front, c) := (cs[..|cs| - 1], cs[|cs| - 1]);
      assert cs == front + [c];
      hide Inv, Distinct, Cores, StartOn;
      DistinctSnoc(front, c);
      StartOnSnoc(s, front, c, attempt);
      StartOnKeeps(s, front, attempt, exps, cores);
      assert c in cs;
      TryStartKeeps(StartOn(s, front, attempt), c, attempt(c), exps, cores);
    }
  }

  lemma {:induction false} SplitSizes(ps: seq<Proc>, env: Env)
    ensures |Ended(ps, env)| + |Remaining(ps, env)| == |ps| && |RowsOf(ps, env)| == |Ended(ps, env)|
  {
    if ps != [] { SplitSizes(ps[..|ps| - 1], env); }
  }

  lemma {:induction false} EndedMembers(ps: seq<Proc>, env: Env, p: Proc)
    ensures p in Ended(ps, env) <==> p in ps && env.ended(p.core).Some?
    ensures p in Remaining(ps, env) <==> p in ps && env.ended(p.core).None?
  {
    if ps != [] {
      var n := |ps| - 1;
      EndedMembers(ps[..n], env, p);
      assert ps == ps[..n] + [ps[n]];
    }
  }

  lemma NoneRemains(ps: seq<Proc>, env: Env)
    ensures Remaining(ps, env) == [] <==> forall p | p in ps :: env.ended(p.core).Some?
  {
    if Remaining(ps, env) != [] {
      var p := Remaining(ps, env)[0];
      assert p in Remaining(ps, env);
      EndedMembers(ps, env, p);
    } else {
      forall p | p in ps ensures env.ended(p.core).Some? { EndedMembers(ps, env, p); }
    }
  }

  lemma RowExpsSnoc(rows: seq<Row>, r: Row)
    ensures RowExps(rows + [r]) == RowExps(rows) + [r.exp]
  {
    assert (rows + [r])[..|rows|] == rows;
  }

  /** One more running process is one more remaining process or one more row. */
  lemma SplitExpsStep(ps: seq<Proc>, p: Proc, env: Env)
    requires multiset(Exps(ps)) == multiset(Exps(Remaining(ps, env))) + multiset(RowExps(RowsOf(ps, env)))
    ensures multiset(Exps(ps + [p]))
            == multiset(Exps(Remaining(ps + [p], env))) + multiset(RowExps(RowsOf(ps + [p], env)))
  {
    hide Exps, RowExps;
    var (r, w) := (Remaining(ps, env), RowsOf(ps, env));
    assert (ps + [p])[..|ps|] == ps;
    ExpsSnoc(ps, p);
    AddOne(Exps(ps), Exps(r), RowExps(w), p.exp);
    if env.ended(p.core).Some? {
      assert Remaining(ps + [p], env) == r;
      RowExpsSnoc(w, Row(p.exp, p.core, env.ended(p.core).value));
    } else {
      assert RowsOf(ps + [p], env) == w;
      ExpsSnoc(r, p);
    }
  }

  lemma {:induction false} SplitExps(ps: seq<Proc>, env: Env)
    ensures multiset(Exps(ps)) == multiset(Exps(Remaining(ps, env))) + multiset(RowExps(RowsOf(ps, env)))
  {
    if ps == [] {
    } else {
      hide Exps, RowExps, Remaining, RowsOf;
      var n := |ps| - 1;
      assert ps == ps[..n] + [ps[n]];
      SplitExps(ps[..n], env);
      SplitExpsStep(ps[..n], ps[n], env);
    }
  }

  lemma {:induction false} SplitCores(ps: seq<Proc>, env: Env)
    requires Distinct(Cores(ps))
    ensures var (e, r) := (Cores(Ended(ps, env)), Cores(Remaining(ps, env)));
            && Distinct(e) && Distinct(r)
            && (forall c | c in e :: c in Cores(ps) && c !in r)
            && (forall c | c in r :: c in Cores(ps))
  {
    if ps != [] {
      var n := |ps| - 1;
      var c := ps[n].core;
      DistinctSnoc(Cores(ps[..n]), c);
      SplitCores(ps[..n], env);
      var (e, r) := (Ended(ps[..n], env), Remaining(ps[..n], env));
      assert e + [] == e && r + [] == r;
      if env.ended(c).Some? {
        CoresSnoc(e, ps[n]);
        DistinctSnoc(Cores(e), c);
      } else {
        CoresSnoc(r, ps[n]);
        DistinctSnoc(Cores(r), c);
      }
    }
  }

  lemma {:induction false} RowExpsConcat(a: seq<Row>, b: seq<Row>)
    ensures RowExps(a + b) == RowExps(a) + RowExps(b)
  {
    if b == [] {
      assert a + b == a;
    } else {
      var n := |b| - 1;
      assert (a + b)[..|a| + n] == a + b[..n];
      RowExpsConcat(a, b[..n]);
    }
  }

  lemma Exchange<T>(a: multiset<T>, b: multiset<T>, c: multiset<T>, d: multiset<T>, e: multiset<T>)
    requires a == b + c && b == d + e
    ensures a == d + (c + e)
  {
  }

  lemma ReapKeeps(s: Sched, env: Env, exps: seq<Experiment>, cores: set<int>)
    requires Inv(s, exps, cores)
    ensures Inv(Reap(s, env), exps, cores)
  {
    SplitSizes(s.running, env);
    SplitExps(s.running, env);
    SplitCores(s.running, env);
    RowExpsConcat(s.rows, RowsOf(s.running, env));
    Exchange(multiset(s.started), multiset(Exps(s.running)), multiset(RowExps(s.rows)),
             multiset(Exps(Remaining(s.running, env))), multiset(RowExps(RowsOf(s.running, env))));
  }

  /** Every pass keeps the invariant, never increases the number of running processes, and leaves the
      processes that have not ended where they are. */
  lemma PassKeeps(s: Sched, env: Env, exps: seq<Experiment>, cores: set<int>)
    requires Inv(s, exps, cores)
    ensures Inv(Pass(s, env), exps, cores)
    ensures |Pass(s, env).running| <= |s.running|
    ensures Remaining(s.running, env) <= Pass(s, env).running
    ensures Pass(s, env).rows == s.rows + RowsOf(s.running, env)
  {
    ReapKeeps(s, env, exps, cores);
    SplitSizes(s.running, env);
    SplitCores(s.running, env);
    CoresConcat([], Ended(s.running, env));
    if env.memoryOk {
      StartOnKeeps(Reap(s, env), Cores(Ended(s.running, env)), env.attempt, exps, cores);
    }
  }

  ghost predicate IsRun(ss: seq<Sched>, envs: seq<Env>) {
    |ss| == |envs| + 1 && forall i | 0 <= i < |envs| :: ss[i + 1] == Pass(ss[i], envs[i])
  }

  /** Safety over whole runs: from the initial dispatch on, in every state. */
  lemma {:induction false} RunSafe(ss: seq<Sched>, envs: seq<Env>, exps: seq<Experiment>, workers: seq<int>,
            attempt: int -> Attempt, k: nat)
    requires Distinct(workers) && IsRun(ss, envs) && ss[0] == StartOn(Init(exps), workers, attempt) && k < |ss|
    ensures Inv(ss[k], exps, set c | c in workers)
    ensures |ss[k].running| <= |ss[0].running| <= |workers|
  {
    var cores := set c | c in workers;
    if k == 0 {
      assert Inv(Init(exps), exps, cores);
      StartOnKeeps(Init(exps), workers, attempt, exps, cores);
    } else {
      RunSafe(ss, envs, exps, workers, attempt, k - 1);
      PassKeeps(ss[k - 1], envs[k - 1], exps, cores);
    }
  }

  // ---------------------------------------------------------------------------------------
  // What a round of starts and a pass do, exactly
  // ---------------------------------------------------------------------------------------

  function Min(a: nat, b: nat): nat { if a < b then a else b }

  /** The cores on which a start would succeed. */
  ghost function Able(cs: seq<int>, attempt: int -> Attempt): seq<int> {
    if cs == [] then []
    else var n := |cs| - 1; Able(cs[..n], attempt) + (if attempt(cs[n]) == Started then [cs[n]] else [])
  }

  /** The first `m` of the waiting experiments, each on its core. */
  ghost function Placed(cs: seq<int>, exps: seq<Experiment>, m: nat): (ps: seq<Proc>)
    requires m <= |cs| && m <= |exps|
    ensures |ps| == m && forall k | 0 <= k < m :: ps[k] == Proc(cs[k], exps[k])
  {
    seq(m, k requires 0 <= k < m => Proc(cs[k], exps[k]))
  }

  /** `s` after the first `m` waiting experiments have been started on the cores given. */
  ghost function Launched(s: Sched, cs: seq<int>, m: nat): Sched
    requires m <= |cs| && m <= |s.pending|
  {
    s.(started := s.started + s.pending[..m], pending := s.pending[m..],
       running := s.running + Placed(cs, s.pending, m))
  }

  lemma AbleSnoc(cs: seq<int>, c: int, attempt: int -> Attempt)
    ensures Able(cs + [c], attempt) == Able(cs, attempt) + (if attempt(c) == Started then [c] else [])
  {
    assert (cs + [c])[..|cs|] == cs;
  }

  lemma LaunchedMore(s: Sched, cs: seq<int>, x: seq<int>, m: nat)
    requires m <= |cs| && m <= |s.pending|
    ensures Launched(s, cs + x, m) == Launched(s, cs, m)
  {
    assert Placed(cs + x, s.pending, m) == Placed(cs, s.pending, m);
  }

  lemma LaunchOne(s: Sched, cs: seq<int>, m: nat)
    requires m < |cs| && m < |s.pending|
    ensures var t := Launched(s, cs, m);
            t.pending == s.pending[m..] && t.pending[0] == s.pending[m]
            && Launched(s, cs, m + 1)
               == t.(started := t.started + [t.pending[0]], pending := t.pending[1..],
                     running := t.running + [Proc(cs[m], t.pending[0])])
  {
    assert s.pending[..m + 1] == s.pending[..m] + [s.pending[m]];
    assert s.pending[m..][1..] == s.pending[m + 1..];
    assert Placed(cs, s.pending, m + 1) == Placed(cs, s.pending, m) + [Proc(cs[m], s.pending[m])];
    ConcatAssociative(s.started, s.pending[..m], [s.pending[m]]);
    ConcatAssociative(s.running, Placed(cs, s.pending, m), [Proc(cs[m], s.pending[m])]);
  }

  /** A round of starts launches as many of the waiting experiments, in order, as there are cores on which a start
      succeeds, in order. */
  lemma {:induction false} StartOnLaunches(s: Sched, cs: seq<int>, attempt: int -> Attempt, exps: seq<Experiment>,
                                           cores: set<int>)
    requires Inv(s, exps, cores) && Distinct(cs)
    requires forall c | c in cs :: c in cores && c !in Cores(s.running)
    ensures StartOn(s, cs, attempt) == Launched(s, Able(cs, attempt), Min(|Able(cs, attempt)|, |s.pending|))
  {
    if cs == [] {
      assert Launched(s, [], 0) == s by { LaunchNone(s, []); }
    } else {
      var (front, c) := (cs[..|cs| - 1], cs[|cs| - 1]);
      assert cs == front + [c];
      hide Inv, Distinct, Cores, StartOn, Able, Launched;
      DistinctSnoc(front, c);
      StartOnSnoc(s, front, c, attempt);
      AbleSnoc(front, c, attempt);
      StartOnLaunches(s, front, attempt, exps, cores);
      StartOnKeeps(s, front, attempt, exps, cores);
      assert c in cs;
      NextLaunch(s, Able(front, attempt), c, attempt(c), exps, cores);
    }
  }

  lemma LaunchNone(s: Sched, cs: seq<int>)
    ensures Launched(s, cs, 0) == s
  {
    assert s.started + [] == s.started && s.running + [] == s.running && s.pending[0..] == s.pending;
  }

  lemma TryStartIs(s: Sched, c: int, a: Attempt, exps: seq<Experiment>, cores: set<int>)
    requires Inv(s, exps, cores) && c in cores && c !in Cores(s.running)
    ensures TryStart(s, c, a) == if s.pending == [] || a != Started then s
            else s.(started := s.started + [s.pending[0]], pending := s.pending[1..],
                    running := s.running + [Proc(c, s.pending[0])])
  {
    TryStartKeeps(s, c, a, exps, cores);
  }

  lemma NextLaunch(s: Sched, able: seq<int>, c: int, a: Attempt, exps: seq<Experiment>, cores: set<int>)
    requires var s1 := Launched(s, able, Min(|able|, |s.pending|));
             Inv(s1, exps, cores) && c in cores && c !in Cores(s1.running)
    ensures var all := able + (if a == Started then [c] else []);
            TryStart(Launched(s, able, Min(|able|, |s.pending|)), c, a) == Launched(s, all, Min(|all|, |s.pending|))
  {
    var m := Min(|able|, |s.pending|);
    var s1 := Launched(s, able, m);
    assert s1.pending == s.pending[m..];
    hide Inv, Cores, Put, Launched;
    TryStartIs(s1, c, a, exps, cores);
    hide TryStart;
    if a != Started {
      assert able + [] == able;
    } else {
      LaunchedMore(s, able, [c], m);
      if m < |s.pending| { LaunchOne(s, able + [c], m); }
    }
  }

  // The places in `running` of the processes that have ended, of those that have not, and of those restarted.

  function HasEnded(env: Env): Proc -> bool { (p: Proc) => env.ended(p.core).Some? }

  function StillRuns(env: Env): Proc -> bool { (p: Proc) => env.ended(p.core).None? }

  function CanRestart(env: Env): Proc -> bool {
    (p: Proc) => env.ended(p.core).Some? && env.attempt(p.core) == Started
  }

  function RowFor(env: Env): Proc -> Row {
    (p: Proc) => Row(p.exp, p.core, if env.ended(p.core).Some? then env.ended(p.core).value else 0)
  }

  function ItsCore(p: Proc): int { p.core }

  function Itself(p: Proc): Proc { p }

  lemma {:induction false} SplitPicks(ps: seq<Proc>, env: Env)
    ensures Picks(Remaining(ps, env), ps, StillRuns(env), Itself)
    ensures Picks(RowsOf(ps, env), ps, HasEnded(env), RowFor(env))
    ensures Picks(Able(Cores(Ended(ps, env)), env.attempt), ps, CanRestart(env), ItsCore)
  {
    if ps == [] {
      PicksNothing(StillRuns(env), Itself);
      PicksNothing(HasEnded(env), RowFor(env));
      PicksNothing(CanRestart(env), ItsCore);
    } else {
      var (front, p) := (ps[..|ps| - 1], ps[|ps| - 1]);
      assert ps == front + [p];
      hide Picks, Able, Cores;
      SplitPicks(front, env);
      PicksSnoc(Remaining(front, env), front, p, StillRuns(env), Itself);
      PicksSnoc(RowsOf(front, env), front, p, HasEnded(env), RowFor(env));
      PicksSnoc(Able(Cores(Ended(front, env)), env.attempt), front, p, CanRestart(env), ItsCore);
      AbleEnded(front, p, env);
    }
  }

  lemma AbleEnded(ps: seq<Proc>, p: Proc, env: Env)
    ensures Able(Cores(Ended(ps + [p], env)), env.attempt)
            == Able(Cores(Ended(ps, env)), env.attempt)
               + (if env.ended(p.core).Some? && env.attempt(p.core) == Started then [p.core] else [])
  {
    assert (ps + [p])[..|ps|] == ps;
    var e := Ended(ps, env);
    if env.ended(p.core).Some? {
      CoresSnoc(e, p);
      AbleSnoc(Cores(e), p.core, env.attempt);
    } else {
      assert e + [] == e;
      assert Able(Cores(e), env.attempt) + [] == Able(Cores(e), env.attempt);
    }
  }

  lemma PassIs(s: Sched, env: Env, exps: seq<Experiment>, cores: set<int>)
    requires Inv(s, exps, cores)
    ensures var able := Able(Cores(Ended(s.running, env)), env.attempt);
            Pass(s, env)
            == if env.memoryOk then Launched(Reap(s, env), able, Min(|able|, |s.pending|)) else Reap(s, env)
  {
    ReapKeeps(s, env, exps, cores);
    SplitCores(s.running, env);
    hide Able, Launched, Ended, Cores, Inv, Distinct, RowsOf;
    if env.memoryOk {
      FreedAllowed(s, env, exps, cores);
      StartOnLaunches(Reap(s, env), Cores(Ended(s.running, env)), env.attempt, exps, cores);
    }
  }

  lemma FreedAllowed(s: Sched, env: Env, exps: seq<Experiment>, cores: set<int>)
    requires Inv(s, exps, cores)
    ensures Distinct(Cores(Ended(s.running, env)))
    ensures forall c | c in Cores(Ended(s.running, env)) :: c in cores && c !in Cores(Reap(s, env).running)
  {
    SplitCores(s.running, env);
  }

  /** `procs` are the processes of `ps` that have not ended, at the places `stay`, in order. */
  ghost predicate GoesOn(ps: seq<Proc>, env: Env, stay: seq<nat>, procs: seq<Proc>) {
    && Increasing(stay) && |stay| == |procs|
    && (forall i :: i in stay <==> (0 <= i < |ps| && env.ended(ps[i].core).None?))
    && forall k | 0 <= k < |stay| :: stay[k] in stay && procs[k] == ps[stay[k]]
  }

  /** `rows` are the rows of the processes of `ps` that have ended, at the places `ended`, in order. */
  ghost predicate Recorded(ps: seq<Proc>, env: Env, ended: seq<nat>, rows: seq<Row>) {
    && Increasing(ended) && |ended| == |rows|
    && (forall i :: i in ended <==> (0 <= i < |ps| && env.ended(ps[i].core).Some?))
    && forall k | 0 <= k < |ended| :: ended[k] in ended
         && rows[k] == Row(ps[ended[k]].exp, ps[ended[k]].core, env.ended(ps[ended[k]].core).value)
  }

  /** The places `again` in `ps` are those of the ended processes on whose cores a start succeeds, and `procs` are the
      first waiting experiments on the first of these cores, in order. */
  ghost predicate Restarted(ps: seq<Proc>, env: Env, again: seq<nat>, waiting: seq<Experiment>, procs: seq<Proc>) {
    && Increasing(again) && |procs| <= |again| && |procs| <= |waiting|
    && (forall i :: i in again <==>
          (0 <= i < |ps| && env.ended(ps[i].core).Some? && env.attempt(ps[i].core) == Started))
    && forall k | 0 <= k < |procs| :: again[k] in again && procs[k] == Proc(ps[again[k]].core, waiting[k])
  }

  lemma StayPlaces(ps: seq<Proc>, env: Env) returns (stay: seq<nat>)
    ensures GoesOn(ps, env, stay, Remaining(ps, env))
  {
    SplitPicks(ps, env);
    hide Remaining, Increasing, PicksAt, GoesOn;
    stay :| PicksAt(Remaining(ps, env), ps, StillRuns(env), Itself, stay);
    GoesOnFrom(ps, env, stay, Remaining(ps, env));
  }

  lemma GoesOnFrom(ps: seq<Proc>, env: Env, stay: seq<nat>, procs: seq<Proc>)
    requires PicksAt(procs, ps, StillRuns(env), Itself, stay)
    ensures GoesOn(ps, env, stay, procs)
  {
    hide Increasing;
    forall i | i in stay ensures 0 <= i < |ps| && env.ended(ps[i].core).None? {
      var k :| 0 <= k < |stay| && stay[k] == i;
      assert StillRuns(env)(ps[stay[k]]);
    }
    forall k | 0 <= k < |stay| ensures procs[k] == ps[stay[k]] {
      assert StillRuns(env)(ps[stay[k]]) && procs[k] == Itself(ps[stay[k]]);
    }
    forall i | 0 <= i < |ps| && env.ended(ps[i].core).None? ensures i in stay { assert StillRuns(env)(ps[i]); }
  }

  lemma EndedPlaces(ps: seq<Proc>, env: Env) returns (ended: seq<nat>)
    ensures Recorded(ps, env, ended, RowsOf(ps, env))
  {
    SplitPicks(ps, env);
    hide RowsOf, Increasing, PicksAt, Recorded;
    ended :| PicksAt(RowsOf(ps, env), ps, HasEnded(env), RowFor(env), ended);
    RecordedFrom(ps, env, ended, RowsOf(ps, env));
  }

  lemma RecordedFrom(ps: seq<Proc>, env: Env, ended: seq<nat>, rows: seq<Row>)
    requires PicksAt(rows, ps, HasEnded(env), RowFor(env), ended)
    ensures Recorded(ps, env, ended, rows)
  {
    hide Increasing;
    forall i | i in ended ensures 0 <= i < |ps| && env.ended(ps[i].core).Some? {
      var k :| 0 <= k < |ended| && ended[k] == i;
      assert HasEnded(env)(ps[ended[k]]);
    }
    forall k | 0 <= k < |ended|
      ensures rows[k] == Row(ps[ended[k]].exp, ps[ended[k]].core, env.ended(ps[ended[k]].core).value)
    {
      assert HasEnded(env)(ps[ended[k]]) && rows[k] == RowFor(env)(ps[ended[k]]);
    }
    forall i | 0 <= i < |ps| && env.ended(ps[i].core).Some? ensures i in ended { assert HasEnded(env)(ps[i]); }
  }

  lemma AgainPlaces(ps: seq<Proc>, env: Env, waiting: seq<Experiment>, m: nat) returns (again: seq<nat>)
    requires m <= |waiting| && m <= |Able(Cores(Ended(ps, env)), env.attempt)|
    ensures |again| == |Able(Cores(Ended(ps, env)), env.attempt)|
    ensures Restarted(ps, env, again, waiting, Placed(Able(Cores(Ended(ps, env)), env.attempt), waiting, m))
  {
    SplitPicks(ps, env);
    hide Able, Cores, Ended, Increasing;
    again :| PicksAt(Able(Cores(Ended(ps, env)), env.attempt), ps, CanRestart(env), ItsCore, again);
  }

  /** A pass, exactly. The processes at the places `stay` of `running` have not ended and go on, in order; each at a
      place in `ended` has its row, in order; and with memory to spare the waiting experiments are started, in order,
      on the cores of the ended processes at the places `again`, which are all those on which a start succeeds, until
      one of the two runs out. */
  lemma PassExact(s: Sched, env: Env, exps: seq<Experiment>, cores: set<int>)
    returns (stay: seq<nat>, ended: seq<nat>, again: seq<nat>)
    requires Inv(s, exps, cores)
    ensures var s' := Pass(s, env);
            var m := if !env.memoryOk then 0 else if |again| < |s.pending| then |again| else |s.pending|;
            && |s'.running| == |stay| + m && s'.pending == s.pending[m..] && s'.started == s.started + s.pending[..m]
            && GoesOn(s.running, env, stay, s'.running[..|stay|])
            && Restarted(s.running, env, again, s.pending, s'.running[|stay|..])
            && |s'.rows| == |s.rows| + |ended| && s'.finished == s.finished + |ended|
            && s'.rows[..|s.rows|] == s.rows && Recorded(s.running, env, ended, s'.rows[|s.rows|..])
  {
    var able := Able(Cores(Ended(s.running, env)), env.attempt);
    var m := if env.memoryOk then Min(|able|, |s.pending|) else 0;
    stay := StayPlaces(s.running, env);
    ended := EndedPlaces(s.running, env);
    again := AgainPlaces(s.running, env, s.pending, m);
    PassIs(s, env, exps, cores);
    SplitSizes(s.running, env);
    assert |stay| == |Remaining(s.running, env)| && |ended| == |RowsOf(s.running, env)|;
    hide Inv, Able, Cores, Ended, Remaining, RowsOf, Pass, GoesOn, Recorded, Restarted;
    if !env.memoryOk { LaunchNone(Reap(s, env), able); }
    TwoParts(Remaining(s.running, env), Placed(able, s.pending, m));
    TwoParts(s.rows, RowsOf(s.running, env));
  }

  /** So a core that is freed while memory suffices is used again, or nothing waits, or a start on it fails. */
  lemma FreedCoresUsed(s: Sched, env: Env, exps: seq<Experiment>, cores: set<int>, p: Proc)
    requires Inv(s, exps, cores) && env.memoryOk && p in s.running
    requires env.ended(p.core).Some? && env.attempt(p.core) == Started
    ensures p.core in Cores(Pass(s, env).running) || Pass(s, env).pending == []
  {
    var stay, ended, again := PassExact(s, env, exps, cores);
    hide Inv, Pass, Increasing, GoesOn, Recorded;
    var now := Pass(s, env).running[|stay|..];
    var i :| 0 <= i < |s.running| && s.running[i] == p;
    assert i in again;
    var k :| 0 <= k < |again| && again[k] == i;
    if k < |now| {
      assert now[k].core == p.core && now[k] == Pass(s, env).running[|stay| + k];
      CoresMembers(Pass(s, env).running, p.core);
    }
  }

  // ---------------------------------------------------------------------------------------
  // Progress
  // ---------------------------------------------------------------------------------------

  /** Work left and nothing running: the loop condition holds and no pass will change anything. */
  predicate Stuck(s: Sched) {
    s.running == [] && s.pending != []
  }

  /** With nothing running a pass does nothing, whatever the machine does: only the cores freed by a
      pass are offered work. */
  lemma Absorbing(s: Sched, env: Env)
    requires s.running == []
    ensures Pass(s, env) == s
  {
  }

  /** A run of starts adds a process exactly when something waits and some start on it succeeds. */
  lemma {:induction false} StartOnAdds(s: Sched, cs: seq<int>, attempt: int -> Attempt, exps: seq<Experiment>,
                                       cores: set<int>)
    requires Inv(s, exps, cores) && Distinct(cs)
    requires forall c | c in cs :: c in cores && c !in Cores(s.running)
    ensures StartOn(s, cs, attempt).running == s.running <==>
            s.pending == [] || forall c | c in cs :: attempt(c) != Started
    ensures StartOn(s, cs, attempt).running == s.running ==> StartOn(s, cs, attempt) == s
  {
    if cs != [] {
      var (front, c) := (cs[..|cs| - 1], cs[|cs| - 1]);
      assert cs == front + [c];
      hide Inv, Distinct, Cores, StartOn, TryStart;
      DistinctSnoc(front, c);
      StartOnSnoc(s, front, c, attempt);
      StartOnAdds(s, front, attempt, exps, cores);
      StartOnKeeps(s, front, attempt, exps, cores);
      assert c in cs;
      var s1 := StartOn(s, front, attempt);
      TryStartKeeps(s1, c, attempt(c), exps, cores);
      Longer(s.running, s1.running, TryStart(s1, c, attempt(c)).running);
    }
  }

  lemma Longer<T>(a: seq<T>, b: seq<T>, c: seq<T>)
    requires a <= b <= c
    ensures c == a ==> b == a && c == b
  {
  }

  lemma {:induction false} CoresMembers(ps: seq<Proc>, c: int)
    ensures c in Cores(ps) <==> exists p | p in ps :: p.core == c
  {
    if ps != [] {
      var n := |ps| - 1;
      CoresMembers(ps[..n], c);
      assert ps == ps[..n] + [ps[n]];
    }
  }

  /** Everything running ends, work is left, and none of the freed cores is restarted: what `PassGetsStuck` says
      of one pass. */
  ghost predicate EndsUnrestarted(s: Sched, env: Env) {
    && s.pending != []
    && (forall p | p in s.running :: env.ended(p.core).Some?)
    && (!env.memoryOk || forall p | p in s.running :: env.attempt(p.core) != Started)
  }

  /** A pass gets stuck exactly when work is left, everything running ends in that one pass, and none
      of the freed cores is restarted: the memory was not ok, or every start was blocked or failed. Until
      then a failed start is retried on whichever core is freed next. */
  lemma PassGetsStuck(s: Sched, env: Env, exps: seq<Experiment>, cores: set<int>)
    requires Inv(s, exps, cores)
    ensures Stuck(Pass(s, env)) <==> EndsUnrestarted(s, env)
  {
    var s1 := Reap(s, env);
    var freed := Cores(Ended(s.running, env));
    ReapKeeps(s, env, exps, cores);
    NoneRemains(s.running, env);
    SplitCores(s.running, env);
    if env.memoryOk {
      StartOnKeeps(s1, freed, env.attempt, exps, cores);
      StartOnAdds(s1, freed, env.attempt, exps, cores);
      if s1.running == [] {
        forall p | p in s.running ensures p.core in freed {
          EndedMembers(s.running, env, p);
          CoresMembers(Ended(s.running, env), p.core);
        }
        forall c | c in freed ensures exists p | p in s.running :: p.core == c {
          CoresMembers(Ended(s.running, env), c);
          var p :| p in Ended(s.running, env) && p.core == c;
          EndedMembers(s.running, env, p);
        }
      }
    }
  }

  /** The first process ends in the first pass, when the memory is not ok; then anything. */
  function LowMemoryOnce(later: nat -> Env): nat -> Env {
    (t: nat) => if t == 0 then Env(_ => Some(0), false, _ => Started) else later(t)
  }

  /** Counterexample to the promised retry: one core, two experiments, and too little memory in the
      pass in which the first ends. The second is never started, whatever happens later. */
  lemma GuardedRestartIsNeverRetried(later: nat -> Env, t: nat)
    ensures var (a, b) := (Experiment("a"), Experiment("b"));
            var s := StartOn(Init([a, b]), [0], _ => Started);
            && s.running == [Proc(0, a)]
            && Stuck(After(s, LowMemoryOnce(later), t + 1)) && After(s, LowMemoryOnce(later), t + 1).pending == [b]
  {
    var (a, b) := (Experiment("a"), Experiment("b"));
    var envs := LowMemoryOnce(later);
    var s := StartOn(Init([a, b]), [0], _ => Started);
    assert StartOn(Init([a, b]), [0][..0], _ => Started) == Init([a, b]);
    assert Remaining([Proc(0, a)][..0], envs(0)) == [];
    assert After(s, envs, 0) == s;
    StuckForever(s, envs, 1, t + 1);
  }

  /** The state after `t` passes. */
  function After(s: Sched, envs: nat -> Env, t: nat): Sched {
    if t == 0 then s else Pass(After(s, envs, t - 1), envs(t - 1))
  }

  /** Once stuck, stuck for good. */
  lemma {:induction false} StuckForever(s: Sched, envs: nat -> Env, t: nat, t': nat)
    requires Stuck(After(s, envs, t)) && t <= t'
    ensures After(s, envs, t') == After(s, envs, t)
    decreases t'
  {
    if t < t' {
      StuckForever(s, envs, t, t' - 1);
      Absorbing(After(s, envs, t' - 1), envs(t' - 1));
    }
  }

  /** Every process running at some time is found ended at that time or later. */
  ghost predicate ProcessesEnd(s: Sched, envs: nat -> Env) {
    forall t, p | p in After(s, envs, t).running :: exists t' :: t <= t' && envs(t').ended(p.core).Some?
  }

  /** The loop condition is false and nothing is left to do. */
  predicate Left(s: Sched) {
    s.running == [] && s.pending == []
  }

  lemma {:induction false} AfterSafe(s: Sched, envs: nat -> Env, t: nat, exps: seq<Experiment>, cores: set<int>)
    requires Inv(s, exps, cores)
    ensures Inv(After(s, envs, t), exps, cores)
  {
    hide Inv, Pass;
    if t > 0 {
      AfterSafe(s, envs, t - 1, exps, cores);
      PassKeeps(After(s, envs, t - 1), envs(t - 1), exps, cores);
    }
  }

  /** One of the first `t` passes ends everything unrestarted. */
  ghost predicate UnrestartedBefore(s: Sched, envs: nat -> Env, t: nat) {
    exists u | 0 <= u < t :: EndsUnrestarted(After(s, envs, u), envs(u))
  }

  lemma UnrestartedStep(s: Sched, envs: nat -> Env, u: nat)
    ensures !UnrestartedBefore(s, envs, 0)
    ensures UnrestartedBefore(s, envs, u + 1) <==>
            UnrestartedBefore(s, envs, u) || EndsUnrestarted(After(s, envs, u), envs(u))
  {
    hide After, EndsUnrestarted;
    if UnrestartedBefore(s, envs, u + 1) && !EndsUnrestarted(After(s, envs, u), envs(u)) {
      var v :| 0 <= v < u + 1 && EndsUnrestarted(After(s, envs, v), envs(v));
      assert v < u;
    }
  }

  /** A run is stuck after some pass exactly when it began stuck or some pass ended everything unrestarted. */
  lemma {:induction false} GetsStuck(s: Sched, envs: nat -> Env, t: nat, exps: seq<Experiment>, cores: set<int>)
    requires Inv(s, exps, cores)
    ensures Stuck(After(s, envs, t)) <==> Stuck(s) || UnrestartedBefore(s, envs, t)
  {
    hide Inv, Pass, Stuck, EndsUnrestarted, UnrestartedBefore;
    UnrestartedStep(s, envs, if t > 0 then t - 1 else 0);
    if t > 0 {
      var (u, now) := (t - 1, After(s, envs, t - 1));
      GetsStuck(s, envs, u, exps, cores);
      AfterSafe(s, envs, u, exps, cores);
      PassGetsStuck(now, envs(u), exps, cores);
      StuckUnrestarted(now, envs(u));
    }
  }

  lemma StuckUnrestarted(s: Sched, env: Env)
    ensures Stuck(s) ==> EndsUnrestarted(s, env)
  {
  }

  /** A process running now that has ended by a later pass has its row then. */
  lemma {:induction false} NextRow(s: Sched, envs: nat -> Env, t: nat, t': nat, p: Proc, exps: seq<Experiment>,
                                   cores: set<int>)
    requires Inv(s, exps, cores)
    requires p in After(s, envs, t).running && t <= t' && envs(t').ended(p.core).Some?
    ensures |After(s, envs, t' + 1).rows| > |After(s, envs, t).rows|
    decreases t' - t
  {
    hide Inv, Pass;
    var (now, env) := (After(s, envs, t), envs(t));
    AfterSafe(s, envs, t, exps, cores);
    PassKeeps(now, env, exps, cores);
    SplitSizes(now.running, env);
    EndedMembers(now.running, env, p);
    if env.ended(p.core).Some? {
      RowsMonotone(s, envs, t + 1, t' + 1, exps, cores);
    } else {
      NextRow(s, envs, t + 1, t', p, exps, cores);
    }
  }

  lemma {:induction false} RowsMonotone(s: Sched, envs: nat -> Env, t: nat, t': nat, exps: seq<Experiment>,
                                        cores: set<int>)
    requires Inv(s, exps, cores) && t <= t'
    ensures |After(s, envs, t).rows| <= |After(s, envs, t').rows|
    decreases t'
  {
    hide Inv, Pass;
    if t < t' {
      RowsMonotone(s, envs, t, t' - 1, exps, cores);
      AfterSafe(s, envs, t' - 1, exps, cores);
      PassKeeps(After(s, envs, t' - 1), envs(t' - 1), exps, cores);
    }
  }

  /** A process that never ends keeps running. */
  lemma {:induction false} RunsOn(s: Sched, envs: nat -> Env, t: nat, t': nat, p: Proc, exps: seq<Experiment>,
                                  cores: set<int>)
    requires Inv(s, exps, cores) && p in After(s, envs, t).running && t <= t'
    requires forall u | t <= u < t' :: envs(u).ended(p.core).None?
    ensures p in After(s, envs, t').running
    decreases t'
  {
    hide Inv, Pass;
    if t < t' {
      var now := After(s, envs, t' - 1);
      RunsOn(s, envs, t, t' - 1, p, exps, cores);
      AfterSafe(s, envs, t' - 1, exps, cores);
      PassKeeps(now, envs(t' - 1), exps, cores);
      EndedMembers(now.running, envs(t' - 1), p);
    }
  }

  lemma {:induction false} StaysLeft(s: Sched, envs: nat -> Env, t: nat, t': nat)
    requires Left(After(s, envs, t)) && t <= t'
    ensures After(s, envs, t') == After(s, envs, t)
    decreases t'
  {
    if t < t' {
      StaysLeft(s, envs, t, t' - 1);
      Absorbing(After(s, envs, t' - 1), envs(t' - 1));
    }
  }

  lemma {:induction false} Lengths(ps: seq<Proc>, rows: seq<Row>)
    ensures |Exps(ps)| == |ps| && |RowExps(rows)| == |rows|
    decreases |ps| + |rows|
  {
    if ps != [] { Lengths(ps[..|ps| - 1], rows); }
    if rows != [] { Lengths(ps, rows[..|rows| - 1]); }
  }

  lemma Counted(s: Sched, exps: seq<Experiment>, cores: set<int>)
    requires Inv(s, exps, cores)
    ensures |s.rows| + |s.running| + |s.pending| == |exps|
  {
    Lengths(s.running, s.rows);
    assert |multiset(s.started)| == |multiset(Exps(s.running))| + |multiset(RowExps(s.rows))|;
  }

  lemma LeftIsDone(s: Sched, exps: seq<Experiment>, cores: set<int>)
    requires Inv(s, exps, cores) && Left(s)
    ensures s.finished == |s.rows| == |exps| && multiset(RowExps(s.rows)) == multiset(exps)
  {
    Counted(s, exps, cores);
    assert s.started == exps;
    assert multiset(Exps([])) == multiset{};
  }

  /** A run that never gets stuck and whose processes all end is left, from whatever pass on it is watched. */
  lemma {:induction false} Arrives(s: Sched, envs: nat -> Env, t: nat, exps: seq<Experiment>, cores: set<int>)
    returns (done: nat)
    requires Inv(s, exps, cores) && ProcessesEnd(s, envs) && forall u :: !Stuck(After(s, envs, u))
    ensures Left(After(s, envs, done))
    decreases |exps| - |After(s, envs, t).rows|
  {
    hide Inv, Pass;
    var now := After(s, envs, t);
    assert !Stuck(now);
    AfterSafe(s, envs, t, exps, cores);
    Counted(now, exps, cores);
    if now.running == [] {
      done := t;
    } else {
      var p := now.running[0];
      assert p in now.running;
      var t' :| t <= t' && envs(t').ended(p.core).Some?;
      NextRow(s, envs, t, t', p, exps, cores);
      AfterSafe(s, envs, t' + 1, exps, cores);
      Counted(After(s, envs, t' + 1), exps, cores);
      done := Arrives(s, envs, t' + 1, exps, cores);
    }
  }

  /** When the loop is left, over whole runs: exactly when every process ends and no pass, the first state
      included, ends all that runs while work is left and restarts none of it. */
  lemma FinishesExactly(s: Sched, envs: nat -> Env, exps: seq<Experiment>, cores: set<int>)
    requires Inv(s, exps, cores)
    ensures (exists t :: Left(After(s, envs, t))) <==>
            ProcessesEnd(s, envs) && forall t :: !EndsUnrestarted(After(s, envs, t), envs(t))
  {
    if t: nat :| Left(After(s, envs, t)) {
      LeftMeans(s, envs, t, exps, cores);
    }
    if ProcessesEnd(s, envs) && forall t :: !EndsUnrestarted(After(s, envs, t), envs(t)) {
      forall u ensures !Stuck(After(s, envs, u)) {
        GetsStuck(s, envs, u, exps, cores);
        StuckUnrestarted(After(s, envs, 0), envs(0));
      }
      var done := Arrives(s, envs, 0, exps, cores);
    }
  }

  lemma LeftMeans(s: Sched, envs: nat -> Env, t: nat, exps: seq<Experiment>, cores: set<int>)
    requires Inv(s, exps, cores) && Left(After(s, envs, t))
    ensures ProcessesEnd(s, envs) && forall u :: !EndsUnrestarted(After(s, envs, u), envs(u))
  {
    hide Inv, Pass;
    forall u: nat, p | p in After(s, envs, u).running ensures exists u' :: u <= u' && envs(u').ended(p.core).Some? {
      if u >= t {
        StaysLeft(s, envs, t, u);
      } else if forall u' | u <= u' < t :: envs(u').ended(p.core).None? {
        RunsOn(s, envs, u, t, p, exps, cores);
      }
    }
    forall u: nat ensures !EndsUnrestarted(After(s, envs, u), envs(u)) {
      if u >= t { StaysLeft(s, envs, t, u); } else { GetsStuck(s, envs, t, exps, cores); }
    }
  }

  ghost predicate StartsSucceed(envs: nat -> Env) {
    (forall t :: envs(t).memoryOk) && forall t, c :: envs(t).attempt(c) == Started
  }

  lemma NothingUnrestarted(s: Sched, env: Env)
    requires !Stuck(s) && env.memoryOk && forall c :: env.attempt(c) == Started
    ensures !EndsUnrestarted(s, env)
  {
    if s.running != [] { assert s.running[0] in s.running; }
  }

  lemma {:induction false} AfterKeeps(s: Sched, envs: nat -> Env, t: nat, exps: seq<Experiment>, cores: set<int>)
    requires Inv(s, exps, cores) && !Stuck(s) && StartsSucceed(envs)
    ensures Inv(After(s, envs, t), exps, cores) && !Stuck(After(s, envs, t))
  {
    hide Inv, Pass;
    if t > 0 {
      var (u, now) := (t - 1, After(s, envs, t - 1));
      AfterKeeps(s, envs, u, exps, cores);
      PassKeeps(now, envs(u), exps, cores);
      PassGetsStuck(now, envs(u), exps, cores);
      NothingUnrestarted(now, envs(u));
    }
  }

  /** In particular, if every start succeeds and every process ends, with every experiment finished. */
  lemma Finishes(s: Sched, envs: nat -> Env, exps: seq<Experiment>, cores: set<int>) returns (done: nat)
    requires Inv(s, exps, cores) && !Stuck(s) && StartsSucceed(envs) && ProcessesEnd(s, envs)
    ensures var e := After(s, envs, done);
            Left(e) && e.finished == |e.rows| == |exps| && multiset(RowExps(e.rows)) == multiset(exps)
  {
    hide Inv, Left;
    forall t: nat ensures !EndsUnrestarted(After(s, envs, t), envs(t)) {
      AfterKeeps(s, envs, t, exps, cores);
      NothingUnrestarted(After(s, envs, t), envs(t));
    }
    FinishesExactly(s, envs, exps, cores);
    done :| Left(After(s, envs, done));
    AfterSafe(s, envs, done, exps, cores);
    LeftIsDone(After(s, envs, done), exps, cores);
  }

  /** The initial dispatch is stuck exactly when there is work and no first start succeeds; in
      particular not when there is a core and every start succeeds. */
  lemma DispatchGetsStuck(exps: seq<Experiment>, workers: seq<int>, attempt: int -> Attempt)
    requires Distinct(workers)
    ensures Stuck(StartOn(Init(exps), workers, attempt)) <==>
            exps != [] && forall c | c in workers :: attempt(c) != Started
  {
    StartOnKeeps(Init(exps), workers, attempt, exps, set c | c in workers);
    StartOnAdds(Init(exps), workers, attempt, exps, set c | c in workers);
  }

  // ---------------------------------------------------------------------------------------
  // The core list
  // ---------------------------------------------------------------------------------------

  /** A comma-separated part of the `--cores` option. */
  datatype CorePart = One(core: int) | Range(first: int, last: int)

  function CoresOf(p: CorePart): (r: seq<int>)
    ensures forall c :: c in r <==> match p case One(n) => c == n case Range(a, b) => a <= c <= b
  {
    match p
    case One(n) => [n]
    case Range(a, b) => CountUp(a, b)
  }

  function CountUp(a: int, b: int): (r: seq<int>)
    ensures forall c :: c in r <==> a <= c <= b
    decreases b - a + 1
  {
    if b < a then [] else [a] + CountUp(a + 1, b)
  }

  predicate IntLeq(a: int, b: int) { a <= b }

  /** `sorted(set(xs))`. */
  function SortedSet(xs: seq<int>): seq<int> {
    Sort(Dedup(xs), IntLeq)
  }

  function Dedup(xs: seq<int>): seq<int> {
    if xs == [] then []
    else var n := |xs| - 1; Dedup(xs[..n]) + (if xs[n] in xs[..n] then [] else [xs[n]])
  }

  lemma {:induction false} DedupExact(xs: seq<int>)
    ensures Distinct(Dedup(xs)) && forall c :: c in Dedup(xs) <==> c in xs
  {
    if xs != [] {
      var n := |xs| - 1;
      DedupExact(xs[..n]);
      assert xs == xs[..n] + [xs[n]];
      if xs[n] !in xs[..n] { DistinctSnoc(Dedup(xs[..n]), xs[n]); }
    }
  }

  lemma SortedSetExact(xs: seq<int>)
    ensures var r := SortedSet(xs); (forall i, j | 0 <= i < j < |r| :: r[i] < r[j]) && forall c :: c in r <==> c in xs
  {
    var (d, r) := (Dedup(xs), SortedSet(xs));
    DedupExact(xs);
    SortCorrect(d, IntLeq);
    DistinctCounts(d);
    DistinctCounts(r);
    forall c ensures c in r <==> c in d {
      assert c in r <==> c in multiset(r);
      assert c in d <==> c in multiset(d);
    }
    forall i, j | 0 <= i < j < |r| ensures r[i] < r[j] {
      assert IntLeq(r[i], r[j]);
    }
  }

  method ParseCores(parts: seq<CorePart>) returns (cores: seq<int>)
    ensures forall i, j | 0 <= i < j < |cores| :: cores[i] < cores[j]
    ensures forall c :: c in cores <==> exists p | p in parts :: c in CoresOf(p)
  {
    var all: seq<int> := [];
    for i := 0 to |parts|
      invariant forall c :: c in all <==> exists p | p in parts[..i] :: c in CoresOf(p)
    {
      assert parts[..i + 1] == parts[..i] + [parts[i]];
      match parts[i] {
        case Range(a, b) => all := all + CountUp(a, b);
        case One(n) => all := all + [n];
      }
      assert forall c :: c in CoresOf(parts[i]) ==> c in all;
      forall c | c in all ensures exists p | p in parts[..i + 1] :: c in CoresOf(p) {
        if c !in CoresOf(parts[i]) {
          var p :| p in parts[..i] && c in CoresOf(p);
          assert p in parts[..i + 1];
        }
      }
    }
    assert parts[..|parts|] == parts;
    cores := SortedSet(all);
    SortedSetExact(all);
  }

  // ---------------------------------------------------------------------------------------
  // The program
  // ---------------------------------------------------------------------------------------

  /** `running.pop(core, None)`. */
  function Pop(ps: seq<Proc>, core: int): seq<Proc> {
    if ps == [] then []
    else var n := |ps| - 1; Pop(ps[..n], core) + (if ps[n].core == core then [] else [ps[n]])
  }

  function PopAll(ps: seq<Proc>, cores: seq<int>): seq<Proc> {
    if ps == [] then []
    else var n := |ps| - 1; PopAll(ps[..n], cores) + (if ps[n].core in cores then [] else [ps[n]])
  }

  lemma {:induction false} PopNothing(ps: seq<Proc>)
    ensures PopAll(ps, []) == ps
  {
    if ps != [] { PopNothing(ps[..|ps| - 1]); }
  }

  lemma {:induction false} PopOneMore(ps: seq<Proc>, cores: seq<int>, core: int)
    ensures Pop(PopAll(ps, cores), core) == PopAll(ps, cores + [core])
  {
    if ps != [] {
      var n := |ps| - 1;
      PopOneMore(ps[..n], cores, core);
      var kept := PopAll(ps[..n], cores);
      if ps[n].core in cores {
        assert kept + [] == kept;
      } else {
        assert (kept + [ps[n]])[..|kept|] == kept;
      }
    }
  }

  lemma {:induction false} PopEnded(ps: seq<Proc>, env: Env, cores: seq<int>)
    requires forall p | p in ps :: p.core in cores <==> env.ended(p.core).Some?
    ensures PopAll(ps, cores) == Remaining(ps, env)
  {
    if ps != [] {
      var n := |ps| - 1;
      assert ps == ps[..n] + [ps[n]];
      PopEnded(ps[..n], env, cores);
    }
  }

  lemma EndedCores(ps: seq<Proc>, env: Env)
    ensures PopAll(ps, Cores(Ended(ps, env))) == Remaining(ps, env)
  {
    forall p | p in ps ensures p.core in Cores(Ended(ps, env)) <==> env.ended(p.core).Some? {
      CoresMembers(Ended(ps, env), p.core);
      EndedMembers(ps, env, p);
      if q :| q in Ended(ps, env) && q.core == p.core { EndedMembers(ps, env, q); }
    }
    PopEnded(ps, env, Cores(Ended(ps, env)));
  }

  lemma {:induction false} NothingToStart(s: Sched, cs: seq<int>, attempt: int -> Attempt)
    ensures s.pending == [] || cs == [] ==> StartOn(s, cs, attempt) == s
  {
    if cs != [] { NothingToStart(s, cs[..|cs| - 1], attempt); }
  }

  lemma {:induction false} NoMoreStarts(s: Sched, cs: seq<int>, attempt: int -> Attempt, k: nat)
    requires k <= |cs| && StartOn(s, cs[..k], attempt).pending == []
    ensures StartOn(s, cs, attempt) == StartOn(s, cs[..k], attempt)
    decreases |cs|
  {
    if k < |cs| {
      var n := |cs| - 1;
      assert cs[..n][..k] == cs[..k];
      NoMoreStarts(s, cs[..n], attempt, k);
    } else {
      assert cs[..k] == cs;
    }
  }

  lemma EndedNothing(env: Env)
    ensures Ended([], env) == [] && RowsOf([], env) == [] && Cores([]) == []
  {
  }

  lemma EndedSnoc(ps: seq<Proc>, p: Proc, env: Env)
    ensures env.ended(p.core).Some? ==>
              && Ended(ps + [p], env) == Ended(ps, env) + [p]
              && RowsOf(ps + [p], env) == RowsOf(ps, env) + [Row(p.exp, p.core, env.ended(p.core).value)]
              && Cores(Ended(ps + [p], env)) == Cores(Ended(ps, env)) + [p.core]
    ensures env.ended(p.core).None? ==>
              Ended(ps + [p], env) == Ended(ps, env) && RowsOf(ps + [p], env) == RowsOf(ps, env)
  {
    assert (ps + [p])[..|ps|] == ps;
    assert Ended(ps, env) + [] == Ended(ps, env) && RowsOf(ps, env) + [] == RowsOf(ps, env);
    hide RowsOf;
    CoresSnoc(Ended(ps, env), p);
  }

  class Orchestration {
    var started: seq<Experiment>
    var pending: seq<Experiment>
    var running: seq<Proc>
    var rows: seq<Row>
    var finished: nat

    function View(): Sched
      reads this
    {
      Sched(started, pending, running, rows, finished)
    }

    constructor (exps: seq<Experiment>)
      ensures View() == Init(exps)
    {
      started, pending, running, rows, finished := [], exps, [], [], 0;
    }

    method TryStartNextOn(core: int, attempt: Attempt) returns (ok: bool)
      modifies this
      ensures View() == TryStart(old(View()), core, attempt)
      ensures ok <==> old(pending) != [] && attempt == Started
    {
      if |pending| == 0 {
        return false;
      }
      if attempt == Blocked {
        return false;
      }
      var exp := pending[0];
      pending := pending[1..];
      if attempt == Started {
        running := Put(running, Proc(core, exp));
        started := started + [exp];
        return true;
      } else {
        pending := [exp] + pending;
        return false;
      }
    }

    method InitialDispatch(workerCores: seq<int>, attempt: int -> Attempt)
      modifies this
      ensures View() == StartOn(old(View()), workerCores, attempt)
    {
      for i := 0 to |workerCores|
        invariant View() == StartOn(old(View()), workerCores[..i], attempt)
      {
        assert workerCores[..i + 1][..i] == workerCores[..i];
        var ok := TryStartNextOn(workerCores[i], attempt(workerCores[i]));
        if !ok {
          continue;
        }
      }
      assert workerCores[..|workerCores|] == workerCores;
    }

    /** Write the rows of the processes that have ended. */
    method RecordEnded(env: Env) returns (idleCores: seq<int>)
      modifies this`rows, this`finished
      ensures rows == old(rows) + RowsOf(running, env) && finished == old(finished) + |Ended(running, env)|
      ensures idleCores == Cores(Ended(running, env))
    {
      hide Ended, RowsOf, Cores;
      EndedNothing(env);
      idleCores := [];
      for i := 0 to |running|
        invariant rows == old(rows) + RowsOf(running[..i], env)
        invariant finished == old(finished) + |Ended(running[..i], env)|
        invariant idleCores == Cores(Ended(running[..i], env))
      {
        var rec := running[i];
        assert running[..i + 1] == running[..i] + [rec];
        EndedSnoc(running[..i], rec, env);
        var rc := env.ended(rec.core);
        if rc.Some? {
          rows := rows + [Row(rec.exp, rec.core, rc.value)];
          idleCores := idleCores + [rec.core];
          finished := finished + 1;
        }
      }
      assert running[..|running|] == running;
    }

    /** Drop the freed cores from the dictionary. */
    method RemoveCores(toRemove: seq<int>)
      modifies this`running
      ensures running == PopAll(old(running), toRemove)
    {
      PopNothing(running);
      for i := 0 to |toRemove|
        invariant running == PopAll(old(running), toRemove[..i])
      {
        PopOneMore(old(running), toRemove[..i], toRemove[i]);
        assert toRemove[..i + 1] == toRemove[..i] + [toRemove[i]];
        running := Pop(running, toRemove[i]);
      }
      assert toRemove[..|toRemove|] == toRemove;
    }

    method Restart(idleCores: seq<int>, env: Env)
      modifies this
      ensures View() == StartOn(old(View()), idleCores, env.attempt)
    {
      for i := 0 to |idleCores|
        invariant View() == StartOn(old(View()), idleCores[..i], env.attempt)
      {
        if |pending| == 0 {
          NoMoreStarts(old(View()), idleCores, env.attempt, i);
          return;
        }
        assert idleCores[..i + 1][..i] == idleCores[..i];
        var ok := TryStartNextOn(idleCores[i], env.attempt(idleCores[i]));
      }
      assert idleCores[..|idleCores|] == idleCores;
    }

    method LivePass(env: Env)
      modifies this
      ensures View() == Pass(old(View()), env)
    {
      hide Ended, Cores, Remaining, RowsOf, PopAll, StartOn;
      EndedCores(running, env);
      var idleCores := RecordEnded(env);
      RemoveCores(idleCores);
      NothingToStart(View(), idleCores, env.attempt);
      if idleCores != [] && pending != [] {
        if env.memoryOk {
          Restart(idleCores, env);
        }
      }
    }

    /** The live loop, watched for a number of passes. */
    method LiveLoop(envs: nat -> Env, passes: nat, ghost exps: seq<Experiment>, ghost cores: set<int>)
      returns (t: nat, done: bool)
      requires Inv(View(), exps, cores)
      modifies this
      ensures t <= passes && (done <==> Left(View())) && (!done ==> t == passes)
      ensures View() == After(old(View()), envs, t) && Inv(View(), exps, cores)
      ensures |View().running| <= old(|View().running|)
    {
      hide Inv, Pass, After;
      ghost var s0 := View();
      t := 0;
      AfterStep(s0, envs, 0);
      while (running != [] || pending != []) && t < passes
        invariant t <= passes && View() == After(s0, envs, t)
        invariant Inv(View(), exps, cores) && |View().running| <= |s0.running|
      {
        PassKeeps(View(), envs(t), exps, cores);
        AfterStep(s0, envs, t);
        LivePass(envs(t));
        t := t + 1;
      }
      done := running == [] && pending == [];
    }

    /** `orchestrate`, watched for a number of passes: whatever the machine does the scheduler is in
        the state of the model, and so safe. */
    method Orchestrate(exps: seq<Experiment>, cores: seq<int>, maxParallel: Option<int>,
                       attempt: int -> Attempt, envs: nat -> Env, passes: nat)
      returns (t: nat, done: bool)
      requires View() == Init(exps) && Distinct(cores)
      modifies this
      ensures t <= passes && (done <==> Left(View())) && (!done ==> t == passes)
      ensures var workers := WorkerCores(cores, maxParallel);
              && View() == After(StartOn(Init(exps), workers, attempt), envs, t)
              && Inv(View(), exps, set c | c in workers) && |View().running| <= |workers|
      ensures |View().running| <= |cores|
      ensures maxParallel.Some? && maxParallel.value > 0 ==> |View().running| <= maxParallel.value
    {
      WorkerCoresExact(cores, maxParallel);
      hide Inv, Pass, StartOn, WorkerCores, Distinct, After, Left;
      var workerCores := WorkerCores(cores, maxParallel);
      DispatchSafe(exps, cores, maxParallel, attempt);
      InitialDispatch(workerCores, attempt);
      t, done := LiveLoop(envs, passes, exps, set c | c in workerCores);
    }
  }

  lemma AfterStep(s: Sched, envs: nat -> Env, t: nat)
    ensures After(s, envs, 0) == s && After(s, envs, t + 1) == Pass(After(s, envs, t), envs(t))
  {
  }

  lemma DispatchSafe(exps: seq<Experiment>, cores: seq<int>, maxParallel: Option<int>, attempt: int -> Attempt)
    requires Distinct(cores)
    ensures var workers := WorkerCores(cores, maxParallel);
            var s := StartOn(Init(exps), workers, attempt);
            Inv(s, exps, set c | c in workers) && |s.running| <= |workers|
  {
    var workers := WorkerCores(cores, maxParallel);
    assert Distinct(workers);
    assert Inv(Init(exps), exps, set c | c in workers);
    StartOnKeeps(Init(exps), workers, attempt, exps, set c | c in workers);
  }

  /** The first `max_parallel` cores, or all of them when the option is missing or not positive. */
  function WorkerCores(cores: seq<int>, maxParallel: Option<int>): seq<int> {
    var limit := if maxParallel.None? || maxParallel.value <= 0 then |cores| else maxParallel.value;
    if limit <= |cores| then cores[..limit] else cores
  }

  /** A positive `max_parallel` bounds the workers, and nothing else does; the cores listed first are the ones used. */
  lemma WorkerCoresExact(cores: seq<int>, maxParallel: Option<int>)
    ensures var workers := WorkerCores(cores, maxParallel);
            && workers <= cores
            && (maxParallel.None? || maxParallel.value <= 0 || maxParallel.value >= |cores| ==> workers == cores)
            && (maxParallel.Some? && 0 < maxParallel.value <= |cores| ==> |workers| == maxParallel.value)
  {
    var limit := if maxParallel.None? || maxParallel.value <= 0 then |cores| else maxParallel.value;
    if limit <= |cores| { assert cores == cores[..limit] + cores[limit..]; }
  }
}
