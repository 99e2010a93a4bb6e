/** The benchmark engine of `bench-scheduler.cc`: a population of events each of which schedules its
    successor, and the online mean and second moment of the run results. */
module BenchEngine {
  import opened Means
  import opened Ordering

  // ---------------------------------------------------------------------------------------
  // The event population
  // ---------------------------------------------------------------------------------------

  /** Something is due, and `t` is the earliest time at which it is. */
  predicate IsNext(queue: multiset<nat>, t: nat) {
    t in queue && forall u | u in queue :: t <= u
  }

  lemma {:induction false} SomeNext(queue: multiset<nat>)
    requires queue != multiset{}
    ensures exists t :: IsNext(queue, t)
    decreases |queue|
  {
    var x :| x in queue;
    var rest := queue - multiset{x};
    if rest == multiset{} {
      assert IsNext(queue, x) by {
        forall u | u in queue ensures x <= u { assert u == x || u in rest; }
      }
    } else {
      SomeNext(rest);
      var t :| IsNext(rest, t);
      var m := if x <= t then x else t;
      forall u | u in queue ensures m <= u { assert u == x || u in rest; }
      assert IsNext(queue, m);
    }
  }

  /** The queue `after` the event due at `t` has run: it has left, and if `succeeded` its successor is due after the
      delay. */
  ghost predicate Turns(queue: multiset<nat>, after: multiset<nat>, t: nat, delay: nat, succeeded: bool) {
    && IsNext(queue, t)
    && after == if succeeded then queue - multiset{t} + multiset{t + delay} else queue - multiset{t}
  }

  lemma Succeeds(queue: multiset<nat>, after: multiset<nat>, t: nat, delay: nat)
    requires Turns(queue, after, t, 0, false)
    ensures Turns(queue, after, t, delay, false) && Turns(queue, after + multiset{t + delay}, t, delay, true)
  {
  }

  ghost predicate NothingPast(queue: multiset<nat>, now: nat) {
    forall u | u in queue :: now <= u
  }

  lemma StillNothingPast(queue: multiset<nat>, now: nat, delay: nat)
    requires NothingPast(queue, now)
    ensures NothingPast(queue + multiset{now + delay}, now)
  {
  }

  /** The callbacks run at `times`, always the earliest time due, and the queue between them; the first `total`
      callbacks use up one delay each, from `first` on. */
  ghost predicate Unfolds(times: seq<nat>, queues: seq<multiset<nat>>, draw: nat -> nat, first: nat, total: nat) {
    && |queues| == |times| + 1
    && forall k: nat | k < |times| :: Turns(queues[k], queues[k + 1], times[k], draw(first + k), k < total)
  }

  lemma UnfoldsMore(times: seq<nat>, queues: seq<multiset<nat>>, draw: nat -> nat, first: nat, total: nat, t: nat,
                    queue: multiset<nat>)
    requires Unfolds(times, queues, draw, first, total)
    requires Turns(queues[|times|], queue, t, draw(first + |times|), |times| < total)
    ensures Unfolds(times + [t], queues + [queue], draw, first, total)
  {
    hide Turns;
  }

  /** The delays drawn one after the other, `first` being the number of the first. */
  ghost predicate Drawn(delays: seq<nat>, draw: nat -> nat, first: nat) {
    forall i: nat | i < |delays| :: delays[i] == draw(first + i)
  }

  /** The simulator seen through a priority queue of due times: every event is the benchmark's
      callback. `draw` is the stream of delays, `draws` how many have been used. */
  class Bench {
    const draw: nat -> nat
    var population: nat
    var total: nat
    var count: nat
    var draws: nat
    var queue: multiset<nat>
    var now: nat
    var stopped: bool
    ghost var callbacks: nat

    constructor (population: nat, total: nat, draw: nat -> nat)
      ensures this.population == population && this.total == total && count == 0 && this.draw == draw
    {
      this.population, this.total, this.draw := population, total, draw;
      count, draws, queue, now, stopped, callbacks := 0, 0, multiset{}, 0, false, 0;
    }

    /** Between callbacks: until `Stop` the queue holds the whole population, nothing is due in the past,
        and every callback so far has been counted; the callback that stops the run is the one extra. */
    ghost predicate Valid()
      reads this
    {
      && count <= total
      && NothingPast(queue, now)
      && (!stopped ==> |queue| == population && callbacks == count)
      && (stopped ==> count == total && callbacks == total + 1 && |queue| + 1 == population)
    }

    method Schedule(delay: nat)
      modifies this`queue, this`draws
      ensures queue == old(queue) + multiset{now + delay} && draws == old(draws) + 1
    {
      queue := queue + multiset{now + delay};
      draws := draws + 1;
    }

    /** The event function. */
    method Cb()
      modifies this`stopped, this`queue, this`draws, this`count
      ensures old(count) >= total ==> stopped && queue == old(queue) && count == old(count) && draws == old(draws)
      ensures old(count) < total ==>
                stopped == old(stopped) && count == old(count) + 1 && draws == old(draws) + 1
                && queue == old(queue) + multiset{now + draw(old(draws))}
    {
      if count >= total {
        stopped := true;
        return;
      }
      var after := draw(draws);
      Schedule(after);
      count := count + 1;
    }

    /** Advance to the earliest event and take it out of the queue. */
    method TakeNext()
      requires queue != multiset{} && NothingPast(queue, now)
      modifies this`queue, this`now
      ensures now >= old(now) && |queue| + 1 == |old(queue)| && NothingPast(queue, now)
      ensures Turns(old(queue), queue, now, 0, false)
    {
      SomeNext(queue);
      var t :| IsNext(queue, t);
      assert forall u | u in queue - multiset{t} :: u in queue;
      queue := queue - multiset{t};
      now := t;
    }

    /** Run the earliest event: time does not go back, and the population is kept. */
    method Step()
      requires Valid() && !stopped && queue != multiset{}
      modifies this`queue, this`draws, this`count, this`now, this`stopped, this`callbacks
      ensures Valid() && now >= old(now) && callbacks == old(callbacks) + 1
      ensures stopped <==> old(count) == total
      ensures Turns(old(queue), queue, now, draw(old(draws)), !stopped)
      ensures count == old(count) + (if stopped then 0 else 1) && draws == old(draws) + (if stopped then 0 else 1)
    {
      hide Turns, NothingPast;
      TakeNext();
      StillNothingPast(queue, now, draw(draws));
      Succeeds(old(queue), queue, now, draw(draws));
      callbacks := callbacks + 1;
      Cb();
    }

    /** Start over, with one event for each of the population. */
    method Populate() returns (ghost delays: seq<nat>)
      modifies this
      ensures population == old(population) && total == old(total) && draws == old(draws) + population
      ensures count == 0 && now == 0 && !stopped && callbacks == 0
      ensures Drawn(delays, draw, old(draws)) && |delays| == population && queue == multiset(delays)
    {
      count := 0;
      now, queue, stopped, callbacks := 0, multiset{}, false, 0;
      delays := [];
      for i := 0 to population
        invariant count == 0 && now == 0 && !stopped && callbacks == 0
        invariant population == old(population) && total == old(total)
        invariant draws == old(draws) + i && |delays| == i
        invariant Drawn(delays, draw, old(draws)) && queue == multiset(delays)
      {
        var at := draw(draws);
        Schedule(at);
        delays := delays + [at];
      }
    }

    /** A run with a non-empty population takes exactly `total + 1` callbacks, the last of which finds
        the total reached and stops it; an empty population runs nothing. It begins with as many events as the
        population, one delay each, and always runs the earliest event next. */
    method Run() returns (pop: nat, events: nat)
      modifies this
      ensures population == old(population) && total == old(total) && pop == population && events == count
      ensures population > 0 ==> events == total && callbacks == total + 1 && stopped
      ensures population == 0 ==> events == 0 && callbacks == 0 && !stopped
      ensures draws == old(draws) + population + events
      ensures exists delays, times, queues ::
                && Unfolds(times, queues, draw, old(draws) + population, total) && |times| == callbacks
                && Drawn(delays, draw, old(draws)) && |delays| == population
                && queues[0] == multiset(delays) && queues[|times|] == queue
    {
      hide Drawn, Unfolds, Turns;
      ghost var first := draws;
      ghost var delays := Populate();
      ghost var times: seq<nat>, queues := [], [queue];
      NothingRun(queue, draw, first + population, total);
      while queue != multiset{} && !stopped
        invariant Valid() && population == old(population) && total == old(total)
        invariant population == 0 ==> callbacks == 0
        invariant draws == first + population + count
        invariant |times| == callbacks && |queues| == callbacks + 1 && queues[|times|] == queue
        invariant queues[0] == multiset(delays)
        invariant Unfolds(times, queues, draw, first + population, total)
        decreases !stopped, total - count
      {
        Step();
        UnfoldsMore(times, queues, draw, first + population, total, now, queue);
        times, queues := times + [now], queues + [queue];
      }
      return population, count;
    }
  }

  lemma NothingRun(queue: multiset<nat>, draw: nat -> nat, first: nat, total: nat)
    ensures Unfolds([], [queue], draw, first, total)
  {
  }

  // ---------------------------------------------------------------------------------------
  // Mean and second moment
  // ---------------------------------------------------------------------------------------

  /** Sum of squared distances from `c`. */
  function SquaredDeviations(xs: seq<real>, c: real): real {
    if xs == [] then 0.0
    else var x := xs[|xs| - 1]; SquaredDeviations(xs[..|xs| - 1], c) + (x - c) * (x - c)
  }

  function SumOfSquares(xs: seq<real>): real {
    if xs == [] then 0.0 else var x := xs[|xs| - 1]; SumOfSquares(xs[..|xs| - 1]) + x * x
  }

  lemma SumsSnoc(xs: seq<real>, x: real)
    ensures Sum(xs + [x]) == Sum(xs) + x && SumOfSquares(xs + [x]) == SumOfSquares(xs) + x * x
  {
    assert (xs + [x])[..|xs|] == xs;
  }

  function Squared(d: real): real { d * d }

  /** Squared deviations from `c` of `n` samples with sum `s` and sum of squares `q`. */
  function Expanded(q: real, s: real, n: real, c: real): real { q - 2.0 * c * s + n * c * c }

  lemma DeviationsSnoc(xs: seq<real>, x: real, c: real)
    ensures SquaredDeviations(xs + [x], c) == SquaredDeviations(xs, c) + Squared(x - c)
  {
    assert (xs + [x])[..|xs|] == xs;
  }

  lemma NoSamples(c: real)
    ensures Expanded(0.0, 0.0, 0.0, c) == 0.0
  {
  }

  lemma OneMore(q: real, s: real, n: real, x: real, c: real)
    ensures Expanded(q, s, n, c) + Squared(x - c) == Expanded(q + x * x, s + x, n + 1.0, c)
  {
    Square(x, c, s, n);
  }

  lemma {:induction false} DeviationsExpanded(xs: seq<real>, c: real)
    ensures SquaredDeviations(xs, c) == Expanded(SumOfSquares(xs), Sum(xs), |xs| as real, c)
  {
    hide Expanded, Squared;
    if xs == [] {
      NoSamples(c);
    } else {
      var (front, x) := (xs[..|xs| - 1], xs[|xs| - 1]);
      assert xs == front + [x] && |xs| as real == |front| as real + 1.0;
      hide SquaredDeviations, SumOfSquares, Sum;
      DeviationsExpanded(front, c);
      SumsSnoc(front, x);
      DeviationsSnoc(front, x, c);
      OneMore(SumOfSquares(front), Sum(front), |front| as real, x, c);
    }
  }

  lemma {:induction false} DeviationsExpand(xs: seq<real>, c: real)
    ensures SquaredDeviations(xs, c) == SumOfSquares(xs) - 2.0 * c * Sum(xs) + (|xs| as real) * c * c
  {
    DeviationsExpanded(xs, c);
    hide SquaredDeviations, SumOfSquares, Sum;
  }

  lemma Square(x: real, c: real, s: real, n: real)
    ensures (x - c) * (x - c) == x * x - 2.0 * c * x + c * c
    ensures 2.0 * c * (s + x) == 2.0 * c * s + 2.0 * c * x
    ensures (n + 1.0) * c * c == n * c * c + c * c
  {
  }

  lemma {:induction false} DeviationsNonNegative(xs: seq<real>, c: real)
    ensures SquaredDeviations(xs, c) >= 0.0
  {
    if xs != [] {
      DeviationsNonNegative(xs[..|xs| - 1], c);
      var d := xs[|xs| - 1] - c;
      assert d * d >= 0.0;
    }
  }

  /** One accumulator pair: what `average` and `moment2` hold after the samples `xs`, whatever the
      average started at. */
  ghost predicate Accumulated(xs: seq<real>, average: real, moment2: real) {
    && (xs != [] ==> average == Mean(xs) && moment2 == SquaredDeviations(xs, Mean(xs)))
    && (xs == [] ==> moment2 == 0.0)
  }

  /** The new mean: the sum over one sample more. */
  lemma NewMean(s: real, n: real, x: real)
    requires n > 0.0
    ensures s / n + (x - s / n) / (n + 1.0) == (s + x) / (n + 1.0)
  {
    var m := s / n;
    var d := (x - m) / (n + 1.0);
    assert m * n == s && d * (n + 1.0) == x - m;
    assert (m + d) * (n + 1.0) == m * n + m + d * (n + 1.0);
    assert (m + d) * (n + 1.0) == s + x;
  }

  /** The increment of the second moment, for old mean `m`, new mean `k` and `n` old samples. */
  lemma MomentIncrement(n: real, m: real, k: real, x: real)
    requires (n + 1.0) * k == n * m + x
    ensures x * x - (n + 1.0) * k * k + n * m * m == (x - m) * (x - k)
  {
    var d := k - m;
    assert x == (n + 1.0) * k - n * m;
    assert x - k == n * d;
    assert x - m == n * d + d;
    assert (x - m) * (x - k) == (n * d + d) * (n * d);
    assert x == n * d + k && m == k - d;
    Expand(n, d, k);
  }

  lemma Expand(n: real, d: real, k: real)
    ensures (n * d + k) * (n * d + k) - (n + 1.0) * k * k + n * (k - d) * (k - d) == (n * d + d) * (n * d)
  {
    assert (n * d + k) * (n * d + k) == (n * d) * (n * d) + 2.0 * (n * d) * k + k * k;
    assert n * (k - d) * (k - d) == n * k * k - 2.0 * (n * d) * k + (n * d) * d;
    assert (n + 1.0) * k * k == n * k * k + k * k;
  }

  lemma MeanShare(q: real, n: real, c: real, s: real)
    requires s == n * c
    ensures q - 2.0 * c * s + n * c * c == q - n * c * c
  {
    assert c * s == n * c * c;
    assert 2.0 * c * s == 2.0 * (c * s);
  }

  /** About their mean, the squared deviations are the sum of squares less the mean's share. */
  lemma AboutMean(xs: seq<real>)
    requires xs != []
    ensures Sum(xs) == (|xs| as real) * Mean(xs)
    ensures SquaredDeviations(xs, Mean(xs)) == SumOfSquares(xs) - (|xs| as real) * Mean(xs) * Mean(xs)
  {
    hide Sum, SumOfSquares, SquaredDeviations;
    DeviationsExpand(xs, Mean(xs));
    MeanShare(SumOfSquares(xs), |xs| as real, Mean(xs), Sum(xs));
  }

  function NewAverage(sample: real, average: real, count: nat): real
    requires count > 0
  {
    average + (sample - average) / (count as real)
  }

  function NewMoment(sample: real, average: real, average': real, moment2: real): real {
    moment2 + (sample - average) * (sample - average')
  }

  /** The first sample: whatever the average started at drops out. */
  lemma AccumulateFirst(average: real, x: real)
    ensures var average' := NewAverage(x, average, 1);
            Accumulated([x], average', NewMoment(x, average, average', 0.0))
  {
    assert [x][..0] == [];
    assert Sum([x]) == x && Mean([x]) == x;
    assert SquaredDeviations([x], x) == (x - x) * (x - x) == 0.0;
  }

  /** The step in terms of sums alone: `s` and `q` are the old sum and sum of squares. */
  lemma UpdateMoment(n: real, s: real, q: real, m: real, k: real, x: real)
    requires s == n * m && s + x == (n + 1.0) * k
    ensures q + x * x - (n + 1.0) * k * k == (q - n * m * m) + (x - m) * (x - k)
  {
    MomentIncrement(n, m, k, x);
  }

  lemma AccumulateNext(xs: seq<real>, average: real, moment2: real, x: real)
    requires xs != [] && Accumulated(xs, average, moment2)
    ensures var average' := NewAverage(x, average, |xs| + 1);
            Accumulated(xs + [x], average', NewMoment(x, average, average', moment2))
  {
    hide Sum, SumOfSquares, SquaredDeviations;
    var (ys, n) := (xs + [x], |xs| as real);
    assert |ys| as real == n + 1.0;
    AboutMean(xs);
    AboutMean(ys);
    SumsSnoc(xs, x);
    NewMean(Sum(xs), n, x);
    assert NewAverage(x, average, |xs| + 1) == Mean(ys);
    UpdateMoment(n, Sum(xs), SumOfSquares(xs), average, Mean(ys), x);
  }

  lemma AccumulateStep(xs: seq<real>, average: real, moment2: real, x: real)
    requires Accumulated(xs, average, moment2)
    ensures var average' := NewAverage(x, average, |xs| + 1);
            Accumulated(xs + [x], average', NewMoment(x, average, average', moment2))
  {
    if xs == [] {
      AccumulateFirst(average, x);
      assert xs + [x] == [x];
    } else {
      hide Accumulated, NewAverage, NewMoment;
      AccumulateNext(xs, average, moment2, x);
    }
  }

  lemma SumsInsert(front: seq<real>, x: real, back: seq<real>)
    ensures Sum(front + [x] + back) == Sum(front + back) + x
    ensures SumOfSquares(front + [x] + back) == SumOfSquares(front + back) + x * x
  {
    hide Sum, SumOfSquares;
    SumsConcat(front, back);
    SumsConcat(front + [x], back);
    SumsSnoc(front, x);
  }

  /** Sums do not depend on the order of the samples. */
  lemma {:induction false} SumsPerm(a: seq<real>, b: seq<real>)
    requires multiset(a) == multiset(b)
    ensures Sum(a) == Sum(b) && SumOfSquares(a) == SumOfSquares(b)
  {
    hide *;
    assert |multiset(a)| == |a| && |multiset(b)| == |b|;
    if a == [] {
      assert a == b;
    } else {
      var i := PermSplit(a, b);
      var (rest, front, back) := (a[..|a| - 1], b[..i], b[i + 1..]);
      SumsPerm(rest, front + back);
      assert a == rest + [b[i]];
      SumsSnoc(rest, b[i]);
      SumsInsert(front, b[i], back);
    }
  }

  lemma {:induction false} SumsConcat(a: seq<real>, b: seq<real>)
    ensures Sum(a + b) == Sum(a) + Sum(b) && SumOfSquares(a + b) == SumOfSquares(a) + SumOfSquares(b)
  {
    if b == [] {
      assert a + b == a;
    } else {
      var n := |b| - 1;
      assert (a + b)[..|a| + n] == a + b[..n];
      SumsConcat(a, b[..n]);
    }
  }

  /** The statistics of a set of runs are the same in whatever order the runs were made. */
  lemma OrderIrrelevant(xs: seq<real>, ys: seq<real>, average: real, moment2: real, average': real, moment2': real)
    requires xs != [] && multiset(xs) == multiset(ys)
    requires Accumulated(xs, average, moment2) && Accumulated(ys, average', moment2')
    ensures average == average' && moment2 == moment2' && moment2 >= 0.0
  {
    assert |multiset(xs)| == |xs| && |multiset(ys)| == |ys|;
    SumsPerm(xs, ys);
    AboutMean(xs);
    AboutMean(ys);
    DeviationsNonNegative(xs, Mean(xs));
  }

  ghost predicate SquaresOf(squares: seq<real>, xs: seq<real>, c: real) {
    |squares| == |xs| && forall i | 0 <= i < |xs| :: squares[i] == Squared(xs[i] - c)
  }

  lemma SquaresMore(squares: seq<real>, xs: seq<real>, c: real, x: real)
    requires SquaresOf(squares, xs, c)
    ensures SquaresOf(squares + [Squared(x - c)], xs + [x], c)
  {
    hide Squared;
  }

  lemma {:induction false} DeviationsMeaning(xs: seq<real>, c: real) returns (squares: seq<real>)
    ensures SquaresOf(squares, xs, c) && Sum(squares) == SquaredDeviations(xs, c)
  {
    hide Squared;
    if xs == [] {
      squares := [];
    } else {
      var (front, x) := (xs[..|xs| - 1], xs[|xs| - 1]);
      assert xs == front + [x];
      hide *;
      squares := DeviationsMeaning(front, c);
      SquaresMore(squares, front, c, x);
      SumSnoc(squares, Squared(x - c));
      DeviationsSnoc(front, x, c);
      squares := squares + [Squared(x - c)];
    }
  }

  ghost predicate AddUpTo(xs: seq<real>, total: real) {
    exists sums :: SumsOf(sums, xs) && sums[|xs|] == total
  }

  /** The average times the number of samples is their sum. */
  ghost predicate IsAverage(average: real, xs: seq<real>) {
    exists total :: AddUpTo(xs, total) && average * (|xs| as real) == total
  }

  /** The moment is the sum of the squared distances from the average. */
  ghost predicate Describes(average: real, moment2: real, xs: seq<real>) {
    && IsAverage(average, xs)
    && exists squares :: SquaresOf(squares, xs, average) && AddUpTo(squares, moment2)
  }

  lemma AddsUp(xs: seq<real>)
    ensures AddUpTo(xs, Sum(xs))
  {
    var sums := SumMeaning(xs);
    hide Sum;
  }

  lemma MeanIsAverage(xs: seq<real>, m: real)
    requires xs != [] && m == Mean(xs)
    ensures IsAverage(m, xs)
  {
    hide AddUpTo, Sum, Mean;
    AddsUp(xs);
    MeanTimesCount(xs, |xs|, m);
  }

  /** What the two numbers accumulated say about the samples. */
  lemma StatisticsMeaning(xs: seq<real>)
    requires xs != []
    ensures Describes(Mean(xs), SquaredDeviations(xs, Mean(xs)), xs)
  {
    hide Mean, Sum, SquaredDeviations, SquaresOf, AddUpTo, IsAverage;
    MeanIsAverage(xs, Mean(xs));
    var squares := DeviationsMeaning(xs, Mean(xs));
    AddsUp(squares);
  }

  datatype PhaseResult = PhaseResult(time: real, rate: real, period: real)

  datatype Result = Result(init: PhaseResult, run: PhaseResult)

  /** The six columns of the table. */
  datatype Field = InitTime | InitRate | InitPeriod | RunTime | RunRate | RunPeriod

  function Get(r: Result, f: Field): real {
    match f
    case InitTime => r.init.time
    case InitRate => r.init.rate
    case InitPeriod => r.init.period
    case RunTime => r.run.time
    case RunRate => r.run.rate
    case RunPeriod => r.run.period
  }

  function Samples(results: seq<Result>, f: Field): seq<real> {
    seq(|results|, i requires 0 <= i < |results| => Get(results[i], f))
  }

  /** The columns are the six fields of the results, row by row. */
  lemma SamplesExact(results: seq<Result>, i: nat)
    requires i < |results|
    ensures forall f :: |Samples(results, f)| == |results|
    ensures var (init, run) := (results[i].init, results[i].run);
            && init == PhaseResult(Samples(results, InitTime)[i], Samples(results, InitRate)[i],
                                   Samples(results, InitPeriod)[i])
            && run == PhaseResult(Samples(results, RunTime)[i], Samples(results, RunRate)[i],
                                  Samples(results, RunPeriod)[i])
  {
  }

  /** The macro `ACCUMULATE`, on one field. */
  method Accumulate(sample: real, average: real, moment2: real, count: nat, ghost xs: seq<real>)
    returns (average': real, moment2': real)
    requires Accumulated(xs, average, moment2) && count == |xs| + 1
    ensures Accumulated(xs + [sample], average', moment2')
  {
    hide Accumulated;
    AccumulateStep(xs, average, moment2, sample);
    var deltaPre := sample - average;
    average' := average + deltaPre / (count as real);
    assert average' == NewAverage(sample, average, |xs| + 1);
    var deltaPost := sample - average';
    moment2' := moment2 + deltaPre * deltaPost;
    assert moment2' == NewMoment(sample, average, average', moment2);
  }

  datatype Statistics = NoStatistics | Statistics(average: Result, moment2: Result, n: nat)

  /** `BenchSuite::Log`: for two runs or more every average is the arithmetic mean of its column, and
      every second moment the sum of squared deviations from it. */
  method Log(results: seq<Result>) returns (s: Statistics)
    ensures s == NoStatistics <==> |results| < 2
    ensures s != NoStatistics ==> s.n == |results| && forall f ::
              Get(s.average, f) == Mean(Samples(results, f))
              && Get(s.moment2, f) == SquaredDeviations(Samples(results, f), Mean(Samples(results, f)))
              && Describes(Get(s.average, f), Get(s.moment2, f), Samples(results, f))
  {
    hide Describes;
    if |results| < 2 {
      return NoStatistics;
    }
    var n := 0;
    var average := results[0];
    var moment2 := Result(PhaseResult(0.0, 0.0, 0.0), PhaseResult(0.0, 0.0, 0.0));
    while n < |results|
      invariant n <= |results|
      invariant forall f :: Accumulated(Samples(results[..n], f), Get(average, f), Get(moment2, f))
    {
      average, moment2 := AccumulateAll(results, n, average, moment2);
      n := n + 1;
    }
    assert results[..n] == results;
    s := Statistics(average, moment2, n);
    forall f ensures Describes(Get(s.average, f), Get(s.moment2, f), Samples(results, f)) {
      StatisticsMeaning(Samples(results, f));
    }
  }

  /** One iteration of the loop: the six fields in turn. */
  method AccumulateAll(results: seq<Result>, n: nat, average: Result, moment2: Result)
    returns (average': Result, moment2': Result)
    requires n < |results|
    requires forall f :: Accumulated(Samples(results[..n], f), Get(average, f), Get(moment2, f))
    ensures forall f :: Accumulated(Samples(results[..n + 1], f), Get(average', f), Get(moment2', f))
  {
    var run := results[n];
    var count := n + 1;
    ghost var past := results[..n];
    assert forall f :: Samples(results[..n + 1], f) == Samples(past, f) + [Get(run, f)];
    var a0, m0 := Accumulate(run.init.time, average.init.time, moment2.init.time, count, Samples(past, InitTime));
    var a1, m1 := Accumulate(run.init.rate, average.init.rate, moment2.init.rate, count, Samples(past, InitRate));
    var a2, m2 := Accumulate(run.init.period, average.init.period, moment2.init.period, count, Samples(past,
              InitPeriod));
    var a3, m3 := Accumulate(run.run.time, average.run.time, moment2.run.time, count, Samples(past, RunTime));
    var a4, m4 := Accumulate(run.run.rate, average.run.rate, moment2.run.rate, count, Samples(past, RunRate));
    var a5, m5 := Accumulate(run.run.period, average.run.period, moment2.run.period, count, Samples(past, RunPeriod));
    average' := Result(PhaseResult(a0, a1, a2), PhaseResult(a3, a4, a5));
    moment2' := Result(PhaseResult(m0, m1, m2), PhaseResult(m3, m4, m5));
  }
}
