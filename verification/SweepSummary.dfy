/** The summary file of the topology sweep: `write_summary` averages the successful runs of each
    configuration, and `synthesize_run_rows_from_summary` makes run rows back from it when the run file
    is missing. Numbers are exact reals and a blank cell is an absent entry. */
module SweepSummary {
  import opened Means
  import opened Ordering

  datatype Column = InitTime | InitMem | RouteMem | ExecTime | ExecMem | Wall | Hosts

  const COLUMNS := [InitTime, InitMem, RouteMem, ExecTime, ExecMem, Wall, Hosts]

  datatype Key = Key(topology: string, scale: int, routing: string, threads: int, dataSize: int)

  /** A run row; `success` is whether its return code is "0". */
  datatype Row = Row(key: Key, repetition: int, success: bool, metrics: map<Column, real>)

  datatype SummaryRow = SummaryRow(key: Key, means: map<Column, real>, repeatCount: nat)

  /** The order of the summary: scale, routing, threads, data size. The topology does not take part. */
  predicate KeyLeq(a: Key, b: Key) {
    a.scale < b.scale
    || (a.scale == b.scale
        && (if a.routing != b.routing then StringLeq(a.routing, b.routing)
            else a.threads < b.threads || (a.threads == b.threads && a.dataSize <= b.dataSize)))
  }

  lemma KeyOrder()
    ensures TotalPreorder(KeyLeq)
  {
    StringOrder();
    forall a, b ensures KeyLeq(a, b) || KeyLeq(b, a) {
      assert StringLeq(a.routing, b.routing) || StringLeq(b.routing, a.routing);
    }
    forall a, b, c | KeyLeq(a, b) && KeyLeq(b, c) ensures KeyLeq(a, c) { KeyTransitive(a, b, c); }
  }

  lemma KeyTransitive(a: Key, b: Key, c: Key)
    requires KeyLeq(a, b) && KeyLeq(b, c)
    ensures KeyLeq(a, c)
  {
    if a.scale == b.scale == c.scale {
      if a.routing != b.routing && b.routing != c.routing {
        StringLeqTransitive(a.routing, b.routing, c.routing);
        if a.routing == c.routing { StringLeqAntisymmetric(a.routing, b.routing); }
      }
    }
  }

  // ---------------------------------------------------------------------------------------
  // What a summary is
  // ---------------------------------------------------------------------------------------

  /** The keys of the successful rows, in order of first appearance. */
  function KeysOf(rows: seq<Row>): seq<Key> {
    if rows == [] then []
    else var (ks, r) := (KeysOf(rows[..|rows| - 1]), rows[|rows| - 1]);
         if r.success && r.key !in ks then ks + [r.key] else ks
  }

  /** The values a column has in the successful rows of a key. */
  function Values(rows: seq<Row>, k: Key, c: Column): seq<real> {
    if rows == [] then []
    else var r := rows[|rows| - 1];
         Values(rows[..|rows| - 1], k, c) + (if r.success && r.key == k && c in r.metrics then [r.metrics[c]] else [])
  }

  function SummaryOf(rows: seq<Row>, k: Key): SummaryRow {
    SummaryRow(k, map c | c in COLUMNS && Values(rows, k, c) != [] :: Mean(Values(rows, k, c)), |Values(rows, k, Wall)|)
  }

  function SummariesOf(rows: seq<Row>, ks: seq<Key>): (r: seq<SummaryRow>)
    ensures |r| == |ks| && forall i | 0 <= i < |ks| :: r[i] == SummaryOf(rows, ks[i])
  {
    seq(|ks|, i requires 0 <= i < |ks| => SummaryOf(rows, ks[i]))
  }

  function Summary(rows: seq<Row>): seq<SummaryRow> {
    SummariesOf(rows, Sort(KeysOf(rows), KeyLeq))
  }

  /** The rows made from one summary row: at least one, one per recorded repetition. */
  function Copies(s: SummaryRow, n: nat): seq<Row> {
    if n == 0 then [] else Copies(s, n - 1) + [Row(s.key, n, true, s.means)]
  }

  function RowsFor(s: SummaryRow): seq<Row> {
    Copies(s, if s.repeatCount > 1 then s.repeatCount else 1)
  }

  predicate Kept(s: SummaryRow, topology: string) {
    s.key.topology == topology && s.key.routing != ""
  }

  function Synthesized(summary: seq<SummaryRow>, topology: string): seq<Row> {
    if summary == [] then []
    else var s := summary[|summary| - 1];
         Synthesized(summary[..|summary| - 1], topology) + (if Kept(s, topology) then RowsFor(s) else [])
  }

  // ---------------------------------------------------------------------------------------
  // Facts about keys and values
  // ---------------------------------------------------------------------------------------

  lemma {:induction false} KeysExact(rows: seq<Row>)
    ensures Distinct(KeysOf(rows))
    ensures forall k :: k in KeysOf(rows) <==> exists r | r in rows :: r.success && r.key == k
  {
    if rows != [] {
      var n := |rows| - 1;
      KeysExact(rows[..n]);
      assert rows == rows[..n] + [rows[n]];
      var ks := KeysOf(rows[..n]);
      assert forall i | 0 <= i < |ks| :: ks[i] in ks;
    }
  }

  lemma {:induction false} ValuesConcat(a: seq<Row>, b: seq<Row>, k: Key, c: Column)
    ensures Values(a + b, k, c) == Values(a, k, c) + Values(b, k, c)
  {
    if b == [] {
      assert a + b == a;
    } else {
      var n := |b| - 1;
      assert (a + b)[..|a| + n] == a + b[..n];
      ValuesConcat(a, b[..n], k, c);
    }
  }

  lemma ValuesSnoc(rows: seq<Row>, r: Row, k: Key, c: Column)
    ensures Values(rows + [r], k, c)
            == Values(rows, k, c) + (if r.success && r.key == k && c in r.metrics then [r.metrics[c]] else [])
  {
    assert (rows + [r])[..|rows|] == rows;
  }

  lemma KeysSnoc(rows: seq<Row>, r: Row)
    ensures var ks := KeysOf(rows); KeysOf(rows + [r]) == if r.success && r.key !in ks then ks + [r.key] else ks
  {
    assert (rows + [r])[..|rows|] == rows;
  }

  lemma {:induction false} CopiesValues(s: SummaryRow, n: nat, k: Key, c: Column)
    ensures Values(Copies(s, n), k, c) == if k == s.key && c in s.means then Repeat(s.means[c], n) else []
  {
    if n > 0 {
      CopiesValues(s, n - 1, k, c);
      hide Values;
      ValuesSnoc(Copies(s, n - 1), Row(s.key, n, true, s.means), k, c);
    }
  }

  lemma CopiesSnoc(rows: seq<Row>, s: SummaryRow, n: nat)
    requires n > 0
    ensures rows + Copies(s, n) == (rows + Copies(s, n - 1)) + [Row(s.key, n, true, s.means)]
  {
  }

  lemma {:induction false} CopiesKeys(rows: seq<Row>, s: SummaryRow, n: nat)
    requires n > 0
    ensures KeysOf(rows + Copies(s, n)) == if s.key in KeysOf(rows) then KeysOf(rows) else KeysOf(rows) + [s.key]
  {
    CopiesSnoc(rows, s, n);
    assert n == 1 ==> rows + Copies(s, 0) == rows;
    hide KeysOf, Copies;
    KeysSnoc(rows + Copies(s, n - 1), Row(s.key, n, true, s.means));
    if n > 1 { CopiesKeys(rows, s, n - 1); }
  }

  function SummaryKeys(summary: seq<SummaryRow>): (r: seq<Key>)
    ensures |r| == |summary| && forall i | 0 <= i < |r| :: r[i] == summary[i].key
  {
    seq(|summary|, i requires 0 <= i < |summary| => summary[i].key)
  }

  ghost predicate AllKept(summary: seq<SummaryRow>, topology: string) {
    forall s | s in summary :: Kept(s, topology)
  }

  lemma SplitLast(summary: seq<SummaryRow>, topology: string)
    requires AllKept(summary, topology) && Distinct(SummaryKeys(summary)) && summary != []
    ensures var (front, last) := (summary[..|summary| - 1], summary[|summary| - 1]);
            && AllKept(front, topology) && Distinct(SummaryKeys(front)) && last.key !in SummaryKeys(front)
            && SummaryKeys(summary) == SummaryKeys(front) + [last.key]
            && Synthesized(summary, topology) == Synthesized(front, topology) + RowsFor(last)
  {
    hide RowsFor;
    var n := |summary| - 1;
    assert summary[n] in summary && forall s | s in summary[..n] :: s in summary;
    assert SummaryKeys(summary)[..n] == SummaryKeys(summary[..n]);
    assert SummaryKeys(summary) == SummaryKeys(summary[..n]) + [summary[n].key];
    DistinctSnoc(SummaryKeys(summary[..n]), summary[n].key);
  }

  /** The synthesized rows have the summary's keys, in its order. */
  lemma {:induction false} SynthesizedKeys(summary: seq<SummaryRow>, topology: string)
    requires AllKept(summary, topology) && Distinct(SummaryKeys(summary))
    ensures KeysOf(Synthesized(summary, topology)) == SummaryKeys(summary)
  {
    if summary == [] {
    } else {
      hide KeysOf, Synthesized, RowsFor, Distinct, Kept, AllKept;
      var (front, last) := (summary[..|summary| - 1], summary[|summary| - 1]);
      SplitLast(summary, topology);
      SynthesizedKeys(front, topology);
      RowsForSize(last);
      CopiesKeys(Synthesized(front, topology), last, |RowsFor(last)|);
    }
  }

  lemma {:induction false} NoOtherValues(summary: seq<SummaryRow>, topology: string, k: Key, c: Column)
    requires k !in SummaryKeys(summary)
    ensures Values(Synthesized(summary, topology), k, c) == []
  {
    if summary != [] {
      var n := |summary| - 1;
      var (front, last) := (summary[..n], summary[n]);
      assert SummaryKeys(summary) == SummaryKeys(front) + [last.key];
      assert Synthesized(front, topology) + [] == Synthesized(front, topology);
      hide Values, RowsFor, Kept;
      NoOtherValues(front, topology, k, c);
      RowsForSize(last);
      CopiesValues(last, |RowsFor(last)|, k, c);
      ValuesConcat(Synthesized(front, topology), RowsFor(last), k, c);
    }
  }

  lemma RowsForSize(s: SummaryRow)
    ensures |RowsFor(s)| == (if s.repeatCount > 1 then s.repeatCount else 1)
    ensures RowsFor(s) == Copies(s, |RowsFor(s)|)
  {
    CopiesSize(s, if s.repeatCount > 1 then s.repeatCount else 1);
  }

  lemma {:induction false} CopiesSize(s: SummaryRow, n: nat)
    ensures |Copies(s, n)| == n
  {
    if n > 0 { CopiesSize(s, n - 1); }
  }

  lemma LastValues(rows: seq<Row>, last: SummaryRow, k: Key, c: Column)
    ensures Values(rows + RowsFor(last), k, c)
            == Values(rows, k, c)
               + (if k == last.key && c in last.means then Repeat(last.means[c], |RowsFor(last)|) else [])
  {
    RowsForSize(last);
    hide Values, RowsFor, Copies, Repeat;
    CopiesValues(last, |RowsFor(last)|, k, c);
    ValuesConcat(rows, RowsFor(last), k, c);
  }

  /** Each summary row's values come back as so many copies of its mean. */
  lemma {:induction false} SynthesizedValues(summary: seq<SummaryRow>, topology: string, i: nat, c: Column)
    requires AllKept(summary, topology) && Distinct(SummaryKeys(summary)) && i < |summary|
    ensures Values(Synthesized(summary, topology), summary[i].key, c)
            == if c in summary[i].means then Repeat(summary[i].means[c], |RowsFor(summary[i])|) else []
  {
    hide Values, RowsFor, Kept, AllKept, Synthesized, Repeat, Distinct, KeysOf;
    var n := |summary| - 1;
    var (front, last, k) := (summary[..n], summary[n], summary[i].key);
    SplitLast(summary, topology);
    LastValues(Synthesized(front, topology), last, k, c);
    if i == n {
      NoOtherValues(front, topology, k, c);
    } else {
      assert SummaryKeys(front)[i] == k && k in SummaryKeys(front);
      SynthesizedValues(front, topology, i, c);
    }
  }

  /** In a summary the wall time is blank exactly when the repeat count is 0. */
  ghost predicate Coherent(s: SummaryRow) {
    Wall in s.means <==> s.repeatCount > 0
  }

  /** Averaging the copies made from a coherent summary row gives the row back, blanks and repeat count
      included. */
  lemma SummaryOfCopies(rows: seq<Row>, s: SummaryRow)
    requires Coherent(s)
    requires forall c :: Values(rows, s.key, c) == if c in s.means then Repeat(s.means[c], |RowsFor(s)|) else []
    ensures SummaryOf(rows, s.key) == s
  {
    hide Values, RowsFor, Repeat, Mean;
    RowsForSize(s);
    var again := SummaryOf(rows, s.key);
    forall c ensures c in again.means <==> c in s.means {
      AllColumns(c);
    }
    forall c | c in s.means ensures again.means[c] == s.means[c] {
      MeanRepeat(s.means[c], |RowsFor(s)|);
    }
    assert again.means == s.means;
  }

  lemma AllColumns(c: Column)
    ensures c in COLUMNS
  {
    match c {
      case InitTime => assert COLUMNS[0] == c;
      case InitMem => assert COLUMNS[1] == c;
      case RouteMem => assert COLUMNS[2] == c;
      case ExecTime => assert COLUMNS[3] == c;
      case ExecMem => assert COLUMNS[4] == c;
      case Wall => assert COLUMNS[5] == c;
      case Hosts => assert COLUMNS[6] == c;
    }
  }

  // ---------------------------------------------------------------------------------------
  // What the summary says about the rows
  // ---------------------------------------------------------------------------------------

  /** The places of the successful rows of a key in which a column is filled. */
  ghost function Cells(rows: seq<Row>, k: Key, c: Column): set<nat> {
    set i: nat | i < |rows| && rows[i].success && rows[i].key == k && c in rows[i].metrics
  }

  /** The running sums of those cells, from 0 up to the whole. */
  ghost predicate RunningSums(sums: seq<real>, rows: seq<Row>, k: Key, c: Column) {
    && |sums| == |rows| + 1 && sums[0] == 0.0
    && forall i: nat | i < |rows| ::
         sums[i + 1] == if i in Cells(rows, k, c) then sums[i] + rows[i].metrics[c] else sums[i]
  }

  ghost predicate AddUpTo(rows: seq<Row>, k: Key, c: Column, total: real) {
    exists sums :: RunningSums(sums, rows, k, c) && sums[|rows|] == total
  }

  /** Times the number of such cells, the value is their sum. */
  ghost predicate IsMean(m: real, rows: seq<Row>, k: Key, c: Column) {
    AddUpTo(rows, k, c, m * (|Cells(rows, k, c)| as real))
  }

  /** The row has a value in just the columns that some successful row of its key fills, their mean. Its repeat count is
      the number of wall times. */
  ghost predicate Averages(x: SummaryRow, rows: seq<Row>) {
    && (forall c :: c in x.means <==> Cells(rows, x.key, c) != {})
    && (forall c | c in x.means :: IsMean(x.means[c], rows, x.key, c))
    && x.repeatCount == |Cells(rows, x.key, Wall)|
  }

  /** The smaller scale first, then the routing earlier in text order, then fewer threads, then less data. */
  ghost predicate ComesBefore(a: Key, b: Key) {
    || a.scale < b.scale
    || (a.scale == b.scale && a.routing != b.routing && InTextOrder(a.routing, b.routing))
    || (a.scale == b.scale && a.routing == b.routing && a.threads < b.threads)
    || (a.scale == b.scale && a.routing == b.routing && a.threads == b.threads && a.dataSize < b.dataSize)
  }

  /** Some successful row of `a` stands before every one of `b`. */
  ghost predicate AppearsBefore(rows: seq<Row>, a: Key, b: Key) {
    exists p: nat | p < |rows| :: rows[p].success && rows[p].key == a && NotYet(rows, b, p)
  }

  ghost predicate NotYet(rows: seq<Row>, k: Key, n: nat)
    requires n <= |rows|
  {
    forall q: nat | q < n :: rows[q].success ==> rows[q].key != k
  }

  /** The keys differ in the topology only, and in the rows `a` comes first. */
  ghost predicate TiedInOrder(rows: seq<Row>, a: Key, b: Key) {
    a.topology != b.topology && a == b.(topology := a.topology) && AppearsBefore(rows, a, b)
  }

  /** One row per successful key, in order of the numbers and names; keys that differ in the topology only are in order
      of first appearance. Every row holds the averages of its key. */
  ghost predicate Summarises(s: seq<SummaryRow>, rows: seq<Row>) {
    && (forall x | x in s :: Averages(x, rows))
    && (forall r | r in rows && r.success :: exists i: nat | i < |s| :: s[i].key == r.key)
    && (forall x | x in s :: exists r | r in rows :: r.success && r.key == x.key)
    && forall i, j | 0 <= i < j < |s| ::
         ComesBefore(s[i].key, s[j].key) || TiedInOrder(rows, s[i].key, s[j].key)
  }

  lemma CellsSnoc(rows: seq<Row>, r: Row, k: Key, c: Column)
    ensures Cells(rows + [r], k, c)
            == Cells(rows, k, c) + (if r.success && r.key == k && c in r.metrics then {|rows|} else {})
  {
    forall i: nat ensures i in Cells(rows + [r], k, c) <==>
                          i in Cells(rows, k, c) || (i == |rows| && r.success && r.key == k && c in r.metrics)
    {
      if i < |rows| { assert (rows + [r])[i] == rows[i]; }
    }
  }

  lemma RunningSumsSnoc(sums: seq<real>, rows: seq<Row>, r: Row, k: Key, c: Column)
    requires RunningSums(sums, rows, k, c)
    ensures var last := sums[|rows|];
            RunningSums(sums + [if r.success && r.key == k && c in r.metrics then last + r.metrics[c] else last],
                        rows + [r], k, c)
  {
    CellsSnoc(rows, r, k, c);
    forall i: nat | i < |rows| ensures i in Cells(rows + [r], k, c) <==> i in Cells(rows, k, c) {
    }
    hide Cells;
  }

  /** A key's values are its cells, */
  lemma {:induction false} ValuesCounted(rows: seq<Row>, k: Key, c: Column)
    ensures |Values(rows, k, c)| == |Cells(rows, k, c)|
  {
    if rows == [] {
      assert Cells(rows, k, c) == {};
    } else {
      var (front, r) := (rows[..|rows| - 1], rows[|rows| - 1]);
      assert rows == front + [r];
      ValuesCounted(front, k, c);
      CellsSnoc(front, r, k, c);
      ValuesSnoc(front, r, k, c);
      assert |front| !in Cells(front, k, c);
      hide Values, Cells;
    }
  }

  /** and add up to what the cells do. */
  lemma {:induction false} ValuesSummed(rows: seq<Row>, k: Key, c: Column) returns (sums: seq<real>)
    ensures RunningSums(sums, rows, k, c) && sums[|rows|] == Sum(Values(rows, k, c))
  {
    hide Cells, Sum;
    if rows == [] {
      sums := [0.0];
      assert Sum(Values(rows, k, c)) == 0.0 by { NoSum(); }
    } else {
      var (front, r) := (rows[..|rows| - 1], rows[|rows| - 1]);
      assert rows == front + [r];
      var before := ValuesSummed(front, k, c);
      ValuesSnoc(front, r, k, c);
      hide Values;
      sums := SumsSnoc(before, front, r, k, c, Values(front, k, c));
    }
  }

  lemma NoSum()
    ensures Sum([]) == 0.0
  {
  }

  lemma SumsSnoc(before: seq<real>, rows: seq<Row>, r: Row, k: Key, c: Column, vs: seq<real>) returns (sums: seq<real>)
    requires RunningSums(before, rows, k, c) && before[|rows|] == Sum(vs)
    ensures RunningSums(sums, rows + [r], k, c)
    ensures sums[|rows| + 1] == Sum(vs + (if r.success && r.key == k && c in r.metrics then [r.metrics[c]] else []))
  {
    var last := before[|rows|];
    RunningSumsSnoc(before, rows, r, k, c);
    assert vs + [] == vs && |before| == |rows| + 1;
    hide RunningSums, Sum;
    sums := before + [if r.success && r.key == k && c in r.metrics then last + r.metrics[c] else last];
    if r.success && r.key == k && c in r.metrics { SumSnoc(vs, r.metrics[c]); }
  }

  lemma FilledColumn(rows: seq<Row>, k: Key, c: Column)
    ensures Values(rows, k, c) != [] <==> Cells(rows, k, c) != {}
  {
    ValuesCounted(rows, k, c);
    hide Values;
  }

  lemma MeanOfColumn(rows: seq<Row>, k: Key, c: Column, m: real)
    requires Values(rows, k, c) != [] && m == Mean(Values(rows, k, c))
    ensures IsMean(m, rows, k, c)
  {
    hide Values, Cells, RunningSums, Mean, Sum;
    ValuesCounted(rows, k, c);
    var sums := ValuesSummed(rows, k, c);
    MeanTimesCount(Values(rows, k, c), |Cells(rows, k, c)|, m);
  }

  /** The summary row of a key holds its averages. */
  lemma AveragesOf(rows: seq<Row>, k: Key)
    ensures Averages(SummaryOf(rows, k), rows)
  {
    var x := SummaryOf(rows, k);
    hide Cells, Values, IsMean, Mean;
    forall c ensures c in x.means <==> Cells(rows, k, c) != {} {
      AllColumns(c);
      FilledColumn(rows, k, c);
    }
    forall c | c in x.means ensures IsMean(x.means[c], rows, k, c) {
      MeanOfColumn(rows, k, c, x.means[c]);
    }
    ValuesCounted(rows, k, Wall);
  }

  lemma NeverListed(rows: seq<Row>, k: Key)
    requires k !in KeysOf(rows)
    ensures NotYet(rows, k, |rows|)
  {
    KeysExact(rows);
    forall q: nat | q < |rows| && rows[q].success ensures rows[q].key != k {
      assert rows[q] in rows;
    }
  }

  lemma AppearsBeforeSnoc(rows: seq<Row>, r: Row, a: Key, b: Key)
    requires AppearsBefore(rows, a, b)
    ensures AppearsBefore(rows + [r], a, b)
  {
    var p: nat :| p < |rows| && rows[p].success && rows[p].key == a && NotYet(rows, b, p);
    assert (rows + [r])[p] == rows[p] && NotYet(rows + [r], b, p);
  }

  lemma NewKeyAppears(rows: seq<Row>, r: Row, a: Key)
    requires a in KeysOf(rows) && r.key !in KeysOf(rows)
    ensures AppearsBefore(rows + [r], a, r.key)
  {
    KeysExact(rows);
    NeverListed(rows, r.key);
    var x :| x in rows && x.success && x.key == a;
    var p: nat :| p < |rows| && rows[p] == x;
    assert (rows + [r])[p] == rows[p] && NotYet(rows + [r], r.key, p);
  }

  /** The keys are listed as they first appear. */
  lemma {:induction false} KeysInOrder(rows: seq<Row>, p: nat, q: nat)
    requires p < q < |KeysOf(rows)|
    ensures AppearsBefore(rows, KeysOf(rows)[p], KeysOf(rows)[q])
  {
    var (front, r) := (rows[..|rows| - 1], rows[|rows| - 1]);
    assert rows == front + [r];
    KeysSnoc(front, r);
    var ks := KeysOf(front);
    hide KeysOf, AppearsBefore;
    if q < |ks| {
      KeysInOrder(front, p, q);
      AppearsBeforeSnoc(front, r, ks[p], ks[q]);
    } else {
      assert ks[p] in ks;
      NewKeyAppears(front, r, ks[p]);
    }
  }

  lemma KeyLeqMeaning(a: Key, b: Key)
    ensures KeyLeq(a, b) && !KeyLeq(b, a) ==> ComesBefore(a, b)
    ensures KeyLeq(a, b) && KeyLeq(b, a) <==> a == b.(topology := a.topology)
  {
    StringLeqMeaning(a.routing, b.routing);
    StringLeqTotal(a.routing, a.routing);
    hide InTextOrder;
    if a.routing != b.routing && StringLeq(a.routing, b.routing) && StringLeq(b.routing, a.routing) {
      StringLeqAntisymmetric(a.routing, b.routing);
    }
  }

  /** Two rows of a summary are in order. */
  lemma SummaryInOrder(rows: seq<Row>, i: nat, j: nat)
    requires i < j < |Summary(rows)|
    ensures var (a, b) := (Summary(rows)[i].key, Summary(rows)[j].key);
            ComesBefore(a, b) || TiedInOrder(rows, a, b)
  {
    var (ks, sorted) := (KeysOf(rows), Sort(KeysOf(rows), KeyLeq));
    KeysExact(rows);
    KeyOrder();
    SortCorrect(ks, KeyLeq);
    var (a, b) := (sorted[i], sorted[j]);
    assert Summary(rows)[i].key == a && Summary(rows)[j].key == b;
    KeyLeqMeaning(a, b);
    assert KeyLeq(a, b);
    if KeyLeq(b, a) {
      var p, q := SortKeepsOrder(ks, KeyLeq, i, j);
      KeysInOrder(rows, p, q);
      assert ks[p] != ks[q];
    }
  }

  /** A summary has one row per key, in order, each with its key's averages. */
  lemma SummaryKeysExact(rows: seq<Row>)
    ensures var s := Summary(rows);
            && Distinct(SummaryKeys(s)) && SortedBy(SummaryKeys(s), KeyLeq)
            && (forall k :: k in SummaryKeys(s) <==> exists r | r in rows :: r.success && r.key == k)
            && forall x | x in s :: x == SummaryOf(rows, x.key) && Coherent(x)
  {
    var (ks, sorted) := (KeysOf(rows), Sort(KeysOf(rows), KeyLeq));
    KeysExact(rows);
    KeyOrder();
    SortCorrect(ks, KeyLeq);
    DistinctCounts(ks);
    DistinctCounts(sorted);
    assert SummaryKeys(Summary(rows)) == sorted;
    forall k ensures k in sorted <==> k in ks {
      assert k in sorted <==> k in multiset(sorted);
      assert k in ks <==> k in multiset(ks);
    }
    AllColumns(Wall);
  }

  /** A summary is what the rows say it should be. */
  lemma SummaryExact(rows: seq<Row>)
    ensures Summarises(Summary(rows), rows)
  {
    var s := Summary(rows);
    SummaryKeysExact(rows);
    hide Summary, SummaryOf, Averages, KeyLeq, ComesBefore, TiedInOrder, Distinct;
    forall x | x in s ensures Averages(x, rows) {
      AveragesOf(rows, x.key);
    }
    forall r | r in rows && r.success ensures exists i: nat | i < |s| :: s[i].key == r.key {
      assert r.key in SummaryKeys(s);
      var i: nat :| i < |s| && SummaryKeys(s)[i] == r.key;
    }
    forall x | x in s ensures exists r | r in rows :: r.success && r.key == x.key {
      KeyListed(s, x);
    }
    forall i, j | 0 <= i < j < |s| {
      SummaryInOrder(rows, i, j);
    }
  }

  // ---------------------------------------------------------------------------------------
  // The fixpoint
  // ---------------------------------------------------------------------------------------

  lemma SummaryOfKept(rows: seq<Row>, topology: string)
    requires AllKept(Summary(rows), topology)
    ensures Summary(Synthesized(Summary(rows), topology)) == Summary(rows)
  {
    var s := Summary(rows);
    var again := Synthesized(s, topology);
    SummaryKeysExact(rows);
    SynthesizedKeys(s, topology);
    SortSorted(SummaryKeys(s), KeyLeq);
    forall i | 0 <= i < |s| ensures SummaryOf(again, s[i].key) == s[i] {
      assert s[i] in s;
      forall c ensures Values(again, s[i].key, c) == if c in s[i].means then Repeat(s[i].means[c],
                |RowsFor(s[i])|) else [] {
        SynthesizedValues(s, topology, i, c);
      }
      SummaryOfCopies(again, s[i]);
    }
  }

  lemma {:induction false} SynthesizedKept(summary: seq<SummaryRow>, topology: string, r: Row)
    requires r in Synthesized(summary, topology)
    ensures r.key.topology == topology && r.key.routing != ""
  {
    var n := |summary| - 1;
    if r in Synthesized(summary[..n], topology) {
      SynthesizedKept(summary[..n], topology, r);
    } else {
      CopiesKey(summary[n], |RowsFor(summary[n])|, r);
      RowsForSize(summary[n]);
    }
  }

  lemma {:induction false} CopiesKey(s: SummaryRow, n: nat, r: Row)
    ensures r in Copies(s, n) ==> r.key == s.key
  {
    if n > 0 { CopiesKey(s, n - 1, r); }
  }

  /** Summarising the rows made from a summary gives the summary back exactly when every summary row has
      the topology asked for and a routing name: the other rows are dropped on the way. */
  lemma SummaryFixpoint(rows: seq<Row>, topology: string)
    ensures Summary(Synthesized(Summary(rows), topology)) == Summary(rows) <==> AllKept(Summary(rows), topology)
  {
    var s := Summary(rows);
    var again := Synthesized(s, topology);
    if AllKept(s, topology) {
      SummaryOfKept(rows, topology);
    } else if Summary(again) == s {
      SummaryKeysExact(again);
      forall x | x in s ensures Kept(x, topology) {
        KeyListed(s, x);
        var r :| r in again && r.success && r.key == x.key;
        SynthesizedKept(s, topology, r);
      }
    }
  }

  lemma KeyListed(summary: seq<SummaryRow>, x: SummaryRow)
    requires x in summary
    ensures x.key in SummaryKeys(summary)
  {
    var i :| 0 <= i < |summary| && summary[i] == x;
    assert SummaryKeys(summary)[i] == x.key;
  }

  // ---------------------------------------------------------------------------------------
  // The programs
  // ---------------------------------------------------------------------------------------

  type Bucket = map<Column, seq<real>>

  ghost predicate HasBucket(bucket: Bucket, rows: seq<Row>, k: Key) {
    forall c | c in COLUMNS :: c in bucket && bucket[c] == Values(rows, k, c)
  }

  /** The inner loop: append the row's non-blank cells to their columns. */
  method AddCells(bucket: Bucket, metrics: map<Column, real>) returns (bucket': Bucket)
    requires forall c | c in COLUMNS :: c in bucket
    ensures forall c | c in COLUMNS ::
              c in bucket' && bucket'[c] == bucket[c] + (if c in metrics then [metrics[c]] else [])
  {
    bucket' := bucket;
    for i := 0 to |COLUMNS|
      invariant forall c | c in COLUMNS :: c in bucket'
      invariant forall j | 0 <= j < |COLUMNS| :: bucket'[COLUMNS[j]] == bucket[COLUMNS[j]] +
                  (if j < i && COLUMNS[j] in metrics then [metrics[COLUMNS[j]]] else [])
    {
      var field := COLUMNS[i];
      assert forall j | 0 <= j < |COLUMNS| && j != i :: COLUMNS[j] != field;
      if field in metrics {
        bucket' := bucket'[field := bucket'[field] + [metrics[field]]];
      }
    }
  }

  /** The grouping loop of `write_summary`; `order` is the insertion order of the dictionary. */
  method Group(rows: seq<Row>) returns (order: seq<Key>, grouped: map<Key, Bucket>)
    ensures order == KeysOf(rows) && forall k | k in order :: k in grouped && HasBucket(grouped[k], rows, k)
  {
    order, grouped := [], map[];
    for i := 0 to |rows|
      invariant order == KeysOf(rows[..i])
      invariant forall k :: k in order <==> k in grouped
      invariant forall k | k in order :: HasBucket(grouped[k], rows[..i], k)
    {
      var row := rows[i];
      assert rows[..i + 1][..i] == rows[..i];
      if !row.success {
        continue;
      }
      if row.key !in grouped {
        NoValuesYet(rows[..i], row.key);
        order := order + [row.key];
        grouped := grouped[row.key := map c | c in COLUMNS :: []];
      }
      var bucket := AddCells(grouped[row.key], row.metrics);
      grouped := grouped[row.key := bucket];
    }
    assert rows[..|rows|] == rows;
  }

  lemma {:induction false} NoValuesYet(rows: seq<Row>, k: Key)
    requires k !in KeysOf(rows)
    ensures forall c :: Values(rows, k, c) == []
  {
    if rows != [] {
      NoValuesYet(rows[..|rows| - 1], k);
    }
  }

  /** One row of the output. */
  method Average(key: Key, buckets: Bucket, ghost rows: seq<Row>) returns (row: SummaryRow)
    requires HasBucket(buckets, rows, key)
    ensures row == SummaryOf(rows, key) && row.key == key && Averages(row, rows)
  {
    AveragesOf(rows, key);
    hide Averages;
    AllColumns(Wall);
    var means := map c | c in COLUMNS && buckets[c] != [] :: Mean(buckets[c]);
    row := SummaryRow(key, means, |buckets[Wall]|);
    assert row.means == SummaryOf(rows, key).means;
  }

  lemma SummariesSnoc(rows: seq<Row>, ks: seq<Key>, k: Key)
    ensures SummariesOf(rows, ks + [k]) == SummariesOf(rows, ks) + [SummaryOf(rows, k)]
  {
    hide SummaryOf;
  }

  lemma SortedMember(ks: seq<Key>, i: nat)
    requires i < |Sort(ks, KeyLeq)|
    ensures Sort(ks, KeyLeq)[i] in ks
  {
    KeyOrder();
    SortCorrect(ks, KeyLeq);
    hide KeyLeq, TotalPreorder, SortedBy, Sort;
    assert Sort(ks, KeyLeq)[i] in multiset(Sort(ks, KeyLeq));
  }

  method WriteSummary(rows: seq<Row>) returns (outRows: seq<SummaryRow>)
    ensures outRows == Summary(rows) && Summarises(outRows, rows)
  {
    SummaryExact(rows);
    hide Summarises, HasBucket, SummaryOf, SummariesOf, KeyLeq, Sort, KeysOf;
    var order, grouped := Group(rows);
    var keys := Sort(order, KeyLeq);
    outRows := [];
    assert SummariesOf(rows, []) == [];
    for i := 0 to |keys|
      invariant outRows == SummariesOf(rows, keys[..i])
    {
      SortedMember(order, i);
      assert keys[..i + 1] == keys[..i] + [keys[i]];
      SummariesSnoc(rows, keys[..i], keys[i]);
      var row := Average(keys[i], grouped[keys[i]], rows);
      outRows := outRows + [row];
    }
    assert keys[..|keys|] == keys;
  }

  /** Repetitions 1, 2, ... of a summary row, successful and with its values. */
  ghost predicate Repetitions(part: seq<Row>, s: SummaryRow) {
    forall j: nat | j < |part| ::
      part[j].key == s.key && part[j].success && part[j].metrics == s.means && part[j].repetition == j + 1
  }

  /** The rows from one place to another are those of a summary row: none for another topology or a blank routing,
      otherwise as many as its repeat count, and at least one. */
  ghost predicate MadeFrom(rows: seq<Row>, at: nat, end: nat, s: SummaryRow, topology: string) {
    && at <= end <= |rows| && Repetitions(rows[at..end], s)
    && end - at == if s.key.topology != topology || s.key.routing == "" then 0
                   else if s.repeatCount == 0 then 1 else s.repeatCount
  }

  /** The rows of one summary row after the other. */
  ghost predicate MadeAt(rows: seq<Row>, summary: seq<SummaryRow>, topology: string, starts: seq<nat>) {
    && |starts| == |summary| + 1 && starts[0] == 0 && starts[|summary|] == |rows|
    && forall i: nat | i < |summary| :: MadeFrom(rows, starts[i], starts[i + 1], summary[i], topology)
  }

  lemma {:induction false} CopiesRepeat(s: SummaryRow, n: nat)
    ensures |Copies(s, n)| == n && Repetitions(Copies(s, n), s)
  {
    if n > 0 { CopiesRepeat(s, n - 1); }
  }

  lemma MadeLast(rows: seq<Row>, s: SummaryRow, topology: string)
    ensures var made := if Kept(s, topology) then RowsFor(s) else [];
            MadeFrom(rows + made, |rows|, |rows| + |made|, s, topology)
  {
    var made := if Kept(s, topology) then RowsFor(s) else [];
    assert (rows + made)[|rows|..|rows| + |made|] == made;
    RowsForSize(s);
    CopiesRepeat(s, |RowsFor(s)|);
    hide RowsFor, Copies;
  }

  lemma MadeStill(rows: seq<Row>, more: seq<Row>, at: nat, end: nat, s: SummaryRow, topology: string)
    requires MadeFrom(rows, at, end, s, topology)
    ensures MadeFrom(rows + more, at, end, s, topology)
  {
    assert (rows + more)[at..end] == rows[at..end];
  }

  lemma MadeSnoc(rows: seq<Row>, summary: seq<SummaryRow>, topology: string, starts: seq<nat>, s: SummaryRow)
    requires MadeAt(rows, summary, topology, starts)
    ensures var made := if Kept(s, topology) then RowsFor(s) else [];
            MadeAt(rows + made, summary + [s], topology, starts + [|rows| + |made|])
  {
    var made := if Kept(s, topology) then RowsFor(s) else [];
    var (n, all) := (|summary|, starts + [|rows| + |made|]);
    MadeLast(rows, s, topology);
    hide MadeFrom, RowsFor, Kept;
    forall i: nat | i < n ensures MadeFrom(rows + made, all[i], all[i + 1], (summary + [s])[i], topology) {
      assert starts[i] == all[i];
      MadeStill(rows, made, starts[i], starts[i + 1], summary[i], topology);
    }
  }

  /** Which rows are made from a summary, and where they stand. */
  lemma {:induction false} SynthesizedExact(summary: seq<SummaryRow>, topology: string) returns (starts: seq<nat>)
    ensures MadeAt(Synthesized(summary, topology), summary, topology, starts)
  {
    if summary == [] {
      starts := [0];
    } else {
      var (front, s) := (summary[..|summary| - 1], summary[|summary| - 1]);
      assert summary == front + [s];
      starts := SynthesizedExact(front, topology);
      MadeSnoc(Synthesized(front, topology), front, topology, starts, s);
      starts := starts + [|Synthesized(summary, topology)|];
    }
  }

  method SynthesizeRunRows(summary: seq<SummaryRow>, topology: string) returns (rows: seq<Row>)
    ensures rows == Synthesized(summary, topology)
    ensures exists starts :: MadeAt(rows, summary, topology, starts)
  {
    ghost var starts := SynthesizedExact(summary, topology);
    hide MadeAt;
    rows := [];
    for i := 0 to |summary|
      invariant rows == Synthesized(summary[..i], topology)
    {
      var row := summary[i];
      assert summary[..i + 1][..i] == summary[..i];
      if row.key.topology != topology {
        continue;
      }
      if row.key.routing == "" {
        continue;
      }
      var repeatCount := if row.repeatCount > 1 then row.repeatCount else 1;
      var made: seq<Row> := [];
      for r := 0 to repeatCount
        invariant made == Copies(row, r)
      {
        made := made + [Row(row.key, r + 1, true, row.means)];
      }
      rows := rows + made;
    }
    assert summary[..|summary|] == summary;
  }
}
