/** `process_tree_rss_kb` of the sweep script: a worklist over a snapshot of the process table that sums
    the resident memory of a process and everything below it. */
module ProcessTree {
  import opened Ordering

  type Pid = int

  /** One readable `/proc` entry. */
  datatype Entry = Entry(pid: Pid, ppid: Pid, rss: nat)

  /** A chain of child links, each recorded by some entry. */
  ghost predicate IsChain(table: seq<Entry>, p: seq<Pid>) {
    p != [] && forall i | 0 <= i < |p| - 1 :: IsChild(table, p[i], p[i + 1])
  }

  ghost predicate IsChild(table: seq<Entry>, parent: Pid, pid: Pid) {
    exists e | e in table :: e.ppid == parent && e.pid == pid
  }

  ghost predicate Reachable(table: seq<Entry>, root: Pid, pid: Pid) {
    exists p :: IsChain(table, p) && p[0] == root && p[|p| - 1] == pid
  }

  /** The last entry of a process decides its memory; a process without one counts nothing. */
  function RssOf(table: seq<Entry>, pid: Pid): nat {
    if table == [] then 0
    else if table[|table| - 1].pid == pid then table[|table| - 1].rss
    else RssOf(table[..|table| - 1], pid)
  }

  function SumRss(table: seq<Entry>, pids: seq<Pid>): nat {
    if pids == [] then 0 else SumRss(table, pids[..|pids| - 1]) + RssOf(table, pids[|pids| - 1])
  }

  /** What a listing of the tree is: the reachable processes, each once. */
  ghost predicate IsTreeListing(table: seq<Entry>, root: Pid, pids: seq<Pid>) {
    && Distinct(pids)
    && forall pid :: pid in pids <==> Reachable(table, root, pid)
  }

  // ---------------------------------------------------------------------------------------
  // The two dictionaries
  // ---------------------------------------------------------------------------------------

  /** `children` lists, for every parent, the processes that name it, in table order, repeats and all. */
  function ChildrenOf(table: seq<Entry>, parent: Pid): seq<Pid> {
    if table == [] then []
    else ChildrenOf(table[..|table| - 1], parent)
         + (if table[|table| - 1].ppid == parent then [table[|table| - 1].pid] else [])
  }

  lemma {:induction false} ChildrenExact(table: seq<Entry>, parent: Pid, pid: Pid)
    ensures pid in ChildrenOf(table, parent) <==> IsChild(table, parent, pid)
  {
    if table != [] {
      var n := |table| - 1;
      ChildrenExact(table[..n], parent, pid);
      assert table == table[..n] + [table[n]];
    }
  }

  /** `children.get(p, [])`. */
  function ChildrenIn(children: map<Pid, seq<Pid>>, p: Pid): seq<Pid> {
    if p in children then children[p] else []
  }

  /** `rss.get(p, 0)`. */
  function RssIn(rss: map<Pid, nat>, p: Pid): nat {
    if p in rss then rss[p] else 0
  }

  lemma OneEntry(table: seq<Entry>, e: Entry, p: Pid)
    ensures ChildrenOf(table + [e], p) == ChildrenOf(table, p) + (if e.ppid == p then [e.pid] else [])
    ensures RssOf(table + [e], p) == if e.pid == p then e.rss else RssOf(table, p)
  {
    assert (table + [e])[..|table|] == table;
  }

  method BuildMaps(table: seq<Entry>) returns (children: map<Pid, seq<Pid>>, rss: map<Pid, nat>)
    ensures forall p :: ChildrenIn(children, p) == ChildrenOf(table, p)
    ensures forall p :: RssIn(rss, p) == RssOf(table, p)
  {
    children, rss := map[], map[];
    for i := 0 to |table|
      invariant forall p :: ChildrenIn(children, p) == ChildrenOf(table[..i], p)
      invariant forall p :: RssIn(rss, p) == RssOf(table[..i], p)
    {
      hide ChildrenOf, RssOf;
      var e := table[i];
      assert table[..i + 1] == table[..i] + [e];
      ghost var (children0, rss0) := (children, rss);
      if e.ppid !in children {
        children := children[e.ppid := []];
      }
      children := children[e.ppid := children[e.ppid] + [e.pid]];
      rss := rss[e.pid := e.rss];
      forall p
        ensures ChildrenIn(children, p) == ChildrenOf(table[..i + 1], p) && RssIn(rss, p) == RssOf(table[..i + 1], p)
      {
        OneEntry(table[..i], e, p);
        assert ChildrenIn(children0, p) == ChildrenOf(table[..i], p) && RssIn(rss0, p) == RssOf(table[..i], p);
        assert ChildrenIn(children, p) == ChildrenIn(children0, p) + (if e.ppid == p then [e.pid] else []);
      }
    }
    assert table[..|table|] == table;
  }

  // ---------------------------------------------------------------------------------------
  // The worklist
  // ---------------------------------------------------------------------------------------

  /** Everything seen is reachable, everything on the stack is, and whatever a seen process leads to is
      seen or waiting. */
  ghost predicate Explored(table: seq<Entry>, root: Pid, stack: seq<Pid>, seen: seq<Pid>) {
    && (root in seen || root in stack)
    && (forall p | p in seen :: Reachable(table, root, p))
    && (forall p | p in stack :: Reachable(table, root, p))
    && (forall p, c | p in seen && c in ChildrenOf(table, p) :: c in seen || c in stack)
    && Distinct(seen)
  }

  lemma ChildReachable(table: seq<Entry>, root: Pid, p: Pid, c: Pid)
    requires Reachable(table, root, p) && c in ChildrenOf(table, p)
    ensures Reachable(table, root, c)
  {
    ChildrenExact(table, p, c);
    var chain :| IsChain(table, chain) && chain[0] == root && chain[|chain| - 1] == p;
    assert IsChain(table, chain + [c]);
  }

  /** With nothing waiting, what has been seen is closed under children, so it is everything reachable. */
  lemma {:induction false} SeenAlong(table: seq<Entry>, root: Pid, seen: seq<Pid>, chain: seq<Pid>)
    requires Explored(table, root, [], seen) && IsChain(table, chain) && chain[0] == root
    ensures chain[|chain| - 1] in seen
    decreases |chain|
  {
    var n := |chain| - 1;
    if n > 0 {
      SeenAlong(table, root, seen, chain[..n]);
      assert IsChild(table, chain[n - 1], chain[n]);
      ChildrenExact(table, chain[n - 1], chain[n]);
    }
  }

  lemma ExploredAll(table: seq<Entry>, root: Pid, seen: seq<Pid>)
    requires Explored(table, root, [], seen)
    ensures IsTreeListing(table, root, seen)
  {
    forall pid | Reachable(table, root, pid) ensures pid in seen {
      var chain :| IsChain(table, chain) && chain[0] == root && chain[|chain| - 1] == pid;
      SeenAlong(table, root, seen, chain);
    }
  }

  lemma Visit(table: seq<Entry>, root: Pid, stack: seq<Pid>, seen: seq<Pid>)
    requires stack != [] && Explored(table, root, stack, seen)
    ensures var (rest, p) := (stack[..|stack| - 1], stack[|stack| - 1]);
            if p in seen then Explored(table, root, rest, seen)
            else Explored(table, root, rest + ChildrenOf(table, p), seen + [p])
  {
    hide Reachable, ChildrenOf;
    var (rest, p) := (stack[..|stack| - 1], stack[|stack| - 1]);
    assert stack == rest + [p] && p in stack;
    if p !in seen {
      forall c | c in ChildrenOf(table, p) ensures Reachable(table, root, c) { ChildReachable(table, root, p, c); }
      assert forall i | 0 <= i < |seen| :: seen[i] in seen;
    }
  }

  /** The processes that can ever be on the stack. */
  function Known(table: seq<Entry>, root: Pid): set<Pid> {
    {root} + set e | e in table :: e.pid
  }

  lemma {:induction false} ChildrenKnown(table: seq<Entry>, root: Pid, p: Pid)
    ensures forall c | c in ChildrenOf(table, p) :: c in Known(table, root)
  {
    forall c | c in ChildrenOf(table, p) ensures c in Known(table, root) {
      ChildrenExact(table, p, c);
      var e :| e in table && e.ppid == p && e.pid == c;
    }
  }

  lemma StartExplored(table: seq<Entry>, root: Pid)
    ensures Explored(table, root, [root], []) && root in Known(table, root) && SumRss(table, []) == 0
  {
    assert IsChain(table, [root]);
  }

  lemma SumSnoc(table: seq<Entry>, pids: seq<Pid>, pid: Pid)
    ensures SumRss(table, pids + [pid]) == SumRss(table, pids) + RssOf(table, pid)
  {
    assert (pids + [pid])[..|pids|] == pids;
  }

  /** The last entry of the process says so, or it has none. */
  ghost predicate Uses(table: seq<Entry>, pid: Pid, memory: nat) {
    if exists e | e in table :: e.pid == pid
    then exists i | 0 <= i < |table| ::
           && table[i].pid == pid && table[i].rss == memory && forall j | i < j < |table| :: table[j].pid != pid
    else memory == 0
  }

  /** The running sums of the memory of the processes listed, from 0 up to the total. */
  ghost predicate AddsUp(sums: seq<nat>, table: seq<Entry>, pids: seq<Pid>, total: nat) {
    && |sums| == |pids| + 1 && sums[0] == 0 && sums[|pids|] == total
    && forall i: nat | i < |pids| :: sums[i] <= sums[i + 1] && Uses(table, pids[i], sums[i + 1] - sums[i])
  }

  /** What a process counts. */
  lemma {:induction false} RssOfMeaning(table: seq<Entry>, pid: Pid)
    ensures Uses(table, pid, RssOf(table, pid))
  {
    if table != [] {
      var (front, last) := (table[..|table| - 1], table[|table| - 1]);
      assert table == front + [last];
      if last.pid == pid {
        assert table[|front|] == last && last in table;
      } else {
        RssOfMeaning(front, pid);
        hide RssOf;
        assert forall e | e in front :: e in table;
        if e :| e in front && e.pid == pid {
          var i :| && 0 <= i < |front| && front[i].pid == pid && front[i].rss == RssOf(front, pid)
                   && forall j | i < j < |front| :: front[j].pid != pid;
          assert table[i] == front[i] && RssOf(table, pid) == RssOf(front, pid) by { OneEntry(front, last, pid); }
        } else {
          OneEntry(front, last, pid);
        }
      }
    }
  }

  lemma AddsUpMore(sums: seq<nat>, table: seq<Entry>, pids: seq<Pid>, total: nat, pid: Pid, memory: nat)
    requires AddsUp(sums, table, pids, total) && Uses(table, pid, memory)
    ensures AddsUp(sums + [total + memory], table, pids + [pid], total + memory)
  {
    hide Uses;
  }

  /** What a listing adds up to. */
  lemma {:induction false} SumMeaning(table: seq<Entry>, pids: seq<Pid>) returns (sums: seq<nat>)
    ensures AddsUp(sums, table, pids, SumRss(table, pids))
  {
    hide Uses, RssOf;
    if pids == [] {
      sums := [0];
    } else {
      var (front, pid) := (pids[..|pids| - 1], pids[|pids| - 1]);
      assert pids == front + [pid];
      SumSnoc(table, front, pid);
      hide *;
      sums := SumMeaning(table, front);
      RssOfMeaning(table, pid);
      AddsUpMore(sums, table, front, SumRss(table, front), pid, RssOf(table, pid));
      sums := sums + [SumRss(table, front) + RssOf(table, pid)];
    }
  }

  /** The worklist ends on any table, with cycles and repeated entries, and returns the memory of exactly
      the reachable processes, each counted once, however they are listed. */
  method ProcessTreeRssKb(table: seq<Entry>, rootPid: Pid) returns (total: nat)
    ensures exists pids :: IsTreeListing(table, rootPid, pids)
    ensures forall pids | IsTreeListing(table, rootPid, pids) ::
              total == SumRss(table, pids) && exists sums :: AddsUp(sums, table, pids, total)
  {
    hide AddsUp, Explored, IsTreeListing, ChildrenOf, RssOf, SumRss, Known;
    var children, rss := BuildMaps(table);
    total := 0;
    var stack := [rootPid];
    var seen: set<Pid> := {};
    ghost var seenList: seq<Pid> := [];
    StartExplored(table, rootPid);
    while stack != []
      invariant Explored(table, rootPid, stack, seenList) && forall p :: p in seen <==> p in seenList
      invariant total == SumRss(table, seenList)
      invariant forall p | p in stack :: p in Known(table, rootPid)
      decreases |Known(table, rootPid) - seen|, |stack|
    {
      Visit(table, rootPid, stack, seenList);
      var pid := stack[|stack| - 1];
      assert pid in stack;
      stack := stack[..|stack| - 1];
      if pid in seen {
        continue;
      }
      ChildrenKnown(table, rootPid, pid);
      Shrinks(Known(table, rootPid), seen, pid);
      SumSnoc(table, seenList, pid);
      seen := seen + {pid};
      seenList := seenList + [pid];
      total := total + RssIn(rss, pid);
      stack := stack + ChildrenIn(children, pid);
    }
    ExploredAll(table, rootPid, seenList);
    forall pids | IsTreeListing(table, rootPid, pids)
      ensures total == SumRss(table, pids) && exists sums :: AddsUp(sums, table, pids, total)
    {
      SameTree(table, rootPid, seenList, pids);
      var sums := SumMeaning(table, pids);
    }
  }

  lemma SameTree(table: seq<Entry>, root: Pid, a: seq<Pid>, b: seq<Pid>)
    requires IsTreeListing(table, root, a) && IsTreeListing(table, root, b)
    ensures SumRss(table, a) == SumRss(table, b)
  {
    SumIndependent(table, a, b);
  }

  lemma Shrinks(all: set<Pid>, seen: set<Pid>, p: Pid)
    requires p in all && p !in seen
    ensures |all - (seen + {p})| < |all - seen|
  {
    assert all - (seen + {p}) == (all - seen) - {p};
  }

  lemma SomeMember(s: seq<Pid>) returns (p: Pid)
    requires s != []
    ensures p in s
  {
    p := s[0];
  }

  /** Take the last of one listing out of another listing of the same processes. */
  lemma TakeOut(a: seq<Pid>, b: seq<Pid>) returns (front: seq<Pid>, back: seq<Pid>)
    requires a != [] && Distinct(a) && Distinct(b) && forall p :: p in a <==> p in b
    ensures b == front + [a[|a| - 1]] + back
    ensures Distinct(a[..|a| - 1]) && Distinct(front + back)
    ensures forall p :: p in a[..|a| - 1] <==> p in front + back
  {
    var n := |a| - 1;
    var x := a[n];
    assert x in a;
    var i :| 0 <= i < |b| && b[i] == x;
    front, back := b[..i], b[i + 1..];
    assert a == a[..n] + [x] && b == front + [x] + back;
    assert a[..n] + [] == a[..n] && a[..n] + [x] + [] == a;
    RemoveDistinct(a[..n], x, []);
    RemoveDistinct(front, x, back);
    forall p ensures p in a[..n] <==> p in front + back {
      assert p in a <==> p in a[..n] || p == x;
      assert p in b <==> p in front || p == x || p in back;
    }
  }

  lemma RemoveDistinct(front: seq<Pid>, x: Pid, back: seq<Pid>)
    requires Distinct(front + [x] + back)
    ensures Distinct(front + back) && x !in front + back
  {
    var (s, t) := (front + [x] + back, front + back);
    forall i | 0 <= i < |t| ensures t[i] != x {
      assert s[if i < |front| then i else i + 1] == t[i] && s[|front|] == x;
    }
    forall i, j | 0 <= i < j < |t| ensures t[i] != t[j] {
      assert s[if i < |front| then i else i + 1] == t[i] && s[if j < |front| then j else j + 1] == t[j];
    }
  }

  /** The sum does not depend on how the tree is listed, so the result is a function of the table. */
  lemma {:induction false} SumIndependent(table: seq<Entry>, a: seq<Pid>, b: seq<Pid>)
    requires Distinct(a) && Distinct(b) && forall p :: p in a <==> p in b
    ensures SumRss(table, a) == SumRss(table, b)
  {
    if a == [] {
      if b != [] { var p := SomeMember(b); }
    } else {
      var front, back := TakeOut(a, b);
      SumSplit(table, front, a[|a| - 1], back);
      SumIndependent(table, a[..|a| - 1], front + back);
    }
  }

  lemma {:induction false} SumSplit(table: seq<Entry>, front: seq<Pid>, p: Pid, back: seq<Pid>)
    ensures SumRss(table, front + [p] + back) == SumRss(table, front + back) + RssOf(table, p)
    decreases |back|
  {
    if back == [] {
      assert front + [p] + back == front + [p] && (front + [p])[..|front|] == front && front + back == front;
    } else {
      var n := |back| - 1;
      SumSplit(table, front, p, back[..n]);
      assert (front + [p] + back)[..|front| + 1 + n] == front + [p] + back[..n];
      assert (front + back)[..|front| + n] == front + back[..n];
    }
  }
}
