/** Listings without repetition, permutations and sorting, shared by the models: Python's `sort` and `sorted` are
    functions of the multiset being sorted, whatever order it arrives in. */
module Ordering {

  lemma ConcatAssociative<T>(a: seq<T>, b: seq<T>, c: seq<T>)
    ensures a + (b + c) == (a + b) + c
  {
  }

  lemma TwoParts<T>(a: seq<T>, b: seq<T>)
    ensures (a + b)[..|a|] == a && (a + b)[|a|..] == b
  {
  }

  lemma ThreeParts<T>(x: seq<T>, y: seq<T>, z: seq<T>)
    ensures var s := x + y + z;
            |s| == |x| + |y| + |z| && s[..|x|] == x && s[|x|..|x| + |y|] == y && s[|x| + |y|..] == z
  {
  }

  ghost predicate Distinct<T>(s: seq<T>) {
    forall i, j | 0 <= i < j < |s| :: s[i] != s[j]
  }

  lemma DistinctSnoc<T>(s: seq<T>, x: T)
    ensures Distinct(s + [x]) <==> Distinct(s) && x !in s
  {
    var t := s + [x];
    if Distinct(s) && x !in s {
      assert forall i | 0 <= i < |s| :: t[i] in s;
    }
    if Distinct(t) {
      forall i, j | 0 <= i < j < |s| ensures s[i] != s[j] { assert t[i] != t[j]; }
      forall i | 0 <= i < |s| ensures s[i] != x { assert t[i] != t[|s|]; }
    }
  }

  /** A listing repeats nothing exactly when no element occurs in it twice. */
  lemma {:induction false} DistinctCounts<T>(s: seq<T>)
    ensures Distinct(s) <==> forall x :: multiset(s)[x] <= 1
  {
    if s != [] {
      var (front, last) := (s[..|s| - 1], s[|s| - 1]);
      assert s == front + [last];
      DistinctCounts(front);
      DistinctSnoc(front, last);
      hide Distinct;
      assert multiset(s) == multiset(front) + multiset{last};
      assert last in front <==> multiset(front)[last] >= 1;
      if forall x :: multiset(s)[x] <= 1 {
        forall x ensures multiset(front)[x] <= 1 { assert multiset(s)[x] <= 1; }
        assert multiset(s)[last] <= 1;
      }
    }
  }

  /** Any two elements compare, transitively; equivalent elements may differ. */
  ghost predicate TotalPreorder<T(!new)>(leq: (T, T) -> bool) {
    && (forall x, y :: leq(x, y) || leq(y, x))
    && (forall x, y, z :: leq(x, y) && leq(y, z) ==> leq(x, z))
  }

  ghost predicate TotalOrder<T(!new)>(leq: (T, T) -> bool) {
    TotalPreorder(leq) && forall x, y :: leq(x, y) && leq(y, x) ==> x == y
  }

  ghost predicate SortedBy<T>(s: seq<T>, leq: (T, T) -> bool) {
    forall i, j | 0 <= i < j < |s| :: leq(s[i], s[j])
  }

  function Insert<T>(x: T, s: seq<T>, leq: (T, T) -> bool): seq<T> {
    if s == [] then [x]
    else if leq(x, s[0]) then [x] + s
    else [s[0]] + Insert(x, s[1..], leq)
  }

  function Sort<T>(s: seq<T>, leq: (T, T) -> bool): seq<T> {
    if s == [] then [] else Insert(s[0], Sort(s[1..], leq), leq)
  }

  lemma {:induction false} InsertElements<T>(x: T, s: seq<T>, leq: (T, T) -> bool)
    ensures multiset(Insert(x, s, leq)) == multiset(s) + multiset{x}
  {
    if s != [] {
      assert s == [s[0]] + s[1..];
      InsertElements(x, s[1..], leq);
    }
  }

  lemma {:induction false} InsertSorted<T(!new)>(x: T, s: seq<T>, leq: (T, T) -> bool)
    requires TotalPreorder(leq) && SortedBy(s, leq)
    ensures SortedBy(Insert(x, s, leq), leq)
  {
    if s == [] {
    } else if leq(x, s[0]) {
      forall i | 0 <= i < |s| ensures leq(x, s[i]) {
        assert i == 0 || leq(s[0], s[i]);
      }
    } else {
      var tail := Insert(x, s[1..], leq);
      InsertSorted(x, s[1..], leq);
      forall i | 0 <= i < |tail| ensures leq(s[0], tail[i]) {
        InsertElements(x, s[1..], leq);
        assert tail[i] in multiset(tail);
        assert tail[i] == x || tail[i] in s[1..];
      }
    }
  }

  /** Sorting yields a sorted rearrangement. */
  lemma {:induction false} SortCorrect<T(!new)>(s: seq<T>, leq: (T, T) -> bool)
    requires TotalPreorder(leq)
    ensures SortedBy(Sort(s, leq), leq)
    ensures multiset(Sort(s, leq)) == multiset(s)
  {
    if s != [] {
      SortCorrect(s[1..], leq);
      InsertSorted(s[0], Sort(s[1..], leq), leq);
      InsertElements(s[0], Sort(s[1..], leq), leq);
      assert s == [s[0]] + s[1..];
    }
  }

  /** What is in order stays as it is. */
  lemma {:induction false} SortSorted<T>(s: seq<T>, leq: (T, T) -> bool)
    requires SortedBy(s, leq)
    ensures Sort(s, leq) == s
  {
    if s != [] {
      SortSorted(s[1..], leq);
      assert |s| > 1 ==> leq(s[0], s[1]);
      assert s == [s[0]] + s[1..];
    }
  }

  /** The elements that compare equal to `v`, in order. */
  function Peers<T>(s: seq<T>, v: T, leq: (T, T) -> bool): seq<T> {
    if s == [] then []
    else (if leq(s[0], v) && leq(v, s[0]) then [s[0]] else []) + Peers(s[1..], v, leq)
  }

  lemma PeersCons<T>(x: T, s: seq<T>, v: T, leq: (T, T) -> bool)
    ensures Peers([x] + s, v, leq) == (if leq(x, v) && leq(v, x) then [x] else []) + Peers(s, v, leq)
  {
    assert ([x] + s)[1..] == s;
  }

  lemma NotBothPeers<T(!new)>(x: T, y: T, v: T, leq: (T, T) -> bool)
    requires TotalPreorder(leq) && !leq(x, y)
    ensures !(leq(x, v) && leq(v, x) && leq(y, v) && leq(v, y))
  {
  }

  lemma {:induction false} InsertPeers<T(!new)>(x: T, s: seq<T>, v: T, leq: (T, T) -> bool)
    requires TotalPreorder(leq)
    ensures Peers(Insert(x, s, leq), v, leq) == Peers([x] + s, v, leq)
  {
    if s != [] && !leq(x, s[0]) {
      var (y, rest) := (s[0], s[1..]);
      assert s == [y] + rest && Insert(x, s, leq) == [y] + Insert(x, rest, leq);
      hide Peers, Insert, TotalPreorder;
      InsertPeers(x, rest, v, leq);
      NotBothPeers(x, y, v, leq);
      PeersCons(y, Insert(x, rest, leq), v, leq);
      PeersCons(y, rest, v, leq);
      PeersCons(x, rest, v, leq);
      PeersCons(x, s, v, leq);
    }
  }

  /** Sorting is stable: elements that compare equal keep their order. */
  lemma {:induction false} SortStable<T(!new)>(s: seq<T>, v: T, leq: (T, T) -> bool)
    requires TotalPreorder(leq)
    ensures Peers(Sort(s, leq), v, leq) == Peers(s, v, leq)
  {
    if s != [] {
      SortStable(s[1..], v, leq);
      InsertPeers(s[0], Sort(s[1..], leq), v, leq);
      PeersCons(s[0], s[1..], v, leq);
      PeersCons(s[0], Sort(s[1..], leq), v, leq);
      assert s == [s[0]] + s[1..];
    }
  }

  predicate Peer<T>(x: T, v: T, leq: (T, T) -> bool) { leq(x, v) && leq(v, x) }

  lemma {:induction false} PeersFrom<T>(s: seq<T>, v: T, leq: (T, T) -> bool, a: nat, b: nat) returns (p: nat, q: nat)
    requires a <= b < |Peers(s, v, leq)|
    ensures p <= q < |s| && s[p] == Peers(s, v, leq)[a] && s[q] == Peers(s, v, leq)[b] && (a < b ==> p < q)
  {
    if Peer(s[0], v, leq) {
      if b == 0 {
        p, q := 0, 0;
      } else {
        p, q := PeersFrom(s[1..], v, leq, if a == 0 then b - 1 else a - 1, b - 1);
        p, q := if a == 0 then 0 else p + 1, q + 1;
      }
    } else {
      p, q := PeersFrom(s[1..], v, leq, a, b);
      p, q := p + 1, q + 1;
    }
  }

  lemma {:induction false} PeersTo<T>(s: seq<T>, v: T, leq: (T, T) -> bool, i: nat, j: nat) returns (a: nat, b: nat)
    requires i <= j < |s| && Peer(s[i], v, leq) && Peer(s[j], v, leq)
    ensures a <= b < |Peers(s, v, leq)| && Peers(s, v, leq)[a] == s[i] && Peers(s, v, leq)[b] == s[j]
    ensures i < j ==> a < b
    decreases |s|
  {
    if j == 0 {
      a, b := 0, 0;
    } else {
      a, b := PeersTo(s[1..], v, leq, if i == 0 then j - 1 else i - 1, j - 1);
      if Peer(s[0], v, leq) { a, b := if i == 0 then 0 else a + 1, b + 1; }
    }
  }

  /** Of two elements that compare equal the one that comes first when sorted comes first in the list. */
  lemma SortKeepsOrder<T(!new)>(s: seq<T>, leq: (T, T) -> bool, i: nat, j: nat) returns (p: nat, q: nat)
    requires TotalPreorder(leq) && i < j < |Sort(s, leq)| && Peer(Sort(s, leq)[i], Sort(s, leq)[j], leq)
    ensures p < q < |s| && s[p] == Sort(s, leq)[i] && s[q] == Sort(s, leq)[j]
  {
    var v := Sort(s, leq)[j];
    assert leq(v, v);
    SortStable(s, v, leq);
    hide Sort, Peers, TotalPreorder;
    var a, b := PeersTo(Sort(s, leq), v, leq, i, j);
    p, q := PeersFrom(s, v, leq, a, b);
  }

  lemma SameHead<T(!new)>(s: seq<T>, t: seq<T>, leq: (T, T) -> bool)
    requires TotalOrder(leq) && SortedBy(s, leq) && SortedBy(t, leq)
    requires multiset(s) == multiset(t) && s != [] && t != []
    ensures s[0] == t[0]
  {
    assert s[0] in multiset(t) && t[0] in multiset(s);
    var i :| 0 <= i < |t| && t[i] == s[0];
    var j :| 0 <= j < |s| && s[j] == t[0];
    assert i == 0 || leq(t[0], t[i]);
    assert j == 0 || leq(s[0], s[j]);
  }

  /** A multiset has only one sorted listing. */
  lemma {:induction false} SortedUnique<T(!new)>(s: seq<T>, t: seq<T>, leq: (T, T) -> bool)
    requires TotalOrder(leq) && SortedBy(s, leq) && SortedBy(t, leq)
    requires multiset(s) == multiset(t)
    ensures s == t
  {
    assert |multiset(s)| == |s| && |multiset(t)| == |t|;
    if s != [] {
      SameHead(s, t, leq);
      TailElements(s);
      TailElements(t);
      assert SortedBy(s[1..], leq) && SortedBy(t[1..], leq);
      hide TotalOrder, SortedBy;
      SortedUnique(s[1..], t[1..], leq);
    }
  }

  lemma TailElements<T>(s: seq<T>)
    requires s != []
    ensures s == [s[0]] + s[1..] && multiset(s[1..]) == multiset(s) - multiset{s[0]}
  {
    assert multiset([s[0]] + s[1..]) == multiset{s[0]} + multiset(s[1..]);
  }

  lemma SortCanonical<T(!new)>(s: seq<T>, t: seq<T>, leq: (T, T) -> bool)
    requires TotalOrder(leq) && multiset(s) == multiset(t)
    ensures Sort(s, leq) == Sort(t, leq)
  {
    SortCorrect(s, leq);
    SortCorrect(t, leq);
    SortedUnique(Sort(s, leq), Sort(t, leq), leq);
  }

  /** Python's order on strings: code point by code point, a proper prefix first. */
  predicate StringLeq(a: string, b: string) {
    a == [] || (b != [] && (a[0] < b[0] || (a[0] == b[0] && StringLeq(a[1..], b[1..]))))
  }

  /** The texts agree before index `i` and differ there. */
  ghost predicate FirstDifference(a: string, b: string, i: nat) {
    i < |a| && i < |b| && a[..i] == b[..i] && a[i] != b[i]
  }

  ghost predicate InTextOrder(a: string, b: string) {
    a <= b || exists i: nat :: FirstDifference(a, b, i) && a[i] < b[i]
  }

  /** A text comes before another exactly when it is the start of it or has the smaller character where they first
      differ. */
  lemma {:induction false} StringLeqMeaning(a: string, b: string)
    ensures StringLeq(a, b) <==> InTextOrder(a, b)
  {
    if a != [] && b != [] {
      if a[0] == b[0] {
        StringLeqMeaning(a[1..], b[1..]);
        SameHeadOrder(a, b);
      } else {
        assert FirstDifference(a, b, 0);
        OnlyFirst(a, b);
      }
    }
  }

  lemma AgreeBefore(a: string, b: string, i: nat)
    requires FirstDifference(a, b, i)
    ensures i > 0 ==> a[0] == b[0]
  {
    if i > 0 { assert a[..i][0] == a[0] && b[..i][0] == b[0]; }
  }

  lemma OnlyFirst(a: string, b: string)
    requires a != [] && b != [] && a[0] != b[0]
    ensures InTextOrder(a, b) <==> a[0] < b[0]
  {
    assert FirstDifference(a, b, 0);
    if i: nat :| FirstDifference(a, b, i) && a[i] < b[i] {
      AgreeBefore(a, b, i);
    }
  }

  lemma DifferenceInTail(a: string, b: string, i: nat)
    requires a != [] && b != [] && a[0] == b[0]
    ensures FirstDifference(a, b, i + 1) <==> FirstDifference(a[1..], b[1..], i)
  {
    if i < |a| - 1 && i < |b| - 1 {
      assert a[..i + 1] == [a[0]] + a[1..][..i] && b[..i + 1] == [b[0]] + b[1..][..i];
      assert a[..i + 1][1..] == a[1..][..i] && b[..i + 1][1..] == b[1..][..i];
    }
  }

  lemma PrefixTail(a: string, b: string)
    requires a != [] && b != [] && a[0] == b[0]
    ensures a <= b <==> a[1..] <= b[1..]
  {
    assert a == [a[0]] + a[1..] && b == [b[0]] + b[1..];
    if a[1..] <= b[1..] { assert b == a + b[|a|..]; }
  }

  lemma SameHeadOrder(a: string, b: string)
    requires a != [] && b != [] && a[0] == b[0]
    ensures InTextOrder(a, b) <==> InTextOrder(a[1..], b[1..])
  {
    PrefixTail(a, b);
    if i: nat :| FirstDifference(a, b, i) && a[i] < b[i] {
      DifferenceInTail(a, b, i - 1);
    }
    if i: nat :| FirstDifference(a[1..], b[1..], i) && a[1..][i] < b[1..][i] {
      DifferenceInTail(a, b, i);
    }
  }

  lemma {:induction false} StringLeqTotal(a: string, b: string)
    ensures StringLeq(a, b) || StringLeq(b, a)
  {
    if a != [] && b != [] { StringLeqTotal(a[1..], b[1..]); }
  }

  lemma {:induction false} StringLeqAntisymmetric(a: string, b: string)
    requires StringLeq(a, b) && StringLeq(b, a)
    ensures a == b
  {
    if a != [] && b != [] {
      StringLeqAntisymmetric(a[1..], b[1..]);
      assert a == [a[0]] + a[1..] && b == [b[0]] + b[1..];
    }
  }

  lemma {:induction false} StringLeqTransitive(a: string, b: string, c: string)
    requires StringLeq(a, b) && StringLeq(b, c)
    ensures StringLeq(a, c)
  {
    if a != [] && a[0] == b[0] == c[0] { StringLeqTransitive(a[1..], b[1..], c[1..]); }
  }

  lemma StringOrder()
    ensures TotalOrder(StringLeq)
  {
    forall x, y ensures StringLeq(x, y) || StringLeq(y, x) { StringLeqTotal(x, y); }
    forall x, y | StringLeq(x, y) && StringLeq(y, x) ensures x == y { StringLeqAntisymmetric(x, y); }
    forall x, y, z | StringLeq(x, y) && StringLeq(y, z) ensures StringLeq(x, z) {
      StringLeqTransitive(x, y, z);
    }
  }

  lemma AddOne<T>(all: seq<T>, a: seq<T>, b: seq<T>, x: T)
    requires multiset(all) == multiset(a) + multiset(b)
    ensures multiset(all + [x]) == multiset(a + [x]) + multiset(b) == multiset(a) + multiset(b + [x])
  {
  }

  /** The last element of one listing of a multiset occurs in any other; taking it out of both
      leaves rearrangements of each other. */
  lemma PermSplit<T>(a: seq<T>, b: seq<T>) returns (i: nat)
    requires a != [] && multiset(a) == multiset(b)
    ensures i < |b| && b[i] == a[|a| - 1]
    ensures b == b[..i] + [b[i]] + b[i + 1..]
    ensures multiset(a[..|a| - 1]) == multiset(b[..i] + b[i + 1..])
  {
    var (n, x) := (|a| - 1, a[|a| - 1]);
    assert x in multiset(b);
    i :| 0 <= i < |b| && b[i] == x;
    TakeOutOne(a, n);
    TakeOutOne(b, i);
    assert a[..n] + a[n + 1..] == a[..n];
  }

  lemma TakeOutOne<T>(s: seq<T>, i: nat)
    requires i < |s|
    ensures s == s[..i] + [s[i]] + s[i + 1..] && multiset(s[..i] + s[i + 1..]) == multiset(s) - multiset{s[i]}
  {
    assert s == s[..i] + [s[i]] + s[i + 1..];
    assert multiset(s) == multiset(s[..i]) + multiset{s[i]} + multiset(s[i + 1..]);
  }

  function FlatMap<T, U>(f: T -> seq<U>, s: seq<T>): seq<U> {
    if s == [] then [] else FlatMap(f, s[..|s| - 1]) + f(s[|s| - 1])
  }

  lemma {:induction false} FlatMapConcat<T, U>(f: T -> seq<U>, s: seq<T>, t: seq<T>)
    ensures FlatMap(f, s + t) == FlatMap(f, s) + FlatMap(f, t)
  {
    if t == [] {
      assert s + t == s;
    } else {
      var k := |t| - 1;
      assert (s + t)[..|s + t| - 1] == s + t[..k];
      FlatMapConcat(f, s, t[..k]);
    }
  }

  /** Selecting and relabelling elements commutes with rearranging them. */
  lemma {:induction false} FlatMapPerm<T, U>(f: T -> seq<U>, a: seq<T>, b: seq<T>)
    requires multiset(a) == multiset(b)
    ensures multiset(FlatMap(f, a)) == multiset(FlatMap(f, b))
  {
    if a == [] {
      assert |multiset(b)| == 0;
    } else {
      var i := PermSplit(a, b);
      var x := b[i];
      FlatMapPerm(f, a[..|a| - 1], b[..i] + b[i + 1..]);
      FlatMapConcat(f, b[..i], b[i + 1..]);
      FlatMapConcat(f, b[..i] + [x], b[i + 1..]);
      FlatMapConcat(f, b[..i], [x]);
      assert [x][..0] == [];
    }
  }

  // ---------------------------------------------------------------------------------------
  // Picking elements out of a list
  // ---------------------------------------------------------------------------------------

  ghost predicate Increasing(idx: seq<nat>) {
    forall m, n | 0 <= m < n < |idx| :: idx[m] < idx[n]
  }

  /** `idx` are the places in `s` of the elements kept, and `r` are their labels. */
  ghost predicate PicksAt<T, U>(r: seq<U>, s: seq<T>, keep: T -> bool, tag: T -> U, idx: seq<nat>) {
    && |idx| == |r| && Increasing(idx)
    && (forall n | 0 <= n < |idx| :: idx[n] < |s| && keep(s[idx[n]]) && r[n] == tag(s[idx[n]]))
    && forall i | 0 <= i < |s| && keep(s[i]) :: i in idx
  }

  /** `r` lists, in their order in `s`, the labels of exactly the elements kept. */
  ghost predicate Picks<T, U>(r: seq<U>, s: seq<T>, keep: T -> bool, tag: T -> U) {
    exists idx :: PicksAt(r, s, keep, tag, idx)
  }

  lemma PicksNothing<T, U>(keep: T -> bool, tag: T -> U)
    ensures Picks([], [], keep, tag)
  {
    assert PicksAt([], [], keep, tag, []);
  }

  lemma PicksAtSnoc<T, U>(r: seq<U>, s: seq<T>, x: T, keep: T -> bool, tag: T -> U, idx: seq<nat>)
    requires PicksAt(r, s, keep, tag, idx) && keep(x)
    ensures PicksAt(r + [tag(x)], s + [x], keep, tag, idx + [|s|])
  {
    var (t, all) := (s + [x], idx + [|s|]);
    forall i | 0 <= i < |t| && keep(t[i]) ensures i in all {
      if i == |s| { assert all[|idx|] == i; }
    }
  }

  lemma PicksAtSkip<T, U>(r: seq<U>, s: seq<T>, x: T, keep: T -> bool, tag: T -> U, idx: seq<nat>)
    requires PicksAt(r, s, keep, tag, idx) && !keep(x)
    ensures PicksAt(r, s + [x], keep, tag, idx)
  {
  }

  lemma PicksSnoc<T, U>(r: seq<U>, s: seq<T>, x: T, keep: T -> bool, tag: T -> U)
    ensures Picks(r, s, keep, tag) ==> Picks(r + (if keep(x) then [tag(x)] else []), s + [x], keep, tag)
  {
    hide PicksAt;
    if idx :| PicksAt(r, s, keep, tag, idx) {
      if keep(x) {
        PicksAtSnoc(r, s, x, keep, tag, idx);
      } else {
        PicksAtSkip(r, s, x, keep, tag, idx);
        assert r + [] == r;
      }
    }
  }

  /** Where each of `r` comes from, when every part gives at most one element. */
  ghost predicate FromParts<U>(r: seq<U>, parts: seq<seq<U>>, places: seq<nat>) {
    && |places| == |r| && Increasing(places)
    && (forall k | 0 <= k < |places| :: places[k] < |parts| && parts[places[k]] == [r[k]])
    && forall i | 0 <= i < |parts| && parts[i] != [] :: i in places
  }

  lemma FromPartsSkip<U>(r: seq<U>, parts: seq<seq<U>>, places: seq<nat>)
    requires FromParts(r, parts, places)
    ensures FromParts(r + [], parts + [[]], places)
  {
    assert r + [] == r;
  }

  lemma FromPartsSnoc<U>(r: seq<U>, parts: seq<seq<U>>, places: seq<nat>, x: U)
    requires FromParts(r, parts, places)
    ensures FromParts(r + [x], parts + [[x]], places + [|parts|])
  {
    var (ps, all) := (parts + [[x]], places + [|parts|]);
    forall i | 0 <= i < |ps| && ps[i] != [] ensures i in all {
      if i == |parts| { assert all[|places|] == i; }
    }
  }

  lemma FromPartsNext<U>(r: seq<U>, parts: seq<seq<U>>, places: seq<nat>, x: seq<U>)
    requires FromParts(r, parts, places) && |x| <= 1
    ensures FromParts(r + x, parts + [x], if x == [] then places else places + [|parts|])
  {
    hide FromParts;
    if x == [] {
      FromPartsSkip(r, parts, places);
    } else {
      assert x == [x[0]];
      FromPartsSnoc(r, parts, places, x[0]);
    }
  }

  /** The places at which a list meets a condition. */
  ghost function Where<T>(s: seq<T>, p: T -> bool): set<nat> {
    set i: nat | i < |s| && p(s[i])
  }

  lemma WhereSnoc<T>(s: seq<T>, x: T, p: T -> bool)
    ensures |Where(s + [x], p)| == |Where(s, p)| + (if p(x) then 1 else 0)
  {
    assert Where(s + [x], p) == Where(s, p) + (if p(x) then {|s|} else {});
  }

  /** Selecting and labelling, counted at the places of the list. */
  lemma {:induction false} FlatMapCounts<T(!new), U>(f: T -> seq<U>, s: seq<T>, keep: T -> bool, tag: T -> U, u: U,
                                                     p: T -> bool)
    requires forall x :: f(x) == if keep(x) then [tag(x)] else []
    requires forall x :: p(x) <==> keep(x) && tag(x) == u
    ensures |FlatMap(f, s)| == |Where(s, keep)| && multiset(FlatMap(f, s))[u] == |Where(s, p)|
  {
    if s == [] {
      assert Where(s, keep) == {} && Where(s, p) == {};
    } else {
      var (front, x) := (s[..|s| - 1], s[|s| - 1]);
      assert s == front + [x];
      FlatMapCounts(f, front, keep, tag, u, p);
      hide Where;
      WhereSnoc(front, x, keep);
      WhereSnoc(front, x, p);
      assert FlatMap(f, s) == FlatMap(f, front) + f(x);
    }
  }
}
