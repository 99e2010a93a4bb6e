/** `sort_to_dependencies` of the Python bindings: peel off, step by step, the modules whose
    dependencies are all loaded. Python gives up with a RecursionError when the recursion limit is
    reached; the limit is a parameter here, so a call that would never return is one that reports
    failure under every limit. */
module DependencyOrder {
  import opened Ordering

  type Module = string
  type Dependencies = map<Module, seq<Module>>

  // ---------------------------------------------------------------------------------------
  // Dependency chains
  // ---------------------------------------------------------------------------------------

  /** A chain of modules, each depending on the next. */
  ghost predicate IsChain(deps: Dependencies, p: seq<Module>) {
    && p != []
    && forall i | 0 <= i < |p| - 1 :: p[i] in deps && p[i + 1] in deps[p[i]]
  }

  ghost predicate Closed(deps: Dependencies) {
    forall m, d | m in deps && d in deps[m] :: d in deps
  }

  ghost predicate IsCycle(deps: Dependencies, p: seq<Module>) {
    IsChain(deps, p) && |p| > 1 && p[0] == p[|p| - 1]
  }

  ghost predicate Acyclic(deps: Dependencies) {
    forall p :: !IsCycle(deps, p)
  }

  /** Every chain from `m` stays within the known modules and has at most `k` of them. */
  ghost predicate Bounded(deps: Dependencies, m: Module, k: nat) {
    forall p | IsChain(deps, p) && p[0] == m :: |p| <= k && p[|p| - 1] in deps
  }

  /** The longest chain from `m` has exactly `k + 1` modules, all of them known. */
  ghost predicate InLayer(deps: Dependencies, m: Module, k: nat) {
    Bounded(deps, m, k + 1) && exists p :: IsChain(deps, p) && p[0] == m && |p| == k + 1
  }

  lemma BoundedMonotone(deps: Dependencies, m: Module, k: nat, k': nat)
    requires Bounded(deps, m, k) && k <= k'
    ensures Bounded(deps, m, k')
  {
  }

  lemma NothingBoundedByZero(deps: Dependencies, m: Module)
    ensures !Bounded(deps, m, 0)
  {
    assert IsChain(deps, [m]);
  }

  /** A module is bounded by `k + 1` exactly when its dependencies are bounded by `k`. */
  lemma BoundedStep(deps: Dependencies, m: Module, k: nat)
    requires m in deps
    ensures Bounded(deps, m, k + 1) <==> forall d | d in deps[m] :: Bounded(deps, d, k)
  {
    if Bounded(deps, m, k + 1) {
      forall d, p | d in deps[m] && IsChain(deps, p) && p[0] == d ensures |p| <= k && p[|p| - 1] in deps {
        assert IsChain(deps, [m] + p);
      }
    }
    if forall d | d in deps[m] :: Bounded(deps, d, k) {
      forall p | IsChain(deps, p) && p[0] == m ensures |p| <= k + 1 && p[|p| - 1] in deps {
        if |p| > 1 {
          assert IsChain(deps, p[1..]) && p[1] in deps[m];
          assert Bounded(deps, p[1], k);
        }
      }
    }
  }

  /** A bounded module lies in exactly one layer: the one just below its least bound. */
  lemma LayerIsLeastBound(deps: Dependencies, m: Module, k: nat)
    ensures InLayer(deps, m, k) <==> Bounded(deps, m, k + 1) && !Bounded(deps, m, k)
  {
    if Bounded(deps, m, k + 1) && !Bounded(deps, m, k) {
      var p :| IsChain(deps, p) && p[0] == m && !(|p| <= k && p[|p| - 1] in deps);
      assert |p| == k + 1;
    }
  }

  // ---------------------------------------------------------------------------------------
  // When every module is eventually loaded
  // ---------------------------------------------------------------------------------------

  ghost predicate AllBounded(deps: Dependencies, k: nat) {
    forall m | m in deps :: Bounded(deps, m, k)
  }

  lemma {:induction false} Pigeonhole(p: seq<Module>, s: set<Module>) returns (i: nat, j: nat)
    requires |p| > |s| && forall x | x in p :: x in s
    ensures i < j < |p| && p[i] == p[j]
  {
    var n := |p| - 1;
    var x := p[n];
    assert x in p && x in s;
    if i' :| 0 <= i' < n && p[i'] == x {
      return i', n;
    }
    forall y | y in p[..n] ensures y in s - {x} {
      assert y in p;
    }
    i, j := Pigeonhole(p[..n], s - {x});
  }

  /** Going round a cycle gives chains as long as one likes. */
  lemma {:induction false} Pump(deps: Dependencies, p: seq<Module>, k: nat) returns (q: seq<Module>)
    requires IsCycle(deps, p)
    ensures IsChain(deps, q) && q[0] == p[0] && |q| > k
  {
    if k == 0 {
      q := [p[0]];
    } else {
      var r := Pump(deps, p, k - 1);
      var n := |p| - 1;
      q := p[..n] + r;
      forall i | 0 <= i < |q| - 1 ensures q[i] in deps && q[i + 1] in deps[q[i]] {
        if i < n {
          assert q[i + 1] == p[i + 1];
        } else {
          assert q[i] == r[i - n] && q[i + 1] == r[i - n + 1];
        }
      }
    }
  }

  lemma CycleUnbounded(deps: Dependencies, p: seq<Module>, k: nat)
    requires IsCycle(deps, p)
    ensures !Bounded(deps, p[0], k)
  {
    var q := Pump(deps, p, k);
  }

  lemma LongChainHasCycle(deps: Dependencies, p: seq<Module>) returns (c: seq<Module>)
    requires IsChain(deps, p) && |p| > |deps.Keys| && forall x | x in p :: x in deps
    ensures IsCycle(deps, c)
  {
    var i, j := Pigeonhole(p, deps.Keys);
    c := p[i..j + 1];
    forall x | 0 <= x < |c| - 1 ensures c[x] in deps && c[x + 1] in deps[c[x]] {
      assert c[x] == p[i + x] && c[x + 1] == p[i + x + 1];
    }
  }

  lemma ChainStaysInside(deps: Dependencies, p: seq<Module>)
    requires Closed(deps) && IsChain(deps, p) && p[0] in deps
    ensures forall x | x in p :: x in deps
  {
    forall i | 0 <= i < |p| ensures p[i] in deps {
      if i > 0 { assert p[i - 1] in deps && p[i] in deps[p[i - 1]]; }
    }
  }

  lemma ClosedAcyclicBounded(deps: Dependencies)
    requires Closed(deps) && Acyclic(deps)
    ensures AllBounded(deps, |deps.Keys|)
  {
    forall m, p | m in deps && IsChain(deps, p) && p[0] == m ensures |p| <= |deps.Keys| && p[|p| - 1] in deps {
      ChainStaysInside(deps, p);
      if |p| > |deps.Keys| {
        var c := LongChainHasCycle(deps, p);
      }
    }
  }

  lemma BoundedIsClosed(deps: Dependencies, k: nat)
    requires AllBounded(deps, k)
    ensures Closed(deps)
  {
    forall m, d | m in deps && d in deps[m] ensures d in deps {
      assert IsChain(deps, [m, d]) && Bounded(deps, m, k);
    }
  }

  /** A bound exists exactly for closed, acyclic dependency maps. */
  lemma BoundedIffClosedAcyclic(deps: Dependencies)
    ensures (exists k: nat :: AllBounded(deps, k)) <==> Closed(deps) && Acyclic(deps)
  {
    if Closed(deps) && Acyclic(deps) {
      ClosedAcyclicBounded(deps);
    }
    if k: nat :| AllBounded(deps, k) {
      BoundedIsClosed(deps, k);
      forall p ensures !IsCycle(deps, p) {
        if IsCycle(deps, p) { CycleUnbounded(deps, p, k); }
      }
    }
  }

  // ---------------------------------------------------------------------------------------
  // The layers, in the order of the module list
  // ---------------------------------------------------------------------------------------

  ghost predicate IsListing(deps: Dependencies, keys: seq<Module>) {
    && (forall m :: m in keys <==> m in deps)
    && Distinct(keys)
  }

  /** The modules not loaded after `k` steps. */
  ghost function Unloaded(deps: Dependencies, keys: seq<Module>, k: nat): seq<Module> {
    if keys == [] then []
    else Unloaded(deps, keys[..|keys| - 1], k)
         + (if Bounded(deps, keys[|keys| - 1], k) then [] else [keys[|keys| - 1]])
  }

  /** The modules of layer `k`. */
  ghost function Layer(deps: Dependencies, keys: seq<Module>, k: nat): seq<Module> {
    if keys == [] then []
    else Layer(deps, keys[..|keys| - 1], k)
         + (if InLayer(deps, keys[|keys| - 1], k) then [keys[|keys| - 1]] else [])
  }

  lemma {:induction false} UnloadedMembers(deps: Dependencies, keys: seq<Module>, k: nat)
    ensures forall m :: m in Unloaded(deps, keys, k) <==> m in keys && !Bounded(deps, m, k)
  {
    if keys != [] {
      var n := |keys| - 1;
      UnloadedMembers(deps, keys[..n], k);
      assert keys == keys[..n] + [keys[n]];
    }
  }

  lemma {:induction false} LayerMembers(deps: Dependencies, keys: seq<Module>, k: nat)
    ensures forall m :: m in Layer(deps, keys, k) <==> m in keys && InLayer(deps, m, k)
  {
    if keys != [] {
      var n := |keys| - 1;
      LayerMembers(deps, keys[..n], k);
      assert keys == keys[..n] + [keys[n]];
    }
  }

  /** Filtering keeps a list free of repetitions. */
  lemma {:induction false} FilteredDistinct(deps: Dependencies, keys: seq<Module>, k: nat)
    requires Distinct(keys)
    ensures Distinct(Unloaded(deps, keys, k)) && Distinct(Layer(deps, keys, k))
  {
    if keys != [] {
      var n := |keys| - 1;
      FilteredDistinct(deps, keys[..n], k);
      UnloadedMembers(deps, keys[..n], k);
      LayerMembers(deps, keys[..n], k);
      DistinctSnoc(Unloaded(deps, keys[..n], k), keys[n]);
      DistinctSnoc(Layer(deps, keys[..n], k), keys[n]);
    }
  }

  predicate CanBeLoaded(deps: Dependencies, m: Module, current: seq<Module>)
    requires m in deps
  {
    forall d | d in deps[m] :: d in current
  }

  function Loadable(deps: Dependencies, pending: seq<Module>, current: seq<Module>): seq<Module>
    requires forall m | m in pending :: m in deps
  {
    if pending == [] then []
    else var n := |pending| - 1;
         assert pending == pending[..n] + [pending[n]];
         Loadable(deps, pending[..n], current)
         + (if CanBeLoaded(deps, pending[n], current) then [pending[n]] else [])
  }

  /** The state between steps: what is pending and what is loaded after `k` of them. */
  ghost predicate After(deps: Dependencies, keys: seq<Module>, k: nat, pending: seq<Module>, current: seq<Module>) {
    && pending == Unloaded(deps, keys, k)
    && forall m :: m in current <==> m in deps && Bounded(deps, m, k)
  }

  lemma {:induction false} LoadableIsLayer(deps: Dependencies, keys: seq<Module>, k: nat, current: seq<Module>)
    requires forall m | m in keys :: m in deps
    requires forall m :: m in current <==> m in deps && Bounded(deps, m, k)
    ensures forall m | m in Unloaded(deps, keys, k) :: m in deps
    ensures Loadable(deps, Unloaded(deps, keys, k), current) == Layer(deps, keys, k)
  {
    UnloadedMembers(deps, keys, k);
    if keys != [] {
      var n := |keys| - 1;
      var m := keys[n];
      assert m in keys;
      LoadableIsLayer(deps, keys[..n], k, current);
      LayerIsLeastBound(deps, m, k);
      BoundedStep(deps, m, k);
      forall d | d in deps[m] && Bounded(deps, d, k) ensures d in deps {
        assert IsChain(deps, [d]);
      }
      var u := Unloaded(deps, keys[..n], k);
      if !Bounded(deps, m, k) {
        assert (u + [m])[..|u|] == u;
      } else {
        assert u + [] == u;
      }
    }
  }

  function Without(s: seq<Module>, xs: seq<Module>): seq<Module> {
    if s == [] then []
    else Without(s[..|s| - 1], xs) + (if s[|s| - 1] in xs then [] else [s[|s| - 1]])
  }

  lemma {:induction false} WithoutNothing(s: seq<Module>)
    ensures Without(s, []) == s
  {
    if s != [] { WithoutNothing(s[..|s| - 1]); }
  }

  lemma {:induction false} WithoutMembers(s: seq<Module>, xs: seq<Module>)
    ensures forall m :: m in Without(s, xs) <==> m in s && m !in xs
  {
    if s != [] {
      var n := |s| - 1;
      WithoutMembers(s[..n], xs);
      assert s == s[..n] + [s[n]];
    }
  }

  /** `list.remove`: the first occurrence goes. */
  function RemoveFirst(s: seq<Module>, m: Module): seq<Module> {
    if s == [] then [] else if s[0] == m then s[1..] else [s[0]] + RemoveFirst(s[1..], m)
  }

  lemma {:induction false} RemoveFirstSnoc(s: seq<Module>, x: Module, m: Module)
    ensures RemoveFirst(s + [x], m) == if m in s then RemoveFirst(s, m) + [x] else if x == m then s else s + [x]
  {
    if s == [] {
      assert [x][1..] == [];
    } else {
      assert (s + [x])[1..] == s[1..] + [x];
      RemoveFirstSnoc(s[1..], x, m);
    }
  }

  lemma {:induction false} RemoveOneMore(s: seq<Module>, xs: seq<Module>, m: Module)
    requires Distinct(s) && m !in xs
    ensures RemoveFirst(Without(s, xs), m) == Without(s, xs + [m])
  {
    if s != [] {
      var n := |s| - 1;
      RemoveOneMore(s[..n], xs, m);
      WithoutMembers(s[..n], xs);
      var w := Without(s[..n], xs);
      if s[n] in xs {
        assert Without(s, xs) == w && Without(s, xs + [m]) == Without(s[..n], xs + [m]);
      } else {
        RemoveFirstSnoc(w, s[n], m);
        if m !in s[..n] {
          Absent(s[..n], xs, m);
          assert w + [] == w;
        }
      }
    }
  }

  lemma {:induction false} Absent(s: seq<Module>, xs: seq<Module>, m: Module)
    requires m !in s
    ensures Without(s, xs + [m]) == Without(s, xs)
  {
    if s != [] { Absent(s[..|s| - 1], xs, m); }
  }

  lemma {:induction false} UnloadedStep(deps: Dependencies, keys: seq<Module>, k: nat, layer: seq<Module>)
    requires forall m | m in keys :: m in layer <==> InLayer(deps, m, k)
    ensures Without(Unloaded(deps, keys, k), layer) == Unloaded(deps, keys, k + 1)
  {
    if keys != [] {
      var n := |keys| - 1;
      var m := keys[n];
      assert m in keys;
      UnloadedStep(deps, keys[..n], k, layer);
      LayerIsLeastBound(deps, m, k);
      var u := Unloaded(deps, keys[..n], k);
      if !Bounded(deps, m, k) {
        assert (u + [m])[..|u|] == u;
      } else {
        assert u + [] == u;
      }
    }
  }

  lemma {:induction false} NothingLoaded(deps: Dependencies, keys: seq<Module>)
    ensures Unloaded(deps, keys, 0) == keys
  {
    if keys != [] {
      NothingLoaded(deps, keys[..|keys| - 1]);
      NothingBoundedByZero(deps, keys[|keys| - 1]);
    }
  }

  lemma AfterStep(deps: Dependencies, keys: seq<Module>, k: nat, pending: seq<Module>, current: seq<Module>)
    requires IsListing(deps, keys) && After(deps, keys, k, pending, current)
    ensures var layer := Layer(deps, keys, k);
            After(deps, keys, k + 1, Without(pending, layer), current + layer)
  {
    var layer := Layer(deps, keys, k);
    LayerMembers(deps, keys, k);
    UnloadedStep(deps, keys, k, layer);
    forall m ensures m in current + layer <==> m in deps && Bounded(deps, m, k + 1) {
      LayerIsLeastBound(deps, m, k);
    }
  }

  // ---------------------------------------------------------------------------------------
  // Getting stuck
  // ---------------------------------------------------------------------------------------

  /** A step that loads nothing is followed only by steps that load nothing. */
  lemma {:induction false} StuckForever(deps: Dependencies, keys: seq<Module>, k: nat, k': nat)
    requires IsListing(deps, keys) && Layer(deps, keys, k) == [] && k <= k'
    ensures Layer(deps, keys, k') == [] && Unloaded(deps, keys, k') == Unloaded(deps, keys, k)
    decreases k' - k
  {
    if k < k' {
      LayerMembers(deps, keys, k);
      LayerMembers(deps, keys, k + 1);
      forall m | m in keys ensures !InLayer(deps, m, k + 1) {
        SameBound(deps, keys, k, m);
        LayerIsLeastBound(deps, m, k + 1);
      }
      EmptyLayer(deps, keys, k + 1);
      UnloadedStep(deps, keys, k, []);
      WithoutNothing(Unloaded(deps, keys, k));
      StuckForever(deps, keys, k + 1, k');
    }
  }

  lemma {:induction false} EmptyLayer(deps: Dependencies, keys: seq<Module>, k: nat)
    requires forall m | m in keys :: !InLayer(deps, m, k)
    ensures Layer(deps, keys, k) == []
  {
    if keys != [] {
      var n := |keys| - 1;
      assert keys[n] in keys;
      EmptyLayer(deps, keys[..n], k);
    }
  }

  lemma SameBound(deps: Dependencies, keys: seq<Module>, k: nat, m: Module)
    requires IsListing(deps, keys) && m in deps && forall x | x in keys :: !InLayer(deps, x, k)
    ensures Bounded(deps, m, k + 2) ==> Bounded(deps, m, k + 1)
  {
    if Bounded(deps, m, k + 2) {
      BoundedStep(deps, m, k + 1);
      BoundedStep(deps, m, k);
      forall d | d in deps[m] ensures Bounded(deps, d, k) {
        assert d in deps by { assert IsChain(deps, [m, d]); }
        LayerIsLeastBound(deps, d, k);
      }
    }
  }

  /** Modules that are pending when nothing can be loaded are never loaded. */
  lemma StuckNeverFinishes(deps: Dependencies, keys: seq<Module>, k: nat)
    requires IsListing(deps, keys) && Layer(deps, keys, k) == [] && Unloaded(deps, keys, k) != []
    ensures forall k' :: !AllBounded(deps, k')
  {
    forall k': nat ensures !AllBounded(deps, k') {
      var top := if k <= k' then k' else k;
      StuckForever(deps, keys, k, top);
      UnloadedMembers(deps, keys, top);
      var m := Unloaded(deps, keys, top)[0];
      assert m in Unloaded(deps, keys, top);
      if Bounded(deps, m, k') { BoundedMonotone(deps, m, k', top); }
    }
  }

  /** In a closed, acyclic map something can be loaded as long as anything is pending. */
  lemma SomethingLoadable(deps: Dependencies, keys: seq<Module>, k: nat)
    requires IsListing(deps, keys) && Closed(deps) && Acyclic(deps) && Unloaded(deps, keys, k) != []
    ensures Layer(deps, keys, k) != []
  {
    if Layer(deps, keys, k) == [] {
      StuckNeverFinishes(deps, keys, k);
      ClosedAcyclicBounded(deps);
    }
  }

  // ---------------------------------------------------------------------------------------
  // The flattened order
  // ---------------------------------------------------------------------------------------

  /** The first `k` layers, one after the other. */
  ghost function Flat(deps: Dependencies, keys: seq<Module>, k: nat): seq<Module> {
    if k == 0 then [] else Flat(deps, keys, k - 1) + Layer(deps, keys, k - 1)
  }

  lemma FlatStep(deps: Dependencies, keys: seq<Module>, k: nat)
    ensures Flat(deps, keys, k + 1) == Flat(deps, keys, k) + Layer(deps, keys, k)
  {
  }

  lemma {:induction false} LayerSplitsOff(deps: Dependencies, keys: seq<Module>, k: nat)
    ensures multiset(Unloaded(deps, keys, k)) == multiset(Layer(deps, keys, k)) + multiset(Unloaded(deps, keys, k + 1))
  {
    if keys != [] {
      hide Bounded, InLayer;
      var (front, m) := (keys[..|keys| - 1], keys[|keys| - 1]);
      LayerSplitsOff(deps, front, k);
      LayerIsLeastBound(deps, m, k);
      BoundedNext(deps, m, k);
      AddOne(Unloaded(deps, front, k), Layer(deps, front, k), Unloaded(deps, front, k + 1), m);
      assert Unloaded(deps, front, k) + [] == Unloaded(deps, front, k);
      assert Layer(deps, front, k) + [] == Layer(deps, front, k);
      assert Unloaded(deps, front, k + 1) + [] == Unloaded(deps, front, k + 1);
    }
  }

  lemma BoundedNext(deps: Dependencies, m: Module, k: nat)
    ensures Bounded(deps, m, k) ==> Bounded(deps, m, k + 1)
  {
    if Bounded(deps, m, k) { BoundedMonotone(deps, m, k, k + 1); }
  }

  lemma MoveLayer(front: seq<Module>, layer: seq<Module>, pending: seq<Module>, rest: seq<Module>, keys: seq<Module>)
    requires multiset(front) + multiset(pending) == multiset(keys)
    requires multiset(pending) == multiset(layer) + multiset(rest)
    ensures multiset(front + layer) + multiset(rest) == multiset(keys)
  {
  }

  ghost predicate Conserves(deps: Dependencies, keys: seq<Module>, k: nat) {
    multiset(Flat(deps, keys, k)) + multiset(Unloaded(deps, keys, k)) == multiset(keys)
  }

  lemma ConservesStart(deps: Dependencies, keys: seq<Module>)
    ensures Conserves(deps, keys, 0)
  {
    NothingLoaded(deps, keys);
  }

  lemma ConservesStep(deps: Dependencies, keys: seq<Module>, k: nat)
    requires Conserves(deps, keys, k)
    ensures Conserves(deps, keys, k + 1)
  {
    LayerSplitsOff(deps, keys, k);
    MoveLayer(Flat(deps, keys, k), Layer(deps, keys, k), Unloaded(deps, keys, k), Unloaded(deps, keys, k + 1), keys);
  }

  /** Loaded and pending modules together are the module list. */
  lemma {:induction false} FlatConserves(deps: Dependencies, keys: seq<Module>, k: nat)
    ensures Conserves(deps, keys, k)
  {
    ConservesStart(deps, keys);
    var i := 0;
    while i < k
      invariant i <= k && Conserves(deps, keys, i)
    {
      ConservesStep(deps, keys, i);
      i := i + 1;
    }
  }

  ghost predicate DependenciesFirst(deps: Dependencies, order: seq<Module>) {
    forall i, d | 0 <= i < |order| && order[i] in deps && d in deps[order[i]] :: d in order[..i]
  }

  lemma {:induction false} FlatMembers(deps: Dependencies, keys: seq<Module>, k: nat, m: Module)
    requires IsListing(deps, keys)
    ensures m in Flat(deps, keys, k) <==> m in deps && Bounded(deps, m, k)
  {
    hide InLayer, Layer;
    if k == 0 {
      NothingBoundedByZero(deps, m);
    } else {
      FlatMembers(deps, keys, k - 1, m);
      LayerMembers(deps, keys, k - 1);
      LayerIsLeastBound(deps, m, k - 1);
    }
  }

  lemma LayerNeedsFront(deps: Dependencies, keys: seq<Module>, k: nat, m: Module, d: Module)
    requires IsListing(deps, keys) && m in Layer(deps, keys, k) && m in deps && d in deps[m]
    ensures d in Flat(deps, keys, k)
  {
    LayerMembers(deps, keys, k);
    BoundedStep(deps, m, k);
    assert IsChain(deps, [d]);
    FlatMembers(deps, keys, k, d);
  }

  lemma {:induction false} FlatOrdered(deps: Dependencies, keys: seq<Module>, k: nat)
    requires IsListing(deps, keys)
    ensures DependenciesFirst(deps, Flat(deps, keys, k))
  {
    if k > 0 {
      FlatOrdered(deps, keys, k - 1);
      var (front, layer) := (Flat(deps, keys, k - 1), Layer(deps, keys, k - 1));
      forall m, d | m in layer && m in deps && d in deps[m] ensures d in front {
        LayerNeedsFront(deps, keys, k - 1, m, d);
      }
      AppendOrdered(deps, front, layer);
    }
  }

  lemma AppendOrdered(deps: Dependencies, front: seq<Module>, layer: seq<Module>)
    requires DependenciesFirst(deps, front)
    requires forall m, d | m in layer && m in deps && d in deps[m] :: d in front
    ensures DependenciesFirst(deps, front + layer)
  {
    var order := front + layer;
    forall i, d | 0 <= i < |order| && order[i] in deps && d in deps[order[i]] ensures d in order[..i] {
      if i < |front| {
        assert order[..i] == front[..i];
      } else {
        assert order[i] in layer && d in front;
        assert order[..i] == front + layer[..i - |front|];
      }
    }
  }

  /** Once nothing is pending the flattened order rearranges the module list, every module after all
      its dependencies. */
  ghost predicate ListedBefore(keys: seq<Module>, a: Module, b: Module) {
    exists p, q :: 0 <= p < q < |keys| && keys[p] == a && keys[q] == b
  }

  /** The longest chain from `a` is shorter than that from `b`, or they are equally long and `a` is listed first. */
  ghost predicate LoadsBefore(deps: Dependencies, keys: seq<Module>, a: Module, b: Module) {
    exists k: nat, l: nat ::
      InLayer(deps, a, k) && InLayer(deps, b, l) && (k < l || (k == l && ListedBefore(keys, a, b)))
  }

  ghost predicate InLoadOrder(deps: Dependencies, keys: seq<Module>, order: seq<Module>) {
    forall i, j | 0 <= i < j < |order| :: LoadsBefore(deps, keys, order[i], order[j])
  }

  lemma ListedBeforeMore(keys: seq<Module>, m: Module, a: Module, b: Module)
    ensures ListedBefore(keys, a, b) ==> ListedBefore(keys + [m], a, b)
    ensures a in keys ==> ListedBefore(keys + [m], a, m)
  {
    var more := keys + [m];
    if p, q :| 0 <= p < q < |keys| && keys[p] == a && keys[q] == b { assert more[p] == a && more[q] == b; }
    if a in keys {
      var p :| 0 <= p < |keys| && keys[p] == a;
      assert more[p] == a && more[|keys|] == m;
    }
  }

  /** A layer keeps the order of the listing. */
  lemma {:induction false} LayerInOrder(deps: Dependencies, keys: seq<Module>, k: nat, i: nat, j: nat)
    requires i < j < |Layer(deps, keys, k)|
    ensures ListedBefore(keys, Layer(deps, keys, k)[i], Layer(deps, keys, k)[j])
  {
    var (front, m) := (keys[..|keys| - 1], keys[|keys| - 1]);
    assert keys == front + [m];
    var (layer, before) := (Layer(deps, keys, k), Layer(deps, front, k));
    hide InLayer, ListedBefore;
    ListedBeforeMore(front, m, layer[i], layer[j]);
    if j < |before| {
      LayerInOrder(deps, front, k, i, j);
    } else {
      LayerMembers(deps, front, k);
      assert before[i] in before;
    }
  }

  lemma LoadedEarlier(deps: Dependencies, keys: seq<Module>, k: nat, a: Module, b: Module)
    requires IsListing(deps, keys) && a in Flat(deps, keys, k) && b in Layer(deps, keys, k)
    ensures LoadsBefore(deps, keys, a, b)
  {
    FlatMembers(deps, keys, k, a);
    LayerMembers(deps, keys, k);
    var l := LeastBound(deps, a, k);
    LayerIsLeastBound(deps, a, l);
    hide InLayer, Bounded, Layer, Flat, ListedBefore;
  }

  lemma LoadedTogether(deps: Dependencies, keys: seq<Module>, k: nat, i: nat, j: nat)
    requires i < j < |Layer(deps, keys, k)|
    ensures LoadsBefore(deps, keys, Layer(deps, keys, k)[i], Layer(deps, keys, k)[j])
  {
    LayerInOrder(deps, keys, k, i, j);
    LayerMembers(deps, keys, k);
    hide InLayer, Layer, ListedBefore;
    var layer := Layer(deps, keys, k);
    assert layer[i] in layer && layer[j] in layer;
  }

  lemma JoinInOrder(deps: Dependencies, keys: seq<Module>, before: seq<Module>, layer: seq<Module>)
    requires InLoadOrder(deps, keys, before) && InLoadOrder(deps, keys, layer)
    requires forall i, j | 0 <= i < |before| && 0 <= j < |layer| :: LoadsBefore(deps, keys, before[i], layer[j])
    ensures InLoadOrder(deps, keys, before + layer)
  {
    hide LoadsBefore;
  }

  lemma FlatGrowsInOrder(deps: Dependencies, keys: seq<Module>, k: nat)
    requires IsListing(deps, keys) && InLoadOrder(deps, keys, Flat(deps, keys, k))
    ensures InLoadOrder(deps, keys, Flat(deps, keys, k) + Layer(deps, keys, k))
  {
    hide *;
    var (before, layer) := (Flat(deps, keys, k), Layer(deps, keys, k));
    forall i, j | 0 <= i < |before| && 0 <= j < |layer| ensures LoadsBefore(deps, keys, before[i], layer[j]) {
      assert before[i] in before && layer[j] in layer;
      LoadedEarlier(deps, keys, k, before[i], layer[j]);
    }
    LayerInLoadOrder(deps, keys, k);
    JoinInOrder(deps, keys, before, layer);
  }

  lemma LayerInLoadOrder(deps: Dependencies, keys: seq<Module>, k: nat)
    ensures InLoadOrder(deps, keys, Layer(deps, keys, k))
  {
    hide LoadsBefore, Layer;
    forall i, j | 0 <= i < j < |Layer(deps, keys, k)|
      ensures LoadsBefore(deps, keys, Layer(deps, keys, k)[i], Layer(deps, keys, k)[j])
    {
      LoadedTogether(deps, keys, k, i, j);
    }
  }

  /** The flattened order is by longest chain, and by listing order among equals. */
  lemma {:induction false} FlatInLoadOrder(deps: Dependencies, keys: seq<Module>, k: nat)
    requires IsListing(deps, keys)
    ensures InLoadOrder(deps, keys, Flat(deps, keys, k))
  {
    hide IsListing, Layer, LoadsBefore;
    if k > 0 {
      FlatStep(deps, keys, k - 1);
      hide *;
      FlatInLoadOrder(deps, keys, k - 1);
      FlatGrowsInOrder(deps, keys, k - 1);
    }
  }

  lemma FlatIsTopologicalOrder(deps: Dependencies, keys: seq<Module>, k: nat)
    requires IsListing(deps, keys) && Unloaded(deps, keys, k) == []
    ensures multiset(Flat(deps, keys, k)) == multiset(keys)
    ensures DependenciesFirst(deps, Flat(deps, keys, k)) && InLoadOrder(deps, keys, Flat(deps, keys, k))
  {
    hide InLoadOrder;
    FlatConserves(deps, keys, k);
    FlatOrdered(deps, keys, k);
    FlatInLoadOrder(deps, keys, k);
  }

  // ---------------------------------------------------------------------------------------
  // The program
  // ---------------------------------------------------------------------------------------

  /** Enough calls for every chain, plus the one that finds nothing pending. */
  ghost predicate Suffices(deps: Dependencies, limit: nat) {
    limit > 0 && AllBounded(deps, limit - 1)
  }

  /** `steps` holds the first layers, `current` their modules in order, and `pending` all others. */
  ghost predicate InStep(deps: Dependencies, keys: seq<Module>, steps: seq<seq<Module>>, pending: seq<Module>,
                         current: seq<Module>) {
    && IsListing(deps, keys)
    && After(deps, keys, |steps|, pending, current)
    && current == Flat(deps, keys, |steps|)
    && forall i | 0 <= i < |steps| :: steps[i] == Layer(deps, keys, i)
  }

  lemma LoadableNow(deps: Dependencies, keys: seq<Module>, k: nat, pending: seq<Module>, current: seq<Module>)
    requires IsListing(deps, keys) && After(deps, keys, k, pending, current)
    ensures forall m | m in pending :: m in deps
    ensures Loadable(deps, pending, current) == Layer(deps, keys, k)
    ensures Distinct(pending) && Distinct(Layer(deps, keys, k))
  {
    LoadableIsLayer(deps, keys, k, current);
    FilteredDistinct(deps, keys, k);
    hide Layer, Unloaded, Distinct, Loadable, Bounded;
  }

  /** One more step takes the loadable modules, which are the next layer. */
  lemma NextStep(deps: Dependencies, keys: seq<Module>, steps: seq<seq<Module>>, pending: seq<Module>,
                 current: seq<Module>)
    requires InStep(deps, keys, steps, pending, current)
    ensures forall m | m in pending :: m in deps
    ensures var layer := Loadable(deps, pending, current);
            && layer == Layer(deps, keys, |steps|) && Distinct(pending) && Distinct(layer)
            && InStep(deps, keys, steps + [layer], Without(pending, layer), current + layer)
  {
    hide After, Layer, Unloaded, Distinct, Loadable, Flat, IsListing, Without;
    var k := |steps|;
    LoadableNow(deps, keys, k, pending, current);
    AfterStep(deps, keys, k, pending, current);
    FlatStep(deps, keys, k);
  }

  class Sorter {
    const deps: Dependencies
    const keys: seq<Module>
    var pendingModules: seq<Module>
    var currentModules: seq<Module>
    var steps: seq<seq<Module>>

    /** `|steps|` steps have been taken. */
    ghost predicate Valid()
      reads this
    {
      InStep(deps, keys, steps, pendingModules, currentModules)
    }

    constructor (deps: Dependencies, keys: seq<Module>)
      requires IsListing(deps, keys)
      ensures Valid() && steps == [] && this.deps == deps && this.keys == keys
    {
      this.deps, this.keys := deps, keys;
      pendingModules, currentModules, steps := keys, [], [];
      forall m ensures !Bounded(deps, m, 0) {
        NothingBoundedByZero(deps, m);
      }
      NothingLoaded(deps, keys);
    }

    method ModulesThatCanBeLoaded() returns (modules: seq<Module>)
      requires forall m | m in pendingModules :: m in deps
      ensures modules == Loadable(deps, pendingModules, currentModules)
    {
      modules := [];
      for i := 0 to |pendingModules|
        invariant forall m | m in pendingModules[..i] :: m in deps
        invariant modules == Loadable(deps, pendingModules[..i], currentModules)
      {
        var pendingModule := pendingModules[i];
        assert pendingModules[..i + 1][..i] == pendingModules[..i];
        var canBeLoaded := true;
        var dependencies := deps[pendingModule];
        for j := 0 to |dependencies|
          invariant canBeLoaded <==> forall d | d in dependencies[..j] :: d in currentModules
        {
          if dependencies[j] !in currentModules {
            canBeLoaded := false;
            assert dependencies[j] in dependencies[..j + 1];
            break;
          }
        }
        assert canBeLoaded <==> CanBeLoaded(deps, pendingModule, currentModules);
        if !canBeLoaded {
          continue;
        }
        modules := modules + [pendingModule];
      }
      assert pendingModules[..|pendingModules|] == pendingModules;
    }

    /** Append the modules to the step just opened and move them to the loaded list. */
    method RecordStep(stepNumber: nat, modules: seq<Module>)
      requires |steps| == stepNumber + 1 && steps[stepNumber] == []
      requires Distinct(pendingModules) && Distinct(modules)
      modifies this
      ensures steps == old(steps)[stepNumber := modules]
      ensures pendingModules == Without(old(pendingModules), modules)
      ensures currentModules == old(currentModules) + modules
    {
      WithoutNothing(pendingModules);
      for i := 0 to |modules|
        invariant steps == old(steps)[stepNumber := modules[..i]]
        invariant pendingModules == Without(old(pendingModules), modules[..i])
        invariant currentModules == old(currentModules) + modules[..i]
      {
        var loaded := modules[i];
        assert modules[..i + 1] == modules[..i] + [loaded];
        RemoveOneMore(old(pendingModules), modules[..i], loaded);
        steps := steps[stepNumber := steps[stepNumber] + [loaded]];
        pendingModules := RemoveFirst(pendingModules, loaded);
        currentModules := currentModules + [loaded];
      }
      assert modules[..|modules|] == modules;
    }

    /** One step: the loadable modules become the next entry of `steps`. */
    method LoadStep()
      requires Valid()
      modifies this
      ensures Valid() && |steps| == old(|steps|) + 1
    {
      NextStep(deps, keys, steps, pendingModules, currentModules);
      hide InStep, Distinct, Loadable, Layer, Without;
      var stepNumber := |steps|;
      steps := steps + [[]];
      var modules := ModulesThatCanBeLoaded();
      RecordStep(stepNumber, modules);
      assert steps == old(steps) + [modules];
    }

    /** The recursive `dependency_order`; `limit` is how many more calls Python allows. It succeeds
        exactly when the limit exceeds the length of every remaining chain. */
    method Order(limit: nat) returns (ok: bool)
      requires Valid()
      modifies this
      ensures Valid()
      ensures ok <==> limit > 0 && AllBounded(deps, old(|steps|) + limit - 1)
      ensures ok ==> pendingModules == []
      decreases limit
    {
      if limit == 0 {
        return false;
      }
      ghost var k := |steps|;
      UnloadedMembers(deps, keys, k);
      if |pendingModules| == 0 {
        forall m | m in deps ensures Bounded(deps, m, k + limit - 1) {
          assert m in keys && Bounded(deps, m, k);
          BoundedMonotone(deps, m, k, k + limit - 1);
        }
        return true;
      }
      LoadStep();
      ok := Order(limit - 1);
      if limit == 1 {
        assert exists m :: m in Unloaded(deps, keys, k) by { assert Unloaded(deps, keys, k)[0] in Unloaded(deps,
                  keys, k); }
      }
    }

    /** The body of `sort_to_dependencies` after the dependency map is built. */
    method SortToDependencies(limit: nat) returns (ok: bool, sortedLibraries: seq<Module>)
      requires Valid() && steps == []
      modifies this
      ensures Valid()
      ensures ok <==> Suffices(deps, limit)
      ensures ok ==> multiset(sortedLibraries) == multiset(keys) && DependenciesFirst(deps, sortedLibraries)
      ensures ok ==> sortedLibraries == Flat(deps, keys, |steps|) && InLoadOrder(deps, keys, sortedLibraries)
    {
      hide InLoadOrder;
      sortedLibraries := [];
      ok := Order(limit);
      if ok {
        for i := 0 to |steps|
          invariant sortedLibraries == Flat(deps, keys, i)
        {
          sortedLibraries := sortedLibraries + steps[i];
        }
        FlatIsTopologicalOrder(deps, keys, |steps|);
      }
    }
  }

  /** Some recursion limit is enough exactly for closed, acyclic maps. */
  lemma TerminatesIffClosedAcyclic(deps: Dependencies)
    ensures (exists limit: nat :: Suffices(deps, limit)) <==> Closed(deps) && Acyclic(deps)
  {
    BoundedIffClosedAcyclic(deps);
    if k: nat :| AllBounded(deps, k) {
      assert Suffices(deps, k + 1);
    }
    if limit: nat :| Suffices(deps, limit) {
      assert AllBounded(deps, limit - 1);
    }
  }

  /** Step `k` of a finished sort holds exactly the modules whose longest chain has `k` edges. */
  lemma StepIsLongestChain(deps: Dependencies, keys: seq<Module>, n: nat, m: Module)
    requires IsListing(deps, keys) && Unloaded(deps, keys, n) == [] && m in deps
    ensures exists k: nat :: (k < n && m in Layer(deps, keys, k) && InLayer(deps, m, k)
                              && forall k': nat | m in Layer(deps, keys, k') :: k' == k)
  {
    UnloadedMembers(deps, keys, n);
    var k := LeastBound(deps, m, n);
    LayerIsLeastBound(deps, m, k);
    LayerMembers(deps, keys, k);
    forall k': nat | m in Layer(deps, keys, k') ensures k' == k {
      LayerMembers(deps, keys, k');
    }
  }

  lemma {:induction false} LeastBound(deps: Dependencies, m: Module, n: nat) returns (k: nat)
    requires Bounded(deps, m, n)
    ensures k < n && Bounded(deps, m, k + 1) && !Bounded(deps, m, k)
  {
    NothingBoundedByZero(deps, m);
    if Bounded(deps, m, n - 1) {
      k := LeastBound(deps, m, n - 1);
    } else {
      k := n - 1;
    }
  }
}
