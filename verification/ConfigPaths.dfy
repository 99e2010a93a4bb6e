/** The configuration-path search of `print-introspected-doxygen.cc`: a backtracking depth-first
    search over the types reachable through attributes, subtypes and aggregation, which records one
    path per walk that repeats no type. */
module ConfigPaths {
  import opened Ordering

  /** ns-3 wraps a registration number. */
  type TypeId = nat

  datatype Attribute = Pointer(name: string, pointee: TypeId) | Container(name: string,
            item: TypeId) | Plain(name: string)

  /** What the program reads from ns-3: the registered types in order, their attributes and names, the
      subtype test, and the type of `Object`. */
  datatype Registry = Registry(registered: seq<TypeId>, attributes: map<TypeId, seq<Attribute>>,
                               names: map<TypeId, string>, isChildOf: (TypeId, TypeId) -> bool,
                               objectType: TypeId)

  type Aggregates = seq<(TypeId, TypeId)>

  ghost predicate ValidRegistry(r: Registry, aggs: Aggregates) {
    && (forall t | t in r.registered :: t in r.attributes && t in r.names)
    && (forall t, a | t in r.registered && a in r.attributes[t] ::
          (a.Pointer? ==> a.pointee in r.registered) && (a.Container? ==> a.item in r.registered))
    && (forall p | p in aggs :: p.0 in r.registered && p.1 in r.registered)
  }

  // ---------------------------------------------------------------------------------------
  // The labelled graph
  // ---------------------------------------------------------------------------------------

  datatype Edge = Edge(segment: string, target: TypeId)

  /** Nodes with their outgoing edges, in the order the search tries them. */
  type Graph = map<TypeId, seq<Edge>>

  ghost predicate ValidGraph(g: Graph) {
    forall t, e | t in g && e in g[t] :: e.target in g
  }

  function AttributeEdge(r: Registry, a: Attribute): seq<Edge> {
    match a
    case Pointer(name, pointee) => if pointee == r.objectType then [] else [Edge(name, pointee)]
    case Container(name, item) => [Edge(name + "/[i]", item)]
    case Plain(_) => []
  }

  function AttributeEdges(r: Registry, tid: TypeId, n: nat): seq<Edge>
    requires tid in r.attributes && n <= |r.attributes[tid]|
  {
    if n == 0 then [] else AttributeEdges(r, tid, n - 1) + AttributeEdge(r, r.attributes[tid][n - 1])
  }

  function ChildEdge(r: Registry, tid: TypeId, child: TypeId): seq<Edge>
    requires child in r.names
  {
    if r.isChildOf(child, tid) then [Edge("$" + r.names[child], child)] else []
  }

  function ChildEdges(r: Registry, tid: TypeId, n: nat): seq<Edge>
    requires n <= |r.registered| && forall t | t in r.registered :: t in r.names
  {
    if n == 0 then [] else ChildEdges(r, tid, n - 1) + ChildEdge(r, tid, r.registered[n - 1])
  }

  /** The other end of an aggregation; the second test wins for a type aggregated to itself. */
  function AggregateEdge(r: Registry, tid: TypeId, p: (TypeId, TypeId)): seq<Edge>
    requires p.0 in r.names && p.1 in r.names
  {
    if p.1 == tid then [Edge("$" + r.names[p.0], p.0)]
    else if p.0 == tid then [Edge("$" + r.names[p.1], p.1)]
    else []
  }

  function AggregateEdges(r: Registry, aggs: Aggregates, tid: TypeId, n: nat): seq<Edge>
    requires n <= |aggs| && forall p | p in aggs :: p.0 in r.names && p.1 in r.names
  {
    if n == 0 then [] else AggregateEdges(r, aggs, tid, n - 1) + AggregateEdge(r, tid, aggs[n - 1])
  }

  ghost function Edges(r: Registry, aggs: Aggregates, tid: TypeId): seq<Edge>
    requires ValidRegistry(r, aggs) && tid in r.registered
  {
    AttributeEdges(r, tid, |r.attributes[tid]|) + ChildEdges(r, tid, |r.registered|)
    + AggregateEdges(r, aggs, tid, |aggs|)
  }

  ghost function GraphOf(r: Registry, aggs: Aggregates): Graph
    requires ValidRegistry(r, aggs)
  {
    map t | t in r.registered :: Edges(r, aggs, t)
  }

  /** The search moves from a type to another along pointer attributes other than those to `Object`,
      container attributes, subtypes, and aggregations in both directions; nothing else. */
  lemma EdgesMeaning(r: Registry, aggs: Aggregates, tid: TypeId, e: Edge)
    requires ValidRegistry(r, aggs) && tid in r.registered
    ensures e in Edges(r, aggs, tid) <==>
            || (Pointer(e.segment, e.target) in r.attributes[tid] && e.target != r.objectType)
            || (exists a | a in r.attributes[tid] :: a.Container? && a.item == e.target && e.segment == a.name + "/[i]")
            || (e.target in r.registered && r.isChildOf(e.target, tid) && e.segment == "$" + r.names[e.target])
            || (((e.target, tid) in aggs || (tid, e.target) in aggs) && e.segment == "$" + r.names[e.target])
  {
    AttributeEdgesMeaning(r, tid, |r.attributes[tid]|, e);
    ChildEdgesMeaning(r, tid, |r.registered|, e);
    AggregateEdgesMeaning(r, aggs, tid, |aggs|, e);
    assert r.attributes[tid][..|r.attributes[tid]|] == r.attributes[tid];
    assert r.registered[..|r.registered|] == r.registered;
    assert aggs[..|aggs|] == aggs;
    assert e in Edges(r, aggs, tid) <==>
           || e in AttributeEdges(r, tid, |r.attributes[tid]|)
           || e in ChildEdges(r, tid, |r.registered|) || e in AggregateEdges(r, aggs, tid, |aggs|);
  }

  lemma AttributeEdgeMeaning(r: Registry, a: Attribute, e: Edge)
    ensures e in AttributeEdge(r, a) <==>
            || (a == Pointer(e.segment, e.target) && e.target != r.objectType)
            || (a.Container? && a.item == e.target && e.segment == a.name + "/[i]")
  {
  }

  /** Some attribute leads along the edge. */
  ghost predicate SomeLeads(r: Registry, attrs: seq<Attribute>, e: Edge) {
    exists a | a in attrs :: e in AttributeEdge(r, a)
  }

  lemma SomeLeadsSnoc(r: Registry, attrs: seq<Attribute>, a: Attribute, e: Edge)
    ensures SomeLeads(r, attrs + [a], e) <==> SomeLeads(r, attrs, e) || e in AttributeEdge(r, a)
  {
    hide AttributeEdge;
    assert a in attrs + [a];
    if SomeLeads(r, attrs, e) {
      var b :| b in attrs && e in AttributeEdge(r, b);
      assert b in attrs + [a];
    }
  }

  lemma {:induction false} AttributeEdgesLead(r: Registry, tid: TypeId, n: nat, e: Edge)
    requires tid in r.attributes && n <= |r.attributes[tid]|
    ensures e in AttributeEdges(r, tid, n) <==> SomeLeads(r, r.attributes[tid][..n], e)
  {
    hide AttributeEdge;
    if n > 0 {
      var attrs := r.attributes[tid];
      AttributeEdgesLead(r, tid, n - 1, e);
      assert attrs[..n] == attrs[..n - 1] + [attrs[n - 1]];
      hide SomeLeads;
      SomeLeadsSnoc(r, attrs[..n - 1], attrs[n - 1], e);
    }
  }

  lemma AttributeEdgesMeaning(r: Registry, tid: TypeId, n: nat, e: Edge)
    requires tid in r.attributes && n <= |r.attributes[tid]|
    ensures e in AttributeEdges(r, tid, n) <==>
            || (Pointer(e.segment, e.target) in r.attributes[tid][..n] && e.target != r.objectType)
            || exists a | a in r.attributes[tid][..n] ::
                 a.Container? && a.item == e.target && e.segment == a.name + "/[i]"
  {
    AttributeEdgesLead(r, tid, n, e);
    hide AttributeEdges, AttributeEdge;
    forall a | a in r.attributes[tid][..n]
      ensures e in AttributeEdge(r, a) <==>
              || (a == Pointer(e.segment, e.target) && e.target != r.objectType)
              || (a.Container? && a.item == e.target && e.segment == a.name + "/[i]")
    {
      AttributeEdgeMeaning(r, a, e);
    }
  }

  lemma {:induction false} ChildEdgesMeaning(r: Registry, tid: TypeId, n: nat, e: Edge)
    requires n <= |r.registered| && forall t | t in r.registered :: t in r.names
    ensures e in ChildEdges(r, tid, n) <==>
            e.target in r.registered[..n] && r.isChildOf(e.target, tid) && e.segment == "$" + r.names[e.target]
  {
    if n > 0 {
      ChildEdgesMeaning(r, tid, n - 1, e);
      assert r.registered[..n] == r.registered[..n - 1] + [r.registered[n - 1]];
    }
  }

  lemma {:induction false} AggregateEdgesMeaning(r: Registry, aggs: Aggregates, tid: TypeId, n: nat, e: Edge)
    requires n <= |aggs| && forall p | p in aggs :: p.0 in r.names && p.1 in r.names
    ensures e in AggregateEdges(r, aggs, tid, n) <==>
            ((e.target, tid) in aggs[..n] || (tid, e.target) in aggs[..n])
            && e.target in r.names && e.segment == "$" + r.names[e.target]
  {
    if n > 0 {
      AggregateEdgesMeaning(r, aggs, tid, n - 1, e);
      assert aggs[..n] == aggs[..n - 1] + [aggs[n - 1]];
    }
  }

  ghost function AttributeParts(r: Registry, tid: TypeId, n: nat): (parts: seq<seq<Edge>>)
    requires tid in r.attributes && n <= |r.attributes[tid]|
    ensures |parts| == n && forall i | 0 <= i < n :: parts[i] == AttributeEdge(r, r.attributes[tid][i])
  {
    seq(n, i requires 0 <= i < n => AttributeEdge(r, r.attributes[tid][i]))
  }

  lemma AttributePartsNone(r: Registry, tid: TypeId)
    requires tid in r.attributes
    ensures FromParts(AttributeEdges(r, tid, 0), AttributeParts(r, tid, 0), [])
  {
  }

  lemma AttributePartsNext(r: Registry, tid: TypeId, n: nat)
    requires tid in r.attributes && 0 < n <= |r.attributes[tid]|
    ensures |AttributeEdge(r, r.attributes[tid][n - 1])| <= 1
    ensures AttributeEdges(r, tid, n) == AttributeEdges(r, tid, n - 1) + AttributeEdge(r, r.attributes[tid][n - 1])
    ensures AttributeParts(r, tid, n) == AttributeParts(r, tid, n - 1) + [AttributeEdge(r, r.attributes[tid][n - 1])]
  {
    assert AttributeParts(r, tid, n)
           == AttributeParts(r, tid, n - 1) + [AttributeEdge(r, r.attributes[tid][n - 1])] by {
      hide AttributeEdge;
    }
  }

  lemma {:induction false} AttributePlaces(r: Registry, tid: TypeId, n: nat) returns (places: seq<nat>)
    requires tid in r.attributes && n <= |r.attributes[tid]|
    ensures FromParts(AttributeEdges(r, tid, n), AttributeParts(r, tid, n), places)
  {
    hide *;
    if n == 0 {
      AttributePartsNone(r, tid);
      places := [];
    } else {
      var x := AttributeEdge(r, r.attributes[tid][n - 1]);
      places := AttributePlaces(r, tid, n - 1);
      AttributePartsNext(r, tid, n);
      FromPartsNext(AttributeEdges(r, tid, n - 1), AttributeParts(r, tid, n - 1), places, x);
      places := if x == [] then places else places + [n - 1];
    }
  }

  ghost function ChildParts(r: Registry, tid: TypeId, n: nat): (parts: seq<seq<Edge>>)
    requires n <= |r.registered| && forall t | t in r.registered :: t in r.names
    ensures |parts| == n && forall i | 0 <= i < n :: parts[i] == ChildEdge(r, tid, r.registered[i])
  {
    seq(n, i requires 0 <= i < n => ChildEdge(r, tid, r.registered[i]))
  }

  lemma ChildPartsNone(r: Registry, tid: TypeId)
    requires forall t | t in r.registered :: t in r.names
    ensures FromParts(ChildEdges(r, tid, 0), ChildParts(r, tid, 0), [])
  {
  }

  lemma ChildPartsNext(r: Registry, tid: TypeId, n: nat)
    requires 0 < n <= |r.registered| && forall t | t in r.registered :: t in r.names
    ensures |ChildEdge(r, tid, r.registered[n - 1])| <= 1
    ensures ChildEdges(r, tid, n) == ChildEdges(r, tid, n - 1) + ChildEdge(r, tid, r.registered[n - 1])
    ensures ChildParts(r, tid, n) == ChildParts(r, tid, n - 1) + [ChildEdge(r, tid, r.registered[n - 1])]
  {
    assert ChildParts(r, tid, n) == ChildParts(r, tid, n - 1) + [ChildEdge(r, tid, r.registered[n - 1])] by {
      hide ChildEdge;
    }
  }

  lemma {:induction false} ChildPlaces(r: Registry, tid: TypeId, n: nat) returns (places: seq<nat>)
    requires n <= |r.registered| && forall t | t in r.registered :: t in r.names
    ensures FromParts(ChildEdges(r, tid, n), ChildParts(r, tid, n), places)
  {
    hide *;
    if n == 0 {
      ChildPartsNone(r, tid);
      places := [];
    } else {
      var x := ChildEdge(r, tid, r.registered[n - 1]);
      places := ChildPlaces(r, tid, n - 1);
      ChildPartsNext(r, tid, n);
      FromPartsNext(ChildEdges(r, tid, n - 1), ChildParts(r, tid, n - 1), places, x);
      places := if x == [] then places else places + [n - 1];
    }
  }

  ghost function AggregateParts(r: Registry, aggs: Aggregates, tid: TypeId, n: nat): (parts: seq<seq<Edge>>)
    requires n <= |aggs| && forall p | p in aggs :: p.0 in r.names && p.1 in r.names
    ensures |parts| == n && forall i | 0 <= i < n :: parts[i] == AggregateEdge(r, tid, aggs[i])
  {
    seq(n, i requires 0 <= i < n => AggregateEdge(r, tid, aggs[i]))
  }

  lemma AggregatePartsNone(r: Registry, aggs: Aggregates, tid: TypeId)
    requires forall p | p in aggs :: p.0 in r.names && p.1 in r.names
    ensures FromParts(AggregateEdges(r, aggs, tid, 0), AggregateParts(r, aggs, tid, 0), [])
  {
  }

  lemma AggregatePartsNext(r: Registry, aggs: Aggregates, tid: TypeId, n: nat)
    requires 0 < n <= |aggs| && forall p | p in aggs :: p.0 in r.names && p.1 in r.names
    ensures |AggregateEdge(r, tid, aggs[n - 1])| <= 1
    ensures AggregateEdges(r, aggs, tid, n) == AggregateEdges(r, aggs, tid, n - 1) + AggregateEdge(r, tid, aggs[n - 1])
    ensures AggregateParts(r, aggs, tid, n)
            == AggregateParts(r, aggs, tid, n - 1) + [AggregateEdge(r, tid, aggs[n - 1])]
  {
    assert AggregateParts(r, aggs, tid, n)
           == AggregateParts(r, aggs, tid, n - 1) + [AggregateEdge(r, tid, aggs[n - 1])] by {
      hide AggregateEdge;
    }
  }

  lemma {:induction false} AggregatePlaces(r: Registry, aggs: Aggregates, tid: TypeId, n: nat)
    returns (places: seq<nat>)
    requires n <= |aggs| && forall p | p in aggs :: p.0 in r.names && p.1 in r.names
    ensures FromParts(AggregateEdges(r, aggs, tid, n), AggregateParts(r, aggs, tid, n), places)
  {
    hide *;
    if n == 0 {
      AggregatePartsNone(r, aggs, tid);
      places := [];
    } else {
      var x := AggregateEdge(r, tid, aggs[n - 1]);
      places := AggregatePlaces(r, aggs, tid, n - 1);
      AggregatePartsNext(r, aggs, tid, n);
      FromPartsNext(AggregateEdges(r, aggs, tid, n - 1), AggregateParts(r, aggs, tid, n - 1), places, x);
      places := if x == [] then places else places + [n - 1];
    }
  }

  /** `es` are the edges along the attributes at the places `a`: all pointers but those to `Object`, and all
      containers, in order. */
  ghost predicate AlongAttributes(r: Registry, tid: TypeId, es: seq<Edge>, a: seq<nat>)
    requires tid in r.attributes
  {
    var attrs := r.attributes[tid];
    && |es| == |a| && Increasing(a)
    && (forall i :: i in a <==>
          (0 <= i < |attrs| && ((attrs[i].Pointer? && attrs[i].pointee != r.objectType) || attrs[i].Container?)))
    && forall k | 0 <= k < |a| :: a[k] in a && es[k] ==
         match attrs[a[k]]
         case Pointer(name, pointee) => Edge(name, pointee)
         case Container(name, item) => Edge(name + "/[i]", item)
         case Plain(name) => Edge(name, tid)
  }

  /** `es` are the edges to the subtypes, at the places `c` of the list of registered types, in order. */
  ghost predicate ToSubtypes(r: Registry, tid: TypeId, es: seq<Edge>, c: seq<nat>)
    requires forall t | t in r.registered :: t in r.names
  {
    && |es| == |c| && Increasing(c)
    && (forall i :: i in c <==> (0 <= i < |r.registered| && r.isChildOf(r.registered[i], tid)))
    && forall k | 0 <= k < |c| :: c[k] in c && es[k] == Edge("$" + r.names[r.registered[c[k]]], r.registered[c[k]])
  }

  /** `es` are the edges along the aggregations at the places `g`: those that mention the type, each to the other end,
      in order. */
  ghost predicate AlongAggregates(r: Registry, aggs: Aggregates, tid: TypeId, es: seq<Edge>, g: seq<nat>)
    requires forall p | p in aggs :: p.0 in r.names && p.1 in r.names
  {
    && |es| == |g| && Increasing(g)
    && (forall i :: i in g <==> (0 <= i < |aggs| && (aggs[i].0 == tid || aggs[i].1 == tid)))
    && forall k | 0 <= k < |g| :: g[k] in g && es[k] ==
         if aggs[g[k]].1 == tid then Edge("$" + r.names[aggs[g[k]].0], aggs[g[k]].0)
         else Edge("$" + r.names[aggs[g[k]].1], aggs[g[k]].1)
  }

  lemma AttributesInOrder(r: Registry, tid: TypeId) returns (a: seq<nat>)
    requires tid in r.attributes
    ensures AlongAttributes(r, tid, AttributeEdges(r, tid, |r.attributes[tid]|), a)
  {
    a := AttributePlaces(r, tid, |r.attributes[tid]|);
    hide AttributeEdges, Increasing;
  }

  lemma ChildrenInOrder(r: Registry, tid: TypeId) returns (c: seq<nat>)
    requires forall t | t in r.registered :: t in r.names
    ensures ToSubtypes(r, tid, ChildEdges(r, tid, |r.registered|), c)
  {
    c := ChildPlaces(r, tid, |r.registered|);
    hide ChildEdges, Increasing;
  }

  lemma AggregatesInOrder(r: Registry, aggs: Aggregates, tid: TypeId) returns (g: seq<nat>)
    requires forall p | p in aggs :: p.0 in r.names && p.1 in r.names
    ensures AlongAggregates(r, aggs, tid, AggregateEdges(r, aggs, tid, |aggs|), g)
  {
    g := AggregatePlaces(r, aggs, tid, |aggs|);
    hide AggregateEdges, Increasing;
  }

  /** The edges in the order in which they are tried, with nothing left out or tried twice: first those along the
      attributes, then those to the subtypes, then those along the aggregations. */
  lemma EdgesInOrder(r: Registry, aggs: Aggregates, tid: TypeId) returns (a: seq<nat>, c: seq<nat>, g: seq<nat>)
    requires ValidRegistry(r, aggs) && tid in r.registered
    ensures |Edges(r, aggs, tid)| == |a| + |c| + |g|
    ensures AlongAttributes(r, tid, Edges(r, aggs, tid)[..|a|], a)
    ensures ToSubtypes(r, tid, Edges(r, aggs, tid)[|a|..|a| + |c|], c)
    ensures AlongAggregates(r, aggs, tid, Edges(r, aggs, tid)[|a| + |c|..], g)
  {
    a := AttributesInOrder(r, tid);
    c := ChildrenInOrder(r, tid);
    g := AggregatesInOrder(r, aggs, tid);
    var (x, y, z) := (AttributeEdges(r, tid, |r.attributes[tid]|), ChildEdges(r, tid, |r.registered|),
                      AggregateEdges(r, aggs, tid, |aggs|));
    assert |x| == |a| && |y| == |c| && |z| == |g|;
    hide AttributeEdges, ChildEdges, AggregateEdges, Increasing, AlongAttributes, ToSubtypes, AlongAggregates;
    ThreeParts(x, y, z);
  }

  lemma GraphIsValid(r: Registry, aggs: Aggregates)
    requires ValidRegistry(r, aggs)
    ensures ValidGraph(GraphOf(r, aggs))
  {
    forall t, e | t in r.registered && e in Edges(r, aggs, t) ensures e.target in r.registered {
      EdgesMeaning(r, aggs, t, e);
      if (e.target, t) in aggs || (t, e.target) in aggs {
      } else if Pointer(e.segment, e.target) in r.attributes[t] {
      }
    }
  }

  // ---------------------------------------------------------------------------------------
  // Walks
  // ---------------------------------------------------------------------------------------

  /** A walk is the list of edge numbers chosen on the way. */
  type Walk = seq<nat>

  ghost predicate IsWalk(g: Graph, tid: TypeId, w: Walk)
    requires ValidGraph(g) && tid in g
    decreases |w|
  {
    w == [] || (w[0] < |g[tid]| && IsWalk(g, g[tid][w[0]].target, w[1..]))
  }

  ghost function Visited(g: Graph, tid: TypeId, w: Walk): seq<TypeId>
    requires ValidGraph(g) && tid in g && IsWalk(g, tid, w)
    decreases |w|
  {
    if w == [] then [tid] else [tid] + Visited(g, g[tid][w[0]].target, w[1..])
  }

  ghost function Segments(g: Graph, tid: TypeId, w: Walk): seq<string>
    requires ValidGraph(g) && tid in g && IsWalk(g, tid, w)
    decreases |w|
  {
    if w == [] then [] else var e := g[tid][w[0]]; [e.segment] + Segments(g, e.target, w[1..])
  }

  ghost function End(g: Graph, tid: TypeId, w: Walk): TypeId
    requires ValidGraph(g) && tid in g && IsWalk(g, tid, w)
    decreases |w|
  {
    if w == [] then tid else End(g, g[tid][w[0]].target, w[1..])
  }

  /** A walk that repeats no type and avoids those already on the stack. */
  ghost predicate IsSimple(g: Graph, tid: TypeId, stack: seq<TypeId>, w: Walk)
    requires ValidGraph(g) && tid in g
  {
    IsWalk(g, tid, w) && Distinct(Visited(g, tid, w)) && forall t | t in Visited(g, tid, w) :: t !in stack
  }

  /** The same, one edge at a time. */
  lemma SimpleStep(g: Graph, tid: TypeId, stack: seq<TypeId>, w: Walk)
    requires ValidGraph(g) && tid in g
    ensures IsSimple(g, tid, stack, w) <==>
            && tid !in stack
            && (w == [] || (w[0] < |g[tid]| && IsSimple(g, g[tid][w[0]].target, stack + [tid], w[1..])))
  {
    if w != [] && IsWalk(g, tid, w) {
      var rest := Visited(g, g[tid][w[0]].target, w[1..]);
      assert Visited(g, tid, w) == [tid] + rest;
      if IsSimple(g, tid, stack, w) {
        assert Visited(g, tid, w)[0] == tid && tid in Visited(g, tid, w);
        forall i, j | 0 <= i < j < |rest| ensures rest[i] != rest[j] {
          assert rest[i] == Visited(g, tid, w)[i + 1] && rest[j] == Visited(g, tid, w)[j + 1];
        }
        forall t | t in rest ensures t !in stack + [tid] {
          var i :| 0 <= i < |rest| && rest[i] == t;
          assert t == Visited(g, tid, w)[i + 1];
        }
      }
      if tid !in stack && IsSimple(g, g[tid][w[0]].target, stack + [tid], w[1..]) {
        forall t | t in rest ensures t != tid && t !in stack {
          assert t !in stack + [tid];
        }
      }
    } else if w == [] {
      assert Visited(g, tid, w) == [tid];
    }
  }

  ghost function Free(g: Graph, stack: seq<TypeId>): nat {
    |g.Keys - (set t | t in stack)|
  }

  lemma PushUses(g: Graph, stack: seq<TypeId>, tid: TypeId)
    requires tid in g && tid !in stack
    ensures Free(g, stack + [tid]) < Free(g, stack)
  {
    var (a, b) := (g.Keys - (set t | t in stack), g.Keys - (set t | t in stack + [tid]));
    assert b == a - {tid};
  }

  /** The walks the search follows from `tid`, in the order it records them. */
  ghost function Walks(g: Graph, tid: TypeId, stack: seq<TypeId>): seq<Walk>
    requires ValidGraph(g) && tid in g
    decreases Free(g, stack), 1, 0
  {
    if tid in stack then [] else [[]] + Branches(g, tid, stack, |g[tid]|)
  }

  /** Those whose first edge is among the first `n`. */
  ghost function Branches(g: Graph, tid: TypeId, stack: seq<TypeId>, n: nat): seq<Walk>
    requires ValidGraph(g) && tid in g && tid !in stack && n <= |g[tid]|
    decreases Free(g, stack), 0, n
  {
    if n == 0 then []
    else
      PushUses(g, stack, tid);
      Branches(g, tid, stack, n - 1) + Prefixed(n - 1, Walks(g, g[tid][n - 1].target, stack + [tid]))
  }

  ghost function Prefixed(k: nat, ws: seq<Walk>): (r: seq<Walk>)
    ensures |r| == |ws| && forall i | 0 <= i < |ws| :: r[i] == [k] + ws[i]
  {
    seq(|ws|, i requires 0 <= i < |ws| => [k] + ws[i])
  }

  /** Soundness and completeness: the search follows exactly the walks that repeat no type. */
  lemma {:induction false} WalksExact(g: Graph, tid: TypeId, stack: seq<TypeId>, w: Walk)
    requires ValidGraph(g) && tid in g
    ensures w in Walks(g, tid, stack) <==> IsSimple(g, tid, stack, w)
    decreases Free(g, stack), 1, 0
  {
    SimpleStep(g, tid, stack, w);
    if tid !in stack {
      BranchesExact(g, tid, stack, |g[tid]|, w);
      assert w in Walks(g, tid, stack) <==> w == [] || w in Branches(g, tid, stack, |g[tid]|);
    }
  }

  lemma {:induction false} BranchesExact(g: Graph, tid: TypeId, stack: seq<TypeId>, n: nat, w: Walk)
    requires ValidGraph(g) && tid in g && tid !in stack && n <= |g[tid]|
    ensures w in Branches(g, tid, stack, n) <==>
            w != [] && w[0] < n && IsSimple(g, g[tid][w[0]].target, stack + [tid], w[1..])
    decreases Free(g, stack), 0, n
  {
    if n > 0 {
      hide IsSimple, Prefixed;
      BranchesExact(g, tid, stack, n - 1, w);
      PushUses(g, stack, tid);
      hide Free;
      var ws := Walks(g, g[tid][n - 1].target, stack + [tid]);
      if w != [] {
        WalksExact(g, g[tid][n - 1].target, stack + [tid], w[1..]);
        assert w == [w[0]] + w[1..];
        PrefixedMembers(n - 1, ws, w);
      } else {
        PrefixedMembers(n - 1, ws, w);
      }
    }
  }

  lemma PrefixedMembers(k: nat, ws: seq<Walk>, w: Walk)
    ensures w in Prefixed(k, ws) <==> w != [] && w[0] == k && w[1..] in ws
  {
    if w in Prefixed(k, ws) {
      var i :| 0 <= i < |ws| && Prefixed(k, ws)[i] == w;
      assert w[1..] == ws[i];
    }
    if w != [] && w[0] == k && w[1..] in ws {
      var i :| 0 <= i < |ws| && ws[i] == w[1..];
      assert Prefixed(k, ws)[i] == w;
    }
  }

  /** Depth-first preorder: a walk before its extensions, and lower edges first. */
  predicate Before(a: Walk, b: Walk) {
    b != [] && (a == [] || a[0] < b[0] || (a[0] == b[0] && Before(a[1..], b[1..])))
  }

  ghost predicate InOrder(ws: seq<Walk>) {
    forall i, j | 0 <= i < j < |ws| :: Before(ws[i], ws[j])
  }

  lemma {:induction false} BeforeIrreflexive(w: Walk)
    ensures !Before(w, w)
  {
    if w != [] { BeforeIrreflexive(w[1..]); }
  }

  /** The walks come in strict preorder, so none is followed twice. */
  lemma {:induction false} WalksInOrder(g: Graph, tid: TypeId, stack: seq<TypeId>)
    requires ValidGraph(g) && tid in g
    ensures InOrder(Walks(g, tid, stack))
    decreases Free(g, stack), 1, 0
  {
    if tid !in stack {
      BranchesInOrder(g, tid, stack, |g[tid]|);
    }
  }

  lemma {:induction false} BranchesInOrder(g: Graph, tid: TypeId, stack: seq<TypeId>, n: nat)
    requires ValidGraph(g) && tid in g && tid !in stack && n <= |g[tid]|
    ensures InOrder(Branches(g, tid, stack, n))
    ensures forall w | w in Branches(g, tid, stack, n) :: w != [] && w[0] < n
    decreases Free(g, stack), 0, n
  {
    if n > 0 {
      hide InOrder, Before, Prefixed;
      BranchesInOrder(g, tid, stack, n - 1);
      PushUses(g, stack, tid);
      hide Free;
      WalksInOrder(g, g[tid][n - 1].target, stack + [tid]);
      AppendBranch(Branches(g, tid, stack, n - 1), n - 1, Walks(g, g[tid][n - 1].target, stack + [tid]));
    }
  }

  lemma AppendBranch(bs: seq<Walk>, k: nat, ws: seq<Walk>)
    requires InOrder(bs) && InOrder(ws) && forall w | w in bs :: w != [] && w[0] < k
    ensures InOrder(bs + Prefixed(k, ws))
    ensures forall w | w in bs + Prefixed(k, ws) :: w != [] && w[0] < k + 1
  {
    var ps := Prefixed(k, ws);
    var all := bs + ps;
    forall i, j | 0 <= i < j < |all| ensures Before(all[i], all[j]) {
      if i < |bs| {
        assert all[i] in bs;
        if j >= |bs| { assert all[j] == [k] + ws[j - |bs|]; }
      } else {
        assert all[i] == [k] + ws[i - |bs|] && all[j] == [k] + ws[j - |bs|];
        assert all[i][1..] == ws[i - |bs|] && all[j][1..] == ws[j - |bs|];
      }
    }
  }

  // ---------------------------------------------------------------------------------------
  // Recorded entries
  // ---------------------------------------------------------------------------------------

  type Entry = (TypeId, string)

  function PathString(path: seq<string>): string {
    if path == [] then "" else PathString(path[..|path| - 1]) + "/" + path[|path| - 1]
  }

  /** Where the n-th segment's slash stands: each segment takes one character more than its length. */
  ghost function Offset(path: seq<string>, n: nat): nat
    requires n <= |path|
  {
    if n == 0 then 0 else Offset(path, n - 1) + 1 + |path[n - 1]|
  }

  ghost predicate SegmentAt(text: string, offset: nat, segment: string) {
    && offset + 1 + |segment| <= |text|
    && text[offset] == '/' && text[offset + 1..offset + 1 + |segment|] == segment
  }

  /** The text is the path, character by character: every segment preceded by a slash, and nothing else. */
  ghost predicate Spells(text: string, path: seq<string>) {
    && |text| == Offset(path, |path|)
    && forall i | 0 <= i < |path| :: SegmentAt(text, Offset(path, i), path[i])
  }

  lemma {:induction false} OffsetPrefix(path: seq<string>, m: nat, n: nat)
    requires n <= m <= |path|
    ensures Offset(path[..m], n) == Offset(path, n)
  {
    if n > 0 { OffsetPrefix(path, m, n - 1); }
  }

  lemma {:induction false} OffsetGrows(path: seq<string>, m: nat, n: nat)
    requires m <= n <= |path|
    ensures Offset(path, m) <= Offset(path, n)
    decreases n
  {
    if m < n { OffsetGrows(path, m, n - 1); }
  }

  lemma SegmentWithin(text: string, more: string, offset: nat, segment: string)
    requires offset + 1 + |segment| <= |text|
    ensures SegmentAt(text, offset, segment) <==> SegmentAt(text + more, offset, segment)
  {
    assert (text + more)[offset + 1..offset + 1 + |segment|] == text[offset + 1..offset + 1 + |segment|];
  }

  lemma OffsetSnoc(path: seq<string>, segment: string)
    ensures Offset(path + [segment], |path| + 1) == Offset(path, |path|) + 1 + |segment|
    ensures forall i | 0 <= i <= |path| :: Offset(path + [segment], i) == Offset(path, i)
  {
    var p := path + [segment];
    assert p[..|path|] == path;
    forall i | 0 <= i <= |path| ensures Offset(p, i) == Offset(path, i) { OffsetPrefix(p, |path|, i); }
  }

  lemma SegmentLast(text: string, segment: string)
    ensures SegmentAt(text + "/" + segment, |text|, segment)
  {
  }

  lemma AddSegment(text: string, path: seq<string>, segment: string)
    requires Spells(text, path)
    ensures Spells(text + "/" + segment, path + [segment])
  {
    hide SegmentAt, Offset;
    var (t, p) := (text + "/" + segment, path + [segment]);
    OffsetSnoc(path, segment);
    SegmentLast(text, segment);
    assert t == text + ("/" + segment);
    forall i | 0 <= i < |p| ensures SegmentAt(t, Offset(p, i), p[i]) {
      if i < |path| {
        SegmentEnds(text, path, i);
        SegmentWithin(text, "/" + segment, Offset(path, i), path[i]);
      }
    }
  }

  lemma SegmentEnds(text: string, path: seq<string>, i: nat)
    requires Spells(text, path) && i < |path|
    ensures SegmentAt(text, Offset(path, i), path[i])
    ensures forall n | i < n <= |path| :: Offset(path, i) + 1 + |path[i]| <= Offset(path, n)
  {
    forall n | i < n <= |path| ensures Offset(path, i) + 1 + |path[i]| <= Offset(path, n) {
      OffsetGrows(path, i + 1, n);
    }
  }

  lemma SegmentCut(text: string, offset: nat, segment: string)
    requires SegmentAt(text, offset, segment) && |text| == offset + 1 + |segment|
    ensures text == text[..offset] + "/" + segment
  {
    assert text == text[..offset] + [text[offset]] + text[offset + 1..];
  }

  lemma RemoveSegment(text: string, path: seq<string>, segment: string) returns (front: string)
    requires Spells(text, path + [segment])
    ensures Spells(front, path) && text == front + "/" + segment
  {
    hide SegmentAt, Offset;
    var (p, n) := (path + [segment], |path|);
    OffsetSnoc(path, segment);
    SegmentEnds(text, p, n);
    front := text[..Offset(path, n)];
    SegmentCut(text, Offset(path, n), segment);
    assert text == front + ("/" + segment);
    forall i | 0 <= i < n ensures SegmentAt(front, Offset(path, i), path[i]) {
      SegmentEnds(text, p, i);
      SegmentWithin(front, "/" + segment, Offset(path, i), path[i]);
    }
  }

  /** `PathString` spells its path, and nothing else does. */
  lemma {:induction false} PathSpells(text: string, path: seq<string>)
    ensures Spells(text, path) <==> text == PathString(path)
    decreases |path|
  {
    if path != [] {
      var (front, last) := (path[..|path| - 1], path[|path| - 1]);
      assert path == front + [last];
      hide Spells;
      PathSpells(PathString(front), front);
      AddSegment(PathString(front), front, last);
      if Spells(text, path) {
        var t := RemoveSegment(text, front, last);
        PathSpells(t, front);
      }
    }
  }

  /** What the search records at the end of a walk that started with `path` already built. */
  ghost function EntryOf(g: Graph, tid: TypeId, path: seq<string>, w: Walk): Entry
    requires ValidGraph(g) && tid in g && IsWalk(g, tid, w)
  {
    (End(g, tid, w), PathString(path + Segments(g, tid, w)))
  }

  ghost function Entries(g: Graph, tid: TypeId, path: seq<string>, ws: seq<Walk>): (r: seq<Entry>)
    requires ValidGraph(g) && tid in g && forall w | w in ws :: IsWalk(g, tid, w)
    ensures |r| == |ws| && forall i | 0 <= i < |ws| :: r[i] == EntryOf(g, tid, path, ws[i])
  {
    seq(|ws|, i requires 0 <= i < |ws| => EntryOf(g, tid, path, ws[i]))
  }

  lemma AllWalks(g: Graph, tid: TypeId, stack: seq<TypeId>)
    requires ValidGraph(g) && tid in g
    ensures forall w | w in Walks(g, tid, stack) :: IsWalk(g, tid, w)
  {
    forall w | w in Walks(g, tid, stack) ensures IsWalk(g, tid, w) { WalksExact(g, tid, stack, w); }
  }

  lemma AllBranches(g: Graph, tid: TypeId, stack: seq<TypeId>, n: nat)
    requires ValidGraph(g) && tid in g && tid !in stack && n <= |g[tid]|
    ensures forall w | w in Branches(g, tid, stack, n) :: IsWalk(g, tid, w)
  {
    forall w | w in Branches(g, tid, stack, n) ensures IsWalk(g, tid, w) { BranchesExact(g, tid, stack, n, w); }
  }

  /** The entries the search has made once it has dealt with the type itself and its first `n` edges. */
  ghost function EntriesUpTo(g: Graph, tid: TypeId, path: seq<string>, stack: seq<TypeId>, n: nat): seq<Entry>
    requires ValidGraph(g) && tid in g && tid !in stack && n <= |g[tid]|
  {
    AllBranches(g, tid, stack, n);
    [(tid, PathString(path))] + Entries(g, tid, path, Branches(g, tid, stack, n))
  }

  ghost function AllEntries(g: Graph, tid: TypeId, path: seq<string>, stack: seq<TypeId>): seq<Entry>
    requires ValidGraph(g) && tid in g
  {
    AllWalks(g, tid, stack);
    Entries(g, tid, path, Walks(g, tid, stack))
  }

  lemma NothingNew(g: Graph, tid: TypeId, path: seq<string>, stack: seq<TypeId>)
    requires ValidGraph(g) && tid in g && tid in stack
    ensures AllEntries(g, tid, path, stack) == []
  {
  }

  lemma EntriesDone(g: Graph, tid: TypeId, path: seq<string>, stack: seq<TypeId>)
    requires ValidGraph(g) && tid in g && tid !in stack
    ensures AllEntries(g, tid, path, stack) == EntriesUpTo(g, tid, path, stack, |g[tid]|)
  {
    AllWalks(g, tid, stack);
    AllBranches(g, tid, stack, |g[tid]|);
    assert path + [] == path;
    assert EntryOf(g, tid, path, []) == (tid, PathString(path));
  }

  /** Following one more edge adds the entries found from its target. */
  lemma EntriesStep(g: Graph, tid: TypeId, path: seq<string>, stack: seq<TypeId>, n: nat)
    requires ValidGraph(g) && tid in g && tid !in stack && n < |g[tid]|
    ensures var e := g[tid][n];
            EntriesUpTo(g, tid, path, stack, n + 1)
            == EntriesUpTo(g, tid, path, stack, n) + AllEntries(g, e.target, path + [e.segment], stack + [tid])
  {
    var e := g[tid][n];
    var ws := Walks(g, e.target, stack + [tid]);
    AllBranches(g, tid, stack, n);
    AllBranches(g, tid, stack, n + 1);
    AllWalks(g, e.target, stack + [tid]);
    forall i | 0 <= i < |ws|
      ensures IsWalk(g, tid, [n] + ws[i])
      ensures EntryOf(g, tid, path, [n] + ws[i]) == EntryOf(g, e.target, path + [e.segment], ws[i])
    {
      assert ws[i] in ws && ([n] + ws[i])[1..] == ws[i];
      assert path + ([e.segment] + Segments(g, e.target, ws[i])) == (path + [e.segment]) + Segments(g, e.target, ws[i]);
    }
    assert Branches(g, tid, stack, n + 1) == Branches(g, tid, stack, n) + Prefixed(n, ws);
  }

  /** A route: the types passed and the segments between them, each segment that of an edge to the next type. */
  ghost predicate IsRoute(g: Graph, root: TypeId, types: seq<TypeId>, segments: seq<string>) {
    && |types| == |segments| + 1 && types[0] == root
    && forall i | 0 <= i < |segments| :: types[i] in g && Edge(segments[i], types[i + 1]) in g[types[i]]
  }

  /** A walk is a route: it visits one type more than it has edges, ends at the last of them, and its segments are
      those of the edges chosen. */
  lemma {:induction false} EndIsLast(g: Graph, tid: TypeId, w: Walk)
    requires ValidGraph(g) && tid in g && IsWalk(g, tid, w)
    ensures Visited(g, tid, w) != [] && End(g, tid, w) == Visited(g, tid, w)[|Visited(g, tid, w)| - 1]
    ensures |Visited(g, tid, w)| == |w| + 1 && |Segments(g, tid, w)| == |w|
    ensures IsRoute(g, tid, Visited(g, tid, w), Segments(g, tid, w))
    decreases |w|
  {
    if w != [] {
      var e := g[tid][w[0]];
      EndIsLast(g, e.target, w[1..]);
      hide End;
      ConsRoute(g, tid, e, Visited(g, e.target, w[1..]), Segments(g, e.target, w[1..]));
    }
  }

  lemma ConsRoute(g: Graph, tid: TypeId, e: Edge, types: seq<TypeId>, segments: seq<string>)
    requires tid in g && e in g[tid]
    ensures IsRoute(g, e.target, types, segments) ==> IsRoute(g, tid, [tid] + types, [e.segment] + segments)
  {
    var (ts, ss) := ([tid] + types, [e.segment] + segments);
    if IsRoute(g, e.target, types, segments) {
      forall i | 0 <= i < |ss| ensures ts[i] in g && Edge(ss[i], ts[i + 1]) in g[ts[i]] {
        if i > 0 { assert ts[i] == types[i - 1] && ts[i + 1] == types[i] && ss[i] == segments[i - 1]; }
      }
    }
  }

  /** Every route is that of some walk. */
  lemma {:induction false} RouteIsWalked(g: Graph, root: TypeId, types: seq<TypeId>, segments: seq<string>)
    returns (w: Walk)
    requires ValidGraph(g) && root in g && IsRoute(g, root, types, segments)
    ensures IsWalk(g, root, w) && Visited(g, root, w) == types && Segments(g, root, w) == segments
    decreases |segments|
  {
    if segments == [] {
      w := [];
      assert types == [root];
    } else {
      var e := Edge(segments[0], types[1]);
      assert e in g[root];
      var k :| 0 <= k < |g[root]| && g[root][k] == e;
      forall i | 0 <= i < |segments| - 1
        ensures types[1..][i] in g && Edge(segments[1..][i], types[1..][i + 1]) in g[types[1..][i]]
      {
        assert types[1..][i] == types[i + 1] && types[1..][i + 1] == types[i + 2];
        assert segments[1..][i] == segments[i + 1];
      }
      var rest := RouteIsWalked(g, types[1], types[1..], segments[1..]);
      w := [k] + rest;
      assert w[1..] == rest;
      assert types == [root] + types[1..] && segments == [segments[0]] + segments[1..];
    }
  }

  /** The output of a search from the empty stack: one entry per walk from the root that repeats no
      type, in preorder, spelling the walk's segments. */
  lemma SearchExact(g: Graph, root: TypeId) returns (ws: seq<Walk>)
    requires ValidGraph(g) && root in g
    ensures forall w :: w in ws <==> IsWalk(g, root, w) && Distinct(Visited(g, root, w))
    ensures InOrder(ws) && forall i, j | 0 <= i < j < |ws| :: ws[i] != ws[j]
    ensures var out := AllEntries(g, root, [], []);
            |out| == |ws|
            && forall i | 0 <= i < |ws| ::
                 && ws[i] in ws && out[i] == (End(g, root, ws[i]), PathString(Segments(g, root, ws[i])))
                 && Spells(out[i].1, Segments(g, root, ws[i]))
  {
    ws := Walks(g, root, []);
    forall w ensures w in ws <==> IsWalk(g, root, w) && Distinct(Visited(g, root, w)) {
      WalksExact(g, root, [], w);
    }
    WalksInOrder(g, root, []);
    forall i, j | 0 <= i < j < |ws| ensures ws[i] != ws[j] {
      if ws[i] == ws[j] { BeforeIrreflexive(ws[i]); }
    }
    AllWalks(g, root, []);
    forall i | 0 <= i < |ws|
      ensures [] + Segments(g, root, ws[i]) == Segments(g, root, ws[i])
      ensures Spells(PathString(Segments(g, root, ws[i])), Segments(g, root, ws[i]))
    {
      assert ws[i] in ws;
      PathSpells(PathString(Segments(g, root, ws[i])), Segments(g, root, ws[i]));
    }
    hide Spells, PathString;
  }

  /** The paths recorded for one type. */
  function PathsOf(output: seq<Entry>, tid: TypeId): seq<string> {
    if output == [] then []
    else PathsOf(output[..|output| - 1], tid)
         + (if output[|output| - 1].0 == tid then [output[|output| - 1].1] else [])
  }

  lemma {:induction false} PathsOfMembers(output: seq<Entry>, tid: TypeId, path: string)
    ensures path in PathsOf(output, tid) <==> (tid, path) in output
  {
    if output != [] {
      var n := |output| - 1;
      PathsOfMembers(output[..n], tid, path);
      assert output == output[..n] + [output[n]];
    }
  }

  ghost function PathParts(output: seq<Entry>, tid: TypeId): (parts: seq<seq<string>>)
    ensures |parts| == |output|
    ensures forall i | 0 <= i < |output| :: parts[i] == if output[i].0 == tid then [output[i].1] else []
  {
    seq(|output|, i requires 0 <= i < |output| => if output[i].0 == tid then [output[i].1] else [])
  }

  lemma {:induction false} PathPlaces(output: seq<Entry>, tid: TypeId) returns (places: seq<nat>)
    ensures FromParts(PathsOf(output, tid), PathParts(output, tid), places)
  {
    if output == [] {
      places := [];
    } else {
      var (front, last) := (output[..|output| - 1], output[|output| - 1]);
      var before := PathPlaces(front, tid);
      hide FromParts;
      assert PathParts(output, tid) == PathParts(front, tid) + [if last.0 == tid then [last.1] else []];
      if last.0 == tid {
        places := before + [|front|];
        FromPartsSnoc(PathsOf(front, tid), PathParts(front, tid), before, last.1);
      } else {
        places := before;
        FromPartsSkip(PathsOf(front, tid), PathParts(front, tid), before);
      }
    }
  }

  /** The paths returned for a type are its recorded ones in the order of recording. */
  lemma PathsOfInOrder(output: seq<Entry>, tid: TypeId) returns (places: seq<nat>)
    ensures |places| == |PathsOf(output, tid)| && Increasing(places)
    ensures forall n | 0 <= n < |places| :: places[n] < |output| && output[places[n]] == (tid, PathsOf(output, tid)[n])
    ensures forall i | 0 <= i < |output| && output[i].0 == tid :: i in places
  {
    places := PathPlaces(output, tid);
    hide PathsOf;
    forall n | 0 <= n < |places| ensures places[n] < |output| && output[places[n]] == (tid, PathsOf(output, tid)[n]) {
      assert PathParts(output, tid)[places[n]] == [PathsOf(output, tid)[n]];
    }
  }

  /** The route leads to the type, passes no type twice and is spelled by the path. */
  ghost predicate LeadsTo(g: Graph, root: TypeId, types: seq<TypeId>, segments: seq<string>, tid: TypeId,
                          path: string)
  {
    IsRoute(g, root, types, segments) && Distinct(types) && types[|types| - 1] == tid && Spells(path, segments)
  }

  /** After gathering from a root, a path is listed for a type exactly when it spells, character by character, some
      route from the root to the type that passes no type twice. */
  lemma PathsExact(g: Graph, root: TypeId, tid: TypeId, path: string)
    requires ValidGraph(g) && root in g
    ensures path in PathsOf(AllEntries(g, root, [], []), tid) <==>
            exists types: seq<TypeId>, segments :: LeadsTo(g, root, types, segments, tid, path)
  {
    hide PathString, PathsOf, AllEntries, Spells, Distinct;
    var out := AllEntries(g, root, [], []);
    var ws := SearchExact(g, root);
    PathsOfMembers(out, tid, path);
    if (tid, path) in out {
      var i :| 0 <= i < |out| && out[i] == (tid, path);
      assert ws[i] in ws;
      EndIsLast(g, root, ws[i]);
      assert LeadsTo(g, root, Visited(g, root, ws[i]), Segments(g, root, ws[i]), tid, path);
    }
    if types: seq<TypeId>, segments :| LeadsTo(g, root, types, segments, tid, path) {
      var w := RouteIsWalked(g, root, types, segments);
      EndIsLast(g, root, w);
      assert w in ws;
      var i :| 0 <= i < |ws| && ws[i] == w;
      PathSpells(path, segments);
      assert out[i] == (tid, path);
    }
  }

  // ---------------------------------------------------------------------------------------
  // The program
  // ---------------------------------------------------------------------------------------

  // Where each loop stands in the list of edges.

  lemma {:induction false} AttributePrefix(r: Registry, tid: TypeId, i: nat, n: nat)
    requires tid in r.attributes && i <= n <= |r.attributes[tid]|
    ensures AttributeEdges(r, tid, i) <= AttributeEdges(r, tid, n)
  {
    if i < n { AttributePrefix(r, tid, i, n - 1); }
  }

  lemma {:induction false} ChildPrefix(r: Registry, tid: TypeId, i: nat, n: nat)
    requires i <= n <= |r.registered| && forall t | t in r.registered :: t in r.names
    ensures ChildEdges(r, tid, i) <= ChildEdges(r, tid, n)
  {
    if i < n { ChildPrefix(r, tid, i, n - 1); }
  }

  lemma {:induction false} AggregatePrefix(r: Registry, aggs: Aggregates, tid: TypeId, i: nat, n: nat)
    requires i <= n <= |aggs| && forall p | p in aggs :: p.0 in r.names && p.1 in r.names
    ensures AggregateEdges(r, aggs, tid, i) <= AggregateEdges(r, aggs, tid, n)
  {
    if i < n { AggregatePrefix(r, aggs, tid, i, n - 1); }
  }

  ghost function ChildrenFrom(r: Registry, tid: TypeId, j: nat): nat
    requires tid in r.attributes && j <= |r.registered| && forall t | t in r.registered :: t in r.names
  {
    |AttributeEdges(r, tid, |r.attributes[tid]|)| + |ChildEdges(r, tid, j)|
  }

  ghost function AggregatesFrom(r: Registry, aggs: Aggregates, tid: TypeId, i: nat): nat
    requires ValidRegistry(r, aggs) && tid in r.registered && i <= |aggs|
  {
    ChildrenFrom(r, tid, |r.registered|) + |AggregateEdges(r, aggs, tid, i)|
  }

  lemma EdgeCount(r: Registry, aggs: Aggregates, tid: TypeId)
    requires ValidRegistry(r, aggs) && tid in r.registered
    ensures |Edges(r, aggs, tid)| == AggregatesFrom(r, aggs, tid, |aggs|)
  {
  }

  lemma AttributeEdgeAt(r: Registry, aggs: Aggregates, tid: TypeId, i: nat)
    requires ValidRegistry(r, aggs) && tid in r.registered && i < |r.attributes[tid]|
    ensures var (n, es) := (|AttributeEdges(r, tid, i)|, AttributeEdge(r, r.attributes[tid][i]));
            && |AttributeEdges(r, tid, i + 1)| == n + |es|
            && (es != [] ==> n < |Edges(r, aggs, tid)| && Edges(r, aggs, tid)[n] == es[0])
  {
    AttributePrefix(r, tid, i + 1, |r.attributes[tid]|);
  }

  lemma ChildEdgeAt(r: Registry, aggs: Aggregates, tid: TypeId, j: nat)
    requires ValidRegistry(r, aggs) && tid in r.registered && j < |r.registered|
    ensures var (n, es) := (ChildrenFrom(r, tid, j), ChildEdge(r, tid, r.registered[j]));
            && ChildrenFrom(r, tid, j + 1) == n + |es|
            && (es != [] ==> n < |Edges(r, aggs, tid)| && Edges(r, aggs, tid)[n] == es[0])
  {
    ChildPrefix(r, tid, j + 1, |r.registered|);
  }

  lemma AggregateEdgeAt(r: Registry, aggs: Aggregates, tid: TypeId, i: nat)
    requires ValidRegistry(r, aggs) && tid in r.registered && i < |aggs|
    ensures var (n, es) := (AggregatesFrom(r, aggs, tid, i), AggregateEdge(r, tid, aggs[i]));
            && AggregatesFrom(r, aggs, tid, i + 1) == n + |es|
            && (es != [] ==> n < |Edges(r, aggs, tid)| && Edges(r, aggs, tid)[n] == es[0])
  {
    AggregatePrefix(r, aggs, tid, i + 1, |aggs|);
  }

  /** One visit of a type: the graph, the type, and the fields as they were when it began. */
  datatype Visit = Visit(g: Graph, tid: TypeId, output: seq<Entry>, path: seq<string>, stack: seq<TypeId>)

  lemma FollowAdds(v: Visit, n: nat)
    requires ValidGraph(v.g) && v.tid in v.g && v.tid !in v.stack && n < |v.g[v.tid]|
    ensures var e := v.g[v.tid][n];
            v.output + EntriesUpTo(v.g, v.tid, v.path, v.stack, n + 1)
            == v.output + EntriesUpTo(v.g, v.tid, v.path, v.stack, n)
               + AllEntries(v.g, e.target, v.path + [e.segment], v.stack + [v.tid])
  {
    EntriesStep(v.g, v.tid, v.path, v.stack, n);
  }

  lemma PopPushed<T>(s: seq<T>, x: T)
    ensures (s + [x])[..|s + [x]| - 1] == s
  {
  }

  lemma RegisteredIsNode(r: Registry, aggs: Aggregates, tid: TypeId)
    requires ValidRegistry(r, aggs) && tid in r.registered
    ensures ValidGraph(GraphOf(r, aggs)) && tid in GraphOf(r, aggs)
    ensures GraphOf(r, aggs)[tid] == Edges(r, aggs, tid)
  {
    GraphIsValid(r, aggs);
    hide Edges;
  }

  lemma TargetRegistered(r: Registry, aggs: Aggregates, tid: TypeId, n: nat)
    requires ValidRegistry(r, aggs) && tid in r.registered && n < |GraphOf(r, aggs)[tid]|
    ensures GraphOf(r, aggs)[tid][n].target in r.registered && tid in GraphOf(r, aggs)
  {
    GraphIsValid(r, aggs);
    hide Edges, ValidRegistry;
    assert GraphOf(r, aggs)[tid][n].target in GraphOf(r, aggs);
  }

  class StaticInformation {
    const registry: Registry
    const aggregates: Aggregates
    var output: seq<Entry>
    var currentPath: seq<string>
    var alreadyProcessed: seq<TypeId>

    ghost predicate Valid()
      reads this
    {
      ValidRegistry(registry, aggregates) && Distinct(alreadyProcessed)
    }

    ghost function Types(): Graph
      requires ValidRegistry(registry, aggregates)
    {
      GraphOf(registry, aggregates)
    }

    constructor (registry: Registry, aggregates: Aggregates)
      requires ValidRegistry(registry, aggregates)
      ensures Valid() && this.registry == registry && this.aggregates == aggregates
      ensures output == [] && currentPath == [] && alreadyProcessed == []
    {
      this.registry, this.aggregates := registry, aggregates;
      output, currentPath, alreadyProcessed := [], [], [];
    }

    method GetCurrentPath() returns (path: string)
      ensures path == PathString(currentPath) && Spells(path, currentPath)
    {
      path := "";
      for i := 0 to |currentPath|
        invariant path == PathString(currentPath[..i])
      {
        assert currentPath[..i + 1][..i] == currentPath[..i];
        path := path + "/" + currentPath[i];
      }
      assert currentPath[..|currentPath|] == currentPath;
      PathSpells(path, currentPath);
    }

    method RecordOutput(tid: TypeId)
      modifies this`output
      ensures output == old(output) + [(tid, PathString(currentPath))]
      ensures Spells(output[|output| - 1].1, currentPath)
    {
      var path := GetCurrentPath();
      output := output + [(tid, path)];
    }

    method HasAlreadyBeenProcessed(tid: TypeId) returns (found: bool)
      ensures found <==> tid in alreadyProcessed
    {
      for i := 0 to |alreadyProcessed|
        invariant tid !in alreadyProcessed[..i]
      {
        if alreadyProcessed[i] == tid {
          return true;
        }
      }
      return false;
    }

    method Get(tid: TypeId) returns (paths: seq<string>)
      ensures paths == PathsOf(output, tid)
    {
      paths := [];
      for i := 0 to |output|
        invariant paths == PathsOf(output[..i], tid)
      {
        assert output[..i + 1][..i] == output[..i];
        if output[i].0 == tid {
          paths := paths + [output[i].1];
        }
      }
      assert output[..|output|] == output;
    }

    /** Gathers from one root; the sorted copy made afterwards is thrown away. */
    method Gather(tid: TypeId)
      requires Valid() && tid in registry.registered
      modifies this`output, this`currentPath, this`alreadyProcessed
      ensures Valid() && currentPath == old(currentPath) && alreadyProcessed == old(alreadyProcessed)
      ensures ValidGraph(Types())
              && output == old(output) + AllEntries(Types(), tid, old(currentPath), old(alreadyProcessed))
    {
      DoGather(tid);
    }

    /** The state of the search inside `v.tid`, `n` of whose edges have been followed: both stacks as
        they were on entry, the output extended by what those edges lead to. */
    ghost predicate Explored(v: Visit, n: nat)
      reads this
    {
      && Valid() && v.tid in registry.registered && v.g == Types() && ValidGraph(v.g)
      && currentPath == v.path && alreadyProcessed == v.stack && v.tid !in v.stack
      && n <= |v.g[v.tid]|
      && output == v.output + EntriesUpTo(v.g, v.tid, v.path, v.stack, n)
    }

    /** The search terminates on any type graph, restores both stacks on every return, and appends
        exactly the entries of the walks it follows. */
    method DoGather(tid: TypeId)
      requires Valid() && tid in registry.registered
      modifies this`output, this`currentPath, this`alreadyProcessed
      ensures Valid() && currentPath == old(currentPath) && alreadyProcessed == old(alreadyProcessed)
      ensures ValidGraph(Types())
              && output == old(output) + AllEntries(Types(), tid, old(currentPath), old(alreadyProcessed))
      decreases Free(Types(), alreadyProcessed), 1
    {
      hide AllEntries, Edges;
      GraphIsValid(registry, aggregates);
      var processed := HasAlreadyBeenProcessed(tid);
      if processed {
        NothingNew(Types(), tid, currentPath, alreadyProcessed);
        return;
      }
      ghost var v := Visit(Types(), tid, output, currentPath, alreadyProcessed);
      RecordOutput(tid);
      EntriesDone(v.g, tid, v.path, v.stack);
      GatherAttributes(tid, v);
      GatherChildren(tid, v);
      GatherAggregates(tid, v);
    }

    method GatherAttributes(tid: TypeId, ghost v: Visit)
      requires v.tid == tid && Explored(v, 0)
      modifies this`output, this`currentPath, this`alreadyProcessed
      ensures Valid() && tid in registry.registered && Explored(v, ChildrenFrom(registry, tid, 0))
      decreases Free(Types(), alreadyProcessed), 0, 3
    {
      hide EntriesUpTo, AllEntries, Edges, GraphOf, ValidGraph, Distinct, Free;
      for i := 0 to |registry.attributes[tid]|
        invariant Explored(v, |AttributeEdges(registry, tid, i)|)
      {
        GatherAttribute(tid, i, v);
      }
    }

    method GatherChildren(tid: TypeId, ghost v: Visit)
      requires v.tid == tid && Valid() && tid in registry.registered && Explored(v, ChildrenFrom(registry, tid, 0))
      modifies this`output, this`currentPath, this`alreadyProcessed
      ensures Valid() && Explored(v, AggregatesFrom(registry, aggregates, tid, 0))
      decreases Free(Types(), alreadyProcessed), 0, 3
    {
      hide EntriesUpTo, AllEntries, Edges, GraphOf, ValidGraph, Distinct, Free;
      for j := 0 to |registry.registered|
        invariant Valid() && Explored(v, ChildrenFrom(registry, tid, j))
      {
        GatherChild(tid, j, v);
      }
    }

    method GatherAggregates(tid: TypeId, ghost v: Visit)
      requires v.tid == tid && Valid() && tid in registry.registered
      requires Explored(v, AggregatesFrom(registry, aggregates, tid, 0))
      modifies this`output, this`currentPath, this`alreadyProcessed
      ensures Explored(v, |v.g[tid]|)
      decreases Free(Types(), alreadyProcessed), 0, 3
    {
      hide EntriesUpTo, AllEntries, Edges, GraphOf, ValidGraph, Distinct, Free;
      for i := 0 to |aggregates|
        invariant Valid() && Explored(v, AggregatesFrom(registry, aggregates, tid, i))
      {
        GatherAggregate(tid, i, v);
      }
      RegisteredIsNode(registry, aggregates, tid);
      EdgeCount(registry, aggregates, tid);
    }

    /** One push, recursive call and pop, as at each of the four places that follow an edge. */
    method Follow(tid: TypeId, segment: string, target: TypeId, ghost v: Visit, ghost n: nat)
      requires Explored(v, n) && v.tid == tid && n < |v.g[tid]| && v.g[tid][n] == Edge(segment, target)
      modifies this`output, this`currentPath, this`alreadyProcessed
      ensures Explored(v, n + 1)
      decreases Free(Types(), alreadyProcessed), 0, 1
    {
      FollowAdds(v, n);
      TargetRegistered(registry, aggregates, tid, n);
      hide EntriesUpTo, AllEntries, Edges, GraphOf, ValidGraph, ValidRegistry, Distinct, Free;
      Descend(tid, segment, target);
    }

    method Descend(tid: TypeId, segment: string, target: TypeId)
      requires Valid() && tid in registry.registered && target in registry.registered && tid !in alreadyProcessed
      modifies this`output, this`currentPath, this`alreadyProcessed
      ensures Valid() && currentPath == old(currentPath) && alreadyProcessed == old(alreadyProcessed)
      ensures ValidGraph(Types()) && target in Types()
              && output == old(output) + AllEntries(Types(), target, old(currentPath) + [segment],
                                                    old(alreadyProcessed) + [tid])
      decreases Free(Types(), alreadyProcessed), 0, 0
    {
      PushUses(Types(), alreadyProcessed, tid);
      DistinctSnoc(alreadyProcessed, tid);
      PopPushed(currentPath, segment);
      PopPushed(alreadyProcessed, tid);
      RegisteredIsNode(registry, aggregates, target);
      hide AllEntries, Edges, GraphOf, ValidGraph, ValidRegistry, Distinct, Free;
      currentPath := currentPath + [segment];
      alreadyProcessed := alreadyProcessed + [tid];
      DoGather(target);
      alreadyProcessed := alreadyProcessed[..|alreadyProcessed| - 1];
      currentPath := currentPath[..|currentPath| - 1];
    }

    method GatherAttribute(tid: TypeId, i: nat, ghost v: Visit)
      requires v.tid == tid && Valid() && tid in registry.registered && i < |registry.attributes[tid]|
      requires Explored(v, |AttributeEdges(registry, tid, i)|)
      modifies this`output, this`currentPath, this`alreadyProcessed
      ensures Explored(v, |AttributeEdges(registry, tid, i + 1)|)
      decreases Free(Types(), alreadyProcessed), 0, 2
    {
      hide EntriesUpTo, AllEntries, Edges, GraphOf, ValidGraph, Distinct, Free;
      RegisteredIsNode(registry, aggregates, tid);
      AttributeEdgeAt(registry, aggregates, tid, i);
      match registry.attributes[tid][i] {
        case Pointer(name, pointee) =>
          if pointee == registry.objectType {
            return;
          }
          Follow(tid, name, pointee, v, |AttributeEdges(registry, tid, i)|);
        case Container(name, item) =>
          Follow(tid, name + "/[i]", item, v, |AttributeEdges(registry, tid, i)|);
        case Plain(_) =>
      }
    }

    method GatherChild(tid: TypeId, j: nat, ghost v: Visit)
      requires v.tid == tid && Valid() && tid in registry.registered && j < |registry.registered|
      requires Explored(v, ChildrenFrom(registry, tid, j))
      modifies this`output, this`currentPath, this`alreadyProcessed
      ensures Valid() && Explored(v, ChildrenFrom(registry, tid, j + 1))
      decreases Free(Types(), alreadyProcessed), 0, 2
    {
      hide EntriesUpTo, AllEntries, Edges, GraphOf, ValidGraph, Distinct, Free;
      RegisteredIsNode(registry, aggregates, tid);
      ChildEdgeAt(registry, aggregates, tid, j);
      var child := registry.registered[j];
      if registry.isChildOf(child, tid) {
        var childName := "$" + registry.names[child];
        Follow(tid, childName, child, v, ChildrenFrom(registry, tid, j));
      }
    }

    method GatherAggregate(tid: TypeId, i: nat, ghost v: Visit)
      requires v.tid == tid && Valid() && tid in registry.registered && i < |aggregates|
      requires Explored(v, AggregatesFrom(registry, aggregates, tid, i))
      modifies this`output, this`currentPath, this`alreadyProcessed
      ensures Valid() && Explored(v, AggregatesFrom(registry, aggregates, tid, i + 1))
      decreases Free(Types(), alreadyProcessed), 0, 2
    {
      hide EntriesUpTo, AllEntries, Edges, GraphOf, ValidGraph, Distinct, Free;
      RegisteredIsNode(registry, aggregates, tid);
      AggregateEdgeAt(registry, aggregates, tid, i);
      var item := aggregates[i];
      if item.0 == tid || item.1 == tid {
        var other := item.1;
        if item.1 == tid {
          other := item.0;
        }
        var name := "$" + registry.names[other];
        Follow(tid, name, other, v, AggregatesFrom(registry, aggregates, tid, i));
      }
    }
  }
}
