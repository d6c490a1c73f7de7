/**
 Properties of the vertex operations that relate several calls, or relate a
 call to the graph's edges rather than to the sets it edits.
 */
module VertexProperties {
  import opened Basics
  import opened LinkedSets
  import opened DependencyGraph
  import opened Vertices

  /** The empty arena satisfies the invariant. */
  lemma EmptyGraphValid()
    ensures Valid(EmptyGraph)
  {
  }

  /** `u` is a neighbour of `v` in the adjacency set exactly when a connected
      edge runs from `v` to `u`. */
  lemma AdjacentMeansEdge(g: Graph, v: VertexId, u: VertexId)
    requires Valid(g) && v < |g.vertices|
    ensures u in AdjacencySet(g, v) <==>
      exists x | 0 <= x < |g.edges| :: Connected(g, x) && g.edges[x].source == v && g.edges[x].sink == u
  {
    var adj := AdjacencySet(g, v);
    assert WellFormedAt(g, v);
    if u in adj {
      var i :| 0 <= i < |adj| && adj[i] == u;
      var x := In(g, v)[i];
      assert x in In(g, v);
      assert Balanced(g, x);
    }
    if exists x | 0 <= x < |g.edges| :: Connected(g, x) && g.edges[x].source == v && g.edges[x].sink == u {
      var x :| 0 <= x < |g.edges| && Connected(g, x) && g.edges[x].source == v && g.edges[x].sink == u;
      assert Balanced(g, x);
      var i :| 0 <= i < |In(g, v)| && In(g, v)[i] == x;
      assert adj[i] == u;
    }
  }

  /** `u` is in the dependency set of `v` exactly when a connected edge runs
      from `u` to `v`. */
  lemma DependsMeansEdge(g: Graph, v: VertexId, u: VertexId)
    requires Valid(g) && v < |g.vertices|
    ensures u in DependencySet(g, v) <==>
      exists x | 0 <= x < |g.edges| :: Connected(g, x) && g.edges[x].source == u && g.edges[x].sink == v
  {
    var dep := DependencySet(g, v);
    assert WellFormedAt(g, v);
    if u in dep {
      var i :| 0 <= i < |dep| && dep[i] == u;
      var x := Out(g, v)[i];
      assert x in Out(g, v);
    }
    if exists x | 0 <= x < |g.edges| :: Connected(g, x) && g.edges[x].source == u && g.edges[x].sink == v {
      var x :| 0 <= x < |g.edges| && Connected(g, x) && g.edges[x].source == u && g.edges[x].sink == v;
      var i :| 0 <= i < |Out(g, v)| && Out(g, v)[i] == x;
      assert dep[i] == u;
    }
  }

  /** The two queries are mirror images: `u` depends on `v` as seen from `v`
      exactly when `v` is a dependency of `u` as seen from `u`. */
  lemma AdjacencyMirrorsDependency(g: Graph, v: VertexId, u: VertexId)
    requires Valid(g) && v < |g.vertices| && u < |g.vertices|
    ensures u in AdjacencySet(g, v) <==> v in DependencySet(g, u)
  {
    AdjacentMeansEdge(g, v, u);
    DependsMeansEdge(g, u, v);
  }

  /** `getId` reads back what `id(x)` last wrote: a new vertex has a null id,
      setting one vertex's id leaves every other id alone, and wiring or
      unwiring edges never changes an id. */
  lemma GetIdReadsLastSet(g: Graph, v: VertexId, u: VertexId, id: Option<Ident>, s: VertexId, a: EdgeAction)
    requires Valid(g) && v < |g.vertices| && u < |g.vertices| && s < |g.vertices|
    ensures GetId(NewVertex(g).0, NewVertex(g).1) == None
    ensures GetId(SetId(g, v, id), u) == (if u == v then id else GetId(g, u))
    ensures DependsOn(g, v, Some(s), Some(a)).Ok?
    ensures GetId(DependsOn(g, v, Some(s), Some(a)).value, u) == GetId(g, u)
    ensures UndependsOn(g, v, Some(s)).Ok?
    ensures GetId(UndependsOn(g, v, Some(s)).value, u) == GetId(g, u)
    ensures GetId(Disconnect(g, v), u) == GetId(g, u)
  {
  }

  /** With a filter that keeps everything, the filtered queries return the
      unfiltered ones. */
  lemma DefaultFilterKeepsAll(g: Graph, v: VertexId)
    requires Valid(g) && v < |g.vertices|
    ensures AdjacencySetWhere(g, v, Some(AlwaysTrue)) == Ok(AdjacencySet(g, v))
    ensures DependencySetWhere(g, v, Some(AlwaysTrue)) == Ok(DependencySet(g, v))
  {
  }

  /** When `v`'s `outdegrees` only grows at its end, and no edge changes, its
      dependency set grows by the sources of the new edges. */
  lemma DependencySetExtends(g: Graph, g': Graph, v: VertexId, extra: seq<EdgeId>)
    requires Valid(g) && Valid(g') && v < |g.vertices| && v < |g'.vertices|
    requires g.edges <= g'.edges && Out(g', v) == Out(g, v) + extra
    ensures forall i | 0 <= i < |extra| :: extra[i] < |g'.edges|
    ensures DependencySet(g', v) == DependencySet(g, v) + Sources(g', extra)
  {
    SetsHoldEdges(g, v);
    SetsHoldEdges(g', v);
    assert forall i | 0 <= i < |extra| :: extra[i] == Out(g', v)[|Out(g, v)| + i];
    assert forall i | 0 <= i < |Out(g, v)| :: Out(g', v)[i] == Out(g, v)[i];
  }

  /** When `v`'s `indegrees` only grows at its end, and no edge changes, its
      adjacency set grows by the sinks of the new edges. */
  lemma AdjacencySetExtends(g: Graph, g': Graph, v: VertexId, extra: seq<EdgeId>)
    requires Valid(g) && Valid(g') && v < |g.vertices| && v < |g'.vertices|
    requires g.edges <= g'.edges && In(g', v) == In(g, v) + extra
    ensures forall i | 0 <= i < |extra| :: extra[i] < |g'.edges|
    ensures AdjacencySet(g', v) == AdjacencySet(g, v) + Sinks(g', extra)
  {
    SetsHoldEdges(g, v);
    SetsHoldEdges(g', v);
    assert forall i | 0 <= i < |extra| :: extra[i] == In(g', v)[|In(g, v)| + i];
    assert forall i | 0 <= i < |In(g, v)| :: In(g', v)[i] == In(g, v)[i];
  }

  /** After `v.dependsOn(s, a)`, `s` is appended to `v`'s dependencies and `v`
      to `s`'s dependents. */
  lemma DependsOnLinksBothEnds(g: Graph, v: VertexId, s: VertexId, a: EdgeAction)
    requires Valid(g) && v < |g.vertices| && s < |g.vertices|
    ensures DependsOn(g, v, Some(s), Some(a)).Ok?
    ensures var g' := DependsOn(g, v, Some(s), Some(a)).value;
      && DependencySet(g', v) == DependencySet(g, v) + [s]
      && AdjacencySet(g', s) == AdjacencySet(g, s) + [v]
  {
    DependsOnAddsDependency(g, v, s, a);
    DependsOnAddsDependent(g, v, s, a);
  }

  /** After `v.dependsOn(s, a)`, `s` is the last of `v`'s dependencies. */
  lemma DependsOnAddsDependency(g: Graph, v: VertexId, s: VertexId, a: EdgeAction)
    requires Valid(g) && v < |g.vertices| && s < |g.vertices|
    ensures DependsOn(g, v, Some(s), Some(a)).Ok?
    ensures DependencySet(DependsOn(g, v, Some(s), Some(a)).value, v) == DependencySet(g, v) + [s]
  {
    var g' := DependsOn(g, v, Some(s), Some(a)).value;
    var e := |g.edges|;
    DependencySetExtends(g, g', v, [e]);
    assert Sources(g', [e]) == [s];
  }

  /** After `v.dependsOn(s, a)`, `v` is the last of `s`'s dependents. */
  lemma DependsOnAddsDependent(g: Graph, v: VertexId, s: VertexId, a: EdgeAction)
    requires Valid(g) && v < |g.vertices| && s < |g.vertices|
    ensures DependsOn(g, v, Some(s), Some(a)).Ok?
    ensures AdjacencySet(DependsOn(g, v, Some(s), Some(a)).value, s) == AdjacencySet(g, s) + [v]
  {
    var g' := DependsOn(g, v, Some(s), Some(a)).value;
    var e := |g.edges|;
    AdjacencySetExtends(g, g', s, [e]);
    assert Sinks(g', [e]) == [v];
  }

  /** `v.dependsOn(s, a)` changes no other vertex's answer to either query. */
  lemma DependsOnLeavesOthersAlone(g: Graph, v: VertexId, s: VertexId, a: EdgeAction)
    requires Valid(g) && v < |g.vertices| && s < |g.vertices|
    ensures DependsOn(g, v, Some(s), Some(a)).Ok?
    ensures var g' := DependsOn(g, v, Some(s), Some(a)).value;
      && (forall u | 0 <= u < |g.vertices| && u != v :: DependencySet(g', u) == DependencySet(g, u))
      && (forall u | 0 <= u < |g.vertices| && u != s :: AdjacencySet(g', u) == AdjacencySet(g, u))
  {
    var g' := DependsOn(g, v, Some(s), Some(a)).value;
    forall u | 0 <= u < |g.vertices| && u != v
      ensures DependencySet(g', u) == DependencySet(g, u)
    {
      assert Out(g', u) == Out(g, u) + [];
      DependencySetExtends(g, g', u, []);
    }
    forall u | 0 <= u < |g.vertices| && u != s
      ensures AdjacencySet(g', u) == AdjacencySet(g, u)
    {
      assert In(g', u) == In(g, u) + [];
      AdjacencySetExtends(g, g', u, []);
    }
  }

  /** Depending on the same source twice makes two edges; unlinking one
      leaves the other connected. */
  lemma ParallelEdgesAreIndependent(g: Graph, v: VertexId, s: VertexId, a1: EdgeAction, a2: EdgeAction)
    requires Valid(g) && v < |g.vertices| && s < |g.vertices|
    ensures DependsOn(g, v, Some(s), Some(a1)).Ok?
    ensures DependsOn(DependsOn(g, v, Some(s), Some(a1)).value, v, Some(s), Some(a2)).Ok?
    ensures var g2 := DependsOn(DependsOn(g, v, Some(s), Some(a1)).value, v, Some(s), Some(a2)).value;
      && |g2.edges| == |g.edges| + 2
      && Connected(g2, |g.edges|) && Connected(g2, |g.edges| + 1)
      && !Connected(DisconnectEndpoints(g2, |g.edges|), |g.edges|)
      && Connected(DisconnectEndpoints(g2, |g.edges|), |g.edges| + 1)
  {
    var g1 := DependsOn(g, v, Some(s), Some(a1)).value;
    var g2 := DependsOn(g1, v, Some(s), Some(a2)).value;
    var e1 := |g.edges|;
    var e2 := |g.edges| + 1;
    assert g2.edges[e1] == g1.edges[e1] && g1.edges[e1].sink == v;
    assert g2.edges[e2].sink == v;
    assert e1 in Out(g1, v);
    assert Out(g2, v) == Out(g1, v) + [e2];
    DisconnectSparesOthers(g2, e1, e2);
  }

  /** Disconnecting one edge leaves every other edge as connected as it was. */
  lemma DisconnectSparesOthers(g: Graph, e: EdgeId, x: EdgeId)
    requires Valid(g) && e < |g.edges| && x < |g.edges| && x != e
    ensures !Connected(DisconnectEndpoints(g, e), e)
    ensures Connected(DisconnectEndpoints(g, e), x) <==> Connected(g, x)
  {
    var g' := DisconnectEndpoints(g, e);
    assert Out(g', g.edges[x].sink) == Without(Out(g, g.edges[x].sink), {e});
  }

  /** The edges `undependsOn(s)` on `v` removes are exactly the connected
      edges from `s` to `v`. */
  lemma SeveredAreEdgesFromSource(g: Graph, v: VertexId, s: VertexId)
    requires Valid(g) && v < |g.vertices|
    ensures forall x: EdgeId :: x in Severed(g, v, s) <==>
      x < |g.edges| && Connected(g, x) && g.edges[x].source == s && g.edges[x].sink == v
  {
    assert WellFormedAt(g, v);
  }

  /** `undependsOn(s)` on `v` disconnects the edges from `s` to `v` and no
      other edge; `s` is no longer among `v`'s dependencies. */
  lemma UndependsOnRemovesExactly(g: Graph, v: VertexId, s: VertexId)
    requires Valid(g) && v < |g.vertices| && s < |g.vertices|
    ensures UndependsOn(g, v, Some(s)).Ok?
    ensures var g' := UndependsOn(g, v, Some(s)).value;
      && (forall x | 0 <= x < |g.edges| ::
            Connected(g', x) <==> Connected(g, x) && !(g.edges[x].source == s && g.edges[x].sink == v))
      && s !in DependencySet(g', v)
  {
    var g' := UndependsOn(g, v, Some(s)).value;
    SeveredAreEdgesFromSource(g, v, s);
    forall x | 0 <= x < |g.edges|
      ensures Connected(g', x) <==> Connected(g, x) && !(g.edges[x].source == s && g.edges[x].sink == v)
    {
      assert Out(g', g.edges[x].sink) == Without(Out(g, g.edges[x].sink), Severed(g, v, s));
    }
    DependsMeansEdge(g', v, s);
  }

  /** With no edge from `s`, `undependsOn(s)` changes nothing. */
  lemma UndependsOnWithoutMatchIsNoOp(g: Graph, v: VertexId, s: VertexId)
    requires Valid(g) && v < |g.vertices| && s < |g.vertices|
    requires s !in DependencySet(g, v)
    ensures UndependsOn(g, v, Some(s)) == Ok(g)
  {
    SeveredAreEdgesFromSource(g, v, s);
    DependsMeansEdge(g, v, s);
    assert Severed(g, v, s) == {};
  }

  /** The shape of an unlink trace with a recording consumer: for the i-th
      removed edge, the consumer call at position 2i, then its unlinking. */
  lemma {:induction false} NotifyTraceShape(t: nat, m: seq<EdgeId>)
    ensures |UnlinkTrace(Notify(t), m)| == 2 * |m|
    ensures forall i | 0 <= i < |m| ::
      UnlinkTrace(Notify(t), m)[2 * i] == Notified(t, m[i])
      && UnlinkTrace(Notify(t), m)[2 * i + 1] == Unlinked(m[i])
  {
    if m != [] {
      NotifyTraceShape(t, m[1..]);
      var rest := UnlinkTrace(Notify(t), m[1..]);
      assert UnlinkTrace(Notify(t), m) == [Notified(t, m[0]), Unlinked(m[0])] + rest;
      forall i | 1 <= i < |m|
        ensures UnlinkTrace(Notify(t), m)[2 * i] == Notified(t, m[i])
        ensures UnlinkTrace(Notify(t), m)[2 * i + 1] == Unlinked(m[i])
      {
        assert m[1..][i - 1] == m[i];
        assert 2 * i - 2 == 2 * (i - 1);
      }
    }
  }

  /** The no-op consumer leaves only the unlinking of each removed edge. */
  lemma {:induction false} IgnoreTraceShape(m: seq<EdgeId>)
    ensures |UnlinkTrace(Ignore, m)| == |m|
    ensures forall i | 0 <= i < |m| :: UnlinkTrace(Ignore, m)[i] == Unlinked(m[i])
  {
    if m != [] {
      IgnoreTraceShape(m[1..]);
      assert UnlinkTrace(Ignore, m) == [Unlinked(m[0])] + UnlinkTrace(Ignore, m[1..]);
    }
  }

  /** `undependsOn(s, cb)` on `v` hands the consumer each removed edge once,
      in `outdegrees` order, just before unlinking that edge. */
  lemma UndependsOnNotifiesInOrder(g: Graph, v: VertexId, s: VertexId, t: nat)
    requires Valid(g) && v < |g.vertices| && s < |g.vertices|
    ensures UndependsOnWith(g, v, Some(s), Some(Notify(t))).Ok?
    ensures var trace := UndependsOnWith(g, v, Some(s), Some(Notify(t))).value.1;
      var m := EdgesFrom(g.edges, Out(g, v), s);
      && NoDup(m) && IsSubsequence(m, Out(g, v))
      && (forall x :: x in m <==> x in Severed(g, v, s))
      && |trace| == 2 * |m|
      && (forall i | 0 <= i < |m| :: trace[2 * i] == Notified(t, m[i]) && trace[2 * i + 1] == Unlinked(m[i]))
  {
    var m := EdgesFrom(g.edges, Out(g, v), s);
    NotifyTraceShape(t, m);
    assert WellFormedAt(g, v);
    SubsequenceKeepsNoDup(m, Out(g, v));
  }

  /** After `disconnect()`, `v` has no neighbours in either direction, and the
      only edges that lost their connection are the edges touching `v`. */
  lemma DisconnectIsolates(g: Graph, v: VertexId)
    requires Valid(g) && v < |g.vertices|
    ensures var g' := Disconnect(g, v);
      && AdjacencySet(g', v) == [] && DependencySet(g', v) == []
      && (forall x | 0 <= x < |g.edges| ::
            Connected(g', x) <==> Connected(g, x) && g.edges[x].source != v && g.edges[x].sink != v)
  {
    var g' := Disconnect(g, v);
    var gone := Elements(In(g, v) + Out(g, v));
    assert WellFormedAt(g, v);
    forall x | 0 <= x < |g.edges|
      ensures Connected(g', x) <==> Connected(g, x) && g.edges[x].source != v && g.edges[x].sink != v
    {
      assert Balanced(g, x);
      assert Out(g', g.edges[x].sink) == Without(Out(g, g.edges[x].sink), gone);
    }
  }

  /** Disconnecting an isolated vertex changes nothing. */
  lemma DisconnectIdempotent(g: Graph, v: VertexId)
    requires Valid(g) && v < |g.vertices|
    ensures Disconnect(Disconnect(g, v), v) == Disconnect(g, v)
  {
    var g' := Disconnect(g, v);
    var g'' := Disconnect(g', v);
    assert Elements(In(g', v) + Out(g', v)) == {};
    SameSetsSameGraph(g', g'');
  }

  /** Vertices `A`, `B`, `C`, with `A` and `C` both depending on `B`: when `B`
      resolves, both callbacks run once with the context; once `B` is
      disconnected, neither runs. */
  lemma ResolvingNotifiesDependents(cb1: EdgeAction, cb2: EdgeAction, ctx: Context)
    ensures var (g1, a) := NewVertex(EmptyGraph);
      var (g2, b) := NewVertex(g1);
      var (g3, c) := NewVertex(g2);
      var g4 := DependsOn(g3, a, Some(b), Some(cb1)).value;
      var g5 := DependsOn(g4, c, Some(b), Some(cb2)).value;
      && FireResolved(g5, b, ctx) == [Fired(cb1, 0, ctx), Fired(cb2, 1, ctx)]
      && FireResolved(Disconnect(g5, b), b, ctx) == []
  {
    EmptyGraphValid();
    var (g1, a) := NewVertex(EmptyGraph);
    var (g2, b) := NewVertex(g1);
    var (g3, c) := NewVertex(g2);
    var g4 := DependsOn(g3, a, Some(b), Some(cb1)).value;
    var g5 := DependsOn(g4, c, Some(b), Some(cb2)).value;
    assert In(g5, b) == [0, 1];
  }

  /** Adding an edge that is already connected changes nothing. */
  lemma AddEdgeTwiceIsNoOp(g: Graph, v: VertexId, e: EdgeId)
    requires Valid(g) && v < |g.vertices| && e < |g.edges| && g.edges[e].sink == v
    ensures AddEdge(g, v, Some(e)).Ok?
    ensures var g' := AddEdge(g, v, Some(e)).value;
      AddEdge(g', v, Some(e)) == Ok(g')
  {
  }

  /** Right after `v.dependsOn(s, a)`, with `s` not yet a dependency of `v`,
      the only edge from `s` to `v` is the new one. */
  lemma OnlyFreshEdgeSevered(g: Graph, v: VertexId, s: VertexId, a: EdgeAction)
    requires Valid(g) && v < |g.vertices| && s < |g.vertices|
    requires s !in DependencySet(g, v)
    ensures DependsOn(g, v, Some(s), Some(a)).Ok?
    ensures Severed(DependsOn(g, v, Some(s), Some(a)).value, v, s) == {|g.edges|}
  {
    var g1 := DependsOn(g, v, Some(s), Some(a)).value;
    DependsMeansEdge(g, v, s);
    SeveredAreEdgesFromSource(g1, v, s);
    DependsOnKeepsConnections(g, v, s, a);
  }

  /** `dependsOn` connects no edge but the new one and disconnects none. */
  lemma DependsOnKeepsConnections(g: Graph, v: VertexId, s: VertexId, a: EdgeAction)
    requires Valid(g) && v < |g.vertices| && s < |g.vertices|
    ensures DependsOn(g, v, Some(s), Some(a)).Ok?
    ensures forall x | 0 <= x < |g.edges| :: Connected(DependsOn(g, v, Some(s), Some(a)).value, x) <==> Connected(g, x)
  {
    var g1 := DependsOn(g, v, Some(s), Some(a)).value;
    forall x | 0 <= x < |g.edges|
      ensures Connected(g1, x) <==> Connected(g, x)
    {
      assert Balanced(g, x);
    }
  }

  /** When `s` was not yet a dependency of `v`, `v.undependsOn(s)` undoes
      `v.dependsOn(s, a)`: every vertex gets its edge sets and its id back,
      and only the unlinked edge record stays in the arena. */
  lemma UndependsOnUndoesDependsOn(g: Graph, v: VertexId, s: VertexId, a: EdgeAction)
    requires Valid(g) && v < |g.vertices| && s < |g.vertices|
    requires s !in DependencySet(g, v)
    ensures DependsOn(g, v, Some(s), Some(a)).Ok?
    ensures UndependsOn(DependsOn(g, v, Some(s), Some(a)).value, v, Some(s)).Ok?
    ensures var g2 := UndependsOn(DependsOn(g, v, Some(s), Some(a)).value, v, Some(s)).value;
      && g2.edges == g.edges + [Edge(s, v, a)]
      && |g2.vertices| == |g.vertices|
      && (forall u | 0 <= u < |g.vertices| ::
            GetId(g2, u) == GetId(g, u) && Out(g2, u) == Out(g, u) && In(g2, u) == In(g, u))
  {
    var g1 := DependsOn(g, v, Some(s), Some(a)).value;
    var g2 := UndependsOn(g1, v, Some(s)).value;
    OnlyFreshEdgeSevered(g, v, s, a);
    FreshRemovalRestores(g, g1, g2, v, s, |g.edges|);
  }

  /** When `g1` is `g` with the fresh handle `e` appended to `v`'s
      `outdegrees` and to `s`'s `indegrees`, removing `e` everywhere gives back
      the sets of `g`. */
  lemma FreshRemovalRestores(g: Graph, g1: Graph, g2: Graph, v: VertexId, s: VertexId, e: EdgeId)
    requires Valid(g) && e == |g.edges| && v < |g.vertices| && s < |g.vertices|
    requires |g1.vertices| == |g.vertices| && |g2.vertices| == |g.vertices|
    requires Out(g1, v) == Out(g, v) + [e] && In(g1, s) == In(g, s) + [e]
    requires forall u | 0 <= u < |g.vertices| ::
      (u != v ==> Out(g1, u) == Out(g, u)) && (u != s ==> In(g1, u) == In(g, u))
    requires forall u | 0 <= u < |g.vertices| ::
      Out(g2, u) == Without(Out(g1, u), {e}) && In(g2, u) == Without(In(g1, u), {e})
    ensures forall u | 0 <= u < |g.vertices| :: Out(g2, u) == Out(g, u) && In(g2, u) == In(g, u)
  {
    forall u | 0 <= u < |g.vertices|
      ensures Out(g2, u) == Out(g, u) && In(g2, u) == In(g, u)
    {
      SetsHoldEdges(g, u);
      assert e !in Out(g, u) && e !in In(g, u);
      if u == v {
        WithoutLast(Out(g, u), e);
      }
      if u == s {
        WithoutLast(In(g, u), e);
      }
    }
  }
}
