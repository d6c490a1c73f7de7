/**
 The operations of `graphql.util.Vertex`, as pure transitions over the arena.

 Each call names the receiving vertex by its handle `v`. A call that throws
 returns `Err` and leaves the caller with the graph it had.
 */
module Vertices {
  import opened Basics
  import opened LinkedSets
  import opened DependencyGraph

  /** The consumer handed to `undependsOn`: `Ignore` is the built-in no-op
      consumer of the one-argument overload, `Notify` any other consumer,
      whose call is recorded as an event. */
  datatype Consumer = Ignore | Notify(tag: nat)

  /** `getId()`. */
  function GetId(g: Graph, v: VertexId): Option<Ident>
    requires v < |g.vertices|
  {
    g.vertices[v].id
  }

  /** `id(value)`: the protected setter concrete vertices use. */
  function SetId(g: Graph, v: VertexId, id: Option<Ident>): (g': Graph)
    requires Valid(g) && v < |g.vertices|
    ensures Valid(g') && g'.edges == g.edges && |g'.vertices| == |g.vertices|
    ensures GetId(g', v) == id
    ensures forall u | 0 <= u < |g.vertices| && u != v :: GetId(g', u) == GetId(g, u)
    ensures forall u | 0 <= u < |g.vertices| :: Out(g', u) == Out(g, u) && In(g', u) == In(g, u)
  {
    var g' := g.(vertices := g.vertices[v := g.vertices[v].(id := id)]);
    SameSetsKeepValid(g, g');
    g'
  }

  /** `addEdge(edge)`: the edge must be non-null and sink to `v`; it is then
      connected at both of its endpoints. */
  function AddEdge(g: Graph, v: VertexId, edge: Option<EdgeId>): (r: Result<Graph>)
    requires Valid(g) && v < |g.vertices|
    requires edge.Some? ==> edge.value < |g.edges|
    ensures r.Err? <==> edge.None? || g.edges[edge.value].sink != v
    ensures r.Err? ==> r.error == AssertionFailed
    ensures r.Ok? ==> Valid(r.value) && SameShape(g, r.value) && Connected(r.value, edge.value)
    ensures r.Ok? ==> Out(r.value, v) == Insert(Out(g, v), edge.value)
    ensures r.Ok? ==> forall u | 0 <= u < |g.vertices| && u != v :: Out(r.value, u) == Out(g, u)
    ensures r.Ok? ==> forall u | 0 <= u < |g.vertices| ::
      In(r.value, u) == (if u == g.edges[edge.value].source then Insert(In(g, u), edge.value) else In(g, u))
  {
    if edge.None? then Err(AssertionFailed)
    else if g.edges[edge.value].sink != v then Err(AssertionFailed)
    else Ok(ConnectEndpoints(g, edge.value))
  }

  /** `dependsOn(source, edgeAction)`: `v` comes to depend on `source` through
      a fresh edge `source -> v`, appended to `v.outdegrees` and to
      `source.indegrees`. A null argument fails. */
  function DependsOn(g: Graph, v: VertexId, source: Option<VertexId>, action: Option<EdgeAction>): (r: Result<Graph>)
    requires Valid(g) && v < |g.vertices|
    requires source.Some? ==> source.value < |g.vertices|
    ensures r.Err? <==> source.None? || action.None?
    ensures r.Err? ==> r.error == AssertionFailed
    ensures r.Ok? ==> Valid(r.value) && |r.value.vertices| == |g.vertices|
    ensures r.Ok? ==> r.value.edges == g.edges + [Edge(source.value, v, action.value)]
    ensures r.Ok? ==> Connected(r.value, |g.edges|)
    ensures r.Ok? ==> Out(r.value, v) == Out(g, v) + [|g.edges|]
    ensures r.Ok? ==> In(r.value, source.value) == In(g, source.value) + [|g.edges|]
    ensures r.Ok? ==> forall u | 0 <= u < |g.vertices| ::
      GetId(r.value, u) == GetId(g, u)
      && (u != v ==> Out(r.value, u) == Out(g, u))
      && (u != source.value ==> In(r.value, u) == In(g, u))
  {
    if source.None? then Err(AssertionFailed)
    else if action.None? then Err(AssertionFailed)
    else
      var (g1, e) := NewEdge(g, source.value, v, action.value);
      assert WellFormedAt(g, v) && WellFormedAt(g, source.value);
      AddEdge(g1, v, Some(e))
  }

  /** The edges of `snapshot` whose source is `s`, in their order: the stream
      filter of `undependsOn`. */
  function EdgesFrom(edges: seq<Edge>, snapshot: seq<EdgeId>, s: VertexId): (r: seq<EdgeId>)
    ensures forall x :: x in r <==> x in snapshot && x < |edges| && edges[x].source == s
    ensures IsSubsequence(r, snapshot)
  {
    if snapshot == [] then []
    else if snapshot[0] < |edges| && edges[snapshot[0]].source == s then
      [snapshot[0]] + EdgesFrom(edges, snapshot[1..], s)
    else EdgesFrom(edges, snapshot[1..], s)
  }

  /** What a consumer leaves in the trace when it is handed edge `e`. */
  function Notice(cb: Consumer, e: EdgeId): seq<Event> {
    if cb.Notify? then [Notified(cb.tag, e)] else []
  }

  /** The trace of unlinking the edges `m` one after another, each preceded
      by its consumer call. */
  function UnlinkTrace(cb: Consumer, m: seq<EdgeId>): seq<Event> {
    if m == [] then [] else Notice(cb, m[0]) + [Unlinked(m[0])] + UnlinkTrace(cb, m[1..])
  }

  /** Walks a snapshot of `outdegrees`; each edge whose source is `s` is handed
      to the consumer and then disconnected. Disconnecting changes the live
      sets, never the snapshot. */
  function UnlinkEach(g: Graph, snapshot: seq<EdgeId>, s: VertexId, cb: Consumer): (r: (Graph, seq<Event>))
    requires Valid(g) && forall i | 0 <= i < |snapshot| :: snapshot[i] < |g.edges|
    ensures Valid(r.0) && RemovedEverywhere(g, r.0, Elements(EdgesFrom(g.edges, snapshot, s)))
    ensures r.1 == UnlinkTrace(cb, EdgesFrom(g.edges, snapshot, s))
    decreases |snapshot|
  {
    if snapshot == [] then
      RemovingNothing(g);
      (g, [])
    else
      var e := snapshot[0];
      if g.edges[e].source == s then
        var g1 := DisconnectEndpoints(g, e);
        var (g2, rest) := UnlinkEach(g1, snapshot[1..], s, cb);
        var later := Elements(EdgesFrom(g.edges, snapshot[1..], s));
        ElementsCons(EdgesFrom(g.edges, snapshot, s));
        ChainRemovals(g, e, g1, g2, later, Elements(EdgesFrom(g.edges, snapshot, s)));
        (g2, Notice(cb, e) + [Unlinked(e)] + rest)
      else
        UnlinkEach(g, snapshot[1..], s, cb)
  }

  /** `g'` is `g` with the edges `drop` removed from every set, and nothing
      else changed. */
  ghost predicate RemovedEverywhere(g: Graph, g': Graph, drop: set<EdgeId>) {
    && SameShape(g, g')
    && forall u | 0 <= u < |g.vertices| ::
         Out(g', u) == Without(Out(g, u), drop) && In(g', u) == Without(In(g, u), drop)
  }

  /** Disconnecting `e` and then removing `later` from every set is removing
      `all`, that is `e` and `later`, at once. */
  lemma ChainRemovals(g: Graph, e: EdgeId, g1: Graph, g2: Graph, later: set<EdgeId>, all: set<EdgeId>)
    requires Valid(g) && e < |g.edges| && g1 == DisconnectEndpoints(g, e)
    requires RemovedEverywhere(g1, g2, later)
    requires all == {e} + later
    ensures RemovedEverywhere(g, g2, all)
  {
    forall u | 0 <= u < |g.vertices|
      ensures Out(g2, u) == Without(Out(g, u), all)
      ensures In(g2, u) == Without(In(g, u), all)
    {
      WithoutTwice(Out(g, u), {e}, later);
      WithoutTwice(In(g, u), {e}, later);
    }
  }

  /** Removing nothing from every set leaves every set as it was. */
  lemma RemovingNothing(g: Graph)
    ensures RemovedEverywhere(g, g, {})
  {
  }

  /** The connected edges `s -> v`: those `undependsOn(s)` on `v` removes. */
  ghost function Severed(g: Graph, v: VertexId, s: VertexId): set<EdgeId>
    requires Valid(g) && v < |g.vertices|
  {
    Elements(EdgesFrom(g.edges, Out(g, v), s))
  }

  /** `undependsOn(source, whenDisconnecting)`: every edge in `v.outdegrees`
      whose source is `source` is handed to the consumer and then removed from
      both of its endpoint sets; nothing else changes. A null source or a null
      consumer fails before anything happens. */
  function UndependsOnWith(g: Graph, v: VertexId, source: Option<VertexId>, whenDisconnecting: Option<Consumer>)
    : (r: Result<(Graph, seq<Event>)>)
    requires Valid(g) && v < |g.vertices|
    requires source.Some? ==> source.value < |g.vertices|
    ensures r.Err? <==> source.None? || whenDisconnecting.None?
    ensures r.Err? ==> r.error == NullPointer
    ensures r.Ok? ==> Valid(r.value.0) && SameShape(g, r.value.0)
    ensures r.Ok? ==> forall u | 0 <= u < |g.vertices| ::
      && Out(r.value.0, u) == Without(Out(g, u), Severed(g, v, source.value))
      && In(r.value.0, u) == Without(In(g, u), Severed(g, v, source.value))
    ensures r.Ok? ==> r.value.1 == UnlinkTrace(whenDisconnecting.value, EdgesFrom(g.edges, Out(g, v), source.value))
    ensures r.Ok? && Severed(g, v, source.value) == {} ==> r.value.0 == g
  {
    if source.None? then Err(NullPointer)
    else if whenDisconnecting.None? then Err(NullPointer)
    else
      SetsHoldEdges(g, v);
      var r := UnlinkEach(g, Out(g, v), source.value, whenDisconnecting.value);
      NothingSeveredNothingChanges(g, r.0, Severed(g, v, source.value));
      Ok(r)
  }

  /** Removing nothing from any set leaves the graph as it was. */
  lemma NothingSeveredNothingChanges(g: Graph, g': Graph, drop: set<EdgeId>)
    requires SameShape(g, g')
    requires forall u | 0 <= u < |g.vertices| ::
      Out(g', u) == Without(Out(g, u), drop) && In(g', u) == Without(In(g, u), drop)
    ensures drop == {} ==> g' == g
  {
    if drop == {} {
      SameSetsSameGraph(g, g');
    }
  }

  /** `undependsOn(source)`: the same walk with the no-op consumer. */
  function UndependsOn(g: Graph, v: VertexId, source: Option<VertexId>): (r: Result<Graph>)
    requires Valid(g) && v < |g.vertices|
    requires source.Some? ==> source.value < |g.vertices|
    ensures r.Err? <==> source.None?
    ensures r.Err? ==> r.error == NullPointer
    ensures r.Ok? ==> Valid(r.value) && SameShape(g, r.value)
    ensures r.Ok? ==> forall u | 0 <= u < |g.vertices| ::
      && Out(r.value, u) == Without(Out(g, u), Severed(g, v, source.value))
      && In(r.value, u) == Without(In(g, u), Severed(g, v, source.value))
  {
    match UndependsOnWith(g, v, source, Some(Ignore))
    case Ok(result) => Ok(result.0)
    case Err(failure) => Err(failure)
  }

  /** Disconnects every edge of `snapshot`, in order. */
  function UnlinkAll(g: Graph, snapshot: seq<EdgeId>): (g': Graph)
    requires Valid(g) && forall i | 0 <= i < |snapshot| :: snapshot[i] < |g.edges|
    ensures Valid(g') && RemovedEverywhere(g, g', Elements(snapshot))
    decreases |snapshot|
  {
    if snapshot == [] then
      RemovingNothing(g);
      g
    else
      var e := snapshot[0];
      var g1 := DisconnectEndpoints(g, e);
      var g2 := UnlinkAll(g1, snapshot[1..]);
      var later := Elements(snapshot[1..]);
      ElementsCons(snapshot);
      ChainRemovals(g, e, g1, g2, later, Elements(snapshot));
      g2
  }

  /** `disconnect()`: disconnects every edge in a snapshot of `indegrees`
      followed by one of `outdegrees`. */
  function Disconnect(g: Graph, v: VertexId): (g': Graph)
    requires Valid(g) && v < |g.vertices|
    ensures Valid(g') && SameShape(g, g')
    ensures Out(g', v) == [] && In(g', v) == []
    ensures forall u | 0 <= u < |g.vertices| ::
      && Out(g', u) == Without(Out(g, u), Elements(In(g, v) + Out(g, v)))
      && In(g', u) == Without(In(g, u), Elements(In(g, v) + Out(g, v)))
  {
    assert WellFormedAt(g, v);
    SetsHoldEdges(g, v);
    var all := In(g, v) + Out(g, v);
    var g' := UnlinkAll(g, all);
    WithoutEverything(Out(g, v), Elements(all));
    WithoutEverything(In(g, v), Elements(all));
    g'
  }

  /** The default filter of the no-argument queries: it accepts every vertex. */
  function AlwaysTrue(u: VertexId): (r: bool)
    ensures r
  {
    true
  }

  /** The sinks of the edges `es`, in order. */
  function Sinks(g: Graph, es: seq<EdgeId>): (r: seq<VertexId>)
    requires forall i | 0 <= i < |es| :: es[i] < |g.edges|
    ensures |r| == |es| && forall i | 0 <= i < |es| :: r[i] == g.edges[es[i]].sink
  {
    if es == [] then [] else [g.edges[es[0]].sink] + Sinks(g, es[1..])
  }

  /** The sources of the edges `es`, in order. */
  function Sources(g: Graph, es: seq<EdgeId>): (r: seq<VertexId>)
    requires forall i | 0 <= i < |es| :: es[i] < |g.edges|
    ensures |r| == |es| && forall i | 0 <= i < |es| :: r[i] == g.edges[es[i]].source
  {
    if es == [] then [] else [g.edges[es[0]].source] + Sources(g, es[1..])
  }

  /** `adjacencySet(filter)`: the sinks of `v.indegrees` (the vertices that
      depend on `v`) that pass the filter, in edge insertion order. */
  function AdjacencySetWhere(g: Graph, v: VertexId, filter: Option<VertexId -> bool>): (r: Result<seq<VertexId>>)
    requires Valid(g) && v < |g.vertices|
    ensures r.Err? <==> filter.None?
    ensures r.Err? ==> r.error == AssertionFailed
    ensures r.Ok? ==> |r.value| <= |In(g, v)|
    ensures r.Ok? ==> forall u :: u in r.value <==> u in AdjacencySet(g, v) && filter.value(u)
    ensures r.Ok? ==> IsSubsequence(r.value, AdjacencySet(g, v))
    ensures r.Ok? ==> forall u :: multiset(r.value)[u] == (if filter.value(u) then multiset(AdjacencySet(g, v))[u] else 0)
  {
    if filter.None? then Err(AssertionFailed)
    else
      SetsHoldEdges(g, v);
      SelectKeepsOrder(Sinks(g, In(g, v)), filter.value);
      Ok(Select(Sinks(g, In(g, v)), filter.value))
  }

  /** `adjacencySet()`: every sink of `v.indegrees`, one per edge, in order. */
  function AdjacencySet(g: Graph, v: VertexId): (r: seq<VertexId>)
    requires Valid(g) && v < |g.vertices|
    ensures |r| == |In(g, v)|
    ensures forall i | 0 <= i < |r| :: In(g, v)[i] < |g.edges| && r[i] == g.edges[In(g, v)[i]].sink
  {
    SetsHoldEdges(g, v);
    Sinks(g, In(g, v))
  }

  /** `dependencySet(filter)`: the sources of `v.outdegrees` (the vertices `v`
      depends on) that pass the filter, in edge insertion order. */
  function DependencySetWhere(g: Graph, v: VertexId, filter: Option<VertexId -> bool>): (r: Result<seq<VertexId>>)
    requires Valid(g) && v < |g.vertices|
    ensures r.Err? <==> filter.None?
    ensures r.Err? ==> r.error == AssertionFailed
    ensures r.Ok? ==> |r.value| <= |Out(g, v)|
    ensures r.Ok? ==> forall u :: u in r.value <==> u in DependencySet(g, v) && filter.value(u)
    ensures r.Ok? ==> IsSubsequence(r.value, DependencySet(g, v))
    ensures r.Ok? ==> forall u :: multiset(r.value)[u] == (if filter.value(u) then multiset(DependencySet(g, v))[u] else 0)
  {
    if filter.None? then Err(AssertionFailed)
    else
      SetsHoldEdges(g, v);
      SelectKeepsOrder(Sources(g, Out(g, v)), filter.value);
      Ok(Select(Sources(g, Out(g, v)), filter.value))
  }

  /** `dependencySet()`: every source of `v.outdegrees`, one per edge, in order. */
  function DependencySet(g: Graph, v: VertexId): (r: seq<VertexId>)
    requires Valid(g) && v < |g.vertices|
    ensures |r| == |Out(g, v)|
    ensures forall i | 0 <= i < |r| :: Out(g, v)[i] < |g.edges| && r[i] == g.edges[Out(g, v)[i]].source
  {
    SetsHoldEdges(g, v);
    Sources(g, Out(g, v))
  }

  /** `resolve(context)`: the base vertex never resolves. */
  function Resolve(g: Graph, v: VertexId, ctx: Context): (resolved: bool)
    requires v < |g.vertices|
    ensures !resolved
  {
    false
  }

  /** Fires the edges `es`, in order, all with `ctx`. */
  function FireEach(g: Graph, es: seq<EdgeId>, ctx: Context): (r: seq<Event>)
    requires forall i | 0 <= i < |es| :: es[i] < |g.edges|
    ensures |r| == |es|
    ensures forall i | 0 <= i < |es| :: r[i] == Fire(g, es[i], ctx)
  {
    if es == [] then [] else [Fire(g, es[0], ctx)] + FireEach(g, es[1..], ctx)
  }

  /** `fireResolved(context)`: fires every edge of `v.indegrees` (the edges to
      the vertices that depend on `v`) once, in insertion order, with the same
      context. */
  function FireResolved(g: Graph, v: VertexId, ctx: Context): (r: seq<Event>)
    requires Valid(g) && v < |g.vertices|
    ensures |r| == |In(g, v)|
    ensures forall i | 0 <= i < |r| ::
      r[i].Fired? && r[i].edge == In(g, v)[i] && r[i].context == ctx
      && r[i].edge < |g.edges| && r[i].action == g.edges[r[i].edge].action
    ensures forall i, j | 0 <= i < j < |r| :: r[i].edge != r[j].edge
    ensures forall x | 0 <= x < |g.edges| ::
      (exists i | 0 <= i < |r| :: r[i].edge == x) <==> Connected(g, x) && g.edges[x].source == v
  {
    assert WellFormedAt(g, v);
    SetsHoldEdges(g, v);
    var r := FireEach(g, In(g, v), ctx);
    forall x | 0 <= x < |g.edges|
      ensures (exists i | 0 <= i < |r| :: r[i].edge == x) <==> Connected(g, x) && g.edges[x].source == v
    {
      assert Balanced(g, x);
      if Connected(g, x) && g.edges[x].source == v {
        var i :| 0 <= i < |In(g, v)| && In(g, v)[i] == x;
        assert r[i].edge == x;
      }
    }
    r
  }
}
