/**
 The arena behind the dependency graph: vertices and edges live in two
 sequences and refer to each other by index.

 An edge `s -> t` (source `s`, the dependency; sink `t`, the dependent) is
 registered in `t.outdegrees` and in `s.indegrees`. This is the reading
 `Vertex` gives the two sets: `dependencySet` maps `outdegrees` to sources and
 `adjacencySet` maps `indegrees` to sinks.

 `Edge` itself is not part of this model; its connect, disconnect and fire
 operations are given here the contract `Vertex` relies on.
 */
module DependencyGraph {
  import opened Basics
  import opened LinkedSets

  /** Handles into the arena. Edges are only ever appended, so a handle is
      never reused: a graph is rebuilt with fresh vertices and edges. */
  type VertexId = nat
  type EdgeId = nat

  /** The opaque object a vertex is identified by (`Vertex.id`). */
  datatype Ident = Ident(key: string)

  /** The callback an edge carries, as an opaque tag. */
  datatype EdgeAction = EdgeAction(tag: nat)

  /** The caller's `DependencyGraphContext`, passed through untouched. */
  datatype Context = Context(tag: nat)

  /** What the graph observably does to its callbacks, in order. */
  datatype Event =
    | Fired(action: EdgeAction, edge: EdgeId, context: Context)  // the edge's action ran
    | Notified(consumer: nat, edge: EdgeId)   // an `undependsOn` consumer saw the edge
    | Unlinked(edge: EdgeId)                  // the edge left both endpoint sets

  /** An edge's endpoints and action are fixed when it is created. */
  datatype Edge = Edge(source: VertexId, sink: VertexId, action: EdgeAction)

  /** A vertex's identity and its two insertion-ordered edge sets. */
  datatype Vertex = Vertex(id: Option<Ident>, outdegrees: seq<EdgeId>, indegrees: seq<EdgeId>)

  datatype Graph = Graph(vertices: seq<Vertex>, edges: seq<Edge>)

  const EmptyGraph: Graph := Graph([], [])

  function Out(g: Graph, v: VertexId): seq<EdgeId>
    requires v < |g.vertices|
  {
    g.vertices[v].outdegrees
  }

  function In(g: Graph, v: VertexId): seq<EdgeId>
    requires v < |g.vertices|
  {
    g.vertices[v].indegrees
  }

  /** Both endpoints of every edge are vertices of the graph. */
  ghost predicate EndpointsExist(g: Graph) {
    forall e | 0 <= e < |g.edges| :: g.edges[e].source < |g.vertices| && g.edges[e].sink < |g.vertices|
  }

  /** The sets of `v` hold no duplicate, and hold only edges that end at `v`
      on the side the set stands for. */
  ghost predicate WellFormedAt(g: Graph, v: VertexId)
    requires v < |g.vertices|
  {
    && NoDup(Out(g, v))
    && NoDup(In(g, v))
    && (forall x | x in Out(g, v) :: x < |g.edges| && g.edges[x].sink == v)
    && (forall x | x in In(g, v) :: x < |g.edges| && g.edges[x].source == v)
  }

  /** Edge `e` is registered at its sink. */
  ghost predicate Connected(g: Graph, e: EdgeId)
    requires e < |g.edges| && EndpointsExist(g)
  {
    e in Out(g, g.edges[e].sink)
  }

  /** Edge `e` is registered at its sink exactly when it is registered at its
      source: it is in both of its endpoint sets or in neither. */
  ghost predicate Balanced(g: Graph, e: EdgeId)
    requires e < |g.edges| && EndpointsExist(g)
  {
    (e in Out(g, g.edges[e].sink)) == (e in In(g, g.edges[e].source))
  }

  /** The invariant every operation keeps. */
  ghost predicate Valid(g: Graph) {
    && EndpointsExist(g)
    && (forall v | 0 <= v < |g.vertices| :: WellFormedAt(g, v))
    && (forall e | 0 <= e < |g.edges| :: Balanced(g, e))
  }

  /** Every vertex keeps its identity, and the edge arena is untouched. */
  ghost predicate SameShape(g: Graph, g': Graph) {
    && g'.edges == g.edges
    && |g'.vertices| == |g.vertices|
    && (forall v | 0 <= v < |g.vertices| :: g'.vertices[v].id == g.vertices[v].id)
  }

  function SetOut(g: Graph, v: VertexId, s: seq<EdgeId>): Graph
    requires v < |g.vertices|
  {
    g.(vertices := g.vertices[v := g.vertices[v].(outdegrees := s)])
  }

  function SetIn(g: Graph, v: VertexId, s: seq<EdgeId>): Graph
    requires v < |g.vertices|
  {
    g.(vertices := g.vertices[v := g.vertices[v].(indegrees := s)])
  }

  /** A concrete vertex's constructor: a fresh vertex with no id and no edges. */
  function NewVertex(g: Graph): (r: (Graph, VertexId))
    requires Valid(g)
    ensures Valid(r.0)
    ensures r.1 == |g.vertices| && |r.0.vertices| == |g.vertices| + 1
    ensures r.0.edges == g.edges
    ensures r.0.vertices[r.1] == Vertex(None, [], [])
    ensures forall v | 0 <= v < |g.vertices| :: r.0.vertices[v] == g.vertices[v]
  {
    var g' := g.(vertices := g.vertices + [Vertex(None, [], [])]);
    GrowthKeepsValid(g, g');
    (g', |g.vertices|)
  }

  /** `new Edge(source, sink, action)`: a fresh edge, not yet in any set. */
  function NewEdge(g: Graph, source: VertexId, sink: VertexId, action: EdgeAction): (r: (Graph, EdgeId))
    requires Valid(g) && source < |g.vertices| && sink < |g.vertices|
    ensures Valid(r.0)
    ensures r.1 == |g.edges| && r.0.edges == g.edges + [Edge(source, sink, action)]
    ensures r.0.vertices == g.vertices
    ensures !Connected(r.0, r.1)
  {
    var g' := g.(edges := g.edges + [Edge(source, sink, action)]);
    GrowthKeepsValid(g, g');
    assert WellFormedAt(g, sink);
    (g', |g.edges|)
  }

  /** `Edge.connectEndpoints`: registers `e` at its sink's `outdegrees` and its
      source's `indegrees`; calling it on a connected edge changes nothing. */
  function ConnectEndpoints(g: Graph, e: EdgeId): (g': Graph)
    requires Valid(g) && e < |g.edges|
    ensures Valid(g') && SameShape(g, g')
    ensures Connected(g', e)
    ensures forall u | 0 <= u < |g.vertices| ::
      Out(g', u) == (if u == g.edges[e].sink then Insert(Out(g, u), e) else Out(g, u))
    ensures forall u | 0 <= u < |g.vertices| ::
      In(g', u) == (if u == g.edges[e].source then Insert(In(g, u), e) else In(g, u))
    ensures Connected(g, e) ==> g' == g
  {
    var ed := g.edges[e];
    var g1 := SetOut(g, ed.sink, Insert(Out(g, ed.sink), e));
    var g' := SetIn(g1, ed.source, Insert(In(g1, ed.source), e));
    ConnectKeepsValid(g, e, g1, g');
    g'
  }

  /** `Edge.disconnectEndpoints`: removes `e` from both endpoint sets; on an
      edge that is not connected it changes nothing. */
  function DisconnectEndpoints(g: Graph, e: EdgeId): (g': Graph)
    requires Valid(g) && e < |g.edges|
    ensures Valid(g') && SameShape(g, g')
    ensures !Connected(g', e)
    ensures forall u | 0 <= u < |g.vertices| ::
      Out(g', u) == Without(Out(g, u), {e}) && In(g', u) == Without(In(g, u), {e})
    ensures !Connected(g, e) ==> g' == g
  {
    var ed := g.edges[e];
    var g1 := SetOut(g, ed.sink, Without(Out(g, ed.sink), {e}));
    var g' := SetIn(g1, ed.source, Without(In(g1, ed.source), {e}));
    DisconnectKeepsValid(g, e, g1, g');
    g'
  }

  /** `Edge.fire(context)`: runs the edge's action with the context and the edge. */
  function Fire(g: Graph, e: EdgeId, ctx: Context): (ev: Event)
    requires e < |g.edges|
    ensures ev.Fired? && ev.edge == e && ev.context == ctx
    ensures ev.action == g.edges[e].action
  {
    Fired(g.edges[e].action, e, ctx)
  }

  /** Appending isolated vertices, or edges between existing vertices, keeps
      the invariant: no set can hold an edge that did not exist before. */
  lemma GrowthKeepsValid(g: Graph, g': Graph)
    requires Valid(g) && EndpointsExist(g')
    requires g.vertices <= g'.vertices && g.edges <= g'.edges
    requires forall v | |g.vertices| <= v < |g'.vertices| :: Out(g', v) == [] && In(g', v) == []
    ensures Valid(g')
  {
    forall v | 0 <= v < |g'.vertices|
      ensures WellFormedAt(g', v)
    {
      if v < |g.vertices| {
        assert g'.vertices[v] == g.vertices[v];
        assert WellFormedAt(g, v);
        forall x | x in Out(g', v) ensures x < |g'.edges| && g'.edges[x].sink == v {
          assert g'.edges[x] == g.edges[x];
        }
        forall x | x in In(g', v) ensures x < |g'.edges| && g'.edges[x].source == v {
          assert g'.edges[x] == g.edges[x];
        }
      }
    }
    forall e | 0 <= e < |g'.edges|
      ensures Balanced(g', e)
    {
      var ed := g'.edges[e];
      if e < |g.edges| {
        assert ed == g.edges[e];
        assert Balanced(g, e);
        assert g'.vertices[ed.sink] == g.vertices[ed.sink];
        assert g'.vertices[ed.source] == g.vertices[ed.source];
      } else {
        if ed.sink < |g.vertices| {
          assert WellFormedAt(g, ed.sink);
          assert g'.vertices[ed.sink] == g.vertices[ed.sink];
        }
        if ed.source < |g.vertices| {
          assert WellFormedAt(g, ed.source);
          assert g'.vertices[ed.source] == g.vertices[ed.source];
        }
      }
    }
  }

  lemma ConnectKeepsValid(g: Graph, e: EdgeId, g1: Graph, g': Graph)
    requires Valid(g) && e < |g.edges|
    requires g1 == SetOut(g, g.edges[e].sink, Insert(Out(g, g.edges[e].sink), e))
    requires g' == SetIn(g1, g.edges[e].source, Insert(In(g1, g.edges[e].source), e))
    ensures Valid(g') && SameShape(g, g') && Connected(g', e)
    ensures forall u | 0 <= u < |g.vertices| ::
      Out(g', u) == (if u == g.edges[e].sink then Insert(Out(g, u), e) else Out(g, u))
    ensures forall u | 0 <= u < |g.vertices| ::
      In(g', u) == (if u == g.edges[e].source then Insert(In(g, u), e) else In(g, u))
    ensures Connected(g, e) ==> g' == g
  {
    var ed := g.edges[e];
    forall u | 0 <= u < |g'.vertices|
      ensures WellFormedAt(g', u)
    {
      assert WellFormedAt(g, u);
    }
    forall x | 0 <= x < |g'.edges|
      ensures Balanced(g', x)
    {
      assert Balanced(g, x);
    }
    if Connected(g, e) {
      assert Balanced(g, e);
      assert g.vertices[ed.sink].(outdegrees := Out(g, ed.sink)) == g.vertices[ed.sink];
      assert g1 == g;
      assert g.vertices[ed.source].(indegrees := In(g, ed.source)) == g.vertices[ed.source];
    }
  }

  lemma DisconnectKeepsValid(g: Graph, e: EdgeId, g1: Graph, g': Graph)
    requires Valid(g) && e < |g.edges|
    requires g1 == SetOut(g, g.edges[e].sink, Without(Out(g, g.edges[e].sink), {e}))
    requires g' == SetIn(g1, g.edges[e].source, Without(In(g1, g.edges[e].source), {e}))
    ensures Valid(g') && SameShape(g, g') && !Connected(g', e)
    ensures forall u | 0 <= u < |g.vertices| ::
      Out(g', u) == Without(Out(g, u), {e}) && In(g', u) == Without(In(g, u), {e})
    ensures !Connected(g, e) ==> g' == g
  {
    DisconnectSets(g, e, g1, g');
    RemovalKeepsValid(g, e, g');
    if !Connected(g, e) {
      UnconnectedRemovalChangesNothing(g, e, g');
    }
  }

  /** Removing `e` from its sink's `outdegrees` and its source's `indegrees`
      removes it from every set: no other set holds it. */
  lemma DisconnectSets(g: Graph, e: EdgeId, g1: Graph, g': Graph)
    requires Valid(g) && e < |g.edges|
    requires g1 == SetOut(g, g.edges[e].sink, Without(Out(g, g.edges[e].sink), {e}))
    requires g' == SetIn(g1, g.edges[e].source, Without(In(g1, g.edges[e].source), {e}))
    ensures SameShape(g, g')
    ensures forall u | 0 <= u < |g.vertices| ::
      Out(g', u) == Without(Out(g, u), {e}) && In(g', u) == Without(In(g, u), {e})
  {
    forall u | 0 <= u < |g.vertices|
      ensures Out(g', u) == Without(Out(g, u), {e}) && In(g', u) == Without(In(g, u), {e})
    {
      assert WellFormedAt(g, u);
    }
  }

  /** Removing an edge that is in no set changes nothing. */
  lemma UnconnectedRemovalChangesNothing(g: Graph, e: EdgeId, g': Graph)
    requires Valid(g) && e < |g.edges| && !Connected(g, e) && SameShape(g, g')
    requires forall u | 0 <= u < |g.vertices| ::
      Out(g', u) == Without(Out(g, u), {e}) && In(g', u) == Without(In(g, u), {e})
    ensures g' == g
  {
    assert Balanced(g, e);
    forall u | 0 <= u < |g.vertices|
      ensures Out(g', u) == Out(g, u) && In(g', u) == In(g, u)
    {
      assert WellFormedAt(g, u);
    }
    SameSetsSameGraph(g, g');
  }

  lemma RemovalKeepsValid(g: Graph, e: EdgeId, g': Graph)
    requires Valid(g) && e < |g.edges| && SameShape(g, g')
    requires forall u | 0 <= u < |g.vertices| ::
      Out(g', u) == Without(Out(g, u), {e}) && In(g', u) == Without(In(g, u), {e})
    ensures Valid(g') && !Connected(g', e)
  {
    forall u | 0 <= u < |g'.vertices|
      ensures WellFormedAt(g', u)
    {
      assert WellFormedAt(g, u);
    }
    forall x | 0 <= x < |g'.edges|
      ensures Balanced(g', x)
    {
      assert Balanced(g, x);
    }
  }

  /** A change that leaves every edge set as it was keeps the invariant. */
  lemma SameSetsKeepValid(g: Graph, g': Graph)
    requires Valid(g) && g'.edges == g.edges && |g'.vertices| == |g.vertices|
    requires forall u | 0 <= u < |g.vertices| :: Out(g', u) == Out(g, u) && In(g', u) == In(g, u)
    ensures Valid(g')
  {
    forall u | 0 <= u < |g'.vertices|
      ensures WellFormedAt(g', u)
    {
      assert WellFormedAt(g, u);
    }
    forall x | 0 <= x < |g'.edges|
      ensures Balanced(g', x)
    {
      assert Balanced(g, x);
    }
  }

  /** Two graphs with the same shape and the same edge sets are equal. */
  lemma SameSetsSameGraph(g: Graph, g': Graph)
    requires SameShape(g, g')
    requires forall u | 0 <= u < |g.vertices| :: Out(g', u) == Out(g, u) && In(g', u) == In(g, u)
    ensures g' == g
  {
    forall u | 0 <= u < |g.vertices|
      ensures g'.vertices[u] == g.vertices[u]
    {
      assert Out(g', u) == Out(g, u) && In(g', u) == In(g, u);
    }
  }

  /** The edge sets of a vertex hold handles of existing edges. */
  lemma SetsHoldEdges(g: Graph, v: VertexId)
    requires Valid(g) && v < |g.vertices|
    ensures forall i | 0 <= i < |Out(g, v)| :: Out(g, v)[i] < |g.edges|
    ensures forall i | 0 <= i < |In(g, v)| :: In(g, v)[i] < |g.edges|
  {
    assert WellFormedAt(g, v);
    forall i | 0 <= i < |Out(g, v)| ensures Out(g, v)[i] < |g.edges| {
      assert Out(g, v)[i] in Out(g, v);
    }
    forall i | 0 <= i < |In(g, v)| ensures In(g, v)[i] < |g.edges| {
      assert In(g, v)[i] in In(g, v);
    }
  }
}
