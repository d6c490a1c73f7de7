# graphql-java dependency-graph vertex and two AST records, in Dafny

This project models two parts of graphql-java.

The main part is the dependency-graph vertex `graphql.util.Vertex`. A vertex holds an id and two insertion-ordered, duplicate-free edge sets, `outdegrees` and `indegrees`. It offers:

- `addEdge` and `dependsOn`, which wire an edge in;
- `undependsOn` (with and without a per-edge consumer) and `disconnect`, which unwire edges;
- `adjacencySet` and `dependencySet`, the neighbour queries, each with and without a filter;
- `resolve` and `fireResolved`, which propagate a resolution along edges.

The second part is two immutable syntax-tree records, `graphql.language.EnumValueDefinition` and `graphql.language.OperationTypeDefinition`, with their builders, `transform`, `withNewChildren`, name-only `isEqualTo` and `deepCopy`.

The graph is an arena. `Graph(vertices, edges)` holds every vertex and every edge, and both are addressed by their index. A vertex's edge sets are sequences of edge handles. Edges are only ever appended, so a handle is never reused. Every graph operation is a pure function from graph to graph. Under Java's identity semantics the mutation is visible to every holder of the vertex. Here the new graph plays that part.

The invariant `DependencyGraph.Valid` has three parts:

- every edge's endpoints exist;
- each vertex's sets hold no duplicates, and hold only edges that end at that vertex;
- every edge is in both of its endpoint sets or in neither.

Every operation preserves it.

A Java reference the model lets be null (an id, an edge, a source, an action, a consumer or a filter; a node's name, description, source location, directive list or type name; a child) is an `Option`, with `None` for null. A failing `assertNotNull` or `assertTrue` is `Err(AssertionFailed)`. A `NullPointerException` from `Objects.requireNonNull` or from `Stream.peek(null)` is `Err(NullPointer)`. An error carries no graph: the caller keeps the one it had, because no set changed before the throw.

Edge callbacks (`BiConsumer` actions) and `whenDisconnecting` consumers are opaque tags. Their effect is recorded as a trace of events:

- `Fired(action, edge, context)`;
- `Notified(consumer, edge)`;
- `Unlinked(edge)`.

Directionality follows the code. `dependencySet` maps `outdegrees` through `getSource`, and `undependsOn` filters `outdegrees` by source. `adjacencySet` maps `indegrees` through `getSink`. So an edge from `s` to `t` lives in `t`'s `outdegrees` and in `s`'s `indegrees`. The set names suggest the reverse: an edge held in its sink's incoming set and its source's outgoing set. Where the two disagree, the model follows the code. With the code's convention, `fireResolved` on `v` fires the edges whose source is `v`, so it notifies the vertices that depend on `v` (`VertexProperties.ResolvingNotifiesDependents`).

The AST records are plain datatypes. `Ast.Node` tags a node with its class. `NodeChildrenContainer` is a map from role name to a list of nodes. A builder is a record whose setters are record updates. `transform(consumer)` takes the consumer as a function from builder to builder.

Files:

- `basics.dfy` holds `Option`, `Result` and `Failure`.
- `linked_sets.dfy` holds `LinkedHashSet` add and remove on sequences, and stream filtering.
- `dependency_graph.dfy` holds the arena, the invariant, and the abstract edge:
  - allocation;
  - `connectEndpoints` and `disconnectEndpoints`;
  - `fire`.
- `vertex.dfy` holds the `Vertex` operations.
- `vertex_properties.dfy` holds the lemmas that relate several calls.
- `ast.dfy` holds the node values and the child container.
- `enum_value_definition.dfy` and `operation_type_definition.dfy` hold the two records.

## Model

| member | source | states |
|---|---|---|
| LinkedSets.Insert | src/main/java/graphql/util/Vertex.java:142-143 | adding to a `LinkedHashSet` keeps every old element in place, adds the new one at the end unless present (then nothing changes), and keeps the set duplicate-free |
| LinkedSets.Without | src/main/java/graphql/util/Vertex.java:142-143 | removing elements keeps exactly the others, never lengthens the set, keeps it duplicate-free, and changes nothing when none of them is present |
| LinkedSets.WithoutKeepsOrder | src/main/java/graphql/util/Vertex.java:142-143 | removal keeps the surviving elements in their insertion order |
| LinkedSets.Select | src/main/java/graphql/util/Vertex.java:93-97 | a stream filter keeps exactly the passing elements, each as many times as it occurs, drops every other element, never returns more than it was given, and keeps everything when all pass |
| LinkedSets.SelectKeepsOrder | src/main/java/graphql/util/Vertex.java:93-97 | a stream filter keeps the passing elements in their encounter order |
| LinkedSets.WithoutTwice | src/main/java/graphql/util/Vertex.java:63-67 | removing edges one batch after another is removing them all at once, which is why a per-edge removal loop over a copy equals one bulk removal |
| LinkedSets.WithoutLast | src/main/java/graphql/util/Vertex.java:142-143 | removing the element just added to a set, which was not there before, restores the set |
| DependencyGraph.NewVertex | src/main/java/graphql/util/Vertex.java:141-143 | a new vertex has a null id and two empty edge sets, takes the next handle, and leaves the graph valid and every other vertex as it was |
| DependencyGraph.NewEdge | src/main/java/graphql/util/Vertex.java:50 | the edge `dependsOn` creates is a fresh handle with the given source, sink and action, not yet connected, with no vertex touched |
| DependencyGraph.ConnectEndpoints | src/main/java/graphql/util/Vertex.java:42 | connecting an edge adds it to its sink's `outdegrees` and its source's `indegrees` and to no other set, keeps the graph valid, and does nothing to an edge already connected |
| DependencyGraph.DisconnectEndpoints | src/main/java/graphql/util/Vertex.java:67 | disconnecting an edge removes it from every set and changes nothing else, keeps the graph valid, and does nothing to an edge not connected |
| DependencyGraph.Fire | src/main/java/graphql/util/Vertex.java:119 | firing an edge runs that edge's own action with the given context |
| DependencyGraph.ConnectKeepsValid | src/main/java/graphql/util/Vertex.java:38-44 | adding an edge to the two endpoint sets keeps the both-or-neither invariant and changes no other set |
| DependencyGraph.DisconnectKeepsValid | src/main/java/graphql/util/Vertex.java:72-80 | removing an edge from the two endpoint sets keeps the both-or-neither invariant and leaves it disconnected |
| Vertices.SetId | src/main/java/graphql/util/Vertex.java:29-36 | `id(x)` makes `getId()` return `x`, and no other vertex's id and no edge set changes |
| VertexProperties.GetIdReadsLastSet | src/main/java/graphql/util/Vertex.java:29-36 | `getId()` returns what `id(x)` last set: null on a new vertex, the new id on the vertex set and the old one on every other, and unchanged by `dependsOn`, `undependsOn` and `disconnect` |
| Vertices.AddEdge | src/main/java/graphql/util/Vertex.java:38-44 | `addEdge` fails with an assertion exactly when the edge is null or does not sink to this vertex; otherwise the edge is connected, this vertex's `outdegrees` gains it and only its source's `indegrees` gains it |
| Vertices.DependsOn | src/main/java/graphql/util/Vertex.java:46-51 | `dependsOn` fails with an assertion exactly when the source or the action is null; otherwise one new connected edge from the source to this vertex is appended to this vertex's `outdegrees` and to the source's `indegrees`, and nothing else changes |
| Vertices.EdgesFrom | src/main/java/graphql/util/Vertex.java:63-65 | the edges of a snapshot whose source is the given vertex, in snapshot order |
| Vertices.UnlinkEach | src/main/java/graphql/util/Vertex.java:63-67 | walking a copy of `outdegrees`, each matching edge is handed to the consumer and then unlinked; the result is the bulk removal of the matching edges, and the trace is consumer-then-unlink for each in order |
| Vertices.UndependsOnWith | src/main/java/graphql/util/Vertex.java:60-70 | `undependsOn(source, consumer)` throws a null-pointer exception exactly when the source or the consumer is null; otherwise it removes the connected edges from the source to this vertex from every set, records the consumer calls, and changes nothing when no edge matches |
| Vertices.UndependsOn | src/main/java/graphql/util/Vertex.java:53-58 | the one-argument `undependsOn` uses the no-op consumer: fails only for a null source, otherwise removes the same edges |
| Vertices.UnlinkAll | src/main/java/graphql/util/Vertex.java:73-77 | disconnecting each edge of a snapshot removes all of them from every set |
| Vertices.Disconnect | src/main/java/graphql/util/Vertex.java:72-80 | `disconnect` empties both of this vertex's sets and removes exactly its edges from every other vertex's sets |
| Vertices.Sinks | src/main/java/graphql/util/Vertex.java:95 | `map(Edge::getSink)` gives each edge's sink, position by position |
| Vertices.Sources | src/main/java/graphql/util/Vertex.java:109 | `map(Edge::getSource)` gives each edge's source, position by position |
| Vertices.AlwaysTrue | src/main/java/graphql/util/Vertex.java:82-84 | the default filter accepts every vertex |
| Vertices.AdjacencySetWhere | src/main/java/graphql/util/Vertex.java:90-98 | a null filter fails with an assertion; otherwise the result lists exactly the adjacent vertices passing the filter, each as often as it is in the unfiltered adjacency set (once per parallel edge), in `indegrees` order |
| Vertices.AdjacencySet | src/main/java/graphql/util/Vertex.java:86-88 | the unfiltered adjacency set lists the sink of every edge in `indegrees`, in order |
| Vertices.DependencySetWhere | src/main/java/graphql/util/Vertex.java:104-112 | a null filter fails with an assertion; otherwise the result lists exactly the dependencies passing the filter, each as often as it is in the unfiltered dependency set (once per parallel edge), in `outdegrees` order |
| Vertices.DependencySet | src/main/java/graphql/util/Vertex.java:100-102 | the unfiltered dependency set lists the source of every edge in `outdegrees`, in order |
| Vertices.Resolve | src/main/java/graphql/util/Vertex.java:114-116 | the base `resolve` reports not resolved |
| Vertices.FireEach | src/main/java/graphql/util/Vertex.java:119 | `forEach(edge -> edge.fire(ctx))` fires each edge once, in order, with the same context |
| Vertices.FireResolved | src/main/java/graphql/util/Vertex.java:118-120 | `fireResolved` fires each edge of `indegrees` exactly once, in order, with the shared context and the edge's own action; the edges fired are exactly the connected edges whose source is this vertex |
| VertexProperties.EmptyGraphValid | src/main/java/graphql/util/Vertex.java:141-143 | a graph with no vertices and no edges satisfies the invariant |
| VertexProperties.AdjacentMeansEdge | src/main/java/graphql/util/Vertex.java:90-98 | `u` is in `v`'s adjacency set exactly when a connected edge runs from `v` to `u` |
| VertexProperties.DependsMeansEdge | src/main/java/graphql/util/Vertex.java:104-112 | `u` is in `v`'s dependency set exactly when a connected edge runs from `u` to `v` |
| VertexProperties.AdjacencyMirrorsDependency | src/main/java/graphql/util/Vertex.java:86-112 | `u` is adjacent to `v` exactly when `v` is a dependency of `u` |
| VertexProperties.DefaultFilterKeepsAll | src/main/java/graphql/util/Vertex.java:82-112 | with the always-true filter, both filtered queries return every neighbour |
| VertexProperties.DependsOnLinksBothEnds | src/main/java/graphql/util/Vertex.java:46-51 | after `v.dependsOn(s, a)`, `s` is appended to `v`'s dependency set and `v` to `s`'s adjacency set |
| VertexProperties.DependsOnAddsDependency | src/main/java/graphql/util/Vertex.java:46-51 | after `v.dependsOn(s, a)`, `s` is the last entry of `v`'s dependency set and the earlier entries are unchanged |
| VertexProperties.DependsOnAddsDependent | src/main/java/graphql/util/Vertex.java:46-51 | after `v.dependsOn(s, a)`, `v` is the last entry of `s`'s adjacency set and the earlier entries are unchanged |
| VertexProperties.DependsOnLeavesOthersAlone | src/main/java/graphql/util/Vertex.java:46-51 | `v.dependsOn(s, a)` changes no other vertex's answer to either query |
| VertexProperties.ParallelEdgesAreIndependent | src/main/java/graphql/util/Vertex.java:46-51 | depending on the same source twice makes two distinct connected edges; unlinking one leaves the other connected |
| VertexProperties.DisconnectSparesOthers | src/main/java/graphql/util/Vertex.java:67 | disconnecting one edge leaves every other edge exactly as connected as it was |
| VertexProperties.SeveredAreEdgesFromSource | src/main/java/graphql/util/Vertex.java:63-65 | the edges `undependsOn(s)` removes are exactly the connected edges from `s` to this vertex |
| VertexProperties.UndependsOnRemovesExactly | src/main/java/graphql/util/Vertex.java:60-70 | after `v.undependsOn(s)`, an edge is connected exactly when it was before and does not run from `s` to `v`; `s` is no longer a dependency of `v` |
| VertexProperties.UndependsOnWithoutMatchIsNoOp | src/main/java/graphql/util/Vertex.java:60-70 | when `s` is not a dependency, `undependsOn(s)` changes nothing |
| VertexProperties.UndependsOnNotifiesInOrder | src/main/java/graphql/util/Vertex.java:63-67 | the consumer is called exactly once per removed edge, in `outdegrees` order, each call just before that edge is unlinked |
| VertexProperties.NotifyTraceShape | src/main/java/graphql/util/Vertex.java:66-67 | with a consumer, the trace alternates: the consumer call for an edge, then its unlinking |
| VertexProperties.IgnoreTraceShape | src/main/java/graphql/util/Vertex.java:53-58 | with the built-in empty consumer, the trace is only the unlinking of each edge |
| VertexProperties.DisconnectIsolates | src/main/java/graphql/util/Vertex.java:72-80 | after `disconnect`, both queries on the vertex are empty and the edges that lost their connection are exactly the edges touching it |
| VertexProperties.DisconnectIdempotent | src/main/java/graphql/util/Vertex.java:72-80 | disconnecting twice is disconnecting once |
| VertexProperties.ResolvingNotifiesDependents | src/main/java/graphql/util/Vertex.java:118-120 | with `A` and `C` depending on `B`, resolving `B` fires both callbacks once with the context, and after `B.disconnect()` none |
| VertexProperties.AddEdgeTwiceIsNoOp | src/main/java/graphql/util/Vertex.java:38-44 | adding an edge that is already connected changes nothing |
| VertexProperties.OnlyFreshEdgeSevered | src/main/java/graphql/util/Vertex.java:46-70 | right after the first `v.dependsOn(s, a)`, the only edge from `s` to `v` is the new one |
| VertexProperties.DependsOnKeepsConnections | src/main/java/graphql/util/Vertex.java:46-51 | `dependsOn` leaves every existing edge connected exactly when it was connected before |
| VertexProperties.FreshRemovalRestores | src/main/java/graphql/util/Vertex.java:46-70 | when the only change is a fresh edge appended to one vertex's `outdegrees` and another's `indegrees`, removing that edge everywhere restores every set |
| VertexProperties.UndependsOnUndoesDependsOn | src/main/java/graphql/util/Vertex.java:46-70 | `undependsOn(s)` undoes a first `dependsOn(s, a)`: every vertex gets its id and both edge sets back |
| EnumValueDefinitions.Create | src/main/java/graphql/language/EnumValueDefinition.java:23-34 | a null directive list is stored as an empty list; a given list and every other argument are kept |
| EnumValueDefinitions.OfName | src/main/java/graphql/language/EnumValueDefinition.java:41-43 | the name-only constructor has no directives, description, location or comments, and empty ignored characters |
| EnumValueDefinitions.OfNameAndDirectives | src/main/java/graphql/language/EnumValueDefinition.java:51-53 | the two-argument constructor keeps the name and the directives (null as empty) and sets nothing else |
| EnumValueDefinitions.ConstructorsAreBuilder | src/main/java/graphql/language/EnumValueDefinition.java:41-53 | the one- and two-argument constructors equal the nodes a fresh builder given the same name (and directives, null as empty) builds |
| EnumValueDefinitions.GetDirectives | src/main/java/graphql/language/EnumValueDefinition.java:64-67 | `getDirectives()` returns the stored directives element for element |
| EnumValueDefinitions.GetDirectivesReturnsGiven | src/main/java/graphql/language/EnumValueDefinition.java:41-67 | `getDirectives()` returns the list the node was constructed or built with, a null list reading back as empty |
| EnumValueDefinitions.GetChildren | src/main/java/graphql/language/EnumValueDefinition.java:64-74 | the children are exactly the directives `getDirectives` returns, in order |
| EnumValueDefinitions.GetNamedChildren | src/main/java/graphql/language/EnumValueDefinition.java:76-81 | the named children hold the one role `directives`, mapped to the children |
| EnumValueDefinitions.Build | src/main/java/graphql/language/EnumValueDefinition.java:183-186 | building copies every builder field into the node, a null directive list becoming empty |
| EnumValueDefinitions.BuilderOf | src/main/java/graphql/language/EnumValueDefinition.java:144-151 | a builder seeded from a node holds every field of the node, with a non-null directive list equal to `getDirectives()` |
| EnumValueDefinitions.Transform | src/main/java/graphql/language/EnumValueDefinition.java:127-131 | the transformed node takes every field from the builder seeded with the node and edited by the consumer, a null directive list becoming empty |
| EnumValueDefinitions.TransformComposes | src/main/java/graphql/language/EnumValueDefinition.java:127-131 | two transforms in a row equal one transform running both consumers, with the directive list made non-null in between |
| EnumValueDefinitions.WithNewChildren | src/main/java/graphql/language/EnumValueDefinition.java:83-88 | the directives become the container's `directives` list (empty when absent); name, description, location, comments and ignored characters are kept |
| EnumValueDefinitions.IsEqualTo | src/main/java/graphql/language/EnumValueDefinition.java:90-103 | false for null and for another class; for an enum value definition, true exactly when the names are equal |
| EnumValueDefinitions.DeepCopy | src/main/java/graphql/language/EnumValueDefinition.java:105-108 | the copy has the same name, directives, description, location, comments and ignored characters, and is `isEqualTo` the original |
| EnumValueDefinitions.TransformIdentity | src/main/java/graphql/language/EnumValueDefinition.java:127-131 | `transform` with a consumer that does nothing gives a node equal in every field |
| EnumValueDefinitions.FreshBuilderDefaults | src/main/java/graphql/language/EnumValueDefinition.java:133-142 | a fresh builder builds a node with nothing set, no comments, no directives and empty ignored characters |
| EnumValueDefinitions.BuilderRoundTrip | src/main/java/graphql/language/EnumValueDefinition.java:144-151 | a builder seeded from a node builds that node; a builder seeded from a built node is the original builder with null directives made empty |
| EnumValueDefinitions.WithNewChildrenSettles | src/main/java/graphql/language/EnumValueDefinition.java:83-88 | replacing children twice with one container is replacing them once, and the node then reports exactly those children |
| EnumValueDefinitions.NamedChildrenRoundTrip | src/main/java/graphql/language/EnumValueDefinition.java:76-88 | `withNewChildren(getNamedChildren())` gives back the same node |
| EnumValueDefinitions.IsEqualToIsEquivalence | src/main/java/graphql/language/EnumValueDefinition.java:90-103 | `isEqualTo` is reflexive, symmetric and transitive on enum value definitions |
| EnumValueDefinitions.IsEqualToSeesOnlyName | src/main/java/graphql/language/EnumValueDefinition.java:90-103 | nodes with the same name give the same answers, and directives and description never change an answer |
| OperationTypeDefinitions.Create | src/main/java/graphql/language/OperationTypeDefinition.java:23-28 | the protected constructor keeps every argument, a null type name included |
| OperationTypeDefinitions.OfNameAndType | src/main/java/graphql/language/OperationTypeDefinition.java:36-38 | the convenience constructor keeps name and type name, with no location, no comments and empty ignored characters |
| OperationTypeDefinitions.ConstructorIsBuilder | src/main/java/graphql/language/OperationTypeDefinition.java:36-38 | `new OperationTypeDefinition(name, typeName)` equals the node a fresh builder given that name and type name builds |
| OperationTypeDefinitions.GetChildren | src/main/java/graphql/language/OperationTypeDefinition.java:49-54 | the children are always one element, the type name, which is null when there is none |
| OperationTypeDefinitions.GetNamedChildren | src/main/java/graphql/language/OperationTypeDefinition.java:56-61 | the named children hold the type name under `typeName`, or nothing when it is null |
| OperationTypeDefinitions.ChildrenAgreeWithNamedChildren | src/main/java/graphql/language/OperationTypeDefinition.java:49-68 | the one element of `getChildren()` is what `getChildOrNull` reads from `getNamedChildren()`, null included, and after a successful `withNewChildren(c)` it is what `getChildOrNull` reads from `c` |
| OperationTypeDefinitions.Build | src/main/java/graphql/language/OperationTypeDefinition.java:157-160 | building copies every builder field into the node |
| OperationTypeDefinitions.BuilderOf | src/main/java/graphql/language/OperationTypeDefinition.java:123-129 | a builder seeded from a node holds every field of the node |
| OperationTypeDefinitions.Transform | src/main/java/graphql/language/OperationTypeDefinition.java:106-110 | the transformed node takes every field from the builder seeded with the node and edited by the consumer |
| OperationTypeDefinitions.TransformComposes | src/main/java/graphql/language/OperationTypeDefinition.java:106-110 | two transforms in a row equal one transform running both consumers |
| OperationTypeDefinitions.WithNewChildren | src/main/java/graphql/language/OperationTypeDefinition.java:63-68 | fails with an illegal-state error when the `typeName` role holds more than one child, and with a class-cast error when its one child is not a type name; otherwise the type name becomes that child, or null when there is none, and name, location, comments and ignored characters are kept |
| Ast.ChildOrNull | src/main/java/graphql/language/OperationTypeDefinition.java:66 | `getChildOrNull` gives the one child under a role, or null when there is none, and fails with an illegal-state error when there are several |
| OperationTypeDefinitions.IsEqualTo | src/main/java/graphql/language/OperationTypeDefinition.java:70-82 | false for null and for another class; for an operation type definition, true exactly when the names are equal |
| OperationTypeDefinitions.DeepCopy | src/main/java/graphql/language/OperationTypeDefinition.java:84-87 | the copy has the same name, type name, location, comments and ignored characters, and is `isEqualTo` the original |
| OperationTypeDefinitions.TransformIdentity | src/main/java/graphql/language/OperationTypeDefinition.java:106-110 | `transform` with a consumer that does nothing gives a node equal in every field |
| OperationTypeDefinitions.BuilderRoundTrip | src/main/java/graphql/language/OperationTypeDefinition.java:123-129 | a builder seeded from a node builds that node, and a builder seeded from a built node is the original builder |
| OperationTypeDefinitions.FreshBuilderDefaults | src/main/java/graphql/language/OperationTypeDefinition.java:112-120 | a fresh builder builds a node with nothing set, no comments and empty ignored characters |
| OperationTypeDefinitions.NamedChildrenRoundTrip | src/main/java/graphql/language/OperationTypeDefinition.java:56-68 | `withNewChildren(getNamedChildren())` gives back the same node, a null type name included |
| OperationTypeDefinitions.WithNewChildrenReportsChild | src/main/java/graphql/language/OperationTypeDefinition.java:56-68 | replacing the children succeeds exactly when the `typeName` role holds at most one child and it is a type name; the new node then reports that role back as its named children, and replacing again with the same container changes nothing |
| OperationTypeDefinitions.IsEqualToIsEquivalence | src/main/java/graphql/language/OperationTypeDefinition.java:70-82 | `isEqualTo` is reflexive, symmetric and transitive on operation type definitions |
| OperationTypeDefinitions.IsEqualToSeesOnlyName | src/main/java/graphql/language/OperationTypeDefinition.java:70-82 | nodes with the same name give the same answers, and the type name never changes an answer |

## Left out

- `Edge`'s body is not part of this model. It is modelled only as far as `Vertex` uses it: allocation with source, sink and action; connecting into and disconnecting from the two endpoint sets; firing. `Edge`'s constructor is not modelled; since connecting is idempotent (`DependencyGraph.ConnectEndpoints`), the state after `dependsOn` is the same whether or not it connects.
- Edges are set members by identity. `Edge`'s `equals` and `hashCode` are not part of this model, and each `new Edge` is a distinct member, so two `dependsOn(s, a)` calls give two parallel edges (`VertexProperties.ParallelEdgesAreIndependent`), and the queries list `s` once per parallel edge.
- `comments`, `ignoredChars` and the elements of directive lists are never null here, in the records and in the builders, although the Java builder setters accept null for them. What `AbstractNode` does with a null comment list or null ignored characters is not part of this model.
- Callbacks are not executed. An edge action and a `whenDisconnecting` consumer are opaque tags whose calls are recorded as events. A callback that re-enters the graph, or throws, is not modelled.
- Filters (`Predicate`) are total Dafny functions on vertex handles. A filter that throws or has side effects is not modelled.
- The self-typed generics and the unchecked casts to `N` are left out: vertices are integer handles, and every operation returns the new graph instead of `this`.
- Vertices.AddEdge: an edge handle must exist in the arena. A Java reference to an edge of another graph has no counterpart here.
- `toString` and the slf4j `LOGGER` are presentation and logging only.
- `accept` with `NodeVisitor` and `TraversalControl` is visitor plumbing over types that are not part of this model. `SimpleTraverserContext` is a stub and is not modelled either.
- Thread safety is left out: the graph is unsynchronised and used from one thread.
- `AbstractNode`, `NodeUtil`, `Directive`, `TypeName`, `Description`, `SourceLocation`, `Comment` and `IgnoredChars` are not part of this model. They are opaque values compared by content. `NodeUtil.isEqualTo` on names is taken to be null-safe string equality.
- `NodeChildrenContainer` is not part of this model. It is a map from role name to a node list. `getChildren` of a missing role is empty. `getChildOrNull` is the one element, or null, and an illegal-state error when the role holds several (`Ast.ChildOrNull`). The builder's `child` skips a null child, and its `children(key, list)` keeps the role even for an empty list.
- The identity branch `this == o` of both `isEqualTo` methods becomes reflexivity. With value semantics an identical node is an equal one, and it has the same name.
- EnumValueDefinitions.WithNewChildren: its requires (`EnumValueDefinitions.AllDirectives`) excludes containers whose `directives` role holds other kinds of node. `withNewChildren` passes that erased list to the builder unchecked, so graphql-java accepts such a container and stores the foreign nodes as directives; the model's directive list can only hold directives. The operation type definition's cast of its one child to `TypeName` is checked, and its `ClassCastException` is modelled (`OperationTypeDefinitions.WithNewChildren`).
- Aliasing between a node's list and the list a builder or caller passed in is not modelled: lists are values. `deepCopy` and `getDirectives` copies are therefore equal to their originals, not merely equivalent.
