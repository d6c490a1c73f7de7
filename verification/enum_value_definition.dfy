/**
 `graphql.language.EnumValueDefinition`: constructors, child access, the
 builder and `transform`, name-only equality and deep copy.
 */
module EnumValueDefinitions {
  import opened Basics
  import opened Ast

  /** `CHILD_DIRECTIVES`: the role the directives are stored under. */
  const ChildDirectives: string := "directives"

  /** The protected constructor every other way of building goes through; a
      null directive list is stored as an empty one. */
  function Create(name: Option<string>, directives: Option<seq<Directive>>, description: Option<Description>,
                  sourceLocation: Option<SourceLocation>, comments: seq<Comment>, ignoredChars: IgnoredChars)
    : (x: EnumValueDefinition)
    ensures directives.None? ==> x.directives == []
    ensures directives.Some? ==> x.directives == directives.value
    ensures x.name == name && x.description == description && x.sourceLocation == sourceLocation
    ensures x.comments == comments && x.ignoredChars == ignoredChars
  {
    EnumValueDefinition(name, if directives.None? then [] else directives.value,
                        description, sourceLocation, comments, ignoredChars)
  }

  /** `new EnumValueDefinition(name)`. */
  function OfName(name: Option<string>): (x: EnumValueDefinition)
    ensures x.name == name && x.directives == [] && x.description == None
    ensures x.sourceLocation == None && x.comments == [] && x.ignoredChars == EmptyIgnoredChars
  {
    Create(name, Some([]), None, None, [], EmptyIgnoredChars)
  }

  /** `new EnumValueDefinition(name, directives)`. */
  function OfNameAndDirectives(name: Option<string>, directives: Option<seq<Directive>>): (x: EnumValueDefinition)
    ensures x.name == name && x.description == None
    ensures x.directives == (if directives.None? then [] else directives.value)
    ensures x.sourceLocation == None && x.comments == [] && x.ignoredChars == EmptyIgnoredChars
  {
    Create(name, directives, None, None, [], EmptyIgnoredChars)
  }

  /** `getDirectives()`: a copy of the stored list, element for element. */
  function GetDirectives(x: EnumValueDefinition): (r: seq<Directive>)
    ensures |r| == |x.directives|
    ensures forall i | 0 <= i < |r| :: r[i] == x.directives[i]
  {
    x.directives
  }

  /** `getChildren()`: the directives, as nodes, in order. */
  function GetChildren(x: EnumValueDefinition): (r: seq<Node>)
    ensures |r| == |GetDirectives(x)|
    ensures forall i | 0 <= i < |r| :: r[i] == DirectiveNode(GetDirectives(x)[i])
  {
    seq(|x.directives|, i requires 0 <= i < |x.directives| => DirectiveNode(x.directives[i]))
  }

  /** `getNamedChildren()`: the directives under `CHILD_DIRECTIVES`, the role
      present even when the list is empty. */
  function GetNamedChildren(x: EnumValueDefinition): (c: NodeChildrenContainer)
    ensures c.Keys == {ChildDirectives}
    ensures ChildrenAt(c, ChildDirectives) == GetChildren(x)
  {
    AddChildren(EmptyContainer, ChildDirectives, GetChildren(x))
  }

  /** The mutable builder, as a record; its setters are record updates. A
      fresh builder has no directive list (null), no comments and empty
      ignored characters. */
  datatype Builder = Builder(
    sourceLocation: Option<SourceLocation>,
    comments: seq<Comment>,
    name: Option<string>,
    description: Option<Description>,
    directives: Option<seq<Directive>>,
    ignoredChars: IgnoredChars)

  /** `newEnumValueDefinition()`. */
  const NewBuilder: Builder := Builder(None, [], None, None, None, EmptyIgnoredChars)

  /** `new Builder(existing)`: a builder holding every field of `x`, the
      directive list taken from `getDirectives()` and so never null. */
  function BuilderOf(x: EnumValueDefinition): (b: Builder)
    ensures b.name == x.name && b.description == x.description && b.sourceLocation == x.sourceLocation
    ensures b.comments == x.comments && b.ignoredChars == x.ignoredChars
    ensures b.directives.Some? && b.directives.value == GetDirectives(x)
  {
    Builder(x.sourceLocation, x.comments, x.name, x.description, Some(GetDirectives(x)), x.ignoredChars)
  }

  /** `Builder.build()`. */
  function Build(b: Builder): (x: EnumValueDefinition)
    ensures x.name == b.name && x.description == b.description && x.sourceLocation == b.sourceLocation
    ensures x.comments == b.comments && x.ignoredChars == b.ignoredChars
    ensures x.directives == (if b.directives.None? then [] else b.directives.value)
  {
    Create(b.name, b.directives, b.description, b.sourceLocation, b.comments, b.ignoredChars)
  }

  /** `transform(consumer)`: a builder seeded with `x`, edited by the
      consumer, then built. The node takes every field from the edited
      builder, a null directive list becoming an empty one. */
  function Transform(x: EnumValueDefinition, edit: Builder -> Builder): (r: EnumValueDefinition)
    ensures var b := edit(BuilderOf(x));
      && r.name == b.name && r.description == b.description && r.sourceLocation == b.sourceLocation
      && r.comments == b.comments && r.ignoredChars == b.ignoredChars
      && r.directives == (if b.directives.None? then [] else b.directives.value)
  {
    Build(edit(BuilderOf(x)))
  }

  /** A builder whose null directive list is replaced by an empty one, as
      building and re-seeding leaves it. */
  function Settled(b: Builder): Builder {
    b.(directives := Some(if b.directives.None? then [] else b.directives.value))
  }

  /** Every node is a directive. */
  predicate AllDirectives(nodes: seq<Node>) {
    forall i | 0 <= i < |nodes| :: nodes[i].DirectiveNode?
  }

  function AsDirectives(nodes: seq<Node>): (ds: seq<Directive>)
    requires AllDirectives(nodes)
    ensures |ds| == |nodes| && forall i | 0 <= i < |nodes| :: nodes[i] == DirectiveNode(ds[i])
  {
    seq(|nodes|, i requires 0 <= i < |nodes| => nodes[i].directive)
  }

  /** `withNewChildren(container)`: the directives become the container's
      `CHILD_DIRECTIVES` list (empty when it has none); every other field is
      kept. `withNewChildren` passes that list on unchecked, so the model asks
      that the role hold only directives. */
  function WithNewChildren(x: EnumValueDefinition, c: NodeChildrenContainer): (r: EnumValueDefinition)
    requires AllDirectives(ChildrenAt(c, ChildDirectives))
    ensures |r.directives| == |ChildrenAt(c, ChildDirectives)|
    ensures forall i | 0 <= i < |r.directives| :: DirectiveNode(r.directives[i]) == ChildrenAt(c, ChildDirectives)[i]
    ensures r.name == x.name && r.description == x.description && r.sourceLocation == x.sourceLocation
    ensures r.comments == x.comments && r.ignoredChars == x.ignoredChars
  {
    var ds := AsDirectives(ChildrenAt(c, ChildDirectives));
    Transform(x, (b: Builder) => b.(directives := Some(ds)))
  }

  /** `isEqualTo(o)`: another enum value definition with the same name
      (null-safe); directives, description and bookkeeping are ignored. The
      identity case `this == o` is the reflexive one. */
  function IsEqualTo(x: EnumValueDefinition, o: Option<Node>): (r: bool)
    ensures o.None? ==> !r
    ensures o.Some? && !o.value.EnumValueNode? ==> !r
    ensures o.Some? && o.value.EnumValueNode? ==> (r <==> o.value.enumValue.name == x.name)
  {
    match o
    case None => false
    case Some(n) => n.EnumValueNode? && n.enumValue.name == x.name
  }

  /** `deepCopy()`: copies the directives, shares everything else. */
  function DeepCopy(x: EnumValueDefinition): (r: EnumValueDefinition)
    ensures r == x
    ensures IsEqualTo(r, Some(EnumValueNode(x)))
  {
    var ds := seq(|x.directives|, i requires 0 <= i < |x.directives| => CopyDirective(x.directives[i]));
    Create(x.name, Some(ds), x.description, x.sourceLocation, x.comments, x.ignoredChars)
  }

  /** A consumer that does nothing gives back an equal node. */
  lemma TransformIdentity(x: EnumValueDefinition)
    ensures Transform(x, (b: Builder) => b) == x
  {
  }

  /** A fresh builder builds a node with no directives, no comments, empty
      ignored characters and nothing else set. */
  lemma FreshBuilderDefaults()
    ensures Build(NewBuilder) == EnumValueDefinition(None, [], None, None, [], EmptyIgnoredChars)
  {
  }

  /** The builder round trip: building a builder seeded with `x` gives `x`
      back, and seeding a builder with what a builder built gives that builder
      back, except that a null directive list has become an empty one. */
  lemma BuilderRoundTrip(x: EnumValueDefinition, b: Builder)
    ensures Build(BuilderOf(x)) == x
    ensures BuilderOf(Build(b)) == Settled(b)
  {
  }

  /** Two transforms in a row are one transform running both consumers, with
      the directive list settled in between. */
  lemma TransformComposes(x: EnumValueDefinition, f: Builder -> Builder, g: Builder -> Builder)
    ensures Transform(Transform(x, f), g) == Transform(x, (b: Builder) => g(Settled(f(b))))
  {
    BuilderRoundTrip(x, f(BuilderOf(x)));
  }

  /** `getDirectives()` returns the list the node was made with, whichever
      way it was made; a null list reads back as empty. */
  lemma GetDirectivesReturnsGiven(name: Option<string>, ds: Option<seq<Directive>>, b: Builder)
    ensures GetDirectives(OfNameAndDirectives(name, ds)) == (if ds.None? then [] else ds.value)
    ensures GetDirectives(Build(b.(directives := ds))) == (if ds.None? then [] else ds.value)
    ensures GetDirectives(OfName(name)) == []
  {
  }

  /** Replacing the children twice with the same container is replacing them
      once, and the replaced node reports exactly those children back. */
  lemma WithNewChildrenSettles(x: EnumValueDefinition, c: NodeChildrenContainer)
    requires AllDirectives(ChildrenAt(c, ChildDirectives))
    ensures WithNewChildren(WithNewChildren(x, c), c) == WithNewChildren(x, c)
    ensures GetChildren(WithNewChildren(x, c)) == ChildrenAt(c, ChildDirectives)
  {
  }

  /** Feeding a node its own named children gives back the same node. */
  lemma NamedChildrenRoundTrip(x: EnumValueDefinition)
    ensures AllDirectives(ChildrenAt(GetNamedChildren(x), ChildDirectives))
    ensures WithNewChildren(x, GetNamedChildren(x)) == x
  {
    var r := WithNewChildren(x, GetNamedChildren(x));
    assert r.directives == x.directives;
  }

  /** The convenience constructors build what a fresh builder given the same
      name (and directives) builds. */
  lemma ConstructorsAreBuilder(name: Option<string>, directives: Option<seq<Directive>>)
    ensures OfName(name) == Build(NewBuilder.(name := name, directives := Some([])))
    ensures OfNameAndDirectives(name, directives) == Build(NewBuilder.(name := name, directives := directives))
  {
  }

  /** `isEqualTo` is an equivalence on enum value definitions. */
  lemma IsEqualToIsEquivalence(x: EnumValueDefinition, y: EnumValueDefinition, z: EnumValueDefinition)
    ensures IsEqualTo(x, Some(EnumValueNode(x)))
    ensures IsEqualTo(x, Some(EnumValueNode(y))) == IsEqualTo(y, Some(EnumValueNode(x)))
    ensures IsEqualTo(x, Some(EnumValueNode(y))) && IsEqualTo(y, Some(EnumValueNode(z)))
      ==> IsEqualTo(x, Some(EnumValueNode(z)))
  {
  }

  /** Changing anything but the name changes no `isEqualTo` answer. */
  lemma IsEqualToSeesOnlyName(x: EnumValueDefinition, x': EnumValueDefinition, o: Option<Node>)
    requires x'.name == x.name
    ensures IsEqualTo(x', o) == IsEqualTo(x, o)
    ensures o.Some? && o.value.EnumValueNode? ==>
      IsEqualTo(x, Some(EnumValueNode(o.value.enumValue.(directives := [], description := None)))) == IsEqualTo(x, o)
  {
  }
}
