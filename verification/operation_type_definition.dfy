/**
 `graphql.language.OperationTypeDefinition`: constructors, the single
 type-name child, the builder and `transform`, name-only equality and deep
 copy.
 */
module OperationTypeDefinitions {
  import opened Basics
  import opened Ast

  /** `CHILD_TYPE_NAME`: the role the type name is stored under. */
  const ChildTypeName: string := "typeName"

  /** The protected constructor; unlike the enum value definition it keeps
      every argument as given, null type name included. */
  function Create(name: Option<string>, typeName: Option<TypeName>, sourceLocation: Option<SourceLocation>,
                  comments: seq<Comment>, ignoredChars: IgnoredChars): (x: OperationTypeDefinition)
    ensures x.name == name && x.typeName == typeName && x.sourceLocation == sourceLocation
    ensures x.comments == comments && x.ignoredChars == ignoredChars
  {
    OperationTypeDefinition(name, typeName, sourceLocation, comments, ignoredChars)
  }

  /** `new OperationTypeDefinition(name, typeName)`. */
  function OfNameAndType(name: Option<string>, typeName: Option<TypeName>): (x: OperationTypeDefinition)
    ensures x.name == name && x.typeName == typeName
    ensures x.sourceLocation == None && x.comments == [] && x.ignoredChars == EmptyIgnoredChars
  {
    Create(name, typeName, None, [], EmptyIgnoredChars)
  }

  /** The type name as a (possibly null) node. */
  function TypeNameNodeOf(t: Option<TypeName>): Option<Node> {
    if t.None? then None else Some(TypeNameNode(t.value))
  }

  /** `getChildren()`: a one-element list holding the type name, which is a
      null element when there is no type name. */
  function GetChildren(x: OperationTypeDefinition): (r: seq<Option<Node>>)
    ensures |r| == 1
    ensures r[0].None? <==> x.typeName.None?
    ensures r[0].Some? ==> r[0].value == TypeNameNode(x.typeName.value)
  {
    [TypeNameNodeOf(x.typeName)]
  }

  /** `getNamedChildren()`: the type name under `CHILD_TYPE_NAME`; a null type
      name is skipped, leaving the container empty. */
  function GetNamedChildren(x: OperationTypeDefinition): (c: NodeChildrenContainer)
    ensures x.typeName.None? ==> c == EmptyContainer
    ensures x.typeName.Some? ==> c.Keys == {ChildTypeName} && ChildrenAt(c, ChildTypeName) == [TypeNameNode(x.typeName.value)]
  {
    AddChild(EmptyContainer, ChildTypeName, TypeNameNodeOf(x.typeName))
  }

  /** The mutable builder, as a record. A fresh builder has no comments and
      empty ignored characters; everything else is null. */
  datatype Builder = Builder(
    sourceLocation: Option<SourceLocation>,
    comments: seq<Comment>,
    name: Option<string>,
    typeName: Option<TypeName>,
    ignoredChars: IgnoredChars)

  /** `newOperationTypeDefinition()`. */
  const NewBuilder: Builder := Builder(None, [], None, None, EmptyIgnoredChars)

  /** `new Builder(existing)`: a builder holding every field of `x`. */
  function BuilderOf(x: OperationTypeDefinition): (b: Builder)
    ensures b.name == x.name && b.typeName == x.typeName && b.sourceLocation == x.sourceLocation
    ensures b.comments == x.comments && b.ignoredChars == x.ignoredChars
  {
    Builder(x.sourceLocation, x.comments, x.name, x.typeName, x.ignoredChars)
  }

  /** `Builder.build()`. */
  function Build(b: Builder): (x: OperationTypeDefinition)
    ensures x.name == b.name && x.typeName == b.typeName && x.sourceLocation == b.sourceLocation
    ensures x.comments == b.comments && x.ignoredChars == b.ignoredChars
  {
    Create(b.name, b.typeName, b.sourceLocation, b.comments, b.ignoredChars)
  }

  /** `transform(consumer)`: a builder seeded with `x`, edited by the
      consumer, then built; the node takes every field from the edited
      builder. */
  function Transform(x: OperationTypeDefinition, edit: Builder -> Builder): (r: OperationTypeDefinition)
    ensures var b := edit(BuilderOf(x));
      && r.name == b.name && r.typeName == b.typeName && r.sourceLocation == b.sourceLocation
      && r.comments == b.comments && r.ignoredChars == b.ignoredChars
  {
    Build(edit(BuilderOf(x)))
  }

  /** `withNewChildren(container)`: the type name becomes the container's one
      `CHILD_TYPE_NAME` child, or null when there is none; every other field is
      kept. `getChildOrNull` throws when the role holds several children, and
      passing its result to `typeName(TypeName)` casts it, which throws when
      the child is another kind of node. */
  function WithNewChildren(x: OperationTypeDefinition, c: NodeChildrenContainer): (r: Result<OperationTypeDefinition>)
    ensures r.Err? <==> |ChildrenAt(c, ChildTypeName)| > 1
                        || (|ChildrenAt(c, ChildTypeName)| == 1 && !ChildrenAt(c, ChildTypeName)[0].TypeNameNode?)
    ensures r.Err? ==> r.error == (if |ChildrenAt(c, ChildTypeName)| > 1 then IllegalState else ClassCast)
    ensures r.Ok? ==> (r.value.typeName.None? <==> ChildrenAt(c, ChildTypeName) == [])
    ensures r.Ok? && r.value.typeName.Some? ==> ChildrenAt(c, ChildTypeName) == [TypeNameNode(r.value.typeName.value)]
    ensures r.Ok? ==> r.value.name == x.name && r.value.sourceLocation == x.sourceLocation
    ensures r.Ok? ==> r.value.comments == x.comments && r.value.ignoredChars == x.ignoredChars
  {
    match ChildOrNull(c, ChildTypeName)
    case Err(e) => Err(e)
    case Ok(child) =>
      if child.Some? && !child.value.TypeNameNode? then Err(ClassCast)
      else
        var t := if child.None? then None else Some(child.value.typeName);
        Ok(Transform(x, (b: Builder) => b.(typeName := t)))
  }

  /** `isEqualTo(o)`: another operation type definition with the same name
      (null-safe); the type name and bookkeeping are ignored. */
  function IsEqualTo(x: OperationTypeDefinition, o: Option<Node>): (r: bool)
    ensures o.None? ==> !r
    ensures o.Some? && !o.value.OperationTypeNode? ==> !r
    ensures o.Some? && o.value.OperationTypeNode? ==> (r <==> o.value.operationType.name == x.name)
  {
    match o
    case None => false
    case Some(n) => n.OperationTypeNode? && n.operationType.name == x.name
  }

  /** `deepCopy()`: copies the type name, shares everything else. */
  function DeepCopy(x: OperationTypeDefinition): (r: OperationTypeDefinition)
    ensures r == x
    ensures IsEqualTo(r, Some(OperationTypeNode(x)))
  {
    Create(x.name, CopyTypeName(x.typeName), x.sourceLocation, x.comments, x.ignoredChars)
  }

  /** A consumer that does nothing gives back an equal node. */
  lemma TransformIdentity(x: OperationTypeDefinition)
    ensures Transform(x, (b: Builder) => b) == x
  {
  }

  /** Building from a builder seeded with `x` gives `x`, and seeding from what
      a builder built gives that builder back. */
  lemma BuilderRoundTrip(x: OperationTypeDefinition, b: Builder)
    ensures Build(BuilderOf(x)) == x
    ensures BuilderOf(Build(b)) == b
  {
  }

  /** Two transforms in a row are one transform running both consumers. */
  lemma TransformComposes(x: OperationTypeDefinition, f: Builder -> Builder, g: Builder -> Builder)
    ensures Transform(Transform(x, f), g) == Transform(x, (b: Builder) => g(f(b)))
  {
    BuilderRoundTrip(x, f(BuilderOf(x)));
  }

  /** A fresh builder builds a node with nothing set. */
  lemma FreshBuilderDefaults()
    ensures Build(NewBuilder) == OperationTypeDefinition(None, None, None, [], EmptyIgnoredChars)
  {
  }

  /** Feeding a node its own named children gives back the same node, null
      type name included. */
  lemma NamedChildrenRoundTrip(x: OperationTypeDefinition)
    ensures WithNewChildren(x, GetNamedChildren(x)) == Ok(x)
  {
  }

  /** A replacement succeeds exactly when the `CHILD_TYPE_NAME` role holds at
      most one child and that child is a type name; the new node then reports
      exactly that role back as its named children, and replacing again with
      the same container changes nothing. */
  lemma WithNewChildrenReportsChild(x: OperationTypeDefinition, c: NodeChildrenContainer)
    ensures WithNewChildren(x, c).Ok? <==>
      ChildrenAt(c, ChildTypeName) == [] || (|ChildrenAt(c, ChildTypeName)| == 1 && ChildrenAt(c, ChildTypeName)[0].TypeNameNode?)
    ensures WithNewChildren(x, c).Ok? ==>
      GetNamedChildren(WithNewChildren(x, c).value)
        == (if ChildrenAt(c, ChildTypeName) == [] then EmptyContainer else map[ChildTypeName := ChildrenAt(c, ChildTypeName)])
    ensures WithNewChildren(x, c).Ok? ==>
      WithNewChildren(WithNewChildren(x, c).value, c) == WithNewChildren(x, c)
  {
  }

  /** `getChildren()`'s one element is what `getChildOrNull` reads from the
      named children, null included; after a successful replacement it is
      what `getChildOrNull` read from the new container. */
  lemma ChildrenAgreeWithNamedChildren(x: OperationTypeDefinition, c: NodeChildrenContainer)
    ensures ChildOrNull(GetNamedChildren(x), ChildTypeName).Ok?
    ensures GetChildren(x) == [ChildOrNull(GetNamedChildren(x), ChildTypeName).value]
    ensures WithNewChildren(x, c).Ok? ==>
      ChildOrNull(c, ChildTypeName).Ok? &&
      GetChildren(WithNewChildren(x, c).value) == [ChildOrNull(c, ChildTypeName).value]
  {
  }

  /** The convenience constructor builds what a fresh builder given the same
      name and type name builds. */
  lemma ConstructorIsBuilder(name: Option<string>, typeName: Option<TypeName>)
    ensures OfNameAndType(name, typeName) == Build(NewBuilder.(name := name, typeName := typeName))
  {
  }

  /** `isEqualTo` is an equivalence on operation type definitions. */
  lemma IsEqualToIsEquivalence(x: OperationTypeDefinition, y: OperationTypeDefinition, z: OperationTypeDefinition)
    ensures IsEqualTo(x, Some(OperationTypeNode(x)))
    ensures IsEqualTo(x, Some(OperationTypeNode(y))) == IsEqualTo(y, Some(OperationTypeNode(x)))
    ensures IsEqualTo(x, Some(OperationTypeNode(y))) && IsEqualTo(y, Some(OperationTypeNode(z)))
      ==> IsEqualTo(x, Some(OperationTypeNode(z)))
  {
  }

  /** Changing anything but the name changes no `isEqualTo` answer; in
      particular two operation definitions naming different types compare
      equal. */
  lemma IsEqualToSeesOnlyName(x: OperationTypeDefinition, x': OperationTypeDefinition, o: Option<Node>)
    requires x'.name == x.name
    ensures IsEqualTo(x', o) == IsEqualTo(x, o)
    ensures o.Some? && o.value.OperationTypeNode? ==>
      IsEqualTo(x, Some(OperationTypeNode(o.value.operationType.(typeName := None)))) == IsEqualTo(x, o)
  {
  }
}
