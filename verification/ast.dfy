/**
 The syntax-tree values the two definition nodes are made of. Everything but
 the two definitions themselves is an opaque value here: a source location, a
 comment, a description, a directive, a type name and the ignored characters
 are compared as plain data and never looked into.
 */
module Ast {
  import opened Basics

  datatype SourceLocation = SourceLocation(line: int, column: int, sourceName: Option<string>)
  datatype Comment = Comment(content: string, sourceLocation: Option<SourceLocation>)
  datatype IgnoredChars = IgnoredChars(left: seq<string>, right: seq<string>)
  datatype Description = Description(content: string, sourceLocation: Option<SourceLocation>, multiLine: bool)
  datatype Directive = Directive(name: string, sourceLocation: Option<SourceLocation>)
  datatype TypeName = TypeName(name: string, sourceLocation: Option<SourceLocation>)

  /** `IgnoredChars.EMPTY`. */
  const EmptyIgnoredChars: IgnoredChars := IgnoredChars([], [])

  /** An enum value definition: a name, its directives, an optional
      description, and the bookkeeping every node carries. */
  datatype EnumValueDefinition = EnumValueDefinition(
    name: Option<string>,
    directives: seq<Directive>,
    description: Option<Description>,
    sourceLocation: Option<SourceLocation>,
    comments: seq<Comment>,
    ignoredChars: IgnoredChars)

  /** An operation type definition (`query: Query` in a schema): the operation
      name and the type serving it. */
  datatype OperationTypeDefinition = OperationTypeDefinition(
    name: Option<string>,
    typeName: Option<TypeName>,
    sourceLocation: Option<SourceLocation>,
    comments: seq<Comment>,
    ignoredChars: IgnoredChars)

  /** A node of the tree, tagged with its class. */
  datatype Node =
    | DirectiveNode(directive: Directive)
    | TypeNameNode(typeName: TypeName)
    | EnumValueNode(enumValue: EnumValueDefinition)
    | OperationTypeNode(operationType: OperationTypeDefinition)

  /** A node's children by role: each role name maps to a list of nodes. */
  type NodeChildrenContainer = map<string, seq<Node>>

  const EmptyContainer: NodeChildrenContainer := map[]

  /** The children stored under `key`, empty when there are none. */
  function ChildrenAt(c: NodeChildrenContainer, key: string): seq<Node> {
    if key in c then c[key] else []
  }

  /** `getChildOrNull(key)`: the one child stored under `key`, or null when
      there is none; a role holding more than one child is an illegal state. */
  function ChildOrNull(c: NodeChildrenContainer, key: string): (r: Result<Option<Node>>)
    ensures r.Err? <==> |ChildrenAt(c, key)| > 1
    ensures r.Err? ==> r.error == IllegalState
    ensures r.Ok? ==> (r.value.None? <==> ChildrenAt(c, key) == [])
    ensures r.Ok? && r.value.Some? ==> ChildrenAt(c, key) == [r.value.value]
  {
    if |ChildrenAt(c, key)| > 1 then Err(IllegalState)
    else if |ChildrenAt(c, key)| == 1 then Ok(Some(ChildrenAt(c, key)[0]))
    else Ok(None)
  }

  /** The container's builder adding a list of children under `key`. */
  function AddChildren(c: NodeChildrenContainer, key: string, nodes: seq<Node>): NodeChildrenContainer {
    c[key := ChildrenAt(c, key) + nodes]
  }

  /** The container's builder adding one child under `key`; a null child is
      skipped. */
  function AddChild(c: NodeChildrenContainer, key: string, child: Option<Node>): NodeChildrenContainer {
    if child.None? then c else AddChildren(c, key, [child.value])
  }

  /** A fresh directive with the same content. */
  function CopyDirective(d: Directive): Directive {
    Directive(d.name, d.sourceLocation)
  }

  /** A fresh type name with the same content; null stays null. */
  function CopyTypeName(t: Option<TypeName>): Option<TypeName> {
    if t.None? then None else Some(TypeName(t.value.name, t.value.sourceLocation))
  }
}
