/**
  Schema nodes of the LSP meta-model: the nine-way tagged variant that expresses the type
  of a property, an enumeration or an alias, and the `kind` dispatch that decodes one.

  A decoded node in the Go program is a `*Schema` with nine variant pointers of which the
  decoder sets exactly one; here that is a datatype with nine constructors. A reference
  node's identity (the pointer that its `Found` field hangs off) is the `id` of its
  `RefNode`; the `Found` fields themselves live in the resolver's map, not in the node.
*/
module Schemas {
  import opened Wrappers

  type NodeId = nat

  /** A `reference` node: its identity and the definition name it refers to. */
  datatype RefNode = RefNode(id: NodeId, name: string)

  datatype Schema =
    | Base(name: string)
    | Reference(ref: RefNode)
    | Array(element: Schema)
    | Or(items: seq<Schema>)
    | And(items: seq<Schema>)
    | Map(key: Schema, value: Schema)
    | StringLiteral(literal: string)
    | Literal
    | Tuple(items: seq<Schema>)
  {
    /** The discriminator this node was decoded from. */
    function Kind(): Kind
    {
      match this
      case Base(_) => BaseKind
      case Reference(_) => ReferenceKind
      case Array(_) => ArrayKind
      case Or(_) => OrKind
      case And(_) => AndKind
      case Map(_, _) => MapKind
      case StringLiteral(_) => StringLiteralKind
      case Literal => LiteralKind
      case Tuple(_) => TupleKind
    }
  }

  datatype Kind =
    | BaseKind | ReferenceKind | ArrayKind | OrKind | AndKind
    | MapKind | StringLiteralKind | LiteralKind | TupleKind

  /** The wire spelling of each kind, as it appears in the document's `kind` field. */
  function KindName(k: Kind): string
  {
    match k
    case BaseKind => "base"
    case ReferenceKind => "reference"
    case ArrayKind => "array"
    case OrKind => "or"
    case AndKind => "and"
    case MapKind => "map"
    case StringLiteralKind => "stringLiteral"
    case LiteralKind => "literal"
    case TupleKind => "tuple"
  }

  /** The errors of the core, with the wording of the Go messages. */
  datatype Error =
    | UnknownSchemaKind(kind: string)                 // "unknown schema kind: %s"
    | UnmarshalSchemaType(kind: string, cause: string) // "unmarshal schema type %s: %w"
    | RefNotFound(name: string)                       // "ref not found: %s"
    | StructureNotFound(name: string)                 // "structure not found: %s"

  /**
    The `switch s.Kind` of `Schema.UnmarshalJSON`: the variant a discriminator selects,
    or none for a discriminator outside the nine kinds.
  */
  function ParseKind(kind: string): (r: Option<Kind>)
    ensures r.Some? ==> KindName(r.value) == kind
    ensures r.None? ==> forall k: Kind :: KindName(k) != kind
  {
    if kind == "array" then Some(ArrayKind)
    else if kind == "or" then Some(OrKind)
    else if kind == "and" then Some(AndKind)
    else if kind == "reference" then Some(ReferenceKind)
    else if kind == "base" then Some(BaseKind)
    else if kind == "map" then Some(MapKind)
    else if kind == "stringLiteral" then Some(StringLiteralKind)
    else if kind == "literal" then Some(LiteralKind)
    else if kind == "tuple" then Some(TupleKind)
    else None
  }

  /** Every kind's wire name is dispatched back to that kind, so no two kinds share a name. */
  lemma KindNameRoundTrip(k: Kind)
    ensures ParseKind(KindName(k)) == Some(k)
  {
  }

  /**
    What the strict field decoder (`unmarshalStrict`) reads from a node's document
    fragment into the variant struct the kind selected: the name of a base type or
    reference, an array's element, the items of an or, and or tuple, a map's key and
    value, and a string literal's value. The fields a variant does not have are not read.
  */
  datatype Fields = Fields(
    name: string,
    element: Schema,
    items: seq<Schema>,
    key: Schema,
    value: Schema,
    text: string)

  /**
    The variant the `switch` allocates for kind `k`, filled from the decoded fields; a
    `reference` variant is the node `id`, the identity its `Found` field hangs off.
  */
  function Build(k: Kind, f: Fields, id: NodeId): (s: Schema)
    ensures s.Kind() == k
    ensures s.Reference? ==> s.ref == RefNode(id, f.name)
  {
    match k
    case BaseKind => Base(f.name)
    case ReferenceKind => Reference(RefNode(id, f.name))
    case ArrayKind => Array(f.element)
    case OrKind => Or(f.items)
    case AndKind => And(f.items)
    case MapKind => Map(f.key, f.value)
    case StringLiteralKind => StringLiteral(f.text)
    case LiteralKind => Literal
    case TupleKind => Tuple(f.items)
  }

  /** The fields a node's own variant carries, as the strict decoder would read them back. */
  function FieldsOf(s: Schema): Fields
  {
    var none := Fields("", Literal, [], Literal, Literal, "");
    match s
    case Base(n) => none.(name := n)
    case Reference(r) => none.(name := r.name)
    case Array(e) => none.(element := e)
    case Or(items) => none.(items := items)
    case And(items) => none.(items := items)
    case Map(k, v) => none.(key := k, value := v)
    case StringLiteral(t) => none.(text := t)
    case Literal => none
    case Tuple(items) => none.(items := items)
  }

  /**
    `Schema.UnmarshalJSON` above the byte level: the discriminator `kind` selects and
    allocates a variant, and `strict` is the strict decoder's outcome on the node's
    fragment, read into that variant. An unknown kind is rejected before the fragment is
    looked at; a decoder failure is wrapped with the kind.
  */
  function DecodeSchema(kind: string, strict: Result<Fields, string>, id: NodeId): (r: Result<Schema, Error>)
    ensures r.Ok? <==> ParseKind(kind).Some? && strict.Ok?
    ensures (forall k: Kind :: KindName(k) != kind) ==> r == Err(UnknownSchemaKind(kind))
    ensures ParseKind(kind).Some? && strict.Err? ==> r == Err(UnmarshalSchemaType(kind, strict.error))
    ensures r.Ok? ==> KindName(r.value.Kind()) == kind && ParseKind(kind) == Some(r.value.Kind())
    ensures r.Ok? ==> r.value == Build(r.value.Kind(), strict.value, id)
  {
    match ParseKind(kind)
    case None => Err(UnknownSchemaKind(kind))
    case Some(k) =>
      match strict
      case Err(cause) => Err(UnmarshalSchemaType(kind, cause))
      case Ok(f) => Ok(Build(k, f, id))
  }

  /**
    Decoding a node's own kind name and fields gives the node back: the switch and the
    strict decoder lose nothing of any variant.
  */
  lemma DecodeRoundTrip(s: Schema, id: NodeId)
    requires s.Reference? ==> s.ref.id == id
    ensures DecodeSchema(KindName(s.Kind()), Ok(FieldsOf(s)), id) == Ok(s)
  {
    KindNameRoundTrip(s.Kind());
  }

  /**
    Every reference node reachable from `s` through array elements, or/and/tuple items
    and map keys and values satisfies `P`.
  */
  ghost predicate AllRefs(P: RefNode -> bool, s: Schema)
  {
    match s
    case Reference(r) => P(r)
    case Array(e) => AllRefs(P, e)
    case Or(items) => forall i | 0 <= i < |items| :: AllRefs(P, items[i])
    case And(items) => forall i | 0 <= i < |items| :: AllRefs(P, items[i])
    case Tuple(items) => forall i | 0 <= i < |items| :: AllRefs(P, items[i])
    case Map(k, v) => AllRefs(P, k) && AllRefs(P, v)
    case _ => true
  }

  /** Every reference node reachable from `s` is among `resolved`. */
  ghost predicate ResolvedIn(resolved: set<RefNode>, s: Schema)
  {
    AllRefs((r: RefNode) => r in resolved, s)
  }

  /** A tree that holds no reference node at all. */
  ghost predicate NoReferences(s: Schema)
  {
    AllRefs((r: RefNode) => false, s)
  }

  /** A weaker property holds of every reachable reference wherever a stronger one does. */
  lemma {:induction false} AllRefsMono(P: RefNode -> bool, Q: RefNode -> bool, s: Schema)
    requires forall r :: P(r) ==> Q(r)
    requires AllRefs(P, s)
    ensures AllRefs(Q, s)
  {
    match s
    case Reference(r) =>
    case Array(e) => AllRefsMono(P, Q, e);
    case Or(items) =>
      forall i | 0 <= i < |items| ensures AllRefs(Q, items[i]) {
        AllRefsMono(P, Q, items[i]);
      }
    case And(items) =>
      forall i | 0 <= i < |items| ensures AllRefs(Q, items[i]) {
        AllRefsMono(P, Q, items[i]);
      }
    case Tuple(items) =>
      forall i | 0 <= i < |items| ensures AllRefs(Q, items[i]) {
        AllRefsMono(P, Q, items[i]);
      }
    case Map(k, v) =>
      AllRefsMono(P, Q, k);
      AllRefsMono(P, Q, v);
    case _ =>
  }

  /** Resolving more nodes never un-resolves a tree. */
  lemma ResolvedInMono(small: set<RefNode>, large: set<RefNode>, s: Schema)
    requires small <= large
    requires ResolvedIn(small, s)
    ensures ResolvedIn(large, s)
  {
    AllRefsMono((r: RefNode) => r in small, (r: RefNode) => r in large, s);
  }
}
