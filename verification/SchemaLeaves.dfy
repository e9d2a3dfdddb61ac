/** Leaf by leaf: what the schema literal says is what a new event holds and what its document shows. */
module SchemaLeaves {
  import opened Wrappers
  import opened Json
  import opened Schemas
  import opened SchemaCompiler
  import opened SchemaTables
  import opened SchemaDefaults
  import opened SchemaKeys
  import opened SchemaBuild
  import opened WideEvents
  import opened EventLaws
  import opened Serializer
  import opened EventDocuments
  import opened DocumentMeaning

  /** The value that a declared leaf must give, by the kind of literal it is. */
  predicate LeafValue(node: JsonNode, v: Option<Value>) {
    match node
    case Bool(b) => v == Some(Value.Bool(b))
    case Num(Int(i)) => v == Some(I64(i))
    case Num(Uint(u)) => v == Some(U64(u))
    case Num(Float(f)) => v == Some(F64(f))
    case Str(s) => v == Some(Value.Str(s))
    case Null => v == None
    case Mark(_) => v == None
    case Object(_) => v.Some? ==> v.value.Object?
  }

  /** And what a reader of the document must find. */
  ghost predicate LeafShown(node: JsonNode, found: Option<Json>) {
    match node
    case Bool(b) => found == Some(Json.Bool(b))
    case Num(Int(i)) => found.Some? && found.value.Number? && Denotes(found.value.lexeme, i)
    case Num(Uint(u)) => found.Some? && found.value.Number? && Denotes(found.value.lexeme, u)
    case Num(Float(Finite(token))) => found == Some(Number(token))
    case Num(Float(NonFinite)) => found == Some(Json.Null)
    case Str(s) => found == Some(Json.Str(s))
    case Null => found == None
    case Mark(_) => found == None
    case Object(_) => found.Some? ==> found.value.Obj?
  }

  /**
   For every accepted schema and every declared path that is not at, above or below the id's: a new event
   holds the literal of the leaf there, in its own type; a null leaf and a marker hold nothing.
   */
  lemma NewEventLeaf(b: Builtins, root: JsonNode, variant: string -> string, id: string, q: Segments)
    requires root.Object? && DistinctKeys(root)
    requires Compile(b, root).Ok? && DistinctVariants(Compile(b, root).value.keys, variant)
    requires q != [] && NodeAt(root, q).Some? && !(q <= [b.event, b.id]) && !([b.event, b.id] <= q)
    ensures var t := Compile(b, root).value;
            && Keyed(t, q) && CanBuild(t)
            && LeafValue(NodeAt(root, q).value, Get(Built(t, variant, id), EnumPath(t, variant, q)))
  {
    hide Compile, DistinctKeys, DistinctVariants, NodeAt, Keyed, EnumPath, Built, Get;
    DeclaredKeyed(b, root, q);
    NewEventReads(b, root, variant, id, q);
  }

  /** The same of its document: the literal and the printed JSON agree leaf by leaf. */
  lemma NewDocumentLeaf(
      b: Builtins, root: JsonNode, variant: string -> string, id: string, ns: Names, q: Segments)
    requires root.Object? && DistinctKeys(root)
    requires Compile(b, root).Ok? && DistinctVariants(Compile(b, root).value.keys, variant)
    requires ns.keys == Compile(b, root).value.keys
    requires q != [] && NodeAt(root, q).Some? && !(q <= [b.event, b.id]) && !([b.event, b.id] <= q)
    ensures var t := Compile(b, root).value;
            && Keyed(t, q) && CanBuild(t)
            && LeafShown(NodeAt(root, q).value, Lookup(DocEvent(ns, Built(t, variant, id)), q))
  {
    hide Compile, DistinctKeys, DistinctVariants, NodeAt, Keyed, Built, DocEvent, Lookup;
    DeclaredKeyed(b, root, q);
    NewEventDocument(b, root, variant, id, ns, q);
  }

  /** And the id is there, as a string. */
  lemma NewDocumentId(b: Builtins, root: JsonNode, variant: string -> string, id: string, ns: Names)
    requires root.Object? && DistinctKeys(root)
    requires Compile(b, root).Ok? && DistinctVariants(Compile(b, root).value.keys, variant)
    requires ns.keys == Compile(b, root).value.keys
    ensures var t := Compile(b, root).value;
            CanBuild(t) && Lookup(DocEvent(ns, Built(t, variant, id)), [b.event, b.id]) == Some(Json.Str(id))
  {
    hide Compile, DistinctKeys, DistinctVariants, Keyed, Built, DocEvent, Lookup, KeyTable;
    Buildable(b, root);
    NewEventDocument(b, root, variant, id, ns, [b.event, b.id]);
  }
}
