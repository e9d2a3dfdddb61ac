/** The event that the generated `build` starts a guard with, and the document it prints. */
module SchemaBuild {
  import opened Wrappers
  import opened Json
  import opened Schemas
  import opened SchemaCompiler
  import opened SchemaTables
  import opened SchemaDefaults
  import opened WideEvents
  import opened EventLaws
  import opened Serializer
  import opened EventDocuments
  import opened DocumentMeaning
  import SchemaParser
  import SchemaGrammar

  predicate CanBuild(t: Tables) {
    t.idSegments != [] && forall i :: 0 <= i < |t.defaults| ==> t.defaults[i].segments != []
  }

  /** The default writes, then the id. */
  function Built(t: Tables, variant: string -> string, id: string): Event
    requires CanBuild(t)
  {
    Write(Replay(t, variant, t.defaults), EnumPath(t, variant, t.idSegments), Set(Value.Str(id)))
  }

  /** With a preset: what its closure does to the event, as calls, comes before the id. */
  function BuiltWith(t: Tables, variant: string -> string, id: string, preset: seq<Mutation>): Event
    requires CanBuild(t) && Runnable(preset)
  {
    Write(Run(Replay(t, variant, t.defaults), preset), EnumPath(t, variant, t.idSegments), Set(Value.Str(id)))
  }

  /** One call of a preset's closure. */
  method Perform(event: WideEvent, m: Mutation)
    requires m.Update? ==> m.path != []
    modifies event
    ensures event.Contents() == Apply(old(event.Contents()), m)
  {
    match m {
      case Update(path, Set(v)) => event.AddPath(path, v);
      case Update(path, Inc) => event.IncPath(path);
      case Update(path, Dec) => event.DecPath(path);
      case Update(path, AddN(n)) => event.AddNPath(path, n);
      case Log(LogEntry(level, Owned(text))) => event.AppendLogEntry(level, text);
      case Log(LogEntry(level, Static(text))) => event.AppendLogEntryStatic(level, text);
    }
  }

  method Build(t: Tables, variant: string -> string, id: string, preset: seq<Mutation>) returns (event: WideEvent)
    requires CanBuild(t) && Runnable(preset)
    ensures fresh(event) && event.Contents() == BuiltWith(t, variant, id, preset)
    ensures preset == [] ==> event.Contents() == Built(t, variant, id)
  {
    event := new WideEvent();
    for i := 0 to |t.defaults|
      invariant fresh(event) && event.Contents() == Replay(t, variant, t.defaults[..i])
    {
      assert t.defaults[..i + 1][..i] == t.defaults[..i];
      event.AddPath(EnumPath(t, variant, t.defaults[i].segments), t.defaults[i].value);
    }
    assert t.defaults[..|t.defaults|] == t.defaults;
    for i := 0 to |preset|
      invariant fresh(event) && event.Contents() == Run(Replay(t, variant, t.defaults), preset[..i])
    {
      assert preset[..i + 1][..i] == preset[..i];
      Perform(event, preset[i]);
    }
    assert preset[..|preset|] == preset;
    event.AddPath(EnumPath(t, variant, t.idSegments), Value.Str(id));
  }

  /** What a new event holds at a path: the id on its path, and elsewhere what is declared. */
  function NewKind(b: Builtins, root: JsonNode, id: string, q: Segments): Kind {
    var idPath := [b.event, b.id];
    if q == idPath then Leaf(Value.Str(id))
    else if q < idPath then Node
    else if idPath < q then Absent
    else DeclaredKind(root, q)
  }

  /** What `build` needs of the tables holds after every accepted schema. */
  lemma Buildable(b: Builtins, root: JsonNode)
    requires root.Object? && DistinctKeys(root)
    requires Compile(b, root).Ok?
    ensures var t := Compile(b, root).value;
            && KeyTable(t) && CanBuild(t)
            && t.idSegments == [b.event, b.id] && Keyed(t, t.idSegments)
  {
    hide Compile, DistinctKeys, Join, Resolve, KeyTable;
    CompiledTables(b, root);
    DefaultsKeyed(b, root);
    var t := Compile(b, root).value;
  }

  lemma NewEventReads(b: Builtins, root: JsonNode, variant: string -> string, id: string, q: Segments)
    requires root.Object? && DistinctKeys(root)
    requires Compile(b, root).Ok? && DistinctVariants(Compile(b, root).value.keys, variant)
    requires Keyed(Compile(b, root).value, q)
    ensures var t := Compile(b, root).value;
            CanBuild(t) &&
            KindOf(Get(Built(t, variant, id), EnumPath(t, variant, q))) == NewKind(b, root, id, q)
  {
    hide Compile, DistinctKeys, DistinctVariants, DeclaredKind, Keyed, EnumPath, KeyTable, Replay;
    Buildable(b, root);
    DefaultsRebuildSchema(b, root, variant, q);
    var t := Compile(b, root).value;
    WriteKind(t, variant, Replay(t, variant, t.defaults), DefaultEntry(t.idSegments, Value.Str(id)), q);
  }

  lemma {:induction false} ReplayWellFormed(t: Tables, variant: string -> string, ds: seq<DefaultEntry>)
    requires KeyTable(t) && DistinctVariants(t.keys, variant) && AllKeyed(t, ds)
    requires forall i :: 0 <= i < |ds| ==> !ds[i].value.Object? && !ds[i].value.Array?
    ensures EventLaws.WellFormed(Replay(t, variant, ds), |t.keys|)
  {
    hide EnumPath, KeyTable, DistinctVariants;
    if ds != [] {
      var front, last := ds[..|ds| - 1], ds[|ds| - 1];
      ReplayWellFormed(t, variant, front);
      EnumPathInKeys(t, variant, last.segments);
      WriteWellFormed(Replay(t, variant, front), EnumPath(t, variant, last.segments), Set(last.value), |t.keys|);
    }
  }

  lemma DeclaredScalars(root: JsonNode, ds: seq<DefaultEntry>)
    requires AllDeclared(root, ds)
    ensures forall i :: 0 <= i < |ds| ==> !ds[i].value.Object? && !ds[i].value.Array?
  {
    hide NodeAt;
    forall i | 0 <= i < |ds|
      ensures !ds[i].value.Object? && !ds[i].value.Array?
    {
      assert Declared(root, ds[i]);
    }
  }

  lemma DefaultsWellFormed(b: Builtins, root: JsonNode, variant: string -> string)
    requires root.Object? && DistinctKeys(root)
    requires Compile(b, root).Ok? && DistinctVariants(Compile(b, root).value.keys, variant)
    ensures var t := Compile(b, root).value;
            CanBuild(t) && EventLaws.WellFormed(Replay(t, variant, t.defaults), |t.keys|)
  {
    hide Walk, AutoAddDuration, AutoAddEvent, DistinctKeys, Exactly, EnumPath, Keyed, KeyTable,
      DistinctVariants, Replay;
    var t := Compile(b, root).value;
    Buildable(b, root);
    PassesExactly(b, root);
    ExactlyDeclared(root, t.defaults);
    DeclaredScalars(root, t.defaults);
    DefaultsKeyed(b, root);
    ReplayWellFormed(t, variant, t.defaults);
  }

  /** A new event is a well-formed tree over the schema's keys. */
  lemma BuiltWellFormed(b: Builtins, root: JsonNode, variant: string -> string, id: string)
    requires root.Object? && DistinctKeys(root)
    requires Compile(b, root).Ok? && DistinctVariants(Compile(b, root).value.keys, variant)
    ensures var t := Compile(b, root).value;
            CanBuild(t) && EventLaws.WellFormed(Built(t, variant, id), |t.keys|)
  {
    hide Compile, DistinctKeys, EnumPath, Keyed, KeyTable, DistinctVariants, Replay;
    var t := Compile(b, root).value;
    Buildable(b, root);
    DefaultsWellFormed(b, root, variant);
    EnumPathInKeys(t, variant, t.idSegments);
    WriteWellFormed(Replay(t, variant, t.defaults), EnumPath(t, variant, t.idSegments), Set(Value.Str(id)), |t.keys|);
  }

  /** The JSON value a reader finds, by kind. */
  ghost predicate Shows(ns: Names, found: Option<Json>, kind: Kind) {
    match kind
    case Absent => found.None?
    case Leaf(v) => found.Some? && StandsFor(ns, found.value, v)
    case Node => found.Some? && found.value.Obj?
  }

  lemma KindShows(ns: Names, v: Option<Value>)
    ensures Shows(ns, if v.Some? then Some(DocValue(ns, v.value)) else None, KindOf(v))
  {
    if v.Some? {
      ValueStands(ns, v.value);
    }
  }

  /** No log entries at any depth. */
  predicate NoLogs(ev: Event)
    decreases ev
  {
    ev.logEntries == [] &&
    forall k :: 0 <= k < |ev.values| && ev.values[k].Some? && ev.values[k].value.Object? ==>
      NoLogs(ev.values[k].value.ev)
  }

  lemma {:induction false} WriteNoLogs(ev: Event, p: Path, v: Value)
    requires NoLogs(ev) && p != [] && !v.Object?
    ensures NoLogs(Write(ev, p, Set(v)))
    decreases |p|
  {
    if |p| > 1 {
      ChildNoLogs(ev, p[0]);
      WriteNoLogs(ChildAt(ev, p[0]), p[1..], v);
    }
  }

  lemma ChildNoLogs(ev: Event, k: Key)
    requires NoLogs(ev)
    ensures NoLogs(ChildAt(ev, k))
  {
  }

  lemma {:induction false} ReplayNoLogs(t: Tables, variant: string -> string, ds: seq<DefaultEntry>)
    requires forall i :: 0 <= i < |ds| ==> ds[i].segments != [] && !ds[i].value.Object?
    ensures NoLogs(Replay(t, variant, ds))
  {
    hide EnumIndex;
    if ds != [] {
      var front, last := ds[..|ds| - 1], ds[|ds| - 1];
      ReplayNoLogs(t, variant, front);
      WriteNoLogs(Replay(t, variant, front), EnumPath(t, variant, last.segments), last.value);
    }
  }

  lemma {:induction false} NothingShadowed(ns: Names, ev: Event, p: Path)
    requires NoLogs(ev) && InKeys(p, |ns.keys|)
    ensures Unshadowed(ns, ev, p)
    decreases |p|
  {
    if |p| > 1 && Slot(ev, p[0]).Some? && Slot(ev, p[0]).value.Object? {
      NothingShadowed(ns, Slot(ev, p[0]).value.ev, p[1..]);
    }
  }

  lemma BuiltNoLogs(b: Builtins, root: JsonNode, variant: string -> string, id: string)
    requires root.Object? && DistinctKeys(root) && Compile(b, root).Ok?
    ensures var t := Compile(b, root).value;
            CanBuild(t) && NoLogs(Built(t, variant, id))
  {
    hide Walk, AutoAddDuration, AutoAddEvent, DistinctKeys, Exactly, EnumIndex, Keyed, KeyTable, Replay;
    var t := Compile(b, root).value;
    Buildable(b, root);
    PassesExactly(b, root);
    ExactlyDeclared(root, t.defaults);
    DeclaredScalars(root, t.defaults);
    ReplayNoLogs(t, variant, t.defaults);
    WriteNoLogs(Replay(t, variant, t.defaults), EnumPath(t, variant, t.idSegments), Value.Str(id));
  }

  /**
   From schema to document: read under its declared names, the document that a new event prints
   holds what the schema declares, and the id.
   */
  lemma NewEventDocument(
      b: Builtins, root: JsonNode, variant: string -> string, id: string, ns: Names, q: Segments)
    requires root.Object? && DistinctKeys(root)
    requires Compile(b, root).Ok? && DistinctVariants(Compile(b, root).value.keys, variant)
    requires ns.keys == Compile(b, root).value.keys
    requires Keyed(Compile(b, root).value, q)
    ensures var t := Compile(b, root).value;
            CanBuild(t) &&
            Shows(ns, Lookup(DocEvent(ns, Built(t, variant, id)), q), NewKind(b, root, id, q))
  {
    hide Compile, DistinctKeys, DeclaredKind, NewKind, Built, DocEvent, DocValue, Lookup, Get;
    Buildable(b, root);
    NewEventReads(b, root, variant, id, q);
    var t := Compile(b, root).value;
    var path := EnumPath(t, variant, q);
    EnumPathInKeys(t, variant, q);
    assert NamesOf(ns, path) == q;
    KeysDistinct(t);
    BuiltNoLogs(b, root, variant, id);
    NothingShadowed(ns, Built(t, variant, id), path);
    DocumentReads(ns, Built(t, variant, id), path);
    KindShows(ns, Get(Built(t, variant, id), path));
  }

  /** The same from the tokens of the schema literal on. */
  lemma LiteralToDocument(
      fl: SchemaParser.Floats, ts: SchemaParser.Tokens, b: Builtins, variant: string -> string, id: string,
      ns: Names, q: Segments)
    requires SchemaParser.ParseSchema(fl, ts).Ok?
    requires var root := SchemaParser.ParseSchema(fl, ts).value;
             && Compile(b, root).Ok?
             && DistinctVariants(Compile(b, root).value.keys, variant)
             && ns.keys == Compile(b, root).value.keys
             && Keyed(Compile(b, root).value, q)
    ensures var root := SchemaParser.ParseSchema(fl, ts).value;
            var t := Compile(b, root).value;
            CanBuild(t) &&
            Shows(ns, Lookup(DocEvent(ns, Built(t, variant, id)), q), NewKind(b, root, id, q))
  {
    hide Compile, DistinctKeys, NewKind, Built, DocEvent, Lookup, Keyed, DistinctVariants, Shows;
    SchemaGrammar.AcceptedDistinct(fl, ts);
    NewEventDocument(b, SchemaParser.ParseSchema(fl, ts).value, variant, id, ns, q);
  }

  lemma KeysDistinct(t: Tables)
    requires KeyTable(t)
    ensures forall i, j :: 0 <= i < j < |t.keys| ==> t.keys[i] != t.keys[j]
  {
  }

  // ---- With a preset ----

  /** A preset cannot change the id, whatever it writes. */
  lemma PresetKeepsId(b: Builtins, root: JsonNode, variant: string -> string, id: string, preset: seq<Mutation>)
    requires root.Object? && DistinctKeys(root) && Compile(b, root).Ok? && Runnable(preset)
    ensures var t := Compile(b, root).value;
            var i := EnumPath(t, variant, t.idSegments);
            CanBuild(t) && i != [] && Get(BuiltWith(t, variant, id, preset), i) == Some(Value.Str(id))
  {
    hide Compile, DistinctKeys, Keyed, KeyTable, EnumIndex, Replay, Run, Get;
    Buildable(b, root);
    var t := Compile(b, root).value;
    ReadBack(Run(Replay(t, variant, t.defaults), preset), EnumPath(t, variant, t.idSegments), Set(Value.Str(id)));
  }

  /**
   A path apart from the id that the preset writes only as a whole holds what the schema declares there,
   changed by the preset's own updates of it, in their order.
   */
  lemma PresetReads(
      b: Builtins, root: JsonNode, variant: string -> string, id: string, preset: seq<Mutation>, q: Segments)
    returns (declared: Option<Value>)
    requires root.Object? && DistinctKeys(root)
    requires Compile(b, root).Ok? && DistinctVariants(Compile(b, root).value.keys, variant)
    requires Keyed(Compile(b, root).value, q) && q != []
    requires !([b.event, b.id] <= q) && !(q <= [b.event, b.id])
    requires Runnable(preset)
    requires var path := EnumPath(Compile(b, root).value, variant, q);
             forall i :: 0 <= i < |preset| && preset[i].Update? ==>
               preset[i].path == path || Incomparable(preset[i].path, path)
    ensures KindOf(declared) == DeclaredKind(root, q)
    ensures var t := Compile(b, root).value;
            var path := EnumPath(t, variant, q);
            CanBuild(t) && path != []
            && Get(BuiltWith(t, variant, id, preset), path) == Fold(declared, UpdatesAt(preset, path))
  {
    hide Compile, DistinctKeys, DistinctVariants, DeclaredKind, Keyed, KeyTable, Replay, Run, Get, EnumIndex, Fold,
      UpdatesAt, KindOf;
    Buildable(b, root);
    DefaultsRebuildSchema(b, root, variant, q);
    var t := Compile(b, root).value;
    var path, idPath := EnumPath(t, variant, q), EnumPath(t, variant, t.idSegments);
    declared := Get(Replay(t, variant, t.defaults), path);
    RunReads(Replay(t, variant, t.defaults), preset, path);
    EnumPathPrefix(t, variant, q, t.idSegments);
    EnumPathPrefix(t, variant, t.idSegments, q);
    ReadElsewhere(Run(Replay(t, variant, t.defaults), preset), idPath, Set(Value.Str(id)), path);
  }

  lemma {:induction false} RunStaysWellFormed(ev: Event, ms: seq<Mutation>, maxKeys: nat)
    requires EventLaws.WellFormed(ev, maxKeys) && LegalRun(ms, maxKeys)
    ensures EventLaws.WellFormed(Run(ev, ms), maxKeys)
  {
    if ms != [] {
      var last := ms[|ms| - 1];
      assert EventLaws.Legal(last, maxKeys);
      RunStaysWellFormed(ev, ms[..|ms| - 1], maxKeys);
      if last.Update? {
        WriteWellFormed(Run(ev, ms[..|ms| - 1]), last.path, last.u, maxKeys);
      }
    }
  }

  /** And the event is well formed, whatever legal calls the preset makes. */
  lemma PresetWellFormed(b: Builtins, root: JsonNode, variant: string -> string, id: string, preset: seq<Mutation>)
    requires root.Object? && DistinctKeys(root)
    requires Compile(b, root).Ok? && DistinctVariants(Compile(b, root).value.keys, variant)
    requires LegalRun(preset, |Compile(b, root).value.keys|)
    ensures var t := Compile(b, root).value;
            CanBuild(t) && EventLaws.WellFormed(BuiltWith(t, variant, id, preset), |t.keys|)
  {
    hide Compile, DistinctKeys, Exactly, EnumIndex, Keyed, KeyTable, DistinctVariants, Replay, Run,
      EventLaws.WellFormed, Built;
    var t := Compile(b, root).value;
    Buildable(b, root);
    DefaultsWellFormed(b, root, variant);
    var defaults := Replay(t, variant, t.defaults);
    RunStaysWellFormed(defaults, preset, |t.keys|);
    EnumPathInKeys(t, variant, t.idSegments);
    WriteWellFormed(Run(defaults, preset), EnumPath(t, variant, t.idSegments), Set(Value.Str(id)), |t.keys|);
  }
}
