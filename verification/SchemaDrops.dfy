/** What a guard of a compiled schema emits: which built-in fields its drop leaves readable. */
module SchemaDrops {
  import opened Wrappers
  import opened Schemas
  import opened SchemaCompiler
  import opened SchemaTables
  import opened SchemaPaths
  import opened SchemaMarkers
  import opened SchemaDefaults
  import opened SchemaBuild
  import opened WideEvents
  import opened EventLaws
  import opened ScopedGuards
  import opened Serializer
  import opened EventDocuments

  /** The two writes of a drop, on the paths of the compiled schema. */
  function FinalOf(t: Tables, variant: string -> string, duration: Float, timestamp: string): Final {
    Final(EnumPath(t, variant, t.durationSegments), duration, EnumPath(t, variant, t.timestampSegments), timestamp)
  }

  /** Where the duration goes. */
  function DurationOf(b: Builtins, root: JsonNode): Segments
    requires root.Object?
  {
    OrElse(EventMarker(b, root), DurationPathOf(b, root))
  }

  // ---- The duration path is never above the other two ----

  /** The duration path, when it is not the built-in one or under the duration key, is a declared marker. */
  lemma DurationPathKind(b: Builtins, root: JsonNode)
    requires root.Object? && DistinctKeys(root)
    ensures var p := DurationPathOf(b, root);
            && p != []
            && ([b.duration] < p || NodeAt(root, p) == Some(Mark(DurationMarker)))
  {
    hide LastMarker, LastMarkerIn, NodeAt, DistinctKeys;
    match Find(root.entries, b.duration) {
      case Some(Object(entries)) =>
        MarkersBelowPath(entries, [b.duration]);
        if LastMarker(root, []).Some? {
          RootAt(root);
          LastMarkerNode(root, root, []);
          NoMarkerAtRoot(root);
        }
      case _ =>
    }
  }

  lemma FirstIsFound(root: JsonNode, p: Segments)
    requires |p| == 1 && NodeAt(root, p).Some?
    ensures root.Object? && Find(root.entries, p[0]) == NodeAt(root, p)
  {
    var child := Find(root.entries, p[0]).value;
    assert NodeAt(child, p[1..]) == Some(child);
  }

  lemma DurationNotAbove(b: Builtins, root: JsonNode, name: string)
    requires root.Object? && DistinctKeys(root) && !BadEvent(b, root)
    ensures !(DurationOf(b, root) < [b.event, name]) && DurationOf(b, root) != []
  {
    hide EventMarker, DurationPathOf, NodeAt, DistinctKeys;
    EventMarkerBelow(b, root);
    DurationPathKind(b, root);
    var p := DurationOf(b, root);
    if |p| == 1 && NodeAt(root, p) == Some(Mark(DurationMarker)) {
      FirstIsFound(root, p);
      assert p[0] != b.event;
    }
  }

  // ---- The fields of an emitted event ----

  /**
   The duration is not at or below the timestamp or the id, and these two are apart, or share a path and
   a text.
   */
  predicate FieldsApart(b: Builtins, root: JsonNode, timestamp: string, id: string)
    requires root.Object?
  {
    && !([b.event, b.timestamp] <= DurationOf(b, root))
    && !([b.event, b.id] <= DurationOf(b, root))
    && (b.timestamp == b.id ==> timestamp == id)
  }

  /** What the drop of an accepted schema's guard needs to know of its paths. */
  lemma DropPaths(b: Builtins, root: JsonNode, variant: string -> string)
    requires root.Object? && DistinctKeys(root) && Compile(b, root).Ok?
    requires DistinctVariants(Compile(b, root).value.keys, variant)
    ensures var t := Compile(b, root).value;
            var d, ts, i := t.durationSegments, t.timestampSegments, t.idSegments;
            && KeyTable(t) && Keyed(t, d) && Keyed(t, ts) && Keyed(t, i)
            && d == DurationOf(b, root) && ts == [b.event, b.timestamp] && i == [b.event, b.id]
            && !(d < ts) && !(d < i)
            && (EnumPath(t, variant, ts) <= EnumPath(t, variant, d) <==> ts <= d)
            && (EnumPath(t, variant, d) <= EnumPath(t, variant, ts) <==> d <= ts)
            && (EnumPath(t, variant, i) <= EnumPath(t, variant, d) <==> i <= d)
            && (EnumPath(t, variant, d) <= EnumPath(t, variant, i) <==> d <= i)
            && (EnumPath(t, variant, ts) <= EnumPath(t, variant, i) <==> ts <= i)
            && (EnumPath(t, variant, i) <= EnumPath(t, variant, ts) <==> i <= ts)
  {
    hide Compile, DistinctKeys, DurationOf, BadEvent, Keyed, KeyTable, EnumPath, Join, Resolve, DistinctVariants;
    CompiledTables(b, root);
    DurationPathIs(b, root);
    assert Compile(b, root).value.durationSegments == DurationOf(b, root) by { DurationOfIs(b, root); }
    CompileAccepts(b, root);
    DurationNotAbove(b, root, b.timestamp);
    DurationNotAbove(b, root, b.id);
    var t := Compile(b, root).value;
    var d, ts, i := t.durationSegments, t.timestampSegments, t.idSegments;
    EnumPathPrefix(t, variant, ts, d);
    EnumPathPrefix(t, variant, d, ts);
    EnumPathPrefix(t, variant, i, d);
    EnumPathPrefix(t, variant, d, i);
    EnumPathPrefix(t, variant, ts, i);
    EnumPathPrefix(t, variant, i, ts);
  }

  lemma DurationOfIs(b: Builtins, root: JsonNode)
    requires root.Object?
    ensures DurationOf(b, root) == OrElse(EventMarker(b, root), DurationPathOf(b, root))
  {
  }

  predicate ReadsFields(e: Event, f: Final, idPath: Path, id: string)
    requires f.Valid() && idPath != []
  {
    && Get(e, f.durationPath) == Some(F64(f.duration))
    && Get(e, f.timestampPath) == Some(Value.Str(f.timestamp))
    && Get(e, idPath) == Some(Value.Str(id))
  }

  /** On paths: the three fields read back if and only if their paths are apart. */
  lemma DropFieldsIff(ev: Event, f: Final, idPath: Path, id: string)
    requires f.Valid() && |idPath| == |f.timestampPath| && idPath != []
    requires Get(ev, idPath) == Some(Value.Str(id))
    requires !(f.durationPath < f.timestampPath) && !(f.durationPath < idPath)
    ensures ReadsFields(DropEvent(ev, f), f, idPath, id)
       <==> && !(f.timestampPath <= f.durationPath) && !(idPath <= f.durationPath)
            && (f.timestampPath == idPath ==> f.timestamp == id)
  {
    hide DropEvent, Get;
    DropReadsIff(ev, f);
    if f.timestampPath != idPath {
      assert Incomparable(f.timestampPath, idPath);
      if idPath <= f.durationPath {
        DropOverwrites(ev, f, idPath);
      } else {
        DropKeeps(ev, f, idPath);
      }
    }
  }

  /**
   For every accepted schema and every event that still has its id: after the drop the duration, the
   timestamp and the id can all be read if and only if the schema keeps their paths apart.
   */
  lemma GuardFieldsIff(
      b: Builtins, root: JsonNode, variant: string -> string, ev: Event, id: string,
      duration: Float, timestamp: string)
    requires root.Object? && DistinctKeys(root) && Compile(b, root).Ok?
    requires DistinctVariants(Compile(b, root).value.keys, variant)
    requires var t := Compile(b, root).value;
             var i := EnumPath(t, variant, t.idSegments);
             i != [] && Get(ev, i) == Some(Value.Str(id))
    ensures var t := Compile(b, root).value;
            var f := FinalOf(t, variant, duration, timestamp);
            f.Valid() &&
            (ReadsFields(DropEvent(ev, f), f, EnumPath(t, variant, t.idSegments), id)
             <==> FieldsApart(b, root, timestamp, id))
  {
    hide Compile, DistinctKeys, DurationOf, DropEvent, ReadsFields, DistinctVariants, Get, KeyTable;
    DropPaths(b, root, variant);
    var t := Compile(b, root).value;
    var f := FinalOf(t, variant, duration, timestamp);
    var i := EnumPath(t, variant, t.idSegments);
    SameLeaf(b);
    SamePath(f.timestampPath, i);
    SamePath(t.timestampSegments, t.idSegments);
    DropFieldsIff(ev, f, i, id);
  }

  /** In particular for the event that a new guard starts with, whatever its preset does. */
  lemma NewGuardFieldsIff(
      b: Builtins, root: JsonNode, variant: string -> string, id: string, preset: seq<Mutation>,
      duration: Float, timestamp: string)
    requires root.Object? && DistinctKeys(root) && Compile(b, root).Ok? && Runnable(preset)
    requires DistinctVariants(Compile(b, root).value.keys, variant)
    ensures var t := Compile(b, root).value;
            var f := FinalOf(t, variant, duration, timestamp);
            var i := EnumPath(t, variant, t.idSegments);
            CanBuild(t) && f.Valid() && i != [] &&
            (ReadsFields(DropEvent(BuiltWith(t, variant, id, preset), f), f, i, id)
             <==> FieldsApart(b, root, timestamp, id))
  {
    hide Compile, DistinctKeys, DropEvent, ReadsFields, DistinctVariants, Get, KeyTable, BuiltWith, EnumIndex,
      FieldsApart;
    Buildable(b, root);
    PresetKeepsId(b, root, variant, id, preset);
    GuardFieldsIff(
      b, root, variant, BuiltWith(Compile(b, root).value, variant, id, preset), id, duration, timestamp);
  }

  lemma SameLeaf(b: Builtins)
    ensures [b.event, b.timestamp] == [b.event, b.id] <==> b.timestamp == b.id
  {
    assert [b.event, b.timestamp][1] == b.timestamp && [b.event, b.id][1] == b.id;
  }

  lemma SamePath<T>(p: seq<T>, q: seq<T>)
    ensures p <= q && q <= p <==> p == q
  {
  }

  // ---- In terms of the marker ----

  /**
   With distinct built-in names the fields are apart if and only if the event object has no marker that
   the event pass leaves at or below the timestamp or the id.
   */
  lemma ApartByMarker(b: Builtins, root: JsonNode, timestamp: string, id: string)
    requires root.Object? && DistinctKeys(root) && Compile(b, root).Ok?
    requires b.event != b.duration && b.timestamp != b.id
    ensures FieldsApart(b, root, timestamp, id)
       <==> !(EventMarker(b, root).Some?
              && ([b.event, b.timestamp] <= EventMarker(b, root).value
                  || [b.event, b.id] <= EventMarker(b, root).value))
  {
    hide Compile, DistinctKeys, EventMarker, DurationPathOf, BadEvent, NodeAt;
    CompileAccepts(b, root);
    DurationPathKind(b, root);
    var p := DurationPathOf(b, root);
    if EventMarker(b, root).None? && p[0] == b.event {
      assert [b.event] <= p;
      EventMarkerComplete(b, root, p);
    }
  }

  // ---- Schemas that lose a field ----

  /** `{"event": {<name>: duration!}}` */
  function MarkedLeaf(name: string): JsonNode {
    JsonNode.Object([("event", JsonNode.Object([(name, Mark(DurationMarker))]))])
  }

  lemma MarkedLeafAccepted(name: string)
    ensures DistinctKeys(MarkedLeaf(name)) && Compile(DEFAULT_BUILTINS, MarkedLeaf(name)).Ok?
  {
    hide Compile, Find;
    var inner, b := JsonNode.Object([(name, Mark(DurationMarker))]), DEFAULT_BUILTINS;
    assert DistinctKeys(inner);
    OnlyEntry("event", inner, b.duration);
    OnlyEntry("event", inner, b.event);
    OnlyEntry(name, Mark(DurationMarker), b.id);
    assert [b.event, b.id][1..] == [b.id] && [b.id][1..] == [];
    assert !AmbiguousDuration(b, MarkedLeaf(name)) && !BadEvent(b, MarkedLeaf(name));
    assert NodeAt(inner, [b.id]) == if name == b.id then Some(Mark(DurationMarker)) else None;
    CompileAccepts(b, MarkedLeaf(name));
  }

  /**
   Two accepted schemas that lose a field of their new event: their marker is on a built-in leaf, and
   the duration's path then shows the timestamp, or the id's path the duration.
   */
  lemma LostFieldWitness(
      name: string, variant: string -> string, id: string, preset: seq<Mutation>, duration: Float,
      timestamp: string)
    requires (name == "timestamp" || name == "id") && Runnable(preset)
    requires Compile(DEFAULT_BUILTINS, MarkedLeaf(name)).Ok? ==>
               DistinctVariants(Compile(DEFAULT_BUILTINS, MarkedLeaf(name)).value.keys, variant)
    ensures Compile(DEFAULT_BUILTINS, MarkedLeaf(name)).Ok?
    ensures var t := Compile(DEFAULT_BUILTINS, MarkedLeaf(name)).value;
            var f := FinalOf(t, variant, duration, timestamp);
            var i := EnumPath(t, variant, t.idSegments);
            CanBuild(t) && f.Valid() && i != [] &&
            var e := DropEvent(BuiltWith(t, variant, id, preset), f);
            && !ReadsFields(e, f, i, id)
            && (name == "timestamp" ==> Get(e, f.durationPath) == Some(Value.Str(timestamp)))
            && (name == "id" ==> Get(e, i) == Some(F64(duration)))
  {
    hide Compile, DropEvent, ReadsFields, Get, KeyTable, Keyed, BuiltWith, EnumPath, DistinctVariants, CanBuild;
    var b, root := DEFAULT_BUILTINS, MarkedLeaf(name);
    MarkedLeafAccepted(name);
    LeafHoldsDuration(name);
    DropPaths(b, root, variant);
    NewGuardFieldsIff(b, root, variant, id, preset, duration, timestamp);
    var t := Compile(b, root).value;
    var f := FinalOf(t, variant, duration, timestamp);
    if name == "id" {
      assert b.id != b.timestamp;
      SameLeaf(b);
      assert t.timestampSegments != t.durationSegments;
    }
    DropReadsIff(BuiltWith(t, variant, id, preset), f);
  }

  lemma LeafHoldsDuration(name: string)
    requires name == "timestamp" || name == "id"
    ensures DurationOf(DEFAULT_BUILTINS, MarkedLeaf(name)) == ["event", name]
  {
    hide Find;
    var inner, b := JsonNode.Object([(name, Mark(DurationMarker))]), DEFAULT_BUILTINS;
    OnlyEntry("event", inner, b.event);
    OnlyEntry(name, Mark(DurationMarker), b.id);
    OnlyEntry(name, Mark(DurationMarker), b.timestamp);
    assert inner.entries[..0] == [];
  }

  // ---- The count of a dropped new event ----

  /** The duration key has a default of its own, and no marker in the event object takes its place. */
  predicate DurationHasDefault(b: Builtins, root: JsonNode)
    requires root.Object?
  {
    && EventMarker(b, root).None?
    && Find(root.entries, b.duration).Some?
    && HasValue(Find(root.entries, b.duration).value)
  }

  lemma KindOfSlot(v: Option<Value>)
    ensures KindOf(v).Leaf? <==> v.Some? && !HoldsObject(v)
    ensures KindOf(v).Node? <==> HoldsObject(v)
  {
  }

  /** The kinds of the two slots that a drop forces. */
  lemma NewSlots(b: Builtins, root: JsonNode, variant: string -> string, id: string, name: string)
    requires root.Object? && DistinctKeys(root) && Compile(b, root).Ok?
    requires DistinctVariants(Compile(b, root).value.keys, variant)
    requires name in Compile(b, root).value.keyIndex
    ensures var t := Compile(b, root).value;
            && CanBuild(t) && |EnumPath(t, variant, [name])| == 1
            && KindOf(Slot(Built(t, variant, id), EnumPath(t, variant, [name])[0])) == NewKind(b, root, id, [name])
  {
    hide Compile, DistinctKeys, NewKind, Built, DistinctVariants, EnumIndex, KindOf;
    Buildable(b, root);
    NewEventReads(b, root, variant, id, [name]);
  }

  /** Only a default at the duration key makes the first slot wrong-typed. */
  lemma FirstKind(b: Builtins, root: JsonNode, id: string)
    requires root.Object? && DistinctKeys(root) && !BadEvent(b, root)
    requires |DurationOf(b, root)| == 2
    ensures NewKind(b, root, id, [DurationOf(b, root)[0]]).Leaf? <==> DurationHasDefault(b, root)
  {
    hide EventMarker, DistinctKeys, HasDefault, LastMarker, LastMarkerIn;
    var p := DurationOf(b, root);
    var q := [p[0]];
    EventMarkerBelow(b, root);
    assert q <= p && [b.event] < [b.event, b.id];
    if EventMarker(b, root).Some? {
      assert p[0] == b.event;
    } else {
      DurationPathKind(b, root);
      DefaultAbove(root, p);
      if NodeAt(root, q).Some? {
        FirstIsFound(root, q);
      } else if Find(root.entries, p[0]).Some? {
        FoundFirst(root, p[0]);
      }
    }
  }

  lemma FoundFirst(root: JsonNode, name: string)
    requires root.Object? && Find(root.entries, name).Some?
    ensures NodeAt(root, [name]) == Find(root.entries, name)
  {
    assert NodeAt(Find(root.entries, name).value, [name][1..]) == Find(root.entries, name);
  }

  /** A node with something declared below it has no default. */
  lemma DefaultAbove(root: JsonNode, p: Segments)
    requires |p| == 2
    ensures NodeAt(root, p).Some? ==> NodeAt(root, [p[0]]).Some? && NodeAt(root, [p[0]]).value.Object?
  {
    if NodeAt(root, p).Some? {
      assert p == [p[0]] + [p[1]];
      NodeAtConcat(root, [p[0]], [p[1]]);
    }
  }

  lemma EnumPathHead(t: Tables, variant: string -> string, p: Segments)
    requires p != []
    ensures EnumPath(t, variant, p) != [] && EnumPath(t, variant, [p[0]]) == [EnumPath(t, variant, p)[0]]
  {
  }

  /** A drop that forces two slots of which the second holds an object already. */
  lemma ForcedCount(ev: Event, f: Final, maxKeys: nat)
    requires f.Short() && EventLaws.WellFormed(ev, maxKeys) && HoldsObject(Slot(ev, f.timestampPath[0]))
    requires InKeys(f.durationPath, maxKeys) && InKeys(f.timestampPath, maxKeys)
    ensures var e := DropEvent(ev, f);
            && (EventLaws.WellFormed(e, maxKeys) <==> !WrongType(ev, f.durationPath[0]))
            && e.presentCount == CountPresent(e.values) + if WrongType(ev, f.durationPath[0]) then 1 else 0
  {
    hide FastFinalised, Finalised;
    DropWellFormedIff(ev, f, maxKeys);
    FastRefinesSlow(ev, f);
    FinalisedWellFormed(ev, f, maxKeys);
  }

  lemma FinalisedWellFormed(ev: Event, f: Final, maxKeys: nat)
    requires f.Valid() && EventLaws.WellFormed(ev, maxKeys)
    requires InKeys(f.durationPath, maxKeys) && InKeys(f.timestampPath, maxKeys)
    ensures EventLaws.WellFormed(Finalised(ev, f), maxKeys)
  {
    WriteWellFormed(ev, f.durationPath, Set(F64(f.duration)), maxKeys);
    WriteWellFormed(Write(ev, f.durationPath, Set(F64(f.duration))), f.timestampPath,
                    Set(Value.Str(f.timestamp)), maxKeys);
  }

  /**
   For every accepted schema: dropping a new event keeps its tree well formed, with the exact count, if
   and only if the duration key has no default; otherwise one slot is counted twice.
   */
  lemma NewEventCountIff(
      b: Builtins, root: JsonNode, variant: string -> string, id: string, duration: Float, timestamp: string)
    requires root.Object? && DistinctKeys(root) && Compile(b, root).Ok?
    requires DistinctVariants(Compile(b, root).value.keys, variant)
    ensures var t := Compile(b, root).value;
            var f := FinalOf(t, variant, duration, timestamp);
            CanBuild(t) && f.Valid() &&
            var e := DropEvent(Built(t, variant, id), f);
            && (EventLaws.WellFormed(e, |t.keys|) <==> !DurationHasDefault(b, root))
            && (DurationHasDefault(b, root) ==> e.presentCount == CountPresent(e.values) + 1)
  {
    hide Compile, DistinctKeys, DurationOf, DropEvent, DistinctVariants, KeyTable, Built, EnumIndex, KindOf,
      NewKind, DurationHasDefault, EventLaws.WellFormed, BadEvent;
    DropPaths(b, root, variant);
    CompileAccepts(b, root);
    var t := Compile(b, root).value;
    var d, ts := t.durationSegments, t.timestampSegments;
    BuiltWellFormed(b, root, variant, id);
    var f, e := FinalOf(t, variant, duration, timestamp), Built(t, variant, id);
    EnumPathInKeys(t, variant, d);
    EnumPathInKeys(t, variant, ts);
    if f.Short() {
      NewSlots(b, root, variant, id, d[0]);
      NewSlots(b, root, variant, id, b.event);
      EnumPathHead(t, variant, d);
      EnumPathHead(t, variant, ts);
      EventIsNode(b, root, id);
      KindOfSlot(Slot(e, f.durationPath[0]));
      KindOfSlot(Slot(e, f.timestampPath[0]));
      FirstKind(b, root, id);
      ForcedCount(e, f, |t.keys|);
    } else {
      LongDuration(b, root);
      DropEventLong(e, f);
      FinalisedWellFormed(e, f, |t.keys|);
    }
  }

  lemma EventIsNode(b: Builtins, root: JsonNode, id: string)
    ensures NewKind(b, root, id, [b.event]) == Node
  {
    assert [b.event] < [b.event, b.id] && [b.event] != [b.event, b.id];
  }

  lemma DropEventLong(ev: Event, f: Final)
    requires f.Valid() && !f.Short()
    ensures DropEvent(ev, f) == Finalised(ev, f)
  {
  }

  /** A default at the duration key leaves the built-in path, of two segments. */
  lemma LongDuration(b: Builtins, root: JsonNode)
    requires root.Object?
    ensures DurationHasDefault(b, root) ==> |DurationOf(b, root)| == 2
  {
    hide EventMarker, LastMarker, LastMarkerIn;
  }

  /** `{"duration": 5}` */
  const NUMBER_AS_DURATION: JsonNode := JsonNode.Object([("duration", Num(Uint(5)))])

  /** The over-count is real: a schema that gives its duration key a plain number is accepted. */
  lemma OvercountWitness(variant: string -> string, id: string, duration: Float, timestamp: string)
    requires Compile(DEFAULT_BUILTINS, NUMBER_AS_DURATION).Ok? ==>
               DistinctVariants(Compile(DEFAULT_BUILTINS, NUMBER_AS_DURATION).value.keys, variant)
    ensures Compile(DEFAULT_BUILTINS, NUMBER_AS_DURATION).Ok?
    ensures var t := Compile(DEFAULT_BUILTINS, NUMBER_AS_DURATION).value;
            var f := FinalOf(t, variant, duration, timestamp);
            CanBuild(t) && f.Valid() &&
            var e := DropEvent(Built(t, variant, id), f);
            e.presentCount == CountPresent(e.values) + 1
  {
    hide Compile, Find, DropEvent, Built, DistinctVariants, FinalOf, CanBuild, CountPresent;
    var b, root := DEFAULT_BUILTINS, NUMBER_AS_DURATION;
    OnlyEntry("duration", Num(Uint(5)), b.duration);
    OnlyEntry("duration", Num(Uint(5)), b.event);
    assert !AmbiguousDuration(b, root) && !BadEvent(b, root);
    assert NodeAt(root, [b.event, b.id]) == None;
    CompileAccepts(b, root);
    assert DurationHasDefault(b, root);
    NewEventCountIff(b, root, variant, id, duration, timestamp);
  }

  // ---- A key of the log's name ----

  /** `{"log": null}` */
  const LOG_KEY: JsonNode := JsonNode.Object([("log", JsonNode.Null)])

  lemma LogKeyAccepted()
    ensures DistinctKeys(LOG_KEY)
    ensures var r := Compile(DEFAULT_BUILTINS, LOG_KEY);
            r.Ok? && Keyed(r.value, ["log"])
  {
    hide Compile, Find, Join, Resolve;
    var b, root := DEFAULT_BUILTINS, LOG_KEY;
    OnlyEntry("log", JsonNode.Null, b.duration);
    OnlyEntry("log", JsonNode.Null, b.event);
    OnlyEntry("log", JsonNode.Null, "log");
    NoEventAccepted(b, root);
    DotFreeDistinct(b, root);
    FoundFirst(root, "log");
    KnownExactly(b, root, ["log"]);
    CompiledTables(b, root);
  }

  /** The schema is accepted, and an event that sets its key and has log entries repeats a name. */
  lemma LogKeyWitness(
      variant: string -> string, id: string, ns: Names, value: Value, entries: seq<LogEntry>)
    requires ns.log == "log" && entries != []
    requires var r := Compile(DEFAULT_BUILTINS, LOG_KEY);
             r.Ok? ==> ns.keys == r.value.keys && DistinctVariants(r.value.keys, variant)
    ensures Compile(DEFAULT_BUILTINS, LOG_KEY).Ok?
    ensures var t := Compile(DEFAULT_BUILTINS, LOG_KEY).value;
            var path := EnumPath(t, variant, ["log"]);
            CanBuild(t) && path != [] &&
            var ev := Write(Built(t, variant, id), path, Set(value)).(logEntries := entries);
            !DistinctMembers(DocEvent(ns, ev))
  {
    hide Compile, Built, CanBuild, DocEvent, DistinctVariants, EnumIndex, Write, DistinctMembers;
    var b, root := DEFAULT_BUILTINS, LOG_KEY;
    LogKeyAccepted();
    Buildable(b, root);
    var t := Compile(b, root).value;
    var path := EnumPath(t, variant, ["log"]);
    EnumPathInKeys(t, variant, ["log"]);
    KeysDistinct(t);
    var written := Write(Built(t, variant, id), path, Set(value));
    ReadBack(Built(t, variant, id), path, Set(value));
    assert Get(written, path) == Slot(written, path[0]);
    var ev := written.(logEntries := entries);
    assert ns.keys[path[0]] == ns.log && Slot(ev, path[0]).Some?;
    NamesDistinctIff(ns, ev);
  }
}
