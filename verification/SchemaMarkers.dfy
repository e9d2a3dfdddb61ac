/** The `duration!` markers of a schema: which of them the compiled paths honour. */
module SchemaMarkers {
  import opened Wrappers
  import opened Schemas
  import opened SchemaCompiler
  import opened SchemaTables
  import opened SchemaDefaults
  import opened SchemaPaths

  /** The schema declares a `duration!` marker at this path. */
  predicate MarkerOn(root: JsonNode, p: Segments) {
    NodeAt(root, p) == Some(Mark(DurationMarker))
  }

  // ---- Every marker that a walk finds lies below the walk ----

  lemma {:induction false} MarkerBelowPath(node: JsonNode, path: Segments)
    ensures LastMarker(node, path).Some? ==> path <= LastMarker(node, path).value
    decreases node, 1
  {
    if node.Object? {
      MarkersBelowPath(node.entries, path);
    }
  }

  lemma {:induction false} MarkersBelowPath(entries: seq<(string, JsonNode)>, path: Segments)
    ensures LastMarkerIn(entries, path).Some? ==> path < LastMarkerIn(entries, path).value
    decreases entries, 0
  {
    if entries != [] {
      MarkersBelowPath(entries[..|entries| - 1], path);
      MarkerOfBelowPath(entries[|entries| - 1], path);
    }
  }

  lemma {:induction false} MarkerOfBelowPath(entry: (string, JsonNode), path: Segments)
    ensures LastMarkerOf(entry, path).Some? ==> path < LastMarkerOf(entry, path).value
    decreases entry, 0
  {
    MarkerBelowPath(entry.1, path + [entry.0]);
  }

  lemma {:induction false} AroundEventBelow(b: Builtins, entries: seq<(string, JsonNode)>)
    ensures AroundEventMarker(b, entries).Some? ==> [b.event] < AroundEventMarker(b, entries).value
  {
    hide LastMarkerOf;
    if entries != [] {
      AroundEventBelow(b, entries[..|entries| - 1]);
      MarkerOfBelowPath(entries[|entries| - 1], [b.event]);
    }
  }

  lemma EventMarkerBelow(b: Builtins, root: JsonNode)
    requires root.Object?
    ensures EventMarker(b, root).Some? ==> [b.event] < EventMarker(b, root).value
  {
    hide LastMarker, AroundEventMarker;
    match Find(root.entries, b.event) {
      case Some(Object(entries)) =>
        AroundEventBelow(b, entries);
        if Find(entries, b.id).Some? {
          MarkerBelowPath(Find(entries, b.id).value, [b.event, b.id]);
        }
        if Find(entries, b.timestamp).Some? {
          MarkerBelowPath(Find(entries, b.timestamp).value, [b.event, b.timestamp]);
        }
      case _ =>
    }
  }

  // ---- Every marker of the event object is found, and what is found is a marker ----

  /** A marker somewhere below a node is a marker of the node. */
  lemma {:induction false} MarkerAt(node: JsonNode, q: Segments)
    requires NodeAt(node, q) == Some(Mark(DurationMarker))
    ensures HasDurationMarker(node)
    decreases |q|
  {
    if q != [] {
      var child := Find(node.entries, q[0]).value;
      MarkerAt(child, q[1..]);
      var i :| 0 <= i < |node.entries| && node.entries[i] == (q[0], child);
      assert HasDurationMarker(node.entries[i].1);
    }
  }

  lemma {:induction false} AroundEventComplete(b: Builtins, entries: seq<(string, JsonNode)>, i: nat)
    requires i < |entries| && HasDurationMarker(entries[i].1)
    requires entries[i].0 != b.timestamp && entries[i].0 != b.id
    ensures AroundEventMarker(b, entries).Some?
  {
    hide HasDurationMarker, LastMarkerOf;
    var n := |entries| - 1;
    if i == n {
      MarkerFoundAt(entries[n], [b.event]);
    } else {
      AroundEventComplete(b, entries[..n], i);
    }
  }

  /** Every marker in the event object is met by the event pass. */
  lemma EventMarkerComplete(b: Builtins, root: JsonNode, p: Segments)
    requires root.Object? && DistinctKeys(root) && !BadEvent(b, root)
    requires NodeAt(root, p) == Some(Mark(DurationMarker)) && [b.event] <= p
    ensures EventMarker(b, root).Some?
  {
    hide HasDurationMarker, LastMarker, AroundEventMarker, DistinctKeys;
    var node := Find(root.entries, b.event).value;
    FindTopLevel(root, b.event);
    TopLevelNode(root, b.event, node);
    assert p[0] == b.event && p[1..] != [] by { EventIsNoMarker(b, root, p); }
    var leaf := Find(node.entries, p[1..][0]).value;
    MarkerAt(leaf, p[1..][1..]);
    var i :| 0 <= i < |node.entries| && node.entries[i] == (p[1..][0], leaf);
    if node.entries[i].0 == b.timestamp || node.entries[i].0 == b.id {
      MarkerFound(leaf, [b.event, node.entries[i].0]);
    } else {
      AroundEventComplete(b, node.entries, i);
    }
  }

  lemma EventIsNoMarker(b: Builtins, root: JsonNode, p: Segments)
    requires root.Object? && !BadEvent(b, root)
    requires NodeAt(root, p) == Some(Mark(DurationMarker)) && [b.event] <= p
    ensures p[0] == b.event && p[1..] != []
  {
  }

  /** A marker that the event pass meets on the first entries of the event object is declared. */
  lemma {:induction false} AroundEventNode(b: Builtins, root: JsonNode, node: JsonNode, n: nat)
    requires node.Object? && DistinctKeys(node) && NodeAt(root, [b.event]) == Some(node) && n <= |node.entries|
    requires AroundEventMarker(b, node.entries[..n]).Some?
    ensures MarkerOn(root, AroundEventMarker(b, node.entries[..n]).value)
  {
    hide LastMarker, NodeAt, DistinctKeys;
    var entry := node.entries[n - 1];
    assert node.entries[..n][..n - 1] == node.entries[..n - 1] && node.entries[..n][n - 1] == entry;
    if entry.0 != b.timestamp && entry.0 != b.id && LastMarker(entry.1, [b.event] + [entry.0]).Some? {
      ChildAtPath(root, node, n - 1, [b.event]);
      LastMarkerNode(root, entry.1, [b.event] + [entry.0]);
    } else {
      AroundEventNode(b, root, node, n - 1);
    }
  }

  lemma LeafMarkerNode(b: Builtins, root: JsonNode, node: JsonNode, name: string)
    requires node.Object? && DistinctKeys(node) && NodeAt(root, [b.event]) == Some(node)
    requires LeafMarker(b, node.entries, name).Some?
    ensures MarkerOn(root, LeafMarker(b, node.entries, name).value)
  {
    hide LastMarker, NodeAt, DistinctKeys;
    var leaf := Find(node.entries, name).value;
    var i :| 0 <= i < |node.entries| && node.entries[i] == (name, leaf);
    ChildAtPath(root, node, i, [b.event]);
    assert [b.event] + [name] == [b.event, name];
    LastMarkerNode(root, leaf, [b.event, name]);
  }

  /** What the event pass takes for the duration is a declared marker. */
  lemma EventMarkerNode(b: Builtins, root: JsonNode)
    requires root.Object? && DistinctKeys(root) && EventMarker(b, root).Some?
    ensures MarkerOn(root, EventMarker(b, root).value)
  {
    hide LastMarker, NodeAt, DistinctKeys, AroundEventMarker, LeafMarker;
    var node := Find(root.entries, b.event).value;
    FindTopLevel(root, b.event);
    TopLevelNode(root, b.event, node);
    assert node.entries[..|node.entries|] == node.entries;
    if AroundEventMarker(b, node.entries).Some? {
      AroundEventNode(b, root, node, |node.entries|);
    } else if LeafMarker(b, node.entries, b.id).Some? {
      LeafMarkerNode(b, root, node, b.id);
    } else {
      LeafMarkerNode(b, root, node, b.timestamp);
    }
  }

  // ---- When a marker is honoured ----

  /** The duration key is an object with entries. */
  predicate DurationEntries(b: Builtins, root: JsonNode)
    requires root.Object?
  {
    match Find(root.entries, b.duration)
    case Some(Object(entries)) => entries != []
    case _ => false
  }

  /** Some marker is inside the event object. */
  ghost predicate MarkedEvent(b: Builtins, root: JsonNode) {
    exists p :: MarkerOn(root, p) && [b.event] <= p
  }

  lemma EventMarkerIff(b: Builtins, root: JsonNode)
    requires root.Object? && DistinctKeys(root) && !BadEvent(b, root)
    ensures EventMarker(b, root).Some? <==> MarkedEvent(b, root)
  {
    hide EventMarker, BadEvent, DistinctKeys;
    if EventMarker(b, root).Some? {
      EventMarkerNode(b, root);
      EventMarkerBelow(b, root);
    }
    if p :| MarkerOn(root, p) && [b.event] <= p {
      EventMarkerComplete(b, root, p);
    }
  }

  /** Where the duration pass ends: on a marker if there is one and the duration object has entries. */
  lemma DurationPassMarked(b: Builtins, root: JsonNode)
    requires root.Object? && DistinctKeys(root)
    ensures MarkerOn(root, DurationPathOf(b, root)) <==> HasDurationMarker(root) && DurationEntries(b, root)
  {
    hide LastMarker, LastMarkerIn, NodeAt, DistinctKeys, HasDurationMarker;
    var p := DurationPathOf(b, root);
    if MarkerOn(root, p) {
      MarkerAt(root, p);
    }
    match Find(root.entries, b.duration) {
      case Some(Object(entries)) =>
        var node := Object(entries);
        FindTopLevel(root, b.duration);
        TopLevelNode(root, b.duration, node);
        assert entries[..|entries|] == entries;
        MarkerFound(root, []);
        if entries == [] {
          NothingBelow(b, root);
        } else if LastMarkerIn(entries, [b.duration]).Some? {
          LastMarkerInNode(root, node, |entries|, [b.duration]);
          MarkerAt(root, p);
        } else if LastMarker(root, []).Some? {
          RootAt(root);
          LastMarkerNode(root, root, []);
        }
      case _ => NothingBelow(b, root);
    }
  }

  lemma NothingBelow(b: Builtins, root: JsonNode)
    requires root.Object? && !DurationEntries(b, root)
    ensures NodeAt(root, [b.duration, b.totalMs]) == None
  {
    assert [b.duration, b.totalMs][1..] == [b.totalMs];
  }

  /**
   For every accepted schema: the duration goes to one of its markers if and only if the event object
   holds a marker, or there is a marker and the duration object has entries.
   */
  lemma SomeMarkerHonouredIff(b: Builtins, root: JsonNode)
    requires root.Object? && DistinctKeys(root) && Compile(b, root).Ok?
    ensures MarkerOn(root, Compile(b, root).value.durationSegments)
       <==> MarkedEvent(b, root) || (HasDurationMarker(root) && DurationEntries(b, root))
  {
    hide Compile, MarkerOn, EventMarker, DurationPathOf, DistinctKeys, HasDurationMarker, DurationEntries,
      BadEvent, AmbiguousDuration, IdDefault;
    CompileAccepts(b, root);
    DurationPathIs(b, root);
    EventMarkerIff(b, root);
    DurationPassMarked(b, root);
    if EventMarker(b, root).Some? {
      EventMarkerNode(b, root);
    }
  }

  /**
   The documentation says that a marked key is the duration. For an accepted schema with one marker it
   is, if and only if the marker is inside the event object or the duration object has entries.
   */
  lemma MarkerHonouredIff(b: Builtins, root: JsonNode, p: Segments)
    requires root.Object? && DistinctKeys(root) && Compile(b, root).Ok?
    requires MarkerOn(root, p) && forall q :: MarkerOn(root, q) ==> q == p
    ensures Compile(b, root).value.durationSegments == p <==> [b.event] <= p || DurationEntries(b, root)
  {
    hide Compile, MarkerOn, DistinctKeys, HasDurationMarker, DurationEntries;
    assert HasDurationMarker(root) by {
      hide *;
      MarkerOnIs(root, p);
      MarkerAt(root, p);
    }
    SomeMarkerHonouredIff(b, root);
  }

  lemma MarkerOnIs(root: JsonNode, p: Segments)
    ensures MarkerOn(root, p) <==> NodeAt(root, p) == Some(Mark(DurationMarker))
  {
  }

  // ---- Accepted schemas ----

  /** `{"took": duration!}` */
  const MARKED_KEY: JsonNode := Object([("took", Mark(DurationMarker))])

  /** A marker is lost: the schema is accepted and the duration goes elsewhere. */
  lemma LostMarkerWitness()
    ensures DistinctKeys(MARKED_KEY) && MarkerOn(MARKED_KEY, ["took"])
    ensures var r := Compile(DEFAULT_BUILTINS, MARKED_KEY);
            r.Ok? && r.value.durationSegments == ["duration", "total_ms"]
  {
    hide Compile, Find;
    var b, root := DEFAULT_BUILTINS, MARKED_KEY;
    OnlyEntry("took", Mark(DurationMarker), b.duration);
    OnlyEntry("took", Mark(DurationMarker), b.event);
    OnlyEntry("took", Mark(DurationMarker), "took");
    NoEventAccepted(b, root);
    DurationPathIs(b, root);
    assert NodeAt(Mark(DurationMarker), ["took"][1..]) == Some(Mark(DurationMarker));
  }

  /** `{"duration": {"a": duration!, "b": duration!}}` */
  const TWO_MARKERS: JsonNode :=
    Object([("duration", Object([("a", Mark(DurationMarker)), ("b", Mark(DurationMarker))]))])

  /** Several markers are accepted, and the last one wins. */
  lemma TwoMarkersWitness()
    ensures DistinctKeys(TWO_MARKERS)
    ensures MarkerOn(TWO_MARKERS, ["duration", "a"]) && MarkerOn(TWO_MARKERS, ["duration", "b"])
    ensures var r := Compile(DEFAULT_BUILTINS, TWO_MARKERS);
            r.Ok? && r.value.durationSegments == ["duration", "b"]
  {
    hide Compile, NodeAt, Find, LastMarkerIn;
    var b, root := DEFAULT_BUILTINS, TWO_MARKERS;
    var inner := root.entries[0].1;
    OnlyEntry("duration", inner, b.duration);
    OnlyEntry("duration", inner, b.event);
    assert DistinctKeys(inner);
    RootAt(root);
    ChildAtPath(root, root, 0, []);
    assert [] + ["duration"] == ["duration"];
    ChildAtPath(root, inner, 0, ["duration"]);
    ChildAtPath(root, inner, 1, ["duration"]);
    assert ["duration"] + ["a"] == ["duration", "a"] && ["duration"] + ["b"] == ["duration", "b"];
    MarkerAt(root, ["duration", "a"]);
    NoEventAccepted(b, root);
    DurationPathIs(b, root);
    LastOfMarkers(inner.entries, ["duration"]);
  }

  lemma LastOfMarkers(entries: seq<(string, JsonNode)>, path: Segments)
    requires entries != [] && entries[|entries| - 1].1 == Mark(DurationMarker)
    ensures LastMarkerIn(entries, path) == Some(path + [entries[|entries| - 1].0])
  {
    var last := entries[|entries| - 1];
    assert LastMarkerOf(last, path) == Some(path + [last.0]);
  }

  /** `{"duration": {"wall_ms": null}}` */
  const OTHER_LEAF: JsonNode := Object([("duration", Object([("wall_ms", Null)]))])

  /** Without a marker the duration can go to a leaf of another name than the built-in one. */
  lemma OtherLeafWitness()
    ensures DistinctKeys(OTHER_LEAF) && !HasDurationMarker(OTHER_LEAF)
    ensures var r := Compile(DEFAULT_BUILTINS, OTHER_LEAF);
            r.Ok? && r.value.durationSegments == ["duration", "wall_ms"]
  {
    hide Compile;
    var b, root := DEFAULT_BUILTINS, OTHER_LEAF;
    var entries := [("wall_ms", Null)];
    var inner := Object(entries);
    OnlyEntry("duration", inner, b.duration);
    OnlyEntry("duration", inner, b.event);
    OnlyEntry("wall_ms", Null, b.totalMs);
    assert DistinctKeys(inner) && !HasDurationMarker(inner);
    assert !HasDurationMarker(root);
    NoEventAccepted(b, root);
    DurationPathIs(b, root);
    MarkerFound(root, []);
    MarkerFoundIn(entries, ["duration"]);
    assert forall i :: 0 <= i < |entries| ==> !HasDurationMarker(entries[i].1);
  }
}
