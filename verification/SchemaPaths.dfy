/** What the compiled tables hold, exactly: the declared paths, the built-in ones, and their keys. */
module SchemaPaths {
  import opened Wrappers
  import opened Schemas
  import opened SchemaCompiler
  import opened SchemaTables
  import opened SchemaDefaults

  // ---- Paths ----

  /** `p` leads to a node of the subtree that is walked at `path`. */
  predicate Under(node: JsonNode, path: Segments, p: Segments) {
    p != [] && path <= p && NodeAt(node, p[|path|..]).Some?
  }

  predicate UnderEntry(entry: (string, JsonNode), path: Segments, p: Segments) {
    Under(entry.1, path + [entry.0], p)
  }

  predicate UnderEntries(entries: seq<(string, JsonNode)>, path: Segments, p: Segments) {
    exists i :: 0 <= i < |entries| && UnderEntry(entries[i], path, p)
  }

  lemma UnderObject(node: JsonNode, path: Segments, p: Segments)
    requires node.Object? && DistinctKeys(node)
    ensures Under(node, path, p) <==> (p == path && p != []) || UnderEntries(node.entries, path, p)
  {
    if Under(node, path, p) && p != path {
      var rest := p[|path|..];
      var child := Find(node.entries, rest[0]).value;
      var i :| 0 <= i < |node.entries| && node.entries[i] == (rest[0], child);
      assert rest[1..] == p[|path| + 1..];
      assert path + [rest[0]] <= p;
      assert UnderEntry(node.entries[i], path, p);
    }
    if UnderEntries(node.entries, path, p) {
      var i :| 0 <= i < |node.entries| && UnderEntry(node.entries[i], path, p);
      FindEntry(node, i);
      var rest := p[|path|..];
      assert rest[0] == node.entries[i].0 && rest[1..] == p[|path| + 1..];
    }
  }

  /** What adding one path does to the known paths. */
  lemma AddPathKnown(t: Tables, path: Segments, p: Segments)
    ensures Known(AddPath(t, path), p) ==> Known(t, p) || p == path
    ensures Known(t, p) ==> Known(AddPath(t, path), p)
  {
    hide Join;
  }

  /** Every new path is declared or one of the given ones, and no dotted form is lost. */
  ghost predicate AddsOnly(root: JsonNode, t: Tables, t': Tables, extra: set<Segments>) {
    && t.pathIndex.Keys <= t'.pathIndex.Keys
    && forall p :: Known(t', p) ==> Known(t, p) || DeclaredPath(root, p) || p in extra
  }

  predicate DeclaredPath(root: JsonNode, p: Segments) { p != [] && NodeAt(root, p).Some? }

  lemma AddsOnlyTrans(root: JsonNode, t: Tables, t': Tables, t'': Tables, extra: set<Segments>)
    requires AddsOnly(root, t, t', extra) && AddsOnly(root, t', t'', extra)
    ensures AddsOnly(root, t, t'', extra)
  {
    hide Known, DeclaredPath;
  }

  lemma SamePathsAdd(root: JsonNode, t: Tables, t': Tables, extra: set<Segments>)
    requires t'.paths == t.paths && t'.pathIndex == t.pathIndex
    ensures AddsOnly(root, t, t', extra)
  {
    hide DeclaredPath;
  }

  lemma AddPathAdds(root: JsonNode, t: Tables, path: Segments, extra: set<Segments>)
    requires DeclaredPath(root, path) || path in extra
    ensures AddsOnly(root, t, AddPath(t, path), extra)
    ensures Join(path) in AddPath(t, path).pathIndex
  {
    hide DeclaredPath, Known, Join;
    forall p | Known(AddPath(t, path), p)
      ensures Known(t, p) || p == path
    {
      AddPathKnown(t, path, p);
    }
  }

  lemma AddNodeAdds(root: JsonNode, t: Tables, name: string, path: Segments, extra: set<Segments>)
    requires DeclaredPath(root, path) || path in extra
    ensures AddsOnly(root, t, AddPath(AddKey(t, name), path), extra)
    ensures Join(path) in AddPath(AddKey(t, name), path).pathIndex
  {
    hide DeclaredPath, AddPath, AddsOnly;
    SamePathsAdd(root, t, AddKey(t, name), extra);
    AddPathAdds(root, AddKey(t, name), path, extra);
    AddsOnlyTrans(root, t, AddKey(t, name), AddPath(AddKey(t, name), path), extra);
  }

  // ---- Walking ----

  /** Walking a subtree adds only declared paths. */
  lemma {:induction false} WalkAdds(root: JsonNode, t: Tables, node: JsonNode, path: Segments, extra: set<Segments>)
    requires DistinctKeys(node) && NodeAt(root, path) == Some(node)
    requires path == [] ==> node.Object?
    ensures AddsOnly(root, t, Walk(t, node, path), extra)
    decreases node, 1
  {
    hide AddsOnly, AddPath, AddKey, NodeAt;
    var t1 := if path == [] then t else AddNode(t, path);
    if path == [] {
      SamePathsAdd(root, t, t1, extra);
    } else {
      AddNodeAdds(root, t, path[|path| - 1], path, extra);
    }
    if node.Object? {
      EntriesAdd(root, t1, node, |node.entries|, path, extra);
      assert node.entries[..|node.entries|] == node.entries;
    } else {
      SamePathsAdd(root, t1, Walk(t, node, path), extra);
    }
    AddsOnlyTrans(root, t, t1, Walk(t, node, path), extra);
  }

  lemma {:induction false} EntriesAdd(
      root: JsonNode, t: Tables, node: JsonNode, n: nat, path: Segments, extra: set<Segments>)
    requires node.Object? && DistinctKeys(node) && NodeAt(root, path) == Some(node) && n <= |node.entries|
    ensures AddsOnly(root, t, WalkEntries(t, node.entries[..n], path), extra)
    decreases node, 0, n
  {
    hide AddsOnly, Walk, NodeAt;
    if n == 0 {
      SamePathsAdd(root, t, WalkEntries(t, node.entries[..n], path), extra);
    } else {
      var t1 := WalkEntries(t, node.entries[..n - 1], path);
      assert node.entries[..n][..n - 1] == node.entries[..n - 1];
      EntriesAdd(root, t, node, n - 1, path, extra);
      ChildAtPath(root, node, n - 1, path);
      WalkAdds(root, t1, node.entries[n - 1].1, path + [node.entries[n - 1].0], extra);
      assert WalkEntries(t, node.entries[..n], path) == WalkEntry(t1, node.entries[n - 1], path);
      AddsOnlyTrans(root, t, t1, WalkEntries(t, node.entries[..n], path), extra);
    }
  }

  lemma {:induction false} WalkGrows(t: Tables, node: JsonNode, path: Segments)
    requires path == [] ==> node.Object?
    ensures t.pathIndex.Keys <= Walk(t, node, path).pathIndex.Keys
    decreases node, 1
  {
    if node.Object? {
      WalkEntriesGrows(if path == [] then t else AddNode(t, path), node.entries, path);
    }
  }

  lemma {:induction false} WalkEntriesGrows(t: Tables, entries: seq<(string, JsonNode)>, path: Segments)
    ensures t.pathIndex.Keys <= WalkEntries(t, entries, path).pathIndex.Keys
    decreases entries, 0
  {
    if entries != [] {
      var n := |entries| - 1;
      WalkEntriesGrows(t, entries[..n], path);
      WalkEntryGrows(WalkEntries(t, entries[..n], path), entries[n], path);
    }
  }

  lemma {:induction false} WalkEntryGrows(t: Tables, entry: (string, JsonNode), path: Segments)
    ensures t.pathIndex.Keys <= WalkEntry(t, entry, path).pathIndex.Keys
    decreases entry, 0
  {
    WalkGrows(t, entry.1, path + [entry.0]);
  }

  /** Walking a subtree indexes the dotted forms of all its paths. */
  lemma {:induction false} WalkIndexes(t: Tables, node: JsonNode, path: Segments, p: Segments)
    requires DistinctKeys(node) && Under(node, path, p)
    requires path == [] ==> node.Object?
    ensures Join(p) in Walk(t, node, path).pathIndex
    decreases node, 1
  {
    hide Join, AddKey, Under, UnderEntries;
    if p == path {
      UnderIsPath(node, path, p);
      AddNodeIndexes(t, path);
      if node.Object? {
        WalkEntriesGrows(AddNode(t, path), node.entries, path);
      }
    } else {
      UnderIsDeeper(node, path, p);
      UnderObject(node, path, p);
      EntriesIndex(if path == [] then t else AddNode(t, path), node.entries, path, p);
    }
  }

  lemma AddNodeIndexes(t: Tables, path: Segments)
    requires path != []
    ensures Join(path) in AddNode(t, path).pathIndex
  {
    hide Join;
  }

  lemma UnderIsPath(node: JsonNode, path: Segments, p: Segments)
    requires Under(node, path, p)
    ensures p != []
  {
  }

  lemma UnderIsDeeper(node: JsonNode, path: Segments, p: Segments)
    requires Under(node, path, p) && p != path
    ensures node.Object?
  {
  }

  lemma {:induction false} EntriesIndex(
      t: Tables, entries: seq<(string, JsonNode)>, path: Segments, p: Segments)
    requires UnderEntries(entries, path, p)
    requires forall i :: 0 <= i < |entries| ==> DistinctKeys(entries[i].1)
    ensures Join(p) in WalkEntries(t, entries, path).pathIndex
    decreases entries, 0
  {
    hide Join, UnderEntry, DistinctKeys;
    var n := |entries| - 1;
    var i :| 0 <= i < |entries| && UnderEntry(entries[i], path, p);
    var t1 := WalkEntries(t, entries[..n], path);
    if i == n {
      EntryIndexes(t1, entries[n], path, p);
    } else {
      assert UnderEntry(entries[..n][i], path, p);
      EntriesIndex(t, entries[..n], path, p);
      WalkEntryGrows(t1, entries[n], path);
    }
  }

  lemma {:induction false} EntryIndexes(t: Tables, entry: (string, JsonNode), path: Segments, p: Segments)
    requires DistinctKeys(entry.1) && UnderEntry(entry, path, p)
    ensures Join(p) in WalkEntry(t, entry, path).pathIndex
    decreases entry, 0
  {
    WalkIndexes(t, entry.1, path + [entry.0], p);
  }

  // ---- What the later passes add ----

  lemma TopLevelNode(root: JsonNode, name: string, node: JsonNode)
    requires TopLevel(root, name, node)
    ensures DistinctKeys(node) && NodeAt(root, [name]) == Some(node)
  {
  }

  lemma EntryAdds(root: JsonNode, name: string, node: JsonNode, t: Tables, i: nat, extra: set<Segments>)
    requires TopLevel(root, name, node) && node.Object? && i < |node.entries|
    ensures AddsOnly(root, t, WalkEntry(t, node.entries[i], [name]), extra)
  {
    hide AddsOnly, Walk;
    TopLevelNode(root, name, node);
    ChildAtPath(root, node, i, [name]);
    WalkAdds(root, t, node.entries[i].1, [name] + [node.entries[i].0], extra);
  }

  lemma AddDurationAdds(b: Builtins, root: JsonNode, t: Tables, leaf: string, extra: set<Segments>)
    requires [b.duration] in extra && [b.duration, leaf] in extra
    ensures AddsOnly(root, t, AddDurationSubtree(b, t, leaf), extra)
    ensures Join([b.duration]) in AddDurationSubtree(b, t, leaf).pathIndex
  {
    hide AddsOnly, AddPath, Join;
    var t1 := AddKey(AddKey(t, b.duration), leaf);
    var t2 := AddPath(t1, [b.duration]);
    var t3 := AddPath(t2, [b.duration, leaf]);
    SamePathsAdd(root, t, t1, extra);
    AddPathAdds(root, t1, [b.duration], extra);
    AddPathAdds(root, t2, [b.duration, leaf], extra);
    SamePathsAdd(root, t3, AddDurationSubtree(b, t, leaf), extra);
    AddsOnlyTrans(root, t, t1, t2, extra);
    AddsOnlyTrans(root, t, t2, t3, extra);
    AddsOnlyTrans(root, t, t3, AddDurationSubtree(b, t, leaf), extra);
    KeepsForms(root, t2, t3, extra);
  }

  lemma KeepsForms(root: JsonNode, t: Tables, t': Tables, extra: set<Segments>)
    requires AddsOnly(root, t, t', extra)
    ensures t.pathIndex.Keys <= t'.pathIndex.Keys
  {
  }

  lemma {:induction false} AroundLeafAdds(
      b: Builtins, root: JsonNode, node: JsonNode, t: Tables, n: nat, extra: set<Segments>)
    requires TopLevel(root, b.duration, node) && node.Object? && n <= |node.entries|
    requires DeclaredPath(root, [b.duration, b.totalMs])
    ensures AddsOnly(root, t, WalkAroundLeaf(b, t, node.entries[..n]), extra)
  {
    hide TopLevel, WalkEntry, DeclaredPath, AddsOnly, AddKey, AddPath;
    if n == 0 {
      SamePathsAdd(root, t, WalkAroundLeaf(b, t, node.entries[..n]), extra);
    } else {
      var entries := node.entries[..n];
      assert entries[..n - 1] == node.entries[..n - 1];
      var t1 := WalkAroundLeaf(b, t, entries[..n - 1]);
      AroundLeafAdds(b, root, node, t, n - 1, extra);
      if node.entries[n - 1].0 == b.totalMs {
        var path := [b.duration, b.totalMs];
        AddNodeAdds(root, t1, b.totalMs, path, extra);
        SamePathsAdd(root, AddPath(AddKey(t1, b.totalMs), path), DurationLeaf(b, t1), extra);
        AddsOnlyTrans(root, t1, AddPath(AddKey(t1, b.totalMs), path), DurationLeaf(b, t1), extra);
      } else {
        EntryAdds(root, b.duration, node, t1, n - 1, extra);
      }
      AddsOnlyTrans(root, t, t1, WalkAroundLeaf(b, t, entries), extra);
    }
  }

  lemma ResolveDurationAdds(b: Builtins, root: JsonNode, node: JsonNode, t: Tables)
    requires TopLevel(root, b.duration, node) && ResolveDuration(b, t, node).Ok?
    ensures var t' := ResolveDuration(b, t, node).value;
            && AddsOnly(root, t, t', {[b.duration], t'.durationSegments})
            && Join([b.duration]) in t'.pathIndex
  {
    hide TopLevel, AddsOnly, WalkEntries, WalkAroundLeaf, AddKey, AddPath, AddDurationSubtree, Join;
    var t' := ResolveDuration(b, t, node).value;
    var extra := {[b.duration], t'.durationSegments};
    AddDurationEnd(b, t, b.totalMs);
    if !node.Object? {
      AddDurationAdds(b, root, t, b.totalMs, extra);
    } else {
      var t1, entries := AddPath(AddKey(t, b.duration), [b.duration]), node.entries;
      AddNodeAdds(root, t, b.duration, [b.duration], extra);
      AddsKeepMarks(t, b.duration, [b.duration]);
      TopLevelNode(root, b.duration, node);
      AddDurationEnd(b, t1, b.totalMs);
      if entries == [] {
        AddDurationAdds(b, root, t1, b.totalMs, extra);
      } else if t.hasDurationMarker || HasMarkerLeaf(entries) {
        EntriesAdd(root, t1, node, |entries|, [b.duration], extra);
        assert entries[..|entries|] == entries;
      } else if Find(entries, b.totalMs).Some? {
        LeafDeclared(b, root, node);
        AroundLeafAdds(b, root, node, t1, |entries|, extra);
        assert entries[..|entries|] == entries;
      } else {
        AddDurationEnd(b, t1, entries[0].0);
        NoOthers(AddDurationSubtree(b, t1, entries[0].0), entries, [b.duration]);
        AddDurationAdds(b, root, t1, entries[0].0, extra);
      }
      KeepsForms(root, t1, t', extra);
      AddsOnlyTrans(root, t, t1, t', extra);
    }
  }

  lemma LeafDeclared(b: Builtins, root: JsonNode, node: JsonNode)
    requires TopLevel(root, b.duration, node) && node.Object? && Find(node.entries, b.totalMs).Some?
    ensures DeclaredPath(root, [b.duration, b.totalMs])
  {
    NodeAtConcat(root, [b.duration], [b.totalMs]);
    assert [b.duration] + [b.totalMs] == [b.duration, b.totalMs];
    assert NodeAt(Find(node.entries, b.totalMs).value, [b.totalMs][1..]).Some?;
  }

  lemma AddDurationEnd(b: Builtins, t: Tables, leaf: string)
    ensures AddDurationSubtree(b, t, leaf).durationSegments == [b.duration, leaf]
  {
  }

  lemma DurationPassAdds(b: Builtins, root: JsonNode, t: Tables)
    requires root.Object? && DistinctKeys(root) && AutoAddDuration(b, t, root).Ok?
    ensures var t' := AutoAddDuration(b, t, root).value;
            && AddsOnly(root, t, t', {[b.duration], t'.durationSegments})
            && Join([b.duration]) in t'.pathIndex
  {
    hide ResolveDuration, AddDurationSubtree, AddsOnly, DistinctKeys, Join;
    match Find(root.entries, b.duration) {
      case None =>
        AddDurationEnd(b, t, b.totalMs);
        AddDurationAdds(b, root, t, b.totalMs, {[b.duration], [b.duration, b.totalMs]});
      case Some(node) =>
        FindTopLevel(root, b.duration);
        ResolveDurationAdds(b, root, node, t);
    }
  }

  // ---- The event pass ----

  function EventPaths(b: Builtins): set<Segments> { {[b.event], [b.event, b.timestamp], [b.event, b.id]} }

  lemma AddEventAdds(b: Builtins, root: JsonNode, t: Tables)
    ensures AddsOnly(root, t, AddEventSubtree(b, t), EventPaths(b))
    ensures Join([b.event]) in AddEventSubtree(b, t).pathIndex
  {
    hide AddsOnly, AddPath, Join;
    var extra := EventPaths(b);
    var t1 := AddKey(AddKey(AddKey(t, b.event), b.timestamp), b.id);
    var t2 := AddPath(t1, [b.event]);
    var t3 := AddPath(t2, [b.event, b.timestamp]);
    var t4 := AddPath(t3, [b.event, b.id]);
    SamePathsAdd(root, t, t1, extra);
    AddPathAdds(root, t1, [b.event], extra);
    AddPathAdds(root, t2, [b.event, b.timestamp], extra);
    AddPathAdds(root, t3, [b.event, b.id], extra);
    SamePathsAdd(root, t4, AddEventSubtree(b, t), extra);
    AddsOnlyTrans(root, t, t1, t2, extra);
    AddsOnlyTrans(root, t2, t3, t4, extra);
    AddsOnlyTrans(root, t2, t4, AddEventSubtree(b, t), extra);
    AddsOnlyTrans(root, t, t2, AddEventSubtree(b, t), extra);
    KeepsForms(root, t2, AddEventSubtree(b, t), extra);
  }

  lemma EventLeafAdds(b: Builtins, root: JsonNode, node: JsonNode, t: Tables, name: string)
    requires TopLevel(root, b.event, node) && node.Object? && name in {b.timestamp, b.id}
    ensures AddsOnly(root, t, EventLeaf(b, t, node.entries, name), EventPaths(b))
  {
    hide TopLevel, AddPath, AddKey, Walk, AddsOnly;
    match Find(node.entries, name) {
      case None => AddNodeAdds(root, t, name, [b.event, name], EventPaths(b));
      case Some(leaf) =>
        var i :| 0 <= i < |node.entries| && node.entries[i] == (name, leaf);
        EntryAdds(root, b.event, node, t, i, EventPaths(b));
        assert [b.event] + [name] == [b.event, name];
    }
  }

  lemma {:induction false} AroundEventAdds(
      b: Builtins, root: JsonNode, node: JsonNode, t: Tables, n: nat, extra: set<Segments>)
    requires TopLevel(root, b.event, node) && node.Object? && n <= |node.entries|
    ensures AddsOnly(root, t, WalkAroundEvent(b, t, node.entries[..n]), extra)
  {
    hide TopLevel, WalkEntry, AddsOnly;
    if n == 0 {
      SamePathsAdd(root, t, WalkAroundEvent(b, t, node.entries[..n]), extra);
    } else {
      var entries := node.entries[..n];
      assert entries[..n - 1] == node.entries[..n - 1];
      var t1 := WalkAroundEvent(b, t, entries[..n - 1]);
      AroundEventAdds(b, root, node, t, n - 1, extra);
      EntryAdds(root, b.event, node, t1, n - 1, extra);
      if t1 != WalkAroundEvent(b, t, entries) {
        AddsOnlyTrans(root, t, t1, WalkAroundEvent(b, t, entries), extra);
      }
    }
  }

  lemma ResolveEventAdds(b: Builtins, root: JsonNode, node: JsonNode, t: Tables)
    requires TopLevel(root, b.event, node) && node.Object?
    ensures AddsOnly(root, t, ResolveEvent(b, t, node).value, EventPaths(b))
    ensures Join([b.event]) in ResolveEvent(b, t, node).value.pathIndex
  {
    hide TopLevel, EventLeaf, WalkAroundEvent, AddKey, AddPath, AddsOnly, AddEventSubtree, Join;
    var extra := EventPaths(b);
    var t0, t' := AddPath(AddKey(t, b.event), [b.event]), ResolveEvent(b, t, node).value;
    AddNodeAdds(root, t, b.event, [b.event], extra);
    if node.entries == [] {
      AddEventAdds(b, root, t0);
    } else {
      var t1 := EventLeaf(b, t0, node.entries, b.timestamp);
      EventLeafAdds(b, root, node, t0, b.timestamp);
      var t1' := t1.(timestampSegments := [b.event, b.timestamp]);
      SamePathsAdd(root, t1, t1', extra);
      var t2 := EventLeaf(b, t1', node.entries, b.id);
      EventLeafAdds(b, root, node, t1', b.id);
      var t2' := t2.(idSegments := [b.event, b.id]);
      SamePathsAdd(root, t2, t2', extra);
      AroundEventAdds(b, root, node, t2', |node.entries|, extra);
      assert node.entries[..|node.entries|] == node.entries;
      AddsOnlyTrans(root, t0, t1, t1', extra);
      AddsOnlyTrans(root, t0, t1', t2, extra);
      AddsOnlyTrans(root, t0, t2, t2', extra);
      AddsOnlyTrans(root, t0, t2', t', extra);
    }
    KeepsForms(root, t0, t', extra);
    AddsOnlyTrans(root, t, t0, t', extra);
  }

  lemma EventPassAdds(b: Builtins, root: JsonNode, t: Tables)
    requires root.Object? && DistinctKeys(root) && AutoAddEvent(b, t, root).Ok?
    ensures var t' := AutoAddEvent(b, t, root).value;
            AddsOnly(root, t, t', EventPaths(b)) && Join([b.event]) in t'.pathIndex
  {
    hide AddEventSubtree, AddsOnly, DistinctKeys, EventLeaf, WalkAroundEvent, Join;
    match Find(root.entries, b.event) {
      case None => AddEventAdds(b, root, t);
      case Some(node) =>
        FindTopLevel(root, b.event);
        ResolveEventAdds(b, root, node, t);
    }
  }

  // ---- Where the duration goes ----

  function OrElse(first: Option<Segments>, other: Segments): Segments {
    if first.Some? then first.value else other
  }

  /** The last `duration!` marker that a walk meets. */
  function LastMarker(node: JsonNode, path: Segments): Option<Segments>
    decreases node, 1
  {
    match node
    case Object(entries) => LastMarkerIn(entries, path)
    case Mark(DurationMarker) => Some(path)
    case _ => None
  }

  function LastMarkerIn(entries: seq<(string, JsonNode)>, path: Segments): Option<Segments>
    decreases entries, 0
  {
    if entries == [] then None else
    var n := |entries| - 1;
    var last := LastMarkerOf(entries[n], path);
    if last.Some? then last else LastMarkerIn(entries[..n], path)
  }

  function LastMarkerOf(entry: (string, JsonNode), path: Segments): Option<Segments>
    decreases entry, 0
  {
    LastMarker(entry.1, path + [entry.0])
  }

  /** What a walk does to the two fields of the duration. */
  predicate Marks(t: Tables, t': Tables, marker: Option<Segments>) {
    && t'.hasDurationMarker == (t.hasDurationMarker || marker.Some?)
    && t'.durationSegments == OrElse(marker, t.durationSegments)
  }

  lemma {:induction false} WalkLast(t: Tables, node: JsonNode, path: Segments)
    requires path == [] ==> node.Object?
    ensures Marks(t, Walk(t, node, path), LastMarker(node, path))
    decreases node, 1
  {
    hide AddKey, AddPath;
    var t1 := if path == [] then t else AddNode(t, path);
    if path != [] {
      AddsKeepMarks(t, path[|path| - 1], path);
    }
    if node.Object? {
      WalkEntriesLast(t1, node.entries, path);
    }
  }

  lemma {:induction false} WalkEntriesLast(t: Tables, entries: seq<(string, JsonNode)>, path: Segments)
    ensures Marks(t, WalkEntries(t, entries, path), LastMarkerIn(entries, path))
    decreases entries, 0
  {
    if entries != [] {
      var n := |entries| - 1;
      WalkEntriesLast(t, entries[..n], path);
      WalkEntryLast(WalkEntries(t, entries[..n], path), entries[n], path);
    }
  }

  lemma {:induction false} WalkEntryLast(t: Tables, entry: (string, JsonNode), path: Segments)
    ensures Marks(t, WalkEntry(t, entry, path), LastMarkerOf(entry, path))
    decreases entry, 0
  {
    WalkLast(t, entry.1, path + [entry.0]);
  }

  /** Without a marker among the entries, the built-in leaf becomes the duration. */
  lemma {:induction false} AroundLeafLast(b: Builtins, t: Tables, entries: seq<(string, JsonNode)>)
    requires LastMarkerIn(entries, [b.duration]) == None
    ensures WalkAroundLeaf(b, t, entries).durationSegments
         == if Find(entries, b.totalMs).Some? then [b.duration, b.totalMs] else t.durationSegments
  {
    hide WalkEntry, LastMarkerOf, AddKey, AddPath;
    if entries != [] {
      var n := |entries| - 1;
      var t1 := WalkAroundLeaf(b, t, entries[..n]);
      AroundLeafLast(b, t, entries[..n]);
      WalkEntryLast(t1, entries[n], [b.duration]);
      FindInFront(entries, b.totalMs);
    }
  }

  /** The duration path after the duration pass, for the cases that the pass distinguishes. */
  function DurationPathOf(b: Builtins, root: JsonNode): Segments
    requires root.Object?
  {
    match Find(root.entries, b.duration)
    case Some(Object(entries)) =>
      if entries == [] then [b.duration, b.totalMs]
      else if LastMarkerIn(entries, [b.duration]).Some? then LastMarkerIn(entries, [b.duration]).value
      else if LastMarker(root, []).Some? then LastMarker(root, []).value
      else if Find(entries, b.totalMs).Some? then [b.duration, b.totalMs]
      else [b.duration, entries[0].0]
    case _ => [b.duration, b.totalMs]
  }

  lemma {:induction false} MarkerFound(node: JsonNode, path: Segments)
    ensures LastMarker(node, path).Some? <==> HasDurationMarker(node)
    decreases node, 1
  {
    if node.Object? {
      MarkerFoundIn(node.entries, path);
      assert HasDurationMarker(node) <==> AnyMarker(node.entries);
    }
  }

  lemma {:induction false} MarkerFoundIn(entries: seq<(string, JsonNode)>, path: Segments)
    ensures LastMarkerIn(entries, path).Some? <==> AnyMarker(entries)
    decreases entries, 0
  {
    hide HasDurationMarker;
    if entries != [] {
      var n := |entries| - 1;
      MarkerFoundIn(entries[..n], path);
      MarkerFoundAt(entries[n], path);
      assert forall i :: 0 <= i < n ==> entries[..n][i] == entries[i];
    }
  }

  lemma {:induction false} MarkerFoundAt(entry: (string, JsonNode), path: Segments)
    ensures LastMarkerOf(entry, path).Some? <==> HasDurationMarker(entry.1)
    decreases entry, 0
  {
    MarkerFound(entry.1, path + [entry.0]);
  }

  lemma DurationPassLast(b: Builtins, root: JsonNode)
    requires root.Object?
    requires AutoAddDuration(b, Walk(NO_TABLES, root, []), root).Ok?
    ensures AutoAddDuration(b, Walk(NO_TABLES, root, []), root).value.durationSegments == DurationPathOf(b, root)
  {
    hide Walk, WalkEntries, WalkAroundLeaf, AddDurationSubtree, AddKey, AddPath, LastMarker, LastMarkerIn;
    var t0 := Walk(NO_TABLES, root, []);
    WalkLast(NO_TABLES, root, []);
    AddDurationEnd(b, t0, b.totalMs);
    match Find(root.entries, b.duration) {
      case Some(Object(entries)) =>
        var t1 := AddPath(AddKey(t0, b.duration), [b.duration]);
        AddsKeepMarks(t0, b.duration, [b.duration]);
        AddDurationEnd(b, t1, b.totalMs);
        WalkEntriesLast(t1, entries, [b.duration]);
        MarkerFoundIn(entries, [b.duration]);
        MarkerLeafIsMarker(entries);
        MarkerFound(root, []);
        MarkerBelow(root, b.duration);
        if LastMarkerIn(entries, [b.duration]).None? {
          AroundLeafLast(b, t1, entries);
        }
        if |entries| == 1 {
          AddDurationEnd(b, t1, entries[0].0);
          NoOthers(AddDurationSubtree(b, t1, entries[0].0), entries, [b.duration]);
        }
      case _ =>
    }
  }

  lemma MarkerBelow(root: JsonNode, name: string)
    requires root.Object? && Find(root.entries, name).Some?
    ensures var node := Find(root.entries, name).value;
            node.Object? && AnyMarker(node.entries) ==> HasDurationMarker(root)
  {
    var node := Find(root.entries, name).value;
    var i :| 0 <= i < |root.entries| && root.entries[i] == (name, node);
    if node.Object? && AnyMarker(node.entries) {
      var j :| 0 <= j < |node.entries| && HasDurationMarker(node.entries[j].1);
      assert HasDurationMarker(root.entries[i].1);
    }
  }

  /** The last marker that the event pass meets: its two built-in leaves first, then the others. */
  function AroundEventMarker(b: Builtins, entries: seq<(string, JsonNode)>): Option<Segments> {
    if entries == [] then None else
    var n := |entries| - 1;
    var last := if entries[n].0 == b.timestamp || entries[n].0 == b.id then None
                else LastMarkerOf(entries[n], [b.event]);
    if last.Some? then last else AroundEventMarker(b, entries[..n])
  }

  function LeafMarker(b: Builtins, entries: seq<(string, JsonNode)>, name: string): Option<Segments> {
    match Find(entries, name)
    case Some(node) => LastMarker(node, [b.event, name])
    case None => None
  }

  function EventMarker(b: Builtins, root: JsonNode): Option<Segments>
    requires root.Object?
  {
    match Find(root.entries, b.event)
    case Some(Object(entries)) =>
      var others := AroundEventMarker(b, entries);
      if others.Some? then others
      else if LeafMarker(b, entries, b.id).Some? then LeafMarker(b, entries, b.id)
      else LeafMarker(b, entries, b.timestamp)
    case _ => None
  }

  lemma {:induction false} AroundEventLast(b: Builtins, t: Tables, entries: seq<(string, JsonNode)>)
    ensures Marks(t, WalkAroundEvent(b, t, entries), AroundEventMarker(b, entries))
  {
    hide WalkEntry, LastMarkerOf;
    if entries != [] {
      var n := |entries| - 1;
      AroundEventLast(b, t, entries[..n]);
      WalkEntryLast(WalkAroundEvent(b, t, entries[..n]), entries[n], [b.event]);
    }
  }

  lemma EventLeafLast(b: Builtins, t: Tables, entries: seq<(string, JsonNode)>, name: string)
    ensures Marks(t, EventLeaf(b, t, entries, name), LeafMarker(b, entries, name))
  {
    hide Walk, AddKey, AddPath, LastMarker;
    match Find(entries, name) {
      case Some(node) => WalkLast(t, node, [b.event, name]);
      case None => AddsKeepMarks(t, name, [b.event, name]);
    }
  }

  lemma EventPassLast(b: Builtins, t: Tables, root: JsonNode)
    requires root.Object? && AutoAddEvent(b, t, root).Ok?
    ensures AutoAddEvent(b, t, root).value.durationSegments == OrElse(EventMarker(b, root), t.durationSegments)
  {
    hide AddKey, AddPath, EventLeaf, WalkAroundEvent, AddEventSubtree, AroundEventMarker, LeafMarker;
    AddEventEnds(b, t);
    match Find(root.entries, b.event) {
      case Some(Object(entries)) =>
        AddsKeepMarks(t, b.event, [b.event]);
        var t0 := AddPath(AddKey(t, b.event), [b.event]);
        AddEventEnds(b, t0);
        if entries == [] {
          NoMarkers(b);
        } else {
          EventLeafLast(b, t0, entries, b.timestamp);
          var t1 := EventLeaf(b, t0, entries, b.timestamp).(timestampSegments := [b.event, b.timestamp]);
          EventLeafLast(b, t1, entries, b.id);
          var t2 := EventLeaf(b, t1, entries, b.id).(idSegments := [b.event, b.id]);
          AroundEventLast(b, t2, entries);
        }
      case _ =>
    }
  }

  lemma NoMarkers(b: Builtins)
    ensures AroundEventMarker(b, []) == None && forall name :: LeafMarker(b, [], name) == None
  {
  }

  /**
   Where an accepted schema puts the duration: the cases of the duration pass, unless the event
   object holds a marker, which the event pass then meets last.
   */
  lemma DurationPathIs(b: Builtins, root: JsonNode)
    requires root.Object? && Compile(b, root).Ok?
    ensures Compile(b, root).value.durationSegments == OrElse(EventMarker(b, root), DurationPathOf(b, root))
  {
    hide Walk, AutoAddDuration, AutoAddEvent, EventMarker, DurationPathOf;
    DurationPassLast(b, root);
    EventPassLast(b, AutoAddDuration(b, Walk(NO_TABLES, root, []), root).value, root);
  }

  lemma {:induction false} AroundEventFound(b: Builtins, entries: seq<(string, JsonNode)>)
    ensures AroundEventMarker(b, entries).Some? ==> AnyMarker(entries)
  {
    hide HasDurationMarker, LastMarkerOf;
    if entries != [] {
      var n := |entries| - 1;
      AroundEventFound(b, entries[..n]);
      MarkerFoundAt(entries[n], [b.event]);
      assert forall i :: 0 <= i < n ==> entries[..n][i] == entries[i];
    }
  }

  lemma LeafMarkerFound(b: Builtins, entries: seq<(string, JsonNode)>, name: string)
    ensures LeafMarker(b, entries, name).Some? ==> AnyMarker(entries)
  {
    hide HasDurationMarker, LastMarker;
    if Find(entries, name).Some? {
      var node := Find(entries, name).value;
      var i :| 0 <= i < |entries| && entries[i] == (name, node);
      MarkerFound(node, [b.event, name]);
    }
  }

  lemma EventMarkerFound(b: Builtins, root: JsonNode)
    requires root.Object?
    ensures EventMarker(b, root).Some? ==> HasDurationMarker(root)
  {
    hide HasDurationMarker, LastMarker, AroundEventMarker, LeafMarker;
    match Find(root.entries, b.event) {
      case Some(Object(entries)) =>
        AroundEventFound(b, entries);
        LeafMarkerFound(b, entries, b.id);
        LeafMarkerFound(b, entries, b.timestamp);
        MarkerBelow(root, b.event);
      case _ =>
    }
  }

  /** The duration object has one entry, and it is not the built-in leaf. */
  predicate OtherSingleLeaf(b: Builtins, root: JsonNode)
    requires root.Object?
  {
    match Find(root.entries, b.duration)
    case Some(Object(entries)) => |entries| == 1 && entries[0].0 != b.totalMs
    case _ => false
  }

  /**
   The documentation says that without a marker the built-in leaf becomes the duration. It does if
   and only if the duration object does not have just one leaf of another name.
   */
  lemma DocumentedDurationIff(b: Builtins, root: JsonNode)
    requires root.Object? && Compile(b, root).Ok? && !HasDurationMarker(root)
    ensures Compile(b, root).value.durationSegments == [b.duration, b.totalMs] <==> !OtherSingleLeaf(b, root)
  {
    hide Compile, HasDurationMarker, LastMarker, LastMarkerIn, EventMarker;
    DurationPathIs(b, root);
    EventMarkerFound(b, root);
    MarkerFound(root, []);
    NotAmbiguous(b, root);
    match Find(root.entries, b.duration) {
      case Some(Object(entries)) =>
        MarkerBelow(root, b.duration);
        MarkerFoundIn(entries, [b.duration]);
        if |entries| == 1 {
          FindOnly(entries, b.totalMs);
        }
      case _ =>
    }
  }

  lemma FindOnly(entries: seq<(string, JsonNode)>, name: string)
    requires |entries| == 1
    ensures Find(entries, name).Some? <==> entries[0].0 == name
  {
  }

  lemma NotAmbiguous(b: Builtins, root: JsonNode)
    requires root.Object? && Compile(b, root).Ok?
    ensures !AmbiguousDuration(b, root)
  {
    hide Walk, AutoAddDuration, AutoAddEvent, AmbiguousDuration, Validate;
    DurationAccepted(b, root);
  }

  // ---- The path table of an accepted schema ----

  /** The paths that are there whether or not the schema declares them. */
  function BuiltinPaths(b: Builtins, root: JsonNode): set<Segments>
    requires root.Object?
  {
    {[b.duration], DurationPathOf(b, root)} + EventPaths(b)
  }

  predicate Listed(b: Builtins, root: JsonNode, p: Segments)
    requires root.Object?
  {
    DeclaredPath(root, p) || p in BuiltinPaths(b, root)
  }

  /** No two of the schema's paths share a dotted form. */
  ghost predicate DistinctForms(b: Builtins, root: JsonNode)
    requires root.Object?
  {
    forall p, q :: Listed(b, root, p) && Listed(b, root, q) && Join(p) == Join(q) ==> p == q
  }

  lemma AcceptedPasses(b: Builtins, root: JsonNode)
    requires root.Object? && Compile(b, root).Ok?
    ensures var r1 := AutoAddDuration(b, Walk(NO_TABLES, root, []), root);
            && r1.Ok? && AutoAddEvent(b, r1.value, root) == Compile(b, root)
  {
    hide Walk, AutoAddDuration, AutoAddEvent, Validate;
    var t1 := AutoAddDuration(b, Walk(NO_TABLES, root, []), root).value;
    ValidateKeeps(AutoAddEvent(b, t1, root).value);
  }

  /** The path table holds declared and built-in paths only. */
  lemma KnownIsListed(b: Builtins, root: JsonNode, p: Segments)
    requires root.Object? && DistinctKeys(root) && Compile(b, root).Ok? && Known(Compile(b, root).value, p)
    ensures Listed(b, root, p)
  {
    hide Walk, AutoAddDuration, AutoAddEvent, Known, DeclaredPath, DistinctKeys, DurationPathOf, Compile, Join;
    AcceptedPasses(b, root);
    var t0 := Walk(NO_TABLES, root, []);
    WalkAdds(root, NO_TABLES, root, [], {});
    DurationPassAdds(b, root, t0);
    DurationPassLast(b, root);
    EventPassAdds(b, root, AutoAddDuration(b, t0, root).value);
    assert !Known(NO_TABLES, p) by { NothingKnown(p); }
  }

  lemma NothingKnown(p: Segments)
    ensures !Known(NO_TABLES, p)
  {
  }

  /** The dotted form of every declared or built-in path is taken. */
  lemma ListedIsIndexed(b: Builtins, root: JsonNode, p: Segments)
    requires root.Object? && DistinctKeys(root) && Compile(b, root).Ok? && Listed(b, root, p)
    ensures Join(p) in Compile(b, root).value.pathIndex
  {
    hide Walk, AutoAddDuration, AutoAddEvent, Known, DeclaredPath, DistinctKeys, DurationPathOf, Compile, Join,
      SchemaTables.WellFormed;
    AcceptedPasses(b, root);
    var t0 := Walk(NO_TABLES, root, []);
    DurationPassAdds(b, root, t0);
    DurationPassLast(b, root);
    PassesExtend(b, root);
    var t1 := AutoAddDuration(b, t0, root).value;
    EventPassAdds(b, root, t1);
    CompiledTables(b, root);
    if DeclaredPath(root, p) {
      RootIndexes(root, p);
    } else if p == t1.durationSegments {
      DurationIndexed(t1);
    }
  }

  lemma RootIndexes(root: JsonNode, p: Segments)
    requires root.Object? && DistinctKeys(root) && DeclaredPath(root, p)
    ensures Join(p) in Walk(NO_TABLES, root, []).pathIndex
  {
    hide Walk, Join;
    assert p[0..] == p;
    WalkIndexes(NO_TABLES, root, [], p);
  }

  lemma DurationIndexed(t: Tables)
    requires SchemaTables.WellFormed(t) && HasDuration(t)
    ensures Join(t.durationSegments) in t.pathIndex
  {
  }

  /**
   A dotted string resolves exactly when it is the form of a declared or built-in path, and then to
   such a path.
   */
  lemma ResolvesListed(b: Builtins, root: JsonNode, dotted: string)
    requires root.Object? && DistinctKeys(root) && Compile(b, root).Ok?
    ensures var r := Resolve(Compile(b, root).value, dotted);
            && (r != [] <==> exists p :: Listed(b, root, p) && Join(p) == dotted)
            && (r != [] ==> Listed(b, root, r) && Join(r) == dotted)
  {
    hide Compile, Join, DistinctKeys, Listed, SchemaTables.WellFormed;
    var t := Compile(b, root).value;
    CompiledWellFormed(b, root);
    ResolveExactly(t, dotted);
    var r := Resolve(t, dotted);
    if r != [] {
      KnownIsListed(b, root, r);
    }
    if p :| Listed(b, root, p) && Join(p) == dotted {
      ListedIsIndexed(b, root, p);
      IndexedResolves(t, p);
    }
  }

  lemma CompiledWellFormed(b: Builtins, root: JsonNode)
    requires root.Object? && Compile(b, root).Ok?
    ensures SchemaTables.WellFormed(Compile(b, root).value)
  {
    hide Walk, AutoAddDuration, AutoAddEvent, SchemaTables.WellFormed;
    PassesExtend(b, root);
  }

  lemma IndexedResolves(t: Tables, p: Segments)
    requires SchemaTables.WellFormed(t) && Join(p) in t.pathIndex
    ensures Resolve(t, Join(p)) != [] && Join(Resolve(t, Join(p))) == Join(p)
  {
    ResolveExactly(t, Join(p));
    assert Keyed(t, t.paths[t.pathIndex[Join(p)]]);
  }

  /**
   The path table holds every declared and built-in path, and each resolves to itself, if and only if
   no two of them share a dotted form.
   */
  lemma KnownExactlyIff(b: Builtins, root: JsonNode)
    requires root.Object? && DistinctKeys(root) && Compile(b, root).Ok?
    ensures var t := Compile(b, root).value;
            && ((forall p :: Listed(b, root, p) ==> Known(t, p)) <==> DistinctForms(b, root))
            && ((forall p :: Listed(b, root, p) ==> Resolve(t, Join(p)) == p) <==> DistinctForms(b, root))
  {
    hide Compile, Join, DistinctKeys, Listed, Resolve, KeyTable, Keyed;
    var t := Compile(b, root).value;
    CompiledTables(b, root);
    if DistinctForms(b, root) {
      forall p | Listed(b, root, p)
        ensures Known(t, p) && Resolve(t, Join(p)) == p
      {
        ResolvesListed(b, root, Join(p));
        ResolvesKnown(b, root, Join(p));
      }
    }
  }

  lemma ResolvesKnown(b: Builtins, root: JsonNode, dotted: string)
    requires root.Object? && Compile(b, root).Ok?
    ensures var r := Resolve(Compile(b, root).value, dotted);
            r != [] ==> Known(Compile(b, root).value, r)
  {
    hide Compile, Join, SchemaTables.WellFormed, Resolve;
    CompiledWellFormed(b, root);
    ResolveExactly(Compile(b, root).value, dotted);
  }

  // ---- Names without dots ----

  predicate DotFreeBuiltins(b: Builtins) {
    DotFree(b.event) && DotFree(b.id) && DotFree(b.timestamp) && DotFree(b.duration) && DotFree(b.totalMs)
  }

  lemma {:induction false} DeclaredDotFree(root: JsonNode, p: Segments)
    requires DotFreeNames(root) && NodeAt(root, p).Some?
    ensures forall i :: 0 <= i < |p| ==> DotFree(p[i])
    decreases |p|
  {
    if p != [] {
      var child := Find(root.entries, p[0]).value;
      var i :| 0 <= i < |root.entries| && root.entries[i] == (p[0], child);
      DeclaredDotFree(child, p[1..]);
    }
  }

  /** Without dots in names the dotted forms are distinct. */
  lemma DotFreeDistinct(b: Builtins, root: JsonNode)
    requires root.Object? && DistinctKeys(root) && DotFreeNames(root) && DotFreeBuiltins(b)
    requires !AmbiguousDuration(b, root)
    ensures DistinctForms(b, root)
  {
    hide Join, Listed, DotFreeNames, DistinctKeys, DotFreeSegments, AmbiguousDuration;
    forall p, q | Listed(b, root, p) && Listed(b, root, q) && Join(p) == Join(q)
      ensures p == q
    {
      ListedDotFree(b, root, p);
      ListedDotFree(b, root, q);
      JoinInjective(p, q);
    }
  }

  lemma ListedDotFree(b: Builtins, root: JsonNode, p: Segments)
    requires root.Object? && DistinctKeys(root) && DotFreeNames(root) && DotFreeBuiltins(b)
    requires !AmbiguousDuration(b, root) && Listed(b, root, p)
    ensures DotFreeSegments(p)
  {
    hide DotFreeNames, DistinctKeys, DotFree, AmbiguousDuration, DurationPathOf;
    DurationPathListed(b, root);
    if NodeAt(root, p).Some? {
      DeclaredDotFree(root, p);
    }
  }

  /** A marker found by a walk is where the schema declares it. */
  lemma {:induction false} LastMarkerNode(root: JsonNode, node: JsonNode, path: Segments)
    requires DistinctKeys(node) && NodeAt(root, path) == Some(node) && LastMarker(node, path).Some?
    ensures var p := LastMarker(node, path).value;
            path <= p && NodeAt(root, p) == Some(Mark(DurationMarker))
    decreases node, 1
  {
    if node.Object? {
      assert node.entries[..|node.entries|] == node.entries;
      LastMarkerInNode(root, node, |node.entries|, path);
    }
  }

  lemma {:induction false} LastMarkerInNode(root: JsonNode, node: JsonNode, n: nat, path: Segments)
    requires node.Object? && DistinctKeys(node) && NodeAt(root, path) == Some(node) && n <= |node.entries|
    requires LastMarkerIn(node.entries[..n], path).Some?
    ensures var p := LastMarkerIn(node.entries[..n], path).value;
            path < p && NodeAt(root, p) == Some(Mark(DurationMarker))
    decreases node, 0, n
  {
    hide LastMarker, NodeAt;
    assert node.entries[..n][..n - 1] == node.entries[..n - 1];
    var entry := node.entries[n - 1];
    assert node.entries[..n][n - 1] == entry;
    if LastMarker(entry.1, path + [entry.0]).Some? {
      ChildAtPath(root, node, n - 1, path);
      LastMarkerNode(root, entry.1, path + [entry.0]);
    } else {
      LastMarkerInNode(root, node, n - 1, path);
    }
  }

  /** The duration path is declared as a marker or a leaf, or is the built-in one. */
  lemma DurationPathListed(b: Builtins, root: JsonNode)
    requires root.Object? && DistinctKeys(root) && !AmbiguousDuration(b, root)
    ensures DeclaredPath(root, DurationPathOf(b, root)) || DurationPathOf(b, root) == [b.duration, b.totalMs]
  {
    hide LastMarker, LastMarkerIn, DistinctKeys, NodeAt, HasDurationMarker;
    match Find(root.entries, b.duration) {
      case Some(Object(entries)) =>
        var node := Object(entries);
        FindTopLevel(root, b.duration);
        TopLevelNode(root, b.duration, node);
        assert entries[..|entries|] == entries;
        if LastMarkerIn(entries, [b.duration]).Some? {
          LastMarkerInNode(root, node, |entries|, [b.duration]);
        } else if LastMarker(root, []).Some? {
          RootAt(root);
          LastMarkerNode(root, root, []);
          NoMarkerAtRoot(root);
        } else if entries != [] {
          ChildAtPath(root, node, 0, [b.duration]);
          assert [b.duration] + [entries[0].0] == [b.duration, entries[0].0];
        }
      case _ =>
    }
  }

  lemma RootAt(root: JsonNode)
    ensures NodeAt(root, []) == Some(root)
  {
  }

  lemma NoMarkerAtRoot(root: JsonNode)
    requires root.Object?
    ensures NodeAt(root, []) != Some(Mark(DurationMarker))
  {
  }

  /**
   With distinct dotted forms, and so with dot-free names, the path table is exactly the declared and
   the built-in paths, and it is closed under prefixes.
   */
  lemma KnownExactly(b: Builtins, root: JsonNode, p: Segments)
    requires root.Object? && DistinctKeys(root) && Compile(b, root).Ok? && DistinctForms(b, root)
    ensures var t := Compile(b, root).value;
            && (Known(t, p) <==> Listed(b, root, p))
            && (Known(t, p) ==> forall n :: 0 < n <= |p| ==> Known(t, p[..n]))
  {
    hide Compile, Listed, DistinctKeys, Known, DistinctForms;
    var t := Compile(b, root).value;
    KnownExactlyIff(b, root);
    NotAmbiguous(b, root);
    if Known(t, p) {
      KnownIsListed(b, root, p);
      forall n | 0 < n <= |p|
        ensures Known(t, p[..n])
      {
        ListedPrefix(b, root, p, n);
      }
    }
  }

  lemma ListedPrefix(b: Builtins, root: JsonNode, p: Segments, n: nat)
    requires root.Object? && DistinctKeys(root) && !AmbiguousDuration(b, root)
    requires Listed(b, root, p) && 0 < n <= |p|
    ensures Listed(b, root, p[..n])
  {
    hide DistinctKeys, AmbiguousDuration, DurationPathOf;
    DurationPathListed(b, root);
    if DeclaredPath(root, p) {
      assert p == p[..n] + p[n..];
      NodeAtConcat(root, p[..n], p[n..]);
    } else if n == |p| {
      assert p[..n] == p;
    } else {
      assert p[..n] == [p[0]];
    }
  }

  /** `{"a.b": null, "a": {"b": null}}`: two declared paths, one dotted form. */
  const DOTTED: JsonNode := Object([("a.b", Null), ("a", Object([("b", Null)]))])

  /** It is accepted, and one of the two paths resolves to the other. */
  lemma DottedWitness()
    ensures DistinctKeys(DOTTED) && DeclaredPath(DOTTED, ["a.b"]) && DeclaredPath(DOTTED, ["a", "b"])
    ensures var r := Compile(DEFAULT_BUILTINS, DOTTED);
            r.Ok? && (Resolve(r.value, Join(["a.b"])) != ["a.b"] || Resolve(r.value, Join(["a", "b"])) != ["a", "b"])
  {
    hide Compile;
    DottedForms();
    var b, inner := DEFAULT_BUILTINS, Object([("b", Null)]);
    assert DOTTED.entries[1..] == [("a", inner)];
    OnlyEntry("a", inner, b.event);
    OnlyEntry("a", inner, b.duration);
    assert Find(DOTTED.entries, b.event) == None && Find(DOTTED.entries, b.duration) == None;
    NoEventAccepted(b, DOTTED);
  }

  lemma DottedForms()
    ensures DistinctKeys(DOTTED) && DeclaredPath(DOTTED, ["a.b"]) && DeclaredPath(DOTTED, ["a", "b"])
    ensures Join(["a.b"]) == Join(["a", "b"])
  {
    var inner := Object([("b", Null)]);
    assert DistinctKeys(inner);
    assert Find(DOTTED.entries, "a.b") == Some(Null);
    assert DOTTED.entries[1..] == [("a", inner)];
    assert Find(DOTTED.entries[1..], "a") == Some(inner) && Find(inner.entries, "b") == Some(Null);
    var p, q := ["a.b"], ["a", "b"];
    assert NodeAt(DOTTED, p) == Some(Null) by { assert NodeAt(Null, p[1..]) == Some(Null); }
    assert NodeAt(DOTTED, q) == Some(Null) by {
      assert q[1..] == ["b"] && NodeAt(Null, ["b"][1..]) == Some(Null);
      assert NodeAt(inner, ["b"]) == Some(Null);
    }
    assert q[1..] == ["b"] && Join(["b"]) == "b" && Join(q) == "a" + "." + "b" == Join(p);
  }
}
