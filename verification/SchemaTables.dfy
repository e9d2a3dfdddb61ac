/** The tables of an accepted schema are well formed. */
module SchemaTables {
  import opened Wrappers
  import opened Schemas
  import opened SchemaCompiler

  // ---- Dotted paths ----

  predicate DotFreeSegments(p: Segments) {
    p != [] && forall i :: 0 <= i < |p| ==> DotFree(p[i])
  }

  lemma SameUpToDot(a: string, x: string, b: string, y: string)
    requires DotFree(a) && DotFree(b) && a + "." + x == b + "." + y
    ensures a == b && x == y
  {
    var s := a + "." + x;
    assert s[|a|] == '.' && s[|b|] == '.';
    assert forall i :: 0 <= i < |a| ==> s[i] == a[i] && a[i] in a;
    assert forall i :: 0 <= i < |b| ==> s[i] == b[i] && b[i] in b;
    assert a == s[..|a|] && b == s[..|b|];
    assert x == s[|a| + 1..] && y == s[|b| + 1..];
  }

  lemma LongJoinHasDot(p: Segments)
    requires |p| > 1
    ensures '.' in Join(p)
  {
    assert Join(p)[|p[0]|] == '.';
  }

  /** Dot-free segments are recovered from their dotted form. */
  lemma {:induction false} JoinInjective(p: Segments, q: Segments)
    requires DotFreeSegments(p) && DotFreeSegments(q) && Join(p) == Join(q)
    ensures p == q
    decreases |p|
  {
    if |p| > 1 {
      LongJoinHasDot(p);
    }
    if |q| > 1 {
      LongJoinHasDot(q);
    }
    if |p| > 1 && |q| > 1 {
      SameUpToDot(p[0], Join(p[1..]), q[0], Join(q[1..]));
      JoinInjective(p[1..], q[1..]);
    }
  }

  // ---- Well-formedness ----

  /** Key list and key index are inverse to each other. */
  predicate KeyTable(t: Tables) {
    && (forall i :: 0 <= i < |t.keys| ==> t.keys[i] in t.keyIndex && t.keyIndex[t.keys[i]] == i)
    && (forall n :: n in t.keyIndex ==> t.keyIndex[n] < |t.keys| && t.keys[t.keyIndex[n]] == n)
  }

  predicate PathTable(t: Tables) {
    && (forall i :: 0 <= i < |t.paths| ==> Join(t.paths[i]) in t.pathIndex && t.pathIndex[Join(t.paths[i])] == i)
    && (forall d :: d in t.pathIndex ==> t.pathIndex[d] < |t.paths| && Join(t.paths[t.pathIndex[d]]) == d)
  }

  predicate Known(t: Tables, path: Segments) { path in t.paths }

  /** A path whose segments all have keys. */
  predicate Keyed(t: Tables, path: Segments) {
    path != [] && forall i :: 0 <= i < |path| ==> path[i] in t.keyIndex
  }

  /** A keyed path whose dotted form is taken, by itself or by an earlier path that shares it. */
  predicate Indexed(t: Tables, path: Segments) { Keyed(t, path) && Join(path) in t.pathIndex }

  /** The paths that the tables refer to. */
  predicate Ends(t: Tables) {
    && (t.durationSegments != [] ==> Indexed(t, t.durationSegments))
    && (t.timestampSegments != [] ==> Indexed(t, t.timestampSegments))
    && (t.idSegments != [] ==> Indexed(t, t.idSegments))
    && (forall i :: 0 <= i < |t.defaults| ==> Indexed(t, t.defaults[i].segments))
  }

  predicate WellFormed(t: Tables) {
    && KeyTable(t) && PathTable(t) && Ends(t)
    && (forall i :: 0 <= i < |t.paths| ==> Keyed(t, t.paths[i]))
  }

  /** Tables only grow. */
  predicate Grew(t: Tables, t': Tables) {
    && t.keyIndex.Keys <= t'.keyIndex.Keys && t.pathIndex.Keys <= t'.pathIndex.Keys && t.paths <= t'.paths
    && (t.hasDurationMarker ==> t'.hasDurationMarker)
  }

  predicate Extends(t: Tables, t': Tables) { WellFormed(t') && Grew(t, t') }

  lemma IndexedStays(t: Tables, t': Tables, path: Segments)
    requires Grew(t, t') && Indexed(t, path)
    ensures Indexed(t', path)
  {
  }

  /** The paths that the tables refer to stay indexed. */
  lemma EndsStay(t: Tables, t': Tables)
    requires Ends(t) && Grew(t, t') && t'.defaults == t.defaults && t'.durationSegments == t.durationSegments
    requires t'.timestampSegments == t.timestampSegments && t'.idSegments == t.idSegments
    ensures Ends(t')
  {
    forall path | Indexed(t, path)
      ensures Indexed(t', path)
    {
      IndexedStays(t, t', path);
    }
  }

  lemma AddKeyTable(t: Tables, name: string)
    requires KeyTable(t)
    ensures KeyTable(AddKey(t, name)) && name in AddKey(t, name).keyIndex && Grew(t, AddKey(t, name))
  {
  }

  lemma AddKeyExtends(t: Tables, name: string)
    requires WellFormed(t)
    ensures Extends(t, AddKey(t, name)) && name in AddKey(t, name).keyIndex
    ensures AddKey(t, name).paths == t.paths
  {
    hide Ends, KeyTable, Join;
    var t' := AddKey(t, name);
    AddKeyTable(t, name);
    EndsStay(t, t');
    assert forall i :: 0 <= i < |t.paths| ==> Keyed(t, t.paths[i]) && Keyed(t', t.paths[i]);
  }

  /** What a caller of `add_path` has to provide: the parent has its keys. */
  predicate Ready(t: Tables, path: Segments) {
    path != [] && (|path| > 1 ==> Indexed(t, path[..|path| - 1]))
  }

  lemma ReadyKeyed(t: Tables, path: Segments)
    requires Ready(t, path) && path[|path| - 1] in t.keyIndex
    ensures Keyed(t, path)
  {
    if |path| > 1 {
      var front := path[..|path| - 1];
      assert forall j :: 0 <= j < |front| ==> path[j] == front[j];
    }
  }

  lemma AddPathExtends(t: Tables, path: Segments)
    requires WellFormed(t) && Keyed(t, path)
    ensures Extends(t, AddPath(t, path)) && Indexed(AddPath(t, path), path)
    ensures AddPath(t, path).keyIndex == t.keyIndex
  {
    hide Join, Ends;
    var t' := AddPath(t, path);
    if Join(path) !in t.pathIndex {
      EndsStay(t, t');
      assert forall i :: 0 <= i < |t.paths| ==> Keyed(t, t.paths[i]) && Keyed(t', t.paths[i]);
    }
  }

  lemma AddNodeExtends(t: Tables, path: Segments)
    requires WellFormed(t) && Ready(t, path)
    ensures Extends(t, AddNode(t, path)) && Indexed(AddNode(t, path), path)
  {
    hide AddKey, AddPath, WellFormed, Indexed;
    var t1 := AddKey(t, path[|path| - 1]);
    AddKeyExtends(t, path[|path| - 1]);
    if |path| > 1 {
      IndexedStays(t, t1, path[..|path| - 1]);
    }
    ReadyKeyed(t1, path);
    AddPathExtends(t1, path);
  }

  lemma ExtendsTrans(t: Tables, t': Tables, t'': Tables)
    requires Extends(t, t') && Extends(t', t'')
    ensures Extends(t, t'')
  {
  }

  // ---- Walking ----

  lemma MarkDurationExtends(t: Tables, path: Segments)
    requires WellFormed(t) && Indexed(t, path)
    ensures Extends(t, t.(hasDurationMarker := true, durationSegments := path))
  {
    var t' := t.(hasDurationMarker := true, durationSegments := path);
    assert forall i :: 0 <= i < |t.paths| ==> Keyed(t, t.paths[i]) && Keyed(t', t.paths[i]);
  }

  lemma DefaultExtends(t: Tables, d: DefaultEntry)
    requires WellFormed(t) && Indexed(t, d.segments)
    ensures Extends(t, t.(defaults := t.defaults + [d]))
  {
    var t' := t.(defaults := t.defaults + [d]);
    assert forall i :: 0 <= i < |t.paths| ==> Keyed(t, t.paths[i]) && Keyed(t', t.paths[i]);
  }

  lemma LeafExtends(t: Tables, node: JsonNode, path: Segments)
    requires WellFormed(t) && Indexed(t, path)
    ensures DefaultOf(node).Some? ==>
              Extends(t, t.(defaults := t.defaults + [DefaultEntry(path, DefaultOf(node).value)]))
    ensures Extends(t, t)
  {
    Refl(t);
    if DefaultOf(node).Some? {
      DefaultExtends(t, DefaultEntry(path, DefaultOf(node).value));
    }
  }

  lemma {:induction false} WalkExtends(t: Tables, node: JsonNode, path: Segments)
    requires WellFormed(t)
    requires if path == [] then node.Object? else Ready(t, path)
    ensures Extends(t, Walk(t, node, path))
    ensures path != [] ==> Indexed(Walk(t, node, path), path)
    decreases node, 1
  {
    hide WellFormed, AddNode, Ready, Grew;
    if path == [] {
      WalkEntriesExtends(t, node.entries, path);
    } else {
      AddNodeExtends(t, path);
      var t1 := AddNode(t, path);
      match node {
        case Object(entries) =>
          WalkEntriesExtends(t1, entries, path);
          ExtendsTrans(t, t1, Walk(t, node, path));
          IndexedStays(t1, Walk(t, node, path), path);
        case Mark(DurationMarker) =>
          MarkDurationExtends(t1, path);
          ExtendsTrans(t, t1, Walk(t, node, path));
        case _ =>
          LeafExtends(t1, node, path);
          ExtendsTrans(t, t1, Walk(t, node, path));
      }
    }
  }

  lemma ChildReady(t: Tables, path: Segments, name: string)
    requires (path == [] || Indexed(t, path))
    ensures Ready(t, path + [name])
  {
    assert (path + [name])[..|path|] == path;
  }

  lemma Refl(t: Tables)
    requires WellFormed(t)
    ensures Extends(t, t)
  {
  }

  lemma {:induction false} WalkEntriesExtends(t: Tables, entries: seq<(string, JsonNode)>, path: Segments)
    requires WellFormed(t) && (path == [] || Indexed(t, path))
    ensures Extends(t, WalkEntries(t, entries, path))
    decreases entries, 0
  {
    hide WellFormed, Walk, Grew, Indexed;
    if entries == [] {
      Refl(t);
    } else {
      var n := |entries| - 1;
      var t1 := WalkEntries(t, entries[..n], path);
      WalkEntriesExtends(t, entries[..n], path);
      if path != [] {
        IndexedStays(t, t1, path);
      }
      WalkEntryExtends(t1, entries[n], path);
      ExtendsTrans(t, t1, WalkEntries(t, entries, path));
    }
  }

  lemma {:induction false} WalkEntryExtends(t: Tables, entry: (string, JsonNode), path: Segments)
    requires WellFormed(t) && (path == [] || Indexed(t, path))
    ensures Extends(t, WalkEntry(t, entry, path))
    decreases entry, 0
  {
    ChildReady(t, path, entry.0);
    WalkExtends(t, entry.1, path + [entry.0]);
  }

  // ---- The built-in subtrees ----

  /** One or two segments added with their keys. */
  lemma AddRoot(t: Tables, name: string)
    requires WellFormed(t)
    ensures var t' := AddPath(AddKey(t, name), [name]); Extends(t, t') && Indexed(t', [name])
  {
    AddNodeExtends(t, [name]);
  }

  lemma AddLeaf(t: Tables, root: string, leaf: string)
    requires WellFormed(t) && Indexed(t, [root])
    ensures var t' := AddPath(AddKey(t, leaf), [root, leaf]); Extends(t, t') && Indexed(t', [root, leaf])
  {
    assert [root, leaf][..1] == [root];
    AddNodeExtends(t, [root, leaf]);
  }

  /** A path of one or two segments whose keys were added beforehand. */
  lemma AddKeyedPath(t: Tables, path: Segments)
    requires WellFormed(t) && Ready(t, path) && path[|path| - 1] in t.keyIndex
    ensures Extends(t, AddPath(t, path)) && Indexed(AddPath(t, path), path)
    ensures AddPath(t, path).keyIndex == t.keyIndex
  {
    ReadyKeyed(t, path);
    AddPathExtends(t, path);
  }

  lemma AddDurationExtends(b: Builtins, t: Tables, leaf: string)
    requires WellFormed(t)
    ensures var t' := AddDurationSubtree(b, t, leaf);
            Extends(t, t') && t'.hasDurationMarker && t'.durationSegments != []
            && Indexed(t', [b.duration])
  {
    hide WellFormed, Grew, Indexed, AddKey, AddPath;
    var t1 := AddKey(t, b.duration);
    AddKeyExtends(t, b.duration);
    var t2 := AddKey(t1, leaf);
    AddKeyExtends(t1, leaf);
    KeyStays(t1, t2, b.duration);
    AddKeyedPath(t2, [b.duration]);
    var t3 := AddPath(t2, [b.duration]);
    assert [b.duration, leaf][..1] == [b.duration];
    AddKeyedPath(t3, [b.duration, leaf]);
    var t4 := AddPath(t3, [b.duration, leaf]);
    MarkDurationExtends(t4, [b.duration, leaf]);
    var t5 := AddDurationSubtree(b, t, leaf);
    ExtendsTrans(t, t1, t2);
    ExtendsTrans(t, t2, t3);
    ExtendsTrans(t, t3, t4);
    ExtendsTrans(t, t4, t5);
    ExtendsTrans(t3, t4, t5);
    IndexedStays(t3, t5, [b.duration]);
  }

  lemma KeyStays(t: Tables, t': Tables, name: string)
    requires Extends(t, t') && name in t.keyIndex
    ensures name in t'.keyIndex
  {
  }

  lemma DurationLeafExtends(b: Builtins, t: Tables)
    requires WellFormed(t) && Indexed(t, [b.duration])
    ensures var t' := DurationLeaf(b, t);
            Extends(t, t') && t'.hasDurationMarker && t'.durationSegments != []
  {
    hide WellFormed, Grew, Indexed, AddKey, AddPath;
    var path := [b.duration, b.totalMs];
    AddLeaf(t, b.duration, b.totalMs);
    var t1 := AddPath(AddKey(t, b.totalMs), path);
    MarkDurationExtends(t1, path);
    ExtendsTrans(t, t1, DurationLeaf(b, t));
  }

  lemma {:induction false} WalkAroundLeafExtends(b: Builtins, t: Tables, entries: seq<(string, JsonNode)>)
    requires WellFormed(t) && Indexed(t, [b.duration])
    ensures Extends(t, WalkAroundLeaf(b, t, entries))
  {
    hide WellFormed, Grew, Indexed, WalkEntry, DurationLeaf;
    if entries == [] {
      Refl(t);
    } else {
      var n := |entries| - 1;
      var t1 := WalkAroundLeaf(b, t, entries[..n]);
      WalkAroundLeafExtends(b, t, entries[..n]);
      IndexedStays(t, t1, [b.duration]);
      if entries[n].0 == b.totalMs {
        DurationLeafExtends(b, t1);
      } else {
        WalkEntryExtends(t1, entries[n], [b.duration]);
      }
      ExtendsTrans(t, t1, WalkAroundLeaf(b, t, entries));
    }
  }

  /** The duration path is set once a marker was seen, and a set path stays set. */
  predicate HasDuration(t: Tables) { t.hasDurationMarker && t.durationSegments != [] }

  lemma {:induction false} WalkMarks(t: Tables, node: JsonNode, path: Segments)
    requires path == [] ==> node.Object?
    ensures var t' := Walk(t, node, path);
            && (HasDuration(t) || HasDurationMarker(node) ==> HasDuration(t'))
            && (!t.hasDurationMarker && !HasDurationMarker(node) ==>
                  !t'.hasDurationMarker && t'.durationSegments == t.durationSegments)
            && t'.timestampSegments == t.timestampSegments && t'.idSegments == t.idSegments
    decreases node, 1
  {
    hide AddKey, AddPath;
    if path != [] {
      AddsKeepMarks(t, path[|path| - 1], path);
    }
    if node.Object? {
      WalkEntriesMark(if path == [] then t else AddNode(t, path), node.entries, path);
    }
  }

  predicate AnyMarker(entries: seq<(string, JsonNode)>) {
    exists i :: 0 <= i < |entries| && HasDurationMarker(entries[i].1)
  }

  lemma {:induction false} WalkEntriesMark(t: Tables, entries: seq<(string, JsonNode)>, path: Segments)
    ensures var t' := WalkEntries(t, entries, path);
            && (HasDuration(t) || AnyMarker(entries) ==> HasDuration(t'))
            && (!t.hasDurationMarker && !AnyMarker(entries) ==>
                  !t'.hasDurationMarker && t'.durationSegments == t.durationSegments)
            && t'.timestampSegments == t.timestampSegments && t'.idSegments == t.idSegments
    decreases entries, 0
  {
    hide HasDurationMarker;
    if entries != [] {
      var n := |entries| - 1;
      WalkEntriesMark(t, entries[..n], path);
      WalkEntryMarks(WalkEntries(t, entries[..n], path), entries[n], path);
      assert AnyMarker(entries) <==> AnyMarker(entries[..n]) || HasDurationMarker(entries[n].1) by {
        assert forall i :: 0 <= i < n ==> entries[..n][i] == entries[i];
      }
    }
  }

  lemma {:induction false} WalkEntryMarks(t: Tables, entry: (string, JsonNode), path: Segments)
    ensures var t' := WalkEntry(t, entry, path);
            && (HasDuration(t) || HasDurationMarker(entry.1) ==> HasDuration(t'))
            && (!t.hasDurationMarker && !HasDurationMarker(entry.1) ==>
                  !t'.hasDurationMarker && t'.durationSegments == t.durationSegments)
            && t'.timestampSegments == t.timestampSegments && t'.idSegments == t.idSegments
    decreases entry, 0
  {
    WalkMarks(t, entry.1, path + [entry.0]);
  }

  lemma {:induction false} WalkAroundLeafMarks(b: Builtins, t: Tables, entries: seq<(string, JsonNode)>)
    ensures var t' := WalkAroundLeaf(b, t, entries);
            && (HasDuration(t) || Find(entries, b.totalMs).Some? ==> HasDuration(t'))
            && t'.timestampSegments == t.timestampSegments && t'.idSegments == t.idSegments
  {
    hide WalkEntry;
    if entries != [] {
      var n := |entries| - 1;
      var t1 := WalkAroundLeaf(b, t, entries[..n]);
      WalkAroundLeafMarks(b, t, entries[..n]);
      WalkEntryMarks(t1, entries[n], [b.duration]);
      FindInFront(entries, b.totalMs);
    }
  }

  lemma FindInFront(entries: seq<(string, JsonNode)>, name: string)
    requires entries != []
    ensures var n := |entries| - 1;
            Find(entries, name).Some? <==> Find(entries[..n], name).Some? || entries[n].0 == name
  {
    var n := |entries| - 1;
    assert forall i :: 0 <= i < n ==> entries[..n][i] == entries[i];
  }

  lemma ResolveDurationExtends(b: Builtins, t: Tables, node: JsonNode)
    requires WellFormed(t)
    requires t.hasDurationMarker ==> t.durationSegments != []
    requires ResolveDuration(b, t, node).Ok?
    ensures var t' := ResolveDuration(b, t, node).value;
            Extends(t, t') && HasDuration(t')
  {
    hide WellFormed, Grew, Indexed, WalkEntries, WalkAroundLeaf, AddDurationSubtree, AddKey, AddPath;
    if !node.Object? {
      AddDurationExtends(b, t, b.totalMs);
    } else {
      AddRoot(t, b.duration);
      var t1, entries := AddPath(AddKey(t, b.duration), [b.duration]), node.entries;
      AddsKeepMarks(t, b.duration, [b.duration]);
      var t' := ResolveDuration(b, t, node).value;
      if entries == [] {
        AddDurationExtends(b, t1, b.totalMs);
      } else if t.hasDurationMarker || HasMarkerLeaf(entries) {
        WalkEntriesExtends(t1, entries, [b.duration]);
        WalkEntriesMark(t1, entries, [b.duration]);
        MarkerLeafIsMarker(entries);
      } else if Find(entries, b.totalMs).Some? {
        WalkAroundLeafExtends(b, t1, entries);
        WalkAroundLeafMarks(b, t1, entries);
      } else {
        var leaf := entries[0].0;
        AddDurationExtends(b, t1, leaf);
        var t2 := AddDurationSubtree(b, t1, leaf);
        WalkEntriesExtends(t2, Others(entries, leaf), [b.duration]);
        WalkEntriesMark(t2, Others(entries, leaf), [b.duration]);
        ExtendsTrans(t1, t2, t');
      }
      ExtendsTrans(t, t1, t');
    }
  }

  lemma AddsKeepMarks(t: Tables, name: string, path: Segments)
    ensures var t' := AddPath(AddKey(t, name), path);
            && t'.hasDurationMarker == t.hasDurationMarker && t'.durationSegments == t.durationSegments
            && t'.timestampSegments == t.timestampSegments && t'.idSegments == t.idSegments
            && t'.defaults == t.defaults
  {
  }

  lemma MarkerLeafIsMarker(entries: seq<(string, JsonNode)>)
    ensures HasMarkerLeaf(entries) ==> AnyMarker(entries)
  {
    if HasMarkerLeaf(entries) {
      var i :| 0 <= i < |entries| && entries[i].1 == Mark(DurationMarker);
      assert HasDurationMarker(entries[i].1);
    }
  }

  // ---- The event subtree ----

  lemma SetEndsExtend(t: Tables, ts: Segments, id: Segments)
    requires WellFormed(t) && (ts != [] ==> Indexed(t, ts)) && (id != [] ==> Indexed(t, id))
    ensures Extends(t, t.(timestampSegments := ts, idSegments := id))
  {
    var t' := t.(timestampSegments := ts, idSegments := id);
    assert forall i :: 0 <= i < |t.paths| ==> Keyed(t, t.paths[i]) && Keyed(t', t.paths[i]);
  }

  lemma AddEventExtends(b: Builtins, t: Tables)
    requires WellFormed(t)
    ensures Extends(t, AddEventSubtree(b, t))
  {
    hide WellFormed, Grew, Indexed, AddKey, AddPath;
    var t1 := AddKey(t, b.event);
    AddKeyExtends(t, b.event);
    var t2 := AddKey(t1, b.timestamp);
    AddKeyExtends(t1, b.timestamp);
    var t3 := AddKey(t2, b.id);
    AddKeyExtends(t2, b.id);
    KeyStays(t1, t2, b.event);
    KeyStays(t2, t3, b.event);
    KeyStays(t2, t3, b.timestamp);
    ExtendsTrans(t, t1, t2);
    ExtendsTrans(t, t2, t3);
    AddEventPathsExtend(b, t3);
    ExtendsTrans(t, t3, AddEventSubtree(b, t));
  }

  lemma AddEventPathsExtend(b: Builtins, t: Tables)
    requires WellFormed(t)
    requires b.event in t.keyIndex && b.timestamp in t.keyIndex && b.id in t.keyIndex
    ensures var t' := AddPath(AddPath(AddPath(t, [b.event]), [b.event, b.timestamp]), [b.event, b.id]);
            Extends(t, t'.(timestampSegments := [b.event, b.timestamp], idSegments := [b.event, b.id]))
  {
    hide WellFormed, Grew, Indexed, AddKey, AddPath;
    assert [b.event, b.timestamp][..1] == [b.event] && [b.event, b.id][..1] == [b.event];
    AddKeyedPath(t, [b.event]);
    var t1 := AddPath(t, [b.event]);
    AddKeyedPath(t1, [b.event, b.timestamp]);
    var t2 := AddPath(t1, [b.event, b.timestamp]);
    IndexedStays(t1, t2, [b.event]);
    AddKeyedPath(t2, [b.event, b.id]);
    var t3 := AddPath(t2, [b.event, b.id]);
    IndexedStays(t2, t3, [b.event, b.timestamp]);
    SetEndsExtend(t3, [b.event, b.timestamp], [b.event, b.id]);
    ExtendsTrans(t, t1, t2);
    ExtendsTrans(t, t2, t3);
    ExtendsTrans(t, t3, t3.(timestampSegments := [b.event, b.timestamp], idSegments := [b.event, b.id]));
  }

  lemma EventLeafExtends(b: Builtins, t: Tables, node: JsonNode, name: string)
    requires WellFormed(t) && node.Object?
    requires Indexed(t, [b.event])
    ensures var t' := EventLeaf(b, t, node.entries, name);
            Extends(t, t') && Indexed(t', [b.event]) && Indexed(t', [b.event, name])
    ensures HasDuration(t) ==> HasDuration(EventLeaf(b, t, node.entries, name))
  {
    hide WellFormed, Grew, Indexed, AddKey, AddPath, Walk;
    var t' := EventLeaf(b, t, node.entries, name);
    match Find(node.entries, name) {
      case Some(leaf) =>
        ChildReady(t, [b.event], name);
        assert [b.event] + [name] == [b.event, name];
        WalkExtends(t, leaf, [b.event, name]);
        WalkMarks(t, leaf, [b.event, name]);
      case None =>
        AddLeaf(t, b.event, name);
        AddsKeepMarks(t, name, [b.event, name]);
    }
    IndexedStays(t, t', [b.event]);
  }

  lemma {:induction false} WalkAroundEventExtends(b: Builtins, t: Tables, entries: seq<(string, JsonNode)>)
    requires WellFormed(t) && Indexed(t, [b.event])
    ensures var t' := WalkAroundEvent(b, t, entries);
            && Extends(t, t') && (HasDuration(t) ==> HasDuration(t'))
            && t'.timestampSegments == t.timestampSegments && t'.idSegments == t.idSegments
  {
    hide WellFormed, Grew, Indexed, WalkEntry;
    if entries == [] {
      Refl(t);
    } else {
      var n := |entries| - 1;
      var t1 := WalkAroundEvent(b, t, entries[..n]);
      WalkAroundEventExtends(b, t, entries[..n]);
      IndexedStays(t, t1, [b.event]);
      WalkEntryExtends(t1, entries[n], [b.event]);
      WalkEntryMarks(t1, entries[n], [b.event]);
      if t1 != WalkAroundEvent(b, t, entries) {
        ExtendsTrans(t, t1, WalkAroundEvent(b, t, entries));
      }
    }
  }

  lemma ResolveEventExtends(b: Builtins, t: Tables, node: JsonNode)
    requires WellFormed(t) && HasDuration(t) && node.Object?
    ensures ResolveEvent(b, t, node).Ok?
    ensures var t' := ResolveEvent(b, t, node).value;
            && Extends(t, t') && HasDuration(t')
            && t'.timestampSegments == [b.event, b.timestamp] && t'.idSegments == [b.event, b.id]
  {
    hide WellFormed, Grew, Indexed, AddKey, AddPath, EventLeaf, WalkAroundEvent, AddEventSubtree;
    AddRoot(t, b.event);
    AddsKeepMarks(t, b.event, [b.event]);
    var t0 := AddPath(AddKey(t, b.event), [b.event]);
    var t' := ResolveEvent(b, t, node).value;
    if node.entries == [] {
      AddEventExtends(b, t0);
      AddEventEnds(b, t0);
    } else {
      var t1 := EventLeaf(b, t0, node.entries, b.timestamp);
      EventLeafExtends(b, t0, node, b.timestamp);
      var t1' := t1.(timestampSegments := [b.event, b.timestamp]);
      IdStays(t1);
      SetEndsExtend(t1, [b.event, b.timestamp], t1.idSegments);
      IndexedStays(t1, t1', [b.event]);
      var t2 := EventLeaf(b, t1', node.entries, b.id);
      EventLeafExtends(b, t1', node, b.id);
      EventLeafEnds(b, t1', node.entries, b.id);
      IndexedStays(t1, t1', [b.event, b.timestamp]);
      IndexedStays(t1', t2, [b.event, b.timestamp]);
      var t2' := t2.(idSegments := [b.event, b.id]);
      SetEndsExtend(t2, t2.timestampSegments, [b.event, b.id]);
      IndexedStays(t2, t2', [b.event]);
      WalkAroundEventExtends(b, t2', node.entries);
      ExtendsTrans(t0, t1, t1');
      ExtendsTrans(t0, t1', t2);
      ExtendsTrans(t0, t2, t2');
      ExtendsTrans(t0, t2', t');
    }
    ExtendsTrans(t, t0, t');
  }

  lemma IdStays(t: Tables)
    requires WellFormed(t)
    ensures t.idSegments != [] ==> Indexed(t, t.idSegments)
  {
  }

  lemma EventLeafEnds(b: Builtins, t: Tables, entries: seq<(string, JsonNode)>, name: string)
    ensures EventLeaf(b, t, entries, name).timestampSegments == t.timestampSegments
  {
    if Find(entries, name).Some? {
      WalkMarks(t, Find(entries, name).value, [b.event, name]);
    }
  }

  lemma AddEventEnds(b: Builtins, t: Tables)
    ensures var t' := AddEventSubtree(b, t);
            && t'.timestampSegments == [b.event, b.timestamp] && t'.idSegments == [b.event, b.id]
            && t'.hasDurationMarker == t.hasDurationMarker && t'.durationSegments == t.durationSegments
            && t'.defaults == t.defaults
  {
    hide AddKey, AddPath;
    var t1 := AddKey(AddKey(AddKey(t, b.event), b.timestamp), b.id);
    AddKeyKeeps(t, b.event);
    AddKeyKeeps(AddKey(t, b.event), b.timestamp);
    AddKeyKeeps(AddKey(AddKey(t, b.event), b.timestamp), b.id);
    AddPathKeeps(t1, [b.event]);
    AddPathKeeps(AddPath(t1, [b.event]), [b.event, b.timestamp]);
    AddPathKeeps(AddPath(AddPath(t1, [b.event]), [b.event, b.timestamp]), [b.event, b.id]);
  }

  /** Everything but the key and path tables. */
  predicate SameRest(t: Tables, t': Tables) {
    && t'.hasDurationMarker == t.hasDurationMarker && t'.durationSegments == t.durationSegments
    && t'.timestampSegments == t.timestampSegments && t'.idSegments == t.idSegments
    && t'.defaults == t.defaults
  }

  lemma AddKeyKeeps(t: Tables, name: string)
    ensures SameRest(t, AddKey(t, name))
  {
  }

  lemma AddPathKeeps(t: Tables, path: Segments)
    ensures SameRest(t, AddPath(t, path))
  {
    hide Join;
  }

  // ---- The compiled tables ----

  lemma NoTablesWellFormed()
    ensures WellFormed(NO_TABLES)
  {
  }

  /** The passes before validation, on a schema none of them rejects. */
  lemma PassesExtend(b: Builtins, root: JsonNode)
    requires root.Object?
    ensures var t0 := Walk(NO_TABLES, root, []);
            var r1 := AutoAddDuration(b, t0, root);
            r1.Ok? ==>
              && WellFormed(r1.value) && HasDuration(r1.value)
              && (AutoAddEvent(b, r1.value, root).Ok? <==> !BadEvent(b, root))
              && (!BadEvent(b, root) ==>
                    var t2 := AutoAddEvent(b, r1.value, root).value;
                    && WellFormed(t2) && HasDuration(t2)
                    && t2.timestampSegments == [b.event, b.timestamp] && t2.idSegments == [b.event, b.id])
  {
    hide WellFormed, Grew, Indexed, Walk, ResolveDuration, ResolveEvent, AddDurationSubtree, AddEventSubtree;
    NoTablesWellFormed();
    WalkExtends(NO_TABLES, root, []);
    WalkMarks(NO_TABLES, root, []);
    var t0 := Walk(NO_TABLES, root, []);
    if AutoAddDuration(b, t0, root).Ok? {
      if Find(root.entries, b.duration).Some? {
        ResolveDurationExtends(b, t0, Find(root.entries, b.duration).value);
      } else {
        AddDurationExtends(b, t0, b.totalMs);
      }
      var t1 := AutoAddDuration(b, t0, root).value;
      if Find(root.entries, b.event).Some? {
        var node := Find(root.entries, b.event).value;
        if node.Object? {
          ResolveEventExtends(b, t1, node);
        } else {
          RejectedEvent(b, t1, node);
        }
      } else {
        AddEventExtends(b, t1);
        AddEventEnds(b, t1);
      }
    }
  }

  lemma RejectedEvent(b: Builtins, t: Tables, node: JsonNode)
    requires !node.Object?
    ensures ResolveEvent(b, t, node) == Err(EventNotObject)
  {
  }

  /** The schema gives the event key something other than an object. */
  predicate BadEvent(b: Builtins, root: JsonNode)
    requires root.Object?
  {
    Find(root.entries, b.event).Some? && !Find(root.entries, b.event).value.Object?
  }

  lemma ResolveKnown(t: Tables, path: Segments)
    requires WellFormed(t) && Known(t, path)
    ensures Resolve(t, Join(path)) == path
  {
    var i :| 0 <= i < |t.paths| && t.paths[i] == path;
    assert t.pathIndex[Join(t.paths[i])] == i;
  }

  /** A dotted path resolves to segments exactly when it is the join of a known path. */
  lemma ResolveExactly(t: Tables, dotted: string)
    requires WellFormed(t)
    ensures Resolve(t, dotted) != [] <==> exists i :: 0 <= i < |t.paths| && Join(t.paths[i]) == dotted
    ensures Resolve(t, dotted) != [] ==> Known(t, Resolve(t, dotted)) && Join(Resolve(t, dotted)) == dotted
  {
    if dotted in t.pathIndex {
      var i := t.pathIndex[dotted];
      assert Keyed(t, t.paths[i]);
    }
  }

  /**
   After every accepted schema: key list and key index are inverse, every segment of a path has a
   key, resolving the dotted form of a path gives the path, and the built-in paths and those of the
   defaults have keys and a dotted form that resolves.
   */
  lemma CompiledTables(b: Builtins, root: JsonNode)
    requires root.Object? && Compile(b, root).Ok?
    ensures var t := Compile(b, root).value;
            && KeyTable(t)
            && (forall p :: Known(t, p) ==> Keyed(t, p) && Resolve(t, Join(p)) == p)
            && HasDuration(t) && Indexed(t, t.durationSegments)
            && t.timestampSegments == [b.event, b.timestamp] && Indexed(t, t.timestampSegments)
            && t.idSegments == [b.event, b.id] && Indexed(t, t.idSegments)
            && (forall i :: 0 <= i < |t.defaults| ==> Indexed(t, t.defaults[i].segments))
  {
    hide Walk, AutoAddDuration, AutoAddEvent, Join, Resolve;
    PassesExtend(b, root);
    var t := Compile(b, root).value;
    forall p | Known(t, p)
      ensures Keyed(t, p) && Resolve(t, Join(p)) == p
    {
      ResolveKnown(t, p);
    }
  }
}
