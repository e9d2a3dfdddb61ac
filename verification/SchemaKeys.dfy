/**
 Which keys an accepted schema gets, and in which order: each name once, where the schema first mentions
 it, and then the built-in names that it does not mention. The order is that of the document's members.
 */
module SchemaKeys {
  import opened Wrappers
  import opened Schemas
  import opened SchemaCompiler
  import opened SchemaTables
  import opened SchemaDefaults
  import opened SchemaMarkers

  // ---- Names in order of first mention ----

  /** Names added to a list, each unless it is there already. */
  function AddNames(keys: seq<string>, names: seq<string>): seq<string> {
    if names == [] then keys else
    var front, last := AddNames(keys, names[..|names| - 1]), names[|names| - 1];
    if last in front then front else front + [last]
  }

  /** The names of a subtree as it is written down: each before those below it. */
  function NamesIn(node: JsonNode): seq<string>
    decreases node, 1
  {
    if node.Object? then NamesInEntries(node.entries) else []
  }

  function NamesInEntries(entries: seq<(string, JsonNode)>): seq<string>
    decreases entries, 0
  {
    if entries == [] then [] else
    var n := |entries| - 1;
    NamesInEntries(entries[..n]) + NamesInEntry(entries[n])
  }

  function NamesInEntry(entry: (string, JsonNode)): seq<string>
    decreases entry, 0
  {
    [entry.0] + NamesIn(entry.1)
  }

  lemma {:induction false} AddNamesConcat(keys: seq<string>, a: seq<string>, b: seq<string>)
    ensures AddNames(keys, a + b) == AddNames(AddNames(keys, a), b)
  {
    if b == [] {
      assert a + b == a;
    } else {
      assert (a + b)[..|a + b| - 1] == a + b[..|b| - 1];
      AddNamesConcat(keys, a, b[..|b| - 1]);
    }
  }

  lemma {:induction false} AddNamesHas(keys: seq<string>, names: seq<string>, name: string)
    ensures name in AddNames(keys, names) <==> name in keys || name in names
  {
    if names != [] {
      AddNamesHas(keys, names[..|names| - 1], name);
      assert names == names[..|names| - 1] + [names[|names| - 1]];
    }
  }

  /** Names that are there already change nothing. */
  lemma {:induction false} AddKnown(keys: seq<string>, names: seq<string>)
    requires forall name :: name in names ==> name in keys
    ensures AddNames(keys, names) == keys
  {
    if names != [] {
      AddKnown(keys, names[..|names| - 1]);
    }
  }

  lemma AddOne(keys: seq<string>, name: string)
    ensures AddNames(keys, [name]) == if name in keys then keys else keys + [name]
  {
    assert [name][..0] == [];
  }

  lemma AddTwo(keys: seq<string>, a: string, b: string)
    ensures AddNames(keys, [a, b]) == AddNames(AddNames(keys, [a]), [b])
  {
    assert [a] + [b] == [a, b];
    AddNamesConcat(keys, [a], [b]);
  }

  lemma AddThree(keys: seq<string>, a: string, b: string, c: string)
    ensures AddNames(keys, [a, b, c]) == AddNames(AddNames(AddNames(keys, [a]), [b]), [c])
  {
    assert [a, b] + [c] == [a, b, c];
    AddNamesConcat(keys, [a, b], [c]);
    AddTwo(keys, a, b);
  }

  // ---- Walking ----

  /** The key index has exactly the names of the key list. */
  ghost predicate SameNames(t: Tables) { forall n :: n in t.keyIndex <==> n in t.keys }

  lemma AddKeyNames(t: Tables, name: string)
    requires SameNames(t)
    ensures SameNames(AddKey(t, name)) && AddKey(t, name).keys == AddNames(t.keys, [name])
  {
    AddOne(t.keys, name);
  }

  lemma AddPathNames(t: Tables, path: Segments)
    requires SameNames(t)
    ensures SameNames(AddPath(t, path)) && AddPath(t, path).keys == t.keys
  {
    hide Join;
  }

  lemma AddNodeNames(t: Tables, path: Segments)
    requires SameNames(t) && path != []
    ensures SameNames(AddNode(t, path)) && AddNode(t, path).keys == AddNames(t.keys, [path[|path| - 1]])
  {
    hide AddKey, AddPath, AddNames;
    AddKeyNames(t, path[|path| - 1]);
    AddPathNames(AddKey(t, path[|path| - 1]), path);
  }

  lemma {:induction false} WalkNames(t: Tables, node: JsonNode, path: Segments)
    requires SameNames(t) && (path == [] ==> node.Object?)
    ensures SameNames(Walk(t, node, path))
    ensures Walk(t, node, path).keys
         == AddNames(t.keys, (if path == [] then [] else [path[|path| - 1]]) + NamesIn(node))
    decreases node, 1
  {
    hide AddNode, AddNames, SameNames;
    var first := if path == [] then [] else [path[|path| - 1]];
    var t' := if path == [] then t else AddNode(t, path);
    if path != [] {
      AddNodeNames(t, path);
    } else {
      NoNames(t.keys);
    }
    assert t'.keys == AddNames(t.keys, first);
    AddNamesConcat(t.keys, first, NamesIn(node));
    if node.Object? {
      WalkEntriesNames(t', node.entries, path);
    } else {
      NoNames(t'.keys);
      SameNamesOf(t', Walk(t, node, path));
    }
  }

  lemma NoNames(keys: seq<string>)
    ensures AddNames(keys, []) == keys
  {
  }

  lemma SameNamesOf(t: Tables, t': Tables)
    requires SameNames(t) && t'.keys == t.keys && t'.keyIndex == t.keyIndex
    ensures SameNames(t')
  {
  }

  lemma {:induction false} WalkEntriesNames(t: Tables, entries: seq<(string, JsonNode)>, path: Segments)
    requires SameNames(t)
    ensures SameNames(WalkEntries(t, entries, path))
    ensures WalkEntries(t, entries, path).keys == AddNames(t.keys, NamesInEntries(entries))
    decreases entries, 0
  {
    hide WalkEntry, NamesInEntry, SameNames;
    if entries == [] {
      NoNames(t.keys);
    } else {
      hide AddNames;
      var n := |entries| - 1;
      WalkEntriesNames(t, entries[..n], path);
      WalkEntryNames(WalkEntries(t, entries[..n], path), entries[n], path);
      AddNamesConcat(t.keys, NamesInEntries(entries[..n]), NamesInEntry(entries[n]));
    }
  }

  lemma {:induction false} WalkEntryNames(t: Tables, entry: (string, JsonNode), path: Segments)
    requires SameNames(t)
    ensures SameNames(WalkEntry(t, entry, path))
    ensures WalkEntry(t, entry, path).keys == AddNames(t.keys, NamesInEntry(entry))
    decreases entry, 0
  {
    hide Walk, AddNames, SameNames;
    WalkNames(t, entry.1, path + [entry.0]);
  }

  // ---- The passes after the walk ----

  predicate AllIn(names: seq<string>, keys: seq<string>) { forall name :: name in names ==> name in keys }

  lemma {:induction false} EntryNamesIn(entries: seq<(string, JsonNode)>, i: nat)
    requires i < |entries|
    ensures AllIn(NamesInEntry(entries[i]), NamesInEntries(entries))
  {
    hide NamesInEntry;
    var n := |entries| - 1;
    if i < n {
      EntryNamesIn(entries[..n], i);
    }
  }

  /** The names at and below a declared path are names of the schema. */
  lemma {:induction false} DeclaredNames(node: JsonNode, q: Segments)
    requires NodeAt(node, q).Some?
    ensures AllIn(q, NamesIn(node)) && AllIn(NamesIn(NodeAt(node, q).value), NamesIn(node))
    decreases |q|
  {
    if q != [] {
      var child := Find(node.entries, q[0]).value;
      var i :| 0 <= i < |node.entries| && node.entries[i] == (q[0], child);
      EntryNamesIn(node.entries, i);
      DeclaredNames(child, q[1..]);
      assert q == [q[0]] + q[1..];
    }
  }

  lemma TopNames(root: JsonNode, name: string)
    requires root.Object? && Find(root.entries, name).Some?
    ensures name in NamesIn(root) && AllIn(NamesIn(Find(root.entries, name).value), NamesIn(root))
  {
    var node := Find(root.entries, name).value;
    var i :| 0 <= i < |root.entries| && root.entries[i] == (name, node);
    EntryNamesIn(root.entries, i);
  }

  lemma EntryKnown(t: Tables, entries: seq<(string, JsonNode)>, i: nat, path: Segments)
    requires SameNames(t) && AllIn(NamesInEntries(entries), t.keys) && i < |entries|
    ensures SameNames(WalkEntry(t, entries[i], path)) && WalkEntry(t, entries[i], path).keys == t.keys
    ensures entries[i].0 in t.keys
  {
    hide WalkEntry, SameNames, NamesInEntries;
    EntryNamesIn(entries, i);
    WalkEntryNames(t, entries[i], path);
    AddKnown(t.keys, NamesInEntry(entries[i]));
  }

  lemma {:induction false} AroundLeafNames(b: Builtins, t: Tables, entries: seq<(string, JsonNode)>, n: nat)
    requires SameNames(t) && AllIn(NamesInEntries(entries), t.keys) && n <= |entries|
    ensures SameNames(WalkAroundLeaf(b, t, entries[..n])) && WalkAroundLeaf(b, t, entries[..n]).keys == t.keys
  {
    hide WalkEntry, SameNames, NamesInEntries, AddKey, AddPath;
    if n > 0 {
      assert entries[..n][..n - 1] == entries[..n - 1];
      AroundLeafNames(b, t, entries, n - 1);
      var t' := WalkAroundLeaf(b, t, entries[..n - 1]);
      EntryKnown(t', entries, n - 1, [b.duration]);
      if entries[n - 1].0 == b.totalMs {
        var t1 := AddKey(t', b.totalMs);
        AddKeyNames(t', b.totalMs);
        AddOne(t'.keys, b.totalMs);
        AddPathNames(t1, [b.duration, b.totalMs]);
        SameNamesOf(AddPath(t1, [b.duration, b.totalMs]), DurationLeaf(b, t'));
      }
    }
  }

  lemma DurationSubtreeNames(b: Builtins, t: Tables, leaf: string)
    requires SameNames(t)
    ensures SameNames(AddDurationSubtree(b, t, leaf))
    ensures AddDurationSubtree(b, t, leaf).keys == AddNames(t.keys, [b.duration, leaf])
  {
    hide AddKey, AddPath, SameNames, AddNames;
    var t1 := AddKey(AddKey(t, b.duration), leaf);
    AddKeyNames(t, b.duration);
    AddKeyNames(AddKey(t, b.duration), leaf);
    AddTwo(t.keys, b.duration, leaf);
    AddPathNames(t1, [b.duration]);
    AddPathNames(AddPath(t1, [b.duration]), [b.duration, leaf]);
    SameNamesOf(AddPath(AddPath(t1, [b.duration]), [b.duration, leaf]), AddDurationSubtree(b, t, leaf));
  }

  /** The built-in names that the duration pass adds when the schema does not mention them. */
  function DurationNames(b: Builtins, root: JsonNode): seq<string>
    requires root.Object?
  {
    if DurationEntries(b, root) then [b.duration] else [b.duration, b.totalMs]
  }

  lemma DurationPassNames(b: Builtins, t: Tables, root: JsonNode)
    requires root.Object? && SameNames(t) && AllIn(NamesIn(root), t.keys)
    requires AutoAddDuration(b, t, root).Ok?
    ensures var t' := AutoAddDuration(b, t, root).value;
            SameNames(t') && t'.keys == AddNames(t.keys, DurationNames(b, root))
  {
    hide AddKey, AddPath, SameNames, AddNames, AddDurationSubtree, WalkEntries, WalkAroundLeaf, NamesInEntries;
    DurationSubtreeNames(b, t, b.totalMs);
    match Find(root.entries, b.duration) {
      case Some(Object(entries)) =>
        TopNames(root, b.duration);
        ResolveNames(b, t, entries);
      case _ =>
    }
  }

  lemma ResolveNames(b: Builtins, t: Tables, entries: seq<(string, JsonNode)>)
    requires SameNames(t) && AllIn(NamesInEntries(entries), t.keys) && b.duration in t.keys
    requires ResolveDuration(b, t, Object(entries)).Ok?
    ensures var t' := ResolveDuration(b, t, Object(entries)).value;
            && SameNames(t')
            && t'.keys == AddNames(t.keys, if entries == [] then [b.duration, b.totalMs] else [b.duration])
  {
    hide AddKey, AddPath, SameNames, AddDurationSubtree, WalkEntries, WalkAroundLeaf, NamesInEntries, Join;
    var t1 := AddPath(AddKey(t, b.duration), [b.duration]);
    AddKeyNames(t, b.duration);
    AddPathNames(AddKey(t, b.duration), [b.duration]);
    AddOne(t.keys, b.duration);
    assert t1.keys == t.keys;
    if entries == [] {
      DurationSubtreeNames(b, t1, b.totalMs);
    } else {
      WalkEntriesNames(t1, entries, [b.duration]);
      AddKnown(t1.keys, NamesInEntries(entries));
      AroundLeafNames(b, t1, entries, |entries|);
      assert entries[..|entries|] == entries;
      var leaf := entries[0].0;
      EntryKnown(t1, entries, 0, [b.duration]);
      DurationSubtreeNames(b, t1, leaf);
      AddKnown(t1.keys, [b.duration, leaf]);
      if |entries| == 1 {
        NoOthers(AddDurationSubtree(b, t1, leaf), entries, [b.duration]);
      }
    }
  }

  lemma EventSubtreeNames(b: Builtins, t: Tables)
    requires SameNames(t)
    ensures AddEventSubtree(b, t).keys == AddNames(t.keys, [b.event, b.timestamp, b.id])
  {
    hide AddKey, AddPath, SameNames, AddNames;
    var t1 := AddKey(t, b.event);
    var t2 := AddKey(t1, b.timestamp);
    var t3 := AddKey(t2, b.id);
    AddKeyNames(t, b.event);
    AddKeyNames(t1, b.timestamp);
    AddKeyNames(t2, b.id);
    AddThree(t.keys, b.event, b.timestamp, b.id);
    AddPathNames(t3, [b.event]);
    AddPathNames(AddPath(t3, [b.event]), [b.event, b.timestamp]);
    AddPathNames(AddPath(AddPath(t3, [b.event]), [b.event, b.timestamp]), [b.event, b.id]);
  }

  lemma EventLeafNames(b: Builtins, t: Tables, entries: seq<(string, JsonNode)>, name: string)
    requires SameNames(t) && AllIn(NamesInEntries(entries), t.keys)
    ensures SameNames(EventLeaf(b, t, entries, name))
    ensures EventLeaf(b, t, entries, name).keys == AddNames(t.keys, [name])
  {
    hide AddKey, AddPath, SameNames, Walk, NamesInEntries;
    match Find(entries, name) {
      case Some(node) =>
        var i :| 0 <= i < |entries| && entries[i] == (name, node);
        EntryNamesIn(entries, i);
        WalkNames(t, node, [b.event, name]);
        AddKnown(t.keys, [name] + NamesIn(node));
        AddKnown(t.keys, [name]);
      case None =>
        AddKeyNames(t, name);
        AddPathNames(AddKey(t, name), [b.event, name]);
    }
  }

  lemma {:induction false} AroundEventNames(b: Builtins, t: Tables, entries: seq<(string, JsonNode)>, n: nat)
    requires SameNames(t) && AllIn(NamesInEntries(entries), t.keys) && n <= |entries|
    ensures SameNames(WalkAroundEvent(b, t, entries[..n])) && WalkAroundEvent(b, t, entries[..n]).keys == t.keys
  {
    hide WalkEntry, SameNames, NamesInEntries;
    if n > 0 {
      assert entries[..n][..n - 1] == entries[..n - 1];
      AroundEventNames(b, t, entries, n - 1);
      EntryKnown(WalkAroundEvent(b, t, entries[..n - 1]), entries, n - 1, [b.event]);
    }
  }

  lemma EventPassNames(b: Builtins, t: Tables, root: JsonNode)
    requires root.Object? && SameNames(t) && AllIn(NamesIn(root), t.keys)
    requires AutoAddEvent(b, t, root).Ok?
    ensures AutoAddEvent(b, t, root).value.keys == AddNames(t.keys, [b.event, b.timestamp, b.id])
  {
    hide AddKey, AddPath, SameNames, AddNames, AddEventSubtree, EventLeaf, WalkAroundEvent, NamesInEntries;
    EventSubtreeNames(b, t);
    match Find(root.entries, b.event) {
      case Some(Object(entries)) =>
        TopNames(root, b.event);
        ResolveEventNames(b, t, entries);
      case _ =>
    }
  }

  lemma ResolveEventNames(b: Builtins, t: Tables, entries: seq<(string, JsonNode)>)
    requires SameNames(t) && AllIn(NamesInEntries(entries), t.keys) && b.event in t.keys
    ensures ResolveEvent(b, t, Object(entries)).Ok?
    ensures ResolveEvent(b, t, Object(entries)).value.keys == AddNames(t.keys, [b.event, b.timestamp, b.id])
  {
    hide AddKey, AddPath, SameNames, AddEventSubtree, EventLeaf, WalkAroundEvent, NamesInEntries, AddNames;
    var t0 := AddPath(AddKey(t, b.event), [b.event]);
    AddKeyNames(t, b.event);
    AddPathNames(AddKey(t, b.event), [b.event]);
    AddKnown(t.keys, [b.event]);
    AddThree(t.keys, b.event, b.timestamp, b.id);
    if entries == [] {
      EventSubtreeNames(b, t0);
    } else {
      EventLeafNames(b, t0, entries, b.timestamp);
      var t1 := EventLeaf(b, t0, entries, b.timestamp);
      var t1' := t1.(timestampSegments := [b.event, b.timestamp]);
      SameNamesOf(t1, t1');
      StillIn(NamesInEntries(entries), t0.keys, b.timestamp);
      EventLeafNames(b, t1', entries, b.id);
      var t2 := EventLeaf(b, t1', entries, b.id);
      var t2' := t2.(idSegments := [b.event, b.id]);
      SameNamesOf(t2, t2');
      StillIn(NamesInEntries(entries), t1'.keys, b.id);
      AroundEventNames(b, t2', entries, |entries|);
      assert entries[..|entries|] == entries;
    }
  }

  lemma StillIn(names: seq<string>, keys: seq<string>, name: string)
    requires AllIn(names, keys)
    ensures AllIn(names, AddNames(keys, [name]))
  {
    AddOne(keys, name);
  }

  // ---- The keys of an accepted schema ----

  /** Every name the schema mentions or needs, as the passes come to it. */
  function Mentioned(b: Builtins, root: JsonNode): seq<string>
    requires root.Object?
  {
    NamesIn(root) + DurationNames(b, root) + [b.event, b.timestamp, b.id]
  }

  /**
   For every accepted schema: its keys are the names that the schema mentions, each once and in the order
   of first mention, and after them the built-in names that it does not mention.
   */
  lemma KeysInOrder(b: Builtins, root: JsonNode)
    requires root.Object? && Compile(b, root).Ok?
    ensures Compile(b, root).value.keys == AddNames([], Mentioned(b, root))
  {
    hide Walk, AutoAddDuration, AutoAddEvent, AddNames, SameNames, NamesIn, DurationNames, AllIn;
    var t0 := Walk(NO_TABLES, root, []);
    StartNames();
    WalkNames(NO_TABLES, root, []);
    assert [] + NamesIn(root) == NamesIn(root);
    WalkedNames(root);
    DurationPassNames(b, t0, root);
    var t1 := AutoAddDuration(b, t0, root).value;
    AddedStay(NamesIn(root), t0.keys, DurationNames(b, root));
    EventPassNames(b, t1, root);
    ValidateKeeps(AutoAddEvent(b, t1, root).value);
    AddNamesConcat([], NamesIn(root) + DurationNames(b, root), [b.event, b.timestamp, b.id]);
    AddNamesConcat([], NamesIn(root), DurationNames(b, root));
  }

  lemma StartNames()
    ensures SameNames(NO_TABLES)
  {
  }

  lemma WalkedNames(root: JsonNode)
    ensures AllIn(NamesIn(root), AddNames([], NamesIn(root)))
  {
    forall name | name in NamesIn(root)
      ensures name in AddNames([], NamesIn(root))
    {
      AddNamesHas([], NamesIn(root), name);
    }
  }

  lemma AddedStay(names: seq<string>, keys: seq<string>, more: seq<string>)
    requires AllIn(names, keys)
    ensures AllIn(names, AddNames(keys, more))
  {
    forall name | name in names
      ensures name in AddNames(keys, more)
    {
      AddNamesHas(keys, more, name);
    }
  }

  /** A name has a key if and only if the schema mentions or needs it. */
  lemma KeyedIff(b: Builtins, root: JsonNode, name: string)
    requires root.Object? && Compile(b, root).Ok?
    ensures name in Compile(b, root).value.keyIndex <==> name in Mentioned(b, root)
  {
    hide Compile, Mentioned, Join, Resolve, Keyed;
    KeysInOrder(b, root);
    CompiledTables(b, root);
    AddNamesHas([], Mentioned(b, root), name);
  }

  /** Every segment of a declared path has a key. */
  lemma DeclaredKeyed(b: Builtins, root: JsonNode, q: Segments)
    requires root.Object? && Compile(b, root).Ok? && q != [] && NodeAt(root, q).Some?
    ensures Keyed(Compile(b, root).value, q)
  {
    hide Compile, NodeAt, NamesIn, DurationNames;
    DeclaredNames(root, q);
    forall i | 0 <= i < |q|
      ensures q[i] in Compile(b, root).value.keyIndex
    {
      assert q[i] in q;
      KeyedIff(b, root, q[i]);
    }
  }
}
