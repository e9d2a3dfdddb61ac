/** Compiling a schema preserves what it declares: its default writes rebuild its tree. */
module SchemaDefaults {
  import opened Wrappers
  import opened Schemas
  import opened SchemaCompiler
  import opened SchemaTables
  import opened WideEvents
  import opened EventLaws

  /** The default writes of a subtree, in walking order. */
  function DefaultsOf(node: JsonNode, path: Segments): seq<DefaultEntry>
    decreases node, 1
  {
    if node.Object? then DefaultsOfEntries(node.entries, path)
    else if DefaultOf(node).Some? then [DefaultEntry(path, DefaultOf(node).value)]
    else []
  }

  function DefaultsOfEntries(entries: seq<(string, JsonNode)>, path: Segments): seq<DefaultEntry>
    decreases entries, 0
  {
    if entries == [] then [] else
    var n := |entries| - 1;
    DefaultsOfEntries(entries[..n], path) + DefaultsOfEntry(entries[n], path)
  }

  function DefaultsOfEntry(entry: (string, JsonNode), path: Segments): seq<DefaultEntry>
    decreases entry, 0
  {
    DefaultsOf(entry.1, path + [entry.0])
  }

  // ---- The walk collects them ----

  lemma {:induction false} WalkDefaults(t: Tables, node: JsonNode, path: Segments)
    requires path == [] ==> node.Object?
    ensures Walk(t, node, path).defaults == t.defaults + DefaultsOf(node, path)
    decreases node, 1
  {
    hide AddKey, AddPath;
    if path != [] {
      AddsKeepMarks(t, path[|path| - 1], path);
    }
    if node.Object? {
      WalkEntriesDefaults(if path == [] then t else AddNode(t, path), node.entries, path);
    }
  }

  lemma {:induction false} WalkEntriesDefaults(t: Tables, entries: seq<(string, JsonNode)>, path: Segments)
    ensures WalkEntries(t, entries, path).defaults == t.defaults + DefaultsOfEntries(entries, path)
    decreases entries, 0
  {
    if entries != [] {
      var n := |entries| - 1;
      WalkEntriesDefaults(t, entries[..n], path);
      WalkEntryDefaults(WalkEntries(t, entries[..n], path), entries[n], path);
    }
  }

  lemma {:induction false} WalkEntryDefaults(t: Tables, entry: (string, JsonNode), path: Segments)
    ensures WalkEntry(t, entry, path).defaults == t.defaults + DefaultsOfEntry(entry, path)
    decreases entry, 0
  {
    WalkDefaults(t, entry.1, path + [entry.0]);
  }

  // ---- They are the declared leaves, and all of them ----

  /** The entry writes what the schema declares at its path. */
  predicate Declared(root: JsonNode, d: DefaultEntry) {
    && d.segments != []
    && NodeAt(root, d.segments).Some?
    && DefaultOf(NodeAt(root, d.segments).value) == Some(d.value)
  }

  predicate AllDeclared(root: JsonNode, ds: seq<DefaultEntry>) {
    forall i :: 0 <= i < |ds| ==> Declared(root, ds[i])
  }

  lemma {:induction false} DefaultsDeclared(root: JsonNode, node: JsonNode, path: Segments)
    requires DistinctKeys(node) && NodeAt(root, path) == Some(node)
    requires path == [] ==> node.Object?
    ensures AllDeclared(root, DefaultsOf(node, path))
    decreases node, 1
  {
    if node.Object? {
      EntriesDeclared(root, node, |node.entries|, path);
      assert node.entries[..|node.entries|] == node.entries;
    }
  }

  lemma {:induction false} EntriesDeclared(root: JsonNode, node: JsonNode, n: nat, path: Segments)
    requires node.Object? && DistinctKeys(node) && NodeAt(root, path) == Some(node) && n <= |node.entries|
    ensures AllDeclared(root, DefaultsOfEntries(node.entries[..n], path))
    decreases node, 0, n
  {
    if n > 0 {
      hide DefaultOf, DefaultsOf;
      EntriesDeclared(root, node, n - 1, path);
      assert node.entries[..n][..n - 1] == node.entries[..n - 1];
      ChildAtPath(root, node, n - 1, path);
      DefaultsDeclared(root, node.entries[n - 1].1, path + [node.entries[n - 1].0]);
    }
  }

  lemma ChildAtPath(root: JsonNode, node: JsonNode, i: nat, path: Segments)
    requires node.Object? && DistinctKeys(node) && NodeAt(root, path) == Some(node) && i < |node.entries|
    ensures NodeAt(root, path + [node.entries[i].0]) == Some(node.entries[i].1)
    ensures DistinctKeys(node.entries[i].1)
  {
    FindEntry(node, i);
    NodeAtConcat(root, path, [node.entries[i].0]);
    assert NodeAt(node.entries[i].1, [node.entries[i].0][1..]) == Some(node.entries[i].1);
  }

  /** Every declared leaf below a node is among its default writes. */
  lemma {:induction false} DefaultsComplete(node: JsonNode, path: Segments, q: Segments)
    requires NodeAt(node, q).Some? && DefaultOf(NodeAt(node, q).value).Some?
    ensures DefaultEntry(path + q, DefaultOf(NodeAt(node, q).value).value) in DefaultsOf(node, path)
    decreases |q|
  {
    var d := DefaultEntry(path + q, DefaultOf(NodeAt(node, q).value).value);
    if q == [] {
      assert path + q == path;
      assert DefaultsOf(node, path) == [d];
    } else {
      var child := Find(node.entries, q[0]).value;
      var i :| 0 <= i < |node.entries| && node.entries[i] == (q[0], child);
      DefaultsComplete(child, path + [q[0]], q[1..]);
      assert path + [q[0]] + q[1..] == path + q;
      EntryDefaultsIn(node.entries, path, i, d);
    }
  }

  lemma {:induction false} EntryDefaultsIn(
      entries: seq<(string, JsonNode)>, path: Segments, i: nat, d: DefaultEntry)
    requires i < |entries| && d in DefaultsOf(entries[i].1, path + [entries[i].0])
    ensures d in DefaultsOfEntries(entries, path)
    decreases |entries|
  {
    hide DefaultsOf;
    var n := |entries| - 1;
    assert d in DefaultsOfEntry(entries[i], path);
    if i < n {
      EntryDefaultsIn(entries[..n], path, i, d);
    }
  }

  // ---- The later passes walk some subtrees again, and write nothing new ----

  /** The defaults only grow, and only by declared entries. */
  predicate Appends(root: JsonNode, t: Tables, t': Tables) {
    && t.defaults <= t'.defaults
    && (AllDeclared(root, t.defaults) ==> AllDeclared(root, t'.defaults))
  }

  lemma AppendsTrans(root: JsonNode, t: Tables, t': Tables, t'': Tables)
    requires Appends(root, t, t') && Appends(root, t', t'')
    ensures Appends(root, t, t'')
  {
  }

  lemma AppendsList(root: JsonNode, t: Tables, t': Tables, ds: seq<DefaultEntry>)
    requires t'.defaults == t.defaults + ds && AllDeclared(root, ds)
    ensures Appends(root, t, t')
  {
    hide Declared;
  }

  /** A top-level entry of the schema. */
  predicate TopLevel(root: JsonNode, name: string, node: JsonNode) {
    root.Object? && DistinctKeys(root) && DistinctKeys(node) && NodeAt(root, [name]) == Some(node)
  }

  lemma FindTopLevel(root: JsonNode, name: string)
    requires root.Object? && DistinctKeys(root) && Find(root.entries, name).Some?
    ensures TopLevel(root, name, Find(root.entries, name).value)
  {
    var node := Find(root.entries, name).value;
    var i :| 0 <= i < |root.entries| && root.entries[i] == (name, node);
    assert NodeAt(node, [name][1..]) == Some(node);
  }

  lemma WalkEntryAppends(root: JsonNode, name: string, node: JsonNode, t: Tables, i: nat)
    requires TopLevel(root, name, node) && node.Object? && i < |node.entries|
    ensures Appends(root, t, WalkEntry(t, node.entries[i], [name]))
  {
    hide WalkEntry, DistinctKeys, DefaultsOf, Declared;
    ChildAtPath(root, node, i, [name]);
    DefaultsDeclared(root, node.entries[i].1, [name] + [node.entries[i].0]);
    WalkEntryDefaults(t, node.entries[i], [name]);
    AppendsList(root, t, WalkEntry(t, node.entries[i], [name]), DefaultsOfEntry(node.entries[i], [name]));
  }

  lemma WalkEntriesAppends(root: JsonNode, name: string, node: JsonNode, t: Tables)
    requires TopLevel(root, name, node) && node.Object?
    ensures Appends(root, t, WalkEntries(t, node.entries, [name]))
  {
    hide WalkEntries, DefaultsOfEntries, Declared;
    EntriesDeclared(root, node, |node.entries|, [name]);
    assert node.entries[..|node.entries|] == node.entries;
    WalkEntriesDefaults(t, node.entries, [name]);
    AppendsList(root, t, WalkEntries(t, node.entries, [name]), DefaultsOfEntries(node.entries, [name]));
  }

  lemma {:induction false} AroundLeafAppends(
      b: Builtins, root: JsonNode, node: JsonNode, t: Tables, n: nat)
    requires TopLevel(root, b.duration, node) && node.Object? && n <= |node.entries|
    ensures Appends(root, t, WalkAroundLeaf(b, t, node.entries[..n]))
  {
    hide TopLevel, WalkEntry, AllDeclared;
    if n > 0 {
      var t1 := WalkAroundLeaf(b, t, node.entries[..n - 1]);
      AroundLeafAppends(b, root, node, t, n - 1);
      assert node.entries[..n][..n - 1] == node.entries[..n - 1];
      WalkEntryAppends(root, b.duration, node, t1, n - 1);
      AddsKeepMarks(t1, b.totalMs, [b.duration, b.totalMs]);
    }
  }

  lemma ResolveDurationAppends(b: Builtins, root: JsonNode, node: JsonNode, t: Tables)
    requires TopLevel(root, b.duration, node) && ResolveDuration(b, t, node).Ok?
    ensures Appends(root, t, ResolveDuration(b, t, node).value)
  {
    hide TopLevel, WalkEntries, WalkAroundLeaf, AllDeclared, AddDurationSubtree;
    AddsKeepMarks(t, b.duration, [b.duration]);
    var t1 := AddPath(AddKey(t, b.duration), [b.duration]);
    AddDurationKeeps(b, t, b.totalMs);
    AddDurationKeeps(b, t1, b.totalMs);
    if node.Object? && node.entries != [] {
      WalkEntriesAppends(root, b.duration, node, t1);
      AroundLeafAppends(b, root, node, t1, |node.entries|);
      assert node.entries[..|node.entries|] == node.entries;
      AddDurationKeeps(b, t1, node.entries[0].0);
      if |node.entries| == 1 {
        NoOthers(AddDurationSubtree(b, t1, node.entries[0].0), node.entries, [b.duration]);
      }
    }
  }

  lemma NoOthers(t: Tables, entries: seq<(string, JsonNode)>, path: Segments)
    requires |entries| == 1
    ensures WalkEntries(t, Others(entries, entries[0].0), path) == t
  {
    assert Others(entries, entries[0].0) == [];
  }

  lemma AddDurationKeeps(b: Builtins, t: Tables, leaf: string)
    ensures AddDurationSubtree(b, t, leaf).defaults == t.defaults
  {
  }

  lemma EventLeafAppends(b: Builtins, root: JsonNode, node: JsonNode, t: Tables, name: string)
    requires TopLevel(root, b.event, node) && node.Object?
    ensures Appends(root, t, EventLeaf(b, t, node.entries, name))
  {
    hide AddKey, AddPath, Walk, Declared, DefaultsOf;
    match Find(node.entries, name) {
      case None => AddsKeepMarks(t, name, [b.event, name]);
      case Some(leaf) =>
        var i :| 0 <= i < |node.entries| && node.entries[i] == (name, leaf);
        ChildAtPath(root, node, i, [b.event]);
        assert [b.event] + [name] == [b.event, name];
        DefaultsDeclared(root, leaf, [b.event, name]);
        WalkDefaults(t, leaf, [b.event, name]);
        AppendsList(root, t, Walk(t, leaf, [b.event, name]), DefaultsOf(leaf, [b.event, name]));
    }
  }

  lemma {:induction false} AroundEventAppends(
      b: Builtins, root: JsonNode, node: JsonNode, t: Tables, n: nat)
    requires TopLevel(root, b.event, node) && node.Object? && n <= |node.entries|
    ensures Appends(root, t, WalkAroundEvent(b, t, node.entries[..n]))
  {
    hide TopLevel, WalkEntry, AllDeclared;
    if n > 0 {
      AroundEventAppends(b, root, node, t, n - 1);
      assert node.entries[..n][..n - 1] == node.entries[..n - 1];
      WalkEntryAppends(root, b.event, node, WalkAroundEvent(b, t, node.entries[..n - 1]), n - 1);
    }
  }

  lemma ResolveEventAppends(b: Builtins, root: JsonNode, node: JsonNode, t: Tables)
    requires TopLevel(root, b.event, node) && ResolveEvent(b, t, node).Ok?
    ensures Appends(root, t, ResolveEvent(b, t, node).value)
  {
    hide TopLevel, EventLeaf, WalkAroundEvent, AllDeclared, AddEventSubtree, AddKey, AddPath;
    AddsKeepMarks(t, b.event, [b.event]);
    var t0 := AddPath(AddKey(t, b.event), [b.event]);
    AddEventEnds(b, t0);
    if node.entries != [] {
      var t1 := EventLeaf(b, t0, node.entries, b.timestamp).(timestampSegments := [b.event, b.timestamp]);
      EventLeafAppends(b, root, node, t0, b.timestamp);
      var t2 := EventLeaf(b, t1, node.entries, b.id).(idSegments := [b.event, b.id]);
      EventLeafAppends(b, root, node, t1, b.id);
      AroundEventAppends(b, root, node, t2, |node.entries|);
      assert node.entries[..|node.entries|] == node.entries;
      AppendsTrans(root, t0, t1, t2);
      AppendsTrans(root, t0, t2, ResolveEvent(b, t, node).value);
    }
  }

  /** The compiled default list holds exactly the declared leaves. */
  ghost predicate Exactly(root: JsonNode, ds: seq<DefaultEntry>) {
    && AllDeclared(root, ds)
    && forall q: Segments :: q != [] && NodeAt(root, q).Some? && DefaultOf(NodeAt(root, q).value).Some? ==>
         DefaultEntry(q, DefaultOf(NodeAt(root, q).value).value) in ds
  }

  lemma ExactlyGrows(root: JsonNode, t: Tables, t': Tables)
    requires Exactly(root, t.defaults) && Appends(root, t, t')
    ensures Exactly(root, t'.defaults)
  {
    hide NodeAt, DefaultOf, Declared;
    forall d | d in t.defaults
      ensures d in t'.defaults
    {
      var i :| 0 <= i < |t.defaults| && t.defaults[i] == d;
      assert t'.defaults[i] == d;
    }
  }

  lemma WalkExactly(root: JsonNode)
    requires root.Object? && DistinctKeys(root)
    ensures Exactly(root, Walk(NO_TABLES, root, []).defaults)
  {
    hide Walk, DefaultsOf, DistinctKeys, Declared;
    WalkDefaults(NO_TABLES, root, []);
    assert [] + DefaultsOf(root, []) == DefaultsOf(root, []);
    DefaultsDeclared(root, root, []);
    forall q: Segments | q != [] && NodeAt(root, q).Some? && DefaultOf(NodeAt(root, q).value).Some?
      ensures DefaultEntry(q, DefaultOf(NodeAt(root, q).value).value) in DefaultsOf(root, [])
    {
      DefaultsComplete(root, [], q);
      assert [] + q == q;
    }
  }

  lemma PassesExactly(b: Builtins, root: JsonNode)
    requires root.Object? && DistinctKeys(root)
    ensures var r1 := AutoAddDuration(b, Walk(NO_TABLES, root, []), root);
            r1.Ok? ==>
              var r2 := AutoAddEvent(b, r1.value, root);
              r2.Ok? ==> Exactly(root, r2.value.defaults)
  {
    hide Walk, ResolveDuration, ResolveEvent, Appends, Exactly, AddDurationSubtree, AddEventSubtree, DistinctKeys;
    var t0 := Walk(NO_TABLES, root, []);
    WalkExactly(root);
    if AutoAddDuration(b, t0, root).Ok? {
      var t1 := AutoAddDuration(b, t0, root).value;
      match Find(root.entries, b.duration) {
        case None => KeepingAppends(root, b, t0);
        case Some(node) =>
          FindTopLevel(root, b.duration);
          ResolveDurationAppends(b, root, node, t0);
      }
      ExactlyGrows(root, t0, t1);
      if AutoAddEvent(b, t1, root).Ok? {
        match Find(root.entries, b.event) {
          case None => KeepingAppends(root, b, t1);
          case Some(node) =>
            FindTopLevel(root, b.event);
            ResolveEventAppends(b, root, node, t1);
        }
        ExactlyGrows(root, t1, AutoAddEvent(b, t1, root).value);
      }
    }
  }

  lemma KeepingAppends(root: JsonNode, b: Builtins, t: Tables)
    ensures Appends(root, t, AddDurationSubtree(b, t, b.totalMs))
    ensures Appends(root, t, AddEventSubtree(b, t))
  {
    hide AddDurationSubtree, AddEventSubtree, Declared;
    AddDurationKeeps(b, t, b.totalMs);
    AddEventEnds(b, t);
  }

  // ---- Which schemas are accepted ----

  /** The duration object leaves open which of its leaves is the duration. */
  predicate AmbiguousDuration(b: Builtins, root: JsonNode)
    requires root.Object?
  {
    match Find(root.entries, b.duration)
    case Some(Object(entries)) =>
      |entries| > 1 && !HasDurationMarker(root) && Find(entries, b.totalMs).None?
    case _ => false
  }

  /** The schema gives the event id a default of its own. */
  predicate IdDefault(b: Builtins, root: JsonNode) {
    var node := NodeAt(root, [b.event, b.id]);
    node.Some? && HasValue(node.value)
  }

  lemma MarkerIsInRoot(root: JsonNode, name: string)
    requires root.Object? && Find(root.entries, name).Some?
    ensures var node := Find(root.entries, name).value;
            node.Object? && HasMarkerLeaf(node.entries) ==> HasDurationMarker(root)
  {
    var node := Find(root.entries, name).value;
    var i :| 0 <= i < |root.entries| && root.entries[i] == (name, node);
    if node.Object? && HasMarkerLeaf(node.entries) {
      MarkerLeafIsMarker(node.entries);
      assert HasDurationMarker(root.entries[i].1);
    }
  }

  lemma DurationAccepted(b: Builtins, root: JsonNode)
    requires root.Object?
    ensures var r := AutoAddDuration(b, Walk(NO_TABLES, root, []), root);
            if AmbiguousDuration(b, root) then r == Err(MultipleLeaves) else r.Ok?
  {
    hide Walk, WalkEntries, WalkAroundLeaf, AddDurationSubtree, AddKey, AddPath, HasDurationMarker;
    WalkMarks(NO_TABLES, root, []);
    if Find(root.entries, b.duration).Some? {
      MarkerIsInRoot(root, b.duration);
    }
  }

  /** Acceptance, decided on the schema alone; the internal errors cannot happen. */
  lemma CompileAccepts(b: Builtins, root: JsonNode)
    requires root.Object? && DistinctKeys(root)
    ensures Compile(b, root).Ok? <==>
            !AmbiguousDuration(b, root) && !BadEvent(b, root) && !IdDefault(b, root)
    ensures Compile(b, root).Err? ==>
              Compile(b, root).error == (
                if AmbiguousDuration(b, root) then MultipleLeaves
                else if BadEvent(b, root) then EventNotObject
                else IdHasDefault)
  {
    hide Walk, AutoAddDuration, AutoAddEvent, SchemaTables.WellFormed, DistinctKeys, Exactly;
    DurationAccepted(b, root);
    PassesExtend(b, root);
    PassesExactly(b, root);
    if !AmbiguousDuration(b, root) {
      var t1 := AutoAddDuration(b, Walk(NO_TABLES, root, []), root).value;
      if BadEvent(b, root) {
        EventError(b, t1, root);
      } else {
        var t2 := AutoAddEvent(b, t1, root).value;
        IdDefaultFound(b, root, t2);
      }
    }
  }

  /** A schema without the event key is refused only for its duration object. */
  lemma NoEventAccepted(b: Builtins, root: JsonNode)
    requires root.Object? && DistinctKeys(root) && Find(root.entries, b.event).None?
    requires !AmbiguousDuration(b, root)
    ensures Compile(b, root).Ok?
  {
    hide Compile, DistinctKeys, AmbiguousDuration;
    assert NodeAt(root, [b.event, b.id]) == None;
    CompileAccepts(b, root);
  }

  lemma OnlyEntry(name: string, node: JsonNode, other: string)
    ensures Find([(name, node)], other) == if name == other then Some(node) else None
  {
  }

  lemma EventError(b: Builtins, t: Tables, root: JsonNode)
    requires root.Object? && BadEvent(b, root)
    ensures AutoAddEvent(b, t, root) == Err(EventNotObject)
  {
  }

  lemma IdDefaultFound(b: Builtins, root: JsonNode, t: Tables)
    requires Exactly(root, t.defaults) && t.idSegments == [b.event, b.id]
    ensures HasDefaultAt(t, t.idSegments) <==> IdDefault(b, root)
  {
    hide NodeAt, DefaultOf;
    if HasDefaultAt(t, t.idSegments) {
      var i :| 0 <= i < |t.defaults| && t.defaults[i].segments == t.idSegments;
      assert Declared(root, t.defaults[i]);
      DefaultIsDeclared(NodeAt(root, t.idSegments).value);
    }
    if IdDefault(b, root) {
      var q := [b.event, b.id];
      DefaultIsDeclared(NodeAt(root, q).value);
      assert DefaultEntry(q, DefaultOf(NodeAt(root, q).value).value) in t.defaults;
    }
  }

  // ---- Replaying the defaults ----

  /**
   A segment is generated as an enum variant, named by `variant`; its number is the place of the
   first key with that variant. Rust accepts the enum only if no two keys share a variant.
   */
  function EnumIndex(keys: seq<string>, variant: string -> string, name: string): nat {
    if keys == [] || variant(keys[0]) == variant(name) then 0
    else 1 + EnumIndex(keys[1..], variant, name)
  }

  ghost predicate DistinctVariants(keys: seq<string>, variant: string -> string) {
    forall i, j :: 0 <= i < j < |keys| ==> variant(keys[i]) != variant(keys[j])
  }

  lemma {:induction false} EnumIndexIsPlace(keys: seq<string>, variant: string -> string, i: nat)
    requires i < |keys| && DistinctVariants(keys, variant)
    ensures EnumIndex(keys, variant, keys[i]) == i
  {
    if i > 0 {
      EnumIndexIsPlace(keys[1..], variant, i - 1);
    }
  }

  function EnumPath(t: Tables, variant: string -> string, p: Segments): Path {
    seq(|p|, i requires 0 <= i < |p| => EnumIndex(t.keys, variant, p[i]))
  }

  lemma EnumIndexIsKeyIndex(t: Tables, variant: string -> string, name: string)
    requires KeyTable(t) && DistinctVariants(t.keys, variant) && name in t.keyIndex
    ensures EnumIndex(t.keys, variant, name) == t.keyIndex[name]
    ensures t.keyIndex[name] < |t.keys| && t.keys[t.keyIndex[name]] == name
  {
    EnumIndexIsPlace(t.keys, variant, t.keyIndex[name]);
  }

  lemma EnumPathInKeys(t: Tables, variant: string -> string, p: Segments)
    requires KeyTable(t) && DistinctVariants(t.keys, variant) && Keyed(t, p)
    ensures var path := EnumPath(t, variant, p);
            InKeys(path, |t.keys|) && forall i :: 0 <= i < |p| ==> t.keys[path[i]] == p[i]
  {
    forall i | 0 <= i < |p|
      ensures EnumPath(t, variant, p)[i] < |t.keys| && t.keys[EnumPath(t, variant, p)[i]] == p[i]
    {
      EnumIndexIsKeyIndex(t, variant, p[i]);
    }
  }

  lemma EnumPathPrefix(t: Tables, variant: string -> string, p: Segments, q: Segments)
    requires KeyTable(t) && DistinctVariants(t.keys, variant) && Keyed(t, p) && Keyed(t, q)
    ensures EnumPath(t, variant, p) <= EnumPath(t, variant, q) <==> p <= q
  {
    EnumPathInKeys(t, variant, p);
    EnumPathInKeys(t, variant, q);
    var a, b := EnumPath(t, variant, p), EnumPath(t, variant, q);
    if a <= b {
      forall i | 0 <= i < |p|
        ensures p[i] == q[i]
      {
        assert a[i] == b[i];
      }
    }
  }

  /** The generated `event.add_path(...)` statements, run on a new event. */
  function Replay(t: Tables, variant: string -> string, ds: seq<DefaultEntry>): Event
    requires forall i :: 0 <= i < |ds| ==> ds[i].segments != []
  {
    if ds == [] then EMPTY else
    var last := ds[|ds| - 1];
    Write(Replay(t, variant, ds[..|ds| - 1]), EnumPath(t, variant, last.segments), Set(last.value))
  }

  /** What can be read at a path. */
  datatype Kind = Absent | Leaf(v: Value) | Node

  function KindOf(v: Option<Value>): Kind {
    match v
    case None => Absent
    case Some(Object(_)) => Node
    case Some(leaf) => Leaf(leaf)
  }

  /** The declared tree without null and marker leaves and without the objects this empties. */
  function DeclaredKind(root: JsonNode, q: Segments): Kind {
    match NodeAt(root, q)
    case Some(Bool(b)) => Leaf(Value.Bool(b))
    case Some(Num(Int(i))) => Leaf(I64(i))
    case Some(Num(Uint(u))) => Leaf(U64(u))
    case Some(Num(Float(f))) => Leaf(F64(f))
    case Some(Str(s)) => Leaf(Value.Str(s))
    case Some(node) => if HasDefault(node) then Node else Absent
    case None => Absent
  }

  ghost predicate HasExact(ds: seq<DefaultEntry>, q: Segments) {
    exists i :: 0 <= i < |ds| && ds[i].segments == q
  }

  ghost predicate HasBelow(ds: seq<DefaultEntry>, q: Segments) {
    exists i :: 0 <= i < |ds| && q < ds[i].segments
  }

  /** What the default writes so far have made of a path. */
  ghost function SoFar(root: JsonNode, ds: seq<DefaultEntry>, q: Segments): Kind
    requires AllDeclared(root, ds)
  {
    if HasExact(ds, q) then
      var i :| 0 <= i < |ds| && ds[i].segments == q;
      assert Declared(root, ds[i]);
      Leaf(DefaultOf(NodeAt(root, q).value).value)
    else if HasBelow(ds, q) then Node
    else Absent
  }

  /** Nothing is declared below a leaf. */
  lemma LeafEnds(root: JsonNode, p: Segments, q: Segments)
    requires NodeAt(root, p).Some? && DefaultOf(NodeAt(root, p).value).Some? && p < q
    ensures NodeAt(root, q) == None
  {
    assert q == p + q[|p|..];
    NodeAtConcat(root, p, q[|p|..]);
  }

  lemma DefaultIsNoObject(node: JsonNode)
    ensures DefaultOf(node).Some? ==> !DefaultOf(node).value.Object?
  {
  }

  lemma SoFarStep(root: JsonNode, ds: seq<DefaultEntry>, d: DefaultEntry, q: Segments)
    requires AllDeclared(root, ds) && Declared(root, d)
    ensures AllDeclared(root, ds + [d])
    ensures SoFar(root, ds + [d], q) ==
            if d.segments == q then Leaf(d.value)
            else if q < d.segments then Node
            else if d.segments < q then Absent
            else SoFar(root, ds, q)
  {
    hide NodeAt, DefaultOf;
    var more := ds + [d];
    assert more[|ds|] == d && forall i :: 0 <= i < |ds| ==> more[i] == ds[i];
    assert HasExact(more, q) <==> HasExact(ds, q) || d.segments == q;
    assert HasBelow(more, q) <==> HasBelow(ds, q) || q < d.segments;
    if q < d.segments {
      if HasExact(ds, q) {
        var i :| 0 <= i < |ds| && ds[i].segments == q;
        assert Declared(root, ds[i]);
        LeafEnds(root, q, d.segments);
      }
    } else if d.segments < q {
      if HasExact(ds, q) {
        var i :| 0 <= i < |ds| && ds[i].segments == q;
        assert Declared(root, ds[i]);
        LeafEnds(root, d.segments, q);
      }
      if HasBelow(ds, q) {
        var i :| 0 <= i < |ds| && q < ds[i].segments;
        assert Declared(root, ds[i]) && d.segments < ds[i].segments;
        LeafEnds(root, d.segments, ds[i].segments);
      }
    }
  }

  predicate AllKeyed(t: Tables, ds: seq<DefaultEntry>) {
    forall i :: 0 <= i < |ds| ==> Keyed(t, ds[i].segments)
  }

  /** One default write changes the kind of a path just as the list of writes says. */
  lemma WriteKind(t: Tables, variant: string -> string, ev: Event, d: DefaultEntry, q: Segments)
    requires KeyTable(t) && DistinctVariants(t.keys, variant) && Keyed(t, d.segments) && Keyed(t, q)
    requires !d.value.Object?
    ensures var p := EnumPath(t, variant, d.segments);
            var at := EnumPath(t, variant, q);
            KindOf(Get(Write(ev, p, Set(d.value)), at)) ==
            if d.segments == q then Leaf(d.value)
            else if q < d.segments then Node
            else if d.segments < q then Absent
            else KindOf(Get(ev, at))
  {
    hide Write, Get, EnumIndex;
    var p, at := EnumPath(t, variant, d.segments), EnumPath(t, variant, q);
    EnumPathPrefix(t, variant, d.segments, q);
    EnumPathPrefix(t, variant, q, d.segments);
    if p == at {
      ReadBack(ev, p, Set(d.value));
    } else if at <= p {
      ReadAbove(ev, p, Set(d.value), at);
    } else if p <= at {
      ReadBelow(ev, p, Set(d.value), at);
    } else {
      ReadElsewhere(ev, p, Set(d.value), at);
    }
  }

  lemma {:induction false} ReplayKind(
      t: Tables, variant: string -> string, root: JsonNode, ds: seq<DefaultEntry>, q: Segments)
    requires KeyTable(t) && DistinctVariants(t.keys, variant) && Keyed(t, q)
    requires AllDeclared(root, ds) && AllKeyed(t, ds)
    ensures KindOf(Get(Replay(t, variant, ds), EnumPath(t, variant, q))) == SoFar(root, ds, q)
  {
    hide EnumIndex, NodeAt, DefaultOf, DistinctVariants, KeyTable;
    if ds == [] {
      EmptyReads(EnumPath(t, variant, q));
    } else {
      var front, d := ds[..|ds| - 1], ds[|ds| - 1];
      assert Declared(root, d) && front + [d] == ds && Keyed(t, d.segments);
      DefaultIsNoObject(NodeAt(root, d.segments).value);
      ReplayKind(t, variant, root, front, q);
      WriteKind(t, variant, Replay(t, variant, front), d, q);
      SoFarStep(root, front, d, q);
    }
  }

  // ---- The list against the declared tree ----

  /** A node with defaults has a declared leaf, at or below it. */
  lemma {:induction false} DefaultWitness(node: JsonNode) returns (q: Segments)
    requires DistinctKeys(node) && HasDefault(node)
    ensures NodeAt(node, q).Some? && DefaultOf(NodeAt(node, q).value).Some?
    ensures q == [] <==> !node.Object?
  {
    if node.Object? {
      var i :| 0 <= i < |node.entries| && HasDefault(node.entries[i].1);
      var rest := DefaultWitness(node.entries[i].1);
      q := [node.entries[i].0] + rest;
      FindEntry(node, i);
      assert q[1..] == rest;
    } else {
      q := [];
    }
  }

  lemma {:induction false} LeafHasDefault(node: JsonNode, q: Segments)
    requires NodeAt(node, q).Some? && DefaultOf(NodeAt(node, q).value).Some?
    ensures HasDefault(node)
    decreases |q|
  {
    if q != [] {
      var child := Find(node.entries, q[0]).value;
      LeafHasDefault(child, q[1..]);
      var i :| 0 <= i < |node.entries| && node.entries[i] == (q[0], child);
      assert HasDefault(node.entries[i].1);
    }
  }

  lemma {:induction false} DistinctBelow(root: JsonNode, q: Segments)
    requires DistinctKeys(root) && NodeAt(root, q).Some?
    ensures DistinctKeys(NodeAt(root, q).value)
    decreases |q|
  {
    if q != [] {
      var child := Find(root.entries, q[0]).value;
      var i :| 0 <= i < |root.entries| && root.entries[i] == (q[0], child);
      DistinctBelow(child, q[1..]);
    }
  }

  lemma BelowIsNode(root: JsonNode, ds: seq<DefaultEntry>, q: Segments)
    requires DistinctKeys(root) && Exactly(root, ds) && q != []
    ensures HasBelow(ds, q) <==>
            NodeAt(root, q).Some? && NodeAt(root, q).value.Object? && HasDefault(NodeAt(root, q).value)
  {
    hide DefaultOf, HasDefault, DistinctKeys;
    if HasBelow(ds, q) {
      var i :| 0 <= i < |ds| && q < ds[i].segments;
      var rest := ds[i].segments[|q|..];
      assert Declared(root, ds[i]) && q + rest == ds[i].segments;
      NodeAtConcat(root, q, rest);
      LeafHasDefault(NodeAt(root, q).value, rest);
      assert rest != [];
    }
    if NodeAt(root, q).Some? && NodeAt(root, q).value.Object? && HasDefault(NodeAt(root, q).value) {
      DistinctBelow(root, q);
      var rest := DefaultWitness(NodeAt(root, q).value);
      NodeAtConcat(root, q, rest);
      var d := DefaultEntry(q + rest, DefaultOf(NodeAt(root, q + rest).value).value);
      assert d in ds;
      var i :| 0 <= i < |ds| && ds[i] == d;
      assert q < ds[i].segments;
    }
  }

  lemma SoFarIsDeclared(root: JsonNode, ds: seq<DefaultEntry>, q: Segments)
    requires DistinctKeys(root) && Exactly(root, ds) && q != []
    ensures SoFar(root, ds, q) == DeclaredKind(root, q)
  {
    hide DistinctKeys, NodeAt;
    BelowIsNode(root, ds, q);
    if HasExact(ds, q) {
      var i :| 0 <= i < |ds| && ds[i].segments == q;
      assert Declared(root, ds[i]);
    }
    if NodeAt(root, q).Some? && DefaultOf(NodeAt(root, q).value).Some? {
      var d := DefaultEntry(q, DefaultOf(NodeAt(root, q).value).value);
      assert d in ds;
      var i :| 0 <= i < |ds| && ds[i] == d;
      assert HasExact(ds, q);
    }
  }

  /** Replaying a list of exactly the declared leaves rebuilds the declared tree. */
  lemma ReplayIsDeclared(t: Tables, variant: string -> string, root: JsonNode, ds: seq<DefaultEntry>, q: Segments)
    requires KeyTable(t) && DistinctVariants(t.keys, variant) && Keyed(t, q)
    requires DistinctKeys(root) && Exactly(root, ds) && AllKeyed(t, ds)
    ensures KindOf(Get(Replay(t, variant, ds), EnumPath(t, variant, q))) == DeclaredKind(root, q)
  {
    hide DistinctKeys, NodeAt, Get, EnumPath, Replay, DeclaredKind, DistinctVariants, KeyTable;
    ExactlyDeclared(root, ds);
    ReplayKind(t, variant, root, ds, q);
    SoFarIsDeclared(root, ds, q);
  }

  /**
   Schema compilation preserves meaning: for every accepted schema, every path of its keys reads from
   a new event, after the default writes, exactly as it is declared.
   */
  lemma DefaultsRebuildSchema(b: Builtins, root: JsonNode, variant: string -> string, q: Segments)
    requires root.Object? && DistinctKeys(root)
    requires Compile(b, root).Ok? && DistinctVariants(Compile(b, root).value.keys, variant)
    requires Keyed(Compile(b, root).value, q)
    ensures var t := Compile(b, root).value;
            && (forall i :: 0 <= i < |t.defaults| ==> t.defaults[i].segments != [])
            && KindOf(Get(Replay(t, variant, t.defaults), EnumPath(t, variant, q))) == DeclaredKind(root, q)
  {
    hide Walk, AutoAddDuration, AutoAddEvent, DistinctKeys, NodeAt, Exactly;
    var t := Compile(b, root).value;
    PassesExtend(b, root);
    PassesExactly(b, root);
    DefaultsKeyed(b, root);
    ReplayIsDeclared(t, variant, root, t.defaults, q);
  }

  lemma ExactlyDeclared(root: JsonNode, ds: seq<DefaultEntry>)
    requires Exactly(root, ds)
    ensures AllDeclared(root, ds)
  {
  }

  lemma DefaultsKeyed(b: Builtins, root: JsonNode)
    requires root.Object? && Compile(b, root).Ok?
    ensures AllKeyed(Compile(b, root).value, Compile(b, root).value.defaults)
  {
    hide Compile, Keyed, KeyTable, Join, Resolve;
    CompiledTables(b, root);
  }
}
