/**
 The schema compiler. The functions say what each pass adds to the tables; `GenContext` does it by
 updating its fields, pass by pass, as the source does.
 */
module SchemaCompiler {
  import opened Wrappers
  import opened Schemas
  import WideEvents

  datatype DefaultEntry = DefaultEntry(segments: Segments, value: WideEvents.Value)

  /** The tables: keys and paths in order of first use, their indices, and the default writes. */
  datatype Tables = Tables(
    keys: seq<string>, keyIndex: map<string, nat>,
    paths: seq<Segments>, pathIndex: map<string, nat>,
    defaults: seq<DefaultEntry>,
    hasDurationMarker: bool, durationSegments: Segments,
    timestampSegments: Segments, idSegments: Segments)

  const NO_TABLES: Tables := Tables([], map[], [], map[], [], false, [], [], [])

  datatype SchemaError =
    | MultipleLeaves
    | EventNotObject
    | IdHasDefault
    | Internal

  function Join(segments: Segments): string {
    if segments == [] then ""
    else if |segments| == 1 then segments[0]
    else segments[0] + "." + Join(segments[1..])
  }

  function AddKey(t: Tables, name: string): Tables {
    if name in t.keyIndex then t
    else t.(keys := t.keys + [name], keyIndex := t.keyIndex[name := |t.keys|])
  }

  function AddPath(t: Tables, segments: Segments): Tables {
    var dotted := Join(segments);
    if dotted in t.pathIndex then t
    else t.(paths := t.paths + [segments], pathIndex := t.pathIndex[dotted := |t.paths|])
  }

  /** The key of the last segment, and the path. */
  function AddNode(t: Tables, path: Segments): Tables
    requires path != []
  {
    AddPath(AddKey(t, path[|path| - 1]), path)
  }

  function Walk(t: Tables, node: JsonNode, path: Segments): Tables
    requires path == [] ==> node.Object?
    decreases node, 1
  {
    match node
    case Object(entries) =>
      WalkEntries(if path == [] then t else AddNode(t, path), entries, path)
    case Mark(DurationMarker) =>
      AddNode(t, path).(hasDurationMarker := true, durationSegments := path)
    case _ =>
      var t' := AddNode(t, path);
      if DefaultOf(node).None? then t'
      else t'.(defaults := t'.defaults + [DefaultEntry(path, DefaultOf(node).value)])
  }

  function WalkEntries(t: Tables, entries: seq<(string, JsonNode)>, path: Segments): Tables
    decreases entries, 0
  {
    if entries == [] then t else
    var n := |entries| - 1;
    WalkEntry(WalkEntries(t, entries[..n], path), entries[n], path)
  }

  function WalkEntry(t: Tables, entry: (string, JsonNode), path: Segments): Tables
    decreases entry, 0
  {
    Walk(t, entry.1, path + [entry.0])
  }

  // ---- Duration ----

  function AddDurationSubtree(b: Builtins, t: Tables, leaf: string): Tables {
    var t1 := AddKey(AddKey(t, b.duration), leaf);
    var t2 := AddPath(AddPath(t1, [b.duration]), [b.duration, leaf]);
    t2.(hasDurationMarker := true, durationSegments := [b.duration, leaf])
  }

  /** The entry that carries the duration, when it is named like the built-in leaf. */
  function DurationLeaf(b: Builtins, t: Tables): Tables {
    var path := [b.duration, b.totalMs];
    AddPath(AddKey(t, b.totalMs), path).(hasDurationMarker := true, durationSegments := path)
  }

  /** Walks the entries of the duration object, with the built-in leaf set apart. */
  function WalkAroundLeaf(b: Builtins, t: Tables, entries: seq<(string, JsonNode)>): Tables {
    if entries == [] then t else
    var n := |entries| - 1;
    var t' := WalkAroundLeaf(b, t, entries[..n]);
    if entries[n].0 == b.totalMs then DurationLeaf(b, t') else WalkEntry(t', entries[n], [b.duration])
  }

  /** The entries whose key is, or is not, the given one. */
  function Others(entries: seq<(string, JsonNode)>, name: string): (r: seq<(string, JsonNode)>)
    ensures forall i :: 0 <= i < |r| ==> r[i] in entries
  {
    if entries == [] then [] else
    var n := |entries| - 1;
    Others(entries[..n], name) + if entries[n].0 != name then [entries[n]] else []
  }

  predicate HasMarkerLeaf(entries: seq<(string, JsonNode)>) {
    exists i :: 0 <= i < |entries| && entries[i].1 == Mark(DurationMarker)
  }

  function ResolveDuration(b: Builtins, t: Tables, node: JsonNode): Result<Tables, SchemaError> {
    if !node.Object? then Ok(AddDurationSubtree(b, t, b.totalMs)) else
    var t' := AddPath(AddKey(t, b.duration), [b.duration]);
    var entries := node.entries;
    if entries == [] then Ok(AddDurationSubtree(b, t', b.totalMs))
    else if t.hasDurationMarker || HasMarkerLeaf(entries) then Ok(WalkEntries(t', entries, [b.duration]))
    else if Find(entries, b.totalMs).Some? then Ok(WalkAroundLeaf(b, t', entries))
    else if |entries| == 1 then
      var leaf := entries[0].0;
      Ok(WalkEntries(AddDurationSubtree(b, t', leaf), Others(entries, leaf), [b.duration]))
    else Err(MultipleLeaves)
  }

  function AutoAddDuration(b: Builtins, t: Tables, root: JsonNode): Result<Tables, SchemaError>
    requires root.Object?
  {
    match Find(root.entries, b.duration)
    case None => Ok(AddDurationSubtree(b, t, b.totalMs))
    case Some(node) => ResolveDuration(b, t, node)
  }

  // ---- Event ----

  function AddEventSubtree(b: Builtins, t: Tables): Tables {
    var t1 := AddKey(AddKey(AddKey(t, b.event), b.timestamp), b.id);
    var t2 := AddPath(AddPath(AddPath(t1, [b.event]), [b.event, b.timestamp]), [b.event, b.id]);
    t2.(timestampSegments := [b.event, b.timestamp], idSegments := [b.event, b.id])
  }

  /** A built-in leaf of the event object: walked when declared, added otherwise. */
  function EventLeaf(b: Builtins, t: Tables, entries: seq<(string, JsonNode)>, name: string): Tables {
    match Find(entries, name)
    case Some(node) => Walk(t, node, [b.event, name])
    case None => AddPath(AddKey(t, name), [b.event, name])
  }

  function WalkAroundEvent(b: Builtins, t: Tables, entries: seq<(string, JsonNode)>): Tables {
    if entries == [] then t else
    var n := |entries| - 1;
    var t' := WalkAroundEvent(b, t, entries[..n]);
    if entries[n].0 == b.timestamp || entries[n].0 == b.id then t'
    else WalkEntry(t', entries[n], [b.event])
  }

  function ResolveEvent(b: Builtins, t: Tables, node: JsonNode): Result<Tables, SchemaError> {
    if !node.Object? then Err(EventNotObject) else
    var t' := AddPath(AddKey(t, b.event), [b.event]);
    if node.entries == [] then Ok(AddEventSubtree(b, t')) else
    var t1 := EventLeaf(b, t', node.entries, b.timestamp).(timestampSegments := [b.event, b.timestamp]);
    var t2 := EventLeaf(b, t1, node.entries, b.id).(idSegments := [b.event, b.id]);
    Ok(WalkAroundEvent(b, t2, node.entries))
  }

  function AutoAddEvent(b: Builtins, t: Tables, root: JsonNode): Result<Tables, SchemaError>
    requires root.Object?
  {
    match Find(root.entries, b.event)
    case None => Ok(AddEventSubtree(b, t))
    case Some(node) => ResolveEvent(b, t, node)
  }

  // ---- The whole ----

  predicate HasDefaultAt(t: Tables, path: Segments) {
    exists i :: 0 <= i < |t.defaults| && t.defaults[i].segments == path
  }

  function Validate(t: Tables): Result<Tables, SchemaError> {
    if !t.hasDurationMarker || t.durationSegments == [] || t.timestampSegments == [] || t.idSegments == []
    then Err(Internal)
    else if HasDefaultAt(t, t.idSegments) then Err(IdHasDefault)
    else Ok(t)
  }

  lemma ValidateKeeps(t: Tables)
    ensures Validate(t).Ok? ==> Validate(t).value == t
  {
  }

  lemma KeyKeepsMarker(t: Tables, name: string)
    ensures AddKey(t, name).hasDurationMarker == t.hasDurationMarker
  {
  }

  lemma PathKeepsMarker(t: Tables, path: Segments)
    ensures AddPath(t, path).hasDurationMarker == t.hasDurationMarker
  {
  }

  function Compile(b: Builtins, root: JsonNode): Result<Tables, SchemaError>
    requires root.Object?
  {
    var t1 :- AutoAddDuration(b, Walk(NO_TABLES, root, []), root);
    var t2 :- AutoAddEvent(b, t1, root);
    Validate(t2)
  }

  /** The generated `__wl_resolve_path`: the segments of a known dotted path, else none. */
  function Resolve(t: Tables, dotted: string): Segments {
    if dotted in t.pathIndex && t.pathIndex[dotted] < |t.paths| then t.paths[t.pathIndex[dotted]] else []
  }
}
