/**
 The schema compiler as it runs: an object whose methods push to its tables and reassign its segment
 fields. Every method does to the fields what the function of the same name says.
 */
module SchemaContext {
  import opened Wrappers
  import opened Schemas
  import S = SchemaCompiler

  class GenContext {
    const b: Builtins
    var keys: seq<string>
    var keyIndex: map<string, nat>
    var paths: seq<Segments>
    var pathIndex: map<string, nat>
    var defaults: seq<S.DefaultEntry>
    var hasDurationMarker: bool
    var durationSegments: Segments
    var timestampSegments: Segments
    var idSegments: Segments

    ghost function Tables(): S.Tables
      reads this
    {
      S.Tables(keys, keyIndex, paths, pathIndex, defaults, hasDurationMarker, durationSegments,
               timestampSegments, idSegments)
    }

    constructor (b: Builtins)
      ensures this.b == b && Tables() == S.NO_TABLES
    {
      this.b := b;
      keys, keyIndex, paths, pathIndex, defaults := [], map[], [], map[], [];
      hasDurationMarker, durationSegments, timestampSegments, idSegments := false, [], [], [];
    }

    method AddKey(name: string) returns (idx: nat)
      modifies this
      ensures Tables() == S.AddKey(old(Tables()), name)
      ensures name in keyIndex && idx == keyIndex[name]
    {
      if name in keyIndex {
        return keyIndex[name];
      }
      idx := |keys|;
      keys := keys + [name];
      keyIndex := keyIndex[name := idx];
    }

    method AddPath(segments: Segments)
      modifies this
      ensures Tables() == S.AddPath(old(Tables()), segments)
    {
      var dotted := S.Join(segments);
      if dotted in pathIndex {
        return;
      }
      var idx := |paths|;
      paths := paths + [segments];
      pathIndex := pathIndex[dotted := idx];
    }

    method AddNode(path: Segments)
      requires path != []
      modifies this
      ensures Tables() == S.AddNode(old(Tables()), path)
    {
      var _ := AddKey(path[|path| - 1]);
      AddPath(path);
    }

    method Walk(node: JsonNode, path: Segments)
      requires path == [] ==> node.Object?
      modifies this
      ensures Tables() == S.Walk(old(Tables()), node, path)
      decreases node, 1
    {
      match node {
        case Object(entries) =>
          if path != [] {
            AddNode(path);
          }
          WalkEntries(entries, path);
        case Null =>
          AddNode(path);
        case Bool(_) =>
          AddNode(path);
          defaults := defaults + [S.DefaultEntry(path, DefaultOf(node).value)];
        case Num(_) =>
          AddNode(path);
          defaults := defaults + [S.DefaultEntry(path, DefaultOf(node).value)];
        case Str(_) =>
          AddNode(path);
          defaults := defaults + [S.DefaultEntry(path, DefaultOf(node).value)];
        case Mark(m) =>
          AddNode(path);
          match m {
            case DurationMarker =>
              hasDurationMarker := true;
              durationSegments := path;
            case CounterMarker =>
          }
      }
    }

    /** The loop over the entries of an object, below `path`. */
    method WalkEntries(entries: seq<(string, JsonNode)>, path: Segments)
      modifies this
      ensures Tables() == S.WalkEntries(old(Tables()), entries, path)
      decreases entries, 0
    {
      hide S.Walk;
      for i := 0 to |entries|
        invariant Tables() == S.WalkEntries(old(Tables()), entries[..i], path)
      {
        assert entries[..i + 1][..i] == entries[..i];
        WalkEntry(entries[i], path);
      }
      assert entries[..|entries|] == entries;
    }

    method WalkEntry(entry: (string, JsonNode), path: Segments)
      modifies this
      ensures Tables() == S.WalkEntry(old(Tables()), entry, path)
      decreases entry, 0
    {
      hide S.Walk;
      var p := path;
      p := p + [entry.0];
      Walk(entry.1, p);
    }

    // ---- Duration ----

    method AddDurationSubtree(leaf: string)
      modifies this
      ensures Tables() == S.AddDurationSubtree(b, old(Tables()), leaf)
    {
      hide S.AddKey, S.AddPath;
      var _ := AddKey(b.duration);
      var _ := AddKey(leaf);
      var durationPath := [b.duration, leaf];
      AddPath([durationPath[0]]);
      AddPath(durationPath);
      hasDurationMarker := true;
      durationSegments := durationPath;
    }

    method WalkAroundLeaf(entries: seq<(string, JsonNode)>)
      modifies this
      ensures Tables() == S.WalkAroundLeaf(b, old(Tables()), entries)
    {
      hide S.Walk, S.AddKey, S.AddPath;
      for i := 0 to |entries|
        invariant Tables() == S.WalkAroundLeaf(b, old(Tables()), entries[..i])
      {
        assert entries[..i + 1][..i] == entries[..i];
        if entries[i].0 == b.totalMs {
          ghost var t := Tables();
          var _ := AddKey(b.totalMs);
          AddPath([b.duration, b.totalMs]);
          hasDurationMarker := true;
          durationSegments := [b.duration, b.totalMs];
          assert Tables() == S.DurationLeaf(b, t);
        } else {
          WalkEntry(entries[i], [b.duration]);
        }
      }
      assert entries[..|entries|] == entries;
    }

    method ResolveDurationSubtree(node: JsonNode) returns (r: Result<(), S.SchemaError>)
      modifies this
      ensures var s := S.ResolveDuration(b, old(Tables()), node);
              if s.Ok? then r.Ok? && Tables() == s.value else r == Err(s.error)
    {
      hide S.WalkEntries, S.WalkAroundLeaf, S.AddKey, S.AddPath, S.AddDurationSubtree;
      if !node.Object? {
        AddDurationSubtree(b.totalMs);
        return Ok(());
      }
      var entries := node.entries;
      var _ := AddKey(b.duration);
      AddPath([b.duration]);
      S.PathKeepsMarker(S.AddKey(old(Tables()), b.duration), [b.duration]);
      S.KeyKeepsMarker(old(Tables()), b.duration);
      if entries == [] {
        AddDurationSubtree(b.totalMs);
        return Ok(());
      }
      if hasDurationMarker {
        WalkEntries(entries, [b.duration]);
        return Ok(());
      }
      if exists i :: 0 <= i < |entries| && entries[i].1 == Mark(DurationMarker) {
        WalkEntries(entries, [b.duration]);
        return Ok(());
      }
      if Find(entries, b.totalMs).Some? {
        WalkAroundLeaf(entries);
        return Ok(());
      }
      if |entries| == 1 {
        var leaf := entries[0].0;
        AddDurationSubtree(leaf);
        WalkEntries(S.Others(entries, leaf), [b.duration]);
        return Ok(());
      }
      return Err(S.MultipleLeaves);
    }

    method AutoAddDuration(root: JsonNode) returns (r: Result<(), S.SchemaError>)
      requires root.Object?
      modifies this
      ensures var s := S.AutoAddDuration(b, old(Tables()), root);
              if s.Ok? then r.Ok? && Tables() == s.value else r == Err(s.error)
    {
      hide S.ResolveDuration, S.AddDurationSubtree;
      match Find(root.entries, b.duration) {
        case None =>
          AddDurationSubtree(b.totalMs);
          r := Ok(());
        case Some(node) =>
          r := ResolveDurationSubtree(node);
      }
    }

    // ---- Event ----

    method AddEventSubtree()
      modifies this
      ensures Tables() == S.AddEventSubtree(b, old(Tables()))
    {
      hide S.AddKey, S.AddPath;
      var _ := AddKey(b.event);
      var _ := AddKey(b.timestamp);
      var _ := AddKey(b.id);
      AddPath([b.event]);
      AddPath([b.event, b.timestamp]);
      AddPath([b.event, b.id]);
      timestampSegments := [b.event, b.timestamp];
      idSegments := [b.event, b.id];
    }

    method EventLeaf(entries: seq<(string, JsonNode)>, name: string)
      modifies this
      ensures Tables() == S.EventLeaf(b, old(Tables()), entries, name)
    {
      hide S.Walk, S.AddKey, S.AddPath;
      match Find(entries, name) {
        case Some(node) =>
          Walk(node, [b.event, name]);
        case None =>
          var _ := AddKey(name);
          AddPath([b.event, name]);
      }
    }

    method WalkAroundEvent(entries: seq<(string, JsonNode)>)
      modifies this
      ensures Tables() == S.WalkAroundEvent(b, old(Tables()), entries)
    {
      hide S.Walk;
      for i := 0 to |entries|
        invariant Tables() == S.WalkAroundEvent(b, old(Tables()), entries[..i])
      {
        assert entries[..i + 1][..i] == entries[..i];
        if entries[i].0 != b.timestamp && entries[i].0 != b.id {
          WalkEntry(entries[i], [b.event]);
        }
      }
      assert entries[..|entries|] == entries;
    }

    method ResolveEventSubtree(node: JsonNode) returns (r: Result<(), S.SchemaError>)
      modifies this
      ensures var s := S.ResolveEvent(b, old(Tables()), node);
              if s.Ok? then r.Ok? && Tables() == s.value else r == Err(s.error)
    {
      hide S.AddKey, S.AddPath, S.EventLeaf, S.WalkAroundEvent, S.AddEventSubtree;
      if !node.Object? {
        return Err(S.EventNotObject);
      }
      var _ := AddKey(b.event);
      AddPath([b.event]);
      if node.entries == [] {
        AddEventSubtree();
        return Ok(());
      }
      EventLeaf(node.entries, b.timestamp);
      timestampSegments := [b.event, b.timestamp];
      EventLeaf(node.entries, b.id);
      idSegments := [b.event, b.id];
      WalkAroundEvent(node.entries);
      return Ok(());
    }

    method AutoAddEvent(root: JsonNode) returns (r: Result<(), S.SchemaError>)
      requires root.Object?
      modifies this
      ensures var s := S.AutoAddEvent(b, old(Tables()), root);
              if s.Ok? then r.Ok? && Tables() == s.value else r == Err(s.error)
    {
      hide S.ResolveEvent, S.AddEventSubtree;
      match Find(root.entries, b.event) {
        case None =>
          AddEventSubtree();
          r := Ok(());
        case Some(node) =>
          r := ResolveEventSubtree(node);
      }
    }

    // ---- The whole ----

    method Validate() returns (r: Result<(), S.SchemaError>)
      ensures var s := S.Validate(Tables()); if s.Ok? then r.Ok? else r == Err(s.error)
    {
      if !hasDurationMarker || durationSegments == [] || timestampSegments == [] || idSegments == [] {
        return Err(S.Internal);
      }
      for i := 0 to |defaults|
        invariant forall j :: 0 <= j < i ==> defaults[j].segments != idSegments
      {
        if defaults[i].segments == idSegments {
          assert Tables().defaults[i].segments == Tables().idSegments;
          return Err(S.IdHasDefault);
        }
      }
      return Ok(());
    }
  }

  /** The passes of the macro over a parsed schema, up to the emission of code. */
  method Generate(b: Builtins, root: JsonNode) returns (r: Result<GenContext, S.SchemaError>)
    requires root.Object?
    ensures match S.Compile(b, root)
            case Ok(tables) => r.Ok? && fresh(r.value) && r.value.Tables() == tables
            case Err(error) => r == Err(error)
  {
    hide S.Walk, S.AutoAddDuration, S.AutoAddEvent, S.Validate;
    var ctx := new GenContext(b);
    ctx.Walk(root, []);
    var d := ctx.AutoAddDuration(root);
    if d.Err? {
      return Err(d.error);
    }
    var e := ctx.AutoAddEvent(root);
    if e.Err? {
      return Err(e.error);
    }
    var v := ctx.Validate();
    if v.Err? {
      return Err(v.error);
    }
    S.ValidateKeeps(ctx.Tables());
    return Ok(ctx);
  }
}
