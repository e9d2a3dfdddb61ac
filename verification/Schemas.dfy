/** The schema that `wide_log!` takes: a JSON tree with markers, and the names of the built-in keys. */
module Schemas {
  import opened Wrappers
  import WideEvents

  datatype Number = Int(i: WideEvents.i64) | Uint(u: WideEvents.u64) | Float(f: WideEvents.Float)

  datatype Marker = DurationMarker | CounterMarker

  datatype JsonNode =
    | Null
    | Bool(b: bool)
    | Num(n: Number)
    | Str(s: string)
    | Object(entries: seq<(string, JsonNode)>)
    | Mark(m: Marker)

  datatype Builtins = Builtins(event: string, id: string, timestamp: string, duration: string, totalMs: string)

  const DEFAULT_BUILTINS: Builtins := Builtins("event", "id", "timestamp", "duration", "total_ms")

  /** The value of the first entry with a name. */
  function Find(entries: seq<(string, JsonNode)>, name: string): (r: Option<JsonNode>)
    ensures r.Some? ==> exists i :: 0 <= i < |entries| && entries[i] == (name, r.value)
    ensures r.None? ==> forall i :: 0 <= i < |entries| ==> entries[i].0 != name
  {
    if entries == [] then None
    else if entries[0].0 == name then
      assert entries[0] == (name, entries[0].1);
      Some(entries[0].1)
    else
      var r := Find(entries[1..], name);
      assert forall i :: 1 <= i < |entries| ==> entries[i] == entries[1..][i - 1];
      r
  }

  /** What the parser guarantees of every object: no key twice. */
  predicate DistinctKeys(node: JsonNode)
    decreases node
  {
    node.Object? ==>
      && (forall i, j :: 0 <= i < j < |node.entries| ==> node.entries[i].0 != node.entries[j].0)
      && (forall i :: 0 <= i < |node.entries| ==> DistinctKeys(node.entries[i].1))
  }

  predicate DotFree(name: string) { '.' !in name }

  predicate DotFreeNames(node: JsonNode)
    decreases node
  {
    node.Object? ==>
      forall i :: 0 <= i < |node.entries| ==> DotFree(node.entries[i].0) && DotFreeNames(node.entries[i].1)
  }

  lemma FindEntry(node: JsonNode, i: nat)
    requires node.Object? && DistinctKeys(node) && i < |node.entries|
    ensures Find(node.entries, node.entries[i].0) == Some(node.entries[i].1)
  {
    var r := Find(node.entries, node.entries[i].0);
    assert r.Some?;
    var j :| 0 <= j < |node.entries| && node.entries[j] == (node.entries[i].0, r.value);
    assert j == i;
  }

  type Segments = seq<string>

  /** The node a path of names leads to. */
  function NodeAt(node: JsonNode, path: Segments): Option<JsonNode>
    decreases |path|
  {
    if path == [] then Some(node)
    else if !node.Object? then None
    else
      var child :- Find(node.entries, path[0]);
      NodeAt(child, path[1..])
  }

  lemma {:induction false} NodeAtConcat(node: JsonNode, p: Segments, q: Segments)
    ensures NodeAt(node, p + q) ==
            match NodeAt(node, p) case Some(mid) => NodeAt(mid, q) case None => None
    decreases |p|
  {
    if p == [] {
      assert p + q == q;
    } else if node.Object? && Find(node.entries, p[0]).Some? {
      assert (p + q)[1..] == p[1..] + q;
      NodeAtConcat(Find(node.entries, p[0]).value, p[1..], q);
    }
  }

  /** The value a leaf gives to new events; null and marker leaves give none. */
  function DefaultOf(node: JsonNode): Option<WideEvents.Value> {
    match node
    case Bool(b) => Some(WideEvents.Bool(b))
    case Num(Int(i)) => Some(WideEvents.I64(i))
    case Num(Uint(u)) => Some(WideEvents.U64(u))
    case Num(Float(f)) => Some(WideEvents.F64(f))
    case Str(s) => Some(WideEvents.Value.Str(s))
    case _ => None
  }

  /** A leaf that is a literal: a boolean, a number or a string. */
  predicate HasValue(node: JsonNode) { node.Bool? || node.Num? || node.Str? }

  /** The literal that a leaf must be for a value to be its own. */
  predicate Declares(node: JsonNode, v: WideEvents.Value) {
    match v
    case Bool(b) => node == JsonNode.Bool(b)
    case I64(i) => node == Num(Int(i))
    case U64(u) => node == Num(Uint(u))
    case F64(f) => node == Num(Float(f))
    case Str(s) => node == JsonNode.Str(s)
    case _ => false
  }

  /** A leaf gives a new event the literal it is, in its own type, and nothing else gives any. */
  lemma DefaultIsDeclared(node: JsonNode)
    ensures forall v :: DefaultOf(node) == Some(v) <==> Declares(node, v)
    ensures DefaultOf(node).Some? <==> HasValue(node)
  {
    if DefaultOf(node).Some? {
      assert Declares(node, DefaultOf(node).value);
    }
  }

  /** Whether anything is left of a node once leaves without default and empty objects are gone. */
  predicate HasDefault(node: JsonNode)
    decreases node
  {
    if node.Object? then exists i :: 0 <= i < |node.entries| && HasDefault(node.entries[i].1)
    else HasValue(node)
  }

  /** Whether a `duration!` marker occurs anywhere. */
  predicate HasDurationMarker(node: JsonNode)
    decreases node
  {
    if node.Object? then exists i :: 0 <= i < |node.entries| && HasDurationMarker(node.entries[i].1)
    else node == Mark(DurationMarker)
  }
}
