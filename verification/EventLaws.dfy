/** What writes along paths do to reads along paths, and what every run of mutators keeps. */
module EventLaws {
  import opened Wrappers
  import opened WideEvents

  /** The value a path names, if every strict prefix of the path is an object. */
  function Get(ev: Event, path: Path): Option<Value>
    requires path != []
    decreases |path|
  {
    if |path| == 1 then Slot(ev, path[0]) else
    match Slot(ev, path[0])
    case Some(Object(child)) => Get(child, path[1..])
    case _ => None
  }

  /** The object a path names; an empty one where the path names no object. */
  function ObjectAt(ev: Event, path: Path): Event
    requires path != []
  {
    match Get(ev, path)
    case Some(Object(child)) => child
    case _ => EMPTY
  }

  predicate Incomparable(p: Path, q: Path)
    ensures Incomparable(p, q) ==> p != [] && q != []
  {
    !(p <= q) && !(q <= p)
  }

  lemma PutSlot(ev: Event, k: Key, v: Value, j: Key)
    ensures Slot(Put(ev, k, v), j) == if j == k then Some(v) else Slot(ev, j)
  {
  }

  lemma PrefixStep(p: Path, q: Path)
    requires p != [] && q != []
    ensures p <= q <==> p[0] == q[0] && p[1..] <= q[1..]
  {
    assert p == [p[0]] + p[1..] && q == [q[0]] + q[1..];
    if p[0] == q[0] && p[1..] <= q[1..] {
      assert q[..|p|] == [q[0]] + q[1..][..|p| - 1];
    }
  }

  lemma IncomparableTails(p: Path, q: Path)
    requires Incomparable(p, q) && p[0] == q[0]
    ensures |p| > 1 && |q| > 1 && Incomparable(p[1..], q[1..])
  {
    PrefixStep(p, q);
    PrefixStep(q, p);
  }

  /** Reading back: the written path holds the update of what it held before. */
  lemma {:induction false} ReadBack(ev: Event, p: Path, u: Update)
    requires p != []
    ensures Get(Write(ev, p, u), p) == Some(NewValue(u, Get(ev, p)))
    decreases |p|
  {
    if |p| > 1 {
      ReadBack(ChildAt(ev, p[0]), p[1..], u);
      EmptyReads(p[1..]);
    }
  }

  lemma {:induction false} EmptyReads(p: Path)
    requires p != []
    ensures Get(EMPTY, p) == None
  {
  }

  /** Framing: a path that is neither above nor below the written one reads as before. */
  lemma {:induction false} ReadElsewhere(ev: Event, p: Path, u: Update, q: Path)
    requires Incomparable(p, q)
    ensures Get(Write(ev, p, u), q) == Get(ev, q)
    decreases |p|
  {
    if p[0] == q[0] {
      IncomparableTails(p, q);
      ReadElsewhere(ChildAt(ev, p[0]), p[1..], u, q[1..]);
      EmptyReads(q[1..]);
    }
  }

  /** The object a path names, by its first segment. */
  lemma ObjectBelow(ev: Event, q: Path)
    requires |q| > 1
    ensures ObjectAt(ev, q) == ObjectAt(ChildAt(ev, q[0]), q[1..])
  {
    EmptyReads(q[1..]);
  }

  /** Every strict prefix of the written path names an object, in which the rest was written. */
  lemma {:induction false} ReadAbove(ev: Event, p: Path, u: Update, q: Path)
    requires q != [] && q < p
    ensures Get(Write(ev, p, u), q) == Some(Object(Write(ObjectAt(ev, q), p[|q|..], u)))
    decreases |p|
  {
    PrefixStep(q, p);
    if |q| == 1 {
      assert ObjectAt(ev, q) == ChildAt(ev, p[0]);
    } else {
      hide ObjectAt, NewValue;
      ReadAbove(ChildAt(ev, p[0]), p[1..], u, q[1..]);
      assert p[1..][|q[1..]|..] == p[|q|..];
      ObjectBelow(ev, q);
    }
  }

  /** Below the written path there is what the new value has there. */
  lemma {:induction false} ReadBelow(ev: Event, p: Path, u: Update, q: Path)
    requires p != [] && p < q
    ensures Get(Write(ev, p, u), q) ==
            match NewValue(u, Get(ev, p))
            case Object(child) => Get(child, q[|p|..])
            case _ => None
    decreases |p|
  {
    PrefixStep(p, q);
    if |p| > 1 {
      ReadBelow(ChildAt(ev, p[0]), p[1..], u, q[1..]);
      EmptyReads(p[1..]);
      assert q[1..][|p[1..]|..] == q[|p|..];
    }
  }

  lemma PutTwice(ev: Event, k: Key, v: Value, w: Value)
    ensures Put(Put(ev, k, v), k, w) == Put(ev, k, w)
  {
  }

  lemma PutsCommute(ev: Event, j: Key, v: Value, k: Key, w: Value)
    requires j != k
    ensures Put(Put(ev, j, v), k, w) == Put(Put(ev, k, w), j, v)
  {
    assert Put(Put(ev, j, v), k, w).values == Put(Put(ev, k, w), j, v).values;
  }

  /** What a write puts into the first slot of its path. */
  function Entry(ev: Event, p: Path, u: Update): Value
    requires p != []
  {
    if |p| == 1 then NewValue(u, Slot(ev, p[0])) else Object(Write(ChildAt(ev, p[0]), p[1..], u))
  }

  lemma WriteIsPut(ev: Event, p: Path, u: Update)
    requires p != []
    ensures Write(ev, p, u) == Put(ev, p[0], Entry(ev, p, u))
  {
  }

  lemma EntryElsewhere(ev: Event, k: Key, v: Value, p: Path, u: Update)
    requires p != [] && p[0] != k
    ensures Entry(Put(ev, k, v), p, u) == Entry(ev, p, u)
  {
    PutSlot(ev, k, v, p[0]);
  }

  /** Writes to incomparable paths commute, slot vectors and cached counts included. */
  lemma {:induction false} WritesCommute(ev: Event, p: Path, u: Update, q: Path, w: Update)
    requires Incomparable(p, q)
    ensures Write(Write(ev, p, u), q, w) == Write(Write(ev, q, w), p, u)
    decreases |p|
  {
    var evP, evQ := Write(ev, p, u), Write(ev, q, w);
    WriteIsPut(ev, p, u);
    WriteIsPut(ev, q, w);
    WriteIsPut(evP, q, w);
    WriteIsPut(evQ, p, u);
    if p[0] != q[0] {
      EntryElsewhere(ev, p[0], Entry(ev, p, u), q, w);
      EntryElsewhere(ev, q[0], Entry(ev, q, w), p, u);
      PutsCommute(ev, p[0], Entry(ev, p, u), q[0], Entry(ev, q, w));
    } else {
      IncomparableTails(p, q);
      WritesCommute(ChildAt(ev, p[0]), p[1..], u, q[1..], w);
      PutTwice(ev, p[0], Entry(ev, p, u), Entry(evP, q, w));
      PutTwice(ev, p[0], Entry(ev, q, w), Entry(evQ, p, u));
    }
  }

  // ---- Well-formedness ----

  function CountPresent(values: seq<Option<Value>>): nat {
    if values == [] then 0
    else CountPresent(values[..|values| - 1]) + if values[|values| - 1].Some? then 1 else 0
  }

  /** At every depth: the cache is exact and no slot lies beyond the key enumeration. */
  predicate WellFormed(ev: Event, maxKeys: nat)
    decreases ev
  {
    && |ev.values| <= maxKeys
    && ev.presentCount == CountPresent(ev.values)
    && forall k :: 0 <= k < |ev.values| && ev.values[k].Some? ==>
         WellFormedValue(ev.values[k].value, maxKeys)
  }

  predicate WellFormedValue(v: Value, maxKeys: nat)
    decreases v
  {
    match v
    case Array(elems) => forall i :: 0 <= i < |elems| ==> WellFormedValue(elems[i], maxKeys)
    case Object(child) => WellFormed(child, maxKeys)
    case _ => true
  }

  predicate WellFormedUpdate(u: Update, maxKeys: nat) {
    u.Set? ==> WellFormedValue(u.v, maxKeys)
  }

  predicate InKeys(p: Path, maxKeys: nat) {
    p != [] && forall i :: 0 <= i < |p| ==> p[i] < maxKeys
  }

  lemma {:induction false} CountResized(values: seq<Option<Value>>, n: nat)
    ensures CountPresent(values + seq(n, _ => None)) == CountPresent(values)
  {
    if n == 0 {
      assert values + seq(n, _ => None) == values;
    } else {
      var more := values + seq(n, _ => None);
      assert more[..|more| - 1] == values + seq(n - 1, _ => None);
      CountResized(values, n - 1);
    }
  }

  lemma {:induction false} CountUpdated(values: seq<Option<Value>>, k: nat, v: Value)
    requires k < |values|
    ensures CountPresent(values[k := Some(v)])
         == CountPresent(values) + if values[k].None? then 1 else 0
  {
    var updated := values[k := Some(v)];
    var last := |values| - 1;
    if k == last {
      assert updated[..last] == values[..last];
    } else {
      CountUpdated(values[..last], k, v);
      assert updated[..last] == values[..last][k := Some(v)];
    }
  }

  lemma PutWellFormed(ev: Event, k: Key, v: Value, maxKeys: nat)
    requires WellFormed(ev, maxKeys) && WellFormedValue(v, maxKeys) && k < maxKeys
    ensures WellFormed(Put(ev, k, v), maxKeys)
  {
    var wide := Resized(ev.values, k);
    if k >= |ev.values| {
      CountResized(ev.values, k + 1 - |ev.values|);
    }
    CountUpdated(wide, k, v);
    assert wide[k] == Slot(ev, k);
  }

  lemma {:induction false} WriteWellFormed(ev: Event, p: Path, u: Update, maxKeys: nat)
    requires WellFormed(ev, maxKeys) && WellFormedUpdate(u, maxKeys) && InKeys(p, maxKeys)
    ensures WellFormed(Write(ev, p, u), maxKeys)
    decreases |p|
  {
    if |p| == 1 {
      PutWellFormed(ev, p[0], NewValue(u, Slot(ev, p[0])), maxKeys);
    } else {
      WriteWellFormed(ChildAt(ev, p[0]), p[1..], u, maxKeys);
      PutWellFormed(ev, p[0], Object(Write(ChildAt(ev, p[0]), p[1..], u)), maxKeys);
    }
  }

  // ---- Runs ----

  datatype Mutation = Update(path: Path, u: Update) | Log(entry: LogEntry)

  predicate Legal(m: Mutation, maxKeys: nat) {
    m.Update? ==> InKeys(m.path, maxKeys) && WellFormedUpdate(m.u, maxKeys)
  }

  ghost predicate LegalRun(ms: seq<Mutation>, maxKeys: nat)
    ensures LegalRun(ms, maxKeys) ==> Runnable(ms)
  {
    forall i :: 0 <= i < |ms| ==> Legal(ms[i], maxKeys)
  }

  predicate Runnable(ms: seq<Mutation>) {
    forall i :: 0 <= i < |ms| && ms[i].Update? ==> ms[i].path != []
  }

  function Apply(ev: Event, m: Mutation): Event
    requires m.Update? ==> m.path != []
  {
    match m
    case Update(path, u) => Write(ev, path, u)
    case Log(entry) => WithLog(ev, entry)
  }

  function Run(ev: Event, ms: seq<Mutation>): Event
    requires Runnable(ms)
  {
    if ms == [] then ev else Apply(Run(ev, ms[..|ms| - 1]), ms[|ms| - 1])
  }

  /** Every run of mutators from a new event leaves a well-formed tree. */
  lemma {:induction false} RunWellFormed(ms: seq<Mutation>, maxKeys: nat)
    requires LegalRun(ms, maxKeys)
    ensures WellFormed(Run(EMPTY, ms), maxKeys)
  {
    if ms != [] {
      var last := ms[|ms| - 1];
      assert Legal(last, maxKeys);
      RunWellFormed(ms[..|ms| - 1], maxKeys);
      if last.Update? {
        WriteWellFormed(Run(EMPTY, ms[..|ms| - 1]), last.path, last.u, maxKeys);
      }
    }
  }

  /** The updates of a run that go to one path. */
  function UpdatesAt(ms: seq<Mutation>, p: Path): seq<Update> {
    if ms == [] then [] else
    var last := ms[|ms| - 1];
    UpdatesAt(ms[..|ms| - 1], p) + if last.Update? && last.path == p then [last.u] else []
  }

  function Fold(v: Option<Value>, us: seq<Update>): Option<Value> {
    if us == [] then v else Some(NewValue(us[|us| - 1], Fold(v, us[..|us| - 1])))
  }

  /**
   A path depends only on its own updates, in order, however they interleave with log entries and
   with updates of paths incomparable with it.
   */
  lemma {:induction false} RunReads(ev: Event, ms: seq<Mutation>, p: Path)
    requires p != []
    requires forall i :: 0 <= i < |ms| && ms[i].Update? ==>
      ms[i].path != [] && (ms[i].path == p || Incomparable(ms[i].path, p))
    ensures Get(Run(ev, ms), p) == Fold(Get(ev, p), UpdatesAt(ms, p))
  {
    if ms != [] {
      var front, last := ms[..|ms| - 1], ms[|ms| - 1];
      RunReads(ev, front, p);
      var here := Run(ev, front);
      match last {
        case Update(q, u) =>
          if q == p {
            ReadBack(here, p, u);
            var us := UpdatesAt(ms, p);
            assert us[..|us| - 1] == UpdatesAt(front, p);
          } else {
            ReadElsewhere(here, q, u, p);
            assert UpdatesAt(ms, p) == UpdatesAt(front, p);
          }
        case Log(entry) =>
          LogReads(here, entry, p);
          assert UpdatesAt(ms, p) == UpdatesAt(front, p);
      }
    }
  }

  lemma {:induction false} LogReads(ev: Event, entry: LogEntry, p: Path)
    requires p != []
    ensures Get(WithLog(ev, entry), p) == Get(ev, p)
  {
  }
}
