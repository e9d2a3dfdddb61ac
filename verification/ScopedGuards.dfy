/**
 The end of a guard: `ScopedGuard::drop` writes the duration and the timestamp, with both path
 writes inlined when the paths have two segments, and emits the event at most once.
 */
module ScopedGuards {
  import opened Wrappers
  import opened WideEvents
  import opened EventLaws
  import Serializer

  /** What a drop writes: two paths of the schema and their values. */
  datatype Final = Final(durationPath: Path, duration: Float, timestampPath: Path, timestamp: string) {
    predicate Valid() { durationPath != [] && timestampPath != [] }
    predicate Short() { |durationPath| == 2 && |timestampPath| == 2 }
  }

  /** The simple form: two path writes. */
  function Finalised(ev: Event, f: Final): Event
    requires f.Valid()
  {
    Write(Write(ev, f.durationPath, Set(F64(f.duration))), f.timestampPath, Set(Str(f.timestamp)))
  }

  predicate HoldsObject(v: Option<Value>) { v.Some? && v.value.Object? }

  /** A slot that holds a value which the drop replaces by an object. */
  predicate WrongType(ev: Event, k: Key) { Slot(ev, k).Some? && !HoldsObject(Slot(ev, k)) }

  /** The inlined form: the slot is made an object, and counted, unless it is one already. */
  function Forced(ev: Event, k: Key, needChild: bool): Event
    requires k < |ev.values|
  {
    if needChild then Event(ev.values[k := Some(Object(EMPTY))], ev.logEntries, ev.presentCount + 1)
    else ev
  }

  function LeafWritten(ev: Event, k: Key, leaf: Key, v: Value): Event
    requires k < |ev.values|
  {
    ev.(values := ev.values[k := Some(Object(Write(ChildAt(ev, k), [leaf], Set(v))))])
  }

  function FastFinalised(ev: Event, f: Final): Event
    requires f.Short()
  {
    var d, t := f.durationPath[0], f.timestampPath[0];
    var e0 := ev.(values := Resized(ev.values, if d < t then t else d));
    var e1 := Forced(e0, d, !HoldsObject(e0.values[d]));
    var e2 := Forced(e1, t, !HoldsObject(e0.values[t]));
    LeafWritten(LeafWritten(e2, d, f.durationPath[1], F64(f.duration)), t, f.timestampPath[1], Str(f.timestamp))
  }

  /** How much the inlined form adds to the cached count beyond the slots it fills. */
  function Overcount(ev: Event, f: Final): nat
    requires f.Short()
  {
    var d, t := f.durationPath[0], f.timestampPath[0];
    (if WrongType(ev, d) then 1 else 0) + (if WrongType(ev, t) then 1 else 0)
    + (if d == t && Slot(ev, d).None? then 1 else 0)
  }

  // ---- Refinement ----

  lemma WriteTwo(ev: Event, path: Path, u: Update)
    requires |path| == 2
    ensures Write(ev, path, u) == Put(ev, path[0], Object(Write(ChildAt(ev, path[0]), [path[1]], u)))
  {
    assert path[1..] == [path[1]];
  }

  lemma SamePaths(ev: Event, f: Final)
    requires f.Short() && f.durationPath[0] == f.timestampPath[0]
    ensures var fast, slow := FastFinalised(ev, f), Finalised(ev, f);
            && fast.values == slow.values && fast.logEntries == slow.logEntries
            && fast.presentCount == slow.presentCount + Overcount(ev, f)
  {
    WriteTwo(ev, f.durationPath, Set(F64(f.duration)));
    var once := Write(ev, f.durationPath, Set(F64(f.duration)));
    WriteTwo(once, f.timestampPath, Set(Str(f.timestamp)));
    assert FastFinalised(ev, f).values == Finalised(ev, f).values;
  }

  lemma ForcedChild(ev: Event, k: Key, j: Key)
    requires k < |ev.values| && j < |ev.values|
    ensures ChildAt(Forced(ev, k, !HoldsObject(ev.values[k])), j) == ChildAt(ev, j)
  {
  }

  lemma LeafWrittenChild(ev: Event, k: Key, leaf: Key, v: Value, j: Key)
    requires k < |ev.values| && j != k
    ensures ChildAt(LeafWritten(ev, k, leaf, v), j) == ChildAt(ev, j)
  {
  }

  lemma ResizedChild(ev: Event, n: Key, k: Key)
    requires k <= n
    ensures ChildAt(ev.(values := Resized(ev.values, n)), k) == ChildAt(ev, k)
  {
  }

  lemma PutChild(ev: Event, k: Key, v: Value, j: Key)
    requires j != k
    ensures ChildAt(Put(ev, k, v), j) == ChildAt(ev, j)
  {
  }

  /** Two slots set in one resized vector, or one after the other. */
  lemma TwoPuts(ev: Event, d: Key, x: Value, t: Key, y: Value)
    requires d != t
    ensures Put(Put(ev, d, x), t, y).values
         == Resized(ev.values, if d < t then t else d)[d := Some(x)][t := Some(y)]
  {
  }

  /** What the two leaves leave in their slots, in either form. */
  function NewObject(ev: Event, path: Path, v: Value): Value
    requires |path| == 2
  {
    Object(Write(ChildAt(ev, path[0]), [path[1]], Set(v)))
  }

  lemma SlowSlots(ev: Event, f: Final)
    requires f.Short() && f.durationPath[0] != f.timestampPath[0]
    ensures Finalised(ev, f)
         == Put(Put(ev, f.durationPath[0], NewObject(ev, f.durationPath, F64(f.duration))),
                f.timestampPath[0], NewObject(ev, f.timestampPath, Str(f.timestamp)))
  {
    hide Write, ChildAt, Put;
    var x := NewObject(ev, f.durationPath, F64(f.duration));
    WriteTwo(ev, f.durationPath, Set(F64(f.duration)));
    WriteTwo(Put(ev, f.durationPath[0], x), f.timestampPath, Set(Str(f.timestamp)));
    PutChild(ev, f.durationPath[0], x, f.timestampPath[0]);
  }

  lemma FastSlots(ev: Event, f: Final)
    requires f.Short() && f.durationPath[0] != f.timestampPath[0]
    ensures var d, t := f.durationPath[0], f.timestampPath[0];
            FastFinalised(ev, f).values
            == Resized(ev.values, if d < t then t else d)
                 [d := Some(NewObject(ev, f.durationPath, F64(f.duration)))]
                 [t := Some(NewObject(ev, f.timestampPath, Str(f.timestamp)))]
  {
    hide Write, ChildAt, Resized;
    var d, t := f.durationPath[0], f.timestampPath[0];
    var n := if d < t then t else d;
    var e0 := ev.(values := Resized(ev.values, n));
    var e1 := Forced(e0, d, !HoldsObject(e0.values[d]));
    var e2 := Forced(e1, t, !HoldsObject(e0.values[t]));
    ResizedChild(ev, n, d);
    ResizedChild(ev, n, t);
    ForcedChild(e0, d, d);
    ForcedChild(e0, d, t);
    ForcedChild(e1, t, d);
    ForcedChild(e1, t, t);
    LeafWrittenChild(e2, d, f.durationPath[1], F64(f.duration), t);
  }

  lemma DifferentPaths(ev: Event, f: Final)
    requires f.Short() && f.durationPath[0] != f.timestampPath[0]
    ensures var fast, slow := FastFinalised(ev, f), Finalised(ev, f);
            && fast.values == slow.values && fast.logEntries == slow.logEntries
            && fast.presentCount == slow.presentCount + Overcount(ev, f)
  {
    hide Finalised, NewObject, ChildAt;
    SlowSlots(ev, f);
    FastSlots(ev, f);
    TwoPuts(ev, f.durationPath[0], NewObject(ev, f.durationPath, F64(f.duration)),
            f.timestampPath[0], NewObject(ev, f.timestampPath, Str(f.timestamp)));
  }

  /**
   In every state the inlined form gives the tree of the two path writes; its count is too high by
   exactly `Overcount`.
   */
  lemma FastRefinesSlow(ev: Event, f: Final)
    requires f.Short()
    ensures var fast, slow := FastFinalised(ev, f), Finalised(ev, f);
            && fast.values == slow.values && fast.logEntries == slow.logEntries
            && fast.presentCount == slow.presentCount + Overcount(ev, f)
  {
    hide FastFinalised, Finalised;
    if f.durationPath[0] == f.timestampPath[0] {
      SamePaths(ev, f);
    } else {
      DifferentPaths(ev, f);
    }
  }

  predicate Preserved(ev: Event, f: Final)
    requires f.Short()
  {
    var d, t := f.durationPath[0], f.timestampPath[0];
    !WrongType(ev, d) && !WrongType(ev, t) && !(d == t && Slot(ev, d).None?)
  }

  /**
   Dropping keeps the tree well formed if and only if neither slot held a value of another type and
   the two slots are not one missing slot.
   */
  lemma DropWellFormedIff(ev: Event, f: Final, maxKeys: nat)
    requires f.Short() && WellFormed(ev, maxKeys)
    requires InKeys(f.durationPath, maxKeys) && InKeys(f.timestampPath, maxKeys)
    ensures FastFinalised(ev, f) == Finalised(ev, f) <==> Preserved(ev, f)
    ensures WellFormed(FastFinalised(ev, f), maxKeys) <==> Preserved(ev, f)
  {
    hide FastFinalised;
    FastRefinesSlow(ev, f);
    var once := Write(ev, f.durationPath, Set(F64(f.duration)));
    WriteWellFormed(ev, f.durationPath, Set(F64(f.duration)), maxKeys);
    WriteWellFormed(once, f.timestampPath, Set(Str(f.timestamp)), maxKeys);
  }

  /** The count is never printed, so the emitted document does not depend on the form. */
  lemma SameDocument(ns: Serializer.Names, ev: Event, f: Final)
    requires f.Short()
    ensures Serializer.DocEvent(ns, FastFinalised(ev, f)) == Serializer.DocEvent(ns, Finalised(ev, f))
  {
    hide FastFinalised, Finalised;
    FastRefinesSlow(ev, f);
    DocIgnoresCount(ns, FastFinalised(ev, f), Finalised(ev, f), |ns.keys|);
  }

  lemma {:induction false} DocIgnoresCount(ns: Serializer.Names, a: Event, b: Event, n: nat)
    requires n <= |ns.keys| && a.values == b.values
    ensures Serializer.DocSlots(ns, a, n) == Serializer.DocSlots(ns, b, n)
  {
    if n > 0 {
      DocIgnoresCount(ns, a, b, n - 1);
    }
  }

  /** The event as it is emitted. */
  function DropEvent(ev: Event, f: Final): Event
    requires f.Valid()
  {
    if f.Short() then FastFinalised(ev, f) else Finalised(ev, f)
  }

  lemma {:induction false} SameValuesRead(a: Event, b: Event, p: Path)
    requires a.values == b.values && p != []
    ensures Get(a, p) == Get(b, p)
  {
  }

  lemma DropReadsAsFinalised(ev: Event, f: Final, p: Path)
    requires f.Valid() && p != []
    ensures Get(DropEvent(ev, f), p) == Get(Finalised(ev, f), p)
  {
    hide FastFinalised, Finalised;
    if f.Short() {
      FastRefinesSlow(ev, f);
      SameValuesRead(FastFinalised(ev, f), Finalised(ev, f), p);
    }
  }

  /**
   The timestamp can always be read from the emitted event, and the duration if and only if the two
   paths are incomparable.
   */
  lemma DropReadsIff(ev: Event, f: Final)
    requires f.Valid()
    ensures Get(DropEvent(ev, f), f.timestampPath) == Some(Str(f.timestamp))
    ensures Get(DropEvent(ev, f), f.durationPath) == Some(F64(f.duration))
       <==> Incomparable(f.durationPath, f.timestampPath)
  {
    hide DropEvent;
    var d, u := f.durationPath, Set(Str(f.timestamp));
    var once := Write(ev, d, Set(F64(f.duration)));
    DropReadsAsFinalised(ev, f, d);
    DropReadsAsFinalised(ev, f, f.timestampPath);
    ReadBack(ev, d, Set(F64(f.duration)));
    ReadBack(once, f.timestampPath, u);
    if Incomparable(d, f.timestampPath) {
      ReadElsewhere(once, f.timestampPath, u, d);
    } else if d == f.timestampPath {
    } else if d <= f.timestampPath {
      ReadAbove(once, f.timestampPath, u, d);
    } else {
      ReadBelow(once, f.timestampPath, u, d);
    }
  }

  /** A path apart from both reads as before the drop. */
  lemma DropKeeps(ev: Event, f: Final, p: Path)
    requires f.Valid() && Incomparable(f.durationPath, p) && Incomparable(f.timestampPath, p)
    ensures Get(DropEvent(ev, f), p) == Get(ev, p)
  {
    hide DropEvent, Get;
    DropReadsAsFinalised(ev, f, p);
    ReadElsewhere(ev, f.durationPath, Set(F64(f.duration)), p);
    ReadElsewhere(Write(ev, f.durationPath, Set(F64(f.duration))), f.timestampPath, Set(Str(f.timestamp)), p);
  }

  /** A path at or above the duration holds no string afterwards, unless the timestamp is there. */
  lemma DropOverwrites(ev: Event, f: Final, p: Path)
    requires f.Valid() && p != [] && p <= f.durationPath && Incomparable(f.timestampPath, p)
    ensures var v := Get(DropEvent(ev, f), p); v.Some? && !v.value.Str?
  {
    hide DropEvent, Get;
    var d, u := f.durationPath, Set(F64(f.duration));
    DropReadsAsFinalised(ev, f, p);
    ReadElsewhere(Write(ev, d, u), f.timestampPath, Set(Str(f.timestamp)), p);
    if p == d {
      ReadBack(ev, d, u);
    } else {
      ReadAbove(ev, d, u, p);
    }
  }

  // ---- The guard ----

  class ScopedGuard {
    var event: WideEvent
    var emitPending: bool
    var emitted: seq<Event>

    constructor ()
      ensures fresh(event) && event.Contents() == EMPTY
      ensures emitPending && emitted == []
    {
      event := new WideEvent();
      emitPending, emitted := true, [];
    }

    method Emit()
      modifies this`emitPending, this`emitted
      ensures !emitPending
      ensures emitted == old(emitted) + if old(emitPending) then [event.Contents()] else []
    {
      if emitPending {
        emitPending := false;
        emitted := emitted + [event.Contents()];
      }
    }

    method Drop(f: Final)
      requires f.Valid()
      modifies this`emitPending, this`emitted, event
      ensures event.Contents() == DropEvent(old(event.Contents()), f)
      ensures !emitPending
      ensures emitted == old(emitted) + if old(emitPending) then [event.Contents()] else []
    {
      if |f.durationPath| == 2 && |f.timestampPath| == 2 {
        FinaliseInline(f);
      } else {
        event.AddPath(f.durationPath, F64(f.duration));
        event.AddPath(f.timestampPath, Str(f.timestamp));
      }
      Emit();
    }

    method FinaliseInline(f: Final)
      requires f.Short()
      modifies event
      ensures event.Contents() == FastFinalised(old(event.Contents()), f)
    {
      var durIdx, tsIdx := f.durationPath[0], f.timestampPath[0];
      event.EnsureCapacity(if durIdx < tsIdx then tsIdx else durIdx);
      var needDurChild := match event.values[durIdx] case Some(v) => !v.Object? case None => true;
      var needTsChild := match event.values[tsIdx] case Some(v) => !v.Object? case None => true;
      ForceChild(durIdx, needDurChild);
      ForceChild(tsIdx, needTsChild);
      WriteLeaf(durIdx, f.durationPath[1], F64(f.duration));
      WriteLeaf(tsIdx, f.timestampPath[1], Str(f.timestamp));
    }

    method ForceChild(k: Key, needChild: bool)
      requires k < |event.values|
      modifies event
      ensures event.Contents() == Forced(old(event.Contents()), k, needChild)
    {
      if needChild {
        event.values := event.values[k := Some(Object(EMPTY))];
        event.presentCount := event.presentCount + 1;
      }
    }

    /** Writes the leaf into the object at the slot. */
    method WriteLeaf(k: Key, leaf: Key, v: Value)
      requires k < |event.values| && HoldsObject(event.values[k])
      modifies event
      ensures event.Contents() == LeafWritten(old(event.Contents()), k, leaf, v)
    {
      var obj := new WideEvent.Borrow(event.values[k].value.ev);
      obj.Add(leaf, v);
      event.Return(k, obj);
    }
  }
}
