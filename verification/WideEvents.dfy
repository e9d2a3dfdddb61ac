/**
 The event tree. `Event` is the value of a `WideEvent` together with everything it owns; the
 functions say what the mutators compute, and the class updates its fields step by step as the
 source does.
 */
module WideEvents {
  import opened Wrappers

  const TWO_64: int := 0x1_0000_0000_0000_0000
  const TWO_63: int := 0x8000_0000_0000_0000

  type i64 = x: int | -0x8000_0000_0000_0000 <= x < 0x8000_0000_0000_0000
  type u64 = x: int | 0 <= x < 0x1_0000_0000_0000_0000

  function WrapI64(x: int): i64 {
    (x + TWO_63) % TWO_64 - TWO_63
  }

  function WrapU64(x: int): u64 {
    x % TWO_64
  }

  /** A finite float is the token that the float printer gives for it. */
  datatype Float = Finite(token: string) | NonFinite

  datatype LogMsg = Static(text: string) | Owned(text: string)

  datatype LogEntry = LogEntry(level: string, message: LogMsg)

  datatype Value =
    | Null
    | Bool(b: bool)
    | I64(i: i64)
    | U64(u: u64)
    | F64(f: Float)
    | Str(s: string)
    | StaticStr(s: string)
    | Array(elems: seq<Value>)
    | Object(ev: Event)

  datatype Event = Event(values: seq<Option<Value>>, logEntries: seq<LogEntry>, presentCount: nat)

  type Key = nat
  type Path = seq<Key>

  const EMPTY: Event := Event([], [], 0)

  function Slot(ev: Event, k: Key): Option<Value> {
    if k < |ev.values| then ev.values[k] else None
  }

  function Resized(values: seq<Option<Value>>, k: Key): (r: seq<Option<Value>>)
    ensures k < |r| && values <= r
  {
    if k < |values| then values else values + seq(k + 1 - |values|, _ => None)
  }

  /** Slot `k` set to `v`, and counted when it was absent. */
  function Put(ev: Event, k: Key, v: Value): Event {
    Event(Resized(ev.values, k)[k := Some(v)], ev.logEntries,
          ev.presentCount + if Slot(ev, k).None? then 1 else 0)
  }

  /** The object at slot `k`; a new one when the slot is absent or of another type. */
  function ChildAt(ev: Event, k: Key): Event {
    match Slot(ev, k)
    case Some(Object(child)) => child
    case _ => EMPTY
  }

  /** The event once `object(k)` has made sure that slot `k` holds an object. */
  function WithObject(ev: Event, k: Key): Event {
    match Slot(ev, k)
    case Some(Object(_)) => ev
    case _ => Put(ev, k, Object(EMPTY))
  }

  // ---- Leaf updates ----

  datatype Update = Set(v: Value) | Inc | Dec | AddN(n: i64)

  function SaturatingAddSigned(u: u64, n: i64): u64 {
    if u + n < 0 then 0 else if u + n >= TWO_64 then TWO_64 - 1 else u + n
  }

  /** The value an update leaves in a slot that held `prior`. */
  function NewValue(u: Update, prior: Option<Value>): Value {
    match u
    case Set(v) => v
    case Inc =>
      (match prior
       case Some(U64(n)) => U64(WrapU64(n + 1))
       case Some(I64(n)) => I64(WrapI64(n + 1))
       case _ => U64(1))
    case Dec =>
      (match prior
       case Some(U64(n)) => U64(if n > 0 then n - 1 else 0)
       case Some(I64(n)) => I64(WrapI64(n - 1))
       case _ => I64(-1))
    case AddN(n) =>
      (match prior
       case Some(U64(m)) => U64(SaturatingAddSigned(m, n))
       case Some(I64(m)) => I64(WrapI64(m + n))
       case _ => if n >= 0 then U64(n) else I64(n))
  }

  /** The update applied to the slot that a path names, creating objects on the way. */
  function Write(ev: Event, path: Path, u: Update): Event
    requires path != []
    decreases |path|
  {
    if |path| == 1 then Put(ev, path[0], NewValue(u, Slot(ev, path[0])))
    else Put(ev, path[0], Object(Write(ChildAt(ev, path[0]), path[1..], u)))
  }

  function WithLog(ev: Event, entry: LogEntry): Event {
    ev.(logEntries := ev.logEntries + [entry])
  }

  /** The event `i` objects down the path. */
  function Descended(ev: Event, path: Path, i: nat): Event
    requires i <= |path|
  {
    if i == 0 then ev else ChildAt(Descended(ev, path, i - 1), path[i - 1])
  }

  /** `parents` are the events above the last segment, each with its child made an object. */
  predicate Through(parents: seq<Event>, before: Event, path: Path)
    requires path != []
  {
    && |parents| == |path| - 1
    && forall j :: 0 <= j < |parents| ==>
         parents[j] == WithObject(Descended(before, path, j), path[j])
  }

  lemma DescendedZero(ev: Event, path: Path)
    ensures Descended(ev, path, 0) == ev
  {
  }

  /** One level of `Write`, in two steps: make the object, then put the written child back. */
  lemma WriteLevel(ev: Event, path: Path, i: nat, u: Update)
    requires i + 1 < |path|
    ensures var here := Descended(ev, path, i);
            var there := Descended(ev, path, i + 1);
            Write(here, path[i..], u)
            == WithObject(here, path[i]).(values :=
                 WithObject(here, path[i]).values[path[i] := Some(Object(Write(there, path[i + 1..], u)))])
  {
    assert path[i..][1..] == path[i + 1..];
  }

  lemma WithObjectSlot(ev: Event, k: Key)
    ensures k < |WithObject(ev, k).values|
    ensures WithObject(ev, k).values[k] == Some(Object(ChildAt(ev, k)))
  {
  }

  lemma TwoSegments(ev: Event, path: Path, u: Update)
    requires |path| == 2
    ensures path[0] < |WithObject(ev, path[0]).values|
    ensures Write(ev, path, u)
         == WithObject(ev, path[0]).(values := WithObject(ev, path[0]).values[
              path[0] := Some(Object(Write(ChildAt(ev, path[0]), [path[1]], u)))])
  {
    assert path[0..] == path && path[1..] == [path[1]];
    assert Descended(ev, path, 0) == ev;
    assert Descended(ev, path, 1) == ChildAt(ev, path[0]);
    WriteLevel(ev, path, 0, u);
  }

  /**
   The mutable event. A child event is owned by its slot, so a mutable borrow of a child is a
   `WideEvent` that holds the child while it is borrowed, and whose contents go back into the slot
   when the borrow ends.
   */
  class WideEvent {
    var values: seq<Option<Value>>
    var logEntries: seq<LogEntry>
    var presentCount: nat

    function Contents(): (ev: Event)
      reads this
    {
      Event(values, logEntries, presentCount)
    }

    constructor ()
      ensures Contents() == EMPTY
    {
      values, logEntries, presentCount := [], [], 0;
    }

    constructor Borrow(ev: Event)
      ensures Contents() == ev
    {
      values, logEntries, presentCount := ev.values, ev.logEntries, ev.presentCount;
    }

    method EnsureCapacity(idx: nat)
      modifies this`values
      ensures values == Resized(old(values), idx)
    {
      if idx >= |values| {
        values := values + seq(idx + 1 - |values|, _ => None);
      }
    }

    method Add(key: Key, value: Value)
      modifies this
      ensures Contents() == Write(old(Contents()), [key], Set(value))
    {
      EnsureCapacity(key);
      var prev := values[key].None?;
      values := values[key := Some(value)];
      if prev {
        presentCount := presentCount + 1;
      }
    }

    method Object(key: Key) returns (child: WideEvent)
      modifies this
      ensures fresh(child)
      ensures child.Contents() == ChildAt(old(Contents()), key)
      ensures Contents() == WithObject(old(Contents()), key)
    {
      EnsureCapacity(key);
      var prevWasNone := values[key].None?;
      var needsReplace := match values[key] case None => true case Some(v) => !v.Object?;
      if needsReplace {
        values := values[key := Some(Value.Object(EMPTY))];
        if prevWasNone {
          presentCount := presentCount + 1;
        }
      }
      child := new WideEvent.Borrow(values[key].value.ev);
    }

    /** The end of the borrow that `Object` or `DescendMut` began. */
    method Return(key: Key, child: WideEvent)
      requires key < |values| && child != this
      modifies this`values
      ensures values == old(values)[key := Some(Value.Object(child.Contents()))]
    {
      values := values[key := Some(Value.Object(child.Contents()))];
    }

    /**
     The innermost borrow of the path, with the contents of the events it was borrowed through.
     Until `EndBorrows` only the borrow is up to date.
     */
    method DescendMut(path: Path) returns (current: WideEvent, parents: seq<Event>)
      requires path != []
      modifies this
      ensures current == this || fresh(current)
      ensures |path| > 1 ==> current != this
      ensures current.Contents() == Descended(old(Contents()), path, |path| - 1)
      ensures Through(parents, old(Contents()), path)
    {
      hide WithObject, ChildAt;
      current, parents := this, [];
      var i := 0;
      while i < |path| - 1
        invariant 0 <= i < |path| && |parents| == i
        invariant (current == this && i == 0) || (fresh(current) && current != this)
        invariant current.Contents() == Descended(old(Contents()), path, i)
        invariant forall j :: 0 <= j < i ==>
          parents[j] == WithObject(Descended(old(Contents()), path, j), path[j])
      {
        var child := current.Object(path[i]);
        parents := parents + [current.Contents()];
        current := child;
        i := i + 1;
      }
    }

    /** Ends the borrows of a path, innermost first, putting each event back into its slot. */
    method EndBorrows(path: Path, parents: seq<Event>, target: WideEvent, ghost before: Event, ghost u: Update)
      requires path != [] && Through(parents, before, path)
      requires target.Contents() == Write(Descended(before, path, |path| - 1), path[|path| - 1..], u)
      modifies this
      ensures Contents() == Write(before, path, u)
    {
      hide WithObject, ChildAt, Write, Descended;
      var ev := target.Contents();
      var i := |path| - 1;
      while i > 0
        invariant 0 <= i < |path|
        invariant ev == Write(Descended(before, path, i), path[i..], u)
      {
        i := i - 1;
        WriteLevel(before, path, i, u);
        WithObjectSlot(Descended(before, path, i), path[i]);
        ev := parents[i].(values := parents[i].values[path[i] := Some(Value.Object(ev))]);
      }
      assert path[0..] == path;
      DescendedZero(before, path);
      values, logEntries, presentCount := ev.values, ev.logEntries, ev.presentCount;
    }

    method AddPath(path: Path, value: Value)
      requires path != []
      modifies this
      ensures Contents() == Write(old(Contents()), path, Set(value))
    {
      ghost var before := Contents();
      if |path| == 2 {
        var target := Object(path[0]);
        target.Add(path[1], value);
        TwoSegments(before, path, Set(value));
        Return(path[0], target);
        return;
      }
      if |path| == 1 {
        Add(path[0], value);
        assert path == [path[0]];
        return;
      }
      var target, parents := DescendMut(path);
      target.Add(path[|path| - 1], value);
      assert path[|path| - 1..] == [path[|path| - 1]];
      EndBorrows(path, parents, target, before, Set(value));
    }

    method Inc(key: Key)
      modifies this
      ensures Contents() == Write(old(Contents()), [key], Update.Inc)
    {
      EnsureCapacity(key);
      var prevNone := values[key].None?;
      var newVal := match values[key]
        case Some(U64(n)) => U64(WrapU64(n + 1))
        case Some(I64(n)) => I64(WrapI64(n + 1))
        case Some(_) => U64(1)
        case None => U64(1);
      values := values[key := Some(newVal)];
      if prevNone {
        presentCount := presentCount + 1;
      }
    }

    method Dec(key: Key)
      modifies this
      ensures Contents() == Write(old(Contents()), [key], Update.Dec)
    {
      EnsureCapacity(key);
      var prevNone := values[key].None?;
      var newVal := match values[key]
        case Some(U64(n)) => if n > 0 then U64(n - 1) else U64(0)
        case Some(I64(n)) => I64(WrapI64(n - 1))
        case Some(_) => I64(-1)
        case None => I64(-1);
      values := values[key := Some(newVal)];
      if prevNone {
        presentCount := presentCount + 1;
      }
    }

    method AddN(key: Key, n: i64)
      modifies this
      ensures Contents() == Write(old(Contents()), [key], Update.AddN(n))
    {
      EnsureCapacity(key);
      var prevNone := values[key].None?;
      var newVal := match values[key]
        case Some(U64(u)) => U64(SaturatingAddSigned(u, n))
        case Some(I64(i)) => I64(WrapI64(i + n))
        case Some(_) => if n >= 0 then U64(n) else I64(n)
        case None => if n >= 0 then U64(n) else I64(n);
      values := values[key := Some(newVal)];
      if prevNone {
        presentCount := presentCount + 1;
      }
    }

    method IncPath(path: Path)
      requires path != []
      modifies this
      ensures Contents() == Write(old(Contents()), path, Update.Inc)
    {
      ghost var before := Contents();
      if |path| == 2 {
        var target := Object(path[0]);
        target.Inc(path[1]);
        TwoSegments(before, path, Update.Inc);
        Return(path[0], target);
        return;
      }
      if |path| == 1 {
        Inc(path[0]);
        assert path == [path[0]];
        return;
      }
      var target, parents := DescendMut(path);
      target.Inc(path[|path| - 1]);
      assert path[|path| - 1..] == [path[|path| - 1]];
      EndBorrows(path, parents, target, before, Update.Inc);
    }

    method DecPath(path: Path)
      requires path != []
      modifies this
      ensures Contents() == Write(old(Contents()), path, Update.Dec)
    {
      ghost var before := Contents();
      if |path| == 2 {
        var target := Object(path[0]);
        target.Dec(path[1]);
        TwoSegments(before, path, Update.Dec);
        Return(path[0], target);
        return;
      }
      if |path| == 1 {
        Dec(path[0]);
        assert path == [path[0]];
        return;
      }
      var target, parents := DescendMut(path);
      target.Dec(path[|path| - 1]);
      assert path[|path| - 1..] == [path[|path| - 1]];
      EndBorrows(path, parents, target, before, Update.Dec);
    }

    method AddNPath(path: Path, n: i64)
      requires path != []
      modifies this
      ensures Contents() == Write(old(Contents()), path, Update.AddN(n))
    {
      ghost var before := Contents();
      if |path| == 2 {
        var target := Object(path[0]);
        target.AddN(path[1], n);
        TwoSegments(before, path, Update.AddN(n));
        Return(path[0], target);
        return;
      }
      if |path| == 1 {
        AddN(path[0], n);
        assert path == [path[0]];
        return;
      }
      var target, parents := DescendMut(path);
      target.AddN(path[|path| - 1], n);
      assert path[|path| - 1..] == [path[|path| - 1]];
      EndBorrows(path, parents, target, before, Update.AddN(n));
    }

    method AppendLogEntry(level: string, message: string)
      modifies this`logEntries
      ensures Contents() == WithLog(old(Contents()), LogEntry(level, Owned(message)))
    {
      logEntries := logEntries + [LogEntry(level, Owned(message))];
    }

    method AppendLogEntryStatic(level: string, message: string)
      modifies this`logEntries
      ensures Contents() == WithLog(old(Contents()), LogEntry(level, Static(message)))
    {
      logEntries := logEntries + [LogEntry(level, Static(message))];
    }
  }
}
