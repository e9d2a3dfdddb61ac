/** The objects behind the guard machine: the pointer cell, the hook registry, and a thread with both. */
module GuardObjects {
  import opened Wrappers
  import opened WideEvents
  import opened EventLaws
  import opened ScopedGuards
  import opened Guards
  import opened GuardEmissions

  /** The innermost hook's cell points to the innermost guard's event. */
  lemma TopOfHooks(s: State, stack: seq<Frame>)
    requires Agrees(s, stack) && stack != []
    ensures s.hooks != [] && Cell(s, s.hooks[|s.hooks| - 1]) == Some(stack[|stack| - 1].event)
  {
    TopIsInnermost(stack);
  }

  /** A thread-local cell with the pointer to the current event of one schema. */
  class ContextCell {
    var ptr: Option<EventId>

    constructor ()
      ensures ptr == None
    {
      ptr := None;
    }

    method GetPtr() returns (p: Option<EventId>)
      ensures p == ptr
    {
      p := ptr;
    }

    method Replace(p: Option<EventId>) returns (prev: Option<EventId>)
      modifies this
      ensures ptr == p && prev == old(ptr)
    {
      prev := ptr;
      ptr := p;
    }

    method Restore(p: Option<EventId>)
      modifies this
      ensures ptr == p
    {
      ptr := p;
    }
  }

  /** The thread's stack of log hooks. */
  class HookRegistry {
    var hooks: seq<Schema>

    constructor ()
      ensures hooks == []
    {
      hooks := [];
    }

    method PushLogHook(k: Schema)
      modifies this
      ensures hooks == old(hooks) + [k]
    {
      hooks := hooks + [k];
    }

    /** `rposition`: the search runs from the innermost hook outwards. */
    method Position(k: Schema) returns (r: Option<nat>)
      ensures r == LastIndex(hooks, k)
    {
      var i := |hooks|;
      assert hooks[..i] == hooks;
      while i > 0
        invariant 0 <= i <= |hooks|
        invariant LastIndex(hooks[..i], k) == LastIndex(hooks, k)
      {
        i := i - 1;
        if hooks[i] == k {
          return Some(i);
        }
        assert hooks[..i + 1][..i] == hooks[..i];
      }
      return None;
    }

    method Remove(k: Schema) returns (removed: bool)
      modifies this
      ensures (hooks, removed) == RemoveHook(old(hooks), k)
    {
      var position := Position(k);
      match position {
        case Some(p) =>
          hooks := hooks[..p] + hooks[p + 1..];
          removed := true;
        case None =>
          removed := false;
      }
    }

    /** The innermost hook, copied out of the stack before it is called. */
    method Last() returns (k: Option<Schema>)
      ensures k == if hooks == [] then None else Some(hooks[|hooks| - 1])
    {
      if |hooks| == 0 {
        return None;
      }
      return Some(hooks[|hooks| - 1]);
    }
  }

  /**
   One thread: a cell for each schema, the hook registry, the guards that are live on it and the
   events they own.
   */
  class Thread {
    const cells: map<Schema, ContextCell>
    const registry: HookRegistry
    var events: seq<Event>
    var live: seq<Guard>
    var emitted: seq<Emission>

    ghost predicate Valid()
    {
      forall j, k :: j in cells && k in cells && j != k ==> cells[j] != cells[k]
    }

    ghost function Footprint(): set<object>
    {
      cells.Values + {this, registry}
    }

    ghost function View(): State
      reads Footprint()
    {
      State(map k | k in cells :: cells[k].ptr, registry.hooks, events, live, emitted)
    }

    constructor (cells: map<Schema, ContextCell>)
      requires forall j, k :: j in cells && k in cells && j != k ==> cells[j] != cells[k]
      requires forall k :: k in cells ==> cells[k].ptr == None
      ensures Valid() && this.cells == cells && fresh(registry)
      ensures forall k :: Cell(View(), k) == None
      ensures View() == START.(cells := View().cells)
    {
      this.cells := cells;
      registry := new HookRegistry();
      events, live, emitted := [], [], [];
    }

    /** `build`, from the point where the new event is set up. */
    method Build(k: Schema, initial: Event)
      requires Valid() && k in cells
      modifies cells[k], registry, this
      ensures Valid() && View() == Next(old(View()), Step.Build(k, initial))
    {
      var ptr := |events|;
      events := events + [initial];
      var prev := cells[k].Replace(Some(ptr));
      registry.PushLogHook(k);
      live := live + [Guard(k, ptr, prev)];
      assert View().cells == old(View()).cells[k := Some(ptr)];
    }

    method AtPtr(at: Option<EventId>, m: Mutation)
      requires Valid() && Runs(m)
      modifies this`events
      ensures Valid() && events == MutateAt(old(events), at, m)
    {
      if at.Some? && at.value < |events| {
        events := events[at.value := Apply(events[at.value], m)];
      }
    }

    /** A call on `current()` of a schema. */
    method ByCurrent(k: Schema, m: Mutation)
      requires Valid() && k in cells && Runs(m)
      modifies this`events
      ensures Valid() && View() == Next(old(View()), Step.ByCurrent(k, m))
    {
      var ptr := cells[k].GetPtr();
      AtPtr(ptr, m);
    }

    method ByGuard(i: nat, m: Mutation)
      requires Valid() && i < |live| && Runs(m)
      modifies this`events
      ensures Valid() && View() == Next(old(View()), Step.ByGuard(i, m))
    {
      AtPtr(Some(live[i].event), m);
    }

    /** `append_log_entry` of the crate root. */
    method AppendLogEntry(level: string, message: string)
      requires Valid() && forall k :: k in registry.hooks ==> k in cells
      modifies this`events
      ensures Valid() && View() == Next(old(View()), RootLog(level, message))
      ensures forall stack: seq<Frame> :: stack != [] && Agrees(old(View()), stack) ==>
        var id := stack[|stack| - 1].event;
        id < |events| ==>
          && events == old(events)[id := events[id]]
          && events[id].logEntries == old(events)[id].logEntries + [LogEntry(level, LogMsg.Owned(message))]
          && events[id].values == old(events)[id].values && events[id].presentCount == old(events)[id].presentCount
    {
      hide Agrees, Saved, Innermost;
      var hook := registry.Last();
      if hook.Some? {
        var ptr := cells[hook.value].GetPtr();
        AtPtr(ptr, RootEntry(level, message));
      }
      forall stack: seq<Frame> | stack != [] && Agrees(old(View()), stack)
        ensures hook.Some? && Cell(old(View()), hook.value) == Some(stack[|stack| - 1].event)
      {
        TopOfHooks(old(View()), stack);
      }
    }

    /** The drop of the guard inside: its event is finalised and emitted once. */
    static method DropInner(ev: Event, f: Final) returns (emission: Event)
      requires f.Valid()
      ensures emission == DropEvent(ev, f)
    {
      var inner := new ScopedGuard();
      inner.event := new WideEvent.Borrow(ev);
      inner.Drop(f);
      emission := inner.emitted[0];
    }

    /** The guard's `Drop` body, then the drop of the guard inside. */
    method Drop(i: nat, f: Final)
      requires Valid() && f.Valid() && i < |live| && live[i].schema in cells && live[i].event < |events|
      modifies cells[live[i].schema], registry, this
      ensures Valid() && View() == Next(old(View()), Step.Drop(i, f))
    {
      var g := live[i];
      live := live[..i] + live[i + 1..];
      cells[g.schema].Restore(g.prev);
      var _ := registry.Remove(g.schema);
      var content := DropInner(events[g.event], f);
      events := events[g.event := content];
      emitted := emitted + [Emission(g.event, content)];
      assert View().cells == old(View()).cells[g.schema := g.prev];
    }
  }
}
