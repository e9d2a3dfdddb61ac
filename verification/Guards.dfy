/**
 Nested guards on one thread. Each schema has a cell with a pointer to its current event, which a
 guard replaces when it is built and restores when it is dropped; all schemas share one stack of log
 hooks. The machine below has cells, hooks and events; what it should do is said with nothing but
 the stack of live guards.
 */
module Guards {
  import opened Wrappers
  import opened WideEvents
  import opened EventLaws
  import opened ScopedGuards

  /** A schema is told by its hook; an event by its place in the order of construction. */
  type Schema = nat
  type EventId = nat

  datatype Guard = Guard(schema: Schema, event: EventId, prev: Option<EventId>)

  datatype Emission = Emission(event: EventId, content: Event)

  datatype State = State(
    cells: map<Schema, Option<EventId>>, hooks: seq<Schema>,
    events: seq<Event>, live: seq<Guard>, emitted: seq<Emission>)

  const START: State := State(map[], [], [], [], [])

  /** `ContextCell::get_ptr` */
  function Cell(s: State, k: Schema): Option<EventId> {
    if k in s.cells then s.cells[k] else None
  }

  /** A step of the thread; a mutation is a field write or a log call on one event. */
  datatype Step =
    | Build(schema: Schema, initial: Event)
    | Drop(i: nat, final: Final)
    | RootLog(level: string, message: string)
    | ByCurrent(schema: Schema, m: Mutation)
    | ByGuard(i: nat, m: Mutation)

  predicate Runs(m: Mutation) { m.Update? ==> m.path != [] }

  predicate WellTyped(step: Step) {
    match step
    case Drop(_, final) => final.Valid()
    case ByCurrent(_, m) => Runs(m)
    case ByGuard(_, m) => Runs(m)
    case _ => true
  }

  // ---- The machine ----

  function LastIndex(hooks: seq<Schema>, k: Schema): (r: Option<nat>)
    ensures r.Some? ==> r.value < |hooks| && hooks[r.value] == k && k !in hooks[r.value + 1..]
    ensures r.None? ==> k !in hooks
  {
    if hooks == [] then None
    else if hooks[|hooks| - 1] == k then Some(|hooks| - 1)
    else
      var r := LastIndex(hooks[..|hooks| - 1], k);
      assert hooks == hooks[..|hooks| - 1] + [hooks[|hooks| - 1]];
      r
  }

  function Without<T>(s: seq<T>, i: nat): seq<T>
    requires i < |s|
  {
    s[..i] + s[i + 1..]
  }

  /** `remove_hook`: the last occurrence goes, if there is one. */
  function RemoveHook(hooks: seq<Schema>, k: Schema): (seq<Schema>, bool) {
    match LastIndex(hooks, k)
    case Some(p) => (Without(hooks, p), true)
    case None => (hooks, false)
  }

  /** A mutation through a pointer. Every pointer names an event built before. */
  function MutateAt(events: seq<Event>, at: Option<EventId>, m: Mutation): seq<Event>
    requires Runs(m)
  {
    if at.Some? && at.value < |events| then events[at.value := Apply(events[at.value], m)] else events
  }

  function RootEntry(level: string, message: string): Mutation { Log(LogEntry(level, LogMsg.Owned(message))) }

  /** The `Drop` body of the guard first, then the drop of the guard it owns. */
  function DropStep(s: State, i: nat, f: Final): State
    requires f.Valid()
  {
    if i >= |s.live| then s else
    var g := s.live[i];
    var unwound := s.(cells := s.cells[g.schema := g.prev],
                      hooks := RemoveHook(s.hooks, g.schema).0,
                      live := Without(s.live, i));
    if g.event >= |s.events| then unwound else
    var content := DropEvent(s.events[g.event], f);
    unwound.(events := s.events[g.event := content],
             emitted := s.emitted + [Emission(g.event, content)])
  }

  function Next(s: State, step: Step): State
    requires WellTyped(step)
  {
    match step
    case Build(k, initial) =>
      var ptr := |s.events|;
      s.(events := s.events + [initial],
         cells := s.cells[k := Some(ptr)],
         hooks := s.hooks + [k],
         live := s.live + [Guard(k, ptr, Cell(s, k))])
    case Drop(i, f) => DropStep(s, i, f)
    case RootLog(level, message) =>
      if s.hooks == [] then s
      else s.(events := MutateAt(s.events, Cell(s, s.hooks[|s.hooks| - 1]), RootEntry(level, message)))
    case ByCurrent(k, m) => s.(events := MutateAt(s.events, Cell(s, k), m))
    case ByGuard(i, m) =>
      if i < |s.live| then s.(events := MutateAt(s.events, Some(s.live[i].event), m)) else s
  }

  predicate AllTyped(steps: seq<Step>) { forall i :: 0 <= i < |steps| ==> WellTyped(steps[i]) }

  function Exec(steps: seq<Step>): State
    requires AllTyped(steps)
  {
    if steps == [] then START else Next(Exec(steps[..|steps| - 1]), steps[|steps| - 1])
  }

  // ---- The stack of live guards ----

  datatype Frame = Frame(schema: Schema, event: EventId)

  function Builds(steps: seq<Step>): nat {
    if steps == [] then 0
    else Builds(steps[..|steps| - 1]) + if steps[|steps| - 1].Build? then 1 else 0
  }

  function Stack(steps: seq<Step>): seq<Frame> {
    if steps == [] then [] else
    var front := Stack(steps[..|steps| - 1]);
    match steps[|steps| - 1]
    case Build(k, _) => front + [Frame(k, Builds(steps[..|steps| - 1]))]
    case Drop(i, _) => if i < |front| then Without(front, i) else front
    case _ => front
  }

  /** The innermost live guard of a schema. */
  function Innermost(stack: seq<Frame>, k: Schema): Option<EventId> {
    if stack == [] then None
    else if stack[|stack| - 1].schema == k then Some(stack[|stack| - 1].event)
    else Innermost(stack[..|stack| - 1], k)
  }

  /** The guard to which a call belongs. */
  function Owner(stack: seq<Frame>, step: Step): Option<EventId> {
    match step
    case RootLog(_, _) => if stack == [] then None else Some(stack[|stack| - 1].event)
    case ByCurrent(k, _) => Innermost(stack, k)
    case ByGuard(i, _) => if i < |stack| then Some(stack[i].event) else None
    case _ => None
  }

  function MutationOf(step: Step): Mutation
    requires step.RootLog? || step.ByCurrent? || step.ByGuard?
  {
    if step.RootLog? then RootEntry(step.level, step.message) else step.m
  }

  /** The calls that belong to a guard, in call order. */
  function Received(steps: seq<Step>, id: EventId): seq<Mutation> {
    if steps == [] then [] else
    var front := steps[..|steps| - 1];
    Received(front, id)
    + if Owner(Stack(front), steps[|steps| - 1]) == Some(id) then [MutationOf(steps[|steps| - 1])] else []
  }

  /** No later guard of the same schema is live. */
  predicate InnermostOfItsSchema(stack: seq<Frame>, i: nat) {
    i < |stack| && forall j :: i < j < |stack| ==> stack[j].schema != stack[i].schema
  }

  /** Guards drop in any order across schemas, and last in first out within a schema. */
  predicate Orderly(steps: seq<Step>) {
    steps == [] ||
    var front, last := steps[..|steps| - 1], steps[|steps| - 1];
    && Orderly(front)
    && WellTyped(last)
    && (last.Drop? ==> InnermostOfItsSchema(Stack(front), last.i))
    && (last.ByGuard? ==> last.i < |Stack(front)|)
  }

  lemma {:induction false} OrderlyIsTyped(steps: seq<Step>)
    requires Orderly(steps)
    ensures AllTyped(steps)
  {
    if steps != [] {
      OrderlyIsTyped(steps[..|steps| - 1]);
    }
  }

  // ---- Cells and hooks agree with the stack ----

  /** The live guards are the stack, and each saved the cell as it was below it. */
  predicate Saved(live: seq<Guard>, stack: seq<Frame>) {
    && |live| == |stack|
    && forall i :: 0 <= i < |stack| ==>
         && live[i].schema == stack[i].schema && live[i].event == stack[i].event
         && live[i].prev == Innermost(stack[..i], stack[i].schema)
  }

  function Schemas(stack: seq<Frame>): seq<Schema> {
    seq(|stack|, i requires 0 <= i < |stack| => stack[i].schema)
  }

  /** Each cell points to the innermost live guard of its schema, and the hooks are the stack. */
  ghost predicate Agrees(s: State, stack: seq<Frame>) {
    && Saved(s.live, stack)
    && s.hooks == Schemas(stack)
    && forall k :: Cell(s, k) == Innermost(stack, k)
  }

  lemma {:induction false} InnermostConcat(a: seq<Frame>, b: seq<Frame>, k: Schema)
    ensures Innermost(a + b, k) == if Innermost(b, k).Some? then Innermost(b, k) else Innermost(a, k)
  {
    if b == [] {
      assert a + b == a;
    } else {
      assert (a + b)[..|a + b| - 1] == a + b[..|b| - 1];
      InnermostConcat(a, b[..|b| - 1], k);
    }
  }

  lemma {:induction false} InnermostNone(stack: seq<Frame>, k: Schema)
    ensures Innermost(stack, k).None? <==> forall i :: 0 <= i < |stack| ==> stack[i].schema != k
  {
    if stack != [] {
      var front := stack[..|stack| - 1];
      InnermostNone(front, k);
      assert forall i :: 0 <= i < |front| ==> front[i] == stack[i];
    }
  }

  /** Dropping the innermost guard of a schema uncovers the one below it, for that schema only. */
  lemma InnermostWithout(stack: seq<Frame>, i: nat, k: Schema)
    requires InnermostOfItsSchema(stack, i)
    ensures Innermost(Without(stack, i), k)
         == if k == stack[i].schema then Innermost(stack[..i], k) else Innermost(stack, k)
  {
    var above := stack[i + 1..];
    assert stack == stack[..i] + ([stack[i]] + above);
    InnermostConcat(stack[..i], above, k);
    InnermostConcat(stack[..i], [stack[i]] + above, k);
    InnermostConcat([stack[i]], above, k);
    InnermostNone(above, stack[i].schema);
    InnermostNone([stack[i]], k);
  }

  lemma SavedWithout(live: seq<Guard>, stack: seq<Frame>, i: nat)
    requires Saved(live, stack) && InnermostOfItsSchema(stack, i)
    ensures Saved(Without(live, i), Without(stack, i))
  {
    hide Innermost;
    var live', stack' := Without(live, i), Without(stack, i);
    forall j | 0 <= j < |stack'|
      ensures live'[j].prev == Innermost(stack'[..j], stack'[j].schema)
      ensures live'[j].schema == stack'[j].schema && live'[j].event == stack'[j].event
    {
      if j < i {
        assert stack'[..j] == stack[..j];
      } else {
        assert stack'[..j] == Without(stack[..j + 1], i);
        InnermostWithout(stack[..j + 1], i, stack[j + 1].schema);
      }
    }
  }

  lemma {:induction false} LastIndexIs(hooks: seq<Schema>, i: nat)
    requires i < |hooks| && forall j :: i < j < |hooks| ==> hooks[j] != hooks[i]
    ensures LastIndex(hooks, hooks[i]) == Some(i)
  {
    if i < |hooks| - 1 {
      LastIndexIs(hooks[..|hooks| - 1], i);
    }
  }

  lemma RemoveHookAt(stack: seq<Frame>, i: nat)
    requires InnermostOfItsSchema(stack, i)
    ensures RemoveHook(Schemas(stack), stack[i].schema) == (Schemas(Without(stack, i)), true)
  {
    LastIndexIs(Schemas(stack), i);
    assert Without(Schemas(stack), i) == Schemas(Without(stack, i));
  }

  lemma InnermostPush(stack: seq<Frame>, f: Frame, k: Schema)
    ensures Innermost(stack + [f], k) == if f.schema == k then Some(f.event) else Innermost(stack, k)
  {
    assert (stack + [f])[..|stack|] == stack;
  }

  lemma SavedPush(live: seq<Guard>, stack: seq<Frame>, g: Guard)
    requires Saved(live, stack) && g.prev == Innermost(stack, g.schema)
    ensures Saved(live + [g], stack + [Frame(g.schema, g.event)])
  {
    hide Innermost;
    var stack' := stack + [Frame(g.schema, g.event)];
    assert forall i :: 0 <= i <= |stack| ==> stack'[..i] == stack[..i];
  }

  /** Building a guard keeps the agreement. */
  lemma BuildAgrees(s: State, stack: seq<Frame>, k: Schema, initial: Event)
    requires Agrees(s, stack)
    ensures Agrees(Next(s, Build(k, initial)), stack + [Frame(k, |s.events|)])
  {
    hide Innermost, Saved, DropStep;
    var s', f := Next(s, Build(k, initial)), Frame(k, |s.events|);
    SavedPush(s.live, stack, Guard(k, |s.events|, Cell(s, k)));
    assert Schemas(stack + [f]) == Schemas(stack) + [k];
    forall j
      ensures Cell(s', j) == Innermost(stack + [f], j)
    {
      InnermostPush(stack, f, j);
      assert Cell(s, j) == Innermost(stack, j);
    }
  }

  lemma DropAgrees(s: State, stack: seq<Frame>, i: nat, f: Final)
    requires Agrees(s, stack) && f.Valid() && InnermostOfItsSchema(stack, i)
    ensures Agrees(Next(s, Drop(i, f)), Without(stack, i))
  {
    hide Innermost, DropEvent, RemoveHook, Without, Schemas;
    var s', stack' := Next(s, Drop(i, f)), Without(stack, i);
    SavedWithout(s.live, stack, i);
    RemoveHookAt(stack, i);
    forall k
      ensures Cell(s', k) == Innermost(stack', k)
    {
      InnermostWithout(stack, i, k);
      assert Cell(s, k) == Innermost(stack, k);
    }
  }

  lemma {:induction false} InnermostIsIn(stack: seq<Frame>, k: Schema)
    requires Innermost(stack, k).Some?
    ensures exists i :: 0 <= i < |stack| && stack[i] == Frame(k, Innermost(stack, k).value)
  {
    var n := |stack| - 1;
    if stack[n].schema != k {
      InnermostIsIn(stack[..n], k);
      var i :| 0 <= i < n && stack[..n][i] == Frame(k, Innermost(stack[..n], k).value);
      assert stack[i] == Frame(k, Innermost(stack, k).value);
    }
  }
}
