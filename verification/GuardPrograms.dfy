/** Drops in any order, and what whole programs emit. */
module GuardPrograms {
  import opened Wrappers
  import opened WideEvents
  import opened EventLaws
  import opened ScopedGuards
  import opened Guards
  import opened GuardRuns
  import opened GuardEmissions
  import opened GuardLogs

  // ---- Any order of drops ----

  /** Guards drop in any order at all. */
  predicate AnyOrder(steps: seq<Step>) {
    steps == [] ||
    var front, last := steps[..|steps| - 1], steps[|steps| - 1];
    AnyOrder(front) && WellTyped(last) && (last.Drop? ==> last.i < |Stack(front)|)
  }

  function LiveSchemas(live: seq<Guard>): seq<Schema> {
    seq(|live|, i requires 0 <= i < |live| => live[i].schema)
  }

  lemma WithoutCounts<T>(s: seq<T>, i: nat)
    requires i < |s|
    ensures multiset(s) == multiset(Without(s, i)) + multiset{s[i]}
  {
    OneBetween(s[..i], s[i], s[i + 1..]);
    assert s == s[..i] + [s[i]] + s[i + 1..];
  }

  lemma OneBetween<T>(a: seq<T>, x: T, b: seq<T>)
    ensures multiset(a + [x] + b) == multiset(a + b) + multiset{x}
  {
  }

  lemma HookGoes(hooks: seq<Schema>, k: Schema)
    ensures RemoveHook(hooks, k).1 <==> k in hooks
    ensures multiset(RemoveHook(hooks, k).0) == multiset(hooks) - multiset{k}
  {
    if LastIndex(hooks, k).Some? {
      WithoutCounts(hooks, LastIndex(hooks, k).value);
    }
  }

  /** In every run, the hooks are those of the live guards, so a drop always finds one to pop. */
  lemma {:induction false} HooksCountGuards(steps: seq<Step>)
    requires AnyOrder(steps)
    ensures AllTyped(steps) && |Exec(steps).live| == |Stack(steps)|
    ensures multiset(Exec(steps).hooks) == multiset(LiveSchemas(Exec(steps).live))
    ensures forall g :: g in Exec(steps).live ==> RemoveHook(Exec(steps).hooks, g.schema).1
  {
    hide Next, RemoveHook, LiveSchemas;
    if steps == [] {
      EmptySchemas();
    } else {
      var front, last := steps[..|steps| - 1], steps[|steps| - 1];
      HooksCountGuards(front);
      HooksStep(Exec(front), last);
    }
    HooksFound(Exec(steps));
  }

  lemma EmptySchemas()
    ensures LiveSchemas([]) == []
  {
  }

  lemma HooksFound(s: State)
    requires multiset(s.hooks) == multiset(LiveSchemas(s.live))
    ensures forall g :: g in s.live ==> RemoveHook(s.hooks, g.schema).1
  {
    forall g | g in s.live
      ensures RemoveHook(s.hooks, g.schema).1
    {
      var i :| 0 <= i < |s.live| && s.live[i] == g;
      assert LiveSchemas(s.live)[i] == g.schema;
      assert g.schema in multiset(LiveSchemas(s.live));
      HookGoes(s.hooks, g.schema);
    }
  }

  lemma HooksStep(s: State, step: Step)
    requires WellTyped(step) && multiset(s.hooks) == multiset(LiveSchemas(s.live))
    ensures multiset(Next(s, step).hooks) == multiset(LiveSchemas(Next(s, step).live))
    ensures |Next(s, step).live| ==
            if step.Build? then |s.live| + 1
            else if step.Drop? && step.i < |s.live| then |s.live| - 1
            else |s.live|
  {
    hide DropEvent, MutateAt, RemoveHook;
    match step {
      case Build(k, _) =>
        assert LiveSchemas(Next(s, step).live) == LiveSchemas(s.live) + [k];
      case Drop(i, _) =>
        if i < |s.live| {
          PopKeepsCount(s.hooks, s.live, i);
        }
      case _ =>
    }
  }

  lemma PopKeepsCount(hooks: seq<Schema>, live: seq<Guard>, i: nat)
    requires multiset(hooks) == multiset(LiveSchemas(live)) && i < |live|
    ensures multiset(RemoveHook(hooks, live[i].schema).0) == multiset(LiveSchemas(Without(live, i)))
  {
    hide RemoveHook, LiveSchemas, Without;
    HookGoes(hooks, live[i].schema);
    SchemasWithout(live, i);
    WithoutCounts(LiveSchemas(live), i);
  }

  lemma SchemasWithout(live: seq<Guard>, i: nat)
    requires i < |live|
    ensures |LiveSchemas(live)| == |live| && LiveSchemas(live)[i] == live[i].schema
    ensures LiveSchemas(Without(live, i)) == Without(LiveSchemas(live), i)
  {
  }

  // ---- Programs ----

  /**
   What a thread's code does, by scopes. A scope runs `setup` (the id function and the preset) before
   its guard is current, `body` under it, and `emit` (its emit closure) while it is dropped: after the
   cell and the hook are back, since Rust runs the `Drop` body before it drops the fields. `during` is
   the code that runs while the arguments of a formatted log call are rendered.
   */
  datatype Op =
    | Call(step: Step)
    | LogFmt(level: string, message: string, during: seq<Op>)
    | Scope(schema: Schema, initial: Event, setup: seq<Op>, body: seq<Op>, final: Final, emit: seq<Op>)

  predicate Written(ops: seq<Op>, depth: nat)
    decreases ops, 0
  {
    forall i :: 0 <= i < |ops| ==> WrittenOp(ops[i], depth)
  }

  predicate WrittenOp(op: Op, depth: nat)
    decreases op, 1
  {
    match op
    case Call(step) =>
      WellTyped(step) && !step.Build? && !step.Drop? && (step.ByGuard? ==> step.i < depth)
    case LogFmt(_, _, during) => Written(during, depth)
    case Scope(_, _, setup, body, final, emit) =>
      final.Valid() && Written(setup, depth) && Written(body, depth + 1) && Written(emit, depth)
  }

  /**
   The steps of a program under `depth` live guards. While a call renders its arguments the thread's
   format buffer is taken, and a formatted call made then is skipped.
   */
  function Flatten(ops: seq<Op>, depth: nat, rendering: bool): seq<Step>
    decreases ops, 0
  {
    if ops == [] then []
    else Flatten(ops[..|ops| - 1], depth, rendering) + FlattenOp(ops[|ops| - 1], depth, rendering)
  }

  function FlattenOp(op: Op, depth: nat, rendering: bool): seq<Step>
    decreases op, 1
  {
    match op
    case Call(step) => [step]
    case LogFmt(level, message, during) =>
      if rendering then [] else Flatten(during, depth, true) + [RootLog(level, message)]
    case Scope(k, initial, setup, body, final, emit) =>
      Flatten(setup, depth, rendering) + [Build(k, initial)] + Flatten(body, depth + 1, rendering)
      + [Drop(depth, final)] + Flatten(emit, depth, rendering)
  }

  lemma OrderlyCall(pre: seq<Step>, step: Step)
    requires Orderly(pre) && WellTyped(step) && !step.Build? && !step.Drop?
    requires step.ByGuard? ==> step.i < |Stack(pre)|
    ensures Orderly(pre + [step]) && Stack(pre + [step]) == Stack(pre)
  {
    assert (pre + [step])[..|pre|] == pre;
  }

  lemma OrderlyBuild(pre: seq<Step>, k: Schema, initial: Event)
    requires Orderly(pre)
    ensures Orderly(pre + [Build(k, initial)])
    ensures Stack(pre + [Build(k, initial)]) == Stack(pre) + [Frame(k, Builds(pre))]
  {
    assert (pre + [Build(k, initial)])[..|pre|] == pre;
  }

  /** The failing case: of two guards of one schema the outer one drops first, and the cell is lost. */
  lemma OutOfOrderWitness(k: Schema, outer: Event, inner: Event, f: Final)
    requires f.Valid()
    ensures var steps := [Build(k, outer), Build(k, inner)];
            && Orderly(steps) && AllTyped(steps) && Stack(steps) == [Frame(k, 0), Frame(k, 1)]
            && var s := Next(Exec(steps), Drop(0, f));
               !Agrees(s, [Frame(k, 1)]) && Cell(s, k) == None
  {
    hide Orderly, Stack, Exec, Next, Cell, Agrees, Saved;
    var stack := [Frame(k, 0), Frame(k, 1)];
    TwoBuilt(k, outer, inner);
    var steps := [Build(k, outer), Build(k, inner)];
    AlwaysAgrees(steps);
    OuterSaved(Exec(steps), k, f);
    assert stack[1].schema == stack[0].schema && Without(stack, 0) == [Frame(k, 1)];
    DropInOrderIff(steps, 0, f);
  }

  lemma TwoBuilt(k: Schema, outer: Event, inner: Event)
    ensures var steps := [Build(k, outer), Build(k, inner)];
            Orderly(steps) && Stack(steps) == [Frame(k, 0), Frame(k, 1)]
  {
    hide Orderly, Stack;
    var one := [Build(k, outer)];
    NothingRuns();
    OrderlyBuild([], k, outer);
    OrderlyBuild(one, k, inner);
    assert [] + one == one && one + [Build(k, inner)] == [Build(k, outer), Build(k, inner)];
    assert one[..0] == [] && Builds(one) == 1;
  }

  lemma OuterSaved(s: State, k: Schema, f: Final)
    requires f.Valid() && Agrees(s, [Frame(k, 0), Frame(k, 1)])
    ensures Cell(Next(s, Drop(0, f)), k) == None
  {
    hide DropEvent, RemoveHook;
    var stack := [Frame(k, 0), Frame(k, 1)];
    assert stack[..0] == [] && s.live[0].schema == stack[0].schema && s.live[0].prev == Innermost(stack[..0], k);
  }

  lemma OrderlyDropLast(pre: seq<Step>, f: Final)
    requires Orderly(pre) && Stack(pre) != [] && f.Valid()
    ensures var steps := pre + [Drop(|Stack(pre)| - 1, f)];
            Orderly(steps) && Stack(steps) == Stack(pre)[..|Stack(pre)| - 1]
  {
    var steps := pre + [Drop(|Stack(pre)| - 1, f)];
    assert steps[..|pre|] == pre;
  }

  /** Every program is an orderly run that leaves the stack as it found it. */
  lemma {:induction false} ProgramOrderly(pre: seq<Step>, ops: seq<Op>, rendering: bool)
    requires Orderly(pre) && Written(ops, |Stack(pre)|)
    ensures var steps := pre + Flatten(ops, |Stack(pre)|, rendering);
            Orderly(steps) && Stack(steps) == Stack(pre)
    decreases ops, 0
  {
    hide Orderly, Stack, FlattenOp, WrittenOp;
    var d := |Stack(pre)|;
    if ops == [] {
      assert pre + Flatten(ops, d, rendering) == pre;
    } else {
      var front, last := ops[..|ops| - 1], ops[|ops| - 1];
      ProgramOrderly(pre, front, rendering);
      var mid := pre + Flatten(front, d, rendering);
      OpOrderly(mid, last, rendering);
      assert pre + Flatten(ops, d, rendering) == mid + FlattenOp(last, d, rendering);
    }
  }

  lemma {:induction false} OpOrderly(pre: seq<Step>, op: Op, rendering: bool)
    requires Orderly(pre) && WrittenOp(op, |Stack(pre)|)
    ensures var steps := pre + FlattenOp(op, |Stack(pre)|, rendering);
            Orderly(steps) && Stack(steps) == Stack(pre)
    decreases op, 1
  {
    hide Orderly, Stack, Flatten, Written;
    var d := |Stack(pre)|;
    match op {
      case Call(step) => OrderlyCall(pre, step);
      case LogFmt(level, message, during) =>
        if rendering {
          assert pre + FlattenOp(op, d, rendering) == pre;
        } else {
          ProgramOrderly(pre, during, true);
          var mid := pre + Flatten(during, d, true);
          OrderlyCall(mid, RootLog(level, message));
          assert pre + FlattenOp(op, d, rendering) == mid + [RootLog(level, message)];
        }
      case Scope(k, initial, setup, body, final, emit) =>
        ProgramOrderly(pre, setup, rendering);
        var s1 := pre + Flatten(setup, d, rendering);
        OrderlyBuild(s1, k, initial);
        var s2 := s1 + [Build(k, initial)];
        ProgramOrderly(s2, body, rendering);
        var s3 := s2 + Flatten(body, d + 1, rendering);
        OrderlyDropLast(s3, final);
        var s4 := s3 + [Drop(d, final)];
        assert Stack(s4) == Stack(pre);
        ProgramOrderly(s4, emit, rendering);
        ScopeSteps(pre, op, d, rendering);
    }
  }

  /**
   Where the parts of a scope run: the body under the new guard, and both what runs before it and
   its emit closure under the enclosing guards.
   */
  lemma ScopeStacks(pre: seq<Step>, op: Op, rendering: bool)
    requires Orderly(pre) && op.Scope? && WrittenOp(op, |Stack(pre)|)
    ensures var d := |Stack(pre)|;
            var inside := pre + Flatten(op.setup, d, rendering) + [Build(op.schema, op.initial)];
            var after := inside + Flatten(op.body, d + 1, rendering) + [Drop(d, op.final)];
            && Stack(inside) == Stack(pre) + [Frame(op.schema, Builds(pre + Flatten(op.setup, d, rendering)))]
            && Stack(after) == Stack(pre)
            && Orderly(after + Flatten(op.emit, d, rendering))
            && pre + FlattenOp(op, d, rendering) == after + Flatten(op.emit, d, rendering)
  {
    hide Orderly, Stack, Flatten, Written, FlattenOp;
    var d := |Stack(pre)|;
    var s1 := pre + Flatten(op.setup, d, rendering);
    ProgramOrderly(pre, op.setup, rendering);
    OrderlyBuild(s1, op.schema, op.initial);
    var s2 := s1 + [Build(op.schema, op.initial)];
    ProgramOrderly(s2, op.body, rendering);
    var s3 := s2 + Flatten(op.body, d + 1, rendering);
    OrderlyDropLast(s3, op.final);
    var s4 := s3 + [Drop(d, op.final)];
    ProgramOrderly(s4, op.emit, rendering);
    ScopeSteps(pre, op, d, rendering);
  }

  lemma ScopeSteps(pre: seq<Step>, op: Op, d: nat, rendering: bool)
    requires op.Scope?
    ensures pre + FlattenOp(op, d, rendering)
         == pre + Flatten(op.setup, d, rendering) + [Build(op.schema, op.initial)]
            + Flatten(op.body, d + 1, rendering) + [Drop(d, op.final)] + Flatten(op.emit, d, rendering)
  {
    hide Flatten;
  }

  // ---- Formatted calls ----

  /** A program without its formatted calls, at any depth. */
  function Strip(ops: seq<Op>): seq<Op>
    decreases ops, 0
  {
    if ops == [] then [] else Strip(ops[..|ops| - 1]) + StripOp(ops[|ops| - 1])
  }

  function StripOp(op: Op): seq<Op>
    decreases op, 1
  {
    match op
    case Call(_) => [op]
    case LogFmt(_, _, _) => []
    case Scope(k, initial, setup, body, final, emit) =>
      [Scope(k, initial, Strip(setup), Strip(body), final, Strip(emit))]
  }

  predicate NoFormats(ops: seq<Op>)
    decreases ops, 0
  {
    forall i :: 0 <= i < |ops| ==> NoFormat(ops[i])
  }

  predicate NoFormat(op: Op)
    decreases op, 1
  {
    match op
    case Call(_) => true
    case LogFmt(_, _, _) => false
    case Scope(_, _, setup, body, _, emit) => NoFormats(setup) && NoFormats(body) && NoFormats(emit)
  }

  lemma {:induction false} StripClean(ops: seq<Op>)
    ensures NoFormats(Strip(ops))
    decreases ops, 0
  {
    if ops != [] {
      StripClean(ops[..|ops| - 1]);
      StripOpClean(ops[|ops| - 1]);
    }
  }

  lemma {:induction false} StripOpClean(op: Op)
    ensures NoFormats(StripOp(op))
    decreases op, 1
  {
    if op.Scope? {
      StripClean(op.setup);
      StripClean(op.body);
      StripClean(op.emit);
    }
  }

  lemma FlattenPush(ops: seq<Op>, op: Op, depth: nat, rendering: bool)
    ensures Flatten(ops + [op], depth, rendering) == Flatten(ops, depth, rendering) + FlattenOp(op, depth, rendering)
  {
    assert (ops + [op])[..|ops|] == ops;
  }

  /** While a call renders its arguments, a program does what it does without its formatted calls. */
  lemma {:induction false} StripFlatten(ops: seq<Op>, depth: nat, rendering: bool)
    ensures Flatten(Strip(ops), depth, rendering) == Flatten(ops, depth, true)
    decreases ops, 0
  {
    if ops != [] {
      hide FlattenOp;
      var front, last := ops[..|ops| - 1], ops[|ops| - 1];
      StripFlatten(front, depth, rendering);
      StripFlattenOp(last, depth, rendering);
      if last.LogFmt? {
        assert Strip(ops) == Strip(front);
      } else {
        FlattenPush(Strip(front), StripOp(last)[0], depth, rendering);
      }
    }
  }

  lemma {:induction false} StripFlattenOp(op: Op, depth: nat, rendering: bool)
    ensures if op.LogFmt? then FlattenOp(op, depth, true) == []
            else |StripOp(op)| == 1 && FlattenOp(StripOp(op)[0], depth, rendering) == FlattenOp(op, depth, true)
    decreases op, 1
  {
    hide Flatten, Strip;
    if op.Scope? {
      StripFlatten(op.setup, depth, rendering);
      StripFlatten(op.body, depth + 1, rendering);
      StripFlatten(op.emit, depth, rendering);
    }
  }

  lemma ReceivedPush(steps: seq<Step>, step: Step, id: EventId)
    ensures Received(steps + [step], id)
         == Received(steps, id) + if Owner(Stack(steps), step) == Some(id) then [MutationOf(step)] else []
  {
    assert (steps + [step])[..|steps|] == steps;
  }

  /**
   A formatted call: every guard receives what it would receive if the code rendering the arguments had
   no formatted calls of its own, and the innermost guard receives the formatted entry after that.
   */
  lemma FormattedCall(pre: seq<Step>, level: string, message: string, during: seq<Op>, id: EventId)
    requires Orderly(pre) && Written(during, |Stack(pre)|)
    ensures var d := |Stack(pre)|;
            var all := pre + FlattenOp(LogFmt(level, message, during), d, false);
            && NoFormats(Strip(during))
            && Orderly(all) && Stack(all) == Stack(pre)
            && Received(all, id)
               == Received(pre + Flatten(Strip(during), d, false), id)
                  + if d > 0 && Stack(pre)[d - 1].event == id then [Log(LogEntry(level, LogMsg.Owned(message)))]
                    else []
  {
    hide Orderly, Stack, Written, WrittenOp, Received, Strip, Flatten, NoFormats;
    var d, last := |Stack(pre)|, RootLog(level, message);
    var mid := pre + Flatten(during, d, true);
    StripClean(during);
    StripFlatten(during, d, false);
    ProgramOrderly(pre, during, true);
    OrderlyCall(mid, last);
    ReceivedPush(mid, last, id);
    assert pre + FlattenOp(LogFmt(level, message, during), d, false) == mid + [last];
  }

  /** The calls that the code makes itself on one guard, in order, formatted ones left out. */
  function DirectCalls(stack: seq<Frame>, ops: seq<Op>, id: EventId): seq<Mutation>
    requires forall i :: 0 <= i < |ops| ==> !ops[i].Scope?
    requires Written(ops, |stack|)
  {
    if ops == [] then [] else
    var last := ops[|ops| - 1];
    DirectCalls(stack, ops[..|ops| - 1], id)
    + if last.Call? && Owner(stack, last.step) == Some(id) then [MutationOf(last.step)] else []
  }

  lemma {:induction false} DirectReceived(pre: seq<Step>, ops: seq<Op>, id: EventId)
    requires Orderly(pre) && Written(ops, |Stack(pre)|) && forall i :: 0 <= i < |ops| ==> !ops[i].Scope?
    ensures Received(pre + Flatten(ops, |Stack(pre)|, true), id)
         == Received(pre, id) + DirectCalls(Stack(pre), ops, id)
  {
    hide Orderly, Stack, Received, Owner;
    var d := |Stack(pre)|;
    if ops == [] {
      assert pre + Flatten(ops, d, true) == pre;
    } else {
      var front, last := ops[..|ops| - 1], ops[|ops| - 1];
      DirectReceived(pre, front, id);
      ProgramOrderly(pre, front, true);
      var mid := pre + Flatten(front, d, true);
      assert pre + Flatten(ops, d, true) == mid + FlattenOp(last, d, true);
      if last.Call? {
        ReceivedPush(mid, last.step, id);
      } else {
        assert FlattenOp(last, d, true) == [] && mid + [] == mid;
      }
    }
  }

  /**
   In particular, when that code opens no scopes: each guard receives the direct calls made on it there,
   in order and formatted ones left out, and then the innermost guard the formatted entry.
   */
  lemma FormattedDirect(pre: seq<Step>, level: string, message: string, during: seq<Op>, id: EventId)
    requires Orderly(pre) && Written(during, |Stack(pre)|)
    requires forall i :: 0 <= i < |during| ==> !during[i].Scope?
    ensures var d := |Stack(pre)|;
            Received(pre + FlattenOp(LogFmt(level, message, during), d, false), id)
            == Received(pre, id) + DirectCalls(Stack(pre), during, id)
               + if d > 0 && Stack(pre)[d - 1].event == id then [Log(LogEntry(level, LogMsg.Owned(message)))]
                 else []
  {
    hide Orderly, Stack, Written, WrittenOp, Received, Strip, Flatten, NoFormats, DirectCalls;
    FormattedCall(pre, level, message, during, id);
    StripFlatten(during, |Stack(pre)|, false);
    DirectReceived(pre, during, id);
  }

  lemma {:induction false} SameCount(steps: seq<Step>)
    requires Orderly(steps)
    ensures |Stack(steps)| + |Drops(steps)| == Builds(steps)
  {
    if steps != [] {
      SameCount(steps[..|steps| - 1]);
    }
  }

  /**
   A whole program: no guard is left, each guard was emitted exactly once, and the log arrays of the
   emitted events hold each log call made under a guard of its own exactly once, and no other.
   */
  lemma ProgramConserves(ops: seq<Op>)
    requires Written(ops, 0)
    ensures var steps := Flatten(ops, 0, false);
            && Orderly(steps) && AllTyped(steps)
            && Exec(steps).live == [] && Exec(steps).hooks == []
            && (forall k :: Cell(Exec(steps), k) == None)
            && |Exec(steps).emitted| == Builds(steps)
            && (forall id: EventId :: id < Builds(steps) ==> Gone(Drops(steps), id) == 1)
            && KnownDrops(steps) && Exec(steps).emitted == Expected(steps, Drops(steps))
            && (forall e :: EmittedCount(Exec(steps).emitted, e)
                  == InitialCount(Initials(steps), e) + CountEntry(OwnedLogs(steps), e))
  {
    hide Orderly, Exec, Flatten, Written, Content, DropEvent, OwnedLogs, Builds, Drops, LiveContents, Gone,
      EmittedCount, InitialCount, CountEntry;
    assert Orderly([]) && Stack([]) == [] by { NothingRuns(); }
    ProgramOrderly([], ops, false);
    var steps := Flatten(ops, 0, false);
    assert [] + steps == steps;
    AlwaysAgrees(steps);
    EmissionsConserve(steps);
    SameCount(steps);
    forall e
      ensures EmittedCount(Exec(steps).emitted, e)
           == InitialCount(Initials(steps), e) + CountEntry(OwnedLogs(steps), e)
    {
      LogsConserved(steps, e);
    }
    forall id: EventId | id < Builds(steps)
      ensures Gone(Drops(steps), id) == 1
    {
      EachOnce(steps, id);
    }
  }

  lemma NothingRuns()
    ensures Orderly([]) && Stack([]) == []
  {
  }
}
