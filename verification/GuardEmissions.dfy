/** What the guards emit: what each began with, and exactly the calls that belonged to it. */
module GuardEmissions {
  import opened Wrappers
  import opened WideEvents
  import opened EventLaws
  import opened ScopedGuards
  import opened Guards
  import opened GuardRuns

  // ---- What is emitted ----

  lemma {:induction false} NothingBefore(steps: seq<Step>, id: EventId)
    requires Orderly(steps) && id >= Builds(steps)
    ensures Received(steps, id) == []
  {
    if steps != [] {
      var front, last := steps[..|steps| - 1], steps[|steps| - 1];
      NothingBefore(front, id);
      if Owner(Stack(front), last) == Some(id) {
        OwnerIsLive(front, last);
      }
    }
  }

  lemma {:induction false} ReceivedRuns(steps: seq<Step>, id: EventId)
    requires Orderly(steps)
    ensures Runnable(Received(steps, id))
  {
    if steps != [] {
      ReceivedRuns(steps[..|steps| - 1], id);
    }
  }

  /** What a guard has made of its event: what it started with, then the calls that belong to it. */
  function Content(steps: seq<Step>, id: EventId): Event
    requires Orderly(steps) && id < Builds(steps)
  {
    ReceivedRuns(steps, id);
    Run(Initials(steps)[id], Received(steps, id))
  }

  /** The emissions that a run should give, in drop order. */
  function Expected(steps: seq<Step>, drops: seq<Dropped>): seq<Emission>
    requires Orderly(steps)
    requires forall i :: 0 <= i < |drops| ==> drops[i].event < Builds(steps) && drops[i].final.Valid()
  {
    seq(|drops|, i requires 0 <= i < |drops| =>
      Emission(drops[i].event, DropEvent(Content(steps, drops[i].event), drops[i].final)))
  }

  predicate KnownDrops(steps: seq<Step>)
    requires Orderly(steps)
  {
    forall i :: 0 <= i < |Drops(steps)| ==>
      Drops(steps)[i].event < Builds(steps) && Drops(steps)[i].final.Valid()
  }

  lemma {:induction false} DropsKnown(steps: seq<Step>)
    requires Orderly(steps)
    ensures KnownDrops(steps)
  {
    if steps != [] {
      var front, last := steps[..|steps| - 1], steps[|steps| - 1];
      DropsKnown(front);
      StackDistinct(front);
    }
  }

  /** One more step leaves the content of a guard alone, unless it belongs to that guard. */
  lemma ContentStep(front: seq<Step>, last: Step, id: EventId)
    requires Orderly(front + [last]) && id < Builds(front)
    ensures Orderly(front) && id < Builds(front + [last])
    ensures Content(front + [last], id)
         == if Owner(Stack(front), last) == Some(id) then Apply(Content(front, id), MutationOf(last))
            else Content(front, id)
  {
    hide Apply, Owner, Stack;
    var steps := front + [last];
    assert steps[..|steps| - 1] == front;
    assert Initials(steps)[id] == Initials(front)[id];
    var r := Received(steps, id);
    if Owner(Stack(front), last) == Some(id) {
      assert r[..|r| - 1] == Received(front, id);
      ReceivedRuns(steps, id);
    } else {
      assert r == Received(front, id);
    }
  }

  /** The machine's events of live guards are their content. */
  predicate LiveContents(s: State, steps: seq<Step>)
    requires Orderly(steps)
  {
    |s.events| == Builds(steps) &&
    forall i :: 0 <= i < |Stack(steps)| ==>
      var id := Stack(steps)[i].event;
      id < Builds(steps) && s.events[id] == Content(steps, id)
  }

  /** The machine finds the owner of a call through its cells and hooks. */
  lemma CallReachesOwner(s: State, stack: seq<Frame>, step: Step)
    requires Agrees(s, stack) && WellTyped(step) && (step.RootLog? || step.ByCurrent? || step.ByGuard?)
    requires step.ByGuard? ==> step.i < |stack|
    requires Owner(stack, step).Some? ==> Owner(stack, step).value < |s.events|
    ensures Next(s, step) == s.(events := MutateAt(s.events, Owner(stack, step), MutationOf(step)))
  {
    hide Apply, Innermost;
    if step.RootLog? && stack != [] {
      TopIsInnermost(stack);
    }
  }

  lemma TopIsInnermost(stack: seq<Frame>)
    requires stack != []
    ensures Innermost(stack, stack[|stack| - 1].schema) == Some(stack[|stack| - 1].event)
  {
  }

  lemma BuildDelivers(front: seq<Step>, last: Step)
    requires Orderly(front + [last]) && last.Build? && Orderly(front)
    requires AllTyped(front) && LiveContents(Exec(front), front)
    requires Agrees(Exec(front), Stack(front))
    ensures AllTyped(front + [last]) && LiveContents(Exec(front + [last]), front + [last])
  {
    hide Innermost, Content, Agrees;
    var steps, n := front + [last], Builds(front);
    OrderlyIsTyped(steps);
    assert steps[..|steps| - 1] == front;
    NewContent(front, last);
    forall i | 0 <= i < |Stack(steps)|
      ensures var id := Stack(steps)[i].event;
              id < Builds(steps) && Exec(steps).events[id] == Content(steps, id)
    {
      if i < |Stack(front)| {
        ContentStep(front, last, Stack(front)[i].event);
      }
    }
  }

  lemma NewContent(front: seq<Step>, last: Step)
    requires Orderly(front + [last]) && last.Build? && Orderly(front)
    ensures Builds(front) < Builds(front + [last])
    ensures Content(front + [last], Builds(front)) == last.initial
  {
    var steps := front + [last];
    assert steps[..|steps| - 1] == front;
    NothingBefore(front, Builds(front));
    assert Received(steps, Builds(front)) == [];
  }

  lemma DropFinalises(s: State, stack: seq<Frame>, i: nat, f: Final)
    requires Agrees(s, stack) && f.Valid() && i < |stack| && stack[i].event < |s.events|
    ensures var id, s' := stack[i].event, Next(s, Drop(i, f));
            && s'.events == s.events[id := DropEvent(s.events[id], f)]
            && s'.emitted == s.emitted + [Emission(id, DropEvent(s.events[id], f))]
  {
    hide Innermost, DropEvent, RemoveHook, Schemas;
  }

  lemma DropDelivers(front: seq<Step>, last: Step)
    requires Orderly(front + [last]) && last.Drop? && Orderly(front)
    requires AllTyped(front) && LiveContents(Exec(front), front)
    requires Agrees(Exec(front), Stack(front))
    ensures AllTyped(front + [last]) && LiveContents(Exec(front + [last]), front + [last])
  {
    hide Innermost, Content, DropEvent, Next, Agrees;
    var steps := front + [last];
    OrderlyIsTyped(steps);
    assert steps[..|steps| - 1] == front;
    StackDistinct(front);
    DropFinalises(Exec(front), Stack(front), last.i, last.final);
    forall i | 0 <= i < |Stack(steps)|
      ensures var id := Stack(steps)[i].event;
              id < Builds(steps) && Exec(steps).events[id] == Content(steps, id)
    {
      var j := if i < last.i then i else i + 1;
      assert Stack(steps)[i] == Stack(front)[j];
      ContentStep(front, last, Stack(front)[j].event);
    }
  }

  lemma CallDelivers(front: seq<Step>, last: Step)
    requires Orderly(front + [last]) && !last.Build? && !last.Drop? && Orderly(front)
    requires AllTyped(front) && LiveContents(Exec(front), front)
    requires Agrees(Exec(front), Stack(front))
    ensures AllTyped(front + [last]) && LiveContents(Exec(front + [last]), front + [last])
    ensures Exec(front + [last]).emitted == Exec(front).emitted
  {
    hide Innermost, Content, Next, Apply, Owner, Agrees;
    var steps := front + [last];
    OrderlyIsTyped(steps);
    assert steps[..|steps| - 1] == front;
    if Owner(Stack(front), last).Some? {
      OwnerIsLive(front, last);
    }
    CallReachesOwner(Exec(front), Stack(front), last);
    forall i | 0 <= i < |Stack(steps)|
      ensures var id := Stack(steps)[i].event;
              id < Builds(steps) && Exec(steps).events[id] == Content(steps, id)
    {
      assert Stack(steps) == Stack(front);
      ContentStep(front, last, Stack(front)[i].event);
    }
  }

  lemma NothingLive()
    ensures LiveContents(START, [])
  {
  }

  /** Later steps do not reach an emitted event, and a drop emits its guard's content. */
  lemma EmittedStep(front: seq<Step>, last: Step)
    requires Orderly(front + [last]) && Orderly(front) && AllTyped(front) && AllTyped(front + [last])
    requires LiveContents(Exec(front), front) && Agrees(Exec(front), Stack(front))
    requires KnownDrops(front) && KnownDrops(front + [last])
    requires Exec(front).emitted == Expected(front, Drops(front))
    ensures Exec(front + [last]).emitted == Expected(front + [last], Drops(front + [last]))
  {
    hide Content, DropEvent, RemoveHook, Innermost;
    var steps := front + [last];
    assert steps[..|steps| - 1] == front;
    StackDistinct(front);
    forall i | 0 <= i < |Drops(steps)|
      ensures Exec(steps).emitted[i] == Expected(steps, Drops(steps))[i]
    {
      if i < |Drops(front)| {
        DroppedContent(front, last, i);
      } else {
        ContentStep(front, last, Stack(front)[last.i].event);
      }
    }
  }

  lemma DroppedContent(front: seq<Step>, last: Step, i: nat)
    requires Orderly(front + [last]) && Orderly(front) && KnownDrops(front) && i < |Drops(front)|
    ensures Drops(front)[i].event < Builds(front + [last])
    ensures Content(front + [last], Drops(front)[i].event) == Content(front, Drops(front)[i].event)
  {
    hide Content;
    PresentGone(Drops(front), i);
    if Owner(Stack(front), last).Some? {
      OwnerIsLive(front, last);
    }
    ContentStep(front, last, Drops(front)[i].event);
  }

  /**
   Conservation over every orderly run: each guard dropped is emitted once, in drop order, holding
   what it was built with and exactly the calls that belonged to it, in call order.
   */
  lemma {:induction false} EmissionsConserve(steps: seq<Step>)
    requires Orderly(steps)
    ensures AllTyped(steps) && LiveContents(Exec(steps), steps)
    ensures KnownDrops(steps) && Exec(steps).emitted == Expected(steps, Drops(steps))
  {
    hide LiveContents, Agrees, Next, Content, DropEvent, Stack;
    OrderlyIsTyped(steps);
    DropsKnown(steps);
    AlwaysAgrees(steps);
    if steps == [] {
      NothingLive();
    } else {
      var front, last := steps[..|steps| - 1], steps[|steps| - 1];
      assert steps == front + [last];
      EmissionsConserve(front);
      AlwaysAgrees(front);
      match last {
        case Build(_, _) => BuildDelivers(front, last);
        case Drop(_, _) => DropDelivers(front, last);
        case _ => CallDelivers(front, last);
      }
      EmittedStep(front, last);
    }
  }

  // ---- Log entries ----

  function LogsIn(ms: seq<Mutation>): seq<LogEntry> {
    if ms == [] then [] else
    LogsIn(ms[..|ms| - 1]) + if ms[|ms| - 1].Log? then [ms[|ms| - 1].entry] else []
  }

  lemma {:induction false} RunLogs(ev: Event, ms: seq<Mutation>)
    requires Runnable(ms)
    ensures Run(ev, ms).logEntries == ev.logEntries + LogsIn(ms)
  {
    if ms != [] {
      RunLogs(ev, ms[..|ms| - 1]);
    }
  }

  lemma DropKeepsLogs(ev: Event, f: Final)
    requires f.Valid()
    ensures DropEvent(ev, f).logEntries == ev.logEntries
  {
  }

  /** What a step logs, from its own fields. */
  function EntryOf(step: Step): seq<LogEntry> {
    match step
    case RootLog(level, message) => [LogEntry(level, LogMsg.Owned(message))]
    case ByCurrent(_, Log(entry)) => [entry]
    case ByGuard(_, Log(entry)) => [entry]
    case _ => []
  }

  /** The log calls that belong to a guard, in call order. */
  function LogCalls(steps: seq<Step>, id: EventId): seq<LogEntry> {
    if steps == [] then [] else
    var front, last := steps[..|steps| - 1], steps[|steps| - 1];
    LogCalls(front, id) + if Owner(Stack(front), last) == Some(id) then EntryOf(last) else []
  }

  lemma {:induction false} LogCallsReceived(steps: seq<Step>, id: EventId)
    ensures LogsIn(Received(steps, id)) == LogCalls(steps, id)
  {
    if steps != [] {
      hide Stack;
      var front, last := steps[..|steps| - 1], steps[|steps| - 1];
      LogCallsReceived(front, id);
      if Owner(Stack(front), last) == Some(id) {
        LogsInAppend(Received(front, id), MutationOf(last));
      } else {
        assert Received(steps, id) == Received(front, id);
      }
    }
  }

  lemma LogsInAppend(ms: seq<Mutation>, m: Mutation)
    ensures LogsIn(ms + [m]) == LogsIn(ms) + if m.Log? then [m.entry] else []
  {
    assert (ms + [m])[..|ms|] == ms;
  }

  /** The log array of every emitted event: the guard's own calls, in call order, and no others. */
  lemma EmittedLogs(steps: seq<Step>, j: nat)
    requires Orderly(steps) && j < |Drops(steps)|
    ensures AllTyped(steps) && j < |Exec(steps).emitted| && Drops(steps)[j].event < Builds(steps)
    ensures var e := Exec(steps).emitted[j];
            && e.event == Drops(steps)[j].event
            && e.content.logEntries == Initials(steps)[e.event].logEntries + LogCalls(steps, e.event)
  {
    hide DropEvent, Exec, Stack, LiveContents;
    EmissionsConserve(steps);
    var d := Drops(steps)[j];
    assert Exec(steps).emitted[j] == Expected(steps, Drops(steps))[j];
    ReceivedRuns(steps, d.event);
    RunLogs(Initials(steps)[d.event], Received(steps, d.event));
    LogCallsReceived(steps, d.event);
    DropKeepsLogs(Content(steps, d.event), d.final);
  }

  lemma {:induction false} LogCallsPrefix(steps: seq<Step>, n: nat, id: EventId)
    requires n <= |steps|
    ensures LogCalls(steps[..n], id) <= LogCalls(steps, id)
  {
    if n == |steps| {
      assert steps[..n] == steps;
    } else {
      LogCallsPrefix(steps[..|steps| - 1], n, id);
      assert steps[..|steps| - 1][..n] == steps[..n];
    }
  }

  /**
   A crate-root log call is in the event of the innermost guard, with its level as level and its message
   as message, behind what the event began with and what was logged to that guard before.
   */
  lemma RootCallPlaced(steps: seq<Step>, n: nat, level: string, message: string, j: nat)
    requires Orderly(steps) && n < |steps| && steps[n] == RootLog(level, message)
    requires var stack := Stack(steps[..n]);
             && stack != [] && j < |Drops(steps)|
             && Drops(steps)[j].event == stack[|stack| - 1].event
    ensures AllTyped(steps) && j < |Exec(steps).emitted|
    ensures var stack := Stack(steps[..n]);
            var id := stack[|stack| - 1].event;
            var logs := Exec(steps).emitted[j].content.logEntries;
            && id < Builds(steps)
            && var at := |Initials(steps)[id].logEntries| + |LogCalls(steps[..n], id)|;
               at < |logs| && logs[at] == LogEntry(level, LogMsg.Owned(message))
  {
    hide DropEvent, Exec, Stack, Drops, Initials, Orderly;
    EmittedLogs(steps, j);
    var stack := Stack(steps[..n]);
    var id := stack[|stack| - 1].event;
    assert steps[..n + 1][..n] == steps[..n];
    LogCallsPrefix(steps, n + 1, id);
    assert LogCalls(steps[..n + 1], id) == LogCalls(steps[..n], id) + [LogEntry(level, LogMsg.Owned(message))];
  }

  /** The calls that belong to a live guard. */
  function OwnedCalls(steps: seq<Step>): seq<Mutation> {
    if steps == [] then [] else
    var front, last := steps[..|steps| - 1], steps[|steps| - 1];
    OwnedCalls(front) + if Owner(Stack(front), last).Some? then [MutationOf(last)] else []
  }

  function Count(ms: seq<Mutation>, m: Mutation): nat {
    if ms == [] then 0 else Count(ms[..|ms| - 1], m) + if ms[|ms| - 1] == m then 1 else 0
  }

  /** How often a call is received by the first `n` guards together. */
  function ReceivedBy(steps: seq<Step>, n: nat, m: Mutation): nat {
    if n == 0 then 0 else ReceivedBy(steps, n - 1, m) + Count(Received(steps, n - 1), m)
  }

  lemma CountAppend(ms: seq<Mutation>, last: Mutation, m: Mutation)
    ensures Count(ms + [last], m) == Count(ms, m) + if last == m then 1 else 0
  {
    assert (ms + [last])[..|ms|] == ms;
  }

  lemma ReceivedStep(front: seq<Step>, last: Step, id: EventId, m: Mutation)
    ensures Count(Received(front + [last], id), m)
         == Count(Received(front, id), m)
            + if Owner(Stack(front), last) == Some(id) && MutationOf(last) == m then 1 else 0
  {
    hide Stack;
    assert (front + [last])[..|front|] == front;
    if Owner(Stack(front), last) == Some(id) {
      CountAppend(Received(front, id), MutationOf(last), m);
    } else {
      assert Received(front + [last], id) == Received(front, id);
    }
  }

  lemma {:induction false} ReceivedByStep(front: seq<Step>, last: Step, n: nat, m: Mutation)
    ensures ReceivedBy(front + [last], n, m)
         == ReceivedBy(front, n, m)
            + match Owner(Stack(front), last)
              case Some(id) => if id < n && MutationOf(last) == m then 1 else 0
              case None => 0
  {
    hide Owner, Stack, Received;
    if n > 0 {
      ReceivedByStep(front, last, n - 1, m);
      ReceivedStep(front, last, n - 1, m);
    }
  }

  lemma OwnedStep(front: seq<Step>, last: Step, m: Mutation)
    ensures Count(OwnedCalls(front + [last]), m)
         == Count(OwnedCalls(front), m)
            + if Owner(Stack(front), last).Some? && MutationOf(last) == m then 1 else 0
  {
    hide Stack;
    assert (front + [last])[..|front|] == front;
    if Owner(Stack(front), last).Some? {
      CountAppend(OwnedCalls(front), MutationOf(last), m);
    } else {
      assert OwnedCalls(front + [last]) == OwnedCalls(front);
    }
  }

  lemma OwnerIsBuilt(front: seq<Step>, last: Step)
    requires Orderly(front + [last]) && Orderly(front)
    ensures Owner(Stack(front), last).Some? ==> !last.Build? && Owner(Stack(front), last).value < Builds(front)
    ensures Builds(front + [last]) == Builds(front) + if last.Build? then 1 else 0
  {
    assert (front + [last])[..|front|] == front;
    if Owner(Stack(front), last).Some? {
      OwnerIsLive(front, last);
    }
  }

  /** Each call made under a guard of its own is received exactly once over all guards. */
  lemma {:induction false} CallsConserved(steps: seq<Step>, m: Mutation)
    requires Orderly(steps)
    ensures ReceivedBy(steps, Builds(steps), m) == Count(OwnedCalls(steps), m)
  {
    hide Owner, Stack, Builds, OwnedCalls, ReceivedBy, MutationOf;
    if steps == [] {
      NoCalls(m);
    } else {
      var front, last := steps[..|steps| - 1], steps[|steps| - 1];
      assert steps == front + [last];
      CallsConserved(front, m);
      ReceivedByStep(front, last, Builds(steps), m);
      OwnedStep(front, last, m);
      OwnerIsBuilt(front, last);
      NoneYet(front, m);
    }
  }

  lemma NoneYet(steps: seq<Step>, m: Mutation)
    requires Orderly(steps)
    ensures ReceivedBy(steps, Builds(steps) + 1, m) == ReceivedBy(steps, Builds(steps), m)
  {
    hide Received;
    NothingBefore(steps, Builds(steps));
  }

  lemma NoCalls(m: Mutation)
    ensures Builds([]) == 0 && ReceivedBy([], 0, m) == 0 && Count(OwnedCalls([]), m) == 0
  {
  }

  /** The log calls made under a guard of their own, in call order. */
  function OwnedLogs(steps: seq<Step>): seq<LogEntry> {
    if steps == [] then [] else
    var front, last := steps[..|steps| - 1], steps[|steps| - 1];
    OwnedLogs(front) + if Owner(Stack(front), last).Some? then EntryOf(last) else []
  }

  lemma {:induction false} OwnedLogsAreCalls(steps: seq<Step>)
    ensures LogsIn(OwnedCalls(steps)) == OwnedLogs(steps)
  {
    if steps != [] {
      hide Stack;
      var front, last := steps[..|steps| - 1], steps[|steps| - 1];
      OwnedLogsAreCalls(front);
      if Owner(Stack(front), last).Some? {
        LogsInAppend(OwnedCalls(front), MutationOf(last));
      } else {
        assert OwnedCalls(steps) == OwnedCalls(front);
      }
    }
  }
}
