/** Every run of the guard machine: cells and hooks agree with the stack of live guards. */
module GuardRuns {
  import opened WideEvents
  import opened EventLaws
  import opened ScopedGuards
  import opened Guards

  // ---- Every run ----

  function Initials(steps: seq<Step>): (r: seq<Event>)
    ensures |r| == Builds(steps)
  {
    if steps == [] then [] else
    var last := steps[|steps| - 1];
    Initials(steps[..|steps| - 1]) + if last.Build? then [last.initial] else []
  }

  datatype Dropped = Dropped(event: EventId, final: Final)

  /** The guards dropped, in drop order. */
  function Drops(steps: seq<Step>): seq<Dropped>
    requires Orderly(steps)
  {
    if steps == [] then [] else
    var front, last := steps[..|steps| - 1], steps[|steps| - 1];
    Drops(front) + if last.Drop? then [Dropped(Stack(front)[last.i].event, last.final)] else []
  }

  /** How often a guard is on the stack or among the dropped ones. */
  function Times(stack: seq<Frame>, drops: seq<Dropped>, id: EventId): nat {
    OnStack(stack, id) + Gone(drops, id)
  }

  function OnStack(stack: seq<Frame>, id: EventId): nat {
    if stack == [] then 0
    else OnStack(stack[..|stack| - 1], id) + if stack[|stack| - 1].event == id then 1 else 0
  }

  function Gone(drops: seq<Dropped>, id: EventId): nat {
    if drops == [] then 0
    else Gone(drops[..|drops| - 1], id) + if drops[|drops| - 1].event == id then 1 else 0
  }

  lemma {:induction false} OnStackConcat(a: seq<Frame>, b: seq<Frame>, id: EventId)
    ensures OnStack(a + b, id) == OnStack(a, id) + OnStack(b, id)
  {
    if b == [] {
      assert a + b == a;
    } else {
      assert (a + b)[..|a + b| - 1] == a + b[..|b| - 1];
      OnStackConcat(a, b[..|b| - 1], id);
    }
  }

  lemma OnStackWithout(stack: seq<Frame>, i: nat, id: EventId)
    requires i < |stack|
    ensures OnStack(stack, id) == OnStack(Without(stack, i), id) + if stack[i].event == id then 1 else 0
  {
    assert stack == stack[..i] + ([stack[i]] + stack[i + 1..]);
    OnStackConcat(stack[..i], stack[i + 1..], id);
    OnStackConcat(stack[..i], [stack[i]] + stack[i + 1..], id);
    OnStackConcat([stack[i]], stack[i + 1..], id);
  }

  /** Every guard built is either live or dropped, and not both, and not twice. */
  lemma {:induction false} EachOnce(steps: seq<Step>, id: EventId)
    requires Orderly(steps)
    ensures Times(Stack(steps), Drops(steps), id) == if id < Builds(steps) then 1 else 0
  {
    if steps != [] {
      var front, last := steps[..|steps| - 1], steps[|steps| - 1];
      EachOnce(front, id);
      assert !last.Drop? ==> Drops(steps) == Drops(front);
      match last {
        case Build(k, _) =>
          OnStackConcat(Stack(front), [Frame(k, Builds(front))], id);
          assert OnStack([], id) == 0 && [Frame(k, Builds(front))][..0] == [];
        case Drop(i, f) =>
          OnStackWithout(Stack(front), i, id);
          var ds := Drops(steps);
          assert ds[..|ds| - 1] == Drops(front);
        case _ =>
      }
    }
  }

  lemma {:induction false} Present(stack: seq<Frame>, i: nat)
    requires i < |stack|
    ensures OnStack(stack, stack[i].event) > 0
  {
    if i < |stack| - 1 {
      Present(stack[..|stack| - 1], i);
    }
  }

  lemma {:induction false} PresentTwice(stack: seq<Frame>, i: nat, j: nat)
    requires i < j < |stack| && stack[i].event == stack[j].event
    ensures OnStack(stack, stack[i].event) > 1
  {
    if j < |stack| - 1 {
      PresentTwice(stack[..|stack| - 1], i, j);
    } else {
      Present(stack[..j], i);
    }
  }

  lemma {:induction false} PresentGone(drops: seq<Dropped>, i: nat)
    requires i < |drops|
    ensures Gone(drops, drops[i].event) > 0
  {
    if i < |drops| - 1 {
      PresentGone(drops[..|drops| - 1], i);
    }
  }

  /** Live guards are distinct and known. */
  lemma StackDistinct(steps: seq<Step>)
    requires Orderly(steps)
    ensures forall i :: 0 <= i < |Stack(steps)| ==> Stack(steps)[i].event < Builds(steps)
    ensures forall i, j :: 0 <= i < j < |Stack(steps)| ==> Stack(steps)[i].event != Stack(steps)[j].event
  {
    var stack := Stack(steps);
    forall i | 0 <= i < |stack|
      ensures stack[i].event < Builds(steps)
    {
      EachOnce(steps, stack[i].event);
      Present(stack, i);
    }
    forall i, j | 0 <= i < j < |stack|
      ensures stack[i].event != stack[j].event
    {
      EachOnce(steps, stack[i].event);
      if stack[i].event == stack[j].event {
        PresentTwice(stack, i, j);
      }
    }
  }

  /** A guard that is gone owns nothing any more. */
  lemma OwnerIsLive(steps: seq<Step>, step: Step)
    requires Orderly(steps) && Owner(Stack(steps), step).Some?
    ensures var id := Owner(Stack(steps), step).value;
            id < Builds(steps) && OnStack(Stack(steps), id) == 1 && Gone(Drops(steps), id) == 0
  {
    var stack := Stack(steps);
    var id := Owner(stack, step).value;
    EachOnce(steps, id);
    match step {
      case RootLog(_, _) => Present(stack, |stack| - 1);
      case ByCurrent(k, _) =>
        InnermostIsIn(stack, k);
        var i :| 0 <= i < |stack| && stack[i] == Frame(k, id);
        Present(stack, i);
      case ByGuard(i, _) => Present(stack, i);
    }
  }

  lemma StartAgrees()
    ensures Agrees(START, [])
  {
  }

  /** In every orderly run, cells and hooks agree with the stack after every step. */
  lemma {:induction false} AlwaysAgrees(steps: seq<Step>)
    requires Orderly(steps)
    ensures AllTyped(steps)
    ensures Agrees(Exec(steps), Stack(steps)) && |Exec(steps).events| == Builds(steps)
  {
    hide Innermost, MutateAt, DropEvent, RemoveHook;
    OrderlyIsTyped(steps);
    if steps == [] {
      StartAgrees();
    } else {
      var front, last := steps[..|steps| - 1], steps[|steps| - 1];
      AlwaysAgrees(front);
      assert Exec(steps) == Next(Exec(front), last);
      match last {
        case Build(k, initial) =>
          BuildAgrees(Exec(front), Stack(front), k, initial);
          assert Stack(steps) == Stack(front) + [Frame(k, |Exec(front).events|)];
        case Drop(i, f) =>
          DropAgrees(Exec(front), Stack(front), i, f);
          assert Stack(steps) == Without(Stack(front), i);
        case _ =>
          MutationAgrees(Exec(front), Stack(front), last);
          assert Stack(steps) == Stack(front);
      }
    }
  }

  lemma MutationAgrees(s: State, stack: seq<Frame>, step: Step)
    requires Agrees(s, stack) && WellTyped(step) && !step.Build? && !step.Drop?
    ensures Agrees(Next(s, step), stack) && |Next(s, step).events| == |s.events|
  {
    hide Innermost, Apply;
    assert forall k :: Cell(Next(s, step), k) == Cell(s, k);
  }

  /**
   A drop leaves cells and hooks in agreement with the remaining guards if and only if the dropped
   guard is the innermost of its schema.
   */
  lemma DropInOrderIff(steps: seq<Step>, i: nat, f: Final)
    requires Orderly(steps) && i < |Stack(steps)| && f.Valid()
    ensures AllTyped(steps)
    ensures Agrees(Next(Exec(steps), Drop(i, f)), Without(Stack(steps), i))
            <==> InnermostOfItsSchema(Stack(steps), i)
  {
    hide Agrees, DropStep;
    AlwaysAgrees(steps);
    StackDistinct(steps);
    if InnermostOfItsSchema(Stack(steps), i) {
      DropAgrees(Exec(steps), Stack(steps), i, f);
    } else {
      DropDisagrees(Exec(steps), Stack(steps), i, f);
    }
  }

  /** The cell gets back what was below the dropped guard, although a later one is still live. */
  lemma DropDisagrees(s: State, stack: seq<Frame>, i: nat, f: Final)
    requires Agrees(s, stack) && f.Valid() && i < |stack| && !InnermostOfItsSchema(stack, i)
    requires forall a, b :: 0 <= a < b < |stack| ==> stack[a].event != stack[b].event
    ensures !Agrees(Next(s, Drop(i, f)), Without(stack, i))
  {
    hide DropEvent, RemoveHook, Schemas;
    var s', k := Next(s, Drop(i, f)), stack[i].schema;
    assert Cell(s', k) == Innermost(stack[..i], k) by {
      assert s.live[i].prev == Innermost(stack[..i], k);
    }
    LaterIsInnermost(stack, i);
  }

  lemma LaterIsInnermost(stack: seq<Frame>, i: nat)
    requires i < |stack| && !InnermostOfItsSchema(stack, i)
    requires forall a, b :: 0 <= a < b < |stack| ==> stack[a].event != stack[b].event
    ensures Innermost(Without(stack, i), stack[i].schema) != Innermost(stack[..i], stack[i].schema)
  {
    var k, above := stack[i].schema, stack[i + 1..];
    var j :| i < j < |stack| && stack[j].schema == k;
    assert above[j - i - 1] == stack[j];
    InnermostConcat(stack[..i], above, k);
    InnermostNone(above, k);
    InnermostIsIn(above, k);
    if Innermost(stack[..i], k).Some? {
      InnermostIsIn(stack[..i], k);
    }
  }
}
