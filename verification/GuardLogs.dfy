/** The log entries of the emitted events, counted. */
module GuardLogs {
  import opened WideEvents
  import opened EventLaws
  import opened Guards
  import opened GuardRuns
  import opened GuardEmissions

  // ---- The log entries of the emitted events ----

  function CountEntry(entries: seq<LogEntry>, e: LogEntry): nat {
    if entries == [] then 0
    else CountEntry(entries[..|entries| - 1], e) + if entries[|entries| - 1] == e then 1 else 0
  }

  lemma {:induction false} CountEntryConcat(a: seq<LogEntry>, b: seq<LogEntry>, e: LogEntry)
    ensures CountEntry(a + b, e) == CountEntry(a, e) + CountEntry(b, e)
  {
    if b == [] {
      assert a + b == a;
    } else {
      assert (a + b)[..|a + b| - 1] == a + b[..|b| - 1];
      CountEntryConcat(a, b[..|b| - 1], e);
    }
  }

  lemma {:induction false} CountLogs(ms: seq<Mutation>, e: LogEntry)
    ensures CountEntry(LogsIn(ms), e) == Count(ms, Log(e))
  {
    if ms != [] {
      var front, last := ms[..|ms| - 1], ms[|ms| - 1];
      CountLogs(front, e);
      if last.Log? {
        assert LogsIn(ms)[..|LogsIn(ms)| - 1] == LogsIn(front);
      } else {
        assert LogsIn(ms) == LogsIn(front);
      }
    }
  }

  /** How often an entry is in the log arrays of the emitted events. */
  function EmittedCount(emitted: seq<Emission>, e: LogEntry): nat {
    if emitted == [] then 0
    else EmittedCount(emitted[..|emitted| - 1], e) + CountEntry(emitted[|emitted| - 1].content.logEntries, e)
  }

  /** How often the events had it before any call. */
  function InitialCount(initials: seq<Event>, e: LogEntry): nat {
    if initials == [] then 0
    else InitialCount(initials[..|initials| - 1], e) + CountEntry(initials[|initials| - 1].logEntries, e)
  }

  /** Sums of numbers given per guard, over the dropped guards and over the first ones built. */
  function SumDropped(drops: seq<Dropped>, c: seq<nat>): nat
    requires forall i :: 0 <= i < |drops| ==> drops[i].event < |c|
  {
    if drops == [] then 0 else SumDropped(drops[..|drops| - 1], c) + c[drops[|drops| - 1].event]
  }

  function SumFirst(drops: seq<Dropped>, c: seq<nat>, n: nat): nat
    requires n <= |c|
  {
    if n == 0 then 0 else SumFirst(drops, c, n - 1) + Gone(drops, n - 1) * c[n - 1]
  }

  lemma {:induction false} SumFirstStep(drops: seq<Dropped>, c: seq<nat>, n: nat)
    requires n <= |c| && drops != []
    ensures var last := drops[|drops| - 1].event;
            SumFirst(drops, c, n)
            == SumFirst(drops[..|drops| - 1], c, n) + if last < n then c[last] else 0
  {
    if n > 0 {
      SumFirstStep(drops, c, n - 1);
      var front, last := drops[..|drops| - 1], drops[|drops| - 1].event;
      var more := if last == n - 1 then 1 else 0;
      assert Gone(drops, n - 1) == Gone(front, n - 1) + more;
      assert (Gone(front, n - 1) + more) * c[n - 1] == Gone(front, n - 1) * c[n - 1] + more * c[n - 1];
    }
  }

  lemma {:induction false} SumByGuard(drops: seq<Dropped>, c: seq<nat>)
    requires forall i :: 0 <= i < |drops| ==> drops[i].event < |c|
    ensures SumDropped(drops, c) == SumFirst(drops, c, |c|)
  {
    if drops == [] {
      NoneDropped(c, |c|);
    } else {
      SumByGuard(drops[..|drops| - 1], c);
      SumFirstStep(drops, c, |c|);
    }
  }

  lemma {:induction false} NoneDropped(c: seq<nat>, n: nat)
    requires n <= |c|
    ensures SumFirst([], c, n) == 0
  {
    if n > 0 {
      NoneDropped(c, n - 1);
    }
  }

  /** The entries in the log of one guard's content. */
  function ContentCount(steps: seq<Step>, e: LogEntry, id: EventId): nat
    requires id < Builds(steps)
  {
    CountEntry(Initials(steps)[id].logEntries, e) + Count(Received(steps, id), Log(e))
  }

  function ContentCounts(steps: seq<Step>, e: LogEntry): (c: seq<nat>)
    ensures |c| == Builds(steps)
    ensures forall id :: 0 <= id < |c| ==> c[id] == ContentCount(steps, e, id)
  {
    seq(Builds(steps), id requires 0 <= id < Builds(steps) => ContentCount(steps, e, id))
  }

  lemma {:induction false} SumOfContents(steps: seq<Step>, drops: seq<Dropped>, e: LogEntry, n: nat)
    requires n <= Builds(steps) && forall id: EventId :: id < n ==> Gone(drops, id) == 1
    ensures SumFirst(drops, ContentCounts(steps, e), n)
         == InitialCount(Initials(steps)[..n], e) + ReceivedBy(steps, n, Log(e))
  {
    hide Builds, Received, Initials, Gone;
    if n > 0 {
      SumOfContents(steps, drops, e, n - 1);
      assert Initials(steps)[..n][..n - 1] == Initials(steps)[..n - 1];
      assert ContentCounts(steps, e)[n - 1] == ContentCount(steps, e, n - 1);
    }
  }

  lemma {:induction false} EmittedSum(steps: seq<Step>, e: LogEntry, j: nat)
    requires Orderly(steps) && AllTyped(steps) && j <= |Drops(steps)| && KnownDrops(steps)
    requires |Exec(steps).emitted| == |Drops(steps)|
    ensures EmittedCount(Exec(steps).emitted[..j], e) == SumDropped(Drops(steps)[..j], ContentCounts(steps, e))
  {
    hide Exec, Drops, Orderly, Received, Initials, ContentCount;
    if j > 0 {
      EmittedSum(steps, e, j - 1);
      var emitted, drops := Exec(steps).emitted, Drops(steps);
      assert emitted[..j][..j - 1] == emitted[..j - 1] && drops[..j][..j - 1] == drops[..j - 1];
      OneEmission(steps, e, j - 1);
    }
  }

  lemma OneEmission(steps: seq<Step>, e: LogEntry, j: nat)
    requires Orderly(steps) && j < |Drops(steps)|
    ensures AllTyped(steps) && j < |Exec(steps).emitted| && Drops(steps)[j].event < Builds(steps)
    ensures CountEntry(Exec(steps).emitted[j].content.logEntries, e) == ContentCount(steps, e, Drops(steps)[j].event)
  {
    hide Exec, Drops, Orderly, Received, Initials, CountEntry;
    EmittedLogs(steps, j);
    var id := Drops(steps)[j].event;
    LogCallsReceived(steps, id);
    CountEntryConcat(Initials(steps)[id].logEntries, LogsIn(Received(steps, id)), e);
    CountLogs(Received(steps, id), e);
  }

  /**
   Once all guards of an orderly run have dropped, the log arrays of the emitted events hold what the
   events began with and, exactly once each, the log calls made under a guard of their own.
   */
  lemma LogsConserved(steps: seq<Step>, e: LogEntry)
    requires Orderly(steps) && Stack(steps) == []
    ensures AllTyped(steps)
    ensures EmittedCount(Exec(steps).emitted, e)
         == InitialCount(Initials(steps), e) + CountEntry(OwnedLogs(steps), e)
  {
    hide Exec, Drops, Orderly, Received, Initials, Builds, Gone, Stack, Content, LiveContents, CountEntry, OwnedCalls,
      OwnedLogs;
    EmissionsConserve(steps);
    var drops, n := Drops(steps), Builds(steps);
    forall id: EventId | id < n
      ensures Gone(drops, id) == 1
    {
      EachOnce(steps, id);
    }
    EmittedSum(steps, e, |drops|);
    assert drops[..|drops|] == drops && Exec(steps).emitted[..|drops|] == Exec(steps).emitted;
    SumByGuard(drops, ContentCounts(steps, e));
    SumOfContents(steps, drops, e, n);
    assert Initials(steps)[..n] == Initials(steps);
    CallsConserved(steps, Log(e));
    CountLogs(OwnedCalls(steps), e);
    OwnedLogsAreCalls(steps);
  }
}
