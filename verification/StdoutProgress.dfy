/** What the protocol of the channel guarantees over time: its clock, its flushes and its progress. */
module StdoutProgress {
  import opened Writers
  import opened StdoutEmit
  import opened WriterBatches

  // ---- The clock ----

  /** The writer's turns are in the order of time, and none is in the future. */
  predicate ClockInv(s: System) {
    && (!s.started ==> s.turns == [])
    && Monotone(s.startedAt, s.turns)
    && Now(s.startedAt, s.turns) <= s.now
  }

  lemma MonotoneAppend(start: nat, ts: seq<Turned>, turned: Turned)
    requires Monotone(start, ts) && Now(start, ts) <= turned.at
    ensures Monotone(start, ts + [turned]) && Now(start, ts + [turned]) == turned.at
  {
    assert (ts + [turned])[..|ts|] == ts;
  }

  lemma ClockStep(policy: FlushPolicy, s: System, l: Label)
    requires ClockInv(s) && Enabled(s, l)
    ensures ClockInv(Step(policy, s, l))
  {
    hide Turn, HasRoom, Monotone, Now;
    match l {
      case Receive => MonotoneAppend(s.startedAt, s.turns, Turned(s.now, Got(s.queued[s.taken])));
      case Timeout => MonotoneAppend(s.startedAt, s.turns, Turned(s.now, TimedOut));
      case Submit(_, _) => NoTurns(s.now);
      case TrySubmit(_, _) => NoTurns(s.now);
      case _ =>
    }
  }

  lemma NoTurns(now: nat)
    ensures Monotone(now, []) && Now(now, []) == now
  {
  }

  lemma {:induction false} ExecClock(policy: FlushPolicy, s: System, ls: seq<Label>)
    requires ClockInv(s) && Legal(policy, s, ls)
    ensures ClockInv(Exec(policy, s, ls))
  {
    if ls != [] {
      hide Step, Enabled, ClockInv;
      var front, last := ls[..|ls| - 1], ls[|ls| - 1];
      ExecClock(policy, s, front);
      ClockStep(policy, Exec(policy, s, front), last);
    }
  }

  // ---- Flushes over whole runs ----

  function FlushJobs(jobs: seq<Job>): nat {
    if jobs == [] then 0 else FlushJobs(jobs[..|jobs| - 1]) + if jobs[|jobs| - 1].Flush? then 1 else 0
  }

  lemma CountsAppend(jobs: seq<Job>, job: Job)
    ensures FlushJobs(jobs + [job]) == FlushJobs(jobs) + if job.Flush? then 1 else 0
    ensures LineJobs(jobs + [job]) == LineJobs(jobs) + if job.Line? then 1 else 0
  {
    assert (jobs + [job])[..|jobs|] == jobs;
  }

  /** The writer's turns hold the lines and the requests that it received. */
  lemma {:induction false} TurnsCount(ts: seq<Turned>)
    ensures LineCount(ts) == LineJobs(JobsOf(ts)) && RequestCount(ts) == FlushJobs(JobsOf(ts))
  {
    if ts != [] {
      hide LineJobs, FlushJobs;
      var front, r := ts[..|ts| - 1], ts[|ts| - 1].r;
      TurnsCount(front);
      if r.Got? {
        CountsAppend(JobsOf(front), r.job);
      } else {
        assert JobsOf(ts) == JobsOf(front);
      }
    }
  }

  /**
   In every run, each flush for lines, bytes or time is paid for by the lines, the bytes or the time
   between two such flushes, and each request received makes one flush.
   */
  lemma RunsAmortised(policy: FlushPolicy, capacity: Capacity, now: nat, ls: seq<Label>)
    requires policy.maxLines > 1 && Legal(policy, Initial(capacity, now), ls)
    ensures var s := Exec(policy, Initial(capacity, now), ls);
            var n := Flushes(policy, Start(s.startedAt), s.turns);
            && s.taken <= |s.queued|
            && s.writer == Run(policy, Start(s.startedAt), s.turns)
            && n.lines * policy.maxLines + s.writer.batchLines <= LineJobs(s.queued[..s.taken])
            && n.bytes * policy.maxBytes + s.writer.batchBytes <= |Lines(s.queued[..s.taken])|
            && s.startedAt + n.time * policy.maxInterval <= s.now
            && n.requests == FlushJobs(s.queued[..s.taken])
  {
    hide Legal, Exec, Run, Flushes, JobsOf, Lines, LineJobs, FlushJobs, LineCount, RequestCount, Stream, Monotone;
    var s0 := Initial(capacity, now);
    var s := Exec(policy, s0, ls);
    InitialInv(policy, capacity, now);
    ExecInv(policy, s0, ls);
    NoTurns(now);
    ExecClock(policy, s0, ls);
    Amortised(policy, s.startedAt, s.turns);
    TurnsCount(s.turns);
    StreamIsLines(s.turns);
  }

  /**
   And so in every run the batches closed are bounded by the lines, bytes and requests received and by
   the time since the writer started.
   */
  lemma RunsClosings(policy: FlushPolicy, capacity: Capacity, now: nat, ls: seq<Label>)
    requires policy.maxLines > 1 && Legal(policy, Initial(capacity, now), ls)
    ensures var s := Exec(policy, Initial(capacity, now), ls);
            && s.taken <= |s.queued| && s.startedAt <= s.now
            && s.writer == Run(policy, Start(s.startedAt), s.turns)
            && Closings(policy, Start(s.startedAt), s.turns)
               <= Times(LineJobs(s.queued[..s.taken]), policy.maxLines)
                  + Times(|Lines(s.queued[..s.taken])|, policy.maxBytes)
                  + Times(s.now - s.startedAt, policy.maxInterval) + FlushJobs(s.queued[..s.taken])
  {
    hide Legal, Exec, Run, Closings, JobsOf, Lines, LineJobs, FlushJobs, LineCount, RequestCount, Stream, Monotone,
      Times, Now;
    var s0 := Initial(capacity, now);
    var s := Exec(policy, s0, ls);
    InitialInv(policy, capacity, now);
    ExecInv(policy, s0, ls);
    NoTurns(now);
    ExecClock(policy, s0, ls);
    ClosingsBounded(policy, s.startedAt, s.turns);
    TimesGrows(Now(s.startedAt, s.turns) - s.startedAt, s.now - s.startedAt, policy.maxInterval);
    TurnsCount(s.turns);
    StreamIsLines(s.turns);
  }

  lemma TimesGrows(a: nat, b: nat, limit: nat)
    requires a <= b
    ensures Times(a, limit) <= Times(b, limit)
  {
    if limit > 0 {
      TimesBounds(a / limit, b, limit);
    }
  }

  // ---- Progress ----

  /** When a send finds room: always without a bound, and else up to the bound, which is at least one. */
  lemma RoomIff(s: System)
    requires s.taken <= |s.queued|
    ensures s.capacity == Unbounded ==> HasRoom(s)
    ensures forall n: nat :: s.capacity == Bounded(n) ==>
      (HasRoom(s) <==> |s.queued| - s.taken < if n == 0 then 1 else n)
  {
  }

  lemma {:induction false} LegalConcat(policy: FlushPolicy, s: System, a: seq<Label>, b: seq<Label>)
    requires Legal(policy, s, a) && Legal(policy, Exec(policy, s, a), b)
    ensures Legal(policy, s, a + b)
    ensures Exec(policy, s, a + b) == Exec(policy, Exec(policy, s, a), b)
    decreases |b|
  {
    hide Step, Enabled;
    if b == [] {
      assert a + b == a;
    } else {
      assert (a + b)[..|a + b| - 1] == a + b[..|b| - 1];
      LegalConcat(policy, s, a, b[..|b| - 1]);
    }
  }

  lemma LegalFirst(policy: FlushPolicy, s: System, l: Label, ls: seq<Label>)
    requires Enabled(s, l) && Legal(policy, Step(policy, s, l), ls)
    ensures Legal(policy, s, [l] + ls)
    ensures Exec(policy, s, [l] + ls) == Exec(policy, Step(policy, s, l), ls)
  {
    hide Step, Enabled;
    assert [l][..0] == [];
    assert Legal(policy, s, [l]) && Exec(policy, s, [l]) == Step(policy, s, l);
    LegalConcat(policy, s, [l], ls);
  }

  function Receiving(n: nat): (ls: seq<Label>)
    ensures |ls| == n && forall i :: 0 <= i < n ==> ls[i] == Receive
  {
    if n == 0 then [] else [Receive] + Receiving(n - 1)
  }

  /** The writer can take what is queued. */
  lemma {:induction false} CanReceive(policy: FlushPolicy, s: System, n: nat)
    requires s.started && s.alive && s.taken + n <= |s.queued|
    ensures Legal(policy, s, Receiving(n))
    ensures var s' := Exec(policy, s, Receiving(n));
            s'.taken == s.taken + n && s'.calls == s.calls
    decreases n
  {
    if n > 0 {
      hide Legal, Exec, Turn;
      var s1 := Step(policy, s, Receive);
      CanReceive(policy, s1, n - 1);
      LegalFirst(policy, s, Receive, Receiving(n - 1));
    } else {
      NothingToDo(policy, s);
    }
  }

  lemma NothingToDo(policy: FlushPolicy, s: System)
    ensures Legal(policy, s, []) && Exec(policy, s, []) == s
  {
  }

  /** One receive frees a full channel. */
  lemma ReceiveFrees(policy: FlushPolicy, s: System)
    requires Inv(policy, s) && s.alive && !HasRoom(s)
    ensures Enabled(s, Receive)
    ensures var s' := Step(policy, s, Receive);
            HasRoom(s') && s'.calls == s.calls && s'.alive && s'.queued == s.queued
  {
    hide Turn, CountInv, FlushInv, Run, JobsOf;
  }

  /** How a thread's call ends: at most one receive for room, its send, and receives up to its request. */
  function ToReturn(s: System, t: Thread): seq<Label>
    requires t in s.calls
  {
    match s.calls[t]
    case Done(_) => []
    case Waiting(position) =>
      if s.alive && position >= s.taken then Receiving(position - s.taken + 1) else []
    case Trying(_) => Sending(s, t)
    case _ =>
      if s.alive && !HasRoom(s) then [Receive] + Sending(s.(taken := s.taken + 1), t) else Sending(s, t)
  }

  function Sending(s: System, t: Thread): seq<Label>
    requires t in s.calls
  {
    [Send(t)]
    + if s.calls[t].Flushing? && s.alive && s.taken <= |s.queued| then Receiving(|s.queued| - s.taken + 1) else []
  }

  /**
   No call gets stuck: from every reachable state, whatever the other threads are doing, the writer's
   receives and the thread's own send are enough to let its call return, at most one receive for each
   job queued and two steps more.
   */
  lemma NoCallStuck(policy: FlushPolicy, s: System, t: Thread)
    requires Inv(policy, s) && t in s.calls
    ensures Legal(policy, s, ToReturn(s, t))
    ensures Enabled(Exec(policy, s, ToReturn(s, t)), Return(t))
    ensures |ToReturn(s, t)| <= |s.queued| - s.taken + 2
    ensures forall i :: 0 <= i < |ToReturn(s, t)| ==> ToReturn(s, t)[i] == Receive || ToReturn(s, t)[i] == Send(t)
  {
    hide Legal, Exec, Inv, Receiving, HasRoom;
    FewSteps(policy, s, t);
    match s.calls[t] {
      case Done(_) => NothingToDo(policy, s);
      case Waiting(position) => WaitingReturns(policy, s, t);
      case Trying(_) => SendReturns(policy, s, t);
      case Submitting(_) => AfterRoom(policy, s, t);
      case Flushing => AfterRoom(policy, s, t);
    }
  }

  lemma FewSteps(policy: FlushPolicy, s: System, t: Thread)
    requires Inv(policy, s) && t in s.calls
    ensures |ToReturn(s, t)| <= |s.queued| - s.taken + 2
    ensures forall i :: 0 <= i < |ToReturn(s, t)| ==> ToReturn(s, t)[i] == Receive || ToReturn(s, t)[i] == Send(t)
  {
    hide CountInv, Run, JobsOf, Lines, Receiving;
  }

  lemma StartedWhenBusy(policy: FlushPolicy, s: System, t: Thread)
    requires Inv(policy, s) && t in s.calls && !s.calls[t].Done?
    ensures s.started && s.taken <= |s.queued|
    ensures s.calls[t].Waiting? ==> s.calls[t].position < |s.queued|
  {
    hide Run, JobsOf, Lines;
  }

  lemma WaitingReturns(policy: FlushPolicy, s: System, t: Thread)
    requires Inv(policy, s) && t in s.calls && s.calls[t].Waiting?
    ensures Legal(policy, s, ToReturn(s, t))
    ensures Enabled(Exec(policy, s, ToReturn(s, t)), Return(t))
  {
    hide Legal, Exec, Inv, Receiving;
    StartedWhenBusy(policy, s, t);
    if s.alive && s.calls[t].position >= s.taken {
      CanReceive(policy, s, s.calls[t].position - s.taken + 1);
    } else {
      NothingToDo(policy, s);
    }
  }

  /** A send that is enabled, and what is left to do after it. */
  lemma SendReturns(policy: FlushPolicy, s: System, t: Thread)
    requires Inv(policy, s) && t in s.calls && Enabled(s, Send(t))
    ensures Legal(policy, s, Sending(s, t))
    ensures Enabled(Exec(policy, s, Sending(s, t)), Return(t))
  {
    hide Legal, Exec, Inv, Receiving, HasRoom;
    StartedWhenBusy(policy, s, t);
    var s' := Step(policy, s, Send(t));
    if s.calls[t].Flushing? && s.alive {
      CanReceive(policy, s', |s.queued| - s.taken + 1);
      LegalFirst(policy, s, Send(t), Receiving(|s.queued| - s.taken + 1));
    } else {
      NothingToDo(policy, s');
      LegalFirst(policy, s, Send(t), []);
    }
  }

  lemma AfterRoom(policy: FlushPolicy, s: System, t: Thread)
    requires Inv(policy, s) && t in s.calls && (s.calls[t].Submitting? || s.calls[t].Flushing?)
    ensures Legal(policy, s, ToReturn(s, t))
    ensures Enabled(Exec(policy, s, ToReturn(s, t)), Return(t))
  {
    hide Legal, Exec, Inv, HasRoom, Sending, Turn;
    if s.alive && !HasRoom(s) {
      ReceiveFrees(policy, s);
      var s1 := Step(policy, s, Receive);
      StepInv(policy, s, Receive);
      SendReturns(policy, s1, t);
      LegalFirst(policy, s, Receive, Sending(s1, t));
      SameSending(s1, s.(taken := s.taken + 1), t);
    } else {
      SendReturns(policy, s, t);
    }
  }

  lemma SameSending(s: System, s': System, t: Thread)
    requires t in s.calls && s.calls == s'.calls && s.alive == s'.alive
    requires s.queued == s'.queued && s.taken == s'.taken
    ensures Sending(s, t) == Sending(s', t)
  {
  }

  // ---- Timeouts, and a dead writer ----

  /** A timeout finds nothing queued: everything sent is in the buffer or the sink, and in the sink when due. */
  lemma TimeoutCatchesUp(policy: FlushPolicy, s: System)
    requires Inv(policy, s) && Enabled(s, Timeout)
    ensures var w := Step(policy, s, Timeout).writer;
            && w.out.sink + w.out.pending == Lines(s.queued)
            && (Due(policy, s.writer, s.now) ==> w.out.sink == Lines(s.queued))
  {
    hide Lines, Run, Stream, JobsOf;
    StreamIsLines(s.turns);
    Conservation(policy, s.startedAt, s.turns);
    assert s.queued[..s.taken] == s.queued;
    OtherTurns(policy, s.writer, 0, s.now);
  }

  lemma DeadStep(policy: FlushPolicy, s: System, l: Label)
    requires Enabled(s, l) && !s.alive && s.started
    ensures var s' := Step(policy, s, l);
            && !s'.alive && s'.started
            && s'.queued == s.queued && s'.taken == s.taken && s'.writer == s.writer && s'.turns == s.turns
  {
    hide HasRoom;
  }

  /** Once the writer is dead nothing is queued, received or written any more: every line is dropped. */
  lemma {:induction false} DeadWriter(policy: FlushPolicy, s: System, ls: seq<Label>)
    requires Inv(policy, s) && Legal(policy, s, ls) && !s.alive && s.started
    ensures var s' := Exec(policy, s, ls);
            && !s'.alive && s'.started
            && s'.queued == s.queued && s'.taken == s.taken && s'.writer == s.writer && s'.turns == s.turns
            && s'.attempted - s.attempted
               == s'.dropped - s.dropped + |InFlight(s'.calls)| - |InFlight(s.calls)|
  {
    hide Step, Enabled, InFlight, LineJobs, ChannelInv, FlushInv;
    DeadRun(policy, s, ls);
    ExecInv(policy, s, ls);
  }

  lemma {:induction false} DeadRun(policy: FlushPolicy, s: System, ls: seq<Label>)
    requires Legal(policy, s, ls) && !s.alive && s.started
    ensures var s' := Exec(policy, s, ls);
            && !s'.alive && s'.started
            && s'.queued == s.queued && s'.taken == s.taken && s'.writer == s.writer && s'.turns == s.turns
  {
    if ls != [] {
      hide Step, Enabled;
      DeadRun(policy, s, ls[..|ls| - 1]);
      DeadStep(policy, Exec(policy, s, ls[..|ls| - 1]), ls[|ls| - 1]);
    }
  }
}
