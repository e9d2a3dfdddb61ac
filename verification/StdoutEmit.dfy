/**
 Any number of producers, one channel and one writer, as labelled steps. Each step is atomic; a run
 is any sequence of enabled steps, so it covers every interleaving.
 */
module StdoutEmit {
  import opened Wrappers
  import opened Writers

  datatype Capacity = Unbounded | Bounded(n: nat) {
    /** `init_sender` clamps the capacity of the bounded channel. */
    function Limit(): nat
      requires Bounded?
    {
      if n == 0 then 1 else n
    }

    predicate Admits(waiting: nat) { Bounded? ==> waiting < Limit() }
  }

  type Thread = nat

  /** Where a thread is in a call of `submit`, `try_submit` or `flush`. */
  datatype Call =
    | Submitting(bytes: Bytes)
    | Trying(bytes: Bytes)
    | Flushing
    | Waiting(position: nat)
    | Done(ok: bool)

  /**
   `queued` is every job ever sent, in order; the first `taken` of them were received. `turns` is
   the history of the writer.
   */
  datatype System = System(
    now: nat, capacity: Capacity, started: bool, alive: bool,
    queued: seq<Job>, taken: nat, startedAt: nat, turns: seq<Turned>, writer: Writer,
    calls: map<Thread, Call>, attempted: nat, dropped: nat)

  function Initial(capacity: Capacity, now: nat): System {
    System(now, capacity, false, true, [], 0, now, [], Start(now), map[], 0, 0)
  }

  datatype Label =
    | Submit(t: Thread, bytes: Bytes)
    | TrySubmit(t: Thread, bytes: Bytes)
    | FlushCall(t: Thread)
    | Send(t: Thread)
    | Return(t: Thread)
    | Receive
    | Timeout
    | Tick(d: nat)
    | Die

  predicate HasRoom(s: System)
  {
    s.taken <= |s.queued| ==> s.capacity.Admits(|s.queued| - s.taken)
  }

  predicate Enabled(s: System, l: Label) {
    match l
    case Submit(t, _) => t !in s.calls
    case TrySubmit(t, _) => t !in s.calls
    case FlushCall(t) => t !in s.calls
    case Send(t) =>
      t in s.calls &&
      (match s.calls[t]
       case Submitting(_) => HasRoom(s) || !s.alive
       case Trying(_) => true
       case Flushing => HasRoom(s) || !s.alive
       case _ => false)
    case Return(t) =>
      t in s.calls &&
      (match s.calls[t]
       case Waiting(position) => position < s.taken || !s.alive
       case Done(_) => true
       case _ => false)
    case Receive => s.started && s.alive && s.taken < |s.queued|
    case Timeout => s.started && s.alive && s.taken == |s.queued|
    case Tick(_) => true
    case Die => s.started && s.alive
  }

  /** `get_or_init`: the first send starts the writer. */
  function WithSender(s: System): System {
    if s.started then s else s.(started := true, startedAt := s.now, writer := Start(s.now))
  }

  function Enqueued(s: System, t: Thread, job: Job, next: Call): System {
    s.(queued := s.queued + [job], calls := s.calls[t := next])
  }

  function Dropped(s: System, t: Thread): System {
    s.(dropped := s.dropped + 1, calls := s.calls[t := Done(false)])
  }

  function Sent(s: System, t: Thread): System
    requires Enabled(s, Send(t))
  {
    match s.calls[t]
    case Submitting(bytes) =>
      if s.alive then Enqueued(s, t, Line(bytes), Done(true)) else Dropped(s, t)
    case Trying(bytes) =>
      if s.alive && HasRoom(s) then Enqueued(s, t, Line(bytes), Done(true)) else Dropped(s, t)
    case _ =>
      if s.alive then Enqueued(s, t, Job.Flush(t), Waiting(|s.queued|))
      else s.(calls := s.calls[t := Done(false)])
  }

  function Turning(policy: FlushPolicy, s: System, r: Received): System {
    s.(turns := s.turns + [Turned(s.now, r)], writer := Turn(policy, s.writer, r, s.now))
  }

  function Step(policy: FlushPolicy, s: System, l: Label): System
    requires Enabled(s, l)
  {
    match l
    case Submit(t, bytes) =>
      var s' := WithSender(s);
      s'.(calls := s.calls[t := Submitting(bytes)], attempted := s.attempted + 1)
    case TrySubmit(t, bytes) =>
      var s' := WithSender(s);
      s'.(calls := s.calls[t := Trying(bytes)], attempted := s.attempted + 1)
    case FlushCall(t) => s.(calls := s.calls[t := if s.started then Flushing else Done(true)])
    case Send(t) => Sent(s, t)
    case Return(t) => s.(calls := s.calls - {t})
    case Receive => Turning(policy, s, Got(s.queued[s.taken])).(taken := s.taken + 1)
    case Timeout => Turning(policy, s, TimedOut)
    case Tick(d) => s.(now := s.now + d)
    case Die => s.(alive := false)
  }

  predicate Legal(policy: FlushPolicy, s: System, ls: seq<Label>)
    decreases |ls|, 0
  {
    ls != [] ==>
      && Legal(policy, s, ls[..|ls| - 1])
      && Enabled(Exec(policy, s, ls[..|ls| - 1]), ls[|ls| - 1])
  }

  function Exec(policy: FlushPolicy, s: System, ls: seq<Label>): System
    requires Legal(policy, s, ls)
    decreases |ls|, 1
  {
    if ls == [] then s else Step(policy, Exec(policy, s, ls[..|ls| - 1]), ls[|ls| - 1])
  }

  // ---- Invariants ----

  function Lines(jobs: seq<Job>): Bytes {
    if jobs == [] then [] else
    var last := jobs[|jobs| - 1];
    Lines(jobs[..|jobs| - 1]) + if last.Line? then last.bytes else []
  }

  function LineJobs(jobs: seq<Job>): nat {
    if jobs == [] then 0
    else LineJobs(jobs[..|jobs| - 1]) + if jobs[|jobs| - 1].Line? then 1 else 0
  }

  ghost function InFlight(calls: map<Thread, Call>): set<Thread> {
    set t | t in calls && (calls[t].Submitting? || calls[t].Trying?)
  }

  /** The channel: the bound, and the writer's history of it. */
  ghost predicate ChannelInv(policy: FlushPolicy, s: System) {
    && s.taken <= |s.queued|
    && (s.capacity.Bounded? ==> |s.queued| - s.taken <= s.capacity.Limit())
    && (!s.started ==> s.queued == [] && s.turns == [] && forall t :: t in s.calls ==> s.calls[t].Done?)
    && s.writer == Run(policy, Start(s.startedAt), s.turns)
    && JobsOf(s.turns) == s.queued[..s.taken]
  }

  /** The jobs that a history of the writer received. */
  function JobsOf(ts: seq<Turned>): seq<Job> {
    if ts == [] then [] else
    var r := ts[|ts| - 1].r;
    JobsOf(ts[..|ts| - 1]) + if r.Got? then [r.job] else []
  }

  lemma {:induction false} StreamIsLines(ts: seq<Turned>)
    ensures Stream(ts) == Lines(JobsOf(ts))
  {
    if ts != [] {
      hide Lines;
      var front, r := ts[..|ts| - 1], ts[|ts| - 1].r;
      StreamIsLines(front);
      if r.Got? {
        LinesAppend(JobsOf(front), r.job);
      } else {
        assert JobsOf(ts) == JobsOf(front);
      }
    } else {
      NoLines();
    }
  }

  lemma {:induction false} JobsPrefix(ts: seq<Turned>, k: nat)
    requires k <= |ts|
    ensures JobsOf(ts[..k]) <= JobsOf(ts)
  {
    if k == |ts| {
      assert ts[..k] == ts;
    } else {
      JobsPrefix(ts[..|ts| - 1], k);
      assert ts[..|ts| - 1][..k] == ts[..k];
    }
  }

  /** No attempted line goes missing between the producers, the channel and the drop counter. */
  ghost predicate CountInv(s: System) {
    s.attempted == LineJobs(s.queued) + s.dropped + |InFlight(s.calls)|
  }

  /** A waiting flush is in the queue, and every flush received has delivered what came before it. */
  ghost predicate FlushInv(s: System) {
    && s.taken <= |s.queued|
    && (forall t :: t in s.calls && s.calls[t].Waiting? ==>
          s.calls[t].position < |s.queued| && s.queued[s.calls[t].position] == Job.Flush(t))
    && (forall p :: 0 <= p < s.taken && s.queued[p].Flush? ==>
          Lines(s.queued[..p]) <= s.writer.out.sink)
  }

  lemma LinesAppend(jobs: seq<Job>, job: Job)
    ensures Lines(jobs + [job]) == Lines(jobs) + if job.Line? then job.bytes else []
    ensures LineJobs(jobs + [job]) == LineJobs(jobs) + if job.Line? then 1 else 0
  {
    assert (jobs + [job])[..|jobs|] == jobs;
  }

  lemma TurnsAppend(policy: FlushPolicy, start: nat, ts: seq<Turned>, turned: Turned)
    ensures Run(policy, Start(start), ts + [turned])
         == Turn(policy, Run(policy, Start(start), ts), turned.r, turned.at)
    ensures JobsOf(ts + [turned]) == JobsOf(ts) + if turned.r.Got? then [turned.r.job] else []
  {
    assert (ts + [turned])[..|ts|] == ts;
  }

  lemma SendKeepsChannel(policy: FlushPolicy, s: System, t: Thread)
    requires ChannelInv(policy, s) && Enabled(s, Send(t))
    ensures ChannelInv(policy, Sent(s, t))
  {
    hide Turn, JobsOf, Run;
    assert Sent(s, t).queued[..s.taken] == s.queued[..s.taken];
  }

  lemma ChannelStep(policy: FlushPolicy, s: System, l: Label)
    requires ChannelInv(policy, s) && Enabled(s, l)
    ensures ChannelInv(policy, Step(policy, s, l))
  {
    hide Turn, JobsOf, Run, Sent, HasRoom;
    match l {
      case Receive =>
        var job := s.queued[s.taken];
        TurnsAppend(policy, s.startedAt, s.turns, Turned(s.now, Got(job)));
        assert s.queued[..s.taken + 1] == s.queued[..s.taken] + [job];
      case Timeout =>
        TurnsAppend(policy, s.startedAt, s.turns, Turned(s.now, TimedOut));
        assert JobsOf(s.turns) + [] == JobsOf(s.turns);
      case Send(t) => SendKeepsChannel(policy, s, t);
      case Submit(_, _) => RunNothing(policy, s.now);
      case TrySubmit(_, _) => RunNothing(policy, s.now);
      case _ =>
    }
  }

  lemma RunNothing(policy: FlushPolicy, now: nat)
    ensures Run(policy, Start(now), []) == Start(now)
  {
  }

  lemma InFlightMoves(calls: map<Thread, Call>, t: Thread, call: Call)
    ensures var was := t in calls && (calls[t].Submitting? || calls[t].Trying?);
            var isNow := call.Submitting? || call.Trying?;
            |InFlight(calls[t := call])|
            == |InFlight(calls)| - (if was then 1 else 0) + (if isNow then 1 else 0)
  {
    var others := InFlight(calls) - {t};
    assert InFlight(calls) == if t in InFlight(calls) then others + {t} else others;
    assert InFlight(calls[t := call]) ==
           if call.Submitting? || call.Trying? then others + {t} else others;
  }

  lemma InFlightReturns(calls: map<Thread, Call>, t: Thread)
    requires t in calls && !calls[t].Submitting? && !calls[t].Trying?
    ensures InFlight(calls - {t}) == InFlight(calls)
  {
  }

  lemma CountStep(policy: FlushPolicy, s: System, l: Label)
    requires CountInv(s) && Enabled(s, l)
    ensures CountInv(Step(policy, s, l))
  {
    hide Turn, LineJobs, InFlight;
    match l {
      case Submit(t, bytes) => InFlightMoves(s.calls, t, Submitting(bytes));
      case TrySubmit(t, bytes) => InFlightMoves(s.calls, t, Trying(bytes));
      case FlushCall(t) => InFlightMoves(s.calls, t, if s.started then Flushing else Done(true));
      case Send(t) =>
        var s' := Sent(s, t);
        InFlightMoves(s.calls, t, s'.calls[t]);
        if s'.queued != s.queued {
          LinesAppend(s.queued, s'.queued[|s.queued|]);
        }
      case Return(t) => InFlightReturns(s.calls, t);
      case _ =>
    }
  }

  lemma SinkGrows(policy: FlushPolicy, w: Writer, r: Received, now: nat)
    ensures w.out.sink <= Turn(policy, w, r, now).out.sink
  {
    hide Decide;
  }

  /** A turn for a flush request delivers everything received before it. */
  lemma RequestDelivers(policy: FlushPolicy, s: System)
    requires ChannelInv(policy, s) && Enabled(s, Receive) && s.queued[s.taken].Flush?
    ensures Step(policy, s, Receive).writer.out.sink == Lines(s.queued[..s.taken])
  {
    hide Stream, Lines, Run, JobsOf;
    StreamIsLines(s.turns);
    Conservation(policy, s.startedAt, s.turns);
  }

  lemma SendKeepsFlush(policy: FlushPolicy, s: System, t: Thread)
    requires FlushInv(s) && Enabled(s, Send(t))
    ensures FlushInv(Sent(s, t))
  {
    hide Lines, HasRoom;
    var s' := Sent(s, t);
    assert s.queued <= s'.queued && s'.writer == s.writer && s'.taken == s.taken;
    forall p | 0 <= p < s.taken && s'.queued[p].Flush?
      ensures Lines(s'.queued[..p]) <= s'.writer.out.sink
    {
      assert s'.queued[..p] == s.queued[..p] && s.queued[p].Flush?;
    }
  }

  lemma FlushStep(policy: FlushPolicy, s: System, l: Label)
    requires ChannelInv(policy, s) && FlushInv(s) && Enabled(s, l)
    ensures FlushInv(Step(policy, s, l))
  {
    hide Turn, Stream, Lines, Run, Sent, HasRoom;
    match l {
      case Receive =>
        SinkGrows(policy, s.writer, Got(s.queued[s.taken]), s.now);
        if s.queued[s.taken].Flush? {
          RequestDelivers(policy, s);
        }
      case Timeout => SinkGrows(policy, s.writer, TimedOut, s.now);
      case Send(t) => SendKeepsFlush(policy, s, t);
      case _ =>
    }
  }

  ghost predicate Inv(policy: FlushPolicy, s: System) {
    ChannelInv(policy, s) && CountInv(s) && FlushInv(s)
  }

  lemma InitialInv(policy: FlushPolicy, capacity: Capacity, now: nat)
    ensures Inv(policy, Initial(capacity, now))
  {
  }

  /** The invariants hold after every run. */
  lemma {:induction false} ExecInv(policy: FlushPolicy, s: System, ls: seq<Label>)
    requires Inv(policy, s) && Legal(policy, s, ls)
    ensures Inv(policy, Exec(policy, s, ls))
  {
    if ls != [] {
      var front, last := ls[..|ls| - 1], ls[|ls| - 1];
      ExecInv(policy, s, front);
      var here := Exec(policy, s, front);
      ChannelStep(policy, here, last);
      CountStep(policy, here, last);
      FlushStep(policy, here, last);
    }
  }

  // ---- What every run guarantees ----

  /** The stream: every line received, whole and in queue order, and at most the queue bound behind. */
  lemma RunsConserve(policy: FlushPolicy, capacity: Capacity, now: nat, ls: seq<Label>)
    requires Legal(policy, Initial(capacity, now), ls)
    ensures var s := Exec(policy, Initial(capacity, now), ls);
            && s.taken <= |s.queued|
            && s.writer.out.All() == Lines(s.queued[..s.taken])
            && (capacity.Bounded? ==> |s.queued| - s.taken <= if capacity.n == 0 then 1 else capacity.n)
            && s.attempted == LineJobs(s.queued) + s.dropped + |InFlight(s.calls)|
  {
    InitialInv(policy, capacity, now);
    ExecInv(policy, Initial(capacity, now), ls);
    var s := Exec(policy, Initial(capacity, now), ls);
    CapacityStays(policy, Initial(capacity, now), ls);
    StreamIsLines(s.turns);
    Conservation(policy, s.startedAt, s.turns);
  }

  lemma {:induction false} CapacityStays(policy: FlushPolicy, s: System, ls: seq<Label>)
    requires Legal(policy, s, ls)
    ensures Exec(policy, s, ls).capacity == s.capacity
  {
    if ls != [] {
      hide Step, Enabled;
      CapacityStays(policy, s, ls[..|ls| - 1]);
      CapacityStep(policy, Exec(policy, s, ls[..|ls| - 1]), ls[|ls| - 1]);
    }
  }

  lemma CapacityStep(policy: FlushPolicy, s: System, l: Label)
    requires Enabled(s, l)
    ensures Step(policy, s, l).capacity == s.capacity
  {
    hide Turn, HasRoom;
  }

  /** The sink holds whole lines, the first ones of the queue. */
  lemma SinkIsPrefix(policy: FlushPolicy, s: System) returns (m: nat)
    requires ChannelInv(policy, s)
    ensures m <= s.taken <= |s.queued| && s.writer.out.sink == Lines(s.queued[..m])
  {
    hide Lines, Stream, JobsOf, Run;
    var k := SinkIsWhole(policy, s.startedAt, s.turns);
    StreamIsLines(s.turns[..k]);
    JobsPrefix(s.turns, k);
    m := |JobsOf(s.turns[..k])|;
    assert JobsOf(s.turns[..k]) == JobsOf(s.turns)[..m] == s.queued[..m];
  }

  lemma GrowStep(policy: FlushPolicy, s: System, l: Label)
    requires Enabled(s, l)
    ensures var s' := Step(policy, s, l);
            && s.queued <= s'.queued && s.taken <= s'.taken
            && (s.started ==> s'.started) && (s'.alive ==> s.alive)
  {
    hide Turn, HasRoom;
  }

  /** What only grows along a run. */
  lemma {:induction false} Grows(policy: FlushPolicy, s: System, ls: seq<Label>)
    requires Legal(policy, s, ls)
    ensures var s' := Exec(policy, s, ls);
            && s.queued <= s'.queued && s.taken <= s'.taken
            && (s.started ==> s'.started) && (s'.alive ==> s.alive)
  {
    if ls != [] {
      hide Step, Enabled;
      var front := ls[..|ls| - 1];
      Grows(policy, s, front);
      GrowStep(policy, Exec(policy, s, front), ls[|ls| - 1]);
    }
  }

  lemma WithSenderKeeps(s: System)
    ensures var s' := WithSender(s);
            s'.started && s'.queued == s.queued && s'.taken == s.taken && s'.alive == s.alive
            && s'.calls == s.calls && s'.capacity == s.capacity
  {
  }

  function Receives(ls: seq<Label>): nat {
    if ls == [] then 0 else Receives(ls[..|ls| - 1]) + if ls[|ls| - 1].Receive? then 1 else 0
  }

  lemma {:induction false} TakenCounts(policy: FlushPolicy, s: System, ls: seq<Label>)
    requires Legal(policy, s, ls)
    ensures Exec(policy, s, ls).taken == s.taken + Receives(ls)
  {
    if ls != [] {
      hide Turn;
      TakenCounts(policy, s, ls[..|ls| - 1]);
    }
  }

  /** A thread in a flush call stays in it until it returns; its request goes behind what was queued. */
  ghost predicate InFlush(s: System, t: Thread, mark: nat) {
    t in s.calls && mark <= |s.queued|
    && (s.calls[t].Flushing? || (s.calls[t].Waiting? && mark <= s.calls[t].position)
        || (s.calls[t].Done? && !s.alive))
  }

  lemma InFlushStep(policy: FlushPolicy, s: System, l: Label, t: Thread, mark: nat)
    requires InFlush(s, t, mark) && Enabled(s, l) && l != Return(t)
    ensures InFlush(Step(policy, s, l), t, mark)
  {
    hide Turn, HasRoom;
  }

  lemma {:induction false} FlushStays(policy: FlushPolicy, s: System, ls: seq<Label>, t: Thread, mark: nat)
    requires InFlush(s, t, mark) && Legal(policy, s, ls) && Return(t) !in ls
    ensures InFlush(Exec(policy, s, ls), t, mark)
  {
    if ls != [] {
      hide Step, Enabled, InFlush;
      var front, last := ls[..|ls| - 1], ls[|ls| - 1];
      assert last in ls;
      FlushStays(policy, s, front, t, mark);
      InFlushStep(policy, Exec(policy, s, front), last, t, mark);
    }
  }

  /**
   Flush linearises: in every interleaving, when a call of `flush` can return and the writer is
   alive, every line queued before the call began has reached the sink, in queue order.
   */
  lemma FlushDelivers(policy: FlushPolicy, s: System, t: Thread, ls: seq<Label>)
    requires Inv(policy, s) && Enabled(s, FlushCall(t))
    requires var s1 := Step(policy, s, FlushCall(t));
             && Legal(policy, s1, ls) && Return(t) !in ls
             && Exec(policy, s1, ls).alive && Enabled(Exec(policy, s1, ls), Return(t))
    ensures Lines(s.queued) <= Exec(policy, Step(policy, s, FlushCall(t)), ls).writer.out.sink
  {
    hide Turn, Lines, Stream, Run;
    var s1 := Step(policy, s, FlushCall(t));
    ChannelStep(policy, s, FlushCall(t));
    CountStep(policy, s, FlushCall(t));
    FlushStep(policy, s, FlushCall(t));
    ExecInv(policy, s1, ls);
    Grows(policy, s1, ls);
    var s2 := Exec(policy, s1, ls);
    if s.started {
      FlushStays(policy, s1, ls, t, |s.queued|);
      var p := s2.calls[t].position;
      LinesPrefix(s2.queued[..p], |s.queued|);
      assert s2.queued[..p][..|s.queued|] == s.queued;
    } else {
      NoLines();
    }
  }

  lemma NoLines()
    ensures Lines([]) == []
  {
  }

  lemma {:induction false} LinesPrefix(jobs: seq<Job>, n: nat)
    requires n <= |jobs|
    ensures Lines(jobs[..n]) <= Lines(jobs)
  {
    if n == |jobs| {
      assert jobs[..n] == jobs;
    } else {
      LinesPrefix(jobs[..|jobs| - 1], n);
      assert jobs[..|jobs| - 1][..n] == jobs[..n];
    }
  }

  /**
   A flush whose request has been queued can return, while the writer lives, exactly when the writer
   has received as many jobs as were ahead of the request, and the request itself.
   */
  lemma FlushReceives(policy: FlushPolicy, s: System, t: Thread, ls: seq<Label>)
    requires Inv(policy, s) && t in s.calls && s.calls[t].Waiting?
    requires Legal(policy, s, ls) && Return(t) !in ls && Exec(policy, s, ls).alive
    ensures Enabled(Exec(policy, s, ls), Return(t))
       <==> Receives(ls) >= s.calls[t].position - s.taken + 1
  {
    WaitingStays(policy, s, ls, t);
    TakenCounts(policy, s, ls);
  }

  lemma {:induction false} WaitingStays(policy: FlushPolicy, s: System, ls: seq<Label>, t: Thread)
    requires t in s.calls && s.calls[t].Waiting?
    requires Legal(policy, s, ls) && Return(t) !in ls
    ensures t in Exec(policy, s, ls).calls && Exec(policy, s, ls).calls[t] == s.calls[t]
  {
    if ls != [] {
      hide Turn;
      var front, last := ls[..|ls| - 1], ls[|ls| - 1];
      assert last == ls[|ls| - 1] && last != Return(t);
      WaitingStays(policy, s, front, t);
    }
  }

  /**
   A thread in a submitting call is still sending, or has queued its line, or has failed: `submit` only
   when the writer is dead.
   */
  ghost predicate InSubmit(s: System, t: Thread, bytes: Bytes, try: bool, mark: nat) {
    t in s.calls && mark <= |s.queued| &&
    match s.calls[t]
    case Submitting(bs) => !try && bs == bytes
    case Trying(bs) => try && bs == bytes
    case Done(ok) => if ok then QueuedFrom(s, mark, bytes) else try || !s.alive
    case _ => false
  }

  ghost predicate QueuedFrom(s: System, mark: nat, bytes: Bytes) {
    exists p :: mark <= p < |s.queued| && s.queued[p] == Line(bytes)
  }

  lemma QueuedStays(s: System, s': System, mark: nat, bytes: Bytes)
    requires QueuedFrom(s, mark, bytes) && s.queued <= s'.queued
    ensures QueuedFrom(s', mark, bytes)
  {
    var p :| mark <= p < |s.queued| && s.queued[p] == Line(bytes);
    assert s'.queued[p] == Line(bytes);
  }

  lemma InSubmitStep(
      policy: FlushPolicy, s: System, l: Label, t: Thread, bytes: Bytes, try: bool, mark: nat)
    requires InSubmit(s, t, bytes, try, mark) && Enabled(s, l) && l != Return(t)
    ensures InSubmit(Step(policy, s, l), t, bytes, try, mark)
  {
    hide Turn, HasRoom, QueuedFrom;
    var s' := Step(policy, s, l);
    assert s.queued <= s'.queued;
    if QueuedFrom(s, mark, bytes) {
      QueuedStays(s, s', mark, bytes);
    }
    if l == Send(t) && s'.queued != s.queued {
      assert QueuedFrom(s', mark, bytes) by { LastQueued(s', mark, bytes); }
    }
  }

  lemma LastQueued(s: System, mark: nat, bytes: Bytes)
    requires mark < |s.queued| && s.queued[|s.queued| - 1] == Line(bytes)
    ensures QueuedFrom(s, mark, bytes)
  {
  }

  lemma {:induction false} SubmitStays(
      policy: FlushPolicy, s: System, ls: seq<Label>, t: Thread, bytes: Bytes, try: bool, mark: nat)
    requires InSubmit(s, t, bytes, try, mark) && Legal(policy, s, ls) && Return(t) !in ls
    ensures InSubmit(Exec(policy, s, ls), t, bytes, try, mark)
  {
    if ls != [] {
      hide Step, Enabled, InSubmit;
      var front, last := ls[..|ls| - 1], ls[|ls| - 1];
      assert last in ls;
      SubmitStays(policy, s, front, t, bytes, try, mark);
      InSubmitStep(policy, Exec(policy, s, front), last, t, bytes, try, mark);
    }
  }

  function SubmitLabel(t: Thread, bytes: Bytes, try: bool): Label {
    if try then TrySubmit(t, bytes) else Submit(t, bytes)
  }

  /**
   When `submit` can return from a live writer, or a `try_submit` can return true, its line is in the
   queue, behind what was queued before the call.
   */
  lemma SubmitQueues(policy: FlushPolicy, s: System, t: Thread, bytes: Bytes, try: bool, ls: seq<Label>)
    requires Enabled(s, SubmitLabel(t, bytes, try))
    requires Legal(policy, Step(policy, s, SubmitLabel(t, bytes, try)), ls) && Return(t) !in ls
    requires var s2 := Exec(policy, Step(policy, s, SubmitLabel(t, bytes, try)), ls);
             && Enabled(s2, Return(t))
             && if try then s2.calls[t] == Done(true) else s2.alive
    ensures QueuedFrom(Exec(policy, Step(policy, s, SubmitLabel(t, bytes, try)), ls), |s.queued|, bytes)
  {
    hide QueuedFrom, Exec, Legal;
    WithSenderKeeps(s);
    SubmitStays(policy, Step(policy, s, SubmitLabel(t, bytes, try)), ls, t, bytes, try, |s.queued|);
  }

  // ---- One run of a submit and a later flush ----

  lemma {:induction false} ExecConcat(policy: FlushPolicy, s: System, a: seq<Label>, b: seq<Label>)
    requires Legal(policy, s, a + b)
    ensures Legal(policy, s, a) && Legal(policy, Exec(policy, s, a), b)
    ensures Exec(policy, s, a + b) == Exec(policy, Exec(policy, s, a), b)
    decreases |b|
  {
    hide Step, Enabled;
    if b == [] {
      assert a + b == a;
    } else {
      assert (a + b)[..|a + b| - 1] == a + b[..|b| - 1];
      ExecConcat(policy, s, a, b[..|b| - 1]);
    }
  }

  lemma ExecOne(policy: FlushPolicy, s: System, l: Label)
    requires Legal(policy, s, [l])
    ensures Enabled(s, l) && Exec(policy, s, [l]) == Step(policy, s, l)
  {
    assert [l][..0] == [];
  }

  /** One label, then more. */
  lemma ExecFirst(policy: FlushPolicy, s: System, l: Label, ls: seq<Label>)
    requires Legal(policy, s, [l] + ls)
    ensures Enabled(s, l) && Legal(policy, Step(policy, s, l), ls)
    ensures Exec(policy, s, [l] + ls) == Exec(policy, Step(policy, s, l), ls)
  {
    hide Step, Enabled;
    ExecConcat(policy, s, [l], ls);
    ExecOne(policy, s, l);
  }

  lemma {:induction false} StepInv(policy: FlushPolicy, s: System, l: Label)
    requires Inv(policy, s) && Enabled(s, l)
    ensures Inv(policy, Step(policy, s, l))
  {
    hide Step, Enabled, ChannelInv, CountInv, FlushInv;
    ChannelStep(policy, s, l);
    CountStep(policy, s, l);
    FlushStep(policy, s, l);
  }

  /** The first half: from the submit to the call of the flush. */
  lemma SubmittedBefore(
      policy: FlushPolicy, s: System, t: Thread, bytes: Bytes, try: bool, a: seq<Label>, b: seq<Label>)
    requires Inv(policy, s) && Legal(policy, s, [SubmitLabel(t, bytes, try)] + a + [Return(t)] + b)
    requires Return(t) !in a
    requires Exec(policy, s, [SubmitLabel(t, bytes, try)] + a + [Return(t)] + b).alive
    requires try ==> Legal(policy, s, [SubmitLabel(t, bytes, try)] + a) &&
                     var s2 := Exec(policy, s, [SubmitLabel(t, bytes, try)] + a);
                     t in s2.calls && s2.calls[t] == Done(true)
    ensures var s4 := Exec(policy, s, [SubmitLabel(t, bytes, try)] + a + [Return(t)] + b);
            Inv(policy, s4) && s4.started && QueuedFrom(s4, |s.queued|, bytes)
  {
    hide Step, Enabled, Exec, Legal, Inv, QueuedFrom;
    var first := SubmitLabel(t, bytes, try);
    var whole := [first] + a + [Return(t)] + b;
    assert whole == [first] + (a + ([Return(t)] + b));
    ExecFirst(policy, s, first, a + ([Return(t)] + b));
    var s1 := Step(policy, s, first);
    ExecConcat(policy, s1, a, [Return(t)] + b);
    var s2 := Exec(policy, s1, a);
    ExecFirst(policy, s2, Return(t), b);
    var s3 := Step(policy, s2, Return(t));
    var s4 := Exec(policy, s3, b);
    StartsSender(policy, s, t, bytes, try);
    Grows(policy, s1, a);
    ReturnKeeps(policy, s2, t);
    Grows(policy, s3, b);
    if try {
      ExecFirst(policy, s, first, a);
    }
    SubmitQueues(policy, s, t, bytes, try, a);
    QueuedStays(s2, s4, |s.queued|, bytes);
    ExecInv(policy, s, whole);
  }

  lemma StartsSender(policy: FlushPolicy, s: System, t: Thread, bytes: Bytes, try: bool)
    requires Enabled(s, SubmitLabel(t, bytes, try))
    ensures Step(policy, s, SubmitLabel(t, bytes, try)).started
  {
  }

  lemma ReturnKeeps(policy: FlushPolicy, s: System, t: Thread)
    requires Enabled(s, Return(t))
    ensures Step(policy, s, Return(t)) == s.(calls := s.calls - {t})
  {
  }

  /** The second half: from the call of the flush on. */
  lemma FlushedAfter(policy: FlushPolicy, s: System, u: Thread, c: seq<Label>, d: seq<Label>)
    requires Inv(policy, s) && s.started && Legal(policy, s, [FlushCall(u)] + c + [Send(u)] + d)
    requires Return(u) !in c && Send(u) !in c && Return(u) !in d
    requires Exec(policy, s, [FlushCall(u)] + c + [Send(u)] + d).alive
    ensures Legal(policy, s, [FlushCall(u)] + c)
    ensures var s6 := Exec(policy, s, [FlushCall(u)] + c);
            var s8 := Exec(policy, s, [FlushCall(u)] + c + [Send(u)] + d);
            && s6.taken <= |s6.queued|
            && (Enabled(s8, Return(u)) <==> Receives(d) >= |s6.queued| - s6.taken + 1)
            && (Enabled(s8, Return(u)) ==> Lines(s.queued) <= s8.writer.out.sink)
  {
    hide Step, Enabled, Exec, Legal, Inv, Lines;
    var whole, rest := [FlushCall(u)] + c + [Send(u)] + d, c + ([Send(u)] + d);
    assert whole == [FlushCall(u)] + rest;
    assert whole == [FlushCall(u)] + c + ([Send(u)] + d);
    ExecConcat(policy, s, [FlushCall(u)] + c, [Send(u)] + d);
    ExecFirst(policy, s, FlushCall(u), rest);
    ExecFirst(policy, s, FlushCall(u), c);
    var s5 := Step(policy, s, FlushCall(u));
    var s6 := Exec(policy, s5, c);
    ExecFirst(policy, s6, Send(u), d);
    var s7 := Step(policy, s6, Send(u));
    var s8 := Exec(policy, s7, d);
    Grows(policy, s7, d);
    StepInv(policy, s, FlushCall(u));
    ExecInv(policy, s5, c);
    FlushSends(policy, s, u, c);
    StepInv(policy, s6, Send(u));
    FlushReceives(policy, s7, u, d);
    if Enabled(s8, Return(u)) {
      FlushDelivers(policy, s, u, rest);
    }
  }

  /** A flush that has only been called sends its request next. */
  lemma FlushSends(policy: FlushPolicy, s: System, u: Thread, c: seq<Label>)
    requires Inv(policy, s) && s.started && Enabled(s, FlushCall(u))
    requires Legal(policy, Step(policy, s, FlushCall(u)), c) && Return(u) !in c && Send(u) !in c
    requires var s6 := Exec(policy, Step(policy, s, FlushCall(u)), c);
             Inv(policy, s6) && Enabled(s6, Send(u)) && Step(policy, s6, Send(u)).alive
    ensures var s6 := Exec(policy, Step(policy, s, FlushCall(u)), c);
            var s7 := Step(policy, s6, Send(u));
            && u in s7.calls && s7.calls[u] == Waiting(|s6.queued|)
            && s6.taken == s7.taken <= |s6.queued|
  {
    hide Exec, Legal;
    FlushWaits(policy, Step(policy, s, FlushCall(u)), c, u);
  }

  lemma {:induction false} FlushWaits(policy: FlushPolicy, s: System, c: seq<Label>, u: Thread)
    requires u in s.calls && s.calls[u] == Call.Flushing
    requires Legal(policy, s, c) && Return(u) !in c && Send(u) !in c
    ensures u in Exec(policy, s, c).calls && Exec(policy, s, c).calls[u] == Call.Flushing
  {
    if c != [] {
      hide Turn, HasRoom;
      var front, last := c[..|c| - 1], c[|c| - 1];
      assert last == c[|c| - 1] && last != Return(u) && last != Send(u);
      FlushWaits(policy, s, front, u);
    }
  }

  /**
   Flush linearises. In any run with a live writer in which a line is submitted, by a `submit` that
   returned or a `try_submit` that returned true, and a flush is called later: the flush can return if
   and only if the writer has since received its queue position, less the jobs received before, plus one;
   and when it can, the sink holds the line, after everything queued before it, and all other lines
   queued before the flush was called.
   */
  lemma FlushLinearises(
      policy: FlushPolicy, s: System, t: Thread, bytes: Bytes, try: bool, a: seq<Label>, b: seq<Label>,
      u: Thread, c: seq<Label>, d: seq<Label>)
    requires Inv(policy, s)
    requires var first := [SubmitLabel(t, bytes, try)] + a + [Return(t)] + b;
             && Legal(policy, s, first + ([FlushCall(u)] + c + [Send(u)] + d))
             && Exec(policy, s, first + ([FlushCall(u)] + c + [Send(u)] + d)).alive
    requires Return(t) !in a && Return(u) !in c && Send(u) !in c && Return(u) !in d
    requires try ==> Legal(policy, s, [SubmitLabel(t, bytes, try)] + a) &&
                     var s2 := Exec(policy, s, [SubmitLabel(t, bytes, try)] + a);
                     t in s2.calls && s2.calls[t] == Done(true)
    ensures var first := [SubmitLabel(t, bytes, try)] + a + [Return(t)] + b;
            && Legal(policy, s, first) && Legal(policy, Exec(policy, s, first), [FlushCall(u)] + c)
            && var s4 := Exec(policy, s, first);
               var s6 := Exec(policy, s4, [FlushCall(u)] + c);
               var s8 := Exec(policy, s, first + ([FlushCall(u)] + c + [Send(u)] + d));
               && s6.taken <= |s6.queued|
               && (Enabled(s8, Return(u)) <==> Receives(d) >= |s6.queued| - s6.taken + 1)
               && (Enabled(s8, Return(u)) ==>
                     && Lines(s4.queued) <= s8.writer.out.sink
                     && LineIn(s4.queued, |s.queued|, bytes, s8.writer.out.sink))
  {
    hide Step, Enabled, Exec, Legal, Inv, Lines, QueuedFrom, LineIn;
    var first := [SubmitLabel(t, bytes, try)] + a + [Return(t)] + b;
    var second := [FlushCall(u)] + c + [Send(u)] + d;
    ExecConcat(policy, s, first, second);
    Grows(policy, Exec(policy, s, first), second);
    SubmittedBefore(policy, s, t, bytes, try, a, b);
    var s4 := Exec(policy, s, first);
    FlushedAfter(policy, s4, u, c, d);
    if Enabled(Exec(policy, s4, second), Return(u)) {
      DeliveredLine(s4, |s.queued|, bytes, Exec(policy, s4, second).writer.out.sink);
    }
  }

  /** The line is in the queue from a mark on, and in the bytes, after everything queued before it. */
  ghost predicate LineIn(queued: seq<Job>, mark: nat, bytes: Bytes, sink: Bytes) {
    exists p :: mark <= p < |queued| && queued[p] == Line(bytes) && Lines(queued[..p]) + bytes <= sink
  }

  lemma DeliveredLine(s: System, mark: nat, bytes: Bytes, sink: Bytes)
    requires QueuedFrom(s, mark, bytes) && Lines(s.queued) <= sink
    ensures LineIn(s.queued, mark, bytes, sink)
  {
    hide Lines;
    var p :| mark <= p < |s.queued| && s.queued[p] == Line(bytes);
    LinesAppend(s.queued[..p], s.queued[p]);
    assert s.queued[..p + 1] == s.queued[..p] + [s.queued[p]];
    LinesPrefix(s.queued, p + 1);
    assert Lines(s.queued[..p]) + bytes <= Lines(s.queued);
  }

  // ---- The process-wide statics ----

  datatype SendOutcome = Accepted | Closed(job: Job) | Blocks

  /** The sending half of the channel; `limit` is the size of a bounded one. */
  class ChannelSender {
    const limit: Option<nat>
    var jobs: seq<Job>
    var open: bool

    constructor (limit: Option<nat>)
      ensures this.limit == limit && jobs == [] && open
    {
      this.limit, jobs, open := limit, [], true;
    }

    predicate Full()
      reads this
    {
      limit.Some? && |jobs| >= limit.value
    }

    /** A blocking send, up to the point where it blocks: then nothing has changed and the caller waits. */
    method Send(job: Job) returns (r: SendOutcome)
      modifies this`jobs
      ensures r == if !open then Closed(job) else if old(Full()) then Blocks else Accepted
      ensures jobs == old(jobs) + if r.Accepted? then [job] else []
    {
      if !open {
        return Closed(job);
      }
      if Full() {
        return Blocks;
      }
      jobs := jobs + [job];
      return Accepted;
    }

    method TrySend(job: Job) returns (r: Result<(), Job>)
      modifies this`jobs
      ensures r == if open && !old(Full()) then Ok(()) else Err(job)
      ensures jobs == old(jobs) + if open && !old(Full()) then [job] else []
    {
      if !open || Full() {
        return Err(job);
      }
      jobs := jobs + [job];
      return Ok(());
    }
  }

  /** Without a capacity the channel is unbounded; a bounded one has room for one job at least. */
  ghost predicate Sized(limit: Option<nat>, capacity: Option<Capacity>) {
    && (capacity == None || capacity == Some(Unbounded) ==> limit == None)
    && (forall n :: capacity == Some(Bounded(n)) ==> limit == Some(if n == 0 then 1 else n))
  }

  /** `POLICY`, `CAPACITY`, `SENDER` and `DROPPED`: three cells that are written once, and a counter. */
  class Statics {
    var policy: Option<FlushPolicy>
    var capacity: Option<Capacity>
    var sender: ChannelSender?
    var dropped: nat

    constructor ()
      ensures policy == None && capacity == None && sender == null && dropped == 0
    {
      policy, capacity, sender, dropped := None, None, null, 0;
    }

    method SetFlushPolicy(p: FlushPolicy)
      modifies this`policy
      ensures policy == if old(policy).Some? then old(policy) else Some(p)
      ensures CurrentFlushPolicy() == if old(policy).Some? then old(CurrentFlushPolicy()) else p
    {
      if policy.None? {
        policy := Some(p);
      }
    }

    method SetChannelCapacity(c: Capacity)
      modifies this`capacity
      ensures capacity == if old(capacity).Some? then old(capacity) else Some(c)
    {
      if capacity.None? {
        capacity := Some(c);
      }
    }

    function CurrentFlushPolicy(): (p: FlushPolicy)
      reads this
      ensures policy == None ==> p == FlushPolicy(100_000_000, 8192, 1000)
      ensures policy.Some? ==> p == policy.value
    {
      if policy.Some? then policy.value else DEFAULT_POLICY
    }

    function CurrentChannelCapacity(): (c: Capacity)
      reads this
      ensures capacity == None ==> c == Unbounded
      ensures capacity.Some? ==> c == capacity.value
    {
      if capacity.Some? then capacity.value else Unbounded
    }

    /** `SENDER.get_or_init(init_sender)`: the channel keeps the limit it was created with. */
    method InitSender() returns (tx: ChannelSender)
      modifies this`sender
      ensures sender == tx
      ensures old(sender) != null ==> tx == old(sender)
      ensures old(sender) == null ==>
        && fresh(tx) && tx.jobs == [] && tx.open && !tx.Full() && Sized(tx.limit, capacity)
    {
      if sender != null {
        return sender;
      }
      match CurrentChannelCapacity() {
        case Unbounded => tx := new ChannelSender(None);
        case Bounded(n) => tx := new ChannelSender(Some(if n > 1 then n else 1));
      }
      sender := tx;
    }

    /** Whether the call waits for room; if so its line is neither queued nor dropped yet. */
    method Submit(bytes: Bytes) returns (blocks: bool)
      modifies this`sender, this`dropped, sender
      ensures sender != null && (old(sender) != null ==> sender == old(sender))
      ensures blocks == (old(sender) != null && old(sender.open) && old(sender.Full()))
      ensures old(sender) == null ==>
        fresh(sender) && sender.jobs == [Line(bytes)] && sender.open && Sized(sender.limit, capacity)
      ensures old(sender) != null ==> sender.open == old(sender.open)
      ensures old(sender) != null ==>
        sender.jobs == old(sender.jobs) + if sender.open && !blocks then [Line(bytes)] else []
      ensures dropped == old(dropped) + if old(sender) != null && !sender.open then 1 else 0
    {
      var tx := InitSender();
      var r := tx.Send(Line(bytes));
      if r.Closed? {
        dropped := dropped + 1;
      }
      blocks := r.Blocks?;
    }

    method TrySubmit(bytes: Bytes) returns (ok: bool)
      modifies this`sender, this`dropped, sender
      ensures sender != null && (old(sender) != null ==> sender == old(sender))
      ensures old(sender) == null ==> fresh(sender) && ok && sender.jobs == [Line(bytes)]
      ensures old(sender) != null ==>
        && ok == (sender.open && !old(sender.Full()))
        && sender.jobs == old(sender.jobs) + if ok then [Line(bytes)] else []
      ensures dropped == old(dropped) + if ok then 0 else 1
    {
      var tx := InitSender();
      var r := tx.TrySend(Line(bytes));
      match r {
        case Ok(_) => ok := true;
        case Err(_) =>
          dropped := dropped + 1;
          ok := false;
      }
    }
  }

  // ---- Submits from fresh statics ----

  /** How many lines a channel with no receiver takes before a send blocks. */
  function Fitting(capacity: Option<Capacity>, n: nat): nat {
    match capacity
    case Some(Bounded(size)) =>
      var room := if size == 0 then 1 else size;
      if n < room then n else room
    case _ => n
  }

  function LineJobsOf(lines: seq<Bytes>): seq<Job> {
    seq(|lines|, i requires 0 <= i < |lines| => Line(lines[i]))
  }

  /**
   Submits in a row before anything was sent, up to the first that blocks: with no capacity set all
   lines are queued, in order; with a bounded one just as many as it has room for, and at least one.
   */
  method SubmitInRow(statics: Statics, lines: seq<Bytes>) returns (n: nat)
    requires statics.sender == null
    modifies statics`sender, statics`dropped
    ensures n == Fitting(statics.capacity, |lines|) <= |lines|
    ensures statics.dropped == old(statics.dropped)
    ensures lines != [] ==> statics.sender != null && statics.sender.jobs == LineJobsOf(lines[..n])
  {
    n := 0;
    while n < |lines|
      invariant n <= |lines| && statics.dropped == old(statics.dropped)
      invariant n == 0 ==> statics.sender == null
      invariant n > 0 ==>
        && statics.sender != null && fresh(statics.sender) && statics.sender.open
        && statics.sender.jobs == LineJobsOf(lines[..n]) && Sized(statics.sender.limit, statics.capacity)
      invariant n <= Fitting(statics.capacity, |lines|)
    {
      var blocks := statics.Submit(lines[n]);
      if blocks {
        return;
      }
      assert LineJobsOf(lines[..n + 1]) == LineJobsOf(lines[..n]) + [Line(lines[n])];
      n := n + 1;
    }
  }
}
