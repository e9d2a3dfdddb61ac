/**
 Guards and channel together: what whole programs on any number of threads emit is what arrives, each
 thread's events in its own order.
 */
module EmittedStream {
  import opened Utf8
  import opened Serializer
  import opened EventDocuments
  import opened DocumentMeaning
  import opened Writers
  import opened StdoutEmit
  import opened Pipeline
  import Guards
  import GuardRuns
  import GuardEmissions
  import GuardPrograms
  import JsonParser

  // ---- The lines of each thread ----

  /** The values of one thread, in order. */
  function ForThread<T>(tagged: seq<(Thread, T)>, t: Thread): seq<T> {
    if tagged == [] then [] else
    var last := tagged[|tagged| - 1];
    ForThread(tagged[..|tagged| - 1], t) + if last.0 == t then [last.1] else []
  }

  function Untagged<T>(tagged: seq<(Thread, T)>): seq<T> {
    seq(|tagged|, i requires 0 <= i < |tagged| => tagged[i].1)
  }

  lemma ForThreadPush<T>(tagged: seq<(Thread, T)>, last: (Thread, T), t: Thread)
    ensures ForThread(tagged + [last], t) == ForThread(tagged, t) + if last.0 == t then [last.1] else []
  {
    assert (tagged + [last])[..|tagged|] == tagged;
  }

  /** The line that a send queues, with its thread. */
  function NewLine(s: System, l: Label): seq<(Thread, Bytes)>
    requires Enabled(s, l)
  {
    match l
    case Send(t) =>
      (match s.calls[t]
       case Submitting(bytes) => if s.alive then [(t, bytes)] else []
       case Trying(bytes) => if s.alive && HasRoom(s) then [(t, bytes)] else []
       case _ => [])
    case _ => []
  }

  /** The lines queued in a run, with their threads, in queue order. */
  function QueuedBy(policy: FlushPolicy, s: System, ls: seq<Label>): seq<(Thread, Bytes)>
    requires Legal(policy, s, ls)
  {
    if ls == [] then [] else
    var front, last := ls[..|ls| - 1], ls[|ls| - 1];
    QueuedBy(policy, s, front) + NewLine(Exec(policy, s, front), last)
  }

  function LineOfBytes(lines: seq<Bytes>): seq<Job> {
    seq(|lines|, i requires 0 <= i < |lines| => Line(lines[i]))
  }

  lemma OnlyLinesPush(jobs: seq<Job>, job: Job)
    ensures OnlyLines(jobs + [job]) == OnlyLines(jobs) + if job.Line? then [job] else []
  {
    assert (jobs + [job])[..|jobs|] == jobs;
  }

  lemma StepQueues(policy: FlushPolicy, s: System, l: Label)
    requires Enabled(s, l)
    ensures OnlyLines(Step(policy, s, l).queued)
         == OnlyLines(s.queued) + LineOfBytes(Untagged(NewLine(s, l)))
  {
    hide Turn, HasRoom, OnlyLines;
    if l.Send? && Step(policy, s, l).queued != s.queued {
      OnlyLinesPush(s.queued, Step(policy, s, l).queued[|s.queued|]);
    }
  }

  lemma LinesConcat(a: seq<(Thread, Bytes)>, b: seq<(Thread, Bytes)>)
    ensures LineOfBytes(Untagged(a + b)) == LineOfBytes(Untagged(a)) + LineOfBytes(Untagged(b))
  {
  }

  /** The line jobs that a run adds to the queue are the lines that the threads sent. */
  lemma {:induction false} QueueLines(policy: FlushPolicy, s: System, ls: seq<Label>)
    requires Legal(policy, s, ls)
    ensures OnlyLines(Exec(policy, s, ls).queued)
         == OnlyLines(s.queued) + LineOfBytes(Untagged(QueuedBy(policy, s, ls)))
  {
    hide Step, Enabled, NewLine, LineOfBytes, Untagged, OnlyLines;
    if ls != [] {
      var front, last := ls[..|ls| - 1], ls[|ls| - 1];
      QueueLines(policy, s, front);
      StepQueues(policy, Exec(policy, s, front), last);
      LinesConcat(QueuedBy(policy, s, front), NewLine(Exec(policy, s, front), last));
    } else {
      NoLinesTagged();
    }
  }

  lemma NoLinesTagged()
    ensures LineOfBytes(Untagged([])) == [] && OnlyLines([]) == []
  {
  }

  /** The lines that a thread's `submit` calls were given, in call order. */
  function SubmittedBy(ls: seq<Label>, t: Thread): seq<Bytes> {
    if ls == [] then [] else
    var last := ls[|ls| - 1];
    SubmittedBy(ls[..|ls| - 1], t) + if last.Submit? && last.t == t then [last.bytes] else []
  }

  function Pending(s: System, t: Thread): seq<Bytes> {
    if t in s.calls && s.calls[t].Submitting? then [s.calls[t].bytes] else []
  }

  predicate NoTrying(s: System) { forall t :: t in s.calls ==> !s.calls[t].Trying? }

  lemma StepSubmits(policy: FlushPolicy, s: System, l: Label, t: Thread)
    requires Enabled(s, l) && Step(policy, s, l).alive && NoTrying(s) && !l.TrySubmit?
    ensures s.alive && NoTrying(Step(policy, s, l))
    ensures Pending(s, t) + (if l.Submit? && l.t == t then [l.bytes] else [])
         == ForThread(NewLine(s, l), t) + Pending(Step(policy, s, l), t)
  {
    hide Turn, HasRoom;
    if l.Send? {
      var line := NewLine(s, l);
      assert line != [] ==> line[..0] == [];
    }
  }

  lemma {:induction false} ForThreadConcat<T>(a: seq<(Thread, T)>, b: seq<(Thread, T)>, t: Thread)
    ensures ForThread(a + b, t) == ForThread(a, t) + ForThread(b, t)
  {
    if b == [] {
      assert a + b == a;
    } else {
      assert (a + b)[..|a + b| - 1] == a + b[..|b| - 1];
      ForThreadConcat(a, b[..|b| - 1], t);
    }
  }

  predicate SubmitsOnly(ls: seq<Label>) { forall i :: 0 <= i < |ls| ==> !ls[i].TrySubmit? }

  /** While the writer lives, each thread's lines are queued in the order of its calls. */
  lemma {:induction false} SubmitsQueue(policy: FlushPolicy, s: System, ls: seq<Label>, t: Thread)
    requires s.calls == map[] && Legal(policy, s, ls) && Exec(policy, s, ls).alive && SubmitsOnly(ls)
    ensures NoTrying(Exec(policy, s, ls))
    ensures SubmittedBy(ls, t)
         == ForThread(QueuedBy(policy, s, ls), t) + Pending(Exec(policy, s, ls), t)
  {
    if ls != [] {
      hide Step, Enabled, NewLine, Pending, ForThread, NoTrying;
      var front, last := ls[..|ls| - 1], ls[|ls| - 1];
      var s' := Exec(policy, s, front);
      var line := NewLine(s', last);
      StepAlive(policy, s', last);
      SubmitsQueue(policy, s, front, t);
      StepSubmits(policy, s', last, t);
      ForThreadConcat(QueuedBy(policy, s, front), line, t);
      assert !last.TrySubmit?;
      var submitted := if last.Submit? && last.t == t then [last.bytes] else [];
      Moved(ForThread(QueuedBy(policy, s, front), t), Pending(s', t), submitted,
            ForThread(line, t), Pending(Exec(policy, s, ls), t));
    }
  }

  lemma Moved<T>(queued: seq<T>, pending: seq<T>, submitted: seq<T>, sent: seq<T>, left: seq<T>)
    requires pending + submitted == sent + left
    ensures (queued + pending) + submitted == (queued + sent) + left
  {
    assert (queued + pending) + submitted == queued + (pending + submitted);
  }

  lemma StepAlive(policy: FlushPolicy, s: System, l: Label)
    requires Enabled(s, l) && Step(policy, s, l).alive
    ensures s.alive
  {
    hide Turn, HasRoom;
  }

  /** What a thread's call has queued so far. */
  function QueuedInCall(s: System, t: Thread, bytes: Bytes): seq<Bytes>
    requires t in s.calls
  {
    if s.calls[t] == Done(true) then [bytes] else []
  }

  ghost predicate InCall(s: System, t: Thread, bytes: Bytes) {
    t in s.calls && (s.calls[t] == Submitting(bytes) || s.calls[t] == Trying(bytes) || s.calls[t].Done?)
  }

  lemma CallStep(policy: FlushPolicy, s: System, l: Label, t: Thread, bytes: Bytes)
    requires InCall(s, t, bytes) && Enabled(s, l) && l != Return(t)
    ensures InCall(Step(policy, s, l), t, bytes)
    ensures QueuedInCall(s, t, bytes) + ForThread(NewLine(s, l), t) == QueuedInCall(Step(policy, s, l), t, bytes)
  {
    hide Turn, HasRoom;
    var line := NewLine(s, l);
    assert line != [] ==> line[..0] == [];
  }

  /**
   From its call to its return, a `submit` or `try_submit` queues its line once if it reports success,
   and not at all otherwise.
   */
  lemma {:induction false} CallQueuesOnce(
      policy: FlushPolicy, s: System, t: Thread, bytes: Bytes, try: bool, ls: seq<Label>)
    requires Enabled(s, SubmitLabel(t, bytes, try))
    requires Legal(policy, Step(policy, s, SubmitLabel(t, bytes, try)), ls) && Return(t) !in ls
    ensures var s1 := Step(policy, s, SubmitLabel(t, bytes, try));
            var s2 := Exec(policy, s1, ls);
            && InCall(s2, t, bytes)
            && ForThread(QueuedBy(policy, s1, ls), t) == if s2.calls[t] == Done(true) then [bytes] else []
  {
    hide Step, Enabled, InCall, QueuedInCall, NewLine, ForThread, HasRoom;
    var s1 := Step(policy, s, SubmitLabel(t, bytes, try));
    if ls == [] {
      CallBegins(policy, s, t, bytes, try);
    } else {
      var front, last := ls[..|ls| - 1], ls[|ls| - 1];
      assert last in ls;
      CallQueuesOnce(policy, s, t, bytes, try, front);
      var s2 := Exec(policy, s1, front);
      CallStep(policy, s2, last, t, bytes);
      ForThreadConcat(QueuedBy(policy, s1, front), NewLine(s2, last), t);
      InCallKnown(s2, t, bytes);
    }
    InCallKnown(Exec(policy, s1, ls), t, bytes);
  }

  lemma CallBegins(policy: FlushPolicy, s: System, t: Thread, bytes: Bytes, try: bool)
    requires Enabled(s, SubmitLabel(t, bytes, try))
    ensures var s1 := Step(policy, s, SubmitLabel(t, bytes, try));
            InCall(s1, t, bytes) && QueuedInCall(s1, t, bytes) == ForThread<Bytes>([], t)
  {
  }

  lemma InCallKnown(s: System, t: Thread, bytes: Bytes)
    ensures InCall(s, t, bytes) ==>
      t in s.calls && QueuedInCall(s, t, bytes) == if s.calls[t] == Done(true) then [bytes] else []
  {
  }

  /** With no submit under way or begun, no line is queued any more. */
  lemma {:induction false} QuietQueue(policy: FlushPolicy, s: System, ls: seq<Label>)
    requires Legal(policy, s, ls) && InFlight(s.calls) == {}
    requires forall i :: 0 <= i < |ls| ==> !ls[i].Submit? && !ls[i].TrySubmit?
    ensures InFlight(Exec(policy, s, ls).calls) == {}
    ensures OnlyLines(Exec(policy, s, ls).queued) == OnlyLines(s.queued)
  {
    if ls != [] {
      hide OnlyLines, Enabled, Step;
      var front, last := ls[..|ls| - 1], ls[|ls| - 1];
      QuietQueue(policy, s, front);
      QuietStep(policy, Exec(policy, s, front), last);
    }
  }

  lemma QuietStep(policy: FlushPolicy, s: System, l: Label)
    requires Enabled(s, l) && InFlight(s.calls) == {} && !l.Submit? && !l.TrySubmit?
    ensures InFlight(Step(policy, s, l).calls) == {}
    ensures OnlyLines(Step(policy, s, l).queued) == OnlyLines(s.queued)
  {
    hide Turn, HasRoom, OnlyLines;
    assert forall t :: t in s.calls ==> t !in InFlight(s.calls);
    StepQueues(policy, s, l);
    assert NewLine(s, l) == [];
    assert forall t :: t in Step(policy, s, l).calls ==> t !in InFlight(Step(policy, s, l).calls);
  }

  // ---- What the programs emit ----

  /** The schemas of the events of a run, in the order of construction. */
  function SchemasBuilt(steps: seq<Guards.Step>): (r: seq<Guards.Schema>)
    ensures |r| == Guards.Builds(steps)
  {
    if steps == [] then [] else
    var last := steps[|steps| - 1];
    SchemasBuilt(steps[..|steps| - 1]) + if last.Build? then [last.schema] else []
  }

  lemma EmissionsKnown(ops: seq<GuardPrograms.Op>)
    requires GuardPrograms.Written(ops, 0)
    ensures var steps := GuardPrograms.Flatten(ops, 0, false);
            && Guards.AllTyped(steps)
            && forall i :: 0 <= i < |Guards.Exec(steps).emitted| ==>
                 Guards.Exec(steps).emitted[i].event < |SchemasBuilt(steps)|
  {
    hide Guards.Exec, GuardPrograms.Flatten, GuardPrograms.Written, Guards.Orderly, GuardRuns.Drops,
      GuardEmissions.Content;
    GuardPrograms.ProgramConserves(ops);
  }

  /** What a program emits, in order, each event with the names of its own schema. */
  function EmittedBy(names: Guards.Schema -> Names, ops: seq<GuardPrograms.Op>): seq<Emitted>
    requires GuardPrograms.Written(ops, 0)
  {
    var steps := GuardPrograms.Flatten(ops, 0, false);
    EmissionsKnown(ops);
    var emitted := Guards.Exec(steps).emitted;
    seq(|emitted|, i requires 0 <= i < |emitted| =>
      Emitted(names(SchemasBuilt(steps)[emitted[i].event]), emitted[i].content))
  }

  predicate Programs(programs: seq<seq<GuardPrograms.Op>>) {
    forall t :: 0 <= t < |programs| ==> GuardPrograms.Written(programs[t], 0)
  }

  /** Thread `t` runs the program of that number, and other threads run none. */
  function EmittedOn(names: Guards.Schema -> Names, programs: seq<seq<GuardPrograms.Op>>, t: Thread): seq<Emitted>
    requires Programs(programs)
  {
    if t < |programs| then EmittedBy(names, programs[t]) else []
  }

  function LinesOf(evs: seq<Emitted>): seq<Bytes> {
    seq(|evs|, i requires 0 <= i < |evs| => EventLine(evs[i].ns, evs[i].ev))
  }

  lemma LinesOfPush(evs: seq<Emitted>, last: Emitted)
    ensures LinesOf(evs + [last]) == LinesOf(evs) + [EventLine(last.ns, last.ev)]
  {
    hide EventLine;
  }

  lemma UntaggedPush<T>(tagged: seq<(Thread, T)>, last: (Thread, T))
    ensures Untagged(tagged + [last]) == Untagged(tagged) + [last.1]
  {
  }

  /** Lines that each thread took from the front of its events are an interleaving of those events. */
  lemma {:induction false} TagLines(lines: seq<(Thread, Bytes)>, emitted: Thread -> seq<Emitted>)
    returns (es: seq<(Thread, Emitted)>)
    requires forall t: Thread :: ForThread(lines, t) <= LinesOf(emitted(t))
    ensures forall t: Thread ::
      |ForThread(lines, t)| <= |emitted(t)| && ForThread(es, t) == emitted(t)[..|ForThread(lines, t)|]
    ensures LinesOf(Untagged(es)) == Untagged(lines)
  {
    if lines == [] {
      es := [];
    } else {
      hide EventLine, Untagged, LinesOf, ForThread;
      var front, last := lines[..|lines| - 1], lines[|lines| - 1];
      assert front + [last] == lines;
      forall t: Thread
        ensures ForThread(front, t) <= LinesOf(emitted(t))
      {
        NextLine(front, last, t, emitted(t));
      }
      var es' := TagLines(front, emitted);
      NextLine(front, last, last.0, emitted(last.0));
      var ev := emitted(last.0)[|ForThread(front, last.0)|];
      es := es' + [(last.0, ev)];
      UntaggedPush(front, last);
      UntaggedPush(es', (last.0, ev));
      LinesOfPush(Untagged(es'), ev);
      forall t: Thread
        ensures |ForThread(lines, t)| <= |emitted(t)| && ForThread(es, t) == emitted(t)[..|ForThread(lines, t)|]
      {
        NextLine(front, last, t, emitted(t));
        ForThreadPush(es', (last.0, ev), t);
      }
    }
  }

  lemma NextLine(front: seq<(Thread, Bytes)>, last: (Thread, Bytes), t: Thread, evs: seq<Emitted>)
    requires ForThread(front + [last], t) <= LinesOf(evs)
    ensures ForThread(front, t) <= LinesOf(evs)
    ensures var n := |ForThread(front, t)|;
            && |ForThread(front + [last], t)| == n + (if last.0 == t then 1 else 0) <= |evs|
            && (last.0 == t ==> n < |evs| && EventLine(evs[n].ns, evs[n].ev) == last.1)
  {
    hide EventLine, ForThread;
    ForThreadPush(front, last, t);
    if last.0 == t {
      assert LinesOf(evs)[|ForThread(front, t)|] == last.1;
    }
  }

  lemma {:induction false} TaggedIsIn<T>(es: seq<(Thread, T)>, i: nat)
    requires i < |es|
    ensures es[i].1 in ForThread(es, es[i].0)
  {
    if i < |es| - 1 {
      TaggedIsIn(es[..|es| - 1], i);
    }
  }

  lemma JobsOfLines(evs: seq<Emitted>)
    ensures LineOfBytes(LinesOf(evs)) == EventJobs(evs)
  {
    hide EventLine;
  }

  /** A returned flush, with no submit since it was called, leaves exactly what was queued in the sink. */
  lemma FlushedExactly(policy: FlushPolicy, s: System, u: Thread, rest: seq<Label>, evs: seq<Emitted>)
    requires Inv(policy, s) && Enabled(s, FlushCall(u)) && InFlight(s.calls) == {}
    requires OnlyLines(s.queued) == EventJobs(evs)
    requires var s1 := Step(policy, s, FlushCall(u));
             && Legal(policy, s1, rest) && Return(u) !in rest
             && (forall i :: 0 <= i < |rest| ==> !rest[i].Submit? && !rest[i].TrySubmit?)
             && Exec(policy, s1, rest).alive && Enabled(Exec(policy, s1, rest), Return(u))
    ensures Exec(policy, Step(policy, s, FlushCall(u)), rest).writer.out.sink == EventStream(evs)
  {
    hide Legal, Exec, Step, Enabled, EventLine, EventStream, EventJobs, OnlyLines, Lines, Inv, InFlight;
    var s1 := Step(policy, s, FlushCall(u));
    var s2 := Exec(policy, s1, rest);
    FlushedEvents(policy, s, u, rest, evs);
    QuietStep(policy, s, FlushCall(u));
    QuietQueue(policy, s1, rest);
    StepInv(policy, s, FlushCall(u));
    ExecInv(policy, s1, rest);
    SinkWithin(policy, s2);
    FlushesAreSilent(s2.queued);
    StreamOfJobs(evs);
  }

  lemma SinkWithin(policy: FlushPolicy, s: System)
    requires Inv(policy, s)
    ensures s.writer.out.sink <= Lines(s.queued)
  {
    hide Lines, Run, JobsOf;
    var m := SinkIsPrefix(policy, s);
    LinesPrefix(s.queued, m);
  }

  /** The queue's lines are an interleaving of the events of the threads. */
  lemma Interleaved(
      programs: seq<seq<GuardPrograms.Op>>, names: Guards.Schema -> Names, policy: FlushPolicy,
      capacity: Capacity, now: nat, ls: seq<Label>)
    returns (es: seq<(Thread, Emitted)>)
    requires Programs(programs) && Legal(policy, Initial(capacity, now), ls) && SubmitsOnly(ls)
    requires forall t: Thread :: SubmittedBy(ls, t) == LinesOf(EmittedOn(names, programs, t))
    requires var s := Exec(policy, Initial(capacity, now), ls);
             InFlight(s.calls) == {} && s.alive
    ensures forall t: Thread :: ForThread(es, t) == EmittedOn(names, programs, t)
    ensures OnlyLines(Exec(policy, Initial(capacity, now), ls).queued) == EventJobs(Untagged(es))
  {
    hide Legal, Exec, EventLine, OnlyLines, QueuedBy, SubmittedBy, EmittedBy, Untagged, LineOfBytes, ForThread,
      EventJobs, SubmitsOnly;
    var s0 := Initial(capacity, now);
    var lines := QueuedBy(policy, s0, ls);
    var emitted := (t: Thread) requires Programs(programs) => EmittedOn(names, programs, t);
    forall t: Thread
      ensures ForThread(lines, t) == LinesOf(EmittedOn(names, programs, t))
    {
      SubmitsQueue(policy, s0, ls, t);
      NonePending(Exec(policy, s0, ls), t);
      assert SubmittedBy(ls, t) == LinesOf(EmittedOn(names, programs, t));
    }
    es := TagLines(lines, emitted);
    QueueLines(policy, s0, ls);
    NoLinesTagged();
    JobsOfLines(Untagged(es));
  }

  lemma NonePending(s: System, t: Thread)
    requires InFlight(s.calls) == {}
    ensures Pending(s, t) == []
  {
    assert t in s.calls ==> t !in InFlight(s.calls);
  }

  predicate AllNumeric(evs: seq<Emitted>) { forall i :: 0 <= i < |evs| ==> NumericFloats(evs[i].ev) }

  /**
   Any number of threads run programs that emit by the default, each handing its events to `submit` in
   the order it emits them, with events of any schemas. Once all submits are through and a later flush
   has returned, the stream is an interleaving of the threads' emissions: split at newlines it gives
   each emitted event once, each thread's in order, and each line parses to its event's document.
   */
  lemma ProgramsDelivered(
      programs: seq<seq<GuardPrograms.Op>>, names: Guards.Schema -> Names, policy: FlushPolicy,
      capacity: Capacity, now: nat, ls: seq<Label>, u: Thread, rest: seq<Label>)
    returns (es: seq<(Thread, Emitted)>)
    requires Programs(programs) && Legal(policy, Initial(capacity, now), ls) && SubmitsOnly(ls)
    requires forall t: Thread :: SubmittedBy(ls, t) == LinesOf(EmittedOn(names, programs, t))
    requires forall t: Thread :: AllNumeric(EmittedOn(names, programs, t))
    requires var s := Exec(policy, Initial(capacity, now), ls);
             InFlight(s.calls) == {} && Enabled(s, FlushCall(u)) &&
             var s1 := Step(policy, s, FlushCall(u));
             && Legal(policy, s1, rest) && Return(u) !in rest
             && (forall i :: 0 <= i < |rest| ==> !rest[i].Submit? && !rest[i].TrySubmit?)
             && Exec(policy, s1, rest).alive && Enabled(Exec(policy, s1, rest), Return(u))
    ensures forall t: Thread :: ForThread(es, t) == EmittedOn(names, programs, t)
    ensures var s := Exec(policy, Initial(capacity, now), ls);
            var sink := Exec(policy, Step(policy, s, FlushCall(u)), rest).writer.out.sink;
            sink == EventStream(Untagged(es)) && Split(sink, []) == EventBodies(Untagged(es))
    ensures forall i :: 0 <= i < |es| ==> BodyIs(Untagged(es), i)
  {
    hide Legal, Exec, Step, Enabled, EventLine, EventStream, EventBodies, OnlyLines, Lines, Inv, InFlight, Split,
      SubmittedBy, EmittedOn, DocEvent, Decode, JsonParser.ParseText, NumericFloats, LinesOf, ForThread,
      SubmitsOnly, EventJobs;
    var s0 := Initial(capacity, now);
    var s := Exec(policy, s0, ls);
    Grows(policy, Step(policy, s, FlushCall(u)), rest);
    StepAlive(policy, s, FlushCall(u));
    es := Interleaved(programs, names, policy, capacity, now, ls);
    InitialInv(policy, capacity, now);
    ExecInv(policy, s0, ls);
    FlushedExactly(policy, s, u, rest, Untagged(es));
    forall i | 0 <= i < |es|
      ensures NumericFloats(es[i].1.ev) && BodyIs(Untagged(es), i)
    {
      TaggedIsIn(es, i);
      assert AllNumeric(EmittedOn(names, programs, es[i].0));
      BodyIsDocument(Untagged(es), i);
    }
    SplitStream(Untagged(es));
  }

  /** A line of the stream, decoded and parsed, stands for its event. */
  ghost predicate BodyIs(evs: seq<Emitted>, i: nat)
    requires i < |evs|
  {
    var decoded := Decode(EventBodies(evs)[i]);
    && decoded.Some?
    && var parsed := JsonParser.ParseText(decoded.value);
       parsed.Some? && parsed.value.Obj? && StandsForEvent(evs[i].ns, parsed.value.members, evs[i].ev)
  }

  lemma BodyIsDocument(evs: seq<Emitted>, i: nat)
    requires i < |evs| && NumericFloats(evs[i].ev)
    ensures BodyIs(evs, i)
  {
    hide DocEvent, Decode, JsonParser.ParseText, NumericFloats, EventText, StandsForEvent;
    BodyParses(evs[i].ns, evs[i].ev);
  }
}
