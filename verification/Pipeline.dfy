/** From events to the delivered stream and back: one line per event, recoverable in order. */
module Pipeline {
  import opened Wrappers
  import opened Utf8
  import opened WideEvents
  import opened Serializer
  import opened EventDocuments
  import opened DocumentMeaning
  import opened Writers
  import opened StdoutEmit
  import Json
  import JsonParser
  import JsonRoundTrip

  const NEWLINE: byte := 0x0A

  function EventText(ns: Names, ev: Event): string {
    Json.Print(DocEvent(ns, ev))
  }

  /** The line of an event: its UTF-8 text and a newline. */
  function EventLine(ns: Names, ev: Event): (line: Bytes)
    ensures line != [] && line[|line| - 1] == 10
  {
    Encode(EventText(ns, ev)) + [NEWLINE]
  }

  /**
   The generated `default_emit`, up to the hand-over to the writer thread. It returns whether the call
   waits for room in the channel.
   */
  method DefaultEmit(ns: Names, ev: WideEvent, statics: Statics) returns (blocks: bool)
    modifies statics`sender, statics`dropped, statics.sender
    ensures statics.sender != null && (old(statics.sender) != null ==> statics.sender == old(statics.sender))
    ensures blocks == (old(statics.sender) != null && old(statics.sender.open) && old(statics.sender.Full()))
    ensures old(statics.sender) == null ==> statics.sender.jobs == [Line(EventLine(ns, ev.Contents()))]
    ensures old(statics.sender) != null ==>
      statics.sender.jobs == old(statics.sender.jobs)
        + if statics.sender.open && !blocks then [Line(EventLine(ns, ev.Contents()))] else []
    ensures statics.dropped
         == old(statics.dropped) + if old(statics.sender) != null && !statics.sender.open then 1 else 0
  {
    var buf := new Sink([]);
    SerializeTo(ns, ev, buf);
    assert buf.text == EventText(ns, ev.Contents());
    assert buf.bytes == Encode(EventText(ns, ev.Contents()));
    blocks := statics.Submit(buf.bytes + [NEWLINE]);
  }

  // ---- Framing ----

  /** Splits at newlines; what follows the last newline is no line. */
  function Split(bs: Bytes, current: Bytes): seq<Bytes> {
    if bs == [] then []
    else if bs[0] == NEWLINE then [current] + Split(bs[1..], [])
    else Split(bs[1..], current + [bs[0]])
  }

  lemma {:induction false} SplitLine(body: Bytes, rest: Bytes, current: Bytes)
    requires NEWLINE !in body
    ensures Split(body + [NEWLINE] + rest, current) == [current + body] + Split(rest, [])
  {
    var bs := body + [NEWLINE] + rest;
    if body == [] {
      assert bs[1..] == rest && current + body == current;
    } else {
      assert bs[1..] == body[1..] + [NEWLINE] + rest;
      SplitLine(body[1..], rest, current + [body[0]]);
      assert current + [body[0]] + body[1..] == current + body;
    }
  }

  /** An event as a guard hands it over: with the names of its own schema. */
  datatype Emitted = Emitted(ns: Names, ev: Event)

  function EventJobs(evs: seq<Emitted>): seq<Job> {
    seq(|evs|, i requires 0 <= i < |evs| => Line(EventLine(evs[i].ns, evs[i].ev)))
  }

  function EventStream(evs: seq<Emitted>): Bytes {
    if evs == [] then [] else EventLine(evs[0].ns, evs[0].ev) + EventStream(evs[1..])
  }

  function EventBodies(evs: seq<Emitted>): seq<Bytes> {
    seq(|evs|, i requires 0 <= i < |evs| => Encode(EventText(evs[i].ns, evs[i].ev)))
  }

  lemma EventBodyOneLine(ns: Names, ev: Event)
    requires NumericFloats(ev)
    ensures NEWLINE !in Encode(EventText(ns, ev))
  {
    EventBytesNoControl(ns, ev);
  }

  lemma SplitFirst(evs: seq<Emitted>)
    requires evs != [] && NumericFloats(evs[0].ev)
    ensures Split(EventStream(evs), [])
         == [Encode(EventText(evs[0].ns, evs[0].ev))] + Split(EventStream(evs[1..]), [])
  {
    hide EventText, Split;
    var body := Encode(EventText(evs[0].ns, evs[0].ev));
    EventBodyOneLine(evs[0].ns, evs[0].ev);
    SplitLine(body, EventStream(evs[1..]), []);
    assert [] + body == body;
  }

  lemma BodiesFirst(evs: seq<Emitted>)
    requires evs != []
    ensures EventBodies(evs) == [Encode(EventText(evs[0].ns, evs[0].ev))] + EventBodies(evs[1..])
  {
    hide EventText;
  }

  /** Splitting a stream of events at newlines recovers exactly their texts, in order. */
  lemma {:induction false} SplitStream(evs: seq<Emitted>)
    requires forall i :: 0 <= i < |evs| ==> NumericFloats(evs[i].ev)
    ensures Split(EventStream(evs), []) == EventBodies(evs)
  {
    if evs != [] {
      hide EventStream, EventBodies, EventText, NumericFloats, Split;
      SplitFirst(evs);
      SplitStream(evs[1..]);
      BodiesFirst(evs);
    }
  }

  lemma JobsAppend(evs: seq<Emitted>, last: Emitted)
    ensures EventJobs(evs + [last]) == EventJobs(evs) + [Line(EventLine(last.ns, last.ev))]
  {
    hide EventLine;
  }

  lemma {:induction false} StreamOfJobs(evs: seq<Emitted>)
    ensures Lines(EventJobs(evs)) == EventStream(evs)
    decreases |evs|, 2
  {
    hide EventLine;
    if evs == [] {
      assert EventJobs(evs) == [];
    } else {
      StreamOfJobsStep(evs[..|evs| - 1], evs[|evs| - 1]);
      assert evs[..|evs| - 1] + [evs[|evs| - 1]] == evs;
    }
  }

  lemma {:induction false} StreamOfJobsStep(front: seq<Emitted>, last: Emitted)
    ensures Lines(EventJobs(front + [last])) == EventStream(front + [last])
    decreases |front| + 1, 1
  {
    hide EventLine, Lines, EventStream, EventJobs;
    StreamOfJobs(front);
    JobsAppend(front, last);
    LinesAppend(EventJobs(front), Line(EventLine(last.ns, last.ev)));
    StreamAppend(front, last);
  }

  lemma {:induction false} StreamAppend(evs: seq<Emitted>, last: Emitted)
    ensures EventStream(evs + [last]) == EventStream(evs) + EventLine(last.ns, last.ev)
  {
    hide EventLine;
    if evs == [] {
      assert [] + [last] == [last];
    } else {
      StreamAppend(evs[1..], last);
      assert (evs + [last])[1..] == evs[1..] + [last];
    }
  }

  /** The line jobs of a queue, without its flush requests. */
  function OnlyLines(jobs: seq<Job>): seq<Job> {
    if jobs == [] then [] else
    OnlyLines(jobs[..|jobs| - 1]) + if jobs[|jobs| - 1].Line? then [jobs[|jobs| - 1]] else []
  }

  lemma {:induction false} FlushesAreSilent(jobs: seq<Job>)
    ensures Lines(OnlyLines(jobs)) == Lines(jobs)
  {
    if jobs != [] {
      var front, last := jobs[..|jobs| - 1], jobs[|jobs| - 1];
      FlushesAreSilent(front);
      if last.Line? {
        LinesAppend(OnlyLines(front), last);
      } else {
        assert OnlyLines(jobs) == OnlyLines(front);
      }
    }
  }

  lemma {:induction false} OnlyLinesPrefix(jobs: seq<Job>, m: nat)
    requires m <= |jobs|
    ensures OnlyLines(jobs[..m]) <= OnlyLines(jobs)
  {
    if m == |jobs| {
      assert jobs[..m] == jobs;
    } else {
      OnlyLinesPrefix(jobs[..|jobs| - 1], m);
      assert jobs[..|jobs| - 1][..m] == jobs[..m];
    }
  }

  /** A part of a queue of events is the stream of the first of them. */
  lemma PartOfQueue(queued: seq<Job>, m: nat, evs: seq<Emitted>) returns (n: nat)
    requires m <= |queued| && OnlyLines(queued) == EventJobs(evs)
    ensures n <= |evs| && Lines(queued[..m]) == EventStream(evs[..n])
  {
    hide EventLine, Lines, EventStream, OnlyLines;
    OnlyLinesPrefix(queued, m);
    n := |OnlyLines(queued[..m])|;
    assert OnlyLines(queued[..m]) == EventJobs(evs)[..n] == EventJobs(evs[..n]);
    FlushesAreSilent(queued[..m]);
    StreamOfJobs(evs[..n]);
  }

  /**
   End to end: in every run in which the producers queue events, of one schema or of several, the sink
   always holds the first of them, whole and in queue order, and nothing else: splitting it at newlines
   gives their texts.
   */
  lemma DeliveredEvents(
      policy: FlushPolicy, capacity: Capacity, now: nat, ls: seq<Label>, evs: seq<Emitted>)
    returns (n: nat)
    requires Legal(policy, Initial(capacity, now), ls)
    requires forall i :: 0 <= i < |evs| ==> NumericFloats(evs[i].ev)
    requires OnlyLines(Exec(policy, Initial(capacity, now), ls).queued) == EventJobs(evs)
    ensures var sink := Exec(policy, Initial(capacity, now), ls).writer.out.sink;
            && n <= |evs| && sink == EventStream(evs[..n])
            && Split(sink, []) == EventBodies(evs[..n])
  {
    hide Legal, Exec, EventLine, EventText, EventStream, EventBodies, OnlyLines, Lines, Split, NumericFloats;
    var s := Exec(policy, Initial(capacity, now), ls);
    InitialInv(policy, capacity, now);
    ExecInv(policy, Initial(capacity, now), ls);
    var m := SinkIsPrefix(policy, s);
    n := PartOfQueue(s.queued, m, evs);
    SplitStream(evs[..n]);
  }

  /** When a flush returns, all events queued before it are in the sink. */
  lemma FlushedEvents(
      policy: FlushPolicy, s: System, t: Thread, ls: seq<Label>, evs: seq<Emitted>)
    requires Inv(policy, s) && Enabled(s, FlushCall(t)) && OnlyLines(s.queued) == EventJobs(evs)
    requires var s1 := Step(policy, s, FlushCall(t));
             && Legal(policy, s1, ls) && Return(t) !in ls
             && Exec(policy, s1, ls).alive && Enabled(Exec(policy, s1, ls), Return(t))
    ensures EventStream(evs) <= Exec(policy, Step(policy, s, FlushCall(t)), ls).writer.out.sink
  {
    hide Legal, Exec, Step, EventLine, EventStream, OnlyLines, Lines;
    FlushDelivers(policy, s, t, ls);
    FlushesAreSilent(s.queued);
    StreamOfJobs(evs);
  }

  /** And each of those texts decodes and parses to a document that stands for its event. */
  lemma BodyParses(ns: Names, ev: Event)
    requires NumericFloats(ev)
    ensures var decoded := Decode(Encode(EventText(ns, ev)));
            decoded.Some? && JsonParser.ParseText(decoded.value) == Some(DocEvent(ns, ev))
    ensures DocEvent(ns, ev).Obj? && StandsForEvent(ns, DocEvent(ns, ev).members, ev)
  {
    hide EventText, DocEvent, StandsForEvent;
    var text := EventText(ns, ev);
    DecodeEncode(text);
    assert text == Json.Print(DocEvent(ns, ev)) by { TextIsPrinted(ns, ev); }
    DocEventWellFormed(ns, ev);
    JsonRoundTrip.ParseTextPrint(DocEvent(ns, ev));
    EventStands(ns, ev);
    IsObject(ns, ev);
  }

  lemma TextIsPrinted(ns: Names, ev: Event)
    ensures EventText(ns, ev) == Json.Print(DocEvent(ns, ev))
  {
  }
}
