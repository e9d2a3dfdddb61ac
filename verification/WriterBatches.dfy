/** When the writer keeps a batch and when it closes one, said on its states and on what it received. */
module WriterBatches {
  import opened Writers

  // ---- One turn ----

  /** A line that comes now reaches the limit on lines, on bytes or on time. */
  predicate Reaches(policy: FlushPolicy, w: Writer, bytes: Bytes, now: nat) {
    || w.batchLines + 1 >= policy.maxLines
    || (policy.maxBytes > 0 && w.batchBytes + |bytes| >= policy.maxBytes)
    || (policy.maxInterval > 0 && now >= w.batchStarted + policy.maxInterval)
  }

  /** The batch is past its time. */
  predicate Due(policy: FlushPolicy, w: Writer, now: nat) {
    w.batchLines > 0 && policy.maxInterval > 0 && now >= w.batchStarted + policy.maxInterval
  }

  /** A line below all limits joins the batch, and nothing goes out while the buffer has room. */
  lemma LineIsKept(policy: FlushPolicy, w: Writer, bytes: Bytes, now: nat)
    requires !Reaches(policy, w, bytes, now)
    ensures var w' := Turn(policy, w, Got(Line(bytes)), now);
            && w'.batchLines == w.batchLines + 1
            && w'.batchBytes == w.batchBytes + |bytes|
            && w'.batchStarted == w.batchStarted
            && w'.out.sink + w'.out.pending == w.out.sink + w.out.pending + bytes
            && (|w.out.pending| + |bytes| <= 8192 && |bytes| < 8192 ==>
                  w'.out.sink == w.out.sink && w'.out.pending == w.out.pending + bytes)
  {
  }

  /** Only a line that the buffer has no room for pushes out what was pending, all of it, and itself if too long. */
  lemma LineOverflows(policy: FlushPolicy, w: Writer, bytes: Bytes, now: nat)
    requires !Reaches(policy, w, bytes, now)
    requires |w.out.pending| <= 8192 < |w.out.pending| + |bytes| || |bytes| >= 8192 >= |w.out.pending|
    ensures var w' := Turn(policy, w, Got(Line(bytes)), now);
            w'.out == if |bytes| >= 8192 then Buffer([], w.out.sink + w.out.pending + bytes)
                      else Buffer(bytes, w.out.sink + w.out.pending)
  {
    assert [] + bytes == bytes;
  }

  /** A line that reaches a limit closes the batch with everything in the sink. */
  lemma LineCloses(policy: FlushPolicy, w: Writer, bytes: Bytes, now: nat)
    requires Reaches(policy, w, bytes, now)
    ensures Turn(policy, w, Got(Line(bytes)), now)
         == Writer(now, 0, 0, Buffer([], w.out.sink + w.out.pending + bytes))
  {
    assert w.out.Written(bytes).All() == w.out.All() + bytes;
  }

  /** A request always closes it, and a timeout only when it is due; otherwise a timeout changes nothing. */
  lemma OtherTurns(policy: FlushPolicy, w: Writer, ack: nat, now: nat)
    ensures Turn(policy, w, Got(Job.Flush(ack)), now) == Writer(now, 0, 0, Buffer([], w.out.sink + w.out.pending))
    ensures Turn(policy, w, TimedOut, now)
         == if Due(policy, w, now) then Writer(now, 0, 0, Buffer([], w.out.sink + w.out.pending)) else w
  {
  }

  /** A turn closes a batch of one line or more, the turn's own line included. */
  predicate Closes(w: Writer, r: Received, w': Writer) {
    (w.batchLines > 0 || IsLine(r)) && w'.batchLines == 0
  }

  /** Exactly when a turn closes one. */
  lemma ClosesIff(policy: FlushPolicy, w: Writer, r: Received, now: nat)
    ensures Closes(w, r, Turn(policy, w, r, now)) <==>
            match r
            case Got(Line(bytes)) => Reaches(policy, w, bytes, now)
            case Got(Flush(_)) => w.batchLines > 0
            case TimedOut => Due(policy, w, now)
  {
  }

  /** The buffer never holds more than its capacity, and gives way only to a line it has no room for. */
  lemma {:induction false} BufferBound(policy: FlushPolicy, start: nat, ts: seq<Turned>)
    ensures |Run(policy, Start(start), ts).out.pending| <= 8192
  {
    if ts != [] {
      BufferBound(policy, start, ts[..|ts| - 1]);
    }
  }

  // ---- A batch kept over a run ----

  /** All turns are lines, and all are in time for a batch begun at the start. */
  predicate LinesInTime(policy: FlushPolicy, start: nat, ts: seq<Turned>) {
    forall i :: 0 <= i < |ts| ==>
      IsLine(ts[i].r) && (policy.maxInterval > 0 ==> ts[i].at < start + policy.maxInterval)
  }

  /** Lines that stay below every limit and fit the buffer are all kept: none costs a write. */
  lemma {:induction false} BatchIsKept(policy: FlushPolicy, start: nat, ts: seq<Turned>)
    requires LinesInTime(policy, start, ts) && |ts| < policy.maxLines
    requires policy.maxBytes > 0 ==> |Stream(ts)| < policy.maxBytes
    requires |Stream(ts)| < 8192
    ensures Run(policy, Start(start), ts) == Writer(start, |Stream(ts)|, |ts|, Buffer(Stream(ts), []))
  {
    if ts != [] {
      var front, last := ts[..|ts| - 1], ts[|ts| - 1];
      assert IsLine(last.r) && Stream(ts) == Stream(front) + LineOf(last.r);
      assert forall i :: 0 <= i < |front| ==> front[i] == ts[i];
      BatchIsKept(policy, start, front);
      LineIsKept(policy, Run(policy, Start(start), front), LineOf(last.r), last.at);
    }
  }

  // ---- How many batches are closed ----

  function Closings(policy: FlushPolicy, w: Writer, ts: seq<Turned>): nat {
    if ts == [] then 0 else
    var front, last := ts[..|ts| - 1], ts[|ts| - 1];
    Closings(policy, w, front)
    + if Closes(Run(policy, w, front), last.r, Run(policy, w, ts)) then 1 else 0
  }

  /** Flushing per line closes a batch for each line. */
  lemma {:induction false} PerLineClosings(policy: FlushPolicy, start: nat, ts: seq<Turned>)
    requires policy.maxLines <= 1
    ensures Closings(policy, Start(start), ts) == LineCount(ts)
  {
    if ts != [] {
      PerLineClosings(policy, start, ts[..|ts| - 1]);
      BelowThresholds(policy, start, ts[..|ts| - 1]);
    }
  }

  function Total(n: Tally): nat { n.lines + n.bytes + n.time + n.requests }

  lemma ClosingIsTallied(policy: FlushPolicy, w: Writer, r: Received, now: nat)
    requires policy.maxLines > 1 && Closes(w, r, Turn(policy, w, r, now))
    ensures Total(Tallied(Decide(policy, w, r, now))) >= 1
  {
    ClosesIff(policy, w, r, now);
    hide Turn, Closes;
    var c := Decide(policy, w, r, now);
    match r {
      case Got(Line(_)) => assert c.Threshold? || c == Timer;
      case Got(Flush(_)) => assert c == Request;
      case TimedOut => assert c == Timer;
    }
  }

  lemma NoLimitNoTally(policy: FlushPolicy, w: Writer, r: Received, now: nat)
    ensures var m := Tallied(Decide(policy, w, r, now));
            (policy.maxBytes == 0 ==> m.bytes == 0) && (policy.maxInterval == 0 ==> m.time == 0)
  {
  }

  lemma {:induction false} ClosingsTallied(policy: FlushPolicy, w: Writer, ts: seq<Turned>)
    requires policy.maxLines > 1
    ensures var n := Flushes(policy, w, ts);
            && Closings(policy, w, ts) <= Total(n)
            && (policy.maxBytes == 0 ==> n.bytes == 0) && (policy.maxInterval == 0 ==> n.time == 0)
  {
    if ts != [] {
      hide Turn, Decide, Tallied, Closes;
      var front, last := ts[..|ts| - 1], ts[|ts| - 1];
      ClosingsTallied(policy, w, front);
      var w' := Run(policy, w, front);
      NoLimitNoTally(policy, w', last.r, last.at);
      if Closes(w', last.r, Turn(policy, w', last.r, last.at)) {
        ClosingIsTallied(policy, w', last.r, last.at);
      }
    }
  }

  /** How often a limit fits into an amount; a limit of zero is none. */
  function Times(amount: nat, limit: nat): nat { if limit == 0 then 0 else amount / limit }

  lemma TimesBounds(n: nat, amount: nat, limit: nat)
    requires n * limit <= amount && (limit == 0 ==> n == 0)
    ensures n <= Times(amount, limit)
  {
    if limit > 0 {
      var q := amount / limit;
      assert amount < (q + 1) * limit;
      if n > q {
        Monotonic(q + 1, n, limit);
        }
    }
  }

  lemma Monotonic(a: nat, b: nat, k: nat)
    requires a <= b
    ensures a * k <= b * k
  {
  }

  /**
   Over any run the batches closed are no more than the line limit fits into the lines, the byte limit
   into the bytes and the interval into the time gone by, and one for each request.
   */
  lemma ClosingsBounded(policy: FlushPolicy, start: nat, ts: seq<Turned>)
    requires policy.maxLines > 1 && Monotone(start, ts)
    ensures start <= Now(start, ts)
    ensures Closings(policy, Start(start), ts)
         <= Times(LineCount(ts), policy.maxLines) + Times(|Stream(ts)|, policy.maxBytes)
            + Times(Now(start, ts) - start, policy.maxInterval) + RequestCount(ts)
  {
    hide Flushes, Closings, Run, Times, LineCount, Stream, RequestCount, Monotone, Now;
    Amortised(policy, start, ts);
    ClosingsTallied(policy, Start(start), ts);
    var n := Flushes(policy, Start(start), ts);
    TimesBounds(n.lines, LineCount(ts), policy.maxLines);
    TimesBounds(n.bytes, |Stream(ts)|, policy.maxBytes);
    TimesBounds(n.time, Now(start, ts) - start, policy.maxInterval);
  }

  // ---- The default policy ----

  /** 100 ms, 8 KiB, 1000 lines. */
  lemma DefaultPolicyIs()
    ensures DEFAULT_POLICY == FlushPolicy(100_000_000, 8192, 1000)
    ensures PER_LINE.maxLines == 1 && PER_LINE.maxInterval == 0
  {
  }

  /** Under the default policy a line reaches the sink within 200 ms, for every arrival pattern. */
  lemma DefaultDelivery(start: nat, ts: seq<Turned>, i: nat)
    requires ExactTimers(DEFAULT_POLICY, start, ts)
    requires i < |ts| && Now(start, ts) >= ts[i].at + 100_000_000
    ensures exists j :: i < j < |ts| && ts[j].at < ts[i].at + 200_000_000
                        && Delivered(DEFAULT_POLICY, start, ts, i + 1, j + 1)
  {
    hide ExactTimers, Now, Delivered;
    TimedDelivery(DEFAULT_POLICY, start, ts, i);
  }

  /** Up to 999 lines of less than 8 KiB together, within 100 ms, are kept. */
  lemma DefaultBatch(start: nat, ts: seq<Turned>)
    requires |ts| <= 999 && |Stream(ts)| < 8192
    requires forall i :: 0 <= i < |ts| ==> IsLine(ts[i].r) && ts[i].at < start + 100_000_000
    ensures Run(DEFAULT_POLICY, Start(start), ts).out == Buffer(Stream(ts), [])
  {
    hide Run, Stream;
    BatchIsKept(DEFAULT_POLICY, start, ts);
  }

  // ---- Acknowledgements ----

  /** One acknowledgement for each request, at the place of the request among the requests. */
  lemma {:induction false} AckAt(ts: seq<Turned>, i: nat)
    requires i < |ts| && ts[i].r.Got? && ts[i].r.job.Flush?
    ensures |Acks(ts)| == RequestCount(ts)
    ensures RequestCount(ts[..i]) < |Acks(ts)| && Acks(ts)[RequestCount(ts[..i])] == ts[i].r.job.ack
  {
    var front := ts[..|ts| - 1];
    AcksCount(front);
    if i < |front| {
      AckAt(front, i);
      assert front[..i] == ts[..i];
    }
  }

  lemma {:induction false} AcksCount(ts: seq<Turned>)
    ensures |Acks(ts)| == RequestCount(ts)
  {
    if ts != [] {
      AcksCount(ts[..|ts| - 1]);
    }
  }
}
