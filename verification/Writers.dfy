/**
 The writer thread: a loop over a channel that batches lines in a `BufWriter` and flushes by lines,
 bytes, time and request. Times are nanoseconds.
 */
module Writers {
  import opened Utf8

  type Bytes = seq<byte>

  datatype FlushPolicy = FlushPolicy(maxInterval: nat, maxBytes: nat, maxLines: nat)

  const MILLISECOND: nat := 1_000_000
  const DEFAULT_POLICY: FlushPolicy := FlushPolicy(100 * MILLISECOND, 8 * 1024, 1000)
  const PER_LINE: FlushPolicy := FlushPolicy(0, 0, 1)

  /** How long the writer waits for a job before it wakes itself. */
  function Wakeup(policy: FlushPolicy): nat {
    if policy.maxInterval > 0 then policy.maxInterval else 100 * MILLISECOND
  }

  /** A line with its newline, or a flush request and its acknowledgement channel. */
  datatype Job = Line(bytes: Bytes) | Flush(ack: nat)

  /** The outcome of one `recv_timeout` on an open channel. */
  datatype Received = Got(job: Job) | TimedOut

  // ---- The buffered output ----

  const BUFFER_CAPACITY: nat := 8 * 1024

  /** The bytes still in the `BufWriter`, and those the sink has got. */
  datatype Buffer = Buffer(pending: Bytes, sink: Bytes) {
    function All(): Bytes { sink + pending }

    function Flushed(): Buffer { Buffer([], sink + pending) }

    /** `BufWriter::write_all`: a line that does not fit pushes out what was pending. */
    function Written(bs: Bytes): (b: Buffer)
      ensures b.All() == All() + bs
      ensures |b.pending| <= |pending| + |bs|
      ensures sink <= b.sink
    {
      var spare := BUFFER_CAPACITY - |pending|;
      if |bs| < spare then Buffer(pending + bs, sink) else
      var base := if |bs| > spare then Flushed() else this;
      if |bs| >= BUFFER_CAPACITY
      then Buffer([], base.sink + base.pending + bs)
      else Buffer(base.pending + bs, base.sink)
    }
  }

  // ---- One turn of the loop ----

  datatype Writer = Writer(batchStarted: nat, batchBytes: nat, batchLines: nat, out: Buffer)

  function Start(now: nat): Writer { Writer(now, 0, 0, Buffer([], [])) }

  /** Why a turn flushes, if it does. */
  datatype Cause = NoFlush | PerLine | Threshold(bytesHit: bool, linesHit: bool) | Timer | Request

  predicate Expired(policy: FlushPolicy, w: Writer, now: nat) {
    policy.maxInterval > 0 && now >= w.batchStarted + policy.maxInterval
  }

  function Decide(policy: FlushPolicy, w: Writer, r: Received, now: nat): Cause {
    match r
    case Got(Line(bytes)) =>
      var bytesHit := policy.maxBytes > 0 && w.batchBytes + |bytes| >= policy.maxBytes;
      var linesHit := w.batchLines + 1 >= policy.maxLines;
      if policy.maxLines <= 1 then PerLine
      else if bytesHit || linesHit then Threshold(bytesHit, linesHit)
      else if Expired(policy, w, now) then Timer
      else NoFlush
    case Got(Flush(_)) => Request
    case TimedOut => if w.batchLines > 0 && Expired(policy, w, now) then Timer else NoFlush
  }

  function LineOf(r: Received): Bytes {
    match r
    case Got(Line(bytes)) => bytes
    case _ => []
  }

  predicate IsLine(r: Received) { r.Got? && r.job.Line? }

  function Turn(policy: FlushPolicy, w: Writer, r: Received, now: nat): Writer {
    var out := if IsLine(r) then w.out.Written(LineOf(r)) else w.out;
    if Decide(policy, w, r, now) != NoFlush then Writer(now, 0, 0, out.Flushed())
    else if IsLine(r) then Writer(w.batchStarted, w.batchBytes + |LineOf(r)|, w.batchLines + 1, out)
    else w
  }

  // ---- Runs ----

  datatype Turned = Turned(at: nat, r: Received)

  function Run(policy: FlushPolicy, w: Writer, ts: seq<Turned>): Writer {
    if ts == [] then w else
    var last := ts[|ts| - 1];
    Turn(policy, Run(policy, w, ts[..|ts| - 1]), last.r, last.at)
  }

  /** The lines of a run, joined. */
  function Stream(ts: seq<Turned>): Bytes {
    if ts == [] then [] else Stream(ts[..|ts| - 1]) + LineOf(ts[|ts| - 1].r)
  }

  /**
   Batching loses, repeats and reorders nothing: delivered and buffered bytes together are the
   lines received, and only the current batch can be undelivered.
   */
  lemma {:induction false} Conservation(policy: FlushPolicy, start: nat, ts: seq<Turned>)
    ensures var w := Run(policy, Start(start), ts);
            && w.out.All() == Stream(ts)
            && |w.out.pending| <= w.batchBytes
            && (w.batchLines == 0 ==> w.batchBytes == 0)
  {
    if ts != [] {
      Conservation(policy, start, ts[..|ts| - 1]);
    }
  }

  /** Below every enabled threshold after each turn; with `max_lines <= 1` nothing is ever left over. */
  lemma {:induction false} BelowThresholds(policy: FlushPolicy, start: nat, ts: seq<Turned>)
    ensures var w := Run(policy, Start(start), ts);
            && (policy.maxLines <= 1 ==> w.batchLines == 0 && w.out.pending == [])
            && (policy.maxLines > 1 ==> w.batchLines < policy.maxLines)
            && (policy.maxBytes > 0 ==> w.batchBytes < policy.maxBytes)
  {
    if ts != [] {
      BelowThresholds(policy, start, ts[..|ts| - 1]);
    }
  }

  // ---- Amortised flushing ----

  datatype Tally = Tally(lines: nat, bytes: nat, time: nat, requests: nat)

  /** The flush of one turn; a turn that meets two thresholds counts for both. */
  function Tallied(c: Cause): Tally {
    match c
    case Threshold(bytesHit, linesHit) => Tally(if linesHit then 1 else 0, if bytesHit then 1 else 0, 0, 0)
    case Timer => Tally(0, 0, 1, 0)
    case Request => Tally(0, 0, 0, 1)
    case _ => Tally(0, 0, 0, 0)
  }

  /** How many turns of a run flushed for each cause. */
  function Flushes(policy: FlushPolicy, w: Writer, ts: seq<Turned>): Tally {
    if ts == [] then Tally(0, 0, 0, 0) else
    var front, last := ts[..|ts| - 1], ts[|ts| - 1];
    var n := Flushes(policy, w, front);
    var m := Tallied(Decide(policy, Run(policy, w, front), last.r, last.at));
    Tally(n.lines + m.lines, n.bytes + m.bytes, n.time + m.time, n.requests + m.requests)
  }

  function LineCount(ts: seq<Turned>): nat {
    if ts == [] then 0 else LineCount(ts[..|ts| - 1]) + if IsLine(ts[|ts| - 1].r) then 1 else 0
  }

  function RequestCount(ts: seq<Turned>): nat {
    if ts == [] then 0
    else RequestCount(ts[..|ts| - 1])
         + if ts[|ts| - 1].r.Got? && ts[|ts| - 1].r.job.Flush? then 1 else 0
  }

  function Now(start: nat, ts: seq<Turned>): nat {
    if ts == [] then start else ts[|ts| - 1].at
  }

  predicate Monotone(start: nat, ts: seq<Turned>) {
    ts != [] ==>
      && Monotone(start, ts[..|ts| - 1])
      && Now(start, ts[..|ts| - 1]) <= ts[|ts| - 1].at
  }

  /** One turn pays for its own flush out of the batch it closes. */
  lemma TurnPays(policy: FlushPolicy, w: Writer, r: Received, now: nat)
    requires policy.maxLines > 1 && w.batchStarted <= now
    ensures var m, w' := Tallied(Decide(policy, w, r, now)), Turn(policy, w, r, now);
            && m.lines * policy.maxLines + w'.batchLines <= w.batchLines + (if IsLine(r) then 1 else 0)
            && m.bytes * policy.maxBytes + w'.batchBytes <= w.batchBytes + |LineOf(r)|
            && w.batchStarted + m.time * policy.maxInterval <= w'.batchStarted <= now
            && m.requests == if r.Got? && r.job.Flush? then 1 else 0
  {
  }

  lemma Distribute(n: nat, k: nat, m: nat)
    ensures (n + k) * m == n * m + k * m
  {
  }

  lemma Counts(ts: seq<Turned>)
    requires ts != []
    ensures var front, r := ts[..|ts| - 1], ts[|ts| - 1].r;
            && |Stream(ts)| == |Stream(front)| + |LineOf(r)|
            && LineCount(ts) == LineCount(front) + (if IsLine(r) then 1 else 0)
            && RequestCount(ts) == RequestCount(front) + if r.Got? && r.job.Flush? then 1 else 0
  {
  }

  lemma FlushesStep(policy: FlushPolicy, w: Writer, ts: seq<Turned>)
    requires ts != []
    ensures var front, last := ts[..|ts| - 1], ts[|ts| - 1];
            var n, m := Flushes(policy, w, front), Tallied(Decide(policy, Run(policy, w, front), last.r, last.at));
            && Run(policy, w, ts) == Turn(policy, Run(policy, w, front), last.r, last.at)
            && Flushes(policy, w, ts)
               == Tally(n.lines + m.lines, n.bytes + m.bytes, n.time + m.time, n.requests + m.requests)
  {
  }

  /** Each flush for lines, bytes or time pays for itself; what is left over is the current batch. */
  lemma {:induction false} Amortised(policy: FlushPolicy, start: nat, ts: seq<Turned>)
    requires policy.maxLines > 1 && Monotone(start, ts)
    ensures var w := Run(policy, Start(start), ts);
            var n := Flushes(policy, Start(start), ts);
            && n.lines * policy.maxLines + w.batchLines <= LineCount(ts)
            && n.bytes * policy.maxBytes + w.batchBytes <= |Stream(ts)|
            && start + n.time * policy.maxInterval <= w.batchStarted <= Now(start, ts)
            && n.requests == RequestCount(ts)
  {
    if ts != [] {
      hide Tallied, Decide, Turn, Stream, LineCount, RequestCount, Run, Flushes;
      var front, last := ts[..|ts| - 1], ts[|ts| - 1];
      Counts(ts);
      FlushesStep(policy, Start(start), ts);
      Amortised(policy, start, front);
      var w := Run(policy, Start(start), front);
      var n, m := Flushes(policy, Start(start), front), Tallied(Decide(policy, w, last.r, last.at));
      TurnPays(policy, w, last.r, last.at);
      Distribute(n.lines, m.lines, policy.maxLines);
      Distribute(n.bytes, m.bytes, policy.maxBytes);
      Distribute(n.time, m.time, policy.maxInterval);
    }
  }

  /** The sink never holds part of a line: it holds the lines of the turns up to some point. */
  lemma {:induction false} SinkIsWhole(policy: FlushPolicy, start: nat, ts: seq<Turned>) returns (k: nat)
    ensures k <= |ts| && Run(policy, Start(start), ts).out.sink == Stream(ts[..k])
  {
    if ts == [] {
      k := 0;
    } else {
      hide Decide, Stream;
      var front, last := ts[..|ts| - 1], ts[|ts| - 1];
      k := SinkIsWhole(policy, start, front);
      assert front[..k] == ts[..k] && front[..|front|] == front && ts[..|ts|] == ts;
      Conservation(policy, start, front);
      Conservation(policy, start, ts);
      var w, w' := Run(policy, Start(start), front), Run(policy, Start(start), ts);
      TurnSink(policy, w, last.r, last.at);
      if w'.out.pending == [] {
        k := |ts|;
      } else if w'.out.sink == w.out.All() {
        k := |front|;
      }
    }
  }

  /** A turn leaves the sink alone, or gives it all that was pending, or leaves nothing pending. */
  lemma TurnSink(policy: FlushPolicy, w: Writer, r: Received, now: nat)
    ensures var w' := Turn(policy, w, r, now);
            w'.out.sink == w.out.sink || w'.out.sink == w.out.All() || w'.out.pending == []
    ensures Turn(policy, w, r, now).out.pending == [] ==>
              Turn(policy, w, r, now).out.sink == Turn(policy, w, r, now).out.All()
  {
    hide Decide;
  }

  // ---- Latency ----

  /**
   The turns of a writer that works without delay on exact timers: it never waits longer than its
   wakeup interval, and a timeout is a wait of exactly that long.
   */
  predicate ExactTimers(policy: FlushPolicy, start: nat, ts: seq<Turned>) {
    ts != [] ==>
      var before, last := Now(start, ts[..|ts| - 1]), ts[|ts| - 1];
      && ExactTimers(policy, start, ts[..|ts| - 1])
      && before <= last.at <= before + Wakeup(policy)
      && (last.r.TimedOut? ==> last.at == before + Wakeup(policy))
  }

  /** After `n` turns, the lines of the first `i` turns have reached the sink. */
  predicate Delivered(policy: FlushPolicy, start: nat, ts: seq<Turned>, i: nat, n: nat)
    requires i <= |ts| && n <= |ts|
  {
    Stream(ts[..i]) <= Run(policy, Start(start), ts[..n]).out.sink
  }

  /** A batch that is not empty is younger than the interval. */
  lemma {:induction false} YoungBatch(policy: FlushPolicy, start: nat, ts: seq<Turned>)
    requires policy.maxInterval > 0 && ExactTimers(policy, start, ts)
    ensures var w := Run(policy, Start(start), ts);
            && w.batchStarted <= Now(start, ts)
            && (w.batchLines > 0 ==> Now(start, ts) < w.batchStarted + policy.maxInterval)
  {
    if ts != [] {
      YoungBatch(policy, start, ts[..|ts| - 1]);
    }
  }

  lemma {:induction false} StreamPrefix(ts: seq<Turned>, i: nat)
    requires i <= |ts|
    ensures Stream(ts[..i]) <= Stream(ts)
  {
    if i == |ts| {
      assert ts[..i] == ts;
    } else {
      StreamPrefix(ts[..|ts| - 1], i);
      assert ts[..|ts| - 1][..i] == ts[..i];
    }
  }

  /** A line that is not delivered yet came after the current batch began. */
  lemma {:induction false} UndeliveredIsRecent(policy: FlushPolicy, start: nat, ts: seq<Turned>, i: nat)
    requires i < |ts| && ExactTimers(policy, start, ts)
    ensures var w := Run(policy, Start(start), ts);
            w.batchStarted <= ts[i].at || Stream(ts[..i + 1]) <= w.out.sink
    decreases |ts|
  {
    var front, last := ts[..|ts| - 1], ts[|ts| - 1];
    var w := Run(policy, Start(start), ts);
    Conservation(policy, start, ts);
    StreamPrefix(ts, i + 1);
    if Decide(policy, Run(policy, Start(start), front), last.r, last.at) != NoFlush {
      assert w.out.sink == Stream(ts);
    } else if i == |ts| - 1 {
      StartedBeforeNow(policy, start, front);
    } else {
      UndeliveredIsRecent(policy, start, front, i);
      assert front[..i + 1] == ts[..i + 1];
    }
  }

  lemma {:induction false} StartedBeforeNow(policy: FlushPolicy, start: nat, ts: seq<Turned>)
    requires ExactTimers(policy, start, ts)
    ensures Run(policy, Start(start), ts).batchStarted <= Now(start, ts)
  {
    if ts != [] {
      StartedBeforeNow(policy, start, ts[..|ts| - 1]);
    }
  }

  /** Once a turn happens an interval or more after a line came, the line is delivered. */
  lemma OldLinesAreDelivered(policy: FlushPolicy, start: nat, ts: seq<Turned>, i: nat)
    requires policy.maxInterval > 0 && ExactTimers(policy, start, ts)
    requires i < |ts| && Now(start, ts) >= ts[i].at + policy.maxInterval
    ensures Stream(ts[..i + 1]) <= Run(policy, Start(start), ts).out.sink
  {
    hide Run, Stream, ExactTimers, Now;
    var w := Run(policy, Start(start), ts);
    YoungBatch(policy, start, ts);
    UndeliveredIsRecent(policy, start, ts, i);
    if w.batchLines == 0 {
      Conservation(policy, start, ts);
      StreamPrefix(ts, i + 1);
      assert w.out.sink == Stream(ts);
    }
  }

  lemma {:induction false} ExactPrefix(policy: FlushPolicy, start: nat, ts: seq<Turned>, n: nat)
    requires n <= |ts| && ExactTimers(policy, start, ts)
    ensures ExactTimers(policy, start, ts[..n])
  {
    if n == |ts| {
      assert ts[..n] == ts;
    } else {
      ExactPrefix(policy, start, ts[..|ts| - 1], n);
      assert ts[..|ts| - 1][..n] == ts[..n];
    }
  }

  lemma GapAt(policy: FlushPolicy, start: nat, ts: seq<Turned>, j: nat)
    requires 0 < j < |ts| && ExactTimers(policy, start, ts)
    ensures ts[j].at <= ts[j - 1].at + Wakeup(policy)
  {
    ExactPrefix(policy, start, ts, j + 1);
    var upTo := ts[..j + 1];
    assert upTo[..|upTo| - 1] == ts[..j];
  }

  /** The first turn at or after `deadline`, among the turns `i..n`. */
  lemma {:induction false} FirstAt(ts: seq<Turned>, i: nat, n: nat, deadline: nat) returns (j: nat)
    requires i < n < |ts| && ts[i].at < deadline <= ts[n].at
    ensures i < j <= n && ts[j - 1].at < deadline <= ts[j].at
    decreases n - i
  {
    if ts[i + 1].at >= deadline {
      j := i + 1;
    } else {
      j := FirstAt(ts, i + 1, n, deadline);
    }
  }

  /**
   Timed delivery: whatever comes and when, a line received at time `t` has reached the sink before
   `t + 2 * max_interval`.
   */
  lemma TimedDelivery(policy: FlushPolicy, start: nat, ts: seq<Turned>, i: nat)
    requires policy.maxInterval > 0 && ExactTimers(policy, start, ts)
    requires i < |ts| && Now(start, ts) >= ts[i].at + policy.maxInterval
    ensures exists j :: i < j < |ts| && ts[j].at < ts[i].at + 2 * policy.maxInterval
                        && Delivered(policy, start, ts, i + 1, j + 1)
  {
    var j := FirstAt(ts, i, |ts| - 1, ts[i].at + policy.maxInterval);
    GapAt(policy, start, ts, j);
    ExactPrefix(policy, start, ts, j + 1);
    var upTo := ts[..j + 1];
    OldLinesAreDelivered(policy, start, upTo, i);
    assert upTo[..i + 1] == ts[..i + 1];
    assert Delivered(policy, start, ts, i + 1, j + 1);
  }

  /** A wait of `max_interval` without a job delivers everything received so far. */
  lemma IdleDelivery(policy: FlushPolicy, start: nat, ts: seq<Turned>)
    requires policy.maxInterval > 0 && ExactTimers(policy, start, ts)
    requires ts != [] && ts[|ts| - 1].r.TimedOut?
    ensures Run(policy, Start(start), ts).out == Buffer([], Stream(ts))
    ensures ts[|ts| - 1].at == Now(start, ts[..|ts| - 1]) + policy.maxInterval
  {
    var front := ts[..|ts| - 1];
    StartedBeforeNow(policy, start, front);
    Conservation(policy, start, front);
    Conservation(policy, start, ts);
  }

  /** Without an interval a timeout never delivers anything, so a batch waits for the next job. */
  lemma NoIntervalNoTimer(policy: FlushPolicy, w: Writer, now: nat)
    ensures (forall at :: at >= now ==> Turn(policy, w, TimedOut, at) == w)
       <==> policy.maxInterval == 0 || w.batchLines == 0
  {
    var late := if now >= w.batchStarted then now + policy.maxInterval else w.batchStarted + policy.maxInterval;
    assert late >= now;
    if policy.maxInterval > 0 && w.batchLines > 0 {
      assert Turn(policy, w, TimedOut, late).batchLines == 0;
    }
  }

  /** Every run that ends with a line, or with a line that is not empty, leaves no batch open. */
  ghost predicate FlushesInline(policy: FlushPolicy, emptyToo: bool) {
    forall start, ts :: ts != [] && EndsWithLine(ts, emptyToo) ==> Run(policy, Start(start), ts).batchLines == 0
  }

  predicate EndsWithLine(ts: seq<Turned>, emptyToo: bool)
    requires ts != []
  {
    var r := ts[|ts| - 1].r;
    IsLine(r) && (emptyToo || LineOf(r) != [])
  }

  /**
   The loop's comment says that without an interval every line is flushed inline. Lines that are not
   empty are if and only if the policy is per line or flushes at the first byte, and all lines are if and
   only if it is per line.
   */
  lemma InlineIff(policy: FlushPolicy)
    requires policy.maxInterval == 0
    ensures FlushesInline(policy, false) <==> policy.maxLines <= 1 || policy.maxBytes == 1
    ensures FlushesInline(policy, true) <==> policy.maxLines <= 1
  {
    var small, empty := [Turned(0, Got(Line([0])))], [Turned(0, Got(Line([])))];
    assert small[..0] == [] && empty[..0] == [];
    assert EndsWithLine(small, false) && EndsWithLine(small, true) && EndsWithLine(empty, true);
    assert Run(policy, Start(0), small).batchLines == 0 <==> policy.maxLines <= 1 || policy.maxBytes == 1;
    assert Run(policy, Start(0), empty).batchLines == 0 <==> policy.maxLines <= 1;
    if policy.maxLines <= 1 || policy.maxBytes == 1 {
      forall start, ts | ts != [] && EndsWithLine(ts, policy.maxLines <= 1)
        ensures Run(policy, Start(start), ts).batchLines == 0
      {
      }
    }
  }

  /** The comment holds of the policy it names. */
  lemma PerLineIsInline()
    ensures FlushesInline(PER_LINE, true)
  {
    InlineIff(PER_LINE);
  }

  /** One line, then nothing but timeouts, each after the full wait. */
  function Idle(policy: FlushPolicy, bytes: Bytes, n: nat): seq<Turned> {
    if n == 0 then [Turned(0, Got(Line(bytes)))]
    else Idle(policy, bytes, n - 1) + [Turned(n * Wakeup(policy), TimedOut)]
  }

  /** The failing case: a line of one byte stays in the buffer however long the channel is idle. */
  lemma {:induction false} StuckLine(policy: FlushPolicy, n: nat)
    requires policy.maxInterval == 0 && policy.maxLines > 1 && policy.maxBytes != 1
    ensures var ts := Idle(policy, [0], n);
            && ExactTimers(policy, 0, ts) && Now(0, ts) == n * 100_000_000
            && Run(policy, Start(0), ts).out == Buffer([0], [])
            && Run(policy, Start(0), ts).batchLines == 1
  {
    var ts := Idle(policy, [0], n);
    if n == 0 {
      assert ts[..0] == [];
    } else {
      StuckLine(policy, n - 1);
      assert ts[..|ts| - 1] == Idle(policy, [0], n - 1);
    }
  }

  // ---- The loop ----

  class BufWriter {
    var out: Buffer

    constructor ()
      ensures out == Buffer([], [])
    {
      out := Buffer([], []);
    }

    method WriteAll(bytes: Bytes)
      modifies this
      ensures out == old(out).Written(bytes)
    {
      var spare := BUFFER_CAPACITY - |out.pending|;
      if |bytes| < spare {
        out := Buffer(out.pending + bytes, out.sink);
        return;
      }
      if |bytes| > spare {
        Flush();
      }
      if |bytes| >= BUFFER_CAPACITY {
        out := Buffer([], out.sink + out.pending + bytes);
      } else {
        out := Buffer(out.pending + bytes, out.sink);
      }
    }

    method Flush()
      modifies this
      ensures out == old(out).Flushed()
    {
      out := Buffer([], out.sink + out.pending);
    }
  }

  /**
   The loop of the writer thread. `ts` is what `recv_timeout` returns and when, until the channel
   is disconnected; `acks` are the acknowledgements sent.
   */
  method WriterLoop(policy: FlushPolicy, start: nat, ts: seq<Turned>)
    returns (buf: BufWriter, acks: seq<nat>)
    ensures fresh(buf)
    ensures buf.out == Run(policy, Start(start), ts).out.Flushed()
    ensures acks == Acks(ts)
  {
    buf := new BufWriter();
    acks := [];
    var batchStarted := start;
    var batchBytes: nat, batchLines: nat := 0, 0;
    var i := 0;
    while i < |ts|
      invariant 0 <= i <= |ts| && fresh(buf)
      invariant Run(policy, Start(start), ts[..i]) == Writer(batchStarted, batchBytes, batchLines, buf.out)
      invariant acks == Acks(ts[..i])
    {
      var now, r := ts[i].at, ts[i].r;
      assert ts[..i + 1][..i] == ts[..i];
      i := i + 1;
      match r {
        case Got(Line(bytes)) =>
          buf.WriteAll(bytes);
          batchBytes := batchBytes + |bytes|;
          batchLines := batchLines + 1;
          if policy.maxLines <= 1 {
            buf.Flush();
            batchStarted, batchBytes, batchLines := now, 0, 0;
            continue;
          }
          var bytesHit := policy.maxBytes > 0 && batchBytes >= policy.maxBytes;
          var linesHit := batchLines >= policy.maxLines;
          if bytesHit || linesHit {
            buf.Flush();
            batchStarted, batchBytes, batchLines := now, 0, 0;
            continue;
          }
          if policy.maxInterval > 0 {
            var elapsed := if now >= batchStarted then now - batchStarted else 0;
            if elapsed >= policy.maxInterval {
              buf.Flush();
              batchStarted, batchBytes, batchLines := now, 0, 0;
            }
          }
        case Got(Flush(ack)) =>
          buf.Flush();
          batchStarted, batchBytes, batchLines := now, 0, 0;
          acks := acks + [ack];
        case TimedOut =>
          var elapsed := if now >= batchStarted then now - batchStarted else 0;
          if policy.maxInterval > 0 && batchLines > 0 && elapsed >= policy.maxInterval {
            buf.Flush();
            batchStarted, batchBytes, batchLines := now, 0, 0;
          }
      }
    }
    assert ts[..i] == ts;
    buf.Flush();
  }

  /** The flush requests of a run, in order. */
  function Acks(ts: seq<Turned>): seq<nat> {
    if ts == [] then [] else
    var r := ts[|ts| - 1].r;
    Acks(ts[..|ts| - 1]) + if r.Got? && r.job.Flush? then [r.job.ack] else []
  }
}
