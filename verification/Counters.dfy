/** The arithmetic of `inc`, `dec` and `add_n` on one counter. */
module Counters {
  import opened Wrappers
  import opened WideEvents
  import opened EventLaws

  predicate Counting(us: seq<Update>) {
    forall i :: 0 <= i < |us| ==> !us[i].Set?
  }

  function Delta(u: Update): int
    requires !u.Set?
  {
    match u
    case Inc => 1
    case Dec => -1
    case AddN(n) => n
  }

  function Sum(us: seq<Update>): int
    requires Counting(us)
  {
    if us == [] then 0 else Sum(us[..|us| - 1]) + Delta(us[|us| - 1])
  }

  /** The least prefix sum, the empty prefix included; so never positive. */
  function MinPrefixSum(us: seq<Update>): (m: int)
    requires Counting(us)
    ensures m <= 0
  {
    if us == [] then 0 else
    var m := MinPrefixSum(us[..|us| - 1]);
    if Sum(us) < m then Sum(us) else m
  }

  lemma {:induction false} MinPrefixSumIsLeast(us: seq<Update>)
    requires Counting(us)
    ensures forall k :: 0 <= k <= |us| ==> MinPrefixSum(us) <= Sum(us[..k])
    ensures exists k :: 0 <= k <= |us| && MinPrefixSum(us) == Sum(us[..k])
  {
    assert us[..|us|] == us;
    if us == [] {
      assert MinPrefixSum(us) == Sum(us[..0]);
    } else {
      var front := us[..|us| - 1];
      MinPrefixSumIsLeast(front);
      forall k | 0 <= k < |us|
        ensures MinPrefixSum(us) <= Sum(us[..k])
      {
        assert us[..k] == front[..k];
      }
      var j :| 0 <= j <= |front| && MinPrefixSum(front) == Sum(front[..j]);
      assert front[..j] == us[..j];
      assert MinPrefixSum(us) == Sum(us[..if Sum(us) < MinPrefixSum(front) then |us| else j]);
    }
  }

  /** The sum reflected at zero. */
  function Reflected(us: seq<Update>): int
    requires Counting(us)
  {
    Sum(us) - MinPrefixSum(us)
  }

  /** No step leaves the integer type the counter has after its first update. */
  predicate InRange(us: seq<Update>)
    requires Counting(us)
  {
    us != [] ==>
      && (if Delta(us[0]) < 0 then -TWO_63 <= Sum(us) < TWO_63 else Reflected(us) < TWO_64)
      && InRange(us[..|us| - 1])
  }

  lemma WrapInRange(x: int)
    ensures -TWO_63 <= x < TWO_63 ==> WrapI64(x) == x
    ensures 0 <= x < TWO_64 ==> WrapU64(x) == x
  {
  }

  function Counter(signed: bool, x: int): Option<Value> {
    if signed then (if -TWO_63 <= x < TWO_63 then Some(I64(x)) else None)
    else if 0 <= x < TWO_64 then Some(U64(x)) else None
  }

  /** One update: signed counters add, unsigned ones add and stop at zero. */
  lemma CounterStep(signed: bool, x: int, u: Update)
    requires !u.Set? && Counter(signed, x).Some?
    requires var y := x + Delta(u); if signed then -TWO_63 <= y < TWO_63 else y < TWO_64
    ensures var y := x + Delta(u);
            Some(NewValue(u, Counter(signed, x))) == Counter(signed, if signed || y >= 0 then y else 0)
  {
    WrapInRange(x + Delta(u));
  }

  /**
   A counter that starts from nothing with a negative step is signed and exact. Any other counter
   is unsigned and holds the sum reflected at zero.
   */
  lemma {:induction false} CounterValue(us: seq<Update>)
    requires us != [] && Counting(us) && InRange(us)
    ensures Delta(us[0]) < 0 ==>
      -TWO_63 <= Sum(us) < TWO_63 && Fold(None, us) == Some(I64(Sum(us)))
    ensures Delta(us[0]) >= 0 ==>
      0 <= Reflected(us) < TWO_64 && Fold(None, us) == Some(U64(Reflected(us)))
    decreases |us|
  {
    var front, u := us[..|us| - 1], us[|us| - 1];
    if front == [] {
      assert Fold(None, front) == None && Sum(front) == 0 && MinPrefixSum(front) == 0;
    } else {
      CounterValue(front);
      var signed := Delta(us[0]) < 0;
      CounterStep(signed, if signed then Sum(front) else Reflected(front), u);
    }
  }

  /** Where a counter starts: a number in the slot is kept, and anything else counts as nothing. */
  function StartOf(prior: Option<Value>): int {
    match prior
    case Some(I64(i)) => i
    case Some(U64(u)) => u
    case _ => 0
  }

  /** Whether a counter is signed: by the number in the slot, or by the first step. */
  predicate SignedFrom(prior: Option<Value>, us: seq<Update>)
    requires us != [] && Counting(us)
  {
    match prior
    case Some(I64(_)) => true
    case Some(U64(_)) => false
    case _ => Delta(us[0]) < 0
  }

  /** The sum from a start, reflected at zero. */
  function ReflectedFrom(x: nat, us: seq<Update>): int
    requires Counting(us)
  {
    x + Sum(us) - (if x + MinPrefixSum(us) < 0 then x + MinPrefixSum(us) else 0)
  }

  predicate InRangeFrom(prior: Option<Value>, us: seq<Update>)
    requires Counting(us)
    decreases |us|
  {
    us != [] ==>
      && (if SignedFrom(prior, us) then -TWO_63 <= StartOf(prior) + Sum(us) < TWO_63
          else StartOf(prior) >= 0 && ReflectedFrom(StartOf(prior), us) < TWO_64)
      && InRangeFrom(prior, us[..|us| - 1])
  }

  /**
   From any slot: a signed counter is exact, an unsigned one the sum reflected at zero, and a value that is
   no number is replaced as if it were absent.
   */
  lemma {:induction false} CounterFrom(prior: Option<Value>, us: seq<Update>)
    requires us != [] && Counting(us) && InRangeFrom(prior, us)
    ensures Fold(prior, us)
         == Counter(SignedFrom(prior, us),
                    if SignedFrom(prior, us) then StartOf(prior) + Sum(us) else ReflectedFrom(StartOf(prior), us))
    ensures Fold(prior, us).Some?
    decreases |us|
  {
    var front, u := us[..|us| - 1], us[|us| - 1];
    if front == [] {
      FirstCount(prior, us);
    } else {
      hide NewValue, WrapI64, WrapU64, Counter;
      CounterFrom(prior, front);
      var signed, x := SignedFrom(prior, us), StartOf(prior);
      var y := if signed then x + Sum(front) else ReflectedFrom(x, front);
      CounterKnown(signed, y);
      CounterStep(signed, y, u);
      CounterKnown(signed, if signed || y + Delta(u) >= 0 then y + Delta(u) else 0);
    }
  }

  lemma CounterKnown(signed: bool, x: int)
    ensures Counter(signed, x).Some? <==> if signed then -TWO_63 <= x < TWO_63 else 0 <= x < TWO_64
  {
  }

  lemma FirstCount(prior: Option<Value>, us: seq<Update>)
    requires |us| == 1 && Counting(us) && InRangeFrom(prior, us)
    ensures Fold(prior, us)
         == Counter(SignedFrom(prior, us),
                    if SignedFrom(prior, us) then StartOf(prior) + Sum(us) else ReflectedFrom(StartOf(prior), us))
    ensures Fold(prior, us).Some?
  {
    var front := us[..0];
    assert Fold(prior, front) == prior && Sum(front) == 0 && MinPrefixSum(front) == 0;
    WrapInRange(StartOf(prior) + Delta(us[0]));
  }

  lemma WrapIs(x: int) returns (k: int)
    ensures WrapI64(x) == x + k * 0x1_0000_0000_0000_0000
  {
    k := -((x + TWO_63) / TWO_64);
  }

  /** Without any bound: a signed counter is its sum up to a multiple of 2 to the 64th, as a release build wraps. */
  lemma {:induction false} SignedWraps(i: i64, us: seq<Update>) returns (k: int)
    requires Counting(us)
    ensures var r := Fold(Some(I64(i)), us);
            r.Some? && r.value.I64? && r.value.i == i + Sum(us) + k * 0x1_0000_0000_0000_0000
  {
    if us == [] {
      k := 0;
    } else {
      hide WrapI64;
      var k0 := SignedWraps(i, us[..|us| - 1]);
      var before := Fold(Some(I64(i)), us[..|us| - 1]).value.i;
      var k1 := WrapIs(before + Delta(us[|us| - 1]));
      k := k0 + k1;
    }
  }

  /** The ends of the unsigned range: an increment wraps, a decrement stops, and an addition stops at both. */
  lemma UnsignedEnds(u: u64, n: i64)
    ensures NewValue(Inc, Some(U64(u))) == U64(if u == 0xFFFF_FFFF_FFFF_FFFF then 0 else u + 1)
    ensures NewValue(Dec, Some(U64(u))) == U64(if u == 0 then 0 else u - 1)
    ensures var r := NewValue(AddN(n), Some(U64(u)));
            r.U64? && r.u == if u + n < 0 then 0
                             else if u + n > 0xFFFF_FFFF_FFFF_FFFF then 0xFFFF_FFFF_FFFF_FFFF
                             else u + n
  {
  }

  function NumberIn(v: Option<Value>): Option<int> {
    match v
    case Some(I64(i)) => Some(i)
    case Some(U64(u)) => Some(u)
    case _ => None
  }

  /** A counter holds its exact sum if and only if it is signed or no prefix sum is negative. */
  lemma CounterExact(us: seq<Update>)
    requires us != [] && Counting(us) && InRange(us)
    ensures NumberIn(Fold(None, us)) == Some(Sum(us))
       <==> Delta(us[0]) < 0 || forall k :: 0 <= k <= |us| ==> Sum(us[..k]) >= 0
  {
    hide Sum, MinPrefixSum, InRange, Fold, Delta;
    CounterValue(us);
    MinPrefixSumIsLeast(us);
  }

  /** The counter law at any path of any event, whatever else the run does to log entries and other fields. */
  lemma CounterAtPath(ev: Event, ms: seq<Mutation>, p: Path)
    requires p != []
    requires forall i :: 0 <= i < |ms| && ms[i].Update? ==>
      ms[i].path != [] && (ms[i].path == p || Incomparable(ms[i].path, p))
    requires var us := UpdatesAt(ms, p); us != [] && Counting(us) && InRangeFrom(Get(ev, p), us)
    ensures var us, prior := UpdatesAt(ms, p), Get(ev, p);
            Get(Run(ev, ms), p)
            == Counter(SignedFrom(prior, us),
                       if SignedFrom(prior, us) then StartOf(prior) + Sum(us) else ReflectedFrom(StartOf(prior), us))
            != None
  {
    hide Get, Run, Fold, UpdatesAt, Sum, MinPrefixSum, InRangeFrom, WrapI64, WrapU64, NewValue, Counter;
    RunReads(ev, ms, p);
    CounterFrom(Get(ev, p), UpdatesAt(ms, p));
  }

  /** In a new event every counter starts from nothing. */
  lemma NewCounterAtPath(ms: seq<Mutation>, p: Path)
    requires p != []
    requires forall i :: 0 <= i < |ms| && ms[i].Update? ==>
      ms[i].path != [] && (ms[i].path == p || Incomparable(ms[i].path, p))
    requires var us := UpdatesAt(ms, p); us != [] && Counting(us) && InRange(us)
    ensures var us := UpdatesAt(ms, p);
            Get(Run(EMPTY, ms), p)
            == Counter(Delta(us[0]) < 0, if Delta(us[0]) < 0 then Sum(us) else Reflected(us))
            != None
  {
    RunReads(EMPTY, ms, p);
    EmptyReads(p);
    CounterValue(UpdatesAt(ms, p));
  }
}
