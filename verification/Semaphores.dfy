/** Counting semaphores as reader/writer locks: a range update is one atomic semop, a lock takes one
    unit, a full lock takes all of them. */
module Semaphores {

  datatype Result = Ok(vals: seq<nat>) | WouldBlock | BadNumber

  /** One entry of the vector handed to semop. */
  datatype SemBuf = SemBuf(num: nat, op: int)

  /** semop: the operations in order, all of them or none. */
  function SemOp(vals: seq<nat>, ops: seq<SemBuf>): (r: Result)
    decreases |ops|
  {
    if ops == [] then Ok(vals)
    else if ops[0].num >= |vals| then BadNumber
    else if vals[ops[0].num] + ops[0].op < 0 then WouldBlock
    else SemOp(vals[ops[0].num := vals[ops[0].num] + ops[0].op], ops[1..])
  }

  /** The vector for the range [start, start + m). */
  function RangeOps(start: nat, m: nat, value: int): (s: seq<SemBuf>)
    ensures |s| == m
  {
    seq(m, i requires 0 <= i < m => SemBuf(start + i, value))
  }

  predicate InRange(start: nat, m: nat, k: nat) { start <= k < start + m }

  /** The values after every semaphore of the range changed by value. */
  function Shifted(vals: seq<nat>, start: nat, m: nat, value: int): (r: seq<nat>)
    requires forall k | 0 <= k < |vals| && InRange(start, m, k) :: vals[k] + value >= 0
    ensures |r| == |vals|
  {
    seq(|vals|, k requires 0 <= k < |vals| => if InRange(start, m, k) then vals[k] + value else vals[k])
  }

  /** A range update is all-or-nothing: it goes through exactly when the range exists and no
      semaphore of it would fall below zero, and then it changes exactly the range. */
  lemma {:induction false} RangeAtomic(vals: seq<nat>, start: nat, m: nat, value: int)
    ensures SemOp(vals, RangeOps(start, m, value)).Ok?
       <==> (m > 0 ==> start + m <= |vals|) && forall k | 0 <= k < |vals| && InRange(start, m, k) :: vals[k] + value >= 0
    ensures SemOp(vals, RangeOps(start, m, value)).Ok? ==>
              SemOp(vals, RangeOps(start, m, value)).vals == Shifted(vals, start, m, value)
    decreases m
  {
    var ops := RangeOps(start, m, value);
    if m > 0 && start < |vals| && vals[start] + value >= 0 {
      var vals' := vals[start := vals[start] + value];
      assert ops[1..] == RangeOps(start + 1, m - 1, value);
      RangeAtomic(vals', start + 1, m - 1, value);
      if SemOp(vals, ops).Ok? {
        forall k | 0 <= k < |vals| && InRange(start, m, k) ensures vals[k] + value >= 0 {
          if k > start { assert vals'[k] + value >= 0; }
        }
      }
    } else if m > 0 && start < |vals| {
      assert InRange(start, m, start);
    }
  }

  class Semaphore {
    const maxValue: nat
    var vals: seq<nat>

    /** A new set of n semaphores stands at zero and is then released in full. */
    constructor (n: nat, maxValue: nat)
      ensures this.maxValue == maxValue && vals == seq(n, _ => maxValue)
    {
      this.maxValue := maxValue;
      vals := seq(n, _ => 0);
      new;
      var r := FullRelease(0, n);
      RangeAtomic(seq(n, _ => 0), 0, n, maxValue);
    }

    /** update: fills the vector, then one semop. */
    method Update(start: nat, m: nat, value: int) returns (r: int)
      modifies this`vals
      ensures var o := SemOp(old(vals), RangeOps(start, m, value));
              if o.Ok? then r == 0 && vals == o.vals else r == -1 && vals == old(vals)
    {
      var sb: seq<SemBuf> := seq(m, _ => SemBuf(0, 0));
      var i := 0;
      while i < m
        invariant 0 <= i <= m && |sb| == m
        invariant forall k | 0 <= k < i :: sb[k] == SemBuf(start + k, value)
      {
        sb := sb[i := SemBuf(start + i, value)];
        i := i + 1;
      }
      assert sb == RangeOps(start, m, value);
      match SemOp(vals, sb)
      case Ok(v) => vals := v; r := 0;
      case WouldBlock => r := -1;
      case BadNumber => r := -1;
    }

    method Lock(start: nat, m: nat) returns (r: int)
      modifies this`vals
      ensures var o := SemOp(old(vals), RangeOps(start, m, -1));
              if o.Ok? then r == 0 && vals == o.vals else r == -1 && vals == old(vals)
    {
      r := Update(start, m, -1);
    }

    method FullLock(start: nat, m: nat) returns (r: int)
      modifies this`vals
      ensures var o := SemOp(old(vals), RangeOps(start, m, -(maxValue as int)));
              if o.Ok? then r == 0 && vals == o.vals else r == -1 && vals == old(vals)
    {
      r := Update(start, m, -(maxValue as int));
    }

    method Release(start: nat, m: nat) returns (r: int)
      modifies this`vals
      ensures var o := SemOp(old(vals), RangeOps(start, m, 1));
              if o.Ok? then r == 0 && vals == o.vals else r == -1 && vals == old(vals)
    {
      r := Update(start, m, 1);
    }

    method FullRelease(start: nat, m: nat) returns (r: int)
      modifies this`vals
      ensures var o := SemOp(old(vals), RangeOps(start, m, maxValue));
              if o.Ok? then r == 0 && vals == o.vals else r == -1 && vals == old(vals)
    {
      r := Update(start, m, maxValue);
    }
  }

  // ---------------------------------------------------------------- the protocol

  /** What one process holds: how often each semaphore, shared and in full. */
  datatype Process = Process(shared: multiset<nat>, full: multiset<nat>)

  datatype State = State(vals: seq<nat>, procs: seq<Process>)

  datatype Step =
    | Lock(p: nat, start: nat, m: nat)
    | FullLock(p: nat, start: nat, m: nat)
    | Release(p: nat, start: nat, m: nat)
    | FullRelease(p: nat, start: nat, m: nat)

  /** The semaphores of a range, each once. */
  function Range(start: nat, m: nat): (s: multiset<nat>)
    ensures forall k: nat :: s[k] == if InRange(start, m, k) then 1 else 0
    decreases m
  {
    if m == 0 then multiset{} else multiset{start} + Range(start + 1, m - 1)
  }

  function Amount(e: Step, max: nat): int
  {
    match e
    case Lock(_, _, _) => -1
    case FullLock(_, _, _) => -(max as int)
    case Release(_, _, _) => 1
    case FullRelease(_, _, _) => max
  }

  /** A step goes through when its semop does; processes release only what they hold. */
  predicate Enabled(s: State, max: nat, e: Step)
  {
    && e.p < |s.procs| && SemOp(s.vals, RangeOps(e.start, e.m, Amount(e, max))).Ok?
    && (e.Release? ==> Range(e.start, e.m) <= s.procs[e.p].shared)
    && (e.FullRelease? ==> Range(e.start, e.m) <= s.procs[e.p].full)
  }

  function Next(s: State, max: nat, e: Step): State
    requires Enabled(s, max, e)
  {
    var q, r := s.procs[e.p], Range(e.start, e.m);
    var q' := match e
      case Lock(_, _, _) => q.(shared := q.shared + r)
      case FullLock(_, _, _) => q.(full := q.full + r)
      case Release(_, _, _) => q.(shared := q.shared - r)
      case FullRelease(_, _, _) => q.(full := q.full - r);
    State(SemOp(s.vals, RangeOps(e.start, e.m, Amount(e, max))).vals, s.procs[e.p := q'])
  }

  /** Units of semaphore k taken by the processes. */
  function Taken(procs: seq<Process>, max: nat, k: nat): nat
  {
    if procs == [] then 0 else procs[0].shared[k] + max * procs[0].full[k] + Taken(procs[1..], max, k)
  }

  /** Units are conserved: free ones, one per reader, max_value per writer. */
  predicate Conserved(s: State, max: nat)
  {
    forall k | 0 <= k < |s.vals| :: s.vals[k] + Taken(s.procs, max, k) == max
  }

  lemma {:induction false} TakenUpdate(procs: seq<Process>, max: nat, k: nat, p: nat, q: Process)
    requires p < |procs|
    ensures Taken(procs[p := q], max, k)
         == Taken(procs, max, k) - (procs[p].shared[k] + max * procs[p].full[k]) + (q.shared[k] + max * q.full[k])
  {
    if p == 0 {
      assert procs[0 := q][1..] == procs[1..];
    } else {
      assert procs[p := q][1..] == procs[1..][p - 1 := q];
      TakenUpdate(procs[1..], max, k, p - 1, q);
    }
  }

  lemma ConservedNext(s: State, max: nat, e: Step)
    requires Conserved(s, max) && Enabled(s, max, e)
    ensures Conserved(Next(s, max, e), max)
  {
    var s' := Next(s, max, e);
    RangeAtomic(s.vals, e.start, e.m, Amount(e, max));
    forall k | 0 <= k < |s'.vals| ensures s'.vals[k] + Taken(s'.procs, max, k) == max {
      TakenUpdate(s.procs, max, k, e.p, s'.procs[e.p]);
      UnitsMoved(s, max, e, k);
    }
  }

  lemma UnitsMoved(s: State, max: nat, e: Step, k: nat)
    requires Enabled(s, max, e)
    ensures var q, q' := s.procs[e.p], Next(s, max, e).procs[e.p];
            (q'.shared[k] + max * q'.full[k]) - (q.shared[k] + max * q.full[k])
            == if InRange(e.start, e.m, k) then -Amount(e, max) else 0
  {
    hide SemOp, RangeOps;
    var q, r := s.procs[e.p], Range(e.start, e.m);
    if InRange(e.start, e.m, k) {
      if e.FullLock? { OneMore(max, q.full[k]); }
      if e.FullRelease? { assert r[k] <= q.full[k]; OneMore(max, q.full[k] - 1); }
    }
  }

  lemma OneMore(max: nat, x: nat)
    ensures max * (x + 1) == max * x + max
  {
  }

  predicate Possible(s: State, max: nat, es: seq<Step>)
    decreases |es|
  {
    es == [] || (Enabled(s, max, es[0]) && Possible(Next(s, max, es[0]), max, es[1..]))
  }

  function After(s: State, max: nat, es: seq<Step>): State
    requires Possible(s, max, es)
    decreases |es|
  {
    if es == [] then s else After(Next(s, max, es[0]), max, es[1..])
  }

  /** Released in full, nobody holding anything. */
  function Start(n: nat, max: nat, procs: nat): State
  {
    State(seq(n, _ => max), seq(procs, _ => Process(multiset{}, multiset{})))
  }

  lemma {:induction false} NothingTaken(procs: seq<Process>, max: nat, k: nat)
    requires forall p | 0 <= p < |procs| :: procs[p] == Process(multiset{}, multiset{})
    ensures Taken(procs, max, k) == 0
  {
    if procs != [] { NothingTaken(procs[1..], max, k); }
  }

  lemma {:induction false} ConservedRun(s: State, max: nat, es: seq<Step>)
    requires Conserved(s, max) && Possible(s, max, es)
    ensures Conserved(After(s, max, es), max)
    decreases |es|
  {
    if es != [] {
      ConservedNext(s, max, es[0]);
      ConservedRun(Next(s, max, es[0]), max, es[1..]);
    }
  }

  /** In every reachable state the units of every semaphore add up to max_value. */
  lemma UnitsConserved(n: nat, max: nat, procs: nat, es: seq<Step>)
    requires Possible(Start(n, max, procs), max, es)
    ensures Conserved(After(Start(n, max, procs), max, es), max)
  {
    var s := Start(n, max, procs);
    forall k | 0 <= k < |s.vals| ensures s.vals[k] + Taken(s.procs, max, k) == max {
      NothingTaken(s.procs, max, k);
    }
    ConservedRun(s, max, es);
  }

  lemma {:induction false} TakenAtLeast(procs: seq<Process>, max: nat, k: nat, p: nat)
    requires p < |procs|
    ensures Taken(procs, max, k) >= procs[p].shared[k] + max * procs[p].full[k]
  {
    if p > 0 { TakenAtLeast(procs[1..], max, k, p - 1); }
  }

  lemma {:induction false} TakenByTwo(procs: seq<Process>, max: nat, k: nat, p: nat, q: nat)
    requires p < q < |procs|
    ensures Taken(procs, max, k)
         >= procs[p].shared[k] + max * procs[p].full[k] + procs[q].shared[k] + max * procs[q].full[k]
  {
    if p == 0 {
      TakenAtLeast(procs[1..], max, k, q - 1);
    } else {
      TakenByTwo(procs[1..], max, k, p - 1, q - 1);
    }
  }

  /** A process that holds semaphore k in full holds it once, nothing of it is free, and no other
      process holds any of it. */
  lemma FullLockExcludes(s: State, max: nat, k: nat, p: nat)
    requires Conserved(s, max) && max > 0 && k < |s.vals| && p < |s.procs| && s.procs[p].full[k] > 0
    ensures s.vals[k] == 0 && s.procs[p].full[k] == 1 && s.procs[p].shared[k] == 0
    ensures forall q | 0 <= q < |s.procs| && q != p :: s.procs[q].full[k] == 0 && s.procs[q].shared[k] == 0
  {
    TakenAtLeast(s.procs, max, k, p);
    Whole(max, s.procs[p].full[k]);
    forall q | 0 <= q < |s.procs| && q != p ensures s.procs[q].full[k] == 0 && s.procs[q].shared[k] == 0 {
      TakenByTwo(s.procs, max, k, if p < q then p else q, if p < q then q else p);
      Whole(max, s.procs[q].full[k]);
    }
  }

  lemma Whole(max: nat, x: nat)
    requires max > 0
    ensures x == 1 ==> max * x == max
    ensures x > 0 ==> max * x >= max
    ensures x > 1 ==> max * x > max
  {
    if x > 0 { assert max * x == max + max * (x - 1); }
  }
}
