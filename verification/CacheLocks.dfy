/** The cache with its locks: a probe of get or set, and a collector visit, taken apart into locking a
    semaphore, reading the record, writing it and releasing. get and set lock the number of the probe,
    the collector the number of the record. When that keeps two of them apart, and that they are the
    atomic steps of CacheRuns where it does. */
module CacheLocks {
  import opened CacheTable
  import opened Semaphores
  import Runs = CacheRuns

  // ---------------------------------------------------------------- when two locks exclude each other

  /** Process p can hold number i in full while process q holds number j, in full or shared. */
  ghost predicate HeldTogether(n: nat, max: nat, procs: nat, p: nat, i: nat, q: nat, j: nat, shared: bool)
    requires p < procs && q < procs
  {
    exists es :: Semaphores.Possible(Start(n, max, procs), max, es) && Holds(Semaphores.After(Start(n, max, procs), max, es), p, i, q, j, shared)
  }

  predicate Holds(s: Semaphores.State, p: nat, i: nat, q: nat, j: nat, shared: bool)
  {
    && p < |s.procs| && q < |s.procs| && s.procs[p].full[i] > 0
    && if shared then s.procs[q].shared[j] > 0 else s.procs[q].full[j] > 0
  }

  lemma RangeOne(i: nat)
    ensures Range(i, 1) == multiset{i}
  {
    assert Range(i + 1, 0) == multiset{};
  }

  /** One semaphore at a time: what a step needs and does. */
  lemma OneUnit(s: Semaphores.State, max: nat, e: Semaphores.Step)
    requires e.m == 1 && e.start < |s.vals|
    ensures var v := s.vals[e.start] + Amount(e, max);
            && (SemOp(s.vals, RangeOps(e.start, 1, Amount(e, max))).Ok? <==> v >= 0)
            && (v >= 0 ==> SemOp(s.vals, RangeOps(e.start, 1, Amount(e, max))).vals == s.vals[e.start := v])
  {
    RangeAtomic(s.vals, e.start, 1, Amount(e, max));
    assert InRange(e.start, 1, e.start);
  }

  lemma {:induction false} SizesStay(s: Semaphores.State, max: nat, es: seq<Semaphores.Step>)
    requires Semaphores.Possible(s, max, es)
    ensures |Semaphores.After(s, max, es).vals| == |s.vals| && |Semaphores.After(s, max, es).procs| == |s.procs|
    decreases |es|
  {
    if es != [] {
      RangeAtomic(s.vals, es[0].start, es[0].m, Amount(es[0], max));
      SizesStay(Semaphores.Next(s, max, es[0]), max, es[1..]);
    }
  }

  /** The protocol separates semaphore numbers, nothing more: in the reachable states one process can
      hold number i in full and another number j, in full or shared, exactly when the numbers differ. */
  lemma ExclusionIsPerNumber(n: nat, max: nat, procs: nat, p: nat, i: nat, q: nat, j: nat, shared: bool)
    requires p < procs && q < procs && p != q && i < n && j < n && max > 0
    ensures HeldTogether(n, max, procs, p, i, q, j, shared) <==> i != j
  {
    var s := Start(n, max, procs);
    if HeldTogether(n, max, procs, p, i, q, j, shared) {
      var es :| Semaphores.Possible(s, max, es) && Holds(Semaphores.After(s, max, es), p, i, q, j, shared);
      UnitsConserved(n, max, procs, es);
      SizesStay(s, max, es);
      FullLockExcludes(Semaphores.After(s, max, es), max, i, p);
    }
    if i != j {
      BothLocked(n, max, procs, p, i, q, j, shared);
    }
  }

  lemma BothLocked(n: nat, max: nat, procs: nat, p: nat, i: nat, q: nat, j: nat, shared: bool)
    requires p < procs && q < procs && p != q && i < n && j < n && max > 0 && i != j
    ensures HeldTogether(n, max, procs, p, i, q, j, shared)
  {
    var s := Start(n, max, procs);
    var e, f := FullLock(p, i, 1), if shared then Lock(q, j, 1) else FullLock(q, j, 1);
    OneUnit(s, max, e);
    var s' := Semaphores.Next(s, max, e);
    OneUnit(s', max, f);
    RangeOne(i);
    RangeOne(j);
    var s'' := Semaphores.Next(s', max, f);
    var es := [e, f];
    assert es[1..] == [f] && es[1..][1..] == [];
    assert Semaphores.Possible(s'', max, []) && Semaphores.Possible(s', max, [f]);
    assert Semaphores.After(s', max, [f]) == Semaphores.After(s'', max, []) == s'';
    assert Semaphores.Possible(s, max, es) && Semaphores.After(s, max, es) == s'';
    assert Holds(s'', p, i, q, j, shared);
  }

  /** Probes that lead to one record have one number exactly when their hashes agree modulo the size of
      the table. */
  lemma SameNumber(h: nat, i: nat, g: nat, j: nat, n: nat)
    requires i < n && j < n && Probe(h, i, n) == Probe(g, j, n)
    ensures i == j <==> h % n == g % n
  {
    ProbeIs(h, i, n);
    ProbeIs(g, j, n);
  }

  /** A set and another set or get, at one record, exclude each other exactly when their hashes agree
      modulo the size of the table. */
  lemma ProbesExclude(h: nat, i: nat, g: nat, j: nat, n: nat, max: nat, procs: nat, p: nat, q: nat, shared: bool)
    requires i < n && j < n && Probe(h, i, n) == Probe(g, j, n) && p < procs && q < procs && p != q && max > 0
    ensures !HeldTogether(n, max, procs, p, i, q, j, shared) <==> h % n == g % n
  {
    SameNumber(h, i, g, j, n);
    ExclusionIsPerNumber(n, max, procs, p, i, q, j, shared);
  }

  /** The collector and a set or get, at one record, exclude each other exactly when the hash of the
      key is a multiple of the size of the table. */
  lemma SweepExcludes(h: nat, i: nat, n: nat, max: nat, procs: nat, p: nat, q: nat, shared: bool)
    requires i < n && p < procs && q < procs && p != q && max > 0
    ensures !HeldTogether(n, max, procs, p, Probe(h, i, n), q, i, shared) <==> h % n == 0
  {
    ProbeIs(h, i, n);
    ExclusionIsPerNumber(n, max, procs, p, Probe(h, i, n), q, i, shared);
  }

  // ---------------------------------------------------------------- the machine

  /** Where a process is in a probe or visit: before the lock; behind it; with the record seen that it
      is going to replace; replacing it; on its way out, finished or with more probes to come. */
  datatype Phase = Wants | Locked | Saw(r: Record) | Writing(r: Record) | Leaving(done: bool)

  datatype Agent =
    | Idle
    | Getting(key: Str, i: nat, phase: Phase)
    | Setting(key: Str, value: Str, ttl: nat, i: nat, phase: Phase)
    | Sweeping(p: nat, phase: Phase)

  datatype State = State(table: Table, agents: seq<Agent>, sem: Semaphores.State)

  datatype Event =
    | StartGet(w: nat, key: Str)
    | StartSet(w: nat, key: Str, value: Str, ttl: nat)
    | StartSweep(w: nat, p: nat)
    | TakeLock(w: nat)
    | Read(w: nat, seen: Record)
    | BeginWrite(w: nat)
    | EndWrite(w: nat, stored: Record)
    | Leave(w: nat)
    | GiveUp(w: nat)

  /** The semaphore number a process locks. */
  function Number(a: Agent): nat
    requires !a.Idle?
  {
    match a
    case Getting(_, i, _) => i
    case Setting(_, _, _, i, _) => i
    case Sweeping(p, _) => p
  }

  /** The record it is at. */
  function Place(a: Agent, hash: Str -> nat, n: nat): (p: nat)
    requires !a.Idle? && n > 0
  {
    match a
    case Getting(key, i, _) => Probe(hash(key), i, n)
    case Setting(key, _, _, i, _) => Probe(hash(key), i, n)
    case Sweeping(p, _) => p
  }

  predicate Inside(a: Agent) { !a.Idle? && !a.phase.Wants? }

  function Locking(w: nat, a: Agent): Semaphores.Step
    requires !a.Idle?
  {
    if a.Getting? then Lock(w, Number(a), 1) else FullLock(w, Number(a), 1)
  }

  function Unlocking(w: nat, a: Agent): Semaphores.Step
    requires !a.Idle?
  {
    if a.Getting? then Release(w, Number(a), 1) else FullRelease(w, Number(a), 1)
  }

  /** What is done with the record that was read. */
  function Decide(a: Agent, seen: Record): Phase
    requires !a.Idle?
  {
    match a
    case Getting(key, _, _) => Leaving(ProbeGet(seen, key).GetStop?)
    case Setting(key, _, _, _, _) => if Takes(seen, key) then Saw(seen) else Leaving(false)
    case Sweeping(_, _) => if seen.Alive? then Saw(seen) else Leaving(true)
  }

  /** The record that is written. */
  function Replacement(a: Agent): Record
    requires !a.Idle? && a.phase.Writing?
  {
    if a.Setting? then Alive(a.key, a.value, a.ttl) else Visit(a.phase.r)
  }

  /** Another process is replacing record p at this moment. */
  predicate Torn(s: State, hash: Str -> nat, w: nat, p: nat)
    requires |s.table| > 0
  {
    exists v :: 0 <= v < |s.agents| && v != w && WritesAt(s.agents[v], hash, |s.table|, p)
  }

  predicate WritesAt(a: Agent, hash: Str -> nat, n: nat, p: nat)
    requires n > 0
  {
    !a.Idle? && a.phase.Writing? && Place(a, hash, n) == p
  }

  /** A record that is being replaced may be read as anything, and what is stored in it may become
      anything. */
  predicate Enabled(s: State, hash: Str -> nat, max: nat, e: Event)
  {
    var n := |s.table|;
    n > 0 && e.w < |s.agents| && var a := s.agents[e.w];
    match e
    case StartGet(_, _) => a.Idle?
    case StartSet(_, _, _, _) => a.Idle?
    case StartSweep(_, p) => a.Idle? && p < n
    case TakeLock(w) => !a.Idle? && a.phase.Wants? && Number(a) < n && Semaphores.Enabled(s.sem, max, Locking(w, a))
    case Read(w, seen) =>
      !a.Idle? && a.phase.Locked? && Place(a, hash, n) < n
      && (seen == s.table[Place(a, hash, n)] || Torn(s, hash, w, Place(a, hash, n)))
    case BeginWrite(_) => !a.Idle? && a.phase.Saw?
    case EndWrite(w, stored) =>
      !a.Idle? && a.phase.Writing? && Place(a, hash, n) < n
      && (stored == Replacement(a) || Torn(s, hash, w, Place(a, hash, n)))
    case Leave(w) => !a.Idle? && a.phase.Leaving? && Semaphores.Enabled(s.sem, max, Unlocking(w, a))
    case GiveUp(_) => !a.Idle? && a.phase.Wants? && Number(a) >= n
  }

  function With(s: State, w: nat, a: Agent): State
    requires w < |s.agents|
  {
    s.(agents := s.agents[w := a])
  }

  /** Behind a probe: finished, or on to the next one. */
  function Onward(a: Agent): Agent
    requires !a.Idle? && a.phase.Leaving?
  {
    if a.phase.done || a.Sweeping? then Idle else a.(i := a.i + 1, phase := Wants)
  }

  function Next(s: State, hash: Str -> nat, max: nat, e: Event): (s': State)
    requires Enabled(s, hash, max, e)
    ensures |s'.table| == |s.table| && |s'.agents| == |s.agents|
  {
    var n, a := |s.table|, s.agents[e.w];
    match e
    case StartGet(w, key) => With(s, w, Getting(key, 0, Wants))
    case StartSet(w, key, value, ttl) => With(s, w, Setting(key, value, ttl, 0, Wants))
    case StartSweep(w, p) => With(s, w, Sweeping(p, Wants))
    case TakeLock(w) => With(s, w, a.(phase := Locked)).(sem := Semaphores.Next(s.sem, max, Locking(w, a)))
    case Read(w, seen) => With(s, w, a.(phase := Decide(a, seen)))
    case BeginWrite(w) => With(s, w, a.(phase := Writing(a.phase.r)))
    case EndWrite(w, stored) =>
      With(s, w, a.(phase := Leaving(true))).(table := s.table[Place(a, hash, n) := stored])
    case Leave(w) => With(s, w, Onward(a)).(sem := Semaphores.Next(s.sem, max, Unlocking(w, a)))
    case GiveUp(w) => With(s, w, Idle)
  }

  predicate Possible(s: State, hash: Str -> nat, max: nat, es: seq<Event>)
    decreases |es|, 0
  {
    es == [] || (Possible(s, hash, max, es[..|es| - 1]) && Enabled(After(s, hash, max, es[..|es| - 1]), hash, max, es[|es| - 1]))
  }

  function After(s: State, hash: Str -> nat, max: nat, es: seq<Event>): (s': State)
    requires Possible(s, hash, max, es)
    ensures |s'.table| == |s.table| && |s'.agents| == |s.agents|
    decreases |es|, 1
  {
    if es == [] then s else Next(After(s, hash, max, es[..|es| - 1]), hash, max, es[|es| - 1])
  }

  /** Nobody at work, all semaphores released in full. */
  function Begin(table: Table, agents: nat, max: nat): State
  {
    State.State(table, seq(agents, _ => Idle), Start(|table|, max, agents))
  }

  // ---------------------------------------------------------------- the condition

  /** All hashes agree modulo the size of the table; if the collector is at work, they are multiples
      of it. */
  predicate Suits(e: Event, hash: Str -> nat, n: nat, c: nat)
    requires n > 0
  {
    match e
    case StartGet(_, key) => hash(key) % n == c
    case StartSet(_, key, _, _) => hash(key) % n == c
    case StartSweep(_, _) => c == 0
    case _ => true
  }

  /** How far the record a process is at lies from its number: 0 for the collector. */
  function Offset(a: Agent, hash: Str -> nat, n: nat): nat
    requires n > 0 && !a.Idle?
  {
    match a
    case Getting(key, _, _) => hash(key) % n
    case Setting(key, _, _, _, _) => hash(key) % n
    case Sweeping(_, _) => 0
  }

  predicate Aligned(a: Agent, hash: Str -> nat, n: nat, c: nat)
    requires n > 0
  {
    !a.Idle? ==> Offset(a, hash, n) == c
  }

  // ---------------------------------------------------------------- what every run keeps

  /** The units a process holds. */
  function Holding(a: Agent): Process
  {
    if !Inside(a) then Process(multiset{}, multiset{})
    else if a.Getting? then Process(multiset{Number(a)}, multiset{})
    else Process(multiset{}, multiset{Number(a)})
  }

  predicate InTable(a: Agent, n: nat)
  {
    (a.Sweeping? ==> a.p < n) && (Inside(a) ==> Number(a) < n)
  }

  /** The processes hold the numbers they are inside of, and nothing else. */
  ghost predicate Locks(s: State, max: nat)
  {
    && |s.table| > 0 && max > 0 && |s.sem.vals| == |s.table| && |s.sem.procs| == |s.agents|
    && Conserved(s.sem, max)
    && forall w | 0 <= w < |s.agents| :: s.sem.procs[w] == Holding(s.agents[w]) && InTable(s.agents[w], |s.table|)
  }

  /** Locking from nothing, and releasing what is held. */
  lemma LockNext(g: Semaphores.State, max: nat, w: nat, a: Agent)
    requires !a.Idle? && a.phase.Wants? && Number(a) < |g.vals| && w < |g.procs| && g.procs[w] == Holding(a)
    requires Semaphores.Enabled(g, max, Locking(w, a))
    ensures var g' := Semaphores.Next(g, max, Locking(w, a));
            |g'.vals| == |g.vals| && g'.procs == g.procs[w := Holding(a.(phase := Locked))]
  {
    OneUnit(g, max, Locking(w, a));
    RangeOne(Number(a));
    assert multiset{} + multiset{Number(a)} == multiset{Number(a)};
  }

  lemma UnlockNext(g: Semaphores.State, max: nat, w: nat, a: Agent)
    requires Inside(a) && a.phase.Leaving? && Number(a) < |g.vals| && w < |g.procs| && g.procs[w] == Holding(a)
    requires Semaphores.Enabled(g, max, Unlocking(w, a))
    ensures var g' := Semaphores.Next(g, max, Unlocking(w, a));
            |g'.vals| == |g.vals| && g'.procs == g.procs[w := Process(multiset{}, multiset{})]
  {
    OneUnit(g, max, Unlocking(w, a));
    RangeOne(Number(a));
    assert multiset{Number(a)} - multiset{Number(a)} == multiset{};
  }

  lemma SemLocked(s: State, hash: Str -> nat, max: nat, w: nat)
    requires Enabled(s, hash, max, TakeLock(w)) && |s.sem.vals| == |s.table| && |s.sem.procs| == |s.agents| && Conserved(s.sem, max)
    requires s.sem.procs[w] == Holding(s.agents[w])
    ensures var g := Next(s, hash, max, TakeLock(w)).sem;
            && |g.vals| == |s.table| && Conserved(g, max)
            && g.procs == s.sem.procs[w := Holding(Next(s, hash, max, TakeLock(w)).agents[w])]
  {
    hide Conserved, Semaphores.Next, Semaphores.Enabled, Holding;
    ConservedNext(s.sem, max, Locking(w, s.agents[w]));
    LockNext(s.sem, max, w, s.agents[w]);
  }

  lemma SemReleased(s: State, hash: Str -> nat, max: nat, w: nat)
    requires Enabled(s, hash, max, Leave(w)) && |s.sem.vals| == |s.table| && |s.sem.procs| == |s.agents| && Conserved(s.sem, max)
    requires s.sem.procs[w] == Holding(s.agents[w]) && Number(s.agents[w]) < |s.table|
    ensures var g := Next(s, hash, max, Leave(w)).sem;
            && |g.vals| == |s.table| && Conserved(g, max)
            && g.procs == s.sem.procs[w := Holding(Next(s, hash, max, Leave(w)).agents[w])]
  {
    hide Conserved, Semaphores.Next, Semaphores.Enabled;
    ConservedNext(s.sem, max, Unlocking(w, s.agents[w]));
    UnlockNext(s.sem, max, w, s.agents[w]);
  }

  lemma SemKept(s: State, hash: Str -> nat, max: nat, e: Event)
    requires Enabled(s, hash, max, e) && |s.sem.vals| == |s.table| && |s.sem.procs| == |s.agents| && Conserved(s.sem, max)
    requires s.sem.procs[e.w] == Holding(s.agents[e.w]) && (Inside(s.agents[e.w]) ==> Number(s.agents[e.w]) < |s.table|)
    ensures var g := Next(s, hash, max, e).sem;
            && |g.vals| == |s.table| && Conserved(g, max)
            && g.procs == s.sem.procs[e.w := Holding(Next(s, hash, max, e).agents[e.w])]
  {
    hide Conserved, Semaphores.Next, Semaphores.Enabled, Torn, Place;
    if e.TakeLock? {
      SemLocked(s, hash, max, e.w);
    } else if e.Leave? {
      SemReleased(s, hash, max, e.w);
    }
  }

  lemma OthersStay(s: State, hash: Str -> nat, max: nat, e: Event)
    requires Enabled(s, hash, max, e)
    ensures forall v | 0 <= v < |s.agents| && v != e.w :: Next(s, hash, max, e).agents[v] == s.agents[v]
  {
  }

  lemma OwnInTable(s: State, hash: Str -> nat, max: nat, e: Event)
    requires Enabled(s, hash, max, e) && InTable(s.agents[e.w], |s.table|)
    ensures InTable(Next(s, hash, max, e).agents[e.w], |s.table|)
  {
    hide Torn, Semaphores.Next, Semaphores.Enabled, Probe, Place;
  }

  lemma LocksNext(s: State, hash: Str -> nat, max: nat, e: Event)
    requires Locks(s, max) && Enabled(s, hash, max, e)
    ensures Locks(Next(s, hash, max, e), max)
  {
    var s' := Next(s, hash, max, e);
    EnabledAt(s, hash, max, e);
    hide Enabled, Next, Conserved, Holding, InTable;
    LocksAt(s, max, e.w);
    SemKept(s, hash, max, e);
    OwnInTable(s, hash, max, e);
    OthersStay(s, hash, max, e);
    forall v | 0 <= v < |s'.agents|
      ensures s'.sem.procs[v] == Holding(s'.agents[v]) && InTable(s'.agents[v], |s'.table|)
    {
      if v != e.w { LocksAt(s, max, v); }
    }
  }

  lemma LocksAt(s: State, max: nat, w: nat)
    requires Locks(s, max) && w < |s.agents|
    ensures s.sem.procs[w] == Holding(s.agents[w]) && InTable(s.agents[w], |s.table|)
    ensures Inside(s.agents[w]) ==> Number(s.agents[w]) < |s.table|
  {
  }

  lemma LocksBegin(table: Table, agents: nat, max: nat)
    requires |table| > 0 && max > 0
    ensures Locks(Begin(table, agents, max), max)
  {
    UnitsConserved(|table|, max, agents, []);
  }

  lemma {:induction false} LocksRun(s: State, hash: Str -> nat, max: nat, es: seq<Event>)
    requires Locks(s, max) && Possible(s, hash, max, es)
    ensures Locks(After(s, hash, max, es), max)
    decreases |es|
  {
    hide Locks, Enabled, Next;
    if es != [] {
      LocksRun(s, hash, max, es[..|es| - 1]);
      LocksNext(After(s, hash, max, es[..|es| - 1]), hash, max, es[|es| - 1]);
    }
  }

  /** The record a process is at, from its offset and its number. */
  lemma PlaceNumber(a: Agent, hash: Str -> nat, n: nat)
    requires n > 0 && Inside(a) && Number(a) < n
    ensures var c := Offset(a, hash, n); Place(a, hash, n) == if c + Number(a) < n then c + Number(a) else c + Number(a) - n
    ensures Place(a, hash, n) < n
  {
    match a
    case Getting(key, i, _) => ProbeIs(hash(key), i, n);
    case Setting(key, _, _, i, _) => ProbeIs(hash(key), i, n);
    case Sweeping(_, _) =>
  }

  /** In every run, whatever the keys: a process that sets or sweeps a record is alone with it as far as
      processes of its own offset are concerned. */
  lemma Apart(s: State, hash: Str -> nat, max: nat, v: nat, w: nat)
    requires Locks(s, max) && v < |s.agents| && w < |s.agents| && v != w
    requires Inside(s.agents[v]) && Inside(s.agents[w]) && !s.agents[v].Getting?
    requires Offset(s.agents[v], hash, |s.table|) == Offset(s.agents[w], hash, |s.table|)
    ensures Place(s.agents[v], hash, |s.table|) != Place(s.agents[w], hash, |s.table|)
  {
    var a, b := s.agents[v], s.agents[w];
    PlaceNumber(a, hash, |s.table|);
    PlaceNumber(b, hash, |s.table|);
    assert s.sem.procs[v] == Holding(a) && s.sem.procs[w] == Holding(b);
    assert Holding(b).shared[Number(b)] + Holding(b).full[Number(b)] == 1;
    if Number(a) == Number(b) {
      FullLockExcludes(s.sem, max, Number(a), v);
    }
  }

  // ---------------------------------------------------------------- the invariant under the condition

  /** The record a process is going to replace is still the one it saw. */
  predicate UpToDate(a: Agent, t: Table, hash: Str -> nat)
    requires |t| > 0
  {
    && InTable(a, |t|)
    && (Inside(a) && (a.phase.Saw? || a.phase.Writing?) ==>
          && !a.Getting? && Place(a, hash, |t|) < |t| && a.phase.r == t[Place(a, hash, |t|)]
          && (if a.Setting? then Takes(a.phase.r, a.key) else a.phase.r.Alive?))
  }

  ghost predicate Inv(s: State, hash: Str -> nat, max: nat, c: nat)
  {
    && Locks(s, max)
    && (forall w | 0 <= w < |s.agents| :: UpToDate(s.agents[w], s.table, hash) && Aligned(s.agents[w], hash, |s.table|, c))
  }

  /** Where the condition holds a process that sets or sweeps a record is alone with it. */
  lemma Alone(s: State, hash: Str -> nat, max: nat, c: nat, v: nat, w: nat)
    requires Inv(s, hash, max, c) && v < |s.agents| && w < |s.agents| && v != w
    requires Inside(s.agents[v]) && Inside(s.agents[w]) && !s.agents[v].Getting?
    ensures Place(s.agents[v], hash, |s.table|) != Place(s.agents[w], hash, |s.table|)
  {
    hide UpToDate, Place, Offset, Holding, Conserved;
    assert Aligned(s.agents[v], hash, |s.table|, c) && Aligned(s.agents[w], hash, |s.table|, c);
    Apart(s, hash, max, v, w);
  }

  lemma NotTorn(s: State, hash: Str -> nat, max: nat, c: nat, w: nat)
    requires Inv(s, hash, max, c) && w < |s.agents| && Inside(s.agents[w])
    ensures !Torn(s, hash, w, Place(s.agents[w], hash, |s.table|))
  {
    forall v | 0 <= v < |s.agents| && v != w
      ensures !WritesAt(s.agents[v], hash, |s.table|, Place(s.agents[w], hash, |s.table|))
    {
      if !s.agents[v].Idle? && s.agents[v].phase.Writing? {
        assert UpToDate(s.agents[v], s.table, hash);
        Alone(s, hash, max, c, v, w);
      }
    }
  }

  lemma NumberInside(a: Agent, t: Table, hash: Str -> nat)
    requires |t| > 0 && UpToDate(a, t, hash) && Inside(a)
    ensures Number(a) < |t|
  {
  }

  lemma TableNext(s: State, hash: Str -> nat, max: nat, c: nat, e: Event, v: nat)
    requires Inv(s, hash, max, c) && Enabled(s, hash, max, e) && v < |s.agents| && v != e.w
    ensures UpToDate(s.agents[v], Next(s, hash, max, e).table, hash)
  {
    assert UpToDate(s.agents[v], s.table, hash);
    var b := s.agents[v];
    if e.EndWrite? && Inside(b) && (b.phase.Saw? || b.phase.Writing?) {
      Alone(s, hash, max, c, v, e.w);
    }
  }

  /** The process that takes a step. */
  lemma OwnKept(s: State, hash: Str -> nat, max: nat, c: nat, e: Event)
    requires Enabled(s, hash, max, e) && Suits(e, hash, |s.table|, c)
    requires var a := s.agents[e.w];
             && UpToDate(a, s.table, hash) && Aligned(a, hash, |s.table|, c)
             && (Inside(a) ==> Place(a, hash, |s.table|) < |s.table| && !Torn(s, hash, e.w, Place(a, hash, |s.table|)))
    ensures var s' := Next(s, hash, max, e);
            UpToDate(s'.agents[e.w], s'.table, hash) && Aligned(s'.agents[e.w], hash, |s'.table|, c)
  {
    hide Torn, Semaphores.Next, Semaphores.Enabled, Probe;
  }

  lemma OwnNext(s: State, hash: Str -> nat, max: nat, c: nat, e: Event)
    requires Inv(s, hash, max, c) && Enabled(s, hash, max, e) && Suits(e, hash, |s.table|, c)
    ensures var s' := Next(s, hash, max, e);
            UpToDate(s'.agents[e.w], s'.table, hash) && Aligned(s'.agents[e.w], hash, |s'.table|, c)
  {
    hide Inv, Torn, Suits;
    EnabledAt(s, hash, max, e);
    hide Enabled, Next;
    InvAt(s, hash, max, c, e.w);
    var a := s.agents[e.w];
    if Inside(a) {
      NumberInside(a, s.table, hash);
      PlaceNumber(a, hash, |s.table|);
      NotTorn(s, hash, max, c, e.w);
    }
    OwnKept(s, hash, max, c, e);
  }

  /** Every step keeps the invariant where it suits the condition. */
  lemma InvNext(s: State, hash: Str -> nat, max: nat, c: nat, e: Event)
    requires Inv(s, hash, max, c) && Enabled(s, hash, max, e) && Suits(e, hash, |s.table|, c)
    ensures Inv(Next(s, hash, max, e), hash, max, c)
  {
    var s' := Next(s, hash, max, e);
    LocksNext(s, hash, max, e);
    OwnNext(s, hash, max, c, e);
    OthersStay(s, hash, max, e);
    forall v | 0 <= v < |s'.agents|
      ensures UpToDate(s'.agents[v], s'.table, hash) && Aligned(s'.agents[v], hash, |s'.table|, c)
    {
      if v != e.w {
        TableNext(s, hash, max, c, e, v);
        InvAt(s, hash, max, c, v);
      }
    }
    hide Locks, Enabled, Next, UpToDate, Aligned;
  }

  lemma InvBegin(table: Table, agents: nat, hash: Str -> nat, max: nat, c: nat)
    requires |table| > 0 && max > 0
    ensures Inv(Begin(table, agents, max), hash, max, c)
  {
    LocksBegin(table, agents, max);
  }

  ghost predicate SuitRun(es: seq<Event>, hash: Str -> nat, n: nat, c: nat)
    requires n > 0
  {
    forall k | 0 <= k < |es| :: Suits(es[k], hash, n, c)
  }

  lemma {:induction false} InvRun(s: State, hash: Str -> nat, max: nat, c: nat, es: seq<Event>)
    requires Inv(s, hash, max, c) && Possible(s, hash, max, es) && SuitRun(es, hash, |s.table|, c)
    ensures Inv(After(s, hash, max, es), hash, max, c)
    decreases |es|
  {
    hide Inv, Enabled, Next, Suits;
    if es != [] {
      var before := es[..|es| - 1];
      InvSize(s, hash, max, c);
      assert forall k | 0 <= k < |before| :: before[k] == es[k];
      InvRun(s, hash, max, c, before);
      InvNext(After(s, hash, max, before), hash, max, c, es[|es| - 1]);
    }
  }

  lemma InvSize(s: State, hash: Str -> nat, max: nat, c: nat)
    requires Inv(s, hash, max, c)
    ensures |s.table| > 0
  {
  }

  /** Under the condition, in every run: a record is never written twice at once, and never read while
      it is written. */
  lemma NeverTogether(table: Table, agents: nat, hash: Str -> nat, max: nat, c: nat, es: seq<Event>, v: nat, w: nat)
    requires |table| > 0 && max > 0 && v < agents && w < agents && v != w
    requires Possible(Begin(table, agents, max), hash, max, es) && SuitRun(es, hash, |table|, c)
    ensures var s := After(Begin(table, agents, max), hash, max, es); var a, b := s.agents[v], s.agents[w];
            Inside(a) && Inside(b) && !a.Getting? ==> Place(a, hash, |table|) != Place(b, hash, |table|)
  {
    hide Possible, After, Inside, Place;
    InvBegin(table, agents, hash, max, c);
    InvRun(Begin(table, agents, max), hash, max, c, es);
    var s := After(Begin(table, agents, max), hash, max, es);
    if Inside(s.agents[v]) && Inside(s.agents[w]) && !s.agents[v].Getting? {
      Alone(s, hash, max, c, v, w);
    }
  }

  // ---------------------------------------------------------------- the atomic steps behind it

  /** A process as CacheRuns sees it: a probe happens when its record is read, or, if it is going to be
      replaced, when it has been. */
  function Seen(a: Agent): Runs.Worker
  {
    match a
    case Idle => Runs.Idle
    case Sweeping(_, _) => Runs.Idle
    case Getting(key, i, phase) =>
      if phase.Leaving? then (if phase.done then Runs.Idle else Runs.Getting(key, i + 1)) else Runs.Getting(key, i)
    case Setting(key, value, ttl, i, phase) =>
      if phase.Leaving? then (if phase.done then Runs.Idle else Runs.Setting(key, value, ttl, i + 1))
      else Runs.Setting(key, value, ttl, i)
  }

  function Abstract(s: State): (x: Runs.State)
    ensures |x.workers| == |s.agents| && x.table == s.table
    ensures forall w | 0 <= w < |s.agents| :: x.workers[w] == Seen(s.agents[w])
  {
    Runs.State(s.table, seq(|s.agents|, w requires 0 <= w < |s.agents| => Seen(s.agents[w])))
  }

  /** The atomic step an event completes, if any. */
  function Atomic(s: State, e: Event): seq<Runs.Event>
    requires e.w < |s.agents|
  {
    var a := s.agents[e.w];
    match e
    case StartGet(w, key) => [Runs.StartGet(w, key)]
    case StartSet(w, key, value, ttl) => [Runs.StartSet(w, key, value, ttl)]
    case Read(w, seen) =>
      (match a
       case Getting(_, _, _) => [Runs.Step(w)]
       case Setting(key, _, _, _, _) => if Takes(seen, key) then [] else [Runs.Step(w)]
       case Sweeping(p, _) => if seen.Alive? then [] else [Runs.Collect(p)]
       case Idle => [])
    case EndWrite(w, _) => if a.Sweeping? then [Runs.Collect(a.p)] else [Runs.Step(w)]
    case GiveUp(w) => [Runs.Step(w)]
    case _ => []
  }

  /** An event is invisible, or exactly one atomic step. */
  ghost predicate Matches(s: State, hash: Str -> nat, max: nat, e: Event)
    requires Enabled(s, hash, max, e)
  {
    var x, x', es := Abstract(s), Abstract(Next(s, hash, max, e)), Atomic(s, e);
    if es == [] then x' == x else |es| == 1 && Runs.Enabled(x, es[0]) && x' == Runs.Next(x, hash, es[0])
  }

  lemma SameWorkers(s: State, s': State, w: nat, x: Runs.Worker)
    requires w < |s.agents| == |s'.agents| && (forall v | 0 <= v < |s.agents| && v != w :: s'.agents[v] == s.agents[v])
    requires Seen(s'.agents[w]) == x
    ensures Abstract(s').workers == Abstract(s).workers[w := x]
  {
    hide Seen;
  }

  lemma ReadMatches(s: State, hash: Str -> nat, max: nat, c: nat, e: Event)
    requires Inv(s, hash, max, c) && Enabled(s, hash, max, e) && e.Read?
    ensures Matches(s, hash, max, e)
  {
    hide Inv;
    InvAt(s, hash, max, c, e.w);
    NotTorn(s, hash, max, c, e.w);
    var s' := Next(s, hash, max, e);
    SameWorkers(s, s', e.w, Seen(s'.agents[e.w]));
    var a := s.agents[e.w];
    if a.Sweeping? && !e.seen.Alive? {
      assert s.table[a.p := Visit(s.table[a.p])] == s.table;
    }
  }

  lemma InvAt(s: State, hash: Str -> nat, max: nat, c: nat, w: nat)
    requires Inv(s, hash, max, c) && w < |s.agents|
    ensures |s.table| > 0 && UpToDate(s.agents[w], s.table, hash) && Aligned(s.agents[w], hash, |s.table|, c)
    ensures |s.sem.procs| == |s.agents| && s.sem.procs[w] == Holding(s.agents[w])
  {
  }

  lemma WriteMatches(s: State, hash: Str -> nat, max: nat, c: nat, e: Event)
    requires Inv(s, hash, max, c) && Enabled(s, hash, max, e) && e.EndWrite?
    ensures Matches(s, hash, max, e)
  {
    hide Inv;
    InvAt(s, hash, max, c, e.w);
    NotTorn(s, hash, max, c, e.w);
    var s' := Next(s, hash, max, e);
    SameWorkers(s, s', e.w, Seen(s'.agents[e.w]));
  }

  lemma OtherMatches(s: State, hash: Str -> nat, max: nat, c: nat, e: Event)
    requires Inv(s, hash, max, c) && Enabled(s, hash, max, e) && !e.Read? && !e.EndWrite?
    ensures Matches(s, hash, max, e)
  {
    hide Inv, Aligned, Torn, Holding, Semaphores.Enabled, Semaphores.Next, Locking, Unlocking, Decide, Replacement;
    InvAt(s, hash, max, c, e.w);
    var s' := Next(s, hash, max, e);
    SameWorkers(s, s', e.w, Seen(s'.agents[e.w]));
  }

  /** Under the condition every step is invisible or one atomic step of CacheRuns. */
  lemma StepIsAtomic(s: State, hash: Str -> nat, max: nat, c: nat, e: Event)
    requires Inv(s, hash, max, c) && Enabled(s, hash, max, e)
    ensures Matches(s, hash, max, e)
  {
    hide Inv, Enabled, Matches;
    if e.Read? {
      ReadMatches(s, hash, max, c, e);
    } else if e.EndWrite? {
      WriteMatches(s, hash, max, c, e);
    } else {
      OtherMatches(s, hash, max, c, e);
    }
  }

  /** The atomic steps of a run. */
  function Atomics(s: State, hash: Str -> nat, max: nat, es: seq<Event>): seq<Runs.Event>
    requires Possible(s, hash, max, es)
    decreases |es|
  {
    if es == [] then []
    else
      var before := es[..|es| - 1];
      Atomics(s, hash, max, before) + Atomic(After(s, hash, max, before), es[|es| - 1])
  }

  lemma EnabledAt(s: State, hash: Str -> nat, max: nat, e: Event)
    requires Enabled(s, hash, max, e)
    ensures e.w < |s.agents|
  {
  }

  /** Under the condition every run with locks is a run of CacheRuns. */
  lemma {:induction false} RunIsAtomic(s: State, hash: Str -> nat, max: nat, c: nat, es: seq<Event>)
    requires Inv(s, hash, max, c) && Possible(s, hash, max, es) && SuitRun(es, hash, |s.table|, c)
    ensures Runs.Possible(Abstract(s), hash, Atomics(s, hash, max, es))
    ensures Runs.After(Abstract(s), hash, Atomics(s, hash, max, es)) == Abstract(After(s, hash, max, es))
    decreases |es|
  {
    hide Inv, Enabled, Suits, Next, Atomic, Abstract, Runs.Next, Runs.Enabled;
    if es != [] {
      var before, e := es[..|es| - 1], es[|es| - 1];
      var y := After(s, hash, max, before);
      InvSize(s, hash, max, c);
      assert forall k | 0 <= k < |before| :: before[k] == es[k];
      InvRun(s, hash, max, c, before);
      RunIsAtomic(s, hash, max, c, before);
      StepIsAtomic(y, hash, max, c, e);
      EnabledAt(y, hash, max, e);
      var xs, more := Atomics(s, hash, max, before), Atomic(y, e);
      if more == [] {
        assert xs + more == xs;
      } else {
        assert (xs + more)[..|xs + more| - 1] == xs && (xs + more)[|xs + more| - 1] == more[0];
      }
    }
  }

  /** So under the condition no hole ever opens in a probe path. */
  lemma LockedRunsHaveNoHoles(n: nat, agents: nat, hash: Str -> nat, max: nat, c: nat, es: seq<Event>)
    requires n > 0 && max > 0
    requires var s := Begin(seq(n, _ => Free), agents, max); Possible(s, hash, max, es) && SuitRun(es, hash, n, c)
    ensures NoHoles(After(Begin(seq(n, _ => Free), agents, max), hash, max, es).table, hash)
  {
    hide Possible, After, SuitRun;
    var s := Begin(seq(n, _ => Free), agents, max);
    InvBegin(s.table, agents, hash, max, c);
    RunIsAtomic(s, hash, max, c, es);
    Runs.EmptySound(n, agents, hash);
    assert Abstract(s) == Runs.Empty(n, agents) by {
      assert Abstract(s).workers == Runs.Empty(n, agents).workers;
    }
    Runs.SoundRun(Abstract(s), hash, Atomics(s, hash, max, es));
  }
}
