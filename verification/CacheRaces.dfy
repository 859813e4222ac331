/** When two processes get to one record together, on the machine with keys, records and semaphores: a
    record is replaced by both, or read while it is replaced, in some run exactly when the offsets of the
    two differ. And what then becomes of a set. */
module CacheRaces {
  import opened CacheTable
  import Semaphores
  import L = CacheLocks

  // ---------------------------------------------------------------- the question

  /** What a process is busy with. */
  datatype Job = GetOf(key: Str) | SetOf(key: Str) | Sweep

  function Offset(x: Job, hash: Str -> nat, n: nat): nat
    requires n > 0
  {
    if x.Sweep? then 0 else hash(x.key) % n
  }

  predicate Does(a: L.Agent, x: Job)
  {
    match x
    case GetOf(key) => a.Getting? && a.key == key
    case SetOf(key) => a.Setting? && a.key == key
    case Sweep => a.Sweeping?
  }

  /** Process v is replacing a record that process w is replacing, too, or, if it gets, about to read. */
  predicate Clash(s: L.State, hash: Str -> nat, v: nat, w: nat, x: Job, y: Job)
  {
    && |s.table| > 0 && v < |s.agents| && w < |s.agents| && v != w
    && Does(s.agents[v], x) && Does(s.agents[w], y)
    && s.agents[v].phase.Writing? && (if y.GetOf? then s.agents[w].phase.Locked? else s.agents[w].phase.Writing?)
    && L.Place(s.agents[v], hash, |s.table|) == L.Place(s.agents[w], hash, |s.table|)
  }

  /** The run es of m processes leads from the table t to the state s. */
  predicate RunsTo(t: Table, m: nat, hash: Str -> nat, max: nat, es: seq<L.Event>, s: L.State)
  {
    L.Possible(L.Begin(t, m, max), hash, max, es) && L.After(L.Begin(t, m, max), hash, max, es) == s
  }

  /** In some run, from a table without holes, x and y get to one record together. */
  ghost predicate Collide(n: nat, hash: Str -> nat, max: nat, x: Job, y: Job)
  {
    exists t: Table, m: nat, es: seq<L.Event>, s: L.State, v: nat, w: nat ::
      |t| == n && NoHoles(t, hash) && RunsTo(t, m, hash, max, es, s) && Clash(s, hash, v, w, x, y)
  }

  lemma OffsetIs(a: L.Agent, x: Job, hash: Str -> nat, n: nat)
    requires n > 0 && Does(a, x)
    ensures !a.Idle? && L.Offset(a, hash, n) == Offset(x, hash, n)
  {
  }

  /** With equal offsets there is no such run, whatever other keys are in use. */
  lemma NoClash(t: Table, m: nat, hash: Str -> nat, max: nat, es: seq<L.Event>, s: L.State, v: nat, w: nat, x: Job, y: Job)
    requires |t| > 0 && max > 0 && RunsTo(t, m, hash, max, es, s) && Clash(s, hash, v, w, x, y) && !x.GetOf?
    ensures Offset(x, hash, |t|) != Offset(y, hash, |t|)
  {
    hide L.Possible, L.After, L.Locks, L.Place, L.Offset;
    L.LocksBegin(t, m, max);
    L.LocksRun(L.Begin(t, m, max), hash, max, es);
    OffsetIs(s.agents[v], x, hash, |t|);
    OffsetIs(s.agents[w], y, hash, |t|);
    if Offset(x, hash, |t|) == Offset(y, hash, |t|) {
      L.Apart(s, hash, max, v, w);
    }
  }

  // ---------------------------------------------------------------- runs, step by step

  /** The state in which the processes hold what they are inside of. */
  function At(t: Table, agents: seq<L.Agent>, vals: seq<nat>): L.State
  {
    L.State.State(t, agents, Semaphores.State.State(vals, Holdings(agents)))
  }

  function Holdings(agents: seq<L.Agent>): (ps: seq<Semaphores.Process>)
    ensures |ps| == |agents|
  {
    seq(|agents|, w requires 0 <= w < |agents| => L.Holding(agents[w]))
  }

  function Released(n: nat, max: nat): seq<nat> { seq(n, _ => max) }

  /** Some run of two processes, that begin with x and y and with nothing else, leads from t to s. */
  ghost predicate Reached(t: Table, hash: Str -> nat, max: nat, x: L.Event, y: L.Event, s: L.State)
  {
    exists es :: RunsTo(t, 2, hash, max, es, s) && Only(es, x, y)
  }

  predicate Only(es: seq<L.Event>, x: L.Event, y: L.Event)
  {
    forall k | 0 <= k < |es| :: Allowed(es[k], x, y)
  }

  predicate Allowed(e: L.Event, x: L.Event, y: L.Event)
  {
    if e.StartGet? || e.StartSet? || e.StartSweep? then e == x || e == y else !e.GiveUp?
  }

  lemma Extend(s: L.State, hash: Str -> nat, max: nat, es: seq<L.Event>, e: L.Event)
    requires L.Possible(s, hash, max, es) && L.Enabled(L.After(s, hash, max, es), hash, max, e)
    ensures L.Possible(s, hash, max, es + [e])
    ensures L.After(s, hash, max, es + [e]) == L.Next(L.After(s, hash, max, es), hash, max, e)
  {
    assert (es + [e])[..|es + [e]| - 1] == es && (es + [e])[|es + [e]| - 1] == e;
  }

  lemma Begins(t: Table, hash: Str -> nat, max: nat, x: L.Event, y: L.Event)
    ensures Reached(t, hash, max, x, y, At(t, [L.Idle, L.Idle], Released(|t|, max)))
  {
    var s := L.Begin(t, 2, max);
    assert s.agents == [L.Idle, L.Idle];
    assert s.sem.vals == Released(|t|, max);
    assert s.sem.procs == Holdings([L.Idle, L.Idle]);
    assert RunsTo(t, 2, hash, max, [], s) && Only([], x, y);
  }

  lemma Go(t: Table, hash: Str -> nat, max: nat, x: L.Event, y: L.Event, s: L.State, e: L.Event)
    requires Reached(t, hash, max, x, y, s) && L.Enabled(s, hash, max, e) && Allowed(e, x, y)
    ensures Reached(t, hash, max, x, y, L.Next(s, hash, max, e))
  {
    hide L.Possible, L.After, L.Enabled, L.Next;
    var es :| RunsTo(t, 2, hash, max, es, s) && Only(es, x, y);
    Extend(L.Begin(t, 2, max), hash, max, es, e);
    assert RunsTo(t, 2, hash, max, es + [e], L.Next(s, hash, max, e)) && Only(es + [e], x, y);
  }

  lemma Moved(agents: seq<L.Agent>, w: nat, a: L.Agent)
    requires w < |agents|
    ensures Holdings(agents[w := a]) == Holdings(agents)[w := L.Holding(a)]
  {
    hide L.Holding;
  }

  /** The process that begins with x. */
  function Started(e: L.Event): L.Agent
    requires e.StartGet? || e.StartSet? || e.StartSweep?
  {
    match e
    case StartGet(_, key) => L.Getting(key, 0, L.Wants)
    case StartSet(_, key, value, ttl) => L.Setting(key, value, ttl, 0, L.Wants)
    case StartSweep(_, p) => L.Sweeping(p, L.Wants)
  }

  function InPhase(a: L.Agent, phase: L.Phase): L.Agent
    requires !a.Idle?
  {
    match a
    case Getting(key, i, _) => L.Getting(key, i, phase)
    case Setting(key, value, ttl, i, _) => L.Setting(key, value, ttl, i, phase)
    case Sweeping(p, _) => L.Sweeping(p, phase)
  }

  lemma Starts(t: Table, hash: Str -> nat, max: nat, e: L.Event, agents: seq<L.Agent>, vals: seq<nat>)
    requires |t| > 0 && e.w < |agents| && agents[e.w].Idle? && (e.StartGet? || e.StartSet? || (e.StartSweep? && e.p < |t|))
    ensures L.Enabled(At(t, agents, vals), hash, max, e)
    ensures L.Next(At(t, agents, vals), hash, max, e) == At(t, agents[e.w := Started(e)], vals)
  {
    Moved(agents, e.w, Started(e));
    assert Holdings(agents)[e.w := L.Holding(Started(e))] == Holdings(agents);
  }

  /** What is left of the units of a semaphore that stands in full. */
  function Left(a: L.Agent, max: nat): nat
    requires max > 0
  {
    if a.Getting? then max - 1 else 0
  }

  lemma Locks(t: Table, hash: Str -> nat, max: nat, w: nat, agents: seq<L.Agent>, vals: seq<nat>)
    requires max > 0 && |vals| == |t| && w < |agents| && !agents[w].Idle? && agents[w].phase.Wants?
    requires L.Number(agents[w]) < |t| && vals[L.Number(agents[w])] == max
    ensures var a := agents[w];
            && L.Enabled(At(t, agents, vals), hash, max, L.TakeLock(w))
            && L.Next(At(t, agents, vals), hash, max, L.TakeLock(w))
               == At(t, agents[w := InPhase(a, L.Locked)], vals[L.Number(a) := Left(a, max)])
  {
    var s, a := At(t, agents, vals), agents[w];
    L.OneUnit(s.sem, max, L.Locking(w, a));
    L.LockNext(s.sem, max, w, a);
    Moved(agents, w, InPhase(a, L.Locked));
  }

  lemma Reads(t: Table, hash: Str -> nat, max: nat, w: nat, agents: seq<L.Agent>, vals: seq<nat>)
    requires |t| > 0 && w < |agents| && !agents[w].Idle? && agents[w].phase.Locked? && L.Place(agents[w], hash, |t|) < |t|
    ensures var a, r := agents[w], t[L.Place(agents[w], hash, |t|)];
            && L.Enabled(At(t, agents, vals), hash, max, L.Read(w, r))
            && L.Next(At(t, agents, vals), hash, max, L.Read(w, r)) == At(t, agents[w := InPhase(a, L.Decide(a, r))], vals)
  {
    hide L.Place, L.Torn;
    var a, r := agents[w], t[L.Place(agents[w], hash, |t|)];
    Moved(agents, w, InPhase(a, L.Decide(a, r)));
    assert Holdings(agents)[w := L.Holding(InPhase(a, L.Decide(a, r)))] == Holdings(agents);
  }

  lemma BeginsWrite(t: Table, hash: Str -> nat, max: nat, w: nat, agents: seq<L.Agent>, vals: seq<nat>)
    requires |t| > 0 && w < |agents| && !agents[w].Idle? && agents[w].phase.Saw?
    ensures var a := agents[w];
            && L.Enabled(At(t, agents, vals), hash, max, L.BeginWrite(w))
            && L.Next(At(t, agents, vals), hash, max, L.BeginWrite(w))
               == At(t, agents[w := InPhase(a, L.Writing(a.phase.r))], vals)
  {
    var a := agents[w];
    Moved(agents, w, InPhase(a, L.Writing(a.phase.r)));
    assert Holdings(agents)[w := L.Holding(InPhase(a, L.Writing(a.phase.r)))] == Holdings(agents);
  }

  lemma EndsWrite(t: Table, hash: Str -> nat, max: nat, w: nat, agents: seq<L.Agent>, vals: seq<nat>)
    requires |t| > 0 && w < |agents| && !agents[w].Idle? && agents[w].phase.Writing? && L.Place(agents[w], hash, |t|) < |t|
    ensures var a := agents[w]; var p, r := L.Place(a, hash, |t|), L.Replacement(a);
            && L.Enabled(At(t, agents, vals), hash, max, L.EndWrite(w, r))
            && L.Next(At(t, agents, vals), hash, max, L.EndWrite(w, r))
               == At(t[p := r], agents[w := InPhase(a, L.Leaving(true))], vals)
  {
    hide L.Place, L.Torn, L.Replacement;
    var a := agents[w];
    Moved(agents, w, InPhase(a, L.Leaving(true)));
    assert Holdings(agents)[w := L.Holding(InPhase(a, L.Leaving(true)))] == Holdings(agents);
  }

  lemma Leaves(t: Table, hash: Str -> nat, max: nat, w: nat, agents: seq<L.Agent>, vals: seq<nat>)
    requires |t| > 0 && max > 0 && |vals| == |t| && w < |agents| && agents[w].Setting? && agents[w].phase.Leaving?
    requires L.Number(agents[w]) < |t| && vals[L.Number(agents[w])] == 0
    ensures var a := agents[w];
            && L.Enabled(At(t, agents, vals), hash, max, L.Leave(w))
            && L.Next(At(t, agents, vals), hash, max, L.Leave(w))
               == At(t, agents[w := L.Onward(a)], vals[L.Number(a) := max])
  {
    var s, a := At(t, agents, vals), agents[w];
    L.OneUnit(s.sem, max, L.Unlocking(w, a));
    L.RangeOne(L.Number(a));
    L.UnlockNext(s.sem, max, w, a);
    Moved(agents, w, L.Onward(a));
  }

  lemma Pairs(a: L.Agent, b: L.Agent, x: L.Agent)
    ensures [a, b][0 := x] == [x, b] && [a, b][1 := x] == [a, x]
  {
  }

  lemma Restored(n: nat, max: nat, i: nat, v: nat)
    requires i < n
    ensures Released(n, max)[i := v][i := max] == Released(n, max)
  {
  }

  // ---------------------------------------------------------------- a set on its way

  /** A set passes the records that it does not take. */
  lemma {:induction false} Arrives(t: Table, hash: Str -> nat, max: nat, x: L.Event, y: L.Event, i: nat)
    requires |t| > 0 && max > 0 && x.StartSet? && x.w == 0 && i < |t|
    requires forall j | 0 <= j < i :: !Takes(t[Probe(hash(x.key), j, |t|)], x.key)
    ensures Reached(t, hash, max, x, y, At(t, [L.Setting(x.key, x.value, x.ttl, i, L.Wants), L.Idle], Released(|t|, max)))
    decreases i
  {
    hide Reached, L.Next, L.Enabled, At;
    var n, free := |t|, Released(|t|, max);
    if i == 0 {
      var as0 := [L.Idle, L.Idle];
      Begins(t, hash, max, x, y);
      Starts(t, hash, max, x, as0, free);
      Pairs(L.Idle, L.Idle, Started(x));
      Go(t, hash, max, x, y, At(t, as0, free), x);
    } else {
      Arrives(t, hash, max, x, y, i - 1);
      Passes(t, hash, max, x, y, i - 1);
    }
  }

  lemma Passes(t: Table, hash: Str -> nat, max: nat, x: L.Event, y: L.Event, i: nat)
    requires |t| > 0 && max > 0 && x.StartSet? && x.w == 0 && i < |t| && !Takes(t[Probe(hash(x.key), i, |t|)], x.key)
    requires Reached(t, hash, max, x, y, At(t, [L.Setting(x.key, x.value, x.ttl, i, L.Wants), L.Idle], Released(|t|, max)))
    ensures Reached(t, hash, max, x, y, At(t, [L.Setting(x.key, x.value, x.ttl, i + 1, L.Wants), L.Idle], Released(|t|, max)))
  {
    hide Reached, L.Next, L.Enabled, At, Probe, Takes;
    var free := Released(|t|, max);
    var a0 := L.Setting(x.key, x.value, x.ttl, i, L.Wants);
    var a1, a2 := InPhase(a0, L.Locked), InPhase(a0, L.Leaving(false));
    var r := t[Probe(hash(x.key), i, |t|)];
    Locks(t, hash, max, 0, [a0, L.Idle], free);
    Go(t, hash, max, x, y, At(t, [a0, L.Idle], free), L.TakeLock(0));
    Pairs(a0, L.Idle, a1);
    Reads(t, hash, max, 0, [a1, L.Idle], free[i := 0]);
    Go(t, hash, max, x, y, At(t, [a1, L.Idle], free[i := 0]), L.Read(0, r));
    Pairs(a1, L.Idle, a2);
    Leaves(t, hash, max, 0, [a2, L.Idle], free[i := 0]);
    Go(t, hash, max, x, y, At(t, [a2, L.Idle], free[i := 0]), L.Leave(0));
    Pairs(a2, L.Idle, L.Onward(a2));
    Restored(|t|, max, i, 0);
  }

  // ---------------------------------------------------------------- two processes at one record

  function With(as_: (L.Agent, L.Agent), w: nat, a: L.Agent): (L.Agent, L.Agent)
  {
    if w == 0 then (a, as_.1) else (as_.0, a)
  }

  /** Both processes, as the state has them. */
  function Both(t: Table, c: (L.Agent, L.Agent), vals: seq<nat>): L.State { At(t, [c.0, c.1], vals) }

  function Nth(c: (L.Agent, L.Agent), w: nat): L.Agent { if w == 0 then c.0 else c.1 }

  /** A set or collector in front of its lock goes on to replace the record it finds. */
  lemma Enters(t: Table, hash: Str -> nat, max: nat, x: L.Event, y: L.Event, c: (L.Agent, L.Agent), vals: seq<nat>, w: nat)
    requires |t| > 0 && max > 0 && |vals| == |t| && w < 2 && !Nth(c, w).Idle? && !Nth(c, w).Getting? && Nth(c, w).phase.Wants?
    requires L.Number(Nth(c, w)) < |t| && vals[L.Number(Nth(c, w))] == max && L.Place(Nth(c, w), hash, |t|) < |t|
    requires L.Decide(Nth(c, w), t[L.Place(Nth(c, w), hash, |t|)]) == L.Saw(t[L.Place(Nth(c, w), hash, |t|)])
    requires Reached(t, hash, max, x, y, Both(t, c, vals))
    ensures var a := Nth(c, w); var r := t[L.Place(a, hash, |t|)];
            Reached(t, hash, max, x, y, Both(t, With(c, w, InPhase(a, L.Writing(r))), vals[L.Number(a) := 0]))
  {
    hide Reached, L.Next, L.Enabled, At, L.Place, L.Decide;
    var a := Nth(c, w);
    var p, v := L.Place(a, hash, |t|), vals[L.Number(a) := 0];
    var a1, a2, a3 := InPhase(a, L.Locked), InPhase(a, L.Saw(t[p])), InPhase(a, L.Writing(t[p]));
    SamePlace(a, L.Locked, hash, |t|, t[p]);
    var c1, c2 := With(c, w, a1), With(c, w, a2);
    Locks(t, hash, max, w, [c.0, c.1], vals);
    Go(t, hash, max, x, y, Both(t, c, vals), L.TakeLock(w));
    Pairs(c.0, c.1, a1);
    Reads(t, hash, max, w, [c1.0, c1.1], v);
    Go(t, hash, max, x, y, Both(t, c1, v), L.Read(w, t[p]));
    Pairs(c1.0, c1.1, a2);
    BeginsWrite(t, hash, max, w, [c2.0, c2.1], v);
    Go(t, hash, max, x, y, Both(t, c2, v), L.BeginWrite(w));
    Pairs(c2.0, c2.1, a3);
  }

  lemma SamePlace(a: L.Agent, phase: L.Phase, hash: Str -> nat, n: nat, r: Record)
    requires n > 0 && !a.Idle?
    ensures L.Place(InPhase(a, phase), hash, n) == L.Place(a, hash, n) && L.Number(InPhase(a, phase)) == L.Number(a)
    ensures L.Decide(InPhase(a, phase), r) == L.Decide(a, r)
  {
  }

  /** The second process begins y, with its first probe, under number 0. */
  lemma Joins(t: Table, hash: Str -> nat, max: nat, x: L.Event, y: L.Event, a: L.Agent, vals: seq<nat>)
    requires |t| > 0 && max > 0 && |vals| == |t| && vals[0] == max && y.w == 1 && (y.StartGet? || y.StartSet?)
    requires y.StartSet? ==> Takes(t[Probe(hash(y.key), 0, |t|)], y.key)
    requires Reached(t, hash, max, x, y, Both(t, (a, L.Idle), vals))
    ensures var b := InPhase(Started(y), if y.StartGet? then L.Locked else L.Writing(t[Probe(hash(y.key), 0, |t|)]));
            Reached(t, hash, max, x, y, Both(t, (a, b), vals[0 := Left(b, max)]))
  {
    hide Reached, L.Next, L.Enabled, At, Probe;
    var b := Started(y);
    Starts(t, hash, max, y, [a, L.Idle], vals);
    Go(t, hash, max, x, y, Both(t, (a, L.Idle), vals), y);
    Pairs(a, L.Idle, b);
    if y.StartSet? {
      Enters(t, hash, max, x, y, (a, b), vals, 1);
    } else {
      Locks(t, hash, max, 1, [a, b], vals);
      Go(t, hash, max, x, y, Both(t, (a, b), vals), L.TakeLock(1));
      Pairs(a, b, InPhase(b, L.Locked));
    }
  }

  // ---------------------------------------------------------------- every two offsets that differ

  /** A table without a free record: alive under one key, apart from record p. */
  function Crowd(n: nat, key: Str, p: nat, r: Record): (t: Table)
    ensures |t| == n
  {
    seq(n, q => if q == p then r else Alive(key, [], 0))
  }

  lemma CrowdHasNoHoles(n: nat, key: Str, p: nat, r: Record, hash: Str -> nat)
    requires !r.Free?
    ensures NoHoles(Crowd(n, key, p, r), hash)
  {
  }

  /** The start of a process that does y. */
  function StartOf(y: Job, w: nat): L.Event
    requires !y.Sweep?
  {
    match y
    case GetOf(key) => L.StartGet(w, key)
    case SetOf(key) => L.StartSet(w, key, [], 0)
  }

  /** What the second process is in the middle of. */
  function Second(y: L.Event, r: Record): L.Agent
    requires y.StartGet? || y.StartSet?
  {
    InPhase(Started(y), if y.StartGet? then L.Locked else L.Writing(r))
  }

  /** A set passes the records alive under another key to the first probe of y, in which y joins it. */
  lemma SetMeets(n: nat, hash: Str -> nat, max: nat, x: L.Event, y: L.Event) returns (i: nat)
    requires n > 0 && max > 0 && x.StartSet? && x.w == 0 && y.w == 1 && (y.StartGet? || y.StartSet?)
    requires hash(x.key) % n != hash(y.key) % n
    ensures var p := Probe(hash(y.key), 0, n);
            var t, a := Crowd(n, y.key, p, Removed), L.Setting(x.key, x.value, x.ttl, i, L.Writing(Removed));
            && 0 < i < n && L.Place(a, hash, n) == L.Place(Second(y, Removed), hash, n) == p && NoHoles(t, hash)
            && Reached(t, hash, max, x, y,
                 Both(t, (a, Second(y, Removed)), Released(n, max)[i := 0][0 := Left(Second(y, Removed), max)]))
  {
    hide Reached, At, NoHoles, L.Next, L.Enabled;
    var p := Probe(hash(y.key), 0, n);
    var t := Crowd(n, y.key, p, Removed);
    i := ProbeIndex(hash(x.key), p, n);
    ProbeBijection(hash(x.key), i, p, n);
    ProbeIs(hash(y.key), 0, n);
    ProbeIs(hash(x.key), 0, n);
    CrowdHasNoHoles(n, y.key, p, Removed, hash);
    forall j | 0 <= j < i ensures !Takes(t[Probe(hash(x.key), j, n)], x.key) {
      ProbeBijection(hash(x.key), j, Probe(hash(x.key), j, n), n);
    }
    Arrives(t, hash, max, x, y, i);
    var a0 := L.Setting(x.key, x.value, x.ttl, i, L.Wants);
    Enters(t, hash, max, x, y, (a0, L.Idle), Released(n, max), 0);
    Joins(t, hash, max, x, y, InPhase(a0, L.Writing(Removed)), Released(n, max)[i := 0]);
  }

  /** The collector is at the first probe of y, in which y joins it. */
  lemma SweepMeets(n: nat, hash: Str -> nat, max: nat, y: L.Event)
    requires n > 0 && max > 0 && y.w == 1 && (y.StartGet? || y.StartSet?) && hash(y.key) % n != 0
    ensures var p := Probe(hash(y.key), 0, n);
            var r := Alive(y.key, [], 0);
            var t, a := Crowd(n, y.key, p, r), L.Sweeping(p, L.Writing(r));
            && L.Place(Second(y, r), hash, n) == p && NoHoles(t, hash)
            && Reached(t, hash, max, L.StartSweep(0, p), y,
                 Both(t, (a, Second(y, r)), Released(n, max)[p := 0][0 := Left(Second(y, r), max)]))
  {
    hide Reached, At, NoHoles, L.Next, L.Enabled;
    var p, r := Probe(hash(y.key), 0, n), Alive(y.key, [], 0);
    var t, x, free := Crowd(n, y.key, p, r), L.StartSweep(0, p), Released(n, max);
    ProbeIs(hash(y.key), 0, n);
    CrowdHasNoHoles(n, y.key, p, r, hash);
    Begins(t, hash, max, x, y);
    Starts(t, hash, max, x, [L.Idle, L.Idle], free);
    Go(t, hash, max, x, y, Both(t, (L.Idle, L.Idle), free), x);
    Pairs(L.Idle, L.Idle, Started(x));
    Enters(t, hash, max, x, y, (Started(x), L.Idle), free, 0);
    Joins(t, hash, max, x, y, L.Sweeping(p, L.Writing(r)), free[p := 0]);
  }

  lemma ClashReached(n: nat, hash: Str -> nat, max: nat, x: Job, y: Job, t: Table, e: L.Event, f: L.Event, s: L.State, v: nat, w: nat)
    requires |t| == n && NoHoles(t, hash) && Reached(t, hash, max, e, f, s) && Clash(s, hash, v, w, x, y)
    ensures Collide(n, hash, max, x, y)
  {
    hide Clash, NoHoles, RunsTo;
    var es :| RunsTo(t, 2, hash, max, es, s) && Only(es, e, f);
  }

  lemma SetClashes(n: nat, hash: Str -> nat, max: nat, x: Job, y: Job)
    requires n > 0 && max > 0 && x.SetOf? && !y.Sweep? && Offset(x, hash, n) != Offset(y, hash, n)
    ensures Collide(n, hash, max, x, y)
  {
    hide Reached, NoHoles, Collide, L.Place, L.Next, L.Enabled;
    var e, f := StartOf(x, 0), StartOf(y, 1);
    var i := SetMeets(n, hash, max, e, f);
    var p := Probe(hash(y.key), 0, n);
    var t, a, b := Crowd(n, y.key, p, Removed), L.Setting(e.key, e.value, e.ttl, i, L.Writing(Removed)), Second(f, Removed);
    ClashReached(n, hash, max, x, y, t, e, f, Both(t, (a, b), Released(n, max)[i := 0][0 := Left(b, max)]), 0, 1);
  }

  /** v and w tell which of the two is the collector. */
  lemma SweepClashes(n: nat, hash: Str -> nat, max: nat, y: Job)
    requires n > 0 && max > 0 && !y.Sweep? && Offset(y, hash, n) != 0
    ensures Collide(n, hash, max, Sweep, y)
    ensures y.SetOf? ==> Collide(n, hash, max, y, Sweep)
  {
    hide Reached, NoHoles, Collide, L.Next, L.Enabled;
    var f := StartOf(y, 1);
    SweepMeets(n, hash, max, f);
    var p, r := Probe(hash(y.key), 0, n), Alive(y.key, [], 0);
    var t, a, b := Crowd(n, y.key, p, r), L.Sweeping(p, L.Writing(r)), Second(f, r);
    var s := Both(t, (a, b), Released(n, max)[p := 0][0 := Left(b, max)]);
    ClashReached(n, hash, max, Sweep, y, t, L.StartSweep(0, p), f, s, 0, 1);
    if y.SetOf? { ClashReached(n, hash, max, y, Sweep, t, L.StartSweep(0, p), f, s, 1, 0); }
  }

  /** For a set or the collector x, and any y: in some run x replaces a record that y replaces, too, or is
      about to read, exactly when their offsets differ: the hashes of their keys modulo the number of
      records, and 0 for the collector. */
  lemma CollideExactly(n: nat, hash: Str -> nat, max: nat, x: Job, y: Job)
    requires n > 0 && max > 0 && !x.GetOf?
    ensures Collide(n, hash, max, x, y) <==> Offset(x, hash, n) != Offset(y, hash, n)
  {
    hide RunsTo, Clash, NoHoles;
    if Collide(n, hash, max, x, y) {
      var t: Table, m: nat, es, s, v: nat, w: nat :|
        |t| == n && NoHoles(t, hash) && RunsTo(t, m, hash, max, es, s) && Clash(s, hash, v, w, x, y);
      NoClash(t, m, hash, max, es, s, v, w, x, y);
    } else if Offset(x, hash, n) != Offset(y, hash, n) {
      if x.Sweep? {
        SweepClashes(n, hash, max, y);
      } else if y.Sweep? {
        SweepClashes(n, hash, max, x);
      } else {
        SetClashes(n, hash, max, x, y);
      }
    }
  }

  // ---------------------------------------------------------------- what becomes of a set

  /** Both sets end their writes, the second over the first, and leave. */
  function LastSteps(x: L.Event, y: L.Event): seq<L.Event>
    requires x.StartSet? && y.StartSet?
  {
    [L.EndWrite(0, Alive(x.key, x.value, x.ttl)), L.EndWrite(1, Alive(y.key, y.value, y.ttl)), L.Leave(0), L.Leave(1)]
  }

  lemma BothWritten(t: Table, hash: Str -> nat, max: nat, a: L.Agent, b: L.Agent, vals: seq<nat>) returns (t': Table)
    requires |t| > 0 && max > 0 && |vals| == |t| && a.Setting? && b.Setting? && a.phase.Writing? && b.phase.Writing?
    requires L.Place(a, hash, |t|) == L.Place(b, hash, |t|) < |t|
    ensures t' == t[L.Place(a, hash, |t|) := L.Replacement(b)]
    ensures var fs := [L.EndWrite(0, L.Replacement(a)), L.EndWrite(1, L.Replacement(b))];
            var s := Both(t, (a, b), vals);
            && L.Possible(s, hash, max, fs)
            && L.After(s, hash, max, fs) == Both(t', (InPhase(a, L.Leaving(true)), InPhase(b, L.Leaving(true))), vals)
  {
    hide L.Next, L.Enabled, At, L.Place, L.Possible, L.After, L.Replacement;
    var p, r, q := L.Place(a, hash, |t|), L.Replacement(a), L.Replacement(b);
    var a', b' := InPhase(a, L.Leaving(true)), InPhase(b, L.Leaving(true));
    var s := Both(t, (a, b), vals);
    t' := t[p := q];
    Nothing(s, hash, max);
    EndsWrite(t, hash, max, 0, [a, b], vals);
    Pairs(a, b, a');
    Extend(s, hash, max, [], L.EndWrite(0, r));
    EndsWrite(t[p := r], hash, max, 1, [a', b], vals);
    Pairs(a', b, b');
    Extend(s, hash, max, [] + [L.EndWrite(0, r)], L.EndWrite(1, q));
    assert t[p := r][p := q] == t';
    assert [] + [L.EndWrite(0, r)] + [L.EndWrite(1, q)] == [L.EndWrite(0, r), L.EndWrite(1, q)];
  }

  lemma Nothing(s: L.State, hash: Str -> nat, max: nat)
    ensures L.Possible(s, hash, max, []) && L.After(s, hash, max, []) == s
  {
  }

  lemma BothLeave(t: Table, hash: Str -> nat, max: nat, s: L.State, es: seq<L.Event>, a: L.Agent, b: L.Agent, vals: seq<nat>)
    requires |t| > 0 && max > 0 && |vals| == |t| && a.Setting? && b.Setting? && a.phase == b.phase == L.Leaving(true)
    requires a.i < |t| && b.i < |t| && a.i != b.i && vals[a.i] == vals[b.i] == 0
    requires L.Possible(s, hash, max, es) && L.After(s, hash, max, es) == Both(t, (a, b), vals)
    ensures var fs := es + [L.Leave(0)] + [L.Leave(1)];
            && L.Possible(s, hash, max, fs)
            && L.After(s, hash, max, fs) == Both(t, (L.Idle, L.Idle), vals[a.i := max][b.i := max])
  {
    hide L.Next, L.Enabled, At, L.Possible, L.After;
    Leaves(t, hash, max, 0, [a, b], vals);
    Pairs(a, b, L.Idle);
    Extend(s, hash, max, es, L.Leave(0));
    Leaves(t, hash, max, 1, [L.Idle, b], vals[a.i := max]);
    Pairs(L.Idle, b, L.Idle);
    Extend(s, hash, max, es + [L.Leave(0)], L.Leave(1));
  }

  /** Two sets whose hashes differ modulo the number of records: in some run, of these two alone, both
      come to their end, one after the other has written over it, and its value is gone. */
  lemma SetIsLost(n: nat, hash: Str -> nat, max: nat, x: L.Event, y: L.Event)
    returns (t: Table, es: seq<L.Event>, s: L.State)
    requires n > 0 && max > 0 && x.StartSet? && x.w == 0 && y.StartSet? && y.w == 1
    requires hash(x.key) % n != hash(y.key) % n
    ensures |t| == n && NoHoles(t, hash) && RunsTo(t, 2, hash, max, es, s) && Only(es, x, y)
    ensures Clash(s, hash, 0, 1, SetOf(x.key), SetOf(y.key))
    ensures var fs := LastSteps(x, y);
            && L.Possible(s, hash, max, fs)
            && L.After(s, hash, max, fs).agents == [L.Idle, L.Idle]
            && Get(L.After(s, hash, max, fs).table, hash(x.key), x.key) == NoSuchKey
  {
    hide RunsTo, NoHoles, L.Possible, L.After, L.Place, L.Next, L.Enabled;
    var i := SetMeets(n, hash, max, x, y);
    var p := Probe(hash(y.key), 0, n);
    t := Crowd(n, y.key, p, Removed);
    var a, b := L.Setting(x.key, x.value, x.ttl, i, L.Writing(Removed)), Second(y, Removed);
    var vals := Released(n, max)[i := 0][0 := 0];
    s := Both(t, (a, b), vals);
    es :| RunsTo(t, 2, hash, max, es, s) && Only(es, x, y);
    var t' := BothWritten(t, hash, max, a, b, vals);
    var fs := [L.EndWrite(0, L.Replacement(a)), L.EndWrite(1, L.Replacement(b))];
    BothLeave(t', hash, max, s, fs, InPhase(a, L.Leaving(true)), InPhase(b, L.Leaving(true)), vals);
    assert fs + [L.Leave(0)] + [L.Leave(1)] == LastSteps(x, y);
    GetMisses(t', hash(x.key), x.key, 0);
  }
}
