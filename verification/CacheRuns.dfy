/** Workers and the collector on one cache table, in any interleaving of their atomic steps: a worker
    step is one probe of a get or a set, a collector step is one visit of a record. */
module CacheRuns {
  import opened Collections
  import opened CacheTable

  datatype Worker =
    | Idle
    | Getting(key: Str, i: nat)
    | Setting(key: Str, value: Str, ttl: nat, i: nat)

  datatype State = State(table: Table, workers: seq<Worker>)

  datatype Event =
    | StartGet(w: nat, key: Str)
    | StartSet(w: nat, key: Str, value: Str, ttl: nat)
    | Step(w: nat)
    | Collect(p: nat)

  predicate Enabled(s: State, e: Event)
  {
    match e
    case StartGet(w, _) => w < |s.workers| && s.workers[w].Idle?
    case StartSet(w, _, _, _) => w < |s.workers| && s.workers[w].Idle?
    case Step(w) => w < |s.workers| && !s.workers[w].Idle?
    case Collect(p) => p < |s.table|
  }

  /** The setting worker writes at its current probe. */
  predicate Writes(s: State, hash: Str -> nat, w: nat)
  {
    && w < |s.workers| && s.workers[w].Setting? && s.workers[w].i < |s.table|
    && Takes(s.table[Probe(hash(s.workers[w].key), s.workers[w].i, |s.table|)], s.workers[w].key)
  }

  /** The record a probing worker looks at. */
  function Target(s: State, hash: Str -> nat, w: nat): (p: nat)
    requires w < |s.workers| && !s.workers[w].Idle? && s.workers[w].i < |s.table|
    ensures p < |s.table|
  {
    Probe(hash(s.workers[w].key), s.workers[w].i, |s.table|)
  }

  /** What a getting worker answers in its next step, if it ends there. */
  function Reply(s: State, hash: Str -> nat, w: nat): GetProbe
    requires w < |s.workers| && s.workers[w].Getting?
  {
    if s.workers[w].i >= |s.table| then GetStop(NoSuchKey)
    else ProbeGet(s.table[Target(s, hash, w)], s.workers[w].key)
  }

  function Next(s: State, hash: Str -> nat, e: Event): (s': State)
    requires Enabled(s, e)
    ensures |s'.table| == |s.table| && |s'.workers| == |s.workers|
  {
    match e
    case StartGet(w, key) => s.(workers := s.workers[w := Getting(key, 0)])
    case StartSet(w, key, value, ttl) => s.(workers := s.workers[w := Setting(key, value, ttl, 0)])
    case Collect(p) => s.(table := s.table[p := Visit(s.table[p])])
    case Step(w) =>
      var x := s.workers[w];
      if x.Getting? then
        s.(workers := s.workers[w := if Reply(s, hash, w).GetOn? then Getting(x.key, x.i + 1) else Idle])
      else if x.i >= |s.table| then s.(workers := s.workers[w := Idle])
      else if Writes(s, hash, w) then
        State(s.table[Target(s, hash, w) := Alive(x.key, x.value, x.ttl)], s.workers[w := Idle])
      else s.(workers := s.workers[w := Setting(x.key, x.value, x.ttl, x.i + 1)])
  }

  predicate Possible(s: State, hash: Str -> nat, es: seq<Event>)
    decreases |es|, 0
  {
    es == [] || (Possible(s, hash, Init(es)) && Enabled(After(s, hash, Init(es)), Last(es)))
  }

  /** The state after a run. */
  function After(s: State, hash: Str -> nat, es: seq<Event>): (s': State)
    requires Possible(s, hash, es)
    ensures |s'.table| == |s.table| && |s'.workers| == |s.workers|
    decreases |es|, 1
  {
    if es == [] then s else Next(After(s, hash, Init(es)), hash, Last(es))
  }

  /** Collector visits of record p in a run. */
  function Visits(es: seq<Event>, p: nat): nat
  {
    if es == [] then 0 else Visits(Init(es), p) + if Last(es) == Collect(p) then 1 else 0
  }

  // ---------------------------------------------------------------- no holes, ever

  /** The probes a setting worker has passed met no free record, and there are none since. */
  predicate Passed(s: State, hash: Str -> nat, w: nat)
    requires w < |s.workers|
  {
    var x := s.workers[w];
    x.Setting? ==> x.i <= |s.table| && forall k | 0 <= k < x.i :: !s.table[Probe(hash(x.key), k, |s.table|)].Free?
  }

  predicate Sound(s: State, hash: Str -> nat)
  {
    NoHoles(s.table, hash) && forall w | 0 <= w < |s.workers| :: Passed(s, hash, w)
  }

  lemma NeverFreed(s: State, hash: Str -> nat, e: Event, p: nat)
    requires Enabled(s, e) && p < |s.table| && !s.table[p].Free?
    ensures !Next(s, hash, e).table[p].Free?
  {
  }

  lemma SoundNext(s: State, hash: Str -> nat, e: Event)
    requires Sound(s, hash) && Enabled(s, e)
    ensures Sound(Next(s, hash, e), hash)
  {
    var s' := Next(s, hash, e);
    forall w | 0 <= w < |s'.workers| ensures Passed(s', hash, w) {
      assert Passed(s, hash, w);
      var x := s'.workers[w];
      if x.Setting? {
        forall k | 0 <= k < x.i ensures !s'.table[Probe(hash(x.key), k, |s'.table|)].Free? {
          NeverFreed(s, hash, e, Probe(hash(x.key), k, |s.table|));
        }
      }
    }
    match e
    case StartGet(_, _) =>
    case StartSet(_, _, _, _) =>
    case Collect(p) => VisitKeeps(s.table, hash, p);
    case Step(w) =>
      if Writes(s, hash, w) {
        var x := s.workers[w];
        assert Passed(s, hash, w);
        WriteKeeps(s.table, hash, x.i, Alive(x.key, x.value, x.ttl));
      }
  }

  /** In every reachable state, whatever the interleaving, no free record precedes an alive one in
      the probe order of its key. */
  lemma {:induction false} SoundRun(s: State, hash: Str -> nat, es: seq<Event>)
    requires Sound(s, hash) && Possible(s, hash, es)
    ensures Sound(After(s, hash, es), hash)
    decreases |es|
  {
    if es != [] {
      SoundRun(s, hash, Init(es));
      SoundNext(After(s, hash, Init(es)), hash, Last(es));
    }
  }

  /** An empty table with idle workers. */
  function Empty(n: nat, workers: nat): State { State(seq(n, _ => Free), seq(workers, _ => Idle)) }

  lemma EmptySound(n: nat, workers: nat, hash: Str -> nat)
    ensures Sound(Empty(n, workers), hash)
  {
  }

  /** Hence no step of a get or set of one key, completed or not, ever changes what get finds for
      another key. */
  lemma StepKeepsOthers(s: State, hash: Str -> nat, w: nat, other: Str)
    requires Sound(s, hash) && Enabled(s, Step(w)) && s.workers[w].key != other
    ensures Get(Next(s, hash, Step(w)).table, hash(other), other) == Get(s.table, hash(other), other)
  {
    var x := s.workers[w];
    if Writes(s, hash, w) {
      OtherSuffix(s.table, hash, Target(s, hash, w), Alive(x.key, x.value, x.ttl), other, 0);
    }
  }
}
