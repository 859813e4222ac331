/** The cache returns the latest live write, in every interleaving. */
module CacheLatest {
  import opened Collections
  import opened CacheTable
  import opened CacheRuns

  /** The first n probes of key meet only records that are neither free nor alive under key. */
  predicate Clean(t: Table, hash: Str -> nat, key: Str, n: nat)
    requires n <= |t|
  {
    forall k | 0 <= k < n ::
      var r := t[Probe(hash(key), k, |t|)]; !r.Free? && (r.Alive? ==> r.key != key)
  }

  /** No worker but w is setting key. */
  predicate SoleSetter(s: State, key: Str, w: int)
  {
    forall x | 0 <= x < |s.workers| && x != w :: s.workers[x].Setting? ==> s.workers[x].key != key
  }

  predicate SetsKey(e: Event, key: Str) { e.StartSet? && e.key == key }

  /** A write of another key keeps the first probes clean: they were not free and stay so. */
  lemma CleanNext(s: State, hash: Str -> nat, e: Event, key: Str, n: nat, w: int)
    requires Enabled(s, e) && n <= |s.table| && Clean(s.table, hash, key, n) && SoleSetter(s, key, w)
    requires e.Step? ==> e.w != w
    ensures Clean(Next(s, hash, e).table, hash, key, n)
  {
    var t' := Next(s, hash, e).table;
    forall k | 0 <= k < n
      ensures var r := t'[Probe(hash(key), k, |t'|)]; !r.Free? && (r.Alive? ==> r.key != key)
    {
      var r := s.table[Probe(hash(key), k, |s.table|)];
      assert !r.Free? && (r.Alive? ==> r.key != key);
    }
  }

  /** The set that worker w is carrying out: no other set of the key is under way, and the probes it
      has passed are clean. */
  predicate InSet(s: State, hash: Str -> nat, w: nat, key: Str, value: Str, ttl: nat)
  {
    && w < |s.workers| && SoleSetter(s, key, w)
    && var x := s.workers[w];
       x.Setting? && x.key == key && x.value == value && x.ttl == ttl && x.i <= |s.table| && Clean(s.table, hash, key, x.i)
  }

  /** Record p holds the latest value of key, good for left more visits, and get meets it first. */
  predicate Held(s: State, hash: Str -> nat, p: nat, key: Str, value: Str, left: nat)
  {
    && p < |s.table| && s.table[p] == Alive(key, value, left) && SoleSetter(s, key, -1)
    && Clean(s.table, hash, key, ProbeIndex(hash(key), p, |s.table|))
  }

  lemma InSetNext(s: State, hash: Str -> nat, e: Event, w: nat, key: Str, value: Str, ttl: nat)
    requires InSet(s, hash, w, key, value, ttl) && Enabled(s, e) && !SetsKey(e, key)
    requires Sound(s, hash)
    ensures var s' := Next(s, hash, e);
            if e == Step(w) && Writes(s, hash, w) then Held(s', hash, Target(s, hash, w), key, value, ttl)
            else (e == Step(w) && s.workers[w].i == |s.table|) || InSet(s', hash, w, key, value, ttl)
  {
    var s', x := Next(s, hash, e), s.workers[w];
    if e == Step(w) {
      if Writes(s, hash, w) {
        var p := Target(s, hash, w);
        ProbeBijection(hash(key), x.i, p, |s.table|);
        forall k | 0 <= k < x.i
          ensures var r := s'.table[Probe(hash(key), k, |s.table|)]; !r.Free? && (r.Alive? ==> r.key != key)
        {
          ProbeBijection(hash(key), k, p, |s.table|);
        }
      }
    } else {
      CleanNext(s, hash, e, key, x.i, w);
    }
  }

  lemma HeldNext(s: State, hash: Str -> nat, e: Event, p: nat, key: Str, value: Str, left: nat)
    requires Held(s, hash, p, key, value, left) && Enabled(s, e) && !SetsKey(e, key)
    requires e == Collect(p) ==> left > 0
    ensures Held(Next(s, hash, e), hash, p, key, value, if e == Collect(p) then left - 1 else left)
  {
    CleanNext(s, hash, e, key, ProbeIndex(hash(key), p, |s.table|), -1);
  }

  lemma {:induction false} HeldRun(s: State, hash: Str -> nat, es: seq<Event>, p: nat, key: Str, value: Str, ttl: nat)
    requires Held(s, hash, p, key, value, ttl) && Possible(s, hash, es) && Visits(es, p) <= ttl
    requires NoSetOf(es, key)
    ensures Held(After(s, hash, es), hash, p, key, value, ttl - Visits(es, p))
    decreases |es|
  {
    if es != [] {
      assert !SetsKey(es[|es| - 1], key);
      HeldRun(s, hash, Init(es), p, key, value, ttl);
      HeldNext(After(s, hash, Init(es)), hash, Last(es), p, key, value, ttl - Visits(Init(es), p));
    }
  }

  lemma HeldGet(s: State, hash: Str -> nat, p: nat, key: Str, value: Str, left: nat)
    requires Held(s, hash, p, key, value, left)
    ensures Get(s.table, hash(key), key) == Found(value)
  {
    var j := ProbeIndex(hash(key), p, |s.table|);
    ProbeBijection(hash(key), j, p, |s.table|);
    GetReaches(s.table, hash(key), key, 0, j);
  }

  /** Worker w, if it is getting key, has not passed record p yet. */
  predicate NotPast(s: State, hash: Str -> nat, w: nat, key: Str, p: nat)
    requires p < |s.table|
  {
    w < |s.workers| && (s.workers[w].Getting? && s.workers[w].key == key ==>
                          s.workers[w].i <= ProbeIndex(hash(key), p, |s.table|))
  }

  lemma NotPastNext(s: State, hash: Str -> nat, e: Event, w: nat, p: nat, key: Str, value: Str, left: nat)
    requires Held(s, hash, p, key, value, left) && Enabled(s, e) && NotPast(s, hash, w, key, p)
    ensures NotPast(Next(s, hash, e), hash, w, key, p)
    ensures s.workers[w].Getting? && s.workers[w].key == key ==>
              Reply(s, hash, w) == GetOn || Reply(s, hash, w) == GetStop(Found(value))
  {
    if s.workers[w].Getting? && s.workers[w].key == key {
      ProbeBijection(hash(key), s.workers[w].i, p, |s.table|);
    }
  }

  lemma {:induction false} NotPastRun(s: State, hash: Str -> nat, es: seq<Event>, w: nat, p: nat, key: Str, value: Str, ttl: nat)
    requires Held(s, hash, p, key, value, ttl) && Possible(s, hash, es) && Visits(es, p) <= ttl
    requires NoSetOf(es, key)
    requires NotPast(s, hash, w, key, p)
    ensures NotPast(After(s, hash, es), hash, w, key, p)
    decreases |es|
  {
    if es != [] {
      NotPastRun(s, hash, Init(es), w, p, key, value, ttl);
      HeldRun(s, hash, Init(es), p, key, value, ttl);
      NotPastNext(After(s, hash, Init(es)), hash, Last(es), w, p, key, value, ttl - Visits(Init(es), p));
    }
  }

  /** Worker w is still setting, at the end of a run and at every moment of it. */
  predicate StillSetting(s: State, hash: Str -> nat, es: seq<Event>, w: nat)
    requires Possible(s, hash, es)
  {
    && w < |s.workers| && After(s, hash, es).workers[w].Setting?
    && (es == [] || StillSetting(s, hash, Init(es), w))
  }

  predicate NoSetOf(es: seq<Event>, key: Str) { forall i | 0 <= i < |es| :: !SetsKey(es[i], key) }

  lemma {:induction false} InSetRun(s: State, hash: Str -> nat, es: seq<Event>, w: nat, key: Str, value: Str, ttl: nat)
    requires InSet(s, hash, w, key, value, ttl) && Sound(s, hash) && Possible(s, hash, es)
    requires NoSetOf(es, key) && StillSetting(s, hash, es, w)
    ensures InSet(After(s, hash, es), hash, w, key, value, ttl)
    decreases |es|
  {
    if es != [] {
      var init, last := Init(es), Last(es);
      InSetRun(s, hash, init, w, key, value, ttl);
      SoundRun(s, hash, init);
      assert !SetsKey(es[|es| - 1], key);
      InSetNext(After(s, hash, init), hash, last, w, key, value, ttl);
    }
  }

  /** The cache returns the latest live write. Worker w starts set(key, value, ttl) while no other
      set of the key is under way; es leads to the step that writes record p; es' follows, with no
      new set of the key and at most ttl collector visits to p. Then get(key) finds value, even if
      older copies of the key sit further along the probe, and every answer that a worker gives to
      get(key) is value, unless it had already probed past p when the write happened. */
  lemma LatestWriteWins(s: State, hash: Str -> nat, w: nat, key: Str, value: Str, ttl: nat,
                        es: seq<Event>, es': seq<Event>, g: nat)
    requires Sound(s, hash) && SoleSetter(s, key, w) && Enabled(s, StartSet(w, key, value, ttl))
    requires var s1 := Next(s, hash, StartSet(w, key, value, ttl));
             && Possible(s1, hash, es) && NoSetOf(es, key) && StillSetting(s1, hash, es, w)
             && Writes(After(s1, hash, es), hash, w)
    requires var s2 := After(Next(s, hash, StartSet(w, key, value, ttl)), hash, es);
             var s3, p := Next(s2, hash, Step(w)), Target(s2, hash, w);
             Possible(s3, hash, es') && Visits(es', p) <= ttl && NoSetOf(es', key) && NotPast(s3, hash, g, key, p)
    ensures var s2 := After(Next(s, hash, StartSet(w, key, value, ttl)), hash, es);
            var s4 := After(Next(s2, hash, Step(w)), hash, es');
            && Get(s4.table, hash(key), key) == Found(value)
            && (s4.workers[g].Getting? && s4.workers[g].key == key ==>
                  Reply(s4, hash, g) == GetOn || Reply(s4, hash, g) == GetStop(Found(value)))
  {
    var s1 := Next(s, hash, StartSet(w, key, value, ttl));
    var s2 := After(s1, hash, es);
    var s3, p := Next(s2, hash, Step(w)), Target(s2, hash, w);
    SoundNext(s, hash, StartSet(w, key, value, ttl));
    InSetRun(s1, hash, es, w, key, value, ttl);
    SoundRun(s1, hash, es);
    InSetNext(s2, hash, Step(w), w, key, value, ttl);
    HeldRun(s3, hash, es', p, key, value, ttl);
    var s4 := After(s3, hash, es');
    HeldGet(s4, hash, p, key, value, ttl - Visits(es', p));
    NotPastRun(s3, hash, es', g, p, key, value, ttl);
    if s4.workers[g].Getting? { NotPastNext(s4, hash, Step(g), g, p, key, value, ttl - Visits(es', p)); }
  }
}
