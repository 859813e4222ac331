/** Whole calls of the cache: exactly what get finds and set stores, how long it lasts, and that the
    probes of one worker, one after the other, make up the call. */
module CacheCalls {
  import opened Collections
  import opened CacheTable
  import opened CacheRuns

  // ---------------------------------------------------------------- exactly what is found and stored

  /** The record that probe j of a key with hash h looks at. */
  function Probed(t: Table, h: nat, j: nat): Record
    requires j < |t|
  {
    t[Probe(h, j, |t|)]
  }

  /** Probe j is the first that meets a free record or one that is alive under key. */
  predicate FirstStop(t: Table, h: nat, key: Str, j: nat)
  {
    && j < |t| && (Probed(t, h, j) == Free || (Probed(t, h, j).Alive? && Probed(t, h, j).key == key))
    && forall k | 0 <= k < j :: Probed(t, h, k) != Free && (Probed(t, h, k).Alive? ==> Probed(t, h, k).key != key)
  }

  /** Probe j is the first that meets anything but a record alive under another key. */
  predicate FirstPlace(t: Table, h: nat, key: Str, j: nat)
  {
    && j < |t| && (Probed(t, h, j).Alive? ==> Probed(t, h, j).key == key)
    && forall k | 0 <= k < j :: Probed(t, h, k).Alive? && Probed(t, h, k).key != key
  }

  lemma {:induction false} GetSearches(t: Table, h: nat, key: Str, i: nat)
    requires i <= |t|
    requires forall k | 0 <= k < i :: Probed(t, h, k) != Free && (Probed(t, h, k).Alive? ==> Probed(t, h, k).key != key)
    ensures (forall value :: GetFrom(t, h, key, i) == Found(value) <==>
              exists j :: FirstStop(t, h, key, j) && Probed(t, h, j).Alive? && Probed(t, h, j).value == value)
    decreases |t| - i
  {
    if i < |t| {
      if FirstStop(t, h, key, i) {
        assert forall j | FirstStop(t, h, key, j) :: j == i;
      } else {
        GetSearches(t, h, key, i + 1);
      }
    }
  }

  /** get answers a value exactly when the first probe that meets a free record or the key meets the key,
      alive and with that value. */
  lemma GetExactly(t: Table, h: nat, key: Str, value: Str)
    ensures Get(t, h, key) == Found(value) <==>
            exists j :: FirstStop(t, h, key, j) && Probed(t, h, j).Alive? && Probed(t, h, j).value == value
  {
    hide FirstStop, GetFrom;
    GetSearches(t, h, key, 0);
  }

  /** set stores its key, value and life time in the first record that is not alive under another key, and
      changes nothing else; without such a record it stores nothing. */
  lemma SetExactly(t: Table, h: nat, key: Str, value: Str, ttl: nat)
    ensures forall j | FirstPlace(t, h, key, j) ::
              Set(t, h, key, value, ttl) == Stored(t[Probe(h, j, |t|) := Alive(key, value, ttl)])
    ensures (forall j :: !FirstPlace(t, h, key, j)) ==> Set(t, h, key, value, ttl) == NoFreeSpace
  {
    var i := SetProbe(t, h, key, 0);
    forall k | 0 <= k < i ensures Probed(t, h, k).Alive? && Probed(t, h, k).key != key {
      assert !Takes(t[Probe(h, k, |t|)], key);
    }
    if i < |t| {
      assert FirstPlace(t, h, key, i);
      assert forall j | FirstPlace(t, h, key, j) :: j == i;
    }
  }

  // ---------------------------------------------------------------- how long it lasts

  /** The collector visits records in the order ps. */
  function Visited(t: Table, ps: seq<nat>): (t': Table)
    requires forall k | 0 <= k < |ps| :: ps[k] < |t|
    ensures |t'| == |t|
    decreases |ps|
  {
    if ps == [] then t
    else
      var before := Visited(t, Init(ps));
      before[Last(ps) := Visit(before[Last(ps)])]
  }

  function Times(ps: seq<nat>, p: nat): nat
  {
    if ps == [] then 0 else Times(Init(ps), p) + if Last(ps) == p then 1 else 0
  }

  /** A visited record: alive as long as its life time lasts, then removed; a free or removed one stays as
      it is. */
  lemma {:induction false} VisitedRecord(t: Table, ps: seq<nat>, p: nat)
    requires (forall k | 0 <= k < |ps| :: ps[k] < |t|) && p < |t|
    ensures var r, r' := t[p], Visited(t, ps)[p];
            r' == if !r.Alive? then r
                  else if Times(ps, p) <= r.ttl then Alive(r.key, r.value, r.ttl - Times(ps, p))
                  else Removed
    decreases |ps|
  {
    if ps != [] {
      VisitedRecord(t, Init(ps), p);
    }
  }

  /** After a stored set, and any visits: get finds its value as long as its record was visited at most ttl
      times; from the next visit on the record is removed. */
  lemma SetLasts(t: Table, h: nat, key: Str, value: Str, ttl: nat, j: nat, ps: seq<nat>)
    requires FirstPlace(t, h, key, j) && forall k | 0 <= k < |ps| :: ps[k] < |t|
    ensures Set(t, h, key, value, ttl).Stored?
    ensures var p := Probe(h, j, |t|);
            var t' := Visited(Set(t, h, key, value, ttl).table, ps);
            if Times(ps, p) <= ttl then Get(t', h, key) == Found(value) else t'[p] == Removed
  {
    hide GetFrom, Visited, Times;
    SetExactly(t, h, key, value, ttl);
    var p, t1 := Probe(h, j, |t|), Set(t, h, key, value, ttl).table;
    var t' := Visited(t1, ps);
    VisitedRecord(t1, ps, p);
    if Times(ps, p) <= ttl {
      forall k | 0 <= k < j ensures Probed(t', h, k) != Free && (Probed(t', h, k).Alive? ==> Probed(t', h, k).key != key) {
        var q := Probe(h, k, |t|);
        ProbeBijection(h, k, q, |t|);
        ProbeBijection(h, j, p, |t|);
        assert Probed(t, h, k).Alive? && Probed(t, h, k).key != key;
        VisitedRecord(t1, ps, q);
      }
      assert FirstStop(t', h, key, j);
      GetExactly(t', h, key, value);
    }
  }

  // ---------------------------------------------------------------- a call, probe by probe

  function Steps(w: nat, n: nat): seq<Event> { seq(n, _ => Step(w)) }

  lemma OneMore(w: nat, n: nat)
    ensures Init(Steps(w, n + 1)) == Steps(w, n) && Last(Steps(w, n + 1)) == Step(w)
  {
  }

  lemma {:induction false} SetWalks(s: State, hash: Str -> nat, w: nat, n: nat)
    requires w < |s.workers| && s.workers[w].Setting? && s.workers[w].i == 0 && n <= |s.table|
    requires forall k | 0 <= k < n :: !Takes(Probed(s.table, hash(s.workers[w].key), k), s.workers[w].key)
    ensures Possible(s, hash, Steps(w, n))
    ensures var x := s.workers[w];
            After(s, hash, Steps(w, n)) == s.(workers := s.workers[w := Setting(x.key, x.value, x.ttl, n)])
  {
    if n > 0 {
      SetWalks(s, hash, w, n - 1);
      OneMore(w, n - 1);
      var x := s.workers[w];
      var before := After(s, hash, Steps(w, n - 1));
      assert !Takes(Probed(s.table, hash(x.key), n - 1), x.key);
      assert before.workers[w := Setting(x.key, x.value, x.ttl, n)] == s.workers[w := Setting(x.key, x.value, x.ttl, n)];
    } else {
      assert Steps(w, 0) == [] && s.workers[w := s.workers[w]] == s.workers;
    }
  }

  /** A worker that sets, step after step and undisturbed, leaves the table that set leaves. */
  lemma SetStepByStep(s: State, hash: Str -> nat, w: nat, key: Str, value: Str, ttl: nat) returns (n: nat)
    requires Enabled(s, StartSet(w, key, value, ttl))
    ensures var s1 := Next(s, hash, StartSet(w, key, value, ttl));
            && Possible(s1, hash, Steps(w, n))
            && After(s1, hash, Steps(w, n)).workers == s.workers
            && After(s1, hash, Steps(w, n)).table
               == match Set(s.table, hash(key), key, value, ttl) case Stored(t) => t case NoFreeSpace => s.table
  {
    var s1 := Next(s, hash, StartSet(w, key, value, ttl));
    var j := SetProbe(s.table, hash(key), key, 0);
    SetWalks(s1, hash, w, j);
    OneMore(w, j);
    n := j + 1;
  }

  /** The first probe from i on at which get stops, or the number of records. */
  function StopProbe(t: Table, h: nat, key: Str, i: nat): (j: nat)
    requires i <= |t|
    ensures i <= j <= |t|
    ensures forall k | i <= k < j :: ProbeGet(Probed(t, h, k), key) == GetOn
    ensures GetFrom(t, h, key, i) == GetFrom(t, h, key, j)
    ensures j < |t| ==> ProbeGet(Probed(t, h, j), key).GetStop?
    decreases |t| - i
  {
    if i == |t| || ProbeGet(Probed(t, h, i), key).GetStop? then i else StopProbe(t, h, key, i + 1)
  }

  lemma {:induction false} GetWalks(s: State, hash: Str -> nat, w: nat, n: nat)
    requires w < |s.workers| && s.workers[w].Getting? && s.workers[w].i == 0 && n <= |s.table|
    requires forall k | 0 <= k < n :: ProbeGet(Probed(s.table, hash(s.workers[w].key), k), s.workers[w].key) == GetOn
    ensures Possible(s, hash, Steps(w, n))
    ensures After(s, hash, Steps(w, n)) == s.(workers := s.workers[w := Getting(s.workers[w].key, n)])
  {
    if n > 0 {
      GetWalks(s, hash, w, n - 1);
      OneMore(w, n - 1);
      var x := s.workers[w];
      var before := After(s, hash, Steps(w, n - 1));
      assert ProbeGet(Probed(s.table, hash(x.key), n - 1), x.key) == GetOn;
      assert before.workers[w := Getting(x.key, n)] == s.workers[w := Getting(x.key, n)];
    } else {
      assert Steps(w, 0) == [] && s.workers[w := s.workers[w]] == s.workers;
    }
  }

  /** A worker that gets, step after step and undisturbed, changes nothing, and its last step answers what
      get answers. */
  lemma GetStepByStep(s: State, hash: Str -> nat, w: nat, key: Str) returns (n: nat)
    requires Enabled(s, StartGet(w, key))
    ensures var s1 := Next(s, hash, StartGet(w, key));
            && Possible(s1, hash, Steps(w, n))
            && var s2 := After(s1, hash, Steps(w, n));
               && s2.table == s.table && Enabled(s2, Step(w)) && s2.workers[w].Getting?
               && Reply(s2, hash, w) == GetStop(Get(s.table, hash(key), key)) && Next(s2, hash, Step(w)) == s
  {
    var s1 := Next(s, hash, StartGet(w, key));
    n := StopProbe(s.table, hash(key), key, 0);
    GetWalks(s1, hash, w, n);
    var s2 := After(s1, hash, Steps(w, n));
    assert s2.workers[w := Idle] == s.workers;
  }
}
