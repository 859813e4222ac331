/** The theorems about runs of atomic steps, for the machine with locks: where all hashes agree modulo the
    number of records, and are 0 there if the collector is at work. */
module CacheLocked {
  import opened Collections
  import opened CacheTable
  import opened CacheLocks
  import Runs = CacheRuns
  import Latest = CacheLatest
  import Expiry = CacheExpiry

  // ---------------------------------------------------------------- from events to atomic steps

  predicate NoStartOf(es: seq<Event>, key: Str) { forall k | 0 <= k < |es| :: !(es[k].StartSet? && es[k].key == key) }

  lemma {:induction false} NoSets(s: State, hash: Str -> nat, max: nat, es: seq<Event>, key: Str)
    requires Possible(s, hash, max, es) && NoStartOf(es, key)
    ensures Latest.NoSetOf(Atomics(s, hash, max, es), key)
    decreases |es|
  {
    hide Enabled, Next;
    if es != [] {
      var before, e := es[..|es| - 1], es[|es| - 1];
      assert forall k | 0 <= k < |before| :: before[k] == es[k];
      NoSets(s, hash, max, before, key);
      EnabledAt(After(s, hash, max, before), hash, max, e);
      assert !(e.StartSet? && e.key == key);
    }
  }

  /** A set of key that has not come to its end. */
  predicate Busy(a: Agent, key: Str)
  {
    a.Setting? && a.key == key && !(a.phase.Leaving? && a.phase.done)
  }

  lemma BusyBefore(s: State, hash: Str -> nat, max: nat, e: Event, w: nat, key: Str)
    requires Enabled(s, hash, max, e) && w < |s.agents| && Busy(Next(s, hash, max, e).agents[w], key)
    requires !(e.StartSet? && e.key == key)
    ensures Busy(s.agents[w], key)
  {
    hide Semaphores.Enabled, Semaphores.Next, Torn, Place;
  }

  lemma BusySeen(a: Agent, key: Str)
    requires Busy(a, key)
    ensures Seen(a).Setting?
  {
  }

  /** A set that is not at its end has not been at its end since it began. */
  lemma {:induction false} StillBusy(s: State, hash: Str -> nat, max: nat, c: nat, es: seq<Event>, w: nat, key: Str)
    requires Inv(s, hash, max, c) && Possible(s, hash, max, es) && SuitRun(es, hash, |s.table|, c) && NoStartOf(es, key)
    requires w < |s.agents| && Busy(After(s, hash, max, es).agents[w], key)
    ensures Runs.Possible(Abstract(s), hash, Atomics(s, hash, max, es))
    ensures Latest.StillSetting(Abstract(s), hash, Atomics(s, hash, max, es), w)
    decreases |es|
  {
    hide Inv, Enabled, Next, Suits, Busy, Seen, Atomic, Runs.Next, Runs.Enabled;
    RunIsAtomic(s, hash, max, c, es);
    BusySeen(After(s, hash, max, es).agents[w], key);
    if es != [] {
      var before, e := es[..|es| - 1], es[|es| - 1];
      var y := After(s, hash, max, before);
      InvSize(s, hash, max, c);
      assert forall k | 0 <= k < |before| :: before[k] == es[k];
      assert !(es[|es| - 1].StartSet? && es[|es| - 1].key == key);
      BusyBefore(y, hash, max, e, w, key);
      StillBusy(s, hash, max, c, before, w, key);
      InvRun(s, hash, max, c, before);
      StepIsAtomic(y, hash, max, c, e);
      EnabledAt(y, hash, max, e);
      var xs, more := Atomics(s, hash, max, before), Atomic(y, e);
      if more == [] {
        assert xs + more == xs;
      } else {
        OneMore(y, hash, max, e);
        assert Init(xs + more) == xs;
      }
    }
  }

  lemma OneMore(s: State, hash: Str -> nat, max: nat, e: Event)
    requires Enabled(s, hash, max, e) && e.w < |s.agents| && Atomic(s, e) != []
    ensures |Atomic(s, e)| == 1
  {
  }

  // ---------------------------------------------------------------- the latest write wins

  /** A set in front of the end of its write is, as an atomic step, the write of its record. */
  lemma WriteDue(s: State, hash: Str -> nat, max: nat, c: nat, e: Event)
    requires Inv(s, hash, max, c) && Enabled(s, hash, max, e) && e.EndWrite? && s.agents[e.w].Setting?
    ensures Runs.Writes(Abstract(s), hash, e.w)
    ensures Runs.Target(Abstract(s), hash, e.w) == Place(s.agents[e.w], hash, |s.table|)
    ensures Runs.Enabled(Abstract(s), Runs.Step(e.w))
    ensures Abstract(Next(s, hash, max, e)) == Runs.Next(Abstract(s), hash, Runs.Step(e.w))
  {
    hide Inv;
    InvAt(s, hash, max, c, e.w);
    StepIsAtomic(s, hash, max, c, e);
  }

  /** Process g, if it is getting key, has not passed record p. */
  predicate NotPast(s: State, hash: Str -> nat, g: nat, key: Str, p: nat)
    requires p < |s.table|
  {
    g < |s.agents| && Latest.NotPast(Abstract(s), hash, g, key, p)
  }

  /** In a run from s: process w begins set(key, value, ttl) while no other set of the key is under way;
      es leads to the end e of its write of record p; more follows, with no new set of the key and at most
      ttl visits of p. Then get finds value; and a get of key that is about to read, and had not passed p
      when it was written, reads value or goes on, whatever it may see. */
  lemma LockedLatestWins(s: State, hash: Str -> nat, max: nat, c: nat, w: nat, key: Str, value: Str, ttl: nat,
                         es: seq<Event>, e: Event, more: seq<Event>, g: nat)
    requires Inv(s, hash, max, c) && Runs.Sound(Abstract(s), hash) && Latest.SoleSetter(Abstract(s), key, w)
    requires Enabled(s, hash, max, StartSet(w, key, value, ttl)) && hash(key) % |s.table| == c
    requires var s1 := Next(s, hash, max, StartSet(w, key, value, ttl));
             && Possible(s1, hash, max, es) && SuitRun(es, hash, |s.table|, c) && NoStartOf(es, key)
             && e.EndWrite? && e.w == w && Enabled(After(s1, hash, max, es), hash, max, e)
             && After(s1, hash, max, es).agents[w].Setting? && After(s1, hash, max, es).agents[w].key == key
    requires var s2 := After(Next(s, hash, max, StartSet(w, key, value, ttl)), hash, max, es);
             var s3, p := Next(s2, hash, max, e), Place(s2.agents[w], hash, |s.table|);
             && p < |s.table| && NotPast(s3, hash, g, key, p)
             && Possible(s3, hash, max, more) && SuitRun(more, hash, |s.table|, c) && NoStartOf(more, key)
             && Runs.Visits(Atomics(s3, hash, max, more), p) <= ttl
    ensures var s2 := After(Next(s, hash, max, StartSet(w, key, value, ttl)), hash, max, es);
            var s4 := After(Next(s2, hash, max, e), hash, max, more);
            && Get(s4.table, hash(key), key) == Found(value)
            && (forall seen | s4.agents[g].Getting? && s4.agents[g].key == key && Enabled(s4, hash, max, Read(g, seen)) ::
                  ProbeGet(seen, key) == GetOn || ProbeGet(seen, key) == GetStop(Found(value)))
  {
    hide Inv, Enabled, Next, Atomic, Abstract, Runs.Next, Runs.Enabled, Runs.Sound, Place, Possible, After, Runs.After, Runs.Possible, Seen;
    var start := StartSet(w, key, value, ttl);
    var s1 := Next(s, hash, max, start);
    StartIsAtomic(s, hash, max, c, start);
    InvSize(s, hash, max, c);
    InvNext(s, hash, max, c, start) by { assert Suits(start, hash, |s.table|, c); }
    var s2 := After(s1, hash, max, es);
    InvRun(s1, hash, max, c, es);
    RunIsAtomic(s1, hash, max, c, es);
    WriteDue(s2, hash, max, c, e);
    EndsBusy(s2, hash, max, e);
    StillBusy(s1, hash, max, c, es, w, key);
    NoSets(s1, hash, max, es, key);
    var s3 := Next(s2, hash, max, e);
    InvNext(s2, hash, max, c, e) by { assert Suits(e, hash, |s.table|, c); }
    RunIsAtomic(s3, hash, max, c, more);
    NoSets(s3, hash, max, more, key);
    Latest.LatestWriteWins(Abstract(s), hash, w, key, value, ttl, Atomics(s1, hash, max, es), Atomics(s3, hash, max, more), g);
    InvRun(s3, hash, max, c, more);
    var s4 := After(s3, hash, max, more);
    SameTable(s4);
    forall seen | s4.agents[g].Getting? && s4.agents[g].key == key && Enabled(s4, hash, max, Read(g, seen))
      ensures ProbeGet(seen, key) == GetOn || ProbeGet(seen, key) == GetStop(Found(value))
    {
      ReadReplies(s4, hash, max, c, g, seen);
    }
  }

  lemma SameTable(s: State)
    ensures Abstract(s).table == s.table
  {
  }

  lemma StartIsAtomic(s: State, hash: Str -> nat, max: nat, c: nat, e: Event)
    requires Inv(s, hash, max, c) && e.StartSet? && Enabled(s, hash, max, e)
    ensures var x := Runs.StartSet(e.w, e.key, e.value, e.ttl);
            Runs.Enabled(Abstract(s), x) && Abstract(Next(s, hash, max, e)) == Runs.Next(Abstract(s), hash, x)
  {
    hide Inv;
    StepIsAtomic(s, hash, max, c, e);
  }

  lemma EndsBusy(s: State, hash: Str -> nat, max: nat, e: Event)
    requires Enabled(s, hash, max, e) && e.EndWrite? && s.agents[e.w].Setting?
    ensures Busy(s.agents[e.w], s.agents[e.w].key)
  {
  }

  /** What a get reads decides its reply. */
  lemma ReadReplies(s: State, hash: Str -> nat, max: nat, c: nat, g: nat, seen: Record)
    requires Inv(s, hash, max, c) && Enabled(s, hash, max, Read(g, seen)) && s.agents[g].Getting?
    ensures Abstract(s).workers[g].Getting? && Abstract(s).workers[g].key == s.agents[g].key
    ensures Runs.Reply(Abstract(s), hash, g) == ProbeGet(seen, s.agents[g].key)
  {
    hide Inv, Torn;
    InvAt(s, hash, max, c, g);
    NotTorn(s, hash, max, c, g);
  }

  // ---------------------------------------------------------------- where an answer comes from

  lemma {:induction false} PossibleBefore(s: State, hash: Str -> nat, max: nat, es: seq<Event>, k: nat)
    requires Possible(s, hash, max, es) && k <= |es|
    ensures Possible(s, hash, max, es[..k])
    decreases |es|
  {
    hide Enabled, Next;
    if k < |es| {
      PossibleBefore(s, hash, max, es[..|es| - 1], k);
      assert es[..|es| - 1][..k] == es[..k];
    } else {
      assert es[..k] == es;
    }
  }

  /** The event behind an atomic step of a run. */
  lemma {:induction false} Origin(s: State, hash: Str -> nat, max: nat, es: seq<Event>, j: nat) returns (k: nat)
    requires Possible(s, hash, max, es) && j < |Atomics(s, hash, max, es)|
    ensures k < |es| && Possible(s, hash, max, es[..k]) && es[k].w < |s.agents|
    ensures Atomics(s, hash, max, es[..k]) == Atomics(s, hash, max, es)[..j]
    ensures Enabled(After(s, hash, max, es[..k]), hash, max, es[k])
    ensures Atomic(After(s, hash, max, es[..k]), es[k]) == [Atomics(s, hash, max, es)[j]]
    decreases |es|
  {
    hide Enabled, Next, Atomic;
    var before, e := es[..|es| - 1], es[|es| - 1];
    var y := After(s, hash, max, before);
    EnabledAt(y, hash, max, e);
    var xs, more := Atomics(s, hash, max, before), Atomic(y, e);
    if j < |xs| {
      k := Origin(s, hash, max, before, j);
      assert before[..k] == es[..k] && (xs + more)[..j] == xs[..j];
    } else {
      k := |es| - 1;
      OneMore(y, hash, max, e);
      assert (xs + more)[..j] == xs;
    }
  }

  /** The event behind an atomic write is the end of a set's write, of the record it stores. */
  lemma WriteOrigin(s: State, hash: Str -> nat, max: nat, c: nat, e: Event, x: nat)
    requires Inv(s, hash, max, c) && Enabled(s, hash, max, e) && e.w < |s.agents| && Atomic(s, e) == [Runs.Step(x)]
    requires Runs.Writes(Abstract(s), hash, x)
    ensures s.agents[x].Setting? && e == EndWrite(x, Alive(s.agents[x].key, s.agents[x].value, s.agents[x].ttl))
    ensures Runs.Target(Abstract(s), hash, x) == Place(s.agents[x], hash, |s.table|)
    ensures var y := Abstract(s).workers[x];
            y.key == s.agents[x].key && y.value == s.agents[x].value && y.ttl == s.agents[x].ttl
  {
    hide Inv;
    InvAt(s, hash, max, c, e.w);
    if e.Read? || e.EndWrite? { NotTorn(s, hash, max, c, e.w); }
  }

  /** In a run from a table without alive records: what a get is about to answer was stored for its key by
      the end k of the write of some set, in a record that was visited at most as often since as the life
      time of that set says. */
  lemma LockedReply(t: Table, agents: nat, hash: Str -> nat, max: nat, c: nat, es: seq<Event>, g: nat, seen: Record, value: Str)
    returns (k: nat)
    requires |t| > 0 && max > 0 && (forall x | 0 <= x < |t| :: !t[x].Alive?)
    requires Possible(Begin(t, agents, max), hash, max, es) && SuitRun(es, hash, |t|, c)
    requires var s := After(Begin(t, agents, max), hash, max, es);
             Enabled(s, hash, max, Read(g, seen)) && s.agents[g].Getting? && ProbeGet(seen, s.agents[g].key) == GetStop(Found(value))
    ensures k < |es| && Possible(Begin(t, agents, max), hash, max, es[..k]) && es[k].EndWrite? && es[k].stored.Alive?
    ensures var s0 := Begin(t, agents, max);
            var a := After(s0, hash, max, es[..k]).agents; var xs := Atomics(s0, hash, max, es);
            var key, r, j := After(s0, hash, max, es).agents[g].key, es[k].stored, |Atomics(s0, hash, max, es[..k])|;
            && es[k].w < |a| && a[es[k].w].Setting? && r == Alive(key, value, r.ttl) && j < |xs|
            && Runs.Visits(xs[j + 1..], Place(a[es[k].w], hash, |t|)) <= r.ttl
  {
    hide Inv, Enabled, Next, Abstract, Runs.Next, Runs.Enabled, Place, Possible, After, Runs.After, Runs.Possible, Seen, Atomic, Suits;
    var s0 := Begin(t, agents, max);
    var s, xs := After(s0, hash, max, es), Atomics(s0, hash, max, es);
    InvBegin(t, agents, hash, max, c);
    RunIsAtomic(s0, hash, max, c, es);
    InvRun(s0, hash, max, c, es);
    SameTable(s0);
    ReadReplies(s, hash, max, c, g, seen);
    StepDue(s, hash, max, g, seen);
    var j, p := Expiry.ReplyProvenance(Abstract(s0), hash, xs, g, value);
    k := Origin(s0, hash, max, es, j);
    var before := es[..k];
    assert forall i | 0 <= i < |before| :: before[i] == es[i];
    assert SuitRun(before, hash, |t|, c);
    InvRun(s0, hash, max, c, before);
    RunIsAtomic(s0, hash, max, c, before);
    WriteOrigin(After(s0, hash, max, before), hash, max, c, es[k], xs[j].w);
  }

  lemma StepDue(s: State, hash: Str -> nat, max: nat, g: nat, seen: Record)
    requires Enabled(s, hash, max, Read(g, seen)) && s.agents[g].Getting?
    ensures Runs.Enabled(Abstract(s), Runs.Step(g))
  {
  }
}
