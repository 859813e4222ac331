/** Life times in the cache: where an alive record comes from, and when it must be gone. */
module CacheExpiry {
  import opened Collections
  import opened CacheTable
  import opened CacheRuns

  /** Event j of the run is a worker's write of record p. */
  predicate WritesAt(s: State, hash: Str -> nat, es: seq<Event>, j: nat, p: nat)
  {
    && j < |es| && es[j].Step? && Possible(s, hash, es[..j])
    && var s' := After(s, hash, es[..j]);
       Writes(s', hash, es[j].w) && Target(s', hash, es[j].w) == p
  }

  /** The record written by event j. */
  function Written(s: State, hash: Str -> nat, es: seq<Event>, j: nat, p: nat): (r: Record)
    requires WritesAt(s, hash, es, j, p)
    ensures r.Alive?
  {
    var x := After(s, hash, es[..j]).workers[es[j].w];
    Alive(x.key, x.value, x.ttl)
  }

  /** Record r at p was written by event j, was not written since, and has lost one unit of its
      life time with every visit since. */
  predicate ComesFrom(s: State, hash: Str -> nat, es: seq<Event>, p: nat, r: Record, j: nat)
  {
    && r.Alive? && WritesAt(s, hash, es, j, p)
    && r.key == Written(s, hash, es, j, p).key && r.value == Written(s, hash, es, j, p).value
    && r.ttl + Visits(es[j + 1..], p) == Written(s, hash, es, j, p).ttl
    && forall x | j < x < |es| :: !WritesAt(s, hash, es, x, p)
  }

  lemma SameBefore(s: State, hash: Str -> nat, es: seq<Event>, x: nat, p: nat)
    requires es != [] && x < |es| - 1
    ensures WritesAt(s, hash, es, x, p) <==> WritesAt(s, hash, Init(es), x, p)
    ensures WritesAt(s, hash, es, x, p) ==> Written(s, hash, es, x, p) == Written(s, hash, Init(es), x, p)
  {
    assert es[..x] == Init(es)[..x];
  }

  /** An alive record survives an event, one visit older perhaps, unless the event writes it. */
  lemma LastEvent(s: State, hash: Str -> nat, es: seq<Event>, p: nat)
    requires es != [] && Possible(s, hash, es) && p < |s.table| && After(s, hash, es).table[p].Alive?
    requires !WritesAt(s, hash, es, |es| - 1, p)
    ensures var old_, new_ := After(s, hash, Init(es)).table[p], After(s, hash, es).table[p];
            old_.Alive? && old_.key == new_.key && old_.value == new_.value
            && old_.ttl == new_.ttl + if Last(es) == Collect(p) then 1 else 0
  {
    assert es[..|es| - 1] == Init(es);
  }

  /** Every alive record of every reachable state was stored by some set of its key and value, and
      the collector has visited it since at most as often as that set's life time says. */
  lemma {:induction false} Provenance(s: State, hash: Str -> nat, es: seq<Event>, p: nat) returns (j: nat)
    requires (forall x | 0 <= x < |s.table| :: !s.table[x].Alive?)
    requires Possible(s, hash, es) && p < |s.table| && After(s, hash, es).table[p].Alive?
    ensures ComesFrom(s, hash, es, p, After(s, hash, es).table[p], j)
    decreases |es|
  {
    if WritesAt(s, hash, es, |es| - 1, p) {
      j := |es| - 1;
      assert es[..|es| - 1] == Init(es);
      assert es[j + 1..] == [];
    } else {
      LastEvent(s, hash, es, p);
      j := Provenance(s, hash, Init(es), p);
      SameBefore(s, hash, es, j, p);
      assert Init(es[j + 1..]) == Init(es)[j + 1..];
      forall x | j < x < |es| ensures !WritesAt(s, hash, es, x, p) {
        if x < |es| - 1 { SameBefore(s, hash, es, x, p); }
      }
    }
  }

  /** So whatever get answers was stored for that key by a set whose record is still within its
      life time. */
  lemma ReplyProvenance(s: State, hash: Str -> nat, es: seq<Event>, w: nat, value: Str) returns (j: nat, p: nat)
    requires (forall x | 0 <= x < |s.table| :: !s.table[x].Alive?)
    requires Possible(s, hash, es) && Enabled(After(s, hash, es), Step(w)) && After(s, hash, es).workers[w].Getting?
    requires Reply(After(s, hash, es), hash, w) == GetStop(Found(value))
    ensures var key := After(s, hash, es).workers[w].key;
            && WritesAt(s, hash, es, j, p) && Visits(es[j + 1..], p) <= Written(s, hash, es, j, p).ttl
            && Written(s, hash, es, j, p).key == key && Written(s, hash, es, j, p).value == value
  {
    p := Target(After(s, hash, es), hash, w);
    j := Provenance(s, hash, es, p);
  }

  // ---------------------------------------------------------------- running dry

  /** No set is under way and none is started. */
  predicate NoSets(s: State, es: seq<Event>)
  {
    (forall w | 0 <= w < |s.workers| :: !s.workers[w].Setting?) && (forall i | 0 <= i < |es| :: !es[i].StartSet?)
  }

  /** With no sets, record p is alive after the run exactly when it was alive before and has been
      visited at most ttl times. */
  lemma {:induction false} Decay(s: State, hash: Str -> nat, es: seq<Event>, p: nat)
    requires NoSets(s, es) && Possible(s, hash, es) && p < |s.table|
    ensures (forall w | 0 <= w < |s.workers| :: !After(s, hash, es).workers[w].Setting?)
    ensures var r, r' := s.table[p], After(s, hash, es).table[p];
            && (r'.Alive? <==> r.Alive? && Visits(es, p) <= r.ttl)
            && (r'.Alive? ==> r' == r.(ttl := r.ttl - Visits(es, p)))
    decreases |es|
  {
    if es != [] {
      assert !es[|es| - 1].StartSet?;
      assert NoSets(s, Init(es));
      Decay(s, hash, Init(es), p);
    }
  }

  /** A run without sets in which every record is visited more often than the longest life time in
      the table leaves no record alive. */
  lemma RunsDry(s: State, hash: Str -> nat, es: seq<Event>, longest: nat)
    requires NoSets(s, es) && Possible(s, hash, es)
    requires forall p | 0 <= p < |s.table| :: (s.table[p].Alive? ==> s.table[p].ttl <= longest) && Visits(es, p) > longest
    ensures forall p | 0 <= p < |s.table| :: !After(s, hash, es).table[p].Alive?
  {
    forall p | 0 <= p < |s.table| ensures !After(s, hash, es).table[p].Alive? {
      Decay(s, hash, es, p);
      assert Visits(es, p) > longest;
    }
  }
}
