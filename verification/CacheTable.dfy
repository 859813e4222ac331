/** The shared cache as a table of records with open addressing: one probe of get and set, one visit
    of the collector, the whole operations built from them, and the probe order. */
module CacheTable {
  import opened Words

  /** Keys and values are byte strings without the zero byte. */
  type Str = seq<byte>

  datatype Record = Free | Removed | Alive(key: Str, value: Str, ttl: nat)

  type Table = seq<Record>

  /** Record that probe number i of a key with hash h looks at, in a table of n records. */
  function Probe(h: nat, i: nat, n: nat): (p: nat)
    requires n > 0
    ensures p < n
  {
    (h + i) % n
  }

  /** The probe number at which a key with hash h looks at record p. */
  function ProbeIndex(h: nat, p: nat, n: nat): (i: nat)
    requires p < n
    ensures i < n
  {
    if h % n <= p then p - h % n else p + n - h % n
  }

  lemma Multiples(a: nat, b: nat, n: nat)
    requires a < b
    ensures a * n + n <= b * n
  {
    assert b * n == a * n + n + (b - a - 1) * n;
  }

  lemma ModAdd(q: nat, r: nat, n: nat)
    requires r < n
    ensures (q * n + r) % n == r
  {
    var x := q * n + r;
    var d, m := x / n, x % n;
    assert x == d * n + m;
    if d < q { Multiples(d, q, n); }
    if q < d { Multiples(q, d, n); }
  }

  lemma ProbeIs(h: nat, i: nat, n: nat)
    requires i < n
    ensures Probe(h, i, n) == if h % n + i < n then h % n + i else h % n + i - n
  {
    var q, a := h / n, h % n;
    assert h == q * n + a;
    if a + i < n {
      assert h + i == q * n + (a + i);
      ModAdd(q, a + i, n);
    } else {
      assert h + i == (q + 1) * n + (a + i - n);
      ModAdd(q + 1, a + i - n, n);
    }
  }

  /** The probes 0..n-1 of any key visit every record exactly once. */
  lemma ProbeBijection(h: nat, i: nat, p: nat, n: nat)
    requires i < n && p < n
    ensures Probe(h, ProbeIndex(h, p, n), n) == p
    ensures ProbeIndex(h, Probe(h, i, n), n) == i
  {
    ProbeIs(h, ProbeIndex(h, p, n), n);
    ProbeIs(h, i, n);
  }

  // ---------------------------------------------------------------- one probe, one visit

  datatype Answer = Found(value: Str) | NoSuchKey

  datatype GetProbe = GetStop(answer: Answer) | GetOn

  /** What get does with the record of one probe. */
  function ProbeGet(r: Record, key: Str): GetProbe
  {
    if r.Alive? && r.key == key then GetStop(Found(r.value))
    else if r.Free? then GetStop(NoSuchKey)
    else GetOn
  }

  /** set takes a free or removed record, or one that is alive under its key. */
  predicate Takes(r: Record, key: Str) { r.Alive? ==> r.key == key }

  /** One visit of the collector. */
  function Visit(r: Record): Record
  {
    if !r.Alive? then r
    else if r.ttl == 0 then Removed
    else r.(ttl := r.ttl - 1)
  }

  // ---------------------------------------------------------------- whole operations

  /** get from probe i on. */
  function GetFrom(t: Table, h: nat, key: Str, i: nat): Answer
    requires i <= |t|
    decreases |t| - i
  {
    if i == |t| then NoSuchKey
    else
      match ProbeGet(t[Probe(h, i, |t|)], key)
      case GetStop(a) => a
      case GetOn => GetFrom(t, h, key, i + 1)
  }

  function Get(t: Table, h: nat, key: Str): Answer { GetFrom(t, h, key, 0) }

  /** The first probe from i on that set takes, or n. */
  function SetProbe(t: Table, h: nat, key: Str, i: nat): (j: nat)
    requires i <= |t|
    ensures i <= j <= |t|
    ensures j < |t| ==> Takes(t[Probe(h, j, |t|)], key)
    ensures forall k | i <= k < j :: !Takes(t[Probe(h, k, |t|)], key)
    decreases |t| - i
  {
    if i == |t| || Takes(t[Probe(h, i, |t|)], key) then i else SetProbe(t, h, key, i + 1)
  }

  datatype SetResult = Stored(table: Table) | NoFreeSpace

  function Set(t: Table, h: nat, key: Str, value: Str, ttl: nat): SetResult
  {
    var i := SetProbe(t, h, key, 0);
    if i == |t| then NoFreeSpace else Stored(t[Probe(h, i, |t|) := Alive(key, value, ttl)])
  }

  // ---------------------------------------------------------------- the probe-path invariant

  /** Record p of the table, if alive, is reached by the probes of its key without meeting a free
      record first. */
  predicate Reachable(t: Table, hash: Str -> nat, p: nat)
    requires p < |t|
  {
    t[p].Alive? ==>
      forall i | 0 <= i < ProbeIndex(hash(t[p].key), p, |t|) :: !t[Probe(hash(t[p].key), i, |t|)].Free?
  }

  predicate NoHoles(t: Table, hash: Str -> nat)
  {
    forall p | 0 <= p < |t| :: Reachable(t, hash, p)
  }

  /** A write of an alive record after probes that met no free record keeps the invariant. */
  lemma WriteKeeps(t: Table, hash: Str -> nat, i: nat, r: Record)
    requires NoHoles(t, hash) && r.Alive? && i < |t|
    requires forall k | 0 <= k < i :: !t[Probe(hash(r.key), k, |t|)].Free?
    ensures NoHoles(t[Probe(hash(r.key), i, |t|) := r], hash)
  {
    var w := Probe(hash(r.key), i, |t|);
    var t' := t[w := r];
    forall p | 0 <= p < |t'| ensures Reachable(t', hash, p) {
      if p == w {
        ProbeBijection(hash(r.key), i, w, |t|);
      } else {
        assert Reachable(t, hash, p);
      }
    }
  }

  lemma VisitKeeps(t: Table, hash: Str -> nat, w: nat)
    requires NoHoles(t, hash) && w < |t|
    ensures NoHoles(t[w := Visit(t[w])], hash)
  {
    var t' := t[w := Visit(t[w])];
    forall p | 0 <= p < |t'| ensures Reachable(t', hash, p) {
      assert Reachable(t, hash, p);
    }
  }

  // ---------------------------------------------------------------- get after set

  /** Nothing alive under the key at probe i or later: get from there finds nothing. */
  lemma {:induction false} GetMisses(t: Table, h: nat, key: Str, i: nat)
    requires i <= |t|
    requires forall j | i <= j < |t| :: var r := t[Probe(h, j, |t|)]; r.Alive? ==> r.key != key
    ensures GetFrom(t, h, key, i) == NoSuchKey
    decreases |t| - i
  {
    if i < |t| { GetMisses(t, h, key, i + 1); }
  }

  /** Nothing free and nothing alive under the key before probe j: get from probe i gets there. */
  lemma {:induction false} GetReaches(t: Table, h: nat, key: Str, i: nat, j: nat)
    requires i <= j <= |t|
    requires forall k | i <= k < j :: var r := t[Probe(h, k, |t|)]; !r.Free? && (r.Alive? ==> r.key != key)
    ensures GetFrom(t, h, key, i) == GetFrom(t, h, key, j)
    decreases j - i
  {
    if i < j { GetReaches(t, h, key, i + 1, j); }
  }

  /** get right after a successful set of the key returns the value set. */
  lemma SetThenGet(t: Table, hash: Str -> nat, key: Str, value: Str, ttl: nat)
    requires Set(t, hash(key), key, value, ttl).Stored?
    ensures Get(Set(t, hash(key), key, value, ttl).table, hash(key), key) == Found(value)
  {
    var h, i := hash(key), SetProbe(t, hash(key), key, 0);
    var t' := Set(t, h, key, value, ttl).table;
    forall k | 0 <= k < i ensures var r := t'[Probe(h, k, |t|)]; !r.Free? && (r.Alive? ==> r.key != key) {
      ProbeBijection(h, k, 0, |t|);
      ProbeBijection(h, i, 0, |t|);
    }
    GetReaches(t', h, key, 0, i);
  }

  /** The suffix of the probes of another key is as good before the write as after it. */
  lemma {:induction false} OtherSuffix(t: Table, hash: Str -> nat, w: nat, r: Record, key: Str, i: nat)
    requires NoHoles(t, hash) && w < |t| && r.Alive? && Takes(t[w], r.key) && key != r.key && i <= |t|
    ensures GetFrom(t[w := r], hash(key), key, i) == GetFrom(t, hash(key), key, i)
    decreases |t| - i
  {
    if i < |t| {
      OtherSuffix(t, hash, w, r, key, i + 1);
      if Probe(hash(key), i, |t|) == w && t[w].Free? {
        forall j | i + 1 <= j < |t|
          ensures var x := t[Probe(hash(key), j, |t|)]; x.Alive? ==> x.key != key
        {
          var p := Probe(hash(key), j, |t|);
          ProbeBijection(hash(key), j, 0, |t|);
          assert Reachable(t, hash, p);
        }
        GetMisses(t, hash(key), key, i + 1);
      }
    }
  }

  /** A set of one key never changes what get finds for another. */
  lemma SetKeepsOthers(t: Table, hash: Str -> nat, key: Str, value: Str, ttl: nat, other: Str)
    requires NoHoles(t, hash) && Set(t, hash(key), key, value, ttl).Stored? && other != key
    ensures var t' := Set(t, hash(key), key, value, ttl).table;
            NoHoles(t', hash) && Get(t', hash(other), other) == Get(t, hash(other), other)
  {
    var i := SetProbe(t, hash(key), key, 0);
    WriteKeeps(t, hash, i, Alive(key, value, ttl));
    OtherSuffix(t, hash, Probe(hash(key), i, |t|), Alive(key, value, ttl), other, 0);
  }

  /** set throws NO_FREE_SPACE exactly when every record is alive under another key. */
  lemma FullExactly(t: Table, h: nat, key: Str, value: Str, ttl: nat)
    ensures Set(t, h, key, value, ttl) == NoFreeSpace
       <==> forall p | 0 <= p < |t| :: t[p].Alive? && t[p].key != key
  {
    var i := SetProbe(t, h, key, 0);
    if i == |t| {
      forall p | 0 <= p < |t| ensures t[p].Alive? && t[p].key != key {
        ProbeBijection(h, 0, p, |t|);
        assert !Takes(t[Probe(h, ProbeIndex(h, p, |t|), |t|)], key);
      }
    }
  }
}
