/** The cache table as it lies in the shared byte buffer, and the operations on those bytes. */
module CacheBytes {
  import opened Collections
  import opened Words
  import opened CacheTable

  const FREE: byte := 0
  const ALIVE: byte := 1
  const REMOVED: byte := 2
  const TTL_BYTES: nat := 4
  const TTL_LIMIT: nat := 0x1_0000_0000

  datatype Code = NO_SUCH_KEY | INVALID_KEY | INVALID_VALUE | INVALID_PLACE | NO_FREE_SPACE

  datatype GetResult = Value(bytes: seq<byte>) | GetThrow(code: Code)

  predicate NulFree(s: Str) { 0 !in s }

  /** A string as a field of n bytes holds it. */
  function Pad(s: Str, n: nat): (r: seq<byte>)
    requires |s| <= n
    ensures |r| == n
  {
    s + seq(n - |s|, _ => 0)
  }

  /** Comparing a field with a key byte by byte up to the first zero: they agree. */
  predicate Matches(field: seq<byte>, key: Str)
  {
    |key| < |field| && field[..|key|] == key && field[|key|] == 0
  }

  /** Padded keys agree exactly when the keys are equal. */
  lemma PadMatches(s: Str, key: Str, n: nat)
    requires NulFree(s) && NulFree(key) && |s| < n && |key| < n
    ensures Matches(Pad(s, n), key) <==> s == key
  {
    var f := Pad(s, n);
    assert |s| < |key| ==> f[..|key|][|s|] == 0;
    assert |key| < |s| ==> f[|key|] == s[|key|];
    assert |key| == |s| ==> f[..|key|] == s;
  }

  /** The bytes e are the record r, with fields of ks and vs bytes. */
  predicate Encodes(e: seq<byte>, r: Record, ks: nat, vs: nat)
    requires |e| == ks + vs + TTL_BYTES + 1
  {
    match r
    case Free => e[ks + vs + TTL_BYTES] == FREE
    case Removed => e[ks + vs + TTL_BYTES] == REMOVED
    case Alive(key, value, ttl) =>
      && |key| < ks && NulFree(key) && |value| < vs && NulFree(value) && ttl < TTL_LIMIT
      && e[..ks] == Pad(key, ks) && e[ks..ks + vs] == Pad(value, vs)
      && e[ks + vs..ks + vs + TTL_BYTES] == Enc(ttl, TTL_BYTES) && e[ks + vs + TTL_BYTES] == ALIVE
  }

  lemma TtlRoundTrip(ttl: nat)
    requires ttl < TTL_LIMIT
    ensures Dec(Enc(ttl, TTL_BYTES)) == ttl
  {
    assert Capacity(TTL_BYTES) == TTL_LIMIT;
    DecEnc(ttl, TTL_BYTES);
  }

  lemma Places(p: nat, q: nat, n: nat, stride: nat)
    requires p < n && q < n
    ensures p * stride + stride <= n * stride
    ensures p < q ==> p * stride + stride <= q * stride
    ensures q < p ==> q * stride + stride <= p * stride
  {
    Multiples(p, n, stride);
    if p < q { Multiples(p, q, stride); }
    if q < p { Multiples(q, p, stride); }
  }

  function Width(ks: nat, vs: nat): nat { ks + vs + TTL_BYTES + 1 }

  /** Where record p is stored. */
  function PlaceOf(p: nat, ks: nat, vs: nat): nat { p * Width(ks, vs) }

  /** The bytes of record p. */
  function Bytes(m: seq<byte>, p: nat, ks: nat, vs: nat): (s: seq<byte>)
    requires PlaceOf(p, ks, vs) + Width(ks, vs) <= |m|
    ensures |s| == Width(ks, vs)
  {
    m[PlaceOf(p, ks, vs)..PlaceOf(p, ks, vs) + Width(ks, vs)]
  }

  /** Memory m holds record r at place number p. */
  predicate RecordAt(m: seq<byte>, p: nat, r: Record, ks: nat, vs: nat)
  {
    PlaceOf(p, ks, vs) + Width(ks, vs) <= |m| && Encodes(Bytes(m, p, ks, vs), r, ks, vs)
  }

  /** Memory m holds the table t. */
  predicate TableAt(m: seq<byte>, t: Table, ks: nat, vs: nat)
  {
    forall p | 0 <= p < |t| :: RecordAt(m, p, t[p], ks, vs)
  }

  /** An entry as get_entry returns it: where its fields are, its life time and its status. */
  datatype Entry = Entry(place: nat, ttl: nat, status: byte)

  /** Memory after set_entry at a place. */
  function EntryPut(m: seq<byte>, place: nat, key: Option<Str>, value: Option<Str>, ttl: nat, status: byte,
                    ks: nat, vs: nat): (r: seq<byte>)
    requires place + ks + vs + TTL_BYTES + 1 <= |m|
    requires (key.Some? ==> |key.value| <= ks) && (value.Some? ==> |value.value| <= vs)
    ensures |r| == |m|
  {
    var m1 := if key.Some? then Put(m, place, Pad(key.value, ks)) else m;
    var m2 := if value.Some? then Put(m1, place + ks, Pad(value.value, vs)) else m1;
    Put(Put(m2, place + ks + vs, Enc(ttl, TTL_BYTES)), place + ks + vs + TTL_BYTES, [status])
  }

  /** What the entry at the place then holds, and that nothing else has changed. */
  lemma EntryPutParts(m: seq<byte>, place: nat, key: Option<Str>, value: Option<Str>, ttl: nat, status: byte,
                      ks: nat, vs: nat)
    requires place + ks + vs + TTL_BYTES + 1 <= |m|
    requires (key.Some? ==> |key.value| <= ks) && (value.Some? ==> |value.value| <= vs)
    ensures var r := EntryPut(m, place, key, value, ttl, status, ks, vs);
            && At(r, place, if key.Some? then Pad(key.value, ks) else m[place..place + ks])
            && At(r, place + ks, if value.Some? then Pad(value.value, vs) else m[place + ks..place + ks + vs])
            && At(r, place + ks + vs, Enc(ttl, TTL_BYTES)) && At(r, place + ks + vs + TTL_BYTES, [status])
  {
    hide Pad, Enc, Put, At;
    var k := if key.Some? then Pad(key.value, ks) else m[place..place + ks];
    var v := if value.Some? then Pad(value.value, vs) else m[place + ks..place + ks + vs];
    SelfAt(m, place, ks);
    SelfAt(m, place + ks, vs);
    var m1 := if key.Some? then Put(m, place, k) else m;
    if key.Some? {
      PutAt(m, place, k);
      if value.None? { PutFrame(m, place, k, place + ks, v); }
    }
    var m2 := if value.Some? then Put(m1, place + ks, v) else m1;
    if value.Some? {
      PutAt(m1, place + ks, v);
      PutFrame(m1, place + ks, v, place, k);
    }
    TailParts(m2, place, k, v, Enc(ttl, TTL_BYTES), status);
  }

  lemma SelfAt(m: seq<byte>, a: nat, n: nat)
    requires a + n <= |m|
    ensures At(m, a, m[a..a + n])
  {
  }

  lemma TailParts(m: seq<byte>, place: nat, k: seq<byte>, v: seq<byte>, t: seq<byte>, status: byte)
    requires At(m, place, k) && At(m, place + |k|, v) && |t| == TTL_BYTES
    requires place + |k| + |v| + TTL_BYTES + 1 <= |m|
    ensures var a := place + |k| + |v|;
            var r := Put(Put(m, a, t), a + TTL_BYTES, [status]);
            At(r, place, k) && At(r, place + |k|, v) && At(r, a, t) && At(r, a + TTL_BYTES, [status])
  {
    hide Put, At;
    var a := place + |k| + |v|;
    var m3 := Put(m, a, t);
    PutAt(m, a, t);
    PutFrame(m, a, t, place, k);
    PutFrame(m, a, t, place + |k|, v);
    PutAt(m3, a + TTL_BYTES, [status]);
    PutFrame(m3, a + TTL_BYTES, [status], place, k);
    PutFrame(m3, a + TTL_BYTES, [status], place + |k|, v);
    PutFrame(m3, a + TTL_BYTES, [status], a, t);
  }

  lemma EntryPutFrame(m: seq<byte>, place: nat, key: Option<Str>, value: Option<Str>, ttl: nat, status: byte,
                      ks: nat, vs: nat, b: nat, s: seq<byte>)
    requires place + ks + vs + TTL_BYTES + 1 <= |m|
    requires (key.Some? ==> |key.value| <= ks) && (value.Some? ==> |value.value| <= vs)
    requires At(m, b, s) && (b + |s| <= place || place + ks + vs + TTL_BYTES + 1 <= b)
    ensures At(EntryPut(m, place, key, value, ttl, status, ks, vs), b, s)
  {
    hide Pad, Enc, Put;
    if key.Some? { PutFrame(m, place, Pad(key.value, ks), b, s); }
    var m1 := if key.Some? then Put(m, place, Pad(key.value, ks)) else m;
    if value.Some? { PutFrame(m1, place + ks, Pad(value.value, vs), b, s); }
    var m2 := if value.Some? then Put(m1, place + ks, Pad(value.value, vs)) else m1;
    PutFrame(m2, place + ks + vs, Enc(ttl, TTL_BYTES), b, s);
    PutFrame(Put(m2, place + ks + vs, Enc(ttl, TTL_BYTES)), place + ks + vs + TTL_BYTES, [status], b, s);
  }

  /** Record p as the code sees it. */
  lemma ReadRecord(m: seq<byte>, t: Table, p: nat, ks: nat, vs: nat)
    requires TableAt(m, t, ks, vs) && p < |t|
    ensures PlaceOf(p, ks, vs) + Width(ks, vs) <= |m|
    ensures var s := Bytes(m, p, ks, vs)[ks + vs + TTL_BYTES];
            && (t[p].Free? <==> s == FREE) && (t[p].Removed? <==> s == REMOVED) && (t[p].Alive? <==> s == ALIVE)
    ensures t[p].Alive? ==>
              && Dec(Bytes(m, p, ks, vs)[ks + vs..ks + vs + TTL_BYTES]) == t[p].ttl < TTL_LIMIT
              && NulFree(t[p].key) && |t[p].key| < ks && Bytes(m, p, ks, vs)[..ks] == Pad(t[p].key, ks)
              && |t[p].value| < vs && Bytes(m, p, ks, vs)[ks..ks + vs] == Pad(t[p].value, vs)
  {
    assert RecordAt(m, p, t[p], ks, vs);
    if t[p].Alive? { TtlRoundTrip(t[p].ttl); }
  }

  /** One entry was set: memory holds the table with that record replaced. */
  lemma Replaced(m: seq<byte>, t: Table, p: nat, r: Record, key: Option<Str>, value: Option<Str>, ttl: nat, status: byte,
                 ks: nat, vs: nat)
    requires TableAt(m, t, ks, vs) && p < |t| && |t| * Width(ks, vs) <= |m|
    requires (key.Some? ==> |key.value| <= ks) && (value.Some? ==> |value.value| <= vs)
    requires PlaceOf(p, ks, vs) + Width(ks, vs) <= |m|
    requires RecordAt(EntryPut(m, PlaceOf(p, ks, vs), key, value, ttl, status, ks, vs), p, r, ks, vs)
    ensures TableAt(EntryPut(m, PlaceOf(p, ks, vs), key, value, ttl, status, ks, vs), t[p := r], ks, vs)
  {
    hide EntryPut, Encodes;
    var m' := EntryPut(m, PlaceOf(p, ks, vs), key, value, ttl, status, ks, vs);
    var t' := t[p := r];
    forall q | 0 <= q < |t'| ensures RecordAt(m', q, t'[q], ks, vs) {
      Places(p, q, |t|, Width(ks, vs));
      if q != p {
        assert RecordAt(m, q, t[q], ks, vs);
        EntryPutFrame(m, PlaceOf(p, ks, vs), key, value, ttl, status, ks, vs, PlaceOf(q, ks, vs), Bytes(m, q, ks, vs));
      }
    }
  }

  /** Setting key, value, life time and the alive status stores an alive record. */
  lemma StoredRecord(m: seq<byte>, p: nat, key: Str, value: Str, ttl: nat, ks: nat, vs: nat)
    requires PlaceOf(p, ks, vs) + Width(ks, vs) <= |m|
    requires |key| < ks && NulFree(key) && |value| < vs && NulFree(value) && ttl < TTL_LIMIT
    ensures RecordAt(EntryPut(m, PlaceOf(p, ks, vs), Some(key), Some(value), ttl, ALIVE, ks, vs), p, Alive(key, value, ttl), ks, vs)
  {
    hide EntryPut, Pad, Enc, PlaceOf;
    EntryPutParts(m, PlaceOf(p, ks, vs), Some(key), Some(value), ttl, ALIVE, ks, vs);
    Parts(EntryPut(m, PlaceOf(p, ks, vs), Some(key), Some(value), ttl, ALIVE, ks, vs), PlaceOf(p, ks, vs), Width(ks, vs),
          Pad(key, ks), Pad(value, vs), Enc(ttl, TTL_BYTES), ALIVE);
  }

  /** The fields of the w bytes at a, from the places they are stored at. */
  lemma Parts(m: seq<byte>, a: nat, w: nat, k: seq<byte>, v: seq<byte>, t: seq<byte>, status: byte)
    requires |t| == TTL_BYTES && w == |k| + |v| + TTL_BYTES + 1 && a + w <= |m|
    requires At(m, a, k) && At(m, a + |k|, v) && At(m, a + |k| + |v|, t) && At(m, a + |k| + |v| + TTL_BYTES, [status])
    ensures var e := m[a..a + w];
            && e[..|k|] == k && e[|k|..|k| + |v|] == v && e[|k| + |v|..|k| + |v| + TTL_BYTES] == t
            && e[|k| + |v| + TTL_BYTES] == status
  {
    var ks, vs := |k|, |v|;
    SubSlice(m, a, w, 0, ks);
    SubSlice(m, a, w, ks, ks + vs);
    SubSlice(m, a, w, ks + vs, ks + vs + TTL_BYTES);
    SubSlice(m, a, w, ks + vs + TTL_BYTES, w);
    assert m[a..a + w][ks + vs + TTL_BYTES..w][0] == m[a..a + w][ks + vs + TTL_BYTES];
  }

  lemma SubSlice(m: seq<byte>, a: nat, w: nat, x: nat, y: nat)
    requires a + w <= |m| && x <= y <= w
    ensures m[a..a + w][x..y] == m[a + x..a + y]
  {
    var l, r := m[a..a + w][x..y], m[a + x..a + y];
    assert |l| == |r| && forall k | 0 <= k < |l| :: l[k] == r[k];
  }

  /** Setting only life time and status keeps key and value. */
  lemma KeptAt(m: seq<byte>, a: nat, w: nat, ttl: nat, status: byte, ks: nat, vs: nat)
    requires w == Width(ks, vs) && a + w <= |m|
    ensures var o, e := m[a..a + w], EntryPut(m, a, None, None, ttl, status, ks, vs)[a..a + w];
            && e[..ks] == o[..ks] && e[ks..ks + vs] == o[ks..ks + vs]
            && e[ks + vs..ks + vs + TTL_BYTES] == Enc(ttl, TTL_BYTES) && e[ks + vs + TTL_BYTES] == status
  {
    hide EntryPut, Enc, At;
    EntryPutParts(m, a, None, None, ttl, status, ks, vs);
    SubSlice(m, a, w, 0, ks);
    SubSlice(m, a, w, ks, ks + vs);
    Parts(EntryPut(m, a, None, None, ttl, status, ks, vs), a, w, m[a..a + ks], m[a + ks..a + ks + vs], Enc(ttl, TTL_BYTES), status);
  }

  lemma KeptFields(m: seq<byte>, p: nat, ttl: nat, status: byte, ks: nat, vs: nat)
    requires PlaceOf(p, ks, vs) + Width(ks, vs) <= |m|
    ensures var o, e := Bytes(m, p, ks, vs), Bytes(EntryPut(m, PlaceOf(p, ks, vs), None, None, ttl, status, ks, vs), p, ks, vs);
            && e[..ks] == o[..ks] && e[ks..ks + vs] == o[ks..ks + vs]
            && e[ks + vs..ks + vs + TTL_BYTES] == Enc(ttl, TTL_BYTES) && e[ks + vs + TTL_BYTES] == status
  {
    hide EntryPut, Enc, PlaceOf;
    KeptAt(m, PlaceOf(p, ks, vs), Width(ks, vs), ttl, status, ks, vs);
  }

  /** That is what a collector visit does to an alive record. */
  lemma VisitedRecord(m: seq<byte>, p: nat, r: Record, ks: nat, vs: nat)
    requires RecordAt(m, p, r, ks, vs) && r.Alive?
    ensures var e := if r.ttl == 0 then EntryPut(m, PlaceOf(p, ks, vs), None, None, 0, REMOVED, ks, vs)
                     else EntryPut(m, PlaceOf(p, ks, vs), None, None, r.ttl - 1, ALIVE, ks, vs);
            RecordAt(e, p, Visit(r), ks, vs)
  {
    hide EntryPut, Enc, Bytes, Pad, PlaceOf;
    if r.ttl == 0 {
      KeptFields(m, p, 0, REMOVED, ks, vs);
    } else {
      KeptFields(m, p, r.ttl - 1, ALIVE, ks, vs);
    }
  }

  lemma AliveAt(m: seq<byte>, t: Table, p: nat, ks: nat, vs: nat)
    requires TableAt(m, t, ks, vs) && p < |t|
    ensures RecordAt(m, p, t[p], ks, vs)
  {
  }

  /** A new buffer, all zero, holds a table of free records. */
  lemma BlankHolds(m: seq<byte>, n: nat, ks: nat, vs: nat)
    requires n * Width(ks, vs) <= |m| && forall i | 0 <= i < |m| :: m[i] == 0
    ensures TableAt(m, seq(n, _ => Free), ks, vs)
  {
    forall p | 0 <= p < n ensures RecordAt(m, p, Free, ks, vs) {
      Places(p, p, n, Width(ks, vs));
    }
  }

  class HashTable {
    const data: array<byte>
    const dataSize: nat
    const nRecords: nat
    const keySize: nat
    const valueSize: nat
    const hash: Str -> nat
    ghost var table: Table

    function Stride(): nat { Width(keySize, valueSize) }

    predicate Fits() { nRecords * Stride() <= dataSize <= data.Length }

    ghost predicate Valid()
      reads this, data
    {
      Fits() && |table| == nRecords && TableAt(data[..], table, keySize, valueSize)
    }

    constructor (data: array<byte>, dataSize: nat, nRecords: nat, keySize: nat, valueSize: nat, hash: Str -> nat,
                 ghost held: Table)
      ensures this.data == data && this.dataSize == dataSize && this.nRecords == nRecords && this.keySize == keySize
              && this.valueSize == valueSize && this.hash == hash && table == held
    {
      this.data, this.dataSize, this.nRecords := data, dataSize, nRecords;
      this.keySize, this.valueSize, this.hash := keySize, valueSize, hash;
      table := held;
    }

    /** A cache over a buffer that already holds a table: refused exactly when the buffer is too small
        for the records; otherwise the table is taken over as it stands. */
    static method Create(data: array<byte>, dataSize: nat, nRecords: nat, keySize: nat, valueSize: nat, hash: Str -> nat,
                         ghost held: Table)
      returns (t: HashTable?)
      requires dataSize <= data.Length && |held| == nRecords
      requires dataSize >= nRecords * Width(keySize, valueSize) ==> TableAt(data[..], held, keySize, valueSize)
      ensures t == null <==> dataSize < nRecords * Width(keySize, valueSize)
      ensures t != null ==> fresh(t) && t.Valid() && t.table == held && t.data == data && t.hash == hash
    {
      if dataSize < nRecords * Width(keySize, valueSize) {
        return null;
      }
      t := new HashTable(data, dataSize, nRecords, keySize, valueSize, hash, held);
    }

    /** get_entry: reads the fields of record k. Its test that the place lies in the buffer at a
        record boundary never fails for a record number. */
    method GetEntry(k: nat) returns (e: Option<Entry>)
      requires Fits() && k < nRecords
      ensures PlaceOf(k, keySize, valueSize) + Stride() <= data.Length
      ensures var s := Bytes(data[..], k, keySize, valueSize);
              e == Some(Entry(PlaceOf(k, keySize, valueSize), Dec(s[keySize + valueSize..keySize + valueSize + TTL_BYTES]),
                              s[keySize + valueSize + TTL_BYTES]))
    {
      Places(k, k, nRecords, Stride());
      ModAdd(k, 0, Stride());
      var from := k * Stride();
      if from >= dataSize || from % Stride() != 0 {
        return None;
      }
      var t := from + keySize + valueSize;
      assert data[t..t + TTL_BYTES]
          == Bytes(data[..], k, keySize, valueSize)[keySize + valueSize..keySize + valueSize + TTL_BYTES];
      e := Some(Entry(from, Dec(data[t..t + TTL_BYTES]), data[t + TTL_BYTES]));
    }

    /** strncmp of the key field at a with the zero-terminated key: equal? */
    method KeyEquals(a: nat, key: Str) returns (eq: bool)
      requires a + keySize <= data.Length && |key| < keySize && NulFree(key)
      ensures eq <==> Matches(data[a..a + keySize], key)
    {
      var i := 0;
      while i < |key|
        invariant 0 <= i <= |key|
        invariant forall j | 0 <= j < i :: data[a + j] == key[j]
      {
        if data[a + i] != key[i] {
          assert data[a..a + keySize][..|key|][i] != key[i];
          return false;
        }
        i := i + 1;
      }
      assert data[a..a + keySize][..|key|] == key;
      eq := data[a + |key|] == 0;
    }

    /** Copies a string to a field of n bytes and fills the rest with zeros. */
    method StoreField(a: nat, s: Str, n: nat)
      requires |s| <= n && a + n <= data.Length
      modifies data
      ensures data[..] == Put(old(data[..]), a, Pad(s, n))
    {
      var f := Pad(s, n);
      forall i | 0 <= i < n {
        data[a + i] := f[i];
      }
    }

    method StoreBytes(a: nat, s: seq<byte>)
      requires a + |s| <= data.Length
      modifies data
      ensures data[..] == Put(old(data[..]), a, s)
    {
      forall i | 0 <= i < |s| {
        data[a + i] := s[i];
      }
    }

    /** set_entry: writes key and value when given, then life time and status. */
    method SetEntry(key: Option<Str>, value: Option<Str>, ttl: nat, status: byte, place: nat)
      requires place + Stride() <= data.Length
      requires key.Some? ==> |key.value| <= keySize
      requires value.Some? ==> |value.value| <= valueSize
      modifies data
      ensures data[..] == EntryPut(old(data[..]), place, key, value, ttl, status, keySize, valueSize)
    {
      hide Pad, Enc, Put;
      var to := place;
      if key.Some? {
        StoreField(to, key.value, keySize);
      }
      to := to + keySize;
      if value.Some? {
        StoreField(to, value.value, valueSize);
      }
      to := to + valueSize;
      StoreBytes(to, Enc(ttl, TTL_BYTES));
      to := to + TTL_BYTES;
      StoreBytes(to, [status]);
    }

    // -------------------------------------------------------------- get, set, one collector pass

    /** The test both get and set make: alive under this key. */
    method IsAliveUnder(e: Entry, key: Str, ghost p: nat) returns (b: bool)
      requires Valid() && p < nRecords && |key| < keySize && NulFree(key)
      requires e.place == PlaceOf(p, keySize, valueSize) && e.place + Stride() <= data.Length
      requires e.status == Bytes(data[..], p, keySize, valueSize)[keySize + valueSize + TTL_BYTES]
      ensures b <==> table[p].Alive? && table[p].key == key
    {
      ReadRecord(data[..], table, p, keySize, valueSize);
      b := e.status == ALIVE;
      if b {
        b := KeyEquals(e.place, key);
        assert data[e.place..e.place + keySize] == Bytes(data[..], p, keySize, valueSize)[..keySize];
        PadMatches(table[p].key, key, keySize);
      }
    }

    /** The value field of an alive record. */
    method ReadValue(e: Entry, ghost p: nat) returns (v: seq<byte>)
      requires Valid() && p < nRecords && table[p].Alive?
      requires e.place == PlaceOf(p, keySize, valueSize) && e.place + Stride() <= data.Length
      ensures |table[p].value| < valueSize && v == Pad(table[p].value, valueSize)
    {
      hide Pad, Enc, Encodes, TableAt, PlaceOf;
      ReadRecord(data[..], table, p, keySize, valueSize);
      var a := e.place + keySize;
      SubSlice(data[..], e.place, Stride(), keySize, keySize + valueSize);
      assert data[..][a..a + valueSize] == data[a..a + valueSize];
      assert data[a..a + valueSize] == Bytes(data[..], p, keySize, valueSize)[keySize..keySize + valueSize];
      v := data[a..a + valueSize];
    }

    /** get: the padded value of the table's answer. */
    method Get(key: Str) returns (r: GetResult)
      requires Valid() && NulFree(key)
      ensures |key| + 1 > keySize ==> r == GetThrow(INVALID_KEY)
      ensures |key| + 1 <= keySize ==>
                match CacheTable.Get(table, hash(key), key)
                case Found(v) => |v| < valueSize && r == Value(Pad(v, valueSize))
                case NoSuchKey => r == GetThrow(NO_SUCH_KEY)
    {
      hide Pad, Enc, Dec, Encodes, TableAt, PlaceOf, Bytes, Probe;
      if |key| + 1 > keySize {
        return GetThrow(INVALID_KEY);
      }
      var i := 0;
      while i < nRecords
        invariant 0 <= i <= nRecords
        invariant CacheTable.Get(table, hash(key), key) == GetFrom(table, hash(key), key, i)
      {
        var pos := Probe(hash(key), i, nRecords);
        var entry := GetEntry(pos);
        ReadRecord(data[..], table, pos, keySize, valueSize);
        var found := IsAliveUnder(entry.value, key, pos);
        if found {
          var value := ReadValue(entry.value, pos);
          return Value(value);
        }
        if entry.value.status == FREE {
          return GetThrow(NO_SUCH_KEY);
        }
        i := i + 1;
      }
      r := GetThrow(NO_SUCH_KEY);
    }

    /** set: None when stored, else the code thrown; a throw changes nothing. */
    method Set(key: Str, value: Str, ttl: nat) returns (r: Option<Code>)
      requires Valid() && NulFree(key) && NulFree(value) && ttl < TTL_LIMIT
      modifies this`table, data
      ensures Valid()
      ensures |key| + 1 > keySize ==> r == Some(INVALID_KEY)
      ensures |key| + 1 <= keySize && |value| + 1 > valueSize ==> r == Some(INVALID_VALUE)
      ensures |key| + 1 <= keySize && |value| + 1 <= valueSize ==>
                match CacheTable.Set(old(table), hash(key), key, value, ttl)
                case Stored(t) => r == None && table == t
                case NoFreeSpace => r == Some(NO_FREE_SPACE)
      ensures r.Some? ==> table == old(table) && data[..] == old(data[..])
    {
      hide Pad, Enc, Encodes, TableAt, EntryPut, PlaceOf;
      if |key| + 1 > keySize {
        return Some(INVALID_KEY);
      }
      if |value| + 1 > valueSize {
        return Some(INVALID_VALUE);
      }
      var i := 0;
      while i < nRecords
        invariant 0 <= i <= nRecords && Valid() && table == old(table) && data[..] == old(data[..])
        invariant SetProbe(table, hash(key), key, 0) == SetProbe(table, hash(key), key, i)
      {
        var pos := Probe(hash(key), i, nRecords);
        var entry := GetEntry(pos);
        ReadRecord(data[..], table, pos, keySize, valueSize);
        var same := IsAliveUnder(entry.value, key, pos);
        if entry.value.status == FREE || entry.value.status == REMOVED || same {
          StoredRecord(data[..], pos, key, value, ttl, keySize, valueSize);
          Replaced(data[..], table, pos, Alive(key, value, ttl), Some(key), Some(value), ttl, ALIVE, keySize, valueSize);
          SetEntry(Some(key), Some(value), ttl, ALIVE, entry.value.place);
          table := table[pos := Alive(key, value, ttl)];
          return None;
        }
        i := i + 1;
      }
      r := Some(NO_FREE_SPACE);
    }

    /** The collector at record i. */
    method VisitRecord(i: nat)
      requires Valid() && i < nRecords
      modifies this`table, data
      ensures Valid() && table == old(table)[i := Visit(old(table)[i])]
    {
      hide Pad, Enc, Encodes, TableAt, EntryPut, PlaceOf;
      var entry := GetEntry(i);
      ReadRecord(data[..], table, i, keySize, valueSize);
      var e := entry.value;
      if e.status == ALIVE {
        AliveAt(data[..], table, i, keySize, valueSize);
        VisitedRecord(data[..], i, table[i], keySize, valueSize);
        var ttl, status := if e.ttl == 0 then 0 else e.ttl - 1, if e.ttl == 0 then REMOVED else ALIVE;
        Replaced(data[..], table, i, Visit(table[i]), None, None, ttl, status, keySize, valueSize);
        SetEntry(None, None, ttl, status, e.place);
      }
      assert e.status != ALIVE ==> table[i := Visit(table[i])] == table;
      table := table[i := Visit(table[i])];
    }

    /** One pass of the collector over all records. */
    method Pass()
      requires Valid()
      modifies this`table, data
      ensures Valid() && |table| == |old(table)|
      ensures forall p | 0 <= p < |table| :: table[p] == Visit(old(table)[p])
    {
      hide TableAt;
      for i := 0 to nRecords
        invariant Valid() && |table| == |old(table)|
        invariant forall p | 0 <= p < nRecords :: table[p] == if p < i then Visit(old(table)[p]) else old(table)[p]
      {
        VisitRecord(i);
      }
    }
  }
}
