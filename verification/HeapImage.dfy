/** How a typed heap lies in memory, and what single word stores do to that picture. */
module HeapImage {
  import opened Collections
  import opened Words
  import opened HeapModel
  import opened Chains

  /** MemoryInfo and payload of one block. */
  function Image(b: Block): (s: seq<byte>)
    ensures |s| == INFO + |b.bytes|
  {
    EncWord(b.next) + EncWord(b.ref) + EncWord(|b.bytes|) + b.bytes
  }

  /** GeneralMemoryInfo. */
  function Head(h: Heap): (s: seq<byte>)
    ensures |s| == HEADER
  {
    EncWord(h.used) + EncWord(h.dataEnd) + EncWord(h.beginRef)
  }

  predicate HoldsBlocks(m: seq<byte>, bs: seq<Block>)
  {
    forall i | 0 <= i < |bs| :: At(m, bs[i].addr, Image(bs[i]))
  }

  predicate HoldsSlots(m: seq<byte>, slots: map<nat, nat>)
  {
    forall s | s in slots :: At(m, s, EncWord(slots[s]))
  }

  /** Memory m holds the heap h. */
  predicate Holds(m: seq<byte>, h: Heap)
  {
    h.Top() <= |m| && At(m, h.base, Head(h)) && HoldsBlocks(m, h.blocks) && HoldsSlots(m, h.slots)
  }

  // ---------------------------------------------------------------- reading

  /** The three words of a record of three words. */
  lemma ThreeWords(m: seq<byte>, a: nat, x: nat, y: nat, z: nat, rest: seq<byte>)
    ensures At(m, a, EncWord(x) + EncWord(y) + EncWord(z) + rest)
       <==> At(m, a, EncWord(x)) && At(m, a + 8, EncWord(y)) && At(m, a + 16, EncWord(z)) && At(m, a + 24, rest)
  {
    AtSplit(m, a, EncWord(x) + EncWord(y) + EncWord(z), rest);
    AtSplit(m, a, EncWord(x) + EncWord(y), EncWord(z));
    AtSplit(m, a, EncWord(x), EncWord(y));
  }

  lemma ReadHead(m: seq<byte>, h: Heap)
    requires At(m, h.base, Head(h)) && h.used < WORD && h.dataEnd < WORD && h.beginRef < WORD
    ensures h.base + HEADER <= |m|
    ensures Word(m, h.base) == h.used && Word(m, h.base + 8) == h.dataEnd && Word(m, h.base + 16) == h.beginRef
  {
    assert Head(h) == EncWord(h.used) + EncWord(h.dataEnd) + EncWord(h.beginRef) + [];
    ThreeWords(m, h.base, h.used, h.dataEnd, h.beginRef, []);
    AtWord(m, h.base, h.used);
    AtWord(m, h.base + 8, h.dataEnd);
    AtWord(m, h.base + 16, h.beginRef);
  }

  lemma ReadBlock(m: seq<byte>, b: Block)
    requires At(m, b.addr, Image(b)) && b.next < WORD && |b.bytes| < WORD
    ensures b.End() <= |m| && m[b.addr + INFO..b.End()] == b.bytes
    ensures Word(m, b.addr) == b.next && Word(m, b.addr + 16) == |b.bytes|
    ensures b.ref < WORD ==> Word(m, b.addr + 8) == b.ref
  {
    ThreeWords(m, b.addr, b.next, b.ref, |b.bytes|, b.bytes);
    AtWord(m, b.addr, b.next);
    if b.ref < WORD { AtWord(m, b.addr + 8, b.ref); }
    AtWord(m, b.addr + 16, |b.bytes|);
  }

  // ---------------------------------------------------------------- what a store leaves alone

  predicate BlocksClear(bs: seq<Block>, a: nat, n: nat)
  {
    forall i | 0 <= i < |bs| :: bs[i].End() <= a || a + n <= bs[i].addr
  }

  predicate SlotsClear(slots: map<nat, nat>, a: nat, n: nat)
  {
    forall s | s in slots :: s + SLOT <= a || a + n <= s
  }

  lemma KeepBlocks(m: seq<byte>, a: nat, s: seq<byte>, bs: seq<Block>)
    requires a + |s| <= |m| && HoldsBlocks(m, bs) && BlocksClear(bs, a, |s|)
    ensures HoldsBlocks(Put(m, a, s), bs)
  {
    forall i | 0 <= i < |bs| ensures At(Put(m, a, s), bs[i].addr, Image(bs[i])) {
      PutFrame(m, a, s, bs[i].addr, Image(bs[i]));
    }
  }

  lemma KeepSlots(m: seq<byte>, a: nat, s: seq<byte>, slots: map<nat, nat>)
    requires a + |s| <= |m| && HoldsSlots(m, slots) && SlotsClear(slots, a, |s|)
    ensures HoldsSlots(Put(m, a, s), slots)
  {
    forall x | x in slots ensures At(Put(m, a, s), x, EncWord(slots[x])) {
      PutFrame(m, a, s, x, EncWord(slots[x]));
    }
  }

  /** A store into memory no part of the heap uses. */
  lemma KeepAll(m: seq<byte>, a: nat, s: seq<byte>, h: Heap)
    requires a + |s| <= |m| && Holds(m, h)
    requires h.Start() <= a && BlocksClear(h.blocks, a, |s|) && SlotsClear(h.slots, a, |s|)
    ensures Holds(Put(m, a, s), h)
  {
    KeepBlocks(m, a, s, h.blocks);
    KeepSlots(m, a, s, h.slots);
    PutFrame(m, a, s, h.base, Head(h));
  }

  // ---------------------------------------------------------------- what a store changes

  /** The parts of the heap keep clear of each other. */
  ghost predicate Apart(h: Heap)
  {
    && h.Start() <= h.beginRef
    && (forall i | 0 <= i < |h.blocks| :: h.Start() <= h.blocks[i].addr && h.blocks[i].End() <= h.beginRef)
    && (forall i, k | 0 <= i < |h.blocks| && 0 <= k < |h.blocks| && i != k ::
          h.blocks[i].End() <= h.blocks[k].addr || h.blocks[k].End() <= h.blocks[i].addr)
    && (forall s | s in h.slots :: h.beginRef <= s && s + SLOT <= h.Top())
    && (forall s, t | s in h.slots && t in h.slots && s != t :: s + SLOT <= t || t + SLOT <= s)
  }

  lemma ShapeApart(h: Heap)
    requires Shape(h)
    ensures Apart(h)
  {
    var z := if h.blocks == [] then 0 else Last(h.blocks).next;
    forall i | 0 <= i < |h.blocks|
      ensures h.Start() <= h.blocks[i].addr && h.blocks[i].End() <= h.beginRef
    {
      PathAt(h.blocks, h.Start(), z, i);
      if i < |h.blocks| - 1 { PathApart(h.blocks, h.Start(), z, i, |h.blocks| - 1); }
    }
    forall i, k | 0 <= i < |h.blocks| && 0 <= k < |h.blocks| && i != k
      ensures h.blocks[i].End() <= h.blocks[k].addr || h.blocks[k].End() <= h.blocks[i].addr
    {
      if i < k { PathApart(h.blocks, h.Start(), z, i, k); } else { PathApart(h.blocks, h.Start(), z, k, i); }
    }
    forall s | s in h.slots ensures s + SLOT <= h.Top() { assert h.IsSlot(s); }
    forall s, t | s in h.slots && t in h.slots && s != t ensures s + SLOT <= t || t + SLOT <= s {
      assert h.IsSlot(s) && h.IsSlot(t);
    }
  }

  lemma PutUsed(m: seq<byte>, h: Heap, v: nat)
    requires Holds(m, h) && Apart(h)
    ensures Holds(Put(m, h.base, EncWord(v)), h.(used := v))
  {
    PutHeadWord(m, h, 0, v);
  }

  /** Storing word k of the arena header. */
  function WithWord(h: Heap, k: nat, v: nat): Heap
  {
    if k == 0 then h.(used := v) else if k == 1 then h.(dataEnd := v) else h.(beginRef := v)
  }

  lemma PutHeadWord(m: seq<byte>, h: Heap, k: nat, v: nat)
    requires Holds(m, h) && Apart(h) && k < 3
    ensures Holds(Put(m, h.base + 8 * k, EncWord(v)), WithWord(h, k, v))
  {
    var a, s, g := h.base + 8 * k, EncWord(v), WithWord(h, k, v);
    KeepBlocks(m, a, s, h.blocks);
    KeepSlots(m, a, s, h.slots);
    assert Head(h) == EncWord(h.used) + EncWord(h.dataEnd) + EncWord(h.beginRef) + [];
    ThreeWords(m, h.base, h.used, h.dataEnd, h.beginRef, []);
    var m' := Put(m, a, s);
    PutAt(m, a, s);
    if k != 0 { PutFrame(m, a, s, h.base, EncWord(h.used)); }
    if k != 1 { PutFrame(m, a, s, h.base + 8, EncWord(h.dataEnd)); }
    if k != 2 { PutFrame(m, a, s, h.base + 16, EncWord(h.beginRef)); }
    ThreeWords(m', h.base, g.used, g.dataEnd, g.beginRef, []);
    assert Head(g) == EncWord(g.used) + EncWord(g.dataEnd) + EncWord(g.beginRef) + [];
  }

  /** Storing a slot. */
  lemma PutSlot(m: seq<byte>, h: Heap, s: nat, v: nat)
    requires Holds(m, h) && Apart(h) && s in h.slots
    ensures Holds(Put(m, s, EncWord(v)), h.(slots := h.slots[s := v]))
  {
    var w := EncWord(v);
    KeepBlocks(m, s, w, h.blocks);
    PutFrame(m, s, w, h.base, Head(h));
    PutAt(m, s, w);
    var slots' := h.slots[s := v];
    forall x | x in slots' ensures At(Put(m, s, w), x, EncWord(slots'[x])) {
      if x != s { PutFrame(m, s, w, x, EncWord(h.slots[x])); }
    }
  }

  /** Storing inside block i turns it into the block b, if memory then holds b. */
  lemma PutBlock(m: seq<byte>, h: Heap, i: nat, a: nat, s: seq<byte>, b: Block)
    requires Holds(m, h) && Apart(h) && i < |h.blocks|
    requires h.blocks[i].addr <= a && a + |s| <= h.blocks[i].End() && a + |s| <= |m|
    requires At(Put(m, a, s), b.addr, Image(b))
    ensures Holds(Put(m, a, s), h.(blocks := h.blocks[i := b]))
  {
    PutFrame(m, a, s, h.base, Head(h));
    KeepSlots(m, a, s, h.slots);
    forall k | 0 <= k < |h.blocks| && k != i ensures At(Put(m, a, s), h.blocks[k].addr, Image(h.blocks[k])) {
      PutFrame(m, a, s, h.blocks[k].addr, Image(h.blocks[k]));
    }
  }

  lemma BlockNext(m: seq<byte>, b: Block, v: nat)
    requires At(m, b.addr, Image(b))
    ensures b.addr + INFO <= |m| && At(Put(m, b.addr, EncWord(v)), b.addr, Image(b.(next := v)))
  {
    hide EncWord, Put;
    var a, w := b.addr, EncWord(v);
    ThreeWords(m, a, b.next, b.ref, |b.bytes|, b.bytes);
    PutAt(m, a, w);
    PutFrame(m, a, w, a + 8, EncWord(b.ref));
    PutFrame(m, a, w, a + 16, EncWord(|b.bytes|));
    PutFrame(m, a, w, a + 24, b.bytes);
    ThreeWords(Put(m, a, w), a, v, b.ref, |b.bytes|, b.bytes);
  }

  lemma BlockRef(m: seq<byte>, b: Block, v: nat)
    requires At(m, b.addr, Image(b))
    ensures b.addr + INFO <= |m| && At(Put(m, b.addr + 8, EncWord(v)), b.addr, Image(b.(ref := v)))
  {
    hide EncWord, Put;
    var a, w := b.addr, EncWord(v);
    ThreeWords(m, a, b.next, b.ref, |b.bytes|, b.bytes);
    PutAt(m, a + 8, w);
    PutFrame(m, a + 8, w, a, EncWord(b.next));
    PutFrame(m, a + 8, w, a + 16, EncWord(|b.bytes|));
    PutFrame(m, a + 8, w, a + 24, b.bytes);
    ThreeWords(Put(m, a + 8, w), a, b.next, v, |b.bytes|, b.bytes);
  }

  /** Storing the next field. */
  lemma PutNext(m: seq<byte>, h: Heap, i: nat, v: nat)
    requires Holds(m, h) && Apart(h) && i < |h.blocks|
    ensures Holds(Put(m, h.blocks[i].addr, EncWord(v)), h.(blocks := h.blocks[i := h.blocks[i].(next := v)]))
  {
    hide EncWord, Put, Image, At, Apart;
    var b := h.blocks[i];
    assert At(m, b.addr, Image(b));
    BlockNext(m, b, v);
    PutBlock(m, h, i, b.addr, EncWord(v), b.(next := v));
  }

  /** Storing the reference field. */
  lemma PutRef(m: seq<byte>, h: Heap, i: nat, v: nat)
    requires Holds(m, h) && Apart(h) && i < |h.blocks|
    ensures Holds(Put(m, h.blocks[i].addr + 8, EncWord(v)), h.(blocks := h.blocks[i := h.blocks[i].(ref := v)]))
  {
    hide EncWord, Put, Image, At, Apart;
    var b := h.blocks[i];
    assert At(m, b.addr, Image(b));
    BlockRef(m, b, v);
    PutBlock(m, h, i, b.addr + 8, EncWord(v), b.(ref := v));
  }

  lemma BlockSize(m: seq<byte>, b: Block, n: nat)
    requires At(m, b.addr, Image(b)) && b.addr + INFO + n <= |m|
    ensures At(Put(m, b.addr + 16, EncWord(n)), b.addr, Image(b.(bytes := m[b.addr + INFO..b.addr + INFO + n])))
  {
    var a, w := b.addr, EncWord(n);
    var bytes := m[a + INFO..a + INFO + n];
    ThreeWords(m, a, b.next, b.ref, |b.bytes|, b.bytes);
    PutAt(m, a + 16, w);
    PutFrame(m, a + 16, w, a, EncWord(b.next));
    PutFrame(m, a + 16, w, a + 8, EncWord(b.ref));
    assert At(m, a + INFO, bytes);
    PutFrame(m, a + 16, w, a + 24, bytes);
    ThreeWords(Put(m, a + 16, w), a, b.next, b.ref, n, bytes);
  }

  /** Storing the size field: the payload becomes the n bytes that follow the header in memory. */
  lemma PutSize(m: seq<byte>, h: Heap, i: nat, n: nat)
    requires Holds(m, h) && Apart(h) && i < |h.blocks| && h.blocks[i].addr + INFO + n <= |m|
    ensures var a := h.blocks[i].addr;
            Holds(Put(m, a + 16, EncWord(n)), h.(blocks := h.blocks[i := h.blocks[i].(bytes := m[a + INFO..a + INFO + n])]))
  {
    hide EncWord, Put, Image;
    var b := h.blocks[i];
    BlockSize(m, b, n);
    PutBlock(m, h, i, b.addr + 16, EncWord(n), b.(bytes := m[b.addr + INFO..b.addr + INFO + n]));
  }

  lemma PutMiddle(m: seq<byte>, a: nat, t: seq<byte>, k: nat, s: seq<byte>)
    requires At(m, a, t) && k + |s| <= |t|
    ensures At(Put(m, a + k, s), a, t[..k] + s + t[k + |s|..])
  {
    var l, mid, r := t[..k], t[k..k + |s|], t[k + |s|..];
    assert t == l + mid + r;
    AtSplit(m, a, l + mid, r);
    AtSplit(m, a, l, mid);
    var m' := Put(m, a + k, s);
    PutAt(m, a + k, s);
    PutFrame(m, a + k, s, a, l);
    PutFrame(m, a + k, s, a + k + |s|, r);
    AtSplit(m', a, l, s);
    AtSplit(m', a, l + s, r);
  }

  lemma BlockBytes(m: seq<byte>, b: Block, k: nat, s: seq<byte>)
    requires At(m, b.addr, Image(b)) && k + |s| <= |b.bytes|
    ensures b.End() <= |m|
    ensures At(Put(m, b.addr + INFO + k, s), b.addr, Image(b.(bytes := b.bytes[..k] + s + b.bytes[k + |s|..])))
  {
    hide EncWord, Put;
    var a := b.addr;
    var p := a + INFO + k;
    var bytes := b.bytes[..k] + s + b.bytes[k + |s|..];
    ThreeWords(m, a, b.next, b.ref, |b.bytes|, b.bytes);
    PutFrame(m, p, s, a, EncWord(b.next));
    PutFrame(m, p, s, a + 8, EncWord(b.ref));
    PutFrame(m, p, s, a + 16, EncWord(|b.bytes|));
    PutMiddle(m, a + INFO, b.bytes, k, s);
    assert |bytes| == |b.bytes|;
    ThreeWords(Put(m, p, s), a, b.next, b.ref, |b.bytes|, bytes);
  }

  /** Storing payload bytes. */
  lemma PutBytes(m: seq<byte>, h: Heap, i: nat, k: nat, s: seq<byte>)
    requires Holds(m, h) && Apart(h) && i < |h.blocks| && k + |s| <= |h.blocks[i].bytes|
    ensures var b := h.blocks[i];
            b.End() <= |m| &&
            Holds(Put(m, b.addr + INFO + k, s),
                  h.(blocks := h.blocks[i := b.(bytes := b.bytes[..k] + s + b.bytes[k + |s|..])]))
  {
    var b := h.blocks[i];
    BlockBytes(m, b, k, s);
    PutBlock(m, h, i, b.addr + INFO + k, s, b.(bytes := b.bytes[..k] + s + b.bytes[k + |s|..]));
  }
}
