/** The stores each operation performs, in program order, and the typed heap they leave in memory. */
module HeapStores {
  import opened Collections
  import opened Words
  import opened HeapModel
  import opened Chains
  import opened HeapAlloc
  import opened HeapRealloc
  import opened HeapDefrag
  import opened HeapImage

  // ---------------------------------------------------------------- keeping apart

  /** g is h with other links, references, payloads and slot values, no block longer. */
  ghost predicate SamePlaces(h: Heap, g: Heap)
  {
    && g.base == h.base && g.size == h.size && g.beginRef == h.beginRef && g.slots.Keys == h.slots.Keys
    && |g.blocks| == |h.blocks|
    && forall i | 0 <= i < |g.blocks| :: g.blocks[i].addr == h.blocks[i].addr && g.blocks[i].End() <= h.blocks[i].End()
  }

  lemma ApartSame(h: Heap, g: Heap)
    requires Apart(h) && SamePlaces(h, g)
    ensures Apart(g)
  {
    forall i, k | 0 <= i < |g.blocks| && 0 <= k < |g.blocks| && i != k
      ensures g.blocks[i].End() <= g.blocks[k].addr || g.blocks[k].End() <= g.blocks[i].addr
    {
      assert h.blocks[i].End() <= h.blocks[k].addr || h.blocks[k].End() <= h.blocks[i].addr;
    }
    forall i | 0 <= i < |g.blocks| ensures g.Start() <= g.blocks[i].addr && g.blocks[i].End() <= g.beginRef {
      assert h.Start() <= h.blocks[i].addr;
    }
  }

  /** A slot of the table, or the word just below it, is stored. */
  lemma PutAnySlot(m: seq<byte>, h: Heap, s: nat, v: nat)
    requires Holds(m, h) && h.Start() <= s && s + SLOT <= h.Top()
    requires BlocksClear(h.blocks, s, SLOT) && SlotsClear(h.slots - {s}, s, SLOT)
    ensures Holds(Put(m, s, EncWord(v)), h.(slots := h.slots[s := v]))
  {
    var w := EncWord(v);
    KeepBlocks(m, s, w, h.blocks);
    KeepSlots(m, s, w, h.slots - {s});
    PutFrame(m, s, w, h.base, Head(h));
    PutAt(m, s, w);
    var slots' := h.slots[s := v];
    forall x | x in slots' ensures At(Put(m, s, w), x, EncWord(slots'[x])) {
      if x != s { assert x in h.slots - {s}; }
    }
  }

  lemma HoldsConcat(m: seq<byte>, l: seq<Block>, r: seq<Block>)
    ensures HoldsBlocks(m, l + r) <==> HoldsBlocks(m, l) && HoldsBlocks(m, r)
  {
    if HoldsBlocks(m, l + r) {
      forall i | 0 <= i < |l| ensures At(m, l[i].addr, Image(l[i])) { assert (l + r)[i] == l[i]; }
      forall i | 0 <= i < |r| ensures At(m, r[i].addr, Image(r[i])) { assert (l + r)[|l| + i] == r[i]; }
    }
  }

  lemma ClearConcat(l: seq<Block>, r: seq<Block>, a: nat, n: nat)
    ensures BlocksClear(l + r, a, n) <==> BlocksClear(l, a, n) && BlocksClear(r, a, n)
  {
    if BlocksClear(l + r, a, n) {
      forall i | 0 <= i < |l| ensures l[i].End() <= a || a + n <= l[i].addr { assert (l + r)[i] == l[i]; }
      forall i | 0 <= i < |r| ensures r[i].End() <= a || a + n <= r[i].addr { assert (l + r)[|l| + i] == r[i]; }
    }
  }

  lemma BlocksBelow(bs: seq<Block>, a: nat, z: nat, x: nat, n: nat)
    requires Path(bs, a, z) && z <= x
    ensures BlocksClear(bs, x, n)
  {
    forall i | 0 <= i < |bs| ensures bs[i].End() <= x { PathAt(bs, a, z, i); }
  }

  lemma BlocksAbove(bs: seq<Block>, a: nat, z: nat, x: nat, n: nat)
    requires Path(bs, a, z) && x + n <= a
    ensures BlocksClear(bs, x, n)
  {
    forall i | 0 <= i < |bs| ensures x + n <= bs[i].addr { PathAt(bs, a, z, i); }
  }

  // ---------------------------------------------------------------- alloc

  /** The stores of a new MemoryInfo. */
  function StoreInfo(m: seq<byte>, to: nat, next: nat, ref: nat, n: nat): (r: seq<byte>)
    requires to + INFO <= |m|
    ensures |r| == |m|
  {
    Put(Put(Put(m, to, EncWord(next)), to + 8, EncWord(ref)), to + 16, EncWord(n))
  }

  /** The stores that follow it: the arena header, then the slot. */
  function StoreHead(m: seq<byte>, base: nat, used: nat, dataEnd: nat, beginRef: nat): (r: seq<byte>)
    requires base + HEADER <= |m|
    ensures |r| == |m|
  {
    Put(Put(Put(m, base, EncWord(used)), base + 8, EncWord(dataEnd)), base + 16, EncWord(beginRef))
  }

  /** A new MemoryInfo in free memory describes a block whose payload is what lay there. */
  lemma StoreInfoHolds(m: seq<byte>, h: Heap, b: Block)
    requires Holds(m, h) && h.Start() <= b.addr && b.End() <= |m| && b.bytes == m[b.addr + INFO..b.End()]
    requires BlocksClear(h.blocks, b.addr, INFO) && SlotsClear(h.slots, b.addr, INFO)
    ensures var m' := StoreInfo(m, b.addr, b.next, b.ref, |b.bytes|);
            Holds(m', h) && At(m', b.addr, Image(b))
  {
    hide EncWord, Put, HoldsBlocks, HoldsSlots;
    var to, n := b.addr, EncWord(b.next);
    var m1 := Put(m, to, n);
    KeepAll(m, to, n, h);
    PutAt(m, to, n);
    assert At(m, to + 24, b.bytes);
    PutFrame(m, to, n, to + 24, b.bytes);
    var m2 := Put(m1, to + 8, EncWord(b.ref));
    KeepAll(m1, to + 8, EncWord(b.ref), h);
    PutAt(m1, to + 8, EncWord(b.ref));
    PutFrame(m1, to + 8, EncWord(b.ref), to, n);
    PutFrame(m1, to + 8, EncWord(b.ref), to + 24, b.bytes);
    KeepAll(m2, to + 16, EncWord(|b.bytes|), h);
    PutAt(m2, to + 16, EncWord(|b.bytes|));
    PutFrame(m2, to + 16, EncWord(|b.bytes|), to, n);
    PutFrame(m2, to + 16, EncWord(|b.bytes|), to + 8, EncWord(b.ref));
    PutFrame(m2, to + 16, EncWord(|b.bytes|), to + 24, b.bytes);
    ThreeWords(StoreInfo(m, to, b.next, b.ref, |b.bytes|), to, b.next, b.ref, |b.bytes|, b.bytes);
  }

  lemma StoreHeadHolds(m: seq<byte>, h: Heap, used: nat, dataEnd: nat, beginRef: nat)
    requires Holds(m, h) && h.Start() <= h.beginRef
    requires BlocksClear(h.blocks, h.base, HEADER) && SlotsClear(h.slots, h.base, HEADER)
    ensures Holds(StoreHead(m, h.base, used, dataEnd, beginRef),
                  h.(used := used, dataEnd := dataEnd, beginRef := beginRef))
  {
    hide EncWord, Put, HoldsBlocks, HoldsSlots;
    var a := h.base;
    var m1 := Put(m, a, EncWord(used));
    var m2 := Put(m1, a + 8, EncWord(dataEnd));
    var m3 := Put(m2, a + 16, EncWord(beginRef));
    KeepBlocks(m, a, EncWord(used), h.blocks);
    KeepSlots(m, a, EncWord(used), h.slots);
    PutAt(m, a, EncWord(used));
    KeepBlocks(m1, a + 8, EncWord(dataEnd), h.blocks);
    KeepSlots(m1, a + 8, EncWord(dataEnd), h.slots);
    PutAt(m1, a + 8, EncWord(dataEnd));
    PutFrame(m1, a + 8, EncWord(dataEnd), a, EncWord(used));
    KeepBlocks(m2, a + 16, EncWord(beginRef), h.blocks);
    KeepSlots(m2, a + 16, EncWord(beginRef), h.slots);
    PutAt(m2, a + 16, EncWord(beginRef));
    PutFrame(m2, a + 16, EncWord(beginRef), a, EncWord(used));
    PutFrame(m2, a + 16, EncWord(beginRef), a + 8, EncWord(dataEnd));
    ThreeWords(m3, a, used, dataEnd, beginRef, []);
    assert EncWord(used) + EncWord(dataEnd) + EncWord(beginRef) + []
        == EncWord(used) + EncWord(dataEnd) + EncWord(beginRef);
  }

  lemma SlotsAbove(h: Heap, a: nat, n: nat)
    requires Table(h) && a + n <= h.beginRef
    ensures SlotsClear(h.slots, a, n)
  {
  }

  /** A reused slot is clear of the others; a new one lies right below the table. */
  lemma RefSpaceClear(h: Heap)
    requires Table(h)
    ensures RefSpace(h) + SLOT <= h.Top() && SlotsClear(h.slots - {RefSpace(h)}, RefSpace(h), SLOT)
  {
    var r := RefSpace(h);
    if r in h.slots { assert h.IsSlot(r); }
    forall s | s in h.slots - {r} ensures s + SLOT <= r || r + SLOT <= s { assert h.IsSlot(s); }
  }

  /** The payload a block at address to would find in memory. */
  function Junk(m: seq<byte>, to: nat, n: nat): seq<byte>
    requires to + INFO + n <= |m|
  {
    m[to + INFO..to + INFO + n]
  }

  /** The stores of alloc in its first branch. */
  function FirstStores(m: seq<byte>, h: Heap, n: nat): seq<byte>
    requires Table(h) && h.Top() <= |m| && h.dataEnd + INFO <= |m| && RefSpace(h) + SLOT <= |m|
  {
    var m1 := StoreInfo(m, h.dataEnd, h.Top(), RefSpace(h), n);
    var m2 := StoreHead(m1, h.base, Add(h.used, n + INFO), h.dataEnd + n + INFO, NewBegin(h));
    Put(m2, RefSpace(h), EncWord(h.dataEnd))
  }

  /** The arena header and the slot are stored last; the blocks are in place by then. */
  lemma FinishHolds(m: seq<byte>, g: Heap, used: nat, dataEnd: nat, beginRef: nat, ref: nat, to: nat)
    requires Holds(m, g) && g.Start() <= g.beginRef && g.Start() <= ref && ref + SLOT <= g.Top()
    requires BlocksClear(g.blocks, g.base, HEADER) && SlotsClear(g.slots, g.base, HEADER)
    requires BlocksClear(g.blocks, ref, SLOT) && SlotsClear(g.slots - {ref}, ref, SLOT)
    ensures Holds(Put(StoreHead(m, g.base, used, dataEnd, beginRef), ref, EncWord(to)),
                  g.(used := used, dataEnd := dataEnd, beginRef := beginRef, slots := g.slots[ref := to]))
  {
    StoreHeadHolds(m, g, used, dataEnd, beginRef);
    PutAnySlot(StoreHead(m, g.base, used, dataEnd, beginRef),
               g.(used := used, dataEnd := dataEnd, beginRef := beginRef), ref, to);
  }

  lemma FirstHolds(m: seq<byte>, h: Heap, n: nat)
    requires Table(h) && h.blocks == [] && Holds(m, h) && h.dataEnd == h.Start()
    requires h.Start() + n + INFO <= NewBegin(h)
    ensures RefSpace(h) + SLOT <= h.Top() <= |m| && h.Start() + n + INFO <= |m|
    ensures Holds(FirstStores(m, h, n), FirstAlloc(h, Junk(m, h.Start(), n)))
  {
    hide EncWord, Put;
    RefSpaceClear(h);
    var to, ref := h.Start(), RefSpace(h);
    var b := Block(to, h.Top(), ref, Junk(m, to, n));
    SlotsAbove(h, to, INFO);
    StoreInfoHolds(m, h, b);
    var g := h.(blocks := [b]);
    assert Holds(StoreInfo(m, to, h.Top(), ref, n), g);
    SlotsAbove(h, h.base, HEADER);
    FinishHolds(StoreInfo(m, to, h.Top(), ref, n), g, Add(h.used, n + INFO), to + n + INFO, NewBegin(h), ref, to);
  }

  /** The stores of alloc behind block i. */
  function BehindStores(m: seq<byte>, h: Heap, i: nat, n: nat): seq<byte>
    requires Table(h) && h.Top() <= |m| && i < |h.blocks| && RefSpace(h) + SLOT <= |m|
    requires h.blocks[i].End() + INFO <= |m|
  {
    var to := h.blocks[i].End();
    var m1 := Put(m, h.blocks[i].addr, EncWord(to));
    var m2 := StoreInfo(m1, to, NextAddr(h, i), RefSpace(h), n);
    var m3 := StoreHead(m2, h.base, Add(h.used, n + INFO), Max(to + n + INFO, h.dataEnd), NewBegin(h));
    Put(m3, RefSpace(h), EncWord(to))
  }

  /** The chain around the gap behind block i, and what is clear of the gap. */
  lemma GapClear(h: Heap, i: nat, n: nat)
    requires Shape(h) && i < |h.blocks| && h.blocks[i].End() + n <= NextAddr(h, i)
    ensures var k, to := LiveFrom(h.blocks, i + 1), h.blocks[i].End();
            && BlocksClear(h.blocks[..i], to, n) && BlocksClear([h.blocks[i]], to, n)
            && BlocksClear(h.blocks[k..], to, n) && SlotsClear(h.slots, to, n) && h.Start() <= to
  {
    var k, to := LiveFrom(h.blocks, i + 1), h.blocks[i].End();
    GapAddresses(h, i);
    BlocksBelow(h.blocks[..i], h.Start(), h.blocks[i].addr, to, n);
    BlocksAbove(h.blocks[k..], NextAddr(h, i), if k < |h.blocks| then Last(h.blocks).next else NextAddr(h, i), to, n);
    SlotsAbove(h, to, n);
  }

  /** The link of block i is stored; the freed blocks behind it no longer count. */
  lemma LinkHolds(m: seq<byte>, h: Heap, i: nat, k: nat, to: nat)
    requires Apart(h) && Holds(m, h) && i < k <= |h.blocks|
    ensures h.blocks[i].addr + SLOT <= |m|
    ensures Holds(Put(m, h.blocks[i].addr, EncWord(to)),
                  h.(blocks := h.blocks[..i] + ([h.blocks[i].(next := to)] + h.blocks[k..])))
  {
    PutNext(m, h, i, to);
    var bs := h.blocks[i := h.blocks[i].(next := to)];
    Around(h.blocks, i, bs[i]);
    assert bs[i + 1..] == bs[i + 1..k] + bs[k..] && bs[k..] == h.blocks[k..] && bs[..i] == h.blocks[..i];
    var m1 := Put(m, h.blocks[i].addr, EncWord(to));
    HoldsConcat(m1, bs[..i], [bs[i]] + bs[i + 1..]);
    HoldsConcat(m1, [bs[i]], bs[i + 1..]);
    HoldsConcat(m1, bs[i + 1..k], bs[k..]);
    HoldsConcat(m1, [bs[i]], bs[k..]);
    HoldsConcat(m1, bs[..i], [bs[i]] + bs[k..]);
  }

  /** A MemoryInfo stored in the middle of a chain. */
  lemma InsertHolds(m: seq<byte>, h: Heap, l: seq<Block>, b: Block, new_: Block, r: seq<Block>)
    requires Holds(m, h) && h.blocks == l + ([b] + r)
    requires h.Start() <= new_.addr && new_.End() <= |m| && new_.bytes == m[new_.addr + INFO..new_.End()]
    requires BlocksClear(l, new_.addr, INFO) && BlocksClear([b], new_.addr, INFO) && BlocksClear(r, new_.addr, INFO)
    requires SlotsClear(h.slots, new_.addr, INFO)
    ensures Holds(StoreInfo(m, new_.addr, new_.next, new_.ref, |new_.bytes|), h.(blocks := l + ([b] + ([new_] + r))))
  {
    ClearConcat(l, [b] + r, new_.addr, INFO);
    ClearConcat([b], r, new_.addr, INFO);
    StoreInfoHolds(m, h, new_);
    var m2 := StoreInfo(m, new_.addr, new_.next, new_.ref, |new_.bytes|);
    HoldsConcat(m2, l, [b] + r);
    HoldsConcat(m2, [b], r);
    HoldsConcat(m2, [new_], r);
    HoldsConcat(m2, [b], [new_] + r);
    HoldsConcat(m2, l, [b] + ([new_] + r));
  }

  lemma JunkKept(m: seq<byte>, a: nat, v: nat, to: nat, n: nat)
    requires a + SLOT <= to && to + INFO + n <= |m|
    ensures Junk(Put(m, a, EncWord(v)), to, n) == Junk(m, to, n)
  {
    assert At(m, to + INFO, Junk(m, to, n));
    PutFrame(m, a, EncWord(v), to + INFO, Junk(m, to, n));
  }

  /** First part: the link of block i, then the new MemoryInfo. */
  lemma BehindBlocks(m: seq<byte>, h: Heap, i: nat, n: nat)
    requires Shape(h) && Holds(m, h) && i < |h.blocks| && h.blocks[i].End() + INFO + n <= NextAddr(h, i)
    ensures var to := h.blocks[i].End();
            to + INFO + n <= |m| &&
            Holds(StoreInfo(Put(m, h.blocks[i].addr, EncWord(to)), to, NextAddr(h, i), RefSpace(h), n),
                  h.(blocks := AllocBehind(h, i, Junk(m, to, n)).blocks))
  {
    hide EncWord, Put, At, Image, Path, HoldsBlocks, HoldsSlots, RefSpace, Apart, Chain, LiveFrom;
    var k, to, bs := LiveFrom(h.blocks, i + 1), h.blocks[i].End(), h.blocks;
    GapAddresses(h, i);
    GapClear(h, i, INFO);
    ShapeApart(h);
    LinkHolds(m, h, i, k, to);
    var junk := Junk(m, to, n);
    JunkKept(m, bs[i].addr, to, to, n);
    InsertHolds(Put(m, bs[i].addr, EncWord(to)), h.(blocks := bs[..i] + ([bs[i].(next := to)] + bs[k..])),
                bs[..i], bs[i].(next := to), Block(to, NextAddr(h, i), RefSpace(h), junk), bs[k..]);
  }

  lemma ChainClear(f: Heap, ref: nat)
    requires Shape(f) && f.beginRef <= ref
    ensures BlocksClear(f.blocks, f.base, HEADER) && BlocksClear(f.blocks, ref, SLOT)
  {
    ShapeApart(f);
  }

  /** alloc behind block i leaves the typed result in memory. */
  lemma BehindHolds(m: seq<byte>, h: Heap, i: nat, n: nat)
    requires Safe(h) && Holds(m, h) && i < |h.blocks| && n > 0
    requires Gap(h, i) >= n + INFO && h.blocks[LastKept(h, i)].End() <= NewBegin(h)
    ensures RefSpace(h) + SLOT <= h.Top() <= |m| && h.blocks[i].End() + INFO + n <= |m|
    ensures Holds(BehindStores(m, h, i, n), AllocBehind(h, i, Junk(m, h.blocks[i].End(), n)))
  {
    hide EncWord, Put, At, Image, Path, Lives, HoldsBlocks, HoldsSlots;
    var to, ref := h.blocks[i].End(), RefSpace(h);
    RefSpaceClear(h);
    GapAddresses(h, i);
    GapKept(h, i);
    BehindBlocks(m, h, i, n);
    var f := AllocBehind(h, i, Junk(m, to, n));
    AllocBehindShape(h, i, Junk(m, to, n));
    ChainClear(f, ref);
    SlotsAbove(h, h.base, HEADER);
    FinishHolds(StoreInfo(Put(m, h.blocks[i].addr, EncWord(to)), to, NextAddr(h, i), ref, n),
                h.(blocks := f.blocks), f.used, f.dataEnd, f.beginRef, ref, to);
  }

  lemma GapKept(h: Heap, i: nat)
    requires Shape(h) && i < |h.blocks| && h.blocks[LastKept(h, i)].End() <= NewBegin(h)
    ensures h.blocks[i].End() <= NewBegin(h) && h.blocks[i].End() + Gap(h, i) <= NextAddr(h, i)
  {
    GapAddresses(h, i);
  }

  // ---------------------------------------------------------------- free, realloc

  /** The stores of free: the counter, the size field, the slot. */
  function FreeStores(m: seq<byte>, h: Heap, s: nat, i: nat): (r: seq<byte>)
    requires i < |h.blocks| && h.base + HEADER <= |m| && h.blocks[i].addr + INFO <= |m| && s + SLOT <= |m|
    ensures |r| == |m|
  {
    var m1 := Put(m, h.base, EncWord(Sub(h.used, |h.blocks[i].bytes| + INFO)));
    Put(Put(m1, h.blocks[i].addr + 16, EncWord(0)), s, EncWord(0))
  }

  lemma FreeHolds(m: seq<byte>, h: Heap, s: nat, i: nat)
    requires Apart(h) && Holds(m, h) && s in h.slots && i < |h.blocks|
    ensures h.base + HEADER <= |m| && h.blocks[i].addr + INFO <= |m| && s + SLOT <= |m|
    ensures Holds(FreeStores(m, h, s, i), Release(h, s, i))
  {
    hide EncWord, Put, At, Image, HoldsBlocks, HoldsSlots, Apart;
    InBounds(m, h, s, i);
    var u := Sub(h.used, |h.blocks[i].bytes| + INFO);
    PutUsed(m, h, u);
    var m1, g1 := Put(m, h.base, EncWord(u)), h.(used := u);
    ApartSame(h, g1);
    PutSize(m1, g1, i, 0);
    assert m1[h.blocks[i].addr + INFO..h.blocks[i].addr + INFO + 0] == [];
    var g2 := g1.(blocks := g1.blocks[i := g1.blocks[i].(bytes := [])]);
    ApartSame(g1, g2);
    PutSlot(Put(m1, h.blocks[i].addr + 16, EncWord(0)), g2, s, 0);
  }

  lemma InBounds(m: seq<byte>, h: Heap, s: nat, i: nat)
    requires Apart(h) && Holds(m, h) && s in h.slots && i < |h.blocks|
    ensures h.base + HEADER <= |m| && h.blocks[i].End() <= |m| && s + SLOT <= |m|
  {
  }

  /** The new size field of a resize; the payload is what memory holds behind it. */
  lemma ResizeHolds(m: seq<byte>, h: Heap, i: nat, n: nat)
    requires Apart(h) && Holds(m, h) && i < |h.blocks| && h.blocks[i].addr + INFO + n <= |m|
    ensures Holds(Put(m, h.blocks[i].addr + 16, EncWord(n)), Resize(h, i, Junk(m, h.blocks[i].addr, n)))
  {
    PutSize(m, h, i, n);
    CarryJunk(m, h.blocks[i], n);
  }

  lemma CarryJunk(m: seq<byte>, b: Block, n: nat)
    requires At(m, b.addr, Image(b)) && b.addr + INFO + n <= |m|
    ensures Carry(b.bytes, Junk(m, b.addr, n)) == Junk(m, b.addr, n)
  {
    ThreeWords(m, b.addr, b.next, b.ref, |b.bytes|, b.bytes);
    var j := Junk(m, b.addr, n);
    forall x | 0 <= x < n ensures Carry(b.bytes, j)[x] == j[x] {
      assert x < |b.bytes| ==> m[b.addr + INFO..b.addr + INFO + |b.bytes|][x] == j[x];
    }
  }

  /** The stores of the moving part of realloc after its alloc: payload, free of the old block,
      slot s, slot t, reference of the new block. */
  function MoveStores(m: seq<byte>, g: Heap, s: nat, i: nat, t: nat, k: nat): seq<byte>
    requires i < |g.blocks| && k < |g.blocks| && g.base + HEADER <= |m| && s + SLOT <= |m| && t + SLOT <= |m|
    requires g.blocks[i].End() <= |m| && g.blocks[k].End() <= |m|
  {
    var old_, new_ := g.blocks[i], g.blocks[k];
    var m1 := Put(m, new_.addr + INFO, old_.bytes[..Min(|old_.bytes|, |new_.bytes|)]);
    var m2 := FreeStores(m1, g, s, i);
    Put(Put(Put(m2, s, EncWord(new_.addr)), t, EncWord(0)), new_.addr + 8, EncWord(s))
  }

  lemma MoveHolds(m: seq<byte>, g: Heap, s: nat, i: nat, t: nat, k: nat)
    requires Apart(g) && Holds(m, g) && s in g.slots && t in g.slots && s != t
    requires i < |g.blocks| && k < |g.blocks| && i != k
    ensures g.base + HEADER <= |m| && s + SLOT <= |m| && t + SLOT <= |m|
    ensures g.blocks[i].End() <= |m| && g.blocks[k].End() <= |m|
    ensures Holds(MoveStores(m, g, s, i, t, k), Redirect(g, s, i, t, k))
  {
    hide EncWord, Put, At, Image, HoldsBlocks, HoldsSlots, Apart, FreeStores;
    InBounds(m, g, s, i);
    InBounds(m, g, t, k);
    var old_, new_ := g.blocks[i], g.blocks[k];
    var c := Carry(old_.bytes, new_.bytes);
    var head := old_.bytes[..Min(|old_.bytes|, |new_.bytes|)];
    assert c == new_.bytes[..0] + head + new_.bytes[|head|..];
    PutBytes(m, g, k, 0, head);
    var m1, g1 := Put(m, new_.addr + INFO, head), g.(blocks := g.blocks[k := new_.(bytes := c)]);
    ApartSame(g, g1);
    FreeHolds(m1, g1, s, i);
    var m2, g2 := FreeStores(m1, g1, s, i), Release(g1, s, i);
    assert m2 == FreeStores(m1, g, s, i) by { SameFree(m1, g, g1, s, i); }
    ApartSame(g1, g2);
    SlotsHold(m2, g2, s, t, k, new_.addr);
    RedirectIs(g, s, i, t, k, c);
  }

  lemma RedirectIs(g: Heap, s: nat, i: nat, t: nat, k: nat, c: seq<byte>)
    requires i < |g.blocks| && k < |g.blocks| && i != k && c == Carry(g.blocks[i].bytes, g.blocks[k].bytes)
    ensures var g2 := Release(g.(blocks := g.blocks[k := g.blocks[k].(bytes := c)]), s, i);
            Redirect(g, s, i, t, k) == g2.(slots := g2.slots[s := g.blocks[k].addr][t := 0],
                                           blocks := g2.blocks[k := g2.blocks[k].(ref := s)])
  {
    var g2 := Release(g.(blocks := g.blocks[k := g.blocks[k].(bytes := c)]), s, i);
    assert Redirect(g, s, i, t, k).blocks == g2.blocks[k := g2.blocks[k].(ref := s)];
    assert Redirect(g, s, i, t, k).slots == g2.slots[s := g.blocks[k].addr][t := 0];
  }

  lemma SameFree(m: seq<byte>, g: Heap, h: Heap, s: nat, i: nat)
    requires i < |g.blocks| && g.base + HEADER <= |m| && g.blocks[i].addr + INFO <= |m| && s + SLOT <= |m|
    requires h.base == g.base && h.used == g.used && i < |h.blocks| && h.blocks[i] == g.blocks[i]
    ensures FreeStores(m, g, s, i) == FreeStores(m, h, s, i)
  {
  }

  /** The last three stores of a move. */
  lemma SlotsHold(m: seq<byte>, h: Heap, s: nat, t: nat, k: nat, to: nat)
    requires Apart(h) && Holds(m, h) && s in h.slots && t in h.slots && k < |h.blocks|
    ensures s + SLOT <= |m| && t + SLOT <= |m| && h.blocks[k].End() <= |m|
    ensures Holds(Put(Put(Put(m, s, EncWord(to)), t, EncWord(0)), h.blocks[k].addr + 8, EncWord(s)),
                  h.(slots := h.slots[s := to][t := 0], blocks := h.blocks[k := h.blocks[k].(ref := s)]))
  {
    hide EncWord, Put, At, Image, HoldsBlocks, HoldsSlots, Apart;
    InBounds(m, h, s, k);
    InBounds(m, h, t, k);
    PutSlot(m, h, s, to);
    var m1, g1 := Put(m, s, EncWord(to)), h.(slots := h.slots[s := to]);
    ApartSame(h, g1);
    PutSlot(m1, g1, t, 0);
    var g2 := g1.(slots := g1.slots[t := 0]);
    ApartSame(g1, g2);
    PutRef(Put(m1, t, EncWord(0)), g2, k, s);
  }

  // ---------------------------------------------------------------- defrag

  /** memmove of one block, header included, to address d. */
  function MoveDown(m: seq<byte>, b: Block, d: nat): (r: seq<byte>)
    requires b.End() <= |m| && d <= b.addr
    ensures |r| == |m|
  {
    Put(m, d, m[b.addr..b.End()])
  }

  /** Where a block that moves comes from and goes to. */
  lemma MovePlaces(h: Heap, p: nat, k: nat)
    requires Walking(h, p) && p <= k < |h.blocks|
    ensures var d, b, n := h.dataEnd, h.blocks[k], INFO + |h.blocks[k].bytes|;
            && h.Start() <= d <= b.addr && b.End() <= h.beginRef && Path(h.blocks[k + 1..], b.next, Last(h.blocks).next)
            && d + n <= b.next && Packed(h.blocks[..p], h.Start(), d)
  {
    hide Path, Lives, Tied;
    var bs, d, b := h.blocks, h.dataEnd, h.blocks[k];
    SlideCut(h, p, k);
    MoveChain(h, p, k);
    SlidePath(bs[..p], bs[p..k], b, bs[k + 1..], h.Start(), d, Last(bs).next);
    PackedAscends(bs[..p], h.Start(), d);
  }

  /** Where the parts of the chain around a block that moves lie. */
  lemma MoveClear(m: seq<byte>, h: Heap, p: nat, k: nat)
    requires Walking(h, p) && Holds(m, h) && p <= k < |h.blocks|
    ensures var d, b, n := h.dataEnd, h.blocks[k], INFO + |h.blocks[k].bytes|;
            && h.Start() <= d <= b.addr && b.End() <= |m| && At(m, b.addr, Image(b))
            && HoldsBlocks(m, h.blocks[..p]) && HoldsBlocks(m, h.blocks[k + 1..])
            && BlocksClear(h.blocks[..p], d, n) && BlocksClear(h.blocks[k + 1..], d, n) && SlotsClear(h.slots, d, n)
  {
    hide EncWord, Put, Path, Lives, HoldsSlots, Tied, Image, BlocksClear, SlotsClear, Packed, Chain, Table;
    var bs, d, b, n := h.blocks, h.dataEnd, h.blocks[k], INFO + |h.blocks[k].bytes|;
    MovePlaces(h, p, k);
    assert At(m, bs[k].addr, Image(bs[k]));
    assert HoldsBlocks(m, bs[..p]) && HoldsBlocks(m, bs[k + 1..]);
    PackedClear(bs[..p], h.Start(), d, n);
    BlocksAbove(bs[k + 1..], b.next, Last(bs).next, d, n);
    SlotsAbove(h, d, n);
    BelowTop(h);
  }

  /** The memmove of a round, with overlapping source and destination or not: the packed blocks
      before it and the blocks after it are untouched, and the moved block arrives whole. */
  lemma MoveDownHolds(m: seq<byte>, h: Heap, p: nat, k: nat)
    requires Walking(h, p) && Holds(m, h) && p <= k < |h.blocks|
    ensures h.dataEnd <= h.blocks[k].addr && h.blocks[k].End() <= |m|
    ensures Holds(MoveDown(m, h.blocks[k], h.dataEnd),
                  h.(blocks := h.blocks[..p] + ([h.blocks[k].(addr := h.dataEnd)] + h.blocks[k + 1..])))
  {
    hide EncWord, Put, Path, Lives, HoldsSlots, Tied, Walking, BlocksClear, SlotsClear, HoldsBlocks;
    var d, b, s := h.dataEnd, h.blocks[k], Image(h.blocks[k]);
    var l, r, b' := h.blocks[..p], h.blocks[k + 1..], b.(addr := d);
    MoveClear(m, h, p, k);
    assert m[b.addr..b.End()] == s;
    var m' := Put(m, d, s);
    KeepBlocks(m, d, s, l);
    KeepBlocks(m, d, s, r);
    KeepSlots(m, d, s, h.slots);
    PutFrame(m, d, s, h.base, Head(h));
    PutAt(m, d, s);
    OneHeld(m', b');
    HoldsConcat(m', [b'], r);
    HoldsConcat(m', l, [b'] + r);
  }

  lemma BelowTop(h: Heap)
    requires Shape(h)
    ensures h.beginRef <= h.Top()
  {
  }

  lemma OneHeld(m: seq<byte>, b: Block)
    requires At(m, b.addr, Image(b))
    ensures HoldsBlocks(m, [b])
  {
  }

  lemma {:induction false} PackedClear(l: seq<Block>, a: nat, d: nat, n: nat)
    requires Packed(l, a, d)
    ensures forall i | 0 <= i < |l| :: l[i].End() <= d
    ensures BlocksClear(l, d, n)
  {
    if l != [] {
      PackedAscends(l[1..], l[0].End(), d);
      PackedClear(l[1..], l[0].End(), d, n);
      forall i | 0 <= i < |l| ensures l[i].End() <= d { if i > 0 { assert l[i] == l[1..][i - 1]; } }
    }
  }

  /** The stores of a round that moves: memmove, slot, predecessor's link, data_end. */
  function RoundStores(m: seq<byte>, h: Heap, p: nat, k: nat): (r: seq<byte>)
    requires p <= k < |h.blocks| && h.blocks[k].End() <= |m| && h.dataEnd <= h.blocks[k].addr
    requires h.base + HEADER <= |m| && h.blocks[k].ref + SLOT <= |m| && (p > 0 ==> h.blocks[p - 1].addr + SLOT <= |m|)
  {
    var m1 := Put(MoveDown(m, h.blocks[k], h.dataEnd), h.blocks[k].ref, EncWord(h.dataEnd));
    var m2 := if p == 0 then m1 else Put(m1, h.blocks[p - 1].addr, EncWord(h.dataEnd));
    Put(m2, h.base + 8, EncWord(h.dataEnd + INFO + |h.blocks[k].bytes|))
  }

  lemma RoundBounds(m: seq<byte>, h: Heap, p: nat, k: nat)
    requires Shape(h) && Holds(m, h) && p <= k < |h.blocks| && h.blocks[k].ref in h.slots
    ensures Apart(h) && h.blocks[k].End() <= |m| && h.base + HEADER <= |m|
    ensures h.blocks[k].ref + SLOT <= |m| && (p > 0 ==> h.blocks[p - 1].addr + SLOT <= |m|)
  {
    ShapeApart(h);
    InBounds(m, h, h.blocks[k].ref, k);
    if p > 0 { InBounds(m, h, h.blocks[k].ref, p - 1); }
  }

  /** The memmove and the slot store of a round. */
  lemma RoundBegins(m: seq<byte>, h: Heap, p: nat, k: nat)
    requires Walking(h, p) && Holds(m, h) && p <= k < |h.blocks| && h.blocks[k].Live()
    requires h.blocks[k].addr != h.dataEnd && h.blocks[k].ref in h.slots
    ensures h.dataEnd <= h.blocks[k].addr && h.blocks[k].End() <= |m|
    ensures h.blocks[k].ref + SLOT <= |m|
    ensures var f, b' := Slide(h, p, k), h.blocks[k].(addr := h.dataEnd);
            var g := h.(blocks := h.blocks[..p] + ([b'] + h.blocks[k + 1..]), slots := f.slots);
            Apart(f) && Holds(Put(MoveDown(m, h.blocks[k], h.dataEnd), b'.ref, EncWord(h.dataEnd)), g)
  {
    hide EncWord, Put, At, Image, HoldsBlocks, HoldsSlots, Apart, MoveDown, Packed, Path, Lives, Table, Tied, Relink, Holds;
    RoundBounds(m, h, p, k);
    MoveDownHolds(m, h, p, k);
    var b', f := h.blocks[k].(addr := h.dataEnd), Slide(h, p, k);
    MoveShape(h, p, k);
    ShapeApart(f);
    var g := h.(blocks := h.blocks[..p] + ([b'] + h.blocks[k + 1..]));
    RoundPlaces(h, p, k);
    ApartSame(f, g);
    PutSlot(MoveDown(m, h.blocks[k], h.dataEnd), g, b'.ref, h.dataEnd);
  }

  /** One whole round leaves its typed result in memory. */
  lemma RoundHolds(m: seq<byte>, h: Heap, p: nat, k: nat)
    requires Walking(h, p) && Holds(m, h) && p <= k < |h.blocks| && h.blocks[k].Live()
    requires h.blocks[k].addr != h.dataEnd && h.blocks[k].ref in h.slots
    ensures h.dataEnd <= h.blocks[k].addr && h.blocks[k].End() <= |m| && h.base + HEADER <= |m|
    ensures h.blocks[k].ref + SLOT <= |m| && (p > 0 ==> h.blocks[p - 1].addr + SLOT <= |m|)
    ensures Holds(RoundStores(m, h, p, k), Slide(h, p, k))
  {
    hide EncWord, Put, At, Image, HoldsBlocks, HoldsSlots, Apart, MoveDown, Packed, Path, Lives, Table, Tied, Relink, Holds;
    RoundBounds(m, h, p, k);
    RoundBegins(m, h, p, k);
    RoundPlaces(h, p, k);
    hide Walking, Shape;
    var d, b', f := h.dataEnd, h.blocks[k].(addr := h.dataEnd), Slide(h, p, k);
    var g := h.(blocks := h.blocks[..p] + ([b'] + h.blocks[k + 1..]), slots := f.slots);
    RoundEnds(Put(MoveDown(m, h.blocks[k], d), b'.ref, EncWord(d)), g, f, p, b'.End());
  }

  /** The last stores of a round: the predecessor's link, if there is one, and data_end. */
  lemma RoundEnds(m: seq<byte>, g: Heap, f: Heap, p: nat, e: nat)
    requires Apart(f) && SamePlaces(f, g) && Holds(m, g) && p <= |g.blocks|
    requires f == g.(dataEnd := e, blocks := f.blocks)
    requires if p == 0 then f.blocks == g.blocks else f.blocks == g.blocks[p - 1 := g.blocks[p - 1].(next := g.dataEnd)]
    requires (p > 0 ==> g.blocks[p - 1].addr + SLOT <= |m|) && g.base + HEADER <= |m|
    ensures var m' := if p == 0 then m else Put(m, g.blocks[p - 1].addr, EncWord(g.dataEnd));
            Holds(Put(m', g.base + 8, EncWord(e)), f)
  {
    hide EncWord, Put, Image, HoldsBlocks, HoldsSlots, Apart;
    ApartSame(f, g);
    if p > 0 { PutNext(m, g, p - 1, g.dataEnd); }
    var m' := if p == 0 then m else Put(m, g.blocks[p - 1].addr, EncWord(g.dataEnd));
    var g' := g.(blocks := f.blocks);
    ApartSame(f, g');
    PutHeadWord(m', g', 1, e);
  }

  lemma RoundPlaces(h: Heap, p: nat, k: nat)
    requires p <= k < |h.blocks| && h.blocks[k].addr != h.dataEnd && h.blocks[k].ref in h.slots
    ensures var f, b' := Slide(h, p, k), h.blocks[k].(addr := h.dataEnd);
            var bs := h.blocks[..p] + ([b'] + h.blocks[k + 1..]);
            && SamePlaces(f, h.(blocks := bs)) && SamePlaces(f, h.(blocks := bs, slots := f.slots))
            && (if p == 0 then f.blocks == bs else f.blocks == bs[p - 1 := bs[p - 1].(next := h.dataEnd)])
  {
    var f, b' := Slide(h, p, k), h.blocks[k].(addr := h.dataEnd);
    var bs := h.blocks[..p] + ([b'] + h.blocks[k + 1..]);
    if p > 0 {
      assert h.blocks[..p][..p - 1] == h.blocks[..p - 1] && Last(h.blocks[..p]) == h.blocks[p - 1];
    }
  }
}
