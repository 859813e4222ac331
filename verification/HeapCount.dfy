/** The counter of allocated memory, and what fits after a compaction. */
module HeapCount {
  import opened Collections
  import opened Words
  import opened HeapModel
  import opened Chains
  import opened HeapAlloc
  import opened HeapRealloc
  import opened HeapDefrag
  import opened HeapCompact

  /** Memory the live blocks take, headers included. */
  function Sum(bs: seq<Block>): nat
  {
    if bs == [] then 0 else (if bs[0].Live() then INFO + |bs[0].bytes| else 0) + Sum(bs[1..])
  }

  /** The counter is exact: the arena header and every live block with its own header. */
  predicate Counted(h: Heap) { h.used == HEADER + Sum(h.blocks) }

  lemma {:induction false} SumConcat(l: seq<Block>, r: seq<Block>)
    ensures Sum(l + r) == Sum(l) + Sum(r)
  {
    if l == [] {
      assert l + r == r;
    } else {
      assert (l + r)[1..] == l[1..] + r;
      SumConcat(l[1..], r);
    }
  }

  lemma {:induction false} SumDead(bs: seq<Block>)
    requires forall i | 0 <= i < |bs| :: !bs[i].Live()
    ensures Sum(bs) == 0
  {
    if bs != [] { SumDead(bs[1..]); }
  }

  lemma SumOne(b: Block)
    ensures Sum([b]) == if b.Live() then INFO + |b.bytes| else 0
  {
    assert [b][1..] == [];
  }

  lemma SumAround(bs: seq<Block>, i: nat, b: Block)
    requires i < |bs|
    ensures Sum(bs[i := b]) == Sum(bs) - Sum([bs[i]]) + Sum([b])
  {
    Around(bs, i, b);
    Around(bs, i, bs[i]);
    assert bs[i := bs[i]] == bs;
    SumConcat(bs[..i], [b] + bs[i + 1..]);
    SumConcat([b], bs[i + 1..]);
    SumConcat(bs[..i], [bs[i]] + bs[i + 1..]);
    SumConcat([bs[i]], bs[i + 1..]);
  }

  lemma SumPieces(l: seq<Block>, b: Block, dead: seq<Block>, new_: Block, r: seq<Block>, b': Block)
    requires forall j | 0 <= j < |dead| :: !dead[j].Live()
    requires b'.bytes == b.bytes && new_.Live()
    ensures Sum(l + ([b'] + ([new_] + r))) == Sum(l + ([b] + (dead + r))) + INFO + |new_.bytes|
  {
    SumConcat(l, [b'] + ([new_] + r));
    SumConcat([b'], [new_] + r);
    SumConcat([new_], r);
    SumConcat(l, [b] + (dead + r));
    SumConcat([b], dead + r);
    SumConcat(dead, r);
    SumDead(dead);
    SumOne(b);
    SumOne(b');
    SumOne(new_);
  }

  /** The live blocks of a path fit between its start and the end of its last block. */
  lemma {:induction false} SumBound(bs: seq<Block>, a: nat, z: nat)
    requires Path(bs, a, z) && bs != []
    ensures a + Sum(bs) <= Last(bs).End()
  {
    if |bs| == 1 {
      assert bs[1..] == [];
    } else {
      SumBound(bs[1..], bs[0].next, z);
    }
  }

  lemma CountedBound(h: Heap)
    requires Safe(h) && Counted(h)
    ensures h.base + h.used <= h.beginRef
  {
    if h.blocks != [] { SumBound(h.blocks, h.Start(), Last(h.blocks).next); }
  }

  lemma AllocBehindSum(h: Heap, i: nat, junk: seq<byte>)
    requires Table(h) && i < |h.blocks| && junk != []
    ensures Sum(AllocBehind(h, i, junk).blocks) == Sum(h.blocks) + INFO + |junk|
  {
    var k, bs := LiveFrom(h.blocks, i + 1), h.blocks;
    Cut(bs, i, k);
    SumPieces(bs[..i], bs[i], bs[i + 1..k], Block(bs[i].End(), NextAddr(h, i), RefSpace(h), junk), bs[k..],
              bs[i].(next := bs[i].End()));
  }

  /** A good alloc keeps the count exact. */
  lemma AllocCounted(h: Heap, junk: seq<byte>)
    requires Safe(h) && Counted(h) && GoodAlloc(h, |junk|) && Alloc(h, junk).Done?
    ensures Counted(Alloc(h, junk).heap)
  {
    CountedBound(h);
    if h.dataEnd == h.Start() {
      SumOne(FirstAlloc(h, junk).blocks[0]);
    } else {
      AllocBehindSum(h, FirstFit(h, |junk| + INFO, 0), junk);
    }
  }

  /** free keeps the count exact and never takes it below the arena header. */
  lemma FreeCounted(h: Heap, s: nat)
    requires Safe(h) && Counted(h) && s in Store(h)
    ensures Counted(Free(h, s).heap)
    ensures h.used >= HEADER + INFO + |Store(h)[s]|
  {
    var i := BlockOf(h, s);
    var b := h.blocks[i].(bytes := []);
    SumAround(h.blocks, i, b);
    SumOne(b);
    SumOne(h.blocks[i]);
  }

  /** A realloc that moves keeps the count exact; one that resizes in place does so exactly when
      the size does not change, because it leaves the counter alone. */
  lemma ReallocCounted(h: Heap, s: nat, junk: seq<byte>)
    requires Safe(h) && Counted(h) && s in Store(h) && GoodRealloc(h, s, junk) && Realloc(h, s, junk).Done?
    ensures Counted(Realloc(h, s, junk).heap)
        <==> (FitsInPlace(h, BlockOf(h, s), |junk|) ==> |junk| == |Store(h)[s]|)
  {
    var i := BlockOf(h, s);
    if FitsInPlace(h, i, |junk|) {
      var b := h.blocks[i].(bytes := Carry(h.blocks[i].bytes, junk));
      SumAround(h.blocks, i, b);
      SumOne(b);
      SumOne(h.blocks[i]);
    } else {
      AllocSound(h, junk);
      AllocCounted(h, junk);
      var g, t := Alloc(h, junk).heap, Alloc(h, junk).slot;
      StoreAgrees(h, g, s);
      RedirectCounted(g, s, BlockOf(g, s), t, BlockOf(g, t));
    }
  }

  lemma RedirectCounted(g: Heap, s: nat, i: nat, t: nat, k: nat)
    requires Counted(g) && g.used < WORD && i < |g.blocks| && k < |g.blocks| && i != k
    requires g.blocks[i].Live() && g.blocks[k].Live()
    ensures Counted(Redirect(g, s, i, t, k))
  {
    var moved := g.blocks[k].(ref := s, bytes := Carry(g.blocks[i].bytes, g.blocks[k].bytes));
    var dead := g.blocks[i].(bytes := []);
    SumAround(g.blocks, i, dead);
    SumAround(g.blocks, k, moved);
    SumAround(g.blocks[k := moved], i, dead);
    SumOne(g.blocks[i]);
    SumOne(dead);
    SumOne(g.blocks[k]);
    SumOne(moved);
  }

  function Total(order: seq<Payload>): nat
  {
    if order == [] then 0 else INFO + |order[0].bytes| + Total(order[1..])
  }

  lemma {:induction false} SumOrder(bs: seq<Block>)
    ensures Sum(bs) == Total(Order(bs))
  {
    if bs != [] {
      SumOrder(bs[1..]);
      if bs[0].Live() { assert Order(bs)[1..] == Order(bs[1..]); }
    }
  }

  lemma {:induction false} PackedSum(bs: seq<Block>, a: nat, z: nat)
    requires Packed(bs, a, z)
    ensures z == a + Sum(bs)
  {
    if bs != [] { PackedSum(bs[1..], bs[0].End(), z); }
  }

  /** defrag keeps the count exact, and with an exact count it never mistakes a used arena for an
      empty one and never leaves its chain. */
  lemma DefragCounted(h: Heap)
    requires Safe(h) && Counted(h)
    ensures h.used == HEADER ==> GoodDefrag(h)
    ensures WalkStays(h)
    ensures GoodDefrag(h) ==> Counted(Defrag(h))
  {
    WalkStaysExactly(h);
    SumOrder(h.blocks);
    if GoodDefrag(h) {
      DefragSound(h);
      SumOrder(Defrag(h).blocks);
    }
  }

  // ---------------------------------------------------------------- compaction is complete

  /** Neighbours of a packed prefix touch, and its last block ends the packed region. */
  lemma {:induction false} PackedAt(bs: seq<Block>, a: nat, z: nat, i: nat)
    requires Packed(bs, a, z) && i < |bs|
    ensures bs[i].Live() && bs[i].End() <= z
    ensures bs[i].End() == if i + 1 < |bs| then bs[i + 1].addr else z
  {
    PackedAscends(bs[1..], bs[0].End(), z);
    if i > 0 { PackedAt(bs[1..], bs[0].End(), z, i - 1); }
  }

  /** In a compact heap first fit finds room behind the last live block or nowhere. */
  lemma {:induction false} FirstFitCompact(g: Heap, need: nat, i: nat)
    requires Safe(g) && Compact(g) && need > 0 && i < |Order(g.blocks)| && g.dataEnd < RefSpace(g)
    ensures FirstFit(g, need, i)
         == if g.dataEnd + need <= NewBegin(g) then |Order(g.blocks)| - 1 else |g.blocks|
    decreases |g.blocks| - i
  {
    var n := |Order(g.blocks)|;
    PackedAt(g.blocks[..n], g.Start(), g.dataEnd, i);
    BlockBounds(g, i);
    if i + 1 < n {
      PackedAt(g.blocks[..n], g.Start(), g.dataEnd, i + 1);
      assert LiveFrom(g.blocks, i + 1) == i + 1;
      FirstFitCompact(g, need, i + 1);
    } else {
      assert LiveFrom(g.blocks, i + 1) == |g.blocks|;
    }
  }

  /** In a compact heap the one free region decides, and the free memory the counter leaves. */
  lemma CompactAlloc(g: Heap, junk: seq<byte>)
    requires Safe(g) && Compact(g) && Order(g.blocks) != [] && junk != []
    requires g.dataEnd > g.Start()
    ensures Alloc(g, junk).Done? <==> g.dataEnd + INFO + |junk| <= NewBegin(g) && FreeBytes(g) >= |junk| + INFO
    ensures Alloc(g, junk).Done? ==> GoodAlloc(g, |junk|)
  {
    hide Path, Lives, Order, Packed, Sum;
    var n, need := |Order(g.blocks)|, |junk| + INFO;
    if g.dataEnd < RefSpace(g) {
      FirstFitCompact(g, need, 0);
      PackedAt(g.blocks[..n], g.Start(), g.dataEnd, n - 1);
      assert LiveFrom(g.blocks, n) == |g.blocks|;
    }
  }

  lemma CompactSum(g: Heap)
    requires Compact(g)
    ensures g.dataEnd == g.Start() + Sum(g.blocks) && Sum(g.blocks) == Total(Order(g.blocks))
  {
    var n := |Order(g.blocks)|;
    PackedSum(g.blocks[..n], g.Start(), g.dataEnd);
    SumOrder(g.blocks[..n]);
    SumOrder(g.blocks);
  }

  /** Compaction is complete. After a good defrag with something live an allocation of n > 0 bytes
      succeeds exactly when the one free region between the packed blocks and the slot table holds
      the payload, its header and, when no null slot can be reused, one more slot, and the counter
      leaves as much; it is then a good one. */
  lemma FitsAfterDefrag(h: Heap, junk: seq<byte>)
    requires Safe(h) && GoodDefrag(h) && Order(h.blocks) != [] && junk != []
    ensures WalkStays(h)
    ensures var g := Defrag(h);
            && Safe(g) && g.dataEnd == h.Start() + Total(Order(h.blocks))
            && (Alloc(g, junk).Done? <==> g.dataEnd + INFO + |junk| <= NewBegin(g) && FreeBytes(g) >= |junk| + INFO)
            && (Alloc(g, junk).Done? ==> GoodAlloc(g, |junk|))
  {
    hide Path, Lives, Order, Packed, Sum, Defrag, Alloc, GoodAlloc, Total, Tied, FreeBytes;
    DefragSound(h);
    var g := Defrag(h);
    CompactSum(g);
    CompactEnd(g);
    CompactAlloc(g, junk);
  }

  lemma CountedFree(g: Heap, need: nat)
    requires Safe(g) && Counted(g) && g.dataEnd == g.Start() + Sum(g.blocks) && g.dataEnd + need <= NewBegin(g)
    ensures FreeBytes(g) >= need
  {
  }

  /** An exact count never stands in the way: the free region alone decides. */
  lemma CountedFits(h: Heap, junk: seq<byte>)
    requires Safe(h) && Counted(h) && GoodDefrag(h) && Order(h.blocks) != [] && junk != []
    ensures WalkStays(h)
    ensures var g := Defrag(h); Safe(g) && (Alloc(g, junk).Done? <==> g.dataEnd + INFO + |junk| <= NewBegin(g))
  {
    hide Path, Lives, Order, Packed, Sum, Defrag, Alloc, GoodAlloc, Total, Tied, FreeBytes, NewBegin, Counted, Compact, Chain, Table;
    DefragSound(h);
    var g, need := Defrag(h), |junk| + INFO;
    FitsAfterDefrag(h, junk);
    DefragCounted(h);
    CompactSum(g);
    if g.dataEnd + need <= NewBegin(g) { CountedFree(g, need); }
  }
}
