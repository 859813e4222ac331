/** Short runs from a fresh arena after which the code has left its own invariant: one for each
    condition that the exactness lemmas name. */
module HeapWitness {
  import opened Collections
  import opened Words
  import opened HeapModel
  import opened Chains
  import opened HeapAlloc
  import opened HeapRealloc
  import opened HeapDefrag
  import opened HeapCompact

  function Zeros(n: nat): seq<byte> { seq(n, _ => 0) }

  /** 40 bytes into a fresh arena of 88: the block fills it to the brim and the slot of the block
      lies inside its payload. */
  lemma FirstBlockCoversItsSlot()
    ensures var h := Fresh(1024, 88).heap;
            Safe(h) && Alloc(h, Zeros(40)).Done? && !Safe(Alloc(h, Zeros(40)).heap)
  {
    var h := Fresh(1024, 88).heap;
    assert RefSpace(h) == 1104;
    AllocExact(h, Zeros(40));
  }

  /** A fresh arena after one allocation of n bytes that leaves room for the slot. */
  function One(base: nat, size: nat, n: nat): Heap
    requires 56 + n <= size
  {
    Heap(base, size, 48 + n, base + 48 + n, base + size - 8,
         [Block(base + 24, base + size, base + size - 8, Zeros(n))], [], map[base + size - 8 := base + 24])
  }

  lemma OneReached(base: nat, size: nat, n: nat)
    requires 0 < base && base + size < WORD && n > 0 && 56 + n <= size
    ensures Safe(Fresh(base, size).heap)
    ensures Alloc(Fresh(base, size).heap, Zeros(n)) == Done(One(base, size, n), base + size - 8)
    ensures Safe(One(base, size, n))
  {
    var h := Fresh(base, size).heap;
    assert Safe(h);
    assert RefSpace(h) == base + size - 8;
    assert FirstAlloc(h, Zeros(n)) == One(base, size, n);
    FirstAllocSafe(h, Zeros(n));
  }

  /** The only block of an arena based at 232 starts at 256: its slot has a zero low byte, so
      defrag trims it and the handle is lost. */
  lemma DefragTrimsUsedSlot()
    ensures var h := One(232, 200, 8);
            Safe(h) && WalkStays(h) && !(Safe(Defrag(h)) && Store(Defrag(h)) == Store(h))
  {
    hide Path, Walk, Trim, Stays, Tied, Defrag, Table;
    var h := One(232, 200, 8);
    OneReached(232, 200, 8);
    WalkStaysExactly(h);
    DefragExact(h);
  }

  /** Two blocks of eight bytes in an arena of 200; the second is freed. */
  function Two(freed: bool): Heap
  {
    Heap(1024, 200, if freed then 56 else 88, 1112, 1208,
         [Block(1048, 1080, 1216, Zeros(8)), Block(1080, 1216, 1208, if freed then [] else Zeros(8))],
         [], map[1216 := 1048, 1208 := if freed then 0 else 1080])
  }

  lemma TwoAllocated()
    ensures Safe(One(1024, 200, 8)) && Alloc(One(1024, 200, 8), Zeros(8)) == Done(Two(false), 1208)
    ensures Safe(Two(false))
  {
    OneReached(1024, 200, 8);
    var h := One(1024, 200, 8);
    assert RefSpace(h) == 1208;
    assert NextAddr(h, 0) == 1216;
    assert FirstFit(h, 32, 0) == 0;
    assert AllocBehind(h, 0, Zeros(8)).blocks == Two(false).blocks;
    AllocBehindSafe(h, 0, Zeros(8));
  }

  lemma TwoSecond()
    ensures Safe(Two(false)) && BlockOf(Two(false), 1208) == 1
  {
    TwoAllocated();
    assert Two(false).blocks[1].addr == Two(false).slots[1208];
  }

  lemma TwoRelease()
    ensures Release(Two(false), 1208, 1) == Two(true)
  {
    var g, e := Release(Two(false), 1208, 1), Two(true);
    assert g.blocks == e.blocks && g.slots == e.slots;
  }

  lemma TwoReached()
    ensures Safe(Two(false)) && Free(Two(false), 1208) == Done(Two(true), 0)
    ensures Safe(Two(true))
  {
    TwoSecond();
    TwoRelease();
    var h := Two(false);
    FreeSound(h, 1208) by { assert BlockOf(h, 1208) == 1; }
    assert Free(h, 1208) == Done(Release(h, 1208, 1), 0);
  }

  /** Growing the first block in place to 40 bytes swallows the header of the freed one, to which
      its link still leads. */
  lemma ResizeSwallowsFreedHeader()
    ensures var h := Two(true);
            && Safe(h) && 1216 in Store(h) && FitsInPlace(h, BlockOf(h, 1216), 40)
            && !Safe(Resize(h, BlockOf(h, 1216), Zeros(40)))
  {
    TwoReached();
    var h := Two(true);
    assert BlockOf(h, 1216) == 0;
    assert LiveFrom(h.blocks, 1) == 2;
    ResizeExact(h, 1216, Zeros(40));
  }

  /** Two blocks again, after the second grew in place to 40 bytes and was then freed: the counter
      was never told about the growth, so it stands at the bare header. */
  function Drifted(): Heap
  {
    Two(true).(used := 24)
  }

  lemma GrownHeap()
    ensures Safe(Two(false)) && 1208 in Store(Two(false)) && FitsInPlace(Two(false), 1, 40) && BlockOf(Two(false), 1208) == 1
    ensures Safe(Resize(Two(false), 1, Zeros(40)))
  {
    TwoReached();
    var h := Two(false);
    assert BlockOf(h, 1208) == 1;
    assert LiveFrom(h.blocks, 2) == 2;
    ResizeExact(h, 1208, Zeros(40));
  }

  lemma DriftIs(junk: seq<byte>)
    requires |junk| == 40
    ensures Release(Resize(Two(false), 1, junk), 1208, 1) == Drifted()
  {
    var g := Release(Resize(Two(false), 1, junk), 1208, 1);
    assert g.blocks == Drifted().blocks && g.slots == Drifted().slots;
  }

  lemma DriftedReached()
    ensures var h := Two(false);
            && Safe(h) && 1208 in Store(h) && FitsInPlace(h, BlockOf(h, 1208), 40)
            && var g := Resize(h, BlockOf(h, 1208), Zeros(40));
               Safe(g) && Free(g, 1208) == Done(Drifted(), 0)
    ensures Safe(Drifted())
  {
    GrownHeap();
    var g := Resize(Two(false), 1, Zeros(40));
    assert g.slots[1208] == g.blocks[1].addr == 1080 && BlockOf(g, 1208) == 1;
    hide Safe, Store, Release, Resize, Zeros;
    DriftIs(Zeros(40));
    FreedBlock(g, 1208, 1);
  }

  lemma FreedBlock(h: Heap, s: nat, i: nat)
    requires Safe(h) && s in h.slots && h.slots[s] != 0 && i < |h.blocks| && h.blocks[i].addr == h.slots[s]
    requires IsHandle(h, s) && BlockOf(h, s) == i
    ensures Free(h, s) == Done(Release(h, s, i), 0) && Safe(Release(h, s, i))
  {
    hide Release;
    ReleaseSafe(h, s, i);
  }

  /** defrag takes the drifted arena for empty and loses the live block. */
  lemma DefragForgetsLiveBlock()
    ensures Safe(Drifted()) && 1216 in Store(Drifted())
    ensures Safe(Defrag(Drifted())) && Store(Defrag(Drifted())) == map[]
  {
    DriftedReached();
    hide Path, Walk, Trim, Stays;
    OneReached(1024, 200, 8);
    assert Drifted().slots[1216] != 0;
    assert Defrag(Drifted()) == Fresh(1024, 200).heap;
  }

  /** Three blocks of eight bytes in an arena of 200; the last two may be freed. */
  function Three(freedB: bool, freedC: bool): Heap
  {
    Heap(1024, 200, if freedC then 56 else if freedB then 88 else 120, 1144, 1200,
         [Block(1048, 1080, 1216, Zeros(8)), Block(1080, 1112, 1208, if freedB then [] else Zeros(8)),
          Block(1112, 1208, 1200, if freedC then [] else Zeros(8))],
         [], map[1216 := 1048, 1208 := if freedB then 0 else 1080, 1200 := if freedC then 0 else 1112])
  }

  lemma ThreeAllocated()
    ensures Alloc(Two(false), Zeros(8)) == Done(Three(false, false), 1200) && Safe(Three(false, false))
  {
    TwoAllocated();
    var h := Two(false);
    assert RefSpace(h) == 1200;
    assert NextAddr(h, 0) == 1080 && NextAddr(h, 1) == 1208;
    assert FirstFit(h, 32, 0) == 1;
    assert AllocBehind(h, 1, Zeros(8)).blocks == Three(false, false).blocks;
    assert AllocBehind(h, 1, Zeros(8)).slots == Three(false, false).slots;
    AllocBehindSafe(h, 1, Zeros(8));
  }

  lemma ThreeFreed()
    ensures Safe(Three(false, false)) && Safe(Three(true, false)) && Safe(Three(true, true))
    ensures Free(Three(false, false), 1208) == Done(Three(true, false), 0)
    ensures Free(Three(true, false), 1200) == Done(Three(true, true), 0)
  {
    ThreeAllocated();
    var h, g := Three(false, false), Three(true, false);
    ThreeReleased();
    ReleaseSafe(h, 1208, 1);
    assert BlockOf(h, 1208) == 1;
    ReleaseSafe(g, 1200, 2);
    assert BlockOf(g, 1200) == 2;
  }

  lemma ThreeReleased()
    ensures Release(Three(false, false), 1208, 1) == Three(true, false)
    ensures Release(Three(true, false), 1200, 2) == Three(true, true)
  {
    var g, e := Release(Three(false, false), 1208, 1), Three(true, false);
    assert g.blocks == e.blocks && g.slots == e.slots;
    var g', e' := Release(e, 1200, 2), Three(true, true);
    assert g'.blocks == e'.blocks && g'.slots == e'.slots;
  }

  /** Two freed blocks trail the only live one. defrag leaves them in the chain and raises the table
      above the address their last link leads to. */
  lemma DefragOutrunsLastLink()
    ensures var h := Three(true, true);
            Safe(h) && h.used == 24 + 24 + 8 && WalkStays(h) && !(Safe(Defrag(h)) && Store(Defrag(h)) == Store(h))
  {
    hide Path, Walk, Trim, Stays, Defrag;
    ThreeFreed();
    var h := Three(true, true);
    WalkStaysExactly(h);
    assert LowSlot(h, 1216) == 1216 && LowSlot(h, 1208) == 1216;
    assert Lowest(h) == 1216 && Last(h.blocks).next == 1208;
    DefragExact(h);
  }

  /** A block resized in place. */
  lemma ResizedBlock(h: Heap, s: nat, i: nat, junk: seq<byte>)
    requires Safe(h) && s in h.slots && h.slots[s] != 0 && i < |h.blocks| && h.blocks[i].addr == h.slots[s]
    requires IsHandle(h, s) && BlockOf(h, s) == i && FitsInPlace(h, i, |junk|)
    requires junk != [] && h.blocks[i].End() - |h.blocks[i].bytes| + |junk| <= h.blocks[i].next
    ensures GoodRealloc(h, s, junk) && Realloc(h, s, junk) == Done(Resize(h, i, junk), s) && Safe(Resize(h, i, junk))
  {
    hide Resize;
    ResizeExact(h, s, junk);
  }

  // ---------------------------------------------------------------- one defrag after another

  /** One block of eight bytes, shrunk in place to four, and then freed: four bytes stay counted. */
  function Small(): Heap { One(1024, 200, 8).(blocks := [Block(1048, 1224, 1216, Zeros(4))]) }

  function Gone(): Heap { One(1024, 200, 8).(used := 28, blocks := [Block(1048, 1224, 1216, [])], slots := map[1216 := 0]) }

  lemma SmallIs()
    ensures Resize(One(1024, 200, 8), 0, Zeros(4)) == Small() && Release(Small(), 1216, 0) == Gone()
  {
    assert Carry(Zeros(8), Zeros(4)) == Zeros(4);
    assert Resize(One(1024, 200, 8), 0, Zeros(4)).blocks == Small().blocks;
    assert Release(Small(), 1216, 0).slots == Gone().slots;
  }

  lemma GoneReached()
    ensures Safe(One(1024, 200, 8)) && 1216 in Store(One(1024, 200, 8)) && Safe(Small()) && 1216 in Store(Small())
    ensures GoodRealloc(One(1024, 200, 8), 1216, Zeros(4)) && Realloc(One(1024, 200, 8), 1216, Zeros(4)) == Done(Small(), 1216)
    ensures Free(Small(), 1216) == Done(Gone(), 0) && Safe(Gone())
  {
    OneReached(1024, 200, 8);
    var h := One(1024, 200, 8);
    assert BlockOf(h, 1216) == 0 && LiveFrom(h.blocks, 1) == 1;
    SmallIs();
    ResizedBlock(h, 1216, 0, Zeros(4));
    assert Small().slots[1216] == Small().blocks[0].addr && BlockOf(Small(), 1216) == 0;
    FreedBlock(Small(), 1216, 0);
  }

  /** The chain of the emptied arena stays in memory, and a second defrag walks it once more: it ends
      at the end of the arena, so nothing changes. */
  lemma SecondDefragHarmless()
    ensures Safe(Gone()) && GoodDefrag(Gone()) && WalkStays(Gone())
    ensures var g := Defrag(Gone());
            && g.blocks == [] && g.dead == Gone().blocks && g.used == 28
            && Safe(g) && GoodDefrag(g) && WalkStays(g) && Defrag(g) == g
  {
    GoneReached();
    assert Order(Gone().blocks) == [];
    DefragSound(Gone());
    DefragAgain(Gone());
  }

  /** Two blocks of eight bytes, both shrunk in place to four, then both freed. */
  function Pair(smallA: bool, smallB: bool, freedA: bool, freedB: bool): Heap
  {
    Heap(1024, 200, if freedB then 32 else if freedA then 60 else 88, 1112, 1208,
         [Block(1048, 1080, 1216, if freedA then [] else Zeros(if smallA then 4 else 8)),
          Block(1080, 1216, 1208, if freedB then [] else Zeros(if smallB then 4 else 8))],
         [], map[1216 := if freedA then 0 else 1048, 1208 := if freedB then 0 else 1080])
  }

  lemma PairIs()
    ensures Pair(false, false, false, false) == Two(false)
    ensures Resize(Two(false), 0, Zeros(4)) == Pair(true, false, false, false)
    ensures Resize(Pair(true, false, false, false), 1, Zeros(4)) == Pair(true, true, false, false)
  {
    assert Carry(Zeros(8), Zeros(4)) == Zeros(4);
    assert Resize(Two(false), 0, Zeros(4)).blocks == Pair(true, false, false, false).blocks;
    var h := Pair(true, false, false, false);
    assert Resize(h, 1, Zeros(4)).blocks == Pair(true, true, false, false).blocks;
  }

  lemma PairFreedIs()
    ensures Release(Pair(true, true, false, false), 1216, 0) == Pair(true, true, true, false)
    ensures Release(Pair(true, true, true, false), 1208, 1) == Pair(true, true, true, true)
  {
    var g, e := Release(Pair(true, true, false, false), 1216, 0), Pair(true, true, true, false);
    assert g.blocks == e.blocks && g.slots == e.slots;
    var g', e' := Release(e, 1208, 1), Pair(true, true, true, true);
    assert g'.blocks == e'.blocks && g'.slots == e'.slots;
  }

  lemma PairShrunk()
    ensures var a, b, c := Two(false), Pair(true, false, false, false), Pair(true, true, false, false);
            && Safe(a) && 1216 in Store(a) && GoodRealloc(a, 1216, Zeros(4)) && Realloc(a, 1216, Zeros(4)) == Done(b, 1216)
            && Safe(b) && 1208 in Store(b) && GoodRealloc(b, 1208, Zeros(4)) && Realloc(b, 1208, Zeros(4)) == Done(c, 1208)
            && Safe(c)
  {
    TwoAllocated();
    PairIs();
    var a, b := Two(false), Pair(true, false, false, false);
    assert BlockOf(a, 1216) == 0 && LiveFrom(a.blocks, 1) == 1;
    ResizedBlock(a, 1216, 0, Zeros(4));
    assert b.blocks[1].addr == b.slots[1208] && BlockOf(b, 1208) == 1 && LiveFrom(b.blocks, 2) == 2;
    ResizedBlock(b, 1208, 1, Zeros(4));
  }

  lemma PairReached()
    ensures var c, d, e := Pair(true, true, false, false), Pair(true, true, true, false), Pair(true, true, true, true);
            Safe(c) && Free(c, 1216) == Done(d, 0) && Safe(d) && Free(d, 1208) == Done(e, 0) && Safe(e)
  {
    PairShrunk();
    PairFreedIs();
    var c, d := Pair(true, true, false, false), Pair(true, true, true, false);
    assert c.blocks[0].addr == c.slots[1216] && BlockOf(c, 1216) == 0;
    FreedBlock(c, 1216, 0);
    assert d.blocks[1].addr == d.slots[1208] && BlockOf(d, 1208) == 1;
    FreedBlock(d, 1208, 1);
  }

  /** The last link of this chain leads to where the slot table began when the second block was
      allocated. The first defrag empties the table; the walk of a second one takes the old bottom of the
      table for a block header. */
  lemma SecondDefragLeavesChain()
    ensures var h := Pair(true, true, true, true); Safe(h) && GoodDefrag(h) && WalkStays(h) && Safe(Defrag(h)) && !WalkStays(Defrag(h))
  {
    PairReached();
    var h := Pair(true, true, true, true);
    assert Order(h.blocks[1..]) == [] && Order(h.blocks) == [];
    DefragSound(h);
    DefragAgain(h);
    WalkStaysExactly(Defrag(h));
  }

  // ---------------------------------------------------------------- a freed first block

  /** With the first of two blocks freed, defrag moves the second and stores through the unset prev. */
  lemma FreedFirstBlock()
    ensures Safe(Two(false)) && 1216 in Store(Two(false)) && Free(Two(false), 1216).Done?
    ensures var g := Free(Two(false), 1216).heap; Safe(g) && StoresThroughUnsetPrev(g)
  {
    TwoAllocated();
    var h := Two(false);
    assert BlockOf(h, 1216) == 0;
    FreedBlock(h, 1216, 0);
    var g := Release(h, 1216, 0);
    assert LiveFrom(g.blocks, 1) == 1 && LiveFrom(g.blocks, 0) == 1;
  }

  // ---------------------------------------------------------------- a slot inside a grown block

  /** A block of forty bytes, shrunk in place to eight, and a block of eight behind the gap it leaves,
      which may have grown in place up to the slot table. */
  function Gapped(shrunk: bool, grown: bool): Heap
  {
    Heap(1024, 200, 120, 1144, 1208,
         [Block(1048, 1112, 1216, Zeros(if shrunk then 8 else 40)), Block(1112, 1216, 1208, Zeros(if grown then 72 else 8))],
         [], map[1216 := 1048, 1208 := 1112])
  }

  lemma GappedIs(junk: seq<byte>)
    requires junk == Zeros(72)
    ensures Resize(Gapped(false, false), 0, Zeros(8)) == Gapped(true, false)
    ensures Resize(Gapped(true, false), 1, junk).blocks[0] == Gapped(true, true).blocks[0]
  {
    assert Carry(Zeros(40), Zeros(8)) == Zeros(8);
    assert Resize(Gapped(false, false), 0, Zeros(8)).blocks == Gapped(true, false).blocks;
  }

  lemma GappedGrows()
    ensures Resize(Gapped(true, false), 1, Zeros(72)) == Gapped(true, true)
  {
    hide Zeros;
    ZerosParts();
    assert Carry(Zeros(8), Zeros(72)) == Zeros(72);
    assert Resize(Gapped(true, false), 1, Zeros(72)).blocks == Gapped(true, true).blocks;
  }

  lemma ZerosParts()
    ensures |Zeros(8)| == 8 && |Zeros(72)| == 72 && Zeros(8) + Zeros(72)[8..] == Zeros(72)
  {
  }

  lemma GappedAllocated()
    ensures Safe(One(1024, 200, 40)) && Alloc(One(1024, 200, 40), Zeros(8)) == Done(Gapped(false, false), 1208)
    ensures Safe(Gapped(false, false))
  {
    OneReached(1024, 200, 40);
    var h := One(1024, 200, 40);
    assert RefSpace(h) == 1208;
    assert NextAddr(h, 0) == 1216;
    assert FirstFit(h, 32, 0) == 0;
    assert AllocBehind(h, 0, Zeros(8)).blocks == Gapped(false, false).blocks;
    AllocBehindSafe(h, 0, Zeros(8));
  }

  lemma GappedShrunk()
    ensures var a, b := Gapped(false, false), Gapped(true, false);
            && Safe(a) && 1216 in Store(a) && GoodRealloc(a, 1216, Zeros(8)) && Realloc(a, 1216, Zeros(8)) == Done(b, 1216)
            && Safe(b)
  {
    GappedAllocated();
    GappedIs(Zeros(72));
    var a := Gapped(false, false);
    assert BlockOf(a, 1216) == 0 && LiveFrom(a.blocks, 1) == 1;
    ResizedBlock(a, 1216, 0, Zeros(8));
  }

  lemma GappedReached()
    ensures var b, c := Gapped(true, false), Gapped(true, true);
            && Safe(b) && 1208 in Store(b) && GoodRealloc(b, 1208, Zeros(72)) && Realloc(b, 1208, Zeros(72)) == Done(c, 1208)
            && Safe(c)
  {
    GappedShrunk();
    GappedGrows();
    var b := Gapped(true, false);
    assert b.blocks[1].addr == b.slots[1208] && BlockOf(b, 1208) == 1 && LiveFrom(b.blocks, 2) == 2;
    ResizedBlock(b, 1208, 1, Zeros(72));
  }

  /** Eight bytes more fit into the gap, but their slot is taken from the grown block: data_end was
      never told about the growth. */
  lemma SlotInsideGrownBlock()
    ensures var h := Gapped(true, true); Safe(h) && Alloc(h, Zeros(8)).Done? && !Safe(Alloc(h, Zeros(8)).heap)
  {
    GappedReached();
    var h := Gapped(true, true);
    assert RefSpace(h) == 1200;
    assert LiveFrom(h.blocks, 1) == 1 && NextAddr(h, 0) == 1112;
    assert FirstFit(h, 32, 0) == 0;
    AllocExact(h, Zeros(8));
  }
}
