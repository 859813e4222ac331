/** The allocator itself: every method works on the raw bytes of the arena, store by store, and is
    proved against the typed heap. */
module Allocators {
  import opened Collections
  import opened Words
  import HeapModel
  import opened HeapAlloc
  import opened HeapRealloc
  import opened HeapDefrag
  import opened HeapCompact
  import opened HeapImage
  import opened HeapStores
  import opened Chains
  import HeapRuns

  type Heap = HeapModel.Heap
  const HEADER := HeapModel.HEADER
  const INFO := HeapModel.INFO
  const SLOT := HeapModel.SLOT

  /** A handle: the address of a slot, or 0. */
  class Pointer {
    var p: nat

    constructor ()
      ensures p == 0
    {
      p := 0;
    }
  }

  lemma {:induction false} LinkWords(m: seq<byte>, h: Heap, i: nat)
    requires HeapModel.Shape(h) && Holds(m, h) && i < |h.blocks|
    ensures h.blocks[i].End() <= h.beginRef <= h.Top() <= |m| && h.Start() <= h.blocks[i].addr
    ensures Word(m, h.blocks[i].addr) == h.blocks[i].next && Word(m, h.blocks[i].addr + 16) == |h.blocks[i].bytes|
    ensures h.blocks[i].ref < WORD ==> Word(m, h.blocks[i].addr + 8) == h.blocks[i].ref
    ensures if i + 1 < |h.blocks| then h.blocks[i].next == h.blocks[i + 1].addr && h.blocks[i + 1].addr < h.beginRef
            else h.blocks[i].next >= h.beginRef
  {
    hide HeapModel.Path, Image, Word, EncWord, HoldsSlots, HeapModel.Lives;
    BlockBounds(h, i);
    PathAt(h.blocks, h.Start(), Last(h.blocks).next, i);
    if i + 1 < |h.blocks| { BlockBounds(h, i + 1); }
    ReadBlock(m, h.blocks[i]);
  }

  lemma TableBottom(h: Heap)
    requires HeapModel.Table(h)
    ensures h.Start() <= h.beginRef <= h.Top()
    ensures h.IsSlot(h.Top() - SLOT) || h.Top() == h.beginRef
  {
  }

  lemma SlotWord(m: seq<byte>, h: Heap, s: nat)
    requires HeapModel.Table(h) && Holds(m, h) && h.IsSlot(s)
    ensures s in h.slots && s + SLOT <= h.Top() <= |m| && Word(m, s) == h.slots[s]
    ensures h.IsSlot(s - SLOT) || s == h.beginRef
  {
    hide EncWord, Word, At, Image, HoldsBlocks, Head;
    AtWord(m, s, h.slots[s]);
    SlotAbove(h, s);
  }

  lemma SlotAbove(h: Heap, s: nat)
    requires HeapModel.Table(h) && h.IsSlot(s)
    ensures s + SLOT <= h.Top() && (h.IsSlot(s - SLOT) || s == h.beginRef)
  {
  }

  /** All that an allocation behind block i rests on. */
  lemma BehindReady(m: seq<byte>, h: Heap, i: nat, n: nat)
    requires HeapModel.Safe(h) && Holds(m, h) && i < |h.blocks| && n > 0 && HeapModel.Gap(h, i) >= n + INFO
    requires h.blocks[LastKept(h, i)].End() <= HeapModel.NewBegin(h)
    ensures h.base <= h.blocks[i].addr && h.blocks[i].End() + INFO + n <= h.Top() <= |m| && h.base + HEADER <= h.Top()
    ensures h.base <= HeapModel.RefSpace(h) && HeapModel.RefSpace(h) + SLOT <= h.Top()
    ensures Word(m, h.blocks[i].addr + 16) == |h.blocks[i].bytes|
    ensures Word(m, h.base) == h.used && Word(m, h.base + 8) == h.dataEnd && Word(m, h.base + 16) == h.beginRef
    ensures var g := HeapModel.AllocBehind(h, i, Junk(m, h.blocks[i].End(), n));
            HeapModel.Safe(g) && HeapModel.Shape(g) && Holds(BehindStores(m, h, i, n), g)
            && g.base == h.base && g.size == h.size
    ensures HeapModel.Table(h)
  {
    hide EncWord, Put, Image, Word, HeapModel.Path, HeapModel.Lives;
    LinkWords(m, h, i);
    ReadHead(m, h);
    GapKept(h, i);
    GapAddresses(h, i);
    BehindHolds(m, h, i, n);
    AllocBehindSafe(h, i, Junk(m, h.blocks[i].End(), n));
  }

  /** All that a first allocation rests on. */
  lemma FirstReady(m: seq<byte>, h: Heap, n: nat)
    requires HeapModel.Safe(h) && Holds(m, h) && h.dataEnd == h.Start() && n > 0
    requires h.Start() + n + INFO <= HeapModel.NewBegin(h)
    ensures h.Start() + INFO + n <= h.Top() <= |m|
    ensures h.base <= HeapModel.RefSpace(h) && HeapModel.RefSpace(h) + SLOT <= h.Top()
    ensures Word(m, h.base) == h.used && Word(m, h.base + 8) == h.dataEnd && Word(m, h.base + 16) == h.beginRef
    ensures HeapModel.Table(h)
    ensures var g := HeapModel.FirstAlloc(h, Junk(m, h.Start(), n));
            HeapModel.Safe(g) && HeapModel.Shape(g) && Holds(FirstStores(m, h, n), g)
            && g.base == h.base && g.size == h.size
  {
    hide EncWord, Put, Image, Word, HeapModel.Path, HeapModel.Lives;
    ReadHead(m, h);
    FirstHolds(m, h, n);
    FirstAllocSafe(h, Junk(m, h.Start(), n));
  }

  /** The header words of a fresh arena. */
  lemma FreshHolds(m: seq<byte>, base: nat, size: nat)
    requires HEADER <= size && base + size <= |m|
    ensures var h := HeapModel.Fresh(base, size).heap;
            Holds(Put(m, base, EncWord(HEADER) + EncWord(base + HEADER) + EncWord(base + size)), h)
  {
    PutAt(m, base, EncWord(HEADER) + EncWord(base + HEADER) + EncWord(base + size));
  }

  lemma HeadWords(m: seq<byte>, h: Heap)
    requires HeapModel.Shape(h) && Holds(m, h)
    ensures h.base + HEADER <= h.beginRef <= h.Top() <= |m|
    ensures Word(m, h.base) == h.used && Word(m, h.base + 8) == h.dataEnd && Word(m, h.base + 16) == h.beginRef
  {
    ReadHead(m, h);
  }

  lemma ChainStart(h: Heap)
    requires HeapModel.Shape(h) && h.blocks != []
    ensures h.blocks[0].addr == h.Start() && h.Start() < h.beginRef
  {
    BlockBounds(h, 0);
  }

  lemma BlockWords(m: seq<byte>, h: Heap, i: nat)
    requires HeapModel.Shape(h) && Holds(m, h) && i < |h.blocks|
    ensures h.Start() <= h.blocks[i].addr && h.blocks[i].End() <= h.beginRef <= h.Top() <= |m|
    ensures Word(m, h.blocks[i].addr + 16) == |h.blocks[i].bytes|
    ensures HeapModel.Table(h)
  {
    LinkWords(m, h, i);
  }

  /** The distance as the code computes it, one subtraction at a time. */
  lemma GapBySteps(h: Heap, i: nat)
    requires HeapModel.Shape(h) && i < |h.blocks|
    ensures var b := h.blocks[i];
            Sub(Sub(Sub(HeapModel.Min(HeapModel.NextAddr(h, i), HeapModel.RefSpace(h)), b.addr), |b.bytes|), INFO)
            == HeapModel.Gap(h, i)
  {
    var b, x := h.blocks[i], HeapModel.Min(HeapModel.NextAddr(h, i), HeapModel.RefSpace(h));
    GapAddresses(h, i);
    SubTwice(x, b.addr, |b.bytes|);
    SubTwice(x, b.addr + |b.bytes|, INFO);
  }

  /** A handle is in the store exactly when its slot is not null. */
  lemma HandleCases(h: Heap, s: nat)
    requires HeapModel.Safe(h) && HeapModel.IsHandle(h, s)
    ensures s in HeapModel.Store(h) <==> !HeapModel.IsNull(h, s)
    ensures s != 0 ==> h.IsSlot(s)
  {
  }

  /** The block behind a used handle, as memory shows it. */
  lemma HandleWords(m: seq<byte>, h: Heap, s: nat)
    requires HeapModel.Safe(h) && Holds(m, h) && s in HeapModel.Store(h)
    ensures var b := h.blocks[HeapModel.BlockOf(h, s)];
            && h.slots[s] == b.addr && h.Start() <= b.addr && b.End() <= h.Top() <= |m|
            && b.bytes == HeapModel.Store(h)[s] && m[b.addr + INFO..b.End()] == b.bytes
            && Word(m, b.addr + 16) == |b.bytes| && Word(m, b.addr + 8) == s
    ensures s != 0 && h.base <= s && s + SLOT <= h.Top() && Word(m, s) == h.slots[s]
  {
    hide EncWord, HoldsSlots, HeapModel.Path, HeapModel.Lives, Word, At, Image, HeapModel.Find;
    var i := HeapModel.BlockOf(h, s);
    HandleCases(h, s);
    SlotWord(m, h, s);
    LinkWords(m, h, i);
    ReadBlock(m, h.blocks[i]);
  }

  lemma StoreHandle(h: Heap, s: nat)
    requires HeapModel.Safe(h) && s in HeapModel.Store(h)
    ensures HeapModel.IsHandle(h, s) && !HeapModel.IsNull(h, s) && s != 0
  {
    HandleCases(h, s);
  }

  predicate FreeFits(m: seq<byte>, h: Heap, s: nat)
    requires HeapModel.Safe(h)
  {
    HeapModel.IsHandle(h, s) && !HeapModel.IsNull(h, s) && h.base + HEADER <= |m| && s + SLOT <= |m|
    && h.blocks[HeapModel.BlockOf(h, s)].addr + INFO <= |m|
  }

  /** All that freeing the block behind s rests on. */
  lemma FreeReady(m: seq<byte>, h: Heap, s: nat)
    requires HeapModel.Safe(h) && Holds(m, h) && s in HeapModel.Store(h)
    ensures var b := h.blocks[HeapModel.BlockOf(h, s)];
            && h.base <= b.addr && b.End() <= h.Top() <= |m| && Word(m, b.addr + 16) == |b.bytes|
            && h.base + HEADER <= h.Top() && h.base <= s && s + SLOT <= h.Top() && FreeFits(m, h, s)
    ensures Word(m, h.base) == h.used
    ensures var i := HeapModel.BlockOf(h, s);
            var g := HeapModel.Release(h, s, i);
            HeapModel.Safe(g) && HeapModel.Shape(g) && Holds(FreeStores(m, h, s, i), g) && g.base == h.base && g.size == h.size
  {
    var i := HeapModel.BlockOf(h, s);
    HandleWords(m, h, s);
    HeadWords(m, h);
    SlotWord(m, h, s);
    ShapeApart(h);
    FreeHolds(m, h, s, i);
    ReleaseSafe(h, s, i);
  }

  /** g after the payload of block i was copied over the front of block k. */
  function Copied(g: Heap, i: nat, k: nat): Heap
    requires i < |g.blocks| && k < |g.blocks|
  {
    g.(blocks := g.blocks[k := g.blocks[k].(bytes := HeapModel.Carry(g.blocks[i].bytes, g.blocks[k].bytes))])
  }

  lemma CopiedSafe(g: Heap, i: nat, k: nat, s: nat, t: nat)
    requires HeapModel.Safe(g) && s in HeapModel.Store(g) && t in HeapModel.Store(g) && s != t
    requires i == HeapModel.BlockOf(g, s) && k == HeapModel.BlockOf(g, t)
    ensures i != k && HeapModel.Safe(Copied(g, i, k)) && s in HeapModel.Store(Copied(g, i, k))
    ensures HeapModel.BlockOf(Copied(g, i, k), s) == i
  {
    var c := Copied(g, i, k);
    var b := c.blocks[k];
    BlockBounds(g, k);
    UpdateBlock(g, k, b);
    TiedResize(HeapModel.Lives(g.blocks), g.slots, t, b.bytes);
    FindSame(g.blocks, c.blocks, g.slots[s]);
  }

  lemma {:induction false} FindSame(bs: seq<HeapModel.Block>, cs: seq<HeapModel.Block>, a: nat)
    requires |bs| == |cs| && forall i | 0 <= i < |bs| :: bs[i].addr == cs[i].addr
    ensures HeapModel.Find(bs, a) == HeapModel.Find(cs, a)
  {
    if bs != [] { FindSame(bs[1..], cs[1..], a); }
  }

  lemma BlocksApart(g: Heap, i: nat, k: nat)
    requires HeapModel.Shape(g) && i < |g.blocks| && k < |g.blocks| && i != k
    ensures g.blocks[i].End() <= g.blocks[k].addr || g.blocks[k].End() <= g.blocks[i].addr
  {
    ShapeApart(g);
  }

  /** The payload the copy moves. */
  function CopiedBytes(g: Heap, i: nat, k: nat): seq<byte>
    requires i < |g.blocks| && k < |g.blocks|
  {
    g.blocks[i].bytes[..HeapModel.Min(|g.blocks[i].bytes|, |g.blocks[k].bytes|)]
  }

  lemma CarryHead(x: seq<byte>, y: seq<byte>)
    ensures var head := x[..HeapModel.Min(|x|, |y|)]; HeapModel.Carry(x, y) == y[..0] + head + y[|head|..]
  {
  }

  lemma CopyHolds(m: seq<byte>, g: Heap, i: nat, k: nat)
    requires Apart(g) && Holds(m, g) && i < |g.blocks| && k < |g.blocks|
    ensures g.blocks[k].End() <= |m|
    ensures Holds(Put(m, g.blocks[k].addr + INFO, CopiedBytes(g, i, k)), Copied(g, i, k))
  {
    hide EncWord, Put, Holds, Apart, HeapModel.Carry;
    PutBytes(m, g, k, 0, CopiedBytes(g, i, k));
    CarryHead(g.blocks[i].bytes, g.blocks[k].bytes);
  }

  /** All that the copy and the free of a move rest on. */
  lemma MoveReady(m: seq<byte>, g: Heap, s: nat, i: nat, t: nat, k: nat)
    requires HeapModel.Safe(g) && Holds(m, g) && s in HeapModel.Store(g) && t in HeapModel.Store(g) && s != t
    requires i == HeapModel.BlockOf(g, s) && k == HeapModel.BlockOf(g, t)
    ensures var c, head := Copied(g, i, k), CopiedBytes(g, i, k);
            && i != k && HeapModel.Safe(c) && HeapModel.Shape(c) && s in HeapModel.Store(c) && HeapModel.BlockOf(c, s) == i
            && c.base == g.base && c.size == g.size && g.blocks[k].End() <= |m|
            && Holds(Put(m, g.blocks[k].addr + INFO, head), c)
  {
    hide EncWord, Put, Holds, HeapModel.Path, HeapModel.Lives, HeapModel.Find;
    CopiedSafe(g, i, k, s, t);
    ShapeApart(g);
    CopyHolds(m, g, i, k);
  }

  /** What the stores of a move add up to. */
  lemma MoveDone(m: seq<byte>, g: Heap, s: nat, i: nat, t: nat, k: nat)
    requires HeapModel.Safe(g) && Holds(m, g) && s in HeapModel.Store(g) && t in HeapModel.Store(g) && s != t
    requires i == HeapModel.BlockOf(g, s) && k == HeapModel.BlockOf(g, t) && i != k
    ensures g.base + HEADER <= |m| && g.blocks[i].End() <= |m| && g.blocks[k].End() <= |m| && s + SLOT <= |m| && t + SLOT <= |m|
    ensures var m1 := Put(m, g.blocks[k].addr + INFO, CopiedBytes(g, i, k));
            FreeStores(m1, Copied(g, i, k), s, i) == FreeStores(m1, g, s, i)
    ensures var f := HeapModel.Redirect(g, s, i, t, k);
            HeapModel.Safe(f) && HeapModel.Shape(f) && Holds(MoveStores(m, g, s, i, t, k), f) && f.base == g.base && f.size == g.size
  {
    MoveRoom(m, g, s, i, t, k);
    hide EncWord, Put, Holds, HeapModel.Path, HeapModel.Lives, HeapModel.Find, HeapModel.Table, HeapModel.Chain, HeapModel.Tied,
      HeapModel.Store, FreeStores, MoveStores, Copied;
    ShapeApart(g);
    MoveHolds(m, g, s, i, t, k);
    RedirectSafe(g, s, i, t, k);
  }

  /** Freeing the old block does not look at the payload just copied. */
  lemma MoveRoom(m: seq<byte>, g: Heap, s: nat, i: nat, t: nat, k: nat)
    requires HeapModel.Safe(g) && Holds(m, g) && s in HeapModel.Store(g) && t in HeapModel.Store(g) && s != t
    requires i == HeapModel.BlockOf(g, s) && k == HeapModel.BlockOf(g, t) && i != k
    ensures g.base + HEADER <= |m| && g.blocks[i].End() <= |m| && g.blocks[k].End() <= |m| && s + SLOT <= |m| && t + SLOT <= |m|
    ensures var m1 := Put(m, g.blocks[k].addr + INFO, CopiedBytes(g, i, k));
            FreeStores(m1, Copied(g, i, k), s, i) == FreeStores(m1, g, s, i)
  {
    hide EncWord, Put, Holds, HeapModel.Path, HeapModel.Lives, HeapModel.Find;
    HandleWords(m, g, s);
    HandleWords(m, g, t);
    HeadRoom(m, g);
  }

  lemma Prefix(m: seq<byte>, b: HeapModel.Block, n: nat)
    requires b.End() <= |m| && m[b.addr + INFO..b.End()] == b.bytes && n <= |b.bytes|
    ensures m[b.addr + INFO..b.addr + INFO + n] == b.bytes[..n]
  {
    assert m[b.addr + INFO..b.End()][..n] == m[b.addr + INFO..b.addr + INFO + n];
  }

  /** What the copy of a payload needs and does, in the code's own variables. */
  lemma CopyReady(m: seq<byte>, g: Heap, s: nat, i: nat, t: nat, k: nat)
    requires HeapModel.Safe(g) && Holds(m, g) && s in HeapModel.Store(g) && t in HeapModel.Store(g) && s != t
    requires i == HeapModel.BlockOf(g, s) && k == HeapModel.BlockOf(g, t)
    ensures g.base <= g.blocks[i].addr && g.base <= g.blocks[k].addr
    ensures g.blocks[i].End() <= g.Top() <= |m| && g.blocks[k].End() <= g.Top()
    ensures Word(m, g.blocks[i].addr + 16) == |g.blocks[i].bytes| && Word(m, g.blocks[k].addr + 16) == |g.blocks[k].bytes|
    ensures g.blocks[i].End() <= g.blocks[k].addr || g.blocks[k].End() <= g.blocks[i].addr
    ensures |CopiedBytes(g, i, k)| == HeapModel.Min(|g.blocks[i].bytes|, |g.blocks[k].bytes|)
    ensures var a := g.blocks[i].addr + INFO; m[a..a + |CopiedBytes(g, i, k)|] == CopiedBytes(g, i, k)
    ensures var c := Copied(g, i, k); i != k && HeapModel.Safe(c) && HeapModel.Shape(c) && c.base == g.base && c.size == g.size
    ensures Holds(Put(m, g.blocks[k].addr + INFO, CopiedBytes(g, i, k)), Copied(g, i, k))
  {
    hide EncWord, Put, Word, Holds, HeapModel.Path, HeapModel.Lives, HeapModel.Find, HeapModel.Table, HeapModel.Chain,
      HeapModel.Tied, HeapModel.Contents, Copied, HeapModel.BlockOf, HeapModel.Carry;
    HandleWords(m, g, s);
    HandleWords(m, g, t);
    MoveReady(m, g, s, i, t, k);
    BlocksApart(g, i, k);
    Prefix(m, g.blocks[i], HeapModel.Min(|g.blocks[i].bytes|, |g.blocks[k].bytes|));
  }

  /** GoodRealloc looks at the size only. */
  lemma ReallocSize(h: Heap, s: nat, junk: seq<byte>)
    requires HeapModel.Safe(h) && HeapModel.IsHandle(h, s)
    ensures GoodRealloc(h, s, junk) <==> GoodRealloc(h, s, Blank(|junk|))
  {
    SizeDecides(h, junk);
  }

  /** All that resizing in place rests on. */
  lemma ResizeReady(m: seq<byte>, h: Heap, s: nat, n: nat)
    requires HeapModel.Safe(h) && Holds(m, h) && HeapModel.IsHandle(h, s) && !HeapModel.IsNull(h, s)
    requires HeapModel.FitsInPlace(h, HeapModel.BlockOf(h, s), n) && GoodRealloc(h, s, Blank(n))
    ensures var i := HeapModel.BlockOf(h, s);
            h.base <= h.blocks[i].addr && h.blocks[i].addr + INFO + n <= h.Top() <= |m| &&
            var g := HeapModel.Resize(h, i, Junk(m, h.blocks[i].addr, n));
            HeapModel.Safe(g) && HeapModel.Shape(g) && g.base == h.base && g.size == h.size
            && Holds(Put(m, h.blocks[i].addr + 16, EncWord(n)), g)
  {
    hide EncWord, Put, Holds, HeapModel.Path, HeapModel.Lives, Word, HeapModel.Find,
      HeapModel.Table, HeapModel.Tied, HeapModel.Contents, HeapModel.BlockOf, Apart;
    var i := HeapModel.BlockOf(h, s);
    LinkWords(m, h, i);
    GapAddresses(h, i);
    ShapeApart(h);
    ResizeHolds(m, h, i, n);
    ResizeExact(h, s, Junk(m, h.blocks[i].addr, n));
    ReallocSize(h, s, Junk(m, h.blocks[i].addr, n));
  }

  /** After the inner alloc of a move both handles are in the store. */
  lemma MoveAfterAlloc(h: Heap, s: nat, junk: seq<byte>)
    requires HeapModel.Safe(h) && s in HeapModel.Store(h) && AllocOk(h, junk) && HeapModel.Alloc(h, junk).Done?
    ensures var r := HeapModel.Alloc(h, junk);
            HeapModel.Safe(r.heap) && s in HeapModel.Store(r.heap) && r.slot in HeapModel.Store(r.heap) && r.slot != s
  {
    AllocSound(h, junk);
  }

  /** All that one round of the walk rests on. */
  lemma RoundReady(m: seq<byte>, h: Heap, p: nat, k: nat)
    requires Walking(h, p) && Holds(m, h) && p <= k < |h.blocks| && k == HeapModel.LiveFrom(h.blocks, p)
    ensures var b, g := h.blocks[k], HeapModel.Slide(h, p, k);
            && h.base + HEADER <= h.Top() <= |m| && h.base <= b.addr && b.End() <= h.Top()
            && Word(m, h.base + 8) == h.dataEnd && Word(m, b.addr + 16) == |b.bytes| && h.base <= h.dataEnd
            && Walking(g, p + 1) && HeapModel.Shape(g) && g.base == h.base && g.size == h.size && g.beginRef == h.beginRef
            && g.blocks[p].addr == h.dataEnd
            && (p > 0 ==> 0 < h.base <= h.blocks[p - 1].addr && h.blocks[p - 1].End() <= h.Top())
            && (b.addr == h.dataEnd ==> Holds(Put(m, h.base + 8, EncWord(h.dataEnd + INFO + |b.bytes|)), g))
            && (b.addr != h.dataEnd ==>
                  && Word(m, b.addr + 8) == b.ref && h.base <= b.ref && b.ref + SLOT <= h.Top() && h.dataEnd <= b.addr
                  && Holds(RoundStores(m, h, p, k), g))
  {
    hide EncWord, Put, Word, Holds, HeapModel.Path, HeapModel.Lives, HeapModel.Table, HeapModel.Tied, HeapModel.Slide, Packed, Order;
    HeadWords(m, h);
    LinkWords(m, h, k);
    if p > 0 { LinkWords(m, h, p - 1); }
    SlideSound(h, p);
    if h.blocks[k].addr == h.dataEnd {
      StaySound(h, p, k);
      StayIs(h, p, k);
      ShapeApart(h);
      PutHeadWord(m, h, 1, h.dataEnd + INFO + |h.blocks[k].bytes|);
    } else {
      MoveTied(h, p, k);
      SlotBounds(h, h.blocks[k].ref);
      MovedAddr(h, p, k);
      RoundHolds(m, h, p, k);
    }
    PackedAscends(h.blocks[..p], h.Start(), h.dataEnd);
  }

  /** Memory after a block of n bytes, header included, was moved from cur to d, the slot ref and the
      link at prev, if there is one, being led to d. */
  function Placed(m: seq<byte>, cur: nat, prev: nat, d: nat, ref: nat, n: nat): (r: seq<byte>)
    requires d <= cur && cur + n <= |m| && ref + SLOT <= |m| && prev + SLOT <= |m|
    ensures |r| == |m|
  {
    if cur == d then m
    else
      var moved := Put(Put(m, d, m[cur..cur + n]), ref, EncWord(d));
      if prev == 0 then moved else Put(moved, prev, EncWord(d))
  }

  /** What a round needs and does, in the code's own variables. */
  lemma RoundPlaced(m: seq<byte>, h: Heap, p: nat, k: nat)
    requires Walking(h, p) && Holds(m, h) && p <= k < |h.blocks| && k == HeapModel.LiveFrom(h.blocks, p)
    ensures var b, g := h.blocks[k], HeapModel.Slide(h, p, k); var prev := if p == 0 then 0 else h.blocks[p - 1].addr;
            && h.base + HEADER <= h.Top() <= |m| && h.base <= h.dataEnd <= b.addr && b.End() <= h.Top()
            && h.base <= b.ref && b.ref + SLOT <= h.Top() && (prev != 0 ==> h.base <= prev) && prev + SLOT <= h.Top()
            && Word(m, h.base + 8) == h.dataEnd && Word(m, b.addr + 16) == |b.bytes| && Word(m, b.addr + 8) == b.ref
            && Walking(g, p + 1) && HeapModel.Shape(g) && g.base == h.base && g.size == h.size && g.beginRef == h.beginRef
            && g.blocks[p].addr == h.dataEnd
            && Holds(Put(Placed(m, b.addr, prev, h.dataEnd, b.ref, |b.bytes| + INFO), h.base + 8,
                         EncWord(h.dataEnd + INFO + |b.bytes|)), g)
  {
    hide EncWord, Put, Word, Holds, HeapModel.Path, HeapModel.Lives, HeapModel.Table, HeapModel.Tied, HeapModel.Slide, Packed, Order,
      HeapModel.Shape;
    RoundReady(m, h, p, k);
    LinkWords(m, h, k);
    LiveSlot(h, k);
    SlotBounds(h, h.blocks[k].ref);
    hide Walking;
  }

  /** The slot of a live block is one of the table. */
  lemma LiveSlot(h: Heap, k: nat)
    requires HeapModel.Shape(h) && HeapModel.Tied(HeapModel.Lives(h.blocks), h.slots) && k < |h.blocks| && h.blocks[k].Live()
    ensures h.blocks[k].ref in h.slots
  {
    LivesAt(h.blocks, h.Start(), Last(h.blocks).next, k);
  }

  lemma SlotBounds(h: Heap, s: nat)
    requires HeapModel.Shape(h) && s in h.slots
    ensures h.base <= s && s + SLOT <= h.Top() < WORD
  {
    assert h.IsSlot(s);
  }

  lemma StayIs(h: Heap, p: nat, k: nat)
    requires p <= k < |h.blocks| && h.blocks[k].addr == h.dataEnd
    ensures HeapModel.Slide(h, p, k) == WithWord(h, 1, h.dataEnd + INFO + |h.blocks[k].bytes|)
  {
  }

  lemma MovedAddr(h: Heap, p: nat, k: nat)
    requires p <= k < |h.blocks| && h.blocks[k].addr != h.dataEnd
    ensures HeapModel.Slide(h, p, k).blocks[p].addr == h.dataEnd
  {
  }

  lemma WalkReady(m: seq<byte>, h: Heap)
    requires HeapModel.Safe(h) && Holds(m, h) && HoldsBlocks(m, h.dead) && HeapModel.WalkStays(h) && h.used != HEADER
    ensures var c := HeapModel.Chained(h);
            var g := c.(dataEnd := h.Start());
            && c.blocks != [] && c.dead == [] && HeapModel.Shape(g) && Walking(g, 0)
            && h.base + HEADER <= |m| && Holds(Put(m, h.base + 8, EncWord(h.Start())), g)
  {
    hide EncWord, Put, Word, HeapModel.Path, HeapModel.Lives, HeapModel.Stays;
    WalkStaysExactly(h);
    WalkBegins(h);
    ChainedLives(h);
    var c := HeapModel.Chained(h);
    ShapeApart(c);
    PutHeadWord(m, c, 1, h.Start());
  }

  lemma WalkStep(h: Heap, p: nat)
    requires p <= |h.blocks|
    ensures var k := HeapModel.LiveFrom(h.blocks, p);
            HeapModel.Walk(h, p) ==
            if k < |h.blocks| then HeapModel.Walk(HeapModel.Slide(h, p, k), p + 1)
            else if p == 0 then h.(blocks := [], dead := h.blocks) else h
  {
  }

  /** What a walk without live blocks leaves of the chain: memory holds it, and it is clear of the arena
      header. */
  lemma DropAll(m: seq<byte>, h: Heap)
    requires HeapModel.Shape(h) && Holds(m, h)
    ensures var g := h.(blocks := [], dead := h.blocks);
            HeapModel.Shape(g) && Holds(m, g) && HoldsBlocks(m, g.dead) && BlocksClear(g.dead, h.base, HEADER)
    ensures HoldsBlocks(m, []) && BlocksClear([], h.base, HEADER)
  {
    ShapeApart(h);
  }

  /** An arena with blocks has nothing left behind, and nothing that is done to a block changes that. */
  lemma NothingLeft(h: Heap, i: nat)
    requires HeapModel.Safe(h) && i < |h.blocks|
    ensures h.dead == []
    ensures forall s {:trigger HeapModel.Release(h, s, i)} :: HeapModel.Release(h, s, i).dead == []
    ensures forall junk: seq<byte> {:trigger HeapModel.Resize(h, i, junk)} :: HeapModel.Resize(h, i, junk).dead == []
    ensures forall k: nat {:trigger Copied(h, i, k)} | k < |h.blocks| :: Copied(h, i, k).dead == []
  {
  }

  lemma BehindLeft(h: Heap, i: nat, junk: seq<byte>)
    requires HeapModel.Safe(h) && i < |h.blocks|
    ensures HeapModel.AllocBehind(h, i, junk).dead == []
  {
  }

  lemma RedirectLeft(h: Heap, s: nat, i: nat, t: nat, k: nat)
    requires i < |h.blocks| && k < |h.blocks|
    ensures HeapModel.Redirect(h, s, i, t, k).dead == h.dead
  {
  }

  lemma FirstLeft(h: Heap, junk: seq<byte>)
    requires HeapModel.Table(h)
    ensures HeapModel.FirstAlloc(h, junk).dead == []
  {
  }

  lemma SlideLeft(h: Heap, p: nat, k: nat)
    requires p <= k < |h.blocks|
    ensures HeapModel.Slide(h, p, k).dead == h.dead
  {
  }

  lemma ResetReady(m: seq<byte>, h: Heap)
    requires HeapModel.Shape(h) && Holds(m, h)
    ensures h.base + HEADER <= h.Top() <= |m|
    ensures Holds(Put(Put(m, h.base + 8, EncWord(h.Start())), h.base + 16, EncWord(h.Top())),
                  h.(dataEnd := h.Start(), beginRef := h.Top(), blocks := [], dead := [], slots := map[]))
  {
    hide EncWord, Put, HeapModel.Path, HeapModel.Lives, HeapModel.Table, HeapModel.Chain, Holds;
    HeadRoom(m, h);
    ShapeApart(h);
    PutHeadWord(m, h, 1, h.Start());
    var g := h.(dataEnd := h.Start());
    ApartSame(h, g);
    var m' := Put(m, h.base + 8, EncWord(h.Start()));
    PutHeadWord(m', g, 2, h.Top());
    DropTable(Put(m', h.base + 16, EncWord(h.Top())), g.(beginRef := h.Top()));
  }

  lemma HeadRoom(m: seq<byte>, h: Heap)
    requires HeapModel.Shape(h) && Holds(m, h)
    ensures h.base + HEADER <= h.Top() <= |m|
  {
  }

  /** Memory holds the heap also when nothing is looked at but its head. */
  lemma DropTable(m: seq<byte>, h: Heap)
    requires Holds(m, h)
    ensures Holds(m, h.(blocks := [], dead := [], slots := map[]))
  {
  }

  /** One step of the trimming loop. */
  lemma TrimReady(m: seq<byte>, h: Heap)
    requires HeapModel.Table(h) && Apart(h) && Holds(m, h) && h.beginRef < h.Top()
    ensures h.base + HEADER <= h.beginRef && h.Top() <= |m| && h.beginRef in h.slots
    ensures m[h.beginRef] == h.slots[h.beginRef] % 256
    ensures var g := h.(beginRef := h.beginRef + SLOT, slots := h.slots - {h.beginRef});
            HeapModel.Table(g) && Apart(g) && Holds(Put(m, h.base + 16, EncWord(h.beginRef + SLOT)), g)
  {
    hide EncWord, Put, HoldsBlocks;
    TrimStep(h);
    LowByte(h.slots[h.beginRef]);
    assert m[h.beginRef] == m[h.beginRef..h.beginRef + WORD_BYTES][0];
    PutHeadWord(m, h, 2, h.beginRef + SLOT);
  }

  lemma WriteReady(m: seq<byte>, h: Heap, s: nat, k: nat, b: byte)
    requires HeapModel.Safe(h) && Holds(m, h) && s in HeapModel.Store(h) && k < |HeapModel.Store(h)[s]|
    ensures var i := HeapModel.BlockOf(h, s);
            var g, a := HeapRuns.WriteByte(h, i, k, b), h.blocks[i].addr + INFO + k;
            && h.base <= a < h.Top() <= |m| && HeapModel.Safe(g) && HeapModel.Shape(g) && g.base == h.base && g.size == h.size
            && Holds(Put(m, a, [b]), g)
  {
    hide EncWord, Put, Word, HeapModel.Path, HeapModel.Lives, HeapModel.Find, Holds, HeapModel.Table, HeapModel.Chain, HeapModel.Tied;
    HandleWords(m, h, s);
    ShapeApart(h);
    PutBytes(m, h, HeapModel.BlockOf(h, s), k, [b]);
    HeapRuns.WriteSound(h, s, k, b);
  }

  class Allocator {
    const base: nat
    const size: nat
    const mem: array<byte>
    ghost var heap: Heap

    /** The memory holds the ghost heap. */
    ghost predicate Mapped()
      reads this, mem
    {
      heap.base == base && heap.size == size && HeapModel.Shape(heap) && Holds(mem[..], heap)
    }

    ghost predicate Valid()
      reads this, mem
    {
      Mapped() && HeapModel.Safe(heap) && HoldsBlocks(mem[..], heap.dead)
    }

    function Load(a: nat): (v: nat)
      requires a + WORD_BYTES <= mem.Length
      reads mem
      ensures v == Word(mem[..], a)
    {
      assert mem[a..a + WORD_BYTES] == mem[..][a..a + WORD_BYTES];
      Dec(mem[a..a + WORD_BYTES])
    }

    /** One machine store inside the arena. */
    method Store(a: nat, v: nat)
      requires base <= a && a + WORD_BYTES <= base + size <= mem.Length
      modifies mem
      ensures mem[..] == Put(old(mem[..]), a, EncWord(v))
      ensures SameOutside(old(mem[..]), mem[..])
    {
      var w := EncWord(v);
      forall k | 0 <= k < WORD_BYTES {
        mem[a + k] := w[k];
      }
    }

    /** No byte outside the arena differs. */
    predicate SameOutside(m: seq<byte>, m': seq<byte>)
    {
      |m| == |m'| && base + size <= |m| && m'[..base] == m[..base] && m'[base + size..] == m[base + size..]
    }

    // -------------------------------------------------------------- walks

    /** get_next. */
    method GetNext(cur: nat, ghost i: nat) returns (next: nat)
      requires Mapped() && i < |heap.blocks| && cur == heap.blocks[i].addr
      ensures next == HeapModel.NextAddr(heap, i)
    {
      hide EncWord, Image, At, Word, HoldsBlocks, HoldsSlots, HeapModel.Path;
      ReadHead(mem[..], heap);
      LinkWords(mem[..], heap, i);
      var c := Load(cur);
      var beginRef := Load(base + 16);
      ghost var k := i + 1;
      if k < |heap.blocks| { LinkWords(mem[..], heap, k); }
      while c < beginRef && Load(c + 16) == 0
        invariant i < k <= |heap.blocks|
        invariant if k < |heap.blocks| then c == heap.blocks[k].addr else c >= beginRef
        invariant k < |heap.blocks| ==> c + INFO <= beginRef && Word(mem[..], c + 16) == |heap.blocks[k].bytes|
        invariant HeapModel.LiveFrom(heap.blocks, i + 1) == HeapModel.LiveFrom(heap.blocks, k)
        decreases |heap.blocks| - k
      {
        LinkWords(mem[..], heap, k);
        c := Load(c);
        k := k + 1;
        if k < |heap.blocks| { LinkWords(mem[..], heap, k); }
      }
      next := if c < beginRef then c else beginRef;
    }

    /** get_available_ref_space. */
    method GetAvailableRefSpace() returns (ref: nat)
      requires Mapped()
      ensures ref == HeapModel.RefSpace(heap)
    {
      hide EncWord, Image, At, Word, HoldsBlocks, HoldsSlots, HeapModel.Path, HeapModel.Table, HeapModel.Heap.IsSlot;
      TableBottom(heap);
      ReadHead(mem[..], heap);
      var beginRef := Load(base + 16);
      var it: int := base + size - SLOT;
      while it >= beginRef
        invariant heap.IsSlot(it) || it == beginRef - SLOT
        invariant HeapModel.NullSlot(heap, heap.Top() - SLOT) == HeapModel.NullSlot(heap, it)
        decreases it - beginRef + SLOT
      {
        SlotWord(mem[..], heap, it);
        if Load(it) == 0 {
          return it;
        }
        it := it - SLOT;
      }
      ref := beginRef - SLOT;
    }

    // -------------------------------------------------------------- the constructor

    constructor (mem: array<byte>, base: nat, size: nat)
      ensures this.mem == mem && this.base == base && this.size == size
      ensures heap == HeapModel.Heap(base, size, HEADER, base + HEADER, base + size, [], [], map[])
    {
      this.mem, this.base, this.size := mem, base, size;
      heap := HeapModel.Heap(base, size, HEADER, base + HEADER, base + size, [], [], map[]);
    }

    /** Setting up an arena: refused below one size_t; the header words are then written whether
        or not the arena can hold them, and the arena is usable exactly when it can. */
    static method Create(mem: array<byte>, base: nat, size: nat) returns (a: Allocator?)
      requires 0 < base && base + size < WORD && base + size <= mem.Length && base + HEADER <= mem.Length
      modifies mem
      ensures a == null <==> HeapModel.Fresh(base, size) == HeapModel.Throw(HeapModel.NoMemory)
      ensures a == null ==> mem[..] == old(mem[..])
      ensures a != null ==> fresh(a) && a.mem == mem && a.base == base && a.size == size
                            && HeapModel.Fresh(base, size) == HeapModel.Done(a.heap, 0)
                            && (a.Valid() <==> size >= HEADER)
      ensures mem[..base] == old(mem[..base]) && mem[base + HEADER..] == old(mem[base + HEADER..])
    {
      hide EncWord;
      if size < WORD_BYTES {
        return null;
      }
      a := new Allocator(mem, base, size);
      var w := EncWord(HEADER) + EncWord(base + HEADER) + EncWord(base + size);
      forall k | 0 <= k < HEADER {
        mem[base + k] := w[k];
      }
      HeapRuns.FreshExact(base, size);
      assert mem[..] == Put(old(mem[..]), base, w);
      if size >= HEADER { FreshHolds(old(mem[..]), base, size); }
    }

    // -------------------------------------------------------------- alloc

    /** The stores of a new MemoryInfo. */
    method StoreMemoryInfo(to: nat, next: nat, ref: nat, n: nat)
      requires base <= to && to + INFO <= base + size <= mem.Length
      modifies mem
      ensures mem[..] == StoreInfo(old(mem[..]), to, next, ref, n)
      ensures SameOutside(old(mem[..]), mem[..])
    {
      hide EncWord, Put;
      Store(to, next);
      Store(to + 8, ref);
      Store(to + 16, n);
    }

    /** The stores to the arena header, and the slot last. */
    method StoreGeneralInfo(used: nat, dataEnd: nat, beginRef: nat, ref: nat, to: nat)
      requires base + HEADER <= base + size <= mem.Length && base <= ref && ref + SLOT <= base + size
      modifies mem
      ensures mem[..] == Put(StoreHead(old(mem[..]), base, used, dataEnd, beginRef), ref, EncWord(to))
      ensures SameOutside(old(mem[..]), mem[..])
    {
      hide EncWord, Put;
      Store(base, used);
      Store(base + 8, dataEnd);
      Store(base + 16, beginRef);
      Store(ref, to);
    }

    /** The first branch of alloc. */
    method AllocFirst(n: nat, ref: nat) returns (ghost junk: seq<byte>)
      requires Valid() && heap.dataEnd == heap.Start() && ref == HeapModel.RefSpace(heap) && n > 0
      requires heap.Start() + n + INFO <= HeapModel.NewBegin(heap)
      modifies this, mem
      ensures |junk| == n && heap == HeapModel.FirstAlloc(old(heap), junk) && Valid()
      ensures SameOutside(old(mem[..]), mem[..])
    {
      hide EncWord, Put, Word, Holds, HeapModel.Safe, HeapModel.FirstAlloc, HeapModel.Shape, HeapModel.RefSpace;
      ghost var m, h := mem[..], heap;
      FirstReady(m, h, n);
      junk := Junk(m, h.Start(), n);
      var used, dataEnd, beginRef := Load(base), Load(base + 8), Load(base + 16);
      StoreMemoryInfo(dataEnd, base + size, ref, n);
      StoreGeneralInfo(Add(used, n + INFO), dataEnd + n + INFO, HeapModel.Min(beginRef, ref), ref, dataEnd);
      FirstLeft(h, junk);
      heap := HeapModel.FirstAlloc(h, junk);
    }

    /** alloc at the end of block cur, the i-th of the chain, in front of next. */
    method AllocAfter(cur: nat, next: nat, n: nat, ref: nat, ghost i: nat) returns (ghost junk: seq<byte>)
      requires Valid() && i < |heap.blocks| && cur == heap.blocks[i].addr && next == HeapModel.NextAddr(heap, i)
      requires ref == HeapModel.RefSpace(heap) && n > 0 && HeapModel.Gap(heap, i) >= n + INFO
      requires heap.blocks[LastKept(heap, i)].End() <= HeapModel.NewBegin(heap)
      modifies this, mem
      ensures |junk| == n && heap == HeapModel.AllocBehind(old(heap), i, junk) && Valid()
      ensures SameOutside(old(mem[..]), mem[..])
    {
      hide EncWord, Put, Word, Holds, HeapModel.Safe, HeapModel.AllocBehind, HeapModel.Shape, HeapModel.RefSpace, HeapModel.Table,
        HeapModel.NextAddr, HeapModel.Gap, LastKept;
      ghost var m, h := mem[..], heap;
      BehindReady(m, h, i, n);
      junk := Junk(m, h.blocks[i].End(), n);
      var to := cur + INFO + Load(cur + 16);
      var used, dataEnd, beginRef := Load(base), Load(base + 8), Load(base + 16);
      Store(cur, to);
      StoreMemoryInfo(to, next, ref, n);
      StoreGeneralInfo(Add(used, n + INFO), HeapModel.Max(to + n + INFO, dataEnd), HeapModel.Min(beginRef, ref), ref, to);
      BehindLeft(h, i, junk);
      heap := HeapModel.AllocBehind(h, i, junk);
    }

    /** The first-fit walk of alloc. */
    method AllocWalk(n: nat, ref: nat) returns (r: HeapRuns.Result, ghost junk: seq<byte>)
      requires Valid() && heap.blocks != [] && ref == HeapModel.RefSpace(heap)
      requires var i := HeapModel.FirstFit(heap, n + INFO, 0);
               i < |heap.blocks| ==> n > 0 && heap.blocks[LastKept(heap, i)].End() <= HeapModel.NewBegin(heap)
      modifies this, mem
      ensures Valid() && SameOutside(old(mem[..]), mem[..]) && |junk| == n
      ensures var h, i := old(heap), HeapModel.FirstFit(old(heap), n + INFO, 0);
              if i == |h.blocks| then r == HeapRuns.Failed(HeapModel.NoMemory) && heap == h && mem[..] == old(mem[..])
              else r == HeapRuns.Ok(ref) && heap == HeapModel.AllocBehind(h, i, junk)
    {
      hide EncWord, Put, Word, Holds, HeapModel.Path, HeapModel.Lives, HeapModel.AllocBehind, HeapModel.Table,
        HeapModel.Tied, HeapModel.Chain, HeapModel.RefSpace, HeapModel.Gap;
      ghost var m, h := mem[..], heap;
      junk := Blank(n);
      HeadWords(m, h);
      ChainStart(h);
      var beginRef := Load(base + 16);
      var cur := base + HEADER;
      ghost var i := 0;
      while cur < beginRef
        invariant heap == h && mem[..] == m && Valid() && i <= |h.blocks|
        invariant if i < |h.blocks| then cur == h.blocks[i].addr && cur < beginRef else cur == beginRef
        invariant HeapModel.FirstFit(h, n + INFO, 0) == HeapModel.FirstFit(h, n + INFO, i)
        decreases |h.blocks| - i
      {
        var next := GetNext(cur, i);
        BlockWords(m, h, i);
        var curSize := Load(cur + 16);
        GapBySteps(h, i);
        if Sub(Sub(Sub(HeapModel.Min(next, ref), cur), curSize), INFO) >= n + INFO {
          junk := AllocAfter(cur, next, n, ref, i);
          return HeapRuns.Ok(ref), junk;
        }
        cur, i := next, HeapModel.LiveFrom(h.blocks, i + 1);
        if i < |h.blocks| { BlockWords(m, h, i); }
      }
      r := HeapRuns.Failed(HeapModel.NoMemory);
    }

    /** alloc: throws and changes nothing, or returns the slot of a block whose payload is the junk
        it found. */
    method Alloc(n: nat) returns (r: HeapRuns.Result, ghost junk: seq<byte>)
      requires Valid() && n + INFO < WORD && AllocOk(heap, Blank(n))
      modifies this, mem
      ensures |junk| == n && (heap, r) == HeapRuns.Apply(old(heap), HeapModel.Alloc(old(heap), junk))
      ensures Valid() && SameOutside(old(mem[..]), mem[..])
      ensures r.Failed? ==> mem[..] == old(mem[..])
    {
      hide EncWord, Put, Word, Holds, HeapModel.Path, HeapModel.Lives, HeapModel.AllocBehind, HeapModel.FirstAlloc,
        HeapModel.Table, HeapModel.Tied, HeapModel.Chain, HeapModel.RefSpace, HeapModel.FirstFit;
      ghost var m, h := mem[..], heap;
      junk := Blank(n);
      HeadWords(m, h);
      var used, dataEnd, beginRef := Load(base), Load(base + 8), Load(base + 16);
      if Sub(beginRef - base, used) < n + INFO {
        return HeapRuns.Failed(HeapModel.NoMemory), junk;
      }
      var ref := GetAvailableRefSpace();
      if dataEnd >= ref {
        return HeapRuns.Failed(HeapModel.NoMemory), junk;
      }
      if dataEnd == base + HEADER {
        junk := AllocFirst(n, ref);
        r := HeapRuns.Ok(ref);
      } else {
        r, junk := AllocWalk(n, ref);
      }
    }

    // -------------------------------------------------------------- free

    /** Pointer::get: the payload address behind a handle, or null. */
    method Get(p: Pointer) returns (a: nat)
      requires Valid() && HeapModel.IsHandle(heap, p.p)
      ensures a == 0 <==> p.p !in HeapModel.Store(heap)
      ensures a != 0 ==> a == heap.blocks[HeapModel.BlockOf(heap, p.p)].addr + INFO
                         && a + |HeapModel.Store(heap)[p.p]| <= mem.Length
                         && mem[a..a + |HeapModel.Store(heap)[p.p]|] == HeapModel.Store(heap)[p.p]
    {
      hide Word, Holds, HeapModel.Path, HeapModel.Lives, HeapModel.Table, HeapModel.Chain, HeapModel.Tied, HeapModel.Find,
        HeapModel.Heap.IsSlot, HeapModel.Contents;
      HandleCases(heap, p.p);
      if p.p == 0 {
        return 0;
      }
      SlotWord(mem[..], heap, p.p);
      var target := Load(p.p);
      if target == 0 {
        return 0;
      }
      HandleWords(mem[..], heap, p.p);
      a := target + INFO;
    }

    /** free: throws on a null handle and changes nothing, or frees the block and clears the handle. */
    method Free(p: Pointer) returns (r: HeapRuns.Result)
      requires Valid() && HeapModel.IsHandle(heap, p.p)
      modifies this, mem, p
      ensures (heap, r) == HeapRuns.Apply(old(heap), HeapModel.Free(old(heap), old(p.p)))
      ensures Valid() && SameOutside(old(mem[..]), mem[..])
      ensures r.Failed? ==> mem[..] == old(mem[..]) && p.p == old(p.p)
      ensures r.Ok? ==> p.p == 0
      ensures r.Ok? ==> FreeFits(old(mem[..]), old(heap), old(p.p))
                        && mem[..] == FreeStores(old(mem[..]), old(heap), old(p.p), HeapModel.BlockOf(old(heap), old(p.p)))
    {
      hide EncWord, Put, Word, Holds, HeapModel.Path, HeapModel.Lives, HeapModel.Release, HeapModel.Find;
      ghost var m, h, s := mem[..], heap, p.p;
      HandleCases(h, s);
      HeadWords(m, h);
      var from := Get(p);
      if from == 0 {
        return HeapRuns.Failed(HeapModel.InvalidFree);
      }
      ghost var i := HeapModel.BlockOf(h, s);
      FreeReady(m, h, s);
      from := from - INFO;
      var n := Load(from + 16);
      Store(base, Sub(Load(base), n + INFO));
      Store(from + 16, 0);
      Store(p.p, 0);
      NothingLeft(h, i);
      heap := HeapModel.Release(h, s, i);
      p.p := 0;
      r := HeapRuns.Ok(0);
    }

    // -------------------------------------------------------------- realloc

    /** memcpy between two places of the arena that do not overlap. */
    method Copy(dst: nat, src: nat, n: nat)
      requires base <= dst && dst + n <= base + size <= mem.Length && src + n <= mem.Length
      requires src + n <= dst || dst + n <= src
      modifies mem
      ensures mem[..] == Put(old(mem[..]), dst, old(mem[src..src + n]))
      ensures SameOutside(old(mem[..]), mem[..])
    {
      ghost var m := mem[..];
      ghost var want := Put(m, dst, m[src..src + n]);
      for k := 0 to n
        invariant forall y | 0 <= y < mem.Length && !(dst <= y < dst + k) :: mem[y] == m[y]
        invariant forall y | dst <= y < dst + k :: mem[y] == want[y]
      {
        assert mem[src + k] == m[src + k] == m[src..src + n][k] == want[dst + k];
        mem[dst + k] := mem[src + k];
      }
      assert mem[..] == want;
      assert old(mem[src..src + n]) == m[src..src + n];
    }

    /** The memcpy of realloc. */
    method CopyPayload(cur: nat, newInfo: nat, ghost s: nat, ghost i: nat, ghost t: nat, ghost k: nat)
      requires Valid() && s in HeapModel.Store(heap) && t in HeapModel.Store(heap) && s != t
      requires i == HeapModel.BlockOf(heap, s) && k == HeapModel.BlockOf(heap, t)
      requires cur == heap.blocks[i].addr && newInfo == heap.blocks[k].addr
      modifies this, mem
      ensures i != k && heap == Copied(old(heap), i, k) && Valid() && SameOutside(old(mem[..]), mem[..])
      ensures newInfo + INFO + |CopiedBytes(old(heap), i, k)| <= |old(mem[..])|
      ensures mem[..] == Put(old(mem[..]), newInfo + INFO, CopiedBytes(old(heap), i, k))
    {
      hide EncWord, Put, Word, Holds, Copied, CopiedBytes, HeapModel.Safe, HeapModel.Shape, HeapModel.BlockOf, HeapModel.Store;
      ghost var m, g := mem[..], heap;
      CopyReady(m, g, s, i, t, k);
      var n := HeapModel.Min(Load(cur + 16), Load(newInfo + 16));
      assert mem[cur + INFO..cur + INFO + n] == m[cur + INFO..cur + INFO + n];
      Copy(newInfo + INFO, cur + INFO, n);
      NothingLeft(g, i);
      heap := Copied(g, i, k);
    }

    /** The last three stores of realloc. */
    method StoreRedirect(ref: nat, newRef: nat, newInfo: nat)
      requires base <= ref && ref + SLOT <= base + size && base <= newRef && newRef + SLOT <= base + size <= mem.Length
      requires base <= newInfo && newInfo + INFO <= base + size
      modifies mem
      ensures mem[..] == Put(Put(Put(old(mem[..]), ref, EncWord(newInfo)), newRef, EncWord(0)), newInfo + 8, EncWord(ref))
      ensures SameOutside(old(mem[..]), mem[..])
    {
      hide EncWord, Put;
      Store(ref, newInfo);
      Store(newRef, 0);
      Store(newInfo + 8, ref);
    }

    /** The moving part of realloc after its alloc returned the slot t. */
    method Move(p: Pointer, t: nat)
      requires Valid() && p.p in HeapModel.Store(heap) && t in HeapModel.Store(heap) && p.p != t
      modifies this, mem, p
      ensures heap == HeapModel.Redirect(old(heap), old(p.p), HeapModel.BlockOf(old(heap), old(p.p)), t,
                                         HeapModel.BlockOf(old(heap), t))
      ensures Valid() && SameOutside(old(mem[..]), mem[..]) && p.p == old(p.p)
    {
      hide EncWord, Put, Word, Holds, HeapModel.Path, HeapModel.Lives, HeapModel.Release, HeapModel.Redirect, HeapModel.Find,
        HeapModel.Table, HeapModel.Chain, HeapModel.Tied, HeapModel.Contents, Copied, FreeStores, HeapModel.Safe, HeapModel.Shape;
      ghost var m, g, s := mem[..], heap, p.p;
      StoreHandle(g, s);
      StoreHandle(g, t);
      ghost var i, k := HeapModel.BlockOf(g, s), HeapModel.BlockOf(g, t);
      HandleWords(m, g, s);
      HandleWords(m, g, t);
      MoveReady(m, g, s, i, t, k);
      MoveDone(m, g, s, i, t, k);
      var oldRef, cur, newInfo := p.p, Load(p.p), Load(t);
      var newRef := Load(newInfo + 8);
      CopyPayload(cur, newInfo, s, i, t, k);
      StoreHandle(heap, s);
      var r := Free(p);
      StoreRedirect(oldRef, newRef, newInfo);
      p.p := oldRef;
      NothingLeft(g, i);
      RedirectLeft(g, s, i, t, k);
      heap := HeapModel.Redirect(g, s, i, t, k);
    }

    /** realloc: a null handle is allocated; a block with room behind it is resized where it stands;
        any other block moves. When the inner alloc throws, nothing has changed. */
    method Realloc(p: Pointer, n: nat) returns (r: HeapRuns.Result, ghost junk: seq<byte>)
      requires Valid() && HeapModel.IsHandle(heap, p.p) && n + INFO < WORD && GoodRealloc(heap, p.p, Blank(n))
      modifies this, mem, p
      ensures |junk| == n && GoodRealloc(old(heap), old(p.p), junk)
      ensures (heap, r) == HeapRuns.Apply(old(heap), HeapRealloc.Realloc(old(heap), old(p.p), junk))
      ensures Valid() && SameOutside(old(mem[..]), mem[..])
      ensures p.p == if r.Ok? then r.slot else old(p.p)
      ensures r.Failed? ==> mem[..] == old(mem[..])
    {
      hide EncWord, Put, Word, Holds, HeapModel.Path, HeapModel.Lives, HeapModel.Find, HeapModel.Table, HeapModel.Chain,
        HeapModel.Tied, HeapModel.Contents, HeapModel.Redirect, HeapModel.Resize, HeapModel.Alloc;
      ghost var m, h, s := mem[..], heap, p.p;
      HandleCases(h, s);
      HeadWords(m, h);
      var target := Get(p);
      if target == 0 {
        r, junk := Alloc(n);
        ReallocSize(h, s, junk);
        if r.Ok? { p.p := r.slot; }
        return;
      }
      ghost var i := HeapModel.BlockOf(h, s);
      var cur := target - INFO;
      var next := GetNext(cur, i);
      var beginRef := Load(base + 16);
      if Sub(HeapModel.Min(next, beginRef), cur) >= n + INFO {
        ResizeReady(m, h, s, n);
        junk := Junk(m, cur, n);
        ReallocSize(h, s, junk);
        Store(cur + 16, n);
        NothingLeft(h, i);
        heap := HeapModel.Resize(h, i, junk);
        r := HeapRuns.Ok(p.p);
      } else {
        r, junk := Alloc(n);
        ReallocSize(h, s, junk);
        if r.Ok? {
          MoveAfterAlloc(h, s, junk);
          Move(p, r.slot);
          r := HeapRuns.Ok(p.p);
        }
      }
    }

    // -------------------------------------------------------------- defrag

    /** memmove towards lower addresses; source and destination may overlap. */
    method MoveBlock(dst: nat, src: nat, n: nat)
      requires base <= dst <= src && src + n <= base + size <= mem.Length
      modifies mem
      ensures mem[..] == Put(old(mem[..]), dst, old(mem[src..src + n]))
      ensures SameOutside(old(mem[..]), mem[..])
    {
      ghost var m := mem[..];
      ghost var want := Put(m, dst, m[src..src + n]);
      for k := 0 to n
        invariant forall y | 0 <= y < mem.Length && !(dst <= y < dst + k) :: mem[y] == m[y]
        invariant forall y | dst <= y < dst + k :: mem[y] == want[y]
      {
        assert mem[src + k] == m[src + k] == m[src..src + n][k] == want[dst + k];
        mem[dst + k] := mem[src + k];
      }
      assert mem[..] == want;
      assert old(mem[src..src + n]) == m[src..src + n];
    }

    /** The body of a round up to its last store: a block that is not yet at the end of the packed
        ones moves there. */
    method PlaceBlock(cur: nat, prev: nat, dataEnd: nat, n: nat, ghost ref: nat) returns (moved: nat)
      requires base <= dataEnd <= cur && cur + n <= base + size <= mem.Length && INFO <= n && Word(mem[..], cur + 8) == ref
      requires base <= ref && ref + SLOT <= base + size && (prev != 0 ==> base <= prev) && prev + SLOT <= base + size
      modifies mem
      ensures moved == dataEnd && mem[..] == Placed(old(mem[..]), cur, prev, dataEnd, ref, n)
      ensures SameOutside(old(mem[..]), mem[..])
    {
      hide EncWord, Put, Word;
      moved := cur;
      if cur != dataEnd {
        var slot := Load(cur + 8);
        MoveBlock(dataEnd, cur, n);
        assert old(mem[..])[cur..cur + n] == old(mem[cur..cur + n]);
        moved := dataEnd;
        Store(slot, moved);
        if prev != 0 {
          Store(prev, moved);
        }
      }
    }

    /** One round of the walk: block cur, the k-th of the chain, joins the packed blocks. prev is
        the last of those, or 0. */
    method Round(cur: nat, prev: nat, ghost p: nat, ghost k: nat) returns (moved: nat)
      requires Mapped() && Walking(heap, p) && p <= k < |heap.blocks| && k == HeapModel.LiveFrom(heap.blocks, p)
      requires cur == heap.blocks[k].addr && prev == if p == 0 then 0 else heap.blocks[p - 1].addr
      modifies this, mem
      ensures heap == HeapModel.Slide(old(heap), p, k) && Mapped() && Walking(heap, p + 1) && heap.dead == old(heap.dead)
      ensures SameOutside(old(mem[..]), mem[..])
      ensures moved == heap.blocks[p].addr && heap.beginRef == old(heap.beginRef)
    {
      hide EncWord, Put, Word, Holds, HeapModel.Slide, HeapModel.Shape, Walking, Placed;
      ghost var m, h := mem[..], heap;
      RoundPlaced(m, h, p, k);
      var dataEnd, n := Load(base + 8), Load(cur + 16);
      moved := PlaceBlock(cur, prev, dataEnd, n + INFO, h.blocks[k].ref);
      Store(base + 8, moved + INFO + n);
      SlideLeft(h, p, k);
      heap := HeapModel.Slide(h, p, k);
    }

    /** The first block of the walk: the first of the chain, or the first behind it that is not
        freed, or begin_ref. */
    method FirstLive() returns (cur: nat)
      requires Mapped() && heap.blocks != []
      ensures var k := HeapModel.LiveFrom(heap.blocks, 0);
              if k < |heap.blocks| then cur == heap.blocks[k].addr && cur < heap.beginRef else cur == heap.beginRef
    {
      hide EncWord, Put, Word, Holds, HeapModel.Lives, HeapModel.Table, HeapModel.Chain;
      ChainStart(heap);
      cur := base + HEADER;
      LinkWords(mem[..], heap, 0);
      if Load(cur + 16) == 0 {
        cur := GetNext(cur, 0);
      }
      ghost var k := HeapModel.LiveFrom(heap.blocks, 0);
      if k < |heap.blocks| { LinkWords(mem[..], heap, k); }
    }

    /** The compaction walk of defrag. */
    method Compact()
      requires Valid() && HeapModel.WalkStays(heap) && heap.used != HEADER
      modifies this, mem
      ensures heap == Middle(old(heap)) && Mapped() && SameOutside(old(mem[..]), mem[..])
      ensures HoldsBlocks(mem[..], heap.dead) && BlocksClear(heap.dead, base, HEADER)
    {
      hide EncWord, Put, Word, Holds, HeapModel.Path, HeapModel.Lives, HeapModel.Table, HeapModel.Chain, HeapModel.Tied,
        HeapModel.Slide, HeapModel.Walk, Packed, Order, HoldsBlocks, BlocksClear, HeapModel.WalkStays, HeapModel.Safe;
      ghost var m, h := mem[..], heap;
      HeadWords(m, h);
      WalkReady(m, h);
      Store(base + 8, base + HEADER);
      heap := HeapModel.Chained(h).(dataEnd := h.Start());
      HeadWords(mem[..], heap);
      var cur := FirstLive();
      var prev := 0;
      ghost var p, k := 0, HeapModel.LiveFrom(heap.blocks, 0);
      var beginRef := Load(base + 16);
      while cur < beginRef
        invariant Mapped() && Walking(heap, p) && SameOutside(m, mem[..])
        invariant beginRef == heap.beginRef && HeapModel.Walk(heap, p) == Middle(h) && heap.dead == []
        invariant k == HeapModel.LiveFrom(heap.blocks, p)
        invariant if k < |heap.blocks| then cur == heap.blocks[k].addr && cur < beginRef else cur == beginRef
        invariant prev == if p == 0 then 0 else heap.blocks[p - 1].addr
        decreases |heap.blocks| - p
      {
        WalkStep(heap, p);
        cur := Round(cur, prev, p, k);
        p := p + 1;
        prev := cur;
        cur := GetNext(cur, p - 1);
        k := HeapModel.LiveFrom(heap.blocks, p);
        if k < |heap.blocks| { LinkWords(mem[..], heap, k); }
      }
      WalkStep(heap, p);
      DropAll(mem[..], heap);
      heap := Middle(h);
    }

    /** The trimming loop of defrag. */
    method TrimTable()
      requires Mapped() && HoldsBlocks(mem[..], heap.dead) && BlocksClear(heap.dead, base, HEADER)
      modifies this, mem
      ensures HoldsBlocks(mem[..], heap.dead)
      ensures heap == HeapModel.Trim(old(heap)) && Holds(mem[..], heap) && heap.base == base && heap.size == size
      ensures SameOutside(old(mem[..]), mem[..])
    {
      hide EncWord, Put, Word, Holds, HeapModel.Path, HeapModel.Lives, HeapModel.Table, HeapModel.Chain, HeapModel.Tied, Apart;
      ghost var m, h := mem[..], heap;
      HeadWords(m, h);
      ShapeApart(h);
      var beginRef := Load(base + 16);
      while beginRef < base + size && mem[beginRef] == 0
        invariant Holds(mem[..], heap) && HeapModel.Table(heap) && Apart(heap) && SameOutside(m, mem[..])
        invariant heap.base == base && heap.size == size && heap.beginRef == beginRef
        invariant heap.dead == h.dead && HoldsBlocks(mem[..], heap.dead)
        invariant HeapModel.Trim(heap) == HeapModel.Trim(h)
        decreases base + size - beginRef
      {
        TrimReady(mem[..], heap);
        KeepBlocks(mem[..], base + 16, EncWord(beginRef + SLOT), h.dead);
        beginRef := beginRef + SLOT;
        Store(base + 16, beginRef);
        heap := heap.(beginRef := beginRef, slots := heap.slots - {heap.beginRef});
      }
      if beginRef < base + size { TrimReady(mem[..], heap); }
    }

    /** defrag, as long as it reads nothing but headers of its chain. After a good one the arena is valid
        again. */
    method Defrag()
      requires Valid() && HeapModel.WalkStays(heap)
      modifies this, mem
      ensures heap == HeapModel.Defrag(old(heap)) && Holds(mem[..], heap)
      ensures GoodDefrag(old(heap)) ==> Valid()
      ensures SameOutside(old(mem[..]), mem[..])
    {
      hide EncWord, Put, Word, Holds, HeapModel.Path, HeapModel.Lives, HeapModel.Table, HeapModel.Chain, HeapModel.Tied, Apart,
        HeapModel.Trim, HeapModel.Walk, GoodDefrag;
      ghost var h := heap;
      HeadWords(mem[..], h);
      if GoodDefrag(h) { DefragSound(h); }
      if Load(base) == HEADER {
        ResetReady(mem[..], h);
        Store(base + 8, base + HEADER);
        Store(base + 16, base + size);
        heap := HeapModel.Defrag(h);
        return;
      }
      Compact();
      TrimTable();
    }

    /** The user's store of one payload byte through Pointer::get. */
    method WriteThrough(p: Pointer, k: nat, b: byte)
      requires Valid() && p.p in HeapModel.Store(heap) && k < |HeapModel.Store(heap)[p.p]|
      modifies this, mem
      ensures heap == HeapRuns.WriteByte(old(heap), HeapModel.BlockOf(old(heap), p.p), k, b) && Valid()
      ensures SameOutside(old(mem[..]), mem[..])
    {
      hide EncWord, Word, Holds, HeapModel.Path, HeapModel.Lives, HeapModel.Find, HeapModel.Tied;
      ghost var m, h := mem[..], heap;
      StoreHandle(h, p.p);
      WriteReady(m, h, p.p, k, b);
      var a := Get(p);
      mem[a + k] := b;
      assert mem[..] == Put(m, a + k, [b]);
      heap := HeapRuns.WriteByte(h, HeapModel.BlockOf(h, p.p), k, b);
    }
  }
}
