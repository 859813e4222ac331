/** When alloc succeeds, where it puts block and slot, and when realloc stays in place: said by addresses,
    for every safe heap. */
module HeapFit {
  import opened Collections
  import opened Words
  import opened HeapModel
  import opened Chains
  import opened HeapAlloc
  import opened HeapRealloc

  // ---------------------------------------------------------------- the slot

  /** The highest null slot of the table, or, if there is none, the word below it. */
  ghost predicate SlotToUse(h: Heap, slot: nat)
  {
    if forall t | t in h.slots :: h.slots[t] != 0 then slot + SLOT == h.beginRef
    else slot in h.slots && h.slots[slot] == 0 && forall t | t in h.slots && t > slot :: h.slots[t] != 0
  }

  lemma {:induction false} ScanDown(h: Heap, s: int)
    requires Table(h) && (h.IsSlot(s) || s == h.beginRef - SLOT)
    ensures forall t | t in h.slots && NullSlot(h, s) < t <= s :: h.slots[t] != 0
    decreases s - h.beginRef + SLOT
  {
    if s >= h.beginRef && h.slots[s as nat] != 0 {
      ScanDown(h, s - SLOT);
      forall t | t in h.slots && NullSlot(h, s) < t <= s ensures h.slots[t] != 0 {
        assert h.IsSlot(t);
      }
    }
  }

  /** The slot that is taken. */
  lemma SlotTaken(h: Heap, slot: nat)
    requires Table(h)
    ensures SlotToUse(h, slot) <==> slot == RefSpace(h)
  {
    ScanDown(h, h.Top() - SLOT);
    var r := RefSpace(h);
    assert forall t | t in h.slots :: h.IsSlot(t) && t <= h.Top() - SLOT;
    if r in h.slots {
      assert forall t | t in h.slots && t > r :: h.slots[t] != 0;
    }
  }

  // ---------------------------------------------------------------- the room

  /** The blocks behind which alloc looks for room: the first of the chain, freed or not, and every live
      one. */
  predicate Candidate(h: Heap, i: nat) { i < |h.blocks| && (i == 0 || h.blocks[i].Live()) }

  /** From address a on, need bytes fit below every live block behind block i, and below the table. */
  predicate Below(h: Heap, i: nat, a: nat, need: nat)
  {
    a + need <= h.beginRef && forall j | i < j < |h.blocks| && h.blocks[j].Live() :: a + need <= h.blocks[j].addr
  }

  /** What the subtraction in size_t says about the room behind block i: need bytes fit below the next live
      block and the slot to be used, or the block has grown over that slot, and the difference wraps. */
  predicate Room(h: Heap, i: nat, slot: nat, need: nat)
    requires i < |h.blocks|
  {
    var end := h.blocks[i].End();
    if slot < end then end - slot + need <= WORD else end + need <= slot && Below(h, i, end, need)
  }

  lemma NextBelow(h: Heap, i: nat, a: nat, need: nat)
    requires Shape(h) && i < |h.blocks|
    ensures Below(h, i, a, need) <==> a + need <= NextAddr(h, i)
    ensures h.blocks[i].End() <= NextAddr(h, i) <= h.beginRef < WORD
  {
    hide Path, Lives;
    var k, z := LiveFrom(h.blocks, i + 1), Last(h.blocks).next;
    GapAddresses(h, i);
    if k < |h.blocks| {
      forall j | i < j < |h.blocks| && h.blocks[j].Live() ensures h.blocks[k].addr <= h.blocks[j].addr {
        if k < j { PathApart(h.blocks, h.Start(), z, k, j); }
      }
    }
  }

  lemma GapIsRoom(h: Heap, i: nat, need: nat)
    requires Shape(h) && i < |h.blocks| && need > 0
    ensures Gap(h, i) >= need <==> Room(h, i, RefSpace(h), need)
  {
    hide Path, Lives, NextAddr, Below;
    NextBelow(h, i, h.blocks[i].End(), need);
  }

  /** The first fit is the first candidate with room. */
  lemma {:induction false} FitIsFirst(h: Heap, need: nat, i: nat)
    requires Shape(h) && need > 0 && i <= |h.blocks| && (i == |h.blocks| || Candidate(h, i))
    ensures var r := FirstFit(h, need, i);
            && (r < |h.blocks| ==> Candidate(h, r) && Room(h, r, RefSpace(h), need))
            && forall j | i <= j < r && Candidate(h, j) :: !Room(h, j, RefSpace(h), need)
    decreases |h.blocks| - i
  {
    hide Path, Lives, Room, Gap;
    if i < |h.blocks| {
      GapIsRoom(h, i, need);
      if Gap(h, i) < need {
        FitIsFirst(h, need, LiveFrom(h.blocks, i + 1));
      }
    }
  }

  // ---------------------------------------------------------------- alloc

  /** alloc put a block of junk behind block i: freed blocks up to the next live one, block k, left the
      chain. */
  ghost predicate PutBehind(h: Heap, i: nat, k: nat, slot: nat, junk: seq<byte>, g: Heap)
  {
    && i < k <= |h.blocks| && (forall j | i < j < k :: !h.blocks[j].Live()) && (k < |h.blocks| ==> h.blocks[k].Live())
    && var a := h.blocks[i].End();
       && g.slots == h.slots[slot := a]
       && g.dataEnd == (if a + INFO + |junk| < h.dataEnd then h.dataEnd else a + INFO + |junk|)
       && g.blocks == h.blocks[..i]
                      + ([h.blocks[i].(next := a)]
                         + ([Block(a, if k < |h.blocks| then h.blocks[k].addr else h.beginRef, slot, junk)] + h.blocks[k..]))
  }

  /** alloc set up the chain. */
  ghost predicate PutFirst(h: Heap, slot: nat, junk: seq<byte>, g: Heap)
  {
    var a := h.Start();
    && g.slots == h.slots[slot := a] && g.dataEnd == a + INFO + |junk|
    && g.blocks == [Block(a, h.Top(), slot, junk)] && g.dead == []
  }

  /** The rest of what alloc leaves. */
  ghost predicate Accounted(h: Heap, slot: nat, junk: seq<byte>, g: Heap)
  {
    && g.base == h.base && g.size == h.size && g.used == (h.used + |junk| + INFO) % WORD
    && g.beginRef == if slot < h.beginRef then slot else h.beginRef
  }

  lemma BehindIs(h: Heap, i: nat, junk: seq<byte>)
    requires Table(h) && i < |h.blocks|
    ensures PutBehind(h, i, LiveFrom(h.blocks, i + 1), RefSpace(h), junk, AllocBehind(h, i, junk))
    ensures Accounted(h, RefSpace(h), junk, AllocBehind(h, i, junk))
  {
    hide Table, RefSpace;
  }

  lemma FirstIs(h: Heap, junk: seq<byte>)
    requires Table(h) && h.dataEnd == h.Start()
    ensures PutFirst(h, RefSpace(h), junk, FirstAlloc(h, junk)) && Accounted(h, RefSpace(h), junk, FirstAlloc(h, junk))
  {
    hide Table, RefSpace;
  }

  lemma FreeIs(h: Heap)
    requires Table(h)
    ensures FreeBytes(h) == (h.beginRef - h.base - h.used) % WORD
  {
  }

  /** alloc succeeds exactly when the counter leaves room for payload and header, data_end lies below the
      slot to be used, and the arena is without blocks or some candidate has the room. */
  lemma AllocSucceeds(h: Heap, slot: nat, junk: seq<byte>)
    requires Safe(h) && SlotToUse(h, slot)
    ensures Alloc(h, junk).Done? <==>
            && (h.beginRef - h.base - h.used) % WORD >= |junk| + INFO && h.dataEnd < slot
            && (h.blocks == [] || exists i :: Candidate(h, i) && Room(h, i, slot, |junk| + INFO))
    ensures Alloc(h, junk).Throw? ==> Alloc(h, junk).error == NoMemory
  {
    hide Path, Lives, Room, Tied, Remains, Chain, FreeBytes, RefSpace, FirstFit, AllocBehind, FirstAlloc, SlotToUse;
    SlotTaken(h, slot);
    FreeIs(h);
    hide Table;
    if h.blocks != [] { FitIsFirst(h, |junk| + INFO, 0); }
  }

  /** The slot it returns is the slot to be used, and the block stands behind the first candidate that has
      the room. */
  lemma AllocPlaces(h: Heap, slot: nat, junk: seq<byte>)
    requires Safe(h) && SlotToUse(h, slot) && Alloc(h, junk).Done?
    ensures Alloc(h, junk).slot == slot && Accounted(h, slot, junk, Alloc(h, junk).heap)
    ensures if h.blocks == [] then PutFirst(h, slot, junk, Alloc(h, junk).heap)
            else exists i: nat, k: nat :: PutBehind(h, i, k, slot, junk, Alloc(h, junk).heap)
                                && Candidate(h, i) && Room(h, i, slot, |junk| + INFO)
                                && forall j | 0 <= j < i && Candidate(h, j) :: !Room(h, j, slot, |junk| + INFO)
  {
    hide Path, Lives, Room, Tied, Remains, Chain, FreeBytes, RefSpace, FirstFit, AllocBehind, FirstAlloc, SlotToUse, PutBehind, PutFirst,
      Accounted;
    SlotTaken(h, slot);
    hide Table;
    if h.blocks == [] {
      FirstIs(h, junk);
    } else {
      FitIsFirst(h, |junk| + INFO, 0);
      BehindIs(h, FirstFit(h, |junk| + INFO, 0), junk);
    }
  }

  // ---------------------------------------------------------------- realloc

  /** The block behind handle s is number i of the chain. */
  predicate Behind(h: Heap, s: nat, i: nat)
  {
    s in h.slots && i < |h.blocks| && h.blocks[i].Live() && h.blocks[i].addr == h.slots[s]
  }

  lemma FitsBelow(h: Heap, i: nat, n: nat)
    requires Shape(h) && i < |h.blocks|
    ensures FitsInPlace(h, i, n) <==> Below(h, i, h.blocks[i].addr, INFO + n)
  {
    hide Path, Lives, NextAddr, Below;
    NextBelow(h, i, h.blocks[i].addr, INFO + n);
  }

  lemma SameBlock(h: Heap, s: nat, i: nat)
    requires Safe(h) && Behind(h, s, i) && h.slots[s] != 0 && IsHandle(h, s)
    ensures BlockOf(h, s) == i && s in Store(h)
  {
    hide Lives;
    if BlockOf(h, s) != i { PathDistinct(h.blocks, h.Start(), Last(h.blocks).next, i, BlockOf(h, s)); }
  }

  /** What a move leaves, given what its alloc left: the slot leads to the new block, the new slot is null,
      and the old block is no longer counted. */
  ghost predicate MovedTo(g: Heap, s: nat, t: nat, old_: nat, o: Heap)
  {
    && s in g.slots && t in g.slots && o.slots == g.slots[s := g.slots[t]][t := 0]
    && o.used == (g.used - old_ - INFO) % WORD && o.beginRef == g.beginRef && o.dataEnd == g.dataEnd
    && o.base == g.base && o.size == g.size && |o.blocks| == |g.blocks|
  }

  lemma Redirected(g: Heap, s: nat, i: nat, t: nat, k: nat)
    requires i < |g.blocks| && k < |g.blocks| && s in g.slots && t in g.slots && g.slots[t] == g.blocks[k].addr && s != t
    ensures MovedTo(g, s, t, |g.blocks[i].bytes|, Redirect(g, s, i, t, k))
  {
    SubTwoParts(g.used, |g.blocks[i].bytes|);
  }

  lemma SubTwoParts(a: nat, n: nat)
    ensures Sub(a, n + INFO) == (a - n - INFO) % WORD
  {
  }

  lemma MovesTo(h: Heap, s: nat, i: nat, junk: seq<byte>)
    requires Safe(h) && s in Store(h) && BlockOf(h, s) == i && GoodRealloc(h, s, junk)
    requires !FitsInPlace(h, i, |junk|) && Alloc(h, junk).Done?
    ensures Realloc(h, s, junk).Done? && Realloc(h, s, junk).slot == s
    ensures MovedTo(Alloc(h, junk).heap, s, Alloc(h, junk).slot, |h.blocks[i].bytes|, Realloc(h, s, junk).heap)
  {
    hide Path, Lives, Alloc, FitsInPlace, Redirect, Tied, Shape, MovedTo, Remains;
    AllocSound(h, junk);
    var g, t := Alloc(h, junk).heap, Alloc(h, junk).slot;
    StoreAgrees(h, g, s);
    StoreAgrees(g, g, t);
    Redirected(g, s, BlockOf(g, s), t, BlockOf(g, t));
  }

  /** Where block i stands it can become n bytes: header and payload end below the next live block and
      below the table. A block that can is resized there and changes nothing but its bytes; any other moves
      into a block that alloc finds, or, if alloc throws, stays as it is. */
  lemma ReallocPlaces(h: Heap, s: nat, i: nat, junk: seq<byte>)
    requires Safe(h) && Behind(h, s, i) && h.slots[s] != 0 && IsHandle(h, s) && GoodRealloc(h, s, junk)
    ensures var fits := Below(h, i, h.blocks[i].addr, INFO + |junk|);
            var o := Realloc(h, s, junk);
            && (o.Done? <==> fits || Alloc(h, junk).Done?)
            && (fits ==> o.slot == s && o.heap == h.(blocks := h.blocks[i := h.blocks[i].(bytes := Carry(h.blocks[i].bytes, junk))]))
            && (!fits && o.Done? ==>
                  o.slot == s && MovedTo(Alloc(h, junk).heap, s, Alloc(h, junk).slot, |h.blocks[i].bytes|, o.heap))
  {
    hide Path, Lives, Below, Alloc, FitsInPlace, Redirect, Tied, MovedTo, Contents, Remains, Carry;
    SameBlock(h, s, i);
    FitsBelow(h, i, |junk|);
    if !FitsInPlace(h, i, |junk|) && Alloc(h, junk).Done? {
      MovesTo(h, s, i, junk);
    }
  }
}
