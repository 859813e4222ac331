/** defrag as a whole: exactly when it keeps the heap, what it makes of it, and what fits afterwards. */
module HeapCompact {
  import opened Collections
  import opened Words
  import opened HeapModel
  import opened Chains
  import opened HeapAlloc
  import opened HeapRealloc
  import opened HeapDefrag

  // ---------------------------------------------------------------- where blocks end up

  /** The address the payload of slot s gets when the payloads are laid out from at on. */
  function NewAddr(order: seq<Payload>, at: nat, s: nat): nat
  {
    if order == [] || order[0].ref == s then at
    else NewAddr(order[1..], at + INFO + |order[0].bytes|, s)
  }

  lemma {:induction false} PackedAbove(bs: seq<Block>, a: nat, z: nat, x: nat)
    requires Packed(bs, a, z) && x in Lives(bs)
    ensures x >= a
  {
    if x != bs[0].addr { PackedAbove(bs[1..], bs[0].End(), z, x); }
  }

  lemma {:induction false} PackedNewAddr(bs: seq<Block>, a: nat, z: nat, p: Payload)
    requires Packed(bs, a, z) && p in Order(bs)
    ensures NewAddr(Order(bs), a, p.ref) in Lives(bs) && Lives(bs)[NewAddr(Order(bs), a, p.ref)].ref == p.ref
  {
    if bs[0].ref != p.ref {
      assert Order(bs)[1..] == Order(bs[1..]);
      PackedNewAddr(bs[1..], bs[0].End(), z, p);
      PackedAbove(bs[1..], bs[0].End(), z, NewAddr(Order(bs[1..]), bs[0].End(), p.ref));
    }
  }

  lemma {:induction false} LiveInOrder(bs: seq<Block>, x: nat)
    requires x in Lives(bs)
    ensures Lives(bs)[x] in Order(bs)
  {
    if !(bs[0].Live() && bs[0].addr == x) { LiveInOrder(bs[1..], x); }
  }

  /** In a compact heap every slot holds the address its payload's place in the order gives it. */
  lemma CompactAddr(w: Heap, s: nat)
    requires Compact(w) && Tied(Lives(w.blocks), w.slots) && s in w.slots && w.slots[s] != 0
    ensures w.slots[s] == NewAddr(Order(w.blocks), w.Start(), s)
  {
    var n := |Order(w.blocks)|;
    var l, r := w.blocks[..n], w.blocks[n..];
    assert w.blocks == l + r;
    LivesConcat(l, r);
    LivesDead(r);
    assert Lives(w.blocks) == Lives(l);
    LiveInOrder(l, w.slots[s]);
    PackedNewAddr(l, w.Start(), w.dataEnd, Lives(l)[w.slots[s]]);
  }

  // ---------------------------------------------------------------- trimming

  /** The lowest non-null slot at or above s, or the end of the arena. */
  function LowSlot(h: Heap, s: nat): (r: nat)
    requires Table(h) && (h.IsSlot(s) || s == h.Top())
    ensures s <= r <= h.Top() && (r == h.Top() || (h.IsSlot(r) && h.slots[r] != 0))
    ensures forall t | t in h.slots && s <= t < r :: h.slots[t] == 0
    decreases h.Top() - s
  {
    if s == h.Top() || h.slots[s] != 0 then s else LowSlot(h, s + SLOT)
  }

  function Lowest(h: Heap): nat
    requires Table(h)
  {
    LowSlot(h, h.beginRef)
  }

  /** t is the heap h with begin_ref raised to b. */
  ghost predicate Raised(h: Heap, t: Heap, b: nat)
  {
    && t == h.(beginRef := b, slots := t.slots)
    && (forall s | s in t.slots :: s in h.slots && s >= b && t.slots[s] == h.slots[s])
    && (forall s | s in h.slots && s >= b :: s in t.slots)
  }

  lemma TrimStep(h: Heap)
    requires Table(h) && h.beginRef < h.Top()
    ensures var g := h.(beginRef := h.beginRef + SLOT, slots := h.slots - {h.beginRef}); Table(g)
    ensures h.beginRef in h.slots
  {
    var g := h.(beginRef := h.beginRef + SLOT, slots := h.slots - {h.beginRef});
    forall s: nat ensures s in g.slots <==> g.IsSlot(s) {
      if h.IsSlot(s) && s != h.beginRef { assert s >= h.beginRef + SLOT; }
    }
  }

  /** The trimming loop raises begin_ref and drops the slots below it. */
  lemma {:induction false} TrimRaises(h: Heap)
    requires Table(h)
    ensures Trim(h).beginRef >= h.beginRef && Table(Trim(h)) && Raised(h, Trim(h), Trim(h).beginRef)
    decreases h.Top() - h.beginRef
  {
    if h.beginRef < h.Top() {
      TrimStep(h);
      if h.slots[h.beginRef] % 256 == 0 {
        TrimRaises(h.(beginRef := h.beginRef + SLOT, slots := h.slots - {h.beginRef}));
      }
    }
  }

  /** It stops at r when every slot below r has a zero low byte and slot r, if there is one, has not. */
  lemma {:induction false} TrimStops(h: Heap, r: nat)
    requires Table(h) && (r == h.Top() || (r in h.slots && h.slots[r] % 256 != 0))
    requires forall s | s in h.slots && s < r :: h.slots[s] % 256 == 0
    ensures Trim(h).beginRef == r
    decreases h.Top() - h.beginRef
  {
    if h.beginRef < h.Top() {
      TrimStep(h);
      if h.slots[h.beginRef] % 256 == 0 {
        TrimStops(h.(beginRef := h.beginRef + SLOT, slots := h.slots - {h.beginRef}), r);
      }
    }
  }

  /** It runs past r when every slot up to and including r has a zero low byte. */
  lemma {:induction false} TrimPasses(h: Heap, r: nat)
    requires Table(h) && r < h.Top()
    requires forall s | s in h.slots && s <= r :: h.slots[s] % 256 == 0
    ensures Trim(h).beginRef > r
    decreases h.Top() - h.beginRef
  {
    if h.beginRef < h.Top() {
      TrimStep(h);
      TrimRaises(h);
      if h.slots[h.beginRef] % 256 == 0 {
        TrimPasses(h.(beginRef := h.beginRef + SLOT, slots := h.slots - {h.beginRef}), r);
      }
    }
  }

  /** The loop stops at the lowest non-null slot, unless the low byte of that slot is 0: then it
      runs past it. */
  lemma TrimExact(h: Heap)
    requires Table(h)
    ensures (Lowest(h) < h.Top() ==> h.slots[Lowest(h)] % 256 != 0) ==> Trim(h).beginRef == Lowest(h)
    ensures Lowest(h) < h.Top() && h.slots[Lowest(h)] % 256 == 0 ==> Trim(h).beginRef > Lowest(h)
  {
    var r := Lowest(h);
    if r < h.Top() && h.slots[r] % 256 == 0 {
      TrimPasses(h, r);
    } else {
      TrimStops(h, r);
    }
  }

  /** Dropping null slots at the bottom of the table drops no handle. */
  lemma RaiseTied(h: Heap, t: Heap, lives: map<nat, Payload>)
    requires Table(h) && Tied(lives, h.slots) && Raised(h, t, t.beginRef) && t.beginRef == Lowest(h) && 0 !in lives
    ensures Tied(lives, t.slots) && Contents(lives, t.slots) == Contents(lives, h.slots)
  {
    forall a | a in lives ensures lives[a].ref in t.slots && t.slots[lives[a].ref] == a {
      assert h.slots[lives[a].ref] == a;
    }
    assert Contents(lives, t.slots).Keys == Contents(lives, h.slots).Keys;
  }

  // ---------------------------------------------------------------- defrag

  /** Following the links of a path below limit stays on the path exactly when its last link leads to
      limit or above. */
  lemma {:induction false} StaysPath(bs: seq<Block>, a: nat, z: nat, limit: nat)
    requires Path(bs, a, z) && (bs != [] ==> Last(bs).End() <= limit)
    ensures Stays(bs, a, limit) <==> z >= limit
  {
    if bs != [] {
      if |bs| > 1 { PathApart(bs, a, z, 0, |bs| - 1); }
      StaysPath(bs[1..], bs[0].next, z, limit);
      assert Find(bs, a) == 0;
    }
  }

  /** The walk of defrag reads nothing but headers of its chain exactly when the counter stands at the
      bare header or the last link of the chain leads to begin_ref or above. */
  lemma WalkStaysExactly(h: Heap)
    requires Safe(h)
    ensures h.used != HEADER ==> Chained(h).blocks != []
    ensures WalkStays(h) <==> h.used == HEADER || Last(Chained(h).blocks).next >= h.beginRef
  {
    var bs := Chained(h).blocks;
    if bs != [] {
      StaysPath(bs[1..], bs[0].next, Last(bs).next, h.beginRef);
    }
  }

  /** What defrag needs beyond the invariant: the counter it tests must not claim an arena with
      live blocks empty; the last link of the chain must lead out of the blocks, or the walk reads
      whatever it leads to as a header; the lowest used slot must not receive an address whose low
      byte is 0, the only byte the trimming loop tests; and the last link must not fall below the
      raised table. */
  ghost predicate GoodDefrag(h: Heap)
    requires Safe(h)
  {
    if h.used == HEADER then Order(h.blocks) == []
    else
      && Last(Chained(h).blocks).next >= h.beginRef
      && (Order(h.blocks) != [] ==>
            NewAddr(Order(h.blocks), h.Start(), Lowest(h)) % 256 != 0 && Lowest(h) <= Last(h.blocks).next)
  }

  lemma {:induction false} OrderLives(bs: seq<Block>)
    ensures Order(bs) == [] <==> Lives(bs) == map[]
  {
    if bs != [] {
      OrderLives(bs[1..]);
      if bs[0].Live() { assert bs[0].addr in Lives(bs); }
    }
  }

  /** Live blocks there are exactly when a slot is non-null. */
  lemma LowestUsed(h: Heap)
    requires Table(h) && Tied(Lives(h.blocks), h.slots) && 0 !in Lives(h.blocks)
    ensures Order(h.blocks) != [] <==> Lowest(h) < h.Top()
  {
    OrderLives(h.blocks);
    if Order(h.blocks) != [] {
      var a :| a in Lives(h.blocks);
      assert h.slots[Lives(h.blocks)[a].ref] == a;
    }
  }

  lemma LowestSame(h: Heap, w: Heap)
    requires Table(h) && Table(w) && w.base == h.base && w.size == h.size && w.beginRef == h.beginRef
    requires w.slots.Keys == h.slots.Keys && forall s | s in h.slots :: w.slots[s] == 0 <==> h.slots[s] == 0
    ensures Lowest(w) == Lowest(h)
  {
    if Lowest(w) < w.Top() { LowestBound(h, Lowest(w)); }
    if Lowest(h) < h.Top() { LowestBound(w, Lowest(h)); }
  }

  lemma LowestBound(h: Heap, s: nat)
    requires Table(h) && s in h.slots && h.slots[s] != 0
    ensures Lowest(h) <= s
  {
  }

  /** The heap between the walk and the trimming. */
  function Middle(h: Heap): Heap { Walk(Chained(h).(dataEnd := h.Start()), 0) }

  /** The chain as it lies in memory has the live blocks of the heap and no others. */
  lemma ChainedLives(h: Heap)
    requires Safe(h)
    ensures Lives(Chained(h).blocks) == Lives(h.blocks) && Order(Chained(h).blocks) == Order(h.blocks)
    ensures Chained(h).dead == [] && (Order(h.blocks) != [] ==> Chained(h) == h)
  {
    if h.blocks == [] {
      LivesDead(h.dead);
      OrderDead(h.dead);
    }
  }

  lemma WalkBegins(h: Heap)
    requires Safe(h) && h.used != HEADER && Last(Chained(h).blocks).next >= h.beginRef
    ensures Walking(Chained(h).(dataEnd := h.Start()), 0) && Shape(Chained(h))
  {
    ChainedLives(h);
    assert Shape(Chained(h).(dataEnd := h.Start()));
  }

  /** A walk keeps the lowest used slot, and gives it the address of its payload's place in the order. */
  lemma WalkedLow(c: Heap, w: Heap)
    requires Shape(c) && Tied(Lives(c.blocks), c.slots) && 0 !in Lives(c.blocks) && Walked(c, w)
    ensures Lowest(w) == Lowest(c) && 0 !in Lives(w.blocks)
    ensures Order(c.blocks) != [] ==>
              Lowest(c) < c.Top() && w.slots[Lowest(c)] == NewAddr(Order(c.blocks), c.Start(), Lowest(c))
    ensures w.blocks == [] <==> w.dataEnd == w.Start()
  {
    hide Path, Lives, Walk, Order, NewAddr, Packed, Chain;
    LowestSame(c, w);
    NoNullBlock(w);
    LowestUsed(c);
    if Order(c.blocks) != [] {
      CompactAddr(w, Lowest(c));
      CompactEnd(w);
    }
  }

  lemma MiddleSound(h: Heap)
    requires Safe(h) && h.used != HEADER && Last(Chained(h).blocks).next >= h.beginRef
    ensures Tied(Lives(Chained(h).blocks), h.slots) && Walked(Chained(h), Middle(h))
    ensures Lowest(Middle(h)) == Lowest(h) && 0 !in Lives(Middle(h).blocks)
    ensures Order(h.blocks) != [] ==>
              Lowest(h) < h.Top() && Middle(h).slots[Lowest(h)] == NewAddr(Order(h.blocks), h.Start(), Lowest(h))
    ensures Middle(h).blocks == [] <==> Middle(h).dataEnd == h.Start()
  {
    hide Path, Lives, Walk, Order, NewAddr, Packed, Chain, Table, Compact, LowSlot;
    var c := Chained(h);
    ChainedLives(h);
    WalkBegins(h);
    WalkSound(c.(dataEnd := h.Start()), 0);
    SameWalked(c, Middle(h));
    NoNullBlock(c);
    WalkedLow(c, Middle(h));
    LowestChained(h);
  }

  lemma LowestChained(h: Heap)
    requires Table(h)
    ensures Table(Chained(h)) && Lowest(Chained(h)) == Lowest(h)
  {
    assert forall s: nat :: h.IsSlot(s) == Chained(h).IsSlot(s);
    LowSlotSame(h, Chained(h), h.beginRef);
  }

  lemma SameWalked(c: Heap, w: Heap)
    requires Tied(Lives(c.blocks), c.slots) && Walked(c.(dataEnd := c.Start()), w)
    ensures Walked(c, w)
  {
    hide Path, Lives, Order, Packed, Chain, Table, Compact, Tied;
  }

  lemma {:induction false} LowSlotSame(h: Heap, c: Heap, s: nat)
    requires Table(h) && Table(c) && (h.IsSlot(s) || s == h.Top())
    requires c.base == h.base && c.size == h.size && c.beginRef == h.beginRef && c.slots == h.slots
    ensures LowSlot(c, s) == LowSlot(h, s)
    decreases h.Top() - s
  {
    if s < h.Top() && h.slots[s] == 0 { LowSlotSame(h, c, s + SLOT); }
  }

  lemma CompactEnd(w: Heap)
    requires Compact(w) && Order(w.blocks) != []
    ensures w.dataEnd > w.Start()
  {
    var l := w.blocks[..|Order(w.blocks)|];
    PackedAscends(l[1..], l[0].End(), w.dataEnd);
  }

  lemma TrimmedShape(h: Heap, g: Heap)
    requires Shape(h) && Table(g) && Raised(h, g, g.beginRef) && g.beginRef >= h.beginRef
    ensures Shape(g) <==> (h.blocks != [] ==> Last(h.blocks).next >= g.beginRef)
  {
  }

  lemma DefragResets(h: Heap)
    requires Safe(h) && h.used == HEADER && Order(h.blocks) == []
    ensures Safe(Defrag(h)) && Store(Defrag(h)) == Store(h) && Lowest(h) == h.Top()
    ensures Compact(Defrag(h)) && Order(Defrag(h).blocks) == []
  {
    NoNullBlock(h);
    LowestUsed(h);
    OrderLives(h.blocks);
    assert Store(Defrag(h)).Keys == Store(h).Keys;
  }

  /** A trimming loop that stops at the lowest used slot keeps everything. */
  lemma TrimSound(w: Heap)
    requires Shape(w) && Tied(Lives(w.blocks), w.slots) && 0 !in Lives(w.blocks)
    requires Lowest(w) < w.Top() ==> w.slots[Lowest(w)] % 256 != 0
    requires w.blocks != [] ==> Lowest(w) <= Last(w.blocks).next
    ensures var g := Trim(w);
            && Shape(g) && Tied(Lives(g.blocks), g.slots)
            && Contents(Lives(g.blocks), g.slots) == Contents(Lives(w.blocks), w.slots)
            && g.beginRef == Lowest(w) >= w.beginRef && g == w.(beginRef := g.beginRef, slots := g.slots)
  {
    hide Path, Lives;
    TrimRaises(w);
    TrimExact(w);
    RaiseTied(w, Trim(w), Lives(w.blocks));
    TrimmedShape(w, Trim(w));
  }

  /** The trimmed heap behind a walk. */
  lemma TrimmedSound(h: Heap, w: Heap)
    requires Safe(h) && h.used != HEADER && Last(Chained(h).blocks).next >= h.beginRef && w == Middle(h)
    requires Order(h.blocks) != [] ==>
               NewAddr(Order(h.blocks), h.Start(), Lowest(h)) % 256 != 0 && Lowest(h) <= Last(h.blocks).next
    ensures var g := Trim(w);
            && Shape(g) && Tied(Lives(g.blocks), g.slots) && Contents(Lives(g.blocks), g.slots) == Store(h)
            && g.beginRef == Lowest(h) >= h.beginRef && g == w.(beginRef := g.beginRef, slots := g.slots)
  {
    hide Path, Lives, Walk, Order, NewAddr, Packed, Compact, Trim, Chain, Table, Tied;
    ChainedLives(h);
    MiddleSound(h);
    if Order(h.blocks) == [] { LowestIsTop(h); }
    TrimSound(w);
  }

  lemma WalkedParts(c: Heap, w: Heap)
    requires Tied(Lives(c.blocks), c.slots) && Walked(c, w)
    ensures Compact(w) && w.base == c.base && w.size == c.size && w.used == c.used && Order(w.blocks) == Order(c.blocks)
    ensures w.blocks == [] <==> Order(c.blocks) == []
    ensures w.blocks == [] ==> w.dataEnd == w.Start()
    ensures w.dead == if w.blocks == [] then c.blocks else c.dead
  {
    hide Compact, Order, Path, Lives, Tied, Table, Chain;
  }

  lemma SameCompact(w: Heap, b: nat, slots: map<nat, nat>)
    requires Compact(w)
    ensures Compact(w.(beginRef := b, slots := slots))
  {
    hide Order, Packed;
  }

  lemma MiddleIs(h: Heap)
    requires Safe(h) && WalkStays(h) && h.used != HEADER
    ensures Defrag(h) == Trim(Middle(h))
  {
    hide Walk, Trim, WalkStays, Safe;
  }

  /** A good defrag leaves every handle with its slot and its bytes and the handles in their
      order, packs the live blocks without a gap from the header to data_end, and gives every
      unused slot below the lowest used one back. */
  lemma DefragSound(h: Heap)
    requires Safe(h) && GoodDefrag(h)
    ensures WalkStays(h) && Safe(Defrag(h)) && Store(Defrag(h)) == Store(h)
    ensures Compact(Defrag(h)) && Order(Defrag(h).blocks) == Order(h.blocks)
    ensures Defrag(h).beginRef == Lowest(h) && Defrag(h).base == h.base && Defrag(h).size == h.size
    ensures Defrag(h).used == h.used
    ensures Order(h.blocks) == [] ==>
              Defrag(h).blocks == [] && Defrag(h).dead == if h.used == HEADER then [] else Chained(h).blocks
  {
    hide Path, Lives, Walk, NewAddr, Packed, Stays, Trim, Table, Chain, Tied, Remains, Walked, Compact, Order, Middle, Contents;
    WalkStaysExactly(h);
    if h.used == HEADER {
      DefragResets(h);
    } else {
      var c, w := Chained(h), Middle(h);
      ChainedLives(h);
      MiddleSound(h);
      WalkedParts(c, w);
      TrimmedSound(h, w);
      WalkBegins(h);
      LeftBehind(h, Trim(w));
      SameCompact(w, Trim(w).beginRef, Trim(w).slots);
      assert Defrag(h) == Trim(w) by { MiddleIs(h); }
    }
  }

  /** The chain that a walk without live blocks leaves behind is in order. */
  lemma LeftBehind(h: Heap, g: Heap)
    requires Safe(h) && Shape(Chained(h)) && Chained(h).blocks != [] && g.Start() == h.Start() && g.beginRef >= h.beginRef
    requires g.dead == if g.blocks == [] then Chained(h).blocks else []
    requires g.blocks == [] ==> Order(h.blocks) == []
    ensures Remains(g)
  {
    hide Path;
    if g.blocks == [] {
      ChainedLives(h);
      NoneLive(g.dead);
    }
  }

  lemma NoneLive(bs: seq<Block>)
    requires Order(bs) == []
    ensures forall i | 0 <= i < |bs| :: !bs[i].Live()
  {
    forall i | 0 <= i < |bs| ensures !bs[i].Live() {
      if bs[i].Live() { LiveOrder(bs, i); }
    }
  }

  /** The conditions are exactly what defrag needs to stay on its chain and to keep the heap. */
  lemma DefragExact(h: Heap)
    requires Safe(h)
    ensures (WalkStays(h) && Safe(Defrag(h)) && Store(Defrag(h)) == Store(h)) <==> GoodDefrag(h)
  {
    hide Path, Stays;
    WalkStaysExactly(h);
    if GoodDefrag(h) {
      DefragSound(h);
    } else if WalkStays(h) {
      NoNullBlock(h);
      LowestUsed(h);
      assert Lowest(h) in Store(h);
      if h.used != HEADER {
        var w := Middle(h);
        MiddleSound(h);
        TrimRaises(w);
        TrimExact(w);
        TrimmedShape(w, Trim(w));
      }
    }
  }

  /** Behind a good defrag that met no live block, a further one is good exactly when the counter
      stands at the bare header or the last link of the chain, which is still in memory, leads to the
      end of the arena or above; it then changes nothing. */
  lemma DefragAgain(h: Heap)
    requires Safe(h) && GoodDefrag(h) && Order(h.blocks) == []
    ensures WalkStays(h)
    ensures var g := Defrag(h);
            && Safe(g) && (h.used != HEADER ==> Chained(h).blocks != [])
            && (GoodDefrag(g) <==> h.used == HEADER || Last(Chained(h).blocks).next >= h.Top())
            && (GoodDefrag(g) ==> WalkStays(g) && Defrag(g) == g)
  {
    hide Path, Stays, Walk, Trim, Table, Chain, Tied, Lives;
    DefragSound(h);
    LowestIsTop(h);
    var g := Defrag(h);
    if GoodDefrag(g) {
      DefragSound(g);
      WalkStaysExactly(g);
      LowestIsTop(g);
      SameAgain(g);
    }
  }

  lemma LowestIsTop(h: Heap)
    requires Safe(h) && Order(h.blocks) == []
    ensures Lowest(h) == h.Top() && forall s | s in h.slots :: h.slots[s] == 0
  {
    NoNullBlock(h);
    LowestUsed(h);
    OrderLives(h.blocks);
  }

  lemma SameAgain(g: Heap)
    requires Safe(g) && GoodDefrag(g) && Order(g.blocks) == [] && g.beginRef == g.Top() && g.blocks == []
    ensures WalkStays(g) && Defrag(g) == g
  {
    hide Path, Stays;
    WalkStaysExactly(g);
    assert forall s: nat :: s in g.slots <==> g.IsSlot(s);
    assert g.slots == map[];
    if g.used != HEADER {
      var c := Chained(g).(dataEnd := g.Start());
      assert LiveFrom(c.blocks, 0) == |c.blocks|;
    }
  }

  /** The round that packs the first live block moves it, and then stores through prev, which has
      no value yet. */
  predicate StoresThroughUnsetPrev(h: Heap)
  {
    var k := LiveFrom(h.blocks, 0);
    h.used != HEADER && k < |h.blocks| && h.blocks[k].addr != h.Start()
  }

  /** That happens exactly when the first block of the chain is free and another one is not. */
  lemma UnsetPrevExactly(h: Heap)
    requires Safe(h)
    ensures StoresThroughUnsetPrev(h) <==> h.used != HEADER && Order(h.blocks) != [] && !h.blocks[0].Live()
  {
    var k := LiveFrom(h.blocks, 0);
    if k == |h.blocks| {
      OrderDead(h.blocks);
    } else {
      assert h.blocks == h.blocks[..k] + h.blocks[k..];
      OrderConcat(h.blocks[..k], h.blocks[k..]);
      PathConcat(h.blocks[..k], h.blocks[k..], h.Start(), Last(h.blocks).next);
      if k > 0 { PathAscends(h.blocks[1..k], h.blocks[0].next, h.blocks[k].addr); }
    }
  }
}
