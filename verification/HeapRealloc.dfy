/** free and realloc against the meaning of the heap. */
module HeapRealloc {
  import opened Collections
  import opened Words
  import opened HeapModel
  import opened Chains
  import opened HeapAlloc

  // ---------------------------------------------------------------- one block changes its size

  lemma Around<T>(s: seq<T>, i: nat, x: T)
    requires i < |s|
    ensures s[i := x] == s[..i] + ([x] + s[i + 1..])
  {
  }

  /** A block of a path may change reference and size while it stays below its next. */
  lemma ReplacePath(bs: seq<Block>, i: nat, b: Block, a: nat, z: nat)
    requires Path(bs, a, z) && i < |bs|
    requires b.addr == bs[i].addr && b.next == bs[i].next
    ensures Path(bs[i := b], a, z) <==> b.End() <= b.next
  {
    PathAt(bs, a, z, i);
    Around(bs, i, b);
    assert ([b] + bs[i + 1..])[1..] == bs[i + 1..];
    PathConcat(bs[..i], [b] + bs[i + 1..], a, z);
    PathExit(bs[..i], a, bs[i].addr);
  }

  /** The live map is the map of the other blocks and the entry of block i. */
  lemma LivesAround(bs: seq<Block>, i: nat, b: Block, a: nat, z: nat)
    requires Path(bs, a, z) && i < |bs| && b.addr == bs[i].addr
    ensures var rest := Lives(bs[i + 1..]) + Lives(bs[..i]);
            bs[i].addr !in rest && Lives(bs[i := b]) == rest + Lives([b])
  {
    Around(bs, i, b);
    LivesPieces(bs[..i], b, [], bs[i + 1..]);
    assert [] + bs[i + 1..] == bs[i + 1..];
    PathAt(bs, a, z, i);
    if b.addr in Lives(bs[..i]) { LivesInside(bs[..i], a, b.addr, b.addr); }
    if b.addr in Lives(bs[i + 1..]) { LivesInside(bs[i + 1..], bs[i].next, z, b.addr); }
    LivesOne(b);
    MapSwap(Lives(bs[i + 1..]), Lives([b]), Lives(bs[..i]));
  }

  lemma MapSwap<K, V>(r: map<K, V>, b: map<K, V>, l: map<K, V>)
    requires b.Keys !! l.Keys
    ensures r + b + l == (r + l) + b
  {
  }

  /** Changing the size of block i changes its own entry of the live map only. */
  lemma ReplaceLives(bs: seq<Block>, i: nat, b: Block, a: nat, z: nat)
    requires Path(bs, a, z) && i < |bs| && b.addr == bs[i].addr
    ensures Lives(bs[i := b]) == if b.Live() then Lives(bs)[b.addr := Payload(b.ref, b.bytes)] else Lives(bs) - {b.addr}
  {
    hide Path, Lives;
    LivesAround(bs, i, b, a, z);
    LivesAround(bs, i, bs[i], a, z);
    assert bs[i := bs[i]] == bs;
    LivesOne(b);
    LivesOne(bs[i]);
  }

  /** Block i of a chain changes size in place: the chain stays one exactly when the block stays
      below its next, and the live map changes at that block only. */
  lemma UpdateBlock(h: Heap, i: nat, b: Block)
    requires Shape(h) && i < |h.blocks|
    requires b.addr == h.blocks[i].addr && b.next == h.blocks[i].next && b.End() <= h.beginRef
    ensures Shape(h.(blocks := h.blocks[i := b])) <==> b.End() <= b.next
    ensures Lives(h.blocks[i := b])
         == if b.Live() then Lives(h.blocks)[b.addr := Payload(b.ref, b.bytes)] else Lives(h.blocks) - {b.addr}
  {
    ReplacePath(h.blocks, i, b, h.Start(), Last(h.blocks).next);
    ReplaceLives(h.blocks, i, b, h.Start(), Last(h.blocks).next);
  }

  lemma BlockBounds(h: Heap, i: nat)
    requires Shape(h) && i < |h.blocks|
    ensures h.blocks[i].End() <= h.blocks[i].next && h.blocks[i].End() <= h.beginRef
  {
    GapAddresses(h, i);
    PathAt(h.blocks, h.Start(), Last(h.blocks).next, i);
  }

  // ---------------------------------------------------------------- free

  lemma TiedRemove(lives: map<nat, Payload>, slots: map<nat, nat>, s: nat)
    requires Tied(lives, slots) && s in slots && slots[s] != 0
    ensures Tied(lives - {slots[s]}, slots[s := 0])
    ensures Contents(lives - {slots[s]}, slots[s := 0]) == Contents(lives, slots) - {s}
  {
  }

  /** free keeps the heap invariant and removes exactly the freed handle; every other handle
      keeps its slot and its bytes. On a null handle it throws. */
  lemma FreeSound(h: Heap, s: nat)
    requires Safe(h) && IsHandle(h, s)
    ensures Free(h, s) == Throw(InvalidFree) <==> s !in Store(h)
    ensures s in Store(h) ==>
              Free(h, s).Done? && Safe(Free(h, s).heap) && Store(Free(h, s).heap) == Store(h) - {s}
  {
    if s in Store(h) { ReleaseSafe(h, s, BlockOf(h, s)); }
  }

  lemma ReleaseSafe(h: Heap, s: nat, i: nat)
    requires Safe(h) && s in h.slots && h.slots[s] != 0
    requires i < |h.blocks| && h.blocks[i].addr == h.slots[s]
    ensures Safe(Release(h, s, i)) && Store(Release(h, s, i)) == Store(h) - {s}
  {
    hide Path, Lives;
    BlockBounds(h, i);
    UpdateBlock(h, i, h.blocks[i].(bytes := []));
    TiedRemove(Lives(h.blocks), h.slots, s);
  }

  // ---------------------------------------------------------------- realloc

  /** When realloc keeps the invariant: a null handle and a move need what alloc needs; in place,
      the block keeps at least one byte and does not grow over the header of a freed neighbour,
      to which its link still leads. */
  predicate GoodRealloc(h: Heap, s: nat, junk: seq<byte>)
    requires Safe(h) && IsHandle(h, s)
  {
    if IsNull(h, s) || !FitsInPlace(h, BlockOf(h, s), |junk|) then AllocOk(h, junk)
    else junk != [] && h.blocks[BlockOf(h, s)].addr + INFO + |junk| <= h.blocks[BlockOf(h, s)].next
  }

  lemma TiedResize(lives: map<nat, Payload>, slots: map<nat, nat>, s: nat, bytes: seq<byte>)
    requires Tied(lives, slots) && s in slots && slots[s] != 0
    ensures Tied(lives[slots[s] := Payload(s, bytes)], slots)
    ensures Contents(lives[slots[s] := Payload(s, bytes)], slots) == Contents(lives, slots)[s := bytes]
  {
    assert Contents(lives[slots[s] := Payload(s, bytes)], slots).Keys == Contents(lives, slots)[s := bytes].Keys;
  }

  /** Resizing in place keeps the invariant exactly when it is good; it then keeps the common
      prefix of the payload and every other handle. */
  lemma ResizeExact(h: Heap, s: nat, junk: seq<byte>)
    requires Safe(h) && IsHandle(h, s) && !IsNull(h, s) && FitsInPlace(h, BlockOf(h, s), |junk|)
    ensures Safe(Resize(h, BlockOf(h, s), junk)) <==> GoodRealloc(h, s, junk)
    ensures GoodRealloc(h, s, junk) ==>
              Store(Resize(h, BlockOf(h, s), junk)) == Store(h)[s := Carry(Store(h)[s], junk)]
  {
    var i := BlockOf(h, s);
    var b := h.blocks[i].(bytes := Carry(h.blocks[i].bytes, junk));
    GapAddresses(h, i);
    UpdateBlock(h, i, b);
    if GoodRealloc(h, s, junk) {
      TiedResize(Lives(h.blocks), h.slots, s, b.bytes);
    }
  }

  lemma TiedRedirect(lives: map<nat, Payload>, slots: map<nat, nat>, s: nat, t: nat, bytes: seq<byte>)
    requires Tied(lives, slots) && s in slots && t in slots && s != t && slots[s] != 0 && slots[t] != 0
    ensures var l' := lives[slots[t] := Payload(s, bytes)] - {slots[s]};
            var t' := slots[s := slots[t]][t := 0];
            Tied(l', t') && Contents(l', t') == (Contents(lives, slots) - {t})[s := bytes]
  {
    var l' := lives[slots[t] := Payload(s, bytes)] - {slots[s]};
    var t' := slots[s := slots[t]][t := 0];
    assert Tied(l', t');
    assert Contents(l', t').Keys == (Contents(lives, slots) - {t})[s := bytes].Keys;
  }

  /** Two blocks of a chain change size, the first of them to nothing. */
  lemma UpdateTwo(g: Heap, i: nat, k: nat, moved: Block)
    requires Shape(g) && i < |g.blocks| && k < |g.blocks| && i != k
    requires moved == g.blocks[k].(ref := moved.ref, bytes := moved.bytes) && moved.Live()
    requires |moved.bytes| == |g.blocks[k].bytes|
    ensures var bs := g.blocks[k := moved][i := g.blocks[i].(bytes := [])];
            && Shape(g.(blocks := bs))
            && Lives(bs) == Lives(g.blocks)[moved.addr := Payload(moved.ref, moved.bytes)] - {g.blocks[i].addr}
  {
    var mid := g.(blocks := g.blocks[k := moved]);
    BlockBounds(g, k);
    UpdateBlock(g, k, moved);
    BlockBounds(mid, i);
    UpdateBlock(mid, i, g.blocks[i].(bytes := []));
  }

  /** Slots change value within the same table. */
  lemma RewriteSlots(g: Heap, used: nat, slots: map<nat, nat>)
    requires Shape(g) && used < WORD && slots.Keys == g.slots.Keys
    requires forall s | s in slots :: slots[s] < WORD
    ensures Shape(g.(used := used, slots := slots))
  {
  }

  lemma RedirectSafe(g: Heap, s: nat, i: nat, t: nat, k: nat)
    requires Safe(g) && s in g.slots && t in g.slots && s != t && g.slots[s] != 0 && g.slots[t] != 0
    requires i < |g.blocks| && k < |g.blocks| && g.blocks[k].Live()
    requires g.blocks[i].addr == g.slots[s] && g.blocks[k].addr == g.slots[t]
    ensures Safe(Redirect(g, s, i, t, k))
    ensures Store(Redirect(g, s, i, t, k)) == (Store(g) - {t})[s := Carry(g.blocks[i].bytes, g.blocks[k].bytes)]
  {
    hide Path, Lives;
    var h', live := Redirect(g, s, i, t, k), Lives(g.blocks);
    var bytes := Carry(g.blocks[i].bytes, g.blocks[k].bytes);
    TiedRedirect(live, g.slots, s, t, bytes);
    UpdateTwo(g, i, k, g.blocks[k].(ref := s, bytes := bytes));
    RewriteSlots(g.(blocks := h'.blocks), h'.used, h'.slots);
  }

  /** realloc(p, N) on the handle s. */
  function Realloc(h: Heap, s: nat, junk: seq<byte>): Outcome
    requires Safe(h) && IsHandle(h, s)
    requires !IsNull(h, s) && !FitsInPlace(h, BlockOf(h, s), |junk|) ==> AllocOk(h, junk)
  {
    if IsNull(h, s) then Alloc(h, junk)
    else if FitsInPlace(h, BlockOf(h, s), |junk|) then Done(Resize(h, BlockOf(h, s), junk), s)
    else
      match Alloc(h, junk)
      case Throw(e) => Throw(e)
      case Done(g, t) =>
        AllocSound(h, junk);
        StoreAgrees(h, g, s);
        Done(Redirect(g, s, BlockOf(g, s), t, BlockOf(g, t)), s)
  }

  lemma StoreAgrees(h: Heap, g: Heap, s: nat)
    requires Safe(h) && Safe(g) && s in Store(h) && s in Store(g)
    ensures IsHandle(g, s) && !IsNull(g, s)
  {
  }

  /** The move of realloc: what the two steps do to the store together. */
  lemma MoveStore(st: map<nat, seq<byte>>, s: nat, t: nat, junk: seq<byte>)
    requires s in st && t !in st
    ensures s in st[t := junk] && st[t := junk][s] == st[s]
    ensures (st[t := junk] - {t})[s := Carry(st[s], junk)] == st[s := Carry(st[s], junk)]
  {
  }

  lemma MoveSound(h: Heap, s: nat, junk: seq<byte>)
    requires Safe(h) && s in Store(h) && !FitsInPlace(h, BlockOf(h, s), |junk|)
    requires AllocOk(h, junk) && Realloc(h, s, junk).Done?
    ensures Safe(Realloc(h, s, junk).heap) && Realloc(h, s, junk).slot == s
    ensures Store(Realloc(h, s, junk).heap) == Store(h)[s := Carry(Store(h)[s], junk)]
  {
    AllocSound(h, junk);
    var g, t := Alloc(h, junk).heap, Alloc(h, junk).slot;
    StoreAgrees(h, g, s);
    RedirectSafe(g, s, BlockOf(g, s), t, BlockOf(g, t));
    MoveStore(Store(h), s, t, junk);
  }

  /** A good realloc keeps the heap invariant; the handle keeps its slot and the first
      min(old, new) bytes of its payload, whether the block was resized, moved or first created,
      and every other handle keeps its bytes. */
  lemma ReallocSound(h: Heap, s: nat, junk: seq<byte>)
    requires Safe(h) && IsHandle(h, s) && GoodRealloc(h, s, junk)
    requires Realloc(h, s, junk).Done?
    ensures var r := Realloc(h, s, junk);
            && Safe(r.heap)
            && (s in Store(h) ==> r.slot == s && Store(r.heap) == Store(h)[s := Carry(Store(h)[s], junk)])
            && (s !in Store(h) ==> r.slot !in Store(h) && r.slot != 0 && Store(r.heap) == Store(h)[r.slot := junk])
    ensures s in Store(h) ==>
              var was, now := Store(h)[s], Store(Realloc(h, s, junk).heap)[s];
              |now| == |junk| && forall x | 0 <= x < |junk| :: now[x] == if x < |was| then was[x] else junk[x]
  {
    hide Carry, Realloc, Contents;
    if s in Store(h) { CarryKeeps(Store(h)[s], junk); }
    ReallocCases(h, s, junk);
  }

  lemma CarryKeeps(bytes: seq<byte>, junk: seq<byte>)
    ensures forall x | 0 <= x < |junk| :: Carry(bytes, junk)[x] == if x < |bytes| then bytes[x] else junk[x]
  {
  }

  lemma ReallocCases(h: Heap, s: nat, junk: seq<byte>)
    requires Safe(h) && IsHandle(h, s) && GoodRealloc(h, s, junk)
    requires Realloc(h, s, junk).Done?
    ensures var r := Realloc(h, s, junk);
            && Safe(r.heap)
            && (s in Store(h) ==> r.slot == s && Store(r.heap) == Store(h)[s := Carry(Store(h)[s], junk)])
            && (s !in Store(h) ==> r.slot !in Store(h) && r.slot != 0 && Store(r.heap) == Store(h)[r.slot := junk])
  {
    if IsNull(h, s) {
      AllocSound(h, junk);
    } else if FitsInPlace(h, BlockOf(h, s), |junk|) {
      ResizeExact(h, s, junk);
    } else {
      MoveSound(h, s, junk);
    }
  }
}
