/** alloc against the meaning of the heap: exactly when it keeps the invariant, and what it adds. */
module HeapAlloc {
  import opened Collections
  import opened Words
  import opened HeapModel
  import opened Chains

  /** The last block that stays in the chain, of the ones there are, when block i gets a successor. */
  function LastKept(h: Heap, i: nat): nat
    requires i < |h.blocks|
  {
    if LiveFrom(h.blocks, i + 1) < |h.blocks| then |h.blocks| - 1 else i
  }

  /** What the code does not check: a block of no bytes looks freed, the first block must leave
      place for its slot, and a slot added below the table must not reach into a block that stays
      in the chain. */
  predicate GoodAlloc(h: Heap, n: nat)
    requires Safe(h)
  {
    && n > 0
    && if h.dataEnd == h.Start() then h.Start() + n + INFO <= NewBegin(h)
       else
         var i := FirstFit(h, n + INFO, 0);
         i < |h.blocks| ==> h.blocks[LastKept(h, i)].End() <= NewBegin(h)
  }

  /** An allocation that goes through has the room; one that throws changes nothing anyway. */
  predicate AllocOk(h: Heap, junk: seq<byte>)
    requires Safe(h)
  {
    Alloc(h, junk).Done? ==> GoodAlloc(h, |junk|)
  }

  /** n bytes, when only their number matters. */
  function Blank(n: nat): (s: seq<byte>)
    ensures |s| == n
  {
    seq(n, _ => 0)
  }

  /** Whether alloc goes through, and whether it has the room, depends on the size alone. */
  lemma SizeDecides(h: Heap, junk: seq<byte>)
    requires Safe(h)
    ensures Alloc(h, junk).Done? <==> Alloc(h, Blank(|junk|)).Done?
    ensures AllocOk(h, junk) <==> AllocOk(h, Blank(|junk|))
  {
  }

  lemma SlotsAfterAlloc(h: Heap, to: nat)
    requires Table(h) && NewBegin(h) >= h.Start() && to < WORD && h.Top() < WORD
    ensures Table(h.(beginRef := NewBegin(h), slots := h.slots[RefSpace(h) := to]))
  {
    var g := h.(beginRef := NewBegin(h), slots := h.slots[RefSpace(h) := to]);
    if RefSpace(h) < h.beginRef {
      forall a: nat ensures a in g.slots <==> g.IsSlot(a) {
        if g.IsSlot(a) && a != RefSpace(h) {
          assert a >= h.beginRef;
        }
      }
    }
  }

  /** A block put behind b, in front of r, extends the path. */
  lemma InsertPath(l: seq<Block>, b: Block, new_: Block, r: seq<Block>, a: nat, z: nat)
    requires Path(l, a, b.addr) && Path(r, new_.next, z)
    requires b.End() == new_.addr && new_.End() <= new_.next
    ensures Path(l + ([b.(next := new_.addr)] + ([new_] + r)), a, z)
  {
    var b' := b.(next := new_.addr);
    assert ([new_] + r)[1..] == r && ([b'] + ([new_] + r))[1..] == [new_] + r;
    PathConcat(l, [b'] + ([new_] + r), a, z);
    PathExit(l, a, b.addr);
  }

  lemma MapInsert<K, V>(r: map<K, V>, b: map<K, V>, l: map<K, V>, x: K, v: V)
    requires x !in b && x !in l
    ensures (r + map[x := v]) + b + l == (r + b + l)[x := v]
  {
  }

  lemma InsertLives(l: seq<Block>, b: Block, dead: seq<Block>, new_: Block, r: seq<Block>, a: nat)
    requires Path(l, a, b.addr) && b.End() == new_.addr && new_.Live()
    requires forall j | 0 <= j < |dead| :: !dead[j].Live()
    ensures Lives(l + ([b.(next := new_.addr)] + ([new_] + r)))
         == Lives(l + ([b] + (dead + r)))[new_.addr := Payload(new_.ref, new_.bytes)]
  {
    var b' := b.(next := new_.addr);
    LivesPieces(l, b, dead, r);
    LivesPieces(l, b', [], [new_] + r);
    assert [] + ([new_] + r) == [new_] + r;
    LivesConcat([new_], r);
    LivesOne(new_);
    LivesOne(b);
    LivesOne(b');
    if new_.addr in Lives(l) { LivesInside(l, a, b.addr, new_.addr); }
    MapInsert(Lives(r), Lives([b]), Lives(l), new_.addr, Payload(new_.ref, new_.bytes));
  }

  /** Addresses around a gap: block i, its next live block k if any, and the last block. */
  lemma GapAddresses(h: Heap, i: nat)
    requires Shape(h) && i < |h.blocks|
    ensures var k := LiveFrom(h.blocks, i + 1);
            && h.Start() <= h.blocks[i].addr && h.blocks[i].End() <= NextAddr(h, i) <= h.beginRef
            && h.blocks[i].End() <= Last(h.blocks).End() <= h.beginRef
            && Path(h.blocks[..i], h.Start(), h.blocks[i].addr)
            && Path(h.blocks[k..], NextAddr(h, i), if k < |h.blocks| then Last(h.blocks).next else NextAddr(h, i))
  {
    var bs, a, z, k := h.blocks, h.Start(), Last(h.blocks).next, LiveFrom(h.blocks, i + 1);
    PathAt(bs, a, z, i);
    PathAt(bs, a, z, |bs| - 1);
    if i < |bs| - 1 { PathApart(bs, a, z, i, |bs| - 1); }
    if k < |bs| {
      PathApart(bs, a, z, i, k);
      PathAt(bs, a, z, k);
      if k < |bs| - 1 { PathApart(bs, a, z, k, |bs| - 1); }
    }
  }

  lemma AllocBehindShape(h: Heap, i: nat, junk: seq<byte>)
    requires Shape(h) && i < |h.blocks|
    requires Gap(h, i) >= |junk| + INFO
    requires h.blocks[LastKept(h, i)].End() <= NewBegin(h)
    ensures Shape(AllocBehind(h, i, junk))
  {
    hide Path, Lives;
    AllocBehindChain(h, i, junk);
    GapAddresses(h, i);
    SlotsAfterAlloc(h, h.blocks[i].End());
  }

  lemma AllocBehindChain(h: Heap, i: nat, junk: seq<byte>)
    requires Shape(h) && i < |h.blocks|
    requires Gap(h, i) >= |junk| + INFO
    requires h.blocks[LastKept(h, i)].End() <= NewBegin(h)
    ensures Chain(AllocBehind(h, i, junk))
  {
    hide Path, Lives;
    var g, k, bs := AllocBehind(h, i, junk), LiveFrom(h.blocks, i + 1), h.blocks;
    var new_ := Block(bs[i].End(), NextAddr(h, i), RefSpace(h), junk);
    GapAddresses(h, i);
    var z' := if k < |bs| then Last(bs).next else NextAddr(h, i);
    InsertPath(bs[..i], bs[i], new_, bs[k..], h.Start(), z');
    assert Last(g.blocks) == if k < |bs| then Last(bs) else new_;
  }

  lemma AllocBehindLives(h: Heap, i: nat, junk: seq<byte>)
    requires Shape(h) && i < |h.blocks| && junk != []
    ensures Lives(AllocBehind(h, i, junk).blocks)
         == Lives(h.blocks)[h.blocks[i].End() := Payload(RefSpace(h), junk)]
  {
    hide Path, Lives, RefSpace, NextAddr;
    var bs, k := h.blocks, LiveFrom(h.blocks, i + 1);
    var new_ := Block(bs[i].End(), NextAddr(h, i), RefSpace(h), junk);
    GapAddresses(h, i);
    Cut(bs, i, k);
    InsertLives(bs[..i], bs[i], bs[i + 1..k], new_, bs[k..], h.Start());
  }

  /** A new live block under a slot that was free joins the bijection. */
  lemma TiedInsert(lives: map<nat, Payload>, slots: map<nat, nat>, to: nat, s: nat, bytes: seq<byte>)
    requires Tied(lives, slots) && 0 !in lives && to !in lives && to != 0
    requires s in slots ==> slots[s] == 0
    ensures Tied(lives[to := Payload(s, bytes)], slots[s := to])
    ensures Contents(lives[to := Payload(s, bytes)], slots[s := to]) == Contents(lives, slots)[s := bytes]
    ensures s !in Contents(lives, slots)
  {
    var l', t' := lives[to := Payload(s, bytes)], slots[s := to];
    TiedThen(lives, slots, to, s, bytes);
    var c, c' := Contents(lives, slots)[s := bytes], Contents(l', t');
    assert c.Keys == c'.Keys;
  }

  lemma TiedThen(lives: map<nat, Payload>, slots: map<nat, nat>, to: nat, s: nat, bytes: seq<byte>)
    requires Tied(lives, slots) && 0 !in lives && to !in lives && to != 0
    requires s in slots ==> slots[s] == 0
    ensures Tied(lives[to := Payload(s, bytes)], slots[s := to])
  {
    var l', t' := lives[to := Payload(s, bytes)], slots[s := to];
    forall a | a in l' ensures l'[a].ref in t' && t'[l'[a].ref] == a {
    }
  }

  lemma GapIsFree(h: Heap, i: nat)
    requires Shape(h) && i < |h.blocks| && NextAddr(h, i) > h.blocks[i].End()
    ensures h.blocks[i].End() !in Lives(h.blocks)
  {
    hide Path, Lives, LiveFrom, Table;
    var bs, k, to := h.blocks, LiveFrom(h.blocks, i + 1), h.blocks[i].End();
    GapAddresses(h, i);
    Cut(bs, i, k);
    LivesPieces(bs[..i], bs[i], bs[i + 1..k], bs[k..]);
    LivesOne(bs[i]);
    if to in Lives(bs[..i]) { LivesInside(bs[..i], h.Start(), bs[i].addr, to); }
    var z := if k < |bs| then Last(bs).next else NextAddr(h, i);
    if to in Lives(bs[k..]) { LivesInside(bs[k..], NextAddr(h, i), z, to); }
  }

  lemma NoNullBlock(h: Heap)
    requires Shape(h)
    ensures 0 !in Lives(h.blocks)
  {
    if 0 in Lives(h.blocks) { LivesInside(h.blocks, h.Start(), Last(h.blocks).next, 0); }
  }

  lemma AllocBehindSafe(h: Heap, i: nat, junk: seq<byte>)
    requires Safe(h) && i < |h.blocks| && junk != []
    requires Gap(h, i) >= |junk| + INFO
    requires h.blocks[LastKept(h, i)].End() <= NewBegin(h)
    ensures Safe(AllocBehind(h, i, junk))
    ensures Store(AllocBehind(h, i, junk)) == Store(h)[RefSpace(h) := junk]
    ensures RefSpace(h) !in Store(h)
  {
    AllocBehindShape(h, i, junk);
    AllocBehindLives(h, i, junk);
    GapAddresses(h, i);
    GapIsFree(h, i);
    NoNullBlock(h);
    TiedInsert(Lives(h.blocks), h.slots, h.blocks[i].End(), RefSpace(h), junk);
  }

  lemma FirstAllocSafe(h: Heap, junk: seq<byte>)
    requires Safe(h) && junk != [] && h.dataEnd == h.Start()
    requires h.Start() + |junk| + INFO <= NewBegin(h)
    ensures Safe(FirstAlloc(h, junk))
    ensures Store(FirstAlloc(h, junk)) == Store(h)[RefSpace(h) := junk]
    ensures RefSpace(h) !in Store(h)
  {
    var g := FirstAlloc(h, junk);
    SlotsAfterAlloc(h, h.Start());
    LivesOne(g.blocks[0]);
    assert Path(g.blocks, h.Start(), h.Top()) by { assert g.blocks[1..] == []; }
    TiedInsert(map[], h.slots, h.Start(), RefSpace(h), junk);
  }

  /** A successful alloc with room for the slot keeps the heap invariant and adds exactly one
      handle, whose payload is the memory it found. */
  lemma AllocSound(h: Heap, junk: seq<byte>)
    requires Safe(h) && GoodAlloc(h, |junk|) && Alloc(h, junk).Done?
    ensures Safe(Alloc(h, junk).heap)
    ensures Store(Alloc(h, junk).heap) == Store(h)[Alloc(h, junk).slot := junk]
    ensures Alloc(h, junk).slot !in Store(h) && Alloc(h, junk).slot != 0
  {
    if h.dataEnd == h.Start() {
      FirstAllocSafe(h, junk);
    } else {
      AllocBehindSafe(h, FirstFit(h, |junk| + INFO, 0), junk);
    }
  }

  /** Two blocks of one path never share an address. */
  lemma DeadAtLive(bs: seq<Block>, a: nat, z: nat, i: nat)
    requires Path(bs, a, z) && i < |bs| && !bs[i].Live()
    ensures bs[i].addr !in Lives(bs)
  {
    if bs[i].addr in Lives(bs) {
      FindLive(bs, a, z, bs[i].addr);
      PathDistinct(bs, a, z, i, Find(bs, bs[i].addr));
    }
  }

  lemma LastAfterAlloc(h: Heap, i: nat, junk: seq<byte>)
    requires Table(h) && i < |h.blocks|
    ensures var g := AllocBehind(h, i, junk).blocks;
            Last(g) == if LiveFrom(h.blocks, i + 1) < |h.blocks| then Last(h.blocks) else g[i + 1]
  {
  }

  /** A block without bytes under a non-null slot is no live block. */
  lemma EmptyBreaks(g: Heap, n: nat, s: nat)
    requires n < |g.blocks| && !g.blocks[n].Live() && s in g.slots && g.slots[s] == g.blocks[n].addr
    ensures !Safe(g)
  {
    if Safe(g) {
      PathAt(g.blocks, g.Start(), Last(g.blocks).next, n);
      DeadAtLive(g.blocks, g.Start(), Last(g.blocks).next, n);
    }
  }

  lemma BehindBreaks(h: Heap, i: nat, junk: seq<byte>)
    requires Table(h) && i < |h.blocks| && h.blocks[LastKept(h, i)].End() > NewBegin(h)
    ensures !Chain(AllocBehind(h, i, junk))
  {
    LastAfterAlloc(h, i, junk);
  }

  /** The room is exactly what alloc needs: without it a successful alloc leaves a heap whose
      invariant is broken. */
  lemma AllocExact(h: Heap, junk: seq<byte>)
    requires Safe(h) && Alloc(h, junk).Done?
    ensures Safe(Alloc(h, junk).heap) <==> GoodAlloc(h, |junk|)
  {
    if GoodAlloc(h, |junk|) {
      AllocSound(h, junk);
    } else if h.dataEnd == h.Start() {
      if junk == [] { EmptyBreaks(FirstAlloc(h, junk), 0, RefSpace(h)); }
    } else {
      var i := FirstFit(h, |junk| + INFO, 0);
      if junk == [] { EmptyBreaks(AllocBehind(h, i, junk), i + 1, RefSpace(h)); } else { BehindBreaks(h, i, junk); }
    }
  }
}
