/** The compaction walk and the trimming of the slot table. */
module HeapDefrag {
  import opened Collections
  import opened Words
  import opened HeapModel
  import opened Chains
  import opened HeapAlloc
  import opened HeapRealloc

  /** The live payloads in chain order. */
  function Order(bs: seq<Block>): seq<Payload>
  {
    if bs == [] then []
    else if bs[0].Live() then [Payload(bs[0].ref, bs[0].bytes)] + Order(bs[1..])
    else Order(bs[1..])
  }

  lemma {:induction false} OrderConcat(l: seq<Block>, r: seq<Block>)
    ensures Order(l + r) == Order(l) + Order(r)
  {
    if l == [] {
      assert l + r == r;
    } else {
      assert (l + r)[1..] == l[1..] + r;
      OrderConcat(l[1..], r);
    }
  }

  lemma {:induction false} OrderDead(bs: seq<Block>)
    requires forall i | 0 <= i < |bs| :: !bs[i].Live()
    ensures Order(bs) == []
  {
    if bs != [] { OrderDead(bs[1..]); }
  }

  /** Live blocks only, each starting where the one before ends, from a to z. */
  predicate Packed(bs: seq<Block>, a: nat, z: nat)
  {
    if bs == [] then a == z
    else bs[0].addr == a && bs[0].Live() && Packed(bs[1..], bs[0].End(), z)
  }

  lemma {:induction false} PackedSnoc(bs: seq<Block>, b: Block, a: nat, z: nat)
    requires Packed(bs, a, z) && b.addr == z && b.Live()
    ensures Packed(bs + [b], a, b.End())
  {
    if bs == [] {
      assert bs + [b] == [b] && [b][1..] == [];
    } else {
      assert (bs + [b])[1..] == bs[1..] + [b];
      PackedSnoc(bs[1..], b, bs[0].End(), z);
    }
  }

  lemma {:induction false} PackedLast(bs: seq<Block>, a: nat, z: nat)
    requires Packed(bs, a, z) && bs != []
    ensures Last(bs).End() == z && Packed(bs[..|bs| - 1], a, Last(bs).addr)
    ensures Last(bs).Live()
  {
    if |bs| == 1 {
      assert bs[1..] == [];
    } else {
      PackedLast(bs[1..], bs[0].End(), z);
      assert bs[..|bs| - 1][1..] == bs[1..][..|bs| - 2];
    }
  }

  /** What the walk keeps: the first p blocks are packed from the header to data_end, the rest of
      the chain is as it was. */
  ghost predicate Walking(h: Heap, p: nat)
  {
    && Shape(h) && Tied(Lives(h.blocks), h.slots) && p <= |h.blocks|
    && Packed(h.blocks[..p], h.Start(), h.dataEnd)
  }

  lemma RelinkPath(l: seq<Block>, a: nat, d: nat)
    requires Path(l, a, Exit(l, a)) && Packed(l, a, d)
    ensures Path(Relink(l, d), a, d) && d <= Exit(l, a)
  {
    if l != [] {
      var front, prev := l[..|l| - 1], Last(l);
      assert l == front + [prev];
      PathConcat(front, [prev], a, Exit(l, a));
      PackedLast(l, a, d);
      PathConcat(front, [prev.(next := d)], a, d);
      assert [prev][1..] == [] && [prev.(next := d)][1..] == [];
    }
  }

  /** One round on the chain l, dead, b, r: l leads to the new place d of b, dead is skipped. */
  lemma SlidePath(l: seq<Block>, dead: seq<Block>, b: Block, r: seq<Block>, a: nat, d: nat, z: nat)
    requires Path(l + (dead + ([b] + r)), a, z) && Packed(l, a, d)
    ensures d <= b.addr
    ensures d == b.addr ==> dead == []
    ensures Path(Relink(l, d) + ([b.(addr := d)] + r), a, z)
    ensures Path(l, a, Exit(l, a)) && Exit(l, a) <= b.addr && Path(r, b.next, z) && b.End() <= b.next
  {
    var b', e := b.(addr := d), Exit(l, a);
    PathConcat(l, dead + ([b] + r), a, z);
    PathConcat(dead, [b] + r, e, z);
    assert ([b] + r)[1..] == r && ([b'] + r)[1..] == r;
    PathAscends(dead, e, b.addr);
    RelinkPath(l, a, d);
    PathConcat(Relink(l, d), [b'] + r, a, z);
    PathExit(Relink(l, d), a, d);
    if dead != [] { PathAscends(dead[1..], dead[0].next, b.addr); }
  }

  lemma RelinkLives(l: seq<Block>, d: nat)
    ensures Lives(Relink(l, d)) == Lives(l) && Order(Relink(l, d)) == Order(l)
  {
    if l != [] {
      var front, prev := l[..|l| - 1], Last(l);
      assert l == front + [prev];
      LivesConcat(front, [prev]);
      LivesConcat(front, [prev.(next := d)]);
      LivesOne(prev);
      LivesOne(prev.(next := d));
      OrderConcat(front, [prev]);
      OrderConcat(front, [prev.(next := d)]);
      assert [prev][1..] == [] && [prev.(next := d)][1..] == [];
    }
  }

  lemma RelinkPacked(l: seq<Block>, a: nat, d: nat)
    requires Packed(l, a, d)
    ensures Packed(Relink(l, d), a, d)
  {
    if l != [] {
      PackedLast(l, a, d);
      PackedSnoc(l[..|l| - 1], Last(l).(next := d), a, Last(l).addr);
    }
  }

  /** In the live map a round moves one entry, to an address no live block has. */
  lemma SlideLives(l: seq<Block>, dead: seq<Block>, b: Block, r: seq<Block>, a: nat, d: nat, z: nat)
    requires Path(l + (dead + ([b] + r)), a, z) && Packed(l, a, d) && b.Live() && d != b.addr
    requires forall j | 0 <= j < |dead| :: !dead[j].Live()
    ensures var old_, new_ := l + (dead + ([b] + r)), Relink(l, d) + ([b.(addr := d)] + r);
            && d !in Lives(old_) && b.addr in Lives(old_)
            && Lives(old_)[b.addr] == Payload(b.ref, b.bytes)
            && Lives(new_) == (Lives(old_) - {b.addr})[d := Payload(b.ref, b.bytes)]
            && Order(new_) == Order(old_)
  {
    var b' := b.(addr := d);
    SlidePath(l, dead, b, r, a, d, z);
    RelinkLives(l, d);
    RelinkPath(l, a, d);
    if d in Lives(l) { LivesInside(Relink(l, d), a, d, d); }
    if b.addr in Lives(l) { LivesInside(l, a, Exit(l, a), b.addr); }
    if d in Lives(r) { LivesInside(r, b.next, z, d); }
    if b.addr in Lives(r) { LivesInside(r, b.next, z, b.addr); }
    LivesConcat(l, dead + ([b] + r));
    LivesConcat(dead, [b] + r);
    LivesConcat([b], r);
    LivesDead(dead);
    LivesConcat(Relink(l, d), [b'] + r);
    LivesConcat([b'], r);
    LivesOne(b);
    LivesOne(b');
    MapMove(Lives(r), Lives(l), b.addr, d, Payload(b.ref, b.bytes));
    SlideOrder(l, dead, b, r, d);
  }

  lemma MapMove<K, V>(r: map<K, V>, l: map<K, V>, x: K, d: K, v: V)
    requires x !in r && x !in l && d !in r && d !in l && x != d
    ensures var o := ((r + map[x := v]) + map[]) + l;
            d !in o && x in o && o[x] == v && (r + map[d := v]) + l == (o - {x})[d := v]
  {
  }

  lemma SlideOrder(l: seq<Block>, dead: seq<Block>, b: Block, r: seq<Block>, d: nat)
    requires forall j | 0 <= j < |dead| :: !dead[j].Live()
    ensures Order(Relink(l, d) + ([b.(addr := d)] + r)) == Order(l + (dead + ([b] + r)))
  {
    var b' := b.(addr := d);
    RelinkLives(l, d);
    OrderConcat(l, dead + ([b] + r));
    OrderConcat(dead, [b] + r);
    OrderConcat([b], r);
    OrderDead(dead);
    assert [] + Order([b] + r) == Order([b] + r);
    OrderConcat(Relink(l, d), [b'] + r);
    OrderConcat([b'], r);
    OrderOne(b);
    OrderOne(b');
  }

  lemma OrderOne(b: Block)
    ensures Order([b]) == if b.Live() then [Payload(b.ref, b.bytes)] else []
  {
    assert [b][1..] == [];
  }

  lemma TiedMove(lives: map<nat, Payload>, slots: map<nat, nat>, x: nat, d: nat)
    requires Tied(lives, slots) && x in lives && d !in lives && x != 0 && d != 0
    ensures var p := lives[x];
            var l', t' := (lives - {x})[d := p], slots[p.ref := d];
            && p.ref in slots && Tied(l', t') && Contents(l', t') == Contents(lives, slots)
            && t'.Keys == slots.Keys && forall s | s in slots :: t'[s] == 0 <==> slots[s] == 0
  {
    var p := lives[x];
    var l', t' := (lives - {x})[d := p], slots[p.ref := d];
    assert Tied(l', t');
    assert Contents(l', t').Keys == Contents(lives, slots).Keys;
  }

  /** What every round, and so the whole walk, leaves as it was: the place of the arena, the slot
      table with its null slots, the order and the contents of the handles, the final link. */
  ghost predicate SameHandles(h: Heap, g: Heap)
    requires Tied(Lives(h.blocks), h.slots) && Tied(Lives(g.blocks), g.slots)
  {
    && g.base == h.base && g.size == h.size && g.used == h.used && g.beginRef == h.beginRef
    && Contents(Lives(g.blocks), g.slots) == Contents(Lives(h.blocks), h.slots)
    && Order(g.blocks) == Order(h.blocks)
    && g.slots.Keys == h.slots.Keys && (forall s | s in h.slots :: g.slots[s] == 0 <==> h.slots[s] == 0)
  }

  /** The chain around live block k, cut where a round changes it. */
  lemma SlideCut(h: Heap, p: nat, k: nat)
    requires Walking(h, p) && p <= k < |h.blocks|
    ensures var l, dead, b, r := h.blocks[..p], h.blocks[p..k], h.blocks[k], h.blocks[k + 1..];
            && h.blocks == l + (dead + ([b] + r))
            && Path(l + (dead + ([b] + r)), h.Start(), Last(h.blocks).next) && Packed(l, h.Start(), h.dataEnd)
            && h.blocks[k].End() <= h.blocks[k].next && h.blocks[k].End() <= h.beginRef
            && b.addr != 0
  {
    hide Path, Lives, Packed;
    assert h.blocks == h.blocks[..p] + (h.blocks[p..k] + ([h.blocks[k]] + h.blocks[k + 1..]));
    BlockBounds(h, k);
    PathAt(h.blocks, h.Start(), Last(h.blocks).next, k);
  }

  /** A live block already in place: nothing moves. */
  lemma StaySound(h: Heap, p: nat, k: nat)
    requires Walking(h, p) && p <= k < |h.blocks| && h.blocks[k].Live() && h.blocks[k].addr == h.dataEnd
    ensures k == p && Walking(Slide(h, p, k), p + 1)
  {
    hide Path, Lives;
    SlideCut(h, p, k);
    var bs := h.blocks;
    SlidePath(bs[..p], bs[p..k], bs[k], bs[k + 1..], h.Start(), h.dataEnd, Last(bs).next);
    PackedSnoc(bs[..p], bs[k], h.Start(), h.dataEnd);
    assert bs[..p + 1] == bs[..p] + [bs[k]];
  }

  lemma MoveChain(h: Heap, p: nat, k: nat)
    requires Walking(h, p) && p <= k < |h.blocks|
    ensures var bs := Relink(h.blocks[..p], h.dataEnd) + ([h.blocks[k].(addr := h.dataEnd)] + h.blocks[k + 1..]);
            Chain(h.(blocks := bs)) && Last(bs).next == Last(h.blocks).next
    ensures h.dataEnd <= h.blocks[k].addr
  {
    SlideCut(h, p, k);
    var bs, b' := h.blocks, h.blocks[k].(addr := h.dataEnd);
    SlidePath(bs[..p], bs[p..k], bs[k], bs[k + 1..], h.Start(), h.dataEnd, Last(bs).next);
    var all := Relink(bs[..p], h.dataEnd) + ([b'] + bs[k + 1..]);
    assert Last(all) == if k + 1 < |bs| then Last(bs) else b';
  }

  lemma MovePacked(h: Heap, p: nat, b: Block, r: seq<Block>)
    requires p <= |h.blocks| && Packed(h.blocks[..p], h.Start(), h.dataEnd) && b.addr == h.dataEnd && b.Live()
    ensures Packed((Relink(h.blocks[..p], h.dataEnd) + ([b] + r))[..p + 1], h.Start(), b.End())
  {
    var l := Relink(h.blocks[..p], h.dataEnd);
    RelinkPacked(h.blocks[..p], h.Start(), h.dataEnd);
    PackedSnoc(l, b, h.Start(), h.dataEnd);
    assert (l + ([b] + r))[..p + 1] == l + [b];
  }

  lemma MoveShape(h: Heap, p: nat, k: nat)
    requires Walking(h, p) && p <= k < |h.blocks| && h.blocks[k].Live() && h.blocks[k].addr != h.dataEnd
    requires h.blocks[k].ref in h.slots
    ensures var g := Slide(h, p, k);
            Shape(g) && Packed(g.blocks[..p + 1], g.Start(), g.dataEnd) && Last(g.blocks).next == Last(h.blocks).next
  {
    var g := Slide(h, p, k);
    MoveChain(h, p, k);
    MovePacked(h, p, h.blocks[k].(addr := h.dataEnd), h.blocks[k + 1..]);
    BlockBounds(h, k);
    assert Shape(h.(blocks := g.blocks, dataEnd := g.dataEnd));
    RewriteSlots(h.(blocks := g.blocks, dataEnd := g.dataEnd), h.used, g.slots);
  }

  lemma MoveTied(h: Heap, p: nat, k: nat)
    requires Walking(h, p) && p <= k < |h.blocks| && h.blocks[k].Live() && h.blocks[k].addr != h.dataEnd
    requires forall i | p <= i < k :: !h.blocks[i].Live()
    ensures var g := Slide(h, p, k);
            h.blocks[k].ref in h.slots && Tied(Lives(g.blocks), g.slots) && SameHandles(h, g)
  {
    SlideCut(h, p, k);
    var bs := h.blocks;
    SlideLives(bs[..p], bs[p..k], bs[k], bs[k + 1..], h.Start(), h.dataEnd, Last(bs).next);
    PackedAscends(bs[..p], h.Start(), h.dataEnd);
    TiedMove(Lives(bs), h.slots, bs[k].addr, h.dataEnd);
  }

  lemma {:induction false} PackedAscends(bs: seq<Block>, a: nat, z: nat)
    requires Packed(bs, a, z)
    ensures a <= z
  {
    if bs != [] { PackedAscends(bs[1..], bs[0].End(), z); }
  }

  /** A round keeps the walk going: one more block is packed, and no handle noticed. */
  lemma SlideSound(h: Heap, p: nat)
    requires Walking(h, p) && LiveFrom(h.blocks, p) < |h.blocks|
    ensures var g := Slide(h, p, LiveFrom(h.blocks, p));
            && Walking(g, p + 1) && SameHandles(h, g) && Last(g.blocks).next == Last(h.blocks).next
            && g.dead == h.dead && Order(g.blocks) != []
  {
    var k := LiveFrom(h.blocks, p);
    if h.blocks[k].addr == h.dataEnd {
      StaySound(h, p, k);
    } else {
      MoveTied(h, p, k);
      MoveShape(h, p, k);
    }
    LiveOrder(h.blocks, k);
  }

  lemma LiveOrder(bs: seq<Block>, k: nat)
    requires k < |bs| && bs[k].Live()
    ensures Order(bs) != []
  {
    assert bs == bs[..k] + bs[k..];
    OrderConcat(bs[..k], bs[k..]);
  }

  /** The live blocks come first and are packed from the header to data_end; only freed headers
      can follow. */
  predicate Compact(h: Heap)
  {
    var n := |Order(h.blocks)|;
    n <= |h.blocks| && Packed(h.blocks[..n], h.Start(), h.dataEnd) && Order(h.blocks[..n]) == Order(h.blocks)
    && forall i | n <= i < |h.blocks| :: !h.blocks[i].Live()
  }

  lemma {:induction false} PackedOrder(bs: seq<Block>, a: nat, z: nat)
    requires Packed(bs, a, z)
    ensures |Order(bs)| == |bs|
  {
    if bs != [] { PackedOrder(bs[1..], bs[0].End(), z); }
  }

  /** The end of the walk: no live block is left behind the packed ones. */
  lemma WalkEnds(h: Heap, p: nat)
    requires Walking(h, p) && LiveFrom(h.blocks, p) == |h.blocks|
    ensures Compact(h) && |Order(h.blocks)| == p
    ensures p == 0 ==> Lives(h.blocks) == map[] && Order(h.blocks) == []
  {
    var l, r := h.blocks[..p], h.blocks[p..];
    assert h.blocks == l + r;
    PackedOrder(l, h.Start(), h.dataEnd);
    OrderConcat(l, r);
    OrderDead(r);
    if p == 0 {
      assert r == h.blocks;
      LivesDead(r);
    }
  }

  /** What a completed walk has made of h. */
  ghost predicate Walked(h: Heap, w: Heap)
    requires Tied(Lives(h.blocks), h.slots)
  {
    && Shape(w) && Tied(Lives(w.blocks), w.slots) && SameHandles(h, w) && Compact(w)
    && (w.blocks == [] <==> Order(h.blocks) == []) && (w.blocks == [] ==> w.dataEnd == w.Start())
    && w.dead == (if w.blocks == [] then h.blocks else h.dead)
    && (w.blocks != [] ==> h.blocks != [] && Last(w.blocks).next == Last(h.blocks).next)
  }

  lemma WalkStops(h: Heap, p: nat)
    requires Walking(h, p) && LiveFrom(h.blocks, p) == |h.blocks|
    ensures Walked(h, Walk(h, p))
  {
    WalkEnds(h, p);
    var w := Walk(h, p);
    if p == 0 {
      assert w.blocks == [] && Order(w.blocks) == [] && Lives(w.blocks) == map[];
    } else {
      assert w == h;
    }
  }

  lemma WalkedTrans(h: Heap, g: Heap, w: Heap)
    requires Tied(Lives(h.blocks), h.slots) && Tied(Lives(g.blocks), g.slots)
    requires SameHandles(h, g) && Walked(g, w)
    requires h.blocks != [] && g.blocks != [] && Last(g.blocks).next == Last(h.blocks).next
    requires g.dead == h.dead && Order(g.blocks) != []
    ensures Walked(h, w)
  {
  }

  /** The whole walk: the arena is compact and every handle has its slot, its order and its bytes. */
  lemma {:induction false} WalkSound(h: Heap, p: nat)
    requires Walking(h, p)
    ensures Walked(h, Walk(h, p))
    decreases |h.blocks| - p
  {
    var k := LiveFrom(h.blocks, p);
    if k < |h.blocks| {
      SlideSound(h, p);
      var g := Slide(h, p, k);
      WalkSound(g, p + 1);
      WalkedTrans(h, g, Walk(g, p + 1));
    } else {
      WalkStops(h, p);
    }
  }
}
