/** The arena of the compacting allocator as a typed state, and its operations step by step.

    Addresses are absolute and 0 is the null pointer. A block is one element of the chain that
    starts right after the arena header; its payload bytes carry its size, so a freed block is
    a block with no bytes. A compaction that meets no live block resets data_end and so leaves an
    arena without blocks, but not without a chain: the freed headers stay in memory, and the next
    compaction may read them again. They are the field dead. The slot table fills the top of the arena; slots maps the address of
    each of its words to the word, and a handle is the address of its slot. */
module HeapModel {
  import opened Collections
  import opened Words

  const HEADER: nat := 24  // allocated, data_end, begin_ref
  const INFO: nat := 24    // next, reference, size
  const SLOT: nat := 8

  datatype Block = Block(addr: nat, next: nat, ref: nat, bytes: seq<byte>) {
    function End(): nat { addr + INFO + |bytes| }
    predicate Live() { bytes != [] }
  }

  datatype Heap = Heap(base: nat, size: nat, used: nat, dataEnd: nat, beginRef: nat,
                       blocks: seq<Block>, dead: seq<Block>, slots: map<nat, nat>) {
    function Start(): nat { base + HEADER }
    function Top(): nat { base + size }

    /** s is the address of a word of the slot table. */
    predicate IsSlot(s: int) { beginRef <= s < Top() && (Top() - s) % SLOT == 0 }
  }

  datatype Error = NoMemory | InvalidFree

  datatype Outcome = Done(heap: Heap, slot: nat) | Throw(error: Error)

  // ---------------------------------------------------------------- the invariant

  /** Following next from address a visits exactly bs, in ascending order and without overlap,
      and ends at address z. */
  predicate Path(bs: seq<Block>, a: nat, z: nat)
  {
    if bs == [] then a == z
    else bs[0].addr == a && bs[0].End() <= bs[0].next && Path(bs[1..], bs[0].next, z)
  }

  /** The slot table fills the arena from begin_ref to its end. */
  ghost predicate Table(h: Heap)
  {
    && h.Start() <= h.beginRef <= h.Top() && (h.Top() - h.beginRef) % SLOT == 0
    && (forall s: nat :: s in h.slots <==> h.IsSlot(s))
    && (forall s | s in h.slots :: h.slots[s] < WORD)
  }

  /** The chain starts behind the header, stays below the slot table, and its last link leads
      to begin_ref or above. */
  predicate Chain(h: Heap)
  {
    h.blocks != [] ==>
      Path(h.blocks, h.Start(), Last(h.blocks).next)
      && Last(h.blocks).End() <= h.beginRef <= Last(h.blocks).next < WORD
  }

  /** Header, blocks and slots are pairwise disjoint and inside the arena. */
  ghost predicate Shape(h: Heap)
  {
    0 < h.base && h.base + h.size < WORD && h.used < WORD && h.dataEnd < WORD && Table(h) && Chain(h)
  }

  /** What a live block is to its owner. */
  datatype Payload = Payload(ref: nat, bytes: seq<byte>)

  /** The live blocks by address. */
  function Lives(bs: seq<Block>): map<nat, Payload>
  {
    if bs == [] then map[]
    else if bs[0].Live() then Lives(bs[1..])[bs[0].addr := Payload(bs[0].ref, bs[0].bytes)]
    else Lives(bs[1..])
  }

  /** Live blocks and non-null slots are in bijection through reference. */
  predicate Tied(lives: map<nat, Payload>, slots: map<nat, nat>)
  {
    && (forall a | a in lives :: lives[a].ref in slots && slots[lives[a].ref] == a)
    && (forall s | s in slots && slots[s] != 0 :: slots[s] in lives && lives[slots[s]].ref == s)
  }

  /** What is left of a chain lies below the slot table and holds no live block. Its last link may
      lead anywhere: it was good for the table of its time. */
  predicate Remains(h: Heap)
  {
    h.dead != [] ==>
      && h.blocks == [] && Path(h.dead, h.Start(), Last(h.dead).next)
      && Last(h.dead).End() <= h.beginRef && Last(h.dead).next < WORD
      && forall i | 0 <= i < |h.dead| :: !h.dead[i].Live()
  }

  /** The heap invariant. An arena without blocks is recognised by data_end; its counter stands at the
      bare header unless a chain is left in it. */
  ghost predicate Safe(h: Heap)
  {
    && Shape(h) && Tied(Lives(h.blocks), h.slots) && (h.blocks == [] <==> h.dataEnd == h.Start())
    && Remains(h) && (h.blocks == [] ==> (h.dead == [] <==> h.used == HEADER))
  }

  /** What the arena means to its users: the payload behind every handle. */
  ghost function Store(h: Heap): map<nat, seq<byte>>
    requires Safe(h)
  {
    Contents(Lives(h.blocks), h.slots)
  }

  ghost function Contents(lives: map<nat, Payload>, slots: map<nat, nat>): map<nat, seq<byte>>
    requires Tied(lives, slots)
  {
    map s | s in slots && slots[s] != 0 :: lives[slots[s]].bytes
  }

  // ---------------------------------------------------------------- the constructor

  /** A fresh arena; the code refuses only sizes below one size_t. */
  function Fresh(base: nat, size: nat): Outcome
  {
    if size < WORD_BYTES then Throw(NoMemory)
    else Done(Heap(base, size, HEADER, base + HEADER, base + size, [], [], map[]), 0)
  }

  // ---------------------------------------------------------------- walks

  /** Index of the first live block at or after k, or |bs|. */
  function LiveFrom(bs: seq<Block>, k: nat): (r: nat)
    requires k <= |bs|
    ensures k <= r <= |bs|
    ensures r < |bs| ==> bs[r].Live()
    ensures forall i | k <= i < r :: !bs[i].Live()
    decreases |bs| - k
  {
    if k == |bs| || bs[k].Live() then k else LiveFrom(bs, k + 1)
  }

  /** get_next: address of the first live block after block i, or begin_ref. */
  function NextAddr(h: Heap, i: nat): nat
    requires i < |h.blocks|
  {
    var k := LiveFrom(h.blocks, i + 1);
    if k < |h.blocks| then h.blocks[k].addr else h.beginRef
  }

  /** The scan of get_available_ref_space from address s downwards: the first null slot, or the
      word below the table. */
  function NullSlot(h: Heap, s: int): (r: int)
    requires Table(h)
    requires h.IsSlot(s) || s == h.beginRef - SLOT
    ensures h.beginRef - SLOT <= r <= s
    ensures r >= h.beginRef ==> h.IsSlot(r) && h.slots[r as nat] == 0
    ensures r < h.beginRef ==> r == h.beginRef - SLOT
    decreases s - h.beginRef + SLOT
  {
    if s < h.beginRef then s else if h.slots[s as nat] == 0 then s else NullSlot(h, s - SLOT)
  }

  /** get_available_ref_space: the topmost null slot, or one new slot below the table. */
  function RefSpace(h: Heap): (r: nat)
    requires Table(h)
    ensures (r in h.slots && h.slots[r] == 0) || r == h.beginRef - SLOT
  {
    NullSlot(h, h.Top() - SLOT)
  }

  function Min(a: int, b: int): int { if a <= b then a else b }
  function Max(a: int, b: int): int { if a <= b then b else a }

  /** begin_ref after an allocation. */
  function NewBegin(h: Heap): nat
    requires Table(h)
  {
    Min(h.beginRef, RefSpace(h))
  }

  /** Index of the block at address a, or |bs|. */
  function Find(bs: seq<Block>, a: nat): (r: nat)
    ensures r <= |bs|
    ensures r < |bs| ==> bs[r].addr == a
    ensures forall i | 0 <= i < r :: bs[i].addr != a
  {
    if bs == [] || bs[0].addr == a then 0 else 1 + Find(bs[1..], a)
  }

  /** On a path the walk finds the live block at every address of a live block. */
  lemma {:induction false} FindLive(bs: seq<Block>, a: nat, z: nat, x: nat)
    requires Path(bs, a, z) && x in Lives(bs)
    ensures Find(bs, x) < |bs| && bs[Find(bs, x)].Live()
    ensures Lives(bs)[x] == Payload(bs[Find(bs, x)].ref, bs[Find(bs, x)].bytes)
    ensures a <= x && x + INFO < z
  {
    if bs[0].addr != x || !bs[0].Live() {
      FindLive(bs[1..], bs[0].next, z, x);
    } else {
      PathAscends(bs[1..], bs[0].next, z);
    }
  }

  lemma {:induction false} PathAscends(bs: seq<Block>, a: nat, z: nat)
    requires Path(bs, a, z)
    ensures a <= z
  {
    if bs != [] { PathAscends(bs[1..], bs[0].next, z); }
  }

  // ---------------------------------------------------------------- alloc

  /** The free memory alloc computes from its counter, in size_t. */
  function FreeBytes(h: Heap): nat
    requires h.base <= h.beginRef
  {
    Sub(h.beginRef - h.base, h.used)
  }

  /** Room behind block i, up to the next live block or the slot about to be used, in size_t. */
  function Gap(h: Heap, i: nat): nat
    requires Table(h) && i < |h.blocks|
  {
    Sub(Min(NextAddr(h, i), RefSpace(h)), h.blocks[i].End())
  }

  /** The first-fit walk: from block i on, the first visited block with room for need bytes
      behind it, or |blocks|. */
  function FirstFit(h: Heap, need: nat, i: nat): (r: nat)
    requires Table(h) && i <= |h.blocks|
    ensures i <= r <= |h.blocks|
    ensures r < |h.blocks| ==> Gap(h, r) >= need
    decreases |h.blocks| - i
  {
    if i == |h.blocks| || Gap(h, i) >= need then i
    else FirstFit(h, need, LiveFrom(h.blocks, i + 1))
  }

  /** junk became the payload of the first block of an arena without blocks. */
  function FirstAlloc(h: Heap, junk: seq<byte>): Heap
    requires Table(h)
  {
    h.(used := Add(h.used, |junk| + INFO),
       dataEnd := h.dataEnd + |junk| + INFO,
       beginRef := NewBegin(h),
       blocks := [Block(h.dataEnd, h.Top(), RefSpace(h), junk)],
       dead := [],
       slots := h.slots[RefSpace(h) := h.dataEnd])
  }

  /** A block was put right behind block i; freed blocks up to the next live one left the chain. */
  function AllocBehind(h: Heap, i: nat, junk: seq<byte>): Heap
    requires Table(h) && i < |h.blocks|
  {
    var to := h.blocks[i].End();
    h.(used := Add(h.used, |junk| + INFO),
       dataEnd := Max(to + |junk| + INFO, h.dataEnd),
       beginRef := NewBegin(h),
       blocks := h.blocks[..i]
                 + ([h.blocks[i].(next := to)]
                    + ([Block(to, NextAddr(h, i), RefSpace(h), junk)] + h.blocks[LiveFrom(h.blocks, i + 1)..])),
       slots := h.slots[RefSpace(h) := to])
  }

  /** alloc(N). junk is what the N payload bytes happen to hold, |junk| == N. */
  function Alloc(h: Heap, junk: seq<byte>): Outcome
    requires Safe(h)
  {
    var need := |junk| + INFO;
    if FreeBytes(h) < need then Throw(NoMemory)
    else if h.dataEnd >= RefSpace(h) then Throw(NoMemory)
    else if h.dataEnd == h.Start() then Done(FirstAlloc(h, junk), RefSpace(h))
    else
      var i := FirstFit(h, need, 0);
      if i == |h.blocks| then Throw(NoMemory) else Done(AllocBehind(h, i, junk), RefSpace(h))
  }

  // ---------------------------------------------------------------- free

  /** What operations accept as a handle: null, or a slot of the table. */
  predicate IsHandle(h: Heap, s: nat) { s == 0 || s in h.slots }

  /** Pointer::get returns null: a null handle, or a handle whose slot is null. */
  predicate IsNull(h: Heap, s: nat)
    requires IsHandle(h, s)
  {
    s == 0 || h.slots[s] == 0
  }

  /** Index of the block behind a handle. */
  function BlockOf(h: Heap, s: nat): (i: nat)
    requires Safe(h) && IsHandle(h, s) && !IsNull(h, s)
    ensures i < |h.blocks| && h.blocks[i].Live() && h.blocks[i].addr == h.slots[s] && h.blocks[i].ref == s
    ensures Store(h)[s] == h.blocks[i].bytes
  {
    FindLive(h.blocks, h.Start(), Last(h.blocks).next, h.slots[s]);
    Find(h.blocks, h.slots[s])
  }

  function Release(h: Heap, s: nat, i: nat): Heap
    requires i < |h.blocks|
  {
    h.(used := Sub(h.used, |h.blocks[i].bytes| + INFO),
       blocks := h.blocks[i := h.blocks[i].(bytes := [])],
       slots := h.slots[s := 0])
  }

  /** free(p) on the handle s. */
  function Free(h: Heap, s: nat): Outcome
    requires Safe(h) && IsHandle(h, s)
  {
    if IsNull(h, s) then Throw(InvalidFree) else Done(Release(h, s, BlockOf(h, s)), 0)
  }

  // ---------------------------------------------------------------- realloc

  /** The first min(|bytes|, |junk|) bytes of bytes, then the rest of junk. */
  function Carry(bytes: seq<byte>, junk: seq<byte>): (r: seq<byte>)
    ensures |r| == |junk|
  {
    if |junk| <= |bytes| then bytes[..|junk|] else bytes + junk[|bytes|..]
  }

  /** The resize test: block i can become n bytes where it stands. */
  predicate FitsInPlace(h: Heap, i: nat, n: nat)
    requires i < |h.blocks|
  {
    Sub(Min(NextAddr(h, i), h.beginRef), h.blocks[i].addr) >= n + INFO
  }

  /** Resizing in place rewrites the size field and nothing else. */
  function Resize(h: Heap, i: nat, junk: seq<byte>): Heap
    requires i < |h.blocks|
  {
    h.(blocks := h.blocks[i := h.blocks[i].(bytes := Carry(h.blocks[i].bytes, junk))])
  }

  /** Block i, behind slot s, moves into the fresh block k behind slot t: payload copied, block
      i freed, slot s redirected, slot t nulled. */
  function Redirect(h: Heap, s: nat, i: nat, t: nat, k: nat): Heap
    requires i < |h.blocks| && k < |h.blocks|
  {
    var moved := h.blocks[k].(ref := s, bytes := Carry(h.blocks[i].bytes, h.blocks[k].bytes));
    h.(used := Sub(h.used, |h.blocks[i].bytes| + INFO),
       blocks := h.blocks[k := moved][i := h.blocks[i].(bytes := [])],
       slots := h.slots[s := h.blocks[k].addr][t := 0])
  }

  // ---------------------------------------------------------------- defrag

  /** The packed part of the chain after a round: its last block now leads to d. */
  function Relink(l: seq<Block>, d: nat): (r: seq<Block>)
    ensures |r| == |l|
  {
    if l == [] then [] else l[..|l| - 1] + [Last(l).(next := d)]
  }

  /** One round of the compaction walk. The first p blocks are packed and end at dataEnd; live
      block k slides down to dataEnd, and its slot and its predecessor's link follow. */
  function Slide(h: Heap, p: nat, k: nat): (g: Heap)
    requires p <= k < |h.blocks|
    ensures p + 1 <= |g.blocks| <= |h.blocks|
  {
    var b := h.blocks[k].(addr := h.dataEnd);
    if h.blocks[k].addr == h.dataEnd then h.(dataEnd := b.End())
    else
      h.(dataEnd := b.End(),
         blocks := Relink(h.blocks[..p], h.dataEnd) + ([b] + h.blocks[k + 1..]),
         slots := h.slots[b.ref := h.dataEnd])
  }

  /** The chain as it lies in memory. */
  function Chained(h: Heap): Heap
  {
    if h.blocks == [] then h.(blocks := h.dead, dead := []) else h
  }

  /** The compaction walk from p packed blocks on. A walk that meets no live block leaves an
      arena without blocks, with its chain in memory. */
  function Walk(h: Heap, p: nat): Heap
    requires p <= |h.blocks|
    decreases |h.blocks| - p
  {
    var k := LiveFrom(h.blocks, p);
    if k < |h.blocks| then Walk(Slide(h, p, k), p + 1)
    else if p == 0 then h.(blocks := [], dead := h.blocks) else h
  }

  /** The trimming loop: begin_ref rises while the lowest byte of the word at begin_ref is 0. */
  function Trim(h: Heap): Heap
    decreases h.Top() - h.beginRef
  {
    if h.beginRef < h.Top() && h.beginRef in h.slots && h.slots[h.beginRef] % 256 == 0
    then Trim(h.(beginRef := h.beginRef + SLOT, slots := h.slots - {h.beginRef}))
    else h
  }

  /** Following the links from address a on, every header that is read below limit is one of bs. */
  predicate Stays(bs: seq<Block>, a: nat, limit: nat)
    decreases |bs|
  {
    a >= limit || (var i := Find(bs, a); i < |bs| && Stays(bs[i + 1..], bs[i].next, limit))
  }

  /** The walk of defrag reads the first header of the chain, and from there only headers of the chain
      up to begin_ref. */
  predicate WalkStays(h: Heap)
  {
    h.used == HEADER || (var bs := Chained(h).blocks; bs != [] && Stays(bs[1..], bs[0].next, h.beginRef))
  }

  function Defrag(h: Heap): Heap
    requires Safe(h) && WalkStays(h)
  {
    if h.used == HEADER
    then h.(dataEnd := h.Start(), beginRef := h.Top(), blocks := [], dead := [], slots := map[])
    else Trim(Walk(Chained(h).(dataEnd := h.Start()), 0))
  }
}
