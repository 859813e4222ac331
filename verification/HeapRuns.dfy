/** Whole runs of the allocator: they refine a plain map from handles to byte strings. */
module HeapRuns {
  import opened Words
  import opened HeapModel
  import opened Chains
  import opened HeapAlloc
  import opened HeapRealloc
  import opened HeapDefrag
  import opened HeapCompact
  import opened HeapCount

  /** One call, or one byte the user writes through Pointer::get. */
  datatype Op =
    | OpAlloc(junk: seq<byte>)
    | OpFree(s: nat)
    | OpRealloc(s: nat, junk: seq<byte>)
    | OpDefrag
    | OpWrite(s: nat, k: nat, b: byte)

  datatype Result = Ok(slot: nat) | Failed(error: Error)

  /** The calls after which the code keeps its own invariant; HeapAlloc, HeapRealloc and
      HeapCompact prove each condition exact. */
  ghost predicate Good(h: Heap, op: Op)
    requires Safe(h)
  {
    match op
    case OpAlloc(junk) => AllocOk(h, junk)
    case OpFree(s) => IsHandle(h, s)
    case OpRealloc(s, junk) => IsHandle(h, s) && GoodRealloc(h, s, junk)
    case OpDefrag => GoodDefrag(h)
    case OpWrite(s, k, b) => s in Store(h) && k < |Store(h)[s]|
  }

  function Poke(bytes: seq<byte>, k: nat, b: byte): seq<byte>
    requires k < |bytes|
  {
    bytes[..k] + [b] + bytes[k + 1..]
  }

  function WriteByte(h: Heap, i: nat, k: nat, b: byte): Heap
    requires i < |h.blocks| && k < |h.blocks[i].bytes|
  {
    h.(blocks := h.blocks[i := h.blocks[i].(bytes := Poke(h.blocks[i].bytes, k, b))])
  }

  function Apply(h: Heap, o: Outcome): (Heap, Result)
  {
    match o
    case Done(g, s) => (g, Ok(s))
    case Throw(e) => (h, Failed(e))
  }

  ghost function Step(h: Heap, op: Op): (Heap, Result)
    requires Safe(h) && Good(h, op)
  {
    match op
    case OpAlloc(junk) => Apply(h, Alloc(h, junk))
    case OpFree(s) => Apply(h, Free(h, s))
    case OpRealloc(s, junk) => Apply(h, Realloc(h, s, junk))
    case OpDefrag => DefragSound(h); (Defrag(h), Ok(0))
    case OpWrite(s, k, b) => (WriteByte(h, BlockOf(h, s), k, b), Ok(s))
  }

  // ---------------------------------------------------------------- the simple form

  type Map = map<nat, seq<byte>>

  /** What callers may observe of one call on the map of handles. */
  predicate Legal(st: Map, op: Op, r: Result)
  {
    match op
    case OpAlloc(junk) => (r.Ok? ==> r.slot != 0 && r.slot !in st) && (r.Failed? ==> r.error == NoMemory)
    case OpFree(s) => (r.Ok? <==> s in st) && (r.Failed? ==> r.error == InvalidFree)
    case OpRealloc(s, junk) =>
      (r.Ok? ==> if s in st then r.slot == s else r.slot != 0 && r.slot !in st) && (r.Failed? ==> r.error == NoMemory)
    case OpDefrag => r.Ok?
    case OpWrite(s, k, b) => r.Ok? && s in st && k < |st[s]|
  }

  /** The map of handles after the call. A call that throws changes nothing. */
  function After(st: Map, op: Op, r: Result): Map
    requires Legal(st, op, r)
  {
    if r.Failed? then st else
    match op
    case OpAlloc(junk) => st[r.slot := junk]
    case OpFree(s) => st - {s}
    case OpRealloc(s, junk) => st[r.slot := if s in st then Carry(st[s], junk) else junk]
    case OpDefrag => st
    case OpWrite(s, k, b) => st[s := Poke(st[s], k, b)]
  }

  predicate LegalRun(st: Map, ops: seq<Op>, rs: seq<Result>)
    requires |rs| == |ops|
    decreases |ops|
  {
    ops == [] || (Legal(st, ops[0], rs[0]) && LegalRun(After(st, ops[0], rs[0]), ops[1..], rs[1..]))
  }

  function AfterRun(st: Map, ops: seq<Op>, rs: seq<Result>): Map
    requires |rs| == |ops| && LegalRun(st, ops, rs)
    decreases |ops|
  {
    if ops == [] then st else AfterRun(After(st, ops[0], rs[0]), ops[1..], rs[1..])
  }

  // ---------------------------------------------------------------- one step

  lemma WriteSound(h: Heap, s: nat, k: nat, b: byte)
    requires Safe(h) && s in Store(h) && k < |Store(h)[s]|
    ensures var g := WriteByte(h, BlockOf(h, s), k, b);
            Safe(g) && Store(g) == Store(h)[s := Poke(Store(h)[s], k, b)]
  {
    var i := BlockOf(h, s);
    var bytes := Poke(h.blocks[i].bytes, k, b);
    BlockBounds(h, i);
    UpdateBlock(h, i, h.blocks[i].(bytes := bytes));
    TiedResize(Lives(h.blocks), h.slots, s, bytes);
  }

  /** Every good call keeps the heap invariant and does to the handles exactly what the simple
      form says: in particular no call changes a byte behind another handle. */
  lemma StepSound(h: Heap, op: Op)
    requires Safe(h) && Good(h, op)
    ensures var (g, r) := Step(h, op);
            Safe(g) && Legal(Store(h), op, r) && Store(g) == After(Store(h), op, r)
  {
    hide Path, Lives, Tied, Shape, Contents, Defrag, GoodDefrag, WalkStays, Compact, Order, Lowest, GoodAlloc, Remains;
    match op
    case OpAlloc(junk) => if Alloc(h, junk).Done? { AllocSound(h, junk); }
    case OpFree(s) => FreeSound(h, s);
    case OpRealloc(s, junk) => if Realloc(h, s, junk).Done? { ReallocSound(h, s, junk); }
    case OpDefrag => DefragSound(h);
    case OpWrite(s, k, b) => WriteSound(h, s, k, b);
  }

  // ---------------------------------------------------------------- runs

  ghost predicate GoodRun(h: Heap, ops: seq<Op>)
    requires Safe(h)
    decreases |ops|
  {
    ops == [] || (Good(h, ops[0]) && (StepSound(h, ops[0]); GoodRun(Step(h, ops[0]).0, ops[1..])))
  }

  ghost function Run(h: Heap, ops: seq<Op>): (g: Heap)
    requires Safe(h) && GoodRun(h, ops)
    ensures Safe(g)
    decreases |ops|
  {
    if ops == [] then h else (StepSound(h, ops[0]); Run(Step(h, ops[0]).0, ops[1..]))
  }

  ghost function Results(h: Heap, ops: seq<Op>): (rs: seq<Result>)
    requires Safe(h) && GoodRun(h, ops)
    ensures |rs| == |ops|
    decreases |ops|
  {
    if ops == [] then []
    else (StepSound(h, ops[0]); [Step(h, ops[0]).1] + Results(Step(h, ops[0]).0, ops[1..]))
  }

  /** Safety and refinement over whole runs: the heap stays safe, every answer is one the simple
      form allows, and the payloads are those of the simple form. */
  lemma {:induction false} RunSound(h: Heap, ops: seq<Op>)
    requires Safe(h) && GoodRun(h, ops)
    ensures LegalRun(Store(h), ops, Results(h, ops))
    ensures Store(Run(h, ops)) == AfterRun(Store(h), ops, Results(h, ops))
    decreases |ops|
  {
    if ops != [] {
      StepSound(h, ops[0]);
      var g := Step(h, ops[0]).0;
      RunSound(g, ops[1..]);
      assert Results(h, ops)[1..] == Results(g, ops[1..]);
    }
  }

  /** The handle an operation names. */
  predicate Names(op: Op, s: nat)
  {
    match op
    case OpAlloc(_) => false
    case OpDefrag => false
    case OpFree(t) => s == t
    case OpRealloc(t, _) => s == t
    case OpWrite(t, _, _) => s == t
  }

  lemma {:induction false} OthersInRun(st: Map, ops: seq<Op>, rs: seq<Result>, s: nat)
    requires |rs| == |ops| && LegalRun(st, ops, rs) && s in st
    requires forall i | 0 <= i < |ops| :: !Names(ops[i], s)
    ensures s in AfterRun(st, ops, rs) && AfterRun(st, ops, rs)[s] == st[s]
    decreases |ops|
  {
    if ops != [] {
      assert !Names(ops[0], s);
      OthersInRun(After(st, ops[0], rs[0]), ops[1..], rs[1..], s);
    }
  }

  /** A handle no operation of the run names still has its slot and every byte of its payload at
      the end, whatever was allocated, freed, moved or compacted around it. */
  lemma UntouchedInRun(h: Heap, ops: seq<Op>, s: nat)
    requires Safe(h) && GoodRun(h, ops) && s in Store(h)
    requires forall i | 0 <= i < |ops| :: !Names(ops[i], s)
    ensures s in Store(Run(h, ops)) && Store(Run(h, ops))[s] == Store(h)[s]
  {
    RunSound(h, ops);
    OthersInRun(Store(h), ops, Results(h, ops), s);
  }

  /** The constructor tests the arena against one size_t where it writes a three-word header: it
      sets up a safe arena exactly when the header fits. */
  lemma FreshExact(base: nat, size: nat)
    requires 0 < base && base + size < WORD
    ensures Fresh(base, size).Done? <==> size >= 8
    ensures size >= 8 ==> (Safe(Fresh(base, size).heap) <==> size >= HEADER)
    ensures size >= HEADER ==> Store(Fresh(base, size).heap) == map[]
  {
    if 8 <= size < HEADER { assert !Table(Fresh(base, size).heap); }
  }

  // ---------------------------------------------------------------- the count over runs

  /** Realloc as long as it does not resize in place to another size. */
  predicate Counting(h: Heap, op: Op)
    requires Safe(h)
  {
    op.OpRealloc? && IsHandle(h, op.s) && !IsNull(h, op.s) && FitsInPlace(h, BlockOf(h, op.s), |op.junk|) ==>
      |op.junk| == |h.blocks[BlockOf(h, op.s)].bytes|
  }

  lemma WriteCounted(h: Heap, i: nat, k: nat, b: byte)
    requires Counted(h) && i < |h.blocks| && k < |h.blocks[i].bytes|
    ensures Counted(WriteByte(h, i, k, b))
  {
    var b' := h.blocks[i].(bytes := Poke(h.blocks[i].bytes, k, b));
    SumAround(h.blocks, i, b');
    SumOne(b');
    SumOne(h.blocks[i]);
  }

  lemma StepCounted(h: Heap, op: Op)
    requires Safe(h) && Good(h, op) && Counting(h, op) && Counted(h)
    ensures Counted(Step(h, op).0)
  {
    match op
    case OpAlloc(junk) => if Alloc(h, junk).Done? { AllocCounted(h, junk); }
    case OpFree(s) => FreeSound(h, s); if s in Store(h) { FreeCounted(h, s); }
    case OpRealloc(s, junk) =>
      if Realloc(h, s, junk).Done? {
        if s in Store(h) { ReallocCounted(h, s, junk); } else { AllocCounted(h, junk); }
      }
    case OpDefrag => DefragCounted(h);
    case OpWrite(s, k, b) => WriteCounted(h, BlockOf(h, s), k, b);
  }

  ghost predicate CountingRun(h: Heap, ops: seq<Op>)
    requires Safe(h) && GoodRun(h, ops)
    decreases |ops|
  {
    ops == [] || (Counting(h, ops[0]) && (StepSound(h, ops[0]); CountingRun(Step(h, ops[0]).0, ops[1..])))
  }

  /** Over runs of alloc, free, defrag, user writes and moving realloc the counter is exact, and
      so never underflows. */
  lemma {:induction false} RunCounted(h: Heap, ops: seq<Op>)
    requires Safe(h) && GoodRun(h, ops) && CountingRun(h, ops) && Counted(h)
    ensures Counted(Run(h, ops))
    decreases |ops|
  {
    if ops != [] {
      StepSound(h, ops[0]);
      StepCounted(h, ops[0]);
      RunCounted(Step(h, ops[0]).0, ops[1..]);
    }
  }
}
