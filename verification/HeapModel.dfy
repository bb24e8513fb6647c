/**
  The first-fit heap as a list of blocks. Offsets are relative to HEAP_START. A block starts with its header;
  the list is closed by an end header of size 0 at offset `end`.
 */
module HeapModel {
  import opened Common

  const HEAP_START: nat := 0xA00000
  const HEAP_SIZE: nat := 0x100000
  const HEAP_END: nat := HEAP_START + HEAP_SIZE
  const HEADER: nat := 16
  const MIN_SIZE: nat := HEADER + 2
  const MAX_SIZE: nat := HEAP_SIZE - HEADER

  datatype Block = Block(off: nat, size: nat, used: bool)
  datatype Layout = Layout(blocks: seq<Block>, end: nat)

  /** The SIZE macro: the last bit is masked. */
  function Size(x: nat): (s: nat)
    ensures s % 2 == 0 && s <= x <= s + 1
  {
    x - x % 2
  }

  /** The size of the block that serves a request. */
  function TrueSize(request: nat): nat {
    Size(request + HEADER + 1)
  }

  /** Where block k starts, or where the end header is. */
  function Start(l: Layout, k: nat): nat
    requires k <= |l.blocks|
  {
    if k < |l.blocks| then l.blocks[k].off else l.end
  }

  /** Block k is of proper size and ends where the next one, or the end header, starts. */
  predicate Abuts(l: Layout, k: nat)
    requires k < |l.blocks|
  {
    && l.blocks[k].size >= MIN_SIZE && l.blocks[k].size % 2 == 0
    && l.blocks[k].off + l.blocks[k].size == Start(l, k + 1)
  }

  /** The blocks tile the heap from its start up to the end header, which fits below HEAP_END. */
  ghost predicate Tiled(l: Layout) {
    && Start(l, 0) == 0
    && (forall k: nat :: k < |l.blocks| ==> Abuts(l, k))
    && l.end + HEADER <= HEAP_SIZE
  }

  /** `find_free_block`'s scan: the first free block from k on that is large enough, or the end of the list. */
  function FirstFit(blocks: seq<Block>, size: nat, k: nat): (i: nat)
    requires k <= |blocks|
    ensures k <= i <= |blocks|
    decreases |blocks| - k
  {
    if k < |blocks| && (blocks[k].used || blocks[k].size < size) then FirstFit(blocks, size, k + 1) else k
  }

  /** The test for room at the end: pointer arithmetic scaled by the 16-byte header. */
  predicate RoomAtEnd(end: nat, size: nat) {
    HEAP_START + end + HEADER * (size + HEADER) <= HEAP_END
  }

  /** Which block serves a request: an index into the list, its length for the end, or none. */
  function Found(l: Layout, request: nat): Option<nat> {
    if request == 0 || request > MAX_SIZE then None
    else
      var i := FirstFit(l.blocks, TrueSize(request), 0);
      if i == |l.blocks| && !RoomAtEnd(l.end, TrueSize(request)) then None else Some(i)
  }

  predicate Splits(b: Block, size: nat) {
    size + MIN_SIZE < b.size
  }

  /** The list with the `width` blocks from i on replaced by `middle`. */
  function Splice(blocks: seq<Block>, i: nat, width: nat, middle: seq<Block>): seq<Block>
    requires i + width <= |blocks|
  {
    blocks[..i] + middle + blocks[i + width..]
  }

  /** `add_block` at position i. */
  function Take(l: Layout, i: nat, size: nat): Layout
    requires i <= |l.blocks|
  {
    if i == |l.blocks| then Layout(l.blocks + [Block(l.end, size, true)], l.end + size)
    else
      var b := l.blocks[i];
      l.(blocks := Splice(l.blocks, i, 1,
                          if Splits(b, size) then [Block(b.off, size, true), Block(b.off + size, b.size - size, false)]
                          else [b.(used := true)]))
  }

  predicate MergesNext(l: Layout, i: nat) {
    i + 1 < |l.blocks| && !l.blocks[i + 1].used
  }

  /** `free_block` at position i: the block becomes free and absorbs a free successor. */
  function Release(l: Layout, i: nat): Layout
    requires i < |l.blocks|
  {
    var b := l.blocks[i];
    l.(blocks := if MergesNext(l, i) then Splice(l.blocks, i, 2, [Block(b.off, b.size + l.blocks[i + 1].size, false)])
                 else Splice(l.blocks, i, 1, [b.(used := false)]))
  }

  // ----- the scan -----

  /** The scan returns the first block that can serve the request: everything before it is taken or too small. */
  lemma {:induction false} FirstFitIsFirst(blocks: seq<Block>, size: nat, k: nat)
    requires k <= |blocks|
    ensures var i := FirstFit(blocks, size, k);
            && (forall j: nat :: k <= j < i ==> blocks[j].used || blocks[j].size < size)
            && (i < |blocks| ==> !blocks[i].used && blocks[i].size >= size)
    decreases |blocks| - k
  {
    if k < |blocks| && (blocks[k].used || blocks[k].size < size) {
      FirstFitIsFirst(blocks, size, k + 1);
    }
  }

  // ----- the geometry -----

  /** Blocks lie in order and do not overlap: block j ends before block k starts. */
  lemma {:induction false} Ordered(l: Layout, j: nat, k: nat)
    requires Tiled(l) && j < k <= |l.blocks|
    ensures l.blocks[j].off + l.blocks[j].size <= Start(l, k)
    decreases k - j
  {
    assert Abuts(l, j);
    if j + 1 < k {
      Ordered(l, j + 1, k);
    }
  }

  /** The replacement covers exactly the span of the blocks it replaces, with proper blocks. */
  ghost predicate Fits(l: Layout, i: nat, width: nat, middle: seq<Block>)
    requires i + width <= |l.blocks|
  {
    && 0 < |middle| && middle[0].off == Start(l, i)
    && (forall j: nat :: j + 1 < |middle| ==> middle[j].off + middle[j].size == middle[j + 1].off)
    && middle[|middle| - 1].off + middle[|middle| - 1].size == Start(l, i + width)
    && (forall j: nat :: j < |middle| ==> middle[j].size >= MIN_SIZE && middle[j].size % 2 == 0)
  }

  lemma SpliceElement(blocks: seq<Block>, i: nat, width: nat, middle: seq<Block>, k: nat)
    requires i + width <= |blocks| && k < |Splice(blocks, i, width, middle)|
    ensures Splice(blocks, i, width, middle)[k] ==
            if k < i then blocks[k] else if k < i + |middle| then middle[k - i] else blocks[k - |middle| + width]
  {
  }

  lemma SpliceTiled(l: Layout, i: nat, width: nat, middle: seq<Block>)
    requires Tiled(l) && i + width <= |l.blocks| && Fits(l, i, width, middle)
    ensures Tiled(l.(blocks := Splice(l.blocks, i, width, middle)))
  {
    var t := l.(blocks := Splice(l.blocks, i, width, middle));
    forall k: nat | k < |t.blocks|
      ensures Abuts(t, k)
    {
      SpliceElement(l.blocks, i, width, middle, k);
      if k + 1 < |t.blocks| {
        SpliceElement(l.blocks, i, width, middle, k + 1);
      }
      if k < i {
        assert Abuts(l, k);
      } else if k >= i + |middle| {
        assert Abuts(l, k - |middle| + width);
      }
    }
    SpliceElement(l.blocks, i, width, middle, 0);
  }

  lemma TakeTiled(l: Layout, i: nat, size: nat)
    requires Tiled(l) && i <= |l.blocks| && size >= MIN_SIZE && size % 2 == 0
    requires if i < |l.blocks| then size <= l.blocks[i].size else RoomAtEnd(l.end, size)
    ensures Tiled(Take(l, i, size))
  {
    if i == |l.blocks| {
      ExtendTiled(l, size);
    } else {
      var b := l.blocks[i];
      assert Abuts(l, i);
      if Splits(b, size) {
        SpliceTiled(l, i, 1, [Block(b.off, size, true), Block(b.off + size, b.size - size, false)]);
      } else {
        SpliceTiled(l, i, 1, [b.(used := true)]);
      }
    }
  }

  /** A new block in place of the end header, which moves behind it. */
  lemma ExtendTiled(l: Layout, size: nat)
    requires Tiled(l) && size >= MIN_SIZE && size % 2 == 0 && l.end + size + HEADER <= HEAP_SIZE
    ensures Tiled(Layout(l.blocks + [Block(l.end, size, true)], l.end + size))
  {
    var t := Layout(l.blocks + [Block(l.end, size, true)], l.end + size);
    forall k: nat | k < |t.blocks|
      ensures Abuts(t, k)
    {
      assert k < |l.blocks| ==> Abuts(l, k);
    }
  }

  lemma ReleaseTiled(l: Layout, i: nat)
    requires Tiled(l) && i < |l.blocks|
    ensures Tiled(Release(l, i))
  {
    var b := l.blocks[i];
    assert Abuts(l, i);
    if MergesNext(l, i) {
      assert Abuts(l, i + 1);
      SpliceTiled(l, i, 2, [Block(b.off, b.size + l.blocks[i + 1].size, false)]);
    } else {
      SpliceTiled(l, i, 1, [b.(used := false)]);
    }
  }

  // ----- the statistics -----

  function AllocatedBytes(blocks: seq<Block>): nat {
    if blocks == [] then 0
    else AllocatedBytes(blocks[..|blocks| - 1]) + Weight(blocks[|blocks| - 1])
  }

  function Weight(b: Block): nat {
    if b.used then b.size else 0
  }

  function AllocatedCount(blocks: seq<Block>): nat {
    if blocks == [] then 0
    else AllocatedCount(blocks[..|blocks| - 1]) + if blocks[|blocks| - 1].used then 1 else 0
  }

  lemma {:induction false} SumsSplit(a: seq<Block>, b: seq<Block>)
    ensures AllocatedBytes(a + b) == AllocatedBytes(a) + AllocatedBytes(b)
    ensures AllocatedCount(a + b) == AllocatedCount(a) + AllocatedCount(b)
  {
    if b == [] {
      assert a + b == a;
    } else {
      var n := |b| - 1;
      SumsSplit(a, b[..n]);
      assert (a + b)[..|a + b| - 1] == a + b[..n];
    }
  }

  lemma SumsOfOne(b: Block)
    ensures AllocatedBytes([b]) == Weight(b) && AllocatedCount([b]) == if b.used then 1 else 0
  {
    assert [b][..0] == [];
  }

  /** The sums around position i. */
  lemma SumsAt(blocks: seq<Block>, i: nat, width: nat, middle: seq<Block>)
    requires i + width <= |blocks|
    ensures var s := Splice(blocks, i, width, middle);
            && AllocatedBytes(s) ==
               AllocatedBytes(blocks) - AllocatedBytes(blocks[i..i + width]) + AllocatedBytes(middle)
            && AllocatedCount(s) ==
               AllocatedCount(blocks) - AllocatedCount(blocks[i..i + width]) + AllocatedCount(middle)
  {
    SumsOfThree(blocks[..i], middle, blocks[i + width..]);
    SumsOfThree(blocks[..i], blocks[i..i + width], blocks[i + width..]);
    ThreeParts(blocks, i, i + width);
  }

  lemma ThreeParts(blocks: seq<Block>, i: nat, j: nat)
    requires i <= j <= |blocks|
    ensures blocks[..i] + blocks[i..j] + blocks[j..] == blocks
  {
    assert blocks[..i] + blocks[i..j] == blocks[..j];
  }

  lemma SumsOfThree(a: seq<Block>, b: seq<Block>, c: seq<Block>)
    ensures AllocatedBytes(a + b + c) == AllocatedBytes(a) + AllocatedBytes(b) + AllocatedBytes(c)
    ensures AllocatedCount(a + b + c) == AllocatedCount(a) + AllocatedCount(b) + AllocatedCount(c)
  {
    SumsSplit(a + b, c);
    SumsSplit(a, b);
  }

  /** The bytes of allocated blocks fit below the end header. */
  lemma {:induction false} AllocatedFit(l: Layout, k: nat)
    requires Tiled(l) && k <= |l.blocks|
    ensures AllocatedBytes(l.blocks[..k]) <= Start(l, k)
  {
    if k > 0 {
      AllocatedFit(l, k - 1);
      assert Abuts(l, k - 1);
      assert l.blocks[..k][..k - 1] == l.blocks[..k - 1];
    } else {
      assert l.blocks[..k] == [];
    }
  }

  // ----- runs -----

  /** The counters reported by `get_mem_info`, 64-bit words. */
  datatype Info = Info(allocatedBytes: nat, freeBytes: nat, allocatedBlocks: nat)

  datatype Heap = Heap(layout: Layout, info: Info)

  const EMPTY_HEAP := Heap(Layout([], 0), Info(0, HEAP_SIZE, 0))

  /** What a block taken at i is charged in the statistics. */
  function Charge(l: Layout, i: nat, size: nat): nat
    requires i <= |l.blocks|
  {
    if i == |l.blocks| || Splits(l.blocks[i], size) then size else l.blocks[i].size
  }

  function Charged(info: Info, size: nat): Info {
    Info((info.allocatedBytes + size) % WORD64, (info.freeBytes - size) % WORD64, (info.allocatedBlocks + 1) % WORD64)
  }

  function Discharged(info: Info, size: nat): Info {
    Info((info.allocatedBytes - size) % WORD64, (info.freeBytes + size) % WORD64, (info.allocatedBlocks - 1) % WORD64)
  }

  /** `memory_alloc`: the new heap. */
  function Alloc(h: Heap, request: nat): Heap {
    match Found(h.layout, request)
    case None => h
    case Some(i) =>
      var size := TrueSize(request);
      Heap(Take(h.layout, i, size), Charged(h.info, Charge(h.layout, i, size)))
  }

  /** `memory_alloc`: the returned address, None for NULL. */
  function AllocResult(h: Heap, request: nat): Option<nat> {
    match Found(h.layout, request)
    case None => None
    case Some(i) => Some(HEAP_START + Start(h.layout, i) + HEADER)
  }

  predicate InHeap(ptr: nat) {
    HEAP_START <= ptr < HEAP_END
  }

  /** The address ptr is that of the payload of allocated block i. */
  predicate Names(l: Layout, ptr: nat, i: nat) {
    i < |l.blocks| && l.blocks[i].used && ptr == HEAP_START + l.blocks[i].off + HEADER
  }

  /** The allocated block whose payload starts at the address, searched from block k on. */
  function Lookup(l: Layout, ptr: nat, k: nat): (i: Option<nat>)
    requires k <= |l.blocks|
    ensures i.Some? ==> Names(l, ptr, i.value)
    ensures i.None? ==> forall j: nat :: k <= j ==> !Names(l, ptr, j)
    decreases |l.blocks| - k
  {
    if k == |l.blocks| then None
    else if Names(l, ptr, k) then Some(k)
    else Lookup(l, ptr, k + 1)
  }

  /**
    `memory_free` of a live pointer, or of one outside the heap, which is ignored. For any other address the code would
    rewrite headers that are none; no run below contains such a call.
   */
  function Free(h: Heap, ptr: nat): Heap {
    if !InHeap(ptr) then h
    else
      match Lookup(h.layout, ptr, 0)
      case None => h
      case Some(i) => Heap(Release(h.layout, i), Discharged(h.info, h.layout.blocks[i].size))
  }

  datatype Op = AllocOp(request: nat) | FreeOp(ptr: nat)

  function Apply(h: Heap, op: Op): Heap {
    match op
    case AllocOp(request) => Alloc(h, request)
    case FreeOp(ptr) => Free(h, ptr)
  }

  function Exec(ops: seq<Op>): Heap {
    if ops == [] then EMPTY_HEAP else Apply(Exec(ops[..|ops| - 1]), ops[|ops| - 1])
  }

  /** Every free of the run is given a pointer that is live at that time, or one outside the heap. */
  ghost predicate FreesLive(ops: seq<Op>) {
    forall k: nat :: k < |ops| && ops[k].FreeOp? && InHeap(ops[k].ptr) ==>
      Lookup(Exec(ops[..k]).layout, ops[k].ptr, 0).Some?
  }

  ghost predicate InfoOk(h: Heap) {
    && h.info.allocatedBytes == AllocatedBytes(h.layout.blocks) <= HEAP_SIZE
    && h.info.allocatedBlocks == AllocatedCount(h.layout.blocks) <= HEAP_SIZE
    && h.info.allocatedBytes + h.info.freeBytes == HEAP_SIZE
  }

  ghost predicate Inv(h: Heap) {
    Tiled(h.layout) && InfoOk(h)
  }

  lemma {:induction false} CountBelowBytes(l: Layout, k: nat)
    requires Tiled(l) && k <= |l.blocks|
    ensures AllocatedCount(l.blocks[..k]) <= AllocatedBytes(l.blocks[..k])
  {
    if k > 0 {
      CountBelowBytes(l, k - 1);
      assert Abuts(l, k - 1);
      assert l.blocks[..k][..k - 1] == l.blocks[..k - 1];
    } else {
      assert l.blocks[..k] == [];
    }
  }

  lemma SumsBounded(l: Layout)
    requires Tiled(l)
    ensures AllocatedCount(l.blocks) <= AllocatedBytes(l.blocks) <= HEAP_SIZE
  {
    AllocatedFit(l, |l.blocks|);
    CountBelowBytes(l, |l.blocks|);
    assert l.blocks[..|l.blocks|] == l.blocks;
  }

  /** The sums after a block is taken. */
  lemma TakeSums(l: Layout, i: nat, size: nat)
    requires i <= |l.blocks| && (i < |l.blocks| ==> !l.blocks[i].used)
    ensures AllocatedBytes(Take(l, i, size).blocks) == AllocatedBytes(l.blocks) + Charge(l, i, size)
    ensures AllocatedCount(Take(l, i, size).blocks) == AllocatedCount(l.blocks) + 1
  {
    if i == |l.blocks| {
      SumsSplit(l.blocks, [Block(l.end, size, true)]);
      SumsOfOne(Block(l.end, size, true));
    } else {
      var b := l.blocks[i];
      assert l.blocks[i..i + 1] == [b];
      SumsOfOne(b);
      if Splits(b, size) {
        var u, v := Block(b.off, size, true), Block(b.off + size, b.size - size, false);
        SumsSplit([u], [v]);
        SumsOfOne(u);
        SumsOfOne(v);
        SumsAt(l.blocks, i, 1, [u, v]);
        assert [u] + [v] == [u, v];
      } else {
        SumsOfOne(b.(used := true));
        SumsAt(l.blocks, i, 1, [b.(used := true)]);
      }
    }
  }

  lemma ReleaseSums(l: Layout, i: nat)
    requires i < |l.blocks| && l.blocks[i].used
    ensures AllocatedBytes(Release(l, i).blocks) == AllocatedBytes(l.blocks) - l.blocks[i].size
    ensures AllocatedCount(Release(l, i).blocks) == AllocatedCount(l.blocks) - 1
  {
    var b := l.blocks[i];
    if MergesNext(l, i) {
      MergedSums(l.blocks, i, Block(b.off, b.size + l.blocks[i + 1].size, false));
    } else {
      SingleSums(l.blocks, i, b.(used := false));
    }
  }

  lemma MergedSums(blocks: seq<Block>, i: nat, b: Block)
    requires i + 1 < |blocks| && blocks[i].used && !blocks[i + 1].used && !b.used
    ensures var s := Splice(blocks, i, 2, [b]);
            && AllocatedBytes(s) == AllocatedBytes(blocks) - blocks[i].size
            && AllocatedCount(s) == AllocatedCount(blocks) - 1
  {
    SumsOfPair(blocks, i);
    FreedSums(blocks, i, 2, b, blocks[i].size);
  }

  lemma SingleSums(blocks: seq<Block>, i: nat, b: Block)
    requires i < |blocks| && blocks[i].used && !b.used
    ensures var s := Splice(blocks, i, 1, [b]);
            && AllocatedBytes(s) == AllocatedBytes(blocks) - blocks[i].size
            && AllocatedCount(s) == AllocatedCount(blocks) - 1
  {
    SumsOfSingle(blocks, i);
    FreedSums(blocks, i, 1, b, blocks[i].size);
  }

  lemma SumsOfSingle(blocks: seq<Block>, i: nat)
    requires i < |blocks| && blocks[i].used
    ensures AllocatedBytes(blocks[i..i + 1]) == blocks[i].size && AllocatedCount(blocks[i..i + 1]) == 1
  {
    SumsOfOne(blocks[i]);
    assert blocks[i..i + 1] == [blocks[i]];
  }

  /** A free block in place of blocks of which one was allocated. */
  lemma FreedSums(blocks: seq<Block>, i: nat, width: nat, b: Block, size: nat)
    requires i + width <= |blocks| && !b.used
    requires AllocatedBytes(blocks[i..i + width]) == size && AllocatedCount(blocks[i..i + width]) == 1
    ensures var s := Splice(blocks, i, width, [b]);
            AllocatedBytes(s) == AllocatedBytes(blocks) - size && AllocatedCount(s) == AllocatedCount(blocks) - 1
  {
    SumsOfOne(b);
    SumsAt(blocks, i, width, [b]);
  }

  /** An allocated block and the free one behind it. */
  lemma SumsOfPair(blocks: seq<Block>, i: nat)
    requires i + 1 < |blocks| && blocks[i].used && !blocks[i + 1].used
    ensures AllocatedBytes(blocks[i..i + 2]) == blocks[i].size && AllocatedCount(blocks[i..i + 2]) == 1
  {
    SumsOfOne(blocks[i]);
    SumsOfOne(blocks[i + 1]);
    SumsSplit([blocks[i]], [blocks[i + 1]]);
    assert [blocks[i]] + [blocks[i + 1]] == blocks[i..i + 2];
  }

  lemma TakeKeeps(h: Heap, i: nat, size: nat)
    requires Inv(h) && i <= |h.layout.blocks| && size >= MIN_SIZE && size % 2 == 0
    requires if i < |h.layout.blocks| then !h.layout.blocks[i].used && size <= h.layout.blocks[i].size
             else RoomAtEnd(h.layout.end, size)
    ensures Inv(Heap(Take(h.layout, i, size), Charged(h.info, Charge(h.layout, i, size))))
  {
    var l := Take(h.layout, i, size);
    TakeTiled(h.layout, i, size);
    TakeSums(h.layout, i, size);
    SumsBounded(l);
    ChargedExact(h.info, AllocatedBytes(h.layout.blocks), AllocatedCount(h.layout.blocks), Charge(h.layout, i, size));
  }

  /** The counters do not wrap around. */
  lemma ChargedExact(info: Info, bytes: nat, count: nat, size: nat)
    requires count < bytes + size <= HEAP_SIZE && info == Info(bytes, HEAP_SIZE - bytes, count)
    ensures Charged(info, size) == Info(bytes + size, HEAP_SIZE - (bytes + size), count + 1)
  {
  }

  lemma AllocKeeps(h: Heap, request: nat)
    requires Inv(h)
    ensures Inv(Alloc(h, request))
  {
    var found := Found(h.layout, request);
    if found.Some? {
      FirstFitIsFirst(h.layout.blocks, TrueSize(request), 0);
      TakeKeeps(h, found.value, TrueSize(request));
    }
  }

  lemma ReleaseKeeps(h: Heap, i: nat)
    requires Inv(h) && i < |h.layout.blocks| && h.layout.blocks[i].used
    ensures Inv(Heap(Release(h.layout, i), Discharged(h.info, h.layout.blocks[i].size)))
  {
    ReleaseTiled(h.layout, i);
    ReleaseSums(h.layout, i);
    SumsBounded(Release(h.layout, i));
  }

  lemma FreeKeeps(h: Heap, ptr: nat)
    requires Inv(h)
    ensures Inv(Free(h, ptr))
  {
    if InHeap(ptr) {
      var found := Lookup(h.layout, ptr, 0);
      if found.Some? {
        ReleaseKeeps(h, found.value);
      }
    }
  }

  /**
    After any sequence of allocations and frees of live pointers the blocks tile the heap up to the end header, and the
    counters are the number and the total size of the allocated blocks and what is left of the heap.
   */
  lemma HeapAlwaysConsistent(ops: seq<Op>)
    requires FreesLive(ops)
    ensures var h := Exec(ops);
            && Tiled(h.layout)
            && h.info.allocatedBytes == AllocatedBytes(h.layout.blocks)
            && h.info.allocatedBlocks == AllocatedCount(h.layout.blocks)
            && h.info.allocatedBytes + h.info.freeBytes == HEAP_SIZE
  {
    RunKeeps(ops);
  }

  lemma {:induction false} RunKeeps(ops: seq<Op>)
    ensures Inv(Exec(ops))
  {
    if ops != [] {
      RunKeeps(ops[..|ops| - 1]);
      var h := Exec(ops[..|ops| - 1]);
      match ops[|ops| - 1]
      case AllocOp(request) => AllocKeeps(h, request);
      case FreeOp(ptr) => FreeKeeps(h, ptr);
    }
  }

  /** In every reachable heap the blocks of two live pointers are disjoint, and each pointer names one block only. */
  lemma LiveBlocksDisjoint(ops: seq<Op>, p: nat, q: nat, j: nat, k: nat)
    requires FreesLive(ops)
    requires var l := Exec(ops).layout; Names(l, p, j) && Names(l, q, k) && p <= q
    ensures var l := Exec(ops).layout;
            if p == q then j == k else p + l.blocks[j].size <= q
  {
    RunKeeps(ops);
    var l := Exec(ops).layout;
    assert Abuts(l, j) && Abuts(l, k);
    if j < k {
      Ordered(l, j, k);
    } else if k < j {
      Ordered(l, k, j);
    }
  }

  /**
    What a successful allocation hands out, in every reachable heap: an address of an allocated block whose payload
    has room for the request, taken out of a free block or from beyond the old end, so out of no live block.
   */
  lemma AllocationServes(ops: seq<Op>, request: nat, j: nat)
    requires FreesLive(ops) && AllocResult(Exec(ops), request).Some?
    ensures var h := Exec(ops);
            var ptr := AllocResult(h, request).value;
            var l := Alloc(h, request).layout;
            var i := Found(h.layout, request).value;
            && InHeap(ptr) && Names(l, ptr, i)
            && HEADER + request <= l.blocks[i].size
            && l.blocks[i].off + l.blocks[i].size + HEADER <= HEAP_SIZE
            && (j < |h.layout.blocks| && h.layout.blocks[j].used ==>
                  || h.layout.blocks[j].off + h.layout.blocks[j].size <= l.blocks[i].off
                  || l.blocks[i].off + l.blocks[i].size <= h.layout.blocks[j].off)
  {
    RunKeeps(ops);
    var h := Exec(ops);
    var i := Found(h.layout, request).value;
    BlockServes(h, request, i);
    OffLiveBlocks(h, request, i, j);
  }

  /** The block taken is allocated, large enough and below the end header. */
  lemma BlockServes(h: Heap, request: nat, i: nat)
    requires Inv(h) && Found(h.layout, request) == Some(i)
    ensures var l := Alloc(h, request).layout;
            && i < |l.blocks| && l.blocks[i].used && l.blocks[i].off == Start(h.layout, i)
            && HEADER + request <= l.blocks[i].size && l.blocks[i].off + l.blocks[i].size + HEADER <= HEAP_SIZE
  {
    AllocKeeps(h, request);
    var l := Alloc(h, request).layout;
    FirstFitIsFirst(h.layout.blocks, TrueSize(request), 0);
    TakenBlock(h.layout, i, TrueSize(request));
    Ordered(l, i, |l.blocks|);
  }

  /** It lies in what was free. */
  lemma OffLiveBlocks(h: Heap, request: nat, i: nat, j: nat)
    requires Inv(h) && Found(h.layout, request) == Some(i)
    ensures var l := Alloc(h, request).layout;
            j < |h.layout.blocks| && i < |l.blocks| && h.layout.blocks[j].used ==>
              || h.layout.blocks[j].off + h.layout.blocks[j].size <= l.blocks[i].off
              || l.blocks[i].off + l.blocks[i].size <= h.layout.blocks[j].off
  {
    FirstFitIsFirst(h.layout.blocks, TrueSize(request), 0);
    TakenBlock(h.layout, i, TrueSize(request));
    if j < i {
      Ordered(h.layout, j, i);
    } else if i < j < |h.layout.blocks| {
      Ordered(h.layout, i, j);
    }
  }

  lemma TakenBlock(l: Layout, i: nat, size: nat)
    requires i <= |l.blocks|
    ensures i < |Take(l, i, size).blocks|
    ensures Take(l, i, size).blocks[i] == Block(Start(l, i), Charge(l, i, size), true)
  {
  }

  /** NULL exactly when the request is out of bounds, or no free block is large enough and the end test fails. */
  lemma AllocationFails(h: Heap, request: nat)
    ensures AllocResult(h, request) == None <==>
            || request == 0 || request > MAX_SIZE
            || (!RoomAtEnd(h.layout.end, TrueSize(request)) &&
                forall b :: b in h.layout.blocks ==> b.used || b.size < TrueSize(request))
  {
    FirstFitIsFirst(h.layout.blocks, TrueSize(request), 0);
    var i := FirstFit(h.layout.blocks, TrueSize(request), 0);
    if i < |h.layout.blocks| {
      assert h.layout.blocks[i] in h.layout.blocks;
    }
  }

  /** The scaled end test gives away most of the heap: of an empty heap of 1 MiB no more than 65504 bytes can be had. */
  lemma LargestFirstRequest(request: nat)
    ensures AllocResult(EMPTY_HEAP, request).Some? <==> 0 < request <= 65504
  {
  }

  /**
    Freeing what was just allocated: a split block is restored; a block taken whole is restored, and absorbs a free
    successor it did not absorb before; a block taken from the end stays, as a free one.
   */
  lemma FreeAfterAlloc(l: Layout, i: nat, size: nat)
    requires i <= |l.blocks| && (i < |l.blocks| ==> !l.blocks[i].used && size <= l.blocks[i].size)
    ensures Release(Take(l, i, size), i) ==
            if i == |l.blocks| then Layout(l.blocks + [Block(l.end, size, false)], l.end + size)
            else if !Splits(l.blocks[i], size) && MergesNext(l, i) then Release(l, i)
            else l
  {
    if i < |l.blocks| {
      var b := l.blocks[i];
      var t := Take(l, i, size);
      if Splits(b, size) {
        assert t.blocks[i + 2..] == l.blocks[i + 1..] && t.blocks[..i] == l.blocks[..i];
        assert l.blocks[..i] + [b] + l.blocks[i + 1..] == l.blocks;
      } else {
        assert t.blocks[i + 1..] == l.blocks[i + 1..] && t.blocks[..i] == l.blocks[..i];
        assert l.blocks[..i] + [b] + l.blocks[i + 1..] == l.blocks;
        if MergesNext(l, i) {
          assert t.blocks[i + 2..] == l.blocks[i + 2..];
        }
      }
    }
  }
}
