/** The heap in memory: headers written in place among the bytes they manage. */
module HeapMemory {
  import opened Common
  import opened HeapModel
  import opened LittleEndian

  /** A header at the offset: an 8-byte size, then the byte that says whether the block is allocated. */
  ghost predicate HeaderAt(m: seq<byte>, off: nat, size: nat, used: bool) {
    off + HEADER <= |m| && Decode(m[off..off + 8]) == size && (m[off + 8] != 0) == used
  }

  ghost predicate BlockStored(m: seq<byte>, b: Block) {
    HeaderAt(m, b.off, b.size, b.used)
  }

  ghost predicate StoredAt(m: seq<byte>, l: Layout, k: nat)
    requires k < |l.blocks|
  {
    BlockStored(m, l.blocks[k])
  }

  ghost predicate Stored(m: seq<byte>, l: Layout) {
    && |m| == HEAP_SIZE
    && HeaderAt(m, l.end, 0, true)
    && forall k: nat :: k < |l.blocks| ==> StoredAt(m, l, k)
  }

  /** The bytes outside the range are the same. */
  ghost predicate SameOutside(m: seq<byte>, m': seq<byte>, lo: nat, hi: nat) {
    |m| == |m'| && forall a: nat :: a < |m| && (a < lo || hi <= a) ==> m'[a] == m[a]
  }

  lemma HeaderFrame(m: seq<byte>, m': seq<byte>, lo: nat, hi: nat, off: nat, size: nat, used: bool)
    requires SameOutside(m, m', lo, hi) && HeaderAt(m, off, size, used) && (off + HEADER <= lo || hi <= off)
    ensures HeaderAt(m', off, size, used)
  {
    assert m'[off..off + 8] == m[off..off + 8];
  }

  /** The headers read from an offset on, the way every traversal of the source reads them. */
  function Walk(m: seq<byte>, off: nat): seq<Block>
    decreases if off <= |m| then |m| - off else 0
  {
    if off + HEADER > |m| then []
    else
      var size := Size(Decode(m[off..off + 8]));
      if size == 0 then [] else [Block(off, size, m[off + 8] != 0)] + Walk(m, off + size)
  }

  /** Walking the headers from the start of the memory yields exactly the blocks of the layout. */
  lemma {:induction false} WalkYieldsLayout(m: seq<byte>, l: Layout, k: nat)
    requires Stored(m, l) && Tiled(l) && k <= |l.blocks|
    ensures Walk(m, Start(l, k)) == l.blocks[k..]
    decreases |l.blocks| - k
  {
    if k < |l.blocks| {
      assert Abuts(l, k) && StoredAt(m, l, k);
      WalkYieldsLayout(m, l, k + 1);
    }
  }

  ghost predicate PayloadKept(m: seq<byte>, m': seq<byte>, b: Block) {
    b.off + HEADER <= b.off + b.size <= |m| == |m'| &&
    m'[b.off + HEADER..b.off + b.size] == m[b.off + HEADER..b.off + b.size]
  }

  /** The payloads of all allocated blocks are the same bytes. */
  ghost predicate PayloadsKept(m: seq<byte>, m': seq<byte>, l: Layout) {
    forall k: nat :: k < |l.blocks| && l.blocks[k].used ==> PayloadKept(m, m', l.blocks[k])
  }

  /** A change inside one stretch of the heap leaves the headers of the blocks outside it in place. */
  lemma BlockFrame(m: seq<byte>, m': seq<byte>, l: Layout, lo: nat, hi: nat, k: nat)
    requires Stored(m, l) && SameOutside(m, m', lo, hi) && k < |l.blocks|
    requires l.blocks[k].off + HEADER <= lo || hi <= l.blocks[k].off
    ensures BlockStored(m', l.blocks[k])
  {
    assert StoredAt(m, l, k);
    HeaderFrame(m, m', lo, hi, l.blocks[k].off, l.blocks[k].size, l.blocks[k].used);
  }

  /**
    The blocks other than `width` consecutive ones from i on keep their headers when only the span of those changes.
   */
  lemma OthersFrame(m: seq<byte>, m': seq<byte>, l: Layout, i: nat, width: nat, k: nat)
    requires Stored(m, l) && Tiled(l) && i + width <= |l.blocks| && k < |l.blocks| && (k < i || i + width <= k)
    requires SameOutside(m, m', Start(l, i), Start(l, i + width))
    ensures BlockStored(m', l.blocks[k])
  {
    assert Abuts(l, k);
    if k < i {
      Ordered(l, k, i);
    } else if i + width < k {
      StartsOrdered(l, i + width, k);
    }
    BlockFrame(m, m', l, Start(l, i), Start(l, i + width), k);
  }

  lemma StartsOrdered(l: Layout, j: nat, k: nat)
    requires Tiled(l) && j <= k <= |l.blocks|
    ensures Start(l, j) <= Start(l, k)
  {
    if j < k {
      assert Abuts(l, j);
      Ordered(l, j, k);
    }
  }

  /** The list with `middle` in place of `width` blocks is stored if the new headers are, and nothing else changed. */
  lemma SpliceStored(m: seq<byte>, m': seq<byte>, l: Layout, i: nat, width: nat, middle: seq<Block>)
    requires Stored(m, l) && Tiled(l) && i + width <= |l.blocks|
    requires SameOutside(m, m', Start(l, i), Start(l, i + width))
    requires forall j: nat :: j < |middle| ==> BlockStored(m', middle[j])
    ensures Stored(m', l.(blocks := Splice(l.blocks, i, width, middle)))
  {
    var t := l.(blocks := Splice(l.blocks, i, width, middle));
    forall k: nat | k < |t.blocks|
      ensures StoredAt(m', t, k)
    {
      SpliceElement(l.blocks, i, width, middle, k);
      if k < i {
        OthersFrame(m, m', l, i, width, k);
      } else if k >= i + |middle| {
        OthersFrame(m, m', l, i, width, k - |middle| + width);
      }
    }
    StartsOrdered(l, i + width, |l.blocks|);
    HeaderFrame(m, m', Start(l, i), Start(l, i + width), l.end, 0, true);
  }

  /** Payloads of allocated blocks survive a change inside the span of a free block, or beyond the end. */
  lemma PayloadsFrame(m: seq<byte>, m': seq<byte>, l: Layout, i: nat, hi: nat)
    requires Stored(m, l) && Tiled(l) && i <= |l.blocks|
    requires i < |l.blocks| ==> !l.blocks[i].used && hi == Start(l, i + 1)
    requires SameOutside(m, m', Start(l, i), hi)
    ensures PayloadsKept(m, m', l)
  {
    forall k: nat | k < |l.blocks| && l.blocks[k].used
      ensures PayloadKept(m, m', l.blocks[k])
    {
      assert Abuts(l, k);
      Ordered(l, k, |l.blocks|);
      if k < i {
        Ordered(l, k, i);
      } else {
        assert Abuts(l, i);
        StartsOrdered(l, i + 1, k);
      }
    }
  }

  class KernelHeap {
    const mem: array<byte>
    var allocatedBytes: nat
    var freeBytes: nat
    var allocatedBlocks: nat
    ghost var layout: Layout

    ghost function Model(): Heap
      reads this
    {
      Heap(layout, Info(allocatedBytes, freeBytes, allocatedBlocks))
    }

    ghost predicate Valid()
      reads this, mem
    {
      HeapModel.Inv(Model()) && Stored(mem[..], layout)
    }

    /** The `size` field of the header at the offset. */
    function SizeField(off: nat): nat
      requires off + HEADER <= mem.Length
      reads mem
    {
      Decode(mem[off..off + 8])
    }

    /** The `allocated` field of the header at the offset, as a condition. */
    predicate AllocatedField(off: nat)
      requires off + HEADER <= mem.Length
      reads mem
    {
      mem[off + 8] != 0
    }

    method WriteSize(off: nat, size: nat)
      requires off + HEADER <= mem.Length && size < WORD64
      modifies mem
      ensures SameOutside(old(mem[..]), mem[..], off, off + 8)
      ensures Decode(mem[off..off + 8]) == size
    {
      var bytes := Encode(size, 8);
      forall k | 0 <= k < 8 {
        mem[off + k] := bytes[k];
      }
      assert mem[off..off + 8] == bytes;
      Spans();
      DecodeEncode(size, 8);
    }

    method WriteAllocated(off: nat, used: bool)
      requires off + HEADER <= mem.Length
      modifies mem
      ensures SameOutside(old(mem[..]), mem[..], off + 8, off + 9)
      ensures (mem[off + 8] != 0) == used
    {
      mem[off + 8] := if used then 1 else 0;
    }

    method WriteHeader(off: nat, size: nat, used: bool)
      requires off + HEADER <= mem.Length && size < WORD64
      modifies mem
      ensures SameOutside(old(mem[..]), mem[..], off, off + HEADER)
      ensures HeaderAt(mem[..], off, size, used)
    {
      WriteSize(off, size);
      ghost var bytes := mem[off..off + 8];
      WriteAllocated(off, used);
      assert mem[..][off..off + 8] == bytes;
    }

    /** `memory_init` on memory of any content. */
    constructor ()
      ensures Valid() && fresh(mem)
      ensures Model() == EMPTY_HEAP
    {
      mem := new byte[HEAP_SIZE];
      allocatedBytes, freeBytes, allocatedBlocks := 0, HEAP_SIZE, 0;
      layout := Layout([], 0);
      new;
      WriteHeader(0, 0, true);
    }

    /** What the header at position i of the list says. */
    lemma HeaderFacts(i: nat)
      requires Tiled(layout) && Stored(mem[..], layout) && i <= |layout.blocks|
      ensures Start(layout, i) + HEADER <= mem.Length
      ensures i == |layout.blocks| ==> SizeField(layout.end) == 0 && AllocatedField(layout.end)
      ensures i < |layout.blocks| ==>
                var b := layout.blocks[i];
                && SizeField(b.off) == Size(SizeField(b.off)) == b.size > 0 && AllocatedField(b.off) == b.used
                && b.off + b.size == Start(layout, i + 1)
    {
      var m := mem[..];
      if i < |layout.blocks| {
        var b := layout.blocks[i];
        assert Abuts(layout, i) && StoredAt(m, layout, i);
        assert m[b.off..b.off + 8] == mem[b.off..b.off + 8];
      } else {
        assert m[layout.end..layout.end + 8] == mem[layout.end..layout.end + 8];
      }
    }

    predicate Scanned(p: nat, b: Block)
      requires p + HEADER <= mem.Length
      reads mem
    {
      Size(SizeField(p)) == b.size && AllocatedField(p) == b.used
    }

    lemma ScanFacts(p: nat, i: nat)
      requires Tiled(layout) && Stored(mem[..], layout) && i <= |layout.blocks| && p == Start(layout, i)
      ensures p + HEADER <= mem.Length
      ensures Size(SizeField(p)) > 0 <==> i < |layout.blocks|
      ensures i < |layout.blocks| ==> Scanned(p, layout.blocks[i]) && p + Size(SizeField(p)) == Start(layout, i + 1)
    {
      HeaderFacts(i);
    }

    /** `find_free_block`: the offset of the block to use, None for NULL; `i` is its position in the list. */
    method FindFreeBlock(size: nat) returns (ptr: Option<nat>, ghost i: nat)
      requires Tiled(layout) && Stored(mem[..], layout)
      ensures i == FirstFit(layout.blocks, size, 0)
      ensures ptr == if i == |layout.blocks| && !RoomAtEnd(layout.end, size) then None else Some(Start(layout, i))
    {
      var p := 0;
      i := 0;
      ScanFacts(p, i);
      while Size(SizeField(p)) > 0 && (AllocatedField(p) || Size(SizeField(p)) < size)
        invariant i <= |layout.blocks| && p == Start(layout, i) && p + HEADER <= mem.Length
        invariant Size(SizeField(p)) > 0 <==> i < |layout.blocks|
        invariant i < |layout.blocks| ==> Scanned(p, layout.blocks[i]) && p + Size(SizeField(p)) == Start(layout, i + 1)
        invariant FirstFit(layout.blocks, size, 0) == FirstFit(layout.blocks, size, i)
        decreases |layout.blocks| - i
      {
        p := p + Size(SizeField(p));
        i := i + 1;
        ScanFacts(p, i);
      }
      if Size(SizeField(p)) == 0 {
        if HEAP_START + p + HEADER * (size + HEADER) > HEAP_END {
          return None, i;
        }
      }
      ptr := Some(p);
    }

    /** The part of a free block that is not needed becomes a free block of its own. */
    method WriteSplit(p: nat, size: nat, oldSize: nat, ghost i: nat)
      requires Valid() && i < |layout.blocks| && layout.blocks[i] == Block(p, oldSize, false)
      requires Splits(layout.blocks[i], size)
      requires p + oldSize <= mem.Length && size >= MIN_SIZE
      modifies mem
      ensures Stored(mem[..], Take(layout, i, size)) && PayloadsKept(old(mem[..]), mem[..], layout)
    {
      ghost var m := mem[..];
      assert Abuts(layout, i);
      WriteHeader(p, size, true);
      ghost var m1 := mem[..];
      WriteHeader(p + size, oldSize - size, false);
      HeaderFrame(m1, mem[..], p + size, p + size + HEADER, p, size, true);
      assert SameOutside(m, mem[..], p, p + oldSize);
      SplitStored(m, mem[..], layout, i, size);
      PayloadsFrame(m, mem[..], layout, i, p + oldSize);
    }

    /** The new block starts at the end header, and the end header moves behind it. */
    method WriteExtension(p: nat, size: nat)
      requires Valid() && p == layout.end && RoomAtEnd(layout.end, size) && size >= MIN_SIZE
      modifies mem
      ensures Stored(mem[..], Take(layout, |layout.blocks|, size)) && PayloadsKept(old(mem[..]), mem[..], layout)
    {
      ghost var m := mem[..];
      WriteHeader(p + size, 0, true);
      ghost var m1 := mem[..];
      WriteHeader(p, size, true);
      HeaderFrame(m1, mem[..], p, p + HEADER, p + size, 0, true);
      assert SameOutside(m, mem[..], p, p + size + HEADER);
      ExtendStored(m, mem[..], layout, size);
      PayloadsFrame(m, mem[..], layout, |layout.blocks|, p + size + HEADER);
    }

    /** A free block that is not split changes only its flag. */
    method WriteWhole(p: nat, size: nat, oldSize: nat, ghost i: nat)
      requires Valid() && i < |layout.blocks| && layout.blocks[i] == Block(p, oldSize, false)
      requires !Splits(layout.blocks[i], size)
      requires p + oldSize <= mem.Length
      modifies mem
      ensures Stored(mem[..], Take(layout, i, size)) && PayloadsKept(old(mem[..]), mem[..], layout)
    {
      ghost var m := mem[..];
      assert Abuts(layout, i);
      WriteHeader(p, oldSize, true);
      assert SameOutside(m, mem[..], p, p + oldSize);
      SpliceStored(m, mem[..], layout, i, 1, [Block(p, oldSize, true)]);
      PayloadsFrame(m, mem[..], layout, i, p + oldSize);
    }

    /** `add_block` at the offset found by the scan. */
    method AddBlock(p: nat, size: nat, ghost i: nat)
      requires Valid() && i <= |layout.blocks| && p == Start(layout, i) && size >= MIN_SIZE && size % 2 == 0
      requires if i < |layout.blocks| then !layout.blocks[i].used && size <= layout.blocks[i].size
               else RoomAtEnd(layout.end, size)
      modifies this, mem
      ensures Valid()
      ensures Model() == Heap(Take(old(layout), i, size), Charged(old(Model()).info, Charge(old(layout), i, size)))
      ensures PayloadsKept(old(mem[..]), mem[..], old(layout))
    {
      HeaderFacts(i);
      TakeKeeps(Model(), i, size);
      ghost var t := Take(layout, i, size);
      var word := SizeField(p);
      var oldSize := Size(word);
      ghost var spanEnd := EndsBelow(i);
      if size + MIN_SIZE < oldSize {
        WriteSplit(p, size, oldSize, i);
        Account(size);
      } else if word <= 0 {
        WriteExtension(p, size);
        Account(size);
      } else {
        WriteWhole(p, size, oldSize, i);
        Account(oldSize);
      }
      layout := t;
    }

    /** A block ends inside the memory. */
    lemma EndsBelow(i: nat) returns (end: nat)
      requires Valid() && i <= |layout.blocks|
      ensures i < |layout.blocks| ==> end == layout.blocks[i].off + layout.blocks[i].size <= mem.Length
    {
      end := 0;
      if i < |layout.blocks| {
        end := layout.blocks[i].off + layout.blocks[i].size;
        Ordered(layout, i, |layout.blocks|);
      }
    }

    method Discharge(size: nat)
      modifies this`allocatedBytes, this`freeBytes, this`allocatedBlocks
      ensures Model().info == Discharged(old(Model()).info, size)
    {
      allocatedBytes := (allocatedBytes - size) % WORD64;
      freeBytes := (freeBytes + size) % WORD64;
      allocatedBlocks := (allocatedBlocks - 1) % WORD64;
    }

    method Account(size: nat)
      modifies this`allocatedBytes, this`freeBytes, this`allocatedBlocks
      ensures Model().info == Charged(old(Model()).info, size)
    {
      allocatedBytes := (allocatedBytes + size) % WORD64;
      freeBytes := (freeBytes - size) % WORD64;
      allocatedBlocks := (allocatedBlocks + 1) % WORD64;
    }

    /** `memory_alloc`; 0 stands for NULL. */
    method Allocate(request: nat) returns (ptr: nat)
      requires Valid()
      modifies this, mem
      ensures Valid()
      ensures Model() == HeapModel.Alloc(old(Model()), request)
      ensures ptr == match AllocResult(old(Model()), request) case None => 0 case Some(p) => p
      ensures PayloadsKept(old(mem[..]), mem[..], old(layout))
    {
      if request <= 0 || request > MAX_SIZE {
        SamePayloads(mem[..], layout);
        return 0;
      }
      var size := Size(request + HEADER + 1);
      ghost var i;
      var p;
      p, i := FindFreeBlock(size);
      if p == None {
        SamePayloads(mem[..], layout);
        return 0;
      }
      FirstFitIsFirst(layout.blocks, size, 0);
      AddBlock(p.value, size, i);
      ptr := HEAP_START + p.value + HEADER;
    }

    /** What `free_block` reads: the header of block i and the one after it. */
    lemma FreeFacts(i: nat)
      requires Tiled(layout) && Stored(mem[..], layout) && i < |layout.blocks|
      ensures var b := layout.blocks[i];
              var next := b.off + b.size;
              && b.off + HEADER <= next && next + HEADER <= mem.Length
              && SizeField(b.off) == b.size == Size(b.size)
              && (!AllocatedField(next) <==> MergesNext(layout, i))
              && (MergesNext(layout, i) ==>
                    && SizeField(next) == layout.blocks[i + 1].size
                    && b.size + layout.blocks[i + 1].size < WORD64)
    {
      HeaderFacts(i);
      HeaderFacts(i + 1);
      assert Abuts(layout, i);
      if i + 1 < |layout.blocks| {
        Ordered(layout, i + 1, |layout.blocks|);
      }
    }

    /** `free_block` on the allocated block i, whose header is at p. */
    method FreeBlock(p: nat, ghost i: nat)
      requires Tiled(layout) && Stored(mem[..], layout) && i < |layout.blocks| && layout.blocks[i].off == p
      requires layout.blocks[i].used
      modifies mem
      ensures Stored(mem[..], Release(layout, i)) && PayloadsKept(old(mem[..]), mem[..], layout)
    {
      ghost var m, b := mem[..], layout.blocks[i];
      FreeFacts(i);
      WriteAllocated(p, false);
      ghost var m1 := mem[..];
      assert mem[p..p + 8] == m[p..p + 8];
      var size := SizeField(p);
      var next := p + Size(size);
      assert mem[next..next + 8] == m[next..next + 8];
      if !AllocatedField(next) {
        WriteSize(p, size + SizeField(next));
        assert mem[..][p..p + 8] == mem[p..p + 8];
        MergeStored(m, mem[..], layout, i);
      } else {
        assert mem[..][p..p + 8] == mem[p..p + 8];
        ClearStored(m, mem[..], layout, i);
      }
      HeaderChange(m, mem[..], layout, i);
    }

    /** `memory_free` of a live pointer or of one outside the heap. */
    method Deallocate(ptr: nat)
      requires Valid() && (InHeap(ptr) ==> Lookup(layout, ptr, 0).Some?)
      modifies this, mem
      ensures Valid()
      ensures Model() == HeapModel.Free(old(Model()), ptr)
      ensures PayloadsKept(old(mem[..]), mem[..], old(layout))
    {
      if ptr == 0 || ptr < HEAP_START || ptr >= HEAP_END {
        SamePayloads(mem[..], layout);
        return;
      }
      var p := ptr - HEAP_START - HEADER;
      ghost var i := Lookup(layout, ptr, 0).value;
      ghost var after := HeapModel.Free(Model(), ptr);
      FreeFacts(i);
      ReleaseKeeps(Model(), i);
      Discharge(Size(SizeField(p)));
      FreeBlock(p, i);
      layout := Release(layout, i);
      assert Model() == after;
    }

    lemma SamePayloads(m: seq<byte>, l: Layout)
      requires Tiled(l) && |m| == HEAP_SIZE
      ensures PayloadsKept(m, m, l)
    {
      forall k: nat | k < |l.blocks| && l.blocks[k].used
        ensures PayloadKept(m, m, l.blocks[k])
      {
        assert Abuts(l, k);
        Ordered(l, k, |l.blocks|);
      }
    }

    /** The owner of a live pointer writes a byte of its payload: no header is touched. */
    method StorePayload(ptr: nat, k: nat, b: byte)
      requires Valid() && Lookup(layout, ptr, 0).Some?
      requires k + HEADER < layout.blocks[Lookup(layout, ptr, 0).value].size
      requires ptr + k - HEAP_START < mem.Length
      modifies mem
      ensures Valid()
      ensures mem[..] == old(mem[..])[ptr + k - HEAP_START := b]
    {
      ghost var m, i := mem[..], Lookup(layout, ptr, 0).value;
      var a := ptr + k - HEAP_START;
      mem[a] := b;
      assert Abuts(layout, i);
      PayloadWriteStored(m, mem[..], layout, i, a);
    }
  }

  /** A change inside the payload of block i, a live one, leaves all headers in place. */
  lemma PayloadWriteStored(m: seq<byte>, m': seq<byte>, l: Layout, i: nat, a: nat)
    requires Stored(m, l) && Tiled(l) && i < |l.blocks| && SameOutside(m, m', a, a + 1)
    requires l.blocks[i].off + HEADER <= a < l.blocks[i].off + l.blocks[i].size
    ensures Stored(m', l)
  {
    forall k: nat | k < |l.blocks|
      ensures StoredAt(m', l, k)
    {
      assert Abuts(l, k);
      if k < i {
        Ordered(l, k, i);
      } else if i < k {
        Ordered(l, i, k);
      }
      BlockFrame(m, m', l, a, a + 1, k);
    }
    Ordered(l, i, |l.blocks|);
    HeaderFrame(m, m', a, a + 1, l.end, 0, true);
  }

  /** A list in which one block takes the place of `width`: stored if its header is and little else changed. */
  lemma ReplaceStored(m: seq<byte>, m': seq<byte>, l: Layout, i: nat, width: nat, u: Block)
    requires Stored(m, l) && Tiled(l) && i + width <= |l.blocks|
    requires Start(l, i) + HEADER <= Start(l, i + width)
    requires SameOutside(m, m', Start(l, i), Start(l, i) + HEADER) && BlockStored(m', u)
    ensures Stored(m', l.(blocks := Splice(l.blocks, i, width, [u])))
  {
    SpliceStored(m, m', l, i, width, [u]);
  }

  lemma MergeStored(m: seq<byte>, m': seq<byte>, l: Layout, i: nat)
    requires Stored(m, l) && Tiled(l) && i < |l.blocks| && MergesNext(l, i)
    requires SameOutside(m, m', l.blocks[i].off, l.blocks[i].off + HEADER)
    requires HeaderAt(m', l.blocks[i].off, l.blocks[i].size + l.blocks[i + 1].size, false)
    ensures Stored(m', Release(l, i))
  {
    assert Abuts(l, i) && Abuts(l, i + 1);
    ReplaceStored(m, m', l, i, 2, Block(l.blocks[i].off, l.blocks[i].size + l.blocks[i + 1].size, false));
  }

  lemma ClearStored(m: seq<byte>, m': seq<byte>, l: Layout, i: nat)
    requires Stored(m, l) && Tiled(l) && i < |l.blocks| && !MergesNext(l, i)
    requires SameOutside(m, m', l.blocks[i].off, l.blocks[i].off + HEADER)
    requires HeaderAt(m', l.blocks[i].off, l.blocks[i].size, false)
    ensures Stored(m', Release(l, i))
  {
    assert Abuts(l, i);
    ReplaceStored(m, m', l, i, 1, l.blocks[i].(used := false));
  }

  /** A change of one header leaves all payloads alone. */
  lemma HeaderChange(m: seq<byte>, m': seq<byte>, l: Layout, i: nat)
    requires Tiled(l) && |m| == HEAP_SIZE && i < |l.blocks|
    requires SameOutside(m, m', l.blocks[i].off, l.blocks[i].off + HEADER)
    ensures PayloadsKept(m, m', l)
  {
    forall k: nat | k < |l.blocks| && l.blocks[k].used
      ensures PayloadKept(m, m', l.blocks[k])
    {
      assert Abuts(l, k) && Abuts(l, i);
      Ordered(l, k, |l.blocks|);
      if k < i {
        Ordered(l, k, i);
      } else if i < k {
        Ordered(l, i, k);
      }
    }
  }

  lemma SplitStored(m: seq<byte>, m': seq<byte>, l: Layout, i: nat, size: nat)
    requires Stored(m, l) && Tiled(l) && i < |l.blocks| && Splits(l.blocks[i], size)
    requires SameOutside(m, m', l.blocks[i].off, l.blocks[i].off + l.blocks[i].size)
    requires HeaderAt(m', l.blocks[i].off, size, true)
    requires HeaderAt(m', l.blocks[i].off + size, l.blocks[i].size - size, false)
    ensures Stored(m', Take(l, i, size))
  {
    var b := l.blocks[i];
    assert Abuts(l, i);
    var u, v := Block(b.off, size, true), Block(b.off + size, b.size - size, false);
    assert BlockStored(m', u) && BlockStored(m', v);
    SpliceStored(m, m', l, i, 1, [u, v]);
  }

  lemma ExtendStored(m: seq<byte>, m': seq<byte>, l: Layout, size: nat)
    requires Stored(m, l) && Tiled(l) && SameOutside(m, m', l.end, l.end + size + HEADER)
    requires HeaderAt(m', l.end, size, true) && HeaderAt(m', l.end + size, 0, true)
    ensures Stored(m', Take(l, |l.blocks|, size))
  {
    var t := Take(l, |l.blocks|, size);
    forall k: nat | k < |t.blocks|
      ensures StoredAt(m', t, k)
    {
      if k < |l.blocks| {
        assert Abuts(l, k);
        Ordered(l, k, |l.blocks|);
        BlockFrame(m, m', l, l.end, l.end + size + HEADER, k);
      }
    }
  }
}
