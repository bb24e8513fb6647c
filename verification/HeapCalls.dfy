/** What allocations and frees do to the list of blocks, in numbers of bytes. */
module HeapCalls {
  import opened Common
  import opened HeapModel

  /** The even number of bytes that a request takes with its 16-byte header. */
  predicate TakesBytes(request: nat, total: nat) {
    total % 2 == 0 && request + 16 <= total <= request + 17
  }

  predicate IsFree(blocks: seq<Block>, i: nat, total: nat) {
    i < |blocks| && !blocks[i].used && blocks[i].size >= total
  }

  /** Block i is the first free one that is large enough. */
  ghost predicate FitsFirst(blocks: seq<Block>, i: nat, total: nat) {
    IsFree(blocks, i, total) && forall j: nat :: j < i ==> !IsFree(blocks, j, total)
  }

  /** What becomes of a free block: it is split if more than 18 bytes are left, and otherwise taken whole. */
  function Parts(b: Block, total: nat): seq<Block> {
    if b.size > total + 18 then [Block(b.off, total, true), Block(b.off + total, b.size - total, false)]
    else [Block(b.off, b.size, true)]
  }

  lemma ScanFinds(blocks: seq<Block>, total: nat)
    ensures var i := FirstFit(blocks, total, 0);
            if i < |blocks| then FitsFirst(blocks, i, total) else forall j: nat :: !IsFree(blocks, j, total)
  {
    FirstFitIsFirst(blocks, total, 0);
  }

  /** One of the three cases below applies to every request: bounds, a first block that fits, or none that does. */
  lemma SomeFitsFirst(blocks: seq<Block>, total: nat) returns (i: nat)
    ensures FitsFirst(blocks, i, total) || forall j: nat :: !IsFree(blocks, j, total)
  {
    ScanFinds(blocks, total);
    i := FirstFit(blocks, total, 0);
  }

  /** A request that is out of bounds is refused. */
  lemma OutOfBounds(h: Heap, request: nat)
    requires request == 0 || request > 0x100000 - 16
    ensures AllocResult(h, request) == None && Alloc(h, request) == h
  {
  }

  /** With a free block that is large enough: the first such block serves, and the others are left as they were. */
  lemma ServedByBlock(h: Heap, request: nat, total: nat, i: nat)
    requires 0 < request <= 0x100000 - 16 && TakesBytes(request, total) && FitsFirst(h.layout.blocks, i, total)
    ensures var b := h.layout.blocks;
            && AllocResult(h, request) == Some(0xA00000 + b[i].off + 16)
            && Alloc(h, request).layout == Layout(b[..i] + Parts(b[i], total) + b[i + 1..], h.layout.end)
  {
    assert total == TrueSize(request);
    ScanFinds(h.layout.blocks, total);
    OneFirst(h.layout.blocks, total, i, FirstFit(h.layout.blocks, total, 0));
  }

  lemma OneFirst(blocks: seq<Block>, total: nat, i: nat, j: nat)
    requires FitsFirst(blocks, i, total) && (j < |blocks| ==> FitsFirst(blocks, j, total))
    requires j >= |blocks| ==> forall k: nat :: !IsFree(blocks, k, total)
    ensures j == i
  {
  }

  /**
    Without one, a request is served at the end of the list if and only if the end, plus sixteen times the sum of its
    bytes and a header, is no more than the size of the heap: the end itself is not scaled.
   */
  lemma ServedAtEnd(h: Heap, request: nat, total: nat)
    requires 0 < request <= 0x100000 - 16 && TakesBytes(request, total)
    requires forall j: nat :: !IsFree(h.layout.blocks, j, total)
    ensures var l, ptr := h.layout, AllocResult(h, request);
            if l.end + 16 * (total + 16) <= 0x100000
            then ptr == Some(0xA00000 + l.end + 16) &&
                 Alloc(h, request).layout == Layout(l.blocks + [Block(l.end, total, true)], l.end + total)
            else ptr == None && Alloc(h, request) == h
  {
    assert total == TrueSize(request);
    ScanFinds(h.layout.blocks, total);
  }

  // ----- freeing -----

  /** The block whose payload starts at ptr becomes free, together with the next one if that is free. */
  lemma FreeExactly(h: Heap, ptr: nat, i: nat)
    requires Tiled(h.layout) && i < |h.layout.blocks| && h.layout.blocks[i].used
    requires ptr == 0xA00000 + h.layout.blocks[i].off + 16
    ensures var b := h.layout.blocks;
            Free(h, ptr).layout == Layout(
              if i + 1 < |b| && !b[i + 1].used
              then b[..i] + [Block(b[i].off, b[i].size + b[i + 1].size, false)] + b[i + 2..]
              else b[..i] + [Block(b[i].off, b[i].size, false)] + b[i + 1..], h.layout.end)
  {
    var l := h.layout;
    assert Names(l, ptr, i);
    Ordered(l, i, |l.blocks|);
    var j := Lookup(l, ptr, 0).value;
    assert Abuts(l, i) && Abuts(l, j);
    if j < i {
      Ordered(l, j, i);
    } else if i < j {
      Ordered(l, i, j);
    }
  }

  lemma FreeElsewhere(h: Heap, ptr: nat)
    requires ptr < 0xA00000 || ptr >= 0xB00000
    ensures Free(h, ptr) == h
  {
  }

  // ----- the stacks of processes -----

  /** n requests of 4096 bytes. */
  function Stacks(n: nat): seq<Op> {
    if n == 0 then [] else Stacks(n - 1) + [AllocOp(4096)]
  }

  /** n allocated blocks of 4112 bytes, one after the other. */
  ghost predicate Stacked(l: Layout, n: nat) {
    && |l.blocks| == n && l.end == 4112 * n
    && forall k: nat :: k < n ==> l.blocks[k] == Block(4112 * k, 4112, true)
  }

  lemma NextStack(h: Heap, n: nat)
    requires Stacked(h.layout, n)
    ensures AllocResult(h, 4096) == if n < 239 then Some(0xA00000 + 4112 * n + 16) else None
    ensures if n < 239 then Stacked(Alloc(h, 4096).layout, n + 1) else Alloc(h, 4096) == h
  {
    ServedAtEnd(h, 4096, 4112);
  }

  lemma {:induction false} StacksPile(n: nat)
    ensures Stacked(Exec(Stacks(n)).layout, if n < 239 then n else 239)
  {
    if n > 0 {
      StacksPile(n - 1);
      NextStack(Exec(Stacks(n - 1)), if n - 1 < 239 then n - 1 else 239);
      assert Stacks(n)[..n - 1] == Stacks(n - 1) by {
        StacksLength(n);
      }
    }
  }

  lemma {:induction false} StacksLength(n: nat)
    ensures |Stacks(n)| == n && (n > 0 ==> Stacks(n)[..n - 1] == Stacks(n - 1) && Stacks(n)[n - 1] == AllocOp(4096))
  {
    if n > 0 {
      StacksLength(n - 1);
    }
  }

  /** Of any number of requests for a stack of 4096 bytes on a fresh heap exactly the first 239 are served. */
  lemma StacksServed(n: nat)
    ensures AllocResult(Exec(Stacks(n)), 4096) == if n < 239 then Some(0xA00000 + 4112 * n + 16) else None
  {
    StacksPile(n);
    NextStack(Exec(Stacks(n)), if n < 239 then n else 239);
  }
}
