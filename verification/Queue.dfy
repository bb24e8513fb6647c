/**
  The waiter queue: a circular buffer with read and write positions and a length.

  The class is proved against the sequence `Contents()`. The iterator of the source compares
  positions only, so a full ring looks empty to it; `IteratorYield` says exactly what it delivers.
 */
module WaiterQueue {
  import opened Common
  import Ring

  /** `EMPTY_QUEUE_ERROR` (-1) and `NO_MORE_ELEMS` (-2), as the unsigned words they are returned as. */
  const EMPTY_QUEUE_ERROR: nat := WORD64 - 1
  const NO_MORE_ELEMS: nat := WORD64 - 2

  /** The position test of the iterator: is `pos` inside the occupied arc from `read` to `write`? */
  predicate InArc(size: nat, read: nat, write: nat, pos: nat) {
    if read > write then (pos >= read && size > pos) || pos < write
    else pos < write && pos >= read
  }

  /** What walking the iterator from the read position delivers: everything, unless the ring is full. */
  function IteratorYield(contents: seq<nat>, capacity: nat): (s: seq<nat>) {
    if |contents| == capacity then [] else contents
  }

  /** In a ring that is not full, the position test at the k-th step is true exactly for occupied cells. */
  lemma InArcMeansOccupied(size: nat, read: nat, count: nat, k: nat)
    requires read < size && count < size && k <= count
    ensures InArc(size, read, (read + count) % size, (read + k) % size) <==> k < count
  {
    Ring.WrapSmall(size, read + count);
    Ring.WrapSmall(size, read + k);
  }

  /** In a full ring the position test is false at the very first step, although every cell is occupied. */
  lemma FullRingLooksEmpty(size: nat, read: nat)
    requires read < size
    ensures !InArc(size, read, (read + size) % size, read)
  {
    Ring.WrapSmall(size, read + size);
  }

  class Queue {
    const elements: array<nat>
    var readPos: nat
    var writePos: nat
    var length: nat
    const size: nat

    ghost predicate Valid()
      reads this, elements
    {
      && 0 < size == elements.Length
      && readPos < size
      && length <= size
      && writePos == (readPos + length) % size
    }

    /** The queued values, oldest first. */
    ghost function Contents(): (s: seq<nat>)
      requires Valid()
      reads this, elements
      ensures |s| == length
    {
      Ring.Cells(elements[..], readPos, length)
    }

    constructor (capacity: nat)
      requires 0 < capacity
      ensures Valid() && fresh(elements)
      ensures Contents() == [] && size == capacity
    {
      elements := new nat[capacity];
      readPos, writePos, length, size := 0, 0, 0, capacity;
    }

    /** Appends, or silently drops the value when the ring is full. */
    method Enqueue(elem: nat)
      requires Valid()
      modifies this`writePos, this`length, elements
      ensures Valid()
      ensures Contents() == if |old(Contents())| == size then old(Contents()) else old(Contents()) + [elem]
    {
      if length == size {
        return;
      }
      Ring.Push(elements[..], readPos, length, elem);
      Ring.FreeCellAfterPush(size, readPos, length);
      ghost var cells := elements[..];
      elements[writePos] := elem;
      assert elements[..] == cells[writePos := elem];
      writePos := (writePos + 1) % size;
      length := length + 1;
    }

    method Dequeue() returns (elem: nat)
      requires Valid()
      modifies this`readPos, this`length
      ensures Valid()
      ensures old(Contents()) == [] ==> elem == EMPTY_QUEUE_ERROR && Contents() == []
      ensures old(Contents()) != [] ==> elem == old(Contents())[0] && Contents() == old(Contents())[1..]
    {
      if length == 0 {
        return EMPTY_QUEUE_ERROR;
      }
      Ring.Pop(elements[..], readPos, length);
      Ring.FreeCellAfterPop(size, readPos, length);
      elem := elements[readPos];
      readPos := (readPos + 1) % size;
      length := length - 1;
    }

    method IsInQueue(elem: nat) returns (found: bool)
      requires Valid()
      ensures found <==> elem in Contents()
    {
      var i := 0;
      while i < length
        invariant 0 <= i <= length
        invariant elem !in Contents()[..i]
      {
        assert Contents()[i] == elements[(readPos + i) % size];
        if elements[(readPos + i) % size] == elem {
          return true;
        }
        assert Contents()[..i + 1] == Contents()[..i] + [Contents()[i]];
        i := i + 1;
      }
      assert Contents()[..i] == Contents();
      return false;
    }

    method CreateIterator() returns (pos: nat)
      requires Valid()
      ensures pos == readPos
    {
      pos := readPos;
    }

    predicate HasNext(pos: nat)
      reads this
    {
      InArc(size, readPos, writePos, pos)
    }

    /** `next`, called with the iterator position it is meant to test. */
    method Next(pos: nat) returns (elem: nat, pos': nat)
      requires Valid() && pos < size
      ensures pos' < size
      ensures !HasNext(pos) ==> elem == NO_MORE_ELEMS && pos' == pos
      ensures HasNext(pos) ==> elem == elements[pos] && pos' == (pos + 1) % size
    {
      if !HasNext(pos) {
        return NO_MORE_ELEMS, pos;
      }
      elem := elements[pos];
      pos' := (pos + 1) % size;
    }

    /** The positions an iterator visits in a ring that is not full, ending with the one where it stops. */
    lemma IteratorWalk() returns (visited: seq<nat>)
      requires Valid() && length < size
      ensures |visited| == length + 1 && visited[0] == readPos
      ensures forall k :: 0 <= k <= length ==> visited[k] < size && (HasNext(visited[k]) <==> k < length)
      ensures forall k :: 0 <= k < length ==> elements[visited[k]] == Contents()[k]
      ensures forall k :: 0 <= k < length ==> visited[k + 1] == (visited[k] + 1) % size
    {
      var start, n := readPos, size;
      visited := seq(length + 1, k requires 0 <= k => (start + k) % n);
      Ring.WrapSmall(size, readPos);
      forall k | 0 <= k <= length
        ensures HasNext(visited[k]) <==> k < length
      {
        InArcMeansOccupied(size, readPos, length, k);
      }
      forall k | 0 <= k < length
        ensures visited[k + 1] == (visited[k] + 1) % size
      {
        Ring.FreeCellAfterPush(size, readPos, k);
      }
    }

    /** `get_blocked_process` on one queue: lists the waiters through the iterator. */
    method BlockedProcesses() returns (pids: seq<nat>)
      requires Valid()
      ensures pids == IteratorYield(Contents(), size)
    {
      pids := [];
      if length > 0 {
        var pos := CreateIterator();
        ghost var visited := [readPos];
        if length == size {
          FullRingLooksEmpty(size, readPos);
        } else {
          visited := IteratorWalk();
        }
        ghost var expected := IteratorYield(Contents(), size);
        while HasNext(pos)
          invariant |pids| <= |expected| && pos == visited[|pids|]
          invariant pids == expected[..|pids|]
          decreases |expected| - |pids|
        {
          var elem;
          elem, pos := Next(pos);
          pids := pids + [elem];
        }
      }
    }
  }
}
