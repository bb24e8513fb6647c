/** Shared vocabulary: machine words, optional values and the view of a circular buffer as a sequence. */
module Common {

  /** Number of values of a 32-bit and of a 64-bit unsigned integer. */
  const WORD32: nat := 0x1_0000_0000
  const WORD64: nat := 0x1_0000_0000_0000_0000

  type byte = b: nat | b < 256
  type uint64 = w: nat | w < WORD64

  datatype Option<+T> = None | Some(value: T)

  function Pow2(n: nat): (p: nat)
    ensures p > 0
  {
    if n == 0 then 1 else 2 * Pow2(n - 1)
  }
}

module ProcessStates {
  /** The `state` field of a process, with the names of the kernel's constants. */
  datatype ProcessState = Dead | Block | Ready | Running | Paused | PausedByChild | PausedBySem
}

/** A circular buffer of n cells, seen as the sequence of its occupied cells. */
module Ring {

  /** The `count` cells of `ring` from index `start`, wrapping around at the end. */
  function Cells<T>(ring: seq<T>, start: nat, count: nat): (s: seq<T>)
    requires start < |ring| && count <= |ring|
    ensures |s| == count
  {
    seq(count, k requires 0 <= k < count => ring[(start + k) % |ring|])
  }

  /** Index arithmetic modulo n stays injective over fewer than n steps. */
  lemma WrapInjective(n: nat, start: nat, j: nat, k: nat)
    requires start < n && j < k < n
    ensures (start + j) % n != (start + k) % n
  {
    var a, b := start + j, start + k;
    assert a < 2 * n && b < 2 * n;
    if a % n == b % n {
      WrapSmall(n, a);
      WrapSmall(n, b);
    }
  }

  lemma WrapSmall(n: nat, a: nat)
    requires 0 < n && a < 2 * n
    ensures a % n == if a < n then a else a - n
  {
    if n <= a {
      assert a == n + (a - n);
      assert (a - n) % n == a - n;
    }
  }

  /** Writing the first free cell appends, and disturbs no occupied cell. */
  lemma Push<T>(ring: seq<T>, start: nat, count: nat, x: T)
    requires start < |ring| && count < |ring|
    ensures (start + count) % |ring| < |ring|
    ensures Cells(ring[(start + count) % |ring| := x], start, count + 1) == Cells(ring, start, count) + [x]
  {
    var n := |ring|;
    var after := Cells(ring[(start + count) % n := x], start, count + 1);
    forall k | 0 <= k < count + 1
      ensures after[k] == (Cells(ring, start, count) + [x])[k]
    {
      if k < count {
        WrapInjective(n, start, k, count);
      }
    }
  }

  /** Advancing the start index removes exactly the oldest cell. */
  lemma Pop<T>(ring: seq<T>, start: nat, count: nat)
    requires start < |ring| && 0 < count <= |ring|
    ensures Cells(ring, start, count)[0] == ring[start]
    ensures (start + 1) % |ring| < |ring|
    ensures Cells(ring, (start + 1) % |ring|, count - 1) == Cells(ring, start, count)[1..]
  {
    var n := |ring|;
    WrapSmall(n, start);
    WrapSmall(n, start + 1);
    var next := (start + 1) % n;
    forall k | 0 <= k < count - 1
      ensures Cells(ring, next, count - 1)[k] == Cells(ring, start, count)[1..][k]
    {
      WrapSmall(n, next + k);
      WrapSmall(n, start + (k + 1));
    }
  }

  /** Filling a cell moves the first free cell on by one. */
  lemma FreeCellAfterPush(n: nat, start: nat, count: nat)
    requires start < n && count < n
    ensures ((start + count) % n + 1) % n == (start + (count + 1)) % n
  {
    var a := start + count;
    WrapSmall(n, a);
    WrapSmall(n, a % n + 1);
    if a + 1 < 2 * n {
      WrapSmall(n, a + 1);
    }
  }

  /** Taking a cell leaves the first free cell where it is. */
  lemma FreeCellAfterPop(n: nat, start: nat, count: nat)
    requires start < n && 0 < count <= n
    ensures ((start + 1) % n + (count - 1)) % n == (start + count) % n
  {
    WrapSmall(n, start + 1);
    if start + 1 == n {
      WrapSmall(n, count - 1);
      WrapSmall(n, start + count);
    } else {
      assert (start + 1) + (count - 1) == start + count;
    }
  }
}

/** Little-endian representation of numbers in memory and in files. */
module LittleEndian {
  import opened Common

  /** 256 to the power n: the number of values n bytes can hold. */
  function Span(n: nat): (p: nat)
    ensures p > 0
  {
    if n == 0 then 1 else 256 * Span(n - 1)
  }

  function Encode(x: nat, n: nat): (s: seq<byte>)
    ensures |s| == n
  {
    if n == 0 then [] else [x % 256] + Encode(x / 256, n - 1)
  }

  function Decode(s: seq<byte>): nat {
    if s == [] then 0 else s[0] + 256 * Decode(s[1..])
  }

  lemma {:induction false} DecodeEncode(x: nat, n: nat)
    requires x < Span(n)
    ensures Decode(Encode(x, n)) == x
  {
    if n > 0 {
      DecodeEncode(x / 256, n - 1);
      assert Encode(x, n)[1..] == Encode(x / 256, n - 1);
    }
  }

  lemma {:induction false} EncodeDecode(s: seq<byte>)
    ensures Decode(s) < Span(|s|)
    ensures Encode(Decode(s), |s|) == s
  {
    if s != [] {
      EncodeDecode(s[1..]);
      LowByte(s[0], Decode(s[1..]));
      assert s == [s[0]] + s[1..];
    }
  }

  lemma LowByte(b: byte, d: nat)
    ensures (b + 256 * d) % 256 == b && (b + 256 * d) / 256 == d
  {
  }

  lemma Spans()
    ensures Span(4) == WORD32 && Span(8) == WORD64
  {
    assert Span(1) == 256;
    assert Span(2) == 0x1_0000;
    assert Span(3) == 0x100_0000;
    assert Span(5) == 0x100_0000_0000;
    assert Span(6) == 0x1_0000_0000_0000;
    assert Span(7) == 0x100_0000_0000_0000;
  }
}

/** Counting the members of a list without repetitions. */
module Counting {

  ghost predicate Distinct(s: seq<nat>) {
    forall j, k :: 0 <= j < k < |s| ==> s[j] != s[k]
  }

  /** A list of distinct members of a set is no longer than the set is large. */
  lemma {:induction false} DistinctBound(s: seq<nat>, members: set<nat>)
    requires Distinct(s) && forall x :: x in s ==> x in members
    ensures |s| <= |members|
  {
    if s != [] {
      var last := s[|s| - 1];
      forall x | x in s[..|s| - 1]
        ensures x in members - {last}
      {
      }
      DistinctBound(s[..|s| - 1], members - {last});
    }
  }

  /** The rest of a list of distinct members lacks the first one only. */
  lemma TailQueue(s: seq<nat>)
    requires s != [] && Distinct(s)
    ensures Distinct(s[1..]) && forall x :: x in s[1..] <==> x in s && x != s[0]
  {
    forall x
      ensures x in s[1..] <==> x in s && x != s[0]
    {
      if x in s && x != s[0] {
        var k :| 0 <= k < |s| && s[k] == x;
        assert s[1..][k - 1] == x;
      }
      if x in s[1..] {
        var k :| 0 <= k < |s| - 1 && s[1..][k] == x;
        assert s[0] != s[k + 1];
      }
    }
  }
}
