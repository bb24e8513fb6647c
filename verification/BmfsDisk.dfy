/** The file system utility as it runs: the directory is an array of records, changed in place. */
module BmfsDisk {
  import opened Common
  import opened BmfsModel
  import opened BmfsNames

  /** `qsort` on the first n records, as an insertion sort. */
  method SortRecords(a: array<Entry>, n: nat)
    requires n <= a.Length
    modifies a
    ensures a[..n] == Sorted(old(a[..n]))
    ensures forall k :: n <= k < a.Length ==> a[k] == old(a[k])
  {
    ghost var was := a[..];
    var i := 0;
    while i < n
      invariant i <= n && a[..i] == Sorted(was[..i])
      invariant forall k :: i <= k < a.Length ==> a[k] == was[k]
    {
      SortedNext(was, i);
      InsertRecord(a, i);
      i := i + 1;
    }
  }

  lemma SortedNext(s: seq<Entry>, i: nat)
    requires i < |s|
    ensures Sorted(s[..i + 1]) == Insert(Sorted(s[..i]), s[i])
  {
    assert s[..i + 1][..i] == s[..i];
  }

  /** Record i moves down to its place among the sorted records before it. */
  method InsertRecord(a: array<Entry>, i: nat)
    requires i < a.Length
    modifies a
    ensures a[..i + 1] == Insert(old(a[..i]), old(a[i]))
    ensures forall k :: i < k < a.Length ==> a[k] == old(a[k])
  {
    var x := a[i];
    ghost var s := a[..i];
    var j := i;
    InsertStart(s, x);
    while j > 0 && Cmp(a[j - 1], x) > 0
      invariant j <= i && InsertsBelow(s, x, j)
      invariant forall k :: 0 <= k < j ==> a[k] == s[k]
      invariant forall k :: j < k <= i ==> a[k] == s[k - 1]
      invariant forall k :: i < k < a.Length ==> a[k] == old(a[k])
    {
      InsertStep(s, x, j);
      a[j] := a[j - 1];
      j := j - 1;
    }
    a[j] := x;
    InsertEnds(s, x, j, a[..i + 1]);
  }

  /** The place of x is among the first j records. */
  ghost predicate InsertsBelow(s: seq<Entry>, x: Entry, j: nat) {
    j <= |s| && Insert(s, x) == Insert(s[..j], x) + s[j..]
  }

  lemma InsertStart(s: seq<Entry>, x: Entry)
    ensures InsertsBelow(s, x, |s|)
  {
    assert s[..|s|] == s && s[|s|..] == [];
  }

  lemma InsertStep(s: seq<Entry>, x: Entry, j: nat)
    requires 0 < j <= |s| && Cmp(s[j - 1], x) > 0 && InsertsBelow(s, x, j)
    ensures InsertsBelow(s, x, j - 1)
  {
    assert s[..j][..j - 1] == s[..j - 1];
    assert s[j - 1..] == [s[j - 1]] + s[j..];
  }

  lemma InsertEnds(s: seq<Entry>, x: Entry, j: nat, r: seq<Entry>)
    requires j <= |s| && (j == 0 || Cmp(s[j - 1], x) <= 0) && InsertsBelow(s, x, j)
    requires |r| == |s| + 1 && r[j] == x
    requires (forall k :: 0 <= k < j ==> r[k] == s[k]) && (forall k :: j < k <= |s| ==> r[k] == s[k - 1])
    ensures r == Insert(s, x)
  {
    assert Insert(s[..j], x) == s[..j] + [x];
  }

  /** The counting loop of `create`. */
  method CountEntries(a: array<Entry>) returns (used: nat, firstFree: int)
    ensures used == UsedCount(a[..])
    ensures firstFree == if FreeEntry(a[..], 0) == a.Length then -1 else FreeEntry(a[..], 0)
  {
    used, firstFree := 0, -1;
    var i := 0;
    while i < a.Length
      invariant i <= a.Length && used == 0 && EndFrom(a[..], 0) == EndFrom(a[..], i)
      invariant if firstFree == -1 then FreeEntry(a[..], 0) == FreeEntry(a[..], i)
                else firstFree == FreeEntry(a[..], 0) < a.Length
    {
      if a[i].name == [] {
        used := i;
        if firstFree == -1 {
          firstFree := i;
        }
        return;
      } else if a[i].name[0] == DELETED {
        if firstFree == -1 {
          firstFree := i;
        }
      }
      i := i + 1;
    }
  }

  /** The gap scan of `create`. */
  method FindGap(a: array<Entry>, used: nat, blocks: uint64, request: uint64) returns (start: uint64)
    requires used <= a.Length && forall k :: 0 <= k < used ==> a[k].name != []
    ensures start == Scan(a[..used], blocks, request, 0, 1)
  {
    start := 0;
    var prevEnd: uint64 := 1;
    var i := 0;
    while i < used + 1
      invariant i <= used + 1 && start == 0
      invariant Scan(a[..used], blocks, request, 0, 1) ==
                if i <= used then Scan(a[..used], blocks, request, i, prevEnd) else 0
    {
      var limit: uint64;
      if i == used || a[i].name[0] == DELETED {
        limit := Minus(blocks, 1);
      } else {
        limit := a[i].start;
      }
      if Minus(limit, prevEnd) >= request {
        return prevEnd;
      }
      if i < used {
        prevEnd := Plus(a[i].start, a[i].reserved);
      }
      i := i + 1;
    }
  }

  class Disk {
    const directory: array<Entry>
    const diskSize: nat

    ghost predicate Valid() {
      directory.Length == SLOTS && diskSize < WORD32
    }

    /** A disk that holds a freshly formatted file system. */
    constructor (size: nat)
      requires size < WORD32
      ensures Valid() && diskSize == size && fresh(directory) && directory[..] == Formatted()
    {
      directory := new Entry[SLOTS](_ => Entry([], 0, 0, 0));
      diskSize := size;
      new;
      assert directory[..] == Formatted();
    }

    method Format()
      requires Valid()
      modifies directory
      ensures directory[..] == Formatted()
    {
      for i := 0 to SLOTS
        invariant forall k :: 0 <= k < i ==> directory[k] == Entry([], 0, 0, 0)
      {
        directory[i] := Entry([], 0, 0, 0);
      }
      assert directory[..] == Formatted();
    }

    method FindFile(name: Name) returns (found: bool, slot: nat)
      requires Valid()
      ensures found <==> name in Files(directory[..], 0)
      ensures found ==> slot < SLOTS && RecordOf(directory[slot]) == Files(directory[..], 0)[name]
      ensures found == (Find(directory[..], name, 0) < SLOTS) && (found ==> slot == Find(directory[..], name, 0))
    {
      FindLooksUp(directory[..], name, 0);
      found, slot := false, 0;
      var i := 0;
      while i < SLOTS
        invariant i <= SLOTS && Find(directory[..], name, 0) == Find(directory[..], name, i)
      {
        if directory[i].name == [] {
          return;
        } else if directory[i].name[0] != DELETED && directory[i].name == name {
          return true, i;
        }
        i := i + 1;
      }
    }

    method Create(name: Name, maxsize: uint64) returns (outcome: Outcome)
      requires Valid()
      modifies directory
      ensures directory[..] == BmfsModel.Create(old(directory[..]), diskSize / 2, name, maxsize)
      ensures outcome == CreateOutcome(old(directory[..]), diskSize / 2, name, maxsize)
    {
      var size: uint64 := if maxsize % 2 != 0 then (maxsize + 1) % WORD64 else maxsize;
      var found, _ := FindFile(name);
      if found {
        return Exists;
      }
      var request := size / 2;
      var used, free := CountEntries(directory);
      if free == -1 {
        return NoEntry;
      }
      var start := ChoosePlace(used, request);
      if start == 0 {
        return NoRoom;
      }
      WriteRecord(used, free, Entry(name, start, request, 0));
      return Done;
    }

    /** Copy, sort and scan. */
    method ChoosePlace(used: nat, request: uint64) returns (start: uint64)
      requires Valid() && used == UsedCount(directory[..])
      ensures start == Place(directory[..], diskSize / 2, request)
    {
      var copy := new Entry[SLOTS];
      for i := 0 to SLOTS
        invariant copy[..i] == directory[..i]
      {
        copy[i] := directory[i];
      }
      assert copy[..] == directory[..];
      SortRecords(copy, used);
      NoEndSorted(directory[..], used);
      assert forall k :: 0 <= k < used ==> copy[k] == copy[..used][k];
      start := FindGap(copy, used, diskSize / 2, request);
    }

    method WriteRecord(used: nat, free: nat, x: Entry)
      requires Valid() && used == UsedCount(directory[..]) && free < SLOTS
      modifies directory
      ensures directory[..] == AddRecord(old(directory[..]), free, x)
    {
      directory[free] := x;
      if free == used && used + 1 < SLOTS {
        directory[used + 1] := directory[used + 1].(name := []);
      }
      assert directory[..] == AddRecord(old(directory[..]), free, x);
    }

    method Delete(name: Name) returns (found: bool)
      requires Valid()
      modifies directory
      ensures directory[..] == BmfsModel.Delete(old(directory[..]), name)
      ensures found == (name in old(Files(directory[..], 0)))
    {
      var slot;
      found, slot := FindFile(name);
      if found {
        directory[slot] := directory[slot].(name := directory[slot].name[0 := DELETED]);
        assert directory[..] == BmfsModel.Delete(old(directory[..]), name);
      }
    }
  }

  lemma NoEndSorted(dir: seq<Entry>, used: nat)
    requires used == UsedCount(dir)
    ensures forall k :: 0 <= k < used ==> Sorted(dir[..used])[k].name != []
  {
    forall k | 0 <= k < used
      ensures Sorted(dir[..used])[k].name != []
    {
      SortedKeepsRecords(dir[..used]);
      assert Sorted(dir[..used])[k] in multiset(Sorted(dir[..used]));
      var j :| 0 <= j < used && dir[..used][j] == Sorted(dir[..used])[k];
      assert !IsEnd(dir[j]);
    }
  }
}
