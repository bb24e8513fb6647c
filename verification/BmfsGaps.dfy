/** Where `create` puts a file: the lowest gap, or, because of deleted records, sometimes a place that is taken. */
module BmfsGaps {
  import opened Common
  import opened BmfsModel

  /** A non-empty extent that keeps off the first and the last block of the disk. */
  predicate Inside(e: Entry, blocks: nat) {
    1 <= e.start && e.reserved > 0 && e.start + e.reserved <= blocks - 1
  }

  predicate Apart(a: Entry, b: Entry) {
    a.start + a.reserved <= b.start || b.start + b.reserved <= a.start
  }

  predicate Clear(e: Entry, start: nat, request: nat) {
    IsFile(e) ==> start + request <= e.start || e.start + e.reserved <= start
  }

  /** `request` blocks from `start` on lie between the first and the last block and touch no file. */
  ghost predicate Gap(s: seq<Entry>, blocks: nat, start: nat, request: nat) {
    && 1 <= start && start + request <= blocks - 1
    && forall k: nat :: k < |s| ==> Clear(s[k], start, request)
  }

  /** A deleted record behind whose extent the disk still has `request` blocks, taken or not. */
  predicate LeavesRoom(e: Entry, blocks: nat, request: nat) {
    IsUnused(e) && e.start + e.reserved + request <= blocks - 1
  }

  ghost predicate SomeGap(s: seq<Entry>, blocks: nat, request: nat) {
    exists start: nat :: Gap(s, blocks, start, request)
  }

  ghost predicate SomeRoom(s: seq<Entry>, blocks: nat, request: nat) {
    exists k: nat :: k < |s| && LeavesRoom(s[k], blocks, request)
  }

  ghost predicate Lowest(s: seq<Entry>, blocks: nat, request: nat, r: nat) {
    Gap(s, blocks, r, request) && forall start: nat :: Gap(s, blocks, start, request) ==> r <= start
  }

  /** What `create` is for: the lowest gap, and 0 exactly if there is none. */
  ghost predicate Right(s: seq<Entry>, blocks: nat, request: nat, r: nat) {
    if SomeGap(s, blocks, request) then Lowest(s, blocks, request, r) else r == 0
  }

  /** The records before the end marker. */
  function Visible(dir: seq<Entry>): seq<Entry> {
    dir[..EndFrom(dir, 0)]
  }

  /** Records with extents inside the disk; those of files are pairwise disjoint. */
  ghost predicate ExtentsOk(s: seq<Entry>, blocks: nat) {
    && (forall k: nat :: k < |s| ==> !IsEnd(s[k]) && Inside(s[k], blocks))
    && (forall j: nat, k: nat :: j < k < |s| && IsFile(s[j]) && IsFile(s[k]) ==> Apart(s[j], s[k]))
  }

  /** The size of a disk in MiB is a 32-bit number. */
  predicate DiskSize(blocks: nat) {
    2 <= blocks < WORD32 / 2
  }

  // ----- the sorted copy -----

  /** Files first, in the order of their extents, and unused records last. */
  predicate Before(a: Entry, b: Entry) {
    if IsUnused(a) then IsUnused(b) else IsUnused(b) || a.start + a.reserved <= b.start
  }

  ghost predicate Arranged(s: seq<Entry>) {
    forall j: nat, k: nat :: j < k < |s| ==> Before(s[j], s[k])
  }

  ghost predicate AllInside(s: seq<Entry>, blocks: nat) {
    forall k: nat :: k < |s| ==> !IsEnd(s[k]) && Inside(s[k], blocks)
  }

  ghost predicate ApartFrom(s: seq<Entry>, x: Entry) {
    forall k: nat :: k < |s| && IsFile(s[k]) && IsFile(x) ==> Apart(s[k], x)
  }

  /** On a real disk the truncated difference is the difference. */
  lemma CmpIs(a: Entry, b: Entry, blocks: nat)
    requires DiskSize(blocks) && Inside(a, blocks) && Inside(b, blocks) && !IsUnused(a) && !IsUnused(b)
    ensures Cmp(a, b) == a.start - b.start
  {
    if a.start < b.start {
      assert (a.start - b.start) % WORD32 == a.start - b.start + WORD32;
    }
  }

  lemma CmpOrders(a: Entry, b: Entry, blocks: nat)
    requires DiskSize(blocks) && Inside(a, blocks) && Inside(b, blocks) && !IsEnd(a) && !IsEnd(b)
    requires IsFile(a) && IsFile(b) ==> Apart(a, b)
    ensures if Cmp(a, b) <= 0 then Before(a, b) && !IsUnused(a) else Before(b, a)
  {
    if !IsUnused(a) && !IsUnused(b) {
      CmpIs(a, b, blocks);
    }
  }

  lemma InsertedFrom(s: seq<Entry>, x: Entry, k: nat)
    requires k < |s| + 1
    ensures Insert(s, x)[k] == x || exists j: nat :: j < |s| && s[j] == Insert(s, x)[k]
  {
    InsertKeepsRecords(s, x);
    var e := Insert(s, x)[k];
    assert e in multiset(Insert(s, x));
    assert e in multiset(s) || e == x;
  }

  lemma {:induction false} InsertArranges(s: seq<Entry>, x: Entry, blocks: nat)
    requires DiskSize(blocks) && AllInside(s, blocks) && !IsEnd(x) && Inside(x, blocks)
    requires Arranged(s) && ApartFrom(s, x)
    ensures Arranged(Insert(s, x))
  {
    if s != [] {
      var n := |s| - 1;
      var last := s[n];
      CmpOrders(last, x, blocks);
      if Cmp(last, x) <= 0 {
        forall j: nat | j < n
          ensures Before(s[j], x)
        {
          assert Before(s[j], last);
        }
      } else {
        InsertArranges(s[..n], x, blocks);
        forall j: nat | j < n + 1
          ensures Before(Insert(s[..n], x)[j], last)
        {
          InsertedFrom(s[..n], x, j);
        }
      }
    }
  }

  /** The sorted copy holds the same records. */
  lemma SortedFrom(s: seq<Entry>, k: nat) returns (j: nat)
    requires k < |s|
    ensures j < |s| && Sorted(s)[k] == s[j]
  {
    SortedKeepsRecords(s);
    assert Sorted(s)[k] in multiset(Sorted(s));
    j :| j < |s| && s[j] == Sorted(s)[k];
  }

  lemma SortedHas(s: seq<Entry>, j: nat) returns (k: nat)
    requires j < |s|
    ensures k < |s| && Sorted(s)[k] == s[j]
  {
    SortedKeepsRecords(s);
    assert s[j] in multiset(s);
    assert s[j] in multiset(Sorted(s));
    k :| k < |s| && Sorted(s)[k] == s[j];
  }

  lemma SortedInside(s: seq<Entry>, blocks: nat)
    requires AllInside(s, blocks)
    ensures AllInside(Sorted(s), blocks)
  {
    forall k: nat | k < |s|
      ensures !IsEnd(Sorted(s)[k]) && Inside(Sorted(s)[k], blocks)
    {
      var j := SortedFrom(s, k);
    }
  }

  lemma {:induction false} SortArranges(s: seq<Entry>, blocks: nat)
    requires DiskSize(blocks) && ExtentsOk(s, blocks)
    ensures Arranged(Sorted(s)) && AllInside(Sorted(s), blocks)
  {
    SortedInside(s, blocks);
    if s != [] {
      var n := |s| - 1;
      SortArranges(s[..n], blocks);
      forall k: nat | k < n && IsFile(Sorted(s[..n])[k]) && IsFile(s[n])
        ensures Apart(Sorted(s[..n])[k], s[n])
      {
        var j := SortedFrom(s[..n], k);
      }
      InsertArranges(Sorted(s[..n]), s[n], blocks);
    }
  }

  /** Sorting changes neither the gaps nor the deleted records. */
  lemma SortedGaps(s: seq<Entry>, blocks: nat, start: nat, request: nat)
    ensures Gap(Sorted(s), blocks, start, request) <==> Gap(s, blocks, start, request)
  {
    if Gap(Sorted(s), blocks, start, request) {
      forall j: nat | j < |s|
        ensures Clear(s[j], start, request)
      {
        var k := SortedHas(s, j);
      }
    }
    if Gap(s, blocks, start, request) {
      forall k: nat | k < |s|
        ensures Clear(Sorted(s)[k], start, request)
      {
        var j := SortedFrom(s, k);
      }
    }
  }

  lemma SortedRoom(s: seq<Entry>, blocks: nat, request: nat)
    ensures SomeRoom(Sorted(s), blocks, request) <==> SomeRoom(s, blocks, request)
  {
    if k: nat :| k < |s| && LeavesRoom(s[k], blocks, request) {
      var j := SortedHas(s, k);
      assert LeavesRoom(Sorted(s)[j], blocks, request);
    }
    if k: nat :| k < |s| && LeavesRoom(Sorted(s)[k], blocks, request) {
      var j := SortedFrom(s, k);
      assert LeavesRoom(s[j], blocks, request);
    }
  }

  // ----- the scan -----

  /** Among the unused records the scan accepts the end of any dead extent with room behind it. */
  lemma {:induction false} ScanUnused(s: seq<Entry>, blocks: uint64, request: uint64, k: nat, prevEnd: uint64)
    requires DiskSize(blocks) && AllInside(s, blocks) && k <= |s| && 1 <= prevEnd <= blocks - 1
    requires forall j: nat :: k <= j < |s| ==> IsUnused(s[j])
    requires prevEnd + request > blocks - 1
    ensures DeadEnd(s, blocks, request, k, Scan(s, blocks, request, k, prevEnd))
    decreases |s| - k
  {
    ScanPasses(s, blocks, request, k, prevEnd);
    if k < |s| {
      var e := s[k].start + s[k].reserved;
      if e + request > blocks - 1 {
        ScanUnused(s, blocks, request, k + 1, e);
      } else {
        assert LeavesRoom(s[k], blocks, request);
      }
    }
  }

  /** 0 if no unused record from k on leaves room, else the end of the dead extent of one that does. */
  ghost predicate DeadEnd(s: seq<Entry>, blocks: nat, request: nat, k: nat, r: nat) {
    if r == 0 then forall j: nat :: k <= j < |s| ==> !LeavesRoom(s[j], blocks, request)
    else exists j: nat :: k <= j < |s| && LeavesRoom(s[j], blocks, request) && r == s[j].start + s[j].reserved
  }

  lemma ScanPasses(s: seq<Entry>, blocks: uint64, request: uint64, k: nat, prevEnd: uint64)
    requires DiskSize(blocks) && AllInside(s, blocks) && k <= |s| && 1 <= prevEnd <= blocks - 1
    requires forall j: nat :: k <= j < |s| ==> IsUnused(s[j])
    requires prevEnd + request > blocks - 1
    ensures k == |s| ==> Scan(s, blocks, request, k, prevEnd) == 0
    ensures k < |s| ==>
              var e := s[k].start + s[k].reserved;
              && e <= blocks - 1
              && Scan(s, blocks, request, k, prevEnd) == Scan(s, blocks, request, k + 1, e)
              && (e + request <= blocks - 1 ==> Scan(s, blocks, request, k + 1, e) == e)
  {
    if k < |s| {
      assert Plus(s[k].start, s[k].reserved) == s[k].start + s[k].reserved;
      assert GapEnd(s, blocks, k + 1) == blocks - 1;
    }
  }

  /** What the scan from record k on returns. */
  ghost predicate Chosen(s: seq<Entry>, blocks: nat, request: nat, r: nat) {
    if SomeGap(s, blocks, request) then Lowest(s, blocks, request, r)
    else DeadEnd(s, blocks, request, 0, r)
  }

  /** The scan stands behind the file k - 1, and no gap starts earlier. */
  ghost predicate Scanned(s: seq<Entry>, blocks: nat, request: nat, k: nat, prevEnd: nat)
    requires k <= |s|
  {
    && (forall j: nat :: j < k ==> !IsUnused(s[j]) && s[j].start + s[j].reserved <= prevEnd)
    && 1 <= prevEnd <= blocks - 1 && (forall j: nat :: k <= j < |s| && !IsUnused(s[j]) ==> prevEnd <= s[j].start)
    && (forall start: nat :: Gap(s, blocks, start, request) ==> prevEnd <= start)
  }

  lemma {:induction false} ScanFiles(s: seq<Entry>, blocks: uint64, request: uint64, k: nat, prevEnd: uint64)
    requires DiskSize(blocks) && AllInside(s, blocks) && Arranged(s)
    requires k <= |s| && Scanned(s, blocks, request, k, prevEnd)
    ensures Chosen(s, blocks, request, Scan(s, blocks, request, k, prevEnd))
    decreases |s| - k
  {
    var limit := GapEnd(s, blocks, k);
    assert prevEnd <= limit <= blocks - 1 && Minus(limit, prevEnd) == limit - prevEnd;
    if prevEnd + request <= limit {
      FitsHere(s, blocks, request, k, prevEnd);
    } else if k < |s| && !IsUnused(s[k]) {
      StepOver(s, blocks, request, k, prevEnd);
      ScanFiles(s, blocks, request, k + 1, Plus(s[k].start, s[k].reserved));
    } else {
      OnlyUnused(s, k);
      ScanUnused(s, blocks, request, k, prevEnd);
    }
  }

  lemma OnlyUnused(s: seq<Entry>, k: nat)
    requires Arranged(s) && k <= |s| && (k < |s| ==> IsUnused(s[k]))
    ensures forall j: nat :: k <= j < |s| ==> IsUnused(s[j])
  {
    forall j: nat | k < j < |s|
      ensures IsUnused(s[j])
    {
      assert Before(s[k], s[j]);
    }
  }

  lemma FitsHere(s: seq<Entry>, blocks: uint64, request: uint64, k: nat, prevEnd: uint64)
    requires DiskSize(blocks) && AllInside(s, blocks) && Arranged(s)
    requires k <= |s| && Scanned(s, blocks, request, k, prevEnd) && prevEnd + request <= GapEnd(s, blocks, k)
    ensures Lowest(s, blocks, request, prevEnd)
  {
    forall j: nat | j < |s|
      ensures Clear(s[j], prevEnd, request)
    {
      if k < j && !IsUnused(s[j]) {
        assert Before(s[k], s[j]);
      }
    }
    assert GapEnd(s, blocks, k) <= blocks - 1;
    assert Gap(s, blocks, prevEnd, request);
  }

  lemma StepOver(s: seq<Entry>, blocks: uint64, request: uint64, k: nat, prevEnd: uint64)
    requires DiskSize(blocks) && AllInside(s, blocks) && Arranged(s)
    requires k < |s| && !IsUnused(s[k]) && Scanned(s, blocks, request, k, prevEnd)
    requires prevEnd + request > s[k].start
    ensures Scanned(s, blocks, request, k + 1, Plus(s[k].start, s[k].reserved))
  {
    var e := s[k].start + s[k].reserved;
    assert Plus(s[k].start, s[k].reserved) == e;
    forall start: nat | Gap(s, blocks, start, request)
      ensures e <= start
    {
      assert Clear(s[k], start, request);
    }
    forall j: nat | k + 1 <= j < |s| && !IsUnused(s[j])
      ensures e <= s[j].start
    {
      assert Before(s[k], s[j]);
    }
  }

  // ----- main results -----

  /** With an end marker: the lowest gap if there is one; otherwise the end of some dead extent with room behind it. */
  lemma PlaceIs(dir: seq<Entry>, blocks: uint64, request: uint64)
    requires DiskSize(blocks) && HasEnd(dir) && ExtentsOk(Visible(dir), blocks)
    ensures Chosen(Visible(dir), blocks, request, Place(dir, blocks, request))
  {
    var v := Visible(dir);
    var s := Sorted(v);
    SortArranges(v, blocks);
    ScanFiles(s, blocks, request, 0, 1);
    ChosenSame(v, blocks, request, Place(dir, blocks, request));
  }

  lemma ChosenSame(v: seq<Entry>, blocks: nat, request: nat, r: nat)
    requires Chosen(Sorted(v), blocks, request, r)
    ensures Chosen(v, blocks, request, r)
  {
    forall start: nat
      ensures Gap(Sorted(v), blocks, start, request) <==> Gap(v, blocks, start, request)
    {
      SortedGaps(v, blocks, start, request);
    }
    SortedRoom(v, blocks, request);
    if !SomeGap(v, blocks, request) && r != 0 {
      var k: nat :| k < |v| && LeavesRoom(Sorted(v)[k], blocks, request) &&
        r == Sorted(v)[k].start + Sorted(v)[k].reserved;
      var j := SortedFrom(v, k);
      assert LeavesRoom(v[j], blocks, request);
    }
  }

  /**
   * With an end marker `create` takes the lowest gap and reports "no room" exactly when there is none, if and only if
   * there is a gap or no deleted record leaves room behind its extent.
   */
  lemma CreateRightExactly(dir: seq<Entry>, blocks: uint64, request: uint64)
    requires DiskSize(blocks) && HasEnd(dir) && ExtentsOk(Visible(dir), blocks)
    ensures Right(Visible(dir), blocks, request, Place(dir, blocks, request)) <==>
            SomeGap(Visible(dir), blocks, request) || !SomeRoom(Visible(dir), blocks, request)
  {
    PlaceIs(dir, blocks, request);
  }

  /** When it is not right, the new file overlaps a live one. */
  lemma WrongPlaceOverlaps(dir: seq<Entry>, blocks: uint64, request: uint64) returns (i: nat)
    requires DiskSize(blocks) && HasEnd(dir) && ExtentsOk(Visible(dir), blocks)
    requires !Right(Visible(dir), blocks, request, Place(dir, blocks, request))
    ensures i < |Visible(dir)| && IsFile(dir[i])
    ensures var r := Place(dir, blocks, request); r < dir[i].start + dir[i].reserved && dir[i].start < r + request
  {
    PlaceIs(dir, blocks, request);
    var v := Visible(dir);
    var r := Place(dir, blocks, request);
    assert !Gap(v, blocks, r, request);
    i :| i < |v| && !Clear(v[i], r, request);
  }

  /** Without an end marker no record is looked at: any request that fits an empty disk is placed at block 1. */
  lemma NoEndMarkerRightExactly(dir: seq<Entry>, blocks: uint64, request: uint64)
    requires DiskSize(blocks) && !HasEnd(dir) && ExtentsOk(dir, blocks) && request > 0
    ensures Place(dir, blocks, request) == if request <= blocks - 2 then 1 else 0
    ensures Right(dir, blocks, request, Place(dir, blocks, request)) <==>
            request > blocks - 2 || forall k: nat :: k < |dir| && IsFile(dir[k]) ==> dir[k].start >= 1 + request
  {
    assert dir[..0] == [];
    assert Sorted(dir[..UsedCount(dir)]) == [];
    if request <= blocks - 2 {
      if forall k: nat :: k < |dir| && IsFile(dir[k]) ==> dir[k].start >= 1 + request {
        forall k: nat | k < |dir|
          ensures Clear(dir[k], 1, request)
        {
        }
        assert Gap(dir, blocks, 1, request);
      } else {
        var k: nat :| k < |dir| && IsFile(dir[k]) && dir[k].start < 1 + request;
        assert !Clear(dir[k], 1, request);
      }
    } else {
      forall start: nat
        ensures !Gap(dir, blocks, start, request)
      {
      }
    }
  }
}
