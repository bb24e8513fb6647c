/** What runs of `create` do to the extents of the files. */
module BmfsRuns {
  import opened Common
  import opened BmfsModel
  import opened BmfsGaps
  import opened BmfsNames

  /** Every extent of the new directory is an old one or the new file's. */
  lemma NewVisible(dir: seq<Entry>, blocks: uint64, name: Name, maxsize: uint64, k: nat)
    requires ValidName(name) && HasEnd(dir) && CreateOutcome(dir, blocks, name, maxsize).Done?
    requires var d := Create(dir, blocks, name, maxsize); k < EndFrom(d, 0)
    ensures var d := Create(dir, blocks, name, maxsize);
            if k == FreeEntry(dir, 0) then
              d[k] == Entry(name, Place(dir, blocks, Request(maxsize)), Request(maxsize), 0)
            else k < EndFrom(dir, 0) && d[k] == dir[k]
  {
    var i := FreeEntry(dir, 0);
    AddedIsVisible(dir, Entry(name, Place(dir, blocks, Request(maxsize)), Request(maxsize), 0));
  }

  /** In a gap the new file keeps the extents disjoint. */
  lemma GapKeepsExtents(dir: seq<Entry>, blocks: uint64, name: Name, maxsize: uint64)
    requires ValidName(name) && HasEnd(dir) && CreateOutcome(dir, blocks, name, maxsize).Done?
    requires ExtentsOk(Visible(dir), blocks) && Request(maxsize) > 0
    requires Gap(Visible(dir), blocks, Place(dir, blocks, Request(maxsize)), Request(maxsize))
    ensures ExtentsOk(Visible(Create(dir, blocks, name, maxsize)), blocks)
  {
    var d := Create(dir, blocks, name, maxsize);
    var i := FreeEntry(dir, 0);
    forall k: nat | k < EndFrom(d, 0)
      ensures !IsEnd(d[k]) && Inside(d[k], blocks)
    {
      NewVisible(dir, blocks, name, maxsize, k);
      assert k != i ==> Visible(dir)[k] == dir[k];
    }
    forall j: nat, k: nat | j < k < EndFrom(d, 0) && IsFile(d[j]) && IsFile(d[k])
      ensures Apart(d[j], d[k])
    {
      NewApart(dir, blocks, name, maxsize, j, k);
    }
  }

  lemma NewApart(dir: seq<Entry>, blocks: uint64, name: Name, maxsize: uint64, j: nat, k: nat)
    requires ValidName(name) && HasEnd(dir) && CreateOutcome(dir, blocks, name, maxsize).Done?
    requires ExtentsOk(Visible(dir), blocks) && Request(maxsize) > 0
    requires Gap(Visible(dir), blocks, Place(dir, blocks, Request(maxsize)), Request(maxsize))
    requires var d := Create(dir, blocks, name, maxsize); j < k < EndFrom(d, 0) && IsFile(d[j]) && IsFile(d[k])
    ensures var d := Create(dir, blocks, name, maxsize); Apart(d[j], d[k])
  {
    NewVisible(dir, blocks, name, maxsize, j);
    NewVisible(dir, blocks, name, maxsize, k);
    var v := Visible(dir);
    var i := FreeEntry(dir, 0);
    if j == i {
      assert Clear(v[k], Place(dir, blocks, Request(maxsize)), Request(maxsize));
    } else if k == i {
      assert Clear(v[j], Place(dir, blocks, Request(maxsize)), Request(maxsize));
    } else {
      assert Apart(v[j], v[k]);
    }
  }

  /** Outside every gap the new file overlaps one that is still there. */
  lemma NoGapBreaksExtents(dir: seq<Entry>, blocks: uint64, name: Name, maxsize: uint64)
    requires DiskSize(blocks) && ValidName(name) && HasEnd(dir) && CreateOutcome(dir, blocks, name, maxsize).Done?
    requires ExtentsOk(Visible(dir), blocks) && !SomeGap(Visible(dir), blocks, Request(maxsize))
    ensures !ExtentsOk(Visible(Create(dir, blocks, name, maxsize)), blocks)
  {
    var d := Create(dir, blocks, name, maxsize);
    var i := FreeEntry(dir, 0);
    var o := WrongPlaceOverlaps(dir, blocks, Request(maxsize));
    AddedIsVisible(dir, d[i]);
    assert o != i;
    var v := Visible(d);
    assert v[o] == d[o] && v[i] == d[i];
    assert !Apart(v[o], v[i]) && !Apart(v[i], v[o]);
  }

  /**
   * After a successful `create` all files lie inside the disk and are pairwise disjoint, if and only if there was a
   * gap for the file: deleted records can make it succeed without one.
   */
  lemma CreateKeepsExtentsExactly(dir: seq<Entry>, blocks: uint64, name: Name, maxsize: uint64)
    requires DiskSize(blocks) && ValidName(name) && HasEnd(dir) && CreateOutcome(dir, blocks, name, maxsize).Done?
    requires ExtentsOk(Visible(dir), blocks) && Request(maxsize) > 0
    ensures ExtentsOk(Visible(Create(dir, blocks, name, maxsize)), blocks) <==>
            SomeGap(Visible(dir), blocks, Request(maxsize))
  {
    PlaceIs(dir, blocks, Request(maxsize));
    if SomeGap(Visible(dir), blocks, Request(maxsize)) {
      GapKeepsExtents(dir, blocks, name, maxsize);
    } else {
      NoGapBreaksExtents(dir, blocks, name, maxsize);
    }
  }

  // ----- runs of creates -----

  ghost predicate NoUnused(s: seq<Entry>) {
    forall k: nat :: k < |s| ==> IsFile(s[k])
  }

  /** Without deleted records `create` appends the file at the lowest gap, or fails and changes nothing. */
  lemma CreateAppends(dir: seq<Entry>, blocks: uint64, name: Name, maxsize: uint64)
    requires DiskSize(blocks) && |dir| == SLOTS && ValidName(name) && Request(maxsize) > 0
    requires ExtentsOk(Visible(dir), blocks) && NoUnused(Visible(dir))
    ensures var d := Create(dir, blocks, name, maxsize);
            var v := Visible(dir);
            match CreateOutcome(dir, blocks, name, maxsize)
            case Done =>
              && Visible(d) == v + [Entry(name, Place(dir, blocks, Request(maxsize)), Request(maxsize), 0)]
              && Lowest(v, blocks, Request(maxsize), Place(dir, blocks, Request(maxsize)))
            case NoRoom => d == dir && !SomeGap(v, blocks, Request(maxsize))
            case NoEntry => d == dir && |v| == SLOTS
            case Exists => d == dir && exists k: nat :: k < |v| && v[k].name == name
  {
    var e := EndFrom(dir, 0);
    FirstFreeIsEnd(dir);
    match CreateOutcome(dir, blocks, name, maxsize)
    case Done =>
      NoRoomBehind(dir, blocks, Request(maxsize));
      var x := Entry(name, Place(dir, blocks, Request(maxsize)), Request(maxsize), 0);
      AddedIsVisible(dir, x);
      AppendedIs(dir, x);
    case NoRoom =>
      NoRoomBehind(dir, blocks, Request(maxsize));
    case NoEntry =>
    case Exists =>
      FoundIsVisible(dir, name, 0);
      assert Visible(dir)[Find(dir, name, 0)].name == name;
  }

  lemma FirstFreeIsEnd(dir: seq<Entry>)
    requires NoUnused(Visible(dir))
    ensures FreeEntry(dir, 0) == EndFrom(dir, 0)
  {
    forall k: nat | k < EndFrom(dir, 0)
      ensures IsFile(dir[k])
    {
      assert Visible(dir)[k] == dir[k];
    }
  }

  lemma NoRoomBehind(dir: seq<Entry>, blocks: uint64, request: uint64)
    requires DiskSize(blocks) && HasEnd(dir) && ExtentsOk(Visible(dir), blocks) && NoUnused(Visible(dir))
    ensures Right(Visible(dir), blocks, request, Place(dir, blocks, request))
  {
    CreateRightExactly(dir, blocks, request);
    forall k: nat | k < |Visible(dir)|
      ensures !LeavesRoom(Visible(dir)[k], blocks, request)
    {
    }
  }

  lemma AppendedIs(dir: seq<Entry>, x: Entry)
    requires IsFile(x) && HasEnd(dir) && FreeEntry(dir, 0) == EndFrom(dir, 0)
    ensures Visible(AddRecord(dir, EndFrom(dir, 0), x)) == Visible(dir) + [x]
  {
    AddedIsVisible(dir, x);
  }

  /** The runs the positive result is about: a formatted disk, then creates of valid names and non-zero sizes. */
  predicate CreatesOnly(ops: seq<Op>) {
    forall k: nat :: k < |ops| ==> ops[k].CreateOp? && ValidName(ops[k].name) && Request(ops[k].maxsize) > 0
  }

  lemma {:induction false} CreatesKeepExtents(ops: seq<Op>, blocks: uint64)
    requires DiskSize(blocks) && CreatesOnly(ops)
    ensures ExtentsOk(Visible(Exec(ops, blocks)), blocks) && NoUnused(Visible(Exec(ops, blocks)))
  {
    if ops == [] {
      EndIs(Formatted(), 0, 0);
    } else {
      var n := |ops| - 1;
      CreatesKeepExtents(ops[..n], blocks);
      var dir := Exec(ops[..n], blocks);
      var op := ops[n];
      CreateAppends(dir, blocks, op.name, op.maxsize);
      if CreateOutcome(dir, blocks, op.name, op.maxsize).Done? {
        GapKeepsExtents(dir, blocks, op.name, op.maxsize);
      }
    }
  }

  /** In every such run the files keep off the first and the last block and off one another. */
  lemma CreatesKeepFilesApart(ops: seq<Op>, blocks: uint64, i: nat)
    requires DiskSize(blocks) && CreatesOnly(ops) && i < EndFrom(Exec(ops, blocks), 0)
    ensures var d := Exec(ops, blocks);
            && 1 <= d[i].start && d[i].reserved > 0 && d[i].start + d[i].reserved <= blocks - 1
            && forall j: nat :: i < j < EndFrom(d, 0) ==>
                 d[i].start + d[i].reserved <= d[j].start || d[j].start + d[j].reserved <= d[i].start
  {
    CreatesKeepExtents(ops, blocks);
    var d := Exec(ops, blocks);
    var v := Visible(d);
    assert IsFile(v[i]) && Inside(v[i], blocks);
    forall j: nat | i < j < EndFrom(d, 0)
      ensures d[i].start + d[i].reserved <= d[j].start || d[j].start + d[j].reserved <= d[i].start
    {
      assert IsFile(v[j]) && Apart(v[i], v[j]);
    }
  }

  /** In every such run the next create takes the lowest gap, and reports "no room" exactly when there is none. */
  lemma NextCreateIsRight(ops: seq<Op>, blocks: uint64, name: Name, maxsize: uint64)
    requires DiskSize(blocks) && CreatesOnly(ops) && ValidName(name) && Request(maxsize) > 0
    requires var d := Exec(ops, blocks); Find(d, name, 0) == SLOTS && FreeEntry(d, 0) < SLOTS
    ensures var d := Exec(ops, blocks);
            && (CreateOutcome(d, blocks, name, maxsize).NoRoom? <==> !SomeGap(Visible(d), blocks, Request(maxsize)))
            && (SomeGap(Visible(d), blocks, Request(maxsize)) ==>
                Visible(Create(d, blocks, name, maxsize))
                == Visible(d) + [Entry(name, Place(d, blocks, Request(maxsize)), Request(maxsize), 0)]
                && Lowest(Visible(d), blocks, Request(maxsize), Place(d, blocks, Request(maxsize))))
  {
    CreatesKeepExtents(ops, blocks);
    CreateAppends(Exec(ops, blocks), blocks, name, maxsize);
    assert Lowest(Visible(Exec(ops, blocks)), blocks, Request(maxsize),
                  Place(Exec(ops, blocks), blocks, Request(maxsize)))
      ==> SomeGap(Visible(Exec(ops, blocks)), blocks, Request(maxsize));
  }

  // ----- runs of creates and deletes -----

  lemma DeleteKeepsExtents(dir: seq<Entry>, blocks: uint64, name: Name)
    requires ExtentsOk(Visible(dir), blocks)
    ensures ExtentsOk(Visible(Delete(dir, name)), blocks)
  {
    var d := Delete(dir, name);
    EndIs(d, 0, EndFrom(dir, 0));
    forall k: nat | k < EndFrom(d, 0)
      ensures !IsEnd(d[k]) && Inside(d[k], blocks)
    {
      assert Inside(Visible(dir)[k], blocks);
    }
    forall j: nat, k: nat | j < k < EndFrom(d, 0) && IsFile(d[j]) && IsFile(d[k])
      ensures Apart(d[j], d[k])
    {
      assert Apart(Visible(dir)[j], Visible(dir)[k]);
    }
  }

  /** The last operation of the run is a create that succeeds. */
  predicate Creates(ops: seq<Op>, blocks: uint64) {
    && ops != [] && ops[|ops| - 1].CreateOp?
    && CreateOutcome(Exec(ops[..|ops| - 1], blocks), blocks, ops[|ops| - 1].name, ops[|ops| - 1].maxsize).Done?
  }

  /** Every create asks for a valid name and a non-zero size, and finds an end marker when it succeeds. */
  predicate WithEndMarkers(ops: seq<Op>, blocks: uint64) {
    ops != [] ==>
      var before, op := ops[..|ops| - 1], ops[|ops| - 1];
      && WithEndMarkers(before, blocks)
      && (op.CreateOp? ==> ValidName(op.name) && Request(op.maxsize) > 0)
      && (Creates(ops, blocks) ==> HasEnd(Exec(before, blocks)))
  }

  /** Every create that succeeded had a gap. */
  ghost predicate WithGaps(ops: seq<Op>, blocks: uint64) {
    ops != [] ==>
      var before, op := ops[..|ops| - 1], ops[|ops| - 1];
      && WithGaps(before, blocks)
      && (Creates(ops, blocks) ==> SomeGap(Visible(Exec(before, blocks)), blocks, Request(op.maxsize)))
  }

  /** After every operation all extents lie inside the disk and those of files are pairwise disjoint. */
  ghost predicate AlwaysApart(ops: seq<Op>, blocks: uint64) {
    && ExtentsOk(Visible(Exec(ops, blocks)), blocks)
    && (ops != [] ==> AlwaysApart(ops[..|ops| - 1], blocks))
  }

  /** A run of creates and deletes keeps the files disjoint if and only if each create that succeeded had a gap. */
  lemma {:induction false} RunsKeepExtentsExactly(ops: seq<Op>, blocks: uint64)
    requires DiskSize(blocks) && WithEndMarkers(ops, blocks)
    ensures AlwaysApart(ops, blocks) <==> WithGaps(ops, blocks)
  {
    if ops == [] {
      EndIs(Formatted(), 0, 0);
    } else {
      var before, op := ops[..|ops| - 1], ops[|ops| - 1];
      RunsKeepExtentsExactly(before, blocks);
      if AlwaysApart(before, blocks) {
        match op
        case DeleteOp(name) => DeleteKeepsExtents(Exec(before, blocks), blocks, name);
        case CreateOp(name, maxsize) =>
          if Creates(ops, blocks) {
            CreateKeepsExtentsExactly(Exec(before, blocks), blocks, name, maxsize);
          }
      }
    }
  }

  // ----- the reasons of an outcome -----

  /** Record i is a file of that name, with no end marker before it. */
  ghost predicate ListedAt(dir: seq<Entry>, name: Name, i: nat) {
    i < |dir| && IsFile(dir[i]) && dir[i].name == name && forall j: nat :: j < i ==> dir[j].name != []
  }

  lemma ListedIsFound(dir: seq<Entry>, name: Name)
    ensures Find(dir, name, 0) < |dir| <==> exists i: nat :: ListedAt(dir, name, i)
  {
    var f := Find(dir, name, 0);
    if f < |dir| {
      FoundIsVisible(dir, name, 0);
      assert forall j: nat :: j < EndFrom(dir, 0) ==> !IsEnd(dir[j]);
      assert ListedAt(dir, name, f);
    }
    if i: nat :| ListedAt(dir, name, i) {
      EndsBehind(dir, i);
      FoundAt(dir, name, 0, i);
    }
  }

  lemma EndsBehind(dir: seq<Entry>, i: nat)
    requires i < |dir| && forall j: nat :: j <= i ==> !IsEnd(dir[j])
    ensures i < EndFrom(dir, 0)
  {
    var e := EndFrom(dir, 0);
    assert e < |dir| ==> IsEnd(dir[e]);
  }

  ghost predicate AllFiles(dir: seq<Entry>) {
    forall k: nat :: k < |dir| ==> dir[k].name != [] && dir[k].name[0] != 1
  }

  /**
    For every directory: an existing name is reported first, then a directory without a free record, then a place that
    was not found; otherwise the file is created.
   */
  lemma OutcomeExactly(dir: seq<Entry>, blocks: uint64, name: Name, maxsize: uint64)
    ensures var o, listed := CreateOutcome(dir, blocks, name, maxsize), exists i: nat :: ListedAt(dir, name, i);
            var placed := Place(dir, blocks, Request(maxsize)) != 0;
            && (o == Exists <==> listed)
            && (o == NoEntry <==> !listed && AllFiles(dir))
            && (o == NoRoom <==> !listed && !AllFiles(dir) && !placed)
            && (o == Done <==> !listed && !AllFiles(dir) && placed)
  {
    ListedIsFound(dir, name);
    var e := FreeEntry(dir, 0);
    assert e < |dir| ==> !IsFile(dir[e]);
  }

  /** With files inside the disk: no place is found exactly if there is no gap and no deleted record leaves room. */
  lemma NoPlaceExactly(dir: seq<Entry>, blocks: uint64, maxsize: uint64)
    requires DiskSize(blocks) && Request(maxsize) > 0
    ensures HasEnd(dir) && ExtentsOk(Visible(dir), blocks) ==>
            (Place(dir, blocks, Request(maxsize)) == 0 <==>
             !SomeGap(Visible(dir), blocks, Request(maxsize)) && !SomeRoom(Visible(dir), blocks, Request(maxsize)))
    ensures !HasEnd(dir) && ExtentsOk(dir, blocks) ==>
            (Place(dir, blocks, Request(maxsize)) == 0 <==> Request(maxsize) > blocks - 2)
  {
    if HasEnd(dir) && ExtentsOk(Visible(dir), blocks) {
      PlaceIs(dir, blocks, Request(maxsize));
    }
    if !HasEnd(dir) && ExtentsOk(dir, blocks) {
      NoEndMarkerRightExactly(dir, blocks, Request(maxsize));
    }
  }

  /** Sizes that ask for no block at all: 0, and the largest 64-bit number, whose rounding up wraps to 0. */
  lemma EmptyRequests(maxsize: uint64)
    ensures Request(maxsize) == 0 <==> maxsize == 0 || maxsize == WORD64 - 1
    ensures maxsize < WORD64 - 1 ==> Request(maxsize) == (maxsize + 1) / 2
  {
    if maxsize % 2 != 0 && maxsize < WORD64 - 1 {
      assert (maxsize + 1) % WORD64 == maxsize + 1;
    }
  }
}
