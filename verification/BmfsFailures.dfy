/** Runs of the disk utility that end in files lost or files on top of one another. */
module BmfsFailures {
  import opened Common
  import opened BmfsModel
  import opened BmfsGaps
  import opened BmfsNames
  import opened BmfsRuns

  lemma {:induction false} NewName(dir: seq<Entry>, name: Name, k: nat)
    requires k <= EndFrom(dir, 0) && forall j: nat :: k <= j < EndFrom(dir, 0) ==> dir[j].name != name
    ensures Find(dir, name, k) == |dir|
    decreases |dir| - k
  {
    if k < EndFrom(dir, 0) {
      NewName(dir, name, k + 1);
    }
  }

  /** A create with the lowest gap known. */
  lemma Appends(dir: seq<Entry>, blocks: uint64, name: Name, maxsize: uint64, place: uint64)
    requires DiskSize(blocks) && |dir| == SLOTS && ValidName(name) && Request(maxsize) > 0
    requires ExtentsOk(Visible(dir), blocks) && NoUnused(Visible(dir)) && |Visible(dir)| < SLOTS
    requires Lowest(Visible(dir), blocks, Request(maxsize), place)
    requires forall k: nat :: k < |Visible(dir)| ==> Visible(dir)[k].name != name
    ensures Visible(Create(dir, blocks, name, maxsize)) == Visible(dir) + [Entry(name, place, Request(maxsize), 0)]
  {
    CreateAppends(dir, blocks, name, maxsize);
  }

  lemma ExecStep(ops: seq<Op>, blocks: uint64, op: Op)
    ensures Exec(ops + [op], blocks) == Apply(Exec(ops, blocks), blocks, op)
  {
    assert (ops + [op])[..|ops|] == ops;
  }

  // ----- a deleted record -----

  const FIRST: Name := [65]
  const SECOND: Name := [66]
  const THIRD: Name := [67]

  /** A file of one block, and one that takes the rest of the disk. */
  function TwoFiles(blocks: uint64): seq<Op>
    requires blocks >= 5
  {
    [] + [CreateOp(FIRST, 2)] + [CreateOp(SECOND, 2 * (blocks - 3) % WORD64)]
  }

  /** The first file is deleted, and one of two blocks created. */
  function OverlappingRun(blocks: uint64): seq<Op>
    requires blocks >= 5
  {
    TwoFiles(blocks) + [DeleteOp(FIRST)] + [CreateOp(THIRD, 4)]
  }

  lemma FirstFile(d: seq<Entry>, blocks: uint64)
    requires DiskSize(blocks) && blocks >= 5 && |d| == SLOTS && Visible(d) == []
    ensures Visible(Create(d, blocks, FIRST, 2)) == [Entry(FIRST, 1, 1, 0)]
  {
    assert Gap(Visible(d), blocks, 1, 1);
    Appends(d, blocks, FIRST, 2, 1);
  }

  lemma SecondFile(d: seq<Entry>, blocks: uint64)
    requires DiskSize(blocks) && blocks >= 5 && |d| == SLOTS && Visible(d) == [Entry(FIRST, 1, 1, 0)]
    ensures Visible(Create(d, blocks, SECOND, 2 * (blocks - 3))) ==
            [Entry(FIRST, 1, 1, 0), Entry(SECOND, 2, blocks - 3, 0)]
  {
    var v, rest := Visible(d), blocks - 3;
    forall start: nat | Gap(v, blocks, start, rest)
      ensures 2 <= start
    {
      assert Clear(v[0], start, rest);
    }
    assert Gap(v, blocks, 2, rest);
    Appends(d, blocks, SECOND, 2 * (blocks - 3), 2);
  }

  lemma OneFileVisible(blocks: uint64)
    requires DiskSize(blocks) && blocks >= 5
    ensures Visible(Exec([] + [CreateOp(FIRST, 2)], blocks)) == [Entry(FIRST, 1, 1, 0)]
  {
    var d := Exec([], blocks);
    EndIs(d, 0, 0);
    FirstFile(d, blocks);
    ExecStep([], blocks, CreateOp(FIRST, 2));
  }

  lemma TwoFilesVisible(blocks: uint64)
    requires DiskSize(blocks) && blocks >= 5
    ensures Visible(Exec(TwoFiles(blocks), blocks)) == [Entry(FIRST, 1, 1, 0), Entry(SECOND, 2, blocks - 3, 0)]
  {
    OneFileVisible(blocks);
    SecondAfter([] + [CreateOp(FIRST, 2)], blocks);
    assert 2 * (blocks - 3) % WORD64 == 2 * (blocks - 3);
  }

  lemma SecondAfter(ops: seq<Op>, blocks: uint64)
    requires DiskSize(blocks) && blocks >= 5 && Visible(Exec(ops, blocks)) == [Entry(FIRST, 1, 1, 0)]
    ensures Visible(Exec(ops + [CreateOp(SECOND, 2 * (blocks - 3))], blocks)) ==
            [Entry(FIRST, 1, 1, 0), Entry(SECOND, 2, blocks - 3, 0)]
  {
    SecondFile(Exec(ops, blocks), blocks);
    ExecStep(ops, blocks, CreateOp(SECOND, 2 * (blocks - 3)));
  }

  lemma FirstDeleted(two: seq<Entry>, second: Entry)
    requires |two| == SLOTS && Visible(two) == [Entry(FIRST, 1, 1, 0), second]
    ensures Visible(Delete(two, FIRST)) == [Entry([DELETED], 1, 1, 0), second] && HasEnd(Delete(two, FIRST))
  {
    assert two[0] == Visible(two)[0] && two[1] == Visible(two)[1];
    var d := Delete(two, FIRST);
    assert FIRST[0 := DELETED] == [DELETED];
    assert d == two[0 := Entry([DELETED], 1, 1, 0)];
    EndIs(d, 0, 2);
  }

  /**
    On every disk of at least five blocks: the third file is placed where the second one lies, and blocks 2 and 3 belong
    to both.
   */
  lemma DeletedRecordOverlaps(blocks: uint64)
    requires DiskSize(blocks) && blocks >= 5
    ensures var d := Exec(OverlappingRun(blocks), blocks);
            EndFrom(d, 0) == 2 && d[0] == Entry(THIRD, 2, 2, 0) && d[1] == Entry(SECOND, 2, blocks - 3, 0)
  {
    TwoFilesVisible(blocks);
    var two := Exec(TwoFiles(blocks), blocks);
    FirstDeleted(two, Entry(SECOND, 2, blocks - 3, 0));
    ExecStep(TwoFiles(blocks), blocks, DeleteOp(FIRST));
    ThirdPlaced(Delete(two, FIRST), blocks);
    ExecStep(TwoFiles(blocks) + [DeleteOp(FIRST)], blocks, CreateOp(THIRD, 4));
  }

  predicate OneDeleted(v: seq<Entry>, blocks: uint64)
    requires blocks >= 5
  {
    v == [Entry([DELETED], 1, 1, 0), Entry(SECOND, 2, blocks - 3, 0)]
  }

  lemma ThirdPlaced(d: seq<Entry>, blocks: uint64)
    requires DiskSize(blocks) && blocks >= 5 && OneDeleted(Visible(d), blocks) && HasEnd(d)
    ensures var r := Create(d, blocks, THIRD, 4);
            EndFrom(r, 0) == 2 && r[0] == Entry(THIRD, 2, 2, 0) && r[1] == Entry(SECOND, 2, blocks - 3, 0)
  {
    assert d[0] == Visible(d)[0] && d[1] == Visible(d)[1];
    PlaceBehindDead(d, blocks);
    NewName(d, THIRD, 0);
    assert FreeEntry(d, 0) == 0;
    EndIs(Create(d, blocks, THIRD, 4), 0, 2);
  }

  lemma PlaceBehindDead(d: seq<Entry>, blocks: uint64)
    requires DiskSize(blocks) && blocks >= 5 && OneDeleted(Visible(d), blocks) && HasEnd(d)
    ensures Place(d, blocks, 2) == 2
  {
    var v := Visible(d);
    NoGapLeft(v, blocks);
    PlaceIs(d, blocks, 2);
    assert LeavesRoom(v[0], blocks, 2);
  }

  lemma NoGapLeft(v: seq<Entry>, blocks: uint64)
    requires DiskSize(blocks) && blocks >= 5 && OneDeleted(v, blocks)
    ensures !SomeGap(v, blocks, 2) && ExtentsOk(v, blocks)
  {
    forall start: nat
      ensures !Gap(v, blocks, start, 2)
    {
      assert Gap(v, blocks, start, 2) ==> Clear(v[1], start, 2);
    }
  }

  // ----- a full directory -----

  function NthName(i: nat): Name
    requires i < SLOTS
  {
    [2 + i]
  }

  function NthFile(i: nat): Entry
    requires i < SLOTS
  {
    Entry(NthName(i), 1 + i, 1, 0)
  }

  /** k files of one block each. */
  function Fill(k: nat): seq<Op>
    requires k <= SLOTS
  {
    if k == 0 then [] else Fill(k - 1) + [CreateOp(NthName(k - 1), 2)]
  }

  function Filled(k: nat): seq<Entry>
    requires k <= SLOTS
  {
    seq(k, i requires 0 <= i < k => NthFile(i))
  }

  lemma FilledGap(k: nat, blocks: uint64)
    requires k < SLOTS && DiskSize(blocks) && blocks >= 66
    ensures ExtentsOk(Filled(k), blocks) && NoUnused(Filled(k)) && Lowest(Filled(k), blocks, 1, 1 + k)
  {
    forall start: nat | Gap(Filled(k), blocks, start, 1)
      ensures 1 + k <= start
    {
      assert start - 1 < k ==> Clear(Filled(k)[start - 1], start, 1);
    }
    assert Gap(Filled(k), blocks, 1 + k, 1);
  }

  lemma {:induction false} FillsUp(k: nat, blocks: uint64)
    requires k <= SLOTS && DiskSize(blocks) && blocks >= 66
    ensures Visible(Exec(Fill(k), blocks)) == Filled(k)
  {
    if k == 0 {
      EndIs(Exec(Fill(0), blocks), 0, 0);
    } else {
      FillsUp(k - 1, blocks);
      FillAfter(Fill(k - 1), k - 1, blocks);
    }
  }

  lemma FillAfter(ops: seq<Op>, k: nat, blocks: uint64)
    requires k < SLOTS && DiskSize(blocks) && blocks >= 66 && Visible(Exec(ops, blocks)) == Filled(k)
    ensures Visible(Exec(ops + [CreateOp(NthName(k), 2)], blocks)) == Filled(k + 1)
  {
    FillStep(Exec(ops, blocks), k, blocks);
    ExecStep(ops, blocks, CreateOp(NthName(k), 2));
  }

  lemma FillStep(d: seq<Entry>, k: nat, blocks: uint64)
    requires DiskSize(blocks) && blocks >= 66 && k < SLOTS && |d| == SLOTS && Visible(d) == Filled(k)
    ensures Visible(Create(d, blocks, NthName(k), 2)) == Filled(k + 1)
  {
    FilledGap(k, blocks);
    Appends(d, blocks, NthName(k), 2, 1 + k);
    assert Filled(k + 1) == Filled(k) + [NthFile(k)];
  }

  const NEWCOMER: Name := [200]

  /** The directory is filled, and its first file deleted. */
  function FullRun(): seq<Op> {
    Fill(SLOTS) + [DeleteOp(NthName(0))]
  }

  lemma FullThenDeleted(blocks: uint64) returns (d: seq<Entry>)
    requires DiskSize(blocks) && blocks >= 66
    ensures d == Exec(FullRun(), blocks) && EndFrom(d, 0) == SLOTS
    ensures d == Filled(SLOTS)[0 := Entry([DELETED], 1, 1, 0)]
  {
    FillsUp(SLOTS, blocks);
    var full := Exec(Fill(SLOTS), blocks);
    assert full == Visible(full);
    ExecStep(Fill(SLOTS), blocks, DeleteOp(NthName(0)));
    d := Delete(full, NthName(0));
    assert NthName(0)[0 := DELETED] == [DELETED];
    EndIs(d, 0, SLOTS);
  }

  lemma {:induction false} LaterFilesNamed(d: seq<Entry>, k: nat, i: nat)
    requires |d| == SLOTS && 0 < k <= i < SLOTS && forall j: nat :: 0 < j < SLOTS ==> d[j] == NthFile(j)
    ensures NthName(i) in Files(d, k)
    decreases i - k
  {
    if k < i {
      LaterFilesNamed(d, k + 1, i);
    }
  }

  /**
    On every disk with room for 64 files of one block: a file of 2 blocks created then is put on block 1 and over the
    file in block 2, and its record hides all the others.
   */
  lemma FullDirectoryLosesFiles(blocks: uint64, i: nat)
    requires DiskSize(blocks) && blocks >= 66 && 0 < i < SLOTS
    ensures var before := Exec(FullRun(), blocks);
            var after := Exec(FullRun() + [CreateOp(NEWCOMER, 4)], blocks);
            && NthName(i) in Files(before, 0) && before[1] == Entry(NthName(1), 2, 1, 0)
            && Visible(after) == [Entry(NEWCOMER, 1, 2, 0)] && Files(after, 0) == map[NEWCOMER := Record(1, 2, 0)]
  {
    var d := FullThenDeleted(blocks);
    LaterFilesNamed(d, 1, i);
    ExecStep(FullRun(), blocks, CreateOp(NEWCOMER, 4));
    NewcomerPlaced(d, blocks);
  }

  lemma NewcomerPlaced(d: seq<Entry>, blocks: uint64)
    requires DiskSize(blocks) && blocks >= 66 && d == Filled(SLOTS)[0 := Entry([DELETED], 1, 1, 0)]
    requires EndFrom(d, 0) == SLOTS
    ensures var after := Create(d, blocks, NEWCOMER, 4);
            Visible(after) == [Entry(NEWCOMER, 1, 2, 0)] && Files(after, 0) == map[NEWCOMER := Record(1, 2, 0)]
  {
    NewName(d, NEWCOMER, 0);
    NoEndMarkerRightExactly(d, blocks, 2);
    assert FreeEntry(d, 0) == 0;
    AddedFirst(d, Entry(NEWCOMER, 1, 2, 0));
    var after := Create(d, blocks, NEWCOMER, 4);
    EndIs(after, 0, 1);
  }
}
