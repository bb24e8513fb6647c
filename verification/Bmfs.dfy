/**
  The directory of the BareMetal file system as a sequence of 64 records, and the file operations on it as functions.
 */
module BmfsModel {
  import opened Common

  const SLOTS: nat := 64

  /** A file name without its terminating zero. */
  type Name = seq<byte>

  /** A record; its first name byte is 0 (here: an empty name) at the end of the directory and 1 in an unused record. */
  datatype Entry = Entry(name: Name, start: uint64, reserved: uint64, size: uint64)

  const DELETED: byte := 1

  predicate IsEnd(e: Entry) {
    e.name == []
  }

  predicate IsUnused(e: Entry) {
    e.name != [] && e.name[0] == DELETED
  }

  predicate IsFile(e: Entry) {
    !IsEnd(e) && !IsUnused(e)
  }

  /** A name that can be told from the two markers and fits the 32 bytes of a record. */
  predicate ValidName(name: Name) {
    name != [] && name[0] != DELETED && |name| < 32
  }

  /** `findfile` from record k on; the number of records stands for "not found". */
  function Find(dir: seq<Entry>, name: Name, k: nat): (i: nat)
    requires k <= |dir|
    ensures k <= i <= |dir|
    ensures i < |dir| ==> IsFile(dir[i]) && dir[i].name == name
    decreases |dir| - k
  {
    if k == |dir| || IsEnd(dir[k]) then |dir|
    else if !IsUnused(dir[k]) && dir[k].name == name then k
    else Find(dir, name, k + 1)
  }

  /** The first end marker from record k on. */
  function EndFrom(dir: seq<Entry>, k: nat): (e: nat)
    requires k <= |dir|
    ensures k <= e <= |dir|
    ensures forall j: nat :: k <= j < e ==> !IsEnd(dir[j])
    ensures e < |dir| ==> IsEnd(dir[e])
    decreases |dir| - k
  {
    if k == |dir| || IsEnd(dir[k]) then k else EndFrom(dir, k + 1)
  }

  predicate HasEnd(dir: seq<Entry>) {
    EndFrom(dir, 0) < |dir|
  }

  /** `num_used_entries`: it stays 0 when there is no end marker. */
  function UsedCount(dir: seq<Entry>): (n: nat)
    ensures n <= |dir|
  {
    if HasEnd(dir) then EndFrom(dir, 0) else 0
  }

  /** `first_free_entry`: the first unused record or end marker from record k on. */
  function FreeEntry(dir: seq<Entry>, k: nat): (e: nat)
    requires k <= |dir|
    ensures k <= e <= |dir|
    ensures forall j: nat :: k <= j < e ==> IsFile(dir[j])
    ensures e < |dir| ==> !IsFile(dir[e])
    decreases |dir| - k
  {
    if k == |dir| || !IsFile(dir[k]) then k else FreeEntry(dir, k + 1)
  }

  // ----- the sorted copy -----

  function Signed32(w: nat): int
    requires w < WORD32
  {
    if w < WORD32 / 2 then w else w - WORD32
  }

  /** `StartingBlockCmp`: unused records last, the others by the low 32 bits of the difference of their starts. */
  function Cmp(a: Entry, b: Entry): int {
    if IsUnused(a) then 1
    else if IsUnused(b) then -1
    else Signed32((a.start - b.start) % WORD32)
  }

  /** x goes after the last record that does not compare greater. */
  function Insert(s: seq<Entry>, x: Entry): (r: seq<Entry>)
    ensures |r| == |s| + 1
  {
    if s == [] || Cmp(s[|s| - 1], x) <= 0 then s + [x] else Insert(s[..|s| - 1], x) + [s[|s| - 1]]
  }

  function Sorted(s: seq<Entry>): (r: seq<Entry>)
    ensures |r| == |s|
  {
    if s == [] then [] else Insert(Sorted(s[..|s| - 1]), s[|s| - 1])
  }

  lemma {:induction false} InsertKeepsRecords(s: seq<Entry>, x: Entry)
    ensures multiset(Insert(s, x)) == multiset(s) + multiset{x}
  {
    if s != [] && Cmp(s[|s| - 1], x) > 0 {
      InsertKeepsRecords(s[..|s| - 1], x);
      assert s == s[..|s| - 1] + [s[|s| - 1]];
    }
  }

  /** Sorting permutes the records. */
  lemma {:induction false} SortedKeepsRecords(s: seq<Entry>)
    ensures multiset(Sorted(s)) == multiset(s)
  {
    if s != [] {
      SortedKeepsRecords(s[..|s| - 1]);
      InsertKeepsRecords(Sorted(s[..|s| - 1]), s[|s| - 1]);
      assert s == s[..|s| - 1] + [s[|s| - 1]];
    }
  }

  // ----- the gap scan -----

  function Plus(a: uint64, b: uint64): uint64 {
    (a + b) % WORD64
  }

  function Minus(a: uint64, b: uint64): uint64 {
    (a - b) % WORD64
  }

  /** Where the file after the gap starts: the last block counts as taken. */
  function GapEnd(sorted: seq<Entry>, blocks: uint64, k: nat): uint64
    requires k <= |sorted|
  {
    if k == |sorted| || IsUnused(sorted[k]) then Minus(blocks, 1) else sorted[k].start
  }

  /** The first block of the new file, or 0 if no gap from record k on is long enough. */
  function Scan(sorted: seq<Entry>, blocks: uint64, request: uint64, k: nat, prevEnd: uint64): uint64
    requires k <= |sorted|
    decreases |sorted| - k
  {
    if Minus(GapEnd(sorted, blocks, k), prevEnd) >= request then prevEnd
    else if k == |sorted| then 0
    else Scan(sorted, blocks, request, k + 1, Plus(sorted[k].start, sorted[k].reserved))
  }

  /** The place `create` chooses for a file of `request` blocks; 0 if it finds none. */
  function Place(dir: seq<Entry>, blocks: uint64, request: uint64): uint64 {
    Scan(Sorted(dir[..UsedCount(dir)]), blocks, request, 0, 1)
  }

  // ----- the operations -----

  datatype Outcome = Done | Exists | NoEntry | NoRoom

  /** Sizes are in MiB and blocks of 2 MiB; an odd size is rounded up in a 64-bit word. */
  function Request(maxsize: uint64): uint64 {
    (if maxsize % 2 != 0 then (maxsize + 1) % WORD64 else maxsize) / 2
  }

  function CreateOutcome(dir: seq<Entry>, blocks: uint64, name: Name, maxsize: uint64): Outcome {
    if Find(dir, name, 0) < |dir| then Exists
    else if FreeEntry(dir, 0) == |dir| then NoEntry
    else if Place(dir, blocks, Request(maxsize)) == 0 then NoRoom
    else Done
  }

  /** The record is written; if it replaced the end marker, the next record becomes the end marker. */
  function AddRecord(dir: seq<Entry>, i: nat, x: Entry): (r: seq<Entry>)
    requires i < |dir|
    ensures |r| == |dir|
  {
    var d := dir[i := x];
    if i == UsedCount(dir) && i + 1 < |dir| then d[i + 1 := d[i + 1].(name := [])] else d
  }

  /** `create`. */
  function Create(dir: seq<Entry>, blocks: uint64, name: Name, maxsize: uint64): (r: seq<Entry>)
    ensures |r| == |dir|
  {
    if CreateOutcome(dir, blocks, name, maxsize).Done? then
      AddRecord(dir, FreeEntry(dir, 0), Entry(name, Place(dir, blocks, Request(maxsize)), Request(maxsize), 0))
    else dir
  }

  /** `delete`: the first byte of the name becomes the marker. */
  function Delete(dir: seq<Entry>, name: Name): (r: seq<Entry>)
    ensures |r| == |dir|
  {
    var i := Find(dir, name, 0);
    if i < |dir| && dir[i].name != [] then dir[i := dir[i].(name := dir[i].name[0 := DELETED])] else dir
  }

  /** `format`. */
  function Formatted(): (dir: seq<Entry>)
    ensures |dir| == SLOTS && forall k :: 0 <= k < SLOTS ==> dir[k] == Entry([], 0, 0, 0)
  {
    seq(SLOTS, _ => Entry([], 0, 0, 0))
  }
}
