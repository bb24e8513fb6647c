/** The directory as a finite map from names to records. */
module BmfsNames {
  import opened Common
  import opened BmfsModel

  datatype Record = Record(start: uint64, reserved: uint64, size: uint64)

  function RecordOf(e: Entry): Record {
    Record(e.start, e.reserved, e.size)
  }

  /** The files in the records from k on; of two with the same name the first counts. */
  function Files(dir: seq<Entry>, k: nat): map<Name, Record>
    requires k <= |dir|
    decreases |dir| - k
  {
    if k == |dir| || IsEnd(dir[k]) then map[]
    else if IsUnused(dir[k]) then Files(dir, k + 1)
    else Files(dir, k + 1)[dir[k].name := RecordOf(dir[k])]
  }

  predicate SameName(dir: seq<Entry>, i: nat, j: nat)
    requires i < |dir| && j < |dir|
  {
    IsFile(dir[i]) && IsFile(dir[j]) && dir[i].name == dir[j].name
  }

  ghost predicate UniqueNames(dir: seq<Entry>) {
    forall i: nat, j: nat :: i < j < EndFrom(dir, 0) ==> !SameName(dir, i, j)
  }

  /** `findfile` looks a name up in the map. */
  lemma {:induction false} FindLooksUp(dir: seq<Entry>, name: Name, k: nat)
    requires k <= |dir|
    ensures Find(dir, name, k) < |dir| <==> name in Files(dir, k)
    ensures Find(dir, name, k) < |dir| ==> Files(dir, k)[name] == RecordOf(dir[Find(dir, name, k)])
    decreases |dir| - k
  {
    if k < |dir| && !IsEnd(dir[k]) {
      FindLooksUp(dir, name, k + 1);
    }
  }

  lemma EndIs(dir: seq<Entry>, k: nat, e: nat)
    requires k <= e <= |dir| && (forall j: nat :: k <= j < e ==> !IsEnd(dir[j])) && (e < |dir| ==> IsEnd(dir[e]))
    ensures EndFrom(dir, k) == e
  {
  }

  /** The search passes over every visible file of another name. */
  lemma {:induction false} FoundAt(dir: seq<Entry>, name: Name, k: nat, i: nat)
    requires k <= i < EndFrom(dir, 0) && IsFile(dir[i]) && dir[i].name == name
    ensures k <= Find(dir, name, k) <= i
    decreases i - k
  {
    if k < i {
      FoundAt(dir, name, k + 1, i);
    }
  }

  lemma {:induction false} FoundIsVisible(dir: seq<Entry>, name: Name, k: nat)
    requires k <= EndFrom(dir, 0) && Find(dir, name, k) < |dir|
    ensures Find(dir, name, k) < EndFrom(dir, 0)
    ensures forall j: nat :: k <= j < Find(dir, name, k) ==> !(IsFile(dir[j]) && dir[j].name == name)
    decreases |dir| - k
  {
    if k < |dir| && !IsEnd(dir[k]) && !(IsFile(dir[k]) && dir[k].name == name) {
      FoundIsVisible(dir, name, k + 1);
    }
  }

  // ----- changes of the directory and of the map -----

  lemma {:induction false} SameTail(a: seq<Entry>, b: seq<Entry>, k: nat)
    requires |a| == |b| && k <= |a| && forall j: nat :: k <= j < |a| ==> a[j] == b[j]
    ensures Files(a, k) == Files(b, k)
    decreases |a| - k
  {
    if k < |a| {
      SameTail(a, b, k + 1);
    }
  }

  /** A name added from record i on is added to the whole, if it is not among the records before. */
  lemma {:induction false} AddedFrom(a: seq<Entry>, b: seq<Entry>, k: nat, i: nat, name: Name, r: Record)
    requires |a| == |b| && k <= i <= |a| && Files(b, i) == Files(a, i)[name := r]
    requires forall j: nat :: k <= j < i ==> a[j] == b[j] && !IsEnd(a[j]) && !(IsFile(a[j]) && a[j].name == name)
    ensures Files(b, k) == Files(a, k)[name := r]
    decreases i - k
  {
    if k < i {
      AddedFrom(a, b, k + 1, i, name, r);
    }
  }

  lemma {:induction false} RemovedFrom(a: seq<Entry>, b: seq<Entry>, k: nat, i: nat, name: Name)
    requires |a| == |b| && k <= i <= |a| && Files(b, i) == Files(a, i) - {name}
    requires forall j: nat :: k <= j < i ==> a[j] == b[j] && !IsEnd(a[j]) && !(IsFile(a[j]) && a[j].name == name)
    ensures Files(b, k) == Files(a, k) - {name}
    decreases i - k
  {
    if k < i {
      RemovedFrom(a, b, k + 1, i, name);
    }
  }

  /** Which records are visible after a record is written where `create` writes it. */
  lemma AddedIsVisible(dir: seq<Entry>, x: Entry)
    requires IsFile(x) && FreeEntry(dir, 0) < |dir|
    ensures var i := FreeEntry(dir, 0);
            var d := AddRecord(dir, i, x);
            && i < EndFrom(d, 0) && d[i] == x
            && (forall j: nat :: j < EndFrom(d, 0) && j != i ==> j < EndFrom(dir, 0) && d[j] == dir[j])
            && (HasEnd(dir) || i > 0 ==> EndFrom(d, 0) == if i == EndFrom(dir, 0) then i + 1 else EndFrom(dir, 0))
  {
    var i := FreeEntry(dir, 0);
    var d := AddRecord(dir, i, x);
    var e := EndFrom(dir, 0);
    if HasEnd(dir) || i > 0 {
      EndIs(d, 0, if i == e then i + 1 else e);
    } else if |dir| > 1 {
      EndIs(d, 0, 1);
    }
  }

  /** `create` in the part of the map from its record on. */
  lemma AddedHere(dir: seq<Entry>, x: Entry)
    requires IsFile(x) && FreeEntry(dir, 0) < |dir| && (HasEnd(dir) || FreeEntry(dir, 0) > 0)
    ensures var i := FreeEntry(dir, 0); Files(AddRecord(dir, i, x), i) == Files(dir, i)[x.name := RecordOf(x)]
  {
    var i := FreeEntry(dir, 0);
    var d := AddRecord(dir, i, x);
    if i == UsedCount(dir) {
      assert Files(dir, i) == map[];
      assert i + 1 < |dir| ==> IsEnd(d[i + 1]);
      assert Files(d, i + 1) == map[];
    } else {
      SameTail(dir, d, i + 1);
    }
  }

  lemma AddedFirst(dir: seq<Entry>, x: Entry)
    requires IsFile(x) && |dir| > 1 && FreeEntry(dir, 0) == 0 && !HasEnd(dir)
    ensures Files(AddRecord(dir, 0, x), 0) == map[x.name := RecordOf(x)]
  {
    var d := AddRecord(dir, 0, x);
    assert IsEnd(d[1]) && Files(d, 1) == map[];
  }

  /**
   * A successful `create` adds the new record to the map and changes nothing else, if and only if the directory has an
   * end marker, or its first record is in use, or it holds no file.
   */
  lemma CreateRefinesExactly(dir: seq<Entry>, blocks: uint64, name: Name, maxsize: uint64)
    requires |dir| == SLOTS && ValidName(name) && CreateOutcome(dir, blocks, name, maxsize).Done?
    ensures var r := Record(Place(dir, blocks, Request(maxsize)), Request(maxsize), 0);
            Files(Create(dir, blocks, name, maxsize), 0) == Files(dir, 0)[name := r] <==>
            HasEnd(dir) || IsFile(dir[0]) || Files(dir, 0) == map[]
  {
    var i := FreeEntry(dir, 0);
    var x := Entry(name, Place(dir, blocks, Request(maxsize)), Request(maxsize), 0);
    FindLooksUp(dir, name, 0);
    if HasEnd(dir) || i > 0 {
      AddedToAll(dir, x);
    } else {
      AddedFirst(dir, x);
      MapGrows(Files(dir, 0), name, RecordOf(x));
    }
  }

  lemma AddedToAll(dir: seq<Entry>, x: Entry)
    requires IsFile(x) && FreeEntry(dir, 0) < |dir| && (HasEnd(dir) || FreeEntry(dir, 0) > 0)
    requires Find(dir, x.name, 0) == |dir|
    ensures Files(AddRecord(dir, FreeEntry(dir, 0), x), 0) == Files(dir, 0)[x.name := RecordOf(x)]
  {
    var i := FreeEntry(dir, 0);
    AddedHere(dir, x);
    forall j: nat | j < i
      ensures !(IsFile(dir[j]) && dir[j].name == x.name)
    {
      if dir[j].name == x.name {
        FoundAt(dir, x.name, 0, j);
      }
    }
    AddedFrom(dir, AddRecord(dir, i, x), 0, i, x.name, RecordOf(x));
  }

  lemma MapGrows(m: map<Name, Record>, name: Name, r: Record)
    requires name !in m
    ensures m[name := r] == map[name := r] <==> m == map[]
  {
    if m != map[] {
      var n :| n in m;
      assert n in m[name := r] && n !in map[name := r];
    }
  }

  /** The created file is found with its record, whatever else is lost. */
  lemma CreatedIsFound(dir: seq<Entry>, blocks: uint64, name: Name, maxsize: uint64)
    requires |dir| == SLOTS && ValidName(name) && CreateOutcome(dir, blocks, name, maxsize).Done?
    ensures var d := Create(dir, blocks, name, maxsize);
            && Find(d, name, 0) == FreeEntry(dir, 0)
            && RecordOf(d[Find(d, name, 0)]) == Record(Place(dir, blocks, Request(maxsize)), Request(maxsize), 0)
  {
    var i := FreeEntry(dir, 0);
    var d := Create(dir, blocks, name, maxsize);
    AddedIsVisible(dir, d[i]);
    FoundAt(d, name, 0, i);
    var f := Find(d, name, 0);
    if f < i {
      FoundAt(dir, name, 0, f);
    }
  }

  /** `delete` removes the name from the map and changes nothing else. */
  lemma DeleteRefines(dir: seq<Entry>, name: Name)
    requires UniqueNames(dir)
    ensures Files(Delete(dir, name), 0) == Files(dir, 0) - {name}
  {
    var i := Find(dir, name, 0);
    FindLooksUp(dir, name, 0);
    if i < |dir| {
      var d := Delete(dir, name);
      FoundIsVisible(dir, name, 0);
      SameTail(dir, d, i + 1);
      FindLooksUp(dir, name, i + 1);
      if Find(dir, name, i + 1) < |dir| {
        FoundIsVisible(dir, name, i + 1);
        assert SameName(dir, i, Find(dir, name, i + 1));
      }
      assert Files(d, i) == Files(dir, i) - {name};
      RemovedFrom(dir, d, 0, i, name);
    }
  }

  /** `delete` marks the first visible record of the name, and touches nothing else of the directory. */
  lemma DeleteExactly(dir: seq<Entry>, name: Name, i: nat)
    requires i < |dir| && IsFile(dir[i]) && dir[i].name == name
    requires forall j: nat :: j < i ==> dir[j].name != [] && dir[j].name != name
    ensures Delete(dir, name) == dir[i := dir[i].(name := [1] + name[1..])]
  {
    EndIs(dir, i, EndFrom(dir, 0));
    FoundAt(dir, name, 0, i);
    assert name[0 := DELETED] == [1] + name[1..];
  }

  lemma DeleteOfNothing(dir: seq<Entry>, name: Name)
    requires name !in Files(dir, 0)
    ensures Delete(dir, name) == dir
  {
    FindLooksUp(dir, name, 0);
  }

  // ----- every run -----

  datatype Op = CreateOp(name: Name, maxsize: uint64) | DeleteOp(name: Name)

  function Apply(dir: seq<Entry>, blocks: uint64, op: Op): (d: seq<Entry>)
    ensures |d| == |dir|
  {
    match op
    case CreateOp(name, maxsize) => Create(dir, blocks, name, maxsize)
    case DeleteOp(name) => Delete(dir, name)
  }

  /** A formatted disk after a sequence of creates and deletes. */
  function Exec(ops: seq<Op>, blocks: uint64): (d: seq<Entry>)
    ensures |d| == SLOTS
  {
    if ops == [] then Formatted() else Apply(Exec(ops[..|ops| - 1], blocks), blocks, ops[|ops| - 1])
  }

  lemma CreateKeepsUnique(dir: seq<Entry>, blocks: uint64, name: Name, maxsize: uint64)
    requires |dir| == SLOTS && ValidName(name) && UniqueNames(dir)
    ensures UniqueNames(Create(dir, blocks, name, maxsize))
  {
    if CreateOutcome(dir, blocks, name, maxsize).Done? {
      var d := Create(dir, blocks, name, maxsize);
      var i := FreeEntry(dir, 0);
      AddedIsVisible(dir, d[i]);
      forall j: nat, k: nat | j < k < EndFrom(d, 0)
        ensures !SameName(d, j, k)
      {
        if j != i && k != i {
          assert !SameName(dir, j, k);
        } else if SameName(d, j, k) {
          FoundAt(dir, name, 0, if j == i then k else j);
        }
      }
    }
  }

  lemma DeleteKeepsUnique(dir: seq<Entry>, name: Name)
    requires UniqueNames(dir)
    ensures UniqueNames(Delete(dir, name))
  {
    var d := Delete(dir, name);
    EndIs(d, 0, EndFrom(dir, 0));
    forall j: nat, k: nat | j < k < EndFrom(d, 0)
      ensures !SameName(d, j, k)
    {
      assert !SameName(dir, j, k);
    }
  }

  /** In every run, full directories and reused records included, no two files have the same name. */
  lemma {:induction false} NamesAlwaysUnique(ops: seq<Op>, blocks: uint64)
    requires forall k: nat :: k < |ops| && ops[k].CreateOp? ==> ValidName(ops[k].name)
    ensures UniqueNames(Exec(ops, blocks))
  {
    if ops == [] {
      EndIs(Formatted(), 0, 0);
    } else {
      var n := |ops| - 1;
      NamesAlwaysUnique(ops[..n], blocks);
      match ops[n]
      case CreateOp(name, maxsize) => CreateKeepsUnique(Exec(ops[..n], blocks), blocks, name, maxsize);
      case DeleteOp(name) => DeleteKeepsUnique(Exec(ops[..n], blocks), name);
    }
  }

  /** The map after a run: a successful create adds its record, a delete removes the name. */
  function Expected(ops: seq<Op>, blocks: uint64): map<Name, Record> {
    if ops == [] then map[]
    else
      var before := ops[..|ops| - 1];
      match ops[|ops| - 1]
      case DeleteOp(name) => Expected(before, blocks) - {name}
      case CreateOp(name, maxsize) =>
        var d := Exec(before, blocks);
        if CreateOutcome(d, blocks, name, maxsize).Done? then
          Expected(before, blocks)[name := Record(Place(d, blocks, Request(maxsize)), Request(maxsize), 0)]
        else Expected(before, blocks)
  }

  /** The create at position k, if there is one, finds an end marker, or the first record in use, or no file. */
  predicate CreateIsSafe(ops: seq<Op>, blocks: uint64, k: nat)
    requires k < |ops|
  {
    var d := Exec(ops[..k], blocks);
    ops[k].CreateOp? && CreateOutcome(d, blocks, ops[k].name, ops[k].maxsize).Done? ==>
      HasEnd(d) || IsFile(d[0]) || Files(d, 0) == map[]
  }

  /** After every operation each name leads to the record it was last given. */
  predicate AlwaysExpected(ops: seq<Op>, blocks: uint64) {
    && Files(Exec(ops, blocks), 0) == Expected(ops, blocks)
    && (ops != [] ==> AlwaysExpected(ops[..|ops| - 1], blocks))
  }

  lemma SafeBefore(ops: seq<Op>, blocks: uint64, n: nat, k: nat)
    requires k < n <= |ops|
    ensures CreateIsSafe(ops[..n], blocks, k) == CreateIsSafe(ops, blocks, k)
  {
    assert ops[..n][..k] == ops[..k];
  }

  /** The last operation of a run that was as expected so far. */
  lemma LastRefines(ops: seq<Op>, blocks: uint64, n: nat)
    requires n + 1 == |ops| && (ops[n].CreateOp? ==> ValidName(ops[n].name)) && UniqueNames(Exec(ops[..n], blocks))
    requires Files(Exec(ops[..n], blocks), 0) == Expected(ops[..n], blocks)
    ensures Files(Exec(ops, blocks), 0) == Expected(ops, blocks) <==> CreateIsSafe(ops, blocks, n)
  {
    var d := Exec(ops[..n], blocks);
    match ops[n]
    case DeleteOp(name) => DeleteRefines(d, name);
    case CreateOp(name, maxsize) =>
      if CreateOutcome(d, blocks, name, maxsize).Done? {
        CreateRefinesExactly(d, blocks, name, maxsize);
      }
  }

  /**
   * A run refines the map throughout, each name leading to the record it was last given, exactly if its creates are
   * safe.
   */
  lemma {:induction false} RunsRefineMap(ops: seq<Op>, blocks: uint64)
    requires forall k: nat :: k < |ops| && ops[k].CreateOp? ==> ValidName(ops[k].name)
    ensures AlwaysExpected(ops, blocks) <==> forall k: nat :: k < |ops| ==> CreateIsSafe(ops, blocks, k)
  {
    if ops != [] {
      var n := |ops| - 1;
      RunsRefineMap(ops[..n], blocks);
      forall k: nat | k < n
        ensures CreateIsSafe(ops[..n], blocks, k) == CreateIsSafe(ops, blocks, k)
      {
        SafeBefore(ops, blocks, n, k);
      }
      NamesAlwaysUnique(ops[..n], blocks);
      if AlwaysExpected(ops[..n], blocks) {
        LastRefines(ops, blocks, n);
      }
    }
  }
}
