/** What each call does to the tables, slot by slot and entry by entry, in every reachable state. */
module SchedulerCalls {
  import opened Common
  import opened ProcessStates
  import opened SchedulerModel
  import opened SchedulerTable
  import opened SchedulerRuns
  import opened SchedulerMain
  import opened SchedulerHistory
  import opened SchedulerSwitch
  import opened SchedulerStray
  import opened SchedulerWaiters

  // ----- creation -----

  /** The slots in use. */
  function Used(slots: seq<Slot>): set<nat> {
    set k: nat | k < |slots| && slots[k].state != Dead
  }

  lemma {:induction false} UsedIsCount(slots: seq<Slot>)
    ensures |Used(slots)| == LiveCount(slots)
  {
    if slots != [] {
      var n := |slots| - 1;
      UsedIsCount(slots[..n]);
      assert Used(slots) == Used(slots[..n]) + if slots[n].state != Dead then {n} else {};
    } else {
      assert Used(slots) == {};
    }
  }

  /** A creation succeeds exactly if fewer than 100 slots are in use and the stack exists; otherwise it says why not. */
  lemma CreationResult(s: Sched, stack: bool, pids: nat)
    requires Inv(s, pids) && pids + 1 < WORD32
    ensures |Used(s.slots)| <= 100
    ensures var r := CreateResult(s, stack);
            && (r == Created(s.pidValue) <==> |Used(s.slots)| < 100 && stack)
            && (r == LimitReached <==> |Used(s.slots)| == 100)
            && (r == NoSpace <==> |Used(s.slots)| < 100 && !stack)
  {
    UsedIsCount(s.slots);
    LiveCountBounds(s.slots);
  }

  /** The lowest free slot. */
  ghost predicate LowestFree(slots: seq<Slot>, i: nat) {
    i < |slots| && slots[i].state == Dead && forall j: nat :: j < i ==> slots[j].state != Dead
  }

  /** A new READY process in the lowest free slot, with the next pid and a full quantum; nothing else is different. */
  ghost predicate Creates(s: Sched, t: Sched, priority: nat, immortal: bool, i: nat) {
    && LowestFree(s.slots, i) && |t.slots| == |s.slots|
    && t == s.(slots := t.slots, dim := s.dim + 1, pidValue := s.pidValue + 1)
    && t.slots == s.slots[i := t.slots[i]] && t.slots[i].pid == s.pidValue && t.slots[i].state == Ready
    && t.slots[i].priority == priority && t.slots[i].immortal == immortal
    && t.slots[i].quantum == t.slots[i].remaining == Pow2(priority) % WORD32
  }

  lemma CreateCreates(s: Sched, priority: nat, immortal: bool, stack: bool, pids: nat)
    requires Inv(s, pids) && pids + 1 < WORD32
    ensures var t, i := Create(s, priority, immortal, stack), FreeSlot(s.slots, 0);
            if |Used(s.slots)| < 100 && stack then Creates(s, t, priority, immortal, i)
            else t == s
  {
    UsedIsCount(s.slots);
    SearchStopsInside(s);
    LiveCountBounds(s.slots);
  }

  lemma CreationExactly(s: Sched, priority: nat, immortal: bool, stack: bool, pids: nat) returns (i: nat)
    requires Inv(s, pids) && pids + 1 < WORD32
    ensures var t := Next(s, Spawn(priority, immortal, stack));
            if |Used(s.slots)| < 100 && stack then Creates(s, t, priority, immortal, i) else t == s
  {
    CreateCreates(s, priority, immortal, stack, pids);
    i := FreeSlot(s.slots, 0);
  }

  /** The lowest dead entry, or none. */
  ghost predicate LowestDead(children: seq<Child>, e: nat) {
    && e <= |children| && (e < |children| ==> children[e].state == Dead)
    && forall f: nat :: f < e ==> children[f].state != Dead
  }

  /** The new process is also recorded as a child of the current one, unless the child table is full. */
  lemma ChildCreationExactly(s: Sched, priority: nat, stack: bool, pids: nat) returns (i: nat, e: nat)
    requires Inv(s, pids) && pids + 1 < WORD32 && CurrentPid(s) != s.idlePid && |Used(s.slots)| < 100 && stack
    ensures var t := Next(s, SpawnChild(priority, stack));
            && Creates(s, t.(children := s.children), priority, false, i) && LowestDead(s.children, e)
            && t.children == if e == |s.children| then s.children
                             else s.children[e := Child(CurrentPid(s), s.pidValue, Ready)]
  {
    CreationResult(s, stack, pids);
    CreateCreates(s, priority, false, stack, pids);
    i, e := FreeSlot(s.slots, 0), FreeEntry(s.children, 0);
    CreateSparesCurrent(s, priority, stack);
  }

  // ----- priority and state -----

  predicate IsAt(s: Sched, pid: nat, i: nat) {
    i < |s.slots| && s.slots[i].state != Dead && s.slots[i].pid == pid
  }

  /** The nearest priority from 1 to 5. */
  predicate Clamped(p: nat, priority: nat) {
    1 <= p <= 5 && (priority < 1 ==> p == 1) && (priority > 5 ==> p == 5) && (1 <= priority <= 5 ==> p == priority)
  }

  /** A change of priority gives the process the nearest one from 1 to 5 and the quantum of that, and nothing else. */
  lemma PriorityExactly(s: Sched, pid: nat, priority: nat, i: nat, pids: nat) returns (p: nat)
    requires Inv(s, pids) && pids + 1 < WORD32 && IsAt(s, pid, i)
    ensures Clamped(p, priority)
    ensures Next(s, Reprice(pid, priority)) ==
            s.(slots := s.slots[i := s.slots[i].(priority := p, quantum := Pow2(p))])
  {
    p := Clamp(priority);
    IndexIs(s.slots, pid, i);
    TicksOf(p);
  }

  lemma TicksOf(p: nat)
    requires 1 <= p <= 5
    ensures Ticks(p) == Pow2(p)
  {
    assert Pow2(1) == 2 && Pow2(2) == 4 && Pow2(3) == 8;
    assert Pow2(4) == 2 * Pow2(3) && Pow2(5) == 2 * Pow2(4);
  }

  /** A toggle turns BLOCK into READY and any other state into BLOCK; a second one makes good for a READY process. */
  lemma ToggleExactly(s: Sched, pid: nat, i: nat, pids: nat)
    requires Inv(s, pids) && pids + 1 < WORD32 && IsAt(s, pid, i) && pid != s.idlePid && i != s.cur
    ensures var t := Next(s, Toggle(pid));
            && t == s.(slots := s.slots[i := s.slots[i].(state := if s.slots[i].state == Block then Ready else Block)])
            && (s.slots[i].state == Ready || s.slots[i].state == Block ==> Next(t, Toggle(pid)) == s)
  {
    var t := Next(s, Toggle(pid));
    IndexIs(s.slots, pid, i);
    NextKeeps(s, Toggle(pid), pids);
    IndexIs(t.slots, pid, i);
    assert s.slots[i := t.slots[i]][i := s.slots[i]] == s.slots;
  }

  /** A process that toggles itself is BLOCK, and the processor goes to another. */
  lemma ToggleOfCurrent(s: Sched, pids: nat)
    requires Inv(s, pids) && pids + 1 < WORD32 && CurrentPid(s) != s.idlePid
    ensures var e := Toggle(CurrentPid(s));
            && Switches(s, e) && BeforeSwitch(s, e) == s.(slots := s.slots[s.cur := s.slots[s.cur].(state := Block)])
            && Next(s, e).cur != s.cur && s.cur < |Next(s, e).slots| && Next(s, e).slots[s.cur].state == Block
  {
    var e := Toggle(CurrentPid(s));
    CurrentIsNotIdle(s);
    SwitchIs(s, e, pids);
    NextKeeps(s, e, pids);
    PausedStaysPaused(BeforeSwitch(s, e), s.cur);
  }

  /** A wake-up makes its process READY and changes nothing else. */
  lemma WakeExactly(s: Sched, pid: nat, i: nat, pids: nat)
    requires Inv(s, pids) && pids + 1 < WORD32 && IsAt(s, pid, i) && pid != s.idlePid
    ensures Next(s, SemWake(pid)) == s.(slots := s.slots[i := s.slots[i].(state := Ready)])
  {
    IndexIs(s.slots, pid, i);
  }

  predicate Writes(e: Event, pid: nat) {
    match e
    case SemWake(p) => p == pid
    case Toggle(p) => p == pid
    case Reprice(p, _) => p == pid
    case _ => false
  }

  /** A wake-up, a toggle or a change of priority for a pid that is not live writes outside the table and not in it. */
  lemma UnknownPid(s: Sched, e: Event, pid: nat, pids: nat)
    requires Inv(s, pids) && pids + 1 < WORD32 && Writes(e, pid) && forall i: nat :: !IsAt(s, pid, i)
    ensures Next(s, e) == if pid == s.idlePid && !e.Reprice? then s else s.(stray := s.stray + 1)
  {
    assert !IsAt(s, pid, IndexOf(s.slots, pid, 0));
  }

  // ----- blocking -----

  /** What the caller of a blocking call leaves behind before another process is chosen. */
  lemma BlockingExactly(s: Sched, pids: nat)
    requires Inv(s, pids) && pids + 1 < WORD32 && CurrentPid(s) != s.idlePid
    ensures Switches(s, SemBlock) && BeforeSwitch(s, SemBlock) ==
            s.(slots := s.slots[s.cur := s.slots[s.cur].(state := PausedBySem, remaining := 0)])
  {
    CurrentIsNotIdle(s);
    var x := s.slots[s.cur].(state := PausedBySem);
    assert s.slots[s.cur := x][s.cur := x.(remaining := 0)] == s.slots[s.cur := x.(remaining := 0)];
  }

  lemma YieldExactly(s: Sched, pids: nat)
    requires Inv(s, pids) && pids + 1 < WORD32
    ensures Switches(s, Yield) && BeforeSwitch(s, Yield) ==
            s.(slots := s.slots[s.cur := s.slots[s.cur].(remaining := 0)])
  {
  }

  /** A wait for children pauses its caller if some entry names it as the parent, and does nothing otherwise. */
  lemma WaitExactly(s: Sched, pids: nat)
    requires Inv(s, pids) && pids + 1 < WORD32 && CurrentPid(s) != s.idlePid
    ensures if exists e: nat :: e < |s.children| && NamesParent(s, e, CurrentPid(s))
            then Switches(s, WaitChildren) && BeforeSwitch(s, WaitChildren) ==
                 s.(slots := s.slots[s.cur := s.slots[s.cur].(state := PausedByChild)])
            else Next(s, WaitChildren) == s
  {
    CurrentIsNotIdle(s);
    if HasChildren(s.children, CurrentPid(s)) {
      var e :| 0 <= e < |s.children| && s.children[e].parent == CurrentPid(s);
      assert NamesParent(s, e, CurrentPid(s));
    }
  }

  predicate NamesParent(s: Sched, e: nat, pid: nat)
    requires e < |s.children|
  {
    s.children[e].parent == pid
  }

  /** A timer interrupt takes one tick from the current process while it has one, and switches otherwise. */
  lemma TimerExactly(s: Sched, pids: nat)
    requires Inv(s, pids) && pids + 1 < WORD32
    ensures var x := s.slots[s.cur];
            if x.remaining > 0 then Next(s, Timer) == s.(slots := s.slots[s.cur := x.(remaining := x.remaining - 1)])
            else Switches(s, Timer) && BeforeSwitch(s, Timer) == s
  {
    LiveCountBounds(s.slots);
  }

  // ----- death -----

  /** What a death does to the slots and to the entries, entry e0 being the one that records the process. */
  ghost predicate Dies(s: Sched, t: Sched, i: nat) {
    && i < |s.slots| == |t.slots| && |t.children| == |s.children|
    && t == s.(slots := t.slots, children := t.children, dim := t.dim, stray := t.stray) && s.dim == t.dim + 1
    && t.slots[i] == s.slots[i].(state := Dead, remaining := 0)
    && (forall k: nat :: k < |s.slots| && k != i ==> t.slots[k] == Bereaved(s, i, k))
    && forall e: nat :: e < |s.children| ==> t.children[e] == Struck(s, i, e)
  }

  /** Slot k after the death of the process in slot i: a parent that loses its last recorded child is READY. */
  ghost function Bereaved(s: Sched, i: nat, k: nat): Slot
    requires i < |s.slots| && k < |s.slots|
  {
    if s.slots[k].state != Dead && Orphans(s, i, s.slots[k].pid) then s.slots[k].(state := Ready) else s.slots[k]
  }

  /** The process in slot i is recorded as the last living child of pid. */
  ghost predicate Orphans(s: Sched, i: nat, pid: nat)
    requires i < |s.slots|
  {
    exists e: nat :: e < |s.children| && Records(s, i, e) && s.children[e].parent == pid && LastEntry(s.children, e)
  }

  predicate Records(s: Sched, i: nat, e: nat)
    requires i < |s.slots| && e < |s.children|
  {
    s.children[e].state == Ready && s.children[e].child == s.slots[i].pid
  }

  /** Entry e after that death: marked dead, or blank with all entries of a parent without other living children. */
  ghost function Struck(s: Sched, i: nat, e: nat): Child
    requires i < |s.slots| && e < |s.children|
  {
    if Orphans(s, i, s.children[e].parent) then Child(0, 0, Dead)
    else if Records(s, i, e) then s.children[e].(state := Dead)
    else s.children[e]
  }

  lemma OrphansIsLastChild(s: Sched, i: nat, pid: nat)
    requires ChildrenUnique(s.children) && i < |s.slots|
    ensures Orphans(s, i, pid) <==> LastChild(s, i, pid)
  {
    if Orphans(s, i, pid) {
      var e: nat :| e < |s.children| && Records(s, i, e) && s.children[e].parent == pid && LastEntry(s.children, e);
      EntryIs(s.children, s.slots[i].pid, e);
    }
    if LastChild(s, i, pid) {
      assert Records(s, i, EntryOf(s.children, s.slots[i].pid, 0));
    }
  }

  lemma DeadUntouched(s: Sched, i: nat, k: nat)
    requires i < |s.slots| && k < |s.slots| && k != i && !Live(s.slots[k])
    ensures |Destroy(s, i).slots| == |s.slots| && Destroy(s, i).slots[k] == s.slots[k]
  {
  }

  lemma DeathStrikes(s: Sched, i: nat, e: nat)
    requires TableOk(s) && Family(s) && i < |s.slots| && Live(s.slots[i]) && e < |s.children|
    ensures |Destroy(s, i).children| == |s.children| && Destroy(s, i).children[e] == Struck(s, i, e)
  {
    var e0 := EntryOf(s.children, s.slots[i].pid, 0);
    OrphansIsLastChild(s, i, s.children[e].parent);
    if Records(s, i, e) {
      EntryIs(s.children, s.slots[i].pid, e);
    }
    if e0 < |s.children| {
      LastEntryFinishes(s.children, e0);
    }
  }

  lemma DyingSlot(s: Sched, i: nat)
    requires i < |s.slots|
    ensures var t := Destroy(s, i);
            && |t.slots| == |s.slots| && t.slots[i] == s.slots[i].(state := Dead, remaining := 0)
            && t.cur == s.cur && t.pidValue == s.pidValue && t.idlePid == s.idlePid
  {
  }

  /** The death of a process. */
  lemma DeathExactly(s: Sched, i: nat)
    requires TableOk(s) && Family(s) && i < |s.slots| && Live(s.slots[i])
    ensures Dies(s, Destroy(s, i), i)
  {
    DestroyKeepsTable(s, i);
    DyingSlot(s, i);
    forall k: nat | k < |s.slots| && k != i
      ensures Destroy(s, i).slots[k] == Bereaved(s, i, k)
    {
      OrphansIsLastChild(s, i, s.slots[k].pid);
      if Live(s.slots[k]) {
        DeathOfOther(s, i, k);
      } else {
        DeadUntouched(s, i, k);
      }
    }
    DestroyNothingNew(s, i);
    forall e: nat | e < |s.children|
      ensures Destroy(s, i).children[e] == Struck(s, i, e)
    {
      DeathStrikes(s, i, e);
    }
  }
}
