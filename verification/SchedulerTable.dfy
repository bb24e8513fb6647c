/** Every run of the process table: counts, identifiers, the idle process and the child table. */
module SchedulerTable {
  import opened Common
  import opened ProcessStates
  import opened SchedulerModel

  datatype Event =
    | Timer
    | Spawn(priority: nat, immortal: bool, stack: bool)
    | SpawnChild(priority: nat, stack: bool)
    | Kill(pid: nat)
    | KillAll
    | End
    | WaitChildren
    | SemBlock
    | SemWake(pid: nat)
    | Toggle(pid: nat)
    | Yield
    | Reprice(pid: nat, priority: nat)

  /** `kill_all_processes` from slot i on, and whether the current process was among the killed. */
  function KillFrom(s: Sched, i: nat): (r: (Sched, bool))
    requires i <= |s.slots|
    decreases |s.slots| - i
  {
    if i == |s.slots| then (s, false)
    else if s.slots[i].state != Dead && !s.slots[i].immortal then
      var t := Destroy(s, i);
      if |t.slots| != |s.slots| then (t, false)
      else
        var r := KillFrom(t, i + 1);
        (r.0, r.1 || s.cur == i)
    else KillFrom(s, i + 1)
  }

  function TickIf(s: Sched, c: bool): Sched {
    if c && Sized(s) && s.dim <= MAX_PROCESSES then Tick(s) else s
  }

  /** `block_or_unblock`. */
  function Toggled(slot: Slot): Slot {
    slot.(state := if slot.state == Block then Ready else Block)
  }

  /** The current process has no ticks left. */
  function Drained(s: Sched): Sched {
    s.(slots := if s.cur < |s.slots| then s.slots[s.cur := s.slots[s.cur].(remaining := 0)] else s.slots)
  }

  /** One system call of the current process, one key press, or one timer interrupt. */
  function Apply(s: Sched, e: Event): Sched
    requires Sized(s)
  {
    match e
    case Timer => TickIf(s, true)
    case Spawn(priority, immortal, stack) => Create(s, priority, immortal, stack)
    case SpawnChild(priority, stack) => CreateChild(s, priority, stack)
    case Kill(pid) =>
      var i := IndexOf(s.slots, pid, 0);
      if i == |s.slots| || s.slots[i].immortal then s else TickIf(Destroy(s, i), s.cur == i)
    case KillAll =>
      var r := KillFrom(s, 0);
      TickIf(r.0, r.1)
    case End => TickIf(Destroy(s, s.cur), true)
    case WaitChildren =>
      if HasChildren(s.children, CurrentPid(s)) then TickIf(ChangeState(s, CurrentPid(s), PausedByChild), true) else s
    case SemBlock => TickIf(Drained(ChangeState(s, CurrentPid(s), PausedBySem)), true)
    case SemWake(pid) => ChangeState(s, pid, Ready)
    case Toggle(pid) =>
      var i := IndexOf(s.slots, pid, 0);
      if i == |s.slots| then s.(stray := s.stray + 1)
      else TickIf(s.(slots := s.slots[i := Toggled(s.slots[i])]), s.cur == i)
    case Yield => TickIf(Drained(s), true)
    case Reprice(pid, priority) => ChangePriority(s, pid, priority)
  }

  // ----- the table -----

  predicate Live(slot: Slot) {
    slot.state != Dead
  }

  function LiveCount(slots: seq<Slot>): nat {
    if slots == [] then 0
    else LiveCount(slots[..|slots| - 1]) + if Live(slots[|slots| - 1]) then 1 else 0
  }

  predicate Clash(slots: seq<Slot>, i: nat, j: nat)
    requires i < |slots| && j < |slots|
  {
    Live(slots[i]) && Live(slots[j]) && slots[i].pid == slots[j].pid
  }

  ghost predicate DistinctPids(slots: seq<Slot>) {
    forall i: nat, j: nat :: i < j < |slots| ==> !Clash(slots, i, j)
  }

  ghost predicate PidsBelow(slots: seq<Slot>, bound: nat) {
    forall i: nat :: i < |slots| && Live(slots[i]) ==> slots[i].pid < bound
  }

  /** `dim` counts the live slots, and live pids are distinct and older than the next one. */
  ghost predicate TableOk(s: Sched) {
    Sized(s) && s.dim == LiveCount(s.slots) && DistinctPids(s.slots) && PidsBelow(s.slots, s.pidValue)
  }

  lemma {:induction false} LiveCountUpdate(slots: seq<Slot>, i: nat, x: Slot)
    requires i < |slots|
    ensures LiveCount(slots[i := x]) + (if Live(slots[i]) then 1 else 0) == LiveCount(slots) + if Live(x) then 1 else 0
    decreases |slots|
  {
    var n := |slots| - 1;
    if i < n {
      LiveCountUpdate(slots[..n], i, x);
      assert slots[i := x][..n] == slots[..n][i := x];
    } else {
      assert slots[i := x][..n] == slots[..n];
    }
  }

  lemma {:induction false} LiveCountBounds(slots: seq<Slot>)
    ensures LiveCount(slots) <= |slots|
    ensures LiveCount(slots) < |slots| <==> exists i :: 0 <= i < |slots| && !Live(slots[i])
  {
    if slots != [] {
      var n := |slots| - 1;
      LiveCountBounds(slots[..n]);
      if LiveCount(slots) < |slots| && Live(slots[n]) {
        var i :| 0 <= i < n && !Live(slots[..n][i]);
        assert !Live(slots[i]);
      }
      if i :| 0 <= i < |slots| && !Live(slots[i]) {
        assert i < n ==> !Live(slots[..n][i]);
      }
    }
  }

  /**
    With a free place in the count there is a free slot, so the unbounded search of `create_process` ends in the
    table.
   */
  lemma SearchStopsInside(s: Sched)
    requires TableOk(s)
    ensures s.dim < MAX_PROCESSES <==> FreeSlot(s.slots, 0) < MAX_PROCESSES
  {
    LiveCountBounds(s.slots);
    var i := FreeSlot(s.slots, 0);
    if i < MAX_PROCESSES {
      assert !Live(s.slots[i]);
    }
  }

  /** A live process is found by its pid, and nothing else is. */
  lemma IndexIs(slots: seq<Slot>, pid: nat, i: nat)
    requires DistinctPids(slots) && i < |slots| && IsProcess(slots[i], pid)
    ensures IndexOf(slots, pid, 0) == i
  {
    var j := IndexOf(slots, pid, 0);
    if j < i {
      assert Clash(slots, j, i);
    }
  }

  /** Changes of one slot that neither kill nor revive it and keep its pid. */
  lemma SlotChangeKeepsTable(s: Sched, i: nat, x: Slot)
    requires TableOk(s) && i < |s.slots| && Live(s.slots[i]) == Live(x) && x.pid == s.slots[i].pid
    ensures TableOk(s.(slots := s.slots[i := x]))
  {
    LiveCountUpdate(s.slots, i, x);
    var t := s.slots[i := x];
    forall j: nat, k: nat | j < k < |t|
      ensures !Clash(t, j, k)
    {
      assert !Clash(s.slots, j, k);
    }
  }

  lemma ChangeStateKeepsTable(s: Sched, pid: nat, st: ProcessState)
    requires TableOk(s) && st != Dead
    ensures TableOk(ChangeState(s, pid, st))
  {
    var i := IndexOf(s.slots, pid, 0);
    if i < |s.slots| {
      SlotChangeKeepsTable(s, i, s.slots[i].(state := st));
    }
  }

  lemma SetDeadKeepsTable(s: Sched, pid: nat)
    requires TableOk(s)
    ensures TableOk(SetDead(s, pid))
  {
    var e := EntryOf(s.children, pid, 0);
    if e < |s.children| {
      var children := s.children[e := s.children[e].(state := Dead)];
      var father := s.children[e].parent;
      if AllFinished(children, father) {
        ChangeStateKeepsTable(s.(children := DeleteChildren(children, father)), father, Ready);
      }
    }
  }

  /** The table once a slot is marked dead, with the count still to be lowered. */
  lemma DestroyKeepsTable(s: Sched, i: nat)
    requires TableOk(s) && i < |s.slots| && Live(s.slots[i])
    ensures TableOk(Destroy(s, i)) && Destroy(s, i).dim == s.dim - 1
  {
    var x := s.slots[i].(state := Dead, remaining := 0);
    LiveCountUpdate(s.slots, i, x);
    var t := s.(slots := s.slots[i := x], dim := s.dim - 1);
    forall j: nat, k: nat | j < k < |t.slots|
      ensures !Clash(t.slots, j, k)
    {
      assert !Clash(s.slots, j, k);
    }
    SetDeadKeepsTable(t, s.slots[i].pid);
    SetDeadIgnoresDim(t, s.dim, s.slots[i].pid);
  }

  lemma SetDeadIgnoresDim(s: Sched, dim: nat, pid: nat)
    ensures SetDead(s.(dim := dim), pid) == SetDead(s, pid).(dim := dim)
    ensures SetDead(s, pid).dim == s.dim
  {
  }

  lemma CreateKeepsTable(s: Sched, priority: nat, immortal: bool, stack: bool)
    requires TableOk(s) && s.pidValue + 1 < WORD32
    ensures TableOk(Create(s, priority, immortal, stack))
  {
    var t := Create(s, priority, immortal, stack);
    SearchStopsInside(s);
    if t != s {
      var i := FreeSlot(s.slots, 0);
      LiveCountUpdate(s.slots, i, t.slots[i]);
      forall j: nat, k: nat | j < k < |t.slots|
        ensures !Clash(t.slots, j, k)
      {
        assert !Clash(s.slots, j, k);
      }
    }
  }

  lemma ChooseKeepsTable(s: Sched)
    requires TableOk(s) && s.dim <= MAX_PROCESSES
    ensures TableOk(Choose(s))
  {
    var found := if s.dim == 0 then None else Scan(s.slots, s.dim, (s.cur + 1) % s.dim, s.dim);
    match found
    case None =>
      var idle := IndexOf(s.slots, s.idlePid, 0);
      if idle < |s.slots| {
        ChangeStateKeepsTable(s.(cur := idle), s.idlePid, Ready);
      }
    case Some(c) =>
      ChangeStateKeepsTable(s.(cur := c), s.idlePid, Paused);
  }

  lemma TickKeepsTable(s: Sched, c: bool)
    requires TableOk(s)
    ensures TableOk(TickIf(s, c))
  {
    if c && s.dim <= MAX_PROCESSES {
      if Continues(s) {
        SlotChangeKeepsTable(s, s.cur, s.slots[s.cur].(remaining := s.slots[s.cur].remaining - 1));
      } else {
        ChooseKeepsTable(s);
        var t := Choose(s);
        SlotChangeKeepsTable(t, t.cur, t.slots[t.cur].(remaining := t.slots[t.cur].quantum));
      }
    }
  }

  lemma {:induction false} KillFromKeepsTable(s: Sched, i: nat)
    requires TableOk(s) && i <= |s.slots|
    ensures TableOk(KillFrom(s, i).0)
    decreases |s.slots| - i
  {
    if i < |s.slots| {
      if Live(s.slots[i]) && !s.slots[i].immortal {
        DestroyKeepsTable(s, i);
        KillFromKeepsTable(Destroy(s, i), i + 1);
      } else {
        KillFromKeepsTable(s, i + 1);
      }
    }
  }
}
