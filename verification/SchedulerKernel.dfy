/** The scheduler and the child table as the kernel runs them: fixed arrays updated in place. */
module SchedulerKernel {
  import opened Common
  import opened ProcessStates
  import opened SchedulerModel
  import opened SchedulerTable
  import opened SchedulerRuns
  import opened SchedulerMain
  import opened SchedulerSwitch
  import opened SchedulerChoice
  import opened SchedulerCalls

  const NO_PROCESS_FOUND: nat := 255

  class Kernel {
    const processList: array<Slot>
    const childrenProcesses: array<Child>
    var dim: nat
    var currentProcessIdx: nat
    var pidValue: nat
    var idlePid: nat

    /** Counts the state writes that land outside the process table. */
    ghost var stray: nat

    ghost predicate Valid()
      reads this
    {
      && processList.Length == MAX_PROCESSES && childrenProcesses.Length == MAX_CHILDREN_PROCESSES
      && currentProcessIdx < MAX_PROCESSES
    }

    ghost function Model(): (s: Sched)
      reads this, processList, childrenProcesses
      ensures Valid() ==> Sized(s)
    {
      Sched(processList[..], dim, currentProcessIdx, pidValue, idlePid, childrenProcesses[..], stray)
    }

    constructor ()
      ensures Valid() && Model() == Zeroed() && TableOk(Model())
      ensures fresh(processList) && fresh(childrenProcesses)
    {
      processList := new Slot[MAX_PROCESSES](_ => EMPTY_SLOT);
      childrenProcesses := new Child[MAX_CHILDREN_PROCESSES](_ => BLANK);
      dim, currentProcessIdx, pidValue, idlePid, stray := 0, 0, 0, 1, 0;
      new;
      NobodyLive(processList[..]);
      assert processList[..] == Zeroed().slots && childrenProcesses[..] == Zeroed().children;
    }

    /** `get_process_idx`: an 8-bit result, so "not found" is 255. */
    method GetProcessIdx(pid: nat) returns (i: nat)
      requires Valid()
      ensures var k := IndexOf(processList[..], pid, 0); i == if k == MAX_PROCESSES then NO_PROCESS_FOUND else k
    {
      i := 0;
      while i < MAX_PROCESSES
        invariant i <= MAX_PROCESSES && IndexOf(processList[..], pid, 0) == IndexOf(processList[..], pid, i)
      {
        if processList[i].pid == pid && processList[i].state != Dead {
          return;
        }
        i := i + 1;
      }
      i := NO_PROCESS_FOUND;
    }

    /** `change_process_state`; its test for "not found" compares 255 with -1 and never holds. */
    method ChangeProcessState(pid: nat, st: ProcessState)
      requires Valid()
      modifies this`stray, processList
      ensures Valid() && Model() == ChangeState(old(Model()), pid, st)
    {
      var i := GetProcessIdx(pid);
      if i < MAX_PROCESSES {
        processList[i] := processList[i].(state := st);
        assert processList[..] == old(processList[..])[i := processList[i]];
      } else {
        stray := stray + 1;
      }
    }

    // ----- the child table -----

    method AllChildrenFinished(parent: nat) returns (all: bool)
      requires Valid()
      ensures all == AllFinished(childrenProcesses[..], parent)
    {
      for i := 0 to MAX_CHILDREN_PROCESSES
        invariant forall e :: 0 <= e < i ==>
          !(childrenProcesses[e].state == Ready && childrenProcesses[e].parent == parent)
      {
        if childrenProcesses[i].state == Ready && childrenProcesses[i].parent == parent {
          assert childrenProcesses[..][i] == childrenProcesses[i];
          return false;
        }
      }
      return true;
    }

    method DeleteChildrenOf(parent: nat)
      requires Valid()
      modifies childrenProcesses
      ensures childrenProcesses[..] == DeleteChildren(old(childrenProcesses[..]), parent)
    {
      for i := 0 to MAX_CHILDREN_PROCESSES
        invariant forall e :: 0 <= e < i ==>
          childrenProcesses[e] ==
            if old(childrenProcesses[e]).parent == parent then BLANK else old(childrenProcesses[e])
        invariant forall e :: i <= e < MAX_CHILDREN_PROCESSES ==> childrenProcesses[e] == old(childrenProcesses[e])
      {
        if childrenProcesses[i].parent == parent {
          childrenProcesses[i] := BLANK;
        }
      }
    }

    method SetDeadProcess(pid: nat)
      requires Valid()
      modifies this`stray, processList, childrenProcesses
      ensures Valid() && Model() == SetDead(old(Model()), pid)
    {
      var i := 0;
      while i < MAX_CHILDREN_PROCESSES
        invariant i <= MAX_CHILDREN_PROCESSES && Model() == old(Model())
        invariant EntryOf(childrenProcesses[..], pid, 0) == EntryOf(childrenProcesses[..], pid, i)
      {
        if childrenProcesses[i].state == Ready && childrenProcesses[i].child == pid {
          EntryDies(i, pid);
          return;
        }
        i := i + 1;
      }
    }

    /** The body of the `if` in `set_dead_process`. */
    method EntryDies(i: nat, pid: nat)
      requires Valid() && i < MAX_CHILDREN_PROCESSES && EntryOf(childrenProcesses[..], pid, 0) == i
      modifies this`stray, processList, childrenProcesses
      ensures Valid() && Model() == SetDead(old(Model()), pid)
    {
      childrenProcesses[i] := childrenProcesses[i].(state := Dead);
      assert childrenProcesses[..] == old(childrenProcesses[..])[i := childrenProcesses[i]];
      var father := childrenProcesses[i].parent;
      var all := AllChildrenFinished(father);
      if all {
        DeleteChildrenOf(father);
        ChangeProcessState(father, Ready);
      }
    }

    method AddChildOf(parent: nat, child: nat)
      requires Valid()
      modifies childrenProcesses
      ensures Valid() && Model() == AddChild(old(Model()), parent, child)
    {
      var i := 0;
      while i < MAX_CHILDREN_PROCESSES
        invariant i <= MAX_CHILDREN_PROCESSES && Model() == old(Model())
        invariant FreeEntry(childrenProcesses[..], 0) == FreeEntry(childrenProcesses[..], i)
      {
        if childrenProcesses[i].state == Dead {
          childrenProcesses[i] := Child(parent, child, Ready);
          assert childrenProcesses[..] == old(childrenProcesses[..])[i := childrenProcesses[i]];
          return;
        }
        i := i + 1;
      }
    }

    method HasChildrenOf(pid: nat) returns (has: bool)
      requires Valid()
      ensures has == HasChildren(childrenProcesses[..], pid)
    {
      for i := 0 to MAX_CHILDREN_PROCESSES
        invariant forall e :: 0 <= e < i ==> childrenProcesses[e].parent != pid
      {
        if childrenProcesses[i].parent == pid {
          assert childrenProcesses[..][i].parent == pid;
          return true;
        }
      }
      return false;
    }

    // ----- creation and death -----

    /** `calculate_ticks`: repeated doubling in a 32-bit word. */
    method CalculateTicks(priority: nat) returns (ticks: nat)
      ensures ticks == Ticks(priority)
    {
      ticks := 1;
      for i := 0 to priority
        invariant ticks == Pow2(i) % WORD32
      {
        DoubleWord(Pow2(i));
        ticks := ticks * 2 % WORD32;
      }
    }

    /** `create_process`: the slot search has no bound, and `TableOk` makes it stop inside the table. */
    method CreateProcess(priority: nat, immortal: bool, stack: bool) returns (r: Result)
      requires Valid() && TableOk(Model())
      modifies this, processList
      ensures Valid() && Model() == Create(old(Model()), priority, immortal, stack)
      ensures r == CreateResult(old(Model()), stack)
      ensures var used := |Used(old(processList[..]))|;
              r == if used == 100 then LimitReached else if !stack then NoSpace else Created(old(pidValue))
    {
      UsedIsCount(processList[..]);
      SearchStopsInside(Model());
      if dim == MAX_PROCESSES {
        return LimitReached;
      }
      LiveCountBounds(processList[..]);
      var i := 0;
      while processList[i].state != Dead
        invariant i < MAX_PROCESSES && FreeSlot(processList[..], 0) == FreeSlot(processList[..], i)
        invariant FreeSlot(processList[..], 0) < MAX_PROCESSES
        decreases MAX_PROCESSES - i
      {
        i := i + 1;
      }
      if !stack {
        return NoSpace;
      }
      var ticks := CalculateTicks(priority);
      processList[i] := Slot(pidValue, priority, Ready, ticks, ticks, immortal);
      assert processList[..] == old(processList[..])[i := processList[i]];
      pidValue := (pidValue + 1) % WORD32;
      dim := dim + 1;
      return Created(processList[i].pid);
    }

    method CreateChildProcess(priority: nat, stack: bool) returns (r: Result)
      requires Valid() && TableOk(Model())
      modifies this, processList, childrenProcesses
      ensures Valid() && Model() == CreateChild(old(Model()), priority, stack)
      ensures r == CreateResult(old(Model()), stack)
      ensures var used := |Used(old(processList[..]))|;
              r == if used == 100 then LimitReached else if !stack then NoSpace else Created(old(pidValue))
    {
      r := CreateProcess(priority, false, stack);
      AddChildOf(processList[currentProcessIdx].pid, ResultWord(r));
    }

    method DestroyProcess(i: nat)
      requires Valid() && i < MAX_PROCESSES
      modifies this, processList, childrenProcesses
      ensures Valid() && Model() == Destroy(old(Model()), i)
    {
      processList[i] := processList[i].(state := Dead, remaining := 0);
      assert processList[..] == old(processList[..])[i := processList[i]];
      SetDeadProcess(processList[i].pid);
      dim := if dim > 0 then dim - 1 else 255;
    }

    // ----- the scheduler -----

    method ConsumeTick() returns (ok: bool)
      requires Valid() && dim <= MAX_PROCESSES
      modifies processList
      ensures Valid() && ok == Continues(old(Model()))
      ensures Model() == if ok then Tick(old(Model())) else old(Model())
    {
      var i := currentProcessIdx;
      ok := processList[i].remaining > 0 && processList[i].state == Ready;
      if ok {
        processList[i] := processList[i].(remaining := processList[i].remaining - 1);
        assert processList[..] == old(processList[..])[i := processList[i]];
      }
    }

    ghost predicate ScansTo(from: nat, r: Option<nat>)
      requires dim <= processList.Length
      reads this, processList
    {
      dim > 0 && Scan(processList[..], dim, (from + 1) % dim, dim) == r
    }

    /** The loop of `next_process`: at most one step for every counted process. */
    method FindReady() returns (inactive: nat)
      requires Valid() && dim <= MAX_PROCESSES
      modifies this`currentProcessIdx
      ensures Valid() && inactive <= dim
      ensures inactive == dim <==> dim == 0 || ScansTo(old(currentProcessIdx), None)
      ensures inactive < dim ==> ScansTo(old(currentProcessIdx), Some(currentProcessIdx))
    {
      var found := false;
      inactive := 0;
      while !found && inactive < dim
        invariant inactive <= dim && currentProcessIdx < MAX_PROCESSES
        invariant found ==> inactive < dim && ScansTo(old(currentProcessIdx), Some(currentProcessIdx))
        invariant !found && dim > 0 ==>
          ScansTo(old(currentProcessIdx), Scan(processList[..], dim, (currentProcessIdx + 1) % dim, dim - inactive))
        decreases !found, dim - inactive
      {
        currentProcessIdx := (currentProcessIdx + 1) % dim;
        if processList[currentProcessIdx].state == Ready {
          found := true;
        } else {
          inactive := inactive + 1;
        }
      }
    }

    /** `next_process`, apart from the saved stack pointer; the idle process must live. */
    method NextProcess()
      requires Valid() && dim <= MAX_PROCESSES && IndexOf(processList[..], idlePid, 0) < MAX_PROCESSES
      modifies this`currentProcessIdx, this`stray, processList
      ensures Valid() && Model() == SchedulerModel.NextProcess(old(Model()))
      ensures Chooses(old(Model())) ==> SwitchesRightly(old(Model()), Model())
    {
      ghost var was := Model();
      ChoiceIsRight(was);
      var inactive := FindReady();
      if inactive == dim {
        currentProcessIdx := GetProcessIdx(idlePid);
        ChangeProcessState(idlePid, Ready);
      } else if processList[currentProcessIdx].pid != idlePid {
        ChangeProcessState(idlePid, Paused);
      }
      ghost var chosen := Model();
      assert chosen == Choose(was);
      var i := currentProcessIdx;
      processList[i] := processList[i].(remaining := processList[i].quantum);
      assert processList[..] == chosen.slots[i := processList[i]];
      assert Model() == Refill(chosen);
    }

    /** The timer interrupt handler, which `force_timer_tick` also raises. */
    method TimerInterrupt()
      requires Valid() && dim <= MAX_PROCESSES && IndexOf(processList[..], idlePid, 0) < MAX_PROCESSES
      modifies this`currentProcessIdx, this`stray, processList
      ensures Valid() && Model() == Tick(old(Model()))
    {
      var ok := ConsumeTick();
      if !ok {
        NextProcess();
      }
    }

    /** `force_timer_tick`. */
    method ForceTimerTick()
      requires Valid() && dim <= MAX_PROCESSES && IndexOf(processList[..], idlePid, 0) < MAX_PROCESSES
      modifies this`currentProcessIdx, this`stray, processList
      ensures Valid() && Model() == TickIf(old(Model()), true)
    {
      TimerInterrupt();
    }

    /** `force_next_process`: the system call to yield, and the second half of blocking on a semaphore. */
    method ForceNextProcess()
      requires Valid() && TableOk(Model()) && IdleOk(Model())
      modifies this`currentProcessIdx, this`stray, processList
      ensures Valid() && Model() == Apply(old(Model()), Yield)
    {
      var i := currentProcessIdx;
      var x := processList[i].(remaining := 0);
      SlotChangeKeepsTable(Model(), i, x);
      IdleSame(Model(), Model().(slots := Model().slots[i := x]));
      processList[i] := x;
      assert processList[..] == old(processList[..])[i := x];
      LiveMakesDim(Model(), IdleSlot(Model()));
      ForceTimerTick();
    }

    // ----- system calls and key presses -----

    /** `end_process`. */
    method EndProcess()
      requires Valid() && TableOk(Model()) && IdleOk(Model())
      requires Live(processList[currentProcessIdx]) && currentProcessIdx != IdleSlot(Model())
      modifies this, processList, childrenProcesses
      ensures Valid() && Model() == Apply(old(Model()), End)
    {
      ghost var was := Model();
      DeathLeavesIdle(was, currentProcessIdx);
      DestroyProcess(currentProcessIdx);
      assert Model() == Destroy(was, was.cur);
      ForceTimerTick();
      assert Model() == TickIf(Destroy(was, was.cur), true);
    }

    /** `kill_process`: 1, -1 for an unknown pid, or -4 for an immortal process. */
    method KillProcess(pid: nat) returns (code: int)
      requires Valid() && TableOk(Model()) && IdleOk(Model())
      modifies this, processList, childrenProcesses
      ensures Valid() && Model() == Apply(old(Model()), Kill(pid))
      ensures var i := old(IndexOf(processList[..], pid, 0));
              code == if i == MAX_PROCESSES then -1 else if old(processList[..])[i].immortal then -4 else 1
    {
      var i := GetProcessIdx(pid);
      if i == NO_PROCESS_FOUND {
        return -1;
      }
      if processList[i].immortal {
        return -4;
      }
      DeathLeavesIdle(Model(), i);
      DestroyProcess(i);
      if currentProcessIdx == i {
        ForceTimerTick();
      }
      return 1;
    }

    /** `kill_all_processes`. */
    method KillAllProcesses()
      requires Valid() && TableOk(Model()) && IdleOk(Model())
      modifies this, processList, childrenProcesses
      ensures Valid() && Model() == Apply(old(Model()), KillAll)
    {
      var currentKilled := false;
      ghost var was := Model();
      var i := 0;
      while i < MAX_PROCESSES
        invariant i <= MAX_PROCESSES && Valid() && TableOk(Model()) && IdleOk(Model())
        invariant KillsLeft(was, Model(), i, currentKilled)
      {
        KillsOn(was, Model(), i, currentKilled);
        if processList[i].state != Dead && !processList[i].immortal {
          DeathLeavesIdle(Model(), i);
          DestroyProcess(i);
          if currentProcessIdx == i {
            currentKilled := true;
          }
        }
        assert KillsLeft(was, Model(), i + 1, currentKilled);
        i := i + 1;
      }
      if currentKilled {
        LiveMakesDim(Model(), IdleSlot(Model()));
        ForceTimerTick();
      }
    }

    /** `wait_for_children`. */
    method WaitForChildren()
      requires Valid() && TableOk(Model()) && IdleOk(Model()) && CurrentPid(Model()) != idlePid
      modifies this, processList
      ensures Valid() && Model() == Apply(old(Model()), WaitChildren)
    {
      var pid := processList[currentProcessIdx].pid;
      var has := HasChildrenOf(pid);
      if has {
        ChangeStateKeepsTable(Model(), pid, PausedByChild);
        ChangeStateKeepsIdle(Model(), pid, PausedByChild);
        ChangeProcessState(pid, PausedByChild);
        LiveMakesDim(Model(), IdleSlot(Model()));
        ForceTimerTick();
      }
    }

    /** `block_or_unblock`; like `change_process_state`, it does not recognise an unknown pid. */
    method BlockOrUnblock(pid: nat)
      requires Valid() && dim <= MAX_PROCESSES && LivePid(processList[..], idlePid)
      modifies this, processList
      ensures Valid() && Model() == Apply(old(Model()), Toggle(pid))
      ensures var i, was := IndexOf(old(processList[..]), pid, 0), old(processList[..]);
              i < MAX_PROCESSES && i != old(currentProcessIdx) ==>
                processList[..] == was[i := was[i].(state := if was[i].state == Block then Ready else Block)]
    {
      var i := GetProcessIdx(pid);
      if i == NO_PROCESS_FOUND {
        stray := stray + 1;
        return;
      }
      var x := Toggled(processList[i]);
      LivePidSame(processList[..], processList[..][i := x], idlePid);
      processList[i] := x;
      assert processList[..] == old(processList[..])[i := x];
      if i == currentProcessIdx {
        ForceTimerTick();
      }
    }

    /** `change_priority`, with the same test for an unknown pid. */
    method SetPriority(pid: nat, priority: nat)
      requires Valid()
      modifies this, processList
      ensures Valid() && Model() == Apply(old(Model()), Reprice(pid, priority))
      ensures var i, was := IndexOf(old(processList[..]), pid, 0), old(processList[..]);
              i < MAX_PROCESSES ==>
                && Clamped(processList[i].priority, priority) && processList[i].quantum == Pow2(processList[i].priority)
                && processList[..] == was[i := was[i].(priority := processList[i].priority,
                                                       quantum := processList[i].quantum)]
    {
      TicksOf(Clamp(priority));
      var i := GetProcessIdx(pid);
      if i == NO_PROCESS_FOUND {
        stray := stray + 1;
        return;
      }
      var p := if priority > 5 then 5 else if priority < 1 then 1 else priority;
      var ticks := CalculateTicks(p);
      processList[i] := processList[i].(priority := p, quantum := ticks);
      assert processList[..] == old(processList[..])[i := processList[i]];
    }
  }

  /** The kill of all that began at `was` has come to slot i, with the table at s. */
  ghost predicate KillsLeft(was: Sched, s: Sched, i: nat, killed: bool) {
    i <= |was.slots| && i <= |s.slots| &&
    KillFrom(was, 0).0 == KillFrom(s, i).0 && KillFrom(was, 0).1 == (KillFrom(s, i).1 || killed)
  }

  lemma KillsOn(was: Sched, s: Sched, i: nat, killed: bool)
    requires KillsLeft(was, s, i, killed) && i < |was.slots| == |s.slots|
    ensures if Live(s.slots[i]) && !s.slots[i].immortal
            then |Destroy(s, i).slots| == |s.slots| ==> KillsLeft(was, Destroy(s, i), i + 1, killed || s.cur == i)
            else KillsLeft(was, s, i + 1, killed)
  {
  }

  /** After the death of another process the idle one is there for the timer routine to fall back on. */
  lemma DeathLeavesIdle(s: Sched, i: nat)
    requires TableOk(s) && IdleOk(s) && i < |s.slots| && Live(s.slots[i]) && i != IdleSlot(s)
    ensures var t := Destroy(s, i);
            TableOk(t) && IdleOk(t) && t.dim <= MAX_PROCESSES && IdleSlot(t) < MAX_PROCESSES && t.cur == s.cur
  {
    DestroyKeepsTable(s, i);
    DestroyKeepsIdle(s, i);
    LiveMakesDim(Destroy(s, i), IdleSlot(s));
  }

  /** Doubling a truncated word and truncating again loses nothing more. */
  lemma DoubleWord(a: nat)
    ensures 2 * a % WORD32 == (a % WORD32) * 2 % WORD32
  {
    WholeWords(2 * (a / WORD32), 2 * (a % WORD32));
    assert 2 * a == 2 * (a / WORD32) * WORD32 + 2 * (a % WORD32);
  }

  lemma {:induction false} WholeWords(k: nat, r: nat)
    ensures (k * WORD32 + r) % WORD32 == r % WORD32
  {
    if k > 0 {
      WholeWords(k - 1, r);
      var x := (k - 1) * WORD32 + r;
      assert k * WORD32 + r == x + WORD32;
      assert (x + WORD32) % WORD32 == x % WORD32;
    }
  }
}
