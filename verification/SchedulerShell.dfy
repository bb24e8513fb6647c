/**
  Process 0, the shell: once it waits for children it does not have, nothing but a wake from outside ends its sleep.
 */
module SchedulerShell {
  import opened Common
  import opened ProcessStates
  import opened SchedulerModel
  import opened SchedulerTable
  import opened SchedulerMain
  import opened SchedulerHistory

  // ----- there is one process 0 -----

  /** Pid 0 can only be the protected process in slot 0, and no later one gets it. */
  ghost predicate ShellOnly(s: Sched) {
    s.pidValue > 0 && forall k: nat :: k < |s.slots| && IsProcess(s.slots[k], 0) ==> ShellSlot(s.slots, k)
  }

  predicate ShellSlot(slots: seq<Slot>, k: nat)
    requires k < |slots|
  {
    k == 0 && slots[k].immortal
  }

  lemma NothingNewKeepsShell(s: Sched, t: Sched)
    requires ShellOnly(s) && NothingNew(s, t)
    ensures ShellOnly(t)
  {
    forall k: nat | k < |t.slots| && IsProcess(t.slots[k], 0)
      ensures ShellSlot(t.slots, k)
    {
      assert OldSlot(s.slots[k], t.slots[k]) && ShellSlot(s.slots, k);
    }
  }

  lemma CreateKeepsShell(s: Sched, priority: nat, immortal: bool, stack: bool)
    requires Sized(s) && ShellOnly(s) && s.pidValue + 1 < WORD32
    ensures ShellOnly(Create(s, priority, immortal, stack))
  {
    var t := Create(s, priority, immortal, stack);
    forall k: nat | k < |t.slots| && IsProcess(t.slots[k], 0)
      ensures ShellSlot(t.slots, k)
    {
      CreateNew(s, priority, immortal, stack, k);
      assert ShellSlot(s.slots, k);
    }
  }

  lemma RepriceKeepsShell(s: Sched, pid: nat, priority: nat)
    requires ShellOnly(s)
    ensures ShellOnly(ChangePriority(s, pid, priority))
  {
    var t := ChangePriority(s, pid, priority);
    forall k: nat | k < |t.slots| && IsProcess(t.slots[k], 0)
      ensures ShellSlot(t.slots, k)
    {
      assert ShellSlot(s.slots, k);
    }
  }

  lemma NextKeepsShell(s: Sched, e: Event)
    requires Sized(s) && ShellOnly(s) && s.pidValue + 1 < WORD32
    ensures ShellOnly(Next(s, e))
  {
    if Allowed(s, e) {
      match e
      case Spawn(priority, immortal, stack) => CreateKeepsShell(s, priority, immortal, stack);
      case SpawnChild(priority, stack) => CreateKeepsShell(s, priority, false, stack);
      case Reprice(pid, priority) => RepriceKeepsShell(s, pid, priority);
      case _ =>
        ApplyNothingNew(s, e);
        NothingNewKeepsShell(s, Apply(s, e));
    }
  }

  lemma BootShell()
    ensures ShellOnly(Boot())
  {
    TwoProcessesOk();
    assert ShellOnly(TwoProcesses());
    ChangeStateNothingNew(TwoProcesses(), 1, Paused);
    NothingNewKeepsShell(TwoProcesses(), Boot());
  }

  // ----- asleep -----

  /** The shell is paused for its children, and has none that lives. */
  ghost predicate Asleep(s: Sched) {
    && Sized(s) && s.slots[0].pid == 0 && s.slots[0].state == PausedByChild && s.slots[0].immortal
    && AllFinished(s.children, 0)
  }

  lemma ChangeStateKeepsSleep(s: Sched, pid: nat, st: ProcessState)
    requires Asleep(s) && pid != 0
    ensures Asleep(ChangeState(s, pid, st))
  {
  }

  lemma SetDeadKeepsSleep(s: Sched, pid: nat)
    requires Asleep(s)
    ensures Asleep(SetDead(s, pid))
  {
    var e := EntryOf(s.children, pid, 0);
    if e < |s.children| {
      var father := s.children[e].parent;
      var marked := s.children[e := s.children[e].(state := Dead)];
      assert father != 0;
      if AllFinished(marked, father) {
        ChangeStateKeepsSleep(s.(children := DeleteChildren(marked, father)), father, Ready);
      }
    }
  }

  lemma DestroyKeepsSleep(s: Sched, i: nat)
    requires Asleep(s) && 0 < i < |s.slots|
    ensures Asleep(Destroy(s, i)) && Destroy(s, i).cur == s.cur
  {
    SetDeadKeepsSleep(s.(slots := s.slots[i := s.slots[i].(state := Dead, remaining := 0)]), s.slots[i].pid);
  }

  lemma ChooseKeepsSleep(s: Sched)
    requires Asleep(s) && s.idlePid != 0 && s.dim <= MAX_PROCESSES
    ensures Asleep(Choose(s))
  {
    var found := if s.dim == 0 then None else Scan(s.slots, s.dim, (s.cur + 1) % s.dim, s.dim);
    match found
    case None =>
      var idle := IndexOf(s.slots, s.idlePid, 0);
      if idle < |s.slots| {
        ChangeStateKeepsSleep(s.(cur := idle), s.idlePid, Ready);
      }
    case Some(c) =>
      ChangeStateKeepsSleep(s.(cur := c), s.idlePid, Paused);
  }

  lemma TickKeepsSleep(s: Sched, c: bool)
    requires Asleep(s) && s.idlePid != 0
    ensures Asleep(TickIf(s, c))
  {
    if c && s.dim <= MAX_PROCESSES && !Continues(s) {
      ChooseKeepsSleep(s);
    }
  }

  lemma {:induction false} KillFromKeepsSleep(s: Sched, i: nat)
    requires Asleep(s) && i <= |s.slots|
    ensures Asleep(KillFrom(s, i).0) && KillFrom(s, i).0.idlePid == s.idlePid
    decreases |s.slots| - i
  {
    if i < |s.slots| {
      if Live(s.slots[i]) && !s.slots[i].immortal {
        DestroyKeepsSleep(s, i);
        DestroyNothingNew(s, i);
        KillFromKeepsSleep(Destroy(s, i), i + 1);
      } else {
        KillFromKeepsSleep(s, i + 1);
      }
    }
  }

  /** Somebody else is running. */
  lemma OtherRuns(s: Sched)
    requires TableOk(s) && CurrentReady(s) && Asleep(s)
    ensures s.cur > 0 && CurrentPid(s) > 0
  {
    assert s.cur > 0 ==> !Clash(s.slots, 0, s.cur);
  }

  predicate WakesShell(e: Event) {
    e == SemWake(0) || e == Toggle(0)
  }

  lemma CreateKeepsSleep(s: Sched, priority: nat, immortal: bool, stack: bool)
    requires Asleep(s)
    ensures Asleep(Create(s, priority, immortal, stack)) && Create(s, priority, immortal, stack).cur == s.cur
  {
  }

  lemma SpawnChildKeepsSleep(s: Sched, priority: nat, stack: bool)
    requires Asleep(s) && TableOk(s) && CurrentReady(s)
    ensures Asleep(CreateChild(s, priority, stack))
  {
    OtherRuns(s);
    CreateKeepsSleep(s, priority, false, stack);
    var t := Create(s, priority, false, stack);
    assert t.slots[s.cur] == s.slots[s.cur];
  }

  lemma SemBlockKeepsSleep(s: Sched)
    requires Asleep(s) && TableOk(s) && CurrentReady(s) && s.idlePid != 0
    ensures Asleep(Apply(s, SemBlock))
  {
    OtherRuns(s);
    var t := ChangeState(s, CurrentPid(s), PausedBySem);
    ChangeStateKeepsSleep(s, CurrentPid(s), PausedBySem);
    TickKeepsSleep(Drained(t), true);
  }

  lemma ToggleKeepsSleep(s: Sched, pid: nat)
    requires Asleep(s) && pid != 0 && s.idlePid != 0
    ensures Asleep(Apply(s, Toggle(pid)))
  {
    var i := IndexOf(s.slots, pid, 0);
    if i < |s.slots| {
      var x := Toggled(s.slots[i]);
      TickKeepsSleep(s.(slots := s.slots[i := x]), s.cur == i);
    }
  }

  lemma KillKeepsSleep(s: Sched, pid: nat)
    requires Asleep(s) && s.idlePid != 0
    ensures Asleep(Apply(s, Kill(pid)))
  {
    var i := IndexOf(s.slots, pid, 0);
    if i < |s.slots| && !s.slots[i].immortal {
      DestroyKeepsSleep(s, i);
      DestroyNothingNew(s, i);
      TickKeepsSleep(Destroy(s, i), s.cur == i);
    }
  }

  lemma NextKeepsSleep(s: Sched, e: Event, pids: nat)
    requires Inv(s, pids) && Asleep(s) && !WakesShell(e)
    ensures Asleep(Next(s, e))
  {
    OtherRuns(s);
    if Allowed(s, e) {
      match e
      case Timer => TickKeepsSleep(s, true);
      case Spawn(priority, immortal, stack) => CreateKeepsSleep(s, priority, immortal, stack);
      case SpawnChild(priority, stack) => SpawnChildKeepsSleep(s, priority, stack);
      case Kill(pid) => KillKeepsSleep(s, pid);
      case KillAll =>
        KillFromKeepsSleep(s, 0);
        TickKeepsSleep(KillFrom(s, 0).0, KillFrom(s, 0).1);
      case End =>
        DestroyKeepsSleep(s, s.cur);
        DestroyNothingNew(s, s.cur);
        TickKeepsSleep(Destroy(s, s.cur), true);
      case WaitChildren =>
        if HasChildren(s.children, CurrentPid(s)) {
          ChangeStateKeepsSleep(s, CurrentPid(s), PausedByChild);
          TickKeepsSleep(ChangeState(s, CurrentPid(s), PausedByChild), true);
        }
      case SemBlock => SemBlockKeepsSleep(s);
      case SemWake(pid) => ChangeStateKeepsSleep(s, pid, Ready);
      case Toggle(pid) => ToggleKeepsSleep(s, pid);
      case Yield => TickKeepsSleep(Drained(s), true);
      case Reprice(pid, priority) =>
    }
  }

  /** The shell calls `wait_for_children` while some entry is blank and none of its children lives. */
  ghost predicate WaitsForNobody(s: Sched) {
    Sized(s) && CurrentPid(s) == 0 && HasChildren(s.children, 0) && AllFinished(s.children, 0)
  }

  lemma FallsAsleep(s: Sched, pids: nat)
    requires Inv(s, pids) && ShellOnly(s) && WaitsForNobody(s)
    ensures Asleep(Next(s, WaitChildren))
  {
    assert ShellSlot(s.slots, s.cur);
    PidZeroWaitsForNobody(s, pids);
    PauseKeeps(s, 0, pids);
    assert Sized(Apply(s, WaitChildren));
    WaitNothingNew(s);
    assert OldSlot(s.slots[0], Apply(s, WaitChildren).slots[0]);
  }

  lemma {:induction false} ShellUntil(states: seq<Sched>, events: seq<Event>, start: Sched, k: nat)
    requires IsTrace(states, events, start) && Inv(start, 2) && ShellOnly(start) && k <= |events|
    ensures ShellOnly(states[k])
  {
    if k > 0 {
      ShellUntil(states, events, start, k - 1);
      TraceInv(states, events, start, k - 1);
      assert Goes(states, events, k - 1);
      NextKeepsShell(states[k - 1], events[k - 1]);
    }
  }

  lemma SleepsNext(states: seq<Sched>, events: seq<Event>, start: Sched, k: nat)
    requires IsTrace(states, events, start) && Inv(start, 2) && k < |events|
    requires Asleep(states[k]) && !WakesShell(events[k])
    ensures Asleep(states[k + 1])
  {
    TraceInv(states, events, start, k);
    assert Goes(states, events, k);
    NextKeepsSleep(states[k], events[k], k + 2);
  }

  lemma SleepsFirst(states: seq<Sched>, events: seq<Event>, start: Sched, m: nat)
    requires IsTrace(states, events, start) && Inv(start, 2) && ShellOnly(start)
    requires m < |events| && events[m] == WaitChildren && WaitsForNobody(states[m])
    ensures Asleep(states[m + 1])
  {
    TraceInv(states, events, start, m);
    ShellUntil(states, events, start, m);
    assert Goes(states, events, m);
    FallsAsleep(states[m], m + 2);
  }

  lemma {:induction false} SleepsUntil(states: seq<Sched>, events: seq<Event>, start: Sched, m: nat, k: nat)
    requires IsTrace(states, events, start) && Inv(start, 2) && ShellOnly(start)
    requires m < k <= |events| && events[m] == WaitChildren && WaitsForNobody(states[m])
    requires forall j: nat :: m < j < k ==> !WakesShell(events[j])
    ensures Asleep(states[k])
  {
    if k == m + 1 {
      SleepsFirst(states, events, start, m);
    } else {
      SleepsUntil(states, events, start, m, k - 1);
      SleepsNext(states, events, start, k - 1);
    }
  }

  /**
    In every run: once the shell, at position m, waits although it has no living child, it stays paused, and without a
    living child, for as long as nobody wakes or toggles it from outside.
   */
  lemma ShellSleepsOn(states: seq<Sched>, events: seq<Event>, m: nat, k: nat)
    requires IsRun(states, events) && m < k <= |events| && events[m] == WaitChildren && WaitsForNobody(states[m])
    requires forall j: nat :: m < j < k ==> !WakesShell(events[j])
    ensures |states[k].slots| > 0 && states[k].slots[0].pid == 0 && states[k].slots[0].state == PausedByChild
    ensures AllFinished(states[k].children, 0)
  {
    BootOk();
    BootShell();
    SleepsUntil(states, events, Boot(), m, k);
  }
}
