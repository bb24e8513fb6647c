/** What ends the wait of a process that is paused by a semaphore. */
module SchedulerWaiters {
  import opened ProcessStates
  import opened SchedulerModel
  import opened SchedulerTable
  import opened SchedulerRuns
  import opened SchedulerMain
  import opened SchedulerHistory
  import opened SchedulerStray

  predicate Waits(s: Sched, i: nat) {
    i < |s.slots| && s.slots[i].state == PausedBySem
  }

  /** The process in slot j is recorded as the last living child of pid. */
  ghost predicate LastChild(s: Sched, j: nat, pid: nat)
    requires j < |s.slots|
  {
    var e := EntryOf(s.children, s.slots[j].pid, 0);
    e < |s.children| && s.children[e].parent == pid && LastEntry(s.children, e)
  }

  /** What the death of process j does to process i. */
  lemma DeathOfOther(s: Sched, j: nat, i: nat)
    requires TableOk(s) && j < |s.slots| && Live(s.slots[j]) && i < |s.slots| && Live(s.slots[i]) && i != j
    ensures Destroy(s, j).slots[i] ==
            if LastChild(s, j, s.slots[i].pid) then s.slots[i].(state := Ready) else s.slots[i]
  {
    var x := s.slots[j].(state := Dead, remaining := 0);
    var e := EntryOf(s.children, s.slots[j].pid, 0);
    DeathKeepsDistinct(s, j, x);
    IndexIs(s.slots[j := x], s.slots[i].pid, i);
    if e < |s.children| {
      LastEntryFinishes(s.children, e);
    }
  }

  // ----- the kill of all -----

  /** Entry e records a living child of pid, which the kill of slots k and up would kill. */
  predicate Doomed(s: Sched, k: nat, e: nat)
    requires e < |s.children|
  {
    var j := IndexOf(s.slots, s.children[e].child, 0);
    k <= j < |s.slots| && !s.slots[j].immortal
  }

  predicate ChildOf(s: Sched, e: nat, pid: nat)
    requires e < |s.children|
  {
    s.children[e].state == Ready && s.children[e].parent == pid
  }

  lemma SomeChild(s: Sched, pid: nat) returns (e: nat)
    requires !AllFinished(s.children, pid)
    ensures e < |s.children| && ChildOf(s, e, pid)
  {
    e :| 0 <= e < |s.children| && s.children[e].state == Ready && s.children[e].parent == pid;
  }

  /** The process has a recorded living child, and the kill of slots k and up would kill all it has. */
  ghost predicate LosesAll(s: Sched, k: nat, pid: nat) {
    !AllFinished(s.children, pid) && forall e: nat :: e < |s.children| && ChildOf(s, e, pid) ==> Doomed(s, k, e)
  }

  /** Skipping a slot that is not killed. */
  lemma SkipKeeps(s: Sched, k: nat, pid: nat)
    requires EntriesLive(s.slots, s.children) && k < |s.slots| && (!Live(s.slots[k]) || s.slots[k].immortal)
    ensures LosesAll(s, k, pid) <==> LosesAll(s, k + 1, pid)
  {
    forall e: nat | e < |s.children| && ChildOf(s, e, pid)
      ensures Doomed(s, k, e) == Doomed(s, k + 1, e)
    {
    }
  }

  /** Another live process keeps its slot when process k dies. */
  lemma IndexSurvives(s: Sched, k: nat, pid: nat)
    requires TableOk(s) && k < |s.slots| && Live(s.slots[k]) && LivePid(s.slots, pid) && pid != s.slots[k].pid
    ensures IndexOf(Destroy(s, k).slots, pid, 0) == IndexOf(s.slots, pid, 0) != k
    ensures Destroy(s, k).slots[IndexOf(s.slots, pid, 0)].immortal == s.slots[IndexOf(s.slots, pid, 0)].immortal
  {
    DestroyKeepsTable(s, k);
    IndexIs(Destroy(s, k).slots, pid, IndexOf(s.slots, pid, 0));
  }

  ghost predicate Dying(s: Sched, k: nat) {
    TableOk(s) && Family(s) && k < |s.slots| && Live(s.slots[k]) && !s.slots[k].immortal
  }

  /** The recorded living children of pid after a death that does not leave it without any. */
  lemma EntryAfterDeath(s: Sched, k: nat, e: nat, pid: nat)
    requires Dying(s, k) && e < |s.children| && !LastChild(s, k, pid)
    ensures var t := Destroy(s, k);
            && |t.children| == |s.children|
            && (ChildOf(t, e, pid) <==> ChildOf(s, e, pid) && s.children[e].child != s.slots[k].pid)
            && (ChildOf(t, e, pid) ==> t.children[e] == s.children[e])
  {
    var e0 := EntryOf(s.children, s.slots[k].pid, 0);
    if s.children[e].state == Ready {
      if s.children[e].child == s.slots[k].pid {
        EntryIs(s.children, s.slots[k].pid, e);
      }
    }
    if e0 < |s.children| {
      LastEntryFinishes(s.children, e0);
    }
  }

  lemma DoomAfterDeath(s: Sched, k: nat, e: nat)
    requires Dying(s, k) && e < |s.children| && s.children[e].state == Ready && s.children[e].child != s.slots[k].pid
    requires e < |Destroy(s, k).children| && Destroy(s, k).children[e] == s.children[e]
    ensures Doomed(Destroy(s, k), k + 1, e) == Doomed(s, k, e)
  {
    assert LivePid(s.slots, s.children[e].child);
    IndexSurvives(s, k, s.children[e].child);
  }

  lemma OwnDoom(s: Sched, k: nat, e: nat)
    requires Dying(s, k) && e < |s.children| && s.children[e].child == s.slots[k].pid
    ensures Doomed(s, k, e)
  {
    IndexIs(s.slots, s.slots[k].pid, k);
  }

  /** Whether pid is going to lose all its children does not change with the death of one, unless it was the last. */
  lemma DeathKeepsDoom(s: Sched, k: nat, pid: nat)
    requires Dying(s, k) && !LastChild(s, k, pid)
    ensures LosesAll(Destroy(s, k), k + 1, pid) <==> LosesAll(s, k, pid)
  {
    var t := Destroy(s, k);
    forall e: nat | e < |s.children|
      ensures |t.children| == |s.children|
      ensures ChildOf(s, e, pid) && !Doomed(s, k, e) <==> ChildOf(t, e, pid) && !Doomed(t, k + 1, e)
    {
      EntryAfterDeath(s, k, e, pid);
      if ChildOf(t, e, pid) {
        DoomAfterDeath(s, k, e);
      } else if ChildOf(s, e, pid) {
        OwnDoom(s, k, e);
      }
    }
    DeathLeavesOne(s, k, pid);
  }

  lemma DeathLeavesOne(s: Sched, k: nat, pid: nat)
    requires Dying(s, k) && !LastChild(s, k, pid)
    ensures AllFinished(Destroy(s, k).children, pid) == AllFinished(s.children, pid)
  {
    var t := Destroy(s, k);
    if !AllFinished(t.children, pid) {
      DestroyNothingNew(s, k);
      var e := SomeChild(t, pid);
      EntryAfterDeath(s, k, e, pid);
    }
    if !AllFinished(s.children, pid) {
      var e := AnotherChild(s, k, pid);
      EntryAfterDeath(s, k, e, pid);
    }
  }

  lemma AnotherChild(s: Sched, k: nat, pid: nat) returns (e: nat)
    requires Dying(s, k) && !LastChild(s, k, pid) && !AllFinished(s.children, pid)
    ensures e < |s.children| && ChildOf(s, e, pid) && s.children[e].child != s.slots[k].pid
  {
    e := SomeChild(s, pid);
    if s.children[e].child == s.slots[k].pid {
      EntryIs(s.children, s.slots[k].pid, e);
      assert !LastEntry(s.children, e);
      var f: nat :| f < |s.children| && f != e && s.children[f].state == Ready && s.children[f].parent == pid;
      assert !SameChild(s.children, if e < f then e else f, if e < f then f else e);
      e := f;
    }
  }

  lemma LastIsDoomed(s: Sched, k: nat, pid: nat)
    requires Dying(s, k) && LastChild(s, k, pid)
    ensures LosesAll(s, k, pid) && AllFinished(Destroy(s, k).children, pid)
  {
    var e := EntryOf(s.children, s.slots[k].pid, 0);
    OwnDoom(s, k, e);
    LastEntryFinishes(s.children, e);
  }

  predicate Spares(s: Sched, i: nat) {
    i < |s.slots| && Live(s.slots[i]) && s.slots[i].immortal
  }

  /** What the kill of slots k and up makes of a process it spares. */
  ghost function Spared(s: Sched, k: nat, i: nat): Slot
    requires i < |s.slots|
  {
    if LosesAll(s, k, s.slots[i].pid) then s.slots[i].(state := Ready) else s.slots[i]
  }

  lemma SparedStep(s: Sched, k: nat, i: nat)
    requires Dying(s, k) && Spares(s, i)
    ensures Spares(Destroy(s, k), i) && Spared(Destroy(s, k), k + 1, i) == Spared(s, k, i)
  {
    var pid := s.slots[i].pid;
    DeathOfOther(s, k, i);
    if LastChild(s, k, pid) {
      LastIsDoomed(s, k, pid);
    } else {
      DeathKeepsDoom(s, k, pid);
    }
  }

  /** A kill of all makes a process it spares READY exactly if that process loses all its recorded living children. */
  lemma {:induction false} KillFromWakes(s: Sched, k: nat, i: nat)
    requires TableOk(s) && Family(s) && k <= |s.slots| && Spares(s, i)
    ensures |KillFrom(s, k).0.slots| == |s.slots| && KillFrom(s, k).0.slots[i] == Spared(s, k, i)
    decreases |s.slots| - k
  {
    if k == |s.slots| {
      NobodyDoomed(s, k, s.slots[i].pid);
    } else if Live(s.slots[k]) && !s.slots[k].immortal {
      SparedStep(s, k, i);
      DestroyKeepsTable(s, k);
      DestroyKeepsFamily(s, k);
      KillFromWakes(Destroy(s, k), k + 1, i);
    } else {
      SkipKeeps(s, k, s.slots[i].pid);
      KillFromWakes(s, k + 1, i);
    }
  }

  lemma NobodyDoomed(s: Sched, k: nat, pid: nat)
    requires |s.slots| <= k
    ensures !LosesAll(s, k, pid)
  {
    if !AllFinished(s.children, pid) {
      var e := SomeChild(s, pid);
      assert !Doomed(s, k, e);
    }
  }

  lemma {:induction false} KillFromKills(s: Sched, k: nat, i: nat)
    requires k <= i < |s.slots| && Live(s.slots[i]) && !s.slots[i].immortal
    ensures |KillFrom(s, k).0.slots| == |s.slots| && !Live(KillFrom(s, k).0.slots[i])
    decreases |s.slots| - k
  {
    if k == i {
      DeadForGood(Destroy(s, i), i + 1, i);
    } else if Live(s.slots[k]) && !s.slots[k].immortal {
      OthersOutlive(s, k, i);
      KillFromKills(Destroy(s, k), k + 1, i);
    } else {
      KillFromKills(s, k + 1, i);
    }
  }

  lemma OthersOutlive(s: Sched, k: nat, i: nat)
    requires k < |s.slots| && i < |s.slots| && k != i && Live(s.slots[i])
    ensures |Destroy(s, k).slots| == |s.slots| && Live(Destroy(s, k).slots[i])
    ensures Destroy(s, k).slots[i].immortal == s.slots[i].immortal
  {
  }

  lemma DeadForGood(t: Sched, k: nat, i: nat)
    requires k <= |t.slots| && i < |t.slots| && !Live(t.slots[i])
    ensures |KillFrom(t, k).0.slots| == |t.slots| && !Live(KillFrom(t, k).0.slots[i])
  {
    KillFromNothingNew(t, k);
    var u := KillFrom(t, k).0;
    assert Live(u.slots[i]) ==> OldSlot(t.slots[i], u.slots[i]);
  }

  // ----- one step -----

  /** What ends the wait: a post, a toggle, the death of the process, or that of its last recorded living child. */
  ghost predicate Disturbs(s: Sched, e: Event, i: nat)
    requires Sized(s) && i < |s.slots|
  {
    var pid := s.slots[i].pid;
    Allowed(s, e) &&
    match e
    case Kill(victim) =>
      var j := IndexOf(s.slots, victim, 0);
      j < |s.slots| && !s.slots[j].immortal && (j == i || LastChild(s, j, pid))
    case KillAll => !s.slots[i].immortal || LosesAll(s, 0, pid)
    case End => LastChild(s, s.cur, pid)
    case SemWake(posted) => posted == pid
    case Toggle(toggled) => toggled == pid
    case _ => false
  }

  /** The timer routine changes the state of no process but the idle one. */
  lemma TickWaits(u: Sched, c: bool, i: nat, v: Sched)
    requires TableOk(u) && IdleOk(u) && i < |u.slots| && (Live(u.slots[i]) ==> u.slots[i].pid != u.idlePid)
    requires v == TickIf(u, c)
    ensures Waits(v, i) <==> Waits(u, i)
  {
    if c && u.dim <= MAX_PROCESSES && !Continues(u) {
      PausedStaysPaused(u, i);
    }
  }

  /** The waiting process is neither the idle nor the current one. */
  lemma WaiterIsOther(s: Sched, i: nat, pids: nat)
    requires Inv(s, pids) && Waits(s, i)
    ensures s.slots[i].pid != s.idlePid && i != s.cur && s.slots[i].pid != CurrentPid(s)
    ensures IndexOf(s.slots, s.slots[i].pid, 0) == i
  {
    IndexIs(s.slots, s.slots[i].pid, i);
    IndexIs(s.slots, CurrentPid(s), s.cur);
  }

  lemma DeathWaits(s: Sched, j: nat, c: bool, i: nat, pids: nat, u: Sched)
    requires Inv(s, pids) && Waits(s, i) && j < |s.slots| && Live(s.slots[j]) && j != IdleSlot(s)
    requires u == TickIf(Destroy(s, j), c)
    ensures Waits(u, i) <==> i != j && !LastChild(s, j, s.slots[i].pid)
  {
    WaiterIsOther(s, i, pids);
    DeathKeeps(s, j, pids);
    if i != j {
      DeathOfOther(s, j, i);
    }
    TickWaits(Destroy(s, j), c, i, u);
  }

  lemma KillWaits(s: Sched, pid: nat, i: nat, pids: nat)
    requires Inv(s, pids) && Waits(s, i)
    ensures Waits(Apply(s, Kill(pid)), i) <==> !Disturbs(s, Kill(pid), i)
  {
    var j := IndexOf(s.slots, pid, 0);
    if j < |s.slots| && !s.slots[j].immortal {
      DeathWaits(s, j, s.cur == j, i, pids, Apply(s, Kill(pid)));
    }
  }

  lemma EndWaits(s: Sched, i: nat, pids: nat)
    requires Inv(s, pids) && Waits(s, i) && CurrentPid(s) != s.idlePid
    ensures Waits(Apply(s, End), i) <==> !LastChild(s, s.cur, s.slots[i].pid)
  {
    WaiterIsOther(s, i, pids);
    CurrentIsNotIdle(s);
    DeathWaits(s, s.cur, true, i, pids, Apply(s, End));
  }

  lemma NewsWaits(s: Sched, e: Event, i: nat)
    requires Sized(s) && IsNews(e) && Waits(s, i)
    ensures Waits(Apply(s, e), i)
  {
  }

  lemma KillAllWaits(s: Sched, i: nat, pids: nat)
    requires Inv(s, pids) && Waits(s, i)
    ensures Waits(Apply(s, KillAll), i) <==> s.slots[i].immortal && !LosesAll(s, 0, s.slots[i].pid)
  {
    WaiterIsOther(s, i, pids);
    KillFromKeepsIdle(s, 0);
    KillFromNothingNew(s, 0);
    if s.slots[i].immortal {
      KillFromWakes(s, 0, i);
    } else {
      KillFromKills(s, 0, i);
    }
    TickWaits(KillFrom(s, 0).0, KillFrom(s, 0).1, i, Apply(s, KillAll));
  }

  lemma BlockWaits(s: Sched, i: nat, pids: nat)
    requires Inv(s, pids) && Waits(s, i) && CurrentPid(s) != s.idlePid
    ensures Waits(Apply(s, SemBlock), i)
  {
    WaiterIsOther(s, i, pids);
    BlockedKeeps(s, pids);
    OtherState(s, CurrentPid(s), PausedBySem, i);
    YieldWaits(ChangeState(s, CurrentPid(s), PausedBySem), i, Apply(s, SemBlock));
  }

  lemma OtherState(s: Sched, pid: nat, st: ProcessState, i: nat)
    requires i < |s.slots| && s.slots[i].pid != pid
    ensures var t := ChangeState(s, pid, st);
            |t.slots| == |s.slots| && t.slots[i] == s.slots[i] && t.idlePid == s.idlePid
  {
  }

  lemma YieldWaits(s: Sched, i: nat, u: Sched)
    requires TableOk(s) && Family(s) && IdleOk(s) && Waits(s, i) && s.slots[i].pid != s.idlePid
    requires u == TickIf(Drained(s), true)
    ensures Waits(u, i)
  {
    DrainedKeeps(s);
    TickWaits(Drained(s), true, i, u);
  }

  lemma PauseWaits(s: Sched, i: nat, pids: nat)
    requires Inv(s, pids) && Waits(s, i) && CurrentPid(s) != s.idlePid && HasChildren(s.children, CurrentPid(s))
    ensures Waits(Apply(s, WaitChildren), i)
  {
    WaiterIsOther(s, i, pids);
    CurrentIsNotIdle(s);
    PauseKeeps(s, CurrentPid(s), pids);
    OtherState(s, CurrentPid(s), PausedByChild, i);
    TickWaits(ChangeState(s, CurrentPid(s), PausedByChild), true, i, Apply(s, WaitChildren));
  }

  lemma ToggleWaits(s: Sched, pid: nat, i: nat, pids: nat)
    requires Inv(s, pids) && Waits(s, i) && pid != s.idlePid
    ensures Waits(Apply(s, Toggle(pid)), i) <==> pid != s.slots[i].pid
  {
    WaiterIsOther(s, i, pids);
    var j := IndexOf(s.slots, pid, 0);
    if j < |s.slots| {
      var t := s.(slots := s.slots[j := Toggled(s.slots[j])]);
      SlotChangeKeepsTable(s, j, Toggled(s.slots[j]));
      IdleSame(s, t);
      TickWaits(t, s.cur == j, i, Apply(s, Toggle(pid)));
    }
  }

  lemma NextWaits(s: Sched, e: Event, i: nat, pids: nat)
    requires Inv(s, pids) && Waits(s, i)
    ensures Waits(Next(s, e), i) <==> !Disturbs(s, e, i)
  {
    WaiterIsOther(s, i, pids);
    if Allowed(s, e) {
      match e
      case Timer => TickWaits(s, true, i, Apply(s, Timer));
      case Spawn(priority, immortal, stack) => NewsWaits(s, e, i);
      case SpawnChild(priority, stack) => NewsWaits(s, e, i);
      case Kill(pid) => KillWaits(s, pid, i, pids);
      case KillAll => KillAllWaits(s, i, pids);
      case End => EndWaits(s, i, pids);
      case WaitChildren =>
        if HasChildren(s.children, CurrentPid(s)) {
          PauseWaits(s, i, pids);
        }
      case SemBlock => BlockWaits(s, i, pids);
      case SemWake(pid) =>
      case Toggle(pid) => ToggleWaits(s, pid, i, pids);
      case Yield => YieldWaits(s, i, Apply(s, Yield));
      case Reprice(pid, priority) => NewsWaits(s, e, i);
    }
  }

  /**
    In every run a step ends the wait of a process that is paused by a semaphore if and only if it posts to the process,
    toggles or kills it, or kills the last of its recorded living children.
   */
  lemma SemWaitEndsExactly(states: seq<Sched>, events: seq<Event>, k: nat, i: nat)
    requires IsRun(states, events) && k < |events| && Waits(states[k], i)
    ensures Sized(states[k]) && (Waits(states[k + 1], i) <==> !Disturbs(states[k], events[k], i))
  {
    BootOk();
    TraceInv(states, events, Boot(), k);
    assert Goes(states, events, k);
    NextWaits(states[k], events[k], i, k + 2);
  }
}
