/** One relation between the tables before and after a step, and that every step of every run is in it. */
module SchedulerSteps {
  import opened Common
  import opened ProcessStates
  import opened SchedulerModel
  import opened SchedulerTable
  import opened SchedulerRuns
  import opened SchedulerMain
  import opened SchedulerHistory
  import opened SchedulerSwitch
  import opened SchedulerChoice
  import opened SchedulerWaiters
  import opened SchedulerCalls

  // ----- the kill of all -----

  predicate IsMortal(slot: Slot) {
    slot.state != Dead && !slot.immortal
  }

  /** Slot k after the kill of all: the mortal are dead, and who loses all its recorded living children is READY. */
  ghost function Purged(s: Sched, k: nat): Slot
    requires k < |s.slots|
  {
    if IsMortal(s.slots[k]) then s.slots[k].(state := Dead, remaining := 0)
    else if s.slots[k].state != Dead && LosesAll(s, 0, s.slots[k].pid) then s.slots[k].(state := Ready)
    else s.slots[k]
  }

  /** Exactly the entries of the spared children stay READY. */
  ghost predicate Purge(s: Sched, u: Sched) {
    && |u.slots| == |s.slots| && |u.children| == |s.children| && u.dim == |Used(u.slots)|
    && u == s.(slots := u.slots, children := u.children, dim := u.dim, stray := u.stray)
    && (forall k: nat :: k < |s.slots| ==> u.slots[k] == Purged(s, k))
    && forall e: nat :: e < |s.children| ==> SparedEntry(s, u, e)
  }

  ghost predicate SparedEntry(s: Sched, u: Sched, e: nat)
    requires e < |s.children| == |u.children|
  {
    && (u.children[e].state == Ready <==> s.children[e].state == Ready && !Doomed(s, 0, e))
    && (u.children[e].state == Ready ==> u.children[e] == s.children[e])
  }

  lemma {:induction false} DeadThroughout(s: Sched, k: nat, i: nat)
    requires k <= |s.slots| && i < |s.slots| && !Live(s.slots[i])
    ensures |KillFrom(s, k).0.slots| == |s.slots| && KillFrom(s, k).0.slots[i] == s.slots[i]
    decreases |s.slots| - k
  {
    if k < |s.slots| {
      if Live(s.slots[k]) && !s.slots[k].immortal {
        DeadUntouched(s, k, i);
        DeadThroughout(Destroy(s, k), k + 1, i);
      } else {
        DeadThroughout(s, k + 1, i);
      }
    }
  }

  /** The others are changed in their states only. */
  lemma OtherThanState(s: Sched, k: nat, i: nat)
    requires k < |s.slots| && i < |s.slots| && k != i && Live(s.slots[i])
    ensures |Destroy(s, k).slots| == |s.slots| && Live(Destroy(s, k).slots[i])
    ensures Destroy(s, k).slots[i].(state := Dead) == s.slots[i].(state := Dead)
  {
  }

  lemma {:induction false} MortalDies(s: Sched, k: nat, i: nat)
    requires k <= i < |s.slots| && IsMortal(s.slots[i])
    ensures |KillFrom(s, k).0.slots| == |s.slots|
    ensures KillFrom(s, k).0.slots[i] == s.slots[i].(state := Dead, remaining := 0)
    decreases |s.slots| - k
  {
    if k == i {
      DyingSlot(s, i);
      DeadThroughout(Destroy(s, i), i + 1, i);
    } else if Live(s.slots[k]) && !s.slots[k].immortal {
      OtherThanState(s, k, i);
      MortalDies(Destroy(s, k), k + 1, i);
    } else {
      MortalDies(s, k + 1, i);
    }
  }

  /** An entry that is not READY does not become so. */
  lemma NotReadyAgain(s: Sched, k: nat, e: nat)
    requires k <= |s.slots| && e < |s.children| && s.children[e].state != Ready
    ensures |KillFrom(s, k).0.children| == |s.children| && KillFrom(s, k).0.children[e].state != Ready
  {
    KillFromNothingNew(s, k);
    var d := KillFrom(s, k).0.children;
    assert d[e].state == Ready ==> OldEntry(s.children[e], d[e]);
  }

  lemma OtherEntry(s: Sched, k: nat, e: nat)
    requires Dying(s, k) && e < |s.children| && s.children[e].state == Ready && s.children[e].child != s.slots[k].pid
    ensures |Destroy(s, k).children| == |s.children| && Destroy(s, k).children[e] == s.children[e]
  {
    DeathStrikes(s, k, e);
  }

  lemma OwnEntry(s: Sched, k: nat, e: nat)
    requires Dying(s, k) && e < |s.children| && s.children[e].state == Ready && s.children[e].child == s.slots[k].pid
    ensures |Destroy(s, k).children| == |s.children| && Destroy(s, k).children[e].state != Ready && Doomed(s, k, e)
  {
    DeathStrikes(s, k, e);
    OwnDoom(s, k, e);
  }

  /** A READY entry goes exactly if the kill of slots k and up kills its child. */
  lemma {:induction false} EntryFate(s: Sched, k: nat, e: nat)
    requires TableOk(s) && Family(s) && k <= |s.slots| && e < |s.children| && s.children[e].state == Ready
    ensures |KillFrom(s, k).0.children| == |s.children|
    ensures KillFrom(s, k).0.children[e].state == Ready <==> !Doomed(s, k, e)
    decreases |s.slots| - k
  {
    if k < |s.slots| {
      if Live(s.slots[k]) && !s.slots[k].immortal {
        DestroyKeepsTable(s, k);
        DestroyKeepsFamily(s, k);
        if s.children[e].child == s.slots[k].pid {
          OwnEntry(s, k, e);
          NotReadyAgain(Destroy(s, k), k + 1, e);
        } else {
          OtherEntry(s, k, e);
          DoomAfterDeath(s, k, e);
          EntryFate(Destroy(s, k), k + 1, e);
        }
      } else {
        assert Doomed(s, k, e) == Doomed(s, k + 1, e);
        EntryFate(s, k + 1, e);
      }
    }
  }

  lemma {:induction false} KillFromRest(s: Sched, k: nat)
    requires k <= |s.slots|
    ensures var u := KillFrom(s, k).0; u == s.(slots := u.slots, children := u.children, dim := u.dim, stray := u.stray)
    decreases |s.slots| - k
  {
    if k < |s.slots| {
      if Live(s.slots[k]) && !s.slots[k].immortal {
        RestOfDeath(s, k);
        KillFromRest(Destroy(s, k), k + 1);
      } else {
        KillFromRest(s, k + 1);
      }
    }
  }

  lemma RestOfDeath(s: Sched, k: nat)
    requires k < |s.slots|
    ensures var u := Destroy(s, k);
            |u.slots| == |s.slots| && u == s.(slots := u.slots, children := u.children, dim := u.dim, stray := u.stray)
  {
  }

  lemma KillAllPurges(s: Sched, pids: nat)
    requires Inv(s, pids)
    ensures Purge(s, KillFrom(s, 0).0)
  {
    var u := KillFrom(s, 0).0;
    KillFromNothingNew(s, 0);
    KillFromRest(s, 0);
    KillFromKeepsIdle(s, 0);
    UsedIsCount(u.slots);
    forall k: nat | k < |s.slots|
      ensures u.slots[k] == Purged(s, k)
    {
      if IsMortal(s.slots[k]) {
        MortalDies(s, 0, k);
      } else if Live(s.slots[k]) {
        KillFromWakes(s, 0, k);
      } else {
        DeadThroughout(s, 0, k);
      }
    }
    forall e: nat | e < |s.children|
      ensures SparedEntry(s, u, e)
    {
      if s.children[e].state == Ready {
        EntryFate(s, 0, e);
        assert u.children[e].state == Ready ==> OldEntry(s.children[e], u.children[e]);
      } else {
        NotReadyAgain(s, 0, e);
      }
    }
  }

  lemma {:induction false} CurrentKilled(s: Sched, k: nat)
    requires k <= |s.slots| && s.cur < |s.slots|
    ensures KillFrom(s, k).1 <==> k <= s.cur && IsMortal(s.slots[s.cur])
    decreases |s.slots| - k
  {
    if k < |s.slots| {
      if Live(s.slots[k]) && !s.slots[k].immortal {
        DyingSlot(s, k);
        if k != s.cur && Live(s.slots[s.cur]) {
          OtherThanState(s, k, s.cur);
        }
        CurrentKilled(Destroy(s, k), k + 1);
      } else {
        CurrentKilled(s, k + 1);
      }
    }
  }

  // ----- one relation for all steps -----

  function WithSlot(s: Sched, i: nat, x: Slot): Sched
    requires i < |s.slots|
  {
    s.(slots := s.slots[i := x])
  }

  /** x is done to the slot of the live process with the pid; if there is none, the write lands outside the table. */
  ghost predicate OnProcess(s: Sched, t: Sched, pid: nat, x: Slot -> Slot) {
    && (forall i: nat :: IsAt(s, pid, i) ==> t == WithSlot(s, i, x(s.slots[i])))
    && ((forall i: nat :: !IsAt(s, pid, i)) ==> t == s.(stray := s.stray + 1))
  }

  ghost predicate TimerMeans(s: Sched, t: Sched)
    requires s.cur < |s.slots|
  {
    var x := s.slots[s.cur];
    if x.remaining > 0 then t == WithSlot(s, s.cur, x.(remaining := x.remaining - 1)) else SwitchesRightly(s, t)
  }

  ghost predicate SpawnMeans(s: Sched, t: Sched, priority: nat, immortal: bool, stack: bool) {
    if |Used(s.slots)| < 100 && stack then exists i: nat :: Creates(s, t, priority, immortal, i) else t == s
  }

  ghost predicate SpawnChildMeans(s: Sched, t: Sched, priority: nat)
    requires s.cur < |s.slots|
  {
    && (exists i: nat :: Creates(s, t.(children := s.children), priority, false, i))
    && exists e: nat :: LowestDead(s.children, e) && t.children ==
         if e == |s.children| then s.children
         else s.children[e := Child(s.slots[s.cur].pid, s.pidValue, Ready)]
  }

  /** The current process dies, and another one is put on the processor. */
  ghost predicate EndMeans(s: Sched, t: Sched) {
    exists u: Sched :: Dies(s, u, s.cur) && SwitchesRightly(u, t)
  }

  ghost predicate KillMeans(s: Sched, t: Sched, pid: nat) {
    && (forall i: nat :: IsAt(s, pid, i) ==>
          if s.slots[i].immortal then t == s else if i == s.cur then EndMeans(s, t) else Dies(s, t, i))
    && ((forall i: nat :: !IsAt(s, pid, i)) ==> t == s)
  }

  ghost predicate KillAllMeans(s: Sched, t: Sched)
    requires s.cur < |s.slots|
  {
    exists u: Sched :: Purge(s, u) && if s.slots[s.cur].immortal then t == u else SwitchesRightly(u, t)
  }

  /** The state the current process is in when it stops, and the ticks it keeps. */
  ghost predicate StopsIn(s: Sched, t: Sched, st: ProcessState, remaining: nat)
    requires s.cur < |s.slots|
  {
    SwitchesRightly(WithSlot(s, s.cur, s.slots[s.cur].(state := st, remaining := remaining)), t)
  }

  ghost predicate ToggleMeans(s: Sched, t: Sched, pid: nat)
    requires s.cur < |s.slots|
  {
    if IsAt(s, pid, s.cur) then StopsIn(s, t, Block, s.slots[s.cur].remaining)
    else OnProcess(s, t, pid, (x: Slot) => x.(state := if x.state == Block then Ready else Block))
  }

  ghost predicate RepriceMeans(s: Sched, t: Sched, pid: nat, priority: nat) {
    exists p: nat :: Clamped(p, priority) &&
      OnProcess(s, t, pid, (x: Slot) => x.(priority := p, quantum := Pow2(p)))
  }

  /** What each call, key or interrupt means for the tables before and after it. */
  ghost predicate Means(s: Sched, e: Event, t: Sched)
    requires s.cur < |s.slots|
  {
    match e
    case Timer => TimerMeans(s, t)
    case Spawn(priority, immortal, stack) => SpawnMeans(s, t, priority, immortal, stack)
    case SpawnChild(priority, stack) => SpawnChildMeans(s, t, priority)
    case Kill(pid) => KillMeans(s, t, pid)
    case KillAll => KillAllMeans(s, t)
    case End => EndMeans(s, t)
    case WaitChildren =>
      if exists e: nat :: e < |s.children| && NamesParent(s, e, s.slots[s.cur].pid)
      then StopsIn(s, t, PausedByChild, s.slots[s.cur].remaining) else t == s
    case SemBlock => StopsIn(s, t, PausedBySem, 0)
    case SemWake(pid) => OnProcess(s, t, pid, (x: Slot) => x.(state := Ready))
    case Toggle(pid) => ToggleMeans(s, t, pid)
    case Yield => StopsIn(s, t, Ready, 0)
    case Reprice(pid, priority) => RepriceMeans(s, t, pid, priority)
  }

  /** A step on the live process with the pid. */
  lemma OneProcess(s: Sched, t: Sched, pid: nat, i: nat, x: Slot -> Slot)
    requires DistinctPids(s.slots) && IsAt(s, pid, i) && t == WithSlot(s, i, x(s.slots[i]))
    ensures OnProcess(s, t, pid, x)
  {
    forall j: nat | IsAt(s, pid, j)
      ensures j == i
    {
      IndexIs(s.slots, pid, i);
      IndexIs(s.slots, pid, j);
    }
  }

  /** Where the live process with the pid is, if there is one. */
  lemma Locate(s: Sched, pid: nat) returns (i: nat)
    ensures i == IndexOf(s.slots, pid, 0)
    ensures if i < |s.slots| then IsAt(s, pid, i) else forall j: nat :: !IsAt(s, pid, j)
  {
    i := IndexOf(s.slots, pid, 0);
    forall j: nat | i == |s.slots|
      ensures !IsAt(s, pid, j)
    {
      assert j < |s.slots| ==> !IsProcess(s.slots[j], pid);
    }
  }

  lemma WakeRight(s: Sched, pid: nat, pids: nat)
    requires Inv(s, pids) && pids + 1 < WORD32 && pid != s.idlePid
    ensures Means(s, SemWake(pid), Next(s, SemWake(pid)))
  {
    var i := Locate(s, pid);
    if i < |s.slots| {
      WakeExactly(s, pid, i, pids);
      OneProcess(s, Next(s, SemWake(pid)), pid, i, (x: Slot) => x.(state := Ready));
    } else {
      UnknownPid(s, SemWake(pid), pid, pids);
    }
  }

  lemma ToggleRight(s: Sched, pid: nat, pids: nat)
    requires Inv(s, pids) && pids + 1 < WORD32 && pid != s.idlePid
    ensures Means(s, Toggle(pid), Next(s, Toggle(pid)))
  {
    var i := Locate(s, pid);
    if i == |s.slots| {
      UnknownPid(s, Toggle(pid), pid, pids);
    } else if i == s.cur {
      ToggleOfCurrent(s, pids);
      SwitchIsRight(s, Toggle(pid), pids);
    } else {
      ToggleExactly(s, pid, i, pids);
      forall j: nat | IsAt(s, pid, j)
        ensures j == i
      {
        IndexIs(s.slots, pid, j);
      }
      OneProcess(s, Next(s, Toggle(pid)), pid, i, (x: Slot) => x.(state := if x.state == Block then Ready else Block));
    }
  }

  lemma RepriceRight(s: Sched, pid: nat, priority: nat, pids: nat)
    requires Inv(s, pids) && pids + 1 < WORD32
    ensures RepriceMeans(s, Next(s, Reprice(pid, priority)), pid, priority)
  {
    var i := Locate(s, pid);
    var p := Clamp(priority);
    assert Clamped(p, priority);
    var t := Next(s, Reprice(pid, priority));
    if i < |s.slots| {
      TicksOf(p);
      OneProcess(s, t, pid, i, (x: Slot) => x.(priority := p, quantum := Pow2(p)));
    } else {
      UnknownPid(s, Reprice(pid, priority), pid, pids);
    }
  }

  lemma EndRight(s: Sched, e: Event, pids: nat)
    requires Inv(s, pids) && Switches(s, e) && (e == End || e.Kill?)
    ensures EndMeans(s, Next(s, e))
  {
    SwitchIsRight(s, e, pids);
    DeathExactly(s, s.cur);
  }

  lemma KillRight(s: Sched, pid: nat, pids: nat)
    requires Inv(s, pids) && pids + 1 < WORD32
    ensures KillMeans(s, Next(s, Kill(pid)), pid)
  {
    var i := Locate(s, pid);
    var t := Next(s, Kill(pid));
    forall j: nat | IsAt(s, pid, j)
      ensures j == i
    {
      IndexIs(s.slots, pid, j);
    }
    if i < |s.slots| && !s.slots[i].immortal {
      if i == s.cur {
        EndRight(s, Kill(pid), pids);
      } else {
        DeathExactly(s, i);
      }
    }
  }

  lemma KillAllRight(s: Sched, pids: nat)
    requires Inv(s, pids)
    ensures KillAllMeans(s, Next(s, KillAll))
  {
    KillAllPurges(s, pids);
    CurrentKilled(s, 0);
    if !s.slots[s.cur].immortal {
      SwitchIsRight(s, KillAll, pids);
    }
  }

  lemma SpawnChildRight(s: Sched, priority: nat, stack: bool, pids: nat)
    requires Inv(s, pids) && pids + 1 < WORD32 && Allowed(s, SpawnChild(priority, stack))
    ensures SpawnChildMeans(s, Next(s, SpawnChild(priority, stack)), priority)
  {
    CreationResult(s, stack, pids);
    var i, e := ChildCreationExactly(s, priority, stack, pids);
  }

  lemma StopRight(s: Sched, e: Event, pids: nat)
    requires Inv(s, pids) && pids + 1 < WORD32 && Allowed(s, e) && (e.WaitChildren? || e.SemBlock? || e.Yield?)
    ensures Means(s, e, Next(s, e))
  {
    match e
    case WaitChildren =>
      WaitExactly(s, pids);
      if Switches(s, WaitChildren) {
        SwitchIsRight(s, e, pids);
      }
    case SemBlock =>
      BlockingExactly(s, pids);
      SwitchIsRight(s, e, pids);
    case Yield =>
      YieldExactly(s, pids);
      SwitchIsRight(s, e, pids);
  }

  lemma TimerRight(s: Sched, pids: nat)
    requires Inv(s, pids) && pids + 1 < WORD32
    ensures TimerMeans(s, Next(s, Timer))
  {
    TimerExactly(s, pids);
    if s.slots[s.cur].remaining == 0 {
      SwitchIsRight(s, Timer, pids);
    }
  }

  lemma SpawnRight(s: Sched, priority: nat, immortal: bool, stack: bool, pids: nat)
    requires Inv(s, pids) && pids + 1 < WORD32
    ensures SpawnMeans(s, Next(s, Spawn(priority, immortal, stack)), priority, immortal, stack)
  {
    var i := CreationExactly(s, priority, immortal, stack, pids);
  }

  lemma StepMeans(s: Sched, e: Event, pids: nat)
    requires Inv(s, pids) && pids + 1 < WORD32 && Allowed(s, e)
    ensures Means(s, e, Next(s, e))
  {
    match e
    case Timer => TimerRight(s, pids);
    case Spawn(priority, immortal, stack) => SpawnRight(s, priority, immortal, stack, pids);
    case SpawnChild(priority, stack) => SpawnChildRight(s, priority, stack, pids);
    case Kill(pid) => KillRight(s, pid, pids);
    case KillAll => KillAllRight(s, pids);
    case End =>
      CurrentIsNotIdle(s);
      EndRight(s, End, pids);
    case WaitChildren => StopRight(s, e, pids);
    case SemBlock => StopRight(s, e, pids);
    case SemWake(pid) => WakeRight(s, pid, pids);
    case Toggle(pid) => ToggleRight(s, pid, pids);
    case Yield => StopRight(s, e, pids);
    case Reprice(pid, priority) => RepriceRight(s, pid, priority, pids);
  }

  /** Every step of every run does to the tables what its event means, and nothing else. */
  lemma EveryStep(events: seq<Event>, e: Event)
    requires |events| + 3 < WORD32 && Allowed(Exec(events), e)
    ensures Means(Exec(events), e, Next(Exec(events), e))
  {
    StepMeans(Exec(events), e, |events| + 2);
  }
}
