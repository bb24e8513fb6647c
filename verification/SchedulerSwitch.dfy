/** When an event leads to a switch, what table the switch starts from, and when it falls back on the idle process. */
module SchedulerSwitch {
  import opened Common
  import opened ProcessStates
  import opened SchedulerModel
  import opened SchedulerTable
  import opened SchedulerRuns
  import opened SchedulerMain
  import opened SchedulerHistory

  /** The event makes the timer routine choose a process. */
  predicate Switches(s: Sched, e: Event)
    requires Sized(s)
  {
    Allowed(s, e) &&
    match e
    case Timer => !Continues(s)
    case Kill(pid) => IndexOf(s.slots, pid, 0) == s.cur && !s.slots[s.cur].immortal
    case KillAll => KillFrom(s, 0).1
    case WaitChildren => HasChildren(s.children, CurrentPid(s))
    case Toggle(pid) => IndexOf(s.slots, pid, 0) == s.cur
    case End => true
    case SemBlock => true
    case Yield => true
    case _ => false
  }

  /** The table the choice of a switch starts from: the caller has blocked, died or given its ticks up. */
  function BeforeSwitch(s: Sched, e: Event): Sched
    requires Sized(s)
  {
    match e
    case Kill(pid) => Destroy(s, s.cur)
    case KillAll => KillFrom(s, 0).0
    case WaitChildren => ChangeState(s, CurrentPid(s), PausedByChild)
    case Toggle(pid) => s.(slots := s.slots[s.cur := Toggled(s.slots[s.cur])])
    case End => Destroy(s, s.cur)
    case SemBlock => Drained(ChangeState(s, CurrentPid(s), PausedBySem))
    case Yield => Drained(s)
    case _ => s
  }

  /** A table from which the timer routine makes a choice. */
  ghost predicate Chooses(u: Sched) {
    TableOk(u) && IdleOk(u) && u.dim <= MAX_PROCESSES && !Continues(u)
  }

  lemma ChoosesIfStopped(u: Sched)
    requires TableOk(u) && IdleOk(u) && !Continues(u)
    ensures Chooses(u)
  {
    LiveMakesDim(u, IdleSlot(u));
  }

  lemma DeathStops(s: Sched, pids: nat)
    requires Inv(s, pids) && s.cur != IdleSlot(s)
    ensures Chooses(Destroy(s, s.cur))
  {
    DeathKeeps(s, s.cur, pids);
    DeadStays(s, s.cur);
    ChoosesIfStopped(Destroy(s, s.cur));
  }

  lemma DeadStays(s: Sched, i: nat)
    requires i < |s.slots|
    ensures !Live(Destroy(s, i).slots[i]) && Destroy(s, i).cur == s.cur
  {
  }

  /** A kill of all that meets the current process leaves it dead. */
  lemma {:induction false} KilledIsDead(s: Sched, i: nat)
    requires i <= |s.slots| && s.cur < |s.slots|
    ensures KillFrom(s, i).0.cur == s.cur && |KillFrom(s, i).0.slots| == |s.slots|
    ensures KillFrom(s, i).1 ==> !Live(KillFrom(s, i).0.slots[s.cur])
    decreases |s.slots| - i
  {
    if i < |s.slots| {
      if Live(s.slots[i]) && !s.slots[i].immortal {
        var t := Destroy(s, i);
        DeadStays(s, i);
        KilledIsDead(t, i + 1);
        KillFromNothingNew(t, i + 1);
        assert Live(KillFrom(t, i + 1).0.slots[s.cur]) ==> OldSlot(t.slots[s.cur], KillFrom(t, i + 1).0.slots[s.cur]);
      } else {
        KilledIsDead(s, i + 1);
      }
    }
  }

  lemma KillAllStops(s: Sched, pids: nat)
    requires Inv(s, pids) && KillFrom(s, 0).1
    ensures Chooses(KillFrom(s, 0).0)
  {
    KilledIsDead(s, 0);
    KillFromKeepsIdle(s, 0);
    ChoosesIfStopped(KillFrom(s, 0).0);
  }

  lemma PauseStops(s: Sched, pids: nat)
    requires Inv(s, pids) && CurrentPid(s) != s.idlePid && HasChildren(s.children, CurrentPid(s))
    ensures Chooses(ChangeState(s, CurrentPid(s), PausedByChild))
  {
    CurrentIsNotIdle(s);
    PauseKeeps(s, CurrentPid(s), pids);
    ChoosesIfStopped(ChangeState(s, CurrentPid(s), PausedByChild));
  }

  lemma DrainedStops(t: Sched)
    requires TableOk(t) && Family(t) && IdleOk(t)
    ensures Chooses(Drained(t))
  {
    DrainedKeeps(t);
    ChoosesIfStopped(Drained(t));
  }

  lemma ToggleStops(s: Sched, pids: nat)
    requires Inv(s, pids) && CurrentPid(s) != s.idlePid
    ensures Chooses(s.(slots := s.slots[s.cur := Toggled(s.slots[s.cur])]))
  {
    var u := s.(slots := s.slots[s.cur := Toggled(s.slots[s.cur])]);
    CurrentIsNotIdle(s);
    SlotChangeKeepsTable(s, s.cur, Toggled(s.slots[s.cur]));
    IdleSame(s, u);
    ChoosesIfStopped(u);
  }

  lemma KillStops(s: Sched, pids: nat)
    requires Inv(s, pids) && !s.slots[s.cur].immortal
    ensures Chooses(Destroy(s, s.cur))
  {
    DeathStops(s, pids);
  }

  /** A switch is the choice of the timer routine from that table, whatever the event. */
  lemma SwitchIs(s: Sched, e: Event, pids: nat)
    requires Inv(s, pids) && Switches(s, e)
    ensures var u := BeforeSwitch(s, e); Chooses(u) && Next(s, e) == NextProcess(u)
  {
    match e
    case Timer => ChoosesIfStopped(s);
    case Kill(pid) => KillStops(s, pids);
    case KillAll => KillAllStops(s, pids);
    case WaitChildren => PauseStops(s, pids);
    case Toggle(pid) => ToggleStops(s, pids);
    case End =>
      CurrentIsNotIdle(s);
      DeathStops(s, pids);
    case SemBlock =>
      BlockedKeeps(s, pids);
      DrainedStops(ChangeState(s, CurrentPid(s), PausedBySem));
    case Yield => DrainedStops(s);
  }

  /** All other events leave the processor to the current process. */
  lemma OnlySwitchesMove(s: Sched, e: Event, pids: nat)
    requires Inv(s, pids) && !Switches(s, e)
    ensures Next(s, e).cur == s.cur
  {
    if e.KillAll? {
      KilledIsDead(s, 0);
    }
  }

  // ----- the idle process -----

  lemma IdleWasThere(s: Sched, t: Sched)
    requires TableOk(s) && IdleOk(s) && IdleOk(t) && NothingNew(s, t)
    ensures IdleSlot(t) == IdleSlot(s)
  {
    assert OldSlot(s.slots[IdleSlot(t)], t.slots[IdleSlot(t)]);
    IndexIs(s.slots, s.idlePid, IdleSlot(t));
  }

  lemma SameIdle(s: Sched, t: Sched)
    requires IdleSlot(s) < |s.slots| == |t.slots| && TableOk(t) && t.idlePid == s.idlePid
    requires t.slots[IdleSlot(s)].pid == s.slots[IdleSlot(s)].pid && Live(t.slots[IdleSlot(s)])
    ensures IdleSlot(t) == IdleSlot(s)
  {
    IndexIs(t.slots, t.idlePid, IdleSlot(s));
  }

  lemma IdleStaysPut(s: Sched, e: Event, pids: nat)
    requires Inv(s, pids) && pids + 1 < WORD32
    ensures IdleSlot(Next(s, e)) == IdleSlot(s)
  {
    NextKeeps(s, e, pids);
    if Allowed(s, e) {
      if IsNews(e) {
        NewsIdle(s, e);
      } else {
        ApplyNothingNew(s, e);
        IdleWasThere(s, Apply(s, e));
      }
    }
  }

  lemma NewsIdle(s: Sched, e: Event)
    requires Sized(s) && IdleSlot(s) < |s.slots| && IsNews(e) && TableOk(Apply(s, e))
    ensures IdleSlot(Apply(s, e)) == IdleSlot(s)
  {
    SameIdle(s, Apply(s, e));
  }

  /** None of the scanned slots but perhaps that of the idle process is READY. */
  ghost predicate NobodyElse(s: Sched)
    requires s.dim <= |s.slots|
  {
    forall k: nat :: k < s.dim && k != IdleSlot(s) ==> s.slots[k].state != Ready
  }

  lemma ChoiceLeavesOthers(u: Sched)
    requires TableOk(u) && IdleOk(u) && u.dim <= MAX_PROCESSES
    ensures var t := NextProcess(u);
            t.dim == u.dim && |t.slots| == |u.slots| && IdleSlot(t) == IdleSlot(u) && NobodyElse(t) == NobodyElse(u)
  {
    var t := NextProcess(u);
    TickIdle(u);
    forall k: nat | k < |u.slots| && k != IdleSlot(u)
      ensures t.slots[k].state == u.slots[k].state
    {
      PausedStaysPaused(u, k);
    }
  }

  lemma TickIdle(u: Sched)
    requires TableOk(u) && IdleOk(u) && u.dim <= MAX_PROCESSES
    ensures IdleSlot(NextProcess(u)) == IdleSlot(u)
  {
    ChooseKeepsTable(u);
    ChooseIdle(u);
    RefillIdle(Choose(u));
  }

  lemma ChooseIdle(u: Sched)
    requires IdleOk(u) && Sized(u) && u.dim <= MAX_PROCESSES && TableOk(Choose(u))
    ensures IdleSlot(Choose(u)) == IdleSlot(u) && Choose(u).idlePid == u.idlePid
  {
    SameIdle(u, Choose(u));
  }

  lemma RefillIdle(c: Sched)
    requires TableOk(c) && IdleSlot(c) < |c.slots|
    ensures IdleSlot(Refill(c)) == IdleSlot(c)
  {
    SlotChangeKeepsTable(c, c.cur, c.slots[c.cur].(remaining := c.slots[c.cur].quantum));
    SameIdle(c, Refill(c));
  }

  /** The choice falls on the idle process exactly if no other scanned slot is READY. */
  lemma ChoiceIsIdleExactly(u: Sched)
    requires TableOk(u) && IdleOk(u) && u.dim <= MAX_PROCESSES
    ensures NextProcess(u).cur == IdleSlot(u) <==> NobodyElse(u)
  {
    LiveMakesDim(u, IdleSlot(u));
    if NextProcess(u).cur == IdleSlot(u) {
      forall k: nat | k < u.dim && k != IdleSlot(u)
        ensures u.slots[k].state != Ready
      {
        LastResort(u, k);
      }
    }
  }

  /**
    After any run: an event that switches puts the idle process on the processor if and only if no other of the first
    dim slots is READY then, as does a choice made between two events; an event that does not switch puts nobody there.
   */
  lemma IdleOnlyAsLastResort(events: seq<Event>, e: Event)
    requires |events| + 3 < WORD32
    ensures Next(Exec(events), e).dim <= MAX_PROCESSES && Sized(Next(Exec(events), e))
    ensures var s, t := Exec(events), Next(Exec(events), e);
            if Switches(s, e) then t.cur == IdleSlot(t) <==> NobodyElse(t)
            else t.cur == s.cur && IdleSlot(t) == IdleSlot(s)
    ensures var s := Exec(events);
            s.dim <= MAX_PROCESSES && (NextProcess(s).cur == IdleSlot(s) <==> NobodyElse(s))
  {
    SwitchToIdle(Exec(events), e, |events| + 2);
    LiveCountBounds(Exec(events).slots);
    ChoiceIsIdleExactly(Exec(events));
  }

  lemma SwitchToIdle(s: Sched, e: Event, pids: nat)
    requires Inv(s, pids) && pids + 1 < WORD32
    ensures Next(s, e).dim <= MAX_PROCESSES && Sized(Next(s, e))
    ensures var t := Next(s, e);
            if Switches(s, e) then t.cur == IdleSlot(t) <==> NobodyElse(t)
            else t.cur == s.cur && IdleSlot(t) == IdleSlot(s)
  {
    NextKeeps(s, e, pids);
    LiveCountBounds(Next(s, e).slots);
    if Switches(s, e) {
      SwitchIs(s, e, pids);
      ChoiceIsIdleExactly(BeforeSwitch(s, e));
      ChoiceLeavesOthers(BeforeSwitch(s, e));
    } else {
      OnlySwitchesMove(s, e, pids);
      IdleStaysPut(s, e, pids);
    }
  }
}
