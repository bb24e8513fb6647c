/** The idle process and the main results about every run of the process table. */
module SchedulerMain {
  import opened Common
  import opened ProcessStates
  import opened SchedulerModel
  import opened SchedulerTable
  import opened SchedulerRuns
  import Ring

  function IdleSlot(s: Sched): nat {
    IndexOf(s.slots, s.idlePid, 0)
  }

  /** The idle process lives, and it is READY exactly when it is the current process. */
  ghost predicate IdleOk(s: Sched) {
    var i := IdleSlot(s);
    && i < |s.slots| && s.slots[i].immortal
    && (s.slots[i].state == Ready || s.slots[i].state == Paused)
    && (s.slots[i].state == Ready <==> s.cur == i)
    && s.idlePid != 0
    && forall e: nat :: e < |s.children| ==> s.children[e].parent != s.idlePid
  }

  predicate CurrentReady(s: Sched) {
    s.cur < |s.slots| && s.slots[s.cur].state == Ready
  }

  // ----- the choice -----

  /** The slot d steps after c in the cyclic order over the first dim slots. */
  function After(dim: nat, c: nat, d: nat): (k: nat)
    requires c < dim && d <= dim
    ensures k < dim
  {
    if c + d < dim then c + d else c + d - dim
  }

  /** A scan of all slots that fails has seen every one of them not READY; one that succeeds, all before it. */
  lemma {:induction false} ScanSees(slots: seq<Slot>, dim: nat, c: nat, left: nat) returns (d: nat)
    requires c < dim <= |slots| && left <= dim
    ensures d <= left && (Scan(slots, dim, c, left).None? <==> d == left)
    ensures d < left ==> Scan(slots, dim, c, left) == Some(After(dim, c, d))
    ensures forall e: nat :: e < d ==> slots[After(dim, c, e)].state != Ready
    decreases left
  {
    if left == 0 || slots[c].state == Ready {
      d := 0;
    } else {
      Ring.WrapSmall(dim, c + 1);
      var d' := ScanSees(slots, dim, (c + 1) % dim, left - 1);
      d := d' + 1;
      forall e: nat | e < d
        ensures slots[After(dim, c, e)].state != Ready
      {
        if e > 0 {
          assert After(dim, c, e) == After(dim, (c + 1) % dim, e - 1);
        }
      }
    }
  }

  /** Every slot is reached within a full round. */
  function StepsTo(dim: nat, c: nat, k: nat): (d: nat)
    requires c < dim && k < dim
    ensures d < dim && After(dim, c, d) == k
  {
    if c <= k then k - c else k + dim - c
  }

  lemma LiveMakesDim(s: Sched, i: nat)
    requires TableOk(s) && i < |s.slots| && Live(s.slots[i])
    ensures 0 < s.dim <= MAX_PROCESSES
  {
    LiveCountBounds(s.slots);
    LiveCountUpdate(s.slots, i, s.slots[i].(state := Dead));
  }

  /** The choice restores the rule for the idle process and puts a READY process on the processor. */
  lemma ChooseEstablishes(s: Sched)
    requires TableOk(s) && IdleOk(s) && s.dim <= MAX_PROCESSES
    ensures var t := Choose(s); TableOk(t) && IdleOk(t) && CurrentReady(t)
  {
    var i := IdleSlot(s);
    LiveMakesDim(s, i);
    ChooseKeepsTable(s);
    var t := Choose(s);
    IndexIs(t.slots, t.idlePid, i);
    match Scan(s.slots, s.dim, (s.cur + 1) % s.dim, s.dim)
    case None =>
    case Some(c) =>
      if s.slots[c].pid == s.idlePid {
        IndexIs(s.slots, s.idlePid, c);
      }
  }

  /** The idle process is chosen only if no other process among the first `dim` slots is READY. */
  lemma IdleIsLastResort(s: Sched, k: nat)
    requires TableOk(s) && IdleOk(s) && s.dim <= MAX_PROCESSES
    requires Choose(s).cur == IdleSlot(s) && k < s.dim && k != IdleSlot(s)
    ensures s.slots[k].state != Ready
  {
    var i := IdleSlot(s);
    LiveMakesDim(s, i);
    var c0 := (s.cur + 1) % s.dim;
    var d := ScanSees(s.slots, s.dim, c0, s.dim);
    var e := StepsTo(s.dim, c0, k);
    if e >= d {
      assert Scan(s.slots, s.dim, c0, s.dim) == Some(i);
      assert s.cur == i;
      IdleComesLast(s.dim, i, k, d, e);
    }
  }

  /** Starting right after slot i, slot i itself is the last of the round. */
  lemma IdleComesLast(dim: nat, i: nat, k: nat, d: nat, e: nat)
    requires i < dim && k < dim && d < dim && e < dim && k != i
    requires After(dim, (i + 1) % dim, d) == i && After(dim, (i + 1) % dim, e) == k
    ensures e < d
  {
    Ring.WrapSmall(dim, i + 1);
  }

  // ----- idle through all other steps -----

  predicate SameProcess(x: Slot, y: Slot) {
    y.pid == x.pid && y.state == x.state && y.immortal == x.immortal
  }

  /** Steps that leave the idle process and the current index alone. */
  lemma IdleSame(s: Sched, t: Sched)
    requires TableOk(s) && TableOk(t) && IdleOk(s) && t.idlePid == s.idlePid && t.cur == s.cur
    requires SameProcess(s.slots[IdleSlot(s)], t.slots[IdleSlot(s)])
    requires forall e: nat :: e < |t.children| ==> t.children[e].parent != s.idlePid
    ensures IdleOk(t)
  {
    IndexIs(t.slots, t.idlePid, IdleSlot(s));
  }

  lemma ChangeStateKeepsIdle(s: Sched, pid: nat, st: ProcessState)
    requires TableOk(s) && IdleOk(s) && pid != s.idlePid && st != Dead
    ensures IdleOk(ChangeState(s, pid, st))
  {
    ChangeStateKeepsTable(s, pid, st);
    IdleSame(s, ChangeState(s, pid, st));
  }

  lemma DestroyKeepsIdle(s: Sched, i: nat)
    requires TableOk(s) && IdleOk(s) && i < |s.slots| && Live(s.slots[i]) && i != IdleSlot(s)
    ensures IdleOk(Destroy(s, i))
    ensures Destroy(s, i).cur == s.cur && Destroy(s, i).idlePid == s.idlePid
    ensures IdleSlot(Destroy(s, i)) == IdleSlot(s)
    ensures forall j: nat :: j < |s.slots| && j != i ==>
              Live(Destroy(s, i).slots[j]) == Live(s.slots[j]) && Destroy(s, i).slots[j].immortal == s.slots[j].immortal
              && (s.slots[j].state == Ready ==> Destroy(s, i).slots[j].state == Ready)
  {
    DestroyKeepsTable(s, i);
    var t := Destroy(s, i);
    IdleSame(s, t);
    IndexIs(t.slots, t.idlePid, IdleSlot(s));
  }

  lemma CreateKeepsIdle(s: Sched, priority: nat, immortal: bool, stack: bool)
    requires TableOk(s) && IdleOk(s) && s.pidValue + 1 < WORD32
    ensures IdleOk(Create(s, priority, immortal, stack))
  {
    CreateKeepsTable(s, priority, immortal, stack);
    IdleSame(s, Create(s, priority, immortal, stack));
  }

  lemma TickEstablishes(s: Sched)
    requires TableOk(s) && IdleOk(s)
    ensures TableOk(TickIf(s, true)) && IdleOk(TickIf(s, true)) && CurrentReady(TickIf(s, true))
  {
    LiveMakesDim(s, IdleSlot(s));
    TickKeepsTable(s, true);
    if Continues(s) {
      IdleSame(s, Tick(s));
    } else {
      ChooseEstablishes(s);
      IdleSame(Choose(s), Tick(s));
    }
  }

  lemma {:induction false} KillFromKeepsIdle(s: Sched, i: nat)
    requires TableOk(s) && IdleOk(s) && i <= |s.slots|
    ensures var r := KillFrom(s, i);
            && TableOk(r.0) && IdleOk(r.0)
            && r.0.pidValue == s.pidValue
            && (CurrentReady(s) && !r.1 ==> CurrentReady(r.0))
    decreases |s.slots| - i
  {
    if i < |s.slots| {
      if Live(s.slots[i]) && !s.slots[i].immortal {
        DestroyKeepsTable(s, i);
        DestroyKeepsIdle(s, i);
        KillFromKeepsIdle(Destroy(s, i), i + 1);
      } else {
        KillFromKeepsIdle(s, i + 1);
      }
    }
  }

  // ----- runs -----

  /**
    What the environment does not do: the idle process makes no system call, nobody blocks or wakes it from outside,
    and a child that could not be created is not recorded.
   */
  predicate Allowed(s: Sched, e: Event)
    requires Sized(s)
  {
    match e
    case SpawnChild(_, stack) => CurrentPid(s) != s.idlePid && CreateResult(s, stack).Created?
    case End => CurrentPid(s) != s.idlePid
    case WaitChildren => CurrentPid(s) != s.idlePid
    case SemBlock => CurrentPid(s) != s.idlePid
    case SemWake(pid) => pid != s.idlePid
    case Toggle(pid) => pid != s.idlePid
    case _ => true
  }

  function Next(s: Sched, e: Event): Sched
    requires Sized(s)
  {
    if Allowed(s, e) then Apply(s, e) else s
  }

  const EMPTY_SLOT := Slot(0, 0, Dead, 0, 0, false)

  /** The statically initialised tables. */
  function Zeroed(): Sched {
    Sched(seq(MAX_PROCESSES, _ => EMPTY_SLOT), 0, 0, 0, 1, seq(MAX_CHILDREN_PROCESSES, _ => BLANK), 0)
  }

  /** The table with the shell and the idle process, both READY. */
  function TwoProcesses(): Sched {
    Create(Create(Zeroed(), 1, true, true), 1, true, true)
  }

  /** The table when the shell starts: the shell in slot 0 with pid 0, the idle process in slot 1, paused. */
  function Boot(): Sched {
    ChangeState(TwoProcesses(), 1, Paused)
  }

  /** All invariants, with a bound on the identifiers handed out so far. */
  ghost predicate Inv(s: Sched, pids: nat) {
    TableOk(s) && Family(s) && IdleOk(s) && CurrentReady(s) && s.pidValue <= pids
  }

  /** A run from any state that satisfies the invariants. */
  ghost function ExecFrom(start: Sched, events: seq<Event>): (s: Sched)
    requires |events| + 3 < WORD32 && Inv(start, 2)
    ensures Inv(s, |events| + 2)
    decreases |events|
  {
    if events == [] then start
    else
      var before := ExecFrom(start, events[..|events| - 1]);
      NextKeeps(before, events[|events| - 1], |events| + 1);
      Next(before, events[|events| - 1])
  }

  ghost function Exec(events: seq<Event>): (s: Sched)
    requires |events| + 3 < WORD32
    ensures Inv(s, |events| + 2)
  {
    BootOk();
    ExecFrom(Boot(), events)
  }

  lemma {:induction false} NobodyLive(slots: seq<Slot>)
    requires forall i :: 0 <= i < |slots| ==> !Live(slots[i])
    ensures LiveCount(slots) == 0
  {
    if slots != [] {
      NobodyLive(slots[..|slots| - 1]);
    }
  }

  lemma TwoProcessesOk()
    ensures var two := TwoProcesses();
            && TableOk(two) && two.dim == 2 && two.pidValue == 2 && two.cur == 0 && two.idlePid == 1
            && IsProcess(two.slots[0], 0) && two.slots[0].state == Ready
            && IsProcess(two.slots[1], 1) && two.slots[1].immortal && two.slots[1].state == Ready
            && two.children == Zeroed().children
            && forall i: nat :: 1 < i < |two.slots| ==> !Live(two.slots[i])
  {
    NobodyLive(Zeroed().slots);
    CreateKeepsTable(Zeroed(), 1, true, true);
    var one := Create(Zeroed(), 1, true, true);
    CreateKeepsTable(one, 1, true, true);
  }

  lemma BootOk()
    ensures Inv(Boot(), 2)
  {
    TwoProcessesOk();
    var two := TwoProcesses();
    IndexIs(two.slots, 1, 1);
    ChangeStateKeepsTable(two, 1, Paused);
    IndexIs(Boot().slots, 1, 1);
    assert forall e: nat :: e < |Boot().children| ==> Boot().children[e] == BLANK;
  }

  lemma CurrentIsNotIdle(s: Sched)
    requires TableOk(s) && IdleOk(s) && CurrentReady(s) && CurrentPid(s) != s.idlePid
    ensures s.cur != IdleSlot(s) && IndexOf(s.slots, CurrentPid(s), 0) == s.cur
  {
    IndexIs(s.slots, CurrentPid(s), s.cur);
  }

  /** The death of a process other than the idle one. */
  lemma DeathKeeps(s: Sched, i: nat, pids: nat)
    requires Inv(s, pids) && i < |s.slots| && Live(s.slots[i]) && i != IdleSlot(s)
    ensures var t := Destroy(s, i);
            && TableOk(t) && Family(t) && IdleOk(t) && t.pidValue == s.pidValue
            && (s.cur != i ==> CurrentReady(t))
  {
    DestroyKeepsTable(s, i);
    DestroyKeepsFamily(s, i);
    DestroyKeepsIdle(s, i);
  }

  lemma KillKeeps(s: Sched, pid: nat, pids: nat)
    requires Inv(s, pids)
    ensures Inv(Apply(s, Kill(pid)), pids)
  {
    var i := IndexOf(s.slots, pid, 0);
    if i < |s.slots| && !s.slots[i].immortal {
      DeathSettles(s, i, s.cur == i, pids, Apply(s, Kill(pid)));
    }
  }

  /** A step that may end in a forced timer interrupt. */
  lemma Settle(t: Sched, c: bool, pids: nat)
    requires TableOk(t) && Family(t) && IdleOk(t) && (!c ==> CurrentReady(t)) && t.pidValue <= pids
    ensures Inv(TickIf(t, c), pids)
  {
    TickKeepsFamily(t, c);
    if c {
      TickEstablishes(t);
      TickKeepsPids(t);
    }
  }

  lemma TickKeepsPids(t: Sched)
    requires Sized(t)
    ensures TickIf(t, true).pidValue == t.pidValue
  {
  }

  lemma DeathSettles(s: Sched, i: nat, c: bool, pids: nat, u: Sched)
    requires Inv(s, pids) && i < |s.slots| && Live(s.slots[i]) && i != IdleSlot(s) && (s.cur == i ==> c)
    requires u == TickIf(Destroy(s, i), c)
    ensures Inv(u, pids)
  {
    DeathKeeps(s, i, pids);
    Settle(Destroy(s, i), c, pids);
  }

  lemma KillAllKeeps(s: Sched, pids: nat)
    requires Inv(s, pids)
    ensures Inv(Apply(s, KillAll), pids)
  {
    KillFromKeepsIdle(s, 0);
    KillFromKeepsFamily(s, 0);
    Settle(KillFrom(s, 0).0, KillFrom(s, 0).1, pids);
  }

  lemma EndKeeps(s: Sched, pids: nat)
    requires Inv(s, pids) && CurrentPid(s) != s.idlePid
    ensures Inv(Apply(s, End), pids)
  {
    CurrentIsNotIdle(s);
    DeathSettles(s, s.cur, true, pids, Apply(s, End));
  }

  lemma PauseKeeps(s: Sched, pid: nat, pids: nat)
    requires Inv(s, pids) && pid != s.idlePid && HasChildren(s.children, pid)
    ensures var t := ChangeState(s, pid, PausedByChild);
            TableOk(t) && Family(t) && IdleOk(t) && t.pidValue <= pids
  {
    ChangeStateKeepsTable(s, pid, PausedByChild);
    ChangeStateKeepsFamily(s, pid, PausedByChild);
    ChangeStateKeepsIdle(s, pid, PausedByChild);
  }

  lemma WaitChildrenKeeps(s: Sched, pids: nat)
    requires Inv(s, pids) && CurrentPid(s) != s.idlePid
    ensures Inv(Apply(s, WaitChildren), pids)
  {
    var pid := CurrentPid(s);
    if HasChildren(s.children, pid) {
      PauseSettles(s, pid, pids, Apply(s, WaitChildren));
    }
  }

  lemma PauseSettles(s: Sched, pid: nat, pids: nat, u: Sched)
    requires Inv(s, pids) && pid != s.idlePid && HasChildren(s.children, pid)
    requires u == TickIf(ChangeState(s, pid, PausedByChild), true)
    ensures Inv(u, pids)
  {
    PauseKeeps(s, pid, pids);
    Settle(ChangeState(s, pid, PausedByChild), true, pids);
  }

  /** Taking the remaining ticks away, and the timer routine after it. */
  lemma DrainedSettles(t: Sched, pids: nat, u: Sched)
    requires TableOk(t) && Family(t) && IdleOk(t) && t.pidValue <= pids && u == TickIf(Drained(t), true)
    ensures Inv(u, pids)
  {
    DrainedKeeps(t);
    Settle(Drained(t), true, pids);
  }

  lemma DrainedKeeps(t: Sched)
    requires TableOk(t) && Family(t) && IdleOk(t)
    ensures TableOk(Drained(t)) && Family(Drained(t)) && IdleOk(Drained(t))
  {
    var x := t.slots[t.cur].(remaining := 0);
    SlotChangeKeepsTable(t, t.cur, x);
    SlotChangeKeepsFamily(t, t.cur, x);
    IdleSame(t, Drained(t));
  }

  lemma SemBlockKeeps(s: Sched, pids: nat)
    requires Inv(s, pids) && CurrentPid(s) != s.idlePid
    ensures Inv(Apply(s, SemBlock), pids)
  {
    BlockedKeeps(s, pids);
    DrainedSettles(ChangeState(s, CurrentPid(s), PausedBySem), pids, Apply(s, SemBlock));
  }

  lemma BlockedKeeps(s: Sched, pids: nat)
    requires Inv(s, pids) && CurrentPid(s) != s.idlePid
    ensures var t := ChangeState(s, CurrentPid(s), PausedBySem);
            TableOk(t) && Family(t) && IdleOk(t) && t.pidValue <= pids
  {
    ChangeStateKeepsTable(s, CurrentPid(s), PausedBySem);
    ChangeStateKeepsFamily(s, CurrentPid(s), PausedBySem);
    ChangeStateKeepsIdle(s, CurrentPid(s), PausedBySem);
  }

  lemma RepriceKeeps(s: Sched, pid: nat, priority: nat, pids: nat)
    requires Inv(s, pids)
    ensures Inv(ChangePriority(s, pid, priority), pids)
  {
    var i := IndexOf(s.slots, pid, 0);
    if i < |s.slots| {
      var x := s.slots[i].(priority := Clamp(priority), quantum := Ticks(Clamp(priority)));
      SlotChangeKeepsTable(s, i, x);
      SlotChangeKeepsFamily(s, i, x);
      IdleSame(s, ChangePriority(s, pid, priority));
    }
  }

  lemma ToggleKeeps(s: Sched, pid: nat, pids: nat)
    requires Inv(s, pids) && pid != s.idlePid
    ensures Inv(Apply(s, Toggle(pid)), pids)
  {
    var i := IndexOf(s.slots, pid, 0);
    if i < |s.slots| {
      var x := Toggled(s.slots[i]);
      SlotChangeKeepsTable(s, i, x);
      SlotChangeKeepsFamily(s, i, x);
      IdleSame(s, s.(slots := s.slots[i := x]));
      Settle(s.(slots := s.slots[i := x]), s.cur == i, pids);
    }
  }

  lemma WakeKeeps(s: Sched, pid: nat, pids: nat)
    requires Inv(s, pids) && pid != s.idlePid
    ensures Inv(ChangeState(s, pid, Ready), pids)
  {
    ChangeStateKeepsTable(s, pid, Ready);
    ChangeStateKeepsFamily(s, pid, Ready);
    ChangeStateKeepsIdle(s, pid, Ready);
  }

  lemma SpawnKeeps(s: Sched, priority: nat, immortal: bool, stack: bool, pids: nat)
    requires Inv(s, pids) && pids + 1 < WORD32
    ensures Inv(Create(s, priority, immortal, stack), pids + 1)
  {
    CreateKeepsTable(s, priority, immortal, stack);
    CreateKeepsIdle(s, priority, immortal, stack);
    CreateKeepsFamily(s, priority, immortal, stack);
  }

  lemma SpawnChildKeeps(s: Sched, priority: nat, stack: bool, pids: nat)
    requires Inv(s, pids) && Allowed(s, SpawnChild(priority, stack)) && s.pidValue + 1 < WORD32
    ensures Inv(CreateChild(s, priority, stack), pids + 1)
  {
    CreateChildKeepsFamily(s, priority, stack);
    var t := Create(s, priority, false, stack);
    CreateKeepsTable(s, priority, false, stack);
    CreateKeepsIdle(s, priority, false, stack);
    CreateSparesCurrent(s, priority, stack);
    RecordKeeps(t, CurrentPid(s), ResultWord(CreateResult(s, stack)));
  }

  lemma CreateSparesCurrent(s: Sched, priority: nat, stack: bool)
    requires Sized(s) && CurrentReady(s)
    ensures var t := Create(s, priority, false, stack);
            t.cur == s.cur && |t.slots| == |s.slots| && t.slots[s.cur] == s.slots[s.cur] && t.idlePid == s.idlePid
  {
  }

  lemma RecordKeeps(t: Sched, parent: nat, child: nat)
    requires TableOk(t) && IdleOk(t) && CurrentReady(t) && parent != t.idlePid
    ensures var u := AddChild(t, parent, child);
            TableOk(u) && IdleOk(u) && CurrentReady(u) && u.pidValue == t.pidValue
  {
    IdleSame(t, AddChild(t, parent, child));
  }

  lemma NextKeeps(s: Sched, e: Event, pids: nat)
    requires Inv(s, pids) && pids + 1 < WORD32
    ensures Inv(Next(s, e), pids + 1)
  {
    if Allowed(s, e) {
      match e
      case Timer => Settle(s, true, pids);
      case Spawn(priority, immortal, stack) => SpawnKeeps(s, priority, immortal, stack, pids);
      case SpawnChild(priority, stack) => SpawnChildKeeps(s, priority, stack, pids);
      case Kill(pid) => KillKeeps(s, pid, pids);
      case KillAll => KillAllKeeps(s, pids);
      case End => EndKeeps(s, pids);
      case WaitChildren => WaitChildrenKeeps(s, pids);
      case SemBlock => SemBlockKeeps(s, pids);
      case SemWake(pid) => WakeKeeps(s, pid, pids);
      case Toggle(pid) => ToggleKeeps(s, pid, pids);
      case Yield => DrainedSettles(s, pids, Apply(s, Yield));
      case Reprice(pid, priority) => RepriceKeeps(s, pid, priority, pids);
    }
  }

  // ----- main results -----

  /**
    In every run `dim` is the number of live slots, live pids are pairwise distinct, and `create_process` finds a free
    slot inside the table exactly when its size check passes.
   */
  lemma TableAlwaysConsistent(events: seq<Event>, i: nat, j: nat)
    requires |events| + 3 < WORD32 && i < j < MAX_PROCESSES
    ensures var s := Exec(events);
            && s.dim == LiveCount(s.slots)
            && !(Live(s.slots[i]) && Live(s.slots[j]) && s.slots[i].pid == s.slots[j].pid)
            && (s.dim < MAX_PROCESSES <==> FreeSlot(s.slots, 0) < MAX_PROCESSES)
  {
    var s := Exec(events);
    assert !Clash(s.slots, i, j);
    SearchStopsInside(s);
  }

  /** In every run the process on the processor is READY, and the idle process is READY exactly when it is the one. */
  lemma CurrentAlwaysReady(events: seq<Event>)
    requires |events| + 3 < WORD32
    ensures var s := Exec(events);
            && s.slots[s.cur].state == Ready
            && IdleSlot(s) < MAX_PROCESSES
            && (s.slots[IdleSlot(s)].state == Ready <==> s.cur == IdleSlot(s))
  {
  }

  /** `next_process` falls back on the idle process only when no other scanned slot is READY. */
  lemma LastResort(s: Sched, k: nat)
    requires TableOk(s) && IdleOk(s)
    ensures s.dim <= MAX_PROCESSES
    ensures NextProcess(s).cur == IdleSlot(s) && k < s.dim && k != IdleSlot(s) ==> s.slots[k].state != Ready
  {
    LiveCountBounds(s.slots);
    if Choose(s).cur == IdleSlot(s) && k < s.dim && k != IdleSlot(s) {
      IdleIsLastResort(s, k);
    }
  }

  /** In every run an entry naming a parent other than pid 0 implies one of the same parent whose child is alive. */
  lemma NamedParentHasLiveChild(events: seq<Event>, e: nat) returns (f: nat)
    requires |events| + 3 < WORD32 && e < MAX_CHILDREN_PROCESSES && Exec(events).children[e].parent != 0
    ensures var s := Exec(events);
            && f < MAX_CHILDREN_PROCESSES && s.children[f].parent == s.children[e].parent
            && s.children[f].state == Ready && LivePid(s.slots, s.children[f].child)
  {
    var s := Exec(events);
    assert !AllFinished(s.children, s.children[e].parent);
    f :| 0 <= f < |s.children| && s.children[f].state == Ready && s.children[f].parent == s.children[e].parent;
  }

  /** In every run a process other than pid 0 that waits for its children has a recorded child that is alive. */
  lemma WaitingParentHasLiveChild(events: seq<Event>, i: nat) returns (e: nat)
    requires |events| + 3 < WORD32 && i < MAX_PROCESSES
    requires var s := Exec(events); s.slots[i].state == PausedByChild && s.slots[i].pid != 0
    ensures var s := Exec(events);
            && e < |s.children| && s.children[e].parent == s.slots[i].pid
            && LivePid(s.slots, s.children[e].child)
  {
    var s := Exec(events);
    var pid := s.slots[i].pid;
    assert !AllFinished(s.children, pid);
    e :| 0 <= e < |s.children| && s.children[e].state == Ready && s.children[e].parent == pid;
  }

  /** The death of the last recorded child makes its parent READY, whatever the parent was doing. */
  lemma LastChildWakesParent(s: Sched, i: nat, p: nat)
    requires TableOk(s) && Family(s) && i < |s.slots| && Live(s.slots[i]) && p < |s.slots| && p != i && Live(s.slots[p])
    requires EntryOf(s.children, s.slots[i].pid, 0) < |s.children|
    requires var e := EntryOf(s.children, s.slots[i].pid, 0);
             && s.children[e].parent == s.slots[p].pid
             && AllFinished(s.children[e := s.children[e].(state := Dead)], s.slots[p].pid)
    ensures Destroy(s, i).slots[p].state == Ready
    ensures !HasChildren(Destroy(s, i).children, s.slots[p].pid) || s.slots[p].pid == 0
  {
    var x := s.slots[i].(state := Dead, remaining := 0);
    DeathKeepsDistinct(s, i, x);
    IndexIs(s.slots[i := x], s.slots[p].pid, p);
  }

  /**
    The shell has pid 0, which is also the parent of every blank entry: whenever it waits while there is a blank entry
    it is paused although it has no living child.
   */
  lemma PidZeroWaitsForNobody(s: Sched, pids: nat)
    requires Inv(s, pids) && CurrentPid(s) == 0
    requires HasChildren(s.children, 0) && AllFinished(s.children, 0)
    ensures Apply(s, WaitChildren).slots[s.cur].state == PausedByChild
    ensures AllFinished(Apply(s, WaitChildren).children, 0)
  {
    CurrentIsNotIdle(s);
    var t := ChangeState(s, 0, PausedByChild);
    assert t.slots[s.cur].state == PausedByChild && !Continues(t);
    ChangeStateKeepsTable(s, 0, PausedByChild);
    ChangeStateKeepsIdle(s, 0, PausedByChild);
    LiveMakesDim(t, s.cur);
    PausedStaysPaused(t, s.cur);
  }

  /** The choice changes the state of the idle process only, and puts a READY process on the processor. */
  lemma PausedStaysPaused(s: Sched, k: nat)
    requires TableOk(s) && IdleOk(s) && s.dim <= MAX_PROCESSES && k < |s.slots| && k != IdleSlot(s)
    ensures NextProcess(s).slots[k].state == s.slots[k].state && NextProcess(s).children == s.children
  {
  }

  /** That is the state the shell starts in. */
  lemma ShellStartsAsPidZero()
    ensures Inv(Boot(), 2) && CurrentPid(Boot()) == 0
    ensures HasChildren(Boot().children, 0) && AllFinished(Boot().children, 0)
  {
    BootOk();
    assert Boot().children[0] == BLANK;
  }

  /**
    In every run `wait_for_children` pauses its caller exactly when it has a living child, if and only if the caller is
    not process 0, or process 0 has a living child, or no entry of the child table is blank.
   */
  lemma {:induction false} WaitPausesExactly(events: seq<Event>)
    requires |events| + 3 < WORD32
    ensures var s := Exec(events);
            var pid := CurrentPid(s);
            (HasChildren(s.children, pid) <==> !AllFinished(s.children, pid)) <==>
              pid != 0 || !AllFinished(s.children, 0) || forall e :: 0 <= e < |s.children| ==> s.children[e].parent != 0
  {
    var s := Exec(events);
    var pid := CurrentPid(s);
    if HasChildren(s.children, pid) && pid != 0 {
      var e :| 0 <= e < |s.children| && s.children[e].parent == pid;
      assert !AllFinished(s.children, s.children[e].parent);
    }
  }

  /**
    A failed creation is recorded as a child all the same, unless the child table is full; then the books are wrong.
   */
  lemma FailedCreationIsRecorded(s: Sched, priority: nat, stack: bool)
    requires TableOk(s) && Family(s) && s.pidValue < WORD32 - 3 && !CreateResult(s, stack).Created?
    ensures Family(CreateChild(s, priority, stack)) <==> FreeEntry(s.children, 0) == |s.children|
  {
    var e := FreeEntry(s.children, 0);
    var t := CreateChild(s, priority, stack);
    if e < |s.children| {
      assert t.children[e].state == Ready;
      assert !LivePid(t.slots, t.children[e].child);
    }
  }
}
