/** What a step of the process table can bring into being, and what every run keeps because of it. */
module SchedulerHistory {
  import opened Common
  import opened ProcessStates
  import opened SchedulerModel
  import opened SchedulerTable
  import opened SchedulerMain

  // ----- steps that create nothing -----

  /** The live processes of b are processes of a, with the pid, priority, quantum and protection they had there. */
  ghost predicate OldSlots(a: seq<Slot>, b: seq<Slot>) {
    |b| == |a| && forall k: nat :: k < |b| && Live(b[k]) ==> OldSlot(a[k], b[k])
  }

  predicate OldSlot(x: Slot, y: Slot) {
    Live(x) && y.pid == x.pid && y.priority == x.priority && y.quantum == x.quantum && y.immortal == x.immortal
  }

  /** The READY entries of d are entries of c. */
  ghost predicate OldEntries(c: seq<Child>, d: seq<Child>) {
    |d| == |c| && forall e: nat :: e < |d| && d[e].state == Ready ==> OldEntry(c[e], d[e])
  }

  predicate OldEntry(x: Child, y: Child) {
    y == x
  }

  /** Nobody is created and nobody is recorded. */
  ghost predicate NothingNew(s: Sched, t: Sched) {
    OldSlots(s.slots, t.slots) && OldEntries(s.children, t.children) && t.pidValue == s.pidValue &&
      t.idlePid == s.idlePid
  }

  lemma NothingNewTrans(s: Sched, t: Sched, u: Sched)
    requires NothingNew(s, t) && NothingNew(t, u)
    ensures NothingNew(s, u)
  {
    forall k: nat | k < |u.slots| && Live(u.slots[k])
      ensures OldSlot(s.slots[k], u.slots[k])
    {
      assert OldSlot(t.slots[k], u.slots[k]) && OldSlot(s.slots[k], t.slots[k]);
    }
    forall e: nat | e < |u.children| && u.children[e].state == Ready
      ensures OldEntry(s.children[e], u.children[e])
    {
      assert OldEntry(t.children[e], u.children[e]) && OldEntry(s.children[e], t.children[e]);
    }
  }

  lemma SlotNothingNew(s: Sched, i: nat, x: Slot)
    requires i < |s.slots| && (Live(x) ==> OldSlot(s.slots[i], x))
    ensures NothingNew(s, s.(slots := s.slots[i := x]))
  {
  }

  lemma ChangeStateNothingNew(s: Sched, pid: nat, st: ProcessState)
    ensures NothingNew(s, ChangeState(s, pid, st))
  {
    var i := IndexOf(s.slots, pid, 0);
    if i < |s.slots| {
      SlotNothingNew(s, i, s.slots[i].(state := st));
    }
  }

  lemma SetDeadNothingNew(s: Sched, pid: nat)
    ensures NothingNew(s, SetDead(s, pid))
  {
    var e := EntryOf(s.children, pid, 0);
    if e < |s.children| {
      var father := s.children[e].parent;
      var marked := s.children[e := s.children[e].(state := Dead)];
      if AllFinished(marked, father) {
        var t := s.(children := DeleteChildren(marked, father));
        assert NothingNew(s, t);
        ChangeStateNothingNew(t, father, Ready);
        NothingNewTrans(s, t, ChangeState(t, father, Ready));
      }
    }
  }

  lemma DestroyNothingNew(s: Sched, i: nat)
    requires i < |s.slots|
    ensures NothingNew(s, Destroy(s, i))
  {
    var t := s.(slots := s.slots[i := s.slots[i].(state := Dead, remaining := 0)]);
    SlotNothingNew(s, i, s.slots[i].(state := Dead, remaining := 0));
    SetDeadNothingNew(t, s.slots[i].pid);
    NothingNewTrans(s, t, SetDead(t, s.slots[i].pid));
  }

  lemma ChooseNothingNew(s: Sched)
    requires Sized(s) && s.dim <= MAX_PROCESSES
    ensures NothingNew(s, Choose(s))
  {
    var found := if s.dim == 0 then None else Scan(s.slots, s.dim, (s.cur + 1) % s.dim, s.dim);
    match found
    case None =>
      var idle := IndexOf(s.slots, s.idlePid, 0);
      if idle < |s.slots| {
        ChangeStateNothingNew(s.(cur := idle), s.idlePid, Ready);
      }
    case Some(c) =>
      ChangeStateNothingNew(s.(cur := c), s.idlePid, Paused);
  }

  lemma TickNothingNew(s: Sched, c: bool)
    ensures NothingNew(s, TickIf(s, c))
  {
    if c && Sized(s) && s.dim <= MAX_PROCESSES {
      if Continues(s) {
        SlotNothingNew(s, s.cur, s.slots[s.cur].(remaining := s.slots[s.cur].remaining - 1));
      } else {
        NextProcessNothingNew(s);
      }
    }
  }

  lemma NextProcessNothingNew(s: Sched)
    requires Sized(s) && s.dim <= MAX_PROCESSES
    ensures NothingNew(s, NextProcess(s))
  {
    ChooseNothingNew(s);
    var t := Choose(s);
    if t.cur < |t.slots| {
      SlotNothingNew(t, t.cur, t.slots[t.cur].(remaining := t.slots[t.cur].quantum));
      NothingNewTrans(s, t, NextProcess(s));
    }
  }

  lemma {:induction false} KillFromNothingNew(s: Sched, i: nat)
    requires i <= |s.slots|
    ensures NothingNew(s, KillFrom(s, i).0)
    decreases |s.slots| - i
  {
    if i < |s.slots| {
      if Live(s.slots[i]) && !s.slots[i].immortal {
        var t := Destroy(s, i);
        DestroyNothingNew(s, i);
        KillFromNothingNew(t, i + 1);
        NothingNewTrans(s, t, KillFrom(t, i + 1).0);
      } else {
        KillFromNothingNew(s, i + 1);
      }
    }
  }

  /** A change of one slot or the like, then perhaps a timer interrupt. */
  lemma ThenTick(s: Sched, t: Sched, c: bool)
    requires NothingNew(s, t)
    ensures NothingNew(s, TickIf(t, c))
  {
    TickNothingNew(t, c);
    NothingNewTrans(s, t, TickIf(t, c));
  }

  lemma SemBlockNothingNew(s: Sched)
    requires Sized(s)
    ensures NothingNew(s, Apply(s, SemBlock))
  {
    var t := ChangeState(s, CurrentPid(s), PausedBySem);
    ChangeStateNothingNew(s, CurrentPid(s), PausedBySem);
    DrainedNothingNew(t);
    NothingNewTrans(s, t, Drained(t));
    ThenTick(s, Drained(t), true);
  }

  lemma DrainedNothingNew(s: Sched)
    ensures NothingNew(s, Drained(s))
  {
    if s.cur < |s.slots| {
      SlotNothingNew(s, s.cur, s.slots[s.cur].(remaining := 0));
    }
  }

  lemma ToggleNothingNew(s: Sched, pid: nat)
    requires Sized(s)
    ensures NothingNew(s, Apply(s, Toggle(pid)))
  {
    var i := IndexOf(s.slots, pid, 0);
    if i < |s.slots| {
      var x := Toggled(s.slots[i]);
      SlotNothingNew(s, i, x);
      ThenTick(s, s.(slots := s.slots[i := x]), s.cur == i);
    }
  }

  lemma KillNothingNew(s: Sched, pid: nat)
    requires Sized(s)
    ensures NothingNew(s, Apply(s, Kill(pid)))
  {
    var i := IndexOf(s.slots, pid, 0);
    if i < |s.slots| && !s.slots[i].immortal {
      DestroyNothingNew(s, i);
      ThenTick(s, Destroy(s, i), s.cur == i);
    }
  }

  lemma WaitNothingNew(s: Sched)
    requires Sized(s)
    ensures NothingNew(s, Apply(s, WaitChildren))
  {
    if HasChildren(s.children, CurrentPid(s)) {
      ChangeStateNothingNew(s, CurrentPid(s), PausedByChild);
      ThenTick(s, ChangeState(s, CurrentPid(s), PausedByChild), true);
    }
  }

  predicate IsNews(e: Event) {
    e.Spawn? || e.SpawnChild? || e.Reprice?
  }

  /** Only creations and changes of priority bring something new. */
  lemma ApplyNothingNew(s: Sched, e: Event)
    requires Sized(s) && !IsNews(e)
    ensures NothingNew(s, Apply(s, e))
  {
    match e
    case Timer => TickNothingNew(s, true);
    case Kill(pid) => KillNothingNew(s, pid);
    case KillAll =>
      KillFromNothingNew(s, 0);
      ThenTick(s, KillFrom(s, 0).0, KillFrom(s, 0).1);
    case End =>
      DestroyNothingNew(s, s.cur);
      ThenTick(s, Destroy(s, s.cur), true);
    case WaitChildren => WaitNothingNew(s);
    case SemBlock => SemBlockNothingNew(s);
    case SemWake(pid) => ChangeStateNothingNew(s, pid, Ready);
    case Toggle(pid) => ToggleNothingNew(s, pid);
    case Yield =>
      DrainedNothingNew(s);
      ThenTick(s, Drained(s), true);
  }

  /**
    A creation puts one process with the next pid and the quantum of its priority into a dead slot, or does nothing.
   */
  lemma CreateNew(s: Sched, priority: nat, immortal: bool, stack: bool, k: nat)
    requires Sized(s) && k < |s.slots|
    ensures var t := Create(s, priority, immortal, stack);
            t.children == s.children && t.idlePid == s.idlePid && |t.slots| == |s.slots| &&
            (t.slots[k] == s.slots[k] ||
             t.slots[k] == Slot(s.pidValue, priority, Ready, Ticks(priority), Ticks(priority), immortal))
  {
  }

  // ----- the states of a run -----

  ghost predicate Goes(states: seq<Sched>, events: seq<Event>, k: nat)
    requires |states| == |events| + 1 && k < |events|
  {
    Sized(states[k]) && states[k + 1] == Next(states[k], events[k])
  }

  /** The states that the events lead through from the given one on. */
  ghost predicate IsTrace(states: seq<Sched>, events: seq<Event>, start: Sched) {
    && |states| == |events| + 1 && |events| + 3 < WORD32 && states[0] == start
    && forall k: nat :: k < |events| ==> Goes(states, events, k)
  }

  /** A run from the start of the shell, state by state. */
  ghost predicate IsRun(states: seq<Sched>, events: seq<Event>) {
    IsTrace(states, events, Boot())
  }

  lemma {:induction false} TraceInv(states: seq<Sched>, events: seq<Event>, start: Sched, k: nat)
    requires IsTrace(states, events, start) && Inv(start, 2) && k <= |events|
    ensures Inv(states[k], k + 2)
  {
    if k > 0 {
      TraceInv(states, events, start, k - 1);
      assert Goes(states, events, k - 1);
      NextKeeps(states[k - 1], events[k - 1], k + 1);
    }
  }

  /** The k-th state of a run is what `Exec` makes of its first k events. */
  lemma {:induction false} TraceIsExec(states: seq<Sched>, events: seq<Event>, start: Sched, k: nat)
    requires IsTrace(states, events, start) && Inv(start, 2) && k <= |events|
    ensures ExecFrom(start, events[..k]) == states[k]
  {
    if k > 0 {
      TraceIsExec(states, events, start, k - 1);
      assert Goes(states, events, k - 1);
      assert events[..k][..k - 1] == events[..k - 1];
    }
  }

  /** Every sequence of events has its run, which ends in `Exec`. */
  lemma RunOf(events: seq<Event>) returns (states: seq<Sched>)
    requires |events| + 3 < WORD32
    ensures IsRun(states, events) && states[|events|] == Exec(events)
  {
    BootOk();
    states := TraceFrom(Boot(), events);
    TraceIsExec(states, events, Boot(), |events|);
    assert events[..|events|] == events;
  }

  lemma {:induction false} TraceFrom(start: Sched, events: seq<Event>) returns (states: seq<Sched>)
    requires |events| + 3 < WORD32 && Inv(start, 2)
    ensures IsTrace(states, events, start)
    decreases |events|
  {
    if events == [] {
      states := [start];
    } else {
      var n := |events| - 1;
      var before := TraceFrom(start, events[..n]);
      TraceInv(before, events[..n], start, n);
      states := LongerTrace(before, events, start);
    }
  }

  lemma LongerTrace(before: seq<Sched>, events: seq<Event>, start: Sched) returns (states: seq<Sched>)
    requires |events| + 3 < WORD32 && events != [] && IsTrace(before, events[..|events| - 1], start)
    requires Sized(before[|events| - 1])
    ensures IsTrace(states, events, start)
  {
    var n := |events| - 1;
    states := before + [Next(before[n], events[n])];
    forall k: nat | k < |events|
      ensures Goes(states, events, k)
    {
      assert k < n ==> Goes(before, events[..n], k);
    }
  }

  // ----- quanta and priorities -----

  /** Every live process has the quantum of its priority, and a priority from low to high. */
  ghost predicate QuantaOk(slots: seq<Slot>, low: nat, high: nat) {
    forall k: nat :: k < |slots| && Live(slots[k]) ==> QuantumOk(slots[k], low, high)
  }

  predicate QuantumOk(x: Slot, low: nat, high: nat) {
    x.quantum == Ticks(x.priority) && low <= x.priority <= high
  }

  lemma OldQuanta(a: seq<Slot>, b: seq<Slot>, low: nat, high: nat)
    requires OldSlots(a, b) && QuantaOk(a, low, high)
    ensures QuantaOk(b, low, high)
  {
    forall k: nat | k < |b| && Live(b[k])
      ensures QuantumOk(b[k], low, high)
    {
      assert OldSlot(a[k], b[k]) && QuantumOk(a[k], low, high);
    }
  }

  /** The priority asked for by a creation or a change, which is cut to 1 to 5. */
  predicate AsksFor(e: Event, low: nat, high: nat) {
    match e
    case Spawn(priority, _, _) => low <= priority <= high
    case SpawnChild(priority, _) => low <= priority <= high
    case Reprice(_, priority) => low <= Clamp(priority) <= high
    case _ => true
  }

  lemma CreateQuanta(s: Sched, priority: nat, immortal: bool, stack: bool, low: nat, high: nat)
    requires Sized(s) && QuantaOk(s.slots, low, high) && low <= priority <= high
    ensures QuantaOk(Create(s, priority, immortal, stack).slots, low, high)
  {
    var t := Create(s, priority, immortal, stack);
    forall k: nat | k < |t.slots| && Live(t.slots[k])
      ensures QuantumOk(t.slots[k], low, high)
    {
      CreateNew(s, priority, immortal, stack, k);
    }
  }

  lemma RepriceQuanta(s: Sched, pid: nat, priority: nat, low: nat, high: nat)
    requires QuantaOk(s.slots, low, high) && low <= Clamp(priority) <= high
    ensures QuantaOk(ChangePriority(s, pid, priority).slots, low, high)
  {
    var t := ChangePriority(s, pid, priority);
    forall k: nat | k < |t.slots| && Live(t.slots[k])
      ensures QuantumOk(t.slots[k], low, high)
    {
      assert t.slots[k] == s.slots[k] ==> QuantumOk(s.slots[k], low, high);
    }
  }

  lemma NextQuanta(s: Sched, e: Event, low: nat, high: nat)
    requires Sized(s) && QuantaOk(s.slots, low, high) && AsksFor(e, low, high)
    ensures QuantaOk(Next(s, e).slots, low, high)
  {
    if Allowed(s, e) {
      match e
      case Spawn(priority, immortal, stack) => CreateQuanta(s, priority, immortal, stack, low, high);
      case SpawnChild(priority, stack) => CreateQuanta(s, priority, false, stack, low, high);
      case Reprice(pid, priority) => RepriceQuanta(s, pid, priority, low, high);
      case _ =>
        ApplyNothingNew(s, e);
        OldQuanta(s.slots, Apply(s, e).slots, low, high);
    }
  }

  lemma {:induction false} QuantaFrom(start: Sched, events: seq<Event>, low: nat, high: nat)
    requires |events| + 3 < WORD32 && Inv(start, 2) && QuantaOk(start.slots, low, high)
    requires forall k: nat :: k < |events| ==> AsksFor(events[k], low, high)
    ensures QuantaOk(ExecFrom(start, events).slots, low, high)
    decreases |events|
  {
    if events != [] {
      QuantaFrom(start, events[..|events| - 1], low, high);
      NextQuanta(ExecFrom(start, events[..|events| - 1]), events[|events| - 1], low, high);
    }
  }

  /**
    In every run whose creations and changes ask for priorities from low to high, 1 included, all live processes keep to
    them, and to the quanta that go with them.
   */
  lemma QuantaAlways(events: seq<Event>, low: nat, high: nat)
    requires |events| + 3 < WORD32 && low <= 1 <= high
    requires forall k: nat :: k < |events| ==> AsksFor(events[k], low, high)
    ensures QuantaOk(Exec(events).slots, low, high)
  {
    BootOk();
    BootQuanta(low, high);
    QuantaFrom(Boot(), events, low, high);
  }

  lemma BootQuanta(low: nat, high: nat)
    requires low <= 1 <= high
    ensures QuantaOk(Boot().slots, low, high)
  {
    var none := Zeroed();
    assert QuantaOk(none.slots, low, high);
    CreateQuanta(none, 1, true, true, low, high);
    CreateQuanta(Create(none, 1, true, true), 1, true, true, low, high);
    ChangeStateNothingNew(TwoProcesses(), 1, Paused);
    OldQuanta(TwoProcesses().slots, Boot().slots, low, high);
  }
}
