/** When the wake-up of a parent writes outside the process table. */
module SchedulerStray {
  import opened Common
  import opened ProcessStates
  import opened SchedulerModel
  import opened SchedulerTable
  import opened SchedulerRuns
  import opened SchedulerMain
  import opened SchedulerHistory

  // ----- where the recorded parents come from -----

  predicate WasLive(states: seq<Sched>, k: nat, pid: nat)
    requires k < |states|
  {
    exists m: nat :: m <= k && LivePid(states[m].slots, pid)
  }

  predicate TwoProcessesNamed(c: Child) {
    c.state == Ready ==> c.parent != c.child
  }

  /** A READY entry names two processes, of which the parent was live at some time. */
  ghost predicate ParentsKnown(states: seq<Sched>, k: nat)
    requires k < |states|
  {
    forall e: nat :: e < |states[k].children| && states[k].children[e].state == Ready ==>
      TwoProcessesNamed(states[k].children[e]) && WasLive(states, k, states[k].children[e].parent)
  }

  lemma WasLiveLater(states: seq<Sched>, k: nat, pid: nat)
    requires k + 1 < |states| && WasLive(states, k, pid)
    ensures WasLive(states, k + 1, pid)
  {
    var m: nat :| m <= k && LivePid(states[m].slots, pid);
    assert m <= k + 1;
  }

  /** What a successful `create_child_process` records. */
  lemma SpawnRecords(s: Sched, priority: nat, stack: bool, e: nat)
    requires TableOk(s) && CurrentReady(s) && CreateResult(s, stack).Created? && e < |s.children|
    ensures var c := CreateChild(s, priority, stack).children[e];
            c == s.children[e] || (c.parent == CurrentPid(s) && c.child == s.pidValue && c.parent != c.child)
    ensures LivePid(s.slots, CurrentPid(s)) && |CreateChild(s, priority, stack).children| == |s.children|
  {
    IndexIs(s.slots, CurrentPid(s), s.cur);
    var t := Create(s, priority, false, stack);
    assert t.slots[s.cur] == s.slots[s.cur];
  }

  lemma NextParents(states: seq<Sched>, events: seq<Event>, start: Sched, k: nat)
    requires IsTrace(states, events, start) && Inv(start, 2) && k < |events| && ParentsKnown(states, k)
    ensures ParentsKnown(states, k + 1)
  {
    TraceInv(states, events, start, k);
    assert Goes(states, events, k);
    var s, t := states[k], states[k + 1];
    forall e: nat | e < |t.children| && t.children[e].state == Ready
      ensures TwoProcessesNamed(t.children[e]) && WasLive(states, k + 1, t.children[e].parent)
    {
      EntryBefore(s, events[k], e);
      if e < |s.children| && t.children[e] == s.children[e] {
        WasLiveLater(states, k, t.children[e].parent);
      } else {
        assert LivePid(states[k].slots, t.children[e].parent);
        WasLiveLater(states, k, t.children[e].parent);
      }
    }
  }

  /** A READY entry after a step was there before, or the current process has just made it. */
  lemma EntryBefore(s: Sched, e: Event, n: nat)
    requires TableOk(s) && CurrentReady(s) && n < |Next(s, e).children| && Next(s, e).children[n].state == Ready
    ensures var c := Next(s, e).children[n];
            n < |s.children| && (c == s.children[n] || (c.parent != c.child && LivePid(s.slots, c.parent)))
  {
    if Allowed(s, e) {
      match e
      case Spawn(priority, immortal, stack) =>
      case Reprice(pid, priority) =>
      case SpawnChild(priority, stack) =>
        assert |CreateChild(s, priority, stack).children| == |s.children|;
        SpawnRecords(s, priority, stack, n);
      case _ =>
        ApplyNothingNew(s, e);
        assert OldEntry(s.children[n], Apply(s, e).children[n]);
    }
  }

  lemma {:induction false} ParentsAlwaysKnown(states: seq<Sched>, events: seq<Event>, start: Sched, k: nat)
    requires IsTrace(states, events, start) && Inv(start, 2) && k <= |events|
    requires forall e: nat :: e < |start.children| ==> start.children[e].state != Ready
    ensures ParentsKnown(states, k)
  {
    if k > 0 {
      ParentsAlwaysKnown(states, events, start, k - 1);
      NextParents(states, events, start, k - 1);
    }
  }

  // ----- one death -----

  /** Entry e is the one READY entry of its parent. */
  predicate LastEntry(children: seq<Child>, e: nat)
    requires e < |children|
  {
    children[e].state == Ready &&
    forall f: nat :: f < |children| && f != e && children[f].state == Ready ==> children[f].parent != children[e].parent
  }

  lemma LastEntryFinishes(children: seq<Child>, e: nat)
    requires e < |children| && children[e].state == Ready
    ensures LastEntry(children, e) <==> AllFinished(children[e := children[e].(state := Dead)], children[e].parent)
  {
    var c := children[e := children[e].(state := Dead)];
    if LastEntry(children, e) {
      forall f | 0 <= f < |c|
        ensures !(c[f].state == Ready && c[f].parent == children[e].parent)
      {
      }
    } else {
      var f: nat :| f < |children| && f != e && children[f].state == Ready && children[f].parent == children[e].parent;
      assert c[f] == children[f];
    }
  }

  lemma DeathElsewhere(slots: seq<Slot>, i: nat, x: Slot, pid: nat)
    requires DistinctPids(slots) && i < |slots| && Live(slots[i]) && !Live(x) && pid != slots[i].pid
    ensures LivePid(slots[i := x], pid) <==> LivePid(slots, pid)
  {
    if LivePid(slots, pid) {
      OthersLive(slots, i, x, pid);
    }
    var j := IndexOf(slots[i := x], pid, 0);
    if j < |slots| {
      assert IsProcess(slots[j], pid);
    }
  }

  lemma EntryIs(children: seq<Child>, pid: nat, e: nat)
    requires ChildrenUnique(children) && e < |children| && LiveEntry(children[e], pid)
    ensures EntryOf(children, pid, 0) == e
  {
    var f := EntryOf(children, pid, 0);
    assert f < e ==> !SameChild(children, f, e);
  }

  /** The write of a death, in terms of the tables before it. */
  lemma DeathWrites(s: Sched, i: nat, e: nat)
    requires TableOk(s) && Family(s) && i < |s.slots| && Live(s.slots[i])
    requires e < |s.children| && LiveEntry(s.children[e], s.slots[i].pid) && TwoProcessesNamed(s.children[e])
    ensures Destroy(s, i).stray ==
            s.stray + if LastEntry(s.children, e) && !LivePid(s.slots, s.children[e].parent) then 1 else 0
  {
    var x := s.slots[i].(state := Dead, remaining := 0);
    EntryIs(s.children, s.slots[i].pid, e);
    LastEntryFinishes(s.children, e);
    DeathElsewhere(s.slots, i, x, s.children[e].parent);
  }

  /** A process with no READY entry dies without a word to anybody. */
  lemma UnrecordedDeath(s: Sched, i: nat)
    requires i < |s.slots| && EntryOf(s.children, s.slots[i].pid, 0) == |s.children|
    ensures Destroy(s, i).stray == s.stray
  {
  }

  /** `kill_all_processes` at slot j. */
  function KillOne(s: Sched, j: nat): (t: Sched)
    ensures |t.slots| == |s.slots|
  {
    if j < |s.slots| && Live(s.slots[j]) && !s.slots[j].immortal then Destroy(s, j) else s
  }

  /** The table after `kill_all_processes` has been through the first m slots. */
  function KilledUpTo(s: Sched, m: nat): (t: Sched)
    ensures |t.slots| == |s.slots|
  {
    if m == 0 then s else KillOne(KilledUpTo(s, m - 1), m - 1)
  }

  /** The kill of all, with slots j and up still to come, will end in r. */
  ghost predicate WillEnd(s: Sched, j: nat, r: Sched) {
    j <= |s.slots| && KillFrom(s, j).0 == r
  }

  lemma KillFromOne(s: Sched, j: nat, r: Sched)
    requires j < |s.slots| && WillEnd(s, j, r)
    ensures WillEnd(KillOne(s, j), j + 1, r)
  {
  }

  lemma {:induction false} KillFromIs(s: Sched, m: nat, r: Sched)
    requires m <= |s.slots| && WillEnd(s, 0, r)
    ensures WillEnd(KilledUpTo(s, m), m, r)
  {
    if m > 0 {
      KillFromIs(s, m - 1, r);
      KillFromOne(KilledUpTo(s, m - 1), m - 1, r);
    }
  }

  /** Kept up to the last slot, that is the kill of all. */
  lemma KilledUpToAll(s: Sched)
    ensures KilledUpTo(s, |s.slots|) == KillFrom(s, 0).0
  {
    KillFromIs(s, |s.slots|, KillFrom(s, 0).0);
  }

  /** What the kills leave of the invariants and of the table s. */
  ghost predicate Remains(s: Sched, t: Sched) {
    TableOk(t) && Family(t) && IdleOk(t) && NothingNew(s, t)
  }

  lemma {:induction false} KilledUpToKeeps(s: Sched, m: nat)
    requires TableOk(s) && Family(s) && IdleOk(s)
    ensures Remains(s, KilledUpTo(s, m))
  {
    if m > 0 {
      KilledUpToKeeps(s, m - 1);
      KillOneKeeps(s, KilledUpTo(s, m - 1), m - 1);
    }
  }

  lemma KillOneKeeps(s: Sched, t: Sched, j: nat)
    requires Remains(s, t)
    ensures Remains(s, KillOne(t, j))
  {
    if j < |t.slots| && Live(t.slots[j]) && !t.slots[j].immortal {
      DestroyKeepsTable(t, j);
      DestroyKeepsFamily(t, j);
      DestroyKeepsIdle(t, j);
      DestroyNothingNew(t, j);
      NothingNewTrans(s, t, Destroy(t, j));
    }
  }

  /** At table s, reached in step k of the run, pid is a process that has died. */
  predicate DiedEarlier(states: seq<Sched>, k: nat, s: Sched, pid: nat)
    requires k < |states|
  {
    WasLive(states, k, pid) && !LivePid(s.slots, pid)
  }

  /** Entry e records the process in slot i as the last living child of a parent that died before. */
  predicate Orphan(states: seq<Sched>, k: nat, s: Sched, i: nat, e: nat)
    requires k < |states| && i < |s.slots| && e < |s.children|
  {
    && s.children[e].child == s.slots[i].pid && LastEntry(s.children, e)
    && DiedEarlier(states, k, s, s.children[e].parent)
  }

  /**
    In every run the death of a process writes outside the process table, once, if and only if that process is recorded
    as the last living child of a parent that died before it. The death may come in any step, and in a kill of all
    processes after those of the first m slots (m is 0 for the other deaths).
   */
  lemma StrayWriteExactly(states: seq<Sched>, events: seq<Event>, k: nat, m: nat, s: Sched, i: nat)
    requires IsRun(states, events) && k <= |events| && s == KilledUpTo(states[k], m)
    requires i < |s.slots| && Live(s.slots[i])
    ensures Destroy(s, i).stray ==
            s.stray + if exists e: nat :: e < |s.children| && Orphan(states, k, s, i, e) then 1 else 0
  {
    BootOk();
    NobodyRecorded();
    TraceInv(states, events, Boot(), k);
    ParentsAlwaysKnown(states, events, Boot(), k);
    KilledUpToKeeps(states[k], m);
    DeathInRun(states, k, s, i);
  }

  lemma NobodyRecorded()
    ensures forall e: nat :: e < |Boot().children| ==> Boot().children[e].state != Ready
  {
    TwoProcessesOk();
  }

  lemma DeathInRun(states: seq<Sched>, k: nat, s: Sched, i: nat)
    requires k < |states| && ParentsKnown(states, k) && TableOk(s) && Family(s)
    requires OldEntries(states[k].children, s.children)
    requires i < |s.slots| && Live(s.slots[i])
    ensures Destroy(s, i).stray ==
            s.stray + if exists e: nat :: e < |s.children| && Orphan(states, k, s, i, e) then 1 else 0
  {
    var e := EntryOf(s.children, s.slots[i].pid, 0);
    if e == |s.children| {
      UnrecordedDeath(s, i);
      forall f: nat | f < |s.children|
        ensures !Orphan(states, k, s, i, f)
      {
        assert !LiveEntry(s.children[f], s.slots[i].pid);
      }
    } else {
      assert OldEntry(states[k].children[e], s.children[e]);
      DeathWrites(s, i, e);
      assert WasLive(states, k, s.children[e].parent);
      assert Orphan(states, k, s, i, e) <==> LastEntry(s.children, e) && !LivePid(s.slots, s.children[e].parent);
      forall f: nat | f < |s.children| && Orphan(states, k, s, i, f)
        ensures f == e
      {
        EntryIs(s.children, s.slots[i].pid, f);
      }
    }
  }

  // ----- runs without such a death -----

  /** Every parent of a living child lives, and nothing was written outside the table. */
  ghost predicate Inside(s: Sched) {
    s.stray == 0 && forall e: nat :: e < |s.children| && s.children[e].state == Ready ==> ParentLives(s, e)
  }

  predicate ParentLives(s: Sched, e: nat)
    requires e < |s.children|
  {
    LivePid(s.slots, s.children[e].parent)
  }

  /** The step kills no process that has a living child, and wakes, toggles and reprices live ones only. */
  ghost predicate Orderly(s: Sched, e: Event)
    requires Sized(s)
  {
    match e
    case Kill(pid) =>
      var i := IndexOf(s.slots, pid, 0);
      i < |s.slots| && !s.slots[i].immortal ==> AllFinished(s.children, pid)
    case KillAll => Childless(s, 0)
    case End => AllFinished(s.children, CurrentPid(s))
    case SemWake(pid) => LivePid(s.slots, pid)
    case Toggle(pid) => LivePid(s.slots, pid)
    case Reprice(pid, _) => LivePid(s.slots, pid)
    case _ => true
  }

  /** No process from slot i on that a kill of all would kill has a living child. */
  ghost predicate Childless(s: Sched, i: nat) {
    forall k: nat :: i <= k < |s.slots| && Live(s.slots[k]) && !s.slots[k].immortal ==>
      AllFinished(s.children, s.slots[k].pid)
  }

  /** Nobody dies. */
  ghost predicate Survive(s: Sched, t: Sched) {
    |t.slots| == |s.slots| &&
    forall k: nat :: k < |s.slots| && Live(s.slots[k]) ==> Live(t.slots[k]) && t.slots[k].pid == s.slots[k].pid
  }

  lemma LivesOn(s: Sched, t: Sched, pid: nat)
    requires Survive(s, t) && LivePid(s.slots, pid)
    ensures LivePid(t.slots, pid)
  {
    var i := IndexOf(s.slots, pid, 0);
    assert IsProcess(t.slots[i], pid);
  }

  /** Steps that record nobody and kill nobody. */
  lemma QuietStep(s: Sched, t: Sched)
    requires Inside(s) && Survive(s, t) && t.stray == s.stray && OldEntries(s.children, t.children)
    ensures Inside(t)
  {
    forall e: nat | e < |t.children| && t.children[e].state == Ready
      ensures ParentLives(t, e)
    {
      assert OldEntry(s.children[e], t.children[e]) && ParentLives(s, e);
      LivesOn(s, t, t.children[e].parent);
    }
  }

  lemma ChangeStateStaysInside(s: Sched, pid: nat, st: ProcessState)
    requires Inside(s) && LivePid(s.slots, pid) && st != Dead
    ensures Inside(ChangeState(s, pid, st)) && Survive(s, ChangeState(s, pid, st))
  {
    ChangeStateNothingNew(s, pid, st);
    QuietStep(s, ChangeState(s, pid, st));
  }

  lemma SlotStaysInside(s: Sched, i: nat, x: Slot)
    requires Inside(s) && i < |s.slots| && (Live(s.slots[i]) ==> Live(x)) && x.pid == s.slots[i].pid
    ensures Inside(s.(slots := s.slots[i := x]))
  {
    QuietStep(s, s.(slots := s.slots[i := x]));
  }

  lemma TickStaysInside(s: Sched, c: bool)
    requires Inside(s) && LivePid(s.slots, s.idlePid)
    ensures Inside(TickIf(s, c))
  {
    if c && Sized(s) && s.dim <= MAX_PROCESSES {
      if Continues(s) {
        SlotStaysInside(s, s.cur, s.slots[s.cur].(remaining := s.slots[s.cur].remaining - 1));
      } else {
        ChooseStaysInside(s);
        var t := Choose(s);
        if t.cur < |t.slots| {
          SlotStaysInside(t, t.cur, t.slots[t.cur].(remaining := t.slots[t.cur].quantum));
        }
      }
    }
  }

  lemma MovedInside(s: Sched, c: nat)
    requires Inside(s)
    ensures Inside(s.(cur := c))
  {
    QuietStep(s, s.(cur := c));
  }

  lemma ChooseStaysInside(s: Sched)
    requires Inside(s) && LivePid(s.slots, s.idlePid) && Sized(s) && s.dim <= MAX_PROCESSES
    ensures Inside(Choose(s))
  {
    var found := if s.dim == 0 then None else Scan(s.slots, s.dim, (s.cur + 1) % s.dim, s.dim);
    match found
    case None =>
      MovedInside(s, IndexOf(s.slots, s.idlePid, 0));
      ChangeStateStaysInside(s.(cur := IndexOf(s.slots, s.idlePid, 0)), s.idlePid, Ready);
    case Some(c) =>
      MovedInside(s, c);
      ChangeStateStaysInside(s.(cur := c), s.idlePid, Paused);
  }

  /** The death of a process without living children. */
  lemma DestroyStaysInside(s: Sched, i: nat)
    requires Inside(s) && TableOk(s) && Family(s) && i < |s.slots| && Live(s.slots[i])
    requires AllFinished(s.children, s.slots[i].pid)
    ensures Inside(Destroy(s, i))
  {
    var t := Destroy(s, i);
    var e := EntryOf(s.children, s.slots[i].pid, 0);
    if e == |s.children| {
      UnrecordedDeath(s, i);
    } else {
      assert ParentLives(s, e);
      DeathWrites(s, i, e);
    }
    DestroyNothingNew(s, i);
    forall f: nat | f < |t.children| && t.children[f].state == Ready
      ensures ParentLives(t, f)
    {
      assert OldEntry(s.children[f], t.children[f]) && ParentLives(s, f);
      ParentSurvives(s, i, s.children[f].parent);
    }
  }

  lemma ParentSurvives(s: Sched, i: nat, pid: nat)
    requires TableOk(s) && i < |s.slots| && Live(s.slots[i]) && pid != s.slots[i].pid && LivePid(s.slots, pid)
    ensures LivePid(Destroy(s, i).slots, pid)
  {
    var x := s.slots[i].(state := Dead, remaining := 0);
    var t := s.(slots := s.slots[i := x]);
    OthersLive(s.slots, i, x, pid);
    var u := Destroy(s, i);
    assert Survive(t, u);
    LivesOn(t, u, pid);
  }

  lemma ChildlessLater(s: Sched, i: nat)
    requires Childless(s, i) && i < |s.slots|
    ensures Childless(Destroy(s, i), i + 1)
  {
    var t := Destroy(s, i);
    DestroyNothingNew(s, i);
    forall k: nat | i + 1 <= k < |t.slots| && Live(t.slots[k]) && !t.slots[k].immortal
      ensures AllFinished(t.children, t.slots[k].pid)
    {
      assert OldSlot(s.slots[k], t.slots[k]);
      FinishedLater(s.children, t.children, s.slots[k].pid);
    }
  }

  lemma FinishedLater(c: seq<Child>, d: seq<Child>, pid: nat)
    requires OldEntries(c, d) && AllFinished(c, pid)
    ensures AllFinished(d, pid)
  {
    forall e | 0 <= e < |d|
      ensures !(d[e].state == Ready && d[e].parent == pid)
    {
      assert d[e].state == Ready ==> OldEntry(c[e], d[e]);
    }
  }

  /** What the kill of all needs from slot i on. */
  ghost predicate Killable(s: Sched, i: nat) {
    Inside(s) && TableOk(s) && Family(s) && IdleOk(s) && Childless(s, i)
  }

  lemma KillOneStaysInside(s: Sched, i: nat)
    requires Killable(s, i) && i < |s.slots| && Live(s.slots[i]) && !s.slots[i].immortal
    ensures Killable(Destroy(s, i), i + 1)
  {
    DestroyStaysInside(s, i);
    ChildlessLater(s, i);
    DestroyKeepsTable(s, i);
    DestroyKeepsFamily(s, i);
    DestroyKeepsIdle(s, i);
  }

  lemma {:induction false} KillFromStaysInside(s: Sched, i: nat)
    requires Killable(s, i) && i <= |s.slots|
    ensures Inside(KillFrom(s, i).0)
    decreases |s.slots| - i
  {
    if i < |s.slots| {
      if Live(s.slots[i]) && !s.slots[i].immortal {
        KillOneStaysInside(s, i);
        KillFromStaysInside(Destroy(s, i), i + 1);
      } else {
        KillFromStaysInside(s, i + 1);
      }
    }
  }

  lemma CurrentLives(s: Sched)
    requires TableOk(s) && CurrentReady(s)
    ensures LivePid(s.slots, CurrentPid(s))
  {
    IndexIs(s.slots, CurrentPid(s), s.cur);
  }

  lemma CreateStaysInside(s: Sched, priority: nat, immortal: bool, stack: bool)
    requires Inside(s)
    ensures Inside(Create(s, priority, immortal, stack)) && Survive(s, Create(s, priority, immortal, stack))
  {
    QuietStep(s, Create(s, priority, immortal, stack));
  }

  lemma SpawnChildStaysInside(s: Sched, priority: nat, stack: bool)
    requires Inside(s) && TableOk(s) && CurrentReady(s) && CreateResult(s, stack).Created?
    ensures Inside(CreateChild(s, priority, stack))
  {
    var t, u := Create(s, priority, false, stack), CreateChild(s, priority, stack);
    CreateStaysInside(s, priority, false, stack);
    CurrentLives(s);
    forall e: nat | e < |u.children| && u.children[e].state == Ready
      ensures ParentLives(u, e)
    {
      SpawnRecords(s, priority, stack, e);
      assert u.children[e] == s.children[e] ==> ParentLives(s, e);
      LivesOn(s, t, u.children[e].parent);
    }
  }

  lemma EndStaysInside(s: Sched, pids: nat)
    requires Inv(s, pids) && Inside(s) && Orderly(s, End) && CurrentPid(s) != s.idlePid
    ensures Inside(Apply(s, End))
  {
    CurrentIsNotIdle(s);
    DestroyStaysInside(s, s.cur);
    DestroyKeepsIdle(s, s.cur);
    TickStaysInside(Destroy(s, s.cur), true);
  }

  lemma KillStaysInside(s: Sched, pid: nat, pids: nat)
    requires Inv(s, pids) && Inside(s) && Orderly(s, Kill(pid))
    ensures Inside(Apply(s, Kill(pid)))
  {
    var i := IndexOf(s.slots, pid, 0);
    if i < |s.slots| && !s.slots[i].immortal {
      DestroyStaysInside(s, i);
      DestroyKeepsIdle(s, i);
      TickStaysInside(Destroy(s, i), s.cur == i);
    }
  }

  lemma KillAllStaysInside(s: Sched, pids: nat)
    requires Inv(s, pids) && Inside(s) && Orderly(s, KillAll)
    ensures Inside(Apply(s, KillAll))
  {
    KillFromStaysInside(s, 0);
    KillFromKeepsIdle(s, 0);
    TickStaysInside(KillFrom(s, 0).0, KillFrom(s, 0).1);
  }

  lemma SemBlockStaysInside(s: Sched, pids: nat)
    requires Inv(s, pids) && Inside(s)
    ensures Inside(Apply(s, SemBlock))
  {
    CurrentLives(s);
    ChangeStateStaysInside(s, CurrentPid(s), PausedBySem);
    var t := ChangeState(s, CurrentPid(s), PausedBySem);
    LivesOn(s, t, s.idlePid);
    YieldStaysInside(t);
  }

  lemma YieldStaysInside(s: Sched)
    requires Inside(s) && LivePid(s.slots, s.idlePid)
    ensures Inside(TickIf(Drained(s), true))
  {
    if s.cur < |s.slots| {
      SlotStaysInside(s, s.cur, s.slots[s.cur].(remaining := 0));
      LivesOn(s, Drained(s), s.idlePid);
    }
    TickStaysInside(Drained(s), true);
  }

  lemma RepriceStaysInside(s: Sched, pid: nat, priority: nat)
    requires Inside(s) && LivePid(s.slots, pid)
    ensures Inside(ChangePriority(s, pid, priority))
  {
    var i := IndexOf(s.slots, pid, 0);
    SlotStaysInside(s, i, s.slots[i].(priority := Clamp(priority), quantum := Ticks(Clamp(priority))));
  }

  lemma WaitStaysInside(s: Sched, pids: nat)
    requires Inv(s, pids) && Inside(s)
    ensures Inside(Apply(s, WaitChildren))
  {
    CurrentLives(s);
    if HasChildren(s.children, CurrentPid(s)) {
      var t := ChangeState(s, CurrentPid(s), PausedByChild);
      ChangeStateStaysInside(s, CurrentPid(s), PausedByChild);
      LivesOn(s, t, s.idlePid);
      TickStaysInside(t, true);
    }
  }

  lemma ToggleStaysInside(s: Sched, pid: nat, pids: nat)
    requires Inv(s, pids) && Inside(s) && LivePid(s.slots, pid)
    ensures Inside(Apply(s, Toggle(pid)))
  {
    var i := IndexOf(s.slots, pid, 0);
    var x := Toggled(s.slots[i]);
    var t := s.(slots := s.slots[i := x]);
    SlotStaysInside(s, i, x);
    LivesOn(s, t, s.idlePid);
    TickStaysInside(t, s.cur == i);
  }

  lemma NextStaysInside(s: Sched, e: Event, pids: nat)
    requires Inv(s, pids) && Inside(s) && Orderly(s, e)
    ensures Inside(Next(s, e))
  {
    if Allowed(s, e) {
      match e
      case Timer => TickStaysInside(s, true);
      case Spawn(priority, immortal, stack) => CreateStaysInside(s, priority, immortal, stack);
      case SpawnChild(priority, stack) => SpawnChildStaysInside(s, priority, stack);
      case Kill(pid) => KillStaysInside(s, pid, pids);
      case KillAll => KillAllStaysInside(s, pids);
      case End => EndStaysInside(s, pids);
      case WaitChildren => WaitStaysInside(s, pids);
      case SemBlock => SemBlockStaysInside(s, pids);
      case SemWake(pid) => ChangeStateStaysInside(s, pid, Ready);
      case Toggle(pid) => ToggleStaysInside(s, pid, pids);
      case Yield => YieldStaysInside(s);
      case Reprice(pid, priority) => RepriceStaysInside(s, pid, priority);
    }
  }

  lemma {:induction false} StaysInside(states: seq<Sched>, events: seq<Event>, start: Sched, k: nat)
    requires IsTrace(states, events, start) && Inv(start, 2) && Inside(start) && k <= |events|
    requires forall j: nat :: j < k ==> Sized(states[j]) && Orderly(states[j], events[j])
    ensures Inside(states[k])
  {
    if k > 0 {
      StaysInside(states, events, start, k - 1);
      TraceInv(states, events, start, k - 1);
      assert Goes(states, events, k - 1) && Orderly(states[k - 1], events[k - 1]);
      NextStaysInside(states[k - 1], events[k - 1], k + 1);
    }
  }

  /**
    A run in which no process dies while it has a living child, and only live processes are woken, toggled or given
    another priority, never writes outside the process table.
   */
  lemma OrderlyRunsStayInside(states: seq<Sched>, events: seq<Event>, k: nat)
    requires IsRun(states, events) && k <= |events|
    requires forall j: nat :: j < k ==> Sized(states[j]) && Orderly(states[j], events[j])
    ensures states[k].stray == 0
  {
    BootOk();
    BootInside();
    StaysInside(states, events, Boot(), k);
  }

  lemma BootInside()
    ensures Inside(Boot())
  {
    TwoProcessesOk();
    NobodyRecorded();
    IndexIs(TwoProcesses().slots, 1, 1);
  }
}
