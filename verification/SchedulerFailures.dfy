/**
  Runs that reach the failures of the process table: a write outside it, a wait cut short, a process never selected.
 */
module SchedulerFailures {
  import opened Common
  import opened ProcessStates
  import opened SchedulerModel
  import opened SchedulerTable
  import opened SchedulerRuns
  import opened SchedulerMain
  import opened SchedulerHistory
  import opened SchedulerRotation
  import opened SchedulerStray

  /** Process k is in slot k. */
  predicate Holds(s: Sched, k: nat, st: ProcessState) {
    k < |s.slots| && IsProcess(s.slots[k], k) && s.slots[k].state == st
  }

  predicate Mortal(s: Sched, k: nat) {
    k < |s.slots| && !s.slots[k].immortal
  }

  /** The processes 0 to n - 1 are in the first slots, all others are free. */
  ghost predicate Filled(s: Sched, n: nat) {
    && Sized(s) && 2 <= n < 10 && s.dim == n && s.pidValue == n && s.idlePid == 1 && Holds(s, 1, Paused)
    && !Mortal(s, 0) && !Mortal(s, 1) && (forall k: nat :: k < n ==> IsProcess(s.slots[k], k))
    && forall k: nat :: n <= k < |s.slots| ==> s.slots[k].state == Dead
  }

  /** The first n entries are READY, the others are blank. */
  ghost predicate Recorded(children: seq<Child>, n: nat) {
    && n < |children| == MAX_CHILDREN_PROCESSES
    && (forall e: nat :: e < n ==> children[e].state == Ready)
    && forall e: nat :: n <= e < |children| ==> children[e] == BLANK
  }

  predicate FreshShell(s: Sched) {
    Holds(s, 0, Ready) && s.cur == 0 && s.slots[0].remaining == s.slots[0].quantum
  }

  lemma BootFilled()
    ensures Filled(Boot(), 2) && Recorded(Boot().children, 0) && FreshShell(Boot()) && Boot().stray == 0
  {
    TwoProcessesOk();
    IndexIs(TwoProcesses().slots, 1, 1);
  }

  lemma FilledIndex(s: Sched, n: nat, k: nat)
    requires Filled(s, n) && k < n
    ensures IndexOf(s.slots, k, 0) == k
  {
    var i := IndexOf(s.slots, k, 0);
    assert i < k ==> IsProcess(s.slots[i], i);
    assert IsProcess(s.slots[k], k);
  }

  /** A creation fills the next slot. */
  lemma CreateFills(s: Sched, n: nat, priority: nat, stack: bool)
    requires Filled(s, n) && n < 9 && stack
    ensures CreateResult(s, stack) == Created(n)
    ensures var t := Create(s, priority, false, stack);
            && Filled(t, n + 1) && t.cur == s.cur && t.children == s.children && t.stray == s.stray
            && (forall k: nat :: k < n ==> t.slots[k] == s.slots[k])
            && Holds(t, n, Ready) && Mortal(t, n)
  {
    var i := FreeSlot(s.slots, 0);
    assert i < n ==> IsProcess(s.slots[i], i);
    assert s.slots[n].state == Dead;
    assert i == n;
  }

  lemma AddChildRecords(s: Sched, c: nat, parent: nat, child: nat)
    requires Recorded(s.children, c) && c < 9
    ensures var t := AddChild(s, parent, child);
            && Recorded(t.children, c + 1) && t == s.(children := t.children)
            && t.children == s.children[c := Child(parent, child, Ready)]
  {
    var e := FreeEntry(s.children, 0);
    assert s.children[c] == BLANK;
    assert e == c;
  }

  lemma CreateChildFills(s: Sched, n: nat, c: nat, priority: nat, stack: bool)
    requires Filled(s, n) && n < 9 && stack && s.cur < n && Recorded(s.children, c) && c < 9
    ensures var t := CreateChild(s, priority, stack);
            && Filled(t, n + 1) && t.cur == s.cur && t.stray == s.stray && Recorded(t.children, c + 1)
            && (forall k: nat :: k < n ==> t.slots[k] == s.slots[k])
            && Holds(t, n, Ready) && Mortal(t, n)
            && t.children == s.children[c := Child(s.cur, n, Ready)]
  {
    CreateFills(s, n, priority, stack);
    AddChildRecords(Create(s, priority, false, stack), c, s.cur, n);
  }

  // ----- a write outside the table -----

  /** The shell has the child 2 and nobody else. */
  ghost predicate OneChild(s: Sched) {
    && Filled(s, 3) && Holds(s, 2, Ready) && Mortal(s, 2) && s.stray == 0
    && Recorded(s.children, 1) && s.children[0] == Child(0, 2, Ready)
  }

  lemma FirstChild(s: Sched, priority: nat)
    requires s == Boot()
    ensures var t := Next(s, SpawnChild(priority, true)); OneChild(t) && FreshShell(t)
  {
    BootFilled();
    CreateChildFills(s, 2, 0, priority, true);
  }

  /** The shell waits for its child, which runs. */
  lemma ShellWaits(s: Sched)
    requires OneChild(s) && FreshShell(s)
    ensures var t := Next(s, WaitChildren); OneChild(t) && t.cur == 2
  {
    FilledIndex(s, 3, 0);
    assert s.children[0].parent == 0;
    var t := ChangeState(s, 0, PausedByChild);
    assert Filled(t, 3);
    ChildIsNext(t);
  }

  lemma ChildIsNext(s: Sched)
    requires OneChild(s) && s.cur == 0 && s.slots[0].state != Ready
    ensures var t := TickIf(s, true); OneChild(t) && t.cur == 2 && t.slots[0] == s.slots[0]
  {
    FilledIndex(s, 3, 1);
    assert Scan(s.slots, 3, 1, 3) == Scan(s.slots, 3, 2, 2) == Some(2);
  }

  /** Process 2 has the child 3. */
  ghost predicate TwoChildren(s: Sched) {
    && Filled(s, 4) && Mortal(s, 2) && Holds(s, 3, Ready) && Mortal(s, 3) && s.stray == 0 && s.cur == 2
    && Recorded(s.children, 2) && s.children[0] == Child(0, 2, Ready) && s.children[1] == Child(2, 3, Ready)
  }

  lemma SecondChild(s: Sched, priority: nat)
    requires OneChild(s) && s.cur == 2
    ensures TwoChildren(Next(s, SpawnChild(priority, true)))
  {
    CreateChildFills(s, 3, 1, priority, true);
  }

  /** Process 3 is recorded as the child of process 2, which is gone. */
  ghost predicate Orphaned(s: Sched) {
    && Sized(s) && s.cur != 3 && s.stray == 0 && Holds(s, 3, Ready) && Mortal(s, 3) && !LivePid(s.slots, 2)
    && s.children[1] == Child(2, 3, Ready) && LastEntry(s.children, 1)
  }

  lemma ParentDies(s: Sched, pids: nat)
    requires Inv(s, pids) && TwoChildren(s)
    ensures Orphaned(Next(s, Kill(2)))
  {
    FilledIndex(s, 4, 2);
    var t := Destroy(s, 2);
    AfterParent(s);
    DeathKeeps(s, 2, pids);
    ThenShell(t);
  }

  lemma AfterParent(s: Sched)
    requires TwoChildren(s)
    ensures var t := Destroy(s, 2);
            && t.dim == 3 && t.cur == 2 && t.stray == 0 && Sized(t) && t.idlePid == 1
            && Holds(t, 0, Ready) && Holds(t, 1, Paused) && Holds(t, 3, Ready) && Mortal(t, 3)
            && !LivePid(t.slots, 2) && !Live(t.slots[2]) && (forall k: nat :: 4 <= k < |t.slots| ==> !Live(t.slots[k]))
            && t.children[0] == BLANK && t.children[1] == Child(2, 3, Ready) && LastEntry(t.children, 1)
  {
    var marked := s.children[0 := s.children[0].(state := Dead)];
    assert EntryOf(s.children, 2, 0) == 0;
    assert AllFinished(marked, 0);
    var slots := s.slots[2 := s.slots[2].(state := Dead, remaining := 0)];
    assert IndexOf(slots, 0, 0) == 0;
  }

  lemma ThenShell(t: Sched)
    requires TableOk(t) && IdleOk(t) && t.dim == 3 && t.cur == 2 && !Live(t.slots[2]) && Holds(t, 0, Ready)
    requires t.stray == 0 && Holds(t, 3, Ready) && Mortal(t, 3) && !LivePid(t.slots, 2) && t.idlePid == 1
    requires t.children[1] == Child(2, 3, Ready) && LastEntry(t.children, 1)
    ensures Orphaned(TickIf(t, true))
  {
    assert Scan(t.slots, 3, 0, 3) == Some(0);
    var u := TickIf(t, true);
    NextProcessNothingNew(t);
    forall k: nat | k < |u.slots|
      ensures !IsProcess(u.slots[k], 2)
    {
      assert !IsProcess(t.slots[k], 2) && (Live(u.slots[k]) ==> OldSlot(t.slots[k], u.slots[k]));
    }
  }

  /** The orphan dies and its dead parent is woken. */
  lemma OrphanDies(states: seq<Sched>, events: seq<Event>)
    requires IsRun(states, events) && |events| == 5 && events[4] == Kill(3)
    requires TwoChildren(states[3]) && Orphaned(states[4])
    ensures states[5].stray == 1
  {
    assert Goes(states, events, 4);
    var s := states[4];
    BootOk();
    TraceInv(states, events, Boot(), 4);
    IndexIs(s.slots, 3, 3);
    FilledIndex(states[3], 4, 2);
    assert WasLive(states, 4, 2);
    assert Orphan(states, 4, s, 3, 1);
    StrayWriteExactly(states, events, 4, 0, s, 3);
  }

  /**
    A process creates a child and waits for it, the child creates a child of its own, the child is killed, then its
    child: the last death writes outside the process table.
   */
  lemma OrphanWritesOutside(p: nat, q: nat) returns (states: seq<Sched>, events: seq<Event>)
    ensures events == [SpawnChild(p, true), WaitChildren, SpawnChild(q, true), Kill(2), Kill(3)]
    ensures IsRun(states, events) && states[4].stray == 0 && states[5].stray == 1
  {
    events := [SpawnChild(p, true), WaitChildren, SpawnChild(q, true), Kill(2), Kill(3)];
    states := RunOf(events);
    OrphanRun(states, events, p, q);
  }

  lemma OrphanRun(states: seq<Sched>, events: seq<Event>, p: nat, q: nat)
    requires events == [SpawnChild(p, true), WaitChildren, SpawnChild(q, true), Kill(2), Kill(3)]
    requires IsRun(states, events)
    ensures states[4].stray == 0 && states[5].stray == 1
  {
    assert Goes(states, events, 0) && Goes(states, events, 1) && Goes(states, events, 2) && Goes(states, events, 3);
    FirstChild(states[0], p);
    ShellWaits(states[1]);
    SecondChild(states[2], q);
    BootOk();
    TraceInv(states, events, Boot(), 3);
    ParentDies(states[3], 5);
    OrphanDies(states, events);
  }

  // ----- the same through the key that kills all processes -----

  lemma {:induction false} NobodyKilled(s: Sched, i: nat)
    requires i <= |s.slots| && forall k: nat :: i <= k < |s.slots| ==> !Live(s.slots[k])
    ensures KillFrom(s, i) == (s, false)
    decreases |s.slots| - i
  {
    if i < |s.slots| {
      NobodyKilled(s, i + 1);
    }
  }

  lemma BothDie(s: Sched)
    requires TwoChildren(s)
    ensures KillFrom(s, 0) == (Destroy(Destroy(s, 2), 3), true)
  {
    var t := Destroy(s, 2);
    AfterParent(s);
    NobodyKilled(Destroy(t, 3), 4);
    assert KillFrom(t, 3) == (Destroy(t, 3), false);
    assert KillFrom(s, 2) == (Destroy(t, 3), true);
    assert KillFrom(s, 0) == KillFrom(s, 1) == KillFrom(s, 2);
  }

  lemma OrphanIsLast(s: Sched)
    requires TwoChildren(s)
    ensures var u := Destroy(Destroy(s, 2), 3);
            u.stray == 1 && u.dim == 2 && u.cur == 2 && Sized(u) && !Live(u.slots[2]) && u.idlePid == 1
            && Holds(u, 0, Ready) && Holds(u, 1, Paused)
  {
    var t := Destroy(s, 2);
    AfterParent(s);
    var slots := t.slots[3 := t.slots[3].(state := Dead, remaining := 0)];
    assert EntryOf(t.children, 3, 0) == 1;
    LastEntryFinishes(t.children, 1);
    assert forall k: nat :: k < |t.slots| ==> !IsProcess(t.slots[k], 2);
    assert !LivePid(slots, 2);
  }

  lemma ShellAgain(u: Sched)
    requires Sized(u) && u.dim == 2 && u.cur == 2 && !Live(u.slots[2]) && u.idlePid == 1
    requires Holds(u, 0, Ready) && Holds(u, 1, Paused)
    ensures TickIf(u, true).stray == u.stray
  {
    assert Scan(u.slots, 2, 1, 2) == Scan(u.slots, 2, 0, 1) == Some(0);
    assert IsProcess(u.slots[1], 1);
  }

  lemma BothDieOutside(s: Sched)
    requires TwoChildren(s)
    ensures Next(s, KillAll).stray == 1
  {
    BothDie(s);
    OrphanIsLast(s);
    ShellAgain(Destroy(Destroy(s, 2), 3));
  }

  /** A child with a child of its own, and then Ctrl-C: the kill of all processes writes outside the table. */
  lemma KillAllWritesOutside(p: nat, q: nat) returns (states: seq<Sched>, events: seq<Event>)
    ensures events == [SpawnChild(p, true), WaitChildren, SpawnChild(q, true), KillAll]
    ensures IsRun(states, events) && states[3].stray == 0 && states[4].stray == 1
  {
    events := [SpawnChild(p, true), WaitChildren, SpawnChild(q, true), KillAll];
    states := RunOf(events);
    KillAllRun(states, events, p, q);
  }

  lemma KillAllRun(states: seq<Sched>, events: seq<Event>, p: nat, q: nat)
    requires events == [SpawnChild(p, true), WaitChildren, SpawnChild(q, true), KillAll] && IsRun(states, events)
    ensures states[3].stray == 0 && states[4].stray == 1
  {
    assert Goes(states, events, 0) && Goes(states, events, 1) && Goes(states, events, 2) && Goes(states, events, 3);
    FirstChild(states[0], p);
    ShellWaits(states[1]);
    SecondChild(states[2], q);
    BothDieOutside(states[3]);
  }

  // ----- a wait on a semaphore that nobody posts -----

  /** The shell blocks on a semaphore, and its child runs. */
  lemma ShellBlocks(s: Sched)
    requires OneChild(s) && FreshShell(s)
    ensures var t := Next(s, SemBlock); OneChild(t) && t.cur == 2 && Holds(t, 0, PausedBySem)
  {
    FilledIndex(s, 3, 0);
    var t := Drained(ChangeState(s, 0, PausedBySem));
    assert Filled(t, 3);
    ChildIsNext(t);
  }

  lemma ChildEnds(s: Sched)
    requires TableOk(s) && Family(s) && OneChild(s) && s.cur == 2 && Holds(s, 0, PausedBySem)
    ensures Holds(Next(s, End), 0, Ready)
  {
    var marked := s.children[0 := s.children[0].(state := Dead)];
    assert EntryOf(s.children, 2, 0) == 0;
    assert AllFinished(marked, 0);
    LastChildWakesParent(s, 2, 0);
    ShellIsNext(Destroy(s, 2), s);
  }

  lemma ShellIsNext(t: Sched, s: Sched)
    requires OneChild(s) && s.cur == 2 && t == Destroy(s, 2) && t.slots[0].state == Ready
    ensures Holds(TickIf(t, true), 0, Ready)
  {
    assert Scan(t.slots, 2, 1, 2) == Scan(t.slots, 2, 0, 1) == Some(0);
  }

  /** A process creates a child and waits on a semaphore; the child ends, and the wait is over without a post. */
  lemma ChildEndsSemWait(p: nat) returns (states: seq<Sched>, events: seq<Event>)
    ensures events == [SpawnChild(p, true), SemBlock, End] && IsRun(states, events)
    ensures Holds(states[2], 0, PausedBySem) && Holds(states[3], 0, Ready)
  {
    events := [SpawnChild(p, true), SemBlock, End];
    states := RunOf(events);
    SemWaitRun(states, events, p);
  }

  lemma SemWaitRun(states: seq<Sched>, events: seq<Event>, p: nat)
    requires events == [SpawnChild(p, true), SemBlock, End] && IsRun(states, events)
    ensures Holds(states[2], 0, PausedBySem) && Holds(states[3], 0, Ready)
  {
    assert Goes(states, events, 0) && Goes(states, events, 1) && Goes(states, events, 2);
    FirstChild(states[0], p);
    ShellBlocks(states[1]);
    BootOk();
    TraceInv(states, events, Boot(), 2);
    ChildEnds(states[2]);
  }

  // ----- a process that is never selected -----

  lemma SpawnFills(s: Sched, n: nat, priority: nat)
    requires Filled(s, n) && n < 9 && FreshShell(s) && Recorded(s.children, 0)
    ensures var t := Next(s, Spawn(priority, false, true));
            && Filled(t, n + 1) && FreshShell(t) && Recorded(t.children, 0) && Holds(t, n, Ready) && Mortal(t, n)
            && forall k: nat :: k < n ==> t.slots[k] == s.slots[k]
  {
    CreateFills(s, n, priority, true);
  }

  /** Process 2 of four is gone: process 3 is beyond the slots that are scanned. */
  ghost predicate Beyond(s: Sched) {
    Sized(s) && s.dim == 3 && FreshShell(s) && Holds(s, 3, Ready) && s.idlePid == 1 && Holds(s, 1, Paused)
  }

  lemma SlotIsFreed(s: Sched)
    requires Filled(s, 4) && FreshShell(s) && Recorded(s.children, 0) && Mortal(s, 2) && Holds(s, 3, Ready)
    ensures Beyond(Next(s, Kill(2)))
  {
    FilledIndex(s, 4, 2);
    assert EntryOf(s.children, 2, 0) == |s.children|;
  }

  /** With three processes besides the idle one, the death of the second leaves the third READY and never selected. */
  lemma SpawnedProcessStarves(p: nat, q: nat) returns (states: seq<Sched>, events: seq<Event>)
    ensures events == [Spawn(p, false, true), Spawn(q, false, true), Kill(2)] && IsRun(states, events)
    ensures IsReady(states[3].slots, 3) && states[3].dim == 3 && TurnStart(states[3])
    ensures forall n: nat :: Selected(states[3], n, 3) == 0
  {
    events := [Spawn(p, false, true), Spawn(q, false, true), Kill(2)];
    states := RunOf(events);
    StarvingRun(states, events, p, q);
    StarvesExactly(states[3], 3);
  }

  lemma StarvingRun(states: seq<Sched>, events: seq<Event>, p: nat, q: nat)
    requires events == [Spawn(p, false, true), Spawn(q, false, true), Kill(2)] && IsRun(states, events)
    ensures IsReady(states[3].slots, 3) && states[3].dim == 3 && TurnStart(states[3])
  {
    assert Goes(states, events, 0) && Goes(states, events, 1) && Goes(states, events, 2);
    BootFilled();
    SpawnFills(states[0], 2, p);
    SpawnFills(states[1], 3, q);
    SlotIsFreed(states[2]);
    BootOk();
    TraceInv(states, events, Boot(), 3);
    IndexIs(states[3].slots, 1, 1);
  }
}
