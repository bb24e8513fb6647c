/** Invariants of all runs: parents and children, the idle process, and the choice of the scheduler. */
module SchedulerRuns {
  import opened Common
  import opened ProcessStates
  import opened SchedulerModel
  import opened SchedulerTable

  // ----- parents and children -----

  predicate LivePid(slots: seq<Slot>, pid: nat) {
    IndexOf(slots, pid, 0) < |slots|
  }

  predicate SameChild(children: seq<Child>, e: nat, f: nat)
    requires e < |children| && f < |children|
  {
    children[e].state == Ready && children[f].state == Ready && children[e].child == children[f].child
  }

  /** An entry marked READY names a live process. */
  ghost predicate EntriesLive(slots: seq<Slot>, children: seq<Child>) {
    forall e: nat :: e < |children| && children[e].state == Ready ==> LivePid(slots, children[e].child)
  }

  ghost predicate ChildrenUnique(children: seq<Child>) {
    forall e: nat, f: nat :: e < f < |children| ==> !SameChild(children, e, f)
  }

  /** An entry that names a parent other than pid 0 implies a READY entry of the same parent. */
  ghost predicate ParentsOutstanding(children: seq<Child>) {
    forall e: nat :: e < |children| && children[e].parent != 0 ==> !AllFinished(children, children[e].parent)
  }

  ghost predicate WardsOk(slots: seq<Slot>, children: seq<Child>) {
    EntriesLive(slots, children) && ChildrenUnique(children) && ParentsOutstanding(children)
  }

  /** A process waiting for its children has one that is alive. */
  ghost predicate WaitersOk(slots: seq<Slot>, children: seq<Child>) {
    forall i: nat :: i < |slots| && slots[i].state == PausedByChild && slots[i].pid != 0 ==>
      !AllFinished(children, slots[i].pid)
  }

  ghost predicate Family(s: Sched) {
    WardsOk(s.slots, s.children) && WaitersOk(s.slots, s.children)
  }

  /** Whether a pid is live does not depend on anything but pids and deaths. */
  lemma LivePidSame(slots: seq<Slot>, slots': seq<Slot>, pid: nat)
    requires |slots| == |slots'|
    requires forall i: nat :: i < |slots| ==>
               Live(slots'[i]) == Live(slots[i]) && (Live(slots[i]) ==> slots'[i].pid == slots[i].pid)
    ensures LivePid(slots, pid) == LivePid(slots', pid)
  {
    var i, j := IndexOf(slots, pid, 0), IndexOf(slots', pid, 0);
    if i < |slots| {
      assert IsProcess(slots'[i], pid);
    }
    if j < |slots| {
      assert IsProcess(slots[j], pid);
    }
  }

  lemma SlotChangeKeepsFamily(s: Sched, i: nat, x: Slot)
    requires Family(s) && i < |s.slots| && Live(x) == Live(s.slots[i]) && x.pid == s.slots[i].pid
    requires x.state == PausedByChild && x.pid != 0 ==> !AllFinished(s.children, x.pid)
    ensures Family(s.(slots := s.slots[i := x]))
  {
    forall e: nat | e < |s.children| && s.children[e].state == Ready
      ensures LivePid(s.slots[i := x], s.children[e].child)
    {
      LivePidSame(s.slots, s.slots[i := x], s.children[e].child);
    }
  }

  lemma ChangeStateKeepsFamily(s: Sched, pid: nat, st: ProcessState)
    requires Family(s) && st != Dead
    requires st == PausedByChild && pid != 0 ==> !AllFinished(s.children, pid)
    ensures Family(ChangeState(s, pid, st))
  {
    var i := IndexOf(s.slots, pid, 0);
    if i < |s.slots| {
      SlotChangeKeepsFamily(s, i, s.slots[i].(state := st));
    }
  }

  lemma TickKeepsFamily(s: Sched, c: bool)
    requires Family(s)
    ensures Family(TickIf(s, c))
  {
    if c && Sized(s) && s.dim <= MAX_PROCESSES {
      if Continues(s) {
        SlotChangeKeepsFamily(s, s.cur, s.slots[s.cur].(remaining := s.slots[s.cur].remaining - 1));
      } else {
        ChooseKeepsFamily(s);
        var t := Choose(s);
        if t.cur < |t.slots| {
          SlotChangeKeepsFamily(t, t.cur, t.slots[t.cur].(remaining := t.slots[t.cur].quantum));
        }
      }
    }
  }

  lemma ChooseKeepsFamily(s: Sched)
    requires Family(s) && Sized(s) && s.dim <= MAX_PROCESSES
    ensures Family(Choose(s))
  {
    var found := if s.dim == 0 then None else Scan(s.slots, s.dim, (s.cur + 1) % s.dim, s.dim);
    match found
    case None =>
      var idle := IndexOf(s.slots, s.idlePid, 0);
      if idle < |s.slots| {
        ChangeStateKeepsFamily(s.(cur := idle), s.idlePid, Ready);
      }
    case Some(c) =>
      ChangeStateKeepsFamily(s.(cur := c), s.idlePid, Paused);
  }

  /** Marking one entry dead concerns its own parent only. */
  lemma MarkDead(children: seq<Child>, e: nat, parent: nat)
    requires e < |children| && children[e].parent != parent
    ensures AllFinished(children[e := children[e].(state := Dead)], parent) == AllFinished(children, parent)
  {
    var c := children[e := children[e].(state := Dead)];
    if !AllFinished(children, parent) {
      var f :| 0 <= f < |children| && children[f].state == Ready && children[f].parent == parent;
      assert c[f] == children[f];
    }
    if !AllFinished(c, parent) {
      var f :| 0 <= f < |c| && c[f].state == Ready && c[f].parent == parent;
      assert c[f] == children[f];
    }
  }

  /** Deleting the entries of one parent, all of them finished, concerns no other. */
  lemma DeleteOthers(children: seq<Child>, gone: nat, parent: nat)
    requires parent != gone && parent != 0
    ensures AllFinished(DeleteChildren(children, gone), parent) == AllFinished(children, parent)
  {
    var c := DeleteChildren(children, gone);
    if !AllFinished(children, parent) {
      var f :| 0 <= f < |children| && children[f].state == Ready && children[f].parent == parent;
      assert c[f] == children[f];
    }
    if !AllFinished(c, parent) {
      var f :| 0 <= f < |c| && c[f].state == Ready && c[f].parent == parent;
      assert c[f] == children[f];
    }
  }

  /** The slots after process i died: every other live process is still live. */
  lemma OthersLive(slots: seq<Slot>, i: nat, x: Slot, pid: nat)
    requires DistinctPids(slots) && i < |slots| && Live(slots[i]) && !Live(x) && pid != slots[i].pid
    requires LivePid(slots, pid)
    ensures LivePid(slots[i := x], pid)
  {
    var j := IndexOf(slots, pid, 0);
    assert IsProcess(slots[i := x][j], pid);
  }

  /** A living child has no second entry. */
  lemma OnlyEntry(children: seq<Child>, pid: nat, f: nat)
    requires ChildrenUnique(children) && f < |children| && children[f].state == Ready && f != EntryOf(children, pid, 0)
    ensures children[f].child != pid
  {
    var e := EntryOf(children, pid, 0);
    assert LiveEntry(children[f], pid) <==> children[f].child == pid;
    assert e < f ==> !SameChild(children, e, f);
  }

  /** The child table after the death of process i, and who is still waiting. */
  lemma DeathKeepsWards(slots: seq<Slot>, children: seq<Child>, i: nat, x: Slot, e: nat)
    requires WardsOk(slots, children) && DistinctPids(slots)
    requires i < |slots| && Live(slots[i]) && !Live(x)
    requires e == EntryOf(children, slots[i].pid, 0)
    ensures e == |children| ==> EntriesLive(slots[i := x], children)
    ensures e < |children| ==>
              var c := children[e := children[e].(state := Dead)];
              EntriesLive(slots[i := x], c) && ChildrenUnique(c)
  {
    var c := if e < |children| then children[e := children[e].(state := Dead)] else children;
    forall f: nat | f < |c| && c[f].state == Ready
      ensures LivePid(slots[i := x], c[f].child)
    {
      OnlyEntry(children, slots[i].pid, f);
      OthersLive(slots, i, x, c[f].child);
    }
    if e < |children| {
      forall f: nat, g: nat | f < g < |c|
        ensures !SameChild(c, f, g)
      {
        assert !SameChild(children, f, g);
      }
    }
  }

  /** When a child dies and its parent has others, everybody who had a living child still has one. */
  lemma DeathWithSiblings(slots: seq<Slot>, children: seq<Child>, e: nat)
    requires ParentsOutstanding(children) && WaitersOk(slots, children)
    requires e < |children|
    requires !AllFinished(children[e := children[e].(state := Dead)], children[e].parent)
    ensures ParentsOutstanding(children[e := children[e].(state := Dead)])
    ensures WaitersOk(slots, children[e := children[e].(state := Dead)])
  {
    var c := children[e := children[e].(state := Dead)];
    forall parent | parent != children[e].parent
      ensures AllFinished(c, parent) == AllFinished(children, parent)
    {
      MarkDead(children, e, parent);
    }
    forall f: nat | f < |c| && c[f].parent != 0
      ensures !AllFinished(c, c[f].parent)
    {
      assert c[f].parent == children[f].parent;
    }
  }

  /**
    When the last child dies its parent's entries are cleared, and only that parent may have lost its reason to wait.
   */
  lemma LastDeath(slots: seq<Slot>, children: seq<Child>, e: nat)
    requires ParentsOutstanding(children) && WaitersOk(slots, children) && e < |children|
    ensures var father := children[e].parent;
            var c := DeleteChildren(children[e := children[e].(state := Dead)], father);
            && ParentsOutstanding(c)
            && forall i: nat ::
                 i < |slots| && slots[i].state == PausedByChild && slots[i].pid != 0 && slots[i].pid != father ==>
                 !AllFinished(c, slots[i].pid)
  {
    var father := children[e].parent;
    var marked := children[e := children[e].(state := Dead)];
    var c := DeleteChildren(marked, father);
    forall parent | parent != father && parent != 0
      ensures AllFinished(c, parent) == AllFinished(children, parent)
    {
      MarkDead(children, e, parent);
      DeleteOthers(marked, father, parent);
    }
    forall f: nat | f < |c| && c[f].parent != 0
      ensures !AllFinished(c, c[f].parent)
    {
      assert c[f] == marked[f] && marked[f].parent == children[f].parent;
    }
  }

  lemma DeletedStillLive(slots: seq<Slot>, children: seq<Child>, father: nat)
    requires EntriesLive(slots, children) && ChildrenUnique(children)
    ensures EntriesLive(slots, DeleteChildren(children, father)) && ChildrenUnique(DeleteChildren(children, father))
  {
    var c := DeleteChildren(children, father);
    forall e: nat, f: nat | e < f < |c|
      ensures !SameChild(c, e, f)
    {
      assert !SameChild(children, e, f);
    }
  }

  /** Waking the parent of the last child leaves nobody waiting without a living child. */
  lemma WakeFather(s: Sched, father: nat)
    requires DistinctPids(s.slots) && WardsOk(s.slots, s.children)
    requires forall i: nat ::
               i < |s.slots| && s.slots[i].state == PausedByChild && s.slots[i].pid != 0 && s.slots[i].pid != father ==>
               !AllFinished(s.children, s.slots[i].pid)
    ensures Family(ChangeState(s, father, Ready))
  {
    var t := ChangeState(s, father, Ready);
    forall e: nat | e < |s.children| && s.children[e].state == Ready
      ensures LivePid(t.slots, s.children[e].child)
    {
      LivePidSame(s.slots, t.slots, s.children[e].child);
    }
    forall i: nat | i < |t.slots| && t.slots[i].state == PausedByChild && t.slots[i].pid != 0
      ensures !AllFinished(t.children, t.slots[i].pid)
    {
      if s.slots[i].pid == father {
        IndexIs(s.slots, father, i);
      }
    }
  }

  lemma DestroyKeepsFamily(s: Sched, i: nat)
    requires TableOk(s) && Family(s) && i < |s.slots| && Live(s.slots[i])
    ensures Family(Destroy(s, i))
  {
    var x := s.slots[i].(state := Dead, remaining := 0);
    var t := s.(slots := s.slots[i := x]);
    var e := EntryOf(s.children, s.slots[i].pid, 0);
    DeathKeepsWards(s.slots, s.children, i, x, e);
    assert WaitersOk(t.slots, s.children);
    if e < |s.children| {
      var father := s.children[e].parent;
      var marked := s.children[e := s.children[e].(state := Dead)];
      if AllFinished(marked, father) {
        LastDeath(t.slots, s.children, e);
        DeletedStillLive(t.slots, marked, father);
        DeathKeepsDistinct(s, i, x);
        WakeFather(t.(children := DeleteChildren(marked, father)), father);
      } else {
        DeathWithSiblings(t.slots, s.children, e);
      }
    }
  }

  lemma DeathKeepsDistinct(s: Sched, i: nat, x: Slot)
    requires DistinctPids(s.slots) && i < |s.slots| && !Live(x)
    ensures DistinctPids(s.slots[i := x])
  {
    var t := s.slots[i := x];
    forall j: nat, k: nat | j < k < |t|
      ensures !Clash(t, j, k)
    {
      assert !Clash(s.slots, j, k);
    }
  }

  /** A new process starts READY in a free slot, so no existing process or entry is concerned. */
  lemma CreateKeepsFamily(s: Sched, priority: nat, immortal: bool, stack: bool)
    requires TableOk(s) && Family(s)
    ensures Family(Create(s, priority, immortal, stack))
  {
    var t := Create(s, priority, immortal, stack);
    forall e: nat | e < |s.children| && s.children[e].state == Ready
      ensures LivePid(t.slots, s.children[e].child)
    {
      assert LivePid(s.slots, s.children[e].child);
      assert IsProcess(t.slots[IndexOf(s.slots, s.children[e].child, 0)], s.children[e].child);
    }
  }

  /** Recording a process that is new to the table as a child. */
  lemma AddChildKeepsFamily(s: Sched, parent: nat, child: nat)
    requires Family(s) && LivePid(s.slots, child)
    requires forall e: nat :: e < |s.children| && s.children[e].state == Ready ==> s.children[e].child != child
    ensures Family(AddChild(s, parent, child))
  {
    var e := FreeEntry(s.children, 0);
    if e < |s.children| {
      var c := s.children[e := Child(parent, child, Ready)];
      forall p | !AllFinished(s.children, p)
        ensures !AllFinished(c, p)
      {
        var f :| 0 <= f < |s.children| && s.children[f].state == Ready && s.children[f].parent == p;
        assert c[f] == s.children[f];
      }
      forall f: nat, g: nat | f < g < |c|
        ensures !SameChild(c, f, g)
      {
        assert !SameChild(s.children, f, g);
      }
      forall f: nat | f < |c| && c[f].parent != 0
        ensures !AllFinished(c, c[f].parent)
      {
        if f == e {
          assert c[e].state == Ready && c[e].parent == parent;
        }
      }
    }
  }

  lemma CreateChildKeepsFamily(s: Sched, priority: nat, stack: bool)
    requires TableOk(s) && Family(s) && CreateResult(s, stack).Created?
    ensures Family(CreateChild(s, priority, stack))
  {
    var t := Create(s, priority, false, stack);
    SearchStopsInside(s);
    LiveCountBounds(s.slots);
    CreateKeepsFamily(s, priority, false, stack);
    assert IsProcess(t.slots[FreeSlot(s.slots, 0)], s.pidValue);
    forall e: nat | e < |s.children| && s.children[e].state == Ready
      ensures s.children[e].child != s.pidValue
    {
      assert LivePid(s.slots, s.children[e].child);
    }
    AddChildKeepsFamily(t, t.slots[s.cur].pid, s.pidValue);
  }

  lemma {:induction false} KillFromKeepsFamily(s: Sched, i: nat)
    requires TableOk(s) && Family(s) && i <= |s.slots|
    ensures Family(KillFrom(s, i).0)
    decreases |s.slots| - i
  {
    if i < |s.slots| {
      if Live(s.slots[i]) && !s.slots[i].immortal {
        DestroyKeepsTable(s, i);
        DestroyKeepsFamily(s, i);
        KillFromKeepsFamily(Destroy(s, i), i + 1);
      } else {
        KillFromKeepsFamily(s, i + 1);
      }
    }
  }
}
