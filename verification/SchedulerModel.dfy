/** The process table, the child table and the scheduler as values; one function for each kernel routine. */
module SchedulerModel {
  import opened Common
  import opened ProcessStates

  const MAX_PROCESSES: nat := 100
  const MAX_CHILDREN_PROCESSES: nat := 50

  datatype Slot = Slot(pid: nat, priority: nat, state: ProcessState, quantum: nat, remaining: nat, immortal: bool)

  /** An entry of the child table; its state is Ready while the child lives. */
  datatype Child = Child(parent: nat, child: nat, state: ProcessState)

  /** `stray` counts the calls that write through the index 255, which `get_process_idx` returns for an unknown pid. */
  datatype Sched =
    Sched(slots: seq<Slot>, dim: nat, cur: nat, pidValue: nat, idlePid: nat, children: seq<Child>, stray: nat)

  predicate Sized(s: Sched) {
    |s.slots| == MAX_PROCESSES && |s.children| == MAX_CHILDREN_PROCESSES && s.cur < MAX_PROCESSES
  }

  predicate IsProcess(slot: Slot, pid: nat) {
    slot.pid == pid && slot.state != Dead
  }

  /** `get_process_idx` from slot k on; the number of slots stands for "not found". */
  function IndexOf(slots: seq<Slot>, pid: nat, k: nat): (i: nat)
    requires k <= |slots|
    ensures k <= i <= |slots|
    ensures forall j: nat :: k <= j < i ==> !IsProcess(slots[j], pid)
    ensures i < |slots| ==> IsProcess(slots[i], pid)
    decreases |slots| - k
  {
    if k == |slots| || IsProcess(slots[k], pid) then k else IndexOf(slots, pid, k + 1)
  }

  /** `change_process_state`; for an unknown pid the write lands outside the table. */
  function ChangeState(s: Sched, pid: nat, st: ProcessState): Sched {
    var i := IndexOf(s.slots, pid, 0);
    if i == |s.slots| then s.(stray := s.stray + 1)
    else s.(slots := s.slots[i := s.slots[i].(state := st)])
  }

  /** `calculate_ticks`: a 32-bit product. */
  function Ticks(priority: nat): nat {
    Pow2(priority) % WORD32
  }

  /** `change_priority` keeps to 1 to 5. */
  function Clamp(priority: nat): (p: nat)
    ensures 1 <= p <= 5 && (1 <= priority <= 5 ==> p == priority)
  {
    if priority > 5 then 5 else if priority < 1 then 1 else priority
  }

  /** `change_priority`; for an unknown pid both writes land outside the table. */
  function ChangePriority(s: Sched, pid: nat, priority: nat): Sched {
    var i := IndexOf(s.slots, pid, 0);
    var p := Clamp(priority);
    if i == |s.slots| then s.(stray := s.stray + 1)
    else s.(slots := s.slots[i := s.slots[i].(priority := p, quantum := Ticks(p))])
  }

  // ----- the child table -----

  /** `all_children_finished`. */
  predicate AllFinished(children: seq<Child>, parent: nat) {
    forall e :: 0 <= e < |children| ==> !(children[e].state == Ready && children[e].parent == parent)
  }

  const BLANK := Child(0, 0, Dead)

  /** `delete_children`. */
  function DeleteChildren(children: seq<Child>, parent: nat): (c: seq<Child>)
    ensures |c| == |children|
    ensures forall e :: 0 <= e < |c| ==> c[e] == if children[e].parent == parent then BLANK else children[e]
  {
    seq(|children|, e requires 0 <= e < |children| => if children[e].parent == parent then BLANK else children[e])
  }

  predicate LiveEntry(c: Child, pid: nat) {
    c.state == Ready && c.child == pid
  }

  /** The entry of a living child from position k on. */
  function EntryOf(children: seq<Child>, pid: nat, k: nat): (e: nat)
    requires k <= |children|
    ensures k <= e <= |children|
    ensures forall j: nat :: k <= j < e ==> !LiveEntry(children[j], pid)
    ensures e < |children| ==> LiveEntry(children[e], pid)
    decreases |children| - k
  {
    if k == |children| || LiveEntry(children[k], pid) then k else EntryOf(children, pid, k + 1)
  }

  /** `set_dead_process`: the last living child to die wakes its parent. */
  function SetDead(s: Sched, pid: nat): Sched {
    var e := EntryOf(s.children, pid, 0);
    if e == |s.children| then s
    else
      var children := s.children[e := s.children[e].(state := Dead)];
      var father := s.children[e].parent;
      if AllFinished(children, father) then ChangeState(s.(children := DeleteChildren(children, father)), father, Ready)
      else s.(children := children)
  }

  function FreeEntry(children: seq<Child>, k: nat): (e: nat)
    requires k <= |children|
    ensures k <= e <= |children|
    ensures forall j: nat :: k <= j < e ==> children[j].state != Dead
    ensures e < |children| ==> children[e].state == Dead
    decreases |children| - k
  {
    if k == |children| || children[k].state == Dead then k else FreeEntry(children, k + 1)
  }

  /** `add_child`: silently does nothing when the table is full. */
  function AddChild(s: Sched, parent: nat, child: nat): Sched {
    var e := FreeEntry(s.children, 0);
    if e == |s.children| then s else s.(children := s.children[e := Child(parent, child, Ready)])
  }

  predicate HasChildren(children: seq<Child>, pid: nat) {
    exists e :: 0 <= e < |children| && children[e].parent == pid
  }

  // ----- creation and death -----

  function FreeSlot(slots: seq<Slot>, k: nat): (i: nat)
    requires k <= |slots|
    ensures k <= i <= |slots|
    ensures forall j: nat :: k <= j < i ==> slots[j].state != Dead
    ensures i < |slots| ==> slots[i].state == Dead
    decreases |slots| - k
  {
    if k == |slots| || slots[k].state == Dead then k else FreeSlot(slots, k + 1)
  }

  datatype Result = Created(pid: nat) | LimitReached | NoSpace

  /** What `create_process` returns; `stack` says whether the stack could be allocated. */
  function CreateResult(s: Sched, stack: bool): Result {
    if s.dim == MAX_PROCESSES then LimitReached
    else if !stack then NoSpace
    else Created(s.pidValue)
  }

  /** `create_process`, when the slot search ends inside the table. */
  function Create(s: Sched, priority: nat, immortal: bool, stack: bool): Sched {
    if CreateResult(s, stack).Created? && FreeSlot(s.slots, 0) < |s.slots| then
      var slot := Slot(s.pidValue, priority, Ready, Ticks(priority), Ticks(priority), immortal);
      s.(slots := s.slots[FreeSlot(s.slots, 0) := slot],
         pidValue := (s.pidValue + 1) % WORD32,
         dim := s.dim + 1)
    else s
  }

  /** The pid, or the negative error code, as the 32-bit word stored in the child table. */
  function ResultWord(r: Result): nat {
    match r
    case Created(pid) => pid
    case LimitReached => WORD32 - 3
    case NoSpace => WORD32 - 2
  }

  function CurrentPid(s: Sched): nat
    requires s.cur < |s.slots|
  {
    s.slots[s.cur].pid
  }

  /** `create_child_process`: the child is recorded whether or not it was created. */
  function CreateChild(s: Sched, priority: nat, stack: bool): Sched
    requires Sized(s)
  {
    AddChild(Create(s, priority, false, stack), Create(s, priority, false, stack).slots[s.cur].pid,
             ResultWord(CreateResult(s, stack)))
  }

  /** `destroy_process`. */
  function Destroy(s: Sched, i: nat): Sched
    requires i < |s.slots|
  {
    var t := SetDead(s.(slots := s.slots[i := s.slots[i].(state := Dead, remaining := 0)]), s.slots[i].pid);
    t.(dim := if t.dim > 0 then t.dim - 1 else 255)
  }

  // ----- the scheduler -----

  /** The first READY slot among `left` slots from c on, in cyclic order over the first `dim` slots. */
  function Scan(slots: seq<Slot>, dim: nat, c: nat, left: nat): (r: Option<nat>)
    requires c < dim <= |slots|
    ensures r.Some? ==> r.value < dim && slots[r.value].state == Ready
    decreases left
  {
    if left == 0 then None
    else if slots[c].state == Ready then Some(c)
    else Scan(slots, dim, (c + 1) % dim, left - 1)
  }

  /** The choice made by `next_process`: the next READY process, or the idle one if there is none. */
  function Choose(s: Sched): Sched
    requires Sized(s) && s.dim <= MAX_PROCESSES
  {
    var found := if s.dim == 0 then None else Scan(s.slots, s.dim, (s.cur + 1) % s.dim, s.dim);
    match found
    case None =>
      var idle := IndexOf(s.slots, s.idlePid, 0);
      if idle < |s.slots| then ChangeState(s.(cur := idle), s.idlePid, Ready) else s
    case Some(c) =>
      if s.slots[c].pid != s.idlePid then ChangeState(s.(cur := c), s.idlePid, Paused) else s.(cur := c)
  }

  /** The current process gets a full quantum. */
  function Refill(s: Sched): Sched {
    if s.cur < |s.slots| then s.(slots := s.slots[s.cur := s.slots[s.cur].(remaining := s.slots[s.cur].quantum)]) else s
  }

  /** `next_process`, apart from the saved stack pointer. */
  function NextProcess(s: Sched): Sched
    requires Sized(s) && s.dim <= MAX_PROCESSES
  {
    Refill(Choose(s))
  }

  /** `consume_tick` succeeds: the current process goes on. */
  predicate Continues(s: Sched)
    requires Sized(s)
  {
    s.slots[s.cur].remaining > 0 && s.slots[s.cur].state == Ready
  }

  /** The timer interrupt, also raised by `force_timer_tick`. */
  function Tick(s: Sched): Sched
    requires Sized(s) && s.dim <= MAX_PROCESSES
  {
    if Continues(s) then s.(slots := s.slots[s.cur := s.slots[s.cur].(remaining := s.slots[s.cur].remaining - 1)])
    else NextProcess(s)
  }
}
