/**
  Dining philosophers on a fixed ring: the user program between system calls, interleaved at every access to a
  shared variable and at every semaphore call.
 */
module PhilosophersModel {
  import opened Common
  import opened SemaphoreModel

  const MIN_PHYLOS: nat := 5
  const MAX_PHYLOS: nat := 10

  datatype Phase = Thinking | Hungry | Eating

  /** The semaphores of the program; the process id of philosopher i is taken to be i. */
  datatype SemId = Mutex | PrintMutex | Fork(i: nat) | Safe(i: nat)

  /** The five waits of a philosopher's cycle: safe[i], MUTEX in take_forks, s[i], PRINT_MUTEX, MUTEX in put_forks. */
  datatype WaitAt = AtSafe | AtTake | AtFork | AtPrint | AtPut

  /** Whom `test` is called for: the philosopher itself, or a neighbour. */
  datatype Job = Own | LeftOf | RightOf

  /** Where a philosopher is; `Granted` means woken with a token and not yet resumed. */
  datatype PC =
    | Loop
    | Want(w: WaitAt)
    | Blocked(w: WaitAt)
    | Granted(w: WaitAt)
    | SetHungry
    | SetThinking
    | Test(job: Job, k: nat)
    | PostMutex(taking: bool)
    | Print
    | PostPrint
    | PostSafe
    | Done

  datatype Table = Table(n: nat, state: seq<Phase>, pc: seq<PC>, sems: map<SemId, Sem>, end: bool)

  predicate IsSem(n: nat, id: SemId) {
    match id
    case Mutex => true
    case PrintMutex => true
    case Fork(i) => i < n
    case Safe(i) => i < n
  }

  ghost predicate Shape(t: Table) {
    && MIN_PHYLOS <= t.n <= MAX_PHYLOS
    && |t.state| == t.n && |t.pc| == t.n
    && forall id :: IsSem(t.n, id) ==> id in t.sems
  }

  function Left(n: nat, i: nat): (l: nat)
    requires i < n
    ensures l < n
  {
    if i == 0 then n - 1 else i - 1
  }

  function Right(n: nat, i: nat): (r: nat)
    requires i < n
    ensures r < n
  {
    if i == n - 1 then 0 else i + 1
  }

  /** The LEFT and RIGHT macros of the program. */
  lemma NeighbourMacros(n: nat, i: nat)
    requires i < n
    ensures Left(n, i) == (i + n - 1) % n && Right(n, i) == (i + 1) % n
  {
    if i == 0 {
      assert (n - 1) % n == n - 1;
    } else {
      assert i + n - 1 == n + (i - 1);
      assert (i + n - 1) % n == i - 1;
    }
  }

  function WaitId(w: WaitAt, i: nat): SemId {
    match w
    case AtSafe => Safe(i)
    case AtTake => Mutex
    case AtFork => Fork(i)
    case AtPrint => PrintMutex
    case AtPut => Mutex
  }

  /** Where a philosopher goes on once a wait is over. Thinking and the delay loop of eating touch nothing shared. */
  function Past(w: WaitAt): PC {
    match w
    case AtSafe => Want(AtTake)
    case AtTake => SetHungry
    case AtFork => Want(AtPrint)
    case AtPrint => Print
    case AtPut => SetThinking
  }

  function Target(n: nat, job: Job, i: nat): (j: nat)
    requires i < n
    ensures j < n
  {
    match job
    case Own => i
    case LeftOf => Left(n, i)
    case RightOf => Right(n, i)
  }

  /** Where a philosopher goes on once a call of `test` is over. */
  function Tested(job: Job): PC {
    match job
    case Own => PostMutex(true)
    case LeftOf => Test(RightOf, 0)
    case RightOf => PostMutex(false)
  }

  function Goto(t: Table, i: nat, p: PC): Table
    requires i < |t.pc|
  {
    t.(pc := t.pc[i := p])
  }

  function DoWait(t: Table, i: nat, w: WaitAt): Table
    requires Shape(t) && i < t.n
  {
    var id := WaitId(w, i);
    var s := t.sems[id];
    t.(sems := t.sems[id := WaitSem(s, i)],
       pc := t.pc[i := if WaitOutcome(s).Passed? then Past(w) else Blocked(w)])
  }

  function WakeOne(p: PC): PC {
    if p.Blocked? then Granted(p.w) else p
  }

  function Wake(pc: seq<PC>, woken: Option<nat>): (q: seq<PC>)
    ensures |q| == |pc|
  {
    if woken.Some? && woken.value < |pc| then pc[woken.value := WakeOne(pc[woken.value])] else pc
  }

  /** Philosopher i posts a semaphore and goes on at p. */
  function DoPost(t: Table, i: nat, id: SemId, p: PC): Table
    requires Shape(t) && i < t.n && IsSem(t.n, id)
  {
    t.(sems := t.sems[id := PostSem(t.sems[id])],
       pc := Wake(t.pc, Woken(t.sems[id]))[i := p])
  }

  function SetState(t: Table, j: nat, x: Phase): Table
    requires j < |t.state|
  {
    t.(state := t.state[j := x])
  }

  /** The k-th access of `test`: three reads of the guard, the write, the post. */
  function DoTest(t: Table, i: nat, job: Job, k: nat): Table
    requires Shape(t) && i < t.n
  {
    var j := Target(t.n, job, i);
    if k == 0 then Goto(t, i, if t.state[j] == Hungry then Test(job, 1) else Tested(job))
    else if k == 1 then Goto(t, i, if t.state[Left(t.n, j)] != Eating then Test(job, 2) else Tested(job))
    else if k == 2 then Goto(t, i, if t.state[Right(t.n, j)] != Eating then Test(job, 3) else Tested(job))
    else if k == 3 then Goto(SetState(t, j, Eating), i, Test(job, 4))
    else DoPost(t, i, Fork(j), Tested(job))
  }

  predicate CanStep(p: PC) {
    !p.Blocked? && !p.Done?
  }

  /** One step of philosopher i; a blocked or finished one stays where it is. */
  function Step(t: Table, i: nat): Table
    requires Shape(t) && i < t.n
  {
    match t.pc[i]
    case Loop => Goto(t, i, if t.end then Done else Want(AtSafe))
    case Want(w) => DoWait(t, i, w)
    case Granted(w) => Goto(t, i, Past(w))
    case SetHungry => Goto(SetState(t, i, Hungry), i, Test(Own, 0))
    case SetThinking => Goto(SetState(t, i, Thinking), i, Test(LeftOf, 0))
    case Test(job, k) => DoTest(t, i, job, k)
    case PostMutex(taking) => DoPost(t, i, Mutex, if taking then Want(AtFork) else PostSafe)
    case Print => Goto(t, i, PostPrint)
    case PostPrint => DoPost(t, i, PrintMutex, Want(AtPut))
    case PostSafe => DoPost(t, i, Safe(i), Loop)
    case Blocked(_) => t
    case Done => t
  }

  datatype Event = Philosopher(i: nat) | Quit

  function Next(t: Table, e: Event): Table
    requires Shape(t)
  {
    match e
    case Quit => t.(end := true)
    case Philosopher(i) => if i < t.n then Step(t, i) else t
  }

  function InitialSem(id: SemId): Sem {
    if id.Fork? then Sem(0, []) else Sem(1, [])
  }

  function AllSems(n: nat): set<SemId> {
    {Mutex, PrintMutex} + (set i: nat | i < n :: Fork(i)) + (set i: nat | i < n :: Safe(i))
  }

  lemma AllSemsComplete(n: nat)
    ensures forall id :: IsSem(n, id) <==> id in AllSems(n)
  {
    forall id
      ensures IsSem(n, id) <==> id in AllSems(n)
    {
      match id
      case Fork(i) => assert i < n ==> Fork(i) in (set j: nat | j < n :: Fork(j));
      case Safe(i) => assert i < n ==> Safe(i) in (set j: nat | j < n :: Safe(j));
      case _ =>
    }
  }

  /** n philosophers, all thinking at the top of their loop. */
  function Initial(n: nat): (t: Table)
    requires MIN_PHYLOS <= n <= MAX_PHYLOS
    ensures Shape(t)
  {
    assert forall id :: IsSem(n, id) ==> id in AllSems(n) by {
      AllSemsComplete(n);
    }
    Table(n, seq(n, _ => Thinking), seq(n, _ => Loop), map id | id in AllSems(n) :: InitialSem(id), false)
  }

  lemma StepShape(t: Table, e: Event)
    requires Shape(t)
    ensures Shape(Next(t, e)) && Next(t, e).n == t.n
  {
  }

  ghost function Exec(n: nat, events: seq<Event>): (t: Table)
    requires MIN_PHYLOS <= n <= MAX_PHYLOS
    ensures Shape(t) && t.n == n
  {
    if events == [] then Initial(n)
    else
      var before := Exec(n, events[..|events| - 1]);
      StepShape(before, events[|events| - 1]);
      Next(before, events[|events| - 1])
  }
}
