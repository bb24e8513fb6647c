/** Runs of the philosophers after which removing or adding one breaks what a fixed ring keeps. */
module PhilosophersFailures {
  import opened PhilosophersModel
  import opened PhilosophersMonitor
  import Philosophers
  import SemaphoreModel

  // ----- one philosopher on its own -----

  /** The run goes on with m steps of philosopher i. */
  function Then(events: seq<Event>, i: nat, m: nat): seq<Event> {
    if m == 0 then events else Then(events, i, m - 1) + [Philosopher(i)]
  }

  lemma {:induction false} ThenSplit(events: seq<Event>, i: nat, a: nat, b: nat)
    ensures Then(events, i, a + b) == Then(Then(events, i, a), i, b)
  {
    if b > 0 {
      ThenSplit(events, i, a, b - 1);
    }
  }

  /** The run leads to the table. */
  ghost predicate Leads(n: nat, events: seq<Event>, t: Table) {
    MIN_PHYLOS <= n <= MAX_PHYLOS && Exec(n, events) == t
  }

  lemma OneStep(n: nat, events: seq<Event>, i: nat, t: Table, u: Table)
    requires Leads(n, events, t) && Shape(t) && i < t.n && u == Step(t, i)
    ensures Leads(n, Then(events, i, 1), u)
  {
    var all := events + [Philosopher(i)];
    assert Then(events, i, 0) == events && Then(events, i, 1) == all;
    assert all[..|all| - 1] == events;
  }

  lemma TwoSteps(n: nat, events: seq<Event>, i: nat, t: Table, a: Table, u: Table)
    requires Leads(n, events, t) && Shape(t) && Shape(a) && i < t.n == a.n && a == Step(t, i) && u == Step(a, i)
    ensures Leads(n, Then(events, i, 2), u)
  {
    OneStep(n, events, i, t, a);
    OneStep(n, Then(events, i, 1), i, a, u);
    ThenSplit(events, i, 1, 1);
  }

  const FREE := SemaphoreModel.Sem(1, [])
  const TAKEN := SemaphoreModel.Sem(0, [])

  /** Philosopher i is thinking, its semaphores are at rest and nobody is in the monitor. */
  ghost predicate AtRest(t: Table, i: nat) {
    && Shape(t) && i < t.n && t.pc[i] == Loop && !t.end
    && t.sems[Mutex] == FREE && t.sems[Safe(i)] == FREE && t.sems[Fork(i)] == TAKEN
  }

  function Moved(t: Table, i: nat, p: PC, x: Phase, mutex: SemaphoreModel.Sem): Table
    requires i < |t.pc| && i < |t.state|
  {
    t.(pc := t.pc[i := p], state := t.state[i := x], sems := t.sems[Safe(i) := TAKEN][Mutex := mutex])
  }

  /** The waits for safe[i] and MUTEX, and the state HUNGRY. */
  lemma EntersMonitor(n: nat, events: seq<Event>, t: Table, i: nat)
    requires AtRest(t, i) && Leads(n, events, t)
    ensures Leads(n, Then(events, i, 4), Moved(t, i, Test(Own, 0), Hungry, TAKEN))
  {
    var t1 := Goto(t, i, Want(AtSafe));
    var t2 := t.(pc := t.pc[i := Want(AtTake)], sems := t.sems[Safe(i) := TAKEN]);
    assert Step(t1, i) == t2;
    TwoSteps(n, events, i, t, t1, t2);
    var t3 := t2.(pc := t.pc[i := SetHungry], sems := t2.sems[Mutex := TAKEN]);
    assert Step(t2, i) == t3;
    var t4 := Moved(t, i, Test(Own, 0), Hungry, TAKEN);
    assert Step(t3, i) == t4;
    TwoSteps(n, Then(events, i, 2), i, t2, t3, t4);
    ThenSplit(events, i, 2, 2);
  }

  lemma TestSucceeds(n: nat, events: seq<Event>, t: Table, i: nat)
    requires AtRest(t, i) && t.state[Left(t.n, i)] != Eating && t.state[Right(t.n, i)] != Eating
    requires Leads(n, events, Moved(t, i, Test(Own, 0), Hungry, TAKEN))
    ensures Leads(n, Then(events, i, 4), Moved(t, i, Test(Own, 4), Eating, TAKEN))
  {
    var t0 := Moved(t, i, Test(Own, 0), Hungry, TAKEN);
    var t2 := Moved(t, i, Test(Own, 2), Hungry, TAKEN);
    var t4 := Moved(t, i, Test(Own, 4), Eating, TAKEN);
    assert Step(Step(t0, i), i) == t2;
    assert Step(Step(t2, i), i) == t4;
    TwoSteps(n, events, i, t0, Step(t0, i), t2);
    TwoSteps(n, Then(events, i, 2), i, t2, Step(t2, i), t4);
    ThenSplit(events, i, 2, 2);
  }

  /** The posts of s[i] and MUTEX and the wait for s[i]. */
  lemma TakesForks(n: nat, events: seq<Event>, t: Table, i: nat)
    requires AtRest(t, i) && Leads(n, events, Moved(t, i, Test(Own, 4), Eating, TAKEN))
    ensures Leads(n, Then(events, i, 3), Moved(t, i, Want(AtPrint), Eating, FREE))
  {
    var t0 := Moved(t, i, Test(Own, 4), Eating, TAKEN);
    var t1 := t0.(pc := t.pc[i := PostMutex(true)], sems := t0.sems[Fork(i) := FREE]);
    assert Step(t0, i) == t1;
    var t2 := t1.(pc := t.pc[i := Want(AtFork)], sems := t1.sems[Mutex := FREE]);
    assert Step(t1, i) == t2;
    TwoSteps(n, events, i, t0, t1, t2);
    var t3 := Moved(t, i, Want(AtPrint), Eating, FREE);
    assert Step(t2, i).sems == t3.sems;
    OneStep(n, Then(events, i, 2), i, t2, t3);
    ThenSplit(events, i, 2, 1);
  }

  /** A philosopher at rest between neighbours that do not eat gets its forks in eleven steps. */
  lemma EatsAlone(n: nat, events: seq<Event>, t: Table, i: nat)
    requires AtRest(t, i) && Leads(n, events, t)
    requires t.state[Left(t.n, i)] != Eating && t.state[Right(t.n, i)] != Eating
    ensures Leads(n, Then(events, i, 11), Moved(t, i, Want(AtPrint), Eating, FREE))
  {
    EntersMonitor(n, events, t, i);
    TestSucceeds(n, Then(events, i, 4), t, i);
    ThenSplit(events, i, 4, 4);
    TakesForks(n, Then(events, i, 8), t, i);
    ThenSplit(events, i, 8, 3);
  }

  /** Philosopher i is HUNGRY and in the queue of its own semaphore; nobody is in the monitor. */
  ghost predicate Waits(t: Table, u: Table, i: nat)
    requires i < t.n
  {
    && Shape(u) && u.n == t.n && |t.state| == t.n && u.state == t.state[i := Hungry] && u.sems[Mutex] == FREE
    && u.pc[i] == Blocked(AtFork) && u.sems[Fork(i)].waiters == [i]
  }

  /** One whose left neighbour eats is left waiting after eight. */
  lemma GoesHungry(n: nat, events: seq<Event>, t: Table, i: nat) returns (u: Table)
    requires AtRest(t, i) && Leads(n, events, t) && t.state[Left(t.n, i)] == Eating
    ensures Leads(n, Then(events, i, 8), u) && Waits(t, u, i)
  {
    EntersMonitor(n, events, t, i);
    u := TestFails(n, Then(events, i, 4), t, i);
    ThenSplit(events, i, 4, 4);
  }

  lemma TestFails(n: nat, events: seq<Event>, t: Table, i: nat) returns (u: Table)
    requires AtRest(t, i) && t.state[Left(t.n, i)] == Eating
    requires Leads(n, events, Moved(t, i, Test(Own, 0), Hungry, TAKEN))
    ensures Leads(n, Then(events, i, 4), u) && Waits(t, u, i)
  {
    var t0 := Moved(t, i, Test(Own, 0), Hungry, TAKEN);
    var t1 := Moved(t, i, Test(Own, 1), Hungry, TAKEN);
    var t2 := Moved(t, i, PostMutex(true), Hungry, TAKEN);
    assert Step(t0, i) == t1 && Step(t1, i) == t2;
    TwoSteps(n, events, i, t0, t1, t2);
    u := LeavesHungry(n, Then(events, i, 2), t, i);
    ThenSplit(events, i, 2, 2);
  }

  lemma LeavesHungry(n: nat, events: seq<Event>, t: Table, i: nat) returns (u: Table)
    requires AtRest(t, i) && Leads(n, events, Moved(t, i, PostMutex(true), Hungry, TAKEN))
    ensures Leads(n, Then(events, i, 2), u) && Waits(t, u, i)
  {
    var t0 := Moved(t, i, PostMutex(true), Hungry, TAKEN);
    var t1 := Moved(t, i, Want(AtFork), Hungry, FREE);
    assert Step(t0, i).sems == t1.sems;
    assert Step(t0, i) == t1;
    u := Blocks(t1, i);
    TwoSteps(n, events, i, t0, t1, u);
  }

  lemma Blocks(t: Table, i: nat) returns (u: Table)
    requires Shape(t) && i < t.n && t.pc[i] == Want(AtFork) && t.sems[Fork(i)] == TAKEN
    ensures u == Step(t, i) && Shape(u) && u.n == t.n && u.state == t.state && u.sems[Mutex] == t.sems[Mutex]
    ensures u.pc[i] == Blocked(AtFork) && u.sems[Fork(i)].waiters == [i]
  {
    u := Step(t, i);
  }

  function AllThink(n: nat): seq<Phase> {
    seq(n, _ => Thinking)
  }

  lemma RestsInitially(n: nat, i: nat)
    requires MIN_PHYLOS <= n <= MAX_PHYLOS && i < n
    ensures AtRest(Initial(n), i) && Initial(n).state == AllThink(n)
  {
    AllSemsComplete(n);
    assert IsSem(n, Mutex) && IsSem(n, Safe(i)) && IsSem(n, Fork(i));
  }

  lemma FirstEats(n: nat, i: nat)
    requires MIN_PHYLOS <= n <= MAX_PHYLOS && i < n
    ensures Leads(n, Then([], i, 11), Moved(Initial(n), i, Want(AtPrint), Eating, FREE))
  {
    RestsInitially(n, i);
    EatsAlone(n, [], Initial(n), i);
  }

  /** The others are as they were. */
  lemma OtherRests(t: Table, i: nat, j: nat)
    requires AtRest(t, i) && AtRest(t, j) && i != j
    ensures AtRest(Moved(t, i, Want(AtPrint), Eating, FREE), j)
  {
  }

  /** Two philosophers that are no neighbours can eat at the same time. */
  lemma TwoEat(n: nat, i: nat, j: nat) returns (events: seq<Event>, t: Table)
    requires MIN_PHYLOS <= n <= MAX_PHYLOS && i < n && j < n && i != j && Left(n, j) != i && Right(n, j) != i
    ensures Leads(n, events, t) && Shape(t) && t.n == n
    ensures HasForks(t.pc[i]) && HasForks(t.pc[j]) && t.state == AllThink(n)[i := Eating][j := Eating]
    ensures t.sems[Mutex] == FREE && forall k: nat :: k < n && k != i && k != j ==> t.sems[Safe(k)] == FREE
  {
    FirstEats(n, i);
    RestsInitially(n, i);
    RestsInitially(n, j);
    OtherRests(Initial(n), i, j);
    var one := Moved(Initial(n), i, Want(AtPrint), Eating, FREE);
    EatsAlone(n, Then([], i, 11), one, j);
    events, t := Then(Then([], i, 11), j, 11), Moved(one, j, Want(AtPrint), Eating, FREE);
    forall k: nat | k < n && k != i && k != j
      ensures t.sems[Safe(k)] == FREE
    {
      RestsInitially(n, k);
    }
  }

  /** The right neighbour of one that eats can go hungry and wait. */
  lemma OneEatsOneWaits(n: nat, i: nat, j: nat) returns (events: seq<Event>, t: Table)
    requires MIN_PHYLOS <= n <= MAX_PHYLOS && i < n && j < n && Left(n, j) == i
    ensures Leads(n, events, t) && Shape(t) && t.n == n
    ensures t.state == AllThink(n)[i := Eating][j := Hungry] && t.pc[j] == Blocked(AtFork) && t.sems[Mutex] == FREE
  {
    FirstEats(n, i);
    RestsInitially(n, i);
    RestsInitially(n, j);
    OtherRests(Initial(n), i, j);
    t := GoesHungry(n, Then([], i, 11), Moved(Initial(n), i, Want(AtPrint), Eating, FREE), j);
    events := Then(Then([], i, 11), j, 8);
  }

  // ----- changing the ring -----

  /**
    With six philosophers or more: a reachable state in which both waits of `remove_philo` for the last one pass at
    once, and without it two neighbours hold their forks.
   */
  lemma RemovalCanBreakExclusion(n: nat) returns (events: seq<Event>, t: Table)
    requires MIN_PHYLOS < n <= MAX_PHYLOS
    ensures Leads(n, events, t) && Shape(t) && t.n == n
    ensures t.sems[Safe(n - 1)].val > 0 && t.sems[Mutex].val > 0
    ensures HasForks(t.pc[0]) && HasForks(t.pc[n - 2]) && Right(n - 1, n - 2) == 0
    ensures Philosophers.ApartStates(t.state) && !Philosophers.ApartStates(t.state[..n - 1])
  {
    events, t := TwoEat(n, n - 2, 0);
    ClosesBadly(t.state, n);
  }

  lemma ClosesBadly(state: seq<Phase>, n: nat)
    requires n > MIN_PHYLOS && state == AllThink(n)[n - 2 := Eating][0 := Eating]
    ensures Philosophers.ApartStates(state) && !Philosophers.ApartStates(state[..n - 1])
  {
    assert Philosophers.ApartStates(state);
    Philosophers.RemovalKeepsApart(state);
  }

  /**
    With nine philosophers or fewer: a reachable state in which the wait of `add_philo` passes at once; with the new
    one the first is HUNGRY and blocked, and no neighbour of it is EATING.
   */
  lemma AdditionCanUncover(n: nat) returns (events: seq<Event>, t: Table)
    requires MIN_PHYLOS <= n < MAX_PHYLOS
    ensures Leads(n, events, t) && Shape(t) && t.n == n
    ensures t.sems[Mutex].val > 0 && t.pc[0] == Blocked(AtFork) && t.state[0] == Hungry
    ensures Philosophers.CoveredStates(t.state) && !Philosophers.CoveredStates(t.state + [Thinking])
  {
    events, t := OneEatsOneWaits(n, n - 1, 0);
    OpensBadly(t.state, n);
  }

  lemma OpensBadly(state: seq<Phase>, n: nat)
    requires n >= MIN_PHYLOS && state == AllThink(n)[n - 1 := Eating][0 := Hungry]
    ensures Philosophers.CoveredStates(state) && !Philosophers.CoveredStates(state + [Thinking])
  {
    assert Philosophers.ApartStates(state) && Philosophers.CoveredStates(state);
    Philosophers.AdditionKeepsCovered(state);
  }
}
