/** The tokens of the private semaphores, and the main results about every run of the philosophers. */
module Philosophers {
  import opened Common
  import SemaphoreModel
  import opened PhilosophersModel
  import opened PhilosophersBooks
  import opened PhilosophersMonitor

  // ----- the private semaphores -----

  /** If the same philosophers are about to post s[m], the token is pending in both tables or in neither. */
  lemma PendingSame(t: Table, u: Table, m: nat)
    requires Shape(t) && Shape(u) && u.n == t.n
    requires forall o: nat :: o < t.n ==> Posting(t.n, t.pc[o], o, m) == Posting(t.n, u.pc[o], o, m)
    ensures Pending(t, m) == Pending(u, m)
  {
    if Pending(t, m) {
      var o: nat :| o < t.n && Posting(t.n, t.pc[o], o, m);
      assert Posting(t.n, u.pc[o], o, m);
    }
    if Pending(u, m) {
      var o: nat :| o < t.n && Posting(t.n, u.pc[o], o, m);
      assert Posting(t.n, t.pc[o], o, m);
    }
  }

  /** A step that touches neither the value of s[m], nor whether m is owed a token, nor the posts to come. */
  lemma ForkUntouched(t: Table, u: Table, m: nat)
    requires Shape(t) && Shape(u) && u.n == t.n && m < t.n && ForkBook(t, m)
    requires u.sems[Fork(m)].val == t.sems[Fork(m)].val
    requires (u.pc[m] == Granted(AtFork)) == (t.pc[m] == Granted(AtFork))
    requires (u.state[m] == Eating && Asking(u.pc[m])) == (t.state[m] == Eating && Asking(t.pc[m]))
    requires forall o: nat :: o < t.n ==> Posting(t.n, t.pc[o], o, m) == Posting(t.n, u.pc[o], o, m)
    ensures ForkBook(u, m)
  {
    PendingSame(t, u, m);
  }

  /** A process woken by another semaphore than its own fork's was not waiting for a fork. */
  lemma WokenElsewhere(t: Table, id: SemId, m: nat)
    requires Shape(t) && Books(t) && IsSem(t.n, id) && m < t.n
    requires SemaphoreModel.Woken(t.sems[id]) == Some(m)
    ensures BlockedOn(t.pc[m], m, id) && (id != Fork(m) ==> t.pc[m] != Blocked(AtFork))
  {
    assert Book(t.pc, t.sems[id], id);
    assert m in t.sems[id].waiters;
  }

  /** Posting anything but s[m] leaves the token account of m alone. */
  lemma ForkPostElsewhere(t: Table, i: nat, id: SemId, p: PC, m: nat)
    requires Monitor(t) && i < t.n && m < t.n && IsSem(t.n, id) && id != Fork(m)
    requires !t.pc[i].Blocked? && t.pc[i] != Granted(AtFork) && p != Granted(AtFork)
    requires Asking(t.pc[i]) == Asking(p)
    requires Posting(t.n, t.pc[i], i, m) == Posting(t.n, p, i, m)
    ensures ForkBook(DoPost(t, i, id, p), m)
  {
    var u := DoPost(t, i, id, p);
    assert ForkBook(t, m);
    PostMovesOne(t, i, id, p, m);
    forall o: nat | o < t.n
      ensures Posting(t.n, t.pc[o], o, m) == Posting(t.n, u.pc[o], o, m)
    {
      PostMovesOne(t, i, id, p, o);
    }
    ForkUntouched(t, u, m);
  }

  /** Where a post leaves philosopher m. */
  lemma PostMovesOne(t: Table, i: nat, id: SemId, p: PC, m: nat)
    requires Shape(t) && Books(t) && i < t.n && m < t.n && IsSem(t.n, id)
    ensures var q := DoPost(t, i, id, p).pc[m];
            if m == i then q == p
            else q == t.pc[m] || (BlockedOn(t.pc[m], m, id) && q == Granted(t.pc[m].w))
  {
    if SemaphoreModel.Woken(t.sems[id]) == Some(m) {
      WokenElsewhere(t, id, m);
    }
  }

  lemma ForkGoto(t: Table, u: Table, i: nat, p: PC, m: nat)
    requires Shape(t) && ForkBooks(t) && i < t.n && m < t.n && Shape(u) && u.n == t.n
    requires u.pc == t.pc[i := p] && u.sems[Fork(m)].val == t.sems[Fork(m)].val
    requires t.pc[i] != Granted(AtFork) && p != Granted(AtFork)
    requires (u.state[m] == Eating && Asking(u.pc[m])) == (t.state[m] == Eating && Asking(t.pc[m]))
    requires Posting(t.n, t.pc[i], i, m) == Posting(t.n, p, i, m)
    ensures ForkBook(u, m)
  {
    assert ForkBook(t, m);
    ForkUntouched(t, u, m);
  }

  /** The wait on s[i] and the resumption from it use the token up. */
  lemma ForkTaken(t: Table, i: nat)
    requires Monitor(t) && i < t.n && (t.pc[i] == Want(AtFork) || t.pc[i] == Granted(AtFork))
    ensures Shape(Step(t, i)) && Step(t, i).n == t.n && ForkBook(Step(t, i), i)
  {
    var u := Step(t, i);
    assert ForkBook(t, i);
    PendingSame(t, u, i);
  }

  /** `test` writes EATING: the token is now pending, and there was none before. */
  lemma ForkPromised(t: Table, i: nat, m: nat)
    requires Monitor(t) && i < t.n && m < t.n && t.pc[i].Test? && t.pc[i].k == 3
    ensures Shape(Step(t, i)) && Step(t, i).n == t.n && ForkBook(Step(t, i), m)
  {
    var u := Step(t, i);
    var j := Target(t.n, t.pc[i].job, i);
    assert TestFacts(t, i) && ForkBook(t, m) && Agrees(t.pc[m], t.state[m]);
    if m == j {
      assert Posting(u.n, u.pc[i], i, m);
      assert Pending(u, m);
    } else {
      ForkGoto(t, u, i, u.pc[i], m);
    }
  }

  /** `test` posts s[j]: the pending token goes into the value or to the blocked philosopher. */
  lemma ForkPosted(t: Table, i: nat, m: nat)
    requires Monitor(t) && i < t.n && m < t.n && t.pc[i].Test? && t.pc[i].k == 4
    ensures Shape(Step(t, i)) && Step(t, i).n == t.n && ForkBook(Step(t, i), m)
  {
    var job := t.pc[i].job;
    var j := Target(t.n, job, i);
    if m != j {
      ForkPostElsewhere(t, i, Fork(j), Tested(job), m);
    } else {
      ForkPostedTarget(t, i);
    }
  }

  lemma ForkPostedTarget(t: Table, i: nat)
    requires Monitor(t) && i < t.n && t.pc[i].Test? && t.pc[i].k == 4
    ensures Shape(Step(t, i)) && Step(t, i).n == t.n && ForkBook(Step(t, i), Target(t.n, t.pc[i].job, i))
  {
    var u := Step(t, i);
    var j := Target(t.n, t.pc[i].job, i);
    var s := t.sems[Fork(j)];
    assert Posting(t.n, t.pc[i], i, j) && Pending(t, j);
    assert ForkBook(t, j) && Book(t.pc, s, Fork(j));
    assert s.val == 0;
    if s.waiters != [] {
      assert s.waiters[0] in s.waiters;
      assert s.waiters[0] == j;
    } else {
      assert t.pc[j] != Blocked(AtFork);
    }
    forall o: nat | o < u.n
      ensures !Posting(u.n, u.pc[o], o, j)
    {
      if o != i {
        OthersStay(t, i, o);
        if t.pc[o].Test? {
          OneInMonitor(t, i, o);
        }
      }
    }
  }

  lemma ForkTest(t: Table, i: nat, m: nat)
    requires Monitor(t) && i < t.n && m < t.n && t.pc[i].Test?
    ensures Shape(Step(t, i)) && Step(t, i).n == t.n && ForkBook(Step(t, i), m)
  {
    StepShape(t, PhilosophersModel.Philosopher(i));
    assert TestFacts(t, i);
    var u, k := Step(t, i), t.pc[i].k;
    if k <= 2 {
      ForkGoto(t, u, i, u.pc[i], m);
    } else if k == 3 {
      ForkPromised(t, i, m);
    } else {
      ForkPosted(t, i, m);
    }
  }

  lemma ForkPlain(t: Table, i: nat, m: nat)
    requires Monitor(t) && i < t.n && m < t.n
    requires t.pc[i].Loop? || t.pc[i].SetHungry? || t.pc[i].SetThinking? || t.pc[i].Print?
    ensures Shape(Step(t, i)) && Step(t, i).n == t.n && ForkBook(Step(t, i), m)
  {
    assert Agrees(t.pc[i], t.state[i]);
    var u := Step(t, i);
    ForkGoto(t, u, i, u.pc[i], m);
  }

  lemma ForkWait(t: Table, i: nat, m: nat)
    requires Monitor(t) && i < t.n && m < t.n && (t.pc[i].Want? || t.pc[i].Granted?)
    ensures Shape(Step(t, i)) && Step(t, i).n == t.n && ForkBook(Step(t, i), m)
  {
    StepShape(t, PhilosophersModel.Philosopher(i));
    if t.pc[i].w == AtFork && m == i {
      ForkTaken(t, i);
    } else {
      ForkWaitElsewhere(t, i, m);
    }
  }

  /** A wait on anything but s[m], or the resumption from it. */
  lemma ForkWaitElsewhere(t: Table, i: nat, m: nat)
    requires Monitor(t) && i < t.n && m < t.n && (t.pc[i].Want? || t.pc[i].Granted?) && (t.pc[i].w != AtFork || m != i)
    requires Shape(Step(t, i)) && Step(t, i).n == t.n
    ensures ForkBook(Step(t, i), m)
  {
    var u := Step(t, i);
    var p := u.pc[i];
    assert ForkBook(t, m) && WaitId(t.pc[i].w, i) != Fork(m);
    assert u.pc == t.pc[i := p] && !p.Test?;
    ForkUntouched(t, u, m);
  }

  lemma ForkPostStep(t: Table, i: nat, m: nat)
    requires Monitor(t) && i < t.n && m < t.n && (t.pc[i].PostMutex? || t.pc[i].PostPrint? || t.pc[i].PostSafe?)
    ensures Shape(Step(t, i)) && Step(t, i).n == t.n && ForkBook(Step(t, i), m)
  {
    StepShape(t, PhilosophersModel.Philosopher(i));
    match t.pc[i]
    case PostMutex(taking) => ForkPostElsewhere(t, i, Mutex, if taking then Want(AtFork) else PostSafe, m);
    case PostPrint => ForkPostElsewhere(t, i, PrintMutex, Want(AtPut), m);
    case PostSafe => ForkPostElsewhere(t, i, Safe(i), Loop, m);
  }

  lemma ForkBooksStep(t: Table, i: nat)
    requires Monitor(t) && i < t.n && Shape(Step(t, i)) && Step(t, i).n == t.n
    ensures ForkBooks(Step(t, i))
  {
    forall m: nat | m < t.n
      ensures ForkBook(Step(t, i), m)
    {
      match t.pc[i] {
        case Want(_) => ForkWait(t, i, m);
        case Granted(_) => ForkWait(t, i, m);
        case Test(_, _) => ForkTest(t, i, m);
        case PostMutex(_) => ForkPostStep(t, i, m);
        case PostPrint => ForkPostStep(t, i, m);
        case PostSafe => ForkPostStep(t, i, m);
        case Blocked(_) =>
        case Done =>
        case _ => ForkPlain(t, i, m);
      }
    }
  }

  // ----- all runs -----

  lemma MonitorStep(t: Table, e: Event)
    requires Monitor(t)
    ensures Monitor(Next(t, e))
  {
    StepShape(t, e);
    match e
    case Quit => QuitKeeps(t);
    case Philosopher(i) =>
      if i < t.n {
        StepKeepsBooks(t, i);
        AgreeStep(t, i);
        TestsStep(t, i);
        ApartStep(t, i);
        CoveredStep(t, i);
        ForkBooksStep(t, i);
      }
  }

  lemma QuitKeeps(t: Table)
    requires Monitor(t)
    ensures Monitor(t.(end := true))
  {
    var u := t.(end := true);
    assert Books(u) && Agree(u) && Apart(u);
    assert Tests(u) by {
      assert forall i: nat :: i < t.n ==> TestFacts(t, i) == TestFacts(u, i);
    }
    forall j: nat | j < t.n
      ensures CoveredAt(u, j) && ForkBook(u, j)
    {
      assert CoveredAt(t, j) && ForkBook(t, j);
      PendingSame(t, u, j);
    }
  }

  lemma MonitorInitially(n: nat)
    requires MIN_PHYLOS <= n <= MAX_PHYLOS
    ensures Monitor(Initial(n))
  {
    var t := Initial(n);
    AllSemsComplete(n);
    forall id | IsSem(n, id)
      ensures Book(t.pc, t.sems[id], id)
    {
      assert t.sems[id] == InitialSem(id);
    }
  }

  lemma {:induction false} MonitorAlways(n: nat, events: seq<Event>)
    requires MIN_PHYLOS <= n <= MAX_PHYLOS
    ensures Monitor(Exec(n, events))
  {
    if events == [] {
      MonitorInitially(n);
    } else {
      MonitorAlways(n, events[..|events| - 1]);
      MonitorStep(Exec(n, events[..|events| - 1]), events[|events| - 1]);
    }
  }

  /** In no reachable state do two neighbours both hold their forks. */
  lemma NeighboursNeverEatTogether(n: nat, events: seq<Event>, i: nat)
    requires MIN_PHYLOS <= n <= MAX_PHYLOS && i < n
    ensures var t := Exec(n, events); !(HasForks(t.pc[i]) && HasForks(t.pc[Right(n, i)]))
  {
    MonitorAlways(n, events);
    var t := Exec(n, events);
    assert Agrees(t.pc[i], t.state[i]) && Agrees(t.pc[Right(n, i)], t.state[Right(n, i)]);
  }

  /** MUTEX protects the shared states: in every reachable state at most one philosopher is inside the monitor. */
  lemma MonitorIsExclusive(n: nat, events: seq<Event>, i: nat, j: nat)
    requires MIN_PHYLOS <= n <= MAX_PHYLOS && i < n && j < n && i != j
    ensures var t := Exec(n, events); !(InMonitor(t.pc[i]) && InMonitor(t.pc[j]))
  {
    MonitorAlways(n, events);
    var t := Exec(n, events);
    if InMonitor(t.pc[i]) && InMonitor(t.pc[j]) {
      OneInMonitor(t, i, j);
    }
  }

  /**
    Whenever MUTEX is free, a philosopher blocked on its private semaphore is HUNGRY and has an EATING neighbour:
    nobody waits without a reason and no hand-off is outstanding.
   */
  lemma HungryWaitForANeighbour(n: nat, events: seq<Event>, i: nat)
    requires MIN_PHYLOS <= n <= MAX_PHYLOS && i < n && Exec(n, events).sems[Mutex].val > 0
    ensures var t := Exec(n, events);
            && (t.state[i] == Hungry ==> EatingNeighbour(t, i))
            && (t.pc[i] == Blocked(AtFork) ==> t.state[i] == Hungry)
  {
    MonitorAlways(n, events);
    var t := Exec(n, events);
    assert IsSem(n, Mutex) && Book(t.pc, t.sems[Mutex], Mutex);
    assert forall o: nat :: o < n ==> !Owns(t.pc[o], o, Mutex);
    assert CoveredAt(t, i);
    if t.pc[i] == Blocked(AtFork) {
      BlockedEatingIsPending(t, i);
    }
  }

  /** A philosopher blocked on its private semaphore although it may eat: the post is on its way. */
  lemma BlockedEatingIsPending(t: Table, i: nat)
    requires Monitor(t) && i < t.n && t.pc[i] == Blocked(AtFork)
    ensures t.state[i] == Hungry || Pending(t, i)
  {
    assert Agrees(t.pc[i], t.state[i]) && ForkBook(t, i);
    assert IsSem(t.n, Fork(i)) && Book(t.pc, t.sems[Fork(i)], Fork(i));
    assert BlockedOn(t.pc[i], i, Fork(i));
  }

  /** A philosopher blocked on anything but its private semaphore waits for one that can take a step. */
  lemma BlockedWaitsForOwner(t: Table, i: nat)
    requires Monitor(t) && i < t.n && t.pc[i].Blocked? && t.pc[i].w != AtFork
    ensures exists o: nat :: o < t.n && CanStep(t.pc[o])
  {
    var id := WaitId(t.pc[i].w, i);
    assert IsSem(t.n, id) && Book(t.pc, t.sems[id], id);
    assert BlockedOn(t.pc[i], i, id);
    var o: nat :| OwnedBy(t.pc, id, o);
    assert CanStep(t.pc[o]);
  }

  lemma SomebodyCanStep(t: Table, i: nat)
    requires Monitor(t) && i < t.n && t.pc[i].Blocked?
    ensures exists o: nat :: o < t.n && CanStep(t.pc[o])
  {
    if t.pc[i].w != AtFork {
      BlockedWaitsForOwner(t, i);
    } else {
      BlockedEatingIsPending(t, i);
      if Pending(t, i) {
        var o: nat :| o < t.n && Posting(t.n, t.pc[o], o, i);
        assert CanStep(t.pc[o]);
      } else {
        NeighbourCanStep(t, i);
      }
    }
  }

  lemma NeighbourCanStep(t: Table, i: nat)
    requires Monitor(t) && i < t.n && t.state[i] == Hungry
    ensures exists o: nat :: o < t.n && CanStep(t.pc[o])
  {
    assert CoveredAt(t, i);
    if !EatingNeighbour(t, i) {
      var o: nat :| o < t.n && WillTest(t.n, t.pc[o], o, i);
      assert CanStep(t.pc[o]);
    } else {
      var j := if t.state[Left(t.n, i)] == Eating then Left(t.n, i) else Right(t.n, i);
      assert Agrees(t.pc[j], t.state[j]);
      if t.pc[j].Blocked? && t.pc[j].w != AtFork {
        BlockedWaitsForOwner(t, j);
      } else if t.pc[j].Blocked? {
        BlockedEatingIsPending(t, j);
        var o: nat :| o < t.n && Posting(t.n, t.pc[o], o, j);
        assert CanStep(t.pc[o]);
      } else {
        assert CanStep(t.pc[j]);
      }
    }
  }

  /** The monitor never deadlocks: in every reachable state somebody can take a step, unless all have left the table. */
  lemma NoDeadlock(n: nat, events: seq<Event>)
    requires MIN_PHYLOS <= n <= MAX_PHYLOS
    ensures var t := Exec(n, events);
            (exists o: nat :: o < n && CanStep(t.pc[o])) || (forall i: nat :: i < n ==> t.pc[i].Done?)
  {
    MonitorAlways(n, events);
    var t := Exec(n, events);
    if i: nat :| i < n && t.pc[i].Blocked? {
      SomebodyCanStep(t, i);
    } else if i: nat :| i < n && !t.pc[i].Done? {
      assert CanStep(t.pc[i]);
    }
  }

  /** No queue of ten ever overflows: a blocked philosopher is always in the queue of the semaphore it waits for. */
  lemma NobodyDropped(n: nat, events: seq<Event>, i: nat)
    requires MIN_PHYLOS <= n <= MAX_PHYLOS && i < n && Exec(n, events).pc[i].Blocked?
    ensures var t := Exec(n, events); i in t.sems[WaitId(t.pc[i].w, i)].waiters
  {
    MonitorAlways(n, events);
    var t := Exec(n, events);
    var id := WaitId(t.pc[i].w, i);
    assert IsSem(n, id) && Book(t.pc, t.sems[id], id);
    assert BlockedOn(t.pc[i], i, id);
  }

  // ----- changing the ring -----

  predicate ApartStates(state: seq<Phase>) {
    forall i: nat :: i < |state| ==> !(state[i] == Eating && state[Right(|state|, i)] == Eating)
  }

  /** With MUTEX free: every HUNGRY philosopher has an EATING neighbour. */
  predicate CoveredStates(state: seq<Phase>) {
    forall i: nat :: i < |state| && state[i] == Hungry ==>
      state[Left(|state|, i)] == Eating || state[Right(|state|, i)] == Eating
  }

  /**
    `remove_philo` closes the ring behind the last philosopher. The exclusion of neighbours survives exactly when
    the two philosophers that become neighbours are not both EATING, which nothing in the program checks.
   */
  lemma RemovalKeepsApart(state: seq<Phase>)
    requires |state| > MIN_PHYLOS && ApartStates(state)
    ensures ApartStates(state[..|state| - 1]) <==> !(state[0] == Eating && state[|state| - 2] == Eating)
  {
    var m := |state| - 1;
    var s := state[..m];
    assert Right(m, m - 1) == 0 && s[m - 1] == state[m - 1];
    forall i: nat | i < m - 1
      ensures Right(m, i) == i + 1 && Right(|state|, i) == i + 1
    {
    }
    if !(state[0] == Eating && state[m - 1] == Eating) {
      forall i: nat | i < m
        ensures !(s[i] == Eating && s[Right(m, i)] == Eating)
      {
        if i < m - 1 {
          assert !(state[i] == Eating && state[Right(|state|, i)] == Eating);
        }
      }
    }
  }

  /**
    `add_philo` puts a THINKING philosopher between the last and the first. Neighbours stay apart, but a HUNGRY
    philosopher at the seam may lose the only EATING neighbour that would have tested it.
   */
  lemma AdditionKeepsCovered(state: seq<Phase>)
    requires MIN_PHYLOS <= |state| && ApartStates(state) && CoveredStates(state)
    ensures ApartStates(state + [Thinking])
    ensures CoveredStates(state + [Thinking]) <==>
            && (state[0] == Hungry ==> state[1] == Eating)
            && (state[|state| - 1] == Hungry ==> state[|state| - 2] == Eating)
  {
    var n := |state|;
    var s := state + [Thinking];
    forall i: nat | i < n + 1
      ensures !(s[i] == Eating && s[Right(n + 1, i)] == Eating)
    {
      if i < n - 1 {
        assert !(state[i] == Eating && state[Right(n, i)] == Eating);
      }
    }
    assert Left(n + 1, 0) == n && Right(n + 1, 0) == 1;
    assert Left(n + 1, n - 1) == n - 2 && Right(n + 1, n - 1) == n;
    if (state[0] == Hungry ==> state[1] == Eating) && (state[n - 1] == Hungry ==> state[n - 2] == Eating) {
      forall i: nat | i < n + 1 && s[i] == Hungry
        ensures s[Left(n + 1, i)] == Eating || s[Right(n + 1, i)] == Eating
      {
        if 0 < i < n - 1 {
          assert state[Left(n, i)] == Eating || state[Right(n, i)] == Eating;
        }
      }
    }
  }
}
