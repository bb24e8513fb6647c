/**
  The monitor of the philosophers: what the shared states, the program counters and the tokens of the private
  semaphores have to do with one another, in every reachable state.
 */
module PhilosophersMonitor {
  import opened SemaphoreModel
  import opened PhilosophersModel
  import opened PhilosophersBooks

  /** Between the post of MUTEX in take_forks and the end of the wait on s[i]. */
  predicate AtOwnFork(p: PC) {
    p == Want(AtFork) || p == Blocked(AtFork) || p == Granted(AtFork)
  }

  /** Past the wait on s[i] and before put_forks gives the forks back. */
  predicate HasForks(p: PC) {
    || p == Want(AtPrint) || p == Blocked(AtPrint) || p == Granted(AtPrint) || p.Print? || p.PostPrint?
    || p == Want(AtPut) || p == Blocked(AtPut) || p == Granted(AtPut) || p.SetThinking?
  }

  /** Asked for forks in take_forks and not yet past the wait on s[i]. */
  predicate Asking(p: PC) {
    AtOwnFork(p) || p == PostMutex(true) || (p.Test? && p.job == Own)
  }

  /** The shared state of a philosopher agrees with where it is. */
  predicate Agrees(p: PC, x: Phase) {
    if HasForks(p) then x == Eating
    else if Asking(p) then x != Thinking && (p.Test? ==> (x == Eating <==> p.k > 3))
    else x == Thinking
  }

  ghost predicate Agree(t: Table)
    requires Shape(t)
  {
    forall i: nat :: i < t.n ==> Agrees(t.pc[i], t.state[i])
  }

  /** What a call of `test` has established after its first k accesses. */
  ghost predicate TestFacts(t: Table, i: nat)
    requires Shape(t) && i < t.n
  {
    t.pc[i].Test? ==>
      var j := Target(t.n, t.pc[i].job, i);
      var k := t.pc[i].k;
      && k <= 4
      && (1 <= k <= 3 ==> t.state[j] == Hungry)
      && (2 <= k <= 3 ==> t.state[Left(t.n, j)] != Eating)
      && (k == 3 ==> t.state[Right(t.n, j)] != Eating)
      && (k == 4 ==> t.state[j] == Eating)
  }

  ghost predicate Tests(t: Table)
    requires Shape(t)
  {
    forall i: nat :: i < t.n ==> TestFacts(t, i)
  }

  /** No two neighbours are EATING. */
  ghost predicate Apart(t: Table)
    requires Shape(t)
  {
    forall i: nat :: i < t.n ==> !(t.state[i] == Eating && t.state[Right(t.n, i)] == Eating)
  }

  predicate EatingNeighbour(t: Table, j: nat)
    requires |t.state| == t.n && j < t.n
  {
    t.state[Left(t.n, j)] == Eating || t.state[Right(t.n, j)] == Eating
  }

  /** The philosopher o, inside the monitor at p, is still about to test j. */
  predicate WillTest(n: nat, p: PC, o: nat, j: nat)
    requires o < n
  {
    p.Test? &&
    match p.job
    case Own => p.k <= 3 && j == o
    case LeftOf => (p.k <= 3 && j == Left(n, o)) || j == Right(n, o)
    case RightOf => p.k <= 3 && j == Right(n, o)
  }

  ghost predicate CoveredAt(t: Table, j: nat)
    requires Shape(t) && j < t.n
  {
    t.state[j] == Hungry ==> EatingNeighbour(t, j) || exists o: nat :: o < t.n && WillTest(t.n, t.pc[o], o, j)
  }

  /** Every HUNGRY philosopher has an EATING neighbour or is about to be tested. */
  ghost predicate Covered(t: Table)
    requires Shape(t)
  {
    forall j: nat :: j < t.n ==> CoveredAt(t, j)
  }

  /** The philosopher o at p is about to post s[i]. */
  predicate Posting(n: nat, p: PC, o: nat, i: nat)
    requires o < n
  {
    p.Test? && p.k == 4 && Target(n, p.job, o) == i
  }

  ghost predicate Pending(t: Table, i: nat)
    requires Shape(t)
  {
    exists o: nat :: o < t.n && Posting(t.n, t.pc[o], o, i)
  }

  /**
    Exactly one token exists for a philosopher that may eat and has not gone on: in s[i], in flight, or about to be
    posted.
   */
  ghost predicate ForkBook(t: Table, i: nat)
    requires Shape(t) && i < t.n
  {
    var val := t.sems[Fork(i)].val;
    var inFlight := t.pc[i] == Granted(AtFork);
    && val <= 1
    && (val == 1 || inFlight || Pending(t, i) <==> t.state[i] == Eating && Asking(t.pc[i]))
    && !(val == 1 && inFlight) && !(val == 1 && Pending(t, i)) && !(inFlight && Pending(t, i))
  }

  ghost predicate ForkBooks(t: Table)
    requires Shape(t)
  {
    forall i: nat :: i < t.n ==> ForkBook(t, i)
  }

  ghost predicate Monitor(t: Table) {
    Shape(t) && Books(t) && Agree(t) && Tests(t) && Apart(t) && Covered(t) && ForkBooks(t)
  }

  // ----- mutual exclusion -----

  /** At most one philosopher is inside the monitor. */
  lemma OneInMonitor(t: Table, i: nat, j: nat)
    requires Shape(t) && Books(t) && i < t.n && j < t.n
    requires InMonitor(t.pc[i]) && InMonitor(t.pc[j])
    ensures i == j
  {
    assert IsSem(t.n, Mutex) && Book(t.pc, t.sems[Mutex], Mutex);
    assert Owns(t.pc[i], i, Mutex) && Owns(t.pc[j], j, Mutex);
    var o: nat :| OwnedBy(t.pc, Mutex, o);
  }

  lemma Neighbours(n: nat, i: nat)
    requires MIN_PHYLOS <= n && i < n
    ensures Left(n, Right(n, i)) == i && Right(n, Left(n, i)) == i
    ensures Left(n, i) != i && Right(n, i) != i && Left(n, i) != Right(n, i)
  {
  }

  // ----- agreement -----

  /** Steps that leave all states alone keep the agreement if the moved counters do. */
  lemma AgreeGoto(t: Table, u: Table, i: nat, p: PC)
    requires Shape(t) && Agree(t) && i < t.n && Shape(u) && u.n == t.n
    requires u.state == t.state && u.pc == t.pc[i := p] && Agrees(p, t.state[i])
    ensures Agree(u)
  {
  }

  lemma AgreePost(t: Table, i: nat, id: SemId, p: PC)
    requires Shape(t) && Agree(t) && i < t.n && IsSem(t.n, id) && Agrees(p, t.state[i])
    ensures Agree(DoPost(t, i, id, p))
  {
    var u := DoPost(t, i, id, p);
    forall m: nat | m < u.n
      ensures Agrees(u.pc[m], u.state[m])
    {
      assert Agrees(t.pc[m], t.state[m]);
    }
  }

  lemma AgreeTest(t: Table, i: nat)
    requires Monitor(t) && i < t.n && t.pc[i].Test?
    ensures Agree(Step(t, i))
  {
    var k, job := t.pc[i].k, t.pc[i].job;
    assert TestFacts(t, i);
    if k <= 2 {
      AgreeRead(t, i);
    } else if k == 4 {
      assert Agrees(t.pc[i], t.state[i]);
      AgreePost(t, i, Fork(Target(t.n, job, i)), Tested(job));
    } else {
      AgreeSet(t, i);
    }
  }

  /** The steps of `test` that read a state. */
  lemma AgreeRead(t: Table, i: nat)
    requires Monitor(t) && i < t.n && t.pc[i].Test? && t.pc[i].k <= 2
    ensures Agree(Step(t, i))
  {
    var u := Step(t, i);
    var p := u.pc[i];
    assert u == Goto(t, i, p);
    assert Agrees(t.pc[i], t.state[i]);
    AgreeGoto(t, u, i, p);
  }

  /** The step of `test` that sets the state. */
  lemma AgreeSet(t: Table, i: nat)
    requires Monitor(t) && i < t.n && t.pc[i].Test? && t.pc[i].k == 3
    ensures Agree(Step(t, i))
  {
    var u, j := Step(t, i), Target(t.n, t.pc[i].job, i);
    assert TestFacts(t, i) && Agrees(t.pc[i], t.state[i]);
    forall m: nat | m < u.n
      ensures Agrees(u.pc[m], u.state[m])
    {
      assert Agrees(t.pc[m], t.state[m]);
      if m == j && m != i {
        if InMonitor(t.pc[m]) {
          OneInMonitor(t, i, m);
        }
      }
    }
  }

  /** A token in the value or in flight can only be there for a philosopher that may eat. */
  lemma TokenMeansEating(t: Table, i: nat)
    requires Shape(t) && ForkBooks(t) && i < t.n
    requires t.sems[Fork(i)].val > 0 || t.pc[i] == Granted(AtFork)
    ensures t.state[i] == Eating
  {
    assert ForkBook(t, i);
  }

  lemma AgreeWait(t: Table, i: nat, w: WaitAt)
    requires Monitor(t) && i < t.n && t.pc[i] == Want(w)
    ensures Agree(DoWait(t, i, w))
  {
    assert Agrees(t.pc[i], t.state[i]);
    if w == AtFork && t.sems[Fork(i)].val > 0 {
      TokenMeansEating(t, i);
    }
    var u := DoWait(t, i, w);
    AgreeGoto(t, u, i, u.pc[i]);
  }

  lemma AgreePostStep(t: Table, i: nat)
    requires Shape(t) && Agree(t) && i < t.n && (t.pc[i].PostMutex? || t.pc[i].PostPrint? || t.pc[i].PostSafe?)
    ensures Agree(Step(t, i))
  {
    assert Agrees(t.pc[i], t.state[i]);
    match t.pc[i]
    case PostMutex(taking) => AgreePost(t, i, Mutex, if taking then Want(AtFork) else PostSafe);
    case PostPrint => AgreePost(t, i, PrintMutex, Want(AtPut));
    case PostSafe => AgreePost(t, i, Safe(i), Loop);
  }

  lemma AgreePlainStep(t: Table, i: nat)
    requires Shape(t) && Agree(t) && i < t.n
    requires t.pc[i].Loop? || t.pc[i].SetHungry? || t.pc[i].SetThinking? || t.pc[i].Print?
    ensures Agree(Step(t, i))
  {
    assert Agrees(t.pc[i], t.state[i]);
  }

  lemma AgreeStep(t: Table, i: nat)
    requires Monitor(t) && i < t.n
    ensures Agree(Step(t, i))
  {
    match t.pc[i]
    case Want(w) => AgreeWait(t, i, w);
    case Granted(w) =>
      assert Agrees(t.pc[i], t.state[i]);
      if w == AtFork {
        TokenMeansEating(t, i);
      }
      AgreeGoto(t, Step(t, i), i, Past(w));
    case Test(_, _) => AgreeTest(t, i);
    case PostMutex(_) => AgreePostStep(t, i);
    case PostPrint => AgreePostStep(t, i);
    case PostSafe => AgreePostStep(t, i);
    case Blocked(_) =>
    case Done =>
    case _ => AgreePlainStep(t, i);
  }

  // ----- the tests and the exclusion of neighbours -----

  /** A step of i leaves the counters of all others alone, except that one blocked philosopher may be granted. */
  lemma OthersStay(t: Table, i: nat, m: nat)
    requires Shape(t) && i < t.n && m < t.n && m != i
    ensures Shape(Step(t, i)) && Step(t, i).n == t.n
    ensures Step(t, i).pc[m] == t.pc[m] || (t.pc[m].Blocked? && Step(t, i).pc[m] == Granted(t.pc[m].w))
  {
    StepShape(t, Philosopher(i));
  }

  /** The states change only in the monitor, and only at one place. */
  lemma StatesStay(t: Table, i: nat)
    requires Shape(t) && i < t.n
    ensures Shape(Step(t, i)) && Step(t, i).n == t.n
    ensures Step(t, i).state ==
            match t.pc[i]
            case SetHungry => t.state[i := Hungry]
            case SetThinking => t.state[i := Thinking]
            case Test(job, k) => if k == 3 then t.state[Target(t.n, job, i) := Eating] else t.state
            case _ => t.state
  {
    StepShape(t, Philosopher(i));
  }

  lemma TestsStep(t: Table, i: nat)
    requires Monitor(t) && i < t.n && Shape(Step(t, i))
    ensures Tests(Step(t, i))
  {
    var u := Step(t, i);
    StatesStay(t, i);
    forall m: nat | m < u.n
      ensures TestFacts(u, m)
    {
      assert TestFacts(t, m) && TestFacts(t, i);
      if m != i {
        OthersStay(t, i, m);
        if t.pc[m].Test? && InMonitor(t.pc[i]) {
          OneInMonitor(t, i, m);
        }
      } else {
        OwnTestFacts(t, i);
      }
    }
  }

  lemma OwnTestFacts(t: Table, i: nat)
    requires Shape(t) && i < t.n && TestFacts(t, i) && Shape(Step(t, i)) && Step(t, i).n == t.n
    ensures TestFacts(Step(t, i), i)
  {
  }

  lemma ApartStep(t: Table, i: nat)
    requires Monitor(t) && i < t.n && Shape(Step(t, i))
    ensures Apart(Step(t, i))
  {
    var u := Step(t, i);
    StatesStay(t, i);
    assert TestFacts(t, i);
    if t.pc[i].Test? && t.pc[i].k == 3 {
      var j := Target(t.n, t.pc[i].job, i);
      forall m: nat | m < u.n
        ensures !(u.state[m] == Eating && u.state[Right(u.n, m)] == Eating)
      {
        Neighbours(t.n, m);
        Neighbours(t.n, j);
      }
    }
  }

  // ----- no hungry philosopher is forgotten -----

  lemma CoverWitness(t: Table, j: nat, o: nat)
    requires Shape(t) && j < t.n && o < t.n && WillTest(t.n, t.pc[o], o, j)
    ensures CoveredAt(t, j)
  {
  }

  /** Outside the monitor nothing changes for the hungry. */
  lemma CoveredOutside(t: Table, i: nat, j: nat)
    requires Monitor(t) && i < t.n && j < t.n && !t.pc[i].Test? && !t.pc[i].SetHungry? && !t.pc[i].SetThinking?
    requires Shape(Step(t, i)) && Step(t, i).n == t.n
    ensures CoveredAt(Step(t, i), j)
  {
    StatesStay(t, i);
    assert CoveredAt(t, j);
    if t.state[j] == Hungry && !EatingNeighbour(t, j) {
      var o: nat :| o < t.n && WillTest(t.n, t.pc[o], o, j);
      OthersStay(t, i, o);
      CoverWitness(Step(t, i), j, o);
    }
  }

  /** When the monitor is entered or the states are about to change, only the philosopher inside can cover others. */
  lemma CoveredByNeighbour(t: Table, i: nat, j: nat)
    requires Monitor(t) && i < t.n && j < t.n && InMonitor(t.pc[i]) && t.state[j] == Hungry
    ensures EatingNeighbour(t, j) || WillTest(t.n, t.pc[i], i, j)
  {
    assert CoveredAt(t, j);
    if !EatingNeighbour(t, j) {
      var o: nat :| o < t.n && WillTest(t.n, t.pc[o], o, j);
      OneInMonitor(t, i, o);
    }
  }

  lemma CoveredOnSet(t: Table, i: nat, j: nat)
    requires Monitor(t) && i < t.n && j < t.n && (t.pc[i].SetHungry? || t.pc[i].SetThinking?)
    requires Shape(Step(t, i)) && Step(t, i).n == t.n
    ensures CoveredAt(Step(t, i), j)
  {
    var u := Step(t, i);
    assert Agrees(t.pc[i], t.state[i]);
    Neighbours(t.n, j);
    if j == i {
      if t.pc[i].SetHungry? {
        CoverWitness(u, j, i);
      }
    } else if t.state[j] == Hungry {
      CoveredByNeighbour(t, i, j);
      if i == Left(t.n, j) || i == Right(t.n, j) {
        if t.pc[i].SetThinking? {
          CoverWitness(u, j, i);
        }
      }
    }
  }

  lemma CoveredOnTest(t: Table, i: nat, j: nat)
    requires Monitor(t) && i < t.n && j < t.n && t.pc[i].Test?
    requires Shape(Step(t, i)) && Step(t, i).n == t.n
    ensures CoveredAt(Step(t, i), j)
  {
    var u := Step(t, i);
    StatesStay(t, i);
    assert TestFacts(t, i);
    if u.state[j] == Hungry {
      CoveredByNeighbour(t, i, j);
      if !EatingNeighbour(t, j) {
        if WillTest(u.n, u.pc[i], i, j) {
          CoverWitness(u, j, i);
        }
      }
    }
  }

  lemma CoveredStep(t: Table, i: nat)
    requires Monitor(t) && i < t.n && Shape(Step(t, i)) && Step(t, i).n == t.n
    ensures Covered(Step(t, i))
  {
    forall j: nat | j < t.n
      ensures CoveredAt(Step(t, i), j)
    {
      if t.pc[i].Test? {
        CoveredOnTest(t, i, j);
      } else if t.pc[i].SetHungry? || t.pc[i].SetThinking? {
        CoveredOnSet(t, i, j);
      } else {
        CoveredOutside(t, i, j);
      }
    }
  }
}
