/** After the user quits everybody leaves the table, whoever moves when. */
module PhilosophersQuit {
  import opened PhilosophersModel
  import opened PhilosophersMonitor
  import Philosophers

  /** How many steps at most are left of the cycle, from the wait on `safe` to the top of the loop and out. */
  function StepsLeft(p: PC): (r: nat)
    ensures r <= 38 && (r == 0 <==> p == Done)
  {
    match p
    case Done => 0
    case Loop => 1
    case PostSafe => 2
    case PostMutex(taking) => if taking then 26 else 3
    case Test(job, k) =>
      (match job case RightOf => 4 case LeftOf => 9 case Own => 27) + if k <= 4 then 4 - k else 0
    case SetThinking => 14
    case PostPrint => 18
    case Print => 19
    case SetHungry => 32
    case Granted(w) => WaitsLeft(w)
    case Blocked(w) => WaitsLeft(w) + 1
    case Want(w) => WaitsLeft(w) + 2
  }

  function WaitsLeft(w: WaitAt): (r: nat)
    ensures 15 <= r <= 36
  {
    match w
    case AtPut => 15
    case AtPrint => 20
    case AtFork => 23
    case AtTake => 33
    case AtSafe => 36
  }

  function AllLeft(pc: seq<PC>): (r: nat)
    ensures r <= 38 * |pc|
  {
    if pc == [] then 0 else AllLeft(pc[..|pc| - 1]) + StepsLeft(pc[|pc| - 1])
  }

  ghost predicate NoMore(pc: seq<PC>, q: seq<PC>) {
    |q| == |pc| && forall m: nat :: m < |pc| ==> StepsLeft(q[m]) <= StepsLeft(pc[m])
  }

  lemma {:induction false} SumFalls(pc: seq<PC>, q: seq<PC>, i: nat)
    requires NoMore(pc, q) && i < |pc| && StepsLeft(q[i]) < StepsLeft(pc[i])
    ensures AllLeft(q) < AllLeft(pc)
  {
    var n := |pc| - 1;
    if i < n {
      SumFalls(pc[..n], q[..n], i);
    } else {
      SumKeeps(pc[..n], q[..n]);
    }
  }

  lemma {:induction false} SumKeeps(pc: seq<PC>, q: seq<PC>)
    requires NoMore(pc, q)
    ensures AllLeft(q) <= AllLeft(pc)
  {
    if pc != [] {
      SumKeeps(pc[..|pc| - 1], q[..|pc| - 1]);
    }
  }

  /** Once the user has quit, every step takes its philosopher nearer to the end of its cycle. */
  lemma OwnStep(t: Table, i: nat)
    requires Monitor(t) && t.end && i < t.n && CanStep(t.pc[i])
    ensures |Step(t, i).pc| == t.n && StepsLeft(Step(t, i).pc[i]) < StepsLeft(t.pc[i])
  {
    assert TestFacts(t, i);
    match t.pc[i]
    case Test(_, _) => OwnTest(t, i);
    case Want(_) => OwnWait(t, i);
    case _ =>
  }

  lemma OwnTest(t: Table, i: nat)
    requires Shape(t) && i < t.n && t.pc[i].Test? && t.pc[i].k <= 4
    ensures |Step(t, i).pc| == t.n && StepsLeft(Step(t, i).pc[i]) < StepsLeft(t.pc[i])
  {
  }

  lemma OwnWait(t: Table, i: nat)
    requires Shape(t) && i < t.n && t.pc[i].Want?
    ensures |Step(t, i).pc| == t.n && StepsLeft(Step(t, i).pc[i]) < StepsLeft(t.pc[i])
  {
  }

  lemma StepFalls(t: Table, i: nat)
    requires Monitor(t) && t.end && i < t.n && CanStep(t.pc[i])
    ensures AllLeft(Step(t, i).pc) < AllLeft(t.pc)
  {
    OwnStep(t, i);
    forall m: nat | m < t.n
      ensures StepsLeft(Step(t, i).pc[m]) <= StepsLeft(t.pc[m])
    {
      if m != i {
        OthersStay(t, i, m);
      }
    }
    SumFalls(t.pc, Step(t, i).pc, i);
  }

  // ----- all runs -----

  /** The test of `end` at the top of the loop is where a philosopher leaves, and nobody comes back. */
  lemma LeavesAtTheTop(t: Table, i: nat)
    requires Shape(t) && i < t.n
    ensures t.pc[i] == Loop ==> Step(t, i).pc[i] == (if t.end then Done else Want(AtSafe))
    ensures t.pc[i] == Done ==> Step(t, i) == t
    ensures Step(t, i).pc[i] == Done ==> t.pc[i] == Done || (t.pc[i] == Loop && t.end)
  {
  }

  lemma LastEvent(n: nat, events: seq<Event>, e: Event)
    requires MIN_PHYLOS <= n <= MAX_PHYLOS
    ensures Exec(n, events + [e]) == Next(Exec(n, events), e)
  {
    assert (events + [e])[..|events|] == events;
  }

  lemma QuitStays(t: Table, e: Event)
    requires Shape(t) && t.end
    ensures Next(t, e).end
  {
    StepShape(t, e);
  }

  /** A philosopher that can go on. */
  predicate Moves(t: Table, e: Event)
    requires Shape(t)
  {
    e.Philosopher? && e.i < t.n && CanStep(t.pc[e.i])
  }

  lemma MoveFalls(n: nat, events: seq<Event>, e: Event)
    requires MIN_PHYLOS <= n <= MAX_PHYLOS && Exec(n, events).end && Moves(Exec(n, events), e)
    ensures Exec(n, events + [e]).end
    ensures AllLeft(Exec(n, events + [e]).pc) < AllLeft(Exec(n, events).pc)
  {
    Philosophers.MonitorAlways(n, events);
    LastEvent(n, events, e);
    QuitStays(Exec(n, events), e);
    StepFalls(Exec(n, events), e.i);
  }

  ghost predicate AllGone(t: Table) {
    forall i: nat :: i < |t.pc| ==> t.pc[i] == Done
  }

  lemma MoveOrGone(n: nat, events: seq<Event>) returns (e: Event)
    requires MIN_PHYLOS <= n <= MAX_PHYLOS
    ensures Moves(Exec(n, events), e) || AllGone(Exec(n, events))
  {
    Philosophers.NoDeadlock(n, events);
    e := Quit;
    if i: nat :| i < n && CanStep(Exec(n, events).pc[i]) {
      e := PhilosophersModel.Philosopher(i);
    }
  }

  ghost predicate Empties(n: nat, events: seq<Event>, more: seq<Event>)
    requires MIN_PHYLOS <= n <= MAX_PHYLOS
  {
    AllGone(Exec(n, events + more))
  }

  lemma EmptiesFrom(n: nat, events: seq<Event>, e: Event, rest: seq<Event>)
    requires MIN_PHYLOS <= n <= MAX_PHYLOS && Empties(n, events + [e], rest)
    ensures Empties(n, events, [e] + rest)
  {
    assert events + ([e] + rest) == (events + [e]) + rest;
  }

  lemma EmptyNow(n: nat, events: seq<Event>)
    requires MIN_PHYLOS <= n <= MAX_PHYLOS && AllGone(Exec(n, events))
    ensures Empties(n, events, [])
  {
    assert events + [] == events;
  }

  /** From every state after the user has quit, some continuation leads to an empty table. */
  lemma {:induction false} TableEmpties(n: nat, events: seq<Event>) returns (more: seq<Event>)
    requires MIN_PHYLOS <= n <= MAX_PHYLOS && Exec(n, events).end
    ensures Empties(n, events, more)
    decreases AllLeft(Exec(n, events).pc)
  {
    var e := MoveOrGone(n, events);
    if AllGone(Exec(n, events)) {
      more := [];
      EmptyNow(n, events);
    } else {
      MoveFalls(n, events, e);
      var rest := TableEmpties(n, events + [e]);
      more := [e] + rest;
      EmptiesFrom(n, events, e, rest);
    }
  }

  /** The events from position k on are moves. */
  ghost predicate OnlyMoves(n: nat, events: seq<Event>, k: nat)
    requires MIN_PHYLOS <= n <= MAX_PHYLOS
  {
    forall j: nat :: k <= j < |events| ==> Moves(Exec(n, events[..j]), events[j])
  }

  lemma LastMoveFalls(n: nat, events: seq<Event>, m: nat)
    requires MIN_PHYLOS <= n <= MAX_PHYLOS && m + 1 == |events|
    requires Exec(n, events[..m]).end && Moves(Exec(n, events[..m]), events[m])
    ensures Exec(n, events).end && AllLeft(Exec(n, events).pc) < AllLeft(Exec(n, events[..m]).pc)
  {
    MoveFalls(n, events[..m], events[m]);
    assert events == events[..m] + [events[m]];
  }

  /** After the user has quit, at position k, b more steps have been taken, of at most a. */
  ghost predicate Spent(n: nat, events: seq<Event>, a: nat, b: nat)
    requires MIN_PHYLOS <= n <= MAX_PHYLOS
  {
    Exec(n, events).end && AllLeft(Exec(n, events).pc) + b <= a
  }

  lemma {:induction false} MovesAreFew(n: nat, events: seq<Event>, k: nat, a: nat)
    requires MIN_PHYLOS <= n <= MAX_PHYLOS && k <= |events| && OnlyMoves(n, events, k)
    requires Spent(n, events[..k], a, 0)
    ensures Spent(n, events, a, |events| - k)
    decreases |events|
  {
    if k == |events| {
      assert events[..k] == events;
    } else {
      var m := |events| - 1;
      MovesBefore(n, events, k);
      assert events[..m][..k] == events[..k];
      MovesAreFew(n, events[..m], k, a);
      LastMoveFalls(n, events, m);
    }
  }

  lemma MovesBefore(n: nat, events: seq<Event>, k: nat)
    requires MIN_PHYLOS <= n <= MAX_PHYLOS && k < |events| && OnlyMoves(n, events, k)
    ensures OnlyMoves(n, events[..|events| - 1], k)
  {
    var before := events[..|events| - 1];
    forall j: nat | k <= j < |before|
      ensures Moves(Exec(n, before[..j]), before[j])
    {
      assert before[..j] == events[..j];
    }
  }

  /**
    However the philosophers are scheduled after the user has quit, together they take no more than 38 steps each, and
    when nobody can take another one all of them have left.
   */
  lemma EverybodyLeaves(n: nat, events: seq<Event>, k: nat)
    requires MIN_PHYLOS <= n <= MAX_PHYLOS && k <= |events| && OnlyMoves(n, events, k) && Exec(n, events[..k]).end
    ensures |events| - k <= 38 * n
    ensures (forall e: Event :: !Moves(Exec(n, events), e)) ==> AllGone(Exec(n, events))
  {
    MovesAreFew(n, events, k, AllLeft(Exec(n, events[..k]).pc));
    var e := MoveOrGone(n, events);
  }
}
