/** Semaphore bookkeeping of the philosophers: who waits, who owns, and that no waiter is ever dropped. */
module PhilosophersBooks {
  import opened Counting
  import opened SemaphoreModel
  import opened PhilosophersModel

  predicate BlockedOn(p: PC, i: nat, id: SemId) {
    p.Blocked? && WaitId(p.w, i) == id
  }

  predicate InMonitor(p: PC) {
    p.SetHungry? || p.SetThinking? || p.Test? || p.PostMutex?
  }

  /** The philosopher is between acquiring the semaphore and posting it, a token in flight included. */
  predicate Owns(p: PC, i: nat, id: SemId) {
    match id
    case Mutex => InMonitor(p) || p == Granted(AtTake) || p == Granted(AtPut)
    case PrintMutex => p.Print? || p.PostPrint? || p == Granted(AtPrint)
    case Safe(j) => i == j && !(p.Loop? || p.Done? || p == Want(AtSafe) || p == Blocked(AtSafe))
    case Fork(_) => false
  }

  /** The waiters are exactly the philosophers blocked on the semaphore, each once. */
  ghost predicate Queued(pc: seq<PC>, sem: Sem, id: SemId) {
    && Distinct(sem.waiters)
    && forall j: nat :: j in sem.waiters <==> j < |pc| && BlockedOn(pc[j], j, id)
  }

  ghost predicate OwnedBy(pc: seq<PC>, id: SemId, o: nat) {
    && o < |pc| && Owns(pc[o], o, id)
    && forall j: nat :: j < |pc| && Owns(pc[j], j, id) ==> j == o
  }

  /** Either the value is 1 and nobody owns the semaphore, or it is 0 and exactly one philosopher does. */
  ghost predicate Held(pc: seq<PC>, sem: Sem, id: SemId) {
    || (sem.val == 1 && forall j: nat :: j < |pc| ==> !Owns(pc[j], j, id))
    || (sem.val == 0 && exists o: nat :: OwnedBy(pc, id, o))
  }

  ghost predicate Book(pc: seq<PC>, sem: Sem, id: SemId) {
    Wf(sem) && Queued(pc, sem, id) && (!id.Fork? ==> Held(pc, sem, id))
  }

  ghost predicate Books(t: Table)
    requires Shape(t)
  {
    forall id :: IsSem(t.n, id) ==> Book(t.pc, t.sems[id], id)
  }

  function UpTo(n: nat): (s: set<nat>)
    ensures |s| == n && forall j: nat :: j in s <==> j < n
  {
    if n == 0 then {} else UpTo(n - 1) + {n - 1}
  }

  /** A change of one program counter that matters neither for the queue nor for ownership. */
  lemma BookLocal(pc: seq<PC>, sem: Sem, id: SemId, i: nat, p: PC)
    requires Book(pc, sem, id) && i < |pc|
    requires BlockedOn(pc[i], i, id) == BlockedOn(p, i, id) && Owns(pc[i], i, id) == Owns(p, i, id)
    ensures Book(pc[i := p], sem, id)
  {
    if !id.Fork? && sem.val == 0 {
      var o: nat :| OwnedBy(pc, id, o);
      assert OwnedBy(pc[i := p], id, o);
    }
  }

  /** Fewer than ten philosophers can be waiting when another one arrives: the queue never overflows. */
  lemma RoomInQueue(pc: seq<PC>, sem: Sem, id: SemId, i: nat)
    requires Book(pc, sem, id) && i < |pc| <= MAX_PHYLOS && !BlockedOn(pc[i], i, id)
    ensures |sem.waiters| < MAX_PROCESS_WAITING
  {
    DistinctBound(sem.waiters, UpTo(|pc|) - {i});
  }

  lemma BookWait(pc: seq<PC>, sem: Sem, i: nat, w: WaitAt)
    requires i < |pc| <= MAX_PHYLOS && pc[i] == Want(w) && Book(pc, sem, WaitId(w, i))
    ensures !WaitOutcome(sem).Dropped?
    ensures Book(pc[i := if WaitOutcome(sem).Passed? then Past(w) else Blocked(w)], WaitSem(sem, i), WaitId(w, i))
  {
    var id := WaitId(w, i);
    RoomInQueue(pc, sem, id, i);
    assert i !in sem.waiters;
    if WaitOutcome(sem).Passed? {
      if !id.Fork? {
        assert OwnedBy(pc[i := Past(w)], id, i);
      }
    } else {
      if !id.Fork? {
        var o: nat :| OwnedBy(pc, id, o);
        assert OwnedBy(pc[i := Blocked(w)], id, o);
      }
      assert Queued(pc[i := Blocked(w)], WaitSem(sem, i), id);
    }
  }

  /** The owner posts: the token goes to the oldest waiter, who becomes the owner, or back into the value. */
  lemma BookPost(pc: seq<PC>, sem: Sem, id: SemId, i: nat, p: PC)
    requires i < |pc| && Book(pc, sem, id)
    requires !pc[i].Blocked? && !p.Blocked? && !Owns(p, i, id) && (id.Fork? || Owns(pc[i], i, id))
    ensures Book(Wake(pc, Woken(sem))[i := p], PostSem(sem), id)
  {
    var after := Wake(pc, Woken(sem))[i := p];
    if sem.waiters == [] {
      assert Queued(after, PostSem(sem), id);
    } else {
      var j := sem.waiters[0];
      assert j in sem.waiters && j != i;
      assert after == pc[j := Granted(pc[j].w)][i := p];
      TailQueue(sem.waiters);
      if !id.Fork? {
        assert OwnedBy(after, id, j);
      }
    }
  }

  /** Waking a process from another semaphore's queue and moving the poster on does not concern this one. */
  lemma BookPostElsewhere(pc: seq<PC>, sem: Sem, id: SemId, other: SemId, posted: Sem, i: nat, p: PC)
    requires i < |pc| && Book(pc, sem, id) && id != other && Queued(pc, posted, other)
    requires !pc[i].Blocked? && !p.Blocked? && Owns(pc[i], i, id) == Owns(p, i, id)
    ensures Book(Wake(pc, Woken(posted))[i := p], sem, id)
  {
    if posted.waiters != [] {
      var j := posted.waiters[0];
      assert j in posted.waiters;
      BookLocal(pc, sem, id, j, Granted(pc[j].w));
    }
    BookLocal(Wake(pc, Woken(posted)), sem, id, i, p);
  }

  // ----- every step keeps the books -----

  lemma GotoKeepsBooks(t: Table, u: Table, i: nat, p: PC)
    requires Shape(t) && Books(t) && i < t.n
    requires !t.pc[i].Blocked? && !p.Blocked?
    requires forall id :: IsSem(t.n, id) ==> Owns(t.pc[i], i, id) == Owns(p, i, id)
    requires Shape(u) && u.n == t.n && u.pc == t.pc[i := p] && u.sems == t.sems
    ensures Books(u)
  {
    forall id | IsSem(u.n, id)
      ensures Book(u.pc, u.sems[id], id)
    {
      BookLocal(t.pc, t.sems[id], id, i, p);
    }
  }

  lemma WaitKeepsBooks(t: Table, i: nat, w: WaitAt)
    requires Shape(t) && Books(t) && i < t.n && t.pc[i] == Want(w)
    ensures !WaitOutcome(t.sems[WaitId(w, i)]).Dropped?
    ensures Books(DoWait(t, i, w))
  {
    var u := DoWait(t, i, w);
    BookWait(t.pc, t.sems[WaitId(w, i)], i, w);
    forall id | IsSem(u.n, id)
      ensures Book(u.pc, u.sems[id], id)
    {
      if id != WaitId(w, i) {
        BookLocal(t.pc, t.sems[id], id, i, u.pc[i]);
      }
    }
  }

  lemma PostKeepsBooks(t: Table, i: nat, posted: SemId, p: PC)
    requires Shape(t) && Books(t) && i < t.n && IsSem(t.n, posted)
    requires !t.pc[i].Blocked? && !p.Blocked? && !Owns(p, i, posted) && (posted.Fork? || Owns(t.pc[i], i, posted))
    requires forall id :: IsSem(t.n, id) && id != posted ==> Owns(t.pc[i], i, id) == Owns(p, i, id)
    ensures Books(DoPost(t, i, posted, p))
  {
    var u := DoPost(t, i, posted, p);
    forall id | IsSem(u.n, id)
      ensures Book(u.pc, u.sems[id], id)
    {
      if id == posted {
        BookPost(t.pc, t.sems[id], id, i, p);
      } else {
        BookPostElsewhere(t.pc, t.sems[id], id, posted, t.sems[posted], i, p);
      }
    }
  }

  lemma TestKeepsBooks(t: Table, i: nat, job: Job, k: nat)
    requires Shape(t) && Books(t) && i < t.n && t.pc[i] == Test(job, k)
    ensures Books(DoTest(t, i, job, k))
  {
    if k <= 2 {
      TestReadsKeepBooks(t, i, job, k);
    } else if k == 3 {
      GotoKeepsBooks(t, DoTest(t, i, job, 3), i, Test(job, 4));
    } else {
      PostKeepsBooks(t, i, Fork(Target(t.n, job, i)), Tested(job));
    }
  }

  lemma TestReadsKeepBooks(t: Table, i: nat, job: Job, k: nat)
    requires Shape(t) && Books(t) && i < t.n && t.pc[i] == Test(job, k) && k <= 2
    ensures Books(DoTest(t, i, job, k))
  {
    var u := DoTest(t, i, job, k);
    var p := u.pc[i];
    assert u == Goto(t, i, p);
    GotoKeepsBooks(t, u, i, p);
  }

  lemma PostStepKeepsBooks(t: Table, i: nat)
    requires Shape(t) && Books(t) && i < t.n && (t.pc[i].PostMutex? || t.pc[i].PostPrint? || t.pc[i].PostSafe?)
    ensures Books(Step(t, i))
  {
    match t.pc[i]
    case PostMutex(taking) => PostKeepsBooks(t, i, Mutex, if taking then Want(AtFork) else PostSafe);
    case PostPrint => PostKeepsBooks(t, i, PrintMutex, Want(AtPut));
    case PostSafe => PostKeepsBooks(t, i, Safe(i), Loop);
  }

  lemma PlainStepKeepsBooks(t: Table, i: nat)
    requires Shape(t) && Books(t) && i < t.n
    requires t.pc[i].Loop? || t.pc[i].Granted? || t.pc[i].SetHungry? || t.pc[i].SetThinking? || t.pc[i].Print?
    ensures Books(Step(t, i))
  {
    GotoKeepsBooks(t, Step(t, i), i, Step(t, i).pc[i]);
  }

  lemma StepKeepsBooks(t: Table, i: nat)
    requires Shape(t) && Books(t) && i < t.n
    ensures Books(Step(t, i))
  {
    match t.pc[i]
    case Want(w) => WaitKeepsBooks(t, i, w);
    case Test(job, k) => TestKeepsBooks(t, i, job, k);
    case PostMutex(_) => PostStepKeepsBooks(t, i);
    case PostPrint => PostStepKeepsBooks(t, i);
    case PostSafe => PostStepKeepsBooks(t, i);
    case Blocked(_) =>
    case Done =>
    case _ => PlainStepKeepsBooks(t, i);
  }
}
