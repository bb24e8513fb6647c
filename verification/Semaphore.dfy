/**
  Semaphores that hand a posted token directly to the oldest waiter, as values.

  `WaitSem` and `PostSem` are the state changes of one uninterrupted call. `Exec` runs any sequence of
  calls and keeps the history the main results speak about.
 */
module SemaphoreModel {
  import opened Common
  import opened Counting

  const MAX_PROCESS_WAITING: nat := 10

  datatype Sem = Sem(val: nat, waiters: seq<nat>)

  /** What a call of wait does to its caller: go on, block in the queue, or block outside it (queue full). */
  datatype Outcome = Passed | Queued | Dropped

  ghost predicate Wf(s: Sem) {
    && s.val < WORD64
    && |s.waiters| <= MAX_PROCESS_WAITING
    && (s.val > 0 ==> s.waiters == [])
  }

  function WaitOutcome(s: Sem): Outcome {
    if s.val > 0 then Passed
    else if |s.waiters| < MAX_PROCESS_WAITING then Queued
    else Dropped
  }

  function WaitSem(s: Sem, pid: nat): Sem {
    match WaitOutcome(s)
    case Passed => s.(val := s.val - 1)
    case Queued => s.(waiters := s.waiters + [pid])
    case Dropped => s
  }

  /** The process a post makes READY, if any. */
  function Woken(s: Sem): Option<nat> {
    if s.waiters == [] then None else Some(s.waiters[0])
  }

  /** A token that nobody waits for is counted in a 64-bit word. */
  function PostSem(s: Sem): Sem {
    if s.waiters == [] then s.(val := (s.val + 1) % WORD64) else s.(waiters := s.waiters[1..])
  }

  // ----- all runs of one semaphore -----

  datatype Call = Wait(pid: nat) | Post

  /** A semaphore with its history: posts, waits that passed at once, processes queued and processes handed a token. */
  datatype History = History(sem: Sem, posts: nat, passed: nat, queued: seq<nat>, handed: seq<nat>)

  function After(h: History, c: Call): History {
    match c
    case Post =>
      h.(sem := PostSem(h.sem), posts := h.posts + 1,
         handed := h.handed + if Woken(h.sem).Some? then [Woken(h.sem).value] else [])
    case Wait(pid) =>
      var w := h.(sem := WaitSem(h.sem, pid));
      match WaitOutcome(h.sem)
      case Passed => w.(passed := h.passed + 1)
      case Queued => w.(queued := h.queued + [pid])
      case Dropped => w
  }

  /** The semaphore created with value `init`, after a sequence of calls. */
  function Exec(init: nat, calls: seq<Call>): History {
    if calls == [] then History(Sem(init, []), 0, 0, [], [])
    else After(Exec(init, calls[..|calls| - 1]), calls[|calls| - 1])
  }

  /** Number of waits granted: those that passed at once and those handed a token while blocked. */
  function Granted(h: History): nat {
    h.passed + |h.handed|
  }

  /** Adding one on both sides of a congruence modulo 2^64. */
  lemma CountUp(a: nat, b: nat, c: nat)
    requires a < WORD64 && (a + b) % WORD64 == c % WORD64
    ensures ((a + 1) % WORD64 + b) % WORD64 == (c + 1) % WORD64
  {
    NextWord(a + b);
    NextWord(c);
    if a + 1 == WORD64 {
      assert (a + 1) % WORD64 == 0;
      assert (b + WORD64) % WORD64 == b % WORD64;
    }
  }

  lemma NextWord(x: nat)
    ensures (x + 1) % WORD64 == if x % WORD64 == WORD64 - 1 then 0 else x % WORD64 + 1
  {
  }

  /** The conservation law, the hand-off discipline and the order of the queue. */
  ghost predicate Ledger(init: nat, h: History) {
    && Wf(h.sem)
    && (h.sem.val + Granted(h)) % WORD64 == (init + h.posts) % WORD64
    && h.queued == h.handed + h.sem.waiters
  }

  lemma WaitKeepsLedger(init: nat, h: History, pid: nat)
    requires Ledger(init, h)
    ensures Ledger(init, After(h, Wait(pid)))
  {
  }

  lemma PostKeepsLedger(init: nat, h: History)
    requires Ledger(init, h)
    ensures Ledger(init, After(h, Post))
  {
    if h.sem.waiters == [] {
      CountUp(h.sem.val, Granted(h), init + h.posts);
    } else {
      CountUp(0, h.sem.val + Granted(h), init + h.posts);
    }
  }

  /**
    Token conservation, hand-off discipline and FIFO order, for every initial value and every sequence of calls:
    initial value + posts = value + waits granted (modulo 2^64, the width of the counter), a positive value means
    nobody waits, and the processes queued are exactly those handed a token, in that order, then those waiting.
   */
  lemma {:induction false} TokensConserved(init: nat, calls: seq<Call>)
    requires init < WORD64
    ensures var h := Exec(init, calls);
            && Wf(h.sem)
            && (h.sem.val + Granted(h)) % WORD64 == (init + h.posts) % WORD64
            && h.queued == h.handed + h.sem.waiters
  {
    if calls != [] {
      TokensConserved(init, calls[..|calls| - 1]);
      var h := Exec(init, calls[..|calls| - 1]);
      match calls[|calls| - 1]
      case Wait(pid) => WaitKeepsLedger(init, h, pid);
      case Post => PostKeepsLedger(init, h);
    }
  }

  /** While fewer than 2^64 tokens were ever issued the conservation law holds without the modulus. */
  lemma {:induction false} TokensConservedExactly(init: nat, calls: seq<Call>)
    requires init + |calls| < WORD64
    ensures var h := Exec(init, calls);
            h.posts <= |calls| && h.sem.val + Granted(h) == init + h.posts
  {
    if calls != [] {
      TokensConservedExactly(init, calls[..|calls| - 1]);
    }
  }

  // ----- who is lost -----

  /** The processes that waited at value 0 and were not handed a token since: the ones left paused by the semaphore. */
  function Blocked(init: nat, calls: seq<Call>): set<nat> {
    if calls == [] then {}
    else
      var before := calls[..|calls| - 1];
      match calls[|calls| - 1]
      case Wait(pid) => if Exec(init, before).sem.val == 0 then Blocked(init, before) + {pid} else Blocked(init, before)
      case Post =>
        match Woken(Exec(init, before).sem)
        case None => Blocked(init, before)
        case Some(pid) => Blocked(init, before) - {pid}
  }

  /** The call at position k is a wait of pid that finds the value 0 and ten waiters. */
  predicate Overflows(init: nat, calls: seq<Call>, k: nat, pid: nat)
    requires k < |calls|
  {
    var s := Exec(init, calls[..k]).sem;
    calls[k] == Wait(pid) && s.val == 0 && |s.waiters| == MAX_PROCESS_WAITING
  }

  /** No process calls while it is blocked. */
  ghost predicate Possible(init: nat, calls: seq<Call>) {
    forall k: nat :: k < |calls| && calls[k].Wait? ==> calls[k].pid !in Blocked(init, calls[..k])
  }

  ghost predicate EverOverflowed(init: nat, calls: seq<Call>, pid: nat) {
    exists k: nat :: k < |calls| && Overflows(init, calls, k, pid)
  }

  lemma OverflowsSoFar(init: nat, calls: seq<Call>, pid: nat)
    requires calls != []
    ensures var n := |calls| - 1;
            EverOverflowed(init, calls, pid) <==>
              EverOverflowed(init, calls[..n], pid) || Overflows(init, calls, n, pid)
  {
    var n := |calls| - 1;
    forall k: nat | k < n
      ensures Overflows(init, calls, k, pid) == Overflows(init, calls[..n], k, pid)
    {
      assert calls[..n][..k] == calls[..k];
    }
    if EverOverflowed(init, calls[..n], pid) {
      var k: nat :| k < n && Overflows(init, calls[..n], k, pid);
      assert Overflows(init, calls, k, pid);
    }
  }

  lemma PossibleSoFar(init: nat, calls: seq<Call>)
    requires calls != [] && Possible(init, calls)
    ensures Possible(init, calls[..|calls| - 1])
    ensures calls[|calls| - 1].Wait? ==> calls[|calls| - 1].pid !in Blocked(init, calls[..|calls| - 1])
  {
    var n := |calls| - 1;
    forall k: nat | k < n && calls[k].Wait?
      ensures calls[k].pid !in Blocked(init, calls[..n][..k])
    {
      assert calls[..n][..k] == calls[..k];
    }
  }

  /** In every sequence of calls a process that is blocked but in no queue was turned away by a full one. */
  lemma {:induction false} StrandedWasTurnedAway(init: nat, calls: seq<Call>, pid: nat)
    requires init < WORD64 && pid in Blocked(init, calls) && pid !in Exec(init, calls).sem.waiters
    ensures EverOverflowed(init, calls, pid)
  {
    var n := |calls| - 1;
    var s := Exec(init, calls[..n]).sem;
    TokensConserved(init, calls[..n]);
    OverflowsSoFar(init, calls, pid);
    if !Overflows(init, calls, n, pid) {
      assert s.waiters != [] ==> s.waiters == [s.waiters[0]] + s.waiters[1..];
      StrandedWasTurnedAway(init, calls[..n], pid);
    }
  }

  /** In a run of possible calls the queued processes are blocked, and each is queued once. */
  lemma {:induction false} WaitersAreBlocked(init: nat, calls: seq<Call>)
    requires init < WORD64 && Possible(init, calls)
    ensures var s := Exec(init, calls).sem;
            Distinct(s.waiters) && forall pid :: pid in s.waiters ==> pid in Blocked(init, calls)
  {
    if calls != [] {
      PossibleSoFar(init, calls);
      WaitersAreBlocked(init, calls[..|calls| - 1]);
    }
  }

  /** A process turned away while it cannot call stays blocked and out of the queue. */
  lemma {:induction false} TurnedAwayIsStranded(init: nat, calls: seq<Call>, pid: nat)
    requires init < WORD64 && Possible(init, calls) && EverOverflowed(init, calls, pid)
    ensures pid in Blocked(init, calls) && pid !in Exec(init, calls).sem.waiters
  {
    var n := |calls| - 1;
    OverflowsSoFar(init, calls, pid);
    PossibleSoFar(init, calls);
    WaitersAreBlocked(init, calls[..n]);
    if EverOverflowed(init, calls[..n], pid) {
      TurnedAwayIsStranded(init, calls[..n], pid);
    }
  }

  /**
    A process is left blocked outside the queue, where no post will ever find it, exactly if one of its waits met the
    value 0 and ten waiters.
   */
  lemma LostExactly(init: nat, calls: seq<Call>, pid: nat)
    requires init < WORD64 && Possible(init, calls)
    ensures pid in Blocked(init, calls) && pid !in Exec(init, calls).sem.waiters <==>
            exists k: nat :: k < |calls| && Overflows(init, calls, k, pid)
  {
    if pid in Blocked(init, calls) && pid !in Exec(init, calls).sem.waiters {
      StrandedWasTurnedAway(init, calls, pid);
    }
    if EverOverflowed(init, calls, pid) {
      TurnedAwayIsStranded(init, calls, pid);
    }
  }

  /** A semaphore that at most ten processes use loses nobody: each blocked one is in the queue. */
  lemma {:induction false} NobodyLost(init: nat, calls: seq<Call>, users: set<nat>)
    requires init < WORD64 && Possible(init, calls) && |users| <= MAX_PROCESS_WAITING
    requires forall k: nat :: k < |calls| && calls[k].Wait? ==> calls[k].pid in users
    ensures forall pid :: pid in Blocked(init, calls) <==> pid in Exec(init, calls).sem.waiters
    ensures Blocked(init, calls) <= users
  {
    if calls != [] {
      var n := |calls| - 1;
      PossibleSoFar(init, calls);
      NobodyLost(init, calls[..n], users);
      WaitersAreBlocked(init, calls[..n]);
      WaitersAreBlocked(init, calls);
      if calls[n].Wait? {
        RoomForOneMore(Exec(init, calls[..n]).sem.waiters, users, calls[n].pid);
      } else {
        HandOff(init, calls);
      }
    }
  }

  lemma RoomForOneMore(waiters: seq<nat>, users: set<nat>, pid: nat)
    requires Distinct(waiters) && (forall w :: w in waiters ==> w in users) && pid in users && pid !in waiters
    ensures |waiters| < |users|
  {
    DistinctBound(waiters, users - {pid});
  }

  /** A post takes its process off the blocked ones and off the queue, and nobody else. */
  lemma HandOff(init: nat, calls: seq<Call>)
    requires calls != [] && calls[|calls| - 1].Post?
    requires var s := Exec(init, calls[..|calls| - 1]).sem;
             Distinct(s.waiters) && forall pid :: pid in Blocked(init, calls[..|calls| - 1]) <==> pid in s.waiters
    ensures forall pid :: pid in Blocked(init, calls) <==> pid in Exec(init, calls).sem.waiters
  {
    var w := Exec(init, calls[..|calls| - 1]).sem.waiters;
    if w != [] {
      TailQueue(w);
    }
  }

  /** Processes 0, 1, ... in turn wait on the semaphore. */
  function Waits(n: nat): seq<Call> {
    seq(n, i requires 0 <= i < n => Wait(i))
  }

  lemma {:induction false} WaitsQueueUp(n: nat)
    requires n <= MAX_PROCESS_WAITING
    ensures Exec(0, Waits(n)).sem == Sem(0, seq(n, i requires 0 <= i < n => i))
  {
    if n > 0 {
      WaitsQueueUp(n - 1);
      assert Waits(n)[..n - 1] == Waits(n - 1);
    }
  }

  /** Eleven processes that wait on a semaphore of value 0: the last one is left blocked in no queue. */
  lemma EleventhIsLost()
    ensures 10 in Blocked(0, Waits(11)) && 10 !in Exec(0, Waits(11)).sem.waiters
  {
    WaitsQueueUp(10);
    assert Waits(11)[..10] == Waits(10);
  }
}

/** The kernel's semaphore objects: the value and the waiter ring, changed in place, and the process states. */
module Semaphores {
  import opened Common
  import opened ProcessStates
  import opened SemaphoreModel
  import WaiterQueue

  /** The `state` field of every live process, by pid; `stray` counts writes for pids that are not live. */
  class Processes {
    var state: map<nat, ProcessState>
    ghost var stray: nat

    constructor (initial: map<nat, ProcessState>)
      ensures state == initial && stray == 0
    {
      state, stray := initial, 0;
    }

    /** `change_process_state`: for a pid that names no live process the write lands outside the process table. */
    method ChangeState(pid: nat, s: ProcessState)
      modifies this
      ensures if pid in old(state) then state == old(state)[pid := s] && stray == old(stray)
              else state == old(state) && stray == old(stray) + 1
    {
      if pid in state {
        state := state[pid := s];
      } else {
        stray := stray + 1;
      }
    }
  }

  class Semaphore {
    var val: nat
    const waiters: WaiterQueue.Queue

    ghost predicate Valid()
      reads this, waiters, waiters.elements
    {
      waiters.Valid() && waiters.size == MAX_PROCESS_WAITING && Wf(Sem(val, waiters.Contents()))
    }

    ghost function Model(): Sem
      requires waiters.Valid()
      reads this, waiters, waiters.elements
    {
      Sem(val, waiters.Contents())
    }

    constructor (init: nat)
      requires init < WORD64
      ensures Valid() && fresh(waiters) && fresh(waiters.elements)
      ensures Model() == Sem(init, [])
    {
      val := init;
      waiters := new WaiterQueue.Queue(MAX_PROCESS_WAITING);
    }

    /** `wait_sem` up to its return or its blocking point. */
    method Wait(current: nat, processes: Processes) returns (blocked: bool)
      requires Valid() && current in processes.state
      modifies this, waiters, waiters.elements, processes
      ensures Valid()
      ensures Model() == WaitSem(old(Model()), current)
      ensures blocked <==> !WaitOutcome(old(Model())).Passed?
      ensures processes.state == if blocked then old(processes.state)[current := PausedBySem] else old(processes.state)
      ensures processes.stray == old(processes.stray)
    {
      if val > 0 {
        val := val - 1;
        blocked := false;
      } else {
        processes.ChangeState(current, PausedBySem);
        waiters.Enqueue(current);
        blocked := true;
      }
    }

    /** `post_sem`: the oldest waiter becomes READY, or the value grows by one; a waiter that is gone is not noticed. */
    method Post(processes: Processes)
      requires Valid()
      modifies this, waiters, processes
      ensures Valid()
      ensures Model() == PostSem(old(Model()))
      ensures var woken := Woken(old(Model()));
              if woken.Some? && woken.value in old(processes.state) then
                processes.state == old(processes.state)[woken.value := Ready] && processes.stray == old(processes.stray)
              else
                processes.state == old(processes.state) &&
                processes.stray == old(processes.stray) + if woken.Some? then 1 else 0
    {
      if waiters.length > 0 {
        var pid := waiters.Dequeue();
        processes.ChangeState(pid, Ready);
      } else {
        val := (val + 1) % WORD64;
      }
    }
  }
}
