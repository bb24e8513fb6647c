/** The shared variables of the philosophers, changed in place one access at a time. */
module PhilosophersTable {
  import opened PhilosophersModel
  import SemaphoreModel

  class DiningTable {
    const n: nat
    const state: array<Phase>
    const pc: array<PC>
    var sems: map<SemId, SemaphoreModel.Sem>
    var end: bool

    ghost predicate Valid()
      reads this, state, pc
    {
      state.Length == n && pc.Length == n && Shape(Model())
    }

    ghost function Model(): Table
      reads this, state, pc
    {
      Table(n, state[..], pc[..], sems, end)
    }

    /** The table after MIN_PHYLOS or more calls of `add_philo`, before anybody has moved. */
    constructor (count: nat)
      requires MIN_PHYLOS <= count <= MAX_PHYLOS
      ensures Valid() && fresh(state) && fresh(pc)
      ensures Model() == Initial(count)
    {
      n := count;
      state := new Phase[count](_ => Thinking);
      pc := new PC[count](_ => Loop);
      sems := map id | id in AllSems(count) :: InitialSem(id);
      end := false;
      new;
      assert state[..] == Initial(count).state;
      assert pc[..] == Initial(count).pc;
    }

    method WaitOn(i: nat, w: WaitAt)
      requires Valid() && i < n
      modifies this`sems, pc
      ensures Valid() && Model() == DoWait(old(Model()), i, w)
    {
      var id := WaitId(w, i);
      var s := sems[id];
      sems := sems[id := SemaphoreModel.WaitSem(s, i)];
      pc[i] := if SemaphoreModel.WaitOutcome(s).Passed? then Past(w) else Blocked(w);
      StepKeepsShape(old(Model()), Model());
    }

    method PostOn(i: nat, id: SemId, p: PC)
      requires Valid() && i < n && IsSem(n, id)
      modifies this`sems, pc
      ensures Valid() && Model() == DoPost(old(Model()), i, id, p)
    {
      var s := sems[id];
      sems := sems[id := SemaphoreModel.PostSem(s)];
      if s.waiters != [] && s.waiters[0] < n {
        pc[s.waiters[0]] := WakeOne(pc[s.waiters[0]]);
      }
      pc[i] := p;
      StepKeepsShape(old(Model()), Model());
    }

    /** The k-th access of `test(j)`, called by philosopher i. */
    method TestAccess(i: nat, job: Job, k: nat)
      requires Valid() && i < n
      modifies this`sems, pc, state
      ensures Valid() && Model() == DoTest(old(Model()), i, job, k)
    {
      var j := Target(n, job, i);
      if k == 0 {
        pc[i] := if state[j] == Hungry then Test(job, 1) else Tested(job);
      } else if k == 1 {
        pc[i] := if state[Left(n, j)] != Eating then Test(job, 2) else Tested(job);
      } else if k == 2 {
        pc[i] := if state[Right(n, j)] != Eating then Test(job, 3) else Tested(job);
      } else if k == 3 {
        state[j] := Eating;
        pc[i] := Test(job, 4);
      } else {
        PostOn(i, Fork(j), Tested(job));
      }
      StepKeepsShape(old(Model()), Model());
    }

    /** One step of philosopher i: a system call, an access to a shared variable, or nothing if it is blocked. */
    method Advance(i: nat)
      requires Valid() && i < n
      modifies this`sems, pc, state
      ensures Valid() && Model() == Next(old(Model()), Philosopher(i))
    {
      match pc[i] {
        case Loop => pc[i] := if end then Done else Want(AtSafe);
        case Want(w) => WaitOn(i, w);
        case Granted(w) => pc[i] := Past(w);
        case SetHungry =>
          state[i] := Hungry;
          pc[i] := Test(Own, 0);
        case SetThinking =>
          state[i] := Thinking;
          pc[i] := Test(LeftOf, 0);
        case Test(job, k) => TestAccess(i, job, k);
        case PostMutex(taking) => PostOn(i, Mutex, if taking then Want(AtFork) else PostSafe);
        case Print => pc[i] := PostPrint;
        case PostPrint => PostOn(i, PrintMutex, Want(AtPut));
        case PostSafe => PostOn(i, Safe(i), Loop);
        case Blocked(_) =>
        case Done =>
      }
      StepKeepsShape(old(Model()), Model());
    }

    method Quit()
      requires Valid()
      modifies this`end
      ensures Valid() && Model() == Next(old(Model()), PhilosophersModel.Quit)
    {
      end := true;
    }
  }

  lemma StepKeepsShape(t: Table, u: Table)
    requires Shape(t) && u.n == t.n && |u.state| == t.n && |u.pc| == t.n
    requires forall id :: id in t.sems ==> id in u.sems
    ensures Shape(u)
  {
  }
}
