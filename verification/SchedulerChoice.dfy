/** Which process a switch selects, and what it changes, whatever the event. */
module SchedulerChoice {
  import opened Common
  import opened ProcessStates
  import opened SchedulerModel
  import opened SchedulerTable
  import opened SchedulerMain
  import opened SchedulerSwitch

  /** The slot h places after c, going round the first dim slots; c may lie beyond them. */
  function Ahead(dim: nat, c: nat, h: nat): (k: nat)
    requires dim > 0
    ensures k < dim
  {
    (c + h) % dim
  }

  predicate ReadyAt(slots: seq<Slot>, k: nat) {
    k < |slots| && slots[k].state == Ready
  }

  /** Slot k is the first READY one after slot c, going once round the first dim slots. */
  ghost predicate FirstReady(slots: seq<Slot>, dim: nat, c: nat, k: nat) {
    dim > 0 && exists g: nat :: 0 < g <= dim && InTurn(slots, dim, c, g) && k == Ahead(dim, c, g)
  }

  ghost predicate InTurn(slots: seq<Slot>, dim: nat, c: nat, g: nat)
    requires dim > 0
  {
    ReadyAt(slots, Ahead(dim, c, g)) && forall h: nat :: 0 < h < g ==> !ReadyAt(slots, Ahead(dim, c, h))
  }

  lemma Remainder(x: nat, q: nat, r: nat, m: nat)
    requires r < m && x == q * m + r
    ensures x % m == r
  {
    var p := x / m;
    assert x == p * m + x % m;
    OneMore(p, m);
    OneMore(q, m);
    if p < q {
      Times(p + 1, q, m);
    } else if q < p {
      Times(q + 1, p, m);
    }
  }

  lemma OneMore(a: nat, m: nat)
    ensures (a + 1) * m == a * m + m
  {
  }

  lemma {:induction false} Times(a: nat, b: nat, m: nat)
    requires a <= b
    ensures a * m <= b * m
  {
    if a < b {
      Times(a, b - 1, m);
      assert b * m == (b - 1) * m + m;
    }
  }

  /** Steps from the slot after c are steps from c, one more. */
  lemma FromNext(dim: nat, c: nat, d: nat)
    requires 0 < dim && d <= dim
    ensures After(dim, (c + 1) % dim, d) == Ahead(dim, c, d + 1)
  {
    var q, r := (c + 1) / dim, (c + 1) % dim;
    assert c + 1 == q * dim + r;
    if r + d < dim {
      Remainder(c + (d + 1), q, r + d, dim);
    } else {
      assert (q + 1) * dim == q * dim + dim;
      Remainder(c + (d + 1), q + 1, r + d - dim, dim);
    }
  }

  /** A scan that starts behind slot c finds the first READY slot after it. */
  lemma ScanIsFirst(slots: seq<Slot>, dim: nat, c: nat)
    requires 0 < dim <= |slots|
    ensures match Scan(slots, dim, (c + 1) % dim, dim)
            case Some(k) => FirstReady(slots, dim, c, k)
            case None => forall k: nat :: k < dim ==> !ReadyAt(slots, k)
  {
    var c0 := (c + 1) % dim;
    var d := ScanSees(slots, dim, c0, dim);
    if d < dim {
      FromNext(dim, c, d);
      forall h: nat | 0 < h < d + 1
        ensures !ReadyAt(slots, Ahead(dim, c, h))
      {
        FromNext(dim, c, h - 1);
      }
      assert InTurn(slots, dim, c, d + 1);
    } else {
      forall k: nat | k < dim
        ensures !ReadyAt(slots, k)
      {
        assert After(dim, c0, StepsTo(dim, c0, k)) == k;
      }
    }
  }

  ghost predicate SomeReady(slots: seq<Slot>, dim: nat) {
    exists k: nat :: k < dim && ReadyAt(slots, k)
  }

  /** Slot k of u once the process in slot `chosen` has been put on the processor. */
  function Switched(u: Sched, chosen: nat, k: nat): Slot
    requires k < |u.slots|
  {
    var slot := u.slots[k];
    slot.(state := if k != IdleSlot(u) then slot.state else if k == chosen then Ready else Paused,
          remaining := if k == chosen then slot.quantum else slot.remaining)
  }

  /** Only the states of idle and the ticks of the chosen process change; that one gets a full quantum. */
  ghost predicate SwitchedOver(u: Sched, t: Sched) {
    && |t.slots| == |u.slots| && t == u.(slots := t.slots, cur := t.cur)
    && forall k: nat :: k < |u.slots| ==> t.slots[k] == Switched(u, t.cur, k)
  }

  /** The process a switch puts on the processor, and the table with it there. */
  ghost predicate SwitchesRightly(u: Sched, t: Sched) {
    && (if SomeReady(u.slots, u.dim) then FirstReady(u.slots, u.dim, u.cur, t.cur) else t.cur == IdleSlot(u))
    && SwitchedOver(u, t)
  }

  lemma FirstOrIdle(slots: seq<Slot>, dim: nat, c: nat, idle: nat, chosen: nat)
    requires 0 < dim <= |slots|
    requires chosen == match Scan(slots, dim, (c + 1) % dim, dim) case Some(k) => k case None => idle
    ensures if SomeReady(slots, dim) then FirstReady(slots, dim, c, chosen) else chosen == idle
  {
    ScanIsFirst(slots, dim, c);
    if FirstReady(slots, dim, c, chosen) {
      assert ReadyAt(slots, chosen);
    }
  }

  lemma ChosenIsFirst(u: Sched)
    requires Chooses(u)
    ensures if SomeReady(u.slots, u.dim) then FirstReady(u.slots, u.dim, u.cur, NextProcess(u).cur)
            else NextProcess(u).cur == IdleSlot(u)
  {
    LiveMakesDim(u, IdleSlot(u));
    FirstOrIdle(u.slots, u.dim, u.cur, IdleSlot(u), NextProcess(u).cur);
  }

  lemma ChoiceSwitchesOver(u: Sched)
    requires Chooses(u)
    ensures SwitchedOver(u, NextProcess(u))
  {
    LiveMakesDim(u, IdleSlot(u));
    var t, i := NextProcess(u), IdleSlot(u);
    match Scan(u.slots, u.dim, (u.cur + 1) % u.dim, u.dim)
    case None =>
    case Some(c) =>
      if u.slots[c].pid == u.idlePid {
        IndexIs(u.slots, u.idlePid, c);
      }
  }

  lemma ChoiceIsRight(u: Sched)
    requires Sized(u) && u.dim <= MAX_PROCESSES
    ensures Chooses(u) ==> SwitchesRightly(u, NextProcess(u))
  {
    if Chooses(u) {
      ChosenIsFirst(u);
      ChoiceSwitchesOver(u);
    }
  }

  lemma SwitchIsRight(s: Sched, e: Event, pids: nat)
    requires Inv(s, pids) && Switches(s, e)
    ensures SwitchesRightly(BeforeSwitch(s, e), Next(s, e))
  {
    SwitchIs(s, e, pids);
    ChoiceIsRight(BeforeSwitch(s, e));
  }

  /**
    After any run, an event that switches puts on the processor the first READY process behind the current slot, going
    round the first dim slots of the table in which the caller has already blocked or died, and the idle process if
    there is none. The current slot need not be READY, nor among the first dim.
   */
  lemma SwitchTakesNext(events: seq<Event>, e: Event)
    requires |events| + 3 < WORD32 && Switches(Exec(events), e)
    ensures SwitchesRightly(BeforeSwitch(Exec(events), e), Next(Exec(events), e))
  {
    SwitchIsRight(Exec(events), e, |events| + 2);
  }
}
