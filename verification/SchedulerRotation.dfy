/** Round robin: what one rotation of the scheduler does when only timer interrupts occur. */
module SchedulerRotation {
  import opened Common
  import opened ProcessStates
  import opened SchedulerModel
  import opened SchedulerTable
  import opened SchedulerMain
  import opened SchedulerHistory
  import opened SchedulerSwitch
  import opened SchedulerCalls
  import Ring

  /** n timer interrupts. */
  function Run(s: Sched, n: nat): Sched
    decreases n
  {
    if n == 0 then s else Run(TickIf(s, true), n - 1)
  }

  /** How many of the next n interrupts find slot k running and charge it a tick. */
  function Charged(s: Sched, n: nat, k: nat): nat
    decreases n
  {
    if n == 0 then 0
    else (if Sized(s) && Continues(s) && s.cur == k then 1 else 0) + Charged(TickIf(s, true), n - 1, k)
  }

  /** How many of the next n interrupts switch to slot k. */
  function Selected(s: Sched, n: nat, k: nat): nat
    decreases n
  {
    if n == 0 then 0
    else (if Sized(s) && !Continues(s) && TickIf(s, true).cur == k then 1 else 0) + Selected(TickIf(s, true), n - 1, k)
  }

  predicate IsReady(slots: seq<Slot>, k: nat) {
    k < |slots| && slots[k].state == Ready
  }

  /** The current process is a READY one among the scanned slots, and idle runs only if nobody else can. */
  ghost predicate Steady(s: Sched) {
    && TableOk(s) && s.dim <= MAX_PROCESSES && s.cur < s.dim && IsReady(s.slots, s.cur)
    && IdleSlot(s) < |s.slots|
    && (s.slots[IdleSlot(s)].state == Paused ||
        (s.cur == IdleSlot(s) && forall k: nat :: k < s.dim && k != s.cur ==> !IsReady(s.slots, k)))
  }

  ghost predicate TurnStart(s: Sched) {
    Steady(s) && s.slots[s.cur].remaining == s.slots[s.cur].quantum
  }

  /** The tables agree in everything but the current slot and the remaining ticks. */
  ghost predicate SameTable(s: Sched, t: Sched) {
    && |t.slots| == |s.slots| && t.dim == s.dim && t.idlePid == s.idlePid && t.children == s.children
    && forall k: nat :: k < |s.slots| ==> SameSlot(s.slots[k], t.slots[k])
  }

  predicate SameSlot(a: Slot, b: Slot) {
    b == a.(remaining := b.remaining)
  }

  /** From s, n interrupts lead to t; they charge slot k `charged` ticks and switch to it `selected` times. */
  ghost predicate Leads(s: Sched, n: nat, t: Sched, k: nat, charged: nat, selected: nat) {
    Run(s, n) == t && Charged(s, n, k) == charged && Selected(s, n, k) == selected
  }

  lemma {:induction false} LeadsOn(s: Sched, a: nat, t: Sched, b: nat, u: Sched, k: nat, c: nat, d: nat, x: nat, y: nat)
    requires Leads(s, a, t, k, c, x) && Leads(t, b, u, k, d, y)
    ensures Leads(s, a + b, u, k, c + d, x + y)
    decreases a
  {
    if a > 0 {
      var s' := TickIf(s, true);
      LeadsOn(s', a - 1, t, b, u, k, Charged(s', a - 1, k), d, Selected(s', a - 1, k), y);
    }
  }

  lemma SlotKeepsSteady(s: Sched, k: nat, ticks: nat)
    requires Steady(s) && k < |s.slots|
    ensures var t := s.(slots := s.slots[k := s.slots[k].(remaining := ticks)]);
            Steady(t) && IdleSlot(t) == IdleSlot(s)
  {
    var t := s.(slots := s.slots[k := s.slots[k].(remaining := ticks)]);
    SlotChangeKeepsTable(s, k, s.slots[k].(remaining := ticks));
    IndexIs(t.slots, s.idlePid, IdleSlot(s));
    forall j: nat
      ensures IsReady(t.slots, j) == IsReady(s.slots, j)
    {
    }
  }

  /** While it has ticks left the current process uses them up, one an interrupt. */
  lemma {:induction false} Drain(s: Sched, n: nat, k: nat)
    requires Steady(s) && n == s.slots[s.cur].remaining
    ensures Leads(s, n, s.(slots := s.slots[s.cur := s.slots[s.cur].(remaining := 0)]), k,
                  if k == s.cur then n else 0, 0)
    decreases n
  {
    if n == 0 {
      assert s.slots == s.slots[s.cur := s.slots[s.cur].(remaining := 0)];
    } else {
      SlotKeepsSteady(s, s.cur, n - 1);
      var t := TickIf(s, true);
      assert t == s.(slots := s.slots[s.cur := s.slots[s.cur].(remaining := n - 1)]);
      Drain(t, n - 1, k);
      assert t.slots[s.cur := t.slots[s.cur].(remaining := 0)] == s.slots[s.cur := s.slots[s.cur].(remaining := 0)];
    }
  }

  /** The nearest READY slot after c in cyclic order; c itself if it is the only one. */
  lemma NextReady(slots: seq<Slot>, dim: nat, c: nat) returns (g: nat)
    requires c < dim <= |slots| && IsReady(slots, c)
    ensures Nearest(slots, dim, c, g) && Scan(slots, dim, (c + 1) % dim, dim) == Some(After(dim, c, g))
  {
    Ring.WrapSmall(dim, c + 1);
    var c0 := (c + 1) % dim;
    var d := ScanSees(slots, dim, c0, dim);
    assert After(dim, c0, dim - 1) == c;
    g := d + 1;
    forall e: nat | 0 < e < g
      ensures !IsReady(slots, After(dim, c, e))
    {
      assert After(dim, c, e) == After(dim, c0, e - 1);
    }
  }

  /** With no ticks left, the interrupt starts the turn of the nearest READY slot and changes nothing else. */
  lemma Switch(s: Sched, k: nat) returns (g: nat, t: Sched)
    requires Steady(s) && s.slots[s.cur].remaining == 0
    ensures Nearest(s.slots, s.dim, s.cur, g) && TurnOf(s, t, g)
    ensures Leads(s, 1, t, k, 0, if k == t.cur then 1 else 0)
  {
    g := NextReady(s.slots, s.dim, s.cur);
    var c := After(s.dim, s.cur, g);
    ChosenStaysSteady(s, c);
    var u := s.(cur := c);
    SlotKeepsSteady(u, c, s.slots[c].quantum);
    t := u.(slots := u.slots[c := u.slots[c].(remaining := s.slots[c].quantum)]);
    assert TickIf(s, true) == t;
    assert Run(s, 1) == Run(t, 0);
  }

  /** In a steady table the choice moves the current index and leaves all states alone. */
  lemma ChosenStaysSteady(s: Sched, c: nat)
    requires Steady(s) && c < s.dim && IsReady(s.slots, c)
    requires Scan(s.slots, s.dim, (s.cur + 1) % s.dim, s.dim) == Some(c)
    ensures Choose(s) == s.(cur := c) && Steady(s.(cur := c))
  {
    var i := IdleSlot(s);
    if s.slots[c].pid == s.idlePid {
      IndexIs(s.slots, s.idlePid, c);
    } else {
      assert c != i;
      assert s.slots[i].state == Paused;
      assert s.slots[i := s.slots[i].(state := Paused)] == s.slots;
    }
  }

  // ----- the rotation -----

  /** The interrupts a slot takes in one rotation: its quantum, and one for the switch. */
  function TurnCost(slots: seq<Slot>, k: nat): nat
    requires k < |slots|
  {
    if slots[k].state == Ready then slots[k].quantum + 1 else 0
  }

  /** The interrupts taken by the d slots from c on. */
  function ArcCost(slots: seq<Slot>, dim: nat, c: nat, d: nat): nat
    requires c < dim <= |slots| && d <= dim
  {
    if d == 0 then 0 else ArcCost(slots, dim, c, d - 1) + TurnCost(slots, After(dim, c, d - 1))
  }

  /** Turn by turn: the arc from c splits at any of its slots. */
  lemma {:induction false} ArcSplit(slots: seq<Slot>, dim: nat, c: nat, g: nat, d: nat)
    requires c < dim <= |slots| && g <= d <= dim
    ensures ArcCost(slots, dim, c, d) == ArcCost(slots, dim, c, g) + ArcCost(slots, dim, After(dim, c, g), d - g)
    decreases d - g
  {
    if g < d {
      ArcSplit(slots, dim, c, g, d - 1);
      assert After(dim, After(dim, c, g), d - 1 - g) == After(dim, c, d - 1);
    }
  }

  lemma {:induction false} ArcOfOne(slots: seq<Slot>, dim: nat, c: nat, g: nat)
    requires c < dim <= |slots| && 0 < g <= dim
    requires forall e: nat :: 0 < e < g ==> !IsReady(slots, After(dim, c, e))
    ensures ArcCost(slots, dim, c, g) == TurnCost(slots, c)
  {
    if g == 1 {
      assert After(dim, c, 0) == c && ArcCost(slots, dim, c, 0) == 0;
    } else {
      ArcOfOne(slots, dim, c, g - 1);
      assert !IsReady(slots, After(dim, c, g - 1));
    }
  }

  lemma {:induction false} ArcSame(s: Sched, t: Sched, c: nat, d: nat)
    requires SameTable(s, t) && c < s.dim <= |s.slots| && d <= s.dim
    ensures ArcCost(t.slots, s.dim, c, d) == ArcCost(s.slots, s.dim, c, d)
  {
    if d > 0 {
      ArcSame(s, t, c, d - 1);
      assert SameSlot(s.slots[After(s.dim, c, d - 1)], t.slots[After(s.dim, c, d - 1)]);
    }
  }

  /** k is one of the d slots from c on. */
  predicate InArc(dim: nat, c: nat, d: nat, k: nat)
    requires c < dim
  {
    k < dim && StepsTo(dim, c, k) < d
  }

  /** The ticks slot k is charged while the turns of the d slots from c on are served. */
  function ChargeIn(slots: seq<Slot>, dim: nat, c: nat, d: nat, k: nat): nat
    requires c < dim <= |slots|
  {
    if InArc(dim, c, d, k) && slots[k].state == Ready then slots[k].quantum else 0
  }

  /** How often slot k is switched to meanwhile: once if it is READY and one of the d slots after c. */
  function SelectIn(slots: seq<Slot>, dim: nat, c: nat, d: nat, k: nat): nat
    requires c < dim <= |slots|
  {
    if k < dim && slots[k].state == Ready && (if k == c then d == dim else StepsTo(dim, c, k) <= d) then 1 else 0
  }

  /** s and t agree but for ticks, and in t the turn of the slot g steps on begins. */
  ghost predicate TurnOf(s: Sched, t: Sched, g: nat)
    requires s.cur < s.dim && g <= s.dim
  {
    SameTable(s, t) && TurnStart(t) && t.cur == After(s.dim, s.cur, g)
  }

  lemma SameTableTrans(s: Sched, t: Sched, u: Sched)
    requires SameTable(s, t) && SameTable(t, u)
    ensures SameTable(s, u)
  {
    forall k: nat | k < |s.slots|
      ensures SameSlot(s.slots[k], u.slots[k])
    {
      assert SameSlot(s.slots[k], t.slots[k]) && SameSlot(t.slots[k], u.slots[k]);
    }
  }

  lemma DrainedTable(s: Sched)
    requires s.cur < |s.slots|
    ensures SameTable(s, s.(slots := s.slots[s.cur := s.slots[s.cur].(remaining := 0)]))
  {
  }

  /** The slot g steps after c is the nearest READY one. */
  predicate Nearest(slots: seq<Slot>, dim: nat, c: nat, g: nat)
    requires c < dim
  {
    && 0 < g <= dim && IsReady(slots, After(dim, c, g))
    && forall e: nat :: 0 < e < g ==> !IsReady(slots, After(dim, c, e))
  }

  lemma NearestSame(s: Sched, u: Sched, g: nat)
    requires SameTable(s, u) && s.cur < s.dim <= |s.slots| && Nearest(u.slots, s.dim, s.cur, g)
    ensures Nearest(s.slots, s.dim, s.cur, g)
  {
    assert SameSlot(s.slots[After(s.dim, s.cur, g)], u.slots[After(s.dim, s.cur, g)]);
    forall e: nat | 0 < e < g
      ensures !IsReady(s.slots, After(s.dim, s.cur, e))
    {
      assert !IsReady(u.slots, After(s.dim, s.cur, e));
      assert SameSlot(s.slots[After(s.dim, s.cur, e)], u.slots[After(s.dim, s.cur, e)]);
    }
  }

  /** The first part of a turn: the current process uses up its quantum. */
  lemma UsesQuantum(s: Sched, k: nat) returns (u: Sched)
    requires TurnStart(s)
    ensures Steady(u) && SameTable(s, u) && u.cur == s.cur && u.slots[u.cur].remaining == 0
    ensures Leads(s, s.slots[s.cur].quantum, u, k, if k == s.cur then s.slots[s.cur].quantum else 0, 0)
  {
    Drain(s, s.slots[s.cur].quantum, k);
    SlotKeepsSteady(s, s.cur, 0);
    DrainedTable(s);
    u := s.(slots := s.slots[s.cur := s.slots[s.cur].(remaining := 0)]);
  }

  /** One turn: quantum plus one interrupts, all ticks charged to the process whose turn it is. */
  lemma OneTurn(s: Sched, k: nat) returns (g: nat, t: Sched)
    requires TurnStart(s)
    ensures Nearest(s.slots, s.dim, s.cur, g) && TurnOf(s, t, g)
    ensures Leads(s, TurnCost(s.slots, s.cur), t, k, if k == s.cur then s.slots[s.cur].quantum else 0,
                  if k == t.cur then 1 else 0)
  {
    var u := UsesQuantum(s, k);
    g, t := Switch(u, k);
    SameTableTrans(s, u, t);
    NearestSame(s, u, g);
    LeadsOn(s, s.slots[s.cur].quantum, u, 1, t, k, if k == s.cur then s.slots[s.cur].quantum else 0, 0, 0,
            if k == t.cur then 1 else 0);
  }

  /** The turns of d slots lead from s to t. */
  ghost predicate Served(s: Sched, d: nat, t: Sched, k: nat)
    requires s.cur < s.dim <= |s.slots| && d <= s.dim
  {
    TurnOf(s, t, d) && Billed(s, d, t, k)
  }

  ghost predicate Billed(s: Sched, d: nat, t: Sched, k: nat)
    requires s.cur < s.dim <= |s.slots| && d <= s.dim
  {
    Leads(s, ArcCost(s.slots, s.dim, s.cur, d), t, k, ChargeIn(s.slots, s.dim, s.cur, d, k),
          SelectIn(s.slots, s.dim, s.cur, d, k))
  }

  /** One turn, as an arc. */
  lemma FirstTurn(s: Sched, k: nat) returns (g: nat, u: Sched)
    requires TurnStart(s)
    ensures Nearest(s.slots, s.dim, s.cur, g) && Served(s, g, u, k)
  {
    g, u := OneTurn(s, k);
    ArcOfOne(s.slots, s.dim, s.cur, g);
    InOneTurn(s.slots, s.dim, s.cur, g, k);
  }

  /** The end of the arc, seen from its first stop. */
  lemma StillAhead(s: Sched, u: Sched, g: nat, d: nat)
    requires s.cur < s.dim <= |s.slots| && 0 < g < d <= s.dim && TurnOf(s, u, g)
    requires IsReady(s.slots, After(s.dim, s.cur, d))
    ensures IsReady(u.slots, After(u.dim, u.cur, d - g))
  {
    assert After(s.dim, u.cur, d - g) == After(s.dim, s.cur, d);
    assert SameSlot(s.slots[After(s.dim, s.cur, d)], u.slots[After(s.dim, s.cur, d)]);
  }

  /** The turns of an arc, one after the other: who is charged and who is switched to. */
  lemma {:induction false} Turns(s: Sched, d: nat, k: nat) returns (t: Sched)
    requires TurnStart(s) && 0 < d <= s.dim && IsReady(s.slots, After(s.dim, s.cur, d))
    ensures Served(s, d, t, k)
    decreases d
  {
    var g, u := FirstTurn(s, k);
    assert g <= d;
    if g == d {
      t := u;
    } else {
      StillAhead(s, u, g, d);
      t := Turns(u, d - g, k);
      ServedOn(s, g, u, d, t, k);
    }
  }

  lemma TurnOn(s: Sched, g: nat, u: Sched, d: nat, t: Sched)
    requires s.cur < s.dim <= |s.slots| && 0 < g < d <= s.dim
    requires TurnOf(s, u, g) && TurnOf(u, t, d - g)
    ensures TurnOf(s, t, d)
  {
    SameTableTrans(s, u, t);
  }

  lemma ServedOn(s: Sched, g: nat, u: Sched, d: nat, t: Sched, k: nat)
    requires s.cur < s.dim <= |s.slots| && 0 < g < d <= s.dim
    requires Served(s, g, u, k) && Served(u, d - g, t, k)
    ensures Served(s, d, t, k)
  {
    TurnOn(s, g, u, d, t);
    ArcAdds(s, g, u, d, k);
    BilledOn(s, g, u, d, t, k);
  }

  lemma BilledOn(s: Sched, g: nat, u: Sched, d: nat, t: Sched, k: nat)
    requires s.cur < s.dim <= |s.slots| && u.cur < u.dim == s.dim <= |u.slots| && 0 < g < d <= s.dim
    requires Billed(s, g, u, k) && Billed(u, d - g, t, k)
    requires ArcCost(s.slots, s.dim, s.cur, d) ==
             ArcCost(s.slots, s.dim, s.cur, g) + ArcCost(u.slots, u.dim, u.cur, d - g)
    requires ChargeIn(s.slots, s.dim, s.cur, d, k) ==
             ChargeIn(s.slots, s.dim, s.cur, g, k) + ChargeIn(u.slots, u.dim, u.cur, d - g, k)
    requires SelectIn(s.slots, s.dim, s.cur, d, k) ==
             SelectIn(s.slots, s.dim, s.cur, g, k) + SelectIn(u.slots, u.dim, u.cur, d - g, k)
    ensures Billed(s, d, t, k)
  {
    LeadsOn(s, ArcCost(s.slots, s.dim, s.cur, g), u, ArcCost(u.slots, u.dim, u.cur, d - g), t, k,
            ChargeIn(s.slots, s.dim, s.cur, g, k), ChargeIn(u.slots, u.dim, u.cur, d - g, k),
            SelectIn(s.slots, s.dim, s.cur, g, k), SelectIn(u.slots, u.dim, u.cur, d - g, k));
  }

  lemma ArcAdds(s: Sched, g: nat, u: Sched, d: nat, k: nat)
    requires s.cur < s.dim <= |s.slots| && 0 < g < d <= s.dim && TurnOf(s, u, g)
    ensures ArcCost(s.slots, s.dim, s.cur, d) ==
            ArcCost(s.slots, s.dim, s.cur, g) + ArcCost(u.slots, u.dim, u.cur, d - g)
    ensures ChargeIn(s.slots, s.dim, s.cur, d, k) ==
            ChargeIn(s.slots, s.dim, s.cur, g, k) + ChargeIn(u.slots, u.dim, u.cur, d - g, k)
    ensures SelectIn(s.slots, s.dim, s.cur, d, k) ==
            SelectIn(s.slots, s.dim, s.cur, g, k) + SelectIn(u.slots, u.dim, u.cur, d - g, k)
  {
    ArcSplit(s.slots, s.dim, s.cur, g, d);
    ArcSame(s, u, u.cur, d - g);
    InArcSame(s, u, u.cur, d - g, k);
    InArcSplit(s.slots, s.dim, s.cur, g, d, k);
  }

  /** A single turn as an arc. */
  lemma InOneTurn(slots: seq<Slot>, dim: nat, c: nat, g: nat, k: nat)
    requires c < dim <= |slots| && IsReady(slots, c) && Nearest(slots, dim, c, g)
    ensures ChargeIn(slots, dim, c, g, k) == if k == c then slots[c].quantum else 0
    ensures SelectIn(slots, dim, c, g, k) == if k == After(dim, c, g) then 1 else 0
  {
    if k < dim && k != c {
      var e := StepsTo(dim, c, k);
      assert 0 < e && After(dim, c, e) == k;
      if e < g {
        assert !IsReady(slots, k);
      }
    }
  }

  lemma InArcSame(s: Sched, t: Sched, c: nat, d: nat, k: nat)
    requires SameTable(s, t) && c < s.dim <= |s.slots|
    ensures ChargeIn(t.slots, s.dim, c, d, k) == ChargeIn(s.slots, s.dim, c, d, k)
    ensures SelectIn(t.slots, s.dim, c, d, k) == SelectIn(s.slots, s.dim, c, d, k)
  {
    if k < s.dim {
      assert SameSlot(s.slots[k], t.slots[k]);
    }
  }

  lemma InArcSplit(slots: seq<Slot>, dim: nat, c: nat, g: nat, d: nat, k: nat)
    requires c < dim <= |slots| && 0 < g < d <= dim
    ensures ChargeIn(slots, dim, c, d, k) ==
            ChargeIn(slots, dim, c, g, k) + ChargeIn(slots, dim, After(dim, c, g), d - g, k)
    ensures SelectIn(slots, dim, c, d, k) ==
            SelectIn(slots, dim, c, g, k) + SelectIn(slots, dim, After(dim, c, g), d - g, k)
  {
    if k < dim {
      StepsShift(dim, c, g, k);
    }
  }

  /** The distance of k from a slot g steps on. */
  lemma StepsShift(dim: nat, c: nat, g: nat, k: nat)
    requires c < dim && 0 < g < dim && k < dim
    ensures StepsTo(dim, After(dim, c, g), k) ==
            if StepsTo(dim, c, k) >= g then StepsTo(dim, c, k) - g else StepsTo(dim, c, k) + dim - g
  {
  }

  // ----- the length of a rotation -----

  /** The sum over the READY slots below n of their quantum plus one. */
  function RotationCost(slots: seq<Slot>, n: nat): nat
    requires n <= |slots|
  {
    if n == 0 then 0 else RotationCost(slots, n - 1) + TurnCost(slots, n - 1)
  }

  lemma {:induction false} ArcFromZero(slots: seq<Slot>, dim: nat, n: nat)
    requires 0 < dim <= |slots| && n <= dim
    ensures ArcCost(slots, dim, 0, n) == RotationCost(slots, n)
  {
    if n > 0 {
      ArcFromZero(slots, dim, n - 1);
      assert After(dim, 0, n - 1) == n - 1;
    }
  }

  /** Wherever it starts, a round costs the same. */
  lemma RoundCost(slots: seq<Slot>, dim: nat, c: nat)
    requires c < dim <= |slots|
    ensures ArcCost(slots, dim, c, dim) == RotationCost(slots, dim)
  {
    ArcFromZero(slots, dim, dim);
    if c > 0 {
      ArcSplit(slots, dim, 0, c, dim);
      ArcSplit(slots, dim, c, dim - c, dim);
      assert After(dim, 0, c) == c && After(dim, c, dim - c) == 0;
    }
  }

  // ----- main results -----

  /** Every READY slot below dim has the quantum of its priority, a priority of 1 to 5. */
  predicate PrioritySet(s: Sched) {
    s.dim <= |s.slots| &&
    forall k: nat :: k < s.dim && s.slots[k].state == Ready ==> QuantumOk(s.slots[k], 1, 5)
  }

  function PrioritySum(slots: seq<Slot>, n: nat): nat
    requires n <= |slots|
  {
    if n == 0 then 0
    else PrioritySum(slots, n - 1) + if slots[n - 1].state == Ready then Pow2(slots[n - 1].priority) + 1 else 0
  }

  lemma SmallTicks(priority: nat)
    requires 1 <= priority <= 5
    ensures Ticks(priority) == Pow2(priority)
  {
    assert Pow2(1) == 2 && Pow2(2) == 4 && Pow2(3) == 8;
    assert Pow2(4) == 2 * Pow2(3) && Pow2(5) == 2 * Pow2(4);
  }

  lemma {:induction false} SumOfPowers(s: Sched, n: nat)
    requires PrioritySet(s) && n <= s.dim
    ensures RotationCost(s.slots, n) == PrioritySum(s.slots, n)
  {
    if n > 0 {
      SumOfPowers(s, n - 1);
      if s.slots[n - 1].state == Ready {
        SmallTicks(s.slots[n - 1].priority);
      }
    }
  }

  /**
   * With timer interrupts only, one rotation takes the sum of 2^priority + 1 over the READY processes of the first
   * dim slots; it selects each of them exactly once, charges it exactly 2^priority ticks, neither selects nor
   * charges anybody else, and ends where it began.
   */
  lemma Rotation(s: Sched, k: nat)
    requires TurnStart(s) && PrioritySet(s)
    ensures Rotates(s, k)
  {
    assert After(s.dim, s.cur, s.dim) == s.cur;
    var t := Turns(s, s.dim, k);
    RoundCost(s.slots, s.dim, s.cur);
    SumOfPowers(s, s.dim);
    if k < s.dim && s.slots[k].state == Ready {
      SmallTicks(s.slots[k].priority);
      assert StepsTo(s.dim, s.cur, k) < s.dim;
    }
  }

  /** What a rotation from s does to slot k. */
  ghost predicate Rotates(s: Sched, k: nat)
    requires s.dim <= |s.slots|
  {
    var n := PrioritySum(s.slots, s.dim);
    && SameTable(s, Run(s, n)) && TurnStart(Run(s, n)) && Run(s, n).cur == s.cur
    && Selected(s, n, k) == (if k < s.dim && s.slots[k].state == Ready then 1 else 0)
    && Charged(s, n, k) == (if k < s.dim && s.slots[k].state == Ready then Pow2(s.slots[k].priority) else 0)
  }

  lemma InterruptKeepsSteady(s: Sched)
    requires Steady(s)
    ensures Steady(TickIf(s, true)) && TickIf(s, true).dim == s.dim
  {
    if s.slots[s.cur].remaining > 0 {
      SlotKeepsSteady(s, s.cur, s.slots[s.cur].remaining - 1);
    } else {
      var g, t := Switch(s, 0);
      assert Run(s, 1) == Run(TickIf(s, true), 0);
    }
  }

  lemma {:induction false} OutsideNeverSelected(s: Sched, n: nat, k: nat)
    requires Steady(s) && s.dim <= k
    ensures Selected(s, n, k) == 0 && Charged(s, n, k) == 0
    decreases n
  {
    if n > 0 {
      InterruptKeepsSteady(s);
      OutsideNeverSelected(TickIf(s, true), n - 1, k);
    }
  }

  lemma InsideSelected(s: Sched, k: nat) returns (n: nat)
    requires TurnStart(s) && IsReady(s.slots, k) && k < s.dim
    ensures Selected(s, n, k) > 0
  {
    assert After(s.dim, s.cur, s.dim) == s.cur;
    var t := Turns(s, s.dim, k);
    n := ArcCost(s.slots, s.dim, s.cur, s.dim);
    assert StepsTo(s.dim, s.cur, k) < s.dim;
    assert SelectIn(s.slots, s.dim, s.cur, s.dim, k) == 1;
  }

  /**
   * A READY process is ever switched to exactly if its slot is among the first dim. Slots are reused lowest first and
   * dim counts the live ones, so after a death a process in a slot from dim on starves.
   */
  lemma StarvesExactly(s: Sched, k: nat)
    requires TurnStart(s) && IsReady(s.slots, k)
    ensures (exists n: nat :: Selected(s, n, k) > 0) <==> k < s.dim
  {
    if k < s.dim {
      var n := InsideSelected(s, k);
    } else {
      forall n: nat
        ensures Selected(s, n, k) == 0
      {
        OutsideNeverSelected(s, n, k);
      }
    }
  }

  lemma ChoiceIsSteady(s: Sched)
    requires TableOk(s) && IdleOk(s) && s.dim <= MAX_PROCESSES && Choose(s).cur < s.dim
    ensures Steady(Choose(s))
  {
    ChooseEstablishes(s);
    var t := Choose(s);
    IndexIs(t.slots, t.idlePid, IdleSlot(s));
    forall k: nat | t.cur == IdleSlot(s) && k < s.dim && k != t.cur
      ensures !IsReady(t.slots, k)
    {
      NobodyElseReady(s, k);
    }
  }

  lemma NobodyElseReady(s: Sched, k: nat)
    requires TableOk(s) && IdleOk(s) && s.dim <= MAX_PROCESSES && k < s.dim
    requires Choose(s).cur == IdleSlot(s) && k != IdleSlot(s)
    ensures !IsReady(Choose(s).slots, k)
  {
    LastResort(s, k);
    PausedStaysPaused(s, k);
  }

  lemma RefillStarts(s: Sched)
    requires Steady(s)
    ensures TurnStart(Refill(s))
  {
    SlotKeepsSteady(s, s.cur, s.slots[s.cur].quantum);
  }

  /**
   * After any run, an event that switches to a process among the first dim slots starts a rotation, whether its caller
   * has blocked, died or run out of ticks; so does a choice made between two events.
   */
  lemma SwitchStartsRotation(events: seq<Event>, e: Event)
    requires |events| + 3 < WORD32
    ensures var s, t := Exec(events), Next(Exec(events), e); Switches(s, e) ==> (TurnStart(t) <==> t.cur < t.dim)
    ensures Exec(events).dim <= MAX_PROCESSES
    ensures var t := NextProcess(Exec(events)); TurnStart(t) <==> t.cur < t.dim
  {
    var s := Exec(events);
    LiveCountBounds(s.slots);
    SwitchStarts(s);
    if Switches(s, e) {
      SwitchIs(s, e, |events| + 2);
      SwitchStarts(BeforeSwitch(s, e));
    }
  }

  lemma SwitchStarts(s: Sched)
    requires TableOk(s) && IdleOk(s) && s.dim <= MAX_PROCESSES
    ensures var t := NextProcess(s); TurnStart(t) <==> t.cur < t.dim
  {
    if Choose(s).cur < s.dim {
      ChoiceIsSteady(s);
      RefillStarts(Choose(s));
    }
  }

  lemma QuantaSetPriorities(s: Sched)
    requires QuantaOk(s.slots, 1, 5) && s.dim <= |s.slots|
    ensures PrioritySet(s)
  {
    forall k: nat | k < s.dim && s.slots[k].state == Ready
      ensures QuantumOk(s.slots[k], 1, 5)
    {
      assert Live(s.slots[k]);
    }
  }

  lemma RotationOf(t: Sched, k: nat)
    requires TurnStart(t) && QuantaOk(t.slots, 1, 5)
    ensures Rotates(t, k)
  {
    QuantaSetPriorities(t);
    Rotation(t, k);
  }

  /** A choice keeps quanta and priorities. */
  lemma ChoiceKeepsQuanta(s: Sched)
    requires Sized(s) && s.dim <= MAX_PROCESSES && QuantaOk(s.slots, 1, 5)
    ensures QuantaOk(NextProcess(s).slots, 1, 5)
  {
    NextProcessNothingNew(s);
    OldQuanta(s.slots, NextProcess(s).slots, 1, 5);
  }

  /** The event switches from s to t, or t is what a choice makes of s. */
  ghost predicate LeadsTo(s: Sched, e: Event, t: Sched)
    requires Sized(s) && s.dim <= MAX_PROCESSES
  {
    (Switches(s, e) && t == Next(s, e)) || t == NextProcess(s)
  }

  lemma SwitchKeepsQuanta(s: Sched, e: Event, t: Sched)
    requires Sized(s) && s.dim <= MAX_PROCESSES && QuantaOk(s.slots, 1, 5) && LeadsTo(s, e, t)
    ensures QuantaOk(t.slots, 1, 5)
  {
    if t == NextProcess(s) {
      ChoiceKeepsQuanta(s);
    } else {
      NextQuanta(s, e, 1, 5);
    }
  }

  /**
   * After any run whose creations ask for priorities from 1 to 5, whatever its changes ask for, a switch to one of the
   * first dim slots starts such a rotation.
   */
  lemma RotationAfterRun(events: seq<Event>, e: Event, t: Sched, k: nat)
    requires |events| + 3 < WORD32 && forall j: nat :: j < |events| ==> AsksFor(events[j], 1, 5)
    requires Exec(events).dim <= MAX_PROCESSES && LeadsTo(Exec(events), e, t) && t.cur < t.dim
    ensures t.dim <= |t.slots| && Rotates(t, k)
  {
    SwitchStartsRotation(events, e);
    QuantaAlways(events, 1, 5);
    SwitchKeepsQuanta(Exec(events), e, t);
    RotationOf(t, k);
  }

  lemma LeadsToOldSlots(s: Sched, e: Event, t: Sched)
    requires Sized(s) && s.dim <= MAX_PROCESSES && LeadsTo(s, e, t)
    ensures OldSlots(s.slots, t.slots)
  {
    if t == NextProcess(s) {
      NextProcessNothingNew(s);
    } else {
      ApplyNothingNew(s, e);
    }
  }

  lemma LastStep(events: seq<Event>, e: Event)
    requires |events| + 4 < WORD32
    ensures Exec(events + [e]) == Next(Exec(events), e)
  {
    assert (events + [e])[..|events|] == events;
  }

  /** After a change of priority the next rotation charges the process 2 to its new priority. */
  lemma RepricedRotation(events: seq<Event>, pid: nat, priority: nat, i: nat, e: Event, t: Sched) returns (p: nat)
    requires |events| + 4 < WORD32 && forall j: nat :: j < |events| ==> AsksFor(events[j], 1, 5)
    requires IsAt(Exec(events), pid, i) && t.cur < t.dim && i < t.dim && IsReady(t.slots, i)
    requires Exec(events + [Reprice(pid, priority)]).dim <= MAX_PROCESSES
    requires LeadsTo(Exec(events + [Reprice(pid, priority)]), e, t)
    ensures Clamped(p, priority)
    ensures t.dim <= |t.slots| && Charged(t, PrioritySum(t.slots, t.dim), i) == Pow2(p)
  {
    p := RepricedBefore(events, pid, priority, i, e, t);
    AskedFor(events, pid, priority);
    ChargedByPriority(events + [Reprice(pid, priority)], e, t, i);
  }

  lemma AskedFor(events: seq<Event>, pid: nat, priority: nat)
    requires forall j: nat :: j < |events| ==> AsksFor(events[j], 1, 5)
    ensures var more := events + [Reprice(pid, priority)]; forall j: nat :: j < |more| ==> AsksFor(more[j], 1, 5)
  {
  }

  lemma ChargedByPriority(events: seq<Event>, e: Event, t: Sched, i: nat)
    requires |events| + 3 < WORD32 && forall j: nat :: j < |events| ==> AsksFor(events[j], 1, 5)
    requires Exec(events).dim <= MAX_PROCESSES && LeadsTo(Exec(events), e, t)
    requires t.cur < t.dim && i < t.dim && IsReady(t.slots, i)
    ensures t.dim <= |t.slots| && Charged(t, PrioritySum(t.slots, t.dim), i) == Pow2(t.slots[i].priority)
  {
    RotationAfterRun(events, e, t, i);
  }

  lemma RepricedBefore(events: seq<Event>, pid: nat, priority: nat, i: nat, e: Event, t: Sched) returns (p: nat)
    requires |events| + 4 < WORD32 && IsAt(Exec(events), pid, i) && IsReady(t.slots, i)
    requires var s := Exec(events + [Reprice(pid, priority)]); s.dim <= MAX_PROCESSES && LeadsTo(s, e, t)
    ensures Clamped(p, priority) && t.slots[i].priority == p
  {
    LastStep(events, Reprice(pid, priority));
    p := RepricedAt(Exec(events), pid, priority, i, Exec(events + [Reprice(pid, priority)]), e, t, |events| + 2);
  }

  lemma RepricedAt(s: Sched, pid: nat, priority: nat, i: nat, s': Sched, e: Event, t: Sched, pids: nat)
    returns (p: nat)
    requires Inv(s, pids) && pids + 1 < WORD32 && IsAt(s, pid, i) && s' == Next(s, Reprice(pid, priority))
    requires Sized(s') && s'.dim <= MAX_PROCESSES && LeadsTo(s', e, t) && IsReady(t.slots, i)
    ensures Clamped(p, priority) && t.slots[i].priority == p
  {
    p := PriorityExactly(s, pid, priority, i, pids);
    LeadsToOldSlots(s', e, t);
    assert OldSlot(s'.slots[i], t.slots[i]);
  }
}
