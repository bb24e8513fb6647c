/** The buddy tree: index and address arithmetic, and the search that marks nodes in place. */
module BuddyTree {
  import opened Common

  // ----- orders -----

  /** The number of binary digits of size. */
  function BitLength(size: nat): (n: nat)
    ensures size < Pow2(n) && (n > 0 ==> Pow2(n - 1) <= size)
    decreases size
  {
    if size == 0 then 0 else 1 + BitLength(size / 2)
  }

  const MIN_ALLOC_LOG2: nat := 6

  /** `get_fit_order`. */
  function FitOrder(size: nat): nat {
    if BitLength(size) < MIN_ALLOC_LOG2 then MIN_ALLOC_LOG2 else BitLength(size)
  }

  lemma {:induction false} PowGrows(a: nat, b: nat)
    requires a < b
    ensures 2 * Pow2(a) <= Pow2(b)
    decreases b
  {
    if a < b - 1 {
      PowGrows(a, b - 1);
    }
  }

  /** No order from the minimum on is smaller and fits. */
  ghost predicate LeastFit(size: nat, order: nat) {
    size <= Pow2(order) && forall o: nat :: MIN_ALLOC_LOG2 <= o < order ==> Pow2(o) < size
  }

  /**
   * The block always fits, and is the smallest one that does, unless the size is itself a power of two from the
   * minimum on.
   */
  lemma FitOrderLeastExactly(size: nat)
    ensures size < Pow2(FitOrder(size))
    ensures LeastFit(size, FitOrder(size)) <==> forall k: nat :: k >= MIN_ALLOC_LOG2 ==> size != Pow2(k)
  {
    var n := BitLength(size);
    if n < MIN_ALLOC_LOG2 {
      PowGrows(n, MIN_ALLOC_LOG2);
      forall k: nat | k >= MIN_ALLOC_LOG2
        ensures size != Pow2(k)
      {
        if k > MIN_ALLOC_LOG2 {
          PowGrows(MIN_ALLOC_LOG2, k);
        }
      }
    } else {
      FitLarge(size, n);
    }
  }

  lemma FitLarge(size: nat, n: nat)
    requires n >= MIN_ALLOC_LOG2 && n == BitLength(size)
    ensures LeastFit(size, n) <==> forall k: nat :: k >= MIN_ALLOC_LOG2 ==> size != Pow2(k)
  {
    if k: nat :| k >= MIN_ALLOC_LOG2 && size == Pow2(k) {
      if n <= k {
        if n < k {
          PowGrows(n, k);
        }
      }
      assert k < n && !(Pow2(k) < size);
    }
    if !LeastFit(size, n) {
      var o: nat :| MIN_ALLOC_LOG2 <= o < n && size <= Pow2(o);
      if o < n - 1 {
        PowGrows(o, n - 1);
      }
      assert size == Pow2(o);
    }
  }

  // ----- indices and addresses -----

  function Left(i: nat): nat { 2 * i + 1 }

  function Right(i: nat): nat { 2 * i + 2 }

  function Parent(i: nat): nat
    requires i > 0
  {
    (i - 1) / 2
  }

  /** `get_sibling_idx`; the root has none. */
  function Sibling(i: nat): nat
    requires i > 0
  {
    if i % 2 == 0 then i - 1 else i + 1
  }

  /** `get_order_start_idx`: the first node of an order. */
  function OrderStart(max: nat, order: nat): (i: nat)
    requires order <= max
  {
    Pow2(max - order) - 1
  }

  /** Node i is one of the nodes of that order. */
  predicate OnLevel(max: nat, order: nat, i: nat) {
    order <= max && OrderStart(max, order) <= i < 2 * Pow2(max - order) - 1
  }

  /** `get_node_pointer`, from the start of the heap. */
  function Offset(max: nat, order: nat, i: nat): nat
    requires OnLevel(max, order, i)
  {
    (i - OrderStart(max, order)) * Pow2(order)
  }

  lemma ChildLevels(max: nat, order: nat, i: nat)
    requires order > 0 && OnLevel(max, order, i)
    ensures OnLevel(max, order - 1, Left(i)) && OnLevel(max, order - 1, Right(i))
  {
    assert Pow2(max - (order - 1)) == 2 * Pow2(max - order);
  }

  lemma ParentLevel(max: nat, order: nat, i: nat)
    requires i > 0 && OnLevel(max, order, i)
    ensures OnLevel(max, order + 1, Parent(i))
  {
    assert Pow2(0) == 1;
    assert order < max;
    assert Pow2(max - order) == 2 * Pow2(max - order - 1);
  }

  /** The spans of the two children partition the span of their parent, left half first. */
  lemma {:induction false} ChildrenPartition(max: nat, order: nat, i: nat)
    requires order > 0 && OnLevel(max, order, i)
    ensures OnLevel(max, order - 1, Left(i)) && OnLevel(max, order - 1, Right(i))
    ensures Offset(max, order - 1, Left(i)) == Offset(max, order, i)
    ensures Offset(max, order - 1, Right(i)) == Offset(max, order, i) + Pow2(order - 1)
    ensures Offset(max, order, i) + Pow2(order) == Offset(max, order - 1, Right(i)) + Pow2(order - 1)
  {
    ChildLevels(max, order, i);
    var p := i - OrderStart(max, order);
    assert Left(i) - OrderStart(max, order - 1) == 2 * p;
    Doubling(p, Pow2(order - 1));
  }

  lemma Doubling(p: nat, q: nat)
    ensures p * (2 * q) == (2 * p) * q && (2 * p + 1) * q == (2 * p) * q + q
  {
  }

  /** Siblings are the two children of one node, and each is the sibling of the other. */
  lemma Siblings(i: nat)
    requires i > 0
    ensures Sibling(i) > 0 && Sibling(Sibling(i)) == i && Parent(Sibling(i)) == Parent(i)
    ensures {i, Sibling(i)} == {Left(Parent(i)), Right(Parent(i))}
  {
    if i % 2 == 0 {
      assert i == Right(Parent(i)) && i - 1 == Left(Parent(i));
    } else {
      assert i == Left(Parent(i)) && i + 1 == Right(Parent(i));
    }
  }

  /** Node k is i or below it. */
  predicate Under(k: nat, i: nat)
    decreases k
  {
    k == i || (k > i && Under(Parent(k), i))
  }

  lemma {:induction false} UnderRoot(k: nat)
    ensures Under(k, 0)
    decreases k
  {
    if k > 0 {
      UnderRoot(Parent(k));
    }
  }

  lemma {:induction false} UnderChildren(k: nat, i: nat)
    ensures Under(k, i) <==> k == i || Under(k, Left(i)) || Under(k, Right(i))
    ensures !(Under(k, Left(i)) && Under(k, Right(i)))
    decreases k
  {
    if k > i {
      if Parent(k) == i {
        assert k == Left(i) || k == Right(i);
      }
      UnderChildren(Parent(k), i);
    }
  }

  /** The span of a node lies in that of every node above it. */
  lemma {:induction false} SpanInside(max: nat, ok: nat, k: nat, oi: nat, i: nat)
    requires OnLevel(max, ok, k) && OnLevel(max, oi, i) && Under(k, i) && ok <= oi
    ensures Offset(max, oi, i) <= Offset(max, ok, k)
    ensures Offset(max, ok, k) + Pow2(ok) <= Offset(max, oi, i) + Pow2(oi)
    decreases k
  {
    if k == i {
      SameLevel(max, ok, oi, i);
    } else {
      var p := Parent(k);
      ParentLevel(max, ok, k);
      InParent(max, ok, k);
      AboveIsHigher(max, ok + 1, p, oi, i);
      SpanInside(max, ok + 1, p, oi, i);
    }
  }

  lemma InParent(max: nat, order: nat, k: nat)
    requires k > 0 && OnLevel(max, order, k) && OnLevel(max, order + 1, Parent(k))
    ensures Offset(max, order + 1, Parent(k)) <= Offset(max, order, k)
    ensures Offset(max, order, k) + Pow2(order) <= Offset(max, order + 1, Parent(k)) + Pow2(order + 1)
  {
    ChildrenPartition(max, order + 1, Parent(k));
    assert k == Left(Parent(k)) || k == Right(Parent(k));
  }

  lemma SameLevel(max: nat, a: nat, b: nat, i: nat)
    requires OnLevel(max, a, i) && OnLevel(max, b, i)
    ensures a == b
  {
    if a < b {
      PowGrows(max - b, max - a);
    } else if b < a {
      PowGrows(max - a, max - b);
    }
  }

  /** A node on a higher level has a smaller index than one on a lower level, so it is not below it. */
  lemma HigherUp(max: nat, op: nat, p: nat, oi: nat, i: nat)
    requires OnLevel(max, op, p) && OnLevel(max, oi, i) && oi < op
    ensures p < i
  {
    PowGrows(max - op, max - oi);
  }

  lemma AboveIsHigher(max: nat, ok: nat, k: nat, oi: nat, i: nat)
    requires OnLevel(max, ok, k) && OnLevel(max, oi, i) && Under(k, i)
    ensures ok <= oi
  {
    if oi < ok {
      HigherUp(max, ok, k, oi, i);
    }
  }

  predicate Apart(a: nat, m: nat, b: nat, n: nat) {
    a + m <= b || b + n <= a
  }

  /** Nodes unrelated by ancestry have disjoint spans. */
  lemma {:induction false} UnrelatedApart(max: nat, oi: nat, i: nat, oj: nat, j: nat)
    requires OnLevel(max, oi, i) && OnLevel(max, oj, j) && oj <= oi && !Under(j, i)
    ensures Apart(Offset(max, oi, i), Pow2(oi), Offset(max, oj, j), Pow2(oj))
    decreases oi - oj
  {
    if oj == oi {
      var p, q := i - OrderStart(max, oi), j - OrderStart(max, oi);
      if p < q {
        Multiples(p, q, Pow2(oi));
      } else {
        Multiples(q, p, Pow2(oi));
      }
    } else {
      HigherUp(max, oi, i, oj, j);
      ParentLevel(max, oj, j);
      InParent(max, oj, j);
      UnrelatedApart(max, oi, i, oj + 1, Parent(j));
    }
  }

  lemma Multiples(p: nat, q: nat, n: nat)
    requires p < q
    ensures p * n + n <= q * n
  {
    var d := q - p - 1;
    Distributes(p, 1 + d, n);
    Distributes(1, d, n);
  }

  lemma Distributes(a: nat, b: nat, n: nat)
    ensures (a + b) * n == a * n + b * n && b * n >= 0
  {
  }

  // ----- the search -----

  datatype Node = Node(used: bool, split: bool, order: nat)

  /** The tree holds the nodes of the orders from min to max. */
  predicate Sized(t: seq<Node>, min: nat, max: nat) {
    min <= max && |t| == 2 * Pow2(max - min) - 1
  }

  lemma NodeExists(t: seq<Node>, min: nat, max: nat, current: nat, i: nat)
    requires Sized(t, min, max) && min <= current && OnLevel(max, current, i)
    ensures i < |t|
  {
    if min < current {
      PowGrows(max - current, max - min);
    }
  }

  /** `get_smallest_available_block_rec`: the node found, if any, and the tree with the flags it sets. */
  function Search(t: seq<Node>, min: nat, max: nat, order: nat, current: nat, i: nat): (r: (Option<nat>, seq<Node>))
    requires Sized(t, min, max) && min <= order && min <= current && OnLevel(max, current, i)
    ensures |r.1| == |t|
    decreases current
  {
    NodeExists(t, min, max, current, i);
    if t[i].used || order > current || t[i].split then (None, t)
    else if order == current then (Some(i), t[i := t[i].(used := true, order := order)])
    else
      ChildLevels(max, current, i);
      var l := Search(t, min, max, order, current - 1, Left(i));
      if l.0.Some? then (l.0, l.1[i := l.1[i].(split := true)])
      else
        var r := Search(l.1, min, max, order, current - 1, Right(i));
        if r.0.Some? then (r.0, r.1[i := r.1[i].(split := true)]) else (None, r.1)
  }

  predicate Marked(n: Node) {
    n.used || n.split
  }

  /** A marked node hangs from a split, unused one. */
  predicate HangsWell(t: seq<Node>, k: nat)
    requires k < |t|
  {
    Marked(t[k]) && k > 0 ==> t[Parent(k)].split && !t[Parent(k)].used
  }

  ghost predicate TreeOk(t: seq<Node>, max: nat) {
    && (forall k: nat :: k < |t| ==> HangsWell(t, k))
    && (forall k: nat :: k < |t| && t[k].used ==> OnLevel(max, t[k].order, k))
  }

  /** What a successful search below i has done. */
  ghost predicate Found(t: seq<Node>, r: seq<Node>, max: nat, order: nat, i: nat, j: nat) {
    && |r| == |t| && i < |t| && j < |t|
    && Under(j, i) && OnLevel(max, order, j) && !Marked(t[j]) && r[j] == Node(true, false, order)
    && (i == j || (r[i].split && !r[i].used))
    && (forall k: nat :: k < |t| && k != j ==> r[k] == t[k] || (Under(k, i) && r[k] == t[k].(split := true)))
    && (forall k: nat :: k < |t| && k != i && Under(k, i) ==> HangsWell(r, k))
  }

  /** The search below one child of i, and then the mark on i. */
  lemma FoundAbove(t: seq<Node>, r: seq<Node>, max: nat, order: nat, i: nat, c: nat, j: nat)
    requires TreeOk(t, max) && i < |t| && !Marked(t[i]) && (c == Left(i) || c == Right(i))
    requires Found(t, r, max, order, c, j)
    ensures Found(t, r[i := r[i].(split := true)], max, order, i, j)
  {
    var r' := r[i := r[i].(split := true)];
    UnderChildren(j, i);
    UnderChildren(i, i);
    assert j != i && r[i] == t[i];
    forall k: nat | k < |t| && k != j
      ensures r'[k] == t[k] || (Under(k, i) && r'[k] == t[k].(split := true))
    {
      UnderChildren(k, i);
    }
    forall k: nat | k < |t| && k != i && Under(k, i)
      ensures HangsWell(r', k)
    {
      HangsAbove(t, r, max, order, i, c, j, k);
    }
  }

  lemma HangsAbove(t: seq<Node>, r: seq<Node>, max: nat, order: nat, i: nat, c: nat, j: nat, k: nat)
    requires TreeOk(t, max) && i < |t| && !Marked(t[i]) && (c == Left(i) || c == Right(i))
    requires Found(t, r, max, order, c, j) && k < |t| && k != i && Under(k, i) && r[i] == t[i] && j != i
    ensures HangsWell(r[i := r[i].(split := true)], k)
  {
    UnderChildren(k, i);
    var p := Parent(k);
    if p != i {
      if Under(k, c) {
        assert HangsWell(r, k);
      } else {
        assert !Under(p, c);
        assert r[k] == t[k] && r[p] == t[p] && HangsWell(t, k);
      }
    }
  }

  /** A search that fails changes no flag; one that succeeds marks an unmarked node of the requested order. */
  lemma {:induction false} SearchMarks(t: seq<Node>, min: nat, max: nat, order: nat, current: nat, i: nat)
    requires Sized(t, min, max) && min <= order && min <= current && OnLevel(max, current, i) && TreeOk(t, max)
    ensures var r := Search(t, min, max, order, current, i);
            match r.0
            case None => r.1 == t
            case Some(j) => Found(t, r.1, max, order, i, j)
    decreases current
  {
    NodeExists(t, min, max, current, i);
    if !t[i].used && order <= current && !t[i].split {
      if order == current {
        FoundHere(t, max, order, i);
      } else {
        ChildLevels(max, current, i);
        SearchMarks(t, min, max, order, current - 1, Left(i));
        SearchMarks(t, min, max, order, current - 1, Right(i));
        var l := Search(t, min, max, order, current - 1, Left(i));
        var r := Search(t, min, max, order, current - 1, Right(i));
        if l.0.Some? {
          FoundAbove(t, l.1, max, order, i, Left(i), l.0.value);
        } else if r.0.Some? {
          FoundAbove(t, r.1, max, order, i, Right(i), r.0.value);
        }
      }
    }
  }

  lemma FoundHere(t: seq<Node>, max: nat, order: nat, i: nat)
    requires TreeOk(t, max) && i < |t| && OnLevel(max, order, i) && !Marked(t[i])
    ensures Found(t, t[i := t[i].(used := true, order := order)], max, order, i, i)
  {
    var r := t[i := t[i].(used := true, order := order)];
    forall k: nat | k < |t| && k != i && Under(k, i)
      ensures HangsWell(r, k)
    {
      assert HangsWell(t, k);
    }
  }

  /** Searching from the root keeps the tree in order and marks exactly one more node as used. */
  lemma SearchKeepsTree(t: seq<Node>, min: nat, max: nat, order: nat)
    requires Sized(t, min, max) && min <= order && TreeOk(t, max)
    ensures OnLevel(max, max, 0)
    ensures var r := Search(t, min, max, order, max, 0);
            && TreeOk(r.1, max)
            && forall k: nat :: k < |t| ==> (r.1[k].used <==> t[k].used || r.0 == Some(k))
  {
    RootSpan(max);
    SearchMarks(t, min, max, order, max, 0);
    var r := Search(t, min, max, order, max, 0);
    if r.0.Some? {
      forall k: nat | k < |t|
        ensures HangsWell(r.1, k)
      {
        UnderRoot(k);
      }
      forall k: nat | k < |t| && r.1[k].used
        ensures OnLevel(max, r.1[k].order, k)
      {
        assert k != r.0.value ==> r.1[k] == t[k] || r.1[k] == t[k].(split := true);
      }
    }
  }

  /** Above a marked node everything is split and unused. */
  lemma {:induction false} SplitAbove(t: seq<Node>, max: nat, k: nat, i: nat)
    requires TreeOk(t, max) && k < |t| && Marked(t[k]) && Under(k, i) && k != i
    ensures t[i].split && !t[i].used
    decreases k
  {
    assert HangsWell(t, k);
    if Parent(k) != i {
      SplitAbove(t, max, Parent(k), i);
    }
  }

  /** The blocks of two different used nodes never overlap. */
  lemma UsedApart(t: seq<Node>, max: nat, i: nat, j: nat)
    requires TreeOk(t, max) && i < |t| && j < |t| && i != j && t[i].used && t[j].used
    ensures Apart(Offset(max, t[i].order, i), Pow2(t[i].order), Offset(max, t[j].order, j), Pow2(t[j].order))
  {
    if Under(j, i) {
      SplitAbove(t, max, j, i);
    }
    if Under(i, j) {
      SplitAbove(t, max, i, j);
    }
    if t[j].order <= t[i].order {
      UnrelatedApart(max, t[i].order, i, t[j].order, j);
    } else {
      UnrelatedApart(max, t[j].order, j, t[i].order, i);
    }
  }

  // ----- every run of allocations -----

  /**
   * In a tree in order a search succeeds exactly at an unmarked node that is large enough, and goes left all the way.
   */
  lemma {:induction false} SearchSucceedsExactly(t: seq<Node>, min: nat, max: nat, order: nat, current: nat, i: nat)
    requires Sized(t, min, max) && min <= order && min <= current && OnLevel(max, current, i) && TreeOk(t, max)
    requires i < |t|
    ensures var r := Search(t, min, max, order, current, i);
            && (r.0.Some? <==> !Marked(t[i]) && order <= current)
            && (r.0.Some? ==>
                  OnLevel(max, order, r.0.value) && Offset(max, order, r.0.value) == Offset(max, current, i))
    decreases current
  {
    if !Marked(t[i]) && order < current {
      ChildrenPartition(max, current, i);
      NodeExists(t, min, max, current - 1, Left(i));
      assert HangsWell(t, Left(i));
      SearchSucceedsExactly(t, min, max, order, current - 1, Left(i));
    }
  }

  function Blank(min: nat, max: nat): (t: seq<Node>)
    requires min <= max
    ensures Sized(t, min, max)
  {
    seq(2 * Pow2(max - min) - 1, _ => Node(false, false, 0))
  }

  /** The results of a sequence of allocations of the given orders. */
  function Results(t: seq<Node>, min: nat, max: nat, orders: seq<nat>): (r: seq<Option<nat>>)
    requires Sized(t, min, max) && forall k :: 0 <= k < |orders| ==> min <= orders[k]
    ensures |r| == |orders|
    decreases |orders|
  {
    if orders == [] then []
    else
      RootSpan(max);
      var s := Search(t, min, max, orders[0], max, 0);
      [s.0] + Results(s.1, min, max, orders[1..])
  }

  lemma {:induction false} MarkedRootFails(t: seq<Node>, min: nat, max: nat, orders: seq<nat>, k: nat)
    requires Sized(t, min, max) && OnLevel(max, max, 0) && (forall k :: 0 <= k < |orders| ==> min <= orders[k])
    requires |t| > 0 && Marked(t[0]) && k < |orders|
    ensures Results(t, min, max, orders)[k] == None
    decreases |orders|
  {
    if k > 0 {
      MarkedRootFails(t, min, max, orders[1..], k - 1);
    }
  }

  /**
   * Of any sequence of allocations on a fresh tree only the first can succeed: it gets the block at the start of the
   * heap, and from then on the search gives up at the root, whose split flag it tests before looking at the children.
   */
  lemma OnlyFirstSucceeds(min: nat, max: nat, orders: seq<nat>, k: nat)
    requires min <= max && k < |orders| && forall n :: 0 <= n < |orders| ==> min <= orders[n] <= max
    ensures OnLevel(max, max, 0)
    ensures var r := Results(Blank(min, max), min, max, orders);
            if k == 0 then r[0].Some? && OnLevel(max, orders[0], r[0].value) && Offset(max, orders[0], r[0].value) == 0
            else r[k] == None
  {
    FirstAllocation(min, max, orders[0]);
    if k > 0 {
      LaterOnesFail(Blank(min, max), min, max, orders, k);
    }
  }

  lemma LaterOnesFail(t: seq<Node>, min: nat, max: nat, orders: seq<nat>, k: nat)
    requires Sized(t, min, max) && OnLevel(max, max, 0) && 0 < k < |orders|
    requires forall n :: 0 <= n < |orders| ==> min <= orders[n]
    requires |t| > 0 && Marked(Search(t, min, max, orders[0], max, 0).1[0])
    ensures Results(t, min, max, orders)[k] == None
  {
    MarkedRootFails(Search(t, min, max, orders[0], max, 0).1, min, max, orders[1..], k - 1);
  }

  lemma FirstAllocation(min: nat, max: nat, order: nat)
    requires min <= order <= max
    ensures OnLevel(max, max, 0)
    ensures var r := Search(Blank(min, max), min, max, order, max, 0);
            && r.0.Some? && OnLevel(max, order, r.0.value) && Offset(max, order, r.0.value) == 0
            && |r.1| > 0 && Marked(r.1[0])
  {
    RootSpan(max);
    BlankOk(min, max);
    FromCleanRoot(Blank(min, max), min, max, order);
  }

  lemma RootSpan(max: nat)
    ensures OnLevel(max, max, 0) && Offset(max, max, 0) == 0
  {
    assert Pow2(0) == 1;
  }

  lemma FromCleanRoot(t: seq<Node>, min: nat, max: nat, order: nat)
    requires Sized(t, min, max) && min <= order <= max && OnLevel(max, max, 0) && Offset(max, max, 0) == 0
    requires TreeOk(t, max) && |t| > 0 && !Marked(t[0])
    ensures var r := Search(t, min, max, order, max, 0);
            && r.0.Some? && OnLevel(max, order, r.0.value) && Offset(max, order, r.0.value) == 0
            && |r.1| > 0 && Marked(r.1[0])
  {
    SearchSucceedsExactly(t, min, max, order, max, 0);
    SearchMarks(t, min, max, order, max, 0);
  }

  lemma BlankOk(min: nat, max: nat)
    requires min <= max
    ensures TreeOk(Blank(min, max), max) && |Blank(min, max)| > 0
  {
    forall k: nat | k < |Blank(min, max)|
      ensures HangsWell(Blank(min, max), k) && !Blank(min, max)[k].used
    {
    }
  }
}

/** The buddy tree as an array of nodes whose flags the search sets in place. */
module BuddyAllocator {
  import opened Common
  import opened BuddyTree

  /** `get_fit_order`: halving until nothing is left. */
  method GetFitOrder(size: nat) returns (order: nat)
    ensures order == FitOrder(size)
  {
    order := 0;
    var rest := size;
    while rest > 0
      invariant order + BitLength(rest) == BitLength(size)
    {
      rest := rest / 2;
      order := order + 1;
    }
    if order < MIN_ALLOC_LOG2 {
      order := MIN_ALLOC_LOG2;
    }
  }

  class Allocator {
    const buddyTree: array<Node>
    const maxOrder: nat

    ghost predicate Valid()
      reads buddyTree
    {
      Sized(buddyTree[..], MIN_ALLOC_LOG2, maxOrder) && TreeOk(buddyTree[..], maxOrder)
    }

    constructor (max: nat)
      requires MIN_ALLOC_LOG2 <= max
      ensures Valid() && fresh(buddyTree) && maxOrder == max && buddyTree[..] == Blank(MIN_ALLOC_LOG2, max)
    {
      buddyTree := new Node[2 * Pow2(max - MIN_ALLOC_LOG2) - 1](_ => Node(false, false, 0));
      maxOrder := max;
      new;
      BlankOk(MIN_ALLOC_LOG2, max);
      assert buddyTree[..] == Blank(MIN_ALLOC_LOG2, max);
    }

    /** `get_smallest_available_block_rec`; None stands for the index -1. */
    method SearchFrom(order: nat, current: nat, i: nat) returns (found: Option<nat>)
      requires Sized(buddyTree[..], MIN_ALLOC_LOG2, maxOrder)
      requires MIN_ALLOC_LOG2 <= order && MIN_ALLOC_LOG2 <= current && OnLevel(maxOrder, current, i)
      modifies buddyTree
      ensures (found, buddyTree[..]) == Search(old(buddyTree[..]), MIN_ALLOC_LOG2, maxOrder, order, current, i)
      decreases current
    {
      NodeExists(buddyTree[..], MIN_ALLOC_LOG2, maxOrder, current, i);
      if buddyTree[i].used || order > current {
        return None;
      }
      if order == current {
        if buddyTree[i].split {
          return None;
        }
        Mark(i, buddyTree[i].(used := true, order := order));
        return Some(i);
      }
      if buddyTree[i].split {
        return None;
      }
      ChildLevels(maxOrder, current, i);
      found := SearchFrom(order, current - 1, Left(i));
      if found.Some? {
        Mark(i, buddyTree[i].(split := true));
        return;
      }
      found := SearchFrom(order, current - 1, Right(i));
      if found.Some? {
        Mark(i, buddyTree[i].(split := true));
      }
    }

    method Mark(i: nat, x: Node)
      requires i < buddyTree.Length
      modifies buddyTree
      ensures buddyTree[..] == old(buddyTree[..])[i := x]
    {
      buddyTree[i] := x;
    }

    /** `get_smallest_available_block`, for an order that `get_fit_order` returns. */
    method FindBlock(order: nat) returns (found: Option<nat>)
      requires Valid() && MIN_ALLOC_LOG2 <= order
      modifies buddyTree
      ensures OnLevel(maxOrder, maxOrder, 0)
      ensures Valid() && (found, buddyTree[..]) ==
              Search(old(buddyTree[..]), MIN_ALLOC_LOG2, maxOrder, order, maxOrder, 0)
      ensures found == None ==> buddyTree[..] == old(buddyTree[..])
      ensures found.Some? ==> (
        && found.value < buddyTree.Length && OnLevel(maxOrder, order, found.value)
        && !old(buddyTree[..])[found.value].used && buddyTree[found.value] == Node(true, false, order))
    {
      RootSpan(maxOrder);
      SearchMarks(buddyTree[..], MIN_ALLOC_LOG2, maxOrder, order, maxOrder, 0);
      SearchKeepsTree(buddyTree[..], MIN_ALLOC_LOG2, maxOrder, order);
      found := SearchFrom(order, maxOrder, 0);
    }
  }
}
