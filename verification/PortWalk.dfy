/** The walk over received ports (`RecievedPorts`): there and back along the slaves. */
module PortWalk {
  import opened Bytes

  /** The linked ports of one slave. */
  type Ports = p: seq<bool> | |p| == 4 witness [false, false, false, false]

  const NO_PORT := 4

  /** The first linked port at or behind `k`, or 4. */
  function FirstFrom(p: Ports, k: nat): (r: nat)
    ensures r <= NO_PORT && (k <= NO_PORT ==> k <= r)
    ensures r < NO_PORT ==> p[r]
    ensures forall j :: k <= j < r ==> !p[j]
    decreases NO_PORT - k
  {
    if k >= NO_PORT then NO_PORT else if p[k] then k else FirstFrom(p, k + 1)
  }

  function First(p: Ports): nat { FirstFrom(p, 0) }
  function Second(p: Ports): nat { FirstFrom(p, First(p) + 1) }
  function Third(p: Ports): nat { FirstFrom(p, Second(p) + 1) }

  /** Where the iterator stands: a position, and the current port of every slave (4 when used up). */
  datatype Walk = Walk(position: nat, current: seq<nat>)

  function InitialPorts(ports: seq<Ports>): (r: seq<nat>)
    ensures |r| == |ports| && forall i {:trigger r[i]} :: 0 <= i < |r| ==> r[i] == First(ports[i])
  {
    if ports == [] then [] else InitialPorts(ports[..|ports| - 1]) + [First(ports[|ports| - 1])]
  }

  predicate WalkOk(ports: seq<Ports>, w: Walk) {
    |w.current| == |ports| && forall i :: 0 <= i < |ports| ==> w.current[i] <= NO_PORT
  }

  /** One call of `next`: the current port is handed out, the slave moves to its next linked port, and the
      position goes forward if there is one and back by one otherwise. */
  function Advance(ports: seq<Ports>, w: Walk): (w': Walk)
    requires WalkOk(ports, w) && w.position < |ports|
    ensures WalkOk(ports, w')
  {
    var next := FirstFrom(ports[w.position], w.current[w.position] + 1);
    Walk(if next < NO_PORT then w.position + 1 else if 1 <= w.position then w.position - 1 else w.position,
         w.current[w.position := next])
  }

  class RecievedPorts {
    const ports: seq<Ports>
    var position: nat
    var current: seq<nat>

    ghost function View(): Walk
      reads this
    {
      Walk(position, current)
    }

    ghost predicate Valid()
      reads this
    {
      WalkOk(ports, View())
    }

    constructor (ports: seq<Ports>)
      ensures Valid() && this.ports == ports && View() == Walk(0, InitialPorts(ports))
    {
      this.ports := ports;
      position := 0;
      current := InitialPorts(ports);
    }

    /** `next`; a position behind the last slave is an out-of-range access. */
    method Next() returns (item: Option<(nat, nat)>)
      requires Valid() && position < |ports|
      modifies this
      ensures Valid() && View() == Advance(ports, old(View()))
      ensures item == if old(current[position]) < NO_PORT
        then Some((old(position), old(current[position]))) else None
    {
      var here, port := position, current[position];
      var next := FirstFrom(ports[here], port + 1);
      if next < NO_PORT {
        current := current[here := next];
        position := position + 1;
      } else {
        current := current[here := NO_PORT];
        if 1 <= position { position := position - 1; }
      }
      if here < |ports| && port < NO_PORT { return Some((here, port)); }
      return None;
    }
  }

  // ------------------------------------------------------------------ the whole walk

  /** Ports not handed out yet, as an upper bound. */
  function Left(current: seq<nat>, n: nat): nat
    requires n <= |current|
  {
    if n == 0 then 0 else Left(current, n - 1) + if current[n - 1] < NO_PORT then NO_PORT - current[n - 1] else 0
  }

  lemma {:induction false} LeftAfter(current: seq<nat>, n: nat, i: nat, v: nat)
    requires i < |current| && n <= |current| && current[i] < v <= NO_PORT
    ensures Left(current[i := v], n) <= Left(current, n)
    ensures i < n ==> Left(current[i := v], n) < Left(current, n)
  {
    if n > 0 { LeftAfter(current, n - 1, i, v); }
  }

  datatype Outcome = Done(items: seq<(nat, nat)>) | OutOfRange(items: seq<(nat, nat)>)

  /** All items up to the first None; it always ends. */
  function WalkFrom(ports: seq<Ports>, w: Walk): Outcome
    requires WalkOk(ports, w)
    decreases Left(w.current, |w.current|)
  {
    if w.position >= |ports| then OutOfRange([])
    else if w.current[w.position] >= NO_PORT then Done([])
    else
      LeftAfter(w.current, |w.current|, w.position, FirstFrom(ports[w.position], w.current[w.position] + 1));
      var item := (w.position, w.current[w.position]);
      match WalkFrom(ports, Advance(ports, w))
      case Done(rest) => Done([item] + rest)
      case OutOfRange(rest) => OutOfRange([item] + rest)
  }

  function WalkAll(ports: seq<Ports>): Outcome {
    WalkFrom(ports, Walk(0, InitialPorts(ports)))
  }

  // ------------------------------------------------------------------ line topology

  predicate TwoPorts(p: Ports) { Second(p) < NO_PORT && Third(p) == NO_PORT }
  predicate OnePort(p: Ports) { First(p) < NO_PORT && Second(p) == NO_PORT }

  /** The first m slaves form a line: two linked ports each, one at the far end. */
  predicate LineUpTo(ports: seq<Ports>, m: nat) {
    && 1 <= m <= |ports|
    && (forall i :: 0 <= i < m - 1 ==> TwoPorts(ports[i]))
    && OnePort(ports[m - 1])
  }

  predicate IsLine(ports: seq<Ports>) { LineUpTo(ports, |ports|) }

  /** The ports in frame order: out through every slave, then back. */
  function LineItem(ports: seq<Ports>, m: nat, j: nat): (nat, nat)
    requires 1 <= m <= |ports| && j < 2 * m - 1
  {
    if j < m then (j, First(ports[j])) else (2 * m - 2 - j, Second(ports[2 * m - 2 - j]))
  }

  function LineItems(ports: seq<Ports>, m: nat, j: nat): (r: seq<(nat, nat)>)
    requires 1 <= m <= |ports| && j <= 2 * m - 1
    ensures |r| == 2 * m - 1 - j
    ensures forall k {:trigger r[k]} :: 0 <= k < |r| ==> r[k] == LineItem(ports, m, j + k)
    decreases 2 * m - 1 - j
  {
    if j == 2 * m - 1 then [] else [LineItem(ports, m, j)] + LineItems(ports, m, j + 1)
  }

  /** Before item j of the walk. */
  predicate LineState(ports: seq<Ports>, m: nat, j: nat, w: Walk)
    requires 1 <= m <= |ports| && j <= 2 * m - 1
  {
    && WalkOk(ports, w)
    && w.position == (if j < m then j else if j < 2 * m - 1 then 2 * m - 2 - j else 0)
    && forall i :: 0 <= i < m ==> w.current[i] == LineCurrent(ports, m, j, i)
  }

  function LineCurrent(ports: seq<Ports>, m: nat, j: nat, i: nat): nat
    requires 1 <= m <= |ports| && i < m
  {
    if j <= i then First(ports[i]) else if i < m - 1 && j <= 2 * m - 2 - i then Second(ports[i]) else NO_PORT
  }

  lemma LineAdvance(ports: seq<Ports>, m: nat, j: nat, w: Walk)
    requires LineUpTo(ports, m) && j < 2 * m - 1 && LineState(ports, m, j, w)
    ensures w.current[w.position] < NO_PORT && (w.position, w.current[w.position]) == LineItem(ports, m, j)
    ensures LineState(ports, m, j + 1, Advance(ports, w))
  {
    var i := w.position;
    assert w.current[i] == LineCurrent(ports, m, j, i);
    if j < m - 1 { assert TwoPorts(ports[i]); }
    if j >= m { assert TwoPorts(ports[i]); }
  }

  lemma {:induction false} LineWalkFrom(ports: seq<Ports>, m: nat, j: nat, w: Walk)
    requires LineUpTo(ports, m) && j <= 2 * m - 1 && LineState(ports, m, j, w)
    ensures WalkFrom(ports, w) == Done(LineItems(ports, m, j))
    decreases 2 * m - 1 - j
  {
    if j < 2 * m - 1 {
      LineAdvance(ports, m, j, w);
      LineWalkFrom(ports, m, j + 1, Advance(ports, w));
      WalkStep(ports, w, LineItems(ports, m, j + 1));
    } else {
      assert w.current[0] == LineCurrent(ports, m, j, 0);
    }
  }

  lemma WalkStep(ports: seq<Ports>, w: Walk, rest: seq<(nat, nat)>)
    requires WalkOk(ports, w) && w.position < |ports| && w.current[w.position] < NO_PORT
    requires WalkOk(ports, Advance(ports, w)) && WalkFrom(ports, Advance(ports, w)) == Done(rest)
    ensures WalkFrom(ports, w) == Done([(w.position, w.current[w.position])] + rest)
  {
  }

  /** On a line the walk ends inside the array and hands out all 2n - 1 linked ports in frame order. */
  lemma LineWalk(ports: seq<Ports>, m: nat)
    requires LineUpTo(ports, m)
    ensures WalkAll(ports) == Done(LineItems(ports, m, 0))
  {
    LineWalkFrom(ports, m, 0, Walk(0, InitialPorts(ports)));
  }

  /** No port is handed out twice. */
  lemma LineItemsDistinct(ports: seq<Ports>, m: nat, j: nat, k: nat)
    requires LineUpTo(ports, m) && j < k < 2 * m - 1
    ensures LineItem(ports, m, j) != LineItem(ports, m, k)
  {
    if k >= m { assert TwoPorts(ports[2 * m - 2 - k]); }
  }

  // ------------------------------------------------------------------ completeness exactly on a line

  /** The walk stays in range and hands out every linked port of every slave. */
  ghost predicate Complete(ports: seq<Ports>) {
    && WalkAll(ports).Done?
    && forall i, p :: 0 <= i < |ports| && 0 <= p < NO_PORT && ports[i][p] ==> (i, p) in WalkAll(ports).items
  }

  /** A line of m slaves; those behind it have no linked port. */
  predicate LineThenNone(ports: seq<Ports>, m: nat) {
    && m <= |ports| && (m == 0 || LineUpTo(ports, m))
    && forall i :: m <= i < |ports| ==> First(ports[i]) == NO_PORT
  }

  lemma LineIsComplete(ports: seq<Ports>, m: nat)
    requires ports != [] && LineThenNone(ports, m)
    ensures Complete(ports)
  {
    if m > 0 {
      LineWalk(ports, m);
      var items := LineItems(ports, m, 0);
      forall i, p | 0 <= i < |ports| && 0 <= p < NO_PORT && ports[i][p] ensures (i, p) in items {
        assert i < m;
        assert i < m - 1 ==> TwoPorts(ports[i]);
        if p == First(ports[i]) {
          assert items[i] == (i, p);
        } else {
          assert items[2 * m - 2 - i] == (i, p);
        }
      }
    }
  }

  /** The last slave must not link onward: the walk would leave the array. */
  lemma {:induction false} ForwardLeaves(ports: seq<Ports>, i: nat, w: Walk)
    requires i < |ports| && WalkOk(ports, w) && w.position == i
    requires forall k :: i <= k < |ports| ==> Second(ports[k]) < NO_PORT && w.current[k] == First(ports[k])
    ensures WalkFrom(ports, w).OutOfRange?
    decreases |ports| - i
  {
    assert Second(ports[i]) < NO_PORT;
    var w' := Advance(ports, w);
    if i + 1 < |ports| {
      ForwardLeaves(ports, i + 1, w');
    } else {
      assert WalkFrom(ports, w').OutOfRange?;
    }
  }

  /** A branch: once the walk has come back to slave i it can only step to the used-up slave i + 1, where it
      ends, so the third port of slave i is never handed out. */
  predicate BranchState(ports: seq<Ports>, i: nat, w: Walk)
    requires i + 1 < |ports|
  {
    && WalkOk(ports, w) && First(ports[i]) < Second(ports[i]) < Third(ports[i]) < NO_PORT
    && (|| w.current[i] == First(ports[i])
        || (w.current[i] == Second(ports[i]) && (w.position > i || w.current[i + 1] == NO_PORT))
        || (w.current[i] == Third(ports[i]) && w.position == i + 1 && w.current[i + 1] == NO_PORT))
  }

  function Items(o: Outcome): seq<(nat, nat)> { o.items }

  lemma {:induction false} BranchCutShort(ports: seq<Ports>, i: nat, w: Walk)
    requires i + 1 < |ports| && BranchState(ports, i, w)
    ensures (i, Third(ports[i])) !in Items(WalkFrom(ports, w))
    decreases Left(w.current, |w.current|)
  {
    if w.position < |ports| && w.current[w.position] < NO_PORT {
      LeftAfter(w.current, |w.current|, w.position, FirstFrom(ports[w.position], w.current[w.position] + 1));
      BranchCutShort(ports, i, Advance(ports, w));
    }
  }

  lemma {:induction false} FirstOdd(ports: seq<Ports>, i: nat) returns (m: nat)
    requires i < |ports| && forall k :: 0 <= k < i ==> TwoPorts(ports[k])
    ensures i <= m < |ports| && (forall k :: 0 <= k < m ==> TwoPorts(ports[k]))
    ensures m == |ports| - 1 || !TwoPorts(ports[m])
    decreases |ports| - i
  {
    if i == |ports| - 1 || !TwoPorts(ports[i]) { m := i; } else { m := FirstOdd(ports, i + 1); }
  }

  /** A slave without linked ports ends the walk on its way out: only first ports have been handed out. */
  lemma {:induction false} ForwardEnds(ports: seq<Ports>, i: nat, m: nat, w: Walk)
    requires i <= m < |ports| && WalkOk(ports, w) && w.position == i
    requires First(ports[m]) == NO_PORT && forall k :: i <= k < m ==> Second(ports[k]) < NO_PORT
    requires forall k :: i <= k < |ports| ==> w.current[k] == First(ports[k])
    ensures forall j :: 0 <= j < |Items(WalkFrom(ports, w))| ==> FirstOnly(ports, Items(WalkFrom(ports, w))[j])
    decreases m - i
  {
    if i < m {
      assert Second(ports[i]) < NO_PORT;
      var w' := Advance(ports, w);
      ForwardEnds(ports, i + 1, m, w');
      var rest := Items(WalkFrom(ports, w'));
      assert Items(WalkFrom(ports, w)) == [(i, First(ports[i]))] + rest;
    }
  }

  predicate FirstOnly(ports: seq<Ports>, item: (nat, nat)) {
    item.0 < |ports| && item.1 == First(ports[item.0])
  }

  lemma NoneCutsShort(ports: seq<Ports>, m: nat)
    requires 0 < m < |ports| && First(ports[m]) == NO_PORT && forall k :: 0 <= k < m ==> TwoPorts(ports[k])
    ensures !Complete(ports)
  {
    var w := Walk(0, InitialPorts(ports));
    assert forall k :: 0 <= k < m ==> TwoPorts(ports[k]) && Second(ports[k]) < NO_PORT;
    ForwardEnds(ports, 0, m, w);
    assert TwoPorts(ports[m - 1]);
    assert ports[m - 1][Second(ports[m - 1])];
    assert !FirstOnly(ports, (m - 1, Second(ports[m - 1])));
    assert (m - 1, Second(ports[m - 1])) !in Items(WalkFrom(ports, w));
  }

  lemma LineCutsShort(ports: seq<Ports>, m: nat, i: nat)
    requires LineUpTo(ports, m) && m <= i < |ports| && First(ports[i]) < NO_PORT
    ensures !Complete(ports)
  {
    LineWalk(ports, m);
    var items := LineItems(ports, m, 0);
    assert forall k :: 0 <= k < |items| ==> items[k].0 < m;
    assert ports[i][First(ports[i])];
    assert (i, First(ports[i])) !in items;
  }

  /** The walk is complete exactly on a line, behind which there may be slaves without any linked port. */
  lemma CompleteIffLine(ports: seq<Ports>)
    ensures Complete(ports) <==> ports != [] && exists m :: 0 <= m <= |ports| && LineThenNone(ports, m)
  {
    if ports != [] {
      if m :| 0 <= m <= |ports| && LineThenNone(ports, m) {
        LineIsComplete(ports, m);
      } else {
        NotLine(ports);
      }
    }
  }

  lemma NotLine(ports: seq<Ports>)
    requires ports != [] && forall m :: 0 <= m <= |ports| ==> !LineThenNone(ports, m)
    ensures !Complete(ports)
  {
    var n := |ports|;
    var m := FirstOdd(ports, 0);
    if First(ports[m]) == NO_PORT {
      if m == 0 {
        assert !LineThenNone(ports, 0);
        var i :| 0 <= i < n && First(ports[i]) != NO_PORT;
        assert ports[i][First(ports[i])];
        assert WalkAll(ports) == Done([]);
      } else {
        NoneCutsShort(ports, m);
      }
    } else if OnePort(ports[m]) {
      assert LineUpTo(ports, m + 1) && !LineThenNone(ports, m + 1);
      var i :| m + 1 <= i < n && First(ports[i]) != NO_PORT;
      LineCutsShort(ports, m + 1, i);
    } else if m == n - 1 {
      ForwardLeaves(ports, 0, Walk(0, InitialPorts(ports)));
    } else {
      BranchCutShort(ports, m, Walk(0, InitialPorts(ports)));
      assert ports[m][Third(ports[m])];
    }
  }

  /** With a linked port on every slave that is: exactly on a line. */
  lemma LinkedCompleteIff(ports: seq<Ports>)
    requires forall i :: 0 <= i < |ports| ==> First(ports[i]) < NO_PORT
    ensures Complete(ports) <==> IsLine(ports)
  {
    CompleteIffLine(ports);
    if IsLine(ports) { assert LineThenNone(ports, |ports|); }
  }

  /** Two slaves behind one branching slave. */
  const STAR: seq<Ports> := [[true, true, true, false], [true, false, false, false], [true, false, false, false]]

  lemma StarSteps()
    ensures Advance(STAR, Walk(0, [0, 0, 0])) == Walk(1, [1, 0, 0])
    ensures Advance(STAR, Walk(1, [1, 0, 0])) == Walk(0, [1, 4, 0])
    ensures Advance(STAR, Walk(0, [1, 4, 0])) == Walk(1, [2, 4, 0])
  {
  }

  /** There the walk ends with the last slave unseen. */
  lemma StarIncomplete()
    ensures WalkAll(STAR) == Done([(0, 0), (1, 0), (0, 1)])
  {
    StarSteps();
    assert InitialPorts(STAR) == [0, 0, 0];
    assert WalkFrom(STAR, Walk(1, [2, 4, 0])) == Done([]);
    WalkStep(STAR, Walk(0, [1, 4, 0]), []);
    WalkStep(STAR, Walk(1, [1, 0, 0]), [(0, 1)]);
    WalkStep(STAR, Walk(0, [0, 0, 0]), [(1, 0), (0, 1)]);
  }
}
