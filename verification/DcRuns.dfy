/** Runs of distributed-clock initialisation: length, writes, delays and the final check. */
module DcRuns {
  import opened Bytes
  import opened Commands
  import opened Tasks
  import opened PortWalk
  import opened DcInit

  // ------------------------------------------------------------------ the start on a line

  /** On a line every slave behind the first has the slave before it as parent, at that slave's first port, and
      the reference is the first slave that supports DC. */
  lemma StartOnLine(net: Topology, t: Task)
    requires Started(net, t) && IsLine(net.ports)
    ensures t.firstDc == NextDc(net, 0)
    ensures forall i :: 0 < i < net.Size() ==> t.contexts[i].parent == Some((i - 1, First(net.ports[i - 1])))
  {
    var n := net.Size();
    LineWalk(net.ports, n);
    var items := LineItems(net.ports, n, 0);
    FirstDcOnLine(net, items, 0);
    forall i | 0 < i < n ensures t.contexts[i].parent == Some((i - 1, First(net.ports[i - 1]))) {
      assert t.contexts[i] == DEFAULT_CONTEXT.(parent := ParentFrom(items, i, 1));
      ParentOnLine(net, items, i, 1);
    }
  }

  lemma {:induction false} FirstDcOnLine(net: Topology, items: seq<(nat, nat)>, k: nat)
    requires net.Ok() && items == LineItems(net.ports, net.Size(), 0) && k <= net.Size()
    requires forall j :: 0 <= j < k ==> !net.dc[j]
    ensures FirstDcFrom(items, net.dc, k) == NextDc(net, k)
    decreases |items| - k
  {
    if k < net.Size() {
      assert items[k] == (k, First(net.ports[k]));
      if !net.dc[k] { FirstDcOnLine(net, items, k + 1); }
    } else {
      NoDcLater(net, items, k);
    }
  }

  lemma {:induction false} NoDcLater(net: Topology, items: seq<(nat, nat)>, k: nat)
    requires net.Ok() && items == LineItems(net.ports, net.Size(), 0) && net.Size() <= k
    requires forall j :: 0 <= j < net.Size() ==> !net.dc[j]
    ensures FirstDcFrom(items, net.dc, k).None?
    decreases |items| - k
  {
    if k < |items| { NoDcLater(net, items, k + 1); }
  }

  lemma {:induction false} ParentOnLine(net: Topology, items: seq<(nat, nat)>, i: nat, k: nat)
    requires net.Ok() && items == LineItems(net.ports, net.Size(), 0) && 1 <= k <= i < net.Size()
    ensures ParentFrom(items, i, k) == Some((i - 1, First(net.ports[i - 1])))
    decreases i - k
  {
    assert items[k] == (k, First(net.ports[k])) && items[k - 1] == (k - 1, First(net.ports[k - 1]));
    if k < i { ParentOnLine(net, items, i, k + 1); }
  }

  // ------------------------------------------------------------------ steps

  ghost predicate TaskOk(net: Topology, t: Task) {
    && InRange(net, t) && t.firstDc == NextDc(net, 0) && t.dcCount == DcTotal(net)
    && match t.state
       case RequestToLatch(c) => c < COUNT_MAX
       case CalculateDelay(c, _) => c < COUNT_MAX
       case SetOffset(pos) => net.dc[pos]
       case SetDelay(pos) => net.dc[pos]
       case CompensateDrift(c) => c < DRIFT_COUNT_MIN && t.firstDc.Some?
       case CheckDelta => t.firstDc.Some?
       case _ => true
  }

  /** The task after `next_pdu`. */
  ghost function Sent(net: Topology, t: Task): Task
    requires TaskOk(net, t)
  {
    if Busy(t.state) then t.(command := CommandOf(t)) else t
  }

  /** One turn of `process_one_step`: request, then reply. */
  ghost predicate Step(net: Topology, t: Task, r: Reply, t': Task) {
    TaskOk(net, t) && OnReply(net, Sent(net, t), r) == Some(t')
  }

  /** The reply to the current request with the working counter the source expects. */
  ghost predicate Good(net: Topology, t: Task, r: Reply)
    requires TaskOk(net, t)
  {
    Busy(t.state) && Matches(CommandOf(t), r.command) && r.wkc == ExpectedWkc(net, t)
  }

  lemma StepKeepsOk(net: Topology, t: Task, r: Reply, t': Task)
    requires Step(net, t, r, t')
    ensures TaskOk(net, t')
  {
    match t.state
    case CalculateDelay(_, _) =>
    case _ =>
  }

  /** Any other reply ends the task: with an unexpected command, or with the working counter that was expected of
      the slaves the datagram is for and the one that came. */
  lemma OtherReplyEnds(net: Topology, t: Task, r: Reply, t': Task)
    requires Step(net, t, r, t') && Busy(t.state) && !Good(net, t, r)
    ensures var c := CommandOf(t);
      if r.command.ctype != c.ctype || r.command.ado != c.ado then t'.state == Error(UnexpectedCommand)
      else
        && t'.state.Error? && t'.state.error.UnexpectedWkc? && t'.state.error.actual == r.wkc
        && t'.state.error.expected ==
             if c.ctype == BWR then net.Size() else if c.ctype == ARMW || c.ctype == BRD then DcTotal(net) else 1
  {
    DcBeforeAtMost(net, |net.dc|);
  }

  lemma {:induction false} DcBeforeAtMost(net: Topology, i: nat)
    requires i <= |net.dc|
    ensures DcBefore(net, i) <= i
  {
    if i > 0 { DcBeforeAtMost(net, i - 1); }
  }

  // ------------------------------------------------------------------ how long it takes

  function Rounds(net: Topology, c: nat): nat { c * (net.Size() + 1) }

  lemma RoundsStep(net: Topology, c: nat)
    ensures Rounds(net, c + 1) == Rounds(net, c) + net.Size() + 1
    ensures Rounds(net, COUNT_MAX) == COUNT_MAX * (net.Size() + 1)
  {
  }

  /** Good replies needed until the delta check, or until completion when no slave supports DC. */
  function Goal(net: Topology): nat {
    2 + Rounds(net, COUNT_MAX) + if DcTotal(net) == 0 then 0 else 2 * DcTotal(net) + DRIFT_COUNT_MIN
  }

  /** Good replies a state is away from the start. */
  function Progress(net: Topology, s: State): nat
    requires s.SetOffset? || s.SetDelay? ==> s.pos <= |net.dc|
  {
    var measured := 2 + Rounds(net, COUNT_MAX);
    match s
    case ClearOffset => 0
    case ClearDelay => 1
    case RequestToLatch(c) => 2 + Rounds(net, c)
    case CalculateDelay(c, pos) => 2 + Rounds(net, c) + 1 + pos
    case SetOffset(pos) => measured + DcBefore(net, pos)
    case SetDelay(pos) => measured + DcTotal(net) + DcBefore(net, pos)
    case CompensateDrift(c) => measured + 2 * DcTotal(net) + c
    case _ => Goal(net)
  }

  lemma {:induction false} DcBeforeSkips(net: Topology, i: nat, j: nat)
    requires i <= j <= |net.dc| && forall k :: i <= k < j ==> !net.dc[k]
    ensures DcBefore(net, j) == DcBefore(net, i)
    decreases j
  {
    if i < j { DcBeforeSkips(net, i, j - 1); }
  }

  /** Counting up to the next DC slave, or to the end. */
  lemma NextDcCounts(net: Topology, pos: nat)
    requires pos < |net.dc| && net.dc[pos]
    ensures var next := NextDc(net, pos + 1);
      DcBefore(net, pos) + 1 == if next.Some? then DcBefore(net, next.value) else DcTotal(net)
  {
    var next := NextDc(net, pos + 1);
    DcBeforeSkips(net, pos + 1, if next.Some? then next.value else |net.dc|);
  }

  lemma FirstDcCounts(net: Topology)
    ensures NextDc(net, 0).Some? ==> DcBefore(net, NextDc(net, 0).value) == 0 && DcTotal(net) > 0
    ensures NextDc(net, 0).None? ==> DcTotal(net) == 0
  {
    var first := NextDc(net, 0);
    DcBeforeSkips(net, 0, if first.Some? then first.value else |net.dc|);
    if first.Some? { BeforeTotal(net, first.value); }
  }

  /** Every good reply before the check is exactly one step of progress. */
  lemma GoodStepProgress(net: Topology, t: Task, r: Reply, t': Task)
    requires Step(net, t, r, t') && Good(net, t, r) && !t.state.CheckDelta?
    ensures TaskOk(net, t') && Progress(net, t'.state) == Progress(net, t.state) + 1
  {
    StepKeepsOk(net, t, r, t');
    FirstDcCounts(net);
    if t.state.CalculateDelay? {
      MeasureProgress(net, t, r, t');
    } else if t.state.SetOffset? || t.state.SetDelay? {
      SetProgress(net, t, r, t');
    }
  }

  lemma MeasureProgress(net: Topology, t: Task, r: Reply, t': Task)
    requires Step(net, t, r, t') && Good(net, t, r) && t.state.CalculateDelay?
    ensures Progress(net, t'.state) == Progress(net, t.state) + 1
  {
    FirstDcCounts(net);
    RoundsStep(net, t.state.round);
  }

  lemma SetProgress(net: Topology, t: Task, r: Reply, t': Task)
    requires Step(net, t, r, t') && Good(net, t, r) && (t.state.SetOffset? || t.state.SetDelay?)
    ensures t'.state.SetOffset? || t'.state.SetDelay? ==> t'.state.pos <= |net.dc|
    ensures Progress(net, t'.state) == Progress(net, t.state) + 1
  {
    FirstDcCounts(net);
    NextDcCounts(net, t.state.pos);
  }

  ghost predicate GoodRun(net: Topology, ts: seq<Task>, rs: seq<Reply>) {
    && |ts| == |rs| + 1 && TaskOk(net, ts[0]) && ts[0].state == ClearOffset
    && forall k {:trigger rs[k]} :: 0 <= k < |rs| ==> Step(net, ts[k], rs[k], ts[k + 1]) && Good(net, ts[k], rs[k])
  }

  lemma {:induction false} RunProgress(net: Topology, ts: seq<Task>, rs: seq<Reply>, k: nat)
    requires GoodRun(net, ts, rs) && k <= |rs| && k <= Goal(net)
    ensures TaskOk(net, ts[k]) && Progress(net, ts[k].state) == k
  {
    if k > 0 {
      RunProgress(net, ts, rs, k - 1);
      assert Step(net, ts[k - 1], rs[k - 1], ts[k]) && Good(net, ts[k - 1], rs[k - 1]);
      GoodStepProgress(net, ts[k - 1], rs[k - 1], ts[k]);
    }
  }

  /** With m >= 1 DC slaves among n, a run of good replies stands at the delta check after exactly
      2 + 8(n + 1) + 2m + 2000 replies, and not before. Without a DC slave it is complete after 2 + 8(n + 1). */
  lemma CheckAfter(net: Topology, ts: seq<Task>, rs: seq<Reply>, k: nat)
    requires GoodRun(net, ts, rs) && k <= |rs| && k <= Goal(net)
    ensures Goal(net) == 2 + 8 * (net.Size() + 1) + if DcTotal(net) == 0 then 0 else 2 * DcTotal(net) + 2000
    ensures DcTotal(net) > 0 ==> (ts[k].state.CheckDelta? <==> k == Goal(net))
    ensures DcTotal(net) == 0 ==> (ts[k].state.Complete? <==> k == Goal(net))
  {
    RoundsStep(net, 0);
    RunProgress(net, ts, rs, k);
    FirstDcCounts(net);
    if DcTotal(net) == 0 && k == Goal(net) { RunEndsComplete(net, ts, rs, k); }
    if DcTotal(net) > 0 && k == Goal(net) { RunEndsAtCheck(net, ts, rs, k); }
  }

  /** A state other than the last ones is short of the goal. */
  lemma NotAtGoal(net: Topology, t: Task)
    requires TaskOk(net, t) && Busy(t.state) && !t.state.CheckDelta?
    ensures Progress(net, t.state) < Goal(net)
  {
    FirstDcCounts(net);
    match t.state
    case RequestToLatch(c) => RoundsBelow(net, c);
    case CalculateDelay(c, pos) => RoundsBelow(net, c);
    case SetOffset(pos) => NextDcCounts(net, pos); BeforeTotal(net, pos);
    case SetDelay(pos) => NextDcCounts(net, pos); BeforeTotal(net, pos);
    case _ =>
  }

  lemma RoundsBelow(net: Topology, c: nat)
    requires c < COUNT_MAX
    ensures Rounds(net, c) + net.Size() + 1 <= Rounds(net, COUNT_MAX)
  {
    MulMonotone(c + 1, COUNT_MAX, net.Size() + 1);
    RoundsStep(net, c);
  }

  lemma {:induction false} BeforeTotal(net: Topology, i: nat)
    requires i < |net.dc| && net.dc[i]
    ensures DcBefore(net, i) < DcTotal(net)
  {
    DcBeforeMonotone(net, i + 1, |net.dc|);
  }

  lemma {:induction false} DcBeforeMonotone(net: Topology, i: nat, j: nat)
    requires i <= j <= |net.dc|
    ensures DcBefore(net, i) <= DcBefore(net, j)
    decreases j
  {
    if i < j { DcBeforeMonotone(net, i, j - 1); }
  }

  lemma RunEndsAtCheck(net: Topology, ts: seq<Task>, rs: seq<Reply>, k: nat)
    requires GoodRun(net, ts, rs) && k <= |rs| && k == Goal(net) && DcTotal(net) > 0
    ensures ts[k].state.CheckDelta?
  {
    RunProgress(net, ts, rs, k);
    LastStep(net, ts, rs, k);
    if !ts[k].state.CheckDelta? { NotAtGoal(net, ts[k]); }
  }

  lemma RunEndsComplete(net: Topology, ts: seq<Task>, rs: seq<Reply>, k: nat)
    requires GoodRun(net, ts, rs) && k <= |rs| && k == Goal(net) && DcTotal(net) == 0
    ensures ts[k].state.Complete?
  {
    RunProgress(net, ts, rs, k);
    LastStep(net, ts, rs, k);
    FirstDcCounts(net);
    if !ts[k].state.Complete? { NotAtGoal(net, ts[k]); }
  }

  /** A good reply leads to a busy state or to completion; completion needs the check or a network without DC. */
  lemma LastStep(net: Topology, ts: seq<Task>, rs: seq<Reply>, k: nat)
    requires GoodRun(net, ts, rs) && 0 < k <= |rs| && k <= Goal(net)
    ensures TaskOk(net, ts[k]) && (Busy(ts[k].state) || (ts[k].state.Complete? && DcTotal(net) == 0))
    ensures ts[k].state.CheckDelta? ==> DcTotal(net) > 0
  {
    RunProgress(net, ts, rs, k - 1);
    RunProgress(net, ts, rs, k);
    FirstDcCounts(net);
    assert Step(net, ts[k - 1], rs[k - 1], ts[k]) && Good(net, ts[k - 1], rs[k - 1]);
  }

  // ------------------------------------------------------------------ what is written

  /** DC slaves are ordered by how many come before them. */
  lemma DcOrder(net: Topology, p: nat, q: nat)
    requires p < |net.dc| && q < |net.dc| && net.dc[p] && net.dc[q]
    ensures DcBefore(net, p) < DcBefore(net, q) <==> p < q
    ensures DcBefore(net, p) == DcBefore(net, q) <==> p == q
  {
    if p < q { DcBeforeMonotone(net, p + 1, q); }
    if q < p { DcBeforeMonotone(net, q + 1, p); }
  }

  /** The first of these writes. */
  function WritesFrom(net: Topology): nat { 2 + Rounds(net, COUNT_MAX) }

  /** The measured values do not change while they are written. */
  lemma {:induction false} ContextsFrozen(net: Topology, ts: seq<Task>, rs: seq<Reply>, j: nat)
    requires GoodRun(net, ts, rs) && j < 2 * DcTotal(net) && WritesFrom(net) + j <= |rs|
    ensures ts[WritesFrom(net) + j].contexts == ts[WritesFrom(net)].contexts
  {
    if j > 0 {
      ContextsFrozen(net, ts, rs, j - 1);
      var k := WritesFrom(net) + j - 1;
      WritesInOrder(net, ts, rs, j - 1);
      assert Step(net, ts[k], rs[k], ts[k + 1]);
    }
  }

  /** The write of `value` to register `ado` of the slave at `pos`. */
  predicate Writes(t: Task, pos: nat, ado: u16, value: nat)
    requires t.state.SetOffset? || t.state.SetDelay? ==> t.state.pos < 0x1_0000
    requires t.state.SetOffset? || t.state.SetDelay?
  {
    pos < 0x1_0000 && CommandOf(t) == NewWrite(Single(SlavePosition(pos)), ado) && PayloadOf(t) == value
  }

  /** What these writes carry: the offset, then the delay, that the measurement ended with for that slave. */
  lemma WritesCarryMeasured(net: Topology, ts: seq<Task>, rs: seq<Reply>, j: nat)
    requires GoodRun(net, ts, rs) && j < 2 * DcTotal(net) && WritesFrom(net) + j <= |rs|
    ensures var t, measured := ts[WritesFrom(net) + j], ts[WritesFrom(net)].contexts;
      && (t.state.SetOffset? || t.state.SetDelay?) && t.state.pos < |measured| == net.Size() < 0x1_0000
      && (j < DcTotal(net) ==> Writes(t, t.state.pos, 0x0920, measured[t.state.pos].offset))
      && (j >= DcTotal(net) ==> Writes(t, t.state.pos, 0x0928, measured[t.state.pos].delay))
  {
    WritesInOrder(net, ts, rs, j);
    ContextsFrozen(net, ts, rs, j);
    RunProgress(net, ts, rs, WritesFrom(net) + j);
  }

  /** Every DC slave's offset and then every DC slave's delay is written exactly once, in ascending order: the
      j-th reply behind the measurement answers the write to the j-th DC slave. */
  lemma WritesInOrder(net: Topology, ts: seq<Task>, rs: seq<Reply>, j: nat)
    requires GoodRun(net, ts, rs) && j < 2 * DcTotal(net)
    requires WritesFrom(net) + j <= |rs|
    ensures var t := ts[WritesFrom(net) + j]; var m := DcTotal(net);
      if j < m then t.state.SetOffset? && t.state.pos < |net.dc| && net.dc[t.state.pos] && DcBefore(net, t.state.pos) == j
      else t.state.SetDelay? && t.state.pos < |net.dc| && net.dc[t.state.pos] && DcBefore(net, t.state.pos) == j - m
  {
    var k := 2 + Rounds(net, COUNT_MAX) + j;
    FirstDcCounts(net);
    RunProgress(net, ts, rs, k);
    var t := ts[k];
    match t.state
    case RequestToLatch(c) => RoundsBelow(net, c);
    case CalculateDelay(c, pos) => RoundsBelow(net, c);
    case SetOffset(pos) => BeforeTotal(net, pos);
    case SetDelay(pos) => BeforeTotal(net, pos);
    case _ =>
  }

  // ------------------------------------------------------------------ the final check

  /** A check that fails is repeated after exactly 100 more drift datagrams. */
  lemma {:induction false} RecheckAfter(net: Topology, ts: seq<Task>, rs: seq<Reply>, k: nat, j: nat)
    requires GoodRun(net, ts, rs) && k + j < |rs| && j <= 100
    requires ts[k].state.CheckDelta? && |rs[k].data| >= 4 && DWord(rs[k].data) % 0x8000_0000 > 50
    ensures ts[k + 1 + j].state == if j == 100 then CheckDelta else CompensateDrift(1900 + j)
  {
    assert Step(net, ts[k + j], rs[k + j], ts[k + 1 + j]) && Good(net, ts[k + j], rs[k + j]);
    if j > 0 { RecheckAfter(net, ts, rs, k, j - 1); }
  }

  /** The task completes only by the check, or by finishing the measurement of a network without DC. */
  lemma CompletesBy(net: Topology, t: Task, r: Reply, t': Task)
    requires Step(net, t, r, t') && t'.state.Complete? && !t.state.Complete?
    ensures Good(net, t, r)
    ensures DcTotal(net) > 0 ==> t.state.CheckDelta? && |r.data| >= 4 && Delta(r.data) <= TARGET_DELTA_NS
  {
    FirstDcCounts(net);
  }
}
