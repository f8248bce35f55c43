/** On a line, the delays the task stores are the true propagation delays up to one unit per hop. */
module DcMeasurement {
  import opened Bytes
  import opened Tasks
  import opened PortWalk
  import opened DcDelay
  import opened DcInit
  import opened DcRuns

  /** The physical line: link delays, and a clock base for every slave in every round. */
  datatype Physics = Physics(link: seq<nat>, base: (nat, nat) -> nat)

  function Latch(base: nat, time: nat): u32 { (base + time) % WRAP }

  predicate OnLine(net: Topology, ph: Physics) {
    net.Ok() && IsLine(net.ports) && |ph.link| == net.Size() && ShortLine(ph.link)
  }

  /** The latch registers of slave i after the latch of the given round. */
  predicate Latched(net: Topology, ph: Physics, round: nat, i: nat, times: seq<u32>)
    requires OnLine(net, ph) && i < net.Size() && |times| == 4
  {
    && First(net.ports[i]) < NO_PORT
    && times[First(net.ports[i])] == Latch(ph.base(round, i), Arrive(ph.link, i))
    && (i < net.Size() - 1 ==>
         && Second(net.ports[i]) < NO_PORT
         && times[Second(net.ports[i])] == Latch(ph.base(round, i), Return(ph.link, i)))
  }

  /** The reply to a latch read comes from the line. */
  ghost predicate LineReply(net: Topology, ph: Physics, t: Task, r: Reply)
    requires OnLine(net, ph) && InRange(net, t)
  {
    t.state.CalculateDelay? ==> |r.data| >= 16 && Latched(net, ph, t.state.round, t.state.slave, Times(r.data))
  }

  /** Whether slave i has been measured at least once. */
  predicate IsMeasured(s: State, i: nat) {
    match s
    case Idle => false
    case ClearOffset => false
    case ClearDelay => false
    case RequestToLatch(c) => c > 0
    case CalculateDelay(c, pos) => c > 0 || i < pos
    case _ => true
  }

  /** Whether the value stored for slave i is still the one of the first round. */
  predicate InFirstRound(s: State, i: nat) {
    || (s.RequestToLatch? && s.count <= 1)
    || (s.CalculateDelay? && (s.round == 0 || (s.round == 1 && s.slave <= i)))
  }

  ghost predicate DelayOk(ph: Physics, f: nat, s: State, delay: nat, i: nat)
    requires i < |ph.link|
  {
    if i <= f || !IsMeasured(s, i) then delay == 0
    else WithinHops(delay, ph.link, f, i) && (InFirstRound(s, i) ==> delay == TrueDelay(ph.link, f, i))
  }

  ghost predicate SlaveOk(net: Topology, ph: Physics, f: nat, t: Task, i: int)
    requires OnLine(net, ph) && InRange(net, t) && 0 <= i < net.Size()
  {
    && DelayOk(ph, f, t.state, t.contexts[i].delay, i)
    && (i > 0 ==> t.contexts[i].parent == Some((i - 1, First(net.ports[i - 1]))))
    && (t.state.CalculateDelay? && i < t.state.slave ==> Latched(net, ph, t.state.round, i, t.contexts[i].portTime))
  }

  ghost predicate MeasurementInv(net: Topology, ph: Physics, f: nat, t: Task) {
    && OnLine(net, ph) && TaskOk(net, t) && t.firstDc == Some(f)
    && forall i :: 0 <= i < net.Size() ==> SlaveOk(net, ph, f, t, i)
  }

  lemma StartEstablishes(net: Topology, ph: Physics, t: Task)
    requires Started(net, t) && OnLine(net, ph) && DcTotal(net) > 0
    ensures t.firstDc.Some? && MeasurementInv(net, ph, t.firstDc.value, t)
  {
    StartOnLine(net, t);
    FirstDcCounts(net);
    forall i | 0 <= i < net.Size() ensures SlaveOk(net, ph, t.firstDc.value, t, i) {
      assert t.contexts[i].delay == 0;
    }
  }

  /** The loop times the task computes for slave i > 0 differ by twice the link delay. */
  lemma LoopsOnLine(net: Topology, ph: Physics, round: nat, i: nat, parentTimes: seq<u32>, times: seq<u32>)
    requires OnLine(net, ph) && 0 < i < net.Size() && |parentTimes| == 4 && |times| == 4
    requires Latched(net, ph, round, i - 1, parentTimes) && Latched(net, ph, round, i, times)
    ensures var outer := LoopTime(parentTimes[First(net.ports[i - 1])], parentTimes[Second(net.ports[i - 1])]);
      var inner := InnerLoop(net.ports[i], times);
      inner <= outer && outer - inner == 2 * ph.link[i]
  {
    assert i < net.Size() - 1 ==> TwoPorts(net.ports[i]);
    LinkDelayExact(ph.link, i, ph.base(round, i - 1), ph.base(round, i));
  }

  /** The measurement of one slave. */
  lemma CalculateOnLine(net: Topology, ph: Physics, f: nat, t: Task, times: seq<u32>)
    requires MeasurementInv(net, ph, f, t) && t.state.CalculateDelay? && |times| == 4
    requires Latched(net, ph, t.state.round, t.state.slave, times)
    ensures var pos := t.state.slave; var r := Calculate(net, t.contexts, t.firstDc, pos, times);
      && r.Some? && r.value == t.contexts[pos := r.value[pos]]
      && r.value[pos].parent == t.contexts[pos].parent && r.value[pos].portTime == times
      && DelayOk(ph, f, CalculateDelay(t.state.round, pos + 1), r.value[pos].delay, pos)
  {
    var pos := t.state.slave;
    assert SlaveOk(net, ph, f, t, pos);
    if f < pos {
      assert SlaveOk(net, ph, f, t, pos - 1);
      NewDelayOnLine(net, ph, f, t.state.round, t.contexts, pos, times);
    }
  }

  lemma NewDelayOnLine(net: Topology, ph: Physics, f: nat, round: nat, contexts: seq<Context>, pos: nat, times: seq<u32>)
    requires OnLine(net, ph) && ContextsOk(net, contexts) && f < pos < net.Size() && |times| == 4
    requires Latched(net, ph, round, pos, times) && Latched(net, ph, round, pos - 1, contexts[pos - 1].portTime)
    requires contexts[pos].parent == Some((pos - 1, First(net.ports[pos - 1])))
    requires WithinHops(contexts[pos - 1].delay, ph.link, f, pos - 1)
    requires contexts[pos].delay == 0 || WithinHops(contexts[pos].delay, ph.link, f, pos)
    ensures var d := NewDelay(net, contexts, pos, times);
      && d.Some? && WithinHops(d.value, ph.link, f, pos)
      && (contexts[pos].delay == 0 && contexts[pos - 1].delay == TrueDelay(ph.link, f, pos - 1) ==>
            d.value == TrueDelay(ph.link, f, pos))
  {
    assert TwoPorts(net.ports[pos - 1]);
    var parent := contexts[pos - 1];
    var outer := LoopTime(parent.portTime[First(net.ports[pos - 1])], parent.portTime[Second(net.ports[pos - 1])]);
    LoopsOnLine(net, ph, round, pos, parent.portTime, times);
    MeasurementKeepsBound(ph.link, f, pos, contexts[pos].delay, parent.delay, outer, InnerLoop(net.ports[pos], times));
  }

  /** A request and its good reply, from the line when it is a latch read. */
  ghost predicate LineStep(net: Topology, ph: Physics, t: Task, r: Reply, t': Task) {
    OnLine(net, ph) && Step(net, t, r, t') && Good(net, t, r) && LineReply(net, ph, t, r)
  }

  /** Every step of every run keeps the bound on every slave. */
  lemma StepKeepsMeasurement(net: Topology, ph: Physics, f: nat, t: Task, r: Reply, t': Task)
    requires MeasurementInv(net, ph, f, t) && LineStep(net, ph, t, r, t')
    ensures MeasurementInv(net, ph, f, t')
  {
    StepKeepsOk(net, t, r, t');
    if t.state.CalculateDelay? {
      CalculateStep(net, ph, f, t, r, t');
    } else {
      forall i | 0 <= i < net.Size() ensures SlaveOk(net, ph, f, t', i) { assert SlaveOk(net, ph, f, t, i); }
    }
  }

  lemma CalculateStep(net: Topology, ph: Physics, f: nat, t: Task, r: Reply, t': Task)
    requires MeasurementInv(net, ph, f, t) && LineStep(net, ph, t, r, t')
    requires t.state.CalculateDelay? && TaskOk(net, t')
    ensures MeasurementInv(net, ph, f, t')
  {
    var pos := t.state.slave;
    var times := Times(r.data);
    CalculateOnLine(net, ph, f, t, times);
    var contexts := Calculate(net, t.contexts, t.firstDc, pos, times).value;
    assert t' == AfterSlave(net, Sent(net, t).(contexts := contexts), t.state.round, pos);
    forall i | 0 <= i < net.Size() ensures SlaveOk(net, ph, f, t', i) {
      assert SlaveOk(net, ph, f, t, i);
    }
  }

  /** On a line no good reply stops the program: parents, ports and arithmetic are always there. */
  lemma NeverStops(net: Topology, ph: Physics, f: nat, t: Task, r: Reply)
    requires MeasurementInv(net, ph, f, t) && Good(net, t, r) && LineReply(net, ph, t, r)
    requires t.state.CheckDelta? ==> |r.data| >= 4
    ensures OnReply(net, Sent(net, t), r).Some?
  {
    if t.state.CalculateDelay? { CalculateOnLine(net, ph, f, t, Times(r.data)); }
  }

  // ------------------------------------------------------------------ whole runs

  ghost predicate LineRun(net: Topology, ph: Physics, ts: seq<Task>, rs: seq<Reply>) {
    && |ts| == |rs| + 1 && OnLine(net, ph) && Started(net, ts[0])
    && forall k {:trigger rs[k]} :: 0 <= k < |rs| ==> LineStep(net, ph, ts[k], rs[k], ts[k + 1])
  }

  lemma {:induction false} RunKeepsMeasurement(net: Topology, ph: Physics, ts: seq<Task>, rs: seq<Reply>, f: nat, k: nat)
    requires LineRun(net, ph, ts, rs) && MeasurementInv(net, ph, f, ts[0]) && k <= |rs|
    ensures MeasurementInv(net, ph, f, ts[k])
  {
    if k > 0 {
      RunKeepsMeasurement(net, ph, ts, rs, f, k - 1);
      assert LineStep(net, ph, ts[k - 1], rs[k - 1], ts[k]);
      StepKeepsMeasurement(net, ph, f, ts[k - 1], rs[k - 1], ts[k]);
    }
  }

  /** The delay written to DC slave i behind the reference f lies between its true propagation delay minus i - f
      and its true propagation delay; after the first round the stored delay is exact. */
  lemma DelayIsTrue(net: Topology, ph: Physics, ts: seq<Task>, rs: seq<Reply>, k: nat, i: nat)
    requires LineRun(net, ph, ts, rs) && DcTotal(net) > 0 && k <= |rs| && i < net.Size()
    ensures ts[0].firstDc.Some? && TaskOk(net, ts[k])
    ensures var f := ts[0].firstDc.value; var d := ts[k].contexts[i].delay;
      && (i <= f ==> d == 0)
      && (i > f && ts[k].state == RequestToLatch(1) ==> d == TrueDelay(ph.link, f, i))
      && (i > f && ts[k].state == SetDelay(i) ==>
            PayloadOf(ts[k]) == d && TrueDelay(ph.link, f, i) - (i - f) <= d <= TrueDelay(ph.link, f, i))
  {
    StartEstablishes(net, ph, ts[0]);
    RunKeepsMeasurement(net, ph, ts, rs, ts[0].firstDc.value, k);
    assert SlaveOk(net, ph, ts[0].firstDc.value, ts[k], i);
  }
}
