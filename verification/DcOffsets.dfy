/** The offsets the task writes: what they are in every run, and how far offset and delay together align the clocks. */
module DcOffsets {
  import opened Bytes
  import opened Tasks
  import opened DcDelay
  import opened DcInit
  import opened DcRuns
  import opened DcMeasurement

  // ------------------------------------------------------------------ clocks

  /** The local time of slave i when the frame of a round reaches it. */
  function LocalTime(ph: Physics, round: nat, i: nat): nat
    requires i < |ph.link|
  {
    ph.base(round, i) + Arrive(ph.link, i)
  }

  /** What its latch register keeps of it. */
  function Low32(ph: Physics, round: nat, i: nat): u32
    requires i < |ph.link|
  {
    LocalTime(ph, round, i) % WRAP
  }

  /** The latest of the first k latches of a round. */
  function Latest(ph: Physics, round: nat, k: nat): (m: nat)
    requires k <= |ph.link|
    ensures forall i :: 0 <= i < k ==> Low32(ph, round, i) <= m
  {
    if k == 0 then 0
    else
      var m := Latest(ph, round, k - 1);
      if Low32(ph, round, k - 1) > m then Low32(ph, round, k - 1) else m
  }

  /** How far slave i is behind the latest latch of a round. */
  function Behind(ph: Physics, round: nat, i: nat): nat
    requires i < |ph.link|
  {
    Latest(ph, round, |ph.link|) - Low32(ph, round, i)
  }

  /** Every round sees the same differences. */
  ghost predicate Steady(ph: Physics) {
    forall c, i {:trigger Behind(ph, c, i)} :: 0 <= c < COUNT_MAX && 0 <= i < |ph.link| ==> Behind(ph, c, i) == Behind(ph, 0, i)
  }

  // ------------------------------------------------------------------ averaging

  /** Equal, or one less when the difference is odd. */
  predicate Near(offset: nat, difference: nat) {
    offset == difference || (offset == difference - 1 && difference % 2 == 1)
  }

  // ------------------------------------------------------------------ the invariant

  function RoundsDone(s: State): nat {
    match s
    case Idle => 0
    case ClearOffset => 0
    case ClearDelay => 0
    case RequestToLatch(c) => c
    case CalculateDelay(c, _) => c
    case _ => COUNT_MAX
  }

  predicate OffsetOk(ph: Physics, rounds: nat, offset: nat, i: nat)
    requires i < |ph.link|
  {
    if rounds == 0 then offset == 0
    else Near(offset, Behind(ph, 0, i)) && (rounds == 1 ==> offset == Behind(ph, 0, i))
  }

  predicate ClockOk(net: Topology, ph: Physics, t: Task, i: int)
    requires OnLine(net, ph) && InRange(net, t) && 0 <= i < net.Size()
  {
    && OffsetOk(ph, RoundsDone(t.state), t.contexts[i].offset, i)
    && (t.state.CalculateDelay? && i < t.state.slave ==> t.contexts[i].localTime == Low32(ph, t.state.round, i))
  }

  ghost predicate OffsetInv(net: Topology, ph: Physics, t: Task) {
    && OnLine(net, ph) && TaskOk(net, t) && Steady(ph)
    && forall i :: 0 <= i < net.Size() ==> ClockOk(net, ph, t, i)
  }

  lemma {:induction false} MaxIsLatest(ph: Physics, round: nat, contexts: seq<Context>, k: nat)
    requires k <= |contexts| == |ph.link| && forall i :: 0 <= i < k ==> contexts[i].localTime == Low32(ph, round, i)
    ensures MaxTime(contexts, k) == Latest(ph, round, k)
  {
    if k > 0 { MaxIsLatest(ph, round, contexts, k - 1); }
  }

  /** The contexts after the latch of slave `pos` was read: only its times, and perhaps its delay, change. */
  lemma ReadLatch(net: Topology, ph: Physics, t: Task, times: seq<u32>)
    requires OffsetInv(net, ph, t) && t.state.CalculateDelay? && |times| == 4
    requires Latched(net, ph, t.state.round, t.state.slave, times)
    requires Calculate(net, t.contexts, t.firstDc, t.state.slave, times).Some?
    ensures var pos := t.state.slave; var r := Calculate(net, t.contexts, t.firstDc, pos, times).value;
      && r == t.contexts[pos := r[pos]] && r[pos].offset == t.contexts[pos].offset
      && r[pos].localTime == Low32(ph, t.state.round, pos)
  {
  }

  lemma OffsetStep(net: Topology, ph: Physics, t: Task, r: Reply, t': Task)
    requires OffsetInv(net, ph, t) && LineStep(net, ph, t, r, t')
    ensures OffsetInv(net, ph, t')
  {
    StepKeepsOk(net, t, r, t');
    if t.state.CalculateDelay? {
      var pos, times := t.state.slave, Times(r.data);
      ReadLatch(net, ph, t, times);
      var contexts := Calculate(net, t.contexts, t.firstDc, pos, times).value;
      forall i | 0 <= i < net.Size() ensures contexts[i].offset == t.contexts[i].offset { }
      forall i | 0 <= i <= pos ensures contexts[i].localTime == Low32(ph, t.state.round, i) {
        assert ClockOk(net, ph, t, i);
      }
      assert t' == AfterSlave(net, Sent(net, t).(contexts := contexts), t.state.round, pos);
      forall i | 0 <= i < net.Size() ensures ClockOk(net, ph, t', i) {
        assert ClockOk(net, ph, t, i);
        ClockAfter(net, ph, t, contexts, t', i);
      }
    } else {
      forall i | 0 <= i < net.Size() ensures ClockOk(net, ph, t', i) { assert ClockOk(net, ph, t, i); }
    }
  }

  lemma ClockAfter(net: Topology, ph: Physics, t: Task, contexts: seq<Context>, t': Task, i: nat)
    requires OnLine(net, ph) && TaskOk(net, t) && TaskOk(net, t') && Steady(ph) && t.state.CalculateDelay? && i < net.Size()
    requires ClockOk(net, ph, t, i) && |contexts| == net.Size() && contexts[i].offset == t.contexts[i].offset
    requires forall j :: 0 <= j <= t.state.slave ==> contexts[j].localTime == Low32(ph, t.state.round, j)
    requires t' == AfterSlave(net, Sent(net, t).(contexts := contexts), t.state.round, t.state.slave)
    ensures ClockOk(net, ph, t', i)
  {
    if t.state.slave + 1 == net.Size() {
      MaxIsLatest(ph, t.state.round, contexts, net.Size());
      assert t'.contexts[i] == Aligned(contexts[i], Latest(ph, t.state.round, net.Size()));
      assert Behind(ph, t.state.round, i) == Behind(ph, 0, i);
    }
  }

  // ------------------------------------------------------------------ runs

  lemma {:induction false} RunKeepsOffsets(net: Topology, ph: Physics, ts: seq<Task>, rs: seq<Reply>, k: nat)
    requires LineRun(net, ph, ts, rs) && DcTotal(net) > 0 && Steady(ph) && k <= |rs|
    ensures OffsetInv(net, ph, ts[k])
  {
    if k == 0 {
      StartEstablishes(net, ph, ts[0]);
      forall i | 0 <= i < net.Size() ensures ClockOk(net, ph, ts[0], i) { assert ts[0].contexts[i].offset == 0; }
    } else {
      RunKeepsOffsets(net, ph, ts, rs, k - 1);
      assert LineStep(net, ph, ts[k - 1], rs[k - 1], ts[k]);
      OffsetStep(net, ph, ts[k - 1], rs[k - 1], ts[k]);
    }
  }

  /** The offset written to slave i is how far it was behind the latest latch, D, or one less when D is odd; after the
      first round it is D. */
  lemma OffsetIsDifference(net: Topology, ph: Physics, ts: seq<Task>, rs: seq<Reply>, k: nat, i: nat)
    requires LineRun(net, ph, ts, rs) && DcTotal(net) > 0 && Steady(ph) && k <= |rs| && i < net.Size()
    ensures i < |ts[k].contexts| == |ph.link|
    ensures var difference, offset := Behind(ph, 0, i), ts[k].contexts[i].offset;
      && (ts[k].state == RequestToLatch(1) ==> offset == difference)
      && (ts[k].state == SetOffset(i) ==>
            && PayloadOf(ts[k]) == offset && difference - 1 <= offset <= difference
            && (difference % 2 == 0 ==> offset == difference))
  {
    RunKeepsOffsets(net, ph, ts, rs, k);
    assert ClockOk(net, ph, ts[k], i);
  }

  /** What the measurement ends with for a DC slave. */
  lemma MeasuredValues(net: Topology, ph: Physics, ts: seq<Task>, rs: seq<Reply>, k: nat, i: nat, f: nat)
    requires LineRun(net, ph, ts, rs) && DcTotal(net) > 0 && Steady(ph) && k <= |rs| && ts[0].firstDc == Some(f)
    requires ts[k].state.CompensateDrift? || ts[k].state.CheckDelta? || ts[k].state.Complete?
    requires i < net.Size() && net.dc[i]
    ensures f <= i < |ts[k].contexts| == |ph.link|
    ensures var c, behind := ts[k].contexts[i], Behind(ph, 0, i);
      && behind - 1 <= c.offset <= behind < WRAP
      && TrueDelay(ph.link, f, i) - (i - f) <= c.delay <= TrueDelay(ph.link, f, i)
  {
    StartEstablishes(net, ph, ts[0]);
    StartOnLine(net, ts[0]);
    RunKeepsMeasurement(net, ph, ts, rs, f, k);
    RunKeepsOffsets(net, ph, ts, rs, k);
    assert SlaveOk(net, ph, f, ts[k], i) && ClockOk(net, ph, ts[k], i);
    LatestBelow(ph, 0, |ph.link|);
  }

  lemma {:induction false} LatestBelow(ph: Physics, round: nat, k: nat)
    requires k <= |ph.link|
    ensures Latest(ph, round, k) < WRAP
  {
    if k > 0 { LatestBelow(ph, round, k - 1); }
  }

  // ------------------------------------------------------------------ local times at the arrival of the frame

  /** No slave's local time, when the frame reaches it, is ahead of slave m's. */
  ghost predicate IsLatest(ph: Physics, round: nat, m: nat)
    requires m < |ph.link|
  {
    forall i :: 0 <= i < |ph.link| ==> LocalTime(ph, round, i) <= LocalTime(ph, round, m)
  }

  /** These local times have the same upper 32 bits. */
  ghost predicate SameEpoch(ph: Physics, round: nat) {
    forall i, j :: 0 <= i < |ph.link| && 0 <= j < |ph.link| ==> LocalTime(ph, round, i) / WRAP == LocalTime(ph, round, j) / WRAP
  }

  /** What the task computes from the latched low words are the differences of the local times at the arrival of the
      latch frame, for all slaves, if and only if these agree in their upper words. */
  lemma TrueDifferencesIff(ph: Physics, round: nat, m: nat)
    requires m < |ph.link| && IsLatest(ph, round, m)
    ensures SameEpoch(ph, round) <==>
      forall i :: 0 <= i < |ph.link| ==> Behind(ph, round, i) == LocalTime(ph, round, m) - LocalTime(ph, round, i)
  {
    if SameEpoch(ph, round) {
      LatestIs(ph, round, m, |ph.link|);
    } else if forall i :: 0 <= i < |ph.link| ==> Behind(ph, round, i) == LocalTime(ph, round, m) - LocalTime(ph, round, i) {
      forall i | 0 <= i < |ph.link| ensures LocalTime(ph, round, i) / WRAP == LocalTime(ph, round, m) / WRAP {
        assert Behind(ph, round, m) == 0;
        assert Behind(ph, round, i) == LocalTime(ph, round, m) - LocalTime(ph, round, i);
        EqualParts(LocalTime(ph, round, m), LocalTime(ph, round, i));
      }
    }
  }

  /** Such a difference is that of the clocks plus that of the arrivals. */
  lemma BehindIs(ph: Physics, round: nat, m: nat, i: nat)
    requires m < |ph.link| && i < |ph.link| && IsLatest(ph, round, m) && SameEpoch(ph, round)
    ensures Behind(ph, round, i) == ph.base(round, m) - ph.base(round, i) + Arrive(ph.link, m) - Arrive(ph.link, i)
  {
    TrueDifferencesIff(ph, round, m);
  }

  /** Two clocks that always show the same, ten units of cable apart: the first is found to be ten behind. */
  lemma SameClocksDiffer(ph: Physics)
    requires ph.link == [0, 10] && ph.base(0, 0) == 0 && ph.base(0, 1) == 0
    ensures IsLatest(ph, 0, 1) && SameEpoch(ph, 0) && Behind(ph, 0, 0) == 10
  {
    assert Arrive(ph.link, 0) == 0 && Arrive(ph.link, 1) == 10;
    assert LocalTime(ph, 0, 0) == 0 && LocalTime(ph, 0, 1) == 10;
    BehindIs(ph, 0, 1, 0);
  }

  lemma EqualParts(a: nat, b: nat)
    requires b <= a && a % WRAP - b % WRAP == a - b
    ensures a / WRAP == b / WRAP
  {
    assert a == a / WRAP * WRAP + a % WRAP && b == b / WRAP * WRAP + b % WRAP;
  }

  lemma {:induction false} LatestIs(ph: Physics, round: nat, m: nat, k: nat)
    requires m < |ph.link| && k <= |ph.link| && IsLatest(ph, round, m) && SameEpoch(ph, round)
    ensures Latest(ph, round, k) <= Low32(ph, round, m) && (m < k ==> Latest(ph, round, k) == Low32(ph, round, m))
    ensures forall i :: 0 <= i < |ph.link| ==>
      Low32(ph, round, m) - Low32(ph, round, i) == LocalTime(ph, round, m) - LocalTime(ph, round, i)
  {
    forall i | 0 <= i < |ph.link|
      ensures Low32(ph, round, m) - Low32(ph, round, i) == LocalTime(ph, round, m) - LocalTime(ph, round, i)
    {
      var a, b := LocalTime(ph, round, m), LocalTime(ph, round, i);
      assert a / WRAP == b / WRAP;
      assert a == a / WRAP * WRAP + a % WRAP && b == b / WRAP * WRAP + b % WRAP;
    }
    if k > 0 { LatestIs(ph, round, m, k - 1); }
  }

  // ------------------------------------------------------------------ offset and delay together

  /** How often the low word of slave i's local time had wrapped when the first latch frame reached it. */
  function Epoch(ph: Physics, i: nat): nat
    requires i < |ph.link|
  {
    LocalTime(ph, 0, i) / WRAP
  }

  /** The corrected reference clock f at the start of the first latch frame, in the epoch of slave i. */
  function CommonTime(ph: Physics, f: nat, i: nat): int
    requires f < |ph.link| && i < |ph.link|
  {
    Latest(ph, 0, |ph.link|) + WRAP * Epoch(ph, i) - Arrive(ph.link, f)
  }

  /** The clock of slave i at the same instant, corrected by the offset written in step a and the delay in step b. */
  function Corrected(ph: Physics, ts: seq<Task>, a: nat, b: nat, i: nat): nat
    requires a < |ts| && b < |ts|
  {
    ph.base(0, i) + PayloadOf(ts[a]) + PayloadOf(ts[b])
  }

  /** Step a of the run writes the offset of slave i, step b its delay; f is the reference and not behind i. */
  ghost predicate Written(net: Topology, ph: Physics, ts: seq<Task>, rs: seq<Reply>, f: nat, a: nat, b: nat, i: nat) {
    && LineRun(net, ph, ts, rs) && DcTotal(net) > 0 && Steady(ph) && ts[0].firstDc == Some(f) && f <= i < |ph.link|
    && a < |ts| && b < |ts| && ts[a].state == SetOffset(i) && ts[b].state == SetDelay(i)
  }

  /** Corrected by what the task wrote to it, the clock of every slave behind the reference shows the time of the
      corrected reference clock in its own epoch, or up to one unit per hop and one more less. */
  lemma CorrectedClock(net: Topology, ph: Physics, ts: seq<Task>, rs: seq<Reply>, f: nat, a: nat, b: nat, i: nat)
    requires Written(net, ph, ts, rs, f, a, b, i)
    ensures CommonTime(ph, f, i) - 1 - (i - f) <= Corrected(ph, ts, a, b, i) <= CommonTime(ph, f, i)
  {
    OffsetIsDifference(net, ph, ts, rs, a, i);
    DelayIsTrue(net, ph, ts, rs, b, i);
    assert LocalTime(ph, 0, i) == WRAP * Epoch(ph, i) + Low32(ph, 0, i);
  }

  /** With equal epochs that is one time for all slaves: what the corrected reference clock shows, where m had the
      latest local time. */
  lemma ClocksAligned(net: Topology, ph: Physics, ts: seq<Task>, rs: seq<Reply>, f: nat, a: nat, b: nat, i: nat, m: nat)
    requires Written(net, ph, ts, rs, f, a, b, i) && m < |ph.link| && SameEpoch(ph, 0) && IsLatest(ph, 0, m)
    ensures var common := LocalTime(ph, 0, m) - Arrive(ph.link, f);
      common - 1 - (i - f) <= Corrected(ph, ts, a, b, i) <= common
  {
    CorrectedClock(net, ph, ts, rs, f, a, b, i);
    LatestIs(ph, 0, m, |ph.link|);
    assert LocalTime(ph, 0, m) == WRAP * Epoch(ph, m) + Low32(ph, 0, m);
    assert Epoch(ph, m) == Epoch(ph, i);
  }

  /** The corrected clocks of two slaves agree, up to one unit per hop and one more, if and only if their local times
      had the same upper words; otherwise they are 2^32 apart up to that. */
  lemma ClocksAgreeIff(net: Topology, ph: Physics, ts: seq<Task>, rs: seq<Reply>, f: nat, a: nat, b: nat, i: nat, c: nat, d: nat, j: nat)
    requires Written(net, ph, ts, rs, f, a, b, i) && Written(net, ph, ts, rs, f, c, d, j) && i <= j
    ensures Epoch(ph, i) == Epoch(ph, j) <==>
      -(j - f + 1) <= Corrected(ph, ts, a, b, i) - Corrected(ph, ts, c, d, j) <= j - f + 1
  {
    CorrectedClock(net, ph, ts, rs, f, a, b, i);
    CorrectedClock(net, ph, ts, rs, f, c, d, j);
    var e := Epoch(ph, i) - Epoch(ph, j);
    assert CommonTime(ph, f, i) - CommonTime(ph, f, j) == WRAP * e;
  }

  /** Clocks that run alike and never differ in their upper words are steady. */
  lemma SteadyWhenAlike(ph: Physics, m: nat)
    requires m < |ph.link| && IsLatest(ph, 0, m)
    requires forall c :: 0 <= c < COUNT_MAX ==> SameEpoch(ph, c)
    requires forall c, i {:trigger LocalTime(ph, c, i)} :: 0 <= c < COUNT_MAX && 0 <= i < |ph.link| ==>
      LocalTime(ph, c, m) - LocalTime(ph, c, i) == LocalTime(ph, 0, m) - LocalTime(ph, 0, i)
    ensures Steady(ph)
  {
    forall c, i | 0 <= c < COUNT_MAX && 0 <= i < |ph.link| ensures Behind(ph, c, i) == Behind(ph, 0, i) {
      forall j | 0 <= j < |ph.link| ensures LocalTime(ph, c, j) <= LocalTime(ph, c, m) {
        assert LocalTime(ph, 0, j) <= LocalTime(ph, 0, m);
      }
      assert SameEpoch(ph, c) && SameEpoch(ph, 0);
      TrueDifferencesIff(ph, c, m);
      TrueDifferencesIff(ph, 0, m);
    }
  }

  /** Two clocks one nanosecond apart across a wrap: the late one is taken to be almost 2^32 behind, the other not at
      all. */
  lemma WrapSplits(ph: Physics)
    requires |ph.link| == 2 && LocalTime(ph, 0, 0) == WRAP - 1 && LocalTime(ph, 0, 1) == WRAP
    ensures Behind(ph, 0, 0) == 0 && Behind(ph, 0, 1) == WRAP - 1
  {
    assert Low32(ph, 0, 0) == WRAP - 1 && Low32(ph, 0, 1) == 0;
    assert Latest(ph, 0, 1) == WRAP - 1;
    assert Latest(ph, 0, 2) == WRAP - 1;
  }
}
