/** Distributed-clock initialisation on the line: the datagrams the task sends, what they do to the slaves' registers,
    and where the replies come from. */
module DcBus {
  import opened Bytes
  import opened Commands
  import opened Tasks
  import opened Bus
  import opened DcInit
  import opened DcRuns
  import opened DcMeasurement

  /** The task, the slaves' registers, and how many latch datagrams have passed. */
  datatype World = World(task: Task, slaves: seq<Memory>, latches: nat)

  /** Who hears the datagram, the slaves as it leaves them, and what comes back. */
  datatype BusRound = BusRound(hears: seq<bool>, passed: seq<Memory>, reply: Reply)

  /** The four latched times. */
  function LatchedTimes(mem: Memory): (times: seq<u32>)
    ensures |times| == 4
  {
    Times(Load(mem, 0x0900, 16))
  }

  predicate Latches(c: Command) { IsWrite(c.ctype) && c.ado == 0x0900 }

  /** The offset and delay registers stay as the datagram left them. A slave that took a write to the latch register has
      latched the arrival of this datagram at its ports; without one its latches stay. Every other register may
      change by itself. */
  ghost predicate Settles(net: Topology, ph: Physics, w: World, round: BusRound, i: nat, after: Memory)
    requires OnLine(net, ph) && TaskOk(net, w.task)
    requires |w.slaves| == |round.hears| == |round.passed| == net.Size() && i < net.Size()
  {
    var c := CommandOf(w.task);
    && (forall a :: 0x0920 <= a < 0x092C ==> after(a) == round.passed[i](a))
    && if Latches(c) && Takes(c, w.slaves, round.hears, i) then Latched(net, ph, w.latches, i, LatchedTimes(after))
       else forall a :: 0x0900 <= a < 0x0910 ==> after(a) == round.passed[i](a)
  }

  /** One turn: the datagram passes the slaves, the slaves settle, and the task takes the reply. */
  ghost predicate BusStep(net: Topology, ph: Physics, w: World, round: BusRound, w': World) {
    && OnLine(net, ph) && Step(net, w.task, round.reply, w'.task) && Good(net, w.task, round.reply)
    && |w.slaves| == |w'.slaves| == |round.hears| == |round.passed| == net.Size()
    && Returns(CommandOf(w.task), DataOf(w.task), w.slaves, round.hears, round.passed, round.reply)
    && (forall i :: 0 <= i < net.Size() ==> Settles(net, ph, w, round, i, w'.slaves[i]))
    && w'.latches == w.latches + if Latches(CommandOf(w.task)) then 1 else 0
  }

  // ------------------------------------------------------------------ latches

  /** The latch datagrams before a state of the measurement. */
  function LatchesBefore(s: State): Option<nat> {
    match s
    case ClearOffset => Some(0)
    case ClearDelay => Some(0)
    case RequestToLatch(c) => Some(c)
    case CalculateDelay(c, _) => Some(c + 1)
    case _ => None
  }

  ghost predicate AllLatched(net: Topology, ph: Physics, round: nat, slaves: seq<Memory>)
    requires OnLine(net, ph)
  {
    |slaves| == net.Size() && forall i :: 0 <= i < net.Size() ==> Latched(net, ph, round, i, LatchedTimes(slaves[i]))
  }

  /** In a measuring round every slave holds the latches of that round. */
  ghost predicate LatchInv(net: Topology, ph: Physics, w: World) {
    && OnLine(net, ph) && TaskOk(net, w.task) && |w.slaves| == net.Size()
    && (LatchesBefore(w.task.state).Some? ==> LatchesBefore(w.task.state) == Some(w.latches))
    && (w.task.state.CalculateDelay? ==> AllLatched(net, ph, w.task.state.round, w.slaves))
  }

  /** The steps of the task count the latch datagrams it sends. */
  lemma LatchesStep(net: Topology, t: Task, r: Reply, t': Task)
    requires Step(net, t, r, t') && Good(net, t, r)
    ensures TaskOk(net, t')
    ensures LatchesBefore(t'.state).Some? ==>
      LatchesBefore(t.state).Some? && LatchesBefore(t'.state).value == LatchesBefore(t.state).value + if t.state.RequestToLatch? then 1 else 0
    ensures t'.state.CalculateDelay? ==>
      (t.state.RequestToLatch? || t.state.CalculateDelay?)
      && t'.state.round == if t.state.RequestToLatch? then t.state.count else t.state.round
    ensures Latches(CommandOf(t)) <==> t.state.RequestToLatch?
  {
    StepKeepsOk(net, t, r, t');
  }

  /** A good reply to a broadcast write was counted by every slave. */
  lemma AllTook(net: Topology, ph: Physics, w: World, round: BusRound, w': World, i: nat)
    requires BusStep(net, ph, w, round, w') && i < net.Size()
    requires w.task.state.ClearOffset? || w.task.state.ClearDelay? || w.task.state.RequestToLatch?
    ensures Takes(CommandOf(w.task), w.slaves, round.hears, i)
  {
    var c := CommandOf(w.task);
    WkcIsParties(c, DataOf(w.task), w.slaves, round.hears, |w.slaves|);
    EverybodyTakes(c, w.slaves, round.hears, |w.slaves|);
  }

  /** A good reply to a latch read carries the latches of the slave being measured. */
  lemma ReadsOwnLatches(net: Topology, ph: Physics, w: World, round: BusRound, w': World)
    requires BusStep(net, ph, w, round, w') && w.task.state.CalculateDelay?
    ensures round.passed == w.slaves && |round.reply.data| == 16
    ensures Times(round.reply.data) == LatchedTimes(w.slaves[w.task.state.slave])
  {
    var pos := w.task.state.slave;
    LittleZeros(16);
    var p := ReadReaches(Single(SlavePosition(pos)), 0x0900, 16, w.slaves, round.hears, round.passed, round.reply);
  }

  lemma SameLatches(a: Memory, b: Memory)
    requires forall k :: 0x0900 <= k < 0x0910 ==> a(k) == b(k)
    ensures LatchedTimes(a) == LatchedTimes(b)
  {
    assert Load(a, 0x0900, 16) == Load(b, 0x0900, 16);
  }

  lemma LatchStep(net: Topology, ph: Physics, w: World, round: BusRound, w': World, i: nat)
    requires LatchInv(net, ph, w) && BusStep(net, ph, w, round, w') && w.task.state.RequestToLatch? && i < net.Size()
    ensures Latched(net, ph, w.task.state.count, i, LatchedTimes(w'.slaves[i]))
  {
    AllTook(net, ph, w, round, w', i);
    assert Settles(net, ph, w, round, i, w'.slaves[i]);
  }

  lemma LatchesStay(net: Topology, ph: Physics, w: World, round: BusRound, w': World, i: nat)
    requires BusStep(net, ph, w, round, w') && w.task.state.CalculateDelay? && i < net.Size()
    ensures LatchedTimes(w'.slaves[i]) == LatchedTimes(w.slaves[i])
  {
    ReadsOwnLatches(net, ph, w, round, w');
    assert Settles(net, ph, w, round, i, w'.slaves[i]);
    SameLatches(w'.slaves[i], w.slaves[i]);
  }

  lemma StepLatches(net: Topology, ph: Physics, w: World, round: BusRound, w': World)
    requires LatchInv(net, ph, w) && BusStep(net, ph, w, round, w')
    ensures LatchInv(net, ph, w')
  {
    LatchesStep(net, w.task, round.reply, w'.task);
    if w'.task.state.CalculateDelay? {
      forall i | 0 <= i < net.Size() ensures Latched(net, ph, w'.task.state.round, i, LatchedTimes(w'.slaves[i])) {
        if w.task.state.RequestToLatch? {
          LatchStep(net, ph, w, round, w', i);
        } else {
          LatchesStay(net, ph, w, round, w', i);
          assert Latched(net, ph, w.task.state.round, i, LatchedTimes(w.slaves[i]));
        }
      }
    }
  }

  /** The reply to a latch read is that of the line. */
  lemma StepIsLineStep(net: Topology, ph: Physics, w: World, round: BusRound, w': World)
    requires LatchInv(net, ph, w) && BusStep(net, ph, w, round, w')
    ensures LineStep(net, ph, w.task, round.reply, w'.task)
  {
    if w.task.state.CalculateDelay? { ReadsOwnLatches(net, ph, w, round, w'); }
  }

  ghost predicate WorldOk(net: Topology, w: World) { TaskOk(net, w.task) && |w.slaves| == net.Size() }

  // ------------------------------------------------------------------ the registers of the slaves

  predicate OffsetsWritten(s: State) { s.SetDelay? || s.CompensateDrift? || s.CheckDelta? || s.Complete? }

  predicate DelaysWritten(s: State) { s.CompensateDrift? || s.CheckDelta? || s.Complete? }

  /** What the offset register of slave i holds once the first broadcast has cleared it. */
  function OffsetHeld(net: Topology, t: Task, i: nat): nat
    requires TaskOk(net, t) && i < net.Size()
  {
    if net.dc[i] && (OffsetsWritten(t.state) || (t.state.SetOffset? && i < t.state.pos)) then t.contexts[i].offset else 0
  }

  function DelayHeld(net: Topology, t: Task, i: nat): nat
    requires TaskOk(net, t) && i < net.Size()
  {
    if net.dc[i] && (DelaysWritten(t.state) || (t.state.SetDelay? && i < t.state.pos)) then t.contexts[i].delay else 0
  }

  predicate OffsetRegister(net: Topology, t: Task, i: nat, mem: Memory)
    requires TaskOk(net, t) && i < net.Size()
  {
    t.state.ClearOffset? || Load(mem, 0x0920, 8) == LittleEndian(OffsetHeld(net, t, i), 8)
  }

  predicate DelayRegister(net: Topology, t: Task, i: nat, mem: Memory)
    requires TaskOk(net, t) && i < net.Size()
  {
    t.state.ClearOffset? || t.state.ClearDelay? || Load(mem, 0x0928, 4) == LittleEndian(DelayHeld(net, t, i), 4)
  }

  lemma SameLoad(a: Memory, b: Memory, at: nat, n: nat)
    requires forall k :: at <= k < at + n ==> a(k) == b(k)
    ensures Load(a, at, n) == Load(b, at, n)
  {
  }

  /** A datagram that does not address a register, and the slaves afterwards, leave that register as it was. */
  lemma Untouched(net: Topology, ph: Physics, w: World, round: BusRound, w': World, i: nat, at: nat, n: nat)
    requires BusStep(net, ph, w, round, w') && i < net.Size() && 0x0920 <= at && at + n <= 0x092C
    requires var c := CommandOf(w.task); c.ado + SizeOf(w.task.state) <= at || at + n <= c.ado
    ensures Load(w'.slaves[i], at, n) == Load(w.slaves[i], at, n)
  {
    var c := CommandOf(w.task);
    assert Settles(net, ph, w, round, i, w'.slaves[i]);
    forall k | at <= k < at + n ensures w'.slaves[i](k) == w.slaves[i](k) {
      PassTouches(c, DataOf(w.task), w.slaves, round.hears, |w.slaves|, i, k);
    }
    SameLoad(w'.slaves[i], w.slaves[i], at, n);
  }

  /** A read leaves the registers as they were. */
  lemma UntouchedByRead(net: Topology, ph: Physics, w: World, round: BusRound, w': World, i: nat, at: nat, n: nat)
    requires BusStep(net, ph, w, round, w') && i < net.Size() && 0x0920 <= at && at + n <= 0x092C
    requires IsRead(CommandOf(w.task).ctype)
    ensures Load(w'.slaves[i], at, n) == Load(w.slaves[i], at, n)
  {
    assert Settles(net, ph, w, round, i, w'.slaves[i]);
    ReadLeaves(CommandOf(w.task), DataOf(w.task), w.slaves, round.hears, |w.slaves|);
    SameLoad(w'.slaves[i], w.slaves[i], at, n);
  }

  /** A write to one of these registers is taken by the slave it is for, and by all with a broadcast. */
  lemma Wrote(net: Topology, ph: Physics, w: World, round: BusRound, w': World, i: nat)
    requires BusStep(net, ph, w, round, w') && i < net.Size()
    requires var s := w.task.state; s.ClearOffset? || s.ClearDelay? || s.SetOffset? || s.SetDelay?
    ensures var s, at, n := w.task.state, CommandOf(w.task).ado, SizeOf(w.task.state);
      Load(w'.slaves[i], at, n) == if s.ClearOffset? || s.ClearDelay? || s.pos == i then DataOf(w.task) else Load(w.slaves[i], at, n)
  {
    var s, c, data := w.task.state, CommandOf(w.task), DataOf(w.task);
    assert Settles(net, ph, w, round, i, w'.slaves[i]);
    if s.SetOffset? || s.SetDelay? {
      WriteReaches(Single(SlavePosition(s.pos)), c.ado, data, w.slaves, round.hears, round.passed, round.reply);
      assert round.passed[i] == if i == s.pos then Stored(w.slaves[i], c.ado, data) else w.slaves[i];
    } else {
      AllTook(net, ph, w, round, w', i);
      WriteStores(c, data, w.slaves, round.hears, |w.slaves|);
      assert round.passed[i] == Stored(w.slaves[i], c.ado, data);
    }
    LoadStored(w.slaves[i], c.ado, data);
    SameLoad(w'.slaves[i], round.passed[i], c.ado, |data|);
  }

  /** The steps of the task change what the registers should hold by exactly what it writes. */
  lemma OffsetHeldStep(net: Topology, t: Task, r: Reply, t': Task, i: nat)
    requires Step(net, t, r, t') && Good(net, t, r) && TaskOk(net, t') && i < net.Size()
    ensures OffsetHeld(net, t', i) ==
      if t.state == SetOffset(i) then t.contexts[i].offset else if t.state.ClearOffset? then 0 else OffsetHeld(net, t, i)
    ensures !t'.state.ClearOffset?
  {
    FirstDcCounts(net);
  }

  lemma DelayHeldStep(net: Topology, t: Task, r: Reply, t': Task, i: nat)
    requires Step(net, t, r, t') && Good(net, t, r) && TaskOk(net, t') && i < net.Size()
    ensures DelayHeld(net, t', i) ==
      if t.state == SetDelay(i) then t.contexts[i].delay
      else if t.state.ClearOffset? || t.state.ClearDelay? then 0 else DelayHeld(net, t, i)
    ensures !t'.state.ClearOffset? && (t'.state.ClearDelay? <==> t.state.ClearOffset?)
  {
    FirstDcCounts(net);
  }

  /** What a turn does to the offset register. */
  lemma OffsetAfter(net: Topology, ph: Physics, w: World, round: BusRound, w': World, i: nat)
    requires BusStep(net, ph, w, round, w') && i < net.Size()
    ensures Load(w'.slaves[i], 0x0920, 8) ==
      if w.task.state.ClearOffset? || w.task.state == SetOffset(i) then DataOf(w.task) else Load(w.slaves[i], 0x0920, 8)
  {
    var s := w.task.state;
    if s.ClearOffset? || s.SetOffset? {
      Wrote(net, ph, w, round, w', i);
    } else if s.CalculateDelay? || s.CheckDelta? {
      UntouchedByRead(net, ph, w, round, w', i, 0x0920, 8);
    } else {
      Untouched(net, ph, w, round, w', i, 0x0920, 8);
    }
  }

  lemma DelayAfter(net: Topology, ph: Physics, w: World, round: BusRound, w': World, i: nat)
    requires BusStep(net, ph, w, round, w') && i < net.Size()
    ensures Load(w'.slaves[i], 0x0928, 4) ==
      if w.task.state.ClearDelay? || w.task.state == SetDelay(i) then DataOf(w.task) else Load(w.slaves[i], 0x0928, 4)
  {
    var s := w.task.state;
    if s.ClearDelay? || s.SetDelay? {
      Wrote(net, ph, w, round, w', i);
    } else if s.CalculateDelay? || s.CheckDelta? {
      UntouchedByRead(net, ph, w, round, w', i, 0x0928, 4);
    } else {
      Untouched(net, ph, w, round, w', i, 0x0928, 4);
    }
  }

  lemma StepHolds(net: Topology, ph: Physics, w: World, round: BusRound, w': World, i: nat)
    requires BusStep(net, ph, w, round, w') && Held(net, w, i)
    ensures Held(net, w', i)
  {
    StepKeepsOk(net, w.task, round.reply, w'.task);
    OffsetAfter(net, ph, w, round, w', i);
    DelayAfter(net, ph, w, round, w', i);
    OffsetHeldStep(net, w.task, round.reply, w'.task, i);
    DelayHeldStep(net, w.task, round.reply, w'.task, i);
  }

  /** The offset and delay registers of slave i hold what has been written so far. */
  ghost predicate Held(net: Topology, w: World, i: nat) {
    && WorldOk(net, w) && i < net.Size()
    && OffsetRegister(net, w.task, i, w.slaves[i]) && DelayRegister(net, w.task, i, w.slaves[i])
  }

  // ------------------------------------------------------------------ drift and check

  /** Only DC slaves have the registers the drift compensation and the check use. */
  predicate OnlyDc(net: Topology, round: BusRound) {
    |round.hears| == |net.dc| && forall p :: 0 <= p < |net.dc| && round.hears[p] ==> net.dc[p]
  }

  lemma {:induction false} AllDcHear(net: Topology, c: Command, slaves: seq<Memory>, hears: seq<bool>, n: nat)
    requires |slaves| == |hears| == |net.dc| && n <= |net.dc| && (c.ctype == ARMW || c.ctype == BRD)
    requires forall p :: 0 <= p < |net.dc| && hears[p] ==> net.dc[p]
    ensures Parties(c, slaves, hears, n) <= DcBefore(net, n)
    ensures Parties(c, slaves, hears, n) == DcBefore(net, n) ==> forall p :: 0 <= p < n && net.dc[p] ==> hears[p]
  {
    if n > 0 { AllDcHear(net, c, slaves, hears, n - 1); }
  }

  lemma DcSlavesHear(net: Topology, ph: Physics, w: World, round: BusRound, w': World, p: nat)
    requires BusStep(net, ph, w, round, w') && OnlyDc(net, round) && p < net.Size()
    requires w.task.state.CompensateDrift? || w.task.state.CheckDelta?
    ensures round.hears[p] == net.dc[p]
  {
    WkcIsParties(CommandOf(w.task), DataOf(w.task), w.slaves, round.hears, |w.slaves|);
    AllDcHear(net, CommandOf(w.task), w.slaves, round.hears, |w.slaves|);
  }

  /** A drift datagram takes the system time from the reference slave, and every other DC slave stores it. */
  lemma DriftDistributes(net: Topology, ph: Physics, w: World, round: BusRound, w': World, f: nat, p: nat)
    requires BusStep(net, ph, w, round, w') && OnlyDc(net, round) && w.task.state.CompensateDrift?
    requires NextDc(net, 0) == Some(f) && p < net.Size()
    ensures f < net.Size() && round.reply.data == Load(w.slaves[f], 0x0910, 8)
    ensures round.passed[p] == if net.dc[p] && p != f then Stored(w.slaves[p], 0x0910, round.reply.data) else w.slaves[p]
  {
    var c := CommandOf(w.task);
    forall q | 0 <= q < net.Size() ensures round.hears[q] == net.dc[q] && (Addressed(c.adp, q) <==> q == f) {
      DcSlavesHear(net, ph, w, round, w', q);
      ApAdpReaches(f, q);
    }
    MultipleWrite(c, DataOf(w.task), w.slaves, round.hears, |w.slaves|, f);
  }

  lemma DeltaBytes(data: seq<byte>, reg: seq<byte>)
    requires |data| == |reg| == 4 && forall k :: 0 <= k < 4 ==> AtLeast(data[k], reg[k])
    ensures DWord(reg) % 0x8000_0000 <= DWord(data) % 0x8000_0000
  {
    TopBit(reg);
    TopBit(data);
    var a, b := (reg[3] as int) % 128, (data[3] as int) % 128;
    assert 0x100_0000 * a <= 0x100_0000 * b;
  }

  lemma TopBit(s: seq<byte>)
    requires |s| == 4
    ensures DWord(s) % 0x8000_0000 ==
      (s[0] as int) + 256 * (s[1] as int) + 0x1_0000 * (s[2] as int) + 0x100_0000 * ((s[3] as int) % 128)
  {
    var low := (s[0] as int) + 256 * (s[1] as int) + 0x1_0000 * (s[2] as int) + 0x100_0000 * ((s[3] as int) % 128);
    DivUnique(DWord(s), 0x8000_0000, s[3] as int / 128, low);
  }

  /** The OR of the delta registers is, sign bit aside, no less than any of them. */
  lemma BroadcastDelta(c: Command, data: seq<byte>, slaves: seq<Memory>, hears: seq<bool>, i: nat)
    requires |hears| == |slaves| && c.ctype == BRD && |data| == 4 && i < |slaves| && hears[i]
    ensures DWord(Load(slaves[i], c.ado, 4)) % 0x8000_0000 <= DWord(Pass(c, data, slaves, hears, |slaves|).data) % 0x8000_0000
  {
    var reg, got := Load(slaves[i], c.ado, 4), Pass(c, data, slaves, hears, |slaves|).data;
    forall k | 0 <= k < 4 ensures AtLeast(got[k], reg[k]) {
      ByteAtLeast(c, data, slaves, hears, k, i);
    }
    DeltaBytes(got, reg);
  }

  /** The final broadcast is sound for every slave: when the task completes, the delta register of each DC slave shows
      at most 50 ns, of either sign. */
  lemma CompleteIsAligned(net: Topology, ph: Physics, w: World, round: BusRound, w': World, i: nat)
    requires BusStep(net, ph, w, round, w') && OnlyDc(net, round) && DcTotal(net) > 0 && w'.task.state.Complete?
    requires i < net.Size() && net.dc[i]
    ensures DWord(Load(w.slaves[i], 0x092C, 4)) % 0x8000_0000 <= 50 && round.passed == w.slaves
  {
    CompletesBy(net, w.task, round.reply, w'.task);
    DcSlavesHear(net, ph, w, round, w', i);
    var c, data := CommandOf(w.task), DataOf(w.task);
    ReadLeaves(c, data, w.slaves, round.hears, |w.slaves|);
    BroadcastDelta(c, data, w.slaves, round.hears, i);
  }
}
