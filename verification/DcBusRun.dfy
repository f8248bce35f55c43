/** Runs of distributed-clock initialisation on the line: the measurement is that of the line, and the registers of the
    slaves align their clocks. */
module DcBusRuns {
  import opened Bytes
  import opened Tasks
  import opened Bus
  import opened DcDelay
  import opened DcInit
  import opened DcRuns
  import opened DcMeasurement
  import opened DcOffsets
  import opened DcBus

  ghost predicate Steps(net: Topology, ph: Physics, ws: seq<World>, rounds: seq<BusRound>) {
    && |ws| == |rounds| + 1 && OnLine(net, ph)
    && forall k {:trigger rounds[k]} :: 0 <= k < |rounds| ==> BusStep(net, ph, ws[k], rounds[k], ws[k + 1])
  }

  ghost predicate BusRun(net: Topology, ph: Physics, ws: seq<World>, rounds: seq<BusRound>) {
    Steps(net, ph, ws, rounds) && Started(net, ws[0].task) && |ws[0].slaves| == net.Size() && ws[0].latches == 0
  }

  lemma StepAt(net: Topology, ph: Physics, ws: seq<World>, rounds: seq<BusRound>, k: nat)
    requires Steps(net, ph, ws, rounds) && k < |rounds|
    ensures BusStep(net, ph, ws[k], rounds[k], ws[k + 1])
  {
    var round := rounds[k];
  }

  lemma StartLatches(net: Topology, ph: Physics, w: World)
    requires OnLine(net, ph) && Started(net, w.task) && |w.slaves| == net.Size() && w.latches == 0
    ensures LatchInv(net, ph, w)
  {
    StartOnLine(net, w.task);
    FirstDcCounts(net);
  }

  lemma RunLatches(net: Topology, ph: Physics, ws: seq<World>, rounds: seq<BusRound>, k: nat)
    requires BusRun(net, ph, ws, rounds) && k <= |rounds|
    ensures LatchInv(net, ph, ws[k])
  {
    StartLatches(net, ph, ws[0]);
    LatchesFrom(net, ph, ws, rounds, k);
  }

  lemma {:induction false} LatchesFrom(net: Topology, ph: Physics, ws: seq<World>, rounds: seq<BusRound>, k: nat)
    requires Steps(net, ph, ws, rounds) && LatchInv(net, ph, ws[0]) && k <= |rounds|
    ensures LatchInv(net, ph, ws[k])
  {
    if k > 0 {
      LatchesFrom(net, ph, ws, rounds, k - 1);
      StepAt(net, ph, ws, rounds, k - 1);
      StepLatches(net, ph, ws[k - 1], rounds[k - 1], ws[k]);
    }
  }

  lemma RunIsOk(net: Topology, ph: Physics, ws: seq<World>, rounds: seq<BusRound>, k: nat)
    requires BusRun(net, ph, ws, rounds) && k <= |rounds|
    ensures WorldOk(net, ws[k])
  {
    RunLatches(net, ph, ws, rounds, k);
  }

  function TasksOf(ws: seq<World>): (ts: seq<Task>)
    ensures |ts| == |ws| && forall k {:trigger ts[k]} :: 0 <= k < |ts| ==> ts[k] == ws[k].task
  {
    seq(|ws|, k requires 0 <= k < |ws| => ws[k].task)
  }

  function RepliesOf(rounds: seq<BusRound>): (rs: seq<Reply>)
    ensures |rs| == |rounds| && forall k {:trigger rs[k]} :: 0 <= k < |rs| ==> rs[k] == rounds[k].reply
  {
    seq(|rounds|, k requires 0 <= k < |rounds| => rounds[k].reply)
  }

  /** On the line each measurement reads the latches the slave it is for has taken in this round. */
  lemma BusRunIsLineRun(net: Topology, ph: Physics, ws: seq<World>, rounds: seq<BusRound>)
    requires BusRun(net, ph, ws, rounds)
    ensures LineRun(net, ph, TasksOf(ws), RepliesOf(rounds))
  {
    var ts, rs := TasksOf(ws), RepliesOf(rounds);
    forall k | 0 <= k < |rs| ensures LineStep(net, ph, ts[k], rs[k], ts[k + 1]) {
      RunLatches(net, ph, ws, rounds, k);
      StepAt(net, ph, ws, rounds, k);
      StepIsLineStep(net, ph, ws[k], rounds[k], ws[k + 1]);
    }
  }

  lemma StartHolds(net: Topology, ph: Physics, w: World, i: nat)
    requires LatchInv(net, ph, w) && w.task.state.ClearOffset? && i < net.Size()
    ensures Held(net, w, i)
  {
  }

  lemma RunHolds(net: Topology, ph: Physics, ws: seq<World>, rounds: seq<BusRound>, k: nat, i: nat)
    requires BusRun(net, ph, ws, rounds) && k <= |rounds| && i < net.Size()
    ensures Held(net, ws[k], i)
  {
    RunLatches(net, ph, ws, rounds, 0);
    StartHolds(net, ph, ws[0], i);
    forall j | 0 <= j < k ensures KeepsHeld(net, ws[j], ws[j + 1], i) { TurnHolds(net, ph, ws, rounds, j, i); }
    HoldsFrom(net, ws, k, i);
  }

  ghost predicate KeepsHeld(net: Topology, w: World, w': World, i: nat) { Held(net, w, i) ==> Held(net, w', i) }

  lemma TurnHolds(net: Topology, ph: Physics, ws: seq<World>, rounds: seq<BusRound>, j: nat, i: nat)
    requires Steps(net, ph, ws, rounds) && j < |rounds|
    ensures KeepsHeld(net, ws[j], ws[j + 1], i)
  {
    StepAt(net, ph, ws, rounds, j);
    if Held(net, ws[j], i) { StepHolds(net, ph, ws[j], rounds[j], ws[j + 1], i); }
  }

  lemma {:induction false} HoldsFrom(net: Topology, ws: seq<World>, k: nat, i: nat)
    requires k < |ws| && Held(net, ws[0], i)
    requires forall j {:trigger ws[j]} :: 0 <= j < k ==> KeepsHeld(net, ws[j], ws[j + 1], i)
    ensures Held(net, ws[k], i)
  {
    if k > 0 {
      HoldsFrom(net, ws, k - 1, i);
      assert KeepsHeld(net, ws[k - 1], ws[k - 1 + 1], i);
    }
  }

  // ------------------------------------------------------------------ what the registers amount to

  /** The clock of slave i at the start of the first latch frame, corrected by its offset and delay registers. */
  function AlignedClock(ph: Physics, mem: Memory, i: nat): nat {
    ph.base(0, i) + Value(Load(mem, 0x0920, 8)) + Value(Load(mem, 0x0928, 4))
  }

  lemma FourBytes(v: nat)
    requires v < WRAP
    ensures Value(LittleEndian(v, 8)) == v && Value(LittleEndian(v, 4)) == v
  {
    assert Pow256(1) == 256 && Pow256(2) == 0x1_0000 && Pow256(3) == 0x100_0000 && Pow256(4) == WRAP;
    assert Pow256(5) == 256 * WRAP && Pow256(6) == 256 * Pow256(5) && Pow256(7) == 256 * Pow256(6) && Pow256(8) == 256 * Pow256(7);
    ValueOf(v, 8);
    ValueOf(v, 4);
  }

  /** After the writes the registers of a DC slave hold what was measured for it. */
  lemma WrittenRegisters(net: Topology, ph: Physics, ws: seq<World>, rounds: seq<BusRound>, k: nat, i: nat, f: nat)
    requires BusRun(net, ph, ws, rounds) && k <= |rounds| && DelaysWritten(ws[k].task.state) && Steady(ph)
    requires DcTotal(net) > 0 && i < net.Size() && net.dc[i] && ws[0].task.firstDc == Some(f)
    ensures f <= i && |ws[k].slaves| == net.Size()
    ensures var behind := Behind(ph, 0, i);
      behind - 1 <= Value(Load(ws[k].slaves[i], 0x0920, 8)) <= behind
    ensures TrueDelay(ph.link, f, i) - (i - f) <= Value(Load(ws[k].slaves[i], 0x0928, 4)) <= TrueDelay(ph.link, f, i)
  {
    BusRunIsLineRun(net, ph, ws, rounds);
    MeasuredValues(net, ph, TasksOf(ws), RepliesOf(rounds), k, i, f);
    RunHolds(net, ph, ws, rounds, k, i);
    FourBytes(ws[k].task.contexts[i].offset);
    FourBytes(ws[k].task.contexts[i].delay);
  }

  /** Corrected by its own registers, the clock of every DC slave shows the time of the corrected reference clock in its
      own epoch, or up to one unit per hop and one more less. */
  lemma RegistersAlign(net: Topology, ph: Physics, ws: seq<World>, rounds: seq<BusRound>, k: nat, i: nat, f: nat)
    requires BusRun(net, ph, ws, rounds) && k <= |rounds| && DelaysWritten(ws[k].task.state) && Steady(ph)
    requires DcTotal(net) > 0 && i < net.Size() && net.dc[i] && ws[0].task.firstDc == Some(f)
    ensures f <= i < |ph.link| && |ws[k].slaves| == net.Size()
    ensures CommonTime(ph, f, i) - 1 - (i - f) <= AlignedClock(ph, ws[k].slaves[i], i) <= CommonTime(ph, f, i)
  {
    WrittenRegisters(net, ph, ws, rounds, k, i, f);
    assert LocalTime(ph, 0, i) == WRAP * Epoch(ph, i) + Low32(ph, 0, i);
  }

  /** Two DC slaves are aligned by their registers, up to one unit per hop and one more, if and only if their local
      times at the first latch had the same upper words. */
  lemma RegistersAgreeIff(net: Topology, ph: Physics, ws: seq<World>, rounds: seq<BusRound>, k: nat, i: nat, j: nat, f: nat)
    requires BusRun(net, ph, ws, rounds) && k <= |rounds| && DelaysWritten(ws[k].task.state) && Steady(ph)
    requires DcTotal(net) > 0 && i <= j < net.Size() && net.dc[i] && net.dc[j] && ws[0].task.firstDc == Some(f)
    ensures f <= i && j < |ph.link| && |ws[k].slaves| == net.Size()
    ensures Epoch(ph, i) == Epoch(ph, j) <==>
      -(j - f + 1) <= AlignedClock(ph, ws[k].slaves[i], i) - AlignedClock(ph, ws[k].slaves[j], j) <= j - f + 1
  {
    RegistersAlign(net, ph, ws, rounds, k, i, f);
    RegistersAlign(net, ph, ws, rounds, k, j, f);
    var e := Epoch(ph, i) - Epoch(ph, j);
    assert CommonTime(ph, f, i) - CommonTime(ph, f, j) == WRAP * e;
  }

  /** Slaves without DC keep zeros in these registers. */
  lemma OthersStayClear(net: Topology, ph: Physics, ws: seq<World>, rounds: seq<BusRound>, k: nat, i: nat)
    requires BusRun(net, ph, ws, rounds) && k <= |rounds| && DelaysWritten(ws[k].task.state)
    requires i < net.Size() && !net.dc[i]
    ensures |ws[k].slaves| == net.Size()
    ensures Load(ws[k].slaves[i], 0x0920, 8) == Zeros(8) && Load(ws[k].slaves[i], 0x0928, 4) == Zeros(4)
  {
    RunHolds(net, ph, ws, rounds, k, i);
    LittleZeros(8);
    LittleZeros(4);
  }
}
