/** Network initialisation on the line: the table ends up describing the slaves that are there, and each of them is set
    up. */
module NetworkBus {
  import opened Bytes
  import LogicalBits
  import opened ProcessImage
  import opened Bus
  import SlaveInit
  import opened SlaveInitRuns
  import opened SlaveInitBus
  import opened Networks
  import Net = NetworkInit
  import opened NetworkRuns

  datatype NetWorld = NetWorld(task: Net.Task, line: Line)

  /** The bytes of the request that is out. */
  function DataOf(t: Net.Task): seq<byte>
    requires OutNet(t)
  {
    if t.state.CountSlaves? then [1, 0, 7, 0] else SlaveInit.DataOf(t.init)
  }

  /** While the task has a request out, its datagrams pass the line. */
  ghost predicate NetTurn(eeproms: seq<Eeprom>, w: NetWorld, round: LineRound, w': NetWorld) {
    if OutNet(w.task) then
      && Turn(eeproms, w.task.command, DataOf(w.task), w.line, round, w'.line)
      && Net.CanHear(w.task) && Net.Answers(w.task, round.reply) && w'.task == NetworkRuns.Step(w.task, round.AsRound())
    else w' == w
  }

  // ------------------------------------------------------------------ what every turn keeps

  /** The mailbox state of a slave with two FMMUs and a transmit mailbox is mapped from the status register of
      SyncManager 1. */
  predicate MailboxMapped(s: NetSlave)
    requires |s.info.sm| == 4
  {
    s.mailboxFmmu ==
      if 2 <= s.info.fmmus && s.info.sm[1].Some? && s.info.sm[1].value.MailboxTx? then
        Some(Fmmu(LogicalBits.Field(None, 0, 8), 0x080D, Input))
      else None
  }

  /** Entry k of the table describes slave k, which is set up. */
  ghost predicate Describes(eeproms: seq<Eeprom>, s: NetSlave, line: Line, k: nat) {
    && line.Ok(eeproms) && k < |eeproms| && Finished(s.info, line.slaves[k], eeproms[k], k) && MailboxMapped(s)
  }

  ghost predicate TableKnown(eeproms: seq<Eeprom>, slaves: seq<NetSlave>, line: Line) {
    forall k {:trigger slaves[k]} :: 0 <= k < |slaves| ==> Describes(eeproms, slaves[k], line, k)
  }

  ghost predicate NetKnown(eeproms: seq<Eeprom>, w: NetWorld) {
    && w.line.Ok(eeproms) && NetworkRuns.Live(w.task) && TableKnown(eeproms, w.task.slaves, w.line)
    && (OutNet(w.task) && Net.Initialising(w.task.state) ==> w.task.numSlaves <= |eeproms| && KnownAt(eeproms, w.task.init, w.line))
    && (w.task.state.CountSlaves? ==> w.task.slaves == [])
  }

  /** The line keeps what the table says of the slaves that are finished. */
  lemma DescribesFrame(eeproms: seq<Eeprom>, s: NetSlave, line: Line, line': Line, k: nat)
    requires Describes(eeproms, s, line, k) && line'.Ok(eeproms) && SameRegisters(line.slaves[k], line'.slaves[k])
    ensures Describes(eeproms, s, line', k)
  {
    FinishedFrame(s.info, line.slaves[k], line'.slaves[k], eeproms[k], k);
  }

  lemma TableStays(eeproms: seq<Eeprom>, t: Net.Task, line: Line, round: LineRound, line': Line)
    requires OutNet(t) && Net.Initialising(t.state) && TableKnown(eeproms, t.slaves, line) && KnownAt(eeproms, t.init, line)
    requires Turn(eeproms, t.command, DataOf(t), line, round, line')
    ensures TableKnown(eeproms, t.slaves, line')
  {
    var p := t.init.position;
    RequestToSlave(t.init, line.slaves[p], line.ops[p]);
    forall k | 0 <= k < |t.slaves| ensures Describes(eeproms, t.slaves[k], line', k) {
      OthersStay(eeproms, t.command, DataOf(t), line, round, line', p, k);
      DescribesFrame(eeproms, t.slaves[k], line, line', k);
    }
  }

  /** A finished slave enters the table with its mailbox state mapped. */
  lemma NewSlaveMapped(info: SlaveInit.Info, mem: Memory, eeprom: Eeprom, position: nat)
    requires Finished(info, mem, eeprom, position)
    ensures Net.NewSlave(info).info == info && MailboxMapped(Net.NewSlave(info))
  {
    FinishedInfo(info, mem, eeprom, position);
    assert Net.FirstMailboxTx(info.sm, 4).None?;
    assert Net.FirstMailboxTx(info.sm, 3).None?;
    assert Net.FirstMailboxTx(info.sm, 2).None?;
    var sm := info.sm[1];
    assert Net.FirstMailboxTx(info.sm, 1) == if sm.Some? && sm.value.MailboxTx? then Some(sm.value.sm) else None;
    assert Net.FirstMailboxTx(info.sm, 0) == Net.FirstMailboxTx(info.sm, 1);
    assert sm.Some? && sm.value.MailboxTx? ==> sm.value.sm.Register(0x0805) == 0x080D;
  }

  /** How a turn of the whole task looks to the slave's own task. */
  lemma StepShape(t: Net.Task, round: LineRound)
    requires OutNet(t) && Net.Initialising(t.state) && Net.CanHear(t) && Net.Answers(t, round.reply)
    ensures SlaveInit.Answers(t.init, round.reply)
    ensures var r, i := NetworkRuns.Step(t, round.AsRound()), SlaveInitRuns.Step(t.init, round.AsRound());
      && (r.slaves == t.slaves || (i.state.Complete? && i.info.Some? && r.slaves == t.slaves + [Net.NewSlave(i.info.value)]))
      && (OutNet(r) && r.state.WaitInitSlaves? ==> r.init == i && SlaveInit.Busy(i.state))
      && (OutNet(r) && r.state.StartInitSlaves? ==> r.init.state.SetLoopPort? && FreshStart(r.init))
      && (OutNet(r) ==> Net.Initialising(r.state) && r.numSlaves == t.numSlaves)
  {
    HearNet(t, round.reply, round.time);
    HearSucceeds(t.init, round.reply, round.time);
    AskSucceeds(SlaveInit.OnReply(t.init, round.reply, round.time));
    AskNet(Net.OnReply(t, round.reply, round.time));
  }

  /** The task as its start leaves it. */
  ghost predicate FreshStart(t: SlaveInit.Task) {
    exists s: SlaveInit.Task, p: u16 :: InnerOk(s.inner) && p < 0xFFFF && t == SlaveInit.Asked(SlaveInit.Start(s, p)).0
  }

  lemma CountShape(t: Net.Task, round: LineRound)
    requires OutNet(t) && t.state.CountSlaves? && Net.CanHear(t) && Net.Answers(t, round.reply)
    ensures var r := NetworkRuns.Step(t, round.AsRound());
      && (r.slaves == t.slaves || r.slaves == [])
      && (OutNet(r) ==> r.state.StartInitSlaves? && r.init.state.SetLoopPort? && FreshStart(r.init) && r.numSlaves == round.reply.wkc)
  {
    HearNet(t, round.reply, round.time);
    AskNet(Net.OnReply(t, round.reply, round.time));
  }

  lemma FreshIsKnown(eeproms: seq<Eeprom>, t: SlaveInit.Task, line: Line)
    requires FreshStart(t) && t.position < |eeproms| && line.Ok(eeproms)
    ensures KnownAt(eeproms, t, line)
  {
    var s: SlaveInit.Task, p: u16 :| InnerOk(s.inner) && p < 0xFFFF && t == SlaveInit.Asked(SlaveInit.Start(s, p)).0;
    AskSucceeds(SlaveInit.Start(s, p));
    StartKnows(eeproms, s, p, line);
  }

  /** A slave whose task has completed is described by its new entry. */
  lemma NewEntry(eeproms: seq<Eeprom>, i: SlaveInit.Task, line: Line)
    requires KnownAt(eeproms, i, line) && i.state.Complete?
    ensures i.info.Some? && Describes(eeproms, Net.NewSlave(i.info.value), line, i.position)
  {
    NewSlaveMapped(i.info.value, line.slaves[i.position], eeproms[i.position], i.position);
  }

  lemma TableGrows(eeproms: seq<Eeprom>, slaves: seq<NetSlave>, s: NetSlave, line: Line)
    requires TableKnown(eeproms, slaves, line) && Describes(eeproms, s, line, |slaves|)
    ensures TableKnown(eeproms, slaves + [s], line)
  {
    forall k | 0 <= k < |slaves| + 1 ensures Describes(eeproms, (slaves + [s])[k], line, k) {
      if k < |slaves| { assert (slaves + [s])[k] == slaves[k]; }
    }
  }

  lemma CountKeeps(eeproms: seq<Eeprom>, w: NetWorld, round: LineRound, w': NetWorld)
    requires NetKnown(eeproms, w) && OutNet(w.task) && w.task.state.CountSlaves? && NetTurn(eeproms, w, round, w')
    ensures NetKnown(eeproms, w')
  {
    CountShape(w.task, round);
    HearNet(w.task, round.reply, round.time);
    AskNet(Net.OnReply(w.task, round.reply, round.time));
    assert w'.task.slaves == [];
    if OutNet(w'.task) { FreshIsKnown(eeproms, w'.task.init, w'.line); }
  }

  lemma InitKeeps(eeproms: seq<Eeprom>, w: NetWorld, round: LineRound, w': NetWorld)
    requires NetKnown(eeproms, w) && OutNet(w.task) && Net.Initialising(w.task.state) && NetTurn(eeproms, w, round, w')
    ensures NetKnown(eeproms, w')
  {
    var t, r := w.task, w'.task;
    StepShape(t, round);
    TableStays(eeproms, t, w.line, round, w'.line);
    TurnKnows(eeproms, t.init, w.line, round, w'.line);
    var i := SlaveInitRuns.Step(t.init, round.AsRound());
    if r.slaves != t.slaves {
      NewEntry(eeproms, i, w'.line);
      TableGrows(eeproms, t.slaves, Net.NewSlave(i.info.value), w'.line);
    }
    if OutNet(r) && r.state.StartInitSlaves? { FreshIsKnown(eeproms, r.init, w'.line); }
    NeverCounts(t, round);
  }

  lemma NeverCounts(t: Net.Task, round: LineRound)
    requires OutNet(t) && Net.CanHear(t) && Net.Answers(t, round.reply)
    ensures !NetworkRuns.Step(t, round.AsRound()).state.CountSlaves?
  {
    HearNet(t, round.reply, round.time);
    AskNet(Net.OnReply(t, round.reply, round.time));
  }

  /** Every turn keeps all that is known of the network. */
  lemma TurnKeeps(eeproms: seq<Eeprom>, w: NetWorld, round: LineRound, w': NetWorld)
    requires NetKnown(eeproms, w) && NetTurn(eeproms, w, round, w')
    ensures NetKnown(eeproms, w')
  {
    if OutNet(w.task) {
      if w.task.state.CountSlaves? { CountKeeps(eeproms, w, round, w'); } else { InitKeeps(eeproms, w, round, w'); }
    }
  }
}
