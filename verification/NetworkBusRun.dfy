/** Runs of network initialisation on the line. */
module NetworkBusRuns {
  import opened Bus
  import opened SlaveInitBus
  import Net = NetworkInit
  import opened NetworkRuns
  import opened NetworkBus

  // ------------------------------------------------------------------ whole runs

  ghost predicate BusRun(eeproms: seq<Eeprom>, ws: seq<NetWorld>, rounds: seq<LineRound>) {
    && |ws| == |rounds| + 1 && ws[0].line.Ok(eeproms)
    && OutNet(ws[0].task) && ws[0].task.state.CountSlaves? && ws[0].task.slaves == []
    && forall k {:trigger rounds[k]} :: 0 <= k < |rounds| ==> NetTurn(eeproms, ws[k], rounds[k], ws[k + 1])
  }

  lemma TurnAt(eeproms: seq<Eeprom>, ws: seq<NetWorld>, rounds: seq<LineRound>, k: nat)
    requires BusRun(eeproms, ws, rounds) && k < |rounds|
    ensures NetTurn(eeproms, ws[k], rounds[k], ws[k + 1])
  {
    var round := rounds[k];
  }

  lemma {:induction false} RunKnowsNet(eeproms: seq<Eeprom>, ws: seq<NetWorld>, rounds: seq<LineRound>, k: nat)
    requires BusRun(eeproms, ws, rounds) && k < |ws|
    ensures NetKnown(eeproms, ws[k])
  {
    if k > 0 {
      RunKnowsNet(eeproms, ws, rounds, k - 1);
      TurnAt(eeproms, ws, rounds, k - 1);
      TurnKeeps(eeproms, ws[k - 1], rounds[k - 1], ws[k]);
    }
  }

  /** The number of slaves is the one the first broadcast came back with, and a complete table has that many. */
  predicate CountKept(t: Net.Task, rounds: seq<LineRound>) {
    && NetworkRuns.Live(t) && TableOk(t)
    && (t.state.CountSlaves? || t.state.Error? || (|rounds| > 0 && t.numSlaves == rounds[0].reply.wkc))
  }

  /** What a turn is for the task alone. */
  ghost predicate TaskTurn(t: Net.Task, round: LineRound, t': Net.Task) {
    if OutNet(t) then
      Net.CanHear(t) && Net.Answers(t, round.reply) && t' == NetworkRuns.Step(t, round.AsRound())
    else t' == t
  }

  ghost predicate TaskTurns(ws: seq<NetWorld>, rounds: seq<LineRound>) {
    && |ws| == |rounds| + 1
    && forall k {:trigger rounds[k]} :: 0 <= k < |rounds| ==> TaskTurn(ws[k].task, rounds[k], ws[k + 1].task)
  }

  lemma RunCounts(eeproms: seq<Eeprom>, ws: seq<NetWorld>, rounds: seq<LineRound>, k: nat)
    requires BusRun(eeproms, ws, rounds) && k < |ws|
    ensures CountKept(ws[k].task, rounds) && (ws[k].task.state.CountSlaves? ==> k == 0)
  {
    forall j | 0 <= j < |rounds| ensures TaskTurn(ws[j].task, rounds[j], ws[j + 1].task) { TurnAt(eeproms, ws, rounds, j); }
    CountsFrom(ws, rounds, k);
  }

  lemma {:induction false} CountsFrom(ws: seq<NetWorld>, rounds: seq<LineRound>, k: nat)
    requires TaskTurns(ws, rounds) && k < |ws| && CountKept(ws[0].task, rounds) && OutNet(ws[0].task)
    ensures CountKept(ws[k].task, rounds) && (ws[k].task.state.CountSlaves? ==> k == 0)
  {
    if k > 0 {
      CountsFrom(ws, rounds, k - 1);
      var round := rounds[k - 1];
      if OutNet(ws[k - 1].task) {
        CountsOn(ws[k - 1].task, rounds, k - 1, ws[k].task);
      }
    }
  }

  lemma CountsOn(t: Net.Task, rounds: seq<LineRound>, k: nat, t': Net.Task)
    requires k < |rounds| && OutNet(t) && TaskTurn(t, rounds[k], t') && CountKept(t, rounds)
    requires t.state.CountSlaves? ==> k == 0
    ensures CountKept(t', rounds) && !t'.state.CountSlaves?
  {
    HearNet(t, rounds[k].reply, rounds[k].time);
    AskNet(Net.OnReply(t, rounds[k].reply, rounds[k].time));
  }

  /** A slave that hears the count is counted: all of them, when all hear it. */
  lemma CountIsLine(eeproms: seq<Eeprom>, w: NetWorld, round: LineRound, w': NetWorld)
    requires OutNet(w.task) && w.task.state.CountSlaves? && NetTurn(eeproms, w, round, w')
    requires forall p :: 0 <= p < |round.hears| ==> round.hears[p]
    ensures round.reply.wkc == |eeproms|
  {
    var c := w.task.command;
    WkcIsParties(c, DataOf(w.task), w.line.slaves, round.hears, |eeproms|);
    AllTake(c, w.line.slaves, round.hears, |eeproms|);
  }

  /** At completion the table has one entry for each slave that was counted, and each describes its slave: what the
      entry says is what the slave and its EEPROM say, and the slave is set up accordingly. When all slaves heard the
      count, that is all slaves of the line. */
  lemma TableIsLine(eeproms: seq<Eeprom>, ws: seq<NetWorld>, rounds: seq<LineRound>, k: nat)
    requires BusRun(eeproms, ws, rounds) && k < |ws| && ws[k].task.state.Complete?
    ensures k > 0 && |ws[k].task.slaves| == rounds[0].reply.wkc
    ensures forall p {:trigger ws[k].task.slaves[p]} :: 0 <= p < |ws[k].task.slaves| ==>
      Describes(eeproms, ws[k].task.slaves[p], ws[k].line, p)
    ensures (forall p :: 0 <= p < |rounds[0].hears| ==> rounds[0].hears[p]) ==> |ws[k].task.slaves| == |eeproms|
  {
    RunKnowsNet(eeproms, ws, rounds, k);
    RunCounts(eeproms, ws, rounds, k);
    TurnAt(eeproms, ws, rounds, 0);
    if forall p :: 0 <= p < |rounds[0].hears| ==> rounds[0].hears[p] { CountIsLine(eeproms, ws[0], rounds[0], ws[1]); }
  }
}
