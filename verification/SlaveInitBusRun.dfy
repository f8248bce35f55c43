/** Runs of one slave's initialisation on the line. */
module SlaveInitBusRuns {
  import opened Bytes
  import opened Bus
  import opened SlaveInit
  import opened SlaveInitRuns
  import opened SlaveInitBus

  /** A run of the task for one slave: while it is busy its datagrams pass the line. */
  ghost predicate BusRun(eeproms: seq<Eeprom>, run: seq<Task>, lines: seq<Line>, rounds: seq<LineRound>, p: u16) {
    && |run| == |lines| == |rounds| + 1 && p < 0xFFFF && p < |eeproms| && lines[0].Ok(eeproms)
    && (exists t: Task :: InnerOk(t.inner) && CanAsk(Start(t, p)) && run[0] == Asked(Start(t, p)).0)
    && forall k {:trigger rounds[k]} :: 0 <= k < |rounds| ==> RunTurn(eeproms, run[k], lines[k], rounds[k], run[k + 1], lines[k + 1])
  }

  ghost predicate RunTurn(eeproms: seq<Eeprom>, t: Task, line: Line, round: LineRound, t': Task, line': Line) {
    if Out(t) then
      && Turn(eeproms, t.command, DataOf(t), line, round, line')
      && Answers(t, round.reply) && t' == Step(t, round.AsRound())
    else t' == t && line' == line
  }

  lemma RunTurnAt(eeproms: seq<Eeprom>, run: seq<Task>, lines: seq<Line>, rounds: seq<LineRound>, p: u16, k: nat)
    requires BusRun(eeproms, run, lines, rounds, p) && k < |rounds|
    ensures RunTurn(eeproms, run[k], lines[k], rounds[k], run[k + 1], lines[k + 1])
  {
    var round := rounds[k];
  }

  lemma {:induction false} RunKnows(eeproms: seq<Eeprom>, run: seq<Task>, lines: seq<Line>, rounds: seq<LineRound>, p: u16, k: nat)
    requires BusRun(eeproms, run, lines, rounds, p) && k < |run|
    ensures KnownAt(eeproms, run[k], lines[k]) && run[k].position == p && Live(run[k])
  {
    if k == 0 {
      var t: Task :| InnerOk(t.inner) && CanAsk(Start(t, p)) && run[0] == Asked(Start(t, p)).0;
      StartKnows(eeproms, t, p, lines[0]);
    } else {
      RunKnows(eeproms, run, lines, rounds, p, k - 1);
      RunTurnAt(eeproms, run, lines, rounds, p, k - 1);
      RunTurnKnows(eeproms, run[k - 1], lines[k - 1], rounds[k - 1], run[k], lines[k]);
    }
  }

  lemma RunTurnKnows(eeproms: seq<Eeprom>, t: Task, line: Line, round: LineRound, t': Task, line': Line)
    requires RunTurn(eeproms, t, line, round, t', line') && KnownAt(eeproms, t, line) && Live(t)
    ensures KnownAt(eeproms, t', line') && t'.position == t.position && Live(t')
  {
    if Out(t) { TurnKnows(eeproms, t, line, round, line'); }
  }

  /** What a completed initialisation hands over is what the slave and its EEPROM say, and the slave is set up; the
      registers of every other slave are as they were, except the volatile ones. */
  lemma CompleteIsKnown(eeproms: seq<Eeprom>, run: seq<Task>, lines: seq<Line>, rounds: seq<LineRound>, p: u16, k: nat)
    requires BusRun(eeproms, run, lines, rounds, p) && k < |run| && run[k].state.Complete?
    ensures run[k].info.Some? && lines[k].Ok(eeproms) && Finished(run[k].info.value, lines[k].slaves[p], eeproms[p], p)
    ensures forall q :: 0 <= q < |eeproms| && q != p ==> SameRegisters(lines[0].slaves[q], lines[k].slaves[q])
  {
    RunKnows(eeproms, run, lines, rounds, p, k);
    forall q | 0 <= q < |eeproms| && q != p ensures SameRegisters(lines[0].slaves[q], lines[k].slaves[q]) {
      OtherKept(eeproms, run, lines, rounds, p, k, q);
    }
  }

  lemma RunTurnOthers(eeproms: seq<Eeprom>, t: Task, line: Line, round: LineRound, t': Task, line': Line, q: nat)
    requires RunTurn(eeproms, t, line, round, t', line') && KnownAt(eeproms, t, line) && q < |eeproms| && q != t.position
    ensures line'.Ok(eeproms) && SameRegisters(line.slaves[q], line'.slaves[q])
  {
    if Out(t) {
      RequestToSlave(t, line.slaves[t.position], line.ops[t.position]);
      OthersStay(eeproms, t.command, DataOf(t), line, round, line', t.position, q);
    }
  }

  lemma {:induction false} OtherKept(eeproms: seq<Eeprom>, run: seq<Task>, lines: seq<Line>, rounds: seq<LineRound>, p: u16, k: nat, q: nat)
    requires BusRun(eeproms, run, lines, rounds, p) && k < |run| && q < |eeproms| && q != p
    ensures lines[k].Ok(eeproms) && SameRegisters(lines[0].slaves[q], lines[k].slaves[q])
  {
    if k > 0 {
      OtherKept(eeproms, run, lines, rounds, p, k - 1, q);
      RunKnows(eeproms, run, lines, rounds, p, k - 1);
      RunTurnAt(eeproms, run, lines, rounds, p, k - 1);
      RunTurnOthers(eeproms, run[k - 1], lines[k - 1], rounds[k - 1], run[k], lines[k], q);
      SameTrans(lines[0].slaves[q], lines[k - 1].slaves[q], lines[k].slaves[q]);
    }
  }

  lemma SameTrans(a: Memory, b: Memory, c: Memory)
    requires SameRegisters(a, b) && SameRegisters(b, c)
    ensures SameRegisters(a, c)
  {
  }
}
