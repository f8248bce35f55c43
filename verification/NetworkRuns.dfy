/** Runs of `NetworkInitTask` on a line of slaves with their station address registers. */
module NetworkRuns {
  import opened Bytes
  import opened Commands
  import opened Tasks
  import opened Networks
  import SlaveInit
  import opened SlaveInitRuns
  import Net = NetworkInit

  // ------------------------------------------------------------------ the invariant

  /** The slave being initialised is the one after those in the table. */
  predicate Counted(t: Net.Task) {
    Net.Initialising(t.state) ==> |t.slaves| == t.state.count < t.numSlaves
  }

  predicate TableOk(t: Net.Task) {
    && Numbered(t.slaves) && (Net.Initialising(t.state) || t.state.Complete? ==> |t.slaves| <= t.capacity)
    && (t.state.Complete? ==> |t.slaves| == t.numSlaves)
  }

  /** Between requests. */
  predicate ReadyNet(t: Net.Task) {
    && InnerOk(t.init.inner) && Counted(t) && TableOk(t)
    && (t.state.WaitInitSlaves? ==> Ready(t.init) && t.init.position == t.state.count && !t.init.state.Complete? && !t.init.state.Idle? && !t.init.state.Stopped?)
  }

  /** With a request in the socket. */
  predicate OutNet(t: Net.Task) {
    && Net.Busy(t.state) && InnerOk(t.init.inner) && Counted(t) && TableOk(t)
    && (t.state.CountSlaves? ==> t.command == Net.COUNT_COMMAND)
    && (Net.Initialising(t.state) ==> Out(t.init) && t.init.position == t.state.count && t.command == t.init.command)
    && (t.state.StartInitSlaves? ==> t.init.state.SetLoopPort?)
  }

  /** Busy, but without a request and so without a reply, for ever. */
  predicate Stalled(t: Net.Task) { t.state.WaitInitSlaves? && t.init.state.Error? }

  lemma AskNet(t: Net.Task)
    requires ReadyNet(t)
    ensures Net.CanAsk(t)
    ensures var (r, some) := Net.Asked(t);
      && (some <==> Net.Busy(t.state) && !Stalled(t))
      && (if some then OutNet(r) else r == t)
      && r.state == t.state && r.numSlaves == t.numSlaves && r.slaves == t.slaves && r.capacity == t.capacity
      && (t.state.WaitInitSlaves? ==> r.init.state == t.init.state)
  {
    match t.state {
      case StartInitSlaves(count) =>
        AskSucceeds(SlaveInit.Start(t.init, count));
      case WaitInitSlaves(_) => AskSucceeds(t.init);
      case _ =>
    }
  }

  /** No `unwrap` fails below, a finished slave always hands its information over, and the table grows in order. */
  lemma HearNet(t: Net.Task, reply: Reply, time: nat)
    requires OutNet(t) && Net.CanHear(t) && Net.Answers(t, reply)
    ensures var r := Net.OnReply(t, reply, time);
      && ReadyNet(r) && r.capacity == t.capacity && !r.state.CountSlaves? && !r.state.Idle?
      && (r.state.Error? || r.numSlaves == if t.state.CountSlaves? then reply.wkc else t.numSlaves)
      && (Stalled(r) <==> t.state.StartInitSlaves? && reply.wkc != 1 && Matches(t.command, reply.command))
      && (r.state.Stopped? <==> Net.Initialising(t.state) && Matches(t.command, reply.command) && StopCause(t.init, reply))
      && (r.state == Net.Error(TaskSpecific(Net.TooManySlaves)) ==> |r.slaves| == t.capacity < t.numSlaves)
  {
    if Net.Initialising(t.state) && Matches(t.command, reply.command) {
      HearSucceeds(t.init, reply, time);
      if t.state.WaitInitSlaves? { PushKeeps(t, reply, time); }
    }
  }

  /** A reply to another request ends the task, and an error of a slave is handed on, except in reply to its first
      request. */
  lemma ErrorsReported(t: Net.Task, reply: Reply, time: nat)
    requires OutNet(t) && Net.CanHear(t) && Net.Answers(t, reply)
    ensures var s := Net.OnReply(t, reply, time).state;
      if reply.command.ctype != t.command.ctype || reply.command.ado != t.command.ado then s == Net.Error(UnexpectedCommand)
      else
        && (t.state.WaitInitSlaves? && reply.wkc != 1 ==> s == Net.Error(UnexpectedWkc(1, reply.wkc)))
        && (t.state.WaitInitSlaves? ==> forall e :: SlaveInit.OnReply(t.init, reply, time).state == SlaveInit.Error(TaskSpecific(e)) ==>
              s == Net.Error(TaskSpecific(Net.InitFailed(e))))
        && (t.state.CountSlaves? ==> s == if reply.wkc == 0 then Net.Complete else Net.StartInitSlaves(0))
  {
    if Net.Initialising(t.state) && reply.wkc != 1 { SlaveInitRuns.ErrorsReported(t.init, reply, time); }
  }

  lemma PushKeeps(t: Net.Task, reply: Reply, time: nat)
    requires OutNet(t) && Net.CanHear(t) && Net.Answers(t, reply) && t.state.WaitInitSlaves?
    ensures var init := SlaveInit.OnReply(t.init, reply, time);
      var r := Net.OnInit(t, t.state.count, init);
      && ReadyNet(r) && r.capacity == t.capacity && !Stalled(r)
      && (r.state.Stopped? <==> init.state.Stopped?)
      && (r.state == Net.Error(TaskSpecific(Net.TooManySlaves)) ==> |r.slaves| == t.capacity < t.numSlaves)
  {
    HearSucceeds(t.init, reply, time);
  }

  // ------------------------------------------------------------------ runs

  /** The task and the station address registers of the slaves on the line. */
  datatype World = World(task: Net.Task, stations: seq<u16>)

  predicate Live(t: Net.Task) { Net.Busy(t.state) && !Stalled(t) ==> OutNet(t) }

  function Step(t: Net.Task, round: Round): (r: Net.Task)
    requires OutNet(t) && Net.CanHear(t) && Net.Answers(t, round.reply)
    ensures Live(r)
  {
    HearNet(t, round.reply, round.time);
    var heard := Net.OnReply(t, round.reply, round.time);
    AskNet(heard);
    Net.Asked(heard).0
  }

  predicate WritesStation(t: Net.Task) {
    Net.Initialising(t.state) && t.command.ctype == APWR && t.command.ado == SlaveInit.STATION_ADDRESS
  }

  /** A write to the station address register that one slave took was taken by the slave it addresses. */
  predicate Registers(t: Net.Task, reply: Reply, before: seq<u16>, after: seq<u16>)
    requires OutNet(t)
  {
    && |after| == |before|
    && forall p :: 0 <= p < |before| ==>
         after[p] ==
           if WritesStation(t) && reply.wkc == 1 && Addressed(t.command.adp, p) && |SlaveInit.DataOf(t.init)| >= 2 then
             Word(SlaveInit.DataOf(t.init)[0], SlaveInit.DataOf(t.init)[1])
           else before[p]
  }

  predicate Linked(run: seq<World>, rounds: seq<Round>, k: nat)
    requires k + 1 < |run| && k < |rounds|
  {
    var w, w', round := run[k], run[k + 1], rounds[k];
    && Live(w.task)
    && if OutNet(w.task) then
         && Net.CanHear(w.task) && Net.Answers(w.task, round.reply)
         && w'.task == Step(w.task, round) && Registers(w.task, round.reply, w.stations, w'.stations)
       else w' == w
  }

  /** A run from `Start`, on at most 65536 slaves. */
  predicate IsRun(run: seq<World>, rounds: seq<Round>) {
    && |run| == |rounds| + 1
    && run[0].task.state.CountSlaves? && OutNet(run[0].task) && |run[0].task.slaves| == 0
    && |run[0].stations| <= 0x1_0000
    && (forall k :: 0 <= k < |rounds| ==> Linked(run, rounds, k))
  }

  /** Slaves in the table have their address in their register, and so has the current slave once the task is past
      that phase. */
  predicate StationsSet(w: World) {
    && (forall p :: 0 <= p < |w.task.slaves| && p < |w.stations| ==> w.stations[p] == p + 1)
    && (AddressedYet(w.task) && w.task.state.count < |w.stations| ==> w.stations[w.task.state.count] == w.task.state.count + 1)
  }

  predicate AddressedYet(t: Net.Task) {
    t.state.WaitInitSlaves? && SlaveInit.Busy(t.init.state) && Phase(t.init.state) > STATION_PHASE
  }

  /** What a round does to the registers: only the write of the current slave's address, only there. */
  lemma RegisterWrite(t: Net.Task, reply: Reply, before: seq<u16>, after: seq<u16>, p: nat)
    requires OutNet(t) && Registers(t, reply, before, after) && |before| <= 0x1_0000 && p < |before|
    ensures after[p] ==
      if Net.Initialising(t.state) && t.init.state.SetStationAddress? && reply.wkc == 1 && p == t.state.count then p + 1
      else before[p]
  {
    if Net.Initialising(t.state) {
      if t.init.state.SetStationAddress? {
        ApAdpReaches(t.init.position, p);
      } else if WritesStation(t) {
        OthersLeaveStation(t.init);
      }
    }
  }

  lemma StepSetsStations(w: World, round: Round, w': World)
    requires OutNet(w.task) && Net.CanHear(w.task) && Net.Answers(w.task, round.reply)
    requires w'.task == Step(w.task, round) && Registers(w.task, round.reply, w.stations, w'.stations)
    requires StationsSet(w) && |w.stations| <= 0x1_0000
    ensures StationsSet(w')
  {
    var t, r := w.task, w'.task;
    HearNet(t, round.reply, round.time);
    AskNet(Net.OnReply(t, round.reply, round.time));
    StepTable(t, round);
    forall p | 0 <= p < |r.slaves| && p < |w.stations| ensures w'.stations[p] == p + 1 {
      RegisterWrite(t, round.reply, w.stations, w'.stations, p);
    }
    if AddressedYet(r) && r.state.count < |w.stations| {
      RegisterWrite(t, round.reply, w.stations, w'.stations, r.state.count);
    }
  }

  /** How a round changes the table and the progress of the current slave. */
  predicate TableStep(t: Net.Task, wkc: u16, r: Net.Task) {
    && (r.slaves == t.slaves || r.slaves == [] || (AddressedYet(t) && |r.slaves| == |t.slaves| + 1 && t.state.count == |t.slaves|))
    && (AddressedYet(r) ==> Net.Initialising(t.state) && r.state.count == t.state.count && wkc == 1
                            && (AddressedYet(t) || t.init.state.SetStationAddress?))
  }

  lemma StepTable(t: Net.Task, round: Round)
    requires OutNet(t) && Net.CanHear(t) && Net.Answers(t, round.reply)
    ensures TableStep(t, round.reply.wkc, Step(t, round))
  {
    var heard := Net.OnReply(t, round.reply, round.time);
    HearNet(t, round.reply, round.time);
    AskNet(heard);
    if Matches(t.command, round.reply.command) && t.state.WaitInitSlaves? {
      WaitTable(t, round.reply, round.time);
    }
  }

  lemma WaitTable(t: Net.Task, reply: Reply, time: nat)
    requires OutNet(t) && Net.CanHear(t) && Net.Answers(t, reply) && t.state.WaitInitSlaves?
    ensures TableStep(t, reply.wkc, Net.OnInit(t, t.state.count, SlaveInit.OnReply(t.init, reply, time)))
  {
    var init := SlaveInit.OnReply(t.init, reply, time);
    HearSucceeds(t.init, reply, time);
  }

  // ------------------------------------------------------------------ whole runs

  /** What holds after `k` rounds. */
  predicate Kept(run: seq<World>, rounds: seq<Round>, k: nat)
    requires k < |run| == |rounds| + 1
  {
    var w := run[k];
    && Live(w.task) && TableOk(w.task) && StationsSet(w) && |w.stations| == |run[0].stations|
    && w.task.capacity == run[0].task.capacity
    && (k > 0 ==> !w.task.state.CountSlaves? && (w.task.state.Error? || w.task.numSlaves == rounds[0].reply.wkc))
    && (k == 0 ==> w.task.state.CountSlaves?)
    && (w.task.state == Net.Error(TaskSpecific(Net.TooManySlaves)) ==> TableFull(run[k].task, rounds))
  }

  predicate TableFull(t: Net.Task, rounds: seq<Round>) {
    |rounds| > 0 && |t.slaves| == t.capacity < rounds[0].reply.wkc
  }

  lemma {:induction false} RunKeeps(run: seq<World>, rounds: seq<Round>, k: nat)
    requires IsRun(run, rounds) && k < |run|
    ensures Kept(run, rounds, k)
  {
    if k > 0 {
      RunKeeps(run, rounds, k - 1);
      assert Linked(run, rounds, k - 1);
      var w := run[k - 1];
      if OutNet(w.task) {
        HearNet(w.task, rounds[k - 1].reply, rounds[k - 1].time);
        AskNet(Net.OnReply(w.task, rounds[k - 1].reply, rounds[k - 1].time));
        StepSetsStations(w, rounds[k - 1], run[k]);
      }
    }
  }

  /** At completion the table holds exactly as many slaves as answered the count, slave k under station address
      k + 1, which is also what its register holds. */
  lemma CompleteNetwork(run: seq<World>, rounds: seq<Round>, k: nat)
    requires IsRun(run, rounds) && k < |run| && run[k].task.state.Complete?
    ensures k > 0 && |run[k].task.slaves| == rounds[0].reply.wkc <= run[0].task.capacity
    ensures Numbered(run[k].task.slaves)
    ensures forall p :: 0 <= p < |run[k].task.slaves| && p < |run[k].stations| ==>
      run[k].stations[p] == run[k].task.slaves[p].info.address
  {
    RunKeeps(run, rounds, k);
  }

  /** After completion a station-addressed command for a slave of the table is taken by that slave alone, among
      all the slaves that were counted. */
  lemma StationReaches(run: seq<World>, rounds: seq<Round>, k: nat, p: nat, q: nat)
    requires IsRun(run, rounds) && k < |run| && run[k].task.state.Complete?
    requires p < |run[k].task.slaves| && q < |run[k].task.slaves| && p < |run[k].stations|
    ensures run[k].stations[p] == run[k].task.slaves[q].info.address <==> p == q
  {
    CompleteNetwork(run, rounds, k);
  }

  /** "Too many slaves" means just that: the table is full and more slaves answered the count. */
  lemma TooManyIsTrue(run: seq<World>, rounds: seq<Round>, k: nat)
    requires IsRun(run, rounds) && k < |run| && run[k].task.state == Net.Error(TaskSpecific(Net.TooManySlaves))
    ensures |run[k].task.slaves| == run[0].task.capacity && |rounds| > 0 && run[0].task.capacity < rounds[0].reply.wkc
  {
    RunKeeps(run, rounds, k);
  }

  /** A busy task without a request stays so for ever. That happens exactly when the first request to some slave
      came back unanswered: that reply is not looked at before the next request is due. */
  lemma StallsIff(run: seq<World>, rounds: seq<Round>, k: nat)
    requires IsRun(run, rounds) && k < |rounds| && !Stalled(run[k].task)
    ensures Stalled(run[k + 1].task) <==>
      && run[k].task.state.StartInitSlaves? && rounds[k].reply.wkc != 1
      && Matches(run[k].task.command, rounds[k].reply.command)
  {
    RunKeeps(run, rounds, k);
    assert Linked(run, rounds, k);
    if OutNet(run[k].task) {
      HearNet(run[k].task, rounds[k].reply, rounds[k].time);
      AskNet(Net.OnReply(run[k].task, rounds[k].reply, rounds[k].time));
    }
  }

  const NEW_INIT := SlaveInit.Task(SlaveInit.This, 0, SlaveInit.Idle, DEFAULT_COMMAND, None)

  /** The counting broadcast of a new task is out. */
  const COUNTING := Net.Task(NEW_INIT, Net.CountSlaves, Net.COUNT_COMMAND, 0, 1, [])

  /** One slave answers the count and misses the next request: the task is busy and asks for nothing any more. */
  lemma OneSlaveStalls() returns (run: seq<World>, rounds: seq<Round>)
    ensures |rounds| == 2 && |run| == 3 && IsRun(run, rounds) && run[0].task == COUNTING
    ensures Stalled(run[2].task) && Net.Busy(run[2].task.state)
  {
    var r0, t1 := CountedOne();
    var r1 := Round(Reply(t1.command, [1, 0, 7, 0], 0), 0);
    Missed(t1, r1);
    run, rounds := [World(COUNTING, []), World(t1, []), World(Step(t1, r1), [])], [r0, r1];
  }

  lemma Missed(t: Net.Task, round: Round)
    requires OutNet(t) && Net.CanHear(t) && Net.Answers(t, round.reply) && t.state.StartInitSlaves?
    requires round.reply.wkc != 1 && Matches(t.command, round.reply.command)
    ensures Stalled(Step(t, round)) && Net.Busy(Step(t, round).state)
  {
    HearNet(t, round.reply, round.time);
    AskNet(Net.OnReply(t, round.reply, round.time));
  }

  lemma CountedOne() returns (r0: Round, t1: Net.Task)
    ensures OutNet(COUNTING) && Net.CanHear(COUNTING) && Net.Answers(COUNTING, r0.reply) && t1 == Step(COUNTING, r0)
    ensures t1.state == Net.StartInitSlaves(0) && OutNet(t1) && Net.CanHear(t1) && SlaveInit.DataOf(t1.init) == [1, 0, 7, 0]
  {
    r0 := Round(Reply(Net.COUNT_COMMAND, [1, 0, 7, 0], 1), 0);
    HearNet(COUNTING, r0.reply, r0.time);
    AskNet(Net.OnReply(COUNTING, r0.reply, r0.time));
    t1 := Step(COUNTING, r0);
  }

  lemma {:induction false} StallIsForever(run: seq<World>, rounds: seq<Round>, k: nat, j: nat)
    requires IsRun(run, rounds) && k <= j < |run| && Stalled(run[k].task)
    ensures run[j] == run[k]
  {
    if k < j {
      StallIsForever(run, rounds, k, j - 1);
      assert Linked(run, rounds, j - 1);
    }
  }

  /** The program ends exactly for one of the three causes a slave can give during its initialisation; in
      particular both arms marked unreachable are dead. */
  lemma StopsIff(run: seq<World>, rounds: seq<Round>, k: nat)
    requires IsRun(run, rounds) && k < |rounds| && !run[k].task.state.Stopped?
    ensures run[k + 1].task.state.Stopped? <==>
      && OutNet(run[k].task) && Net.Initialising(run[k].task.state)
      && SlaveInit.Answers(run[k].task.init, rounds[k].reply) && StopCause(run[k].task.init, rounds[k].reply)
  {
    RunKeeps(run, rounds, k);
    assert Linked(run, rounds, k);
    var t := run[k].task;
    if OutNet(t) {
      HearNet(t, rounds[k].reply, rounds[k].time);
      AskNet(Net.OnReply(t, rounds[k].reply, rounds[k].time));
    }
  }
}
