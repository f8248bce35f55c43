/** Runs of `SlaveInitTask`: the alternation of requests and replies never meets a failing `unwrap`, never
    stalls, and takes the phases in order. */
module SlaveInitRuns {
  import opened Bytes
  import opened Commands
  import opened Tasks
  import Al = AlTransfer
  import Sii = SiiRead
  import opened SlaveInit

  // ------------------------------------------------------------------ phases

  const STATION_PHASE := 33
  const PDI_PHASE := 34
  const LAST_PHASE := 39

  /** The place of a state in the sequence of phases. */
  function Phase(s: State): nat {
    match s
    case SetLoopPort => 0
    case RequestInitState(_) => 1
    case ResetErrorCount => 2
    case SetWatchDogDivider => 3
    case DisableDlWatchDog => 4
    case DisableSmWatchDog => 5
    case CheckDlStatus => 6
    case CheckDlInfo => 7
    case ClearFmmu(n) => 8 + n
    case ClearSm(n) => 12 + n
    case Get(word, _) => 17 + word.Index()
    case SetSmControl(n) => 25 + 2 * n
    case SetSmActivation(n) => 26 + 2 * n
    case SetStationAddress => STATION_PHASE
    case CheckPdiControl => PDI_PHASE
    case ClearDcActivation => 35
    case ClearCyclicOperationStartTime => 36
    case ClearSync0CycleTime => 37
    case ClearSync1CycleTime => 38
    case _ => LAST_PHASE
  }

  predicate InRange(s: State) {
    match s
    case ClearFmmu(n) => n <= 3
    case ClearSm(n) => n <= 4
    case SetSmControl(n) => n <= 3
    case SetSmActivation(n) => n <= 3
    case _ => true
  }

  // ------------------------------------------------------------------ the invariant

  predicate InnerOk(inner: Inner) { inner.SiiTask? ==> |inner.sii.data| == Sii.DATA_SIZE }

  /** The AL sub-task works for this slave, towards Init. */
  predicate AlOk(t: Task) {
    && t.inner.AlTask? && Al.Busy(t.inner.al.state)
    && t.inner.al.slave == t.Slave() && t.inner.al.target == Al.Init
  }

  predicate SiiOk(t: Task) { t.inner.SiiTask? && Sii.Busy(t.inner.sii.state) }

  /** Between requests. */
  predicate Ready(t: Task) {
    && InnerOk(t.inner) && InRange(t.state) && t.position < 0xFFFF
    && (Busy(t.state) || t.state.Complete? ==> t.info.Some? && |t.info.value.sm| == 4)
    && ((Busy(t.state) || t.state.Complete?) && Phase(t.state) > STATION_PHASE ==> t.info.value.address == t.position + 1)
    && (t.state.RequestInitState? && !t.state.first ==> AlOk(t))
    && (t.state.Get? && (t.state.word != VenderId || !t.state.first) ==> t.inner.SiiTask?)
    && (t.state.Get? && !t.state.first ==> SiiOk(t))
  }

  /** With a request in the socket. The request of a sub-task is the one this task remembers. */
  predicate Out(t: Task) {
    && Busy(t.state) && CanAsk(t) && CanHear(t)
    && InnerOk(t.inner) && InRange(t.state) && t.position < 0xFFFF
    && t.info.Some? && |t.info.value.sm| == 4
    && (Phase(t.state) >= STATION_PHASE ==> t.info.value.address == t.position + 1)
    && (t.state.RequestInitState? ==> AlOk(t) && t.inner.al.command == t.command == Al.CommandOf(t.inner.al))
    && (t.state.Get? ==> SiiOk(t) && t.inner.sii.command == t.command == Sii.CommandOf(t.inner.sii))
    && (!t.state.RequestInitState? && !t.state.Get? ==> t.command == OwnCommand(t))
  }

  /** No `unwrap` of `next_pdu` fails, and a busy task always has a request. */
  lemma AskSucceeds(t: Task)
    requires Ready(t)
    ensures CanAsk(t) && (Asked(t).1 <==> Busy(t.state))
    ensures Busy(t.state) ==> Out(Asked(t).0)
    ensures !Busy(t.state) ==> Asked(t).0 == t
    ensures Asked(t).0.state == t.state && Asked(t).0.position == t.position
  {
    if t.state.RequestInitState? {
      assert Al.Busy(AlFor(t, t.state.first).state);
    } else if t.state.Get? {
      assert Sii.Busy(SiiFor(t, t.state.word, t.state.first).state);
    }
  }

  /** `s` is the phase after that of `t`, or the same one while a sub-task is at work. A slave without
      distributed clocks skips the last four phases. */
  predicate Follows(t: Task, s: State) {
    || Phase(s) == Phase(t.state) + 1
    || (Phase(s) == Phase(t.state) && (t.state.RequestInitState? || t.state.Get?))
    || (t.state.CheckPdiControl? && t.info.Some? && !t.info.value.dc && s.Complete?)
  }

  predicate Good(t: Task, reply: Reply) { reply.wkc == 1 && Matches(t.command, reply.command) }

  /** The three ways a reply ends the program: a slave without the features needed, mailboxes for which the
      process-data RAM does not compute, and an AL error whose code has no name. */
  predicate StopCause(t: Task, reply: Reply)
    requires Out(t) && Answers(t, reply)
  {
    Good(t, reply) &&
    match t.state
    case CheckDlInfo => Unsuitable(reply.data)
    case Get(word, _) => word == TxOffset && t.inner.sii.state.Read? && Learn(t.info.value, TxOffset, reply.data).None?
    case RequestInitState(_) => t.inner.al.state.Poll? && Al.Unknown(t.inner.al, reply.data)
    case _ => false
  }

  /** Every other `unwrap` of `recieve_and_process` succeeds; the completion of the AL transfer in another state than
      Init, marked unreachable, does not occur. */
  lemma HearSucceeds(t: Task, reply: Reply, time: nat)
    requires Out(t) && Answers(t, reply)
    ensures var r := OnReply(t, reply, time);
      && Ready(r) && r.position == t.position && !r.state.Idle?
      && (r.state.Stopped? <==> StopCause(t, reply))
      && (Busy(r.state) || r.state.Complete? ==> Good(t, reply) && Follows(t, r.state))
  {
    if Good(t, reply) {
      if t.state.RequestInitState? {
        AlSucceeds(t, reply, time);
      } else if t.state.Get? {
        SiiSucceeds(t, reply, time);
      } else if ReadsRegister(t.state) {
        RegistersSucceed(t, reply, time);
      } else if Phase(t.state) <= 17 {
        EarlySucceeds(t, reply, time);
      } else {
        LateSucceeds(t, reply, time);
      }
    }
  }

  lemma RegistersSucceed(t: Task, reply: Reply, time: nat)
    requires Out(t) && Answers(t, reply) && !t.state.RequestInitState? && !t.state.Get? && Good(t, reply)
    requires ReadsRegister(t.state)
    ensures var r := OnReply(t, reply, time);
      && Ready(r) && r.position == t.position && !r.state.Idle?
      && (r.state.Stopped? <==> StopCause(t, reply))
      && (Busy(r.state) || r.state.Complete? ==> Follows(t, r.state))
  {
  }

  lemma EarlySucceeds(t: Task, reply: Reply, time: nat)
    requires Out(t) && Answers(t, reply) && !t.state.RequestInitState? && !t.state.Get? && Good(t, reply)
    requires Phase(t.state) <= 17 && !ReadsRegister(t.state)
    ensures var r := OnReply(t, reply, time);
      && Ready(r) && r.position == t.position && !r.state.Idle?
      && (r.state.Stopped? <==> StopCause(t, reply))
      && (Busy(r.state) || r.state.Complete? ==> Follows(t, r.state))
  {
  }

  lemma LateSucceeds(t: Task, reply: Reply, time: nat)
    requires Out(t) && Answers(t, reply) && !t.state.RequestInitState? && !t.state.Get? && Good(t, reply)
    requires Phase(t.state) > 17 && !ReadsRegister(t.state)
    ensures var r := OnReply(t, reply, time);
      && Ready(r) && r.position == t.position && !r.state.Idle?
      && (r.state.Stopped? <==> StopCause(t, reply))
      && (Busy(r.state) || r.state.Complete? ==> Follows(t, r.state))
  {
  }

  lemma AlSucceeds(t: Task, reply: Reply, time: nat)
    requires Out(t) && Answers(t, reply) && t.state.RequestInitState? && Good(t, reply)
    ensures var r := OnReply(t, reply, time);
      && Ready(r) && r.position == t.position && (r.state.Stopped? <==> StopCause(t, reply))
      && (r.state == ResetErrorCount || r.state == RequestInitState(false) || r.state.Error? || r.state.Stopped?)
  {
    var al := Al.OnReply(t.inner.al, reply, time);
    assert al.state.Complete? ==> al.current == Al.Init;
  }

  lemma SiiSucceeds(t: Task, reply: Reply, time: nat)
    requires Out(t) && Answers(t, reply) && t.state.Get? && Good(t, reply)
    ensures var r := OnReply(t, reply, time);
      && Ready(r) && r.position == t.position && (r.state.Stopped? <==> StopCause(t, reply))
      && (r.state == NextWord(t.state.word) || r.state == Get(t.state.word, false) || r.state.Error? || r.state.Stopped?)
  {
    var sii := Sii.OnReply(t.inner.sii, reply, time);
    if sii.state.Complete? {
      LearnKeeps(t.info.value, t.state.word, sii.data);
    }
  }

  lemma LearnKeeps(info: Info, word: Word, data: seq<byte>)
    requires |data| == Sii.DATA_SIZE && |info.sm| == 4
    ensures var r := Learn(info, word, data);
      (r.None? ==> word == TxOffset) && (r.Some? ==> |r.value.sm| == 4 && r.value.address == info.address)
  {
  }

  /** What each error says: the working counter of a request nobody took, a reply to another request, an EEPROM the slave
      could not load, a command error of its interface, and a refused state change with state and code. */
  lemma ErrorsReported(t: Task, reply: Reply, time: nat)
    requires Out(t) && Answers(t, reply)
    ensures var s, data := OnReply(t, reply, time).state, reply.data;
      if reply.wkc != 1 then s == Error(UnexpectedWkc(1, reply.wkc))
      else if reply.command.ctype != t.command.ctype || reply.command.ado != t.command.ado then s == Error(UnexpectedCommand)
      else
        && (t.state.CheckDlStatus? && !Bit(data[0], 0) ==> s == Error(TaskSpecific(FailedToLoadEeprom)))
        && (t.state.Get? && t.inner.sii.state.Wait? && Bit(data[1], 5) ==> s == Error(TaskSpecific(SiiFailed(Sii.CommandError))))
        && (t.state.RequestInitState? && Refused(t.inner.al, data) ==>
              s == Error(TaskSpecific(AlStateTransition(Al.AlStatusCode(Al.StatusState(data[0]), Al.StatusCode(data))))))
  {
  }

  /** A poll shows an error in another state than Init, with a code that has a name. */
  predicate Refused(al: Al.Task, data: seq<byte>) {
    && al.state.Poll? && |data| == Al.STATUS_SIZE && Al.StatusState(data[0]) != Al.Init
    && Bit(data[0], 4) && Al.Known(Al.StatusCode(data))
  }

  // ------------------------------------------------------------------ runs

  predicate Live(t: Task) { Busy(t.state) ==> Out(t) }

  /** One round: the reply, then the next request. */
  function Step(t: Task, round: Round): (r: Task)
    requires Live(t) && CanAsk(t) && Answers(t, round.reply)
    ensures Live(r) && CanAsk(r) && r.position == t.position
  {
    if !Busy(t.state) then t
    else
      HearSucceeds(t, round.reply, round.time);
      var heard := OnReply(t, round.reply, round.time);
      AskSucceeds(heard);
      Asked(heard).0
  }

  /** Only an answered request leads on, and always to the next phase. */
  lemma PhaseAdvances(t: Task, round: Round)
    requires Out(t) && Answers(t, round.reply)
    ensures var r := Step(t, round); Busy(r.state) || r.state.Complete? ==> Good(t, round.reply) && Follows(t, r.state)
  {
    HearSucceeds(t, round.reply, round.time);
    AskSucceeds(OnReply(t, round.reply, round.time));
  }

  /** A run of the task for the slave at `position`. */
  predicate IsRun(run: seq<Task>, rounds: seq<Round>, position: u16) {
    && |run| == |rounds| + 1
    && run[0].state.SetLoopPort? && run[0].position == position
    && (forall k :: 0 <= k < |run| ==> Live(run[k]) && CanAsk(run[k]))
    && (forall k :: 0 <= k < |rounds| ==> Linked(run, rounds, k))
  }

  predicate Linked(run: seq<Task>, rounds: seq<Round>, k: nat)
    requires k + 1 < |run| && k < |rounds| && Live(run[k]) && CanAsk(run[k])
  {
    Answers(run[k], rounds[k].reply) && run[k + 1] == Step(run[k], rounds[k])
  }

  predicate Passed(run: seq<Task>, rounds: seq<Round>, j: nat, p: nat)
    requires j < |rounds| < |run|
  {
    Phase(run[j].state) == p && Out(run[j]) && Good(run[j], rounds[j].reply)
  }

  /** To be in a phase, every phase before it was answered by the slave. */
  lemma {:induction false} VisitsEvery(run: seq<Task>, rounds: seq<Round>, position: u16, k: nat, p: nat)
    requires IsRun(run, rounds, position) && k < |run| && (Busy(run[k].state) || run[k].state.Complete?)
    requires p <= PDI_PHASE && p < Phase(run[k].state)
    ensures exists j :: 0 <= j < k && Passed(run, rounds, j, p)
  {
    assert k > 0;
    assert Linked(run, rounds, k - 1);
    if Busy(run[k - 1].state) {
      PhaseAdvances(run[k - 1], rounds[k - 1]);
      if p < Phase(run[k - 1].state) {
        VisitsEvery(run, rounds, position, k - 1, p);
      } else {
        assert Passed(run, rounds, k - 1, p);
      }
    } else {
      VisitsEvery(run, rounds, position, k - 1, p);
    }
  }

  lemma {:induction false} PositionKept(run: seq<Task>, rounds: seq<Round>, position: u16, k: nat)
    requires IsRun(run, rounds, position) && k < |run|
    ensures run[k].position == position
  {
    if k > 0 {
      PositionKept(run, rounds, position, k - 1);
      assert Linked(run, rounds, k - 1);
    }
  }

  /** A completed run wrote station address `position + 1` to the slave, which took it. */
  lemma CompleteWroteAddress(run: seq<Task>, rounds: seq<Round>, position: u16, k: nat)
    requires IsRun(run, rounds, position) && k < |run| && run[k].state.Complete?
    ensures exists j :: 0 <= j < k && Passed(run, rounds, j, STATION_PHASE) && WritesAddress(run[j], position)
  {
    VisitsEvery(run, rounds, position, k, STATION_PHASE);
    var j :| 0 <= j < k && Passed(run, rounds, j, STATION_PHASE);
    PositionKept(run, rounds, position, j);
  }

  predicate WritesAddress(t: Task, position: u16) {
    && position < 0xFFFF && CanAsk(t) && t.command == NewWrite(Single(SlavePosition(position)), STATION_ADDRESS)
    && DataOf(t) == [Low(position + 1), High(position + 1), 0, 0]
  }

  /** No other phase writes the station address register. */
  lemma OthersLeaveStation(t: Task)
    requires Out(t) && t.command.ctype == APWR && t.command.ado == STATION_ADDRESS
    ensures t.state.SetStationAddress?
  {
    match t.state {
      case RequestInitState(_) =>
      case Get(_, _) =>
      case _ =>
    }
  }

  // ------------------------------------------------------------------ the SyncManagers

  const SM_PHASE := 25

  /** Once all SII words are read, the SyncManager table of the slave stays as it is. */
  lemma StepKeepsSm(t: Task, round: Round)
    requires Out(t) && Answers(t, round.reply) && Phase(t.state) >= SM_PHASE
    ensures var r := Step(t, round);
      Busy(r.state) || r.state.Complete? ==>
        Phase(r.state) >= SM_PHASE && r.info.Some? && r.info.value.sm == t.info.value.sm
  {
    PhaseAdvances(t, round);
    var heard := OnReply(t, round.reply, round.time);
    HearSucceeds(t, round.reply, round.time);
    AskSucceeds(heard);
  }

  lemma {:induction false} SmKept(run: seq<Task>, rounds: seq<Round>, position: u16, j: nat, k: nat)
    requires IsRun(run, rounds, position) && j <= k < |run| && Out(run[j]) && Phase(run[j].state) >= SM_PHASE
    requires Busy(run[k].state) || run[k].state.Complete?
    ensures Phase(run[k].state) >= SM_PHASE && run[k].info.Some? && run[k].info.value.sm == run[j].info.value.sm
  {
    if j < k {
      if !Busy(run[k - 1].state) { RestStays(run, rounds, position, k - 1); }
      SmKept(run, rounds, position, j, k - 1);
      if Busy(run[k - 1].state) { SmLink(run, rounds, position, k - 1); }
    }
  }

  /** A task that is not busy stays as it is. */
  lemma RestStays(run: seq<Task>, rounds: seq<Round>, position: u16, k: nat)
    requires IsRun(run, rounds, position) && k < |rounds| && !Busy(run[k].state)
    ensures run[k + 1] == run[k]
  {
    assert Linked(run, rounds, k);
  }

  lemma SmLink(run: seq<Task>, rounds: seq<Round>, position: u16, k: nat)
    requires IsRun(run, rounds, position) && k < |rounds| && Busy(run[k].state) && Phase(run[k].state) >= SM_PHASE
    requires Busy(run[k + 1].state) || run[k + 1].state.Complete?
    ensures Phase(run[k + 1].state) >= SM_PHASE && run[k].info.Some? && run[k + 1].info.Some?
    ensures run[k + 1].info.value.sm == run[k].info.value.sm
  {
    assert Linked(run, rounds, k);
    StepKeepsSm(run[k], rounds[k]);
  }

  /** The control and activation registers of SyncManager `n` describe `sm`: start and length of a mailbox, with the
      direction of its kind, and enabled; nothing otherwise. */
  predicate DescribesSm(control: seq<byte>, activation: seq<byte>, sm: Option<SmType>) {
    && |control| == 5 && |activation| == 1
    && if IsMailbox(sm) then
         && Bytes.Word(control[0], control[1]) == sm.value.sm.start && Bytes.Word(control[2], control[3]) == sm.value.sm.size
         && (Bit(control[4], 2) <==> sm.value.MailboxRx?) && Bit(control[4], 1) && !Bit(control[4], 0) && Bit(control[4], 5)
         && activation == [1]
       else AllZero(control) && activation == [0]
  }

  lemma ControlDescribes(sm: Option<SmType>)
    ensures DescribesSm(ControlBytes(sm), [if IsMailbox(sm) then 1 else 0], sm)
  {
    if IsMailbox(sm) {
      WordOfHalves(sm.value.sm.start);
      WordOfHalves(sm.value.sm.size);
      assert Bit(0x26, 0) == false && Bit(0x26, 1) && Bit(0x26, 2) && Bit(0x26, 5);
      assert Bit(0x22, 0) == false && Bit(0x22, 1) && !Bit(0x22, 2) && Bit(0x22, 5);
    }
  }

  predicate SmWritten(run: seq<Task>, rounds: seq<Round>, i: nat, j: nat, position: u16, n: nat, sm: Option<SmType>)
    requires i < |rounds| < |run| && j < |rounds| && n < 4
  {
    && CanAsk(run[i]) && Good(run[i], rounds[i].reply)
    && run[i].command == NewWrite(Single(SlavePosition(position)), 0x0800 + 8 * n)
    && CanAsk(run[j]) && Good(run[j], rounds[j].reply)
    && run[j].command == NewWrite(Single(SlavePosition(position)), 0x0806 + 8 * n)
    && DescribesSm(DataOf(run[i]), DataOf(run[j]), sm)
  }

  /** The information handed over by a completed run describes the slave: for each of its four SyncManagers the
      slave took the control and activation registers that say the same. */
  lemma CompleteWroteSm(run: seq<Task>, rounds: seq<Round>, position: u16, k: nat, n: nat)
    requires IsRun(run, rounds, position) && k < |run| && run[k].state.Complete? && n < 4
    ensures k <= |rounds| && run[k].info.Some? && |run[k].info.value.sm| == 4
    ensures exists i, j :: 0 <= i < k && 0 <= j < k && SmWritten(run, rounds, i, j, position, n, run[k].info.value.sm[n])
  {
    VisitsEvery(run, rounds, position, k, SM_PHASE + 2 * n);
    var i :| 0 <= i < k && Passed(run, rounds, i, SM_PHASE + 2 * n);
    VisitsEvery(run, rounds, position, k, SM_PHASE + 2 * n + 1);
    var j :| 0 <= j < k && Passed(run, rounds, j, SM_PHASE + 2 * n + 1);
    SmKept(run, rounds, position, i, k);
    SmKept(run, rounds, position, j, k);
    PositionKept(run, rounds, position, i);
    PositionKept(run, rounds, position, j);
    SmPhases(run[i], run[j], n);
    ControlDescribes(run[k].info.value.sm[n]);
    assert SmWritten(run, rounds, i, j, position, n, run[k].info.value.sm[n]);
  }

  lemma SmPhases(t: Task, u: Task, n: nat)
    requires n < 4 && Out(t) && Phase(t.state) == SM_PHASE + 2 * n && Out(u) && Phase(u.state) == SM_PHASE + 2 * n + 1
    ensures t.state == SetSmControl(n) && DataOf(t) == ControlBytes(t.info.value.sm[n])
    ensures t.command == NewWrite(t.Slave(), 0x0800 + 8 * n)
    ensures u.state == SetSmActivation(n) && DataOf(u) == [if IsMailbox(u.info.value.sm[n]) then 1 else 0]
    ensures u.command == NewWrite(u.Slave(), 0x0806 + 8 * n)
  {
  }
}
