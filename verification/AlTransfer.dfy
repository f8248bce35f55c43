/** `AlStateTransferTask`: bring one slave, or all of them by broadcast, into a target state. */
module AlTransfer {
  import opened Bytes
  import opened Commands
  import opened Tasks

  const AL_CONTROL := 0x0120
  const AL_STATUS := 0x0130
  const CONTROL_SIZE := 2
  const STATUS_SIZE := 6
  const NANOS_PER_TICK := 1_000_000_000

  datatype AlState = Init | PreOperational | Bootstrap | SafeOperational | Operational | InvalidOrMixed {
    function Code(): byte {
      match this
      case Init => 1 case PreOperational => 2 case Bootstrap => 3
      case SafeOperational => 4 case Operational => 8 case InvalidOrMixed => 9
    }

    /** `AlState::from`. */
    static function From(v: nat): (s: AlState)
      ensures s == InvalidOrMixed <==> v !in {1, 2, 3, 4, 8}
      ensures s != InvalidOrMixed ==> s.Code() == v
    {
      if v == 1 then Init else if v == 2 then PreOperational else if v == 3 then Bootstrap
      else if v == 4 then SafeOperational else if v == 8 then Operational else InvalidOrMixed
    }
  }

  /** The parts of the AL status register. */
  function StatusState(status: byte): AlState { AlState.From(status % 16) }

  predicate ChangeError(status: byte) { Bit(status, 4) }

  datatype TransferError = AlStatusCode(state: AlState, code: u16)

  /** The status codes that have a name; converting any other one ends the program. */
  predicate Known(code: u16) {
    || code <= 4 || code == 6 || code == 7 || code == 0x0E || 0x11 <= code <= 0x15 || 0x17 <= code <= 0x2E
    || 0x30 <= code <= 0x37 || 0x41 <= code <= 0x45 || 0x4F <= code <= 0x52 || code == 0x60 || code == 0x61
    || code == 0x70 || 0x80 <= code <= 0x83 || code == 0xF0 || code == 0xF1
  }

  /** The code of a status of six bytes. */
  function StatusCode(data: seq<byte>): u16
    requires |data| == STATUS_SIZE
  {
    Word(data[4], data[5])
  }

  /** `Stopped` is the end of the program on an unknown status code. */
  datatype State =
    | Error(error: TaskError<TransferError>) | Stopped | Idle | Read | ResetError(from: AlState) | OffAck(from: AlState)
    | ResetSiiOwnership | Request | Poll | Complete

  datatype Task = Task(timerStart: nat, state: State, slave: TargetSlave, target: AlState, command: Command, current: AlState, timeoutMs: nat)

  predicate Busy(s: State) { !(s.Error? || s.Stopped? || s.Idle? || s.Complete?) }

  // ------------------------------------------------------------------ requests

  function TimeoutFor(current: AlState, target: AlState): nat {
    if (current == PreOperational && target == SafeOperational) || target == Operational then 10000
    else if target == PreOperational || target == Bootstrap then 3000
    else if target == Init then 5000
    else if target == SafeOperational then 200
    else 10000
  }

  function CommandOf(t: Task): Command {
    match t.state
    case Read => NewRead(t.slave, AL_STATUS)
    case Poll => NewRead(t.slave, AL_STATUS)
    case ResetSiiOwnership => NewWrite(t.slave, SII_ACCESS)
    case ResetError(_) => NewWrite(t.slave, AL_CONTROL)
    case OffAck(_) => NewWrite(t.slave, AL_CONTROL)
    case Request => NewWrite(t.slave, AL_CONTROL)
    case _ => t.command
  }

  /** The bytes of the PDU a busy task asks for. */
  function DataOf(t: Task): seq<byte> {
    match t.state
    case ResetError(from) => [from.Code() + 16, 0]
    case OffAck(from) => [from.Code(), 0]
    case ResetSiiOwnership => [1, 0]
    case Request => [t.target.Code(), 0]
    case _ => Zeros(STATUS_SIZE)
  }

  /** The task after `next_pdu`. */
  function Asked(t: Task): Task {
    t.(command := CommandOf(t), timeoutMs := if t.state.Request? then TimeoutFor(t.current, t.target) else t.timeoutMs)
  }

  // ------------------------------------------------------------------ replies

  function ExpectedWkc(slave: TargetSlave): u16 {
    match slave
    case Single(_) => 1
    case All(n) => n
  }

  predicate TimedOut(t: Task, time: nat) {
    t.timerStart < time && t.timeoutMs * NANOS_PER_TICK < time - t.timerStart
  }

  /** States that look at the status bytes. */
  predicate Reads(s: State) { s.Read? || s.Poll? }

  function Reacted(t: Task, reply: Reply, time: nat): State
    requires Reads(t.state) ==> |reply.data| == STATUS_SIZE
  {
    if reply.wkc != ExpectedWkc(t.slave) then Error(UnexpectedWkc(ExpectedWkc(t.slave), reply.wkc))
    else if !Matches(t.command, reply.command) then Error(UnexpectedCommand)
    else
      match t.state
      case Read =>
        var al := StatusState(reply.data[0]);
        if al == t.target then Complete
        else if ChangeError(reply.data[0]) then ResetError(if al == InvalidOrMixed then Init else al)
        else ResetSiiOwnership
      case ResetError(from) => OffAck(from)
      case OffAck(_) => Read
      case ResetSiiOwnership => Request
      case Request => Poll
      case Poll =>
        var al := StatusState(reply.data[0]);
        if al == t.target then Complete
        else if ChangeError(reply.data[0]) then
          if Known(StatusCode(reply.data)) then Error(TaskSpecific(AlStatusCode(al, StatusCode(reply.data)))) else Stopped
        else if TimedOut(t, time) then Error(Timeout)
        else Poll
      case s => s
  }

  /** `recieve_and_process`. */
  function OnReply(t: Task, reply: Reply, time: nat): Task
    requires Reads(t.state) ==> |reply.data| == STATUS_SIZE
  {
    var ours := reply.wkc == ExpectedWkc(t.slave) && Matches(t.command, reply.command);
    t.(state := Reacted(t, reply, time),
       current := if ours && Reads(t.state) then StatusState(reply.data[0]) else t.current,
       timerStart := if ours && t.state.Request? then time else t.timerStart)
  }

  class AlStateTransferTask {
    var timerStart: nat
    var state: State
    var slave: TargetSlave
    var target: AlState
    var command: Command
    var current: AlState
    var timeoutMs: nat

    ghost function View(): Task
      reads this
    {
      Task(timerStart, state, slave, target, command, current, timeoutMs)
    }

    constructor ()
      ensures View() == Task(0, Idle, Single(SlavePosition(0)), Init, DEFAULT_COMMAND, Init, 0)
    {
      timerStart, state, slave, target := 0, Idle, Single(SlavePosition(0)), Init;
      command, current, timeoutMs := DEFAULT_COMMAND, Init, 0;
    }

    method Start(slave: TargetSlave, target: AlState)
      modifies this
      ensures View() == old(View()).(state := Read, slave := slave, target := target, command := DEFAULT_COMMAND)
    {
      this.slave, this.target, state, command := slave, target, Read, DEFAULT_COMMAND;
    }

    /** `next_pdu`: the length of the request, written at the front of the buffer. */
    method NextPdu(buf: array<byte>) returns (length: Option<nat>)
      requires STATUS_SIZE <= buf.Length
      modifies this, buf
      ensures View() == if Busy(old(state)) then Asked(old(View())) else old(View())
      ensures length.Some? <==> Busy(state)
      ensures length.Some? ==> length.value == |DataOf(View())| <= buf.Length && buf[..length.value] == DataOf(View())
      ensures forall k :: STATUS_SIZE <= k < buf.Length ==> buf[k] == old(buf[k])
    {
      match state {
        case Idle => return None;
        case Error(_) => return None;
        case Stopped => return None;
        case Complete => return None;
        case Read =>
          command := NewRead(slave, AL_STATUS);
          FillZero(buf, STATUS_SIZE);
          return Some(STATUS_SIZE);
        case ResetError(from) =>
          command := NewWrite(slave, AL_CONTROL);
          FillZero(buf, STATUS_SIZE);
          buf[0] := from.Code() + 16;
          assert buf[..CONTROL_SIZE] == [from.Code() + 16, 0];
          return Some(CONTROL_SIZE);
        case OffAck(from) =>
          command := NewWrite(slave, AL_CONTROL);
          FillZero(buf, CONTROL_SIZE);
          buf[0] := from.Code();
          assert buf[..CONTROL_SIZE] == [from.Code(), 0];
          return Some(CONTROL_SIZE);
        case ResetSiiOwnership =>
          FillZero(buf, CONTROL_SIZE);
          buf[0] := 1;
          assert buf[..CONTROL_SIZE] == [1, 0];
          command := NewWrite(slave, SII_ACCESS);
          return Some(CONTROL_SIZE);
        case Request =>
          FillZero(buf, CONTROL_SIZE);
          buf[0] := target.Code();
          assert buf[..CONTROL_SIZE] == [target.Code(), 0];
          command := NewWrite(slave, AL_CONTROL);
          timeoutMs := TimeoutFor(current, target);
          return Some(CONTROL_SIZE);
        case Poll =>
          command := NewRead(slave, AL_STATUS);
          FillZero(buf, STATUS_SIZE);
          return Some(STATUS_SIZE);
      }
    }

    method RecieveAndProcess(reply: Reply, time: nat)
      requires Reads(state) ==> |reply.data| == STATUS_SIZE
      modifies this
      ensures View() == OnReply(old(View()), reply, time)
    {
      if !Matches(command, reply.command) { state := Error(UnexpectedCommand); }
      match slave {
        case Single(_) => if reply.wkc != 1 { state := Error(UnexpectedWkc(1, reply.wkc)); }
        case All(n) => if reply.wkc != n { state := Error(UnexpectedWkc(n, reply.wkc)); }
      }
      match state {
        case Idle =>
        case Error(_) =>
        case Stopped =>
        case Complete =>
        case Read =>
          var al := StatusState(reply.data[0]);
          current := al;
          if al == target {
            state := Complete;
          } else if ChangeError(reply.data[0]) {
            state := ResetError(if al == InvalidOrMixed then Init else al);
          } else {
            state := ResetSiiOwnership;
          }
        case ResetError(from) => state := OffAck(from);
        case OffAck(_) => state := Read;
        case ResetSiiOwnership => state := Request;
        case Request =>
          timerStart := time;
          state := Poll;
        case Poll =>
          var al := StatusState(reply.data[0]);
          current := al;
          if target == al {
            state := Complete;
          } else if ChangeError(reply.data[0]) {
            var code := Word(reply.data[4], reply.data[5]);
            state := if Known(code) then Error(TaskSpecific(AlStatusCode(al, code))) else Stopped;
          } else if timerStart < time && timeoutMs * NANOS_PER_TICK < time - timerStart {
            state := Error(Timeout);
          }
      }
    }
  }

  // ------------------------------------------------------------------ runs

  /** A reply is as long as its request. */
  predicate Answers(t: Task, reply: Reply) { Busy(t.state) ==> |reply.data| == |DataOf(t)| }

  function Step(t: Task, round: Round): Task
    requires Answers(t, round.reply)
  {
    if Busy(t.state) then
      var heard := OnReply(t, round.reply, round.time);
      if Busy(heard.state) then Asked(heard) else heard
    else t
  }

  /** A run from `Start`: the task with its request out, before the first reply and after each one. */
  predicate IsRun(run: seq<Task>, rounds: seq<Round>, slave: TargetSlave, target: AlState) {
    && |run| == |rounds| + 1
    && run[0].state.Read? && run[0].command == NewRead(slave, AL_STATUS)
    && run[0].slave == slave && run[0].target == target
    && (forall k :: 0 <= k < |rounds| ==> Linked(run, rounds, k))
  }

  predicate Linked(run: seq<Task>, rounds: seq<Round>, k: nat)
    requires k + 1 < |run| && k < |rounds|
  {
    Answers(run[k], rounds[k].reply) && run[k + 1] == Step(run[k], rounds[k])
  }

  /** The task keeps its goal; its outstanding request is the one of its state. */
  lemma {:induction false} GoalKept(run: seq<Task>, rounds: seq<Round>, slave: TargetSlave, target: AlState, k: nat)
    requires IsRun(run, rounds, slave, target) && k < |run|
    ensures run[k].slave == slave && run[k].target == target
    ensures run[k].command == CommandOf(run[k])
    ensures run[k].state.Complete? ==> run[k].current == target
  {
    if k > 0 {
      GoalKept(run, rounds, slave, target, k - 1);
      assert Linked(run, rounds, k - 1);
    }
  }

  /** Reply `k` answered a status read, by every addressed slave. */
  predicate StatusHeard(run: seq<Task>, rounds: seq<Round>, k: nat)
    requires k < |rounds| < |run|
  {
    && Reads(run[k].state) && |rounds[k].reply.data| == STATUS_SIZE
    && rounds[k].reply.wkc == ExpectedWkc(run[k].slave) && Matches(NewRead(run[k].slave, AL_STATUS), rounds[k].reply.command)
  }

  /** The target state is requested only two requests after an error-free status other than the target, with the
      SII handed to the slave in between. */
  lemma RequestGuarded(run: seq<Task>, rounds: seq<Round>, slave: TargetSlave, target: AlState, k: nat)
    requires IsRun(run, rounds, slave, target) && k < |run| && run[k].state.Request?
    ensures k > 1 && run[k - 2].state.Read? && StatusHeard(run, rounds, k - 2)
    ensures !ChangeError(rounds[k - 2].reply.data[0]) && StatusState(rounds[k - 2].reply.data[0]) != target
    ensures run[k - 1].command == NewWrite(slave, SII_ACCESS) && DataOf(run[k - 1]) == [1, 0]
    ensures rounds[k - 1].reply.wkc == ExpectedWkc(slave)
    ensures run[k].command == NewWrite(slave, AL_CONTROL) && DataOf(run[k]) == [target.Code(), 0]
  {
    GoalKept(run, rounds, slave, target, k);
    assert Linked(run, rounds, k - 1);
    OwnershipGuarded(run, rounds, slave, target, k - 1);
  }

  lemma OwnershipGuarded(run: seq<Task>, rounds: seq<Round>, slave: TargetSlave, target: AlState, k: nat)
    requires IsRun(run, rounds, slave, target) && k < |run| && run[k].state.ResetSiiOwnership?
    ensures k > 0 && run[k - 1].state.Read? && StatusHeard(run, rounds, k - 1)
    ensures !ChangeError(rounds[k - 1].reply.data[0]) && StatusState(rounds[k - 1].reply.data[0]) != target
    ensures run[k].command == NewWrite(slave, SII_ACCESS) && run[k].slave == slave
  {
    GoalKept(run, rounds, slave, target, k);
    GoalKept(run, rounds, slave, target, k - 1);
    assert Linked(run, rounds, k - 1);
  }

  /** An acknowledge is sent only for a status with the error bit, carries that state (Init if it was unreadable),
      and is taken back by the next request. */
  lemma AcknowledgeGuarded(run: seq<Task>, rounds: seq<Round>, slave: TargetSlave, target: AlState, k: nat)
    requires IsRun(run, rounds, slave, target) && k < |run| && run[k].state.ResetError?
    ensures k > 0 && run[k - 1].state.Read? && StatusHeard(run, rounds, k - 1) && ChangeError(rounds[k - 1].reply.data[0])
    ensures run[k].state.from == var al := StatusState(rounds[k - 1].reply.data[0]); if al == InvalidOrMixed then Init else al
    ensures run[k].command == NewWrite(slave, AL_CONTROL) && DataOf(run[k]) == [run[k].state.from.Code() + 16, 0]
    ensures k + 1 < |run| && Busy(run[k + 1].state) ==>
      DataOf(run[k + 1]) == [run[k].state.from.Code(), 0] && run[k + 1].command == NewWrite(slave, AL_CONTROL)
  {
    GoalKept(run, rounds, slave, target, k);
    GoalKept(run, rounds, slave, target, k - 1);
    assert Linked(run, rounds, k - 1);
    if k + 1 < |run| { assert Linked(run, rounds, k); }
  }

  /** After the request the task only polls: the target is requested once in a run. */
  lemma {:induction false} RequestedOnce(run: seq<Task>, rounds: seq<Round>, slave: TargetSlave, target: AlState, j: nat, k: nat)
    requires IsRun(run, rounds, slave, target) && j < k < |run| && run[j].state.Request?
    ensures run[k].state.Poll? || run[k].state.Complete? || run[k].state.Error? || run[k].state.Stopped?
  {
    assert Linked(run, rounds, k - 1);
    if j < k - 1 { RequestedOnce(run, rounds, slave, target, j, k - 1); }
  }

  /** Completion: the last reply was a status of every addressed slave that decodes to the target, which is also
      what the task then reports. */
  lemma CompleteIsTarget(run: seq<Task>, rounds: seq<Round>, slave: TargetSlave, target: AlState, k: nat)
    requires IsRun(run, rounds, slave, target) && k < |rounds| && !run[k].state.Complete? && run[k + 1].state.Complete?
    ensures StatusHeard(run, rounds, k) && StatusState(rounds[k].reply.data[0]) == target == run[k + 1].current
  {
    GoalKept(run, rounds, slave, target, k);
    assert Linked(run, rounds, k);
  }

  /** The time a slave is given, in the unit the comparison is made in: a thousand times the milliseconds meant. */
  function Limit(from: AlState, target: AlState): nat {
    if target == Operational || (from == PreOperational && target == SafeOperational) then 10_000_000_000_000
    else if target == SafeOperational then 200_000_000_000
    else if target == Init then 5_000_000_000_000
    else if target == InvalidOrMixed then 10_000_000_000_000
    else 3_000_000_000_000
  }

  /** While polling, the timer runs since the reply to the one request of the target, and the limit is that for the
      state the slave showed before it. */
  lemma {:induction false} TimedFromRequest(run: seq<Task>, rounds: seq<Round>, slave: TargetSlave, target: AlState, k: nat) returns (j: nat)
    requires IsRun(run, rounds, slave, target) && k < |run| && run[k].state.Poll?
    ensures 2 <= j < k && run[j].state.Request? && StatusHeard(run, rounds, j - 2)
    ensures run[k].timerStart == rounds[j].time
    ensures run[k].timeoutMs * 1_000_000_000 == Limit(StatusState(rounds[j - 2].reply.data[0]), target)
  {
    assert k > 0;
    assert Linked(run, rounds, k - 1);
    if run[k - 1].state.Poll? {
      j := TimedFromRequest(run, rounds, slave, target, k - 1);
    } else {
      j := k - 1;
      RequestGuarded(run, rounds, slave, target, j);
      GoalKept(run, rounds, slave, target, j);
      assert Linked(run, rounds, j - 1) && Linked(run, rounds, j - 2);
    }
  }

  /** A poll that shows neither the target nor an error times out exactly when more than the limit has passed since the
      slaves took the request; until then the task goes on polling. */
  lemma TimesOutIff(run: seq<Task>, rounds: seq<Round>, slave: TargetSlave, target: AlState, k: nat) returns (j: nat)
    requires IsRun(run, rounds, slave, target) && k < |rounds| && run[k].state.Poll? && StatusHeard(run, rounds, k)
    requires StatusState(rounds[k].reply.data[0]) != target && !ChangeError(rounds[k].reply.data[0])
    ensures 2 <= j < k && run[j].state.Request? && StatusHeard(run, rounds, j - 2)
    ensures run[k + 1].state ==
      if rounds[k].time - rounds[j].time > Limit(StatusState(rounds[j - 2].reply.data[0]), target) then Error(Timeout) else Poll
  {
    j := TimedFromRequest(run, rounds, slave, target, k);
    GoalKept(run, rounds, slave, target, k);
    assert Linked(run, rounds, k);
  }

  /** A reply that not every addressed slave took ends the task with both working counters, and one to another
      datagram with an unexpected command. */
  lemma OtherReplyEnds(run: seq<Task>, rounds: seq<Round>, slave: TargetSlave, target: AlState, k: nat)
    requires IsRun(run, rounds, slave, target) && k < |rounds| && Busy(run[k].state)
    ensures var c, r, n := run[k].command, rounds[k].reply, if slave.All? then slave.count else 1;
      && (r.wkc != n ==> run[k + 1].state == Error(UnexpectedWkc(n, r.wkc)))
      && (r.wkc == n && (r.command.ctype != c.ctype || r.command.ado != c.ado) ==> run[k + 1].state == Error(UnexpectedCommand))
  {
    GoalKept(run, rounds, slave, target, k);
    assert Linked(run, rounds, k);
  }

  /** A poll that shows an error in another state than the target, with a code that has a name, ends the task with just
      that state and code. */
  lemma RefusalReported(run: seq<Task>, rounds: seq<Round>, slave: TargetSlave, target: AlState, k: nat)
    requires IsRun(run, rounds, slave, target) && k < |rounds| && run[k].state.Poll? && StatusHeard(run, rounds, k)
    requires var data := rounds[k].reply.data;
      StatusState(data[0]) != target && Bit(data[0], 4) && Known(Word(data[4], data[5]))
    ensures var data := rounds[k].reply.data;
      run[k + 1].state == Error(TaskSpecific(AlStatusCode(StatusState(data[0]), Word(data[4], data[5]))))
  {
    GoalKept(run, rounds, slave, target, k);
    assert Linked(run, rounds, k);
  }

  /** The status of a task ends the program: an error with an unknown code, while waiting for another state. */
  predicate Unknown(t: Task, data: seq<byte>)
    requires |data| == STATUS_SIZE
  {
    t.state.Poll? && StatusState(data[0]) != t.target && ChangeError(data[0]) && !Known(StatusCode(data))
  }

  /** The program ends exactly when a poll is answered with an error status other than the target whose code has
      no name. */
  lemma StopsIff(run: seq<Task>, rounds: seq<Round>, slave: TargetSlave, target: AlState, k: nat)
    requires IsRun(run, rounds, slave, target) && k < |rounds| && !run[k].state.Stopped?
    ensures run[k + 1].state.Stopped? <==>
      StatusHeard(run, rounds, k) && Unknown(run[k], rounds[k].reply.data)
  {
    GoalKept(run, rounds, slave, target, k);
    assert Linked(run, rounds, k);
  }

  /** A slave in PreOp that refuses Init with code 0x0016: status, SII hand-over, request and the first poll. */
  function RefusedRun(s: TargetSlave): seq<Task> {
    [Task(0, Read, s, Init, NewRead(s, AL_STATUS), Init, 0),
     Task(0, ResetSiiOwnership, s, Init, NewWrite(s, SII_ACCESS), PreOperational, 0),
     Task(0, Request, s, Init, NewWrite(s, AL_CONTROL), PreOperational, 5000),
     Task(0, Poll, s, Init, NewRead(s, AL_STATUS), PreOperational, 5000),
     Task(0, Stopped, s, Init, NewRead(s, AL_STATUS), PreOperational, 5000)]
  }

  function RefusedRounds(s: TargetSlave): seq<Round> {
    [Round(Reply(NewRead(s, AL_STATUS), [2, 0, 0, 0, 0, 0], 1), 0),
     Round(Reply(NewWrite(s, SII_ACCESS), [1, 0], 1), 0),
     Round(Reply(NewWrite(s, AL_CONTROL), [1, 0], 1), 0),
     Round(Reply(NewRead(s, AL_STATUS), [0x12, 0, 0, 0, 0x16, 0], 1), 0)]
  }

  lemma RefusedStatus(slave: SlaveAddress, k: nat)
    requires k == 0 || k == 3
    ensures Linked(RefusedRun(Single(slave)), RefusedRounds(Single(slave)), k)
  {
    assert !Bit(2, 4) && Bit(0x12, 4);
  }

  lemma RefusedWrites(slave: SlaveAddress, k: nat)
    requires k == 1 || k == 2
    ensures Linked(RefusedRun(Single(slave)), RefusedRounds(Single(slave)), k)
  {
  }

  /** Code 0x0016 has no name: such a refusal ends the program. */
  lemma UnknownCodeStops(slave: SlaveAddress)
    ensures var s := Single(slave);
      IsRun(RefusedRun(s), RefusedRounds(s), s, Init) && RefusedRun(s)[4].state.Stopped?
  {
    RefusedStatus(slave, 0);
    RefusedWrites(slave, 1);
    RefusedWrites(slave, 2);
    RefusedStatus(slave, 3);
  }

  // ------------------------------------------------------------------ broadcasts

  /** A slave is always in one of the five states. */
  predicate IsStatus(status: byte) { StatusState(status) != InvalidOrMixed }

  predicate Statuses(statuses: seq<byte>) { |statuses| > 0 && forall i :: 0 <= i < |statuses| ==> IsStatus(statuses[i]) }

  predicate AllIn(statuses: seq<byte>, target: AlState) {
    forall i :: 0 <= i < |statuses| ==> StatusState(statuses[i]) == target
  }

  /** The target read back from the OR of all status registers means every slave is there. */
  ghost predicate BroadcastSound(target: AlState) {
    forall statuses: seq<byte> :: Statuses(statuses) && AlState.From(OrAll(statuses, |statuses|) % 16) == target ==> AllIn(statuses, target)
  }

  /** The broadcast check is sound exactly for the four states with a one-bit code. */
  lemma BroadcastSoundIff(target: AlState)
    ensures BroadcastSound(target) <==> target != Bootstrap && target != InvalidOrMixed
  {
    if target == Bootstrap {
      MixedReadsAs(1, 2, 3);
      assert Statuses([1, 2]) && StatusState([1, 2][0]) == Init;
      assert !AllIn([1, 2], target);
    } else if target == InvalidOrMixed {
      MixedReadsAs(1, 8, 9);
      assert Statuses([1, 8]) && StatusState([1, 8][0]) == Init;
      assert !AllIn([1, 8], target);
    } else {
      forall statuses: seq<byte> | Statuses(statuses) && AlState.From(OrAll(statuses, |statuses|) % 16) == target
        ensures AllIn(statuses, target)
      {
        forall i | 0 <= i < |statuses| ensures StatusState(statuses[i]) == target {
          OneBitTarget(statuses, target, i);
        }
      }
    }
  }

  lemma MixedReadsAs(a: byte, b: byte, or: nat)
    requires (a == 1 && b == 2 && or == 3) || (a == 1 && b == 8 && or == 9)
    ensures OrAll([a, b], 2) == or
  {
    var regs: seq<nat> := [a, b];
    assert OrAll(regs, 1) == Or(0, a) == 1;
    assert Or(1, b) == or;
    assert OrAll(regs, 2) == Or(OrAll(regs, 1), regs[1]);
  }

  /** With a one-bit code each slave has at most that bit, and a valid state has at least one. */
  lemma OneBitTarget(statuses: seq<byte>, target: AlState, i: nat)
    requires Statuses(statuses) && i < |statuses| && target != Bootstrap && target != InvalidOrMixed
    requires AlState.From(OrAll(statuses, |statuses|) % 16) == target
    ensures StatusState(statuses[i]) == target
  {
    var or := OrAll(statuses, |statuses|);
    forall b | 0 <= b < 4 ensures Bit(statuses[i], b) ==> Bit(or, b) {
      BitOrAll(statuses, |statuses|, b);
    }
    NibbleBits(statuses[i]);
    NibbleBits(or);
  }

  lemma NibbleBits(x: nat)
    ensures x % 16 == (if Bit(x, 0) then 1 else 0) + (if Bit(x, 1) then 2 else 0) + (if Bit(x, 2) then 4 else 0) + (if Bit(x, 3) then 8 else 0)
  {
    assert Pow2(4) == 16;
    KeepIsMod(x, 4);
    var a := x / 2;
    var b := a / 2;
    var c := b / 2;
    assert Bit(x, 1) == Bit(a, 0) && Bit(x, 2) == Bit(a, 1) == Bit(b, 0) && Bit(x, 3) == Bit(a, 2) == Bit(b, 1) == Bit(c, 0);
    assert Keep(c, 1) == c % 2;
    assert Keep(b, 2) == 2 * Keep(c, 1) + b % 2;
    assert Keep(a, 3) == 2 * Keep(b, 2) + a % 2;
  }
}
