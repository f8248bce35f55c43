/** `SiiReader`: reads eight bytes of the slave information interface. */
module SiiRead {
  import opened Bytes
  import opened Commands
  import opened Tasks

  const SII_CONTROL := 0x0502
  const SII_ADDRESS := 0x0504
  const SII_DATA := 0x0508
  const DATA_SIZE := 8
  const TIMEOUT_TICKS := 100_000

  datatype SiiError = PermissionDenied | AddressSizeOver | SiiBusy | CheckSumError | DeviceInfoError | CommandError

  datatype State =
    | Error(error: TaskError<SiiError>) | Idle | Init | SetOwnership | CheckOwnership | SetAddress
    | SetReadOperation | Wait | Read | Complete

  datatype Task = Task(timerStart: nat, command: Command, slave: SlaveAddress, state: State, address: u16, readSize: nat, data: seq<byte>)

  const NEW := Task(0, DEFAULT_COMMAND, SlavePosition(0), Idle, 0, 0, Zeros(DATA_SIZE))

  predicate Busy(s: State) { !(s.Error? || s.Idle? || s.Complete?) }

  function Start(t: Task, slave: SlaveAddress, address: u16): Task {
    t.(slave := slave, address := address, state := Init, command := DEFAULT_COMMAND)
  }

  function CommandOf(t: Task): Command {
    match t.state
    case Init => NewRead(Single(t.slave), SII_CONTROL)
    case SetOwnership => NewWrite(Single(t.slave), SII_ACCESS)
    case CheckOwnership => NewRead(Single(t.slave), SII_ACCESS)
    case SetAddress => NewWrite(Single(t.slave), SII_ADDRESS)
    case SetReadOperation => NewWrite(Single(t.slave), SII_CONTROL)
    case Wait => NewRead(Single(t.slave), SII_CONTROL)
    case Read => NewRead(Single(t.slave), SII_DATA)
    case _ => t.command
  }

  /** The bytes of the PDU a busy reader asks for. */
  function DataOf(t: Task): (d: seq<byte>)
    ensures |d| <= DATA_SIZE
  {
    match t.state
    case SetOwnership => [2, 0]
    case SetAddress => DWordBytes(t.address)
    case SetReadOperation => [0, 1]
    case Read => Zeros(DATA_SIZE)
    case _ => Zeros(2)
  }

  function Asked(t: Task): Task { t.(command := CommandOf(t)) }

  predicate TimedOut(t: Task, time: nat) {
    t.timerStart < time && TIMEOUT_TICKS < time - t.timerStart
  }

  /** The checks on the control register at the first reply, each overwriting the one before. */
  function ControlChecked(t: Task, data: seq<byte>): Task
    requires |data| == 2
  {
    var t1 := if Bit(data[1], 3) then t.(state := Error(TaskSpecific(CheckSumError))) else t;
    var t2 := if Bit(data[1], 4) then t1.(state := Error(TaskSpecific(DeviceInfoError))) else t1;
    var t3 := if !Bit(data[0], 7) && t.address >= 256 then t2.(state := Error(TaskSpecific(AddressSizeOver))) else t2;
    if Bit(data[1], 7) || Bit(data[1], 0) || Bit(data[1], 1) || Bit(data[1], 2) then t3.(state := Error(TaskSpecific(SiiBusy)))
    else t3
  }

  /** The check that the master has got the ownership. */
  function AccessChecked(t: Task, data: seq<byte>): Task
    requires |data| == 2
  {
    if Bit(data[0], 0) || Bit(data[1], 0) then t.(state := Error(TaskSpecific(PermissionDenied))) else t
  }

  /** `recieve_and_process`. The states the two checks set are replaced at once, so of the reader's own errors only
      the command error of a reply to Wait is ever reported. */
  function OnReply(t: Task, reply: Reply, time: nat): (r: Task)
    requires Busy(t.state) ==> |reply.data| == |DataOf(t)|
    ensures r.state.Error? && r.state.error.TaskSpecific? && !t.state.Error? ==> r.state.error.error == CommandError
    ensures |t.data| == DATA_SIZE ==> |r.data| == DATA_SIZE
  {
    if reply.wkc != 1 then t.(state := Error(UnexpectedWkc(1, reply.wkc)))
    else if !Matches(t.command, reply.command) then t.(state := Error(UnexpectedCommand))
    else
      match t.state
      case Init => ControlChecked(t, reply.data).(readSize := if Bit(reply.data[0], 6) then 8 else 4, state := SetOwnership)
      case SetOwnership => t.(state := CheckOwnership)
      case CheckOwnership => AccessChecked(t, reply.data).(state := SetAddress)
      case SetAddress => t.(state := SetReadOperation)
      case SetReadOperation => t.(state := Wait, timerStart := time)
      case Wait =>
        if Bit(reply.data[1], 5) then t.(state := Error(TaskSpecific(CommandError)))
        else if !Bit(reply.data[1], 7) && !Bit(reply.data[1], 0) then t.(state := Read)
        else if TimedOut(t, time) then t.(state := Error(Timeout))
        else t
      case Read => t.(data := reply.data, state := Complete)
      case _ => t
  }

  predicate Good(t: Task, reply: Reply) { reply.wkc == 1 && Matches(t.command, reply.command) }

  /** While the interface works the reader asks again, for 100000 units since the read operation was answered; a command
      error ends it, and an interface that is done is read. */
  lemma WaitDecides(t: Task, reply: Reply, time: nat)
    requires t.state.Wait? && Good(t, reply) && |reply.data| == 2
    ensures var busy := Bit(reply.data[1], 7) || Bit(reply.data[1], 0);
      OnReply(t, reply, time).state ==
        if Bit(reply.data[1], 5) then Error(TaskSpecific(CommandError))
        else if !busy then Read
        else if time > t.timerStart + 100_000 then Error(Timeout)
        else Wait
    ensures forall s: Task :: s.state.SetReadOperation? && Good(s, reply) ==> OnReply(s, reply, time).timerStart == time
  {
  }

  /** What gets lost: whenever one of the checks finds an error, and only then, the reader goes on where its code says
      it should have stopped. */
  lemma ErrorsLost(t: Task, reply: Reply, time: nat)
    requires (t.state.Init? || t.state.CheckOwnership?) && Good(t, reply) && |reply.data| == |DataOf(t)|
    ensures var found := if t.state.Init? then ControlChecked(t, reply.data) else AccessChecked(t, reply.data);
      && Busy(OnReply(t, reply, time).state)
      && (found.state.Error? <==>
            if t.state.Init? then
              Bit(reply.data[1], 0) || Bit(reply.data[1], 1) || Bit(reply.data[1], 2) || Bit(reply.data[1], 3)
              || Bit(reply.data[1], 4) || Bit(reply.data[1], 7) || (!Bit(reply.data[0], 7) && t.address >= 256)
            else Bit(reply.data[0], 0) || Bit(reply.data[1], 0))
  {
  }

  /** A checksum error in the first reply, and the reader asks for the ownership. */
  lemma ChecksumErrorIgnored()
    ensures var t := Asked(Start(NEW, SlavePosition(0), 8)); var reply := Reply(t.command, [0, 8], 1);
      && ControlChecked(t, reply.data).state == Error(TaskSpecific(CheckSumError))
      && OnReply(t, reply, 0).state == SetOwnership
  {
    assert Bit(8, 3) && !Bit(8, 4) && !Bit(8, 7) && !Bit(8, 0) && !Bit(8, 1) && !Bit(8, 2);
  }
}
