/** `NetworkInitTask`: counts the slaves with a broadcast, then initialises them one after the other. */
module NetworkInit {
  import opened Bytes
  import opened Commands
  import opened Tasks
  import SyncManagers
  import LogicalBits
  import opened ProcessImage
  import opened Networks
  import SlaveInit
  import opened SlaveInitTasks

  datatype NetError = InitFailed(init: SlaveInit.InitError) | TooManySlaves

  /** `Stopped` is a failed assertion in the initialisation of a slave, or one of the two arms marked
      unreachable. */
  datatype State =
    | Idle | Error(error: TaskError<NetError>) | Stopped | Complete | CountSlaves
    | StartInitSlaves(count: u16) | WaitInitSlaves(count: u16)

  datatype Task = Task(
    init: SlaveInit.Task, state: State, command: Command, numSlaves: u16, capacity: nat, slaves: seq<NetSlave>)

  const COUNT_COMMAND := Command(BWR, 0, SlaveInit.DL_CONTROL)

  predicate Busy(s: State) { s.CountSlaves? || s.StartInitSlaves? || s.WaitInitSlaves? }

  predicate Initialising(s: State) { s.StartInitSlaves? || s.WaitInitSlaves? }

  // ------------------------------------------------------------------ requests

  predicate CanAsk(t: Task) { t.state.WaitInitSlaves? ==> SlaveInit.CanAsk(t.init) }

  /** `next_pdu`: the task after it, and whether there is a request. */
  function Asked(t: Task): (Task, bool)
    requires CanAsk(t)
  {
    match t.state
    case CountSlaves => (t.(command := COUNT_COMMAND), true)
    case StartInitSlaves(count) => AskedInit(t, SlaveInit.Start(t.init, count))
    case WaitInitSlaves(_) => AskedInit(t, t.init)
    case _ => (t, false)
  }

  function AskedInit(t: Task, init: SlaveInit.Task): (Task, bool)
    requires SlaveInit.CanAsk(init)
  {
    var (next, some) := SlaveInit.Asked(init);
    (t.(init := next, command := if some then next.command else t.command), some)
  }

  // ------------------------------------------------------------------ replies

  predicate CanHear(t: Task) { Initialising(t.state) ==> SlaveInit.CanAsk(t.init) && SlaveInit.CanHear(t.init) }

  /** A reply is as long as its request. */
  predicate Answers(t: Task, reply: Reply)
    requires CanHear(t)
  {
    Initialising(t.state) ==> SlaveInit.Answers(t.init, reply)
  }

  function FromInit(e: TaskError<SlaveInit.InitError>): TaskError<NetError> {
    match e
    case UnexpectedCommand => UnexpectedCommand
    case UnexpectedWkc(a, b) => UnexpectedWkc(a, b)
    case Timeout => Timeout
    case TaskSpecific(x) => TaskSpecific(InitFailed(x))
  }

  function FirstMailboxTx(sm: seq<Option<SlaveInit.SmType>>, from: nat): Option<SyncManagers.SyncManager>
    requires from <= |sm|
    decreases |sm| - from
  {
    if from == |sm| then None
    else if sm[from].Some? && sm[from].value.MailboxTx? then Some(sm[from].value.sm)
    else FirstMailboxTx(sm, from + 1)
  }

  /** The slave as it enters the table: with two FMMUs and a transmit mailbox, its mailbox state is mapped. */
  function NewSlave(info: SlaveInit.Info): NetSlave {
    var tx := FirstMailboxTx(info.sm, 0);
    var fmmu :=
      if 2 <= info.fmmus && tx.Some? then
        Some(Fmmu(LogicalBits.Field(None, 0, 8), tx.value.Register(SyncManagers.STATUS), Input))
      else None;
    NetSlave(info, fmmu, 0)
  }

  /** `recieve_and_process`. */
  function OnReply(t: Task, reply: Reply, time: nat): Task
    requires CanHear(t) && Answers(t, reply)
  {
    if !Matches(t.command, reply.command) then t.(state := Error(UnexpectedCommand))
    else
      match t.state
      case CountSlaves =>
        t.(numSlaves := reply.wkc, slaves := [], state := if reply.wkc == 0 then Complete else StartInitSlaves(0))
      case StartInitSlaves(count) =>
        var init := SlaveInit.OnReply(t.init, reply, time);
        t.(init := init, state := if init.state.Stopped? then Stopped else WaitInitSlaves(count))
      case WaitInitSlaves(count) => OnInit(t, count, SlaveInit.OnReply(t.init, reply, time))
      case _ => t
  }

  /** The slave's task has heard a reply. */
  function OnInit(t: Task, count: u16, init: SlaveInit.Task): Task {
    match init.state
    case Complete =>
      var done := t.(init := init.(info := None));
      if init.info.None? then done.(state := Stopped)
      else if t.capacity <= |t.slaves| then done.(state := Error(TaskSpecific(TooManySlaves)))
      else
        done.(slaves := t.slaves + [NewSlave(init.info.value)],
              state := if count + 1 < t.numSlaves then StartInitSlaves(count + 1) else Complete)
    case Error(e) => t.(init := init, state := Error(FromInit(e)))
    case Stopped => t.(init := init, state := Stopped)
    case _ => t.(init := init)
  }

  class NetworkInitTask {
    const init: SlaveInitTask
    const network: Network
    var state: State
    var command: Command
    var numSlaves: u16

    /** The objects stand for the task `t`; the table matters from the count on. */
    ghost predicate Represents(t: Task)
      reads this, init, network, network.slaves
    {
      && t == Task(init.View(), state, command, numSlaves, network.slaves.Length, t.slaves)
      && (Initialising(state) || state.Complete? ==> network.Holds(t.slaves))
    }

    constructor (network: Network)
      ensures this.network == network && fresh(init) && state == Idle && command == DEFAULT_COMMAND && numSlaves == 0
    {
      init := new SlaveInitTask();
      this.network := network;
      state, command, numSlaves := Idle, DEFAULT_COMMAND, 0;
    }

    method Start()
      modifies this
      ensures state == CountSlaves && command == DEFAULT_COMMAND && numSlaves == old(numSlaves)
    {
      command, state := DEFAULT_COMMAND, CountSlaves;
    }

    method NextPdu(buf: array<byte>, ghost t: Task) returns (length: Option<nat>)
      requires Represents(t) && CanAsk(t) && BUFFER_SIZE <= buf.Length
      modifies this, init, buf
      ensures Represents(Asked(t).0) && (length.Some? <==> Asked(t).1)
      ensures length.Some? && Initialising(state) && SlaveInit.CanAsk(init.View()) ==>
        length.value == |SlaveInit.DataOf(init.View())| <= buf.Length && buf[..length.value] == SlaveInit.DataOf(init.View())
      ensures length.Some? && state.CountSlaves? ==> length.value == 4 && buf[..4] == [1, 0, 7, 0]
    {
      length := None;
      match state {
        case CountSlaves =>
          Put(buf, [1, 0, 7, 0]);
          command := Command(BWR, 0, SlaveInit.DL_CONTROL);
          length := Some(4);
        case StartInitSlaves(count) =>
          init.Start(count);
          length := init.NextPdu(buf);
          if length.Some? { command := init.command; }
        case WaitInitSlaves(_) =>
          length := init.NextPdu(buf);
          if length.Some? { command := init.command; }
        case _ =>
      }
    }

    method RecieveAndProcess(reply: Reply, time: nat, ghost t: Task)
      requires Represents(t) && CanHear(t) && Answers(t, reply)
      modifies this, init, network, network.slaves
      ensures Represents(OnReply(t, reply, time))
    {
      if !Matches(command, reply.command) {
        state := Error(UnexpectedCommand);
        return;
      }
      match state {
        case CountSlaves =>
          numSlaves := reply.wkc;
          network.Clear();
          state := if reply.wkc == 0 then Complete else StartInitSlaves(0);
        case StartInitSlaves(count) =>
          init.RecieveAndProcess(reply, time);
          state := if init.state.Stopped? then Stopped else WaitInitSlaves(count);
        case WaitInitSlaves(count) =>
          init.RecieveAndProcess(reply, time);
          HearInit(count, t);
        case _ =>
      }
    }

    /** What follows a reply to the slave's task: `wait` and the four cases of its outcome. */
    method HearInit(count: u16, ghost t: Task)
      requires state == WaitInitSlaves(count) && t.state == state && t.command == command && t.numSlaves == numSlaves
      requires t.capacity == network.slaves.Length && network.Holds(t.slaves)
      modifies this, init, network, network.slaves
      ensures Represents(OnInit(t, count, old(init.View())))
    {
      if init.state.Stopped? {
        state := Stopped;
        return;
      }
      var outcome := init.Wait();
      match outcome {
        case Done(None) => state := Stopped;
        case Done(Some(info)) =>
          var pushed := network.PushSlave(NewSlave(info), t.slaves);
          if !pushed {
            state := Error(TaskSpecific(TooManySlaves));
          } else if count + 1 < numSlaves {
            state := StartInitSlaves(count + 1);
          } else {
            state := Complete;
          }
        case Failed(e) => state := Error(FromInit(e));
        case Running =>
      }
    }
  }
}
