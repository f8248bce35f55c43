/** `MailboxReadTask`: wait for a full mailbox, read it, and ask the slave to repeat a mailbox that was lost. */
module MailboxRead {
  import opened Bytes
  import opened Commands
  import opened Tasks
  import opened SyncManagers

  const TIMEOUT_MS := 2000

  datatype State =
    | Error(error: TaskError<MailboxError>) | Idle | Complete
    | CheckFull(first: bool, waitFull: bool) | Read | RequestRepeat | WaitRepeatAck

  datatype Task = Task(timerStart: nat, command: Command, slave: SlaveAddress, activation: byte, state: State, sm: SyncManager)

  predicate Busy(s: State) { s.CheckFull? || s.Read? || s.RequestRepeat? || s.WaitRepeatAck? }

  predicate Repeat(activation: byte) { Bit(activation, 1) }

  /** The activation byte with its repeat bit turned over. */
  function Toggled(activation: byte): byte {
    if activation / 2 % 2 == 1 then activation - 2 else activation + 2
  }

  /** The two bytes differ in bit 1 and in no other bit. */
  ghost predicate DifferInRepeat(a: byte, b: byte) {
    forall i :: 0 <= i < 8 ==> (Bit(a, i) == Bit(b, i) <==> i != 1)
  }

  lemma ToggledDiffers(activation: byte)
    ensures DifferInRepeat(activation, Toggled(activation))
  {
    var a, b: nat := activation, Toggled(activation);
    assert b % 2 == a % 2 && b / 2 / 2 == a / 2 / 2;
    forall i | 0 <= i < 8
      ensures Bit(a, i) == Bit(b, i) <==> i != 1
    {
      if i >= 2 {
        UpperBit(a, i);
        UpperBit(b, i);
      }
    }
  }

  lemma UpperBit(x: nat, i: nat)
    requires i >= 2
    ensures Bit(x, i) == Bit(x / 2 / 2, i - 2)
  {
    assert Bit(x, i) == Bit(x / 2, i - 1);
  }

  // ------------------------------------------------------------------ steps

  function StatusRead(t: Task): Command { NewRead(Single(t.slave), t.sm.Register(STATUS)) }

  function MessageRead(t: Task): Command { NewRead(Single(t.slave), t.sm.start) }

  function RepeatWrite(t: Task): Command { NewWrite(Single(t.slave), t.sm.Register(ACTIVATION)) }

  function AckRead(t: Task): Command { NewRead(Single(t.slave), t.sm.Register(PDI_CONTROL)) }

  /** `next_pdu` on a buffer: the task, the buffer and the request after it. */
  function Emit(t: Task, buf: seq<byte>): (r: (Task, seq<byte>, Option<Request>))
    requires CHECK_SIZE <= |buf|
    ensures |r.1| == |buf|
  {
    match t.state
    case CheckFull(_, _) => (t.(command := StatusRead(t)), Overlay(buf, [0, 0]), Some(Request(StatusRead(t), CHECK_SIZE)))
    case Read =>
      if |buf| < t.sm.size then (t.(command := MessageRead(t), state := Error(TaskSpecific(BufferSmall))), buf, None)
      else (t.(command := MessageRead(t)), Overlay(buf, Zeros(t.sm.size)), Some(Request(MessageRead(t), t.sm.size)))
    case RequestRepeat =>
      var a := Toggled(t.activation);
      (t.(command := RepeatWrite(t), activation := a), Overlay(buf, [a]), Some(Request(RepeatWrite(t), 1)))
    case WaitRepeatAck => (t.(command := AckRead(t)), Overlay(buf, [0]), Some(Request(AckRead(t), 1)))
    case _ => (t, buf, None)
  }

  predicate TimedOut(timerStart: nat, time: nat) {
    timerStart < time && TIMEOUT_MS * NANOS_PER_MILLI < time - timerStart
  }

  /** The replies a state can make use of: all bytes it looks at are there. */
  predicate Readable(s: State, data: seq<byte>) {
    (s.CheckFull? ==> |data| == CHECK_SIZE) && (s.WaitRepeatAck? ==> |data| == 1)
  }

  function Reacted(t: Task, reply: Reply): State
    requires Readable(t.state, reply.data)
  {
    if !Matches(t.command, reply.command) then Error(UnexpectedCommand)
    else
      match t.state
      case CheckFull(_, wait) =>
        if reply.wkc != 1 then Error(TaskSpecific(NoSlaveReaction))
        else if Full(reply.data[0]) then Read
        else if wait then CheckFull(false, wait)
        else Error(TaskSpecific(MailboxEmpty))
      case Read => if reply.wkc != 1 then RequestRepeat else Complete
      case RequestRepeat => WaitRepeatAck
      case WaitRepeatAck =>
        if reply.wkc != 1 then Error(UnexpectedWkc(1, reply.wkc))
        else if Repeat(reply.data[0]) == Repeat(t.activation) then CheckFull(false, true)
        else WaitRepeatAck
      case s => s
  }

  /** `recieve_and_process`. */
  function OnReply(t: Task, reply: Reply, time: nat): Task
    requires Readable(t.state, reply.data)
  {
    var checked := t.state.CheckFull? && Matches(t.command, reply.command);
    var start := if checked && t.state.first then time else t.timerStart;
    var activation := if checked && reply.wkc == 1 then reply.data[1] else t.activation;
    t.(timerStart := start, activation := activation,
       state := if TimedOut(start, time) then Error(Timeout) else Reacted(t, reply))
  }

  class MailboxReadTask {
    var timerStart: nat
    var command: Command
    var slave: SlaveAddress
    var activation: byte
    var state: State
    var sm: SyncManager

    ghost function View(): Task
      reads this
    {
      Task(timerStart, command, slave, activation, state, sm)
    }

    constructor ()
      ensures View() == Task(0, DEFAULT_COMMAND, SlavePosition(0), 0, Idle, SyncManager(0, 0, 0))
    {
      timerStart, command, slave, activation, state := 0, DEFAULT_COMMAND, SlavePosition(0), 0, Idle;
      sm := SyncManager(0, 0, 0);
    }

    method Start(slave: SlaveAddress, sm: SyncManager, waitFull: bool)
      modifies this
      ensures View() == Task(0, DEFAULT_COMMAND, slave, old(activation), CheckFull(true, waitFull), sm)
    {
      timerStart, command, this.slave, state := 0, DEFAULT_COMMAND, slave, CheckFull(true, waitFull);
      this.sm := sm;
    }

    method NextPdu(buf: array<byte>) returns (request: Option<Request>)
      requires CHECK_SIZE <= buf.Length
      modifies this, buf
      ensures (View(), buf[..], request) == Emit(old(View()), old(buf[..]))
    {
      match state {
        case Idle => return None;
        case Error(_) => return None;
        case Complete => return None;
        case CheckFull(_, _) =>
          command := NewRead(Single(slave), sm.Register(STATUS));
          buf[0], buf[1] := 0, 0;
          assert buf[..] == Overlay(old(buf[..]), [0, 0]);
          return Some(Request(command, CHECK_SIZE));
        case Read =>
          command := NewRead(Single(slave), sm.start);
          if buf.Length < sm.size {
            state := Error(TaskSpecific(BufferSmall));
            return None;
          }
          FillZero(buf, sm.size);
          assert buf[..] == Overlay(old(buf[..]), Zeros(sm.size));
          return Some(Request(command, sm.size));
        case RequestRepeat =>
          command := NewWrite(Single(slave), sm.Register(ACTIVATION));
          activation := Toggled(activation);
          buf[0] := activation;
          assert buf[..] == Overlay(old(buf[..]), [activation]);
          return Some(Request(command, 1));
        case WaitRepeatAck =>
          command := NewRead(Single(slave), sm.Register(PDI_CONTROL));
          buf[0] := 0;
          assert buf[..] == Overlay(old(buf[..]), [0]);
          return Some(Request(command, 1));
      }
    }

    method RecieveAndProcess(reply: Reply, time: nat)
      requires Readable(state, reply.data)
      modifies this`state, this`timerStart, this`activation
      ensures View() == OnReply(old(View()), reply, time)
    {
      if !Matches(command, reply.command) { state := Error(UnexpectedCommand); }
      match state {
        case Idle =>
        case Error(_) =>
        case Complete =>
        case CheckFull(first, wait) =>
          if first { timerStart := time; }
          if reply.wkc != 1 {
            state := Error(TaskSpecific(NoSlaveReaction));
          } else {
            activation := reply.data[1];
            if Full(reply.data[0]) {
              state := Read;
            } else if wait {
              state := CheckFull(false, wait);
            } else {
              state := Error(TaskSpecific(MailboxEmpty));
            }
          }
        case Read =>
          if reply.wkc != 1 { state := RequestRepeat; } else { state := Complete; }
        case RequestRepeat =>
          state := WaitRepeatAck;
        case WaitRepeatAck =>
          if reply.wkc != 1 {
            state := Error(UnexpectedWkc(1, reply.wkc));
          } else if Repeat(reply.data[0]) == Repeat(activation) {
            state := CheckFull(false, true);
          } else {
            state := WaitRepeatAck;
          }
      }
      if timerStart < time && TIMEOUT_MS * NANOS_PER_MILLI < time - timerStart {
        state := Error(Timeout);
      }
    }
  }

  // ------------------------------------------------------------------ runs with a socket

  datatype System = System(task: Task, buf: seq<byte>, pending: Option<Request>) {
    predicate Ok() {
      && CHECK_SIZE <= |buf|
      && (pending.Some? <==> Busy(task.state))
      && (task.state.CheckFull? ==> pending.value.length == CHECK_SIZE)
      && (task.state.Read? ==> pending.value.length == task.sm.size <= |buf|)
      && (task.state.RequestRepeat? || task.state.WaitRepeatAck? ==> pending.value.length == 1)
    }

    /** The data of the PDU in the socket. */
    function Sent(): seq<byte>
      requires Ok() && pending.Some?
    {
      buf[..pending.value.length]
    }
  }

  function Prepared(t: Task, buf: seq<byte>): (s: System)
    requires CHECK_SIZE <= |buf|
    ensures s.Ok() && |s.buf| == |buf|
  {
    var next := Emit(t, buf);
    System(next.0, next.1, next.2)
  }

  /** The one thing known of a reply is that it is as long as the request. */
  predicate Answers(s: System, reply: Reply) {
    s.pending.Some? ==> |reply.data| == s.pending.value.length
  }

  function Step(s: System, round: Round): (r: System)
    requires s.Ok() && Answers(s, round.reply)
    ensures r.Ok() && |r.buf| == |s.buf|
  {
    if s.pending.None? then s
    else Prepared(OnReply(s.task, round.reply, round.time), Overlay(s.buf, round.reply.data))
  }

  function Begin(t: Task, sm: SyncManager, slave: SlaveAddress, waitFull: bool, buf: seq<byte>): (s: System)
    requires CHECK_SIZE <= |buf|
    ensures s.Ok()
  {
    Prepared(Task(0, DEFAULT_COMMAND, slave, t.activation, CheckFull(true, waitFull), sm), buf)
  }

  predicate IsRun(run: seq<System>, rounds: seq<Round>) {
    && |run| == |rounds| + 1
    && (forall k :: 0 <= k < |run| ==> run[k].Ok())
    && (forall k :: 0 <= k < |rounds| ==> Linked(run, rounds, k))
    && run[0].task.state.CheckFull?
  }

  predicate Linked(run: seq<System>, rounds: seq<Round>, k: nat)
    requires k + 1 < |run| && k < |rounds| && run[k].Ok()
  {
    Answers(run[k], rounds[k].reply) && run[k + 1] == Step(run[k], rounds[k])
  }

  // ------------------------------------------------------------------ what every run keeps

  /** Round `k` answered a status poll of the slave and found a full mailbox. */
  predicate FoundFull(run: seq<System>, rounds: seq<Round>, k: nat)
    requires k < |rounds| < |run|
  {
    && run[k].task.state.CheckFull?
    && rounds[k].reply.wkc == 1 && |rounds[k].reply.data| == CHECK_SIZE && Full(rounds[k].reply.data[0])
    && Matches(run[k].task.command, rounds[k].reply.command)
  }

  /** A read of the mailbox is always the request right after a poll that found it full. */
  lemma ReadFollowsFull(run: seq<System>, rounds: seq<Round>, k: nat)
    requires IsRun(run, rounds) && k < |run| && run[k].task.state.Read?
    ensures k > 0 && FoundFull(run, rounds, k - 1) && run[k].task.activation == rounds[k - 1].reply.data[1]
  {
    assert k > 0;
    assert Linked(run, rounds, k - 1);
  }

  /** Completion follows a read one slave answered, which directly follows a poll that found the mailbox full; the
      socket buffer then holds the mailbox that read returned. */
  lemma CompleteIsRead(run: seq<System>, rounds: seq<Round>, k: nat)
    requires IsRun(run, rounds) && k < |rounds| && !run[k].task.state.Complete? && run[k + 1].task.state.Complete?
    ensures run[k].task.state.Read? && rounds[k].reply.wkc == 1 && Matches(run[k].task.command, rounds[k].reply.command)
    ensures k > 0 && FoundFull(run, rounds, k - 1)
    ensures |rounds[k].reply.data| == run[k].task.sm.size <= |run[k + 1].buf|
    ensures run[k + 1].buf[..run[k].task.sm.size] == rounds[k].reply.data
  {
    assert Linked(run, rounds, k);
    ReadFollowsFull(run, rounds, k);
  }

  /** A repeat request is sent exactly when a read came back unanswered, and it carries the activation byte of the
      poll before that read with bit 1, and no other, turned over. */
  lemma RepeatFlipsOneBit(run: seq<System>, rounds: seq<Round>, k: nat)
    requires IsRun(run, rounds) && k < |run| && run[k].task.state.RequestRepeat?
    ensures k > 1 && run[k - 1].task.state.Read? && rounds[k - 1].reply.wkc != 1 && FoundFull(run, rounds, k - 2)
    ensures run[k].Sent() == [Toggled(rounds[k - 2].reply.data[1])] == [run[k].task.activation]
    ensures DifferInRepeat(rounds[k - 2].reply.data[1], run[k].Sent()[0])
  {
    assert k > 0;
    assert Linked(run, rounds, k - 1);
    ReadFollowsFull(run, rounds, k - 1);
    ToggledDiffers(rounds[k - 2].reply.data[1]);
  }

  /** Round `i` acknowledged the repeat bit `sent`: the slave shows the same bit. */
  predicate Acknowledged(run: seq<System>, rounds: seq<Round>, i: nat, sent: byte)
    requires i < |rounds| < |run|
  {
    && run[i].task.state.WaitRepeatAck? && rounds[i].reply.wkc == 1
    && |rounds[i].reply.data| == 1 && Repeat(rounds[i].reply.data[0]) == Repeat(sent)
  }

  /** Until an acknowledgement arrives, the task does nothing but wait for it, or stop with an error. */
  lemma {:induction false} WaitsForAck(run: seq<System>, rounds: seq<Round>, j: nat, k: nat)
    requires IsRun(run, rounds) && j < k < |run| && run[j].task.state.RequestRepeat?
    requires forall i :: j < i < k ==> !Acknowledged(run, rounds, i, run[j].task.activation)
    ensures run[k].task.activation == run[j].task.activation
    ensures run[k].task.state.WaitRepeatAck? || run[k].task.state.Error?
  {
    assert Linked(run, rounds, k - 1);
    if k > j + 1 {
      WaitsForAck(run, rounds, j, k - 1);
      assert !Acknowledged(run, rounds, k - 1, run[j].task.activation);
    }
  }

  /** No second repeat request, no read and no completion before the first repeat request was acknowledged. */
  lemma AckBeforeNext(run: seq<System>, rounds: seq<Round>, j: nat, k: nat)
    requires IsRun(run, rounds) && j < k < |run| && run[j].task.state.RequestRepeat?
    requires run[k].task.state.RequestRepeat? || run[k].task.state.Read? || run[k].task.state.Complete?
    ensures exists i :: j < i < k && Acknowledged(run, rounds, i, run[j].task.activation)
  {
    if forall i :: j < i < k ==> !Acknowledged(run, rounds, i, run[j].task.activation) {
      WaitsForAck(run, rounds, j, k);
    }
  }

  // ------------------------------------------------------------------ which registers

  /** The request of each state: which register of which slave, and how many bytes. */
  function RequestOf(s: State, slave: SlaveAddress, sm: SyncManager): Option<Request> {
    match s
    case CheckFull(_, _) => Some(Request(NewRead(Single(slave), 0x0805 + 8 * sm.number), 2))
    case Read => Some(Request(NewRead(Single(slave), sm.start), sm.size))
    case RequestRepeat => Some(Request(NewWrite(Single(slave), 0x0806 + 8 * sm.number), 1))
    case WaitRepeatAck => Some(Request(NewRead(Single(slave), 0x0807 + 8 * sm.number), 1))
    case _ => None
  }

  /** Throughout a run every request goes to the slave and the SyncManager the task was started with, and replies
      are matched against it. */
  lemma {:induction false} RequestsMatch(run: seq<System>, rounds: seq<Round>, t: Task, sm: SyncManager, slave: SlaveAddress,
                                         waitFull: bool, buf: seq<byte>, k: nat)
    requires CHECK_SIZE <= |buf| && IsRun(run, rounds) && run[0] == Begin(t, sm, slave, waitFull, buf) && k < |run|
    ensures run[k].task.slave == slave && run[k].task.sm == sm
    ensures run[k].pending == RequestOf(run[k].task.state, slave, sm)
    ensures run[k].pending.Some? ==> run[k].task.command == run[k].pending.value.command
  {
    if k > 0 {
      RequestsMatch(run, rounds, t, sm, slave, waitFull, buf, k - 1);
      assert Linked(run, rounds, k - 1);
      var s, round := run[k - 1], rounds[k - 1];
      if s.pending.Some? {
        PreparedMatches(OnReply(s.task, round.reply, round.time), Overlay(s.buf, round.reply.data));
      }
    } else {
      PreparedMatches(Task(0, DEFAULT_COMMAND, slave, t.activation, CheckFull(true, waitFull), sm), buf);
    }
  }

  lemma PreparedMatches(t: Task, buf: seq<byte>)
    requires CHECK_SIZE <= |buf|
    ensures var s := Prepared(t, buf);
      && s.task.slave == t.slave && s.task.sm == t.sm && s.pending == RequestOf(s.task.state, t.slave, t.sm)
      && (s.pending.Some? ==> s.task.command == s.pending.value.command)
  {
  }

  // ------------------------------------------------------------------ what a reply decides

  /** A run for this slave and SyncManager. */
  ghost predicate RunFor(run: seq<System>, rounds: seq<Round>, t: Task, sm: SyncManager, slave: SlaveAddress, waitFull: bool, buf: seq<byte>)
  {
    CHECK_SIZE <= |buf| && IsRun(run, rounds) && run[0] == Begin(t, sm, slave, waitFull, buf)
  }

  /** The timer runs since the first reply. After a repeat the task always waits for a full mailbox. */
  lemma {:induction false} TimerIsFirst(run: seq<System>, rounds: seq<Round>, t: Task, sm: SyncManager, slave: SlaveAddress,
                                        waitFull: bool, buf: seq<byte>, k: nat)
    requires RunFor(run, rounds, t, sm, slave, waitFull, buf) && k < |run| && Busy(run[k].task.state)
    ensures run[k].task.timerStart == if k == 0 then 0 else rounds[0].time
    ensures run[k].task.state.CheckFull? ==> (run[k].task.state.first <==> k == 0)
    ensures |run[k].buf| == |buf|
  {
    if k > 0 {
      assert Linked(run, rounds, k - 1);
      TimerIsFirst(run, rounds, t, sm, slave, waitFull, buf, k - 1);
    }
  }

  /** Reply k comes more than 2 s after the first one. */
  predicate Late(rounds: seq<Round>, k: nat)
    requires k < |rounds|
  {
    rounds[k].time > rounds[0].time + 2_000_000_000
  }

  predicate Ours(run: seq<System>, rounds: seq<Round>, k: nat)
    requires k < |rounds| < |run|
  {
    rounds[k].reply.command.ctype == run[k].task.command.ctype && rounds[k].reply.command.ado == run[k].task.command.ado
  }

  /** What a status poll in time leads to. */
  lemma PollDecides(run: seq<System>, rounds: seq<Round>, t: Task, sm: SyncManager, slave: SlaveAddress, waitFull: bool, buf: seq<byte>, k: nat)
    requires RunFor(run, rounds, t, sm, slave, waitFull, buf) && k < |rounds| && run[k].task.state.CheckFull?
    requires Ours(run, rounds, k) && !Late(rounds, k)
    ensures |rounds[k].reply.data| == 2
    ensures run[k + 1].task.state ==
      if rounds[k].reply.wkc != 1 then Error(TaskSpecific(NoSlaveReaction))
      else if !Bit(rounds[k].reply.data[0], 3) then
        if run[k].task.state.waitFull then CheckFull(false, true) else Error(TaskSpecific(MailboxEmpty))
      else if |buf| < sm.size then Error(TaskSpecific(BufferSmall))
      else Read
  {
    RequestsMatch(run, rounds, t, sm, slave, waitFull, buf, k);
    TimerIsFirst(run, rounds, t, sm, slave, waitFull, buf, k);
    assert Linked(run, rounds, k);
  }

  /** A read in time that nobody answered is always followed by a repeat request, which turns over the repeat bit of the
      status poll before it; an answered one completes the task. */
  lemma LostReadRepeats(run: seq<System>, rounds: seq<Round>, t: Task, sm: SyncManager, slave: SlaveAddress, waitFull: bool, buf: seq<byte>, k: nat)
    requires RunFor(run, rounds, t, sm, slave, waitFull, buf) && k < |rounds| && run[k].task.state.Read?
    requires Ours(run, rounds, k) && !Late(rounds, k)
    ensures rounds[k].reply.wkc == 1 ==> run[k + 1].task.state == Complete
    ensures rounds[k].reply.wkc != 1 ==>
      && run[k + 1].task.state == RequestRepeat && k > 0 && |rounds[k - 1].reply.data| == 2
      && run[k + 1].pending == Some(Request(NewWrite(Single(slave), 0x0806 + 8 * sm.number), 1))
      && |run[k + 1].Sent()| == 1 && DifferInRepeat(rounds[k - 1].reply.data[1], run[k + 1].Sent()[0])
  {
    TimerIsFirst(run, rounds, t, sm, slave, waitFull, buf, k);
    assert Linked(run, rounds, k);
    ReadFollowsFull(run, rounds, k);
    if rounds[k].reply.wkc != 1 {
      RequestsMatch(run, rounds, t, sm, slave, waitFull, buf, k + 1);
      RepeatFlipsOneBit(run, rounds, k + 1);
    }
  }

  /** Whatever becomes of the repeat request, the next thing is to wait for its acknowledgement: a slave that shows the
      bit is polled for the repeated mailbox, one that does not is asked again, and one that is gone ends the task. */
  lemma RepeatDecides(run: seq<System>, rounds: seq<Round>, t: Task, sm: SyncManager, slave: SlaveAddress, waitFull: bool, buf: seq<byte>, k: nat)
    requires RunFor(run, rounds, t, sm, slave, waitFull, buf) && k < |rounds|
    requires Ours(run, rounds, k) && !Late(rounds, k)
    ensures run[k].task.state.RequestRepeat? ==> run[k + 1].task.state == WaitRepeatAck
    ensures run[k].task.state.WaitRepeatAck? ==>
      && |rounds[k].reply.data| == 1
      && run[k + 1].task.state ==
           if rounds[k].reply.wkc != 1 then Error(UnexpectedWkc(1, rounds[k].reply.wkc))
           else if Bit(rounds[k].reply.data[0], 1) == Bit(run[k].task.activation, 1) then CheckFull(false, true)
           else WaitRepeatAck
  {
    if run[k].task.state.RequestRepeat? || run[k].task.state.WaitRepeatAck? {
      TimerIsFirst(run, rounds, t, sm, slave, waitFull, buf, k);
      assert Linked(run, rounds, k);
      assert k > 0;
    }
  }

  /** A later reply ends the task with a timeout, and one in time to another request with an unexpected command. */
  lemma OtherReplyEnds(run: seq<System>, rounds: seq<Round>, t: Task, sm: SyncManager, slave: SlaveAddress, waitFull: bool, buf: seq<byte>, k: nat)
    requires RunFor(run, rounds, t, sm, slave, waitFull, buf) && 0 < k < |rounds| && Busy(run[k].task.state)
    ensures Late(rounds, k) ==> run[k + 1].task.state == Error(Timeout)
    ensures !Late(rounds, k) && !Ours(run, rounds, k) ==> run[k + 1].task.state == Error(UnexpectedCommand)
  {
    TimerIsFirst(run, rounds, t, sm, slave, waitFull, buf, k);
    assert Linked(run, rounds, k);
  }
}
