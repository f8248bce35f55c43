/** `MailboxWriteTask`: check that the mailbox is empty, then write, repeating a write that was lost. */
module MailboxWrite {
  import opened Bytes
  import opened Commands
  import opened Tasks
  import opened SyncManagers

  const TIMEOUT_MS := 100

  datatype State = Error(error: TaskError<MailboxError>) | Idle | Complete | CheckEmpty(first: bool, waitEmpty: bool) | Write

  datatype Task = Task(timerStart: nat, command: Command, slave: SlaveAddress, saved: seq<byte>, state: State, sm: SyncManager)

  // ------------------------------------------------------------------ steps

  predicate Busy(s: State) { s.CheckEmpty? || s.Write? }

  function StatusRead(t: Task): Command { NewRead(Single(t.slave), t.sm.Register(STATUS)) }

  function MessageWrite(t: Task): Command { NewWrite(Single(t.slave), t.sm.start) }

  /** `next_pdu` on a buffer: the task, the buffer and the request after it. */
  function Emit(t: Task, buf: seq<byte>): (r: (Task, seq<byte>, Option<Request>))
    requires |t.saved| == CHECK_SIZE <= |buf|
    ensures |r.1| == |buf| && |r.0.saved| == CHECK_SIZE
  {
    match t.state
    case CheckEmpty(_, _) =>
      (t.(command := StatusRead(t), saved := buf[..CHECK_SIZE]), Overlay(buf, [0, 0]), Some(Request(StatusRead(t), CHECK_SIZE)))
    case Write =>
      if |buf| < t.sm.size then
        (t.(command := MessageWrite(t), state := Error(TaskSpecific(BufferSmall))), Overlay(buf, t.saved), None)
      else
        (t.(command := MessageWrite(t)), Overlay(buf, t.saved), Some(Request(MessageWrite(t), t.sm.size)))
    case _ => (t, buf, None)
  }

  predicate TimedOut(timerStart: nat, time: nat) {
    timerStart < time && TIMEOUT_MS * NANOS_PER_MILLI < time - timerStart
  }

  /** The state a reply leads to, before the time limit is looked at. */
  function Reacted(t: Task, reply: Reply): State
    requires |reply.data| > 0 || !t.state.CheckEmpty?
  {
    if !Matches(t.command, reply.command) then Error(UnexpectedCommand)
    else
      match t.state
      case CheckEmpty(_, wait) =>
        if reply.wkc != 1 then Error(TaskSpecific(NoSlaveReaction))
        else if !Full(reply.data[0]) then Write
        else if wait then CheckEmpty(false, wait)
        else Error(TaskSpecific(MailboxAlreadyExisted))
      case Write => if reply.wkc != 1 then Write else Complete
      case s => s
  }

  /** `recieve_and_process`. */
  function OnReply(t: Task, reply: Reply, time: nat): Task
    requires |reply.data| > 0 || !t.state.CheckEmpty?
  {
    var start := if t.state.CheckEmpty? && t.state.first && Matches(t.command, reply.command) then time else t.timerStart;
    t.(timerStart := start, state := if TimedOut(start, time) then Error(Timeout) else Reacted(t, reply))
  }

  class MailboxWriteTask {
    var timerStart: nat
    var command: Command
    var slave: SlaveAddress
    var saved: seq<byte>
    var state: State
    var sm: SyncManager

    ghost function View(): Task
      reads this
    {
      Task(timerStart, command, slave, saved, state, sm)
    }

    constructor ()
      ensures View() == Task(0, DEFAULT_COMMAND, SlavePosition(0), [0, 0], Idle, SyncManager(0, 0, 0))
    {
      timerStart, command, slave, saved, state := 0, DEFAULT_COMMAND, SlavePosition(0), [0, 0], Idle;
      sm := SyncManager(0, 0, 0);
    }

    method Start(slave: SlaveAddress, sm: SyncManager, waitEmpty: bool)
      modifies this
      ensures View() == Task(0, DEFAULT_COMMAND, slave, old(saved), CheckEmpty(true, waitEmpty), sm)
    {
      timerStart, command, this.slave, state := 0, DEFAULT_COMMAND, slave, CheckEmpty(true, waitEmpty);
      this.sm := sm;
    }

    method NextPdu(buf: array<byte>) returns (request: Option<Request>)
      requires |saved| == CHECK_SIZE <= buf.Length
      modifies this, buf
      ensures (View(), buf[..], request) == Emit(old(View()), old(buf[..]))
    {
      match state {
        case Idle => return None;
        case Error(_) => return None;
        case Complete => return None;
        case CheckEmpty(_, _) =>
          command := NewRead(Single(slave), sm.Register(STATUS));
          saved := [buf[0], buf[1]];
          buf[0], buf[1] := 0, 0;
          assert saved == old(buf[..])[..CHECK_SIZE] && buf[..] == Overlay(old(buf[..]), [0, 0]);
          return Some(Request(command, CHECK_SIZE));
        case Write =>
          command := NewWrite(Single(slave), sm.start);
          buf[0], buf[1] := saved[0], saved[1];
          assert buf[..] == Overlay(old(buf[..]), saved);
          if buf.Length < sm.size {
            state := Error(TaskSpecific(BufferSmall));
            return None;
          }
          return Some(Request(command, sm.size));
      }
    }

    method RecieveAndProcess(reply: Reply, time: nat)
      requires |reply.data| > 0 || !state.CheckEmpty?
      modifies this`state, this`timerStart
      ensures View() == OnReply(old(View()), reply, time)
    {
      if !Matches(command, reply.command) { state := Error(UnexpectedCommand); }
      match state {
        case Idle =>
        case Error(_) =>
        case Complete =>
        case CheckEmpty(first, wait) =>
          if first { timerStart := time; }
          if reply.wkc != 1 {
            state := Error(TaskSpecific(NoSlaveReaction));
          } else if !Full(reply.data[0]) {
            state := Write;
          } else if wait {
            state := CheckEmpty(false, wait);
          } else {
            state := Error(TaskSpecific(MailboxAlreadyExisted));
          }
        case Write =>
          if reply.wkc != 1 { state := Write; } else { state := Complete; }
      }
      if timerStart < time && TIMEOUT_MS * NANOS_PER_MILLI < time - timerStart {
        state := Error(Timeout);
      }
    }
  }

  // ------------------------------------------------------------------ runs with a socket

  /** The task, its socket buffer and the request in the socket. */
  datatype System = System(task: Task, buf: seq<byte>, pending: Option<Request>) {
    predicate Ok() {
      && |task.saved| == CHECK_SIZE <= |buf|
      && (pending.Some? <==> Busy(task.state))
      && (task.state.CheckEmpty? ==> pending.value.length == CHECK_SIZE)
      && (task.state.Write? ==> pending.value.length == task.sm.size <= |buf|)
    }

    /** The data of the PDU in the socket. */
    function Sent(): seq<byte>
      requires Ok() && pending.Some?
    {
      buf[..pending.value.length]
    }
  }

  function Prepared(t: Task, buf: seq<byte>): (s: System)
    requires |t.saved| == CHECK_SIZE <= |buf|
    ensures s.Ok() && |s.buf| == |buf| && s.task.sm == t.sm
  {
    var next := Emit(t, buf);
    System(next.0, next.1, next.2)
  }

  /** A reply has the length of the request, and a write comes back with the data it carried. */
  predicate Echoes(s: System, reply: Reply)
    requires s.Ok()
  {
    s.pending.Some? ==>
      && |reply.data| == s.pending.value.length
      && (s.task.state.Write? ==> reply.data == s.Sent())
  }

  /** `process_one_step` after the reply arrived. A task that is not busy has no request, hence no reply. */
  function Step(s: System, round: Round): (r: System)
    requires s.Ok() && Echoes(s, round.reply)
    ensures r.Ok() && |r.buf| == |s.buf|
  {
    if s.pending.None? then s
    else Prepared(OnReply(s.task, round.reply, round.time), Overlay(s.buf, round.reply.data))
  }

  function Begin(t: Task, sm: SyncManager, slave: SlaveAddress, waitEmpty: bool, message: seq<byte>): (s: System)
    requires |t.saved| == CHECK_SIZE <= |message|
    ensures s.Ok() && |s.buf| == |message|
  {
    Prepared(Task(0, DEFAULT_COMMAND, slave, t.saved, CheckEmpty(true, waitEmpty), sm), message)
  }

  /** A run: the systems before the first reply and after each one. */
  predicate IsRun(run: seq<System>, rounds: seq<Round>) {
    && |run| == |rounds| + 1
    && (forall k :: 0 <= k < |run| ==> run[k].Ok())
    && (forall k :: 0 <= k < |rounds| ==> Linked(run, rounds, k))
  }

  predicate Linked(run: seq<System>, rounds: seq<Round>, k: nat)
    requires k + 1 < |run| && k < |rounds| && run[k].Ok()
  {
    Echoes(run[k], rounds[k].reply) && run[k + 1] == Step(run[k], rounds[k])
  }

  /** The poll answered by round `k` found the mailbox full and was repeated. */
  predicate PolledAgain(run: seq<System>, k: nat)
    requires k + 1 < |run|
  {
    run[k].task.state.CheckEmpty? && run[k + 1].task.state.CheckEmpty?
  }

  /** The first two bytes a write after `k` replies will carry: those of the message until a poll is repeated,
      then the status bytes that poll left in the buffer. */
  function Header(run: seq<System>, rounds: seq<Round>, message: seq<byte>, k: nat): seq<byte>
    requires k <= |rounds| && |run| == |rounds| + 1 && CHECK_SIZE <= |message|
  {
    if k == 0 then message[..CHECK_SIZE]
    else if PolledAgain(run, k - 1) then rounds[k - 1].reply.data
    else Header(run, rounds, message, k - 1)
  }

  predicate Holds(s: System, header: seq<byte>, message: seq<byte>)
    requires s.Ok() && CHECK_SIZE <= |message|
  {
    && |header| == CHECK_SIZE && |s.buf| == |message| && s.buf[CHECK_SIZE..] == message[CHECK_SIZE..]
    && (Busy(s.task.state) ==> s.task.saved == header)
    && (s.task.state.Write? ==> s.buf[..CHECK_SIZE] == header)
  }

  lemma StepHolds(s: System, round: Round, header: seq<byte>, message: seq<byte>)
    requires s.Ok() && CHECK_SIZE <= |message| && Holds(s, header, message) && Echoes(s, round.reply)
    ensures var r := Step(s, round);
      Holds(r, if s.task.state.CheckEmpty? && r.task.state.CheckEmpty? then round.reply.data else header, message)
  {
    if s.pending.Some? {
      var data := round.reply.data;
      var mid := Overlay(s.buf, data);
      if s.task.state.Write? { assert mid == s.buf; }
      assert mid[CHECK_SIZE..] == message[CHECK_SIZE..];
      var t := OnReply(s.task, round.reply, round.time);
      var r := Step(s, round);
      assert r.buf[CHECK_SIZE..] == mid[CHECK_SIZE..];
      if s.task.state.CheckEmpty? { assert mid[..CHECK_SIZE] == data; }
    }
  }

  lemma {:induction false} RunHolds(run: seq<System>, rounds: seq<Round>, t: Task, sm: SyncManager, slave: SlaveAddress,
                                    waitEmpty: bool, message: seq<byte>, k: nat)
    requires |t.saved| == CHECK_SIZE <= |message| && IsRun(run, rounds) && k <= |rounds|
    requires run[0] == Begin(t, sm, slave, waitEmpty, message)
    ensures Holds(run[k], Header(run, rounds, message, k), message)
  {
    if k > 0 {
      RunHolds(run, rounds, t, sm, slave, waitEmpty, message, k - 1);
      assert Linked(run, rounds, k - 1);
      StepHolds(run[k - 1], rounds[k - 1], Header(run, rounds, message, k - 1), message);
    }
  }

  // ------------------------------------------------------------------ what a write carries

  /** Every write, first or repeated, carries the current header and the rest of the message. */
  lemma WriteCarries(run: seq<System>, rounds: seq<Round>, t: Task, sm: SyncManager, slave: SlaveAddress,
                     waitEmpty: bool, message: seq<byte>, k: nat)
    requires |t.saved| == CHECK_SIZE <= |message| && IsRun(run, rounds) && k <= |rounds|
    requires run[0] == Begin(t, sm, slave, waitEmpty, message) && run[k].task.state.Write?
    ensures |Header(run, rounds, message, k)| == CHECK_SIZE
    ensures run[k].buf == Header(run, rounds, message, k) + message[CHECK_SIZE..]
    ensures run[k].pending == Some(Request(NewWrite(Single(slave), sm.start), sm.size))
  {
    ModeKept(run, rounds, t, sm, slave, waitEmpty, message, k);
    RunHolds(run, rounds, t, sm, slave, waitEmpty, message, k);
    assert run[k].buf == run[k].buf[..CHECK_SIZE] + run[k].buf[CHECK_SIZE..];
  }

  /** The task never leaves the wait mode it was started in, and keeps its SyncManager. */
  lemma {:induction false} ModeKept(run: seq<System>, rounds: seq<Round>, t: Task, sm: SyncManager, slave: SlaveAddress,
                                    waitEmpty: bool, message: seq<byte>, k: nat)
    requires |t.saved| == CHECK_SIZE <= |message| && IsRun(run, rounds) && k <= |rounds|
    requires run[0] == Begin(t, sm, slave, waitEmpty, message)
    ensures run[k].task.sm == sm && (run[k].task.state.CheckEmpty? ==> run[k].task.state.waitEmpty == waitEmpty)
    ensures run[k].task.state.Write? ==> run[k].pending == Some(Request(NewWrite(Single(slave), sm.start), sm.size))
    ensures run[k].task.slave == slave
  {
    if k > 0 {
      ModeKept(run, rounds, t, sm, slave, waitEmpty, message, k - 1);
      assert Linked(run, rounds, k - 1);
    }
  }

  lemma {:induction false} HeaderIsMessage(run: seq<System>, rounds: seq<Round>, t: Task, sm: SyncManager,
                                           slave: SlaveAddress, message: seq<byte>, k: nat)
    requires |t.saved| == CHECK_SIZE <= |message| && IsRun(run, rounds) && k <= |rounds|
    requires run[0] == Begin(t, sm, slave, false, message)
    ensures Header(run, rounds, message, k) == message[..CHECK_SIZE]
  {
    if k > 0 {
      HeaderIsMessage(run, rounds, t, sm, slave, message, k - 1);
      ModeKept(run, rounds, t, sm, slave, false, message, k - 1);
      assert Linked(run, rounds, k - 1);
    }
  }

  /** In every run, over any number of lost writes, each write PDU carries the message. */
  ghost predicate AlwaysCarries(t: Task, sm: SyncManager, slave: SlaveAddress, waitEmpty: bool, message: seq<byte>)
    requires |t.saved| == CHECK_SIZE <= |message|
  {
    forall run: seq<System>, rounds: seq<Round>, k: nat ::
      IsRun(run, rounds) && run[0] == Begin(t, sm, slave, waitEmpty, message) && k < |run| && run[k].task.state.Write? ==>
        Carries(run[k], message)
  }

  predicate Carries(s: System, message: seq<byte>)
    requires s.Ok() && s.task.state.Write?
  {
    |s.buf| == |message| && s.Sent() == message[..s.task.sm.size]
  }

  /** The message is safe exactly when the caller does not ask to wait for an empty mailbox (leaving aside
      requests without bytes to write, or larger than the buffer, which are never sent). With waiting, one full
      mailbox found by a poll replaces the first two bytes of the message by the polled registers. */
  lemma AlwaysCarriesIff(t: Task, sm: SyncManager, slave: SlaveAddress, waitEmpty: bool, message: seq<byte>)
    requires |t.saved| == CHECK_SIZE <= |message|
    ensures AlwaysCarries(t, sm, slave, waitEmpty, message) <==> !waitEmpty || sm.size == 0 || |message| < sm.size
  {
    if waitEmpty && 0 < sm.size <= |message| {
      FullPollSpoils(t, sm, slave, message);
    } else {
      forall run: seq<System>, rounds: seq<Round>, k: nat |
        IsRun(run, rounds) && run[0] == Begin(t, sm, slave, waitEmpty, message) && k < |run| && run[k].task.state.Write?
        ensures Carries(run[k], message)
      {
        ModeKept(run, rounds, t, sm, slave, waitEmpty, message, k);
        WriteCarries(run, rounds, t, sm, slave, waitEmpty, message, k);
        if !waitEmpty {
          HeaderIsMessage(run, rounds, t, sm, slave, message, k);
          assert run[k].buf == message;
        }
      }
    }
  }

  /** A full mailbox found once, then an empty one: the write goes out with a wrong first byte. */
  lemma FullPollSpoils(t: Task, sm: SyncManager, slave: SlaveAddress, message: seq<byte>)
    requires |t.saved| == CHECK_SIZE <= |message| && 0 < sm.size <= |message|
    ensures !AlwaysCarries(t, sm, slave, true, message)
  {
    var full: byte := if message[0] == 8 then 9 else 8;
    assert Full(full) && !Full(0) by { assert Bit(full, 3) && !Bit(0, 3); }
    var s0 := Begin(t, sm, slave, true, message);
    var r0 := Round(Reply(s0.task.command, [full, 0], 1), 0);
    FullPolled(s0, r0);
    var s1 := Step(s0, r0);
    var r1 := Round(Reply(s1.task.command, [0, 0], 1), 0);
    EmptyPolled(s1, r1);
    var s2 := Step(s1, r1);
    TwoRounds(s0, r0, r1);
    assert [s0, s1, s2][2] == s2;
  }

  lemma TwoRounds(s: System, first: Round, second: Round)
    requires s.Ok() && Echoes(s, first.reply) && Echoes(Step(s, first), second.reply)
    ensures var s1 := Step(s, first); IsRun([s, s1, Step(s1, second)], [first, second])
  {
    var s1 := Step(s, first);
    var run, rounds := [s, s1, Step(s1, second)], [first, second];
    assert Linked(run, rounds, 0) && Linked(run, rounds, 1);
  }

  lemma FullPolled(s: System, round: Round)
    requires s.Ok() && s.task.state.CheckEmpty? && s.task.state.waitEmpty && Echoes(s, round.reply)
    requires Matches(s.task.command, round.reply.command) && round.reply.wkc == 1 && Full(round.reply.data[0]) && round.time == 0
    requires s.task.timerStart == 0
    ensures var r := Step(s, round);
      r.task.state == CheckEmpty(false, true) && r.task.saved == round.reply.data && r.task.sm == s.task.sm && r.task.timerStart == 0
  {
    assert Overlay(s.buf, round.reply.data)[..CHECK_SIZE] == round.reply.data;
  }

  lemma EmptyPolled(s: System, round: Round)
    requires s.Ok() && s.task.state.CheckEmpty? && Echoes(s, round.reply) && s.task.sm.size <= |s.buf|
    requires Matches(s.task.command, round.reply.command) && round.reply.wkc == 1 && !Full(round.reply.data[0]) && round.time == 0
    requires s.task.timerStart == 0
    ensures var r := Step(s, round);
      r.task.state.Write? && r.buf[0] == s.task.saved[0] && r.task.sm == s.task.sm
  {
  }

  /** Completion: the last reply answered a write that one slave took, and that write carried the whole header and
      message. */
  lemma CompleteDelivers(run: seq<System>, rounds: seq<Round>, t: Task, sm: SyncManager, slave: SlaveAddress,
                         waitEmpty: bool, message: seq<byte>, k: nat)
    requires |t.saved| == CHECK_SIZE <= |message| && IsRun(run, rounds) && k < |rounds|
    requires run[0] == Begin(t, sm, slave, waitEmpty, message)
    requires !run[k].task.state.Complete? && run[k + 1].task.state.Complete?
    ensures run[k].task.state.Write? && rounds[k].reply.wkc == 1 && Matches(run[k].task.command, rounds[k].reply.command)
    ensures run[k].buf == Header(run, rounds, message, k) + message[CHECK_SIZE..]
    ensures sm.size <= |run[k].buf| && rounds[k].reply.data == run[k].buf[..sm.size]
  {
    assert Linked(run, rounds, k);
    ModeKept(run, rounds, t, sm, slave, waitEmpty, message, k);
    WriteCarries(run, rounds, t, sm, slave, waitEmpty, message, k);
  }

  // ------------------------------------------------------------------ when a write is sent

  /** A run for this slave, SyncManager and message. */
  ghost predicate RunFor(run: seq<System>, rounds: seq<Round>, t: Task, sm: SyncManager, slave: SlaveAddress, waitEmpty: bool,
                         message: seq<byte>)
  {
    |t.saved| == CHECK_SIZE <= |message| && IsRun(run, rounds) && run[0] == Begin(t, sm, slave, waitEmpty, message)
  }

  /** The request of each busy state: the status and activation bytes of the SyncManager, or the message. */
  lemma {:induction false} RequestsMatch(run: seq<System>, rounds: seq<Round>, t: Task, sm: SyncManager, slave: SlaveAddress,
                                         waitEmpty: bool, message: seq<byte>, k: nat)
    requires RunFor(run, rounds, t, sm, slave, waitEmpty, message) && k < |run|
    ensures var state := run[k].task.state;
      && (state.CheckEmpty? ==> run[k].pending == Some(Request(NewRead(Single(slave), 0x0805 + 8 * sm.number), 2)))
      && (state.Write? ==> run[k].pending == Some(Request(NewWrite(Single(slave), sm.start), sm.size)))
      && (Busy(state) ==> run[k].task.command == run[k].pending.value.command)
  {
    ModeKept(run, rounds, t, sm, slave, waitEmpty, message, k);
    if k > 0 {
      RequestsMatch(run, rounds, t, sm, slave, waitEmpty, message, k - 1);
      assert Linked(run, rounds, k - 1);
    }
  }

  /** The timer runs since the first reply. */
  lemma {:induction false} TimerIsFirst(run: seq<System>, rounds: seq<Round>, t: Task, sm: SyncManager, slave: SlaveAddress,
                                        waitEmpty: bool, message: seq<byte>, k: nat)
    requires RunFor(run, rounds, t, sm, slave, waitEmpty, message) && k < |run| && Busy(run[k].task.state)
    ensures run[k].task.timerStart == if k == 0 then 0 else rounds[0].time
    ensures run[k].task.state.CheckEmpty? ==> (run[k].task.state.first <==> k == 0)
  {
    if k > 0 {
      assert Linked(run, rounds, k - 1);
      TimerIsFirst(run, rounds, t, sm, slave, waitEmpty, message, k - 1);
    }
  }

  /** Reply k comes more than 100 ms after the first one. */
  predicate Late(rounds: seq<Round>, k: nat)
    requires k < |rounds|
  {
    rounds[k].time > rounds[0].time + 100_000_000
  }

  /** Reply k belongs to the request that is out. */
  predicate Ours(run: seq<System>, rounds: seq<Round>, k: nat)
    requires k < |rounds| < |run|
  {
    rounds[k].reply.command.ctype == run[k].task.command.ctype && rounds[k].reply.command.ado == run[k].task.command.ado
  }

  /** Reply k was a status read that one slave answered. */
  predicate StatusHeard(run: seq<System>, rounds: seq<Round>, k: nat)
    requires k < |rounds| < |run|
  {
    run[k].task.state.CheckEmpty? && Ours(run, rounds, k) && rounds[k].reply.wkc == 1 && |rounds[k].reply.data| == 2
  }

  /** A write is sent only directly after a poll that showed the mailbox empty, or again after a write nobody took. */
  lemma WriteFollowsEmpty(run: seq<System>, rounds: seq<Round>, t: Task, sm: SyncManager, slave: SlaveAddress, waitEmpty: bool,
                          message: seq<byte>, k: nat)
    requires RunFor(run, rounds, t, sm, slave, waitEmpty, message) && k < |run| && run[k].task.state.Write?
    ensures k > 0 && Ours(run, rounds, k - 1)
    ensures
      || (StatusHeard(run, rounds, k - 1) && !Bit(rounds[k - 1].reply.data[0], 3))
      || (run[k - 1].task.state.Write? && rounds[k - 1].reply.wkc != 1)
  {
    assert k > 0;
    assert Linked(run, rounds, k - 1);
  }

  /** What a poll in time leads to: no answer and a full mailbox that is not waited for end the task, each with its own
      error; a full one that is waited for is polled again; an empty one is written to, if the message can be. */
  lemma PollDecides(run: seq<System>, rounds: seq<Round>, t: Task, sm: SyncManager, slave: SlaveAddress, waitEmpty: bool,
                    message: seq<byte>, k: nat)
    requires RunFor(run, rounds, t, sm, slave, waitEmpty, message) && k < |rounds| && run[k].task.state.CheckEmpty?
    requires Ours(run, rounds, k) && !Late(rounds, k)
    ensures |rounds[k].reply.data| == 2
    ensures run[k + 1].task.state ==
      if rounds[k].reply.wkc != 1 then Error(TaskSpecific(NoSlaveReaction))
      else if Bit(rounds[k].reply.data[0], 3) then
        if waitEmpty then CheckEmpty(false, true) else Error(TaskSpecific(MailboxAlreadyExisted))
      else if |message| < sm.size then Error(TaskSpecific(BufferSmall))
      else Write
  {
    RequestsMatch(run, rounds, t, sm, slave, waitEmpty, message, k);
    ModeKept(run, rounds, t, sm, slave, waitEmpty, message, k);
    TimerIsFirst(run, rounds, t, sm, slave, waitEmpty, message, k);
    BufferKept(run, rounds, t, sm, slave, waitEmpty, message, k);
    assert Linked(run, rounds, k);
  }

  lemma {:induction false} BufferKept(run: seq<System>, rounds: seq<Round>, t: Task, sm: SyncManager, slave: SlaveAddress,
                                      waitEmpty: bool, message: seq<byte>, k: nat)
    requires RunFor(run, rounds, t, sm, slave, waitEmpty, message) && k < |run|
    ensures |run[k].buf| == |message|
  {
    if k > 0 {
      BufferKept(run, rounds, t, sm, slave, waitEmpty, message, k - 1);
      assert Linked(run, rounds, k - 1);
    }
  }

  /** A write in time is repeated until one slave takes it. */
  lemma WriteDecides(run: seq<System>, rounds: seq<Round>, t: Task, sm: SyncManager, slave: SlaveAddress, waitEmpty: bool,
                     message: seq<byte>, k: nat)
    requires RunFor(run, rounds, t, sm, slave, waitEmpty, message) && k < |rounds| && run[k].task.state.Write?
    requires Ours(run, rounds, k) && !Late(rounds, k)
    ensures run[k + 1].task.state == if rounds[k].reply.wkc == 1 then Complete else Write
  {
    ModeKept(run, rounds, t, sm, slave, waitEmpty, message, k);
    TimerIsFirst(run, rounds, t, sm, slave, waitEmpty, message, k);
    BufferKept(run, rounds, t, sm, slave, waitEmpty, message, k);
    assert Linked(run, rounds, k);
    assert k > 0;
  }

  /** A later reply ends the task with a timeout, and one in time to another request with an unexpected command. */
  lemma OtherReplyEnds(run: seq<System>, rounds: seq<Round>, t: Task, sm: SyncManager, slave: SlaveAddress, waitEmpty: bool,
                       message: seq<byte>, k: nat)
    requires RunFor(run, rounds, t, sm, slave, waitEmpty, message) && 0 < k < |rounds| && Busy(run[k].task.state)
    ensures Late(rounds, k) ==> run[k + 1].task.state == Error(Timeout)
    ensures !Late(rounds, k) && !Ours(run, rounds, k) ==> run[k + 1].task.state == Error(UnexpectedCommand)
  {
    TimerIsFirst(run, rounds, t, sm, slave, waitEmpty, message, k);
    assert Linked(run, rounds, k);
  }
}
