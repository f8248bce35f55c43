/** `SlaveInitTask`: the class, proved to take the steps of the state machine. */
module SlaveInitTasks {
  import opened Bytes
  import opened Commands
  import opened Tasks
  import Al = AlTransfer
  import Sii = SiiRead
  import opened SlaveInit

  const BUFFER_SIZE := 16

  datatype Outcome = Done(info: Option<Info>) | Failed(error: TaskError<InitError>) | Running

  class SlaveInitTask {
    var inner: Inner
    var position: u16
    var state: State
    var command: Command
    var info: Option<Info>

    ghost function View(): Task
      reads this
    {
      Task(inner, position, state, command, info)
    }

    constructor ()
      ensures View() == Task(This, 0, Idle, DEFAULT_COMMAND, None)
    {
      inner, position, state, command, info := This, 0, Idle, DEFAULT_COMMAND, None;
    }

    method Start(position: u16)
      modifies this
      ensures View() == SlaveInit.Start(old(View()), position)
    {
      this.position, state, info := position, SetLoopPort, Some(NEW_INFO);
    }

    /** `wait` hands the collected information out once. */
    method Wait() returns (r: Outcome)
      modifies this`info
      ensures r == match state
                   case Complete => Done(old(info))
                   case Error(e) => Failed(e)
                   case _ => Running
      ensures info == if state.Complete? then None else old(info)
    {
      match state {
        case Complete =>
          r := Done(info);
          info := None;
        case Error(e) => r := Failed(e);
        case _ => r := Running;
      }
    }

    /** `next_pdu`: the length of the request, written at the front of the buffer. */
    method NextPdu(buf: array<byte>) returns (length: Option<nat>)
      requires CanAsk(View()) && BUFFER_SIZE <= buf.Length
      modifies this, buf
      ensures CanAsk(View()) && (View(), length.Some?) == Asked(old(View()))
      ensures length.Some? ==> length.value == |DataOf(View())| <= buf.Length && buf[..length.value] == DataOf(View())
    {
      if state.RequestInitState? {
        length := NextAl(buf, state.first);
      } else if state.Get? {
        length := NextSii(buf, state.word, state.first);
      } else if state.SetStationAddress? {
        length := NextStation(buf);
      } else {
        length := NextOwn(buf);
      }
    }

    method NextStation(buf: array<byte>) returns (length: Option<nat>)
      requires state.SetStationAddress? && CanAsk(View()) && BUFFER_SIZE <= buf.Length
      modifies this, buf
      ensures CanAsk(View()) && (View(), length.Some?) == Asked(old(View()))
      ensures length.Some? ==> length.value == |DataOf(View())| <= buf.Length && buf[..length.value] == DataOf(View())
    {
      command := NewWrite(Single(SlavePosition(position)), STATION_ADDRESS);
      var address: u16 := position + 1;
      info := Some(info.value.(address := address));
      Put(buf, [Low(address), High(address), 0, 0]);
      return Some(4);
    }

    method NextAl(buf: array<byte>, first: bool) returns (length: Option<nat>)
      requires state == RequestInitState(first) && BUFFER_SIZE <= buf.Length
      modifies this, buf
      ensures (View(), length.Some?) == Asked(old(View()))
      ensures length.Some? ==> length.value == |DataOf(View())| <= buf.Length && buf[..length.value] == DataOf(View())
    {
      var al := if inner.AlTask? then inner.al else NEW_AL;
      if first {
        al := al.(state := Al.Read, slave := Single(SlavePosition(position)), target := Al.Init, command := DEFAULT_COMMAND);
      }
      if !Al.Busy(al.state) {
        inner := AlTask(al);
        return None;
      }
      al := Al.Asked(al);
      inner, command := AlTask(al), al.command;
      Put(buf, Al.DataOf(al));
      return Some(|Al.DataOf(al)|);
    }

    method NextSii(buf: array<byte>, word: Word, first: bool) returns (length: Option<nat>)
      requires state == Get(word, first) && CanAsk(View()) && BUFFER_SIZE <= buf.Length
      modifies this, buf
      ensures CanAsk(View()) && (View(), length.Some?) == Asked(old(View()))
      ensures length.Some? ==> length.value == |DataOf(View())| <= buf.Length && buf[..length.value] == DataOf(View())
    {
      if word == VenderId && !inner.SiiTask? { inner := SiiTask(Sii.NEW); }
      var sii := inner.sii;
      if first { sii := Sii.Start(sii, SlavePosition(position), word.Address()); }
      if !Sii.Busy(sii.state) {
        inner := SiiTask(sii);
        return None;
      }
      sii := Sii.Asked(sii);
      inner, command := SiiTask(sii), sii.command;
      Put(buf, Sii.DataOf(sii));
      return Some(|Sii.DataOf(sii)|);
    }

    /** The phases that write or read one register of their own. */
    method NextOwn(buf: array<byte>) returns (length: Option<nat>)
      requires CanAsk(View()) && BUFFER_SIZE <= buf.Length
      requires !state.RequestInitState? && !state.Get? && !state.SetStationAddress?
      modifies this`command, buf
      ensures CanAsk(View()) && (View(), length.Some?) == Asked(old(View()))
      ensures length.Some? ==> length.value == |DataOf(View())| <= buf.Length && buf[..length.value] == DataOf(View())
    {
      if !Busy(state) { return None; }
      if ReadsRegister(state) {
        command := NewRead(Single(SlavePosition(position)), RegisterOf(state));
      } else {
        command := NewWrite(Single(SlavePosition(position)), RegisterOf(state));
      }
      var data := DataOf(Task(inner, position, state, command, info));
      Put(buf, data);
      return Some(|data|);
    }

    method RecieveAndProcess(reply: Reply, time: nat)
      requires CanAsk(View()) && CanHear(View()) && Answers(View(), reply)
      modifies this
      ensures View() == OnReply(old(View()), reply, time)
    {
      if !Matches(command, reply.command) { state := Error(UnexpectedCommand); }
      if reply.wkc != 1 { state := Error(UnexpectedWkc(1, reply.wkc)); }
      match state {
        case Idle =>
        case Error(_) =>
        case Stopped =>
        case Complete =>
        case SetLoopPort => state := RequestInitState(true);
        case RequestInitState(_) => HearAl(reply, time);
        case Get(word, _) => HearSii(word, reply, time);
        case ResetErrorCount => state := SetWatchDogDivider;
        case SetWatchDogDivider => state := DisableDlWatchDog;
        case DisableDlWatchDog => state := DisableSmWatchDog;
        case DisableSmWatchDog => state := CheckDlStatus;
        case CheckDlStatus =>
          var data := reply.data;
          if !Bit(data[0], 0) {
            state := Error(TaskSpecific(FailedToLoadEeprom));
          } else {
            info := Some(info.value.(linked := [Bit(data[1], 1), Bit(data[1], 3), Bit(data[1], 5), Bit(data[1], 7)]));
            state := CheckDlInfo;
          }
        case CheckDlInfo => HearDlInfo(reply.data);
        case ClearFmmu(n) => state := if n < 3 then ClearFmmu(n + 1) else ClearSm(0);
        case ClearSm(n) => state := if n < 4 then ClearSm(n + 1) else Get(VenderId, true);
        case SetSmControl(n) => state := SetSmActivation(n);
        case SetSmActivation(n) => state := if 3 <= n then SetStationAddress else SetSmControl(n + 1);
        case SetStationAddress => state := CheckPdiControl;
        case CheckPdiControl =>
          info := Some(info.value.(strictAl := Bit(reply.data[1], 0)));
          state := if info.value.dc then ClearDcActivation else Complete;
        case ClearDcActivation => state := ClearCyclicOperationStartTime;
        case ClearCyclicOperationStartTime => state := ClearSync0CycleTime;
        case ClearSync0CycleTime => state := ClearSync1CycleTime;
        case ClearSync1CycleTime => state := Complete;
      }
    }

    method HearAl(reply: Reply, time: nat)
      requires state.RequestInitState? && inner.AlTask?
      requires Al.Reads(inner.al.state) ==> |reply.data| == Al.STATUS_SIZE
      modifies this`inner, this`state
      ensures View() == OnAlReply(old(View()), Al.OnReply(old(inner).al, reply, time))
    {
      var al := Al.OnReply(inner.al, reply, time);
      inner := AlTask(al);
      match al.state {
        case Complete => state := if al.current == Al.Init then ResetErrorCount else Stopped;
        case Error(e) => state := Error(FromAl(e));
        case Stopped => state := Stopped;
        case _ => state := RequestInitState(false);
      }
    }

    method HearSii(word: Word, reply: Reply, time: nat)
      requires state.Get? && CanHear(View())
      requires Sii.Busy(inner.sii.state) ==> |reply.data| == |Sii.DataOf(inner.sii)|
      modifies this
      ensures View() == OnSiiReply(old(View()), word, Sii.OnReply(old(inner).sii, reply, time))
    {
      var sii := Sii.OnReply(inner.sii, reply, time);
      inner := SiiTask(sii);
      match sii.state {
        case Complete =>
          var learned := Learn(info.value, word, sii.data);
          if learned.None? {
            state := Stopped;
          } else {
            info := learned;
            state := NextWord(word);
          }
        case Error(e) => state := Error(FromSii(e));
        case _ => state := Get(word, false);
      }
    }

    method HearDlInfo(data: seq<byte>)
      requires info.Some? && |data| == 10
      modifies this`info, this`state
      ensures View() == OnDlInfo(old(View()), data)
    {
      var dc := Bit(data[8], 2);
      if (dc && !Bit(data[8], 3)) || Bit(data[9], 1) {
        state := Stopped;
        return;
      }
      info := Some(info.value.(dc := dc, bitOperation := !Bit(data[8], 0), ramKb := data[6], fmmus := data[4], sms := data[5]));
      state := ClearFmmu(0);
    }
  }
}
