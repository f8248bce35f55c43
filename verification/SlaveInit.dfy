/** `SlaveInitTask` as a state machine: register set-up of one slave, with the AL transfer and the SII reader
    as sub-tasks. */
module SlaveInit {
  import opened Bytes
  import opened Commands
  import opened Tasks
  import opened SyncManagers
  import Al = AlTransfer
  import Sii = SiiRead

  const STATION_ADDRESS := 0x0010
  const DL_CONTROL := 0x0100
  const MAX_SM_SIZE := 256
  const RAM_START := 0x1000

  datatype InitError = AlStateTransition(al: Al.TransferError) | SiiFailed(sii: Sii.SiiError) | FailedToLoadEeprom

  /** The words of the SII the task collects, in order. */
  datatype Word = VenderId | ProductCode | Revision | Protocol | RxSize | RxOffset | TxSize | TxOffset {
    function Address(): u16 {
      match this
      case VenderId => 8 case ProductCode => 10 case Revision => 12 case Protocol => 0x1C
      case RxSize => 0x19 case RxOffset => 0x18 case TxSize => 0x1B case TxOffset => 0x1A
    }

    function Index(): (i: nat)
      ensures i < 8
    {
      match this
      case VenderId => 0 case ProductCode => 1 case Revision => 2 case Protocol => 3
      case RxSize => 4 case RxOffset => 5 case TxSize => 6 case TxOffset => 7
    }
  }

  /** `Stopped` is a failed assertion or an arithmetic overflow, which ends the program. */
  datatype State =
    | Idle | Error(error: TaskError<InitError>) | Stopped | Complete
    | SetLoopPort | RequestInitState(first: bool) | ResetErrorCount | SetWatchDogDivider
    | DisableDlWatchDog | DisableSmWatchDog | CheckDlStatus | CheckDlInfo
    | ClearFmmu(count: nat) | ClearSm(count: nat)
    | Get(word: Word, first: bool)
    | SetSmControl(num: nat) | SetSmActivation(num: nat) | SetStationAddress | CheckPdiControl
    | ClearDcActivation | ClearCyclicOperationStartTime | ClearSync0CycleTime | ClearSync1CycleTime

  datatype SmType = MailboxRx(sm: SyncManager) | MailboxTx(sm: SyncManager) | ProcessDataRx | ProcessDataTx

  datatype Info = Info(
    address: u16, vender: u16, product: u16, revision: u16, linked: seq<bool>, ramKb: byte, fmmus: byte, sms: byte,
    pdoStart: Option<u16>, pdoSize: u16, sm: seq<Option<SmType>>, dc: bool, bitOperation: bool, coe: bool, strictAl: bool)

  const NEW_INFO := Info(0, 0, 0, 0, [false, false, false, false], 0, 0, 0, None, 0, [None, None, None, None], false, false, false, false)

  datatype Inner = This | SiiTask(sii: Sii.Task) | AlTask(al: Al.Task)

  datatype Task = Task(inner: Inner, position: u16, state: State, command: Command, info: Option<Info>) {
    function Slave(): TargetSlave { Single(SlavePosition(position)) }
  }

  predicate Busy(s: State) { !(s.Idle? || s.Error? || s.Stopped? || s.Complete?) }

  function Start(t: Task, position: u16): Task {
    t.(position := position, state := SetLoopPort, info := Some(NEW_INFO))
  }

  // ------------------------------------------------------------------ requests

  /** The `unwrap`s of `next_pdu` in this state succeed, and the station address fits its register. */
  predicate CanAsk(t: Task) {
    match t.state
    case Get(word, _) => word == VenderId || t.inner.SiiTask?
    case SetSmControl(n) => t.info.Some? && n < |t.info.value.sm|
    case SetSmActivation(n) => t.info.Some? && n < |t.info.value.sm|
    case SetStationAddress => t.info.Some? && t.position < 0xFFFF
    case _ => true
  }

  const NEW_AL := Al.Task(0, Al.Idle, Single(SlavePosition(0)), Al.Init, DEFAULT_COMMAND, Al.Init, 0)

  /** The AL task `next_pdu` works with, before its own `next_pdu`. */
  function AlFor(t: Task, first: bool): Al.Task {
    var al := if t.inner.AlTask? then t.inner.al else NEW_AL;
    if first then al.(state := Al.Read, slave := t.Slave(), target := Al.Init, command := DEFAULT_COMMAND) else al
  }

  function SiiFor(t: Task, word: Word, first: bool): Sii.Task {
    var sii := if t.inner.SiiTask? then t.inner.sii else Sii.NEW;
    if first then Sii.Start(sii, SlavePosition(t.position), word.Address()) else sii
  }

  /** The register a phase of its own writes or reads. */
  function RegisterOf(s: State): (r: u16)
    requires Busy(s) && !s.RequestInitState? && !s.Get?
  {
    match s
    case SetLoopPort => DL_CONTROL
    case ResetErrorCount => 0x0300
    case SetWatchDogDivider => 0x0400
    case DisableDlWatchDog => 0x0410
    case DisableSmWatchDog => 0x0420
    case CheckDlStatus => 0x0110
    case CheckDlInfo => 0x0000
    case ClearFmmu(n) => (0x0600 + n * 0x10) % 0x1_0000
    case ClearSm(n) => (0x0800 + n * 8) % 0x1_0000
    case SetSmControl(n) => (0x0800 + n * 8) % 0x1_0000
    case SetSmActivation(n) => (ACTIVATION + n * 8) % 0x1_0000
    case SetStationAddress => STATION_ADDRESS
    case CheckPdiControl => 0x0140
    case ClearDcActivation => 0x0981
    case ClearCyclicOperationStartTime => 0x0990
    case ClearSync0CycleTime => 0x09A0
    case ClearSync1CycleTime => 0x09A4
  }

  predicate ReadsRegister(s: State) { s.CheckDlStatus? || s.CheckDlInfo? || s.CheckPdiControl? }

  function OwnCommand(t: Task): Command
    requires Busy(t.state) && !t.state.RequestInitState? && !t.state.Get?
  {
    if ReadsRegister(t.state) then NewRead(t.Slave(), RegisterOf(t.state)) else NewWrite(t.Slave(), RegisterOf(t.state))
  }

  function ControlBytes(sm: Option<SmType>): seq<byte> {
    match sm
    case Some(MailboxRx(m)) => [Low(m.start), High(m.start), Low(m.size), High(m.size), 0x26]
    case Some(MailboxTx(m)) => [Low(m.start), High(m.start), Low(m.size), High(m.size), 0x22]
    case _ => Zeros(5)
  }

  predicate IsMailbox(sm: Option<SmType>) { sm.Some? && (sm.value.MailboxRx? || sm.value.MailboxTx?) }

  /** The bytes of the PDU in the socket after `next_pdu`. */
  function DataOf(t: Task): seq<byte>
    requires CanAsk(t)
  {
    match t.state
    case SetLoopPort => [1, 0, 7, 0]
    case RequestInitState(_) => if t.inner.AlTask? then Al.DataOf(t.inner.al) else []
    case Get(_, _) => if t.inner.SiiTask? then Sii.DataOf(t.inner.sii) else []
    case ResetErrorCount => Zeros(8)
    case SetWatchDogDivider => [Low(2498), High(2498)]
    case DisableDlWatchDog => Zeros(2)
    case DisableSmWatchDog => Zeros(2)
    case CheckDlStatus => Zeros(2)
    case CheckDlInfo => Zeros(10)
    case ClearFmmu(_) => Zeros(16)
    case ClearSm(_) => Zeros(7)
    case SetSmControl(n) => ControlBytes(t.info.value.sm[n])
    case SetSmActivation(n) => [if IsMailbox(t.info.value.sm[n]) then 1 else 0]
    case SetStationAddress => [Low(t.position + 1), High(t.position + 1), 0, 0]
    case CheckPdiControl => Zeros(2)
    case ClearDcActivation => [0]
    case ClearCyclicOperationStartTime => Zeros(4)
    case ClearSync0CycleTime => Zeros(4)
    case ClearSync1CycleTime => Zeros(4)
    case _ => []
  }

  /** `next_pdu`: the task after it, and whether there is a request. */
  function Asked(t: Task): (r: (Task, bool))
    requires CanAsk(t)
  {
    if t.state.RequestInitState? then
      var al := AlFor(t, t.state.first);
      if Al.Busy(al.state) then (t.(inner := AlTask(Al.Asked(al)), command := Al.CommandOf(al)), true)
      else (t.(inner := AlTask(al)), false)
    else if t.state.Get? then
      var sii := SiiFor(t, t.state.word, t.state.first);
      if Sii.Busy(sii.state) then (t.(inner := SiiTask(Sii.Asked(sii)), command := Sii.CommandOf(sii)), true)
      else (t.(inner := SiiTask(sii)), false)
    else if t.state.SetStationAddress? then
      (t.(command := OwnCommand(t), info := Some(t.info.value.(address := t.position + 1))), true)
    else if Busy(t.state) then (t.(command := OwnCommand(t)), true)
    else (t, false)
  }

  // ------------------------------------------------------------------ replies

  /** The `unwrap`s of `recieve_and_process` in this state succeed. */
  predicate CanHear(t: Task) {
    match t.state
    case RequestInitState(_) => t.inner.AlTask?
    case Get(_, _) => t.inner.SiiTask? && |t.inner.sii.data| == Sii.DATA_SIZE && t.info.Some? && |t.info.value.sm| == 4
    case CheckDlStatus => t.info.Some?
    case CheckDlInfo => t.info.Some?
    case CheckPdiControl => t.info.Some?
    case _ => true
  }

  /** A reply is as long as its request. */
  predicate Answers(t: Task, reply: Reply)
    requires CanAsk(t)
  {
    Busy(t.state) ==> |reply.data| == |DataOf(t)|
  }

  function FromAl(e: TaskError<Al.TransferError>): TaskError<InitError> {
    match e
    case UnexpectedCommand => UnexpectedCommand
    case UnexpectedWkc(a, b) => UnexpectedWkc(a, b)
    case Timeout => Timeout
    case TaskSpecific(x) => TaskSpecific(AlStateTransition(x))
  }

  function FromSii(e: TaskError<Sii.SiiError>): TaskError<InitError> {
    match e
    case UnexpectedCommand => UnexpectedCommand
    case UnexpectedWkc(a, b) => UnexpectedWkc(a, b)
    case Timeout => Timeout
    case TaskSpecific(x) => TaskSpecific(SiiFailed(x))
  }

  predicate AllZero(s: seq<byte>) { forall i :: 0 <= i < |s| ==> s[i] == 0 }

  /** What the answer to an SII word adds to the slave information; None is an arithmetic overflow. */
  function Learn(info: Info, word: Word, data: seq<byte>): Option<Info>
    requires |data| == Sii.DATA_SIZE && |info.sm| == 4
  {
    var value := Bytes.Word(data[0], data[1]);
    match word
    case VenderId => Some(info.(vender := value))
    case ProductCode => Some(info.(product := value))
    case Revision => Some(info.(revision := value))
    case Protocol => Some(info.(coe := Bit(data[0], 2)))
    case RxSize =>
      if 4 <= info.sms && !AllZero(data) then
        Some(info.(sm := info.sm[0 := Some(MailboxRx(SyncManager(0, Capped(value), 0)))][2 := Some(ProcessDataRx)]))
      else if 2 <= info.sms then Some(info.(sm := info.sm[0 := Some(ProcessDataRx)]))
      else Some(info)
    case RxOffset =>
      if info.sm[0].Some? && info.sm[0].value.MailboxRx? then
        Some(info.(sm := info.sm[0 := Some(MailboxRx(info.sm[0].value.sm.(start := value)))]))
      else Some(info)
    case TxSize =>
      if 4 <= info.sms && !AllZero(data) then
        Some(info.(sm := info.sm[1 := Some(MailboxTx(SyncManager(1, Capped(value), 0)))][3 := Some(ProcessDataTx)]))
      else if 2 <= info.sms then Some(info.(sm := info.sm[1 := Some(ProcessDataTx)]))
      else Some(info)
    case TxOffset =>
      var placed :=
        if info.sm[1].Some? && info.sm[1].value.MailboxTx? then
          info.(sm := info.sm[1 := Some(MailboxTx(info.sm[1].value.sm.(start := value)))])
        else info;
      WithPdoRam(placed)
  }

  function Capped(size: u16): u16 { if size <= MAX_SM_SIZE then size else MAX_SM_SIZE }

  function NextWord(word: Word): State {
    match word
    case VenderId => Get(ProductCode, true)
    case ProductCode => Get(Revision, true)
    case Revision => Get(Protocol, true)
    case Protocol => Get(RxSize, true)
    case RxSize => Get(RxOffset, true)
    case RxOffset => Get(TxSize, true)
    case TxSize => Get(TxOffset, true)
    case TxOffset => SetSmControl(0)
  }

  /** `recieve_and_process`. */
  function OnReply(t: Task, reply: Reply, time: nat): Task
    requires CanAsk(t) && CanHear(t) && Answers(t, reply)
  {
    if reply.wkc != 1 then t.(state := Error(UnexpectedWkc(1, reply.wkc)))
    else if !Matches(t.command, reply.command) then t.(state := Error(UnexpectedCommand))
    else
      match t.state
      case SetLoopPort => t.(state := RequestInitState(true))
      case RequestInitState(_) => OnAlReply(t, Al.OnReply(t.inner.al, reply, time))
      case Get(word, _) => OnSiiReply(t, word, Sii.OnReply(t.inner.sii, reply, time))
      case ResetErrorCount => t.(state := SetWatchDogDivider)
      case SetWatchDogDivider => t.(state := DisableDlWatchDog)
      case DisableDlWatchDog => t.(state := DisableSmWatchDog)
      case DisableSmWatchDog => t.(state := CheckDlStatus)
      case CheckDlStatus => OnDlStatus(t, reply.data)
      case CheckDlInfo => OnDlInfo(t, reply.data)
      case ClearFmmu(n) => t.(state := if n < 3 then ClearFmmu(n + 1) else ClearSm(0))
      case ClearSm(n) => t.(state := if n < 4 then ClearSm(n + 1) else Get(VenderId, true))
      case SetSmControl(n) => t.(state := SetSmActivation(n))
      case SetSmActivation(n) => t.(state := if 3 <= n then SetStationAddress else SetSmControl(n + 1))
      case SetStationAddress => t.(state := CheckPdiControl)
      case CheckPdiControl =>
        t.(info := Some(t.info.value.(strictAl := Bit(reply.data[1], 0))),
           state := if t.info.value.dc then ClearDcActivation else Complete)
      case ClearDcActivation => t.(state := ClearCyclicOperationStartTime)
      case ClearCyclicOperationStartTime => t.(state := ClearSync0CycleTime)
      case ClearSync0CycleTime => t.(state := ClearSync1CycleTime)
      case ClearSync1CycleTime => t.(state := Complete)
      case _ => t
  }

  /** The AL sub-task has heard the reply. A completion in another state than Init cannot be handled. */
  function OnAlReply(t: Task, al: Al.Task): Task {
    var state :=
      match al.state
      case Complete => if al.current == Al.Init then ResetErrorCount else Stopped
      case Error(e) => Error(FromAl(e))
      case Stopped => Stopped
      case _ => RequestInitState(false);
    t.(inner := AlTask(al), state := state)
  }

  function OnSiiReply(t: Task, word: Word, sii: Sii.Task): Task
    requires t.info.Some? && |t.info.value.sm| == 4 && |sii.data| == Sii.DATA_SIZE
  {
    match sii.state
    case Complete =>
      var info := Learn(t.info.value, word, sii.data);
      if info.None? then t.(inner := SiiTask(sii), state := Stopped)
      else t.(inner := SiiTask(sii), state := NextWord(word), info := info)
    case Error(e) => t.(inner := SiiTask(sii), state := Error(FromSii(e)))
    case _ => t.(inner := SiiTask(sii), state := Get(word, false))
  }

  function OnDlStatus(t: Task, data: seq<byte>): Task
    requires t.info.Some? && |data| == 2
  {
    if !Bit(data[0], 0) then t.(state := Error(TaskSpecific(FailedToLoadEeprom)))
    else
      t.(info := Some(t.info.value.(linked := [Bit(data[1], 1), Bit(data[1], 3), Bit(data[1], 5), Bit(data[1], 7)])),
         state := CheckDlInfo)
  }

  /** A slave without 64-bit clocks (if it has any) or without LRW. */
  predicate Unsuitable(data: seq<byte>)
    requires |data| == 10
  {
    (Bit(data[8], 2) && !Bit(data[8], 3)) || Bit(data[9], 1)
  }

  /** An unsuitable slave ends the program. */
  function OnDlInfo(t: Task, data: seq<byte>): Task
    requires t.info.Some? && |data| == 10
  {
    var dc := Bit(data[8], 2);
    if Unsuitable(data) then t.(state := Stopped)
    else
      t.(info := Some(t.info.value.(dc := dc, bitOperation := !Bit(data[8], 0), ramKb := data[6], fmmus := data[4], sms := data[5])),
         state := ClearFmmu(0))
  }

  // ------------------------------------------------------------------ process data RAM

  function Min(a: nat, b: nat): nat { if a <= b then a else b }
  function Max(a: nat, b: nat): nat { if a <= b then b else a }

  /** The last RAM address. */
  function RamEnd(kb: nat): int { kb * 0x400 - 1 + RAM_START }

  /** No operation of `set_process_data_sm_size_offset` leaves the 16-bit range. */
  predicate RamFits(rx: SyncManager, tx: SyncManager, kb: nat) {
    && 1 <= kb && RamEnd(kb) <= 0xFFFF
    && 1 <= rx.start + rx.size <= 0xFFFF && 1 <= tx.start + tx.size <= 0xFFFF
  }

  predicate Apart(start: nat, size: nat, sm: SyncManager) {
    start + size <= sm.start || sm.start + sm.size <= start
  }

  predicate InRam(start: nat, size: nat, kb: nat) { RAM_START <= start && start + size <= RamEnd(kb) + 1 }

  /** The process data region: the larger of the two stretches below and above both mailboxes. It never meets a
      mailbox. It lies in the RAM exactly when the mailboxes start no later than the RAM ends and end no earlier
      than the RAM starts; otherwise it would run past the RAM, or over the registers before it. */
  function PdoRegion(rx: SyncManager, tx: SyncManager, kb: nat): (r: (u16, u16))
    requires RamFits(rx, tx, kb)
    ensures Apart(r.0, r.1, rx) && Apart(r.0, r.1, tx)
    ensures r.1 == 0 || InRam(r.0, r.1, kb) <==>
      Min(rx.start, tx.start) <= RamEnd(kb) + 1 && RAM_START <= Max(rx.start + rx.size, tx.start + tx.size)
  {
    var low := Min(rx.start, tx.start);
    var below := if low > RAM_START then low - RAM_START else 0;
    var last := Max(rx.start + rx.size - 1, tx.start + tx.size - 1);
    var above := if RamEnd(kb) > last then RamEnd(kb) - last else 0;
    if below > above then (RAM_START, below) else (last + 1, above)
  }

  /** Mailboxes below the RAM: the region takes the registers from 0x0980 on. */
  lemma RegionOverRegisters()
    ensures var rx, tx := SyncManager(0, 0x40, 0x0900), SyncManager(1, 0x40, 0x0940);
      RamFits(rx, tx, 1) && PdoRegion(rx, tx, 1) == (0x0980, 0x0A80) && !InRam(0x0980, 0x0A80, 1)
  {
  }

  /** `set_process_data_sm_size_offset`. */
  function WithPdoRam(info: Info): Option<Info>
    requires |info.sm| == 4
  {
    if info.sm[0].Some? && info.sm[0].value.MailboxRx? && info.sm[1].Some? && info.sm[1].value.MailboxTx? then
      var rx, tx := info.sm[0].value.sm, info.sm[1].value.sm;
      if !RamFits(rx, tx, info.ramKb) then None
      else
        var region := PdoRegion(rx, tx, info.ramKb);
        Some(info.(pdoStart := Some(region.0), pdoSize := region.1))
    else Some(info.(pdoStart := None))
  }

  /** With both mailboxes in the RAM the region is in the RAM, and no stretch of RAM below or above both
      mailboxes is longer. */
  lemma RegionIsLargest(rx: SyncManager, tx: SyncManager, kb: nat, start: nat, size: nat)
    requires RamFits(rx, tx, kb) && InRam(rx.start, rx.size, kb) && InRam(tx.start, tx.size, kb)
    requires InRam(start, size, kb)
    requires start + size <= Min(rx.start, tx.start) || Max(rx.start + rx.size, tx.start + tx.size) <= start
    ensures var region := PdoRegion(rx, tx, kb); region.1 >= size && InRam(region.0, region.1, kb)
  {
  }
}
