/** Initialisation of one slave on the line: what its registers hold afterwards, and that the information collected is
    what the slave and its EEPROM say. */
module SlaveInitBus {
  import opened Bytes
  import opened Commands
  import opened Tasks
  import opened SyncManagers
  import opened Bus
  import Al = AlTransfer
  import Sii = SiiRead
  import opened SlaveInit
  import opened SlaveInitRuns

  // ------------------------------------------------------------------ slaves

  /** Eight bytes of an EEPROM. */
  type Chunk = s: seq<byte> | |s| == 8 witness [0, 0, 0, 0, 0, 0, 0, 0]

  /** What the slave information interface returns for each word address. */
  type Eeprom = nat -> Chunk

  /** What the interface is doing: nothing yet, fetching from an address, or holding what it has fetched from there. */
  datatype SiiOp = NoOp | Loading(address: nat) | Loaded(address: nat)

  datatype Line = Line(slaves: seq<Memory>, ops: seq<SiiOp>) {
    predicate Ok(eeproms: seq<Eeprom>) { |slaves| == |ops| == |eeproms| <= 0x1_0000 }
  }

  /** Registers a slave changes by itself: AL control and status, the interface but not who owns it, SyncManager status,
      and the clocks. */
  predicate Volatile(a: nat) {
    || 0x0120 <= a < 0x0138 || 0x0501 <= a < 0x0504 || 0x0508 <= a < 0x0510
    || (0x0800 <= a < 0x0880 && (a % 8 == 5 || a % 8 == 7)) || 0x0900 <= a < 0x0980
  }

  /** While it fetches, the interface shows that it is busy; afterwards its data register holds what it has fetched. */
  predicate Consistent(eeprom: Eeprom, op: SiiOp, mem: Memory) {
    match op
    case NoOp => true
    case Loading(_) => Bit(mem(0x0503), 7)
    case Loaded(a) => Load(mem, 0x0508, 8) == eeprom(a)
  }

  /** A write that starts a read operation of the interface. */
  predicate StartsRead(c: Command, data: seq<byte>) {
    IsWrite(c.ctype) && c.ado == 0x0502 && |data| >= 2 && Bit(data[1], 0)
  }

  /** How a slave goes on after a datagram: what is not volatile stays as the datagram left it, and a read operation it
      was told to start, on the address in its address register, begins and at some time ends, if the master owns the
      interface. */
  ghost predicate Settles(eeprom: Eeprom, c: Command, data: seq<byte>, took: bool, passed: Memory, op: SiiOp, after: Memory, op': SiiOp) {
    && (forall a :: !Volatile(a) ==> after(a) == passed(a))
    && Consistent(eeprom, op', after)
    && if took && StartsRead(c, data) && !Bit(passed(0x0500), 0) then
         var a := DWord(Load(passed, 0x0504, 4)); op' == Loading(a) || op' == Loaded(a)
       else op' == op || (op.Loading? && op' == Loaded(op.address))
  }

  datatype LineRound = LineRound(hears: seq<bool>, passed: seq<Memory>, reply: Reply, time: nat) {
    function AsRound(): Round { Round(reply, time) }
  }

  /** One datagram passes the line. */
  ghost predicate Turn(eeproms: seq<Eeprom>, c: Command, data: seq<byte>, line: Line, round: LineRound, line': Line) {
    && line.Ok(eeproms) && line'.Ok(eeproms)
    && (forall p :: 0 <= p < |eeproms| ==> Consistent(eeproms[p], line.ops[p], line.slaves[p]))
    && Returns(c, data, line.slaves, round.hears, round.passed, round.reply) && |round.passed| == |eeproms|
    && forall p {:trigger line'.slaves[p]} :: 0 <= p < |eeproms| ==>
         Settles(eeproms[p], c, data, Takes(c, line.slaves, round.hears, p), round.passed[p], line.ops[p], line'.slaves[p], line'.ops[p])
  }

  /** A slave that holds `op` as the interface would show it. */
  function Shown(mem: Memory, eeprom: Eeprom, op: SiiOp): Memory {
    (a: nat) =>
      if op.Loaded? && 0x0508 <= a < 0x0510 then eeprom(op.address)[a - 0x0508]
      else if op.Loading? && a == 0x0503 then 128
      else mem(a)
  }

  lemma ShownIsConsistent(mem: Memory, eeprom: Eeprom, op: SiiOp)
    ensures Consistent(eeprom, op, Shown(mem, eeprom, op))
  {
    assert Bit(128, 7);
  }

  /** Every datagram can pass a consistent line, whoever hears it: none of what is assumed of the slaves is impossible. */
  lemma LineAnswers(eeproms: seq<Eeprom>, c: Command, data: seq<byte>, line: Line, hears: seq<bool>) returns (round: LineRound, line': Line)
    requires line.Ok(eeproms) && |hears| == |eeproms| < 0x1_0000
    requires forall p :: 0 <= p < |eeproms| ==> Consistent(eeproms[p], line.ops[p], line.slaves[p])
    ensures Turn(eeproms, c, data, line, round, line') && round.hears == hears
  {
    var r := Pass(c, data, line.slaves, hears, |line.slaves|);
    round := LineRound(hears, r.slaves, Reply(c, r.data, r.wkc), 0);
    var ops := seq(|eeproms|, p requires 0 <= p < |eeproms| =>
      if Takes(c, line.slaves, hears, p) && StartsRead(c, data) && !Bit(r.slaves[p](0x0500), 0)
      then Loaded(DWord(Load(r.slaves[p], 0x0504, 4))) else line.ops[p]);
    line' := Line(seq(|eeproms|, p requires 0 <= p < |eeproms| => Shown(r.slaves[p], eeproms[p], ops[p])), ops);
    forall p | 0 <= p < |eeproms|
      ensures Settles(eeproms[p], c, data, Takes(c, line.slaves, hears, p), r.slaves[p], line.ops[p], line'.slaves[p], line'.ops[p])
    {
      ShownIsConsistent(r.slaves[p], eeproms[p], ops[p]);
    }
  }

  // ------------------------------------------------------------------ what is known of the slave

  function Value16(c: Chunk): u16 { Bytes.Word(c[0], c[1]) }

  function Linked4(mem: Memory): seq<bool> {
    [Bit(mem(0x0111), 1), Bit(mem(0x0111), 3), Bit(mem(0x0111), 5), Bit(mem(0x0111), 7)]
  }

  /** A slave with four SyncManagers has the mailbox whose size word is not empty. */
  predicate HasMailbox(mem: Memory, size: Chunk) { 4 <= mem(0x0005) && !AllZero(size) }

  function MailboxSize(size: Chunk): u16 { if Value16(size) <= 256 then Value16(size) else 256 }

  /** The SyncManagers once `words` of the eight words have been read. */
  function SmTable(mem: Memory, eeprom: Eeprom, words: int): (sm: seq<Option<SmType>>)
    ensures |sm| == 4
  {
    var rx, tx := HasMailbox(mem, eeprom(0x19)), HasMailbox(mem, eeprom(0x1B));
    [if words <= 4 then None
     else if rx then Some(MailboxRx(SyncManager(0, MailboxSize(eeprom(0x19)), if words <= 5 then 0 else Value16(eeprom(0x18)))))
     else if 2 <= mem(0x0005) then Some(ProcessDataRx) else None,
     if words <= 6 then None
     else if tx then Some(MailboxTx(SyncManager(1, MailboxSize(eeprom(0x1B)), if words <= 7 then 0 else Value16(eeprom(0x1A)))))
     else if 2 <= mem(0x0005) then Some(ProcessDataTx) else None,
     if words > 4 && rx then Some(ProcessDataRx) else None,
     if words > 6 && tx then Some(ProcessDataTx) else None]
  }

  /** The process-data region computed from two mailboxes; none without both. */
  predicate RegionKnown(info: Info)
    requires |info.sm| == 4
  {
    match (info.sm[0], info.sm[1])
    case (Some(MailboxRx(rx)), Some(MailboxTx(tx))) =>
      RamFits(rx, tx, info.ramKb) && (info.pdoStart, info.pdoSize) == var r := PdoRegion(rx, tx, info.ramKb); (Some(r.0), r.1)
    case _ => info.pdoStart.None?
  }

  /** The information agrees with the slave and its EEPROM as far as phase `ph` has read them. */
  predicate Learned(ph: nat, info: Info, mem: Memory, eeprom: Eeprom) {
    && (ph > 6 ==> info.linked == Linked4(mem))
    && (ph > 7 ==>
          && info.fmmus == mem(0x0004) && info.sms == mem(0x0005) && info.ramKb == mem(0x0006)
          && info.dc == Bit(mem(0x0008), 2) && info.bitOperation == !Bit(mem(0x0008), 0))
    && (ph > 17 ==> info.vender == Value16(eeprom(0x08)))
    && (ph > 18 ==> info.product == Value16(eeprom(0x0A)))
    && (ph > 19 ==> info.revision == Value16(eeprom(0x0C)))
    && (ph > 20 ==> info.coe == Bit(eeprom(0x1C)[0], 2))
    && info.sm == SmTable(mem, eeprom, ph - 17)
    && (ph > 24 ==> RegionKnown(info))
    && (ph > 34 ==> info.strictAl == Bit(mem(0x0141), 0))
  }

  // ------------------------------------------------------------------ what the slave has been told

  /** The register phase q sets for good holds what it was set to. */
  predicate Set(q: nat, mem: Memory, info: Info, position: u16)
    requires |info.sm| == 4 && position < 0xFFFF
  {
    if q == 0 then Load(mem, 0x0100, 4) == [1, 0, 7, 0]
    else if q == 2 then Load(mem, 0x0300, 8) == Zeros(8)
    else if q == 3 then Load(mem, 0x0400, 2) == [Low(2498), High(2498)]
    else if q == 4 then Load(mem, 0x0410, 2) == Zeros(2)
    else if q == 5 then Load(mem, 0x0420, 2) == Zeros(2)
    else if 8 <= q < 12 then Load(mem, 0x0600 + 16 * (q - 8), 16) == Zeros(16)
    else if q == 16 then Load(mem, 0x0820, 5) == Zeros(5) && mem(0x0826) == 0
    else if 25 <= q < 33 then SmSet(q - 25, mem, info)
    else if q == 33 then Load(mem, 0x0010, 4) == [Low(position + 1), High(position + 1), 0, 0]
    else if 35 <= q < 39 then info.dc ==> ClockSet(q, mem)
    else true
  }

  predicate SmSet(k: nat, mem: Memory, info: Info)
    requires |info.sm| == 4 && k < 8
  {
    var n := k / 2;
    if k % 2 == 0 then Load(mem, 0x0800 + 8 * n, 5) == ControlBytes(info.sm[n])
    else mem(0x0806 + 8 * n) == if IsMailbox(info.sm[n]) then 1 else 0
  }

  predicate ClockSet(q: nat, mem: Memory) {
    if q == 35 then mem(0x0981) == 0
    else if q == 36 then Load(mem, 0x0990, 4) == Zeros(4)
    else if q == 37 then Load(mem, 0x09A0, 4) == Zeros(4)
    else Load(mem, 0x09A4, 4) == Zeros(4)
  }

  /** The stretch of registers phase q sets. */
  function Area(q: nat): (nat, nat) {
    if q == 0 then (0x0100, 0x0104)
    else if q == 2 then (0x0300, 0x0308)
    else if q == 3 then (0x0400, 0x0402)
    else if q == 4 then (0x0410, 0x0412)
    else if q == 5 then (0x0420, 0x0422)
    else if 8 <= q < 12 then (0x0600 + 16 * (q - 8), 0x0610 + 16 * (q - 8))
    else if q == 16 then (0x0820, 0x0827)
    else if 25 <= q < 33 then
      var n := (q - 25) / 2;
      if (q - 25) % 2 == 0 then (0x0800 + 8 * n, 0x0805 + 8 * n) else (0x0806 + 8 * n, 0x0807 + 8 * n)
    else if q == 33 then (0x0010, 0x0014)
    else if q == 35 then (0x0981, 0x0982)
    else if q == 36 then (0x0990, 0x0994)
    else if q == 37 then (0x09A0, 0x09A4)
    else if q == 38 then (0x09A4, 0x09A8)
    else (0, 0)
  }

  /** Only the registers of its area matter to a setting, and only those that do not move by themselves. */
  lemma SetFrame(q: nat, mem: Memory, mem': Memory, info: Info, info': Info, position: u16)
    requires |info.sm| == |info'.sm| == 4 && position < 0xFFFF && Set(q, mem, info, position)
    requires (q >= 35 ==> info'.dc == info.dc) && (q >= 25 ==> info'.sm == info.sm)
    requires forall a :: Area(q).0 <= a < Area(q).1 && !Volatile(a) ==> mem'(a) == mem(a)
    ensures Set(q, mem', info', position)
  {
    if 25 <= q < 33 {
      SmFrame(q, mem, mem', info, info');
    }
  }

  lemma SmFrame(q: nat, mem: Memory, mem': Memory, info: Info, info': Info)
    requires |info.sm| == 4 && 25 <= q < 33 && SmSet(q - 25, mem, info) && info'.sm == info.sm
    requires forall a :: Area(q).0 <= a < Area(q).1 && !Volatile(a) ==> mem'(a) == mem(a)
    ensures SmSet(q - 25, mem', info')
  {
  }

  // ------------------------------------------------------------------ one datagram to one slave

  /** The command is a read or a write of the slave at position p. */
  predicate ToSlave(c: Command, p: u16) {
    c == NewRead(Single(SlavePosition(p)), c.ado) || c == NewWrite(Single(SlavePosition(p)), c.ado)
  }

  lemma Reached(eeproms: seq<Eeprom>, c: Command, data: seq<byte>, line: Line, round: LineRound, line': Line, p: u16)
    requires Turn(eeproms, c, data, line, round, line') && ToSlave(c, p)
    ensures forall q {:trigger round.passed[q]} :: 0 <= q < |eeproms| && q != p ==> round.passed[q] == line.slaves[q]
    ensures round.reply.wkc == 1 ==> p < |eeproms| && Takes(c, line.slaves, round.hears, p)
    ensures round.reply.wkc == 1 && IsRead(c.ctype) ==>
      round.passed[p] == line.slaves[p] && round.reply.data == Load(line.slaves[p], c.ado, |data|)
    ensures round.reply.wkc == 1 && IsWrite(c.ctype) ==> round.passed[p] == Stored(line.slaves[p], c.ado, data)
  {
    forall q | 0 <= q < |eeproms| ensures Takes(c, line.slaves, round.hears, q) ==> q == p { ApAdpReaches(p, q); }
    WkcIsParties(c, data, line.slaves, round.hears, |line.slaves|);
    OneParty(c, line.slaves, round.hears, |line.slaves|, p);
    if IsRead(c.ctype) {
      ReadLeaves(c, data, line.slaves, round.hears, |line.slaves|);
      if round.reply.wkc == 1 { ReadFetches(c, data, line.slaves, round.hears, |line.slaves|, p); }
    } else {
      WriteStores(c, data, line.slaves, round.hears, |line.slaves|);
    }
  }

  /** No register of another slave moves but the volatile ones. */
  lemma OthersStay(eeproms: seq<Eeprom>, c: Command, data: seq<byte>, line: Line, round: LineRound, line': Line, p: u16, q: nat)
    requires Turn(eeproms, c, data, line, round, line') && ToSlave(c, p) && q < |eeproms| && q != p
    ensures forall a :: !Volatile(a) ==> line'.slaves[q](a) == line.slaves[q](a)
  {
    Reached(eeproms, c, data, line, round, line', p);
    var took := Takes(c, line.slaves, round.hears, q);
    assert Settles(eeproms[q], c, data, took, round.passed[q], line.ops[q], line'.slaves[q], line'.ops[q]);
  }

  // ------------------------------------------------------------------ the reader of the EEPROM

  /** How far the reader and the slave's interface have come with the word that is being read. */
  predicate Fetching(sii: Sii.Task, mem: Memory, op: SiiOp) {
    && (sii.state.CheckOwnership? || sii.state.SetAddress? || sii.state.SetReadOperation? ==> !Bit(mem(0x0500), 0))
    && (sii.state.SetReadOperation? ==> DWord(Load(mem, 0x0504, 4)) == sii.address)
    && (sii.state.Wait? ==> op == Loading(sii.address) || op == Loaded(sii.address))
    && (sii.state.Read? ==> op == Loaded(sii.address))
  }

  predicate Reading(t: Task, mem: Memory, op: SiiOp) {
    t.state.Get? ==>
      && t.inner.SiiTask? && t.inner.sii.slave == SlavePosition(t.position)
      && t.inner.sii.address == t.state.word.Address() && Fetching(t.inner.sii, mem, op)
  }

  /** Every request goes to the slave being initialised. */
  lemma RequestToSlave(t: Task, mem: Memory, op: SiiOp)
    requires Out(t) && Reading(t, mem, op)
    ensures ToSlave(t.command, t.position)
  {
    if t.state.RequestInitState? {
      match t.inner.al.state case _ => {}
    } else if t.state.Get? {
      match t.inner.sii.state case _ => {}
    }
  }

  /** One reply to the reader: it goes on with the slave, and what it ends with is what the EEPROM holds at its address. */
  lemma Fetched(eeproms: seq<Eeprom>, sii: Sii.Task, line: Line, round: LineRound, line': Line, p: u16)
    requires Sii.Busy(sii.state) && sii.slave == SlavePosition(p) && sii.command == Sii.CommandOf(sii)
    requires Turn(eeproms, sii.command, Sii.DataOf(sii), line, round, line') && p < |eeproms|
    requires Fetching(sii, line.slaves[p], line.ops[p]) && Sii.Good(sii, round.reply)
    ensures |round.reply.data| == |Sii.DataOf(sii)|
    ensures var r := Sii.OnReply(sii, round.reply, round.time);
      && r.slave == sii.slave && r.address == sii.address && Fetching(r, line'.slaves[p], line'.ops[p])
      && (r.state.Complete? ==> r.data == eeproms[p](sii.address))
  {
    var c, data := sii.command, Sii.DataOf(sii);
    Reached(eeproms, c, data, line, round, line', p);
    if sii.state.SetOwnership? {
      OwnershipTaken(eeproms, c, line, round, line', p);
    } else if sii.state.CheckOwnership? {
      OwnershipKept(eeproms, c, data, line, round, line', p);
    } else if sii.state.SetAddress? {
      AddressWritten(eeproms, c, sii.address, line, round, line', p);
      OwnershipKept(eeproms, c, data, line, round, line', p);
    } else if sii.state.SetReadOperation? {
      ReadStarted(eeproms, c, line, round, line', p);
    } else if sii.state.Wait? || sii.state.Read? {
      OpGoesOn(eeproms, c, data, line, round, line', p);
      if sii.state.Wait? { assert round.reply.data[1] == line.slaves[p](0x0503); }
    }
  }

  lemma OwnershipTaken(eeproms: seq<Eeprom>, c: Command, line: Line, round: LineRound, line': Line, p: u16)
    requires Turn(eeproms, c, [2, 0], line, round, line') && p < |eeproms|
    requires c == NewWrite(Single(SlavePosition(p)), 0x0500) && round.reply.wkc == 1
    ensures !Bit(line'.slaves[p](0x0500), 0)
  {
    Reached(eeproms, c, [2, 0], line, round, line', p);
    assert Settles(eeproms[p], c, [2, 0], Takes(c, line.slaves, round.hears, p), round.passed[p], line.ops[p], line'.slaves[p], line'.ops[p]);
    assert !Bit(2, 0);
  }

  lemma OwnershipKept(eeproms: seq<Eeprom>, c: Command, data: seq<byte>, line: Line, round: LineRound, line': Line, p: u16)
    requires Turn(eeproms, c, data, line, round, line') && p < |eeproms| && round.reply.wkc == 1
    requires c == NewRead(Single(SlavePosition(p)), 0x0500) || c == NewWrite(Single(SlavePosition(p)), 0x0504)
    ensures line'.slaves[p](0x0500) == line.slaves[p](0x0500)
  {
    Reached(eeproms, c, data, line, round, line', p);
    assert Settles(eeproms[p], c, data, Takes(c, line.slaves, round.hears, p), round.passed[p], line.ops[p], line'.slaves[p], line'.ops[p]);
  }

  lemma AddressWritten(eeproms: seq<Eeprom>, c: Command, address: u16, line: Line, round: LineRound, line': Line, p: u16)
    requires Turn(eeproms, c, DWordBytes(address), line, round, line') && p < |eeproms|
    requires c == NewWrite(Single(SlavePosition(p)), 0x0504) && round.reply.wkc == 1
    ensures DWord(Load(line'.slaves[p], 0x0504, 4)) == address
  {
    var data := DWordBytes(address);
    Reached(eeproms, c, data, line, round, line', p);
    assert Settles(eeproms[p], c, data, Takes(c, line.slaves, round.hears, p), round.passed[p], line.ops[p], line'.slaves[p], line'.ops[p]);
    DWordRoundTrip(address);
    LoadStored(line.slaves[p], 0x0504, data);
    assert Load(line'.slaves[p], 0x0504, 4) == Load(round.passed[p], 0x0504, 4) == data;
  }

  lemma ReadStarted(eeproms: seq<Eeprom>, c: Command, line: Line, round: LineRound, line': Line, p: u16)
    requires Turn(eeproms, c, [0, 1], line, round, line') && p < |eeproms|
    requires c == NewWrite(Single(SlavePosition(p)), 0x0502) && round.reply.wkc == 1 && !Bit(line.slaves[p](0x0500), 0)
    ensures var a := DWord(Load(line.slaves[p], 0x0504, 4)); line'.ops[p] == Loading(a) || line'.ops[p] == Loaded(a)
  {
    Reached(eeproms, c, [0, 1], line, round, line', p);
    assert Settles(eeproms[p], c, [0, 1], Takes(c, line.slaves, round.hears, p), round.passed[p], line.ops[p], line'.slaves[p], line'.ops[p]);
    assert Bit(1, 0);
    assert Load(round.passed[p], 0x0504, 4) == Load(line.slaves[p], 0x0504, 4);
  }

  lemma OpGoesOn(eeproms: seq<Eeprom>, c: Command, data: seq<byte>, line: Line, round: LineRound, line': Line, p: u16)
    requires Turn(eeproms, c, data, line, round, line') && p < |eeproms| && IsRead(c.ctype)
    ensures line'.ops[p] == line.ops[p] || (line.ops[p].Loading? && line'.ops[p] == Loaded(line.ops[p].address))
    ensures Consistent(eeproms[p], line.ops[p], line.slaves[p])
  {
    var took := Takes(c, line.slaves, round.hears, p);
    assert Settles(eeproms[p], c, data, took, round.passed[p], line.ops[p], line'.slaves[p], line'.ops[p]);
  }

  predicate Adds(info: Info, word: Word, mem: Memory, eeprom: Eeprom) {
    |info.sm| == 4 && Learn(info, word, eeprom(word.Address())).Some? ==>
      var r := Learn(info, word, eeprom(word.Address())).value;
      Learned(18 + word.Index(), r, mem, eeprom) && r.address == info.address && r.dc == info.dc
  }

  lemma IdentityLearned(info: Info, word: Word, mem: Memory, eeprom: Eeprom)
    requires Learned(17 + word.Index(), info, mem, eeprom)
    requires word.VenderId? || word.ProductCode? || word.Revision? || word.Protocol?
    ensures Adds(info, word, mem, eeprom)
  {
  }

  lemma TableRxSize(info: Info, mem: Memory, eeprom: Eeprom)
    requires info.sm == SmTable(mem, eeprom, 4) && info.sms == mem(0x0005)
    ensures Learn(info, RxSize, eeprom(0x19)) == Some(info.(sm := SmTable(mem, eeprom, 5)))
  {
    assert Learn(info, RxSize, eeprom(0x19)).value.sm == SmTable(mem, eeprom, 5);
  }

  lemma TableRxOffset(info: Info, mem: Memory, eeprom: Eeprom)
    requires info.sm == SmTable(mem, eeprom, 5)
    ensures Learn(info, RxOffset, eeprom(0x18)) == Some(info.(sm := SmTable(mem, eeprom, 6)))
  {
    assert Learn(info, RxOffset, eeprom(0x18)).value.sm == SmTable(mem, eeprom, 6);
  }

  lemma TableTxSize(info: Info, mem: Memory, eeprom: Eeprom)
    requires info.sm == SmTable(mem, eeprom, 6) && info.sms == mem(0x0005)
    ensures Learn(info, TxSize, eeprom(0x1B)) == Some(info.(sm := SmTable(mem, eeprom, 7)))
  {
    assert Learn(info, TxSize, eeprom(0x1B)).value.sm == SmTable(mem, eeprom, 7);
  }

  lemma TableTxOffset(info: Info, mem: Memory, eeprom: Eeprom)
    requires info.sm == SmTable(mem, eeprom, 7)
    ensures Learn(info, TxOffset, eeprom(0x1A)) == WithPdoRam(info.(sm := SmTable(mem, eeprom, 8)))
  {
    var placed :=
      if info.sm[1].Some? && info.sm[1].value.MailboxTx? then
        info.(sm := info.sm[1 := Some(MailboxTx(info.sm[1].value.sm.(start := Value16(eeprom(0x1A)))))])
      else info;
    assert placed.sm == SmTable(mem, eeprom, 8);
  }

  /** Only the table, and at the end the region, come from the last four words. */
  lemma MailboxLearned(info: Info, word: Word, mem: Memory, eeprom: Eeprom)
    requires Learned(17 + word.Index(), info, mem, eeprom) && (word.RxSize? || word.RxOffset? || word.TxSize?)
    requires Learn(info, word, eeprom(word.Address())) == Some(info.(sm := SmTable(mem, eeprom, word.Index() + 1)))
    ensures Adds(info, word, mem, eeprom)
  {
  }

  lemma LastLearned(info: Info, mem: Memory, eeprom: Eeprom)
    requires Learned(24, info, mem, eeprom) && WithPdoRam(info.(sm := SmTable(mem, eeprom, 8))).Some?
    requires Learn(info, TxOffset, eeprom(0x1A)) == WithPdoRam(info.(sm := SmTable(mem, eeprom, 8)))
    ensures Adds(info, TxOffset, mem, eeprom)
  {
    RegionComputed(info.(sm := SmTable(mem, eeprom, 8)));
  }

  lemma RegionComputed(info: Info)
    requires |info.sm| == 4 && WithPdoRam(info).Some?
    ensures var r := WithPdoRam(info).value;
      RegionKnown(r) && r == info.(pdoStart := r.pdoStart, pdoSize := r.pdoSize)
  {
  }

  /** Each word read adds to the information what the EEPROM holds at that word's address. */
  lemma WordLearned(info: Info, word: Word, mem: Memory, eeprom: Eeprom)
    requires Learned(17 + word.Index(), info, mem, eeprom)
    ensures Adds(info, word, mem, eeprom)
  {
    match word {
      case RxSize =>
        TableRxSize(info, mem, eeprom);
        MailboxLearned(info, word, mem, eeprom);
      case RxOffset =>
        TableRxOffset(info, mem, eeprom);
        MailboxLearned(info, word, mem, eeprom);
      case TxSize =>
        TableTxSize(info, mem, eeprom);
        MailboxLearned(info, word, mem, eeprom);
      case TxOffset =>
        TableTxOffset(info, mem, eeprom);
        if WithPdoRam(info.(sm := SmTable(mem, eeprom, 8))).Some? { LastLearned(info, mem, eeprom); }
      case _ => IdentityLearned(info, word, mem, eeprom);
    }
  }

  // ------------------------------------------------------------------ what every turn keeps

  ghost predicate SetSoFar(t: Task, mem: Memory)
    requires Out(t)
  {
    forall q :: 0 <= q < Phase(t.state) ==> Set(q, mem, t.info.value, t.position)
  }

  /** With a request out: everything learned agrees with the slave, and everything set is set. */
  ghost predicate Known(t: Task, mem: Memory, eeprom: Eeprom, op: SiiOp) {
    && Out(t) && Learned(Phase(t.state), t.info.value, mem, eeprom) && SetSoFar(t, mem) && Reading(t, mem, op)
  }

  predicate Clear(q: nat, c: Command, n: nat) { Area(q).1 <= c.ado || c.ado + n <= Area(q).0 }

  /** The writes of the two sub-tasks go to AL control and to the interface, which no phase sets. */
  lemma SubtaskWrites(t: Task)
    requires Out(t) && IsWrite(t.command.ctype) && (t.state.RequestInitState? || (t.state.Get? && t.inner.SiiTask?))
    ensures t.state.RequestInitState? ==> t.command.ado == 0x0120 || t.command.ado == 0x0500
    ensures t.state.Get? ==> 0x0500 <= t.command.ado <= 0x0504
    ensures |DataOf(t)| <= 4
  {
    if t.state.RequestInitState? {
      match t.inner.al.state { case _ => }
    } else {
      match t.inner.sii.state { case _ => }
    }
  }

  lemma AreaAvoids(q: nat)
    ensures Area(q).1 <= 0x0120 || 0x0124 <= Area(q).0
    ensures Area(q).1 <= 0x0500 || 0x0508 <= Area(q).0
  {
  }

  lemma SubtasksClear(t: Task, q: nat)
    requires Out(t) && IsWrite(t.command.ctype) && (t.state.RequestInitState? || (t.state.Get? && t.inner.SiiTask?))
    ensures Clear(q, t.command, |DataOf(t)|)
  {
    SubtaskWrites(t);
    AreaAvoids(q);
  }

  /** The stretch a phase of its own writes, when it is not a SyncManager's or an FMMU's. */
  lemma OwnWrites(t: Task)
    requires Out(t) && !t.state.RequestInitState? && !t.state.Get? && IsWrite(t.command.ctype)
    ensures t.command.ado == RegisterOf(t.state)
    ensures !t.state.ClearSm? || t.state.count == 4 ==>
      t.command.ado == Area(Phase(t.state)).0 && t.command.ado + |DataOf(t)| == Area(Phase(t.state)).1
    ensures t.state.ClearSm? ==> t.command.ado == 0x0800 + 8 * t.state.count && |DataOf(t)| == 7
  {
    if Phase(t.state) <= 16 { EarlyWrites(t); } else { LateWrites(t); }
  }

  lemma EarlyWrites(t: Task)
    requires Out(t) && !t.state.RequestInitState? && !t.state.Get? && IsWrite(t.command.ctype) && Phase(t.state) <= 16
    ensures !t.state.ClearSm? || t.state.count == 4 ==>
      t.command.ado == Area(Phase(t.state)).0 && t.command.ado + |DataOf(t)| == Area(Phase(t.state)).1
    ensures t.state.ClearSm? ==> t.command.ado == 0x0800 + 8 * t.state.count && |DataOf(t)| == 7
  {
  }

  lemma LateWrites(t: Task)
    requires Out(t) && !t.state.RequestInitState? && !t.state.Get? && IsWrite(t.command.ctype) && Phase(t.state) > 16
    ensures t.command.ado == Area(Phase(t.state)).0 && t.command.ado + |DataOf(t)| == Area(Phase(t.state)).1
  {
    if t.state.SetSmControl? || t.state.SetSmActivation? { SmRequest(t, t.state.num); }
  }

  /** The areas of two phases do not meet. */
  lemma AreasApart(q: nat, r: nat)
    requires q < r
    ensures Area(q).1 <= Area(r).0 || Area(r).1 <= Area(q).0 || Area(r) == (0, 0)
  {
  }

  /** The write of a phase does not touch what earlier phases set. */
  lemma Disjoint(t: Task, q: nat)
    requires Out(t) && IsWrite(t.command.ctype) && q < Phase(t.state)
    requires t.state.Get? ==> t.inner.SiiTask?
    ensures Clear(q, t.command, |DataOf(t)|)
  {
    if t.state.RequestInitState? || t.state.Get? {
      SubtasksClear(t, q);
    } else {
      OwnWrites(t);
      if !t.state.ClearSm? || t.state.count == 4 { AreasApart(q, Phase(t.state)); }
    }
  }

  /** The write of a phase sets what the phase is to set. */
  lemma Sets(t: Task, mem: Memory)
    requires Out(t) && IsWrite(t.command.ctype) && !t.state.RequestInitState? && !t.state.Get?
    ensures Set(Phase(t.state), Stored(mem, t.command.ado, DataOf(t)), t.info.value, t.position)
  {
    LoadStored(mem, t.command.ado, DataOf(t));
    if Phase(t.state) <= 16 {
      EarlySets(t, mem);
    } else {
      LateSets(t, mem);
    }
  }

  lemma FmmuSets(t: Task, mem: Memory)
    requires Out(t) && t.state.ClearFmmu?
    requires Load(Stored(mem, t.command.ado, DataOf(t)), t.command.ado, |DataOf(t)|) == DataOf(t)
    ensures Set(Phase(t.state), Stored(mem, t.command.ado, DataOf(t)), t.info.value, t.position)
  {
    assert t.command.ado == 0x0600 + 16 * t.state.count && DataOf(t) == Zeros(16);
  }

  lemma EarlySets(t: Task, mem: Memory)
    requires Out(t) && IsWrite(t.command.ctype) && !t.state.RequestInitState? && !t.state.Get? && Phase(t.state) <= 16
    requires Load(Stored(mem, t.command.ado, DataOf(t)), t.command.ado, |DataOf(t)|) == DataOf(t)
    ensures Set(Phase(t.state), Stored(mem, t.command.ado, DataOf(t)), t.info.value, t.position)
  {
    if t.state.ClearFmmu? {
      FmmuSets(t, mem);
    } else if t.state == ClearSm(4) {
      var after := Stored(mem, t.command.ado, DataOf(t));
      assert Load(after, 0x0820, 5) == Zeros(5) && after(0x0826) == 0;
    }
  }

  lemma SmRequest(t: Task, n: nat)
    requires Out(t) && (t.state == SetSmControl(n) || t.state == SetSmActivation(n))
    ensures n <= 3 && |t.info.value.sm| == 4 && Phase(t.state) == 25 + 2 * n + if t.state.SetSmControl? then 0 else 1
    ensures t.state.SetSmControl? ==> t.command.ado == 0x0800 + 8 * n && DataOf(t) == ControlBytes(t.info.value.sm[n])
    ensures t.state.SetSmActivation? ==>
      t.command.ado == 0x0806 + 8 * n && DataOf(t) == [if IsMailbox(t.info.value.sm[n]) then 1 else 0]
  {
  }

  lemma ControlStored(mem: Memory, info: Info, n: nat)
    requires n <= 3 && |info.sm| == 4
    ensures SmSet(2 * n, Stored(mem, 0x0800 + 8 * n, ControlBytes(info.sm[n])), info)
  {
    LoadStored(mem, 0x0800 + 8 * n, ControlBytes(info.sm[n]));
    assert 2 * n / 2 == n && 2 * n % 2 == 0;
  }

  lemma ActivationStored(mem: Memory, info: Info, n: nat, active: byte)
    requires n <= 3 && |info.sm| == 4 && active == if IsMailbox(info.sm[n]) then 1 else 0
    ensures SmSet(2 * n + 1, Stored(mem, 0x0806 + 8 * n, [active]), info)
  {
    assert (2 * n + 1) / 2 == n && (2 * n + 1) % 2 == 1;
  }

  lemma ControlSets(t: Task, mem: Memory, n: nat)
    requires Out(t) && t.state == SetSmControl(n)
    ensures Set(Phase(t.state), Stored(mem, t.command.ado, DataOf(t)), t.info.value, t.position)
  {
    SmRequest(t, n);
    ControlStored(mem, t.info.value, n);
    SmPhase(2 * n, Stored(mem, t.command.ado, DataOf(t)), t.info.value, t.position);
  }

  lemma ActivationSets(t: Task, mem: Memory, n: nat)
    requires Out(t) && t.state == SetSmActivation(n)
    ensures Set(Phase(t.state), Stored(mem, t.command.ado, DataOf(t)), t.info.value, t.position)
  {
    SmRequest(t, n);
    ActivationStored(mem, t.info.value, n, DataOf(t)[0]);
    SmPhase(2 * n + 1, Stored(mem, t.command.ado, DataOf(t)), t.info.value, t.position);
  }

  lemma SmPhase(k: nat, mem: Memory, info: Info, position: u16)
    requires k < 8 && |info.sm| == 4 && position < 0xFFFF
    ensures Set(25 + k, mem, info, position) <==> SmSet(k, mem, info)
  {
  }

  lemma LateSets(t: Task, mem: Memory)
    requires Out(t) && IsWrite(t.command.ctype) && !t.state.RequestInitState? && !t.state.Get? && Phase(t.state) > 16
    requires Load(Stored(mem, t.command.ado, DataOf(t)), t.command.ado, |DataOf(t)|) == DataOf(t)
    ensures Set(Phase(t.state), Stored(mem, t.command.ado, DataOf(t)), t.info.value, t.position)
  {
    if t.state.SetSmControl? {
      ControlSets(t, mem, t.state.num);
    } else if t.state.SetSmActivation? {
      ActivationSets(t, mem, t.state.num);
    } else if t.state.ClearDcActivation? {
      assert Stored(mem, t.command.ado, DataOf(t))(0x0981) == DataOf(t)[0];
    }
  }

  // ------------------------------------------------------------------ one turn

  /** What was learned concerns registers and words that stay as they are. */
  lemma LearnedFrame(ph: nat, info: Info, mem: Memory, mem': Memory, eeprom: Eeprom)
    requires Learned(ph, info, mem, eeprom)
    requires forall a :: a in {4, 5, 6, 8, 0x0111, 0x0141} ==> mem'(a) == mem(a)
    ensures Learned(ph, info, mem', eeprom)
  {
    assert SmTable(mem', eeprom, ph - 17) == SmTable(mem, eeprom, ph - 17);
  }

  predicate Teaches(ph: nat) { ph == 6 || ph == 7 || 17 <= ph < 25 || ph == 34 }

  /** Most phases teach nothing. */
  lemma {:induction false} LearnedNext(ph: nat, ph': nat, info: Info, mem: Memory, eeprom: Eeprom)
    requires Learned(ph, info, mem, eeprom) && ph <= ph' && forall q :: ph <= q < ph' ==> !Teaches(q)
    ensures Learned(ph', info, mem, eeprom)
    decreases ph' - ph
  {
    if ph < ph' {
      assert !Teaches(ph);
      LearnedNext(ph + 1, ph', info, mem, eeprom);
    }
  }

  /** After a reply the information agrees with the slave as far as it has been read. */
  ghost predicate Taught(h: Task, mem: Memory, eeprom: Eeprom) {
    Busy(h.state) || h.state.Complete? ==> h.info.Some? && Learned(Phase(h.state), h.info.value, mem, eeprom)
  }

  /** A register the task reads tells it what the slave has there. */
  lemma StatusLearned(t: Task, reply: Reply, time: nat, mem: Memory, eeprom: Eeprom)
    requires Out(t) && Answers(t, reply) && Good(t, reply) && t.state.CheckDlStatus?
    requires Learned(6, t.info.value, mem, eeprom) && reply.data == Load(mem, 0x0110, 2)
    ensures Taught(OnReply(t, reply, time), mem, eeprom)
  {
    assert reply.data[1] == mem(0x0111);
  }

  lemma FeaturesLearned(t: Task, reply: Reply, time: nat, mem: Memory, eeprom: Eeprom)
    requires Out(t) && Answers(t, reply) && Good(t, reply) && t.state.CheckDlInfo?
    requires Learned(7, t.info.value, mem, eeprom) && reply.data == Load(mem, 0x0000, 10)
    ensures Taught(OnReply(t, reply, time), mem, eeprom)
  {
    assert reply.data[4] == mem(4) && reply.data[5] == mem(5) && reply.data[6] == mem(6) && reply.data[8] == mem(8);
  }

  lemma ControlLearned(t: Task, reply: Reply, time: nat, mem: Memory, eeprom: Eeprom)
    requires Out(t) && Answers(t, reply) && Good(t, reply) && t.state.CheckPdiControl?
    requires Learned(34, t.info.value, mem, eeprom) && reply.data == Load(mem, 0x0140, 2)
    ensures Taught(OnReply(t, reply, time), mem, eeprom)
  {
    assert reply.data[1] == mem(0x0141);
  }

  /** A reply during the words: an error, the same word, or the next one with what was read. */
  lemma WordShape(t: Task, reply: Reply, time: nat)
    requires Out(t) && Answers(t, reply) && Good(t, reply) && t.state.Get?
    ensures |Sii.OnReply(t.inner.sii, reply, time).data| == 8
    ensures var sii, h := Sii.OnReply(t.inner.sii, reply, time), OnReply(t, reply, time);
      || h.state.Error? || h.state.Stopped?
      || (h.state == Get(t.state.word, false) && h.info == t.info)
      || (sii.state.Complete? && h.state == NextWord(t.state.word) && h.info.Some? && h.info == Learn(t.info.value, t.state.word, sii.data))
  {
  }

  lemma NextPhase(word: Word)
    ensures Phase(NextWord(word)) == 18 + word.Index() && Busy(NextWord(word))
  {
  }

  lemma WordRead(t: Task, reply: Reply, time: nat, mem: Memory, eeprom: Eeprom)
    requires Out(t) && Answers(t, reply) && Good(t, reply) && t.state.Get?
    requires Learned(Phase(t.state), t.info.value, mem, eeprom)
    requires var sii := Sii.OnReply(t.inner.sii, reply, time); sii.state.Complete? ==> sii.data == eeprom(t.state.word.Address())
    ensures var h := OnReply(t, reply, time);
      Busy(h.state) || h.state.Complete? ==> h.info.Some? && Learned(Phase(h.state), h.info.value, mem, eeprom)
  {
    WordShape(t, reply, time);
    WordLearned(t.info.value, t.state.word, mem, eeprom);
    NextPhase(t.state.word);
  }

  /** Every other phase leaves the information as it is. */
  lemma InfoStays(t: Task, reply: Reply, time: nat)
    requires Out(t) && Answers(t, reply) && Good(t, reply) && !ReadsRegister(t.state) && !t.state.Get?
    ensures var h := OnReply(t, reply, time); h.info == t.info
    ensures var h := OnReply(t, reply, time);
      Busy(h.state) || h.state.Complete? ==> Phase(h.state) == Phase(t.state) || Phase(h.state) == Phase(t.state) + 1
  {
    HearSucceeds(t, reply, time);
  }

  lemma RegisterTeaches(t: Task, reply: Reply, time: nat, mem: Memory, eeprom: Eeprom)
    requires Out(t) && Answers(t, reply) && Good(t, reply) && ReadsRegister(t.state)
    requires Learned(Phase(t.state), t.info.value, mem, eeprom) && reply.data == Load(mem, t.command.ado, |DataOf(t)|)
    ensures Taught(OnReply(t, reply, time), mem, eeprom)
  {
    match t.state {
      case CheckDlStatus => StatusLearned(t, reply, time, mem, eeprom);
      case CheckDlInfo => FeaturesLearned(t, reply, time, mem, eeprom);
      case CheckPdiControl => ControlLearned(t, reply, time, mem, eeprom);
    }
  }

  lemma OtherTeaches(t: Task, reply: Reply, time: nat, mem: Memory, eeprom: Eeprom)
    requires Out(t) && Answers(t, reply) && Good(t, reply) && !ReadsRegister(t.state) && !t.state.Get?
    requires Learned(Phase(t.state), t.info.value, mem, eeprom)
    ensures var h := OnReply(t, reply, time);
      Busy(h.state) || h.state.Complete? ==> h.info.Some? && Learned(Phase(h.state), h.info.value, mem, eeprom)
  {
    var h := OnReply(t, reply, time);
    InfoStays(t, reply, time);
    if Busy(h.state) || h.state.Complete? { LearnedNext(Phase(t.state), Phase(h.state), h.info.value, mem, eeprom); }
  }

  /** After every reply the information agrees with the slave as far as it has been read. */
  lemma Learns(t: Task, reply: Reply, time: nat, mem: Memory, eeprom: Eeprom)
    requires Out(t) && Answers(t, reply) && Good(t, reply) && Learned(Phase(t.state), t.info.value, mem, eeprom)
    requires IsRead(t.command.ctype) ==> reply.data == Load(mem, t.command.ado, |DataOf(t)|)
    requires t.state.Get? ==>
      var sii := Sii.OnReply(t.inner.sii, reply, time); sii.state.Complete? ==> sii.data == eeprom(t.state.word.Address())
    ensures var h := OnReply(t, reply, time);
      Busy(h.state) || h.state.Complete? ==> h.info.Some? && Learned(Phase(h.state), h.info.value, mem, eeprom)
  {
    if ReadsRegister(t.state) {
      RegisterTeaches(t, reply, time, mem, eeprom);
    } else if t.state.Get? {
      WordRead(t, reply, time, mem, eeprom);
    } else {
      OtherTeaches(t, reply, time, mem, eeprom);
    }
  }

  /** The registers of the slave after a turn: what the task wrote, and otherwise what was there. */
  ghost predicate Moved(c: Command, data: seq<byte>, mem: Memory, mem': Memory) {
    var passed: Memory := if IsWrite(c.ctype) then Stored(mem, c.ado, data) else mem;
    forall a: nat :: !Volatile(a) ==> mem'(a) == passed(a)
  }

  lemma SlaveMoved(eeproms: seq<Eeprom>, c: Command, data: seq<byte>, line: Line, round: LineRound, line': Line, p: u16)
    requires Turn(eeproms, c, data, line, round, line') && ToSlave(c, p) && p < |eeproms| && round.reply.wkc == 1
    ensures Moved(c, data, line.slaves[p], line'.slaves[p])
    ensures IsRead(c.ctype) ==> round.reply.data == Load(line.slaves[p], c.ado, |data|)
  {
    Reached(eeproms, c, data, line, round, line', p);
    var took := Takes(c, line.slaves, round.hears, p);
    assert Settles(eeproms[p], c, data, took, round.passed[p], line.ops[p], line'.slaves[p], line'.ops[p]);
  }

  /** What was set before this turn is still set. */
  lemma StillSet(t: Task, mem: Memory, mem': Memory, info': Info, q: nat)
    requires Out(t) && (t.state.Get? ==> t.inner.SiiTask?) && q < Phase(t.state) && Set(q, mem, t.info.value, t.position)
    requires Moved(t.command, DataOf(t), mem, mem') && |info'.sm| == 4
    requires (q >= 35 ==> info'.dc == t.info.value.dc) && (q >= 25 ==> info'.sm == t.info.value.sm)
    ensures Set(q, mem', info', t.position)
  {
    if IsWrite(t.command.ctype) { Disjoint(t, q); }
    SetFrame(q, mem, mem', t.info.value, info', t.position);
  }

  /** And so is what it was to set. */
  lemma NowSet(t: Task, mem: Memory, mem': Memory, info': Info)
    requires Out(t) && Moved(t.command, DataOf(t), mem, mem') && |info'.sm| == 4
    requires var q := Phase(t.state); (q >= 35 ==> info'.dc == t.info.value.dc) && (q >= 25 ==> info'.sm == t.info.value.sm)
    ensures Set(Phase(t.state), mem', info', t.position)
  {
    if IsWrite(t.command.ctype) && !t.state.RequestInitState? && !t.state.Get? {
      Sets(t, mem);
      SetFrame(Phase(t.state), Stored(mem, t.command.ado, DataOf(t)), mem', t.info.value, info', t.position);
    }
  }

  /** Registers that were learned from do not move. */
  lemma LearnedStays(t: Task, ph: nat, info: Info, mem: Memory, mem': Memory, eeprom: Eeprom)
    requires Out(t) && (t.state.Get? ==> t.inner.SiiTask?) && Learned(ph, info, mem, eeprom)
    requires Moved(t.command, DataOf(t), mem, mem')
    ensures Learned(ph, info, mem', eeprom)
  {
    forall a | a in {4, 5, 6, 8, 0x0111, 0x0141} ensures mem'(a) == mem(a) {
      if IsWrite(t.command.ctype) { NotWritten(t, a); }
    }
    LearnedFrame(ph, info, mem, mem', eeprom);
  }

  lemma NotWritten(t: Task, a: nat)
    requires Out(t) && IsWrite(t.command.ctype) && a in {4, 5, 6, 8, 0x0111, 0x0141} && (t.state.Get? ==> t.inner.SiiTask?)
    ensures a < t.command.ado || t.command.ado + |DataOf(t)| <= a
  {
    if t.state.RequestInitState? || t.state.Get? { SubtaskWrites(t); } else { OwnWrites(t); }
  }

  /** The information handed over agrees with the slave and its EEPROM in everything, and all settings are in place. */
  ghost predicate Finished(info: Info, mem: Memory, eeprom: Eeprom, position: nat) {
    && |info.sm| == 4 && position < 0xFFFF && Learned(LAST_PHASE, info, mem, eeprom)
    && forall q :: 0 <= q < LAST_PHASE ==> Set(q, mem, info, position)
  }

  ghost predicate KnownOrDone(t: Task, mem: Memory, eeprom: Eeprom, op: SiiOp) {
    && (Busy(t.state) ==> Known(t, mem, eeprom, op))
    && (t.state.Complete? ==> t.info.Some? && Finished(t.info.value, mem, eeprom, t.position))
  }

  /** A reply keeps the table once the words are read, and the support of DC once that is known. */
  lemma ReplyKeeps(t: Task, reply: Reply, time: nat)
    requires Out(t) && Answers(t, reply) && Good(t, reply)
    ensures var h := OnReply(t, reply, time);
      Busy(h.state) || h.state.Complete? ==>
        && h.info.Some? && |h.info.value.sm| == 4 && h.position == t.position
        && (Phase(t.state) >= 25 ==> h.info.value.sm == t.info.value.sm)
        && (Phase(t.state) >= 35 ==> h.info.value.dc == t.info.value.dc)
  {
    HearSucceeds(t, reply, time);
  }

  /** Asking adds the station address and nothing else. */
  lemma AskingKeeps(h: Task, mem: Memory, eeprom: Eeprom)
    requires Ready(h) && (Busy(h.state) || h.state.Complete?)
    requires Learned(Phase(h.state), h.info.value, mem, eeprom)
    ensures CanAsk(h)
    ensures var r := Asked(h).0;
      && r.state == h.state && r.position == h.position && r.info.Some?
      && r.info.value.sm == h.info.value.sm && r.info.value.dc == h.info.value.dc
      && Learned(Phase(r.state), r.info.value, mem, eeprom)
  {
    AskSucceeds(h);
  }

  /** The reader goes on with the same word, or starts with the next one. */
  lemma ReadingNext(h: Task, mem: Memory, op: SiiOp)
    requires Ready(h) && h.state.Get?
    requires !h.state.first ==> h.inner.sii.slave == SlavePosition(h.position) && h.inner.sii.address == h.state.word.Address()
    requires !h.state.first ==> Fetching(h.inner.sii, mem, op)
    ensures CanAsk(h) && Reading(Asked(h).0, mem, op)
  {
    AskSucceeds(h);
  }

  /** What the reader holds after a reply. */
  lemma ReadOn(eeproms: seq<Eeprom>, t: Task, line: Line, round: LineRound, line': Line)
    requires Out(t) && t.state.Get? && t.position < |eeproms| && line.Ok(eeproms)
    requires Reading(t, line.slaves[t.position], line.ops[t.position])
    requires Turn(eeproms, t.command, DataOf(t), line, round, line') && Good(t, round.reply)
    ensures Answers(t, round.reply)
    ensures var sii := Sii.OnReply(t.inner.sii, round.reply, round.time);
      sii.state.Complete? ==> sii.data == eeproms[t.position](t.state.word.Address())
    ensures var h := OnReply(t, round.reply, round.time);
      h.state.Get? && !h.state.first ==>
        && h.inner.SiiTask? && h.inner.sii.slave == SlavePosition(t.position) && h.inner.sii.address == h.state.word.Address()
        && Fetching(h.inner.sii, line'.slaves[t.position], line'.ops[t.position])
  {
    Fetched(eeproms, t.inner.sii, line, round, line', t.position);
  }

  lemma AnswersOnLine(eeproms: seq<Eeprom>, t: Task, line: Line, round: LineRound, line': Line)
    requires Out(t) && Turn(eeproms, t.command, DataOf(t), line, round, line')
    ensures Answers(t, round.reply)
  {
  }

  /** All settings up to the phase the task goes on to are in place. */
  lemma AllSet(t: Task, mem: Memory, mem': Memory, r: Task, q: nat)
    requires Out(t) && SetSoFar(t, mem) && (t.state.Get? ==> t.inner.SiiTask?) && Moved(t.command, DataOf(t), mem, mem')
    requires r.info.Some? && |r.info.value.sm| == 4 && r.position == t.position && Follows(t, r.state)
    requires Phase(t.state) >= 25 ==> r.info.value.sm == t.info.value.sm
    requires Phase(t.state) >= 34 ==> r.info.value.dc == t.info.value.dc
    requires q < Phase(r.state)
    ensures Set(q, mem', r.info.value, t.position)
  {
    if q < Phase(t.state) {
      StillSet(t, mem, mem', r.info.value, q);
    } else if q == Phase(t.state) {
      NowSet(t, mem, mem', r.info.value);
    }
  }

  ghost predicate KnownAt(eeproms: seq<Eeprom>, t: Task, line: Line) {
    && line.Ok(eeproms) && t.position < |eeproms|
    && KnownOrDone(t, line.slaves[t.position], eeproms[t.position], line.ops[t.position])
  }

  /** Every turn keeps all that is known. */
  lemma TurnKnows(eeproms: seq<Eeprom>, t: Task, line: Line, round: LineRound, line': Line)
    requires Out(t) && KnownAt(eeproms, t, line) && Turn(eeproms, t.command, DataOf(t), line, round, line')
    ensures Answers(t, round.reply) && KnownAt(eeproms, Step(t, round.AsRound()), line')
  {
    AnswersOnLine(eeproms, t, line, round, line');
    PhaseAdvances(t, round.AsRound());
    var r := Step(t, round.AsRound());
    if Busy(r.state) || r.state.Complete? {
      var p := t.position;
      RequestToSlave(t, line.slaves[p], line.ops[p]);
      SlaveMoved(eeproms, t.command, DataOf(t), line, round, line', p);
      TurnLearns(eeproms, t, line, round, line');
      TurnSets(t, round, line.slaves[p], line'.slaves[p]);
      TurnReads(eeproms, t, line, round, line');
    }
  }

  lemma TurnLearns(eeproms: seq<Eeprom>, t: Task, line: Line, round: LineRound, line': Line)
    requires Out(t) && KnownAt(eeproms, t, line) && Turn(eeproms, t.command, DataOf(t), line, round, line')
    requires Answers(t, round.reply) && Good(t, round.reply)
    ensures var r := Step(t, round.AsRound());
      Busy(r.state) || r.state.Complete? ==>
        r.info.Some? && Learned(Phase(r.state), r.info.value, line'.slaves[t.position], eeproms[t.position])
  {
    var p, mem := t.position, line.slaves[t.position];
    var h := OnReply(t, round.reply, round.time);
    HearSucceeds(t, round.reply, round.time);
    RequestToSlave(t, mem, line.ops[p]);
    SlaveMoved(eeproms, t.command, DataOf(t), line, round, line', p);
    if t.state.Get? { ReadOn(eeproms, t, line, round, line'); }
    Learns(t, round.reply, round.time, mem, eeproms[p]);
    AskSucceeds(h);
    if Busy(h.state) || h.state.Complete? {
      AskingKeeps(h, mem, eeproms[p]);
      var r := Asked(h).0;
      LearnedStays(t, Phase(r.state), r.info.value, mem, line'.slaves[p], eeproms[p]);
    }
  }

  lemma TurnSets(t: Task, round: LineRound, mem: Memory, mem': Memory)
    requires Out(t) && SetSoFar(t, mem) && (t.state.Get? ==> t.inner.SiiTask?) && Moved(t.command, DataOf(t), mem, mem')
    requires Answers(t, round.reply) && Good(t, round.reply)
    ensures var r := Step(t, round.AsRound());
      Busy(r.state) || r.state.Complete? ==>
        && r.info.Some? && |r.info.value.sm| == 4
        && forall q :: 0 <= q < Phase(r.state) ==> Set(q, mem', r.info.value, t.position)
  {
    var h, r := OnReply(t, round.reply, round.time), Step(t, round.AsRound());
    HearSucceeds(t, round.reply, round.time);
    AskSucceeds(h);
    if Busy(r.state) || r.state.Complete? {
      StepKeeps(t, round);
      forall q | 0 <= q < Phase(r.state) ensures Set(q, mem', r.info.value, t.position) { AllSet(t, mem, mem', r, q); }
    }
  }

  lemma StepKeeps(t: Task, round: LineRound)
    requires Out(t) && Answers(t, round.reply) && Good(t, round.reply)
    ensures var r := Step(t, round.AsRound());
      Busy(r.state) || r.state.Complete? ==>
        && r.info.Some? && |r.info.value.sm| == 4 && r.position == t.position && Follows(t, r.state)
        && (Phase(t.state) >= 25 ==> r.info.value.sm == t.info.value.sm)
        && (Phase(t.state) >= 34 ==> r.info.value.dc == t.info.value.dc)
  {
    var h := OnReply(t, round.reply, round.time);
    HearSucceeds(t, round.reply, round.time);
    AskSucceeds(h);
    ReplyKeeps(t, round.reply, round.time);
    if Phase(t.state) >= 34 { SupportKept(t, round.reply, round.time); }
  }

  lemma TurnReads(eeproms: seq<Eeprom>, t: Task, line: Line, round: LineRound, line': Line)
    requires Out(t) && KnownAt(eeproms, t, line) && Turn(eeproms, t.command, DataOf(t), line, round, line')
    requires Answers(t, round.reply) && Good(t, round.reply)
    ensures var r := Step(t, round.AsRound()); Busy(r.state) ==> Reading(r, line'.slaves[t.position], line'.ops[t.position])
  {
    var p := t.position;
    var h := OnReply(t, round.reply, round.time);
    HearSucceeds(t, round.reply, round.time);
    AskSucceeds(h);
    if h.state.Get? {
      if t.state.Get? { ReadOn(eeproms, t, line, round, line'); }
      ReadingNext(h, line'.slaves[p], line'.ops[p]);
    }
  }

  lemma SupportKept(t: Task, reply: Reply, time: nat)
    requires Out(t) && Answers(t, reply) && Good(t, reply) && Phase(t.state) >= 34
    ensures var h := OnReply(t, reply, time);
      Busy(h.state) || h.state.Complete? ==> h.info.Some? && h.info.value.dc == t.info.value.dc
  {
  }

  /** The request of a task just started for slave p is out, and nothing is known yet. */
  lemma StartKnows(eeproms: seq<Eeprom>, t: Task, p: u16, line: Line)
    requires InnerOk(t.inner) && p < 0xFFFF && p < |eeproms| && line.Ok(eeproms)
    ensures CanAsk(Start(t, p))
    ensures var r := Asked(Start(t, p)).0;
      Out(r) && r.position == p && r.state.SetLoopPort? && KnownAt(eeproms, r, line)
  {
    AskSucceeds(Start(t, p));
  }

  ghost predicate SameRegisters(a: Memory, b: Memory) { forall r: nat :: !Volatile(r) ==> a(r) == b(r) }

  /** Only what is not volatile matters to a finished slave. */
  lemma FinishedFrame(info: Info, mem: Memory, mem': Memory, eeprom: Eeprom, position: nat)
    requires Finished(info, mem, eeprom, position) && SameRegisters(mem, mem')
    ensures Finished(info, mem', eeprom, position)
  {
    LearnedFrame(LAST_PHASE, info, mem, mem', eeprom);
    forall q | 0 <= q < LAST_PHASE ensures Set(q, mem', info, position) { SetFrame(q, mem, mem', info, info, position); }
  }

  // ------------------------------------------------------------------ what that amounts to

  /** The information of a finished slave, word by word and bit by bit. */
  lemma FinishedInfo(info: Info, mem: Memory, eeprom: Eeprom, position: nat)
    requires Finished(info, mem, eeprom, position)
    ensures info.vender == Value16(eeprom(8)) && info.product == Value16(eeprom(10)) && info.revision == Value16(eeprom(12))
    ensures info.coe == Bit(eeprom(0x1C)[0], 2)
    ensures info.linked == [Bit(mem(0x0111), 1), Bit(mem(0x0111), 3), Bit(mem(0x0111), 5), Bit(mem(0x0111), 7)]
    ensures info.fmmus == mem(4) && info.sms == mem(5) && info.ramKb == mem(6) && info.dc == Bit(mem(8), 2)
    ensures info.bitOperation == !Bit(mem(8), 0) && info.strictAl == Bit(mem(0x0141), 0)
    // the mailboxes: size words 0x19 and 0x1B, address words 0x18 and 0x1A
    ensures 4 <= mem(5) && !AllZero(eeprom(0x19)) ==>
      info.sm[0] == Some(MailboxRx(SyncManager(0, Min(Value16(eeprom(0x19)), 256), Value16(eeprom(0x18)))))
    ensures 4 <= mem(5) && !AllZero(eeprom(0x1B)) ==>
      info.sm[1] == Some(MailboxTx(SyncManager(1, Min(Value16(eeprom(0x1B)), 256), Value16(eeprom(0x1A)))))
    ensures IsMailbox(info.sm[0]) <==> 4 <= mem(5) && !AllZero(eeprom(0x19))
    ensures IsMailbox(info.sm[1]) <==> 4 <= mem(5) && !AllZero(eeprom(0x1B))
    ensures !IsMailbox(info.sm[2]) && !IsMailbox(info.sm[3])
  {
  }

  /** Its SyncManager registers say what the information says. */
  lemma FinishedSm(info: Info, mem: Memory, eeprom: Eeprom, position: nat, n: nat)
    requires Finished(info, mem, eeprom, position) && n < 4
    ensures DescribesSm(Load(mem, 0x0800 + 8 * n, 5), [mem(0x0806 + 8 * n)], info.sm[n])
  {
    assert Set(25 + 2 * n, mem, info, position) && Set(25 + (2 * n + 1), mem, info, position);
    SmPhase(2 * n, mem, info, position);
    SmPhase(2 * n + 1, mem, info, position);
    SmSetMeans(n, mem, info);
    ControlDescribes(info.sm[n]);
  }

  lemma SmSetMeans(n: nat, mem: Memory, info: Info)
    requires n < 4 && |info.sm| == 4
    ensures SmSet(2 * n, mem, info) <==> Load(mem, 0x0800 + 8 * n, 5) == ControlBytes(info.sm[n])
    ensures SmSet(2 * n + 1, mem, info) <==> mem(0x0806 + 8 * n) == if IsMailbox(info.sm[n]) then 1 else 0
  {
    assert 2 * n / 2 == n && 2 * n % 2 == 0 && (2 * n + 1) / 2 == n && (2 * n + 1) % 2 == 1;
  }

  /** Its other registers: the station address, cleared FMMUs, the loop port rule, the watchdogs, and with DC the cyclic
      operation switched off. */
  lemma FinishedRegisters(info: Info, mem: Memory, eeprom: Eeprom, position: nat)
    requires Finished(info, mem, eeprom, position)
    ensures Station(mem) == position + 1 && forall n :: 0 <= n < 4 ==> Load(mem, 0x0600 + 16 * n, 16) == Zeros(16)
    ensures Load(mem, 0x0100, 4) == [1, 0, 7, 0] && Load(mem, 0x0300, 8) == Zeros(8) && Load(mem, 0x0400, 2) == [0xC2, 9]
    ensures Load(mem, 0x0410, 2) == [0, 0] && Load(mem, 0x0420, 2) == [0, 0]
    ensures info.dc ==>
      mem(0x0981) == 0 && Load(mem, 0x0990, 4) == [0, 0, 0, 0] && Load(mem, 0x09A0, 4) == [0, 0, 0, 0] && Load(mem, 0x09A4, 4) == [0, 0, 0, 0]
  {
    forall n | 0 <= n < 4 ensures Load(mem, 0x0600 + 16 * n, 16) == Zeros(16) { assert Set(8 + n, mem, info, position); }
    assert Set(33, mem, info, position) && Load(mem, 0x0010, 4)[0] == mem(0x0010) && Load(mem, 0x0010, 4)[1] == mem(0x0011);
    WordOfHalves(position + 1);
    assert Set(0, mem, info, position) && Set(2, mem, info, position) && Set(3, mem, info, position);
    assert Set(4, mem, info, position) && Set(5, mem, info, position);
    if info.dc {
      assert Set(35, mem, info, position) && Set(36, mem, info, position) && Set(37, mem, info, position) && Set(38, mem, info, position);
    }
  }
}
