/** From an initialised slave to its FMMU slots: `set_pdo_to_sm` on the slaves of the table. */
module Configurations {
  import opened Bytes
  import SyncManagers
  import opened LogicalBits
  import opened ProcessImage
  import opened ImageLayout
  import opened LrwPass
  import SlaveInit
  import opened Networks
  import NetworkInit

  /** The bits of the mappings assigned to the two process-data SyncManagers; None without such a SyncManager. */
  datatype Mapping = Mapping(outputs: Option<nat>, inputs: Option<nat>)

  function Bytes3(bits: Option<nat>): nat { if bits.Some? then 3 * ((bits.value + 7) / 8) else 0 }

  /** The sizes and addresses stay in their 16 bits. */
  predicate AddressesFit(ram: u16, m: Mapping) {
    && (m.outputs.Some? ==> m.outputs.value <= 8 * 0x1FFE) && (m.inputs.Some? ==> m.inputs.value <= 8 * 0x1FFE)
    && ram + Bytes3(m.outputs) + Bytes3(m.inputs) < 0x1_0000
  }

  /** One call of `set_pdo_to_sm_utility`: the FMMU and the next free RAM address. */
  function MapOne(ram: u16, bits: Option<nat>, direction: Direction): (r: (Option<Fmmu>, nat))
    requires bits.Some? ==> bits.value <= 8 * 0x1FFE
    requires ram + Bytes3(bits) < 0x1_0000
    ensures r.1 == ram + Bytes3(bits)
    ensures r.0.Some? ==> r.0.value.direction == direction && r.0.value.physicalAddress == ram
    ensures r.0.Some? ==> 3 * (r.0.value.bits.bitLength / 8) == Bytes3(bits)
    ensures r.0.Some? ==>
      r.0.value.bits.logicalAddress.None? && r.0.value.bits.Valid() && r.0.value.bits.bitLength % 8 == 0
  {
    if bits.None? then (None, ram)
    else
      var (fmmu, next) := FmmuForMapping(ram, bits.value, direction);
      (Some(fmmu), next)
  }

  /** The slots of a slave after `set_pdo_to_sm`: outputs, inputs, and the mailbox state set up on initialisation. */
  function Slots(s: NetSlave, m: Mapping): (r: seq<Option<Fmmu>>)
    requires s.info.pdoStart.Some? ==> AddressesFit(s.info.pdoStart.value, m)
    ensures |r| == 3
  {
    if s.info.pdoStart.None? then [None, None, s.mailboxFmmu]
    else
      var (outputs, next) := MapOne(s.info.pdoStart.value, m.outputs, Output);
      var (inputs, _) := MapOne(next, m.inputs, Input);
      [outputs, inputs, s.mailboxFmmu]
  }

  /** `slaves` are the slaves of the table with their slots set up for `mappings`. */
  ghost predicate SetUp(table: seq<NetSlave>, mappings: seq<Mapping>, slaves: seq<Slave>) {
    && |slaves| == |table| == |mappings|
    && forall i {:trigger slaves[i]} :: 0 <= i < |table| ==> SetUpAt(table[i], mappings[i], slaves[i])
  }

  predicate SetUpAt(s: NetSlave, m: Mapping, slave: Slave) {
    && s == NetworkInit.NewSlave(s.info)
    && (s.info.pdoStart.Some? ==> AddressesFit(s.info.pdoStart.value, m))
    && slave.fmmu == Slots(s, m)
  }

  lemma MailboxSlot(info: SlaveInit.Info)
    ensures var f := NetworkInit.NewSlave(info).mailboxFmmu;
      f.Some? ==> f.value.direction == Input && f.value.bits == Field(None, 0, 8)
  {
  }

  lemma SlotReady(s: NetSlave, m: Mapping, slave: Slave, j: nat)
    requires SetUpAt(s, m, slave) && j < |slave.fmmu|
    ensures SlotLength(slave.fmmu[j]) % 8 == 0
    ensures slave.fmmu[j].Some? ==>
      && slave.fmmu[j].value.bits.logicalAddress.None? && slave.fmmu[j].value.bits.Valid()
      && slave.fmmu[j].value.direction == if j == 0 then Output else Input
  {
    MailboxSlot(s.info);
  }

  /** What the layout and the LRW pass ask of the slots holds for every slave set up this way, so together with the
      size check, the placement and the registers written for it the network is configured. */
  lemma SetUpConfigures(table: seq<NetSlave>, mappings: seq<Mapping>, slaves: seq<Slave>, placed: seq<Slave>, regs: seq<seq<Option<Register>>>)
    requires SetUp(table, mappings, slaves) && Fits(slaves) && IsPlaced(slaves, placed) && RegistersMatch(placed, regs)
    ensures Fresh(slaves) && ByteSized(slaves) && StandardSlots(slaves) && Configured(slaves, regs)
  {
    forall i, j | 0 <= i < |slaves| && 0 <= j < |slaves[i].fmmu|
      ensures SlotLength(slaves[i].fmmu[j]) % 8 == 0
      ensures slaves[i].fmmu[j].Some? ==>
        && slaves[i].fmmu[j].value.bits.logicalAddress.None? && slaves[i].fmmu[j].value.bits.Valid()
        && slaves[i].fmmu[j].value.direction == if j == 0 then Output else Input
    {
      SlotReady(table[i], mappings[i], slaves[i], j);
    }
  }

  /** The stretch of `bytes` from `start` on meets neither mailbox. */
  predicate ClearOf(start: nat, bytes: nat, rx: SyncManagers.SyncManager, tx: SyncManagers.SyncManager) {
    SlaveInit.Apart(start, bytes, rx) && SlaveInit.Apart(start, bytes, tx)
  }

  /** The triple buffers of outputs and inputs lie one behind the other from the start of the process-data region, and
      meet no mailbox while three times the bytes of both fit it. The source does not check that. With mailboxes in the
      RAM that is exactly when they meet no mailbox and do not pass the end of the RAM: from a region below the
      mailboxes they run into the mailbox that starts first, from a region above them past the RAM. */
  lemma BuffersInRegionIff(s: NetSlave, m: Mapping, rx: SyncManagers.SyncManager, tx: SyncManagers.SyncManager)
    requires SlaveInit.RamFits(rx, tx, s.info.ramKb)
    requires (s.info.pdoStart, s.info.pdoSize) == var r := SlaveInit.PdoRegion(rx, tx, s.info.ramKb); (Some(r.0), r.1)
    requires AddressesFit(s.info.pdoStart.value, m)
    ensures var slots, start := Slots(s, m), s.info.pdoStart.value;
      && (slots[0].Some? <==> m.outputs.Some?) && (slots[0].Some? ==> slots[0].value.physicalAddress == start)
      && (slots[1].Some? <==> m.inputs.Some?)
      && (slots[1].Some? ==> slots[1].value.physicalAddress == start + Bytes3(m.outputs))
    ensures var start, bytes, end := s.info.pdoStart.value, Bytes3(m.outputs) + Bytes3(m.inputs), SlaveInit.RamEnd(s.info.ramKb);
      && (bytes <= s.info.pdoSize ==> ClearOf(start, bytes, rx, tx))
      && (InRam(rx, s.info.ramKb) && InRam(tx, s.info.ramKb) ==>
            && (bytes <= s.info.pdoSize <==> ClearOf(start, bytes, rx, tx) && start + bytes <= end + 1)
            && (bytes > s.info.pdoSize ==>
                  if start < SlaveInit.Min(rx.start, tx.start)
                  then !SlaveInit.Apart(start, bytes, if rx.start <= tx.start then rx else tx)
                  else start + bytes > end + 1))
  {
  }

  /** 200 bytes of outputs and 60 of inputs below mailboxes at 0x1300: the buffers run into the first mailbox. */
  lemma BuffersOverMailbox()
    ensures var rx, tx := SyncManagers.SyncManager(0, 0x40, 0x1300), SyncManagers.SyncManager(1, 0x40, 0x1340);
      && SlaveInit.RamFits(rx, tx, 1) && SlaveInit.PdoRegion(rx, tx, 1) == (0x1000, 0x300)
      && AddressesFit(0x1000, Mapping(Some(1600), Some(480)))
      && !SlaveInit.Apart(0x1000, Bytes3(Some(1600)) + Bytes3(Some(480)), rx)
  {
  }

  /** A mailbox of at least one byte in the RAM. */
  predicate InRam(sm: SyncManagers.SyncManager, kb: nat) { sm.size >= 1 && SlaveInit.InRam(sm.start, sm.size, kb) }
}
