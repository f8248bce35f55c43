/** The FMMU registers the master writes, and one LRW datagram travelling through the slaves that own them. */
module LrwPass {
  import opened Bytes
  import opened LogicalBits
  import opened ProcessImage
  import opened ImageLayout

  datatype Register = Register(
    logicalStart: nat, length: nat, startBit: nat, endBit: nat, physicalStart: nat,
    readEnable: bool, writeEnable: bool, enable: bool)

  /** The register contents `configure_fmmu` computes; a slot without an address or a length is skipped. The
      logical start bit is never set, so it keeps the value 0 of a new register. */
  function RegisterFor(slot: Option<Fmmu>): Option<Register>
    requires slot.Some? ==> slot.value.bits.Valid()
  {
    if slot.None? || slot.value.bits.logicalAddress.None? || slot.value.bits.ByteLength() == 0 then None
    else
      var f := slot.value;
      Some(Register(f.bits.logicalAddress.value, f.bits.ByteLength(), 0, f.bits.EndBit(), f.physicalAddress,
                    f.direction.Input?, f.direction.Output?, true))
  }

  predicate ValidSlots(slots: seq<Option<Fmmu>>) {
    forall j :: 0 <= j < |slots| && slots[j].Some? ==> slots[j].value.bits.Valid()
  }

  predicate RegistersOf(slots: seq<Option<Fmmu>>, regs: seq<Option<Register>>)
    requires ValidSlots(slots)
  {
    |regs| == |slots| && forall j {:trigger regs[j]} :: 0 <= j < |slots| ==> regs[j] == RegisterFor(slots[j])
  }

  /** The register-building loop of `configure_fmmu` for one slave. */
  method BuildRegisters(slots: seq<Option<Fmmu>>) returns (regs: seq<Option<Register>>)
    requires ValidSlots(slots)
    ensures RegistersOf(slots, regs)
  {
    regs := [];
    for i := 0 to |slots|
      invariant |regs| == i && forall j {:trigger regs[j]} :: 0 <= j < i ==> regs[j] == RegisterFor(slots[j])
    {
      var reg: Option<Register> := None;
      if slots[i].Some? {
        var f := slots[i].value;
        if f.bits.logicalAddress.Some? && f.bits.ByteLength() != 0 {
          var r := Register(f.bits.logicalAddress.value, f.bits.ByteLength(), 0, f.bits.EndBit(),
                            f.physicalAddress, false, false, false);
          match f.direction {
            case Output => r := r.(readEnable := false, writeEnable := true);
            case Input => r := r.(readEnable := true, writeEnable := false);
          }
          reg := Some(r.(enable := true));
        }
      }
      regs := regs + [reg];
    }
  }

  /** The logical bits a register maps, by its start address, start bit, length and end bit. */
  predicate Covers(r: Register, bit: int) {
    r.enable && 8 * r.logicalStart + r.startBit <= bit <= 8 * (r.logicalStart + r.length - 1) + r.endBit
  }

  /** A register denotes exactly the area of its FMMU if and only if the area starts on a byte. */
  lemma RegisterIsAreaIff(f: Fmmu)
    requires f.bits.Valid() && f.bits.logicalAddress.Some? && f.bits.bitLength > 0
    ensures RegisterFor(Some(f)).Some?
    ensures f.bits.startBit == 0 <==>
      (forall bit: int :: Covers(RegisterFor(Some(f)).value, bit) <==>
        0 <= bit - (8 * f.bits.logicalAddress.value + f.bits.startBit) < f.bits.bitLength)
  {
    var r := RegisterFor(Some(f)).value;
    if f.bits.startBit != 0 {
      var first := 8 * f.bits.logicalAddress.value;
      assert Covers(r, first) && !(0 <= first - (first + f.bits.startBit));
    }
  }

  // ------------------------------------------------------------------ registers of a placed image

  /** An area of one byte from bit 4 on: its register also takes the four bits before it. */
  lemma MidByteRegister()
    ensures var f := Fmmu(Field(Some(0x1000), 4, 8), 0x1100, Input);
      RegisterFor(Some(f)).Some? && Covers(RegisterFor(Some(f)).value, 0x8000) && 0x8000 < 8 * 0x1000 + f.bits.startBit
  {
  }

  /** Slots as `FmmuConfig::new` leaves them: no address yet. */
  predicate Fresh(slaves: seq<Slave>) {
    forall i, j :: 0 <= i < |slaves| && 0 <= j < |slaves[i].fmmu| && slaves[i].fmmu[j].Some? ==>
      slaves[i].fmmu[j].value.bits.logicalAddress.None? && slaves[i].fmmu[j].value.bits.Valid()
  }

  /** Slot 0 carries outputs, the others carry inputs. */
  predicate StandardSlots(slaves: seq<Slave>) {
    forall i, j :: 0 <= i < |slaves| && 0 <= j < |slaves[i].fmmu| && slaves[i].fmmu[j].Some? ==>
      slaves[i].fmmu[j].value.direction == if j == 0 then Output else Input
  }

  ghost predicate Configured(slaves: seq<Slave>, regs: seq<seq<Option<Register>>>) {
    && Fresh(slaves) && Fits(slaves) && ByteSized(slaves) && |regs| == |slaves|
    && exists placed :: IsPlaced(slaves, placed) && RegistersMatch(placed, regs)
  }

  ghost predicate RegistersMatch(placed: seq<Slave>, regs: seq<seq<Option<Register>>>) {
    |regs| == |placed| && forall i {:trigger regs[i]} :: 0 <= i < |placed| ==>
      ValidSlots(placed[i].fmmu) && RegistersOf(placed[i].fmmu, regs[i])
  }

  function AreaRegister(slaves: seq<Slave>, i: nat, j: nat): Register
    requires IsArea(slaves, i, j)
  {
    var f := slaves[i].fmmu[j].value;
    Register(Lo(slaves, i, j) / 8, f.bits.bitLength / 8, 0, 7, f.physicalAddress,
             f.direction.Input?, f.direction.Output?, true)
  }

  /** Every area has a register that denotes it in whole bytes, and nothing else has a register. */
  lemma RegisterOfArea(slaves: seq<Slave>, regs: seq<seq<Option<Register>>>, i: nat, j: nat)
    requires Configured(slaves, regs) && i < |slaves| && j < |slaves[i].fmmu|
    ensures |regs[i]| == |slaves[i].fmmu|
    ensures regs[i][j] == if IsArea(slaves, i, j) then Some(AreaRegister(slaves, i, j)) else None
  {
    var placed: seq<Slave> :| IsPlaced(slaves, placed) && RegistersMatch(placed, regs);
    assert RegistersOf(placed[i].fmmu, regs[i]);
    var base := 8 * LOGICAL_START_ADDRESS + TotalBits(slaves, i);
    assert SlavePlaced(slaves[i], placed[i], base);
    if IsArea(slaves, i, j) {
      ByteAligned(slaves, i, j);
    } else {
      assert placed[i].fmmu[j] == PlaceSlot(slaves[i].fmmu[j], base + SlotBits(slaves[i].fmmu, j));
    }
  }

  predicate CoversByte(r: Option<Register>, addr: int) {
    r.Some? && r.value.enable && r.value.logicalStart <= addr < r.value.logicalStart + r.value.length
  }

  lemma AreaBytes(slaves: seq<Slave>, i: nat, j: nat, addr: int)
    requires IsArea(slaves, i, j) && ByteSized(slaves)
    ensures CoversByte(Some(AreaRegister(slaves, i, j)), addr) <==>
      Lo(slaves, i, j) <= 8 * addr < Hi(slaves, i, j)
  {
    ByteAligned(slaves, i, j);
    assert SlotLength(slaves[i].fmmu[j]) % 8 == 0;
  }

  /** At most one register of the whole network maps a given logical byte. */
  lemma OneOwner(slaves: seq<Slave>, regs: seq<seq<Option<Register>>>, i: nat, j: nat, i': nat, j': nat, addr: int)
    requires Configured(slaves, regs) && i < |slaves| && j < |slaves[i].fmmu|
    requires i' < |slaves| && j' < |slaves[i'].fmmu|
    requires |regs[i]| == |slaves[i].fmmu| && |regs[i']| == |slaves[i'].fmmu|
    requires CoversByte(regs[i][j], addr) && CoversByte(regs[i'][j'], addr)
    ensures i == i' && j == j'
  {
    RegisterOfArea(slaves, regs, i, j);
    RegisterOfArea(slaves, regs, i', j');
    AreaBytes(slaves, i, j, addr);
    AreaBytes(slaves, i', j', addr);
    if i < i' || (i == i' && j < j') {
      AreasOrdered(slaves, i, j, i', j');
    } else if i' < i || j' < j {
      AreasOrdered(slaves, i', j', i, j);
    }
  }

  // ------------------------------------------------------------------ working counter of the pass

  /** A slave counts a read when one of its read-enabled registers maps a byte of the datagram. */
  predicate Hit(regs: seq<Option<Register>>, j: nat, read: bool, lo: int, hi: int)
    requires j <= |regs|
  {
    j > 0 && (Hit(regs, j - 1, read, lo, hi) ||
              (regs[j - 1].Some? && RegisterHit(regs[j - 1].value, read, lo, hi)))
  }

  predicate RegisterHit(r: Register, read: bool, lo: int, hi: int) {
    r.enable && (if read then r.readEnable else r.writeEnable)
    && r.logicalStart < hi && lo < r.logicalStart + r.length
  }

  function LrwWkc(regs: seq<seq<Option<Register>>>, i: nat, lo: int, hi: int): nat
    requires i <= |regs|
  {
    if i == 0 then 0
    else
      LrwWkc(regs, i - 1, lo, hi)
      + (if Hit(regs[i - 1], |regs[i - 1]|, true, lo, hi) then 1 else 0)
      + (if Hit(regs[i - 1], |regs[i - 1]|, false, lo, hi) then 2 else 0)
  }

  /** The expected working counter is the one a pass over the written registers yields. */
  lemma WkcOfPass(slaves: seq<Slave>, regs: seq<seq<Option<Register>>>)
    requires Configured(slaves, regs)
    ensures ExpectedWkc(slaves, |slaves|) ==
      LrwWkc(regs, |slaves|, LOGICAL_START_ADDRESS, LOGICAL_START_ADDRESS + ImageSize(slaves))
  {
    WkcOfPrefix(slaves, regs, |slaves|);
  }

  lemma {:induction false} WkcOfPrefix(slaves: seq<Slave>, regs: seq<seq<Option<Register>>>, i: nat)
    requires Configured(slaves, regs) && i <= |slaves|
    ensures ExpectedWkc(slaves, i) ==
      LrwWkc(regs, i, LOGICAL_START_ADDRESS, LOGICAL_START_ADDRESS + ImageSize(slaves))
    decreases i
  {
    if i > 0 {
      WkcOfPrefix(slaves, regs, i - 1);
      var slots := slaves[i - 1].fmmu;
      if |slots| > 0 { RegisterOfArea(slaves, regs, i - 1, 0); }
      HitIsDirection(slaves, regs, i - 1, |slots|, true);
      HitIsDirection(slaves, regs, i - 1, |slots|, false);
    }
  }

  lemma {:induction false} HitIsDirection(
    slaves: seq<Slave>, regs: seq<seq<Option<Register>>>, i: nat, j: nat, read: bool)
    requires Configured(slaves, regs) && i < |slaves| && j <= |slaves[i].fmmu| == |regs[i]|
    ensures Hit(regs[i], j, read, LOGICAL_START_ADDRESS, LOGICAL_START_ADDRESS + ImageSize(slaves)) <==>
      HasDirection(slaves[i].fmmu, j, if read then Input else Output)
    decreases j
  {
    if j > 0 {
      HitIsDirection(slaves, regs, i, j - 1, read);
      RegisterOfArea(slaves, regs, i, j - 1);
      if IsArea(slaves, i, j - 1) {
        AreaInImage(slaves, i, j - 1);
        ByteAligned(slaves, i, j - 1);
        assert SlotLength(slaves[i].fmmu[j - 1]) % 8 == 0;
      }
    }
  }

  // ------------------------------------------------------------------ the data exchanged by the pass

  /** Where slave memory feeds logical byte `addr`: the first of the first j registers that reads it. */
  function Source(regs: seq<Option<Register>>, j: nat, addr: int): Option<int>
    requires j <= |regs|
  {
    if j == 0 then None
    else if Source(regs, j - 1, addr).Some? then Source(regs, j - 1, addr)
    else if CoversByte(regs[j - 1], addr) && regs[j - 1].value.readEnable then
      Some(regs[j - 1].value.physicalStart + addr - regs[j - 1].value.logicalStart)
    else None
  }

  predicate CoversPhysical(r: Option<Register>, p: int) {
    r.Some? && r.value.enable && r.value.writeEnable
    && r.value.physicalStart <= p < r.value.physicalStart + r.value.length
  }

  /** The logical byte written to physical address p. */
  function Sink(regs: seq<Option<Register>>, j: nat, p: int): Option<int>
    requires j <= |regs|
  {
    if j == 0 then None
    else if Sink(regs, j - 1, p).Some? then Sink(regs, j - 1, p)
    else if CoversPhysical(regs[j - 1], p) then
      Some(regs[j - 1].value.logicalStart + p - regs[j - 1].value.physicalStart)
    else None
  }

  function ByteOr(s: seq<byte>, i: int, default: byte): byte {
    if 0 <= i < |s| then s[i] else default
  }

  /** One slave: bytes it owns for reading are replaced by its memory, its memory takes the written bytes. */
  ghost predicate SlavePass(regs: seq<Option<Register>>, mem: seq<byte>, frame: seq<byte>,
                            mem': seq<byte>, frame': seq<byte>) {
    && |frame'| == |frame| && |mem'| == |mem|
    && (forall k {:trigger frame'[k]} :: 0 <= k < |frame| ==>
         var from := Source(regs, |regs|, LOGICAL_START_ADDRESS + k);
         frame'[k] == if from.Some? then ByteOr(mem, from.value, frame[k]) else frame[k])
    && (forall p {:trigger mem'[p]} :: 0 <= p < |mem| ==>
         var from := Sink(regs, |regs|, p);
         mem'[p] == if from.Some? then ByteOr(frame, from.value - LOGICAL_START_ADDRESS, mem[p]) else mem[p])
  }

  /** The datagram travels through all slaves: frames[i] is what slave i receives. */
  ghost predicate Pass(regs: seq<seq<Option<Register>>>, frames: seq<seq<byte>>, mems: seq<seq<byte>>, mems': seq<seq<byte>>) {
    && |frames| == |regs| + 1 && |mems| == |mems'| == |regs|
    && forall i {:trigger regs[i]} :: 0 <= i < |regs| ==> SlavePass(regs[i], mems[i], frames[i], mems'[i], frames[i + 1])
  }

  lemma {:induction false} SourceNone(regs: seq<Option<Register>>, j: nat, addr: int)
    requires j <= |regs| && forall k :: 0 <= k < j ==> !CoversByte(regs[k], addr)
    ensures Source(regs, j, addr).None?
  {
    if j > 0 { SourceNone(regs, j - 1, addr); }
  }

  lemma {:induction false} SourceAt(regs: seq<Option<Register>>, j: nat, addr: int, owner: nat)
    requires owner < j <= |regs| && CoversByte(regs[owner], addr) && regs[owner].value.readEnable
    requires forall k :: 0 <= k < j && k != owner ==> !CoversByte(regs[k], addr)
    ensures Source(regs, j, addr) == Some(regs[owner].value.physicalStart + addr - regs[owner].value.logicalStart)
  {
    if owner < j - 1 { SourceAt(regs, j - 1, addr, owner); } else { SourceNone(regs, owner, addr); }
  }

  lemma {:induction false} SinkAt(regs: seq<Option<Register>>, j: nat, p: int, owner: nat)
    requires owner < j <= |regs| && CoversPhysical(regs[owner], p)
    requires forall k :: 0 <= k < j && k != owner ==> !CoversPhysical(regs[k], p)
    ensures Sink(regs, j, p) == Some(regs[owner].value.logicalStart + p - regs[owner].value.physicalStart)
  {
    if owner < j - 1 { SinkAt(regs, j - 1, p, owner); } else { SinkNone(regs, owner, p); }
  }

  lemma {:induction false} SinkNone(regs: seq<Option<Register>>, j: nat, p: int)
    requires j <= |regs| && forall k :: 0 <= k < j ==> !CoversPhysical(regs[k], p)
    ensures Sink(regs, j, p).None?
  {
    if j > 0 { SinkNone(regs, j - 1, p); }
  }

  /** A slave other than the owner lets the byte through unchanged. */
  lemma {:induction false} ByteUntouched(slaves: seq<Slave>, regs: seq<seq<Option<Register>>>,
    frames: seq<seq<byte>>, mems: seq<seq<byte>>, mems': seq<seq<byte>>, i: nat, j: nat, first: nat, last: nat, k: nat)
    requires Configured(slaves, regs) && Pass(regs, frames, mems, mems') && i < |slaves| && j < |slaves[i].fmmu| == |regs[i]|
    requires CoversByte(regs[i][j], LOGICAL_START_ADDRESS + k)
    requires first <= last <= |regs| && !(first <= i < last) && k < |frames[first]|
    ensures k < |frames[last]| && frames[last][k] == frames[first][k]
    decreases last
  {
    if first < last {
      var q := last - 1;
      ByteUntouched(slaves, regs, frames, mems, mems', i, j, first, q, k);
      assert SlavePass(regs[q], mems[q], frames[q], mems'[q], frames[q + 1]);
      forall r | 0 <= r < |regs[q]| ensures !CoversByte(regs[q][r], LOGICAL_START_ADDRESS + k) {
        if CoversByte(regs[q][r], LOGICAL_START_ADDRESS + k) {
          OneOwner(slaves, regs, i, j, q, r, LOGICAL_START_ADDRESS + k);
        }
      }
      SourceNone(regs[q], |regs[q]|, LOGICAL_START_ADDRESS + k);
      assert frames[q + 1][k] == frames[q][k];
    }
  }

  /** Byte o of area (i, j), as an index into the datagram. */
  lemma AreaIndex(slaves: seq<Slave>, regs: seq<seq<Option<Register>>>, i: nat, j: nat, o: nat) returns (k: nat)
    requires Configured(slaves, regs) && IsArea(slaves, i, j) && 8 * o < slaves[i].fmmu[j].value.bits.bitLength
    ensures k == Lo(slaves, i, j) / 8 - LOGICAL_START_ADDRESS + o && k < ImageSize(slaves)
    ensures |regs[i]| == |slaves[i].fmmu| && regs[i][j] == Some(AreaRegister(slaves, i, j))
    ensures CoversByte(regs[i][j], LOGICAL_START_ADDRESS + k)
  {
    RegisterOfArea(slaves, regs, i, j);
    AreaInImage(slaves, i, j);
    ByteAligned(slaves, i, j);
    assert SlotLength(slaves[i].fmmu[j]) % 8 == 0;
    k := Lo(slaves, i, j) / 8 - LOGICAL_START_ADDRESS + o;
  }

  /** Inputs: after the pass the datagram holds, in every input area, the memory of the slave that owns it. */
  lemma InputsArrive(slaves: seq<Slave>, regs: seq<seq<Option<Register>>>,
    frames: seq<seq<byte>>, mems: seq<seq<byte>>, mems': seq<seq<byte>>, i: nat, j: nat, o: nat)
    requires Configured(slaves, regs) && Pass(regs, frames, mems, mems') && |frames[0]| == ImageSize(slaves)
    requires IsArea(slaves, i, j) && slaves[i].fmmu[j].value.direction == Input
    requires 8 * o < slaves[i].fmmu[j].value.bits.bitLength
    requires slaves[i].fmmu[j].value.physicalAddress + o < |mems[i]|
    ensures var k := Lo(slaves, i, j) / 8 - LOGICAL_START_ADDRESS + o;
      0 <= k < |frames[|regs|]| && frames[|regs|][k] == mems[i][slaves[i].fmmu[j].value.physicalAddress + o]
  {
    var k := AreaIndex(slaves, regs, i, j, o);
    ByteUntouched(slaves, regs, frames, mems, mems', i, j, 0, i, k);
    assert SlavePass(regs[i], mems[i], frames[i], mems'[i], frames[i + 1]);
    forall r | 0 <= r < |regs[i]| && r != j ensures !CoversByte(regs[i][r], LOGICAL_START_ADDRESS + k) {
      if CoversByte(regs[i][r], LOGICAL_START_ADDRESS + k) {
        OneOwner(slaves, regs, i, j, i, r, LOGICAL_START_ADDRESS + k);
      }
    }
    SourceAt(regs[i], |regs[i]|, LOGICAL_START_ADDRESS + k, j);
    assert frames[i + 1][k] == mems[i][slaves[i].fmmu[j].value.physicalAddress + o];
    ByteUntouched(slaves, regs, frames, mems, mems', i, j, i + 1, |regs|, k);
  }

  /** Outputs: every slave ends up with the bytes the master put into its output area. */
  lemma OutputsArrive(slaves: seq<Slave>, regs: seq<seq<Option<Register>>>,
    frames: seq<seq<byte>>, mems: seq<seq<byte>>, mems': seq<seq<byte>>, i: nat, o: nat)
    requires Configured(slaves, regs) && StandardSlots(slaves)
    requires Pass(regs, frames, mems, mems') && |frames[0]| == ImageSize(slaves)
    requires IsArea(slaves, i, 0) && 8 * o < slaves[i].fmmu[0].value.bits.bitLength
    requires slaves[i].fmmu[0].value.physicalAddress + o < |mems[i]|
    ensures var k := Lo(slaves, i, 0) / 8 - LOGICAL_START_ADDRESS + o;
      && 0 <= k < |frames[0]| && |mems'[i]| == |mems[i]|
      && mems'[i][slaves[i].fmmu[0].value.physicalAddress + o] == frames[0][k]
  {
    var k := AreaIndex(slaves, regs, i, 0, o);
    var p := slaves[i].fmmu[0].value.physicalAddress + o;
    ByteUntouched(slaves, regs, frames, mems, mems', i, 0, 0, i, k);
    assert SlavePass(regs[i], mems[i], frames[i], mems'[i], frames[i + 1]);
    forall r | 0 <= r < |regs[i]| && r != 0 ensures !CoversPhysical(regs[i][r], p) {
      RegisterOfArea(slaves, regs, i, r);
    }
    SinkAt(regs[i], |regs[i]|, p, 0);
    assert mems'[i][p] == frames[i][k];
  }
}
