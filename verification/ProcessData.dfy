/** PDO entries end to end: entries of all slaves are disjoint, writing one changes no other, and a written
    output reaches the memory of the slave it is mapped to. */
module ProcessData {
  import opened Bytes
  import opened LogicalBits
  import opened ProcessImage
  import opened ImageLayout
  import opened LrwPass

  /** Entry k of map m in process-data slot d (0 outputs, 1 inputs) of slave i. */
  datatype EntryId = EntryId(i: nat, d: nat, m: nat, k: nat)

  predicate IsEntryOf(slaves: seq<Slave>, e: EntryId) {
    e.d < 2 && IsArea(slaves, e.i, e.d) && IsEntry(slaves[e.i].Maps(e.d), e.m, e.k)
  }

  /** The configuration passes the length assertion and its entries are whole bytes. */
  ghost predicate Filled(slaves: seq<Slave>) {
    forall i, d :: 0 <= i < |slaves| && 0 <= d < 2 && IsArea(slaves, i, d) && slaves[i].Maps(d) != [] ==>
      && AllBits(slaves[i].Maps(d)) == slaves[i].fmmu[d].value.bits.bitLength
      && EntriesAligned(slaves[i].Maps(d))
  }

  function Start(slaves: seq<Slave>, e: EntryId): nat
    requires IsEntryOf(slaves, e)
  {
    Lo(slaves, e.i, e.d) + EntryLo(slaves[e.i].Maps(e.d), e.m, e.k)
  }

  function Length(slaves: seq<Slave>, e: EntryId): nat
    requires IsEntryOf(slaves, e)
  {
    slaves[e.i].Maps(e.d)[e.m][e.k].bitLength
  }

  lemma EntryInArea(slaves: seq<Slave>, e: EntryId)
    requires Filled(slaves) && IsEntryOf(slaves, e)
    ensures Lo(slaves, e.i, e.d) <= Start(slaves, e)
    ensures Start(slaves, e) + Length(slaves, e) <= Hi(slaves, e.i, e.d) <= End(slaves)
  {
    EntryInMaps(slaves[e.i].Maps(e.d), e.m, e.k);
    AreaInImage(slaves, e.i, e.d);
  }

  /** Distinct entries, of the same or of different slaves, never share a bit. */
  lemma EntriesDisjoint(slaves: seq<Slave>, e: EntryId, f: EntryId)
    requires Filled(slaves) && IsEntryOf(slaves, e) && IsEntryOf(slaves, f) && e != f
    ensures Start(slaves, e) + Length(slaves, e) <= Start(slaves, f)
         || Start(slaves, f) + Length(slaves, f) <= Start(slaves, e)
  {
    EntryInArea(slaves, e);
    EntryInArea(slaves, f);
    if e.i == f.i && e.d == f.d {
      var maps := slaves[e.i].Maps(e.d);
      if e.m < f.m || (e.m == f.m && e.k < f.k) {
        EntriesOrdered(maps, e.m, e.k, f.m, f.k);
      } else {
        EntriesOrdered(maps, f.m, f.k, e.m, e.k);
      }
    } else if e.i < f.i || (e.i == f.i && e.d < f.d) {
      AreasOrdered(slaves, e.i, e.d, f.i, f.d);
    } else {
      AreasOrdered(slaves, f.i, f.d, e.i, e.d);
    }
  }

  /** No gaps: every bit of an area with maps belongs to an entry. */
  lemma EntriesCover(slaves: seq<Slave>, i: nat, d: nat, bit: nat) returns (e: EntryId)
    requires Filled(slaves) && d < 2 && IsArea(slaves, i, d) && slaves[i].Maps(d) != []
    requires Lo(slaves, i, d) <= bit < Hi(slaves, i, d)
    ensures e.i == i && e.d == d && IsEntryOf(slaves, e)
    ensures Start(slaves, e) <= bit < Start(slaves, e) + Length(slaves, e)
  {
    var maps, offset := slaves[i].Maps(d), bit - Lo(slaves, i, d);
    var m := FindMap(maps, |maps|, offset);
    var k := FindEntry(maps[m], |maps[m]|, offset - MapBits(maps, m));
    e := EntryId(i, d, m, k);
  }

  /** `field` denotes exactly the bits of entry e, from a byte boundary on. */
  predicate Locates(slaves: seq<Slave>, e: EntryId, field: Field)
    requires IsEntryOf(slaves, e)
  {
    AtBit(field, Start(slaves, e)) && field.startBit == 0 && field.bitLength == Length(slaves, e)
  }

  /** The two placement passes, FMMUs first and entries then, locate every entry. */
  lemma FieldLocates(slaves: seq<Slave>, placed: seq<Slave>, maps: seq<seq<Field>>, e: EntryId)
    requires ByteSized(slaves) && Filled(slaves) && IsEntryOf(slaves, e)
    requires IsPlaced(slaves, placed) && IsArea(placed, e.i, e.d)
    requires SlotMapsPlaced(placed[e.i].fmmu, e.d, placed[e.i].Maps(e.d), maps)
    ensures IsEntry(maps, e.m, e.k) && Locates(slaves, e, maps[e.m][e.k])
  {
    var plain, lo := slaves[e.i].Maps(e.d), Lo(slaves, e.i, e.d);
    assert SlavePlaced(slaves[e.i], placed[e.i], 8 * LOGICAL_START_ADDRESS + TotalBits(slaves, e.i));
    assert SlotBase(placed[e.i].fmmu, e.d) == lo;
    MapsLocate(plain, maps, lo, e.m, e.k) by {
      ByteAligned(slaves, e.i, e.d);
      assert IsArea(slaves, e.i, e.d) && plain != [];
    }
  }

  lemma MapsLocate(plain: seq<seq<Field>>, maps: seq<seq<Field>>, lo: nat, m: nat, k: nat)
    requires lo % 8 == 0 && EntriesAligned(plain) && MapsPlaced(plain, maps, lo) && IsEntry(plain, m, k)
    ensures IsEntry(maps, m, k) && AtBit(maps[m][k], lo + EntryLo(plain, m, k))
    ensures maps[m][k].startBit == 0 && maps[m][k].bitLength == plain[m][k].bitLength
  {
    EntryLoAligned(plain, m, k);
    EntryPlacedAt(plain, maps, lo, m, k);
  }

  /** The image after `write_pdo` on the entry behind `field`. */
  predicate CanWrite(field: Field, image: seq<byte>, src: seq<byte>) {
    && field.Valid() && field.logicalAddress.Some? && LOGICAL_START_ADDRESS <= field.logicalAddress.value
    && field.ByteLength() <= |src|
    && field.logicalAddress.value - LOGICAL_START_ADDRESS + field.ByteLength() <= |image|
  }

  function WritePdo(field: Field, image: seq<byte>, src: seq<byte>): seq<byte>
    requires CanWrite(field, image, src)
  {
    Written(field, field.logicalAddress.value - LOGICAL_START_ADDRESS, image, src)
  }

  lemma LocatedCanWrite(slaves: seq<Slave>, e: EntryId, field: Field, image: seq<byte>, src: seq<byte>)
    requires Filled(slaves) && Fits(slaves) && IsEntryOf(slaves, e) && Locates(slaves, e, field)
    requires |image| == ImageSize(slaves) && Length(slaves, e) <= 8 * |src|
    ensures CanWrite(field, image, src) && field.bitLength % 8 == 0 && 8 * field.ByteLength() == field.bitLength
    ensures 8 * field.logicalAddress.value == Start(slaves, e)
  {
    EntryInArea(slaves, e);
    AreaInImage(slaves, e.i, e.d);
    assert IsEntry(slaves[e.i].Maps(e.d), e.m, e.k);
  }

  /** Writing an entry sets its own bits and leaves every bit of every other entry as it was. */
  lemma WriteIsolated(slaves: seq<Slave>, e: EntryId, field: Field, image: seq<byte>, src: seq<byte>, f: EntryId, n: nat)
    requires Filled(slaves) && Fits(slaves) && IsEntryOf(slaves, e) && Locates(slaves, e, field)
    requires |image| == ImageSize(slaves) && Length(slaves, e) <= 8 * |src|
    requires IsEntryOf(slaves, f) && n < Length(slaves, f)
    ensures CanWrite(field, image, src) && Start(slaves, f) >= 8 * LOGICAL_START_ADDRESS
    ensures var b := Start(slaves, f) + n - 8 * LOGICAL_START_ADDRESS;
      BitAt(WritePdo(field, image, src), b) <==> if e == f then BitAt(src, n) else BitAt(image, b)
  {
    LocatedCanWrite(slaves, e, field, image, src);
    EntryInArea(slaves, f);
    AreaInImage(slaves, f.i, f.d);
    if e != f { EntriesDisjoint(slaves, e, f); }
    WriteAt(field, image, src, Start(slaves, e), Start(slaves, f) + n);
  }

  /** The bits of the image after a byte-aligned write, by their logical bit address. */
  lemma WriteAt(field: Field, image: seq<byte>, src: seq<byte>, start: nat, bit: nat)
    requires CanWrite(field, image, src) && field.startBit == 0 && field.bitLength % 8 == 0
    requires start == 8 * field.logicalAddress.value
    requires 8 * LOGICAL_START_ADDRESS <= bit < 8 * LOGICAL_START_ADDRESS + 8 * |image|
    ensures BitAt(WritePdo(field, image, src), bit - 8 * LOGICAL_START_ADDRESS) <==>
      if start <= bit < start + field.bitLength then BitAt(src, bit - start)
      else BitAt(image, bit - 8 * LOGICAL_START_ADDRESS)
  {
    WrittenBit(field, field.logicalAddress.value - LOGICAL_START_ADDRESS, image, src, bit - 8 * LOGICAL_START_ADDRESS);
  }

  /** A written output entry reaches the slave: after the next pass, its bytes lie in the slave's memory behind
      the physical address of the output FMMU, whatever the other slaves put into the datagram. */
  lemma PdoWriteReachesSlave(slaves: seq<Slave>, regs: seq<seq<Option<Register>>>,
    frames: seq<seq<byte>>, mems: seq<seq<byte>>, mems': seq<seq<byte>>,
    e: EntryId, field: Field, image: seq<byte>, src: seq<byte>, o: nat)
    requires Configured(slaves, regs) && StandardSlots(slaves) && Filled(slaves)
    requires IsEntryOf(slaves, e) && e.d == 0 && Locates(slaves, e, field)
    requires |image| == ImageSize(slaves) && Length(slaves, e) <= 8 * |src| && 8 * o < Length(slaves, e)
    requires CanWrite(field, image, src)
    requires Pass(regs, frames, mems, mems') && frames[0] == WritePdo(field, image, src)
    requires slaves[e.i].fmmu[0].value.physicalAddress + slaves[e.i].fmmu[0].value.bits.bitLength / 8 <= |mems[e.i]|
    ensures var p := slaves[e.i].fmmu[0].value.physicalAddress + EntryLo(slaves[e.i].outputs, e.m, e.k) / 8 + o;
      p < |mems'[e.i]| && mems'[e.i][p] == src[o]
  {
    var inArea := EntryLo(slaves[e.i].outputs, e.m, e.k);
    EntryOffset(slaves, e, field, image, src, o);
    OutputsArrive(slaves, regs, frames, mems, mems', e.i, inArea / 8 + o);
    LocatedCanWrite(slaves, e, field, image, src);
    WrittenByte(field, field.logicalAddress.value - LOGICAL_START_ADDRESS, image, src, o);
  }

  /** Byte o of an entry, counted from the start of its area. */
  lemma EntryOffset(slaves: seq<Slave>, e: EntryId, field: Field, image: seq<byte>, src: seq<byte>, o: nat)
    requires ByteSized(slaves) && Fits(slaves) && Filled(slaves)
    requires IsEntryOf(slaves, e) && Locates(slaves, e, field)
    requires |image| == ImageSize(slaves) && Length(slaves, e) <= 8 * |src| && 8 * o < Length(slaves, e)
    ensures var inArea := EntryLo(slaves[e.i].Maps(e.d), e.m, e.k); var bits := slaves[e.i].fmmu[e.d].value.bits.bitLength;
      && field.logicalAddress == Some(Lo(slaves, e.i, e.d) / 8 + inArea / 8)
      && inArea / 8 + o < bits / 8 && 8 * (inArea / 8 + o) < bits
  {
    var maps := slaves[e.i].Maps(e.d);
    LocatedCanWrite(slaves, e, field, image, src);
    EntryInArea(slaves, e);
    ByteAligned(slaves, e.i, e.d);
    EntryLoAligned(maps, e.m, e.k);
    assert SlotLength(slaves[e.i].fmmu[e.d]) % 8 == 0;
  }

  /** A byte-aligned write copies whole bytes. */
  lemma WrittenByte(field: Field, at: nat, image: seq<byte>, src: seq<byte>, o: nat)
    requires field.Valid() && field.startBit == 0 && field.bitLength % 8 == 0
    requires field.ByteLength() <= |src| && at + field.ByteLength() <= |image| && o < field.ByteLength()
    ensures Written(field, at, image, src)[at + o] == src[o]
  {
    var after := Written(field, at, image, src);
    forall k | 0 <= k < 8 ensures Bit(after[at + o], k) == Bit(src[o], k) {
      WriteSetsField(field, at, image, src, 8 * o + k);
      BitOfByte(after, at + o, k);
      BitOfByte(src, o, k);
      assert 8 * at + (8 * o + k) == 8 * (at + o) + k;
    }
    assert Pow2(8) == 256;
    SameBits(after[at + o], src[o], 8);
  }

  lemma BitOfByte(s: seq<byte>, i: nat, k: nat)
    requires i < |s| && k < 8
    ensures BitAt(s, 8 * i + k) == Bit(s[i], k)
  {
    assert (8 * i + k) / 8 == i && (8 * i + k) % 8 == k;
  }

  // ------------------------------------------------------------------ inputs

  /** `read_pdo` can read the entry behind `field`. */
  predicate CanRead(field: Field, image: seq<byte>) {
    && field.Valid() && field.logicalAddress.Some? && LOGICAL_START_ADDRESS <= field.logicalAddress.value
    && field.logicalAddress.value - LOGICAL_START_ADDRESS + field.ByteLength() <= |image|
  }

  function ReadPdo(field: Field, image: seq<byte>): seq<byte>
    requires CanRead(field, image)
  {
    ReadBytes(field, image[field.logicalAddress.value - LOGICAL_START_ADDRESS..])
  }

  /** Where entry e lies in the memory of its slave. */
  function PhysicalStart(slaves: seq<Slave>, e: EntryId): nat
    requires IsEntryOf(slaves, e)
  {
    slaves[e.i].fmmu[e.d].value.physicalAddress + EntryLo(slaves[e.i].Maps(e.d), e.m, e.k) / 8
  }

  /** After a pass `read_pdo` sees the memory of the slave: exactly for an entry of one byte, and for a longer one with
      the top bit of every byte but the last mixed with the bit behind it. */
  lemma PdoReadsSlave(slaves: seq<Slave>, regs: seq<seq<Option<Register>>>,
    frames: seq<seq<byte>>, mems: seq<seq<byte>>, mems': seq<seq<byte>>, e: EntryId, field: Field, n: nat)
    requires Configured(slaves, regs) && StandardSlots(slaves) && Filled(slaves)
    requires IsEntryOf(slaves, e) && e.d == 1 && Locates(slaves, e, field) && n < Length(slaves, e)
    requires Pass(regs, frames, mems, mems') && |frames[0]| == |frames[|regs|]| == ImageSize(slaves)
    requires slaves[e.i].fmmu[1].value.physicalAddress + slaves[e.i].fmmu[1].value.bits.bitLength / 8 <= |mems[e.i]|
    ensures CanRead(field, frames[|regs|]) && PhysicalStart(slaves, e) <= |mems[e.i]|
    ensures var seen := mems[e.i][PhysicalStart(slaves, e)..];
      BitAt(ReadPdo(field, frames[|regs|]), n) <==>
        BitAt(seen, n) || (n % 8 == 7 && n + 1 < Length(slaves, e) && BitAt(seen, n + 1))
  {
    var image, len := frames[|regs|], Length(slaves, e);
    LocatedCanWrite(slaves, e, field, image, Zeros(len));
    var at, p, bytes := field.logicalAddress.value - LOGICAL_START_ADDRESS, PhysicalStart(slaves, e), field.ByteLength();
    SameBytesAsSlave(slaves, regs, frames, mems, mems', e, field, at, p, bytes);
    AlignedReadBit(field, image[at..], n);
  }

  /** The bytes of the entry in the image are those in the memory of the slave. */
  lemma SameBytesAsSlave(slaves: seq<Slave>, regs: seq<seq<Option<Register>>>,
    frames: seq<seq<byte>>, mems: seq<seq<byte>>, mems': seq<seq<byte>>, e: EntryId, field: Field, at: nat, p: nat, bytes: nat)
    requires Configured(slaves, regs) && StandardSlots(slaves) && Filled(slaves)
    requires IsEntryOf(slaves, e) && e.d == 1 && Locates(slaves, e, field)
    requires Pass(regs, frames, mems, mems') && |frames[0]| == |frames[|regs|]| == ImageSize(slaves)
    requires slaves[e.i].fmmu[1].value.physicalAddress + slaves[e.i].fmmu[1].value.bits.bitLength / 8 <= |mems[e.i]|
    requires CanRead(field, frames[|regs|]) && at == field.logicalAddress.value - LOGICAL_START_ADDRESS
    requires p == PhysicalStart(slaves, e) && 8 * bytes == Length(slaves, e) && at + bytes <= |frames[|regs|]|
    ensures p + bytes <= |mems[e.i]| && frames[|regs|][at..at + bytes] == mems[e.i][p..p + bytes]
  {
    var image, mem := frames[|regs|], mems[e.i];
    if bytes > 0 { ByteAsSlave(slaves, regs, frames, mems, mems', e, field, at, p, bytes - 1); }
    EntryInSlot(slaves, e, p);
    var there, here := image[at..at + bytes], mem[p..p + bytes];
    forall o | 0 <= o < bytes ensures there[o] == here[o] {
      ByteAsSlave(slaves, regs, frames, mems, mems', e, field, at, p, o);
    }
  }

  lemma EntryInSlot(slaves: seq<Slave>, e: EntryId, p: nat)
    requires Filled(slaves) && IsEntryOf(slaves, e) && p == PhysicalStart(slaves, e)
    ensures 8 * (p - slaves[e.i].fmmu[e.d].value.physicalAddress) <= slaves[e.i].fmmu[e.d].value.bits.bitLength
  {
    EntryInMaps(slaves[e.i].Maps(e.d), e.m, e.k);
  }

  lemma ByteAsSlave(slaves: seq<Slave>, regs: seq<seq<Option<Register>>>,
    frames: seq<seq<byte>>, mems: seq<seq<byte>>, mems': seq<seq<byte>>, e: EntryId, field: Field, at: nat, p: nat, o: nat)
    requires Configured(slaves, regs) && StandardSlots(slaves) && Filled(slaves)
    requires IsEntryOf(slaves, e) && e.d == 1 && Locates(slaves, e, field)
    requires Pass(regs, frames, mems, mems') && |frames[0]| == |frames[|regs|]| == ImageSize(slaves)
    requires slaves[e.i].fmmu[1].value.physicalAddress + slaves[e.i].fmmu[1].value.bits.bitLength / 8 <= |mems[e.i]|
    requires CanRead(field, frames[|regs|]) && at == field.logicalAddress.value - LOGICAL_START_ADDRESS
    requires p == PhysicalStart(slaves, e) && 8 * o < Length(slaves, e)
    ensures at + o < |frames[|regs|]| && p + o < |mems[e.i]| && frames[|regs|][at + o] == mems[e.i][p + o]
  {
    var inArea := EntryLo(slaves[e.i].Maps(1), e.m, e.k);
    EntryOffset(slaves, e, field, frames[|regs|], Zeros(Length(slaves, e)), o);
    InputsArrive(slaves, regs, frames, mems, mems', e.i, 1, inArea / 8 + o);
    ByteAligned(slaves, e.i, 1);
    assert at + o == Lo(slaves, e.i, 1) / 8 - LOGICAL_START_ADDRESS + (inArea / 8 + o);
  }

  /** The coded read of a byte-aligned field of whole bytes. */
  lemma AlignedReadBit(field: Field, area: seq<byte>, n: nat)
    requires field.Valid() && field.startBit == 0 && field.bitLength == 8 * field.ByteLength() <= 8 * |area|
    requires n < field.bitLength
    ensures BitAt(ReadBytes(field, area), n) <==> BitAt(area, n) || (n % 8 == 7 && n + 1 < field.bitLength && BitAt(area, n + 1))
  {
    ReadBit(field, area, n);
  }
}
