/** The logical process-data image: where FMMU areas and PDO entries are placed.

    Lengths are summed over prefixes: `SlotBits(slots, j)` is the number of bits before slot j. */
module ProcessImage {
  import opened Bytes
  import opened LogicalBits
  import Datagrams

  const LOGICAL_START_ADDRESS := 0x1000

  datatype Direction = Input | Output

  datatype Fmmu = Fmmu(bits: Field, physicalAddress: u16, direction: Direction)

  /** The configuration of one slave: its FMMU slots (outputs, inputs, mailbox state) and its PDO maps. */
  datatype Slave = Slave(fmmu: seq<Option<Fmmu>>, outputs: seq<seq<Field>>, inputs: seq<seq<Field>>) {
    function Maps(i: nat): seq<seq<Field>> {
      if i == 0 then outputs else inputs
    }
  }

  /** `FmmuConfig::new` as `set_pdo_to_sm_utility` calls it: a mapping of `bits` bits gets whole bytes, and
      the three buffers of the sync manager end where the next mapping starts. */
  function FmmuForMapping(ram: u16, bits: nat, direction: Direction): (r: (Fmmu, nat))
    requires bits <= 8 * 0x1FFF && ram + 3 * ((bits + 7) / 8) < 0x1_0000
    ensures r.0.bits.bitLength % 8 == 0 && bits <= r.0.bits.bitLength < bits + 8
    ensures r.0.bits.logicalAddress.None? && r.0.bits.Valid()
    ensures r.1 == ram + 3 * (r.0.bits.bitLength / 8)
  {
    var size := if bits % 8 == 0 then bits / 8 else bits / 8 + 1;
    (Fmmu(Field(None, 0, size * 8), ram, direction), ram + size * 3)
  }

  predicate Active(f: Option<Fmmu>) {
    f.Some? && f.value.bits.bitLength != 0
  }

  predicate SlotHas(f: Option<Fmmu>, d: Direction) { Active(f) && f.value.direction == d }

  function SlotLength(f: Option<Fmmu>): nat {
    if Active(f) then f.value.bits.bitLength else 0
  }

  function SlotBits(slots: seq<Option<Fmmu>>, j: nat): nat
    requires j <= |slots|
  {
    if j == 0 then 0 else SlotBits(slots, j - 1) + SlotLength(slots[j - 1])
  }

  function SlaveBits(s: Slave): nat { SlotBits(s.fmmu, |s.fmmu|) }

  function TotalBits(slaves: seq<Slave>, i: nat): nat
    requires i <= |slaves|
  {
    if i == 0 then 0 else TotalBits(slaves, i - 1) + SlaveBits(slaves[i - 1])
  }

  predicate HasDirection(slots: seq<Option<Fmmu>>, j: nat, d: Direction)
    requires j <= |slots|
  {
    j > 0 && (HasDirection(slots, j - 1, d) || SlotHas(slots[j - 1], d))
  }

  /** A slave answers an LRW with 1 for a read and 2 for a write. */
  function SlaveWkc(s: Slave): nat {
    (if HasDirection(s.fmmu, |s.fmmu|, Input) then 1 else 0)
    + (if HasDirection(s.fmmu, |s.fmmu|, Output) then 2 else 0)
  }

  function ExpectedWkc(slaves: seq<Slave>, i: nat): nat
    requires i <= |slaves|
  {
    if i == 0 then 0 else ExpectedWkc(slaves, i - 1) + SlaveWkc(slaves[i - 1])
  }

  function PlaceSlot(f: Option<Fmmu>, bit: nat): Option<Fmmu> {
    if Active(f) then
      Some(f.value.(bits := f.value.bits.(logicalAddress := Some(bit / 8), startBit := bit % 8)))
    else f
  }

  /** `placed` is `slots` with every active slot addressed behind the ones before it. */
  predicate SlotsPlaced(slots: seq<Option<Fmmu>>, placed: seq<Option<Fmmu>>, bit: nat) {
    && |placed| == |slots|
    && forall j {:trigger placed[j]} :: 0 <= j < |slots| ==>
         placed[j] == PlaceSlot(slots[j], bit + SlotBits(slots, j))
  }

  predicate SlavesPlaced(slaves: seq<Slave>, placed: seq<Slave>, bit: nat) {
    && |placed| == |slaves|
    && forall i {:trigger placed[i]} :: 0 <= i < |slaves| ==>
         SlavePlaced(slaves[i], placed[i], bit + TotalBits(slaves, i))
  }

  predicate SlavePlaced(s: Slave, placed: Slave, bit: nat) {
    && SlotsPlaced(s.fmmu, placed.fmmu, bit)
    && placed.outputs == s.outputs && placed.inputs == s.inputs
  }

  function ImageSize(slaves: seq<Slave>): nat {
    (TotalBits(slaves, |slaves|) + 7) / 8
  }

  /** The image size in bytes, from the bit address behind the last area. */
  function SizeOfImage(bit: nat): (size: nat)
    requires 8 * LOGICAL_START_ADDRESS <= bit
    ensures size == (bit - 8 * LOGICAL_START_ADDRESS + 7) / 8
  {
    if bit % 8 == 0 then bit / 8 - LOGICAL_START_ADDRESS else bit / 8 + 1 - LOGICAL_START_ADDRESS
  }

  // ------------------------------------------------------------------ PDO entries

  function EntryBits(entries: seq<Field>, k: nat): nat
    requires k <= |entries|
  {
    if k == 0 then 0 else EntryBits(entries, k - 1) + entries[k - 1].bitLength
  }

  function MapBits(maps: seq<seq<Field>>, m: nat): nat
    requires m <= |maps|
  {
    if m == 0 then 0 else MapBits(maps, m - 1) + EntryBits(maps[m - 1], |maps[m - 1]|)
  }

  /** As coded: an entry that starts inside a byte is given the address of the byte after it. */
  function PlaceEntry(e: Field, total: nat): Field {
    if total % 8 == 0 then e.(startBit := 0, logicalAddress := Some(total / 8))
    else e.(startBit := total % 8, logicalAddress := Some((total / 8 + 1)))
  }

  predicate EntriesPlaced(entries: seq<Field>, placed: seq<Field>, total: nat) {
    && |placed| == |entries|
    && forall k {:trigger placed[k]} :: 0 <= k < |entries| ==>
         placed[k] == PlaceEntry(entries[k], total + EntryBits(entries, k))
  }

  predicate MapsPlaced(maps: seq<seq<Field>>, placed: seq<seq<Field>>, total: nat) {
    && |placed| == |maps|
    && forall m {:trigger placed[m]} :: 0 <= m < |maps| ==>
         EntriesPlaced(maps[m], placed[m], total + MapBits(maps, m))
  }

  predicate Addressed(slots: seq<Option<Fmmu>>, i: int) {
    0 <= i < |slots| && slots[i].Some? && slots[i].value.bits.logicalAddress.Some?
  }

  function SlotBase(slots: seq<Option<Fmmu>>, i: nat): nat
    requires Addressed(slots, i)
  {
    8 * slots[i].value.bits.logicalAddress.value + slots[i].value.bits.startBit
  }

  predicate SlotMapsPlaced(slots: seq<Option<Fmmu>>, i: nat, maps: seq<seq<Field>>, placed: seq<seq<Field>>) {
    if Addressed(slots, i) then MapsPlaced(maps, placed, SlotBase(slots, i)) else placed == maps
  }

  predicate SlaveEntriesPlaced(s: Slave, placed: Slave) {
    && placed.fmmu == s.fmmu
    && SlotMapsPlaced(s.fmmu, 0, s.outputs, placed.outputs)
    && SlotMapsPlaced(s.fmmu, 1, s.inputs, placed.inputs)
  }

  /** The `assert_eq!` on the lengths: an addressed slot with PDO maps is filled exactly. */
  predicate LengthAgrees(slots: seq<Option<Fmmu>>, i: nat, maps: seq<seq<Field>>) {
    Addressed(slots, i) && maps != [] ==> MapBits(maps, |maps|) == slots[i].value.bits.bitLength
  }

  predicate LengthsAgree(s: Slave) {
    LengthAgrees(s.fmmu, 0, s.outputs) && LengthAgrees(s.fmmu, 1, s.inputs)
  }

  // ------------------------------------------------------------------ the configuration loops

  predicate PlacedAt(before: seq<Slave>, k: int, s: Slave)
    requires 0 <= k < |before|
  {
    SlavePlaced(before[k], s, 8 * LOGICAL_START_ADDRESS + TotalBits(before, k))
  }

  /** The first `i` slaves are placed, the others untouched. */
  ghost predicate PlacedUpTo(before: seq<Slave>, now: seq<Slave>, i: nat)
    requires i <= |before| == |now|
  {
    && (forall k {:trigger now[k]} :: 0 <= k < i ==> PlacedAt(before, k, now[k]))
    && (forall k {:trigger now[k]} :: i <= k < |before| ==> now[k] == before[k])
  }

  lemma PlacedMore(before: seq<Slave>, now: seq<Slave>, i: nat, placed: seq<Option<Fmmu>>)
    requires i < |before| == |now| && PlacedUpTo(before, now, i)
    requires SlotsPlaced(before[i].fmmu, placed, 8 * LOGICAL_START_ADDRESS + TotalBits(before, i))
    ensures PlacedUpTo(before, now[i := now[i].(fmmu := placed)], i + 1)
  {
    var s := now[i].(fmmu := placed);
    var next := now[i := s];
    assert PlacedAt(before, i, s) by { assert now[i] == before[i]; }
    forall k | 0 <= k < i + 1 ensures PlacedAt(before, k, next[k]) {
      if k < i { assert next[k] == now[k]; }
    }
  }

  class Master {
    var slaves: seq<Slave>

    constructor (slaves: seq<Slave>)
      ensures this.slaves == slaves
    {
      this.slaves := slaves;
    }

    /** `set_logical_address_to_fmmu_config`. None stands for the size assertion that stops the program. */
    method SetLogicalAddressToFmmuConfig() returns (r: Option<(nat, nat)>)
      modifies this
      ensures SlavesPlaced(old(slaves), slaves, 8 * LOGICAL_START_ADDRESS)
      ensures r.None? <==> ImageSize(old(slaves)) > Datagrams.MAX_PDU_DATAGRAM
      ensures r.Some? ==> r.value == (ImageSize(old(slaves)), ExpectedWkc(old(slaves), |old(slaves)|))
    {
      ghost var before := slaves;
      var now := slaves;
      var wkc := 0;
      var bit := 8 * LOGICAL_START_ADDRESS;
      var i := 0;
      while i < |now|
        invariant 0 <= i <= |before| == |now|
        invariant PlacedUpTo(before, now, i)
        invariant bit == 8 * LOGICAL_START_ADDRESS + TotalBits(before, i)
        invariant wkc == ExpectedWkc(before, i)
      {
        assert now[i] == before[i];
        var placed, next, hasTx, hasRx := AssignSlots(now[i].fmmu, bit);
        PlacedMore(before, now, i, placed);
        now := now[i := now[i].(fmmu := placed)];
        bit := next;
        if hasTx { wkc := wkc + 1; }
        if hasRx { wkc := wkc + 2; }
        i := i + 1;
      }
      slaves := now;
      var size := SizeOfImage(bit);
      if size > Datagrams.MAX_PDU_DATAGRAM { return None; }
      return Some((size, wkc));
    }

    /** The loop over the FMMU slots of one slave. */
    static method AssignSlots(slots: seq<Option<Fmmu>>, start: nat)
      returns (placed: seq<Option<Fmmu>>, bit: nat, hasTx: bool, hasRx: bool)
      ensures SlotsPlaced(slots, placed, start)
      ensures bit == start + SlotBits(slots, |slots|)
      ensures hasTx == HasDirection(slots, |slots|, Input) && hasRx == HasDirection(slots, |slots|, Output)
    {
      placed, bit, hasTx, hasRx := slots, start, false, false;
      var j := 0;
      while j < |slots|
        invariant 0 <= j <= |slots| == |placed|
        invariant forall k {:trigger placed[k]} :: 0 <= k < j ==> placed[k] == PlaceSlot(slots[k], start + SlotBits(slots, k))
        invariant forall k {:trigger placed[k]} :: j <= k < |slots| ==> placed[k] == slots[k]
        invariant bit == start + SlotBits(slots, j)
        invariant hasTx == HasDirection(slots, j, Input) && hasRx == HasDirection(slots, j, Output)
      {
        var f := slots[j];
        if Active(f) {
          placed := placed[j := PlaceSlot(f, bit)];
          bit := bit + f.value.bits.bitLength;
          match f.value.direction {
            case Output => hasRx := true;
            case Input => hasTx := true;
          }
        }
        j := j + 1;
      }
    }

    /** `set_logical_address_to_pdo_entry_config`. False stands for the length assertion that stops the program. */
    method SetLogicalAddressToPdoEntryConfig() returns (ok: bool)
      modifies this
      ensures ok <==> forall k :: 0 <= k < |old(slaves)| ==> LengthsAgree(old(slaves)[k])
      ensures ok ==> |slaves| == |old(slaves)|
      ensures ok ==> forall k :: 0 <= k < |slaves| ==> SlaveEntriesPlaced(old(slaves)[k], slaves[k])
    {
      ghost var before := slaves;
      var n := 0;
      while n < |slaves|
        invariant 0 <= n <= |before| == |slaves|
        invariant forall k :: 0 <= k < n ==>
          SlaveEntriesPlaced(before[k], slaves[k]) && LengthsAgree(before[k])
        invariant forall k :: n <= k < |before| ==> slaves[k] == before[k]
      {
        var s := slaves[n];
        var outputs, okOut := AddressSlot(s.fmmu, 0, s.outputs);
        var inputs, okIn := AddressSlot(s.fmmu, 1, s.inputs);
        if !okOut || !okIn {
          assert !LengthsAgree(before[n]);
          return false;
        }
        slaves := slaves[n := s.(outputs := outputs, inputs := inputs)];
        n := n + 1;
      }
      return true;
    }

    /** The body of the loop over the two process-data slots of one slave. */
    static method AddressSlot(slots: seq<Option<Fmmu>>, i: nat, maps: seq<seq<Field>>)
      returns (placed: seq<seq<Field>>, ok: bool)
      ensures SlotMapsPlaced(slots, i, maps, placed)
      ensures ok <==> LengthAgrees(slots, i, maps)
    {
      placed := maps;
      if !Addressed(slots, i) { return placed, true; }
      var base := SlotBase(slots, i);
      var total := base;
      if maps == [] { return placed, true; }
      var m := 0;
      while m < |maps|
        invariant 0 <= m <= |maps| == |placed|
        invariant total == base + MapBits(maps, m)
        invariant forall q {:trigger placed[q]} :: 0 <= q < m ==> EntriesPlaced(maps[q], placed[q], base + MapBits(maps, q))
        invariant forall q {:trigger placed[q]} :: m <= q < |maps| ==> placed[q] == maps[q]
      {
        var entries, next := AddressEntries(maps[m], total);
        total := next;
        placed := placed[m := entries];
        m := m + 1;
      }
      ok := slots[i].value.bits.bitLength == total - base;
    }

    /** The loop over the entries of one PDO map. */
    static method AddressEntries(entries: seq<Field>, start: nat) returns (placed: seq<Field>, total: nat)
      ensures EntriesPlaced(entries, placed, start)
      ensures total == start + EntryBits(entries, |entries|)
    {
      placed, total := entries, start;
      var k := 0;
      while k < |entries|
        invariant 0 <= k <= |entries| == |placed|
        invariant total == start + EntryBits(entries, k)
        invariant forall q {:trigger placed[q]} :: 0 <= q < k ==> placed[q] == PlaceEntry(entries[q], start + EntryBits(entries, q))
        invariant forall q {:trigger placed[q]} :: k <= q < |entries| ==> placed[q] == entries[q]
      {
        var mod8 := total % 8;
        var addr, startBit := total / 8, 0;
        if mod8 != 0 { addr, startBit := total / 8 + 1, mod8; }
        placed := placed[k := entries[k].(startBit := startBit, logicalAddress := Some(addr))];
        total := total + entries[k].bitLength;
        k := k + 1;
      }
    }
  }

  lemma {:induction false} HasDirectionAt(slots: seq<Option<Fmmu>>, j: nat, d: Direction)
    requires j <= |slots|
    ensures HasDirection(slots, j, d) <==> exists k :: 0 <= k < j && SlotHas(slots[k], d)
  {
    if j > 0 { HasDirectionAt(slots, j - 1, d); }
  }
}
