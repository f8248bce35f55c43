/** The FMMU areas of all slaves tile the logical image, and the PDO entries tile the areas. */
module ImageLayout {
  import opened Bytes
  import opened LogicalBits
  import Datagrams
  import opened ProcessImage

  /** First image bit of slot j of slave i: a plain sum of lengths. */
  function Lo(slaves: seq<Slave>, i: nat, j: nat): nat
    requires i < |slaves| && j <= |slaves[i].fmmu|
  {
    8 * LOGICAL_START_ADDRESS + TotalBits(slaves, i) + SlotBits(slaves[i].fmmu, j)
  }

  predicate IsArea(slaves: seq<Slave>, i: nat, j: nat) {
    i < |slaves| && j < |slaves[i].fmmu| && Active(slaves[i].fmmu[j])
  }

  function Hi(slaves: seq<Slave>, i: nat, j: nat): nat
    requires IsArea(slaves, i, j)
  {
    Lo(slaves, i, j) + slaves[i].fmmu[j].value.bits.bitLength
  }

  function End(slaves: seq<Slave>): nat { 8 * LOGICAL_START_ADDRESS + TotalBits(slaves, |slaves|) }

  predicate Fits(slaves: seq<Slave>) { ImageSize(slaves) <= Datagrams.MAX_PDU_DATAGRAM }

  predicate ByteSized(slaves: seq<Slave>) {
    forall i, j :: 0 <= i < |slaves| && 0 <= j < |slaves[i].fmmu| ==> SlotLength(slaves[i].fmmu[j]) % 8 == 0
  }

  predicate IsPlaced(slaves: seq<Slave>, placed: seq<Slave>) {
    SlavesPlaced(slaves, placed, 8 * LOGICAL_START_ADDRESS)
  }

  // ------------------------------------------------------------------ prefix sums

  lemma {:induction false} SlotPrefix(slots: seq<Option<Fmmu>>, j: nat, k: nat)
    requires j < k <= |slots|
    ensures SlotBits(slots, j) + SlotLength(slots[j]) <= SlotBits(slots, k)
    decreases k
  {
    if j < k - 1 { SlotPrefix(slots, j, k - 1); }
  }

  lemma {:induction false} TotalPrefix(slaves: seq<Slave>, i: nat, k: nat)
    requires i < k <= |slaves|
    ensures TotalBits(slaves, i) + SlaveBits(slaves[i]) <= TotalBits(slaves, k)
    decreases k
  {
    if i < k - 1 { TotalPrefix(slaves, i, k - 1); }
  }

  // ------------------------------------------------------------------ the FMMU areas tile the image

  lemma AreaInImage(slaves: seq<Slave>, i: nat, j: nat)
    requires IsArea(slaves, i, j)
    ensures 8 * LOGICAL_START_ADDRESS <= Lo(slaves, i, j) < Hi(slaves, i, j) <= End(slaves)
  {
    SlotPrefix(slaves[i].fmmu, j, |slaves[i].fmmu|);
    TotalPrefix(slaves, i, |slaves|);
  }

  /** Areas follow each other in slave order, then slot order; in particular they are pairwise disjoint. */
  lemma AreasOrdered(slaves: seq<Slave>, i: nat, j: nat, i': nat, j': nat)
    requires IsArea(slaves, i, j) && IsArea(slaves, i', j')
    requires i < i' || (i == i' && j < j')
    ensures Hi(slaves, i, j) <= Lo(slaves, i', j')
  {
    if i < i' {
      SlotPrefix(slaves[i].fmmu, j, |slaves[i].fmmu|);
      TotalPrefix(slaves, i, i');
    } else {
      SlotPrefix(slaves[i].fmmu, j, j');
    }
  }

  /** No gaps: every bit of the image belongs to an area. */
  lemma AreasCover(slaves: seq<Slave>, bit: nat) returns (i: nat, j: nat)
    requires 8 * LOGICAL_START_ADDRESS <= bit < End(slaves)
    ensures IsArea(slaves, i, j) && Lo(slaves, i, j) <= bit < Hi(slaves, i, j)
  {
    var offset := bit - 8 * LOGICAL_START_ADDRESS;
    i := FindSlave(slaves, |slaves|, offset);
    j := FindSlot(slaves[i].fmmu, |slaves[i].fmmu|, offset - TotalBits(slaves, i));
  }

  lemma {:induction false} FindSlave(slaves: seq<Slave>, n: nat, offset: nat) returns (i: nat)
    requires n <= |slaves| && offset < TotalBits(slaves, n)
    ensures i < n && TotalBits(slaves, i) <= offset < TotalBits(slaves, i) + SlaveBits(slaves[i])
  {
    if TotalBits(slaves, n - 1) <= offset { i := n - 1; } else { i := FindSlave(slaves, n - 1, offset); }
  }

  lemma {:induction false} FindSlot(slots: seq<Option<Fmmu>>, n: nat, offset: nat) returns (j: nat)
    requires n <= |slots| && offset < SlotBits(slots, n)
    ensures j < n && SlotBits(slots, j) <= offset < SlotBits(slots, j) + SlotLength(slots[j])
  {
    if SlotBits(slots, n - 1) <= offset { j := n - 1; } else { j := FindSlot(slots, n - 1, offset); }
  }

  /** Whole-byte lengths keep every area on byte boundaries. */
  lemma ByteAligned(slaves: seq<Slave>, i: nat, j: nat)
    requires ByteSized(slaves) && i < |slaves| && j <= |slaves[i].fmmu|
    ensures Lo(slaves, i, j) % 8 == 0
  {
    TotalAligned(slaves, i);
    SlotsAligned(slaves[i].fmmu, j);
  }

  lemma {:induction false} SlotsAligned(slots: seq<Option<Fmmu>>, j: nat)
    requires j <= |slots| && forall k :: 0 <= k < |slots| ==> SlotLength(slots[k]) % 8 == 0
    ensures SlotBits(slots, j) % 8 == 0
  {
    if j > 0 { SlotsAligned(slots, j - 1); }
  }

  lemma {:induction false} TotalAligned(slaves: seq<Slave>, i: nat)
    requires ByteSized(slaves) && i <= |slaves|
    ensures TotalBits(slaves, i) % 8 == 0
  {
    if i > 0 {
      TotalAligned(slaves, i - 1);
      SlotsAligned(slaves[i - 1].fmmu, |slaves[i - 1].fmmu|);
    }
  }

  /** The working counter fits its 16 bits whenever the size check passes: every slave that counts owns a bit. */
  lemma WkcFits(slaves: seq<Slave>)
    requires Fits(slaves)
    ensures ExpectedWkc(slaves, |slaves|) < 0x1_0000
  {
    WkcBelowBits(slaves, |slaves|);
  }

  lemma {:induction false} WkcBelowBits(slaves: seq<Slave>, i: nat)
    requires i <= |slaves|
    ensures ExpectedWkc(slaves, i) <= 3 * TotalBits(slaves, i)
  {
    if i > 0 {
      WkcBelowBits(slaves, i - 1);
      DirectionOwnsBit(slaves[i - 1].fmmu, |slaves[i - 1].fmmu|);
    }
  }

  lemma {:induction false} DirectionOwnsBit(slots: seq<Option<Fmmu>>, j: nat)
    requires j <= |slots|
    ensures HasDirection(slots, j, Input) || HasDirection(slots, j, Output) ==> SlotBits(slots, j) >= 1
  {
    if j > 0 { DirectionOwnsBit(slots, j - 1); }
  }

  // ------------------------------------------------------------------ PDO entries

  predicate IsEntry(maps: seq<seq<Field>>, m: int, k: int) { 0 <= m < |maps| && 0 <= k < |maps[m]| }

  /** Bits before entry k of map m. */
  function EntryLo(maps: seq<seq<Field>>, m: nat, k: nat): nat
    requires m < |maps| && k <= |maps[m]|
  {
    MapBits(maps, m) + EntryBits(maps[m], k)
  }

  function AllBits(maps: seq<seq<Field>>): nat { MapBits(maps, |maps|) }

  ghost predicate EntriesAligned(maps: seq<seq<Field>>) {
    forall m, k :: IsEntry(maps, m, k) ==> maps[m][k].bitLength % 8 == 0
  }

  /** Every entry is addressed where the sum of the lengths before it says it is. */
  ghost predicate EntriesInPlace(maps: seq<seq<Field>>, placed: seq<seq<Field>>, base: nat)
    requires MapsPlaced(maps, placed, base)
  {
    forall m, k :: IsEntry(maps, m, k) ==> AtBit(placed[m][k], base + EntryLo(maps, m, k))
  }

  predicate AtBit(e: Field, bit: nat) {
    e.logicalAddress.Some? && 8 * e.logicalAddress.value + e.startBit == bit
  }

  /** The placement is right for all entries exactly when every entry is a whole number of bytes. The sum of
      the lengths is a multiple of 8 because the length assertion compares it with the FMMU length. */
  lemma EntriesInPlaceIff(maps: seq<seq<Field>>, placed: seq<seq<Field>>, base: nat)
    requires base % 8 == 0 && AllBits(maps) % 8 == 0 && MapsPlaced(maps, placed, base)
    ensures EntriesInPlace(maps, placed, base) <==> EntriesAligned(maps)
  {
    if EntriesAligned(maps) {
      forall m, k | IsEntry(maps, m, k) ensures AtBit(placed[m][k], base + EntryLo(maps, m, k)) {
        EntryPlacedAt(maps, placed, base, m, k);
        EntryLoAligned(maps, m, k);
      }
    }
    if EntriesInPlace(maps, placed, base) {
      forall m, k | IsEntry(maps, m, k) ensures EntryLo(maps, m, k) % 8 == 0 {
        EntryPlacedAt(maps, placed, base, m, k);
      }
      forall m, k | IsEntry(maps, m, k) ensures maps[m][k].bitLength % 8 == 0 {
        NextEntryAligned(maps, m, k);
      }
    }
  }

  /** If every entry starts on a byte then each entry ends on one: at the next entry, or at the end. */
  lemma NextEntryAligned(maps: seq<seq<Field>>, m: nat, k: nat)
    requires AllBits(maps) % 8 == 0 && IsEntry(maps, m, k)
    requires forall q, r :: IsEntry(maps, q, r) ==> EntryLo(maps, q, r) % 8 == 0
    ensures maps[m][k].bitLength % 8 == 0
  {
    var lo, len := EntryLo(maps, m, k), maps[m][k].bitLength;
    if k + 1 < |maps[m]| {
      assert IsEntry(maps, m, k + 1);
      assert EntryLo(maps, m, k + 1) == lo + len;
    } else {
      assert MapBits(maps, m + 1) == lo + len;
      NextMapAligned(maps, m + 1);
    }
    assert (lo + len) % 8 == 0 && lo % 8 == 0;
  }

  /** Where one entry ends up: at its sum of lengths exactly when that sum is on a byte boundary. */
  lemma EntryPlacedAt(maps: seq<seq<Field>>, placed: seq<seq<Field>>, base: nat, m: nat, k: nat)
    requires base % 8 == 0 && MapsPlaced(maps, placed, base) && IsEntry(maps, m, k)
    ensures IsEntry(placed, m, k)
    ensures placed[m][k].logicalAddress.Some? && placed[m][k].bitLength == maps[m][k].bitLength
    ensures AtBit(placed[m][k], base + EntryLo(maps, m, k)) <==> EntryLo(maps, m, k) % 8 == 0
    ensures EntryLo(maps, m, k) % 8 == 0 ==> placed[m][k].startBit == 0
  {
    assert EntriesPlaced(maps[m], placed[m], base + MapBits(maps, m));
    assert placed[m][k] == PlaceEntry(maps[m][k], base + MapBits(maps, m) + EntryBits(maps[m], k));
  }

  lemma {:induction false} EntryPrefix(entries: seq<Field>, j: nat, k: nat)
    requires j < k <= |entries|
    ensures EntryBits(entries, j) + entries[j].bitLength <= EntryBits(entries, k)
    decreases k
  {
    if j < k - 1 { EntryPrefix(entries, j, k - 1); }
  }

  lemma {:induction false} MapPrefix(maps: seq<seq<Field>>, m: nat, q: nat)
    requires m < q <= |maps|
    ensures MapBits(maps, m) + EntryBits(maps[m], |maps[m]|) <= MapBits(maps, q)
    decreases q
  {
    if m < q - 1 { MapPrefix(maps, m, q - 1); }
  }

  lemma EntryInMaps(maps: seq<seq<Field>>, m: nat, k: nat)
    requires IsEntry(maps, m, k)
    ensures EntryLo(maps, m, k) + maps[m][k].bitLength <= AllBits(maps)
  {
    EntryPrefix(maps[m], k, |maps[m]|);
    MapPrefix(maps, m, |maps|);
  }

  /** Entries follow each other in map order, then entry order. */
  lemma EntriesOrdered(maps: seq<seq<Field>>, m: nat, k: nat, m': nat, k': nat)
    requires IsEntry(maps, m, k) && IsEntry(maps, m', k') && (m < m' || (m == m' && k < k'))
    ensures EntryLo(maps, m, k) + maps[m][k].bitLength <= EntryLo(maps, m', k')
  {
    if m < m' {
      EntryPrefix(maps[m], k, |maps[m]|);
      MapPrefix(maps, m, m');
    } else {
      EntryPrefix(maps[m], k, k');
    }
  }

  lemma {:induction false} FindMap(maps: seq<seq<Field>>, n: nat, offset: nat) returns (m: nat)
    requires n <= |maps| && offset < MapBits(maps, n)
    ensures m < n && MapBits(maps, m) <= offset < MapBits(maps, m) + EntryBits(maps[m], |maps[m]|)
  {
    if MapBits(maps, n - 1) <= offset { m := n - 1; } else { m := FindMap(maps, n - 1, offset); }
  }

  lemma {:induction false} FindEntry(entries: seq<Field>, n: nat, offset: nat) returns (k: nat)
    requires n <= |entries| && offset < EntryBits(entries, n)
    ensures k < n && EntryBits(entries, k) <= offset < EntryBits(entries, k) + entries[k].bitLength
  {
    if EntryBits(entries, n - 1) <= offset { k := n - 1; } else { k := FindEntry(entries, n - 1, offset); }
  }

  lemma {:induction false} EntriesPrefixAligned(maps: seq<seq<Field>>, m: nat, k: nat)
    requires EntriesAligned(maps) && m < |maps| && k <= |maps[m]|
    ensures EntryBits(maps[m], k) % 8 == 0
    decreases k
  {
    if k > 0 {
      assert IsEntry(maps, m, k - 1);
      EntriesPrefixAligned(maps, m, k - 1);
    }
  }

  lemma {:induction false} MapsAligned(maps: seq<seq<Field>>, m: nat)
    requires EntriesAligned(maps) && m <= |maps|
    ensures MapBits(maps, m) % 8 == 0
    decreases m
  {
    if m > 0 {
      MapsAligned(maps, m - 1);
      EntriesPrefixAligned(maps, m - 1, |maps[m - 1]|);
    }
  }

  lemma EntryLoAligned(maps: seq<seq<Field>>, m: nat, k: nat)
    requires EntriesAligned(maps) && m < |maps| && k <= |maps[m]|
    ensures EntryLo(maps, m, k) % 8 == 0
  {
    MapsAligned(maps, m);
    EntriesPrefixAligned(maps, m, k);
  }

  /** If all entries start on bytes, so does the next nonempty map, or the end. */
  lemma {:induction false} NextMapAligned(maps: seq<seq<Field>>, m: nat)
    requires m <= |maps| && AllBits(maps) % 8 == 0
    requires forall q, k :: IsEntry(maps, q, k) ==> EntryLo(maps, q, k) % 8 == 0
    ensures MapBits(maps, m) % 8 == 0
    decreases |maps| - m
  {
    if m < |maps| {
      if maps[m] == [] {
        NextMapAligned(maps, m + 1);
      } else {
        assert IsEntry(maps, m, 0);
        assert EntryLo(maps, m, 0) == MapBits(maps, m);
      }
    }
  }

  /** Two 4-bit entries: the second is addressed one byte past its area. */
  lemma NibbleEntryMisplaced(placed: seq<seq<Field>>)
    requires MapsPlaced([[Field(None, 0, 4), Field(None, 0, 4)]], placed, 0x8000)
    ensures AllBits([[Field(None, 0, 4), Field(None, 0, 4)]]) == 8
    ensures placed[0][1] == Field(Some(0x1001), 4, 4)
  {
    var entries := [Field(None, 0, 4), Field(None, 0, 4)];
    assert EntryBits(entries, 1) == 4 && EntryBits(entries, 2) == 8;
    assert MapBits([entries], 1) == 8 && MapBits([entries], 0) == 0;
    assert EntriesPlaced(entries, placed[0], 0x8000);
    assert placed[0][1] == PlaceEntry(entries[1], 0x8000 + 4);
  }
}
