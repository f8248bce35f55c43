/** Building an EtherCAT frame datagram by datagram, and reading it back. */
module Frames {
  import opened Bytes
  import opened Commands
  import opened Datagrams

  const FRAME_HEADER := 16

  /** Destination ff:ff:ff:ff:ff:ff, source 05:05:05:05:05:05, type 0x88A4, then length 0 and type 1. */
  const INITIAL_HEADER: seq<byte> :=
    [0xFF, 0xFF, 0xFF, 0xFF, 0xFF, 0xFF, 5, 5, 5, 5, 5, 5, 0x88, 0xA4, 0, 0x10]

  predicate HeaderIs(buf: seq<byte>, total: nat) {
    && FRAME_HEADER <= |buf|
    && (forall k :: 0 <= k < 14 ==> buf[k] == INITIAL_HEADER[k])
    && buf[14] == total % 256 && buf[15] == total / 256 % 8 + 0x10
  }

  /** The length field of the frame header. */
  function FrameLength(buf: seq<byte>): nat
    requires FRAME_HEADER <= |buf|
  {
    (buf[14] as int) + 256 * ((buf[15] as int) % 8)
  }

  /** A datagram with a zero working counter lies at `off`, with its has-next bit as told and no other flag. */
  predicate Entry(buf: seq<byte>, off: nat, d: Datagram, linked: bool) {
    d.wkc == 0 && StoredAt(buf, off, d, |d.data|, linked)
  }

  /** All datagrams but the last are linked. An empty datagram hides the ones behind it from the search for
      the last datagram, so links stop there. */
  predicate FrameEntry(buf: seq<byte>, ds: seq<Datagram>, i: int)
    requires 0 <= i < |ds|
  {
    Entry(buf, FRAME_HEADER + Off(ds, i), ds[i], i + 1 < |ds| && i < NonEmpty(ds, 0))
  }

  predicate ZeroFrom(buf: seq<byte>, from: nat) {
    forall k :: from <= k < |buf| ==> buf[k] == 0
  }

  /** `buf` is a frame of exactly the datagrams `ds`: header and length, every datagram in place with a zero
      working counter and the right has-next bit, zeros behind. */
  ghost predicate IsFrame(buf: seq<byte>, ds: seq<Datagram>) {
    && FRAME_HEADER + Total(ds) <= |buf|
    && HeaderIs(buf, Total(ds))
    && (forall i :: 0 <= i < |ds| ==> FrameEntry(buf, ds, i))
    && ZeroFrom(buf, FRAME_HEADER + Total(ds))
  }

  /** What an 11-bit length field keeps of a length. */
  function CutLength(length: nat): (r: nat)
    ensures r < 2048 && (length < 2048 ==> r == length)
  {
    length % 2048
  }

  class FrameUtil {
    const buffer: array<byte>
    var freeOffset: nat
    ghost var ds: seq<Datagram>

    ghost predicate Valid()
      reads this, buffer
    {
      freeOffset == FRAME_HEADER + Total(ds) && IsFrame(buffer[..], ds)
    }

    /** `new_unchecked` followed by `init`; the previous contents of the buffer do not matter. */
    constructor (buffer: array<byte>)
      requires FRAME_HEADER <= buffer.Length
      modifies buffer
      ensures Valid() && this.buffer == buffer && ds == []
    {
      this.buffer := buffer;
      freeOffset := FRAME_HEADER;
      ds := [];
      new;
      var i := 0;
      while i < buffer.Length
        invariant 0 <= i <= buffer.Length
        invariant forall k :: 0 <= k < i ==> buffer[k] == 0
        invariant freeOffset == FRAME_HEADER && ds == []
      {
        buffer[i] := 0;
        i := i + 1;
      }
      i := 0;
      while i < FRAME_HEADER
        invariant 0 <= i <= FRAME_HEADER
        invariant forall k :: 0 <= k < i ==> buffer[k] == INITIAL_HEADER[k]
        invariant forall k :: FRAME_HEADER <= k < buffer.Length ==> buffer[k] == 0
        invariant freeOffset == FRAME_HEADER && ds == []
      {
        buffer[i] := INITIAL_HEADER[i];
        i := i + 1;
      }
    }

    /** `dlpdu_indexes().last()`. */
    method LastIndex() returns (last: Option<nat>)
      ensures var all := Indexes(buffer[..], FRAME_HEADER, buffer.Length);
        last == if all == [] then None else Some(all[|all| - 1])
    {
      last := None;
      var offset := FRAME_HEADER;
      ghost var seen: seq<nat> := [];
      while Continues(buffer[..], offset, buffer.Length)
        invariant Indexes(buffer[..], FRAME_HEADER, buffer.Length) == seen + Indexes(buffer[..], offset, buffer.Length)
        invariant last == if seen == [] then None else Some(seen[|seen| - 1])
        decreases buffer.Length - offset
      {
        last := Some(offset);
        seen := seen + [offset];
        offset := offset + PDU_HEADER + LengthAt(buffer[..], offset) + WKC_LENGTH;
      }
    }

    /** `add_command`. False when the datagram does not fit behind the ones already there. Data whose length does not
        fit the 11 bits of its field is stored all the same, with the length cut. */
    method AddCommand(ctype: CommandType, adp: u16, ado: u16, data: seq<byte>, index: byte) returns (ok: bool)
      requires Valid()
      modifies this, buffer
      ensures ok <==> old(freeOffset) + |data| + PDU_HEADER + WKC_LENGTH <= buffer.Length
      ensures ds == if ok then old(ds) + [Datagram(ctype, index, adp, ado, data, 0)] else old(ds)
      ensures !ok || |data| < 2048 ==> Valid()
      ensures ok ==> freeOffset == FRAME_HEADER + Total(ds)
      ensures ok ==> StoredAt(buffer[..], old(freeOffset), Datagram(ctype, index, adp, ado, data, 0), CutLength(|data|), false)
    {
      var size := |data| + PDU_HEADER + WKC_LENGTH;
      if size > buffer.Length - freeOffset { return false; }
      LinkFrame();
      AppendDatagram(ctype, adp, ado, data, CutLength(|data|), index);
      return true;
    }

    /** Writes a datagram behind a linked frame and adds its size to the length field. */
    method AppendDatagram(ctype: CommandType, adp: u16, ado: u16, data: seq<byte>, length: nat, index: byte)
      requires freeOffset == FRAME_HEADER + Total(ds) && IsLinked(buffer[..], ds)
      requires freeOffset + |data| + PDU_HEADER + WKC_LENGTH <= buffer.Length && length < 2048
      modifies this, buffer
      ensures ds == old(ds) + [Datagram(ctype, index, adp, ado, data, 0)] && freeOffset == FRAME_HEADER + Total(ds)
      ensures StoredAt(buffer[..], old(freeOffset), Datagram(ctype, index, adp, ado, data, 0), length, false)
      ensures length == |data| ==> Valid()
    {
      ghost var d := Datagram(ctype, index, adp, ado, data, 0);
      TotalAppend(ds, d);
      ghost var before := ds;
      var off := freeOffset;
      freeOffset := freeOffset + |data| + PDU_HEADER + WKC_LENGTH;
      ds := ds + [d];
      assert buffer[..] == old(buffer[..]);
      WriteAndCount(off, ctype, adp, ado, data, length, index, before);
    }

    method WriteAndCount(
      off: nat, ctype: CommandType, adp: u16, ado: u16, data: seq<byte>, length: nat, index: byte, ghost before: seq<Datagram>)
      requires off == FRAME_HEADER + Total(before) && IsLinked(buffer[..], before)
      requires off + |data| + PDU_HEADER + WKC_LENGTH <= buffer.Length && length < 2048
      modifies buffer
      ensures var d := Datagram(ctype, index, adp, ado, data, 0);
        StoredAt(buffer[..], off, d, length, false) && (length == |data| ==> IsFrame(buffer[..], before + [d]))
    {
      ghost var linked := buffer[..];
      WriteDatagram(off, ctype, adp, ado, data, length, index);
      ghost var filled := buffer[..];
      AddToFrameLength(|data| + PDU_HEADER + WKC_LENGTH);
      StoredStays(filled, buffer[..], off, Datagram(ctype, index, adp, ado, data, 0), length);
      if length == |data| { Appends(linked, before, Datagram(ctype, index, adp, ado, data, 0), filled, buffer[..]); }
    }

    /** Links the datagrams already there to one more. */
    method LinkFrame()
      requires Valid()
      modifies buffer
      ensures IsLinked(buffer[..], ds)
    {
      ghost var before := buffer[..];
      var last := LinkLastDatagram();
      LinkLast(before, ds, last, buffer[..]);
    }

    /** Sets the has-next bit of the last datagram the iterator finds. */
    method LinkLastDatagram() returns (last: Option<nat>)
      modifies buffer
      ensures var all := old(Indexes(buffer[..], FRAME_HEADER, buffer.Length));
        last == if all == [] then None else Some(all[|all| - 1])
      ensures last.Some? && last.value + PDU_HEADER <= buffer.Length ==>
        buffer[..] == old(buffer[..])[last.value + 7 := old(buffer[last.value + 7]) % 128 + 128]
      ensures !(last.Some? && last.value + PDU_HEADER <= buffer.Length) ==> buffer[..] == old(buffer[..])
    {
      last := LastIndex();
      if last.Some? && last.value + PDU_HEADER <= buffer.Length {
        buffer[last.value + 7] := buffer[last.value + 7] % 128 + 128;
      }
    }

    method AddToFrameLength(size: nat)
      requires FRAME_HEADER <= buffer.Length
      modifies buffer
      ensures SameButLength(old(buffer[..]), buffer[..]) && LengthAdded(old(buffer[..]), size, buffer[..])
    {
      var length := FrameLength(buffer[..]) + size;
      buffer[14] := length % 256;
      buffer[15] := buffer[15] / 8 * 8 + length / 256 % 8;
    }

    /** The header fields, the data and the cleared working counter, where the buffer is still zero. */
    method WriteDatagram(off: nat, ctype: CommandType, adp: u16, ado: u16, data: seq<byte>, length: nat, index: byte)
      requires off + PDU_HEADER + |data| + WKC_LENGTH <= buffer.Length && length < 2048 && buffer[off + 7] == 0
      modifies buffer
      ensures FilledAt(old(buffer[..]), off, Datagram(ctype, index, adp, ado, data, 0), length, buffer[..])
    {
      WriteHeader(off, ctype, adp, ado, length, index);
      Store(off + PDU_HEADER, data);
      Store(off + PDU_HEADER + |data|, [0, 0]);
      ghost var d := Datagram(ctype, index, adp, ado, data, 0);
      Assembled(buffer[..], off, d, length);
    }

    method Store(at: nat, data: seq<byte>)
      requires at + |data| <= buffer.Length
      modifies buffer
      ensures buffer[at..at + |data|] == data
      ensures forall k :: 0 <= k < buffer.Length && !(at <= k < at + |data|) ==> buffer[k] == old(buffer[k])
    {
      var i := 0;
      while i < |data|
        invariant 0 <= i <= |data|
        invariant buffer[at..at + i] == data[..i]
        invariant forall k :: 0 <= k < buffer.Length && !(at <= k < at + |data|) ==> buffer[k] == old(buffer[k])
      {
        buffer[at + i] := data[i];
        i := i + 1;
      }
    }

    method WriteHeader(off: nat, ctype: CommandType, adp: u16, ado: u16, length: nat, index: byte)
      requires off + PDU_HEADER <= buffer.Length && length < 2048
      modifies buffer
      ensures buffer[off..off + PDU_HEADER] == HeaderBytes(ctype, adp, ado, length, index, old(buffer[off + 7]))
      ensures forall k :: 0 <= k < buffer.Length && !(off <= k < off + PDU_HEADER) ==> buffer[k] == old(buffer[k])
    {
      var header := HeaderBytes(ctype, adp, ado, length, index, buffer[off + 7]);
      Store(off, header);
    }
  }

  /** The header of a datagram in a place that held `flags` in its upper length byte: the circulated and has-next bits
      are cleared. */
  function HeaderBytes(ctype: CommandType, adp: u16, ado: u16, length: nat, index: byte, flags: byte): (header: seq<byte>)
    requires length < 2048
    ensures |header| == PDU_HEADER
  {
    [ctype.ToByte(), index, Low(adp), High(adp), Low(ado), High(ado), length % 256, flags / 8 % 8 * 8 + length / 256, 0, 0]
  }

  // ------------------------------------------------------------------ one datagram more

  lemma Assembled(buf: seq<byte>, off: nat, d: Datagram, length: nat)
    requires length < 2048 && off + d.Size() <= |buf| && d.wkc == 0
    requires buf[off..off + PDU_HEADER] == HeaderBytes(d.ctype, d.adp, d.ado, length, d.index, 0)
    requires buf[off + PDU_HEADER..off + PDU_HEADER + |d.data|] == d.data
    requires buf[off + PDU_HEADER + |d.data|..off + PDU_HEADER + |d.data| + 2] == [0, 0]
    ensures StoredAt(buf, off, d, length, false)
  {
    assert buf[off..off + d.Size()] == buf[off..off + PDU_HEADER] + buf[off + PDU_HEADER..off + PDU_HEADER + |d.data|]
      + buf[off + PDU_HEADER + |d.data|..off + PDU_HEADER + |d.data| + 2];
  }

  lemma StoredStays(filled: seq<byte>, buf: seq<byte>, off: nat, d: Datagram, length: nat)
    requires FRAME_HEADER <= off && StoredAt(filled, off, d, length, false) && SameButLength(filled, buf)
    ensures StoredAt(buf, off, d, length, false)
  {
    assert buf[off..off + d.Size()] == filled[off..off + d.Size()];
  }

  predicate LinkedEntry(buf: seq<byte>, ds: seq<Datagram>, i: int)
    requires 0 <= i < |ds|
  {
    Entry(buf, FRAME_HEADER + Off(ds, i), ds[i], i < NonEmpty(ds, 0))
  }

  /** A frame whose last datagram has been linked already. */
  ghost predicate IsLinked(buf: seq<byte>, ds: seq<Datagram>) {
    && FRAME_HEADER + Total(ds) <= |buf|
    && HeaderIs(buf, Total(ds))
    && (forall i :: 0 <= i < |ds| ==> LinkedEntry(buf, ds, i))
    && ZeroFrom(buf, FRAME_HEADER + Total(ds))
  }

  lemma FrameIsLaid(buf: seq<byte>, ds: seq<Datagram>)
    requires IsFrame(buf, ds)
    ensures Laid(buf, FRAME_HEADER, ds) && Ends(buf, FRAME_HEADER, ds, |buf|)
  {
    forall i | 0 <= i < |ds| ensures InPlace(buf, FRAME_HEADER, ds, i) {
      assert FrameEntry(buf, ds, i);
      EncodedLies(buf, FRAME_HEADER + Off(ds, i), ds[i], i + 1 < |ds| && i < NonEmpty(ds, 0));
    }
    var stop := FRAME_HEADER + Total(ds);
    if stop + PDU_HEADER <= |buf| { assert buf[stop + 6] == 0 && buf[stop + 7] == 0; }
  }

  lemma LinkLast(buf: seq<byte>, ds: seq<Datagram>, last: Option<nat>, buf': seq<byte>)
    requires IsFrame(buf, ds) && |buf'| == |buf|
    requires var all := Indexes(buf, FRAME_HEADER, |buf|);
      last == if all == [] then None else Some(all[|all| - 1])
    requires last.Some? && last.value + PDU_HEADER <= |buf| ==>
      buf' == buf[last.value + 7 := buf[last.value + 7] % 128 + 128]
    requires !(last.Some? && last.value + PDU_HEADER <= |buf|) ==> buf' == buf
    ensures IsLinked(buf', ds)
  {
    FrameIsLaid(buf, ds);
    IndexesOfLaid(buf, FRAME_HEADER, ds, |buf|);
    var n := NonEmpty(ds, 0);
    if n == 0 {
      LinkNothing(buf, ds);
    } else {
      var off := FRAME_HEADER + Off(ds, n - 1);
      assert last == Some(off);
      OffStep(ds, n - 1);
      LinkAt(buf, ds, n, buf');
    }
  }

  lemma LinkNothing(buf: seq<byte>, ds: seq<Datagram>)
    requires IsFrame(buf, ds) && NonEmpty(ds, 0) == 0
    ensures IsLinked(buf, ds)
  {
    forall i | 0 <= i < |ds| ensures LinkedEntry(buf, ds, i) { assert FrameEntry(buf, ds, i); }
  }

  lemma LinkAt(buf: seq<byte>, ds: seq<Datagram>, n: nat, buf': seq<byte>)
    requires IsFrame(buf, ds) && n == NonEmpty(ds, 0) > 0
    requires FRAME_HEADER + Off(ds, n - 1) + 7 < FRAME_HEADER + Total(ds)
    requires var p := FRAME_HEADER + Off(ds, n - 1) + 7; buf' == buf[p := buf[p] % 128 + 128]
    ensures IsLinked(buf', ds)
  {
    forall i | 0 <= i < |ds| ensures LinkedEntry(buf', ds, i) {
      assert FrameEntry(buf, ds, i);
      LinkEntry(buf, ds, n, buf', i);
    }
  }

  lemma LinkEntry(buf: seq<byte>, ds: seq<Datagram>, n: nat, buf': seq<byte>, i: nat)
    requires n == NonEmpty(ds, 0) > 0 && i < |ds| && FrameEntry(buf, ds, i)
    requires FRAME_HEADER + Off(ds, n - 1) + 7 < |buf|
    requires var p := FRAME_HEADER + Off(ds, n - 1) + 7; buf' == buf[p := buf[p] % 128 + 128]
    ensures LinkedEntry(buf', ds, i)
  {
    if i == n - 1 {
      LinkedBit(buf, FRAME_HEADER + Off(ds, i), ds[i], i + 1 < |ds| && i < NonEmpty(ds, 0));
    } else {
      OffApart(ds, i, n - 1);
      Moved(buf, buf', FRAME_HEADER + Off(ds, i), ds[i], i < n);
    }
  }

  lemma LinkedBit(buf: seq<byte>, off: nat, d: Datagram, linked: bool)
    requires Entry(buf, off, d, linked)
    ensures Entry(buf[off + 7 := buf[off + 7] % 128 + 128], off, d, true)
  {
    EncodedBytes(buf, off, d, |d.data|, linked);
    var v := buf[off + 7] % 128 + 128;
    assert buf[off + 7 := v][off..off + d.Size()] == buf[off..off + d.Size()][7 := v];
    assert Encoded(d, |d.data|, linked)[7 := v] == Encoded(d, |d.data|, true);
  }

  /** A datagram stays in place when its bytes do. */
  lemma Moved(buf: seq<byte>, buf': seq<byte>, off: nat, d: Datagram, linked: bool)
    requires Entry(buf, off, d, linked) && off + d.Size() <= |buf'|
    requires forall k :: off <= k < off + d.Size() ==> buf'[k] == buf[k]
    ensures Entry(buf', off, d, linked)
  {
    assert buf'[off..off + d.Size()] == buf[off..off + d.Size()];
  }

  /** Two datagrams of one sequence do not overlap. */
  lemma OffApart(ds: seq<Datagram>, i: nat, j: nat)
    requires i < |ds| && j < |ds| && i != j
    ensures Off(ds, i) + ds[i].Size() <= Off(ds, j) || Off(ds, j) + ds[j].Size() <= Off(ds, i)
  {
    if i < j { OffMonotone(ds, i + 1, j); } else { OffMonotone(ds, j + 1, i); }
  }

  /** The bytes of one more datagram behind a linked frame. */
  ghost predicate Fills(buf: seq<byte>, stop: nat, d: Datagram, buf': seq<byte>) {
    && |buf'| == |buf| && stop + d.Size() <= |buf|
    && (forall k :: 0 <= k < stop ==> buf'[k] == buf[k])
    && Entry(buf', stop, d, false)
    && ZeroFrom(buf', stop + d.Size())
  }

  lemma FillsDatagram(buf: seq<byte>, stop: nat, d: Datagram, buf': seq<byte>)
    requires ZeroFrom(buf, stop) && FilledAt(buf, stop, d, |d.data|, buf') && d.wkc == 0 && |d.data| < 2048
    ensures Fills(buf, stop, d, buf')
  {
    ZerosStay(buf, stop, d, buf');
  }

  lemma ZerosStay(buf: seq<byte>, off: nat, d: Datagram, buf': seq<byte>)
    requires ZeroFrom(buf, off) && FilledAt(buf, off, d, |d.data|, buf')
    ensures ZeroFrom(buf', off + d.Size())
  {
  }

  lemma Appends(buf: seq<byte>, ds: seq<Datagram>, d: Datagram, filled: seq<byte>, buf': seq<byte>)
    requires IsLinked(buf, ds) && FilledAt(buf, FRAME_HEADER + Total(ds), d, |d.data|, filled) && d.wkc == 0 && |d.data| < 2048
    requires SameButLength(filled, buf') && LengthAdded(filled, d.Size(), buf')
    ensures IsFrame(buf', ds + [d]) && Total(ds + [d]) == Total(ds) + d.Size()
  {
    FillsDatagram(buf, FRAME_HEADER + Total(ds), d, filled);
    CompletesFrame(buf, ds, d, filled, buf');
    TotalAppend(ds, d);
  }

  /** The two bytes of the frame length after a datagram of `size` bytes was added. */
  predicate LengthAdded(filled: seq<byte>, size: nat, buf': seq<byte>)
    requires FRAME_HEADER <= |filled| == |buf'|
  {
    var length := FrameLength(filled) + size;
    buf'[14] == length % 256 && buf'[15] == filled[15] / 8 * 8 + length / 256 % 8
  }

  predicate SameButLength(filled: seq<byte>, buf': seq<byte>) {
    |buf'| == |filled| && forall k :: 0 <= k < |filled| && k != 14 && k != 15 ==> buf'[k] == filled[k]
  }

  lemma CompletesFrame(buf: seq<byte>, ds: seq<Datagram>, d: Datagram, filled: seq<byte>, buf': seq<byte>)
    requires IsLinked(buf, ds) && Fills(buf, FRAME_HEADER + Total(ds), d, filled) && SameButLength(filled, buf')
    requires LengthAdded(filled, d.Size(), buf')
    ensures IsFrame(buf', ds + [d])
  {
    TotalAppend(ds, d);
    HeaderGrows(buf, filled, buf', Total(ds), d.Size());
    forall i | 0 <= i < |ds| + 1 ensures FrameEntry(buf', ds + [d], i) {
      if i < |ds| {
        assert LinkedEntry(buf, ds, i);
        OffStep(ds, i);
        MovedBelow(buf, filled, buf', FRAME_HEADER + Total(ds), FRAME_HEADER + Off(ds, i), ds[i], i < NonEmpty(ds, 0));
        KeepsEntry(ds, d, buf', i);
      } else {
        LastEntry(ds, d, filled, buf');
      }
    }
  }

  lemma MovedBelow(buf: seq<byte>, filled: seq<byte>, buf': seq<byte>, stop: nat, off: nat, e: Datagram, linked: bool)
    requires |filled| == |buf| && SameButLength(filled, buf')
    requires FRAME_HEADER <= off && off + e.Size() <= stop <= |buf|
    requires forall k :: 0 <= k < stop ==> filled[k] == buf[k]
    requires Entry(buf, off, e, linked)
    ensures Entry(buf', off, e, linked)
  {
    Moved(buf, buf', off, e, linked);
  }

  lemma KeepsEntry(ds: seq<Datagram>, d: Datagram, buf: seq<byte>, i: nat)
    requires i < |ds| && Entry(buf, FRAME_HEADER + Off(ds, i), ds[i], i < NonEmpty(ds, 0))
    ensures FrameEntry(buf, ds + [d], i)
  {
    OffPrefix(ds, d, i);
    LinkSame(ds, d, i);
    IsEntryOf(buf, FRAME_HEADER + Off(ds, i), i < NonEmpty(ds, 0), ds + [d], i);
  }

  lemma IsEntryOf(buf: seq<byte>, off: nat, linked: bool, ds: seq<Datagram>, i: nat)
    requires i < |ds| && off == FRAME_HEADER + Off(ds, i) && Entry(buf, off, ds[i], linked)
    requires linked <==> i + 1 < |ds| && i < NonEmpty(ds, 0)
    ensures FrameEntry(buf, ds, i)
  {
  }

  lemma LinkSame(ds: seq<Datagram>, d: Datagram, i: nat)
    requires i < |ds|
    ensures i + 1 < |ds + [d]| && (i < NonEmpty(ds + [d], 0) <==> i < NonEmpty(ds, 0))
  {
    NonEmptyAppend(ds, d, 0);
  }

  lemma LastEntry(ds: seq<Datagram>, d: Datagram, filled: seq<byte>, buf': seq<byte>)
    requires Entry(filled, FRAME_HEADER + Total(ds), d, false) && |buf'| == |filled|
    requires forall k :: FRAME_HEADER <= k < |filled| ==> buf'[k] == filled[k]
    ensures FrameEntry(buf', ds + [d], |ds|)
  {
    Moved(filled, buf', FRAME_HEADER + Total(ds), d, false);
    OffPrefix(ds, d, |ds|);
  }

  lemma HeaderGrows(buf: seq<byte>, filled: seq<byte>, buf': seq<byte>, total: nat, size: nat)
    requires HeaderIs(buf, total)
    requires FRAME_HEADER <= |filled| && forall k :: 0 <= k < FRAME_HEADER ==> filled[k] == buf[k]
    requires SameButLength(filled, buf') && LengthAdded(filled, size, buf')
    ensures HeaderIs(buf', total + size)
  {
    HeaderLength(filled, total);
    LengthWraps(total, size);
    TypeStays(total / 256 % 8);
  }

  /** The length field counts modulo 2048. */
  lemma LengthWraps(total: nat, size: nat)
    ensures var length := total % 2048 + size;
      length % 256 == (total + size) % 256 && length / 256 % 8 == (total + size) / 256 % 8
  {
    var length, q := total % 2048 + size, total / 2048;
    assert total + size == length + 2048 * q;
    var h := length / 256;
    DivUnique(total + size, 256, h + 8 * q, length % 256);
    DivUnique(h + 8 * q, 8, h / 8 + q, h % 8);
  }

  lemma TypeStays(high: nat)
    requires high < 8
    ensures (high + 0x10) / 8 * 8 == 0x10 && (high + 0x10) % 8 == high
  {
    DivUnique(high + 0x10, 8, 2, high);
  }

  lemma {:induction false} NonEmptyAppend(ds: seq<Datagram>, d: Datagram, i: nat)
    requires i <= |ds|
    ensures NonEmpty(ds + [d], i) ==
      if NonEmpty(ds, i) < |ds| || d.data == [] then NonEmpty(ds, i) else |ds| + 1
    decreases |ds| - i
  {
    if i < |ds| && ds[i].data != [] { NonEmptyAppend(ds, d, i + 1); }
  }

  // ------------------------------------------------------------------ reading the frame back

  predicate Decodes(buf: seq<byte>, off: nat, d: Datagram) {
    && off + PDU_HEADER <= |buf| && off + PDU_HEADER + LengthAt(buf, off) + WKC_LENGTH <= |buf|
    && Decode(buf, off) == d
  }

  /** A datagram without data hides the one behind it: nothing of this frame is read back. */
  lemma EmptyHidesNext(buf: seq<byte>)
    requires IsFrame(buf, [Datagram(BRD, 0, 0, 0x130, [], 0), Datagram(BRD, 1, 0, 0x130, [7], 0)])
    ensures Indexes(buf, FRAME_HEADER, |buf|) == []
  {
    var ds := [Datagram(BRD, 0, 0, 0x130, [], 0), Datagram(BRD, 1, 0, 0x130, [7], 0)];
    assert ds[0].data == [] && NonEmpty(ds, 0) == 0;
    FrameRoundTrip(buf, ds);
  }

  /** The bytes of a frame are determined by its datagrams and its length. */
  lemma FrameIsUnique(a: seq<byte>, b: seq<byte>, ds: seq<Datagram>)
    requires IsFrame(a, ds) && IsFrame(b, ds) && |a| == |b|
    ensures a == b
  {
    forall k | 0 <= k < |a| ensures a[k] == b[k] {
      if FRAME_HEADER <= k < FRAME_HEADER + Total(ds) {
        var i := DatagramOf(ds, |ds|, k - FRAME_HEADER);
        assert FrameEntry(a, ds, i) && FrameEntry(b, ds, i);
        EntryIsUnique(a, b, FRAME_HEADER + Off(ds, i), ds[i], i + 1 < |ds| && i < NonEmpty(ds, 0), k);
      }
    }
  }

  lemma EntryIsUnique(a: seq<byte>, b: seq<byte>, off: nat, d: Datagram, linked: bool, k: nat)
    requires Entry(a, off, d, linked) && Entry(b, off, d, linked) && off <= k < off + d.Size()
    ensures a[k] == b[k]
  {
    assert a[off..off + d.Size()][k - off] == a[k] && b[off..off + d.Size()][k - off] == b[k];
  }

  /** Which of the first n datagrams a byte belongs to. */
  lemma {:induction false} DatagramOf(ds: seq<Datagram>, n: nat, k: nat) returns (i: nat)
    requires n <= |ds| && k < Off(ds, n)
    ensures i < n && Off(ds, i) <= k < Off(ds, i) + ds[i].Size()
  {
    if Off(ds, n - 1) <= k { i := n - 1; } else { i := DatagramOf(ds, n - 1, k); }
  }

  /** The frame of one status broadcast, byte by byte. */
  lemma StatusFrame(buf: seq<byte>)
    requires IsFrame(buf, [Datagram(BRD, 5, 0, 0x0130, [0, 0], 0)]) && |buf| == 30
    ensures buf == [0xFF, 0xFF, 0xFF, 0xFF, 0xFF, 0xFF, 5, 5, 5, 5, 5, 5, 0x88, 0xA4, 14, 0x10,
                    7, 5, 0, 0, 0x30, 1, 2, 0, 0, 0, 0, 0, 0, 0]
  {
    var d := Datagram(BRD, 5, 0, 0x0130, [0, 0], 0);
    assert Off([d], 1) == 14 && Total([d]) == 14 && Off([d], 0) == 0;
    assert FrameEntry(buf, [d], 0);
    assert Encoded(d, 2, false) == [7, 5, 0, 0, 0x30, 1, 2, 0, 0, 0, 0, 0, 0, 0];
    assert buf[..16] == INITIAL_HEADER[..14] + [14, 0x10];
    assert buf == buf[..16] + buf[16..30];
  }

  /** Iterating a frame gives back the datagrams it was built from, in order, with zero working counters: all
      of them exactly when none is empty, and otherwise those before the first empty one. The length field of
      the frame is the sum of the datagram sizes, modulo the 11 bits it has. */
  lemma FrameRoundTrip(buf: seq<byte>, ds: seq<Datagram>)
    requires IsFrame(buf, ds)
    ensures var all := Indexes(buf, FRAME_HEADER, |buf|);
      && |all| == NonEmpty(ds, 0)
      && (|all| == |ds| <==> forall i :: 0 <= i < |ds| ==> ds[i].data != [])
      && forall i {:trigger all[i]} :: 0 <= i < |all| ==> Decodes(buf, all[i], ds[i])
    ensures FrameLength(buf) == Total(ds) % 2048
  {
    FrameIsLaid(buf, ds);
    IndexesOfLaid(buf, FRAME_HEADER, ds, |buf|);
    HeaderLength(buf, Total(ds));
    var all := Indexes(buf, FRAME_HEADER, |buf|);
    forall i | 0 <= i < |all| ensures Decodes(buf, all[i], ds[i]) {
      assert FrameEntry(buf, ds, i);
      FrameDecodes(buf, ds, i);
    }
  }

  lemma HeaderLength(buf: seq<byte>, total: nat)
    requires HeaderIs(buf, total)
    ensures FrameLength(buf) == total % 2048
  {
    TypeStays(total / 256 % 8);
    var h := total / 256;
    DivUnique(total, 2048, h / 8, 256 * (h % 8) + total % 256);
  }

  lemma FrameDecodes(buf: seq<byte>, ds: seq<Datagram>, i: nat)
    requires i < |ds| && FrameEntry(buf, ds, i)
    ensures Decodes(buf, FRAME_HEADER + Off(ds, i), ds[i])
  {
    EntryDecodes(buf, FRAME_HEADER + Off(ds, i), ds[i], i + 1 < |ds| && i < NonEmpty(ds, 0));
  }

  lemma EntryDecodes(buf: seq<byte>, off: nat, d: Datagram, linked: bool)
    requires Entry(buf, off, d, linked)
    ensures Decodes(buf, off, d)
  {
    EncodedLies(buf, off, d, linked);
    DecodeAt(buf, off, d);
  }
}
