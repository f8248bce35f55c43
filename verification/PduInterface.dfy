/** The staging buffer: datagrams are collected, sent as one frame, and replaced by their replies. */
module PduInterfaces {
  import opened Bytes
  import opened Commands
  import opened Datagrams
  import opened Frames

  datatype LinkResult = Ready(done: bool) | NotAvailable

  /** `OutOfRange` is an index outside the buffer, which ends the program. */
  datatype AddOutcome = Added | Refused | OutOfRange

  /** A frame that is not our own echo and carries EtherCAT. */
  predicate Accepted(frame: seq<byte>)
    requires FRAME_HEADER <= |frame|
  {
    !(forall k :: 6 <= k < 12 ==> frame[k] == 5) && frame[12] == 0x88 && frame[13] == 0xA4
  }

  /** The slaves change address, data and working counter of a datagram, but not its shape. */
  predicate SameShape(sent: Datagram, reply: Datagram) {
    reply.ctype == sent.ctype && reply.index == sent.index && reply.ado == sent.ado && |reply.data| == |sent.data|
  }

  predicate Answers(sent: seq<Datagram>, replies: seq<Datagram>) {
    |replies| == |sent| && forall i {:trigger replies[i]} :: 0 <= i < |sent| ==> SameShape(sent[i], replies[i])
  }

  ghost predicate IsReply(frame: seq<byte>, sent: seq<Datagram>, replies: seq<Datagram>) {
    && Answers(sent, replies)
    && FRAME_HEADER + Total(replies) <= |frame|
    && Laid(frame, FRAME_HEADER, replies) && WkcsLaid(frame, FRAME_HEADER, replies)
    && Ends(frame, FRAME_HEADER, replies, |frame|)
  }

  predicate AllNonEmpty(ds: seq<Datagram>) {
    forall i {:trigger ds[i]} :: 0 <= i < |ds| ==> ds[i].data != []
  }

  class PduInterface {
    const buffer: array<byte>
    const capacity: nat
    var pdusTotalSize: nat
    var pduCount: nat
    var txCount: nat
    var recvDataSize: nat
    ghost var staged: seq<Datagram>

    ghost predicate Valid()
      reads this, buffer
    {
      && capacity == (if buffer.Length < MAX_ETHERCAT_DATAGRAM then buffer.Length else MAX_ETHERCAT_DATAGRAM)
      && pdusTotalSize == Total(staged) <= capacity
      && Laid(buffer[..], 0, staged)
    }

    /** Datagrams are being collected, or nothing is going on at all. */
    ghost predicate Staging()
      reads this, buffer
    {
      && Valid() && pduCount == |staged| && txCount == 0 && recvDataSize == 0
      && forall i :: 0 <= i < |staged| ==> staged[i].wkc == 0
    }

    /** All datagrams have been sent and none has come back. */
    ghost predicate InFlight()
      reads this, buffer
    {
      Valid() && pduCount == 0 && txCount == |staged| > 0 && recvDataSize == 0
    }

    /** The buffer holds the replies. */
    ghost predicate Received()
      reads this, buffer
    {
      Valid() && pduCount == 0 && txCount == 0 && WkcsLaid(buffer[..], 0, staged) && AllNonEmpty(staged)
    }

    constructor (buffer: array<byte>)
      ensures Staging() && staged == [] && this.buffer == buffer
      ensures capacity == if buffer.Length < MAX_ETHERCAT_DATAGRAM then buffer.Length else MAX_ETHERCAT_DATAGRAM
    {
      this.buffer := buffer;
      capacity := if buffer.Length < MAX_ETHERCAT_DATAGRAM then buffer.Length else MAX_ETHERCAT_DATAGRAM;
      pdusTotalSize, pduCount, txCount, recvDataSize := 0, 0, 0, 0;
      staged := [];
    }

    /** `add_pdu` with the data the writer puts into the slot. The stores that are meant to clear the working
        counter hit the second counter byte and the byte behind it, so a datagram that ends exactly at the end
        of the buffer is stored out of range. */
    method AddPdu(index: byte, command: Command, data: seq<byte>) returns (r: AddOutcome)
      requires Staging()
      modifies this, buffer
      ensures r.Refused? <==>
        !(old(pdusTotalSize) + PDU_HEADER + |data| + WKC_LENGTH <= capacity && |data| <= MAX_PDU_DATAGRAM)
      ensures r.OutOfRange? <==> !r.Refused? && old(pdusTotalSize) + PDU_HEADER + |data| + WKC_LENGTH == buffer.Length
      ensures !r.OutOfRange? ==> Staging() && pdusTotalSize == Total(staged)
      ensures !r.OutOfRange? ==> staged == old(staged) + if r.Added?
        then [Datagram(command.ctype, index, command.adp, command.ado, data, 0)] else []
    {
      var size := PDU_HEADER + |data| + WKC_LENGTH;
      if pdusTotalSize + size > capacity { return Refused; }
      if |data| > MAX_PDU_DATAGRAM { return Refused; }
      ghost var before := buffer[..];
      ghost var d := Datagram(command.ctype, index, command.adp, command.ado, data, 0);
      var stored := StoreDatagram(pdusTotalSize, index, command, data);
      if !stored { return OutOfRange; }
      LaidAppend(before, staged, d, buffer[..]);
      TotalAppend(staged, d);
      staged := staged + [d];
      pdusTotalSize := pdusTotalSize + size;
      pduCount := pduCount + 1;
      return Added;
    }

    /** False stands for a store outside the buffer. */
    method StoreDatagram(off: nat, index: byte, command: Command, data: seq<byte>) returns (inRange: bool)
      requires off + PDU_HEADER + |data| + WKC_LENGTH <= buffer.Length && |data| < 2048
      modifies buffer
      ensures inRange <==> off + PDU_HEADER + |data| + WKC_LENGTH < buffer.Length
      ensures inRange ==> forall k :: 0 <= k < off ==> buffer[k] == old(buffer[k])
      ensures inRange ==> At(buffer[..], off, Datagram(command.ctype, index, command.adp, command.ado, data, 0))
    {
      StoreHeader(off, index, command, |data|);
      CopyInto(off + PDU_HEADER, data);
      buffer[off + PDU_HEADER + |data| + 1] := 0;
      if off + PDU_HEADER + |data| + 2 == buffer.Length { return false; }
      buffer[off + PDU_HEADER + |data| + 2] := 0;
      assert buffer[off + PDU_HEADER..off + PDU_HEADER + |data|] == data;
      return true;
    }

    method StoreHeader(off: nat, index: byte, command: Command, length: nat)
      requires off + PDU_HEADER <= buffer.Length && length < 2048
      modifies buffer
      ensures forall k :: 0 <= k < off ==> buffer[k] == old(buffer[k])
      ensures buffer[off] == command.ctype.ToByte() && buffer[off + 1] == index
      ensures Word(buffer[off + 2], buffer[off + 3]) == command.adp && Word(buffer[off + 4], buffer[off + 5]) == command.ado
      ensures LengthAt(buffer[..], off) == length
    {
      buffer[off], buffer[off + 1] := command.ctype.ToByte(), index;
      buffer[off + 2], buffer[off + 3] := Low(command.adp), High(command.adp);
      buffer[off + 4], buffer[off + 5] := Low(command.ado), High(command.ado);
      buffer[off + 6], buffer[off + 7] := length % 256, length / 256;
      buffer[off + 8], buffer[off + 9] := 0, 0;
      WordOfHalves(command.adp);
      WordOfHalves(command.ado);
    }

    method CopyInto(off: nat, data: seq<byte>)
      requires off + |data| <= buffer.Length
      modifies buffer
      ensures buffer[off..off + |data|] == data
      ensures forall k :: 0 <= k < buffer.Length && !(off <= k < off + |data|) ==> buffer[k] == old(buffer[k])
    {
      var i := 0;
      while i < |data|
        invariant 0 <= i <= |data|
        invariant buffer[off..off + i] == data[..i]
        invariant forall k :: 0 <= k < buffer.Length && !(off <= k < off + |data|) ==> buffer[k] == old(buffer[k])
      {
        buffer[off + i] := data[i];
        i := i + 1;
      }
    }

    /** `transmit_one_frame`. The frame holds the staged datagrams up to the first one without data, and
        `add_command` never fails. With data in all of them everything is then in flight. */
    method TransmitOneFrame(ready: bool) returns (r: LinkResult, frame: Option<seq<byte>>)
      requires Staging() || InFlight()
      modifies this
      ensures staged == old(staged)
      ensures old(pduCount) == 0 ==> r == Ready(true) && frame.None? && unchanged(this)
      ensures old(pduCount) != 0 && !ready ==> r == NotAvailable && frame.None? && unchanged(this)
      ensures old(pduCount) != 0 && ready ==>
        var sent := NonEmpty(staged, 0);
        && frame.Some? && IsFrame(frame.value, staged[..sent])
        && txCount == sent && pduCount == |staged| - sent && r == Ready(txCount >= pduCount)
        && (AllNonEmpty(staged) ==> sent == |staged| && InFlight() && r == Ready(true) && IsFrame(frame.value, staged))
    {
      if pduCount == 0 { return Ready(true), None; }
      if !ready { return NotAvailable, None; }
      var part := buffer[..pdusTotalSize];
      LaidPart(buffer[..], staged, part);
      var bytes, sent := BuildFrame(part, staged);
      txCount := txCount + sent;
      pduCount := pduCount - sent;
      if AllNonEmpty(staged) { assert staged[..sent] == staged; }
      return Ready(!(txCount < pduCount)), Some(bytes);
    }

    /** The closure handed to the transmit token: the iterator over the staged bytes feeds the frame builder. */
    static method BuildFrame(part: seq<byte>, ghost ds: seq<Datagram>) returns (frame: seq<byte>, sent: nat)
      requires |part| == Total(ds) && Laid(part, 0, ds)
      requires forall i :: 0 <= i < |ds| ==> ds[i].wkc == 0
      ensures sent == NonEmpty(ds, 0) && IsFrame(frame, ds[..sent])
    {
      var txBuffer := new byte[FRAME_HEADER + |part|];
      var util := new FrameUtil(txBuffer);
      var offset := 0;
      sent := 0;
      StopsAtEmpty(part, 0, ds, |part|);
      while Continues(part, offset, |part|)
        invariant 0 <= sent <= NonEmpty(ds, 0) && offset == Off(ds, sent)
        invariant sent < NonEmpty(ds, 0) || !Continues(part, offset, |part|)
        invariant util.Valid() && util.ds == ds[..sent] && util.buffer == txBuffer
        invariant fresh(util) && fresh(txBuffer)
        decreases |part| - offset
      {
        GoesOn(part, 0, ds, sent, |part|);
        AddNext(part, offset, util, ds, sent);
        offset := offset + PDU_HEADER + LengthAt(part, offset) + WKC_LENGTH;
        sent := sent + 1;
      }
      NotBefore(part, 0, ds, sent, |part|);
      frame := txBuffer[..];
    }

    static method AddNext(part: seq<byte>, offset: nat, util: FrameUtil, ghost ds: seq<Datagram>, ghost k: nat)
      requires util.Valid() && k < |ds| && util.ds == ds[..k] && ds[k].wkc == 0
      requires offset == Off(ds, k) && Reads(part, offset, ds[k], |part|)
      requires FRAME_HEADER + |part| == util.buffer.Length
      modifies util, util.buffer
      ensures util.Valid() && util.ds == ds[..k + 1]
    {
      PrefixTotal(ds, k);
      var d := Decode(part, offset);
      var ok := util.AddCommand(d.ctype, d.adp, d.ado, d.data, d.index);
      assert ok;
      assert ds[..k] + [ds[k]] == ds[..k + 1];
    }

    /** `receive_one_frame`. `replies` names what a frame that is accepted contains. */
    method ReceiveOneFrame(rx: Option<seq<byte>>, ghost replies: seq<Datagram>) returns (r: LinkResult)
      requires InFlight() || (Staging() && pduCount == 0)
      requires AllNonEmpty(staged)
      requires rx.Some? ==> FRAME_HEADER <= |rx.value|
      requires txCount > 0 && rx.Some? && Accepted(rx.value) ==> IsReply(rx.value, staged, replies)
      modifies this, buffer
      ensures old(txCount) == 0 ==> r == Ready(true) && unchanged(this) && unchanged(buffer)
      ensures old(txCount) > 0 && rx.None? ==> r == NotAvailable && unchanged(this) && unchanged(buffer)
      ensures old(txCount) > 0 && rx.Some? && !Accepted(rx.value) ==>
        r == Ready(false) && unchanged(this) && unchanged(buffer)
      ensures old(txCount) > 0 && rx.Some? && Accepted(rx.value) ==>
        r == Ready(true) && Received() && staged == replies
    {
      if txCount == 0 { return Ready(true); }
      if rx.None? { return NotAvailable; }
      var frame := rx.value;
      if !Accepted(frame) { return Ready(false); }
      AnswersTotal(staged, replies);
      var n, size := CopyReplies(frame, replies);
      recvDataSize := recvDataSize + size;
      txCount := txCount - n;
      staged := replies;
      return Ready(!(0 < txCount));
    }

    /** The closure handed to the receive token: every datagram of the frame is copied behind the one before. */
    method CopyReplies(frame: seq<byte>, ghost replies: seq<Datagram>) returns (n: nat, size: nat)
      requires FRAME_HEADER + Total(replies) <= |frame| && Total(replies) <= buffer.Length && AllNonEmpty(replies)
      requires Laid(frame, FRAME_HEADER, replies) && WkcsLaid(frame, FRAME_HEADER, replies)
      requires Ends(frame, FRAME_HEADER, replies, |frame|)
      modifies buffer
      ensures n == |replies| && size == Total(replies)
      ensures Laid(buffer[..], 0, replies) && WkcsLaid(buffer[..], 0, replies)
    {
      var offset := FRAME_HEADER;
      n, size := 0, 0;
      while Continues(frame, offset, |frame|)
        invariant 0 <= n <= |replies| && size == Off(replies, n) && offset == FRAME_HEADER + size
        invariant n < |replies| || !Continues(frame, offset, |frame|)
        invariant Copied(frame[FRAME_HEADER..], buffer[..], size)
        decreases |frame| - offset
      {
        GoesOn(frame, FRAME_HEADER, replies, n, |frame|);
        var pduSize := CopyNext(frame, size);
        size := size + pduSize;
        offset := offset + pduSize;
        n := n + 1;
      }
      NotBefore(frame, FRAME_HEADER, replies, n, |frame|);
      LaidCopy(frame, buffer[..], replies);
    }

    /** Copies the datagram behind the `size` bytes already copied. */
    method CopyNext(frame: seq<byte>, size: nat) returns (pduSize: nat)
      requires FRAME_HEADER + size + PDU_HEADER <= |frame|
      requires var n := PDU_HEADER + LengthAt(frame, FRAME_HEADER + size) + WKC_LENGTH;
        FRAME_HEADER + size + n <= |frame| && size + n <= buffer.Length
      requires Copied(frame[FRAME_HEADER..], buffer[..], size)
      modifies buffer
      ensures pduSize == PDU_HEADER + LengthAt(frame, FRAME_HEADER + size) + WKC_LENGTH
      ensures Copied(frame[FRAME_HEADER..], buffer[..], size + pduSize)
    {
      var offset := FRAME_HEADER + size;
      pduSize := PDU_HEADER + LengthAt(frame, offset) + WKC_LENGTH;
      CopyInto(size, frame[offset..offset + pduSize]);
    }

    /** `consume_pdus`: hands out the datagrams in the buffer and empties it. */
    method ConsumePdus() returns (pdus: seq<Datagram>)
      requires Received() || (Staging() && staged == [])
      modifies this
      ensures pdus == old(staged) && staged == [] && Staging()
    {
      pdus := ParseAll(buffer[..], pdusTotalSize, staged);
      pdusTotalSize, recvDataSize := 0, 0;
      staged := [];
    }

    /** Drains the iterator `EtherCatPdus`. */
    static method ParseAll(buf: seq<byte>, length: nat, ghost ds: seq<Datagram>) returns (pdus: seq<Datagram>)
      requires length == Total(ds) && Laid(buf, 0, ds) && WkcsLaid(buf, 0, ds) && AllNonEmpty(ds)
      ensures pdus == ds
    {
      pdus := [];
      var offset := 0;
      while Continues(buf, offset, length)
        invariant |pdus| <= |ds| && offset == Off(ds, |pdus|) && pdus == ds[..|pdus|]
        invariant |pdus| < |ds| || !Continues(buf, offset, length)
        decreases |buf| - offset
      {
        ghost var k := |pdus|;
        Yields(buf, ds, k, length);
        pdus := pdus + [Decode(buf, offset)];
        offset := offset + PDU_HEADER + LengthAt(buf, offset) + WKC_LENGTH;
      }
      NotBefore(buf, 0, ds, |pdus|, length);
    }
  }

  // ------------------------------------------------------------------ staged datagrams

  lemma LaidAppend(buf: seq<byte>, ds: seq<Datagram>, d: Datagram, buf': seq<byte>)
    requires Laid(buf, 0, ds) && |buf'| == |buf| && Total(ds) <= |buf|
    requires forall k :: 0 <= k < Total(ds) ==> buf'[k] == buf[k]
    requires At(buf', Total(ds), d)
    ensures Laid(buf', 0, ds + [d])
  {
    forall i | 0 <= i < |ds| + 1 ensures InPlace(buf', 0, ds + [d], i) {
      OffPrefix(ds, d, i);
      if i < |ds| {
        assert InPlace(buf, 0, ds, i);
        OffStep(ds, i);
        AtFrame(buf, buf', Off(ds, i), ds[i]);
      }
    }
  }

  lemma LaidPart(buf: seq<byte>, ds: seq<Datagram>, part: seq<byte>)
    requires Laid(buf, 0, ds) && Total(ds) <= |buf| && part == buf[..Total(ds)]
    ensures Laid(part, 0, ds)
  {
    forall i | 0 <= i < |ds| ensures InPlace(part, 0, ds, i) {
      assert InPlace(buf, 0, ds, i);
      OffStep(ds, i);
      AtFrame(buf, part, Off(ds, i), ds[i]);
    }
  }

  /** What the iterator finds at the offset of datagram k. */
  predicate Reads(buf: seq<byte>, off: nat, d: Datagram, length: nat) {
    && off + d.Size() <= |buf| && Continues(buf, off, length) && LengthAt(buf, off) == |d.data|
    && Decode(buf, off) == d.(wkc := Decode(buf, off).wkc)
    && (WkcAt(buf, off, d) ==> Decode(buf, off) == d)
  }

  /** The iterator goes on at every datagram, and decodes it. */
  lemma GoesOn(buf: seq<byte>, base: nat, ds: seq<Datagram>, k: nat, length: nat)
    requires Laid(buf, base, ds) && k < |ds| && ds[k].data != [] && base + Total(ds) <= length
    ensures Reads(buf, base + Off(ds, k), ds[k], length)
    ensures base + Off(ds, k + 1) == base + Off(ds, k) + ds[k].Size() <= base + Total(ds)
  {
    OffStep(ds, k);
    assert InPlace(buf, base, ds, k);
  }

  /** With its working counter, a datagram is yielded whole, and the next offset is that of the next one. */
  lemma Yields(buf: seq<byte>, ds: seq<Datagram>, k: nat, length: nat)
    requires Laid(buf, 0, ds) && WkcsLaid(buf, 0, ds) && AllNonEmpty(ds) && k < |ds| && Total(ds) <= length
    ensures var off := Off(ds, k);
      && off + PDU_HEADER <= |buf| && off + PDU_HEADER + LengthAt(buf, off) + WKC_LENGTH <= |buf|
      && Decode(buf, off) == ds[k] && Off(ds, k + 1) == off + PDU_HEADER + LengthAt(buf, off) + WKC_LENGTH
      && (k + 1 == |ds| && length == Total(ds) ==> !Continues(buf, Off(ds, k + 1), length))
  {
    GoesOn(buf, 0, ds, k, length);
    assert WkcInPlace(buf, 0, ds, k);
  }

  lemma NotBefore(buf: seq<byte>, base: nat, ds: seq<Datagram>, k: nat, length: nat)
    requires Laid(buf, base, ds) && k <= NonEmpty(ds, 0) && base + Total(ds) <= length
    requires !Continues(buf, base + Off(ds, k), length)
    ensures k == NonEmpty(ds, 0)
  {
    if k < NonEmpty(ds, 0) { GoesOn(buf, base, ds, k, length); }
  }

  /** The iterator does not go on at a datagram without data, nor behind the last one. */
  lemma StopsAtEmpty(buf: seq<byte>, base: nat, ds: seq<Datagram>, length: nat)
    requires Laid(buf, base, ds) && base + Total(ds) >= length
    ensures !Continues(buf, base + Off(ds, NonEmpty(ds, 0)), length)
  {
    var k := NonEmpty(ds, 0);
    if k < |ds| { assert InPlace(buf, base, ds, k); }
  }

  lemma PrefixTotal(ds: seq<Datagram>, k: nat)
    requires k <= |ds|
    ensures Total(ds[..k]) == Off(ds, k)
  {
    PrefixOff(ds, k, k);
  }

  lemma {:induction false} PrefixOff(ds: seq<Datagram>, k: nat, i: nat)
    requires i <= k <= |ds|
    ensures Off(ds[..k], i) == Off(ds, i)
  {
    if i > 0 { PrefixOff(ds, k, i - 1); }
  }

  lemma AnswersTotal(sent: seq<Datagram>, replies: seq<Datagram>)
    requires Answers(sent, replies)
    ensures Total(sent) == Total(replies)
  {
    AnswersOff(sent, replies, |sent|);
  }

  lemma {:induction false} AnswersOff(sent: seq<Datagram>, replies: seq<Datagram>, i: nat)
    requires Answers(sent, replies) && i <= |sent|
    ensures Off(sent, i) == Off(replies, i)
  {
    if i > 0 {
      AnswersOff(sent, replies, i - 1);
      assert SameShape(sent[i - 1], replies[i - 1]);
    }
  }

  // ------------------------------------------------------------------ received datagrams

  predicate Copied(src: seq<byte>, buf: seq<byte>, n: nat) {
    n <= |src| && n <= |buf| && forall k :: 0 <= k < n ==> buf[k] == src[k]
  }

  lemma LaidCopy(frame: seq<byte>, buf: seq<byte>, ds: seq<Datagram>)
    requires FRAME_HEADER + Total(ds) <= |frame| && Copied(frame[FRAME_HEADER..], buf, Total(ds))
    requires Laid(frame, FRAME_HEADER, ds) && WkcsLaid(frame, FRAME_HEADER, ds)
    ensures Laid(buf, 0, ds) && WkcsLaid(buf, 0, ds)
  {
    forall i | 0 <= i < |ds| ensures InPlace(buf, 0, ds, i) && WkcInPlace(buf, 0, ds, i) {
      assert InPlace(frame, FRAME_HEADER, ds, i) && WkcInPlace(frame, FRAME_HEADER, ds, i);
      OffStep(ds, i);
      var off := Off(ds, i);
      Shifted(frame, FRAME_HEADER + off, buf, off, ds[i]);
    }
  }

  lemma Shifted(buf: seq<byte>, off: nat, buf': seq<byte>, off': nat, d: Datagram)
    requires At(buf, off, d) && WkcAt(buf, off, d) && off' + d.Size() <= |buf'|
    requires buf'[off'..off' + d.Size()] == buf[off..off + d.Size()]
    ensures At(buf', off', d) && WkcAt(buf', off', d)
  {
    var s := buf[off..off + d.Size()];
    FromSlice(s, buf', off', d);
  }

  lemma SubSlice(buf: seq<byte>, a: nat, b: nat, c: nat, e: nat)
    requires a <= b <= |buf| && c <= e <= b - a
    ensures buf[a..b][c..e] == buf[a + c..a + e]
  {
    var l, r := buf[a..b][c..e], buf[a + c..a + e];
    assert |l| == |r|;
    assert forall k :: 0 <= k < |l| ==> l[k] == r[k];
  }

  lemma FromSlice(s: seq<byte>, buf: seq<byte>, off: nat, d: Datagram)
    requires off + d.Size() <= |buf| && s == buf[off..off + d.Size()] && At(s, 0, d) && WkcAt(s, 0, d)
    ensures At(buf, off, d) && WkcAt(buf, off, d)
  {
    SubSlice(buf, off, off + d.Size(), PDU_HEADER, PDU_HEADER + |d.data|);
    assert s[0] == buf[off] && s[1] == buf[off + 1] && s[2] == buf[off + 2] && s[3] == buf[off + 3];
    assert s[4] == buf[off + 4] && s[5] == buf[off + 5] && s[6] == buf[off + 6] && s[7] == buf[off + 7];
    assert s[PDU_HEADER + |d.data|] == buf[off + PDU_HEADER + |d.data|];
    assert s[PDU_HEADER + |d.data| + 1] == buf[off + PDU_HEADER + |d.data| + 1];
  }
}
