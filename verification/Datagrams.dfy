/** EtherCAT datagrams as bytes: header fields, the sequence of datagrams in a buffer, and the iterators. */
module Datagrams {
  import opened Bytes
  import opened Commands

  const PDU_HEADER := 10
  const WKC_LENGTH := 2
  const MAX_ETHERCAT_DATAGRAM := 1498
  const MAX_PDU_DATAGRAM := 1486

  datatype Datagram = Datagram(ctype: CommandType, index: byte, adp: u16, ado: u16, data: seq<byte>, wkc: u16) {
    function Size(): nat { PDU_HEADER + |data| + WKC_LENGTH }
  }

  /** Bytes before datagram i. */
  function Off(ds: seq<Datagram>, i: nat): nat
    requires i <= |ds|
  {
    if i == 0 then 0 else Off(ds, i - 1) + ds[i - 1].Size()
  }

  function Total(ds: seq<Datagram>): nat { Off(ds, |ds|) }

  /** The 11-bit length field. */
  function LengthAt(buf: seq<byte>, off: nat): nat
    requires off + PDU_HEADER <= |buf|
  {
    (buf[off + 6] as int) + 256 * ((buf[off + 7] as int) % 8)
  }

  predicate HasNextAt(buf: seq<byte>, off: nat)
    requires off + PDU_HEADER <= |buf|
  {
    buf[off + 7] >= 128
  }

  /** The header and data of `d` lie at `off`. */
  predicate At(buf: seq<byte>, off: nat, d: Datagram) {
    && off + d.Size() <= |buf| && |d.data| < 2048
    && buf[off] == d.ctype.ToByte() && buf[off + 1] == d.index
    && Word(buf[off + 2], buf[off + 3]) == d.adp && Word(buf[off + 4], buf[off + 5]) == d.ado
    && LengthAt(buf, off) == |d.data|
    && buf[off + PDU_HEADER..off + PDU_HEADER + |d.data|] == d.data
  }

  predicate WkcAt(buf: seq<byte>, off: nat, d: Datagram)
    requires off + d.Size() <= |buf|
  {
    Word(buf[off + PDU_HEADER + |d.data|], buf[off + PDU_HEADER + |d.data| + 1]) == d.wkc
  }

  /** The bytes of `d`, with this in its 11-bit length field, its has-next bit as told and no other flag. */
  function Encoded(d: Datagram, length: nat, linked: bool): (bytes: seq<byte>)
    requires length < 2048
    ensures |bytes| == d.Size()
  {
    [d.ctype.ToByte(), d.index, Low(d.adp), High(d.adp), Low(d.ado), High(d.ado),
     length % 256, length / 256 + (if linked then 128 else 0), 0, 0]
    + d.data + [Low(d.wkc), High(d.wkc)]
  }

  predicate StoredAt(buf: seq<byte>, off: nat, d: Datagram, length: nat, linked: bool) {
    length < 2048 && off + d.Size() <= |buf| && buf[off..off + d.Size()] == Encoded(d, length, linked)
  }

  /** One datagram written at `off`, not linked, and nothing else. */
  predicate FilledAt(buf: seq<byte>, off: nat, d: Datagram, length: nat, buf': seq<byte>) {
    && |buf'| == |buf| && off + d.Size() <= |buf|
    && (forall k :: 0 <= k < |buf| && !(off <= k < off + d.Size()) ==> buf'[k] == buf[k])
    && StoredAt(buf', off, d, length, false)
  }

  /** An encoded datagram is there, with its working counter. */
  lemma EncodedLies(buf: seq<byte>, off: nat, d: Datagram, linked: bool)
    requires StoredAt(buf, off, d, |d.data|, linked)
    ensures At(buf, off, d) && WkcAt(buf, off, d) && (HasNextAt(buf, off) <==> linked)
  {
    var e := Encoded(d, |d.data|, linked);
    EncodedBytes(buf, off, d, |d.data|, linked);
    WordOfHalves(d.adp);
    WordOfHalves(d.ado);
    WordOfHalves(d.wkc);
  }

  lemma EncodedBytes(buf: seq<byte>, off: nat, d: Datagram, length: nat, linked: bool)
    requires StoredAt(buf, off, d, length, linked)
    ensures buf[off] == d.ctype.ToByte() && buf[off + 1] == d.index
    ensures buf[off + 2] == Low(d.adp) && buf[off + 3] == High(d.adp) && buf[off + 4] == Low(d.ado) && buf[off + 5] == High(d.ado)
    ensures buf[off + 6] == length % 256 && buf[off + 7] == length / 256 + (if linked then 128 else 0)
    ensures buf[off + 8] == 0 && buf[off + 9] == 0
    ensures buf[off + PDU_HEADER..off + PDU_HEADER + |d.data|] == d.data
    ensures buf[off + PDU_HEADER + |d.data|] == Low(d.wkc) && buf[off + PDU_HEADER + |d.data| + 1] == High(d.wkc)
  {
    var e, all := Encoded(d, length, linked), buf[off..off + d.Size()];
    assert all[0] == buf[off] && all[1] == buf[off + 1] && all[2] == buf[off + 2] && all[3] == buf[off + 3] && all[4] == buf[off + 4];
    assert all[5] == buf[off + 5] && all[6] == buf[off + 6] && all[7] == buf[off + 7] && all[8] == buf[off + 8] && all[9] == buf[off + 9];
    assert all[PDU_HEADER..PDU_HEADER + |d.data|] == buf[off + PDU_HEADER..off + PDU_HEADER + |d.data|];
    assert e[PDU_HEADER..PDU_HEADER + |d.data|] == d.data;
    assert all[PDU_HEADER + |d.data|] == buf[off + PDU_HEADER + |d.data|];
    assert all[PDU_HEADER + |d.data| + 1] == buf[off + PDU_HEADER + |d.data| + 1];
  }

  /** Datagram i of `ds` lies behind the ones before it. */
  predicate InPlace(buf: seq<byte>, base: nat, ds: seq<Datagram>, i: int)
    requires 0 <= i < |ds|
  {
    At(buf, base + Off(ds, i), ds[i])
  }

  predicate WkcInPlace(buf: seq<byte>, base: nat, ds: seq<Datagram>, i: int)
    requires 0 <= i < |ds| && InPlace(buf, base, ds, i)
  {
    WkcAt(buf, base + Off(ds, i), ds[i])
  }

  predicate Laid(buf: seq<byte>, base: nat, ds: seq<Datagram>) {
    forall i :: 0 <= i < |ds| ==> InPlace(buf, base, ds, i)
  }

  predicate WkcsLaid(buf: seq<byte>, base: nat, ds: seq<Datagram>)
    requires Laid(buf, base, ds)
  {
    forall i :: 0 <= i < |ds| ==> WkcInPlace(buf, base, ds, i)
  }

  /** What the accessors of `EtherCatPdu` return for the datagram at `off`. */
  function Decode(buf: seq<byte>, off: nat): Datagram
    requires off + PDU_HEADER <= |buf| && off + PDU_HEADER + LengthAt(buf, off) + WKC_LENGTH <= |buf|
  {
    var len := LengthAt(buf, off);
    Datagram(CommandType.FromByte(buf[off]), buf[off + 1], Word(buf[off + 2], buf[off + 3]),
             Word(buf[off + 4], buf[off + 5]), buf[off + PDU_HEADER..off + PDU_HEADER + len],
             Word(buf[off + PDU_HEADER + len], buf[off + PDU_HEADER + len + 1]))
  }

  /** Reading back what is laid out gives every field, the data and the working counter. */
  lemma DecodeAt(buf: seq<byte>, off: nat, d: Datagram)
    requires At(buf, off, d)
    ensures LengthAt(buf, off) == |d.data|
    ensures var r := Decode(buf, off); r == d.(wkc := r.wkc) && (WkcAt(buf, off, d) ==> r == d)
  {
    TypeRoundTrip(d.ctype);
  }

  // ------------------------------------------------------------------ the iterators

  /** Whether the iterators go on at `offset`: a whole header is there, its length is not zero, and the
      offset is below the given length. */
  predicate Continues(buf: seq<byte>, offset: nat, length: nat) {
    offset + PDU_HEADER <= |buf| && LengthAt(buf, offset) != 0 && offset < length
  }

  /** The offsets `EtherCatPduIndexes` and `EtherCatPdus` visit. */
  function Indexes(buf: seq<byte>, offset: nat, length: nat): seq<nat>
    decreases |buf| - offset
  {
    if Continues(buf, offset, length) then
      [offset] + Indexes(buf, offset + PDU_HEADER + LengthAt(buf, offset) + WKC_LENGTH, length)
    else []
  }

  /** How many datagrams precede the first one without data. */
  function NonEmpty(ds: seq<Datagram>, i: nat): (n: nat)
    requires i <= |ds|
    ensures i <= n <= |ds|
    ensures forall k :: i <= k < n ==> ds[k].data != []
    ensures n < |ds| ==> ds[n].data == []
    decreases |ds| - i
  {
    if i == |ds| || ds[i].data == [] then i else NonEmpty(ds, i + 1)
  }

  predicate Ends(buf: seq<byte>, base: nat, ds: seq<Datagram>, length: nat) {
    !Continues(buf, base + Total(ds), length)
  }

  ghost predicate AreOffsets(offsets: seq<nat>, base: nat, ds: seq<Datagram>, i: nat, n: nat)
    requires i <= n <= |ds|
  {
    |offsets| == n - i && forall k {:trigger offsets[k]} :: 0 <= k < n - i ==> offsets[k] == base + Off(ds, i + k)
  }

  /** Iteration yields the datagrams laid out, up to the first one without data; all of them, then, exactly
      when every one has data. */
  lemma IndexesOfLaid(buf: seq<byte>, base: nat, ds: seq<Datagram>, length: nat)
    requires Laid(buf, base, ds) && Ends(buf, base, ds, length) && base + Total(ds) <= length
    ensures AreOffsets(Indexes(buf, base, length), base, ds, 0, NonEmpty(ds, 0))
  {
    forall i | 0 <= i < |ds| ensures Steps(buf, base, ds, length, i) {
      assert InPlace(buf, base, ds, i);
      OffStep(ds, i);
    }
    assert Indexes(buf, base + Off(ds, |ds|), length) == [];
    IndexesFrom(buf, base, ds, length, 0);
    assert base + Off(ds, 0) == base;
  }

  predicate Steps(buf: seq<byte>, base: nat, ds: seq<Datagram>, length: nat, i: int)
    requires 0 <= i < |ds|
  {
    Indexes(buf, base + Off(ds, i), length) ==
      if ds[i].data == [] then [] else [base + Off(ds, i)] + Indexes(buf, base + Off(ds, i + 1), length)
  }

  lemma {:induction false} IndexesFrom(buf: seq<byte>, base: nat, ds: seq<Datagram>, length: nat, i: nat)
    requires i <= |ds| && Indexes(buf, base + Off(ds, |ds|), length) == []
    requires forall k :: 0 <= k < |ds| ==> Steps(buf, base, ds, length, k)
    ensures AreOffsets(Indexes(buf, base + Off(ds, i), length), base, ds, i, NonEmpty(ds, i))
    decreases |ds| - i
  {
    if i < |ds| {
      assert Steps(buf, base, ds, length, i);
      if ds[i].data != [] {
        IndexesFrom(buf, base, ds, length, i + 1);
        OneOffsetMore(Indexes(buf, base + Off(ds, i + 1), length), base, ds, i, NonEmpty(ds, i));
      }
    }
  }

  lemma OneOffsetMore(rest: seq<nat>, base: nat, ds: seq<Datagram>, i: nat, n: nat)
    requires i < n <= |ds| && AreOffsets(rest, base, ds, i + 1, n)
    ensures AreOffsets([base + Off(ds, i)] + rest, base, ds, i, n)
  {
    var all := [base + Off(ds, i)] + rest;
    forall k | 0 <= k < n - i ensures all[k] == base + Off(ds, i + k) {
      if k > 0 { assert all[k] == rest[k - 1]; }
    }
  }

  lemma {:induction false} OffMonotone(ds: seq<Datagram>, i: nat, j: nat)
    requires i <= j <= |ds|
    ensures Off(ds, i) <= Off(ds, j)
    decreases j
  {
    if i < j { OffMonotone(ds, i, j - 1); }
  }

  lemma OffStep(ds: seq<Datagram>, i: nat)
    requires i < |ds|
    ensures Off(ds, i + 1) == Off(ds, i) + ds[i].Size() <= Total(ds)
  {
    OffMonotone(ds, i + 1, |ds|);
  }

  lemma {:induction false} OffPrefix(ds: seq<Datagram>, d: Datagram, i: nat)
    requires i <= |ds|
    ensures Off(ds + [d], i) == Off(ds, i)
  {
    if i > 0 { OffPrefix(ds, d, i - 1); }
  }

  lemma TotalAppend(ds: seq<Datagram>, d: Datagram)
    ensures Total(ds + [d]) == Total(ds) + d.Size()
  {
    OffPrefix(ds, d, |ds|);
  }

  /** A datagram stays in place when its bytes do. */
  lemma AtFrame(buf: seq<byte>, buf': seq<byte>, off: nat, d: Datagram)
    requires At(buf, off, d) && off + d.Size() <= |buf'|
    requires forall k :: off <= k < off + PDU_HEADER + |d.data| && k != off + 7 ==> buf'[k] == buf[k]
    requires buf'[off + 7] % 8 == buf[off + 7] % 8
    ensures At(buf', off, d)
  {
    var lo, hi := off + PDU_HEADER, off + PDU_HEADER + |d.data|;
    assert forall k :: lo <= k < hi ==> buf'[k] == buf[k];
    assert buf'[lo..hi] == buf[lo..hi];
  }
}
