/** Bit fields inside the process-data image: the byte-shifting copy loops and what they mean bit by bit. */
module LogicalBits {
  import opened Bytes

  /** A run of `bitLength` bits that starts at bit `startBit` of the byte at `logicalAddress`. */
  datatype Field = Field(logicalAddress: Option<nat>, startBit: nat, bitLength: nat) {

    /** A start bit of 8 or more makes the `u8` shifts overflow; the sum is a `u16`. */
    predicate Valid() {
      startBit < 8 && bitLength + startBit < 0x1_0000
    }

    function ByteLength(): (n: nat)
      requires Valid()
      ensures 8 * n >= startBit + bitLength
      ensures n > 0 ==> 8 * (n - 1) < startBit + bitLength
    {
      var length := bitLength + startBit;
      if length % 8 == 0 then length / 8 else length / 8 + 1
    }

    function EndBit(): (b: nat)
      requires Valid()
      ensures b < 8
      ensures bitLength + startBit > 0 ==> 8 * (ByteLength() - 1) + b + 1 == startBit + bitLength
    {
      var mod8 := (bitLength + startBit) % 8;
      if mod8 == 0 then 7 else mod8 - 1
    }
  }

  /** Byte `i` of the field after the write, as a function of its old value and of the source bytes. */
  function WriteByte(f: Field, i: nat, was: byte, src: seq<byte>): byte
    requires f.Valid() && i < f.ByteLength() <= |src|
  {
    var kept := Kept(f, i, was);
    var low := Or8(kept, Shl(src[i], f.startBit));
    if i >= 1 && f.startBit != 0 then Or8(low, Shr(src[i - 1], 8 - f.startBit)) else low
  }

  /** The bits of the old byte that the write masks in before it ORs the source in. */
  function Kept(f: Field, i: nat, was: byte): byte
    requires f.Valid() && i < f.ByteLength()
  {
    var mod8 := (f.bitLength + f.startBit) % 8;
    if i == 0 then
      if f.startBit == 0 then 0 else And8(was, Shr(0xFF, 8 - f.startBit))
    else if i == f.ByteLength() - 1 then
      if mod8 == 0 then 0 else And8(was, Shl(0xFF, mod8))
    else 0
  }

  function Or8(x: byte, y: byte): byte {
    assert Pow2(8) == 256;
    OrBelow(x, y, 8);
    Or(x, y)
  }

  function And8(x: byte, y: byte): byte {
    AndBelow(x, y);
    And(x, y)
  }

  function Written(f: Field, at: nat, image: seq<byte>, src: seq<byte>): (r: seq<byte>)
    requires f.Valid() && f.ByteLength() <= |src| && at + f.ByteLength() <= |image|
    ensures |r| == |image|
  {
    seq(|image|, j requires 0 <= j < |image| =>
      if at <= j < at + f.ByteLength() then WriteByte(f, j - at, image[j], src) else image[j])
  }

  /** `write_from_buffer`. None is returned for an unaddressed field and for an image that is too short. */
  method WriteFromBuffer(f: Field, offset: u32, image: array<byte>, src: seq<byte>) returns (done: Option<()>)
    requires f.Valid() && f.ByteLength() <= |src|
    requires f.logicalAddress.Some? ==> f.logicalAddress.value >= offset
    requires f.logicalAddress.Some? ==> f.logicalAddress.value - offset + f.ByteLength() >= 1
    modifies image
    ensures done.Some? <==>
      f.logicalAddress.Some? && f.logicalAddress.value - offset + f.ByteLength() <= image.Length
    ensures done.None? ==> image[..] == old(image[..])
    ensures done.Some? ==> image[..] == Written(f, f.logicalAddress.value - offset, old(image[..]), src)
  {
    var size := f.ByteLength();
    if f.logicalAddress.None? { return None; }
    var at := f.logicalAddress.value - offset;
    if at + size - 1 >= image.Length { return None; }
    ghost var before := image[..];
    var i := 0;
    while i < size
      invariant 0 <= i <= size
      invariant forall j :: at <= j < at + i ==> image[j] == WriteByte(f, j - at, before[j], src)
      invariant forall j :: 0 <= j < at || at + i <= j < image.Length ==> image[j] == before[j]
    {
      WriteOneByte(f, i, image, at + i, src);
      i := i + 1;
    }
    return Some(());
  }

  /** One turn of the copy loop: mask the old byte, then OR in the shifted source bytes. */
  method WriteOneByte(f: Field, i: nat, image: array<byte>, p: nat, src: seq<byte>)
    requires f.Valid() && i < f.ByteLength() <= |src| && p < image.Length
    modifies image
    ensures image[p] == WriteByte(f, i, old(image[p]), src)
    ensures forall j :: 0 <= j < image.Length && j != p ==> image[j] == old(image[j])
  {
    MaskByte(f, i, image, p);
    image[p] := Or8(image[p], Shl(src[i], f.startBit));
    if i >= 1 && f.startBit != 0 {
      image[p] := Or8(image[p], Shr(src[i - 1], 8 - f.startBit));
    }
  }

  method MaskByte(f: Field, i: nat, image: array<byte>, p: nat)
    requires f.Valid() && i < f.ByteLength() && p < image.Length
    modifies image
    ensures image[p] == Kept(f, i, old(image[p]))
    ensures forall j :: 0 <= j < image.Length && j != p ==> image[j] == old(image[j])
  {
    if i == 0 {
      if f.startBit == 0 {
        image[p] := 0;
      } else {
        image[p] := And8(image[p], Shr(0xFF, 8 - f.startBit));
      }
    } else if i == f.ByteLength() - 1 {
      var mod8 := (f.bitLength + f.startBit) % 8;
      if mod8 == 0 {
        image[p] := 0;
      } else {
        image[p] := And8(image[p], Shl(0xFF, mod8));
      }
    } else {
      image[p] := 0;
    }
  }

  /** Byte `i` of the read, as coded: the next byte is shifted by 7 - start_bit. */
  function ReadByte(f: Field, i: nat, area: seq<byte>): byte
    requires f.Valid() && i < f.ByteLength() <= |area|
  {
    var v := Shr(area[i], f.startBit);
    if i < f.ByteLength() - 1 then Or8(v, Shl(area[i + 1], 7 - f.startBit)) else v
  }

  /** Byte `i` of the read with the shift that pairs with the write, 8 - start_bit. */
  function PairedReadByte(f: Field, i: nat, area: seq<byte>): byte
    requires f.Valid() && i < f.ByteLength() <= |area|
  {
    var v := Shr(area[i], f.startBit);
    if i < f.ByteLength() - 1 && f.startBit != 0 then Or8(v, Shl(area[i + 1], 8 - f.startBit)) else v
  }

  function ReadBytes(f: Field, area: seq<byte>): (r: seq<byte>)
    requires f.Valid() && f.ByteLength() <= |area|
    ensures |r| == f.ByteLength()
  {
    seq(f.ByteLength(), i requires 0 <= i < f.ByteLength() => ReadByte(f, i, area))
  }

  function PairedReadBytes(f: Field, area: seq<byte>): (r: seq<byte>)
    requires f.Valid() && f.ByteLength() <= |area|
    ensures |r| == f.ByteLength()
  {
    seq(f.ByteLength(), i requires 0 <= i < f.ByteLength() => PairedReadByte(f, i, area))
  }

  /** `read_to_buffer`. The field must span at least one byte: the source computes `size - 1`. */
  method ReadToBuffer(f: Field, offset: u32, image: seq<byte>, buf: array<byte>) returns (done: Option<()>)
    requires f.Valid()
    requires f.logicalAddress.Some? ==> f.logicalAddress.value >= offset && f.ByteLength() >= 1
    modifies buf
    ensures done.Some? <==>
      (f.logicalAddress.Some? && f.ByteLength() <= buf.Length &&
       f.logicalAddress.value - offset + f.ByteLength() <= |image|)
    ensures done.None? ==> buf[..] == old(buf[..])
    ensures done.Some? ==>
      buf[..] == ReadBytes(f, image[f.logicalAddress.value - offset..]) + old(buf[f.ByteLength()..])
  {
    var size := f.ByteLength();
    if f.logicalAddress.None? { return None; }
    var at := f.logicalAddress.value - offset;
    if at + size - 1 >= |image| || size - 1 >= buf.Length { return None; }
    ghost var area := image[at..];
    var i := 0;
    while i < size - 1
      invariant 0 <= i <= size - 1
      invariant forall j :: 0 <= j < i ==> buf[j] == ReadByte(f, j, area)
      invariant buf[size..] == old(buf[size..])
    {
      var v := Shr(image[at + i], f.startBit);
      var next := Shl(image[at + i + 1], 7 - f.startBit);
      buf[i] := Or8(v, next);
      i := i + 1;
    }
    buf[size - 1] := Shr(image[at + size - 1], f.startBit);
    return Some(());
  }

  // ------------------------------------------------------------------ bit-level meaning

  /** Bit n of the field: what the start bit and the bit length denote, independently of the copy loops. */
  predicate FieldBit(f: Field, at: nat, image: seq<byte>, n: nat)
    requires f.Valid()
  {
    BitAt(image, 8 * at + f.startBit + n)
  }

  lemma KeptBit(f: Field, i: nat, was: byte, k: nat)
    requires f.Valid() && i < f.ByteLength() && k < 8
    ensures Bit(Kept(f, i, was), k) <==>
      (Bit(was, k) && (8 * i + k < f.startBit || (i >= 1 && f.startBit + f.bitLength <= 8 * i + k)))
  {
    var mod8 := (f.bitLength + f.startBit) % 8;
    BitZero(k);
    if i == 0 {
      if f.startBit != 0 { LowMask(was, f.startBit, k); }
    } else if i == f.ByteLength() - 1 {
      if mod8 != 0 { HighMask(was, mod8, k); }
    }
  }

  lemma LowMask(was: byte, s: nat, k: nat)
    requires 0 < s < 8 && k < 8
    ensures Bit(And8(was, Shr(0xFF, 8 - s)), k) <==> Bit(was, k) && k < s
  {
    BitAnd(was, Shr(0xFF, 8 - s), k);
    BitShr(0xFF, 8 - s, k);
    AllOnes(k + (8 - s));
  }

  lemma HighMask(was: byte, s: nat, k: nat)
    requires 0 < s < 8 && k < 8
    ensures Bit(And8(was, Shl(0xFF, s)), k) <==> Bit(was, k) && s <= k
  {
    BitAnd(was, Shl(0xFF, s), k);
    BitShl(0xFF, s, k);
    if s <= k { AllOnes(k - s); }
  }

  lemma {:induction false} Ones(n: nat, k: nat)
    requires k < n
    ensures Bit(Pow2(n) - 1, k)
  {
    if k > 0 {
      assert (Pow2(n) - 1) / 2 == Pow2(n - 1) - 1;
      Ones(n - 1, k - 1);
    }
  }

  lemma AllOnes(k: nat)
    ensures Bit(0xFF, k) <==> k < 8
  {
    assert Pow2(8) == 256;
    if k < 8 {
      Ones(8, k);
    } else {
      BitAbove(0xFF, 8, k);
    }
  }

  /** The exact meaning of one byte of the write, for every field, old byte and source. */
  lemma WriteByteBit(f: Field, i: nat, was: byte, src: seq<byte>, k: nat)
    requires f.Valid() && i < f.ByteLength() <= |src| && k < 8
    ensures var j := 8 * i + k;
      Bit(WriteByte(f, i, was, src), k) <==>
      (Bit(was, k) && (j < f.startBit || (i >= 1 && f.startBit + f.bitLength <= j)))
      || (f.startBit <= j && BitAt(src, j - f.startBit))
  {
    var s := f.startBit;
    var kept := Kept(f, i, was);
    var low := Or8(kept, Shl(src[i], s));
    KeptBit(f, i, was, k);
    BitOr(kept, Shl(src[i], s), k);
    BitShl(src[i], s, k);
    if s <= k {
      assert (8 * i + k - s) / 8 == i && (8 * i + k - s) % 8 == k - s;
    } else if i >= 1 {
      assert (8 * i + k - s) / 8 == i - 1 && (8 * i + k - s) % 8 == 8 + k - s;
    }
    if i >= 1 && s != 0 {
      BitOr(low, Shr(src[i - 1], 8 - s), k);
      BitShr(src[i - 1], 8 - s, k);
    }
  }

  /** Every bit of the image after a write, with no condition on the field or the source. */
  lemma WrittenBit(f: Field, at: nat, image: seq<byte>, src: seq<byte>, n: nat)
    requires f.Valid() && f.ByteLength() <= |src| && at + f.ByteLength() <= |image|
    requires n < 8 * |image|
    ensures var j := n - 8 * at; var end := f.startBit + f.bitLength;
      BitAt(Written(f, at, image, src), n) <==>
      if j < f.startBit || 8 * f.ByteLength() <= j then BitAt(image, n)
      else if j < end then BitAt(src, j - f.startBit)
      else BitAt(src, j - f.startBit) || (8 <= j && BitAt(image, n))
  {
    var i := n / 8 - at;
    if 0 <= i < f.ByteLength() {
      assert n - 8 * at == 8 * i + n % 8;
      WriteByteBit(f, i, image[at + i], src, n % 8);
    }
  }

  /** What the write is for: the field takes the source bits, and nothing outside the field changes. */
  ghost predicate WritesOnlyField(f: Field, at: nat, image: seq<byte>, src: seq<byte>)
    requires f.Valid() && f.ByteLength() <= |src| && at + f.ByteLength() <= |image|
  {
    var after := Written(f, at, image, src);
    && (forall n: nat :: n < f.bitLength ==> FieldBit(f, at, after, n) == BitAt(src, n))
    && (forall n: nat :: n < 8 * |image| && !(8 * at + f.startBit <= n < 8 * at + f.startBit + f.bitLength)
          ==> BitAt(after, n) == BitAt(image, n))
  }

  /** Checkable before the call: the field ends on a byte boundary, or it spans two bytes or more and the
      source holds no one-bits past the field length. */
  ghost predicate CleanTail(f: Field, src: seq<byte>)
    requires f.Valid()
  {
    || (f.startBit + f.bitLength) % 8 == 0
    || (f.ByteLength() >= 2
        && forall n: nat :: f.bitLength <= n < 8 * f.ByteLength() - f.startBit ==> !BitAt(src, n))
  }

  /** The field part of the write is right for every field and every source. */
  lemma WriteSetsField(f: Field, at: nat, image: seq<byte>, src: seq<byte>, n: nat)
    requires f.Valid() && f.ByteLength() <= |src| && at + f.ByteLength() <= |image|
    requires n < f.bitLength
    ensures FieldBit(f, at, Written(f, at, image, src), n) == BitAt(src, n)
  {
    WrittenBit(f, at, image, src, 8 * at + f.startBit + n);
  }

  lemma WriteIsExact(f: Field, at: nat, image: seq<byte>, src: seq<byte>)
    requires f.Valid() && f.ByteLength() <= |src| && at + f.ByteLength() <= |image|
    requires CleanTail(f, src)
    ensures WritesOnlyField(f, at, image, src)
  {
    forall n: nat | n < f.bitLength
      ensures FieldBit(f, at, Written(f, at, image, src), n) == BitAt(src, n)
    {
      WriteSetsField(f, at, image, src, n);
    }
    forall n: nat | n < 8 * |image| && !(8 * at + f.startBit <= n < 8 * at + f.startBit + f.bitLength)
      ensures BitAt(Written(f, at, image, src), n) == BitAt(image, n)
    {
      WrittenBit(f, at, image, src, n);
    }
  }

  /** The write touches only its field on every image exactly when `CleanTail` holds. */
  lemma WriteIsExactIff(f: Field, at: nat, length: nat, src: seq<byte>)
    requires f.Valid() && f.ByteLength() <= |src| && at + f.ByteLength() <= length
    ensures CleanTail(f, src) <==>
      (forall image: seq<byte> :: |image| == length ==> WritesOnlyField(f, at, image, src))
  {
    if CleanTail(f, src) {
      forall image: seq<byte> | |image| == length ensures WritesOnlyField(f, at, image, src) {
        WriteIsExact(f, at, image, src);
      }
    } else {
      var image := SpoiledImage(f, at, length, src);
      assert |image| == length && !WritesOnlyField(f, at, image, src);
    }
  }

  /** An image on which an unclean write changes a bit outside the field. */
  lemma SpoiledImage(f: Field, at: nat, length: nat, src: seq<byte>) returns (image: seq<byte>)
    requires f.Valid() && f.ByteLength() <= |src| && at + f.ByteLength() <= length
    requires !CleanTail(f, src)
    ensures |image| == length && !WritesOnlyField(f, at, image, src)
  {
    var j: nat;
    if f.ByteLength() >= 2 {
      var n: nat :| f.bitLength <= n < 8 * f.ByteLength() - f.startBit && BitAt(src, n);
      image := Zeros(length);
      j := f.startBit + n;
    } else {
      j := f.startBit + f.bitLength;
      image := if BitAt(src, f.bitLength) then Zeros(length) else seq(length, _ => 0xFF);
    }
    var n := 8 * at + j;
    WrittenBit(f, at, image, src, n);
    BitZero(n % 8);
    AllOnes(n % 8);
    assert BitAt(Written(f, at, image, src), n) != BitAt(image, n);
  }

  /** The family that fails: a one-byte field that ends mid-byte clears the neighbour above it. */
  lemma OneByteWriteClearsNeighbour()
    ensures var f := Field(Some(0), 0, 4);
      f.Valid() && f.ByteLength() == 1 && !CleanTail(f, [0]) && Written(f, 0, [0xF0], [0]) == [0]
  {
    var f := Field(Some(0), 0, 4);
    assert Shl(0, 0) == 0;
    assert Or8(0, 0) == 0;
    assert WriteByte(f, 0, 0xF0, [0]) == 0;
  }

  // ------------------------------------------------------------------ reading back

  /** The exact meaning of the coded read: past the first byte boundary it is one bit too far, and the bit
      before the boundary is ORed with the one after it. */
  lemma ReadBit(f: Field, area: seq<byte>, n: nat)
    requires f.Valid() && f.ByteLength() <= |area| && n < 8 * f.ByteLength()
    ensures var p := n % 8 + f.startBit; var b := n + f.startBit;
      BitAt(ReadBytes(f, area), n) <==>
      if n / 8 == f.ByteLength() - 1 then p < 8 && BitAt(area, b)
      else if p < 7 then BitAt(area, b)
      else if p == 7 then BitAt(area, b) || BitAt(area, b + 1)
      else BitAt(area, b + 1)
  {
    var i, k, s := n / 8, n % 8, f.startBit;
    assert ReadBytes(f, area)[i] == ReadByte(f, i, area);
    ReadByteBit(f, i, area, k);
    ShiftedIndex(n, s);
  }

  lemma ReadByteBit(f: Field, i: nat, area: seq<byte>, k: nat)
    requires f.Valid() && i < f.ByteLength() <= |area| && k < 8
    ensures Bit(ReadByte(f, i, area), k) <==>
      || (k + f.startBit < 8 && Bit(area[i], k + f.startBit))
      || (i < f.ByteLength() - 1 && k + f.startBit >= 7 && Bit(area[i + 1], k + f.startBit - 7))
  {
    BitShr(area[i], f.startBit, k);
    if i < f.ByteLength() - 1 {
      BitOr(Shr(area[i], f.startBit), Shl(area[i + 1], 7 - f.startBit), k);
      BitShl(area[i + 1], 7 - f.startBit, k);
    }
  }

  /** Where bit n of a value lies when the value starts at bit s. */
  lemma ShiftedIndex(n: nat, s: nat)
    requires s < 8
    ensures var i, k, b := n / 8, n % 8, n + s;
      && (k + s < 8 ==> b / 8 == i && b % 8 == k + s)
      && (k + s >= 7 ==> (b + 1) / 8 == i + 1 && (b + 1) % 8 == k + s - 7)
  {
  }

  lemma PairedReadBit(f: Field, area: seq<byte>, n: nat)
    requires f.Valid() && f.ByteLength() <= |area| && n + f.startBit < 8 * f.ByteLength()
    ensures BitAt(PairedReadBytes(f, area), n) == BitAt(area, n + f.startBit)
  {
    var i, k, s := n / 8, n % 8, f.startBit;
    var b := n + s;
    assert PairedReadBytes(f, area)[i] == PairedReadByte(f, i, area);
    BitShr(area[i], s, k);
    if k + s < 8 { assert b / 8 == i && b % 8 == k + s; }
    if i < f.ByteLength() - 1 && s != 0 {
      BitOr(Shr(area[i], s), Shl(area[i + 1], 8 - s), k);
      BitShl(area[i + 1], 8 - s, k);
      if k + s >= 8 { assert b / 8 == i + 1 && b % 8 == k + s - 8; }
    }
  }

  ghost predicate ReadsField(f: Field, area: seq<byte>)
    requires f.Valid() && f.ByteLength() <= |area|
  {
    forall n: nat :: n < f.bitLength ==> BitAt(ReadBytes(f, area), n) == FieldBit(f, 0, area, n)
  }

  /** The coded read returns the field on every image exactly when the field lies in one byte. */
  lemma ReadIsExactIff(f: Field)
    requires f.Valid() && f.ByteLength() >= 1
    ensures f.ByteLength() == 1 <==>
      (forall area: seq<byte> :: |area| >= f.ByteLength() ==> ReadsField(f, area))
  {
    if f.ByteLength() == 1 {
      forall area: seq<byte> | |area| >= f.ByteLength() ensures ReadsField(f, area) {
        forall n: nat | n < f.bitLength ensures BitAt(ReadBytes(f, area), n) == FieldBit(f, 0, area, n) {
          ReadBit(f, area, n);
        }
      }
    } else {
      var area := [0, 1] + Zeros(f.ByteLength() - 2);
      var n := 7 - f.startBit;
      ReadBit(f, area, n);
      BitZero(7);
      assert BitAt(area, 8) && !BitAt(area, 7);
      assert !ReadsField(f, area);
    }
  }

  /** Reading back what was written: as coded for a field inside one byte, and for every field with the
      shift that pairs with the write. */
  lemma ReadBack(f: Field, at: nat, image: seq<byte>, src: seq<byte>, n: nat)
    requires f.Valid() && f.ByteLength() <= |src| && at + f.ByteLength() <= |image|
    requires n < f.bitLength
    ensures var area := Written(f, at, image, src)[at..];
      && BitAt(PairedReadBytes(f, area), n) == BitAt(src, n)
      && (f.ByteLength() == 1 ==> BitAt(ReadBytes(f, area), n) == BitAt(src, n))
  {
    var after := Written(f, at, image, src);
    WriteSetsField(f, at, image, src, n);
    BitOfTail(after, at, f.startBit + n);
    PairedReadBit(f, after[at..], n);
    if f.ByteLength() == 1 { OneByteRead(f, after[at..], n); }
  }

  lemma BitOfTail(s: seq<byte>, at: nat, b: nat)
    requires at <= |s|
    ensures BitAt(s[at..], b) == BitAt(s, 8 * at + b)
  {
    assert (8 * at + b) / 8 == at + b / 8 && (8 * at + b) % 8 == b % 8;
  }

  lemma OneByteRead(f: Field, area: seq<byte>, n: nat)
    requires f.Valid() && f.ByteLength() == 1 <= |area| && n < f.bitLength
    ensures BitAt(ReadBytes(f, area), n) == BitAt(area, n + f.startBit)
  {
    ReadBit(f, area, n);
  }

  /** A 16-bit value at start bit 0 is read back with bit 8 leaked into bit 7. */
  lemma AlignedWordReadDiffers()
    ensures var f := Field(Some(0), 0, 16); f.Valid() && f.ByteLength() == 2 && ReadBytes(f, [0, 1]) == [0x80, 1]
  {
    var f := Field(Some(0), 0, 16);
    assert Shl(1, 7) == 128 by { assert Raise(1, 7) == 128; }
    assert Shr(0, 0) == 0 && Shr(1, 0) == 1;
    assert Or8(0, 128) == 128 by { OrZero(128); }
    assert ReadByte(f, 0, [0, 1]) == 0x80 && ReadByte(f, 1, [0, 1]) == 1;
  }

  lemma {:induction false} OrZero(x: nat)
    ensures Or(0, x) == x && Or(x, 0) == x
  {
    if x > 0 { OrZero(x / 2); }
  }
}
