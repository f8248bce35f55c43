/** Bytes, little-endian words and the bitwise operators the datagrams and registers are built with.

    A bit of a number is read by repeated halving, and `Or`/`And` are defined the same way, so that one
    definition serves bytes, 32-bit registers and the OR a broadcast read performs over all slaves. */
module Bytes {

  type byte = x: int | 0 <= x < 256
  type u16 = x: int | 0 <= x < 0x1_0000
  type u32 = x: int | 0 <= x < 0x1_0000_0000

  datatype Option<+T> = None | Some(value: T)

  function Low(x: u16): byte { x % 256 }
  function High(x: u16): byte { x / 256 }

  function Word(low: byte, high: byte): u16 { low + 256 * high }

  lemma WordOfHalves(w: u16)
    ensures Word(Low(w), High(w)) == w
  {
  }

  function DWordBytes(x: u32): (s: seq<byte>)
    ensures |s| == 4
  {
    [x % 256, x / 256 % 256, x / 0x1_0000 % 256, x / 0x100_0000]
  }

  function DWord(s: seq<byte>): u32
    requires |s| >= 4
  {
    s[0] as int + 256 * (s[1] as int) + 0x1_0000 * (s[2] as int) + 0x100_0000 * (s[3] as int)
  }

  lemma DWordRoundTrip(x: u32)
    ensures DWord(DWordBytes(x)) == x
  {
    var y := x / 256;
    assert x / 0x1_0000 == y / 256 && x / 0x100_0000 == y / 256 / 256;
  }

  /** The n lowest bytes of a number, lowest first. */
  function LittleEndian(value: nat, n: nat): (s: seq<byte>)
    ensures |s| == n
    decreases n
  {
    if n == 0 then [] else [value % 256] + LittleEndian(value / 256, n - 1)
  }

  function Value(s: seq<byte>): nat {
    if s == [] then 0 else s[0] + 256 * Value(s[1..])
  }

  lemma {:induction false} ValueOf(value: nat, n: nat)
    requires value < Pow256(n)
    ensures Value(LittleEndian(value, n)) == value
    decreases n
  {
    if n > 0 {
      ValueOf(value / 256, n - 1);
      assert LittleEndian(value, n)[1..] == LittleEndian(value / 256, n - 1);
    }
  }

  function Pow256(n: nat): (p: nat)
    ensures p >= 1
  {
    if n == 0 then 1 else 256 * Pow256(n - 1)
  }

  lemma LittleZeros(n: nat)
    ensures LittleEndian(0, n) == Zeros(n)
  {
    if n > 0 { LittleZeros(n - 1); }
  }

  function Zeros(n: nat): (s: seq<byte>)
    ensures |s| == n
  {
    seq(n, _ => 0)
  }

  /** `data` copied over the front of `buf`, as far as it fits. */
  function Overlay(buf: seq<byte>, data: seq<byte>): (r: seq<byte>)
    ensures |r| == |buf|
  {
    if |data| <= |buf| then data + buf[|data|..] else data[..|buf|]
  }

  function Pow2(k: nat): (p: nat)
    ensures p >= 1
  {
    if k == 0 then 1 else 2 * Pow2(k - 1)
  }

  predicate Bit(x: nat, k: nat)
    decreases k
  {
    if k == 0 then x % 2 == 1 else Bit(x / 2, k - 1)
  }

  function Or(x: nat, y: nat): nat
    decreases x + y
  {
    if x == 0 && y == 0 then 0
    else 2 * Or(x / 2, y / 2) + if x % 2 == 1 || y % 2 == 1 then 1 else 0
  }

  function And(x: nat, y: nat): nat
    decreases x + y
  {
    if x == 0 && y == 0 then 0
    else 2 * And(x / 2, y / 2) + if x % 2 == 1 && y % 2 == 1 then 1 else 0
  }

  /** `x` with `s` zero bits put below it. */
  function Raise(x: nat, s: nat): nat {
    if s == 0 then x else 2 * Raise(x, s - 1)
  }

  /** `x` without its `s` lowest bits. */
  function Drop(x: nat, s: nat): (r: nat)
    ensures r <= x
    decreases s
  {
    if s == 0 then x else Drop(x / 2, s - 1)
  }

  /** The `n` lowest bits of `x`. */
  function Keep(x: nat, n: nat): (r: nat)
    ensures r < Pow2(n)
    decreases n
  {
    if n == 0 then 0 else 2 * Keep(x / 2, n - 1) + x % 2
  }

  /** A left shift that drops the bits pushed out of the byte, as `<<` does on `u8`. */
  function Shl(x: byte, s: nat): byte
    requires s < 8
  {
    Raise(x, s) % 256
  }

  function Shr(x: byte, s: nat): byte
    requires s < 8
  {
    Drop(x, s)
  }

  lemma {:induction false} BitOr(x: nat, y: nat, k: nat)
    ensures Bit(Or(x, y), k) == (Bit(x, k) || Bit(y, k))
    decreases k
  {
    if k == 0 {
    } else if x == 0 && y == 0 {
      BitZero(k);
    } else {
      assert Or(x, y) / 2 == Or(x / 2, y / 2);
      BitOr(x / 2, y / 2, k - 1);
    }
  }

  lemma {:induction false} BitAnd(x: nat, y: nat, k: nat)
    ensures Bit(And(x, y), k) == (Bit(x, k) && Bit(y, k))
    decreases k
  {
    if k == 0 {
    } else if x == 0 && y == 0 {
      BitZero(k);
    } else {
      assert And(x, y) / 2 == And(x / 2, y / 2);
      BitAnd(x / 2, y / 2, k - 1);
    }
  }

  lemma {:induction false} BitZero(k: nat)
    ensures !Bit(0, k)
  {
    if k > 0 { BitZero(k - 1); }
  }

  lemma {:induction false} OrBelow(x: nat, y: nat, n: nat)
    requires x < Pow2(n) && y < Pow2(n)
    ensures Or(x, y) < Pow2(n)
    decreases n
  {
    if n > 0 { OrBelow(x / 2, y / 2, n - 1); }
  }

  lemma {:induction false} AndBelow(x: nat, y: nat)
    ensures And(x, y) <= x && And(x, y) <= y
    decreases x + y
  {
    if x != 0 || y != 0 { AndBelow(x / 2, y / 2); }
  }

  lemma {:induction false} BitRaise(x: nat, s: nat, k: nat)
    ensures Bit(Raise(x, s), k) == (s <= k && Bit(x, k - s))
    decreases s
  {
    if s > 0 {
      assert Raise(x, s) / 2 == Raise(x, s - 1);
      if k > 0 { BitRaise(x, s - 1, k - 1); }
    }
  }

  lemma {:induction false} BitDrop(x: nat, s: nat, k: nat)
    ensures Bit(Drop(x, s), k) == Bit(x, k + s)
    decreases s
  {
    if s > 0 { BitDrop(x / 2, s - 1, k); }
  }

  lemma {:induction false} BitKeep(x: nat, n: nat, k: nat)
    ensures Bit(Keep(x, n), k) == (k < n && Bit(x, k))
    decreases n
  {
    if n == 0 {
      BitZero(k);
    } else {
      assert Keep(x, n) / 2 == Keep(x / 2, n - 1);
      if k > 0 { BitKeep(x / 2, n - 1, k - 1); }
    }
  }

  /** Keeping the lowest bits is the remainder by a power of two. */
  lemma {:induction false} KeepIsMod(x: nat, n: nat)
    ensures x % Pow2(n) == Keep(x, n)
    decreases n
  {
    if n > 0 {
      KeepIsMod(x / 2, n - 1);
      HalfMod(x, Pow2(n - 1));
    }
  }

  lemma HalfMod(x: nat, p: nat)
    requires p >= 1
    ensures x % (2 * p) == 2 * (x / 2 % p) + x % 2
  {
    var h := x / 2;
    var q, r := h / p, h % p;
    assert h == q * p + r;
    assert x == q * (2 * p) + (2 * r + x % 2);
    DivUnique(x, 2 * p, q, 2 * r + x % 2);
  }

  lemma DivUnique(x: nat, d: nat, q: nat, r: nat)
    requires d >= 1 && x == q * d + r && r < d
    ensures x / d == q && x % d == r
  {
    var q', r' := x / d, x % d;
    assert x == q' * d + r';
    if q > q' {
      MulMonotone(q' + 1, q, d);
    } else if q < q' {
      MulMonotone(q + 1, q', d);
    }
  }

  lemma MulMonotone(a: nat, b: nat, d: nat)
    requires a <= b
    ensures a * d <= b * d
  {
    assert b * d == a * d + (b - a) * d;
  }

  lemma BitShl(x: byte, s: nat, k: nat)
    requires s < 8
    ensures Bit(Shl(x, s), k) == (s <= k < 8 && Bit(x, k - s))
  {
    assert Pow2(8) == 256;
    KeepIsMod(Raise(x, s), 8);
    BitKeep(Raise(x, s), 8, k);
    BitRaise(x, s, k);
  }

  lemma BitShr(x: byte, s: nat, k: nat)
    requires s < 8
    ensures Bit(Shr(x, s), k) == (k + s < 8 && Bit(x, k + s))
  {
    BitDrop(x, s, k);
    assert Pow2(8) == 256;
    BitAbove(x, 8, k + s);
  }

  lemma {:induction false} BitAbove(x: nat, n: nat, k: nat)
    requires x < Pow2(n)
    ensures n <= k ==> !Bit(x, k)
    decreases n
  {
    if n == 0 {
      BitZero(k);
    } else if k > 0 {
      BitAbove(x / 2, n - 1, k - 1);
    }
  }

  lemma {:induction false} SameBits(x: nat, y: nat, n: nat)
    requires x < Pow2(n) && y < Pow2(n)
    requires forall k :: 0 <= k < n ==> Bit(x, k) == Bit(y, k)
    ensures x == y
    decreases n
  {
    if n > 0 {
      assert Bit(x, 0) == Bit(y, 0);
      forall k | 0 <= k < n - 1 ensures Bit(x / 2, k) == Bit(y / 2, k) {
        assert Bit(x, k + 1) == Bit(y, k + 1);
      }
      SameBits(x / 2, y / 2, n - 1);
    }
  }

  /** Bit n of a byte string: bit n % 8 of byte n / 8, least significant bit first. */
  predicate BitAt(s: seq<byte>, n: nat)
  {
    n / 8 < |s| && Bit(s[n / 8], n % 8)
  }

  /** A broadcast read ORs the registers of all slaves that have them. */
  function OrAll(regs: seq<nat>, k: nat): nat
    requires k <= |regs|
  {
    if k == 0 then 0 else Or(OrAll(regs, k - 1), regs[k - 1])
  }

  /** OR does not lower the number made of the lowest bits of either operand. */
  lemma {:induction false} KeepOr(x: nat, y: nat, n: nat)
    ensures Keep(x, n) <= Keep(Or(x, y), n) && Keep(y, n) <= Keep(Or(x, y), n)
    decreases n
  {
    if n > 0 && (x != 0 || y != 0) {
      assert Or(x, y) / 2 == Or(x / 2, y / 2);
      KeepOr(x / 2, y / 2, n - 1);
    }
  }

  /** A bit is set in the OR exactly when some register has it. */
  lemma {:induction false} BitOrAll(regs: seq<nat>, k: nat, b: nat)
    requires k <= |regs|
    ensures Bit(OrAll(regs, k), b) <==> exists i :: 0 <= i < k && Bit(regs[i], b)
  {
    if k == 0 {
      BitZero(b);
    } else {
      BitOrAll(regs, k - 1, b);
      BitOr(OrAll(regs, k - 1), regs[k - 1], b);
    }
  }
}
