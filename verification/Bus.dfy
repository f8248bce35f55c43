/** What the slaves on the line do to a datagram that passes them, and it to them. */
module Bus {
  import opened Bytes
  import opened Commands
  import opened Tasks

  /** The registers and the memory of a slave, by address. */
  type Memory = nat -> byte

  function Load(mem: Memory, at: nat, n: nat): (data: seq<byte>)
    ensures |data| == n
    ensures forall k {:trigger data[k]} :: 0 <= k < n ==> data[k] == mem(at + k)
  {
    seq(n, k requires 0 <= k < n => mem(at + k))
  }

  function Stored(mem: Memory, at: nat, data: seq<byte>): Memory {
    (a: nat) => if at <= a < at + |data| then data[a - at] else mem(a)
  }

  lemma LoadStored(mem: Memory, at: nat, data: seq<byte>)
    ensures Load(Stored(mem, at, data), at, |data|) == data
  {
  }

  /** The station address register. */
  function Station(mem: Memory): u16 { Word(mem(0x0010), mem(0x0011)) }

  function OrByte(a: byte, b: byte): (r: byte)
    ensures r == Or(a, b)
  {
    assert Pow2(8) == 256;
    OrBelow(a, b, 8);
    Or(a, b)
  }

  function OrBytes(a: seq<byte>, b: seq<byte>): (r: seq<byte>)
    requires |a| == |b|
    ensures |r| == |a| && forall k {:trigger r[k]} :: 0 <= k < |a| ==> r[k] == Or(a[k], b[k])
  {
    seq(|a|, k requires 0 <= k < |a| => OrByte(a[k], b[k]))
  }

  // ------------------------------------------------------------------ one slave

  /** The slave at position p acts on the datagram. */
  predicate Acts(c: Command, p: nat, mem: Memory) {
    match c.ctype
    case APRD => Addressed(c.adp, p)
    case APWR => Addressed(c.adp, p)
    case FPRD => Station(mem) == c.adp
    case FPWR => Station(mem) == c.adp
    case BRD => true
    case BWR => true
    case ARMW => true
    case _ => false
  }

  /** What it does: the data of the datagram and its own memory afterwards. */
  function Acted(c: Command, p: nat, mem: Memory, data: seq<byte>): (r: (seq<byte>, Memory))
    ensures |r.0| == |data|
  {
    var own := Load(mem, c.ado, |data|);
    match c.ctype
    case APRD => (own, mem)
    case FPRD => (own, mem)
    case BRD => (OrBytes(data, own), mem)
    case APWR => (data, Stored(mem, c.ado, data))
    case FPWR => (data, Stored(mem, c.ado, data))
    case BWR => (data, Stored(mem, c.ado, data))
    case ARMW => if Addressed(c.adp, p) then (own, mem) else (data, Stored(mem, c.ado, data))
    case _ => (data, mem)
  }

  // ------------------------------------------------------------------ the line

  /** A datagram behind n slaves: its data and working counter, and all slaves. */
  datatype Passing = Passing(data: seq<byte>, wkc: nat, slaves: seq<Memory>)

  /** Slave p takes part in this datagram when it hears it and is addressed. */
  predicate Takes(c: Command, slaves: seq<Memory>, hears: seq<bool>, p: int)
    requires |hears| == |slaves|
  {
    0 <= p < |slaves| && hears[p] && Acts(c, p, slaves[p])
  }

  function Pass(c: Command, data: seq<byte>, slaves: seq<Memory>, hears: seq<bool>, n: nat): (r: Passing)
    requires |hears| == |slaves| && n <= |slaves|
    ensures |r.data| == |data| && |r.slaves| == |slaves| && r.wkc <= n
  {
    if n == 0 then Passing(data, 0, slaves)
    else
      var before := Pass(c, data, slaves, hears, n - 1);
      if Takes(c, slaves, hears, n - 1) then
        var acted := Acted(c, n - 1, slaves[n - 1], before.data);
        Passing(acted.0, before.wkc + 1, before.slaves[n - 1 := acted.1])
      else before
  }

  /** The reply to a datagram that passed these slaves, which it left as `after`. */
  ghost predicate Returns(c: Command, data: seq<byte>, slaves: seq<Memory>, hears: seq<bool>, after: seq<Memory>, reply: Reply) {
    && |hears| == |slaves| && reply.command.ctype == c.ctype && reply.command.ado == c.ado
    && var r := Pass(c, data, slaves, hears, |slaves|);
       reply.data == r.data && reply.wkc == r.wkc && after == r.slaves
  }

  /** The slaves as a datagram finds them, who hears it, and the slaves as it leaves them. Between two datagrams a slave
      may change in any way. */
  datatype Passage = Passage(found: seq<Memory>, hears: seq<bool>, left: seq<Memory>)

  /** How many of the first n slaves take part. */
  function Parties(c: Command, slaves: seq<Memory>, hears: seq<bool>, n: nat): nat
    requires |hears| == |slaves| && n <= |slaves|
  {
    if n == 0 then 0 else Parties(c, slaves, hears, n - 1) + if Takes(c, slaves, hears, n - 1) then 1 else 0
  }

  lemma {:induction false} WkcIsParties(c: Command, data: seq<byte>, slaves: seq<Memory>, hears: seq<bool>, n: nat)
    requires |hears| == |slaves| && n <= |slaves|
    ensures Pass(c, data, slaves, hears, n).wkc == Parties(c, slaves, hears, n)
  {
    if n > 0 { WkcIsParties(c, data, slaves, hears, n - 1); }
  }

  lemma {:induction false} NobodyTakes(c: Command, slaves: seq<Memory>, hears: seq<bool>, n: nat)
    requires |hears| == |slaves| && n <= |slaves| && forall p :: 0 <= p < n ==> !Takes(c, slaves, hears, p)
    ensures Parties(c, slaves, hears, n) == 0
  {
    if n > 0 { NobodyTakes(c, slaves, hears, n - 1); }
  }

  lemma {:induction false} EverybodyTakes(c: Command, slaves: seq<Memory>, hears: seq<bool>, n: nat)
    requires |hears| == |slaves| && n <= |slaves|
    ensures Parties(c, slaves, hears, n) <= n
    ensures Parties(c, slaves, hears, n) == n ==> forall p :: 0 <= p < n ==> Takes(c, slaves, hears, p)
  {
    if n > 0 { EverybodyTakes(c, slaves, hears, n - 1); }
  }

  lemma {:induction false} AllTake(c: Command, slaves: seq<Memory>, hears: seq<bool>, n: nat)
    requires |hears| == |slaves| && n <= |slaves| && forall p :: 0 <= p < n ==> Takes(c, slaves, hears, p)
    ensures Parties(c, slaves, hears, n) == n
  {
    if n > 0 { AllTake(c, slaves, hears, n - 1); }
  }

  /** With at most one party, the counter says whether it took part. */
  lemma {:induction false} OneParty(c: Command, slaves: seq<Memory>, hears: seq<bool>, n: nat, p: nat)
    requires |hears| == |slaves| && n <= |slaves|
    requires forall q :: 0 <= q < n && Takes(c, slaves, hears, q) ==> q == p
    ensures Parties(c, slaves, hears, n) == if p < n && Takes(c, slaves, hears, p) then 1 else 0
  {
    if n > 0 {
      OneParty(c, slaves, hears, n - 1, p);
      if p == n - 1 { NobodyTakes(c, slaves, hears, n - 1); }
    }
  }

  // ------------------------------------------------------------------ reads and writes

  predicate IsRead(t: CommandType) { t == APRD || t == FPRD || t == BRD }

  predicate IsWrite(t: CommandType) { t == APWR || t == FPWR || t == BWR }

  lemma {:induction false} ReadLeaves(c: Command, data: seq<byte>, slaves: seq<Memory>, hears: seq<bool>, n: nat)
    requires |hears| == |slaves| && n <= |slaves| && IsRead(c.ctype)
    ensures Pass(c, data, slaves, hears, n).slaves == slaves
  {
    if n > 0 {
      ReadLeaves(c, data, slaves, hears, n - 1);
      assert slaves[n - 1 := slaves[n - 1]] == slaves;
    }
  }

  /** The memory of slave p behind a write. */
  function AfterWrite(c: Command, data: seq<byte>, slaves: seq<Memory>, hears: seq<bool>, p: nat): Memory
    requires |hears| == |slaves| && p < |slaves|
  {
    if Takes(c, slaves, hears, p) then Stored(slaves[p], c.ado, data) else slaves[p]
  }

  lemma {:induction false} WriteStores(c: Command, data: seq<byte>, slaves: seq<Memory>, hears: seq<bool>, n: nat)
    requires |hears| == |slaves| && n <= |slaves| && IsWrite(c.ctype)
    ensures var r := Pass(c, data, slaves, hears, n);
      && r.data == data
      && forall p {:trigger r.slaves[p]} :: 0 <= p < |slaves| ==>
           r.slaves[p] == if p < n then AfterWrite(c, data, slaves, hears, p) else slaves[p]
  {
    if n > 0 { WriteStores(c, data, slaves, hears, n - 1); }
  }

  lemma {:induction false} ReadFetches(c: Command, data: seq<byte>, slaves: seq<Memory>, hears: seq<bool>, n: nat, p: nat)
    requires |hears| == |slaves| && n <= |slaves| && (c.ctype == APRD || c.ctype == FPRD)
    requires p < n && Takes(c, slaves, hears, p) && forall q :: p < q < n ==> !Takes(c, slaves, hears, q)
    ensures Pass(c, data, slaves, hears, n).data == Load(slaves[p], c.ado, |data|)
  {
    if p < n - 1 { ReadFetches(c, data, slaves, hears, n - 1, p); }
  }

  /** Byte `at` of the first n slaves. */
  function Column(slaves: seq<Memory>, at: nat): (r: seq<nat>)
    ensures |r| == |slaves| && forall p {:trigger r[p]} :: 0 <= p < |r| ==> r[p] == slaves[p](at)
  {
    seq(|slaves|, p requires 0 <= p < |slaves| => slaves[p](at))
  }

  /** A broadcast read that all slaves hear returns the OR of their registers. */
  lemma {:induction false} BroadcastOrs(c: Command, data: seq<byte>, slaves: seq<Memory>, hears: seq<bool>, n: nat, k: nat)
    requires |hears| == |slaves| && n <= |slaves| && c.ctype == BRD && k < |data| && data[k] == 0
    requires forall p :: 0 <= p < n ==> hears[p]
    ensures Pass(c, data, slaves, hears, n).data[k] == OrAll(Column(slaves, c.ado + k), n)
  {
    if n > 0 { BroadcastOrs(c, data, slaves, hears, n - 1, k); }
  }

  /** Whoever hears a broadcast read, the low bits it returns are no less than those of anyone who did. */
  lemma {:induction false} BroadcastAtLeast(
    c: Command, data: seq<byte>, slaves: seq<Memory>, hears: seq<bool>, n: nat, k: nat, p: nat, bits: nat)
    requires |hears| == |slaves| && n <= |slaves| && c.ctype == BRD && k < |data| && p < n && hears[p]
    ensures Keep(slaves[p](c.ado + k), bits) <= Keep(Pass(c, data, slaves, hears, n).data[k], bits)
  {
    var before := Pass(c, data, slaves, hears, n - 1);
    if hears[n - 1] { KeepOr(before.data[k], slaves[n - 1](c.ado + k), bits); }
    if p < n - 1 { BroadcastAtLeast(c, data, slaves, hears, n - 1, k, p, bits); }
  }

  /** No datagram changes anything outside the stretch it addresses. */
  lemma {:induction false} PassTouches(c: Command, data: seq<byte>, slaves: seq<Memory>, hears: seq<bool>, n: nat, p: nat, a: nat)
    requires |hears| == |slaves| && n <= |slaves| && p < |slaves| && !(c.ado <= a < c.ado + |data|)
    ensures Pass(c, data, slaves, hears, n).slaves[p](a) == slaves[p](a)
  {
    if n > 0 { PassTouches(c, data, slaves, hears, n - 1, p, a); }
  }

  /** So no byte of the reply is below that byte of a slave, sign bit or not. */
  lemma ByteAtLeast(c: Command, data: seq<byte>, slaves: seq<Memory>, hears: seq<bool>, k: nat, p: nat)
    requires |hears| == |slaves| && c.ctype == BRD && k < |data| && p < |slaves| && hears[p]
    ensures AtLeast(Pass(c, data, slaves, hears, |slaves|).data[k], slaves[p](c.ado + k))
  {
    var x, y := slaves[p](c.ado + k), Pass(c, data, slaves, hears, |slaves|).data[k];
    forall n: nat ensures Keep(x, n) <= Keep(y, n) { BroadcastAtLeast(c, data, slaves, hears, |slaves|, k, p, n); }
    KeptBytes(x, y);
  }

  predicate AtLeast(y: byte, x: byte) { x <= y && (x as int) % 128 <= (y as int) % 128 }

  lemma KeptBytes(x: byte, y: byte)
    requires forall n: nat :: Keep(x, n) <= Keep(y, n)
    ensures AtLeast(y, x)
  {
    KeptModulo(x, y, 8, 256) by { assert Pow2(8) == 256; }
    KeptModulo(x, y, 7, 128) by { assert Pow2(7) == 128; }
  }

  lemma KeptModulo(x: byte, y: byte, n: nat, p: nat)
    requires p > 0 && Pow2(n) == p && forall n: nat :: Keep(x, n) <= Keep(y, n)
    ensures (x as int) % p <= (y as int) % p
  {
    KeepIsMod(x, n);
    KeepIsMod(y, n);
  }

  // ------------------------------------------------------------------ the commands the tasks use

  /** Slave p is meant by the target. */
  predicate Meant(target: TargetSlave, p: nat, mem: Memory) {
    match target
    case Single(SlavePosition(q)) => p == q
    case Single(StationAddress(a)) => Station(mem) == a
    case All(_) => true
  }

  predicate Party(target: TargetSlave, slaves: seq<Memory>, hears: seq<bool>, p: int)
    requires |hears| == |slaves|
  {
    0 <= p < |slaves| && hears[p] && Meant(target, p, slaves[p])
  }

  /** No two slaves are meant by a target that is one slave. */
  ghost predicate Distinct(target: TargetSlave, slaves: seq<Memory>) {
    target.Single? ==>
      forall p, q :: 0 <= p < |slaves| && 0 <= q < |slaves| && Meant(target, p, slaves[p]) && Meant(target, q, slaves[q]) ==> p == q
  }

  /** On a line of up to 65536 slaves a read and a write are acted on by the slaves meant, and by no other. */
  lemma ActsIsMeant(target: TargetSlave, ado: u16, p: nat, mem: Memory)
    requires p < 0x1_0000
    ensures Acts(NewRead(target, ado), p, mem) <==> Meant(target, p, mem)
    ensures Acts(NewWrite(target, ado), p, mem) <==> Meant(target, p, mem)
  {
    match target
    case Single(SlavePosition(q)) => ApAdpReaches(q, p);
    case _ =>
  }

  /** A read asks the slaves meant for their register and changes no slave: one slave's reply is that slave's
      register, and all slaves' reply is the OR of their registers. */
  lemma ReadReaches(target: TargetSlave, ado: u16, n: nat, slaves: seq<Memory>, hears: seq<bool>, after: seq<Memory>, reply: Reply)
    returns (p: nat)
    requires Returns(NewRead(target, ado), Zeros(n), slaves, hears, after, reply) && |slaves| <= 0x1_0000
    requires Distinct(target, slaves)
    ensures after == slaves && |reply.data| == n
    ensures target.Single? && reply.wkc == 1 ==> Party(target, slaves, hears, p) && reply.data == Load(slaves[p], ado, n)
    ensures target.Single? ==> reply.wkc <= 1
    ensures target.All? && reply.wkc == |slaves| ==>
      forall k {:trigger reply.data[k]} :: 0 <= k < n ==> reply.data[k] == OrAll(Column(slaves, ado + k), |slaves|)
    ensures target.All? && reply.wkc == |slaves| ==> forall q :: 0 <= q < |slaves| ==> hears[q]
  {
    var c := NewRead(target, ado);
    ReadLeaves(c, Zeros(n), slaves, hears, |slaves|);
    WkcIsParties(c, Zeros(n), slaves, hears, |slaves|);
    p := 0;
    if target.Single? {
      p := SingleParty(target, ado, slaves, hears);
      if reply.wkc == 1 {
        ReadFetches(c, Zeros(n), slaves, hears, |slaves|, p);
        ActsIsMeant(target, ado, p, slaves[p]);
      }
    } else if reply.wkc == |slaves| {
      EverybodyTakes(c, slaves, hears, |slaves|);
      forall q | 0 <= q < |slaves| ensures hears[q] { assert Takes(c, slaves, hears, q); }
      forall k | 0 <= k < n ensures reply.data[k] == OrAll(Column(slaves, ado + k), |slaves|) {
        BroadcastOrs(c, Zeros(n), slaves, hears, |slaves|, k);
      }
    }
  }

  /** The one slave that takes part in a read of a single slave, if there is one. */
  lemma SingleParty(target: TargetSlave, ado: u16, slaves: seq<Memory>, hears: seq<bool>) returns (p: nat)
    requires |hears| == |slaves| <= 0x1_0000 && target.Single? && Distinct(target, slaves)
    ensures var c := NewRead(target, ado);
      && Parties(c, slaves, hears, |slaves|) == (if Takes(c, slaves, hears, p) then 1 else 0)
      && forall q :: 0 <= q < |slaves| && Takes(c, slaves, hears, q) ==> q == p
  {
    var c := NewRead(target, ado);
    p := 0;
    if q :| 0 <= q < |slaves| && Takes(c, slaves, hears, q) { p := q; }
    forall q | 0 <= q < |slaves| && Takes(c, slaves, hears, q) ensures q == p {
      ActsIsMeant(target, ado, q, slaves[q]);
      ActsIsMeant(target, ado, p, slaves[p]);
      assert Meant(target, q, slaves[q]) && Meant(target, p, slaves[p]);
    }
    OneParty(c, slaves, hears, |slaves|, p);
  }

  /** A write stores its data in the register of exactly the slaves meant that hear it, and comes back as it was. */
  lemma WriteReaches(target: TargetSlave, ado: u16, data: seq<byte>, slaves: seq<Memory>, hears: seq<bool>, after: seq<Memory>, reply: Reply)
    requires Returns(NewWrite(target, ado), data, slaves, hears, after, reply) && |slaves| <= 0x1_0000
    ensures reply.data == data && |after| == |slaves|
    ensures forall p {:trigger after[p]} :: 0 <= p < |slaves| ==>
      after[p] == if Party(target, slaves, hears, p) then Stored(slaves[p], ado, data) else slaves[p]
    ensures target.Single? && target.slave.SlavePosition? ==>
      reply.wkc == if Party(target, slaves, hears, target.slave.position) then 1 else 0
    ensures target.All? && reply.wkc == |slaves| ==> forall q :: 0 <= q < |slaves| ==> hears[q]
  {
    var c := NewWrite(target, ado);
    WriteStores(c, data, slaves, hears, |slaves|);
    WkcIsParties(c, data, slaves, hears, |slaves|);
    forall p | 0 <= p < |slaves| ensures Takes(c, slaves, hears, p) <==> Party(target, slaves, hears, p) {
      ActsIsMeant(target, ado, p, slaves[p]);
    }
    if target.All? {
      EverybodyTakes(c, slaves, hears, |slaves|);
      if reply.wkc == |slaves| {
        forall q | 0 <= q < |slaves| ensures hears[q] { assert Takes(c, slaves, hears, q); }
      }
    } else if target.slave.SlavePosition? {
      OneParty(c, slaves, hears, |slaves|, target.slave.position);
    }
  }

  /** An ARMW that nobody in front of slave f hears: f answers with its own register, and every slave behind it that
      hears the datagram stores that. */
  lemma {:induction false} MultipleWrite(c: Command, data: seq<byte>, slaves: seq<Memory>, hears: seq<bool>, n: nat, f: nat)
    requires |hears| == |slaves| <= 0x1_0000 && f < n <= |slaves| && c.ctype == ARMW
    requires hears[f] && (forall p :: 0 <= p < f ==> !hears[p])
    requires forall p :: 0 <= p < |slaves| ==> (Addressed(c.adp, p) <==> p == f)
    ensures var r := Pass(c, data, slaves, hears, n); var time := Load(slaves[f], c.ado, |data|);
      && r.data == time
      && forall p {:trigger r.slaves[p]} :: 0 <= p < |slaves| ==>
           r.slaves[p] == if f < p < n && hears[p] then Stored(slaves[p], c.ado, time) else slaves[p]
  {
    if f < n - 1 {
      MultipleWrite(c, data, slaves, hears, n - 1, f);
    } else {
      NobodyBefore(c, data, slaves, hears, f);
      assert slaves[f := slaves[f]] == slaves;
    }
  }

  lemma {:induction false} NobodyBefore(c: Command, data: seq<byte>, slaves: seq<Memory>, hears: seq<bool>, n: nat)
    requires |hears| == |slaves| && n <= |slaves| && forall p :: 0 <= p < n ==> !hears[p]
    ensures Pass(c, data, slaves, hears, n) == Passing(data, 0, slaves)
  {
    if n > 0 { NobodyBefore(c, data, slaves, hears, n - 1); }
  }
}
