/** `Network`: the slave table filled by initialisation, and its two ways of addressing. */
module Networks {
  import opened Bytes
  import opened Commands
  import opened ProcessImage
  import opened SlaveInit

  /** A slave with its mailbox-state FMMU; outputs and inputs are configured later. */
  datatype NetSlave = NetSlave(info: Info, mailboxFmmu: Option<Fmmu>, mailboxCount: byte)

  /** `slave`: by position, or by station address counted from one. */
  function Lookup(slaves: seq<NetSlave>, address: SlaveAddress): Option<NetSlave> {
    match address
    case SlavePosition(n) => if n < |slaves| then Some(slaves[n]) else None
    case StationAddress(n) => if n == 0 || n > |slaves| then None else Some(slaves[n - 1])
  }

  /** Slave k was given station address k + 1. */
  predicate Numbered(slaves: seq<NetSlave>) {
    forall k :: 0 <= k < |slaves| ==> slaves[k].info.address == k + 1
  }

  /** In a numbered network the two lookups agree, and looking a slave up under its own station address finds it
      and no other. */
  lemma LookupsAgree(slaves: seq<NetSlave>, n: u16)
    requires Numbered(slaves)
    ensures n < 0xFFFF ==> Lookup(slaves, SlavePosition(n)) == Lookup(slaves, StationAddress(n + 1))
    ensures Lookup(slaves, StationAddress(0)) == None
    ensures var found := Lookup(slaves, StationAddress(n));
      forall k :: 0 <= k < |slaves| ==> (found == Some(slaves[k]) <==> slaves[k].info.address == n)
    ensures Lookup(slaves, StationAddress(n)).None? <==> forall k :: 0 <= k < |slaves| ==> slaves[k].info.address != n
  {
    if 1 <= n <= |slaves| { assert slaves[n - 1].info.address == n; }
  }

  class Network {
    const slaves: array<Option<NetSlave>>
    var pushCount: nat

    /** The table holds exactly these slaves, as a prefix. */
    ghost predicate Holds(contents: seq<NetSlave>)
      reads this, slaves
    {
      && |contents| == pushCount <= slaves.Length
      && forall i :: 0 <= i < slaves.Length ==> slaves[i] == if i < |contents| then Some(contents[i]) else None
    }

    constructor (slaves: array<Option<NetSlave>>)
      ensures this.slaves == slaves && pushCount == 0
    {
      this.slaves, pushCount := slaves, 0;
    }

    method Clear()
      modifies this, slaves
      ensures Holds([])
    {
      var i := 0;
      while i < slaves.Length
        invariant 0 <= i <= slaves.Length
        invariant forall k :: 0 <= k < i ==> slaves[k].None?
      {
        slaves[i] := None;
        i := i + 1;
      }
      pushCount := 0;
    }

    /** `push_slave` refuses exactly when the table is full. */
    method PushSlave(slave: NetSlave, ghost contents: seq<NetSlave>) returns (ok: bool)
      requires Holds(contents)
      modifies this, slaves
      ensures ok <==> |contents| < slaves.Length
      ensures Holds(if ok then contents + [slave] else contents)
    {
      if slaves.Length <= pushCount { return false; }
      slaves[pushCount] := Some(slave);
      pushCount := pushCount + 1;
      return true;
    }

    method Find(address: SlaveAddress, ghost contents: seq<NetSlave>) returns (r: Option<NetSlave>)
      requires Holds(contents)
      ensures r == Lookup(contents, address)
    {
      var n: int;
      match address {
        case SlavePosition(p) => n := p;
        case StationAddress(a) =>
          if a == 0 { return None; }
          n := a - 1;
      }
      if n < pushCount { return Some(slaves[n].value); }
      return None;
    }
  }
}
