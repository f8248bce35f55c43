/** Datagram commands and slave addressing. */
module Commands {
  import opened Bytes

  datatype CommandType =
    NOP | APRD | APWR | APRW | FPRD | FPWR | FPRW | BRD | BWR | BRW | LRD | LWR | LRW | ARMW | FRMW | Invalid
  {
    function ToByte(): byte {
      match this
      case NOP => 0 case APRD => 1 case APWR => 2 case APRW => 3
      case FPRD => 4 case FPWR => 5 case FPRW => 6
      case BRD => 7 case BWR => 8 case BRW => 9
      case LRD => 10 case LWR => 11 case LRW => 12
      case ARMW => 13 case FRMW => 14 case Invalid => 15
    }

    /** `CommandType::from`: unknown codes become Invalid. */
    static function FromByte(b: byte): (c: CommandType)
      ensures c.ToByte() == b || (b > 15 && c == Invalid)
    {
      if b == 0 then NOP else if b == 1 then APRD else if b == 2 then APWR else if b == 3 then APRW
      else if b == 4 then FPRD else if b == 5 then FPWR else if b == 6 then FPRW
      else if b == 7 then BRD else if b == 8 then BWR else if b == 9 then BRW
      else if b == 10 then LRD else if b == 11 then LWR else if b == 12 then LRW
      else if b == 13 then ARMW else if b == 14 then FRMW else Invalid
    }
  }

  /** Every command is decoded from its code, and the codes are those of the EtherCAT datagram header. */
  lemma TypeRoundTrip(c: CommandType)
    ensures CommandType.FromByte(c.ToByte()) == c
    ensures c != Invalid ==> [NOP, APRD, APWR, APRW, FPRD, FPWR, FPRW, BRD, BWR, BRW, LRD, LWR, LRW, ARMW, FRMW][c.ToByte()] == c
  {
  }

  datatype Command = Command(ctype: CommandType, adp: u16, ado: u16)

  datatype SlaveAddress = StationAddress(address: u16) | SlavePosition(position: u16) {
    function Adp(): u16 {
      match this
      case StationAddress(a) => a
      case SlavePosition(p) => ApAdp(p)
    }
  }

  datatype TargetSlave = Single(slave: SlaveAddress) | All(count: u16)

  const DEFAULT_COMMAND := Command(APRD, 0, 0)

  function NewRead(target: TargetSlave, ado: u16): Command {
    match target
    case Single(SlavePosition(p)) => Command(APRD, ApAdp(p), ado)
    case Single(StationAddress(a)) => Command(FPRD, a, ado)
    case All(_) => Command(BRD, 0, ado)
  }

  function NewWrite(target: TargetSlave, ado: u16): Command {
    match target
    case Single(SlavePosition(p)) => Command(APWR, ApAdp(p), ado)
    case Single(StationAddress(a)) => Command(FPWR, a, ado)
    case All(_) => Command(BWR, 0, ado)
  }

  /** The auto-increment address of a slave position: `get_ap_adp`. */
  function ApAdp(position: u16): u16 {
    if position == 0 then 0 else 0xFFFF - (position - 1)
  }

  /** The slave at `position` acts on an auto-increment datagram when the address it receives is zero; every
      slave before it has incremented the address once. */
  predicate Addressed(adp: u16, position: nat) {
    (adp + position) % 0x1_0000 == 0
  }

  /** An auto-increment address reaches exactly the slave at that position. */
  lemma ApAdpReaches(position: u16, k: u16)
    ensures Addressed(ApAdp(position), k) <==> k == position
  {
  }

  /** `new_logical_read_write` splits the logical address; the two halves give it back. */
  function NewLogicalReadWrite(address: u32): (c: Command)
    ensures c.ctype == LRW && c.adp + 0x1_0000 * c.ado == address
  {
    Command(LRW, address % 0x1_0000, address / 0x1_0000)
  }
}
