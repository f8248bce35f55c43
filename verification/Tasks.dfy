/** What the cyclic tasks share: replies, requests and errors. */
module Tasks {
  import opened Bytes
  import opened Commands

  datatype TaskError<E> = UnexpectedCommand | UnexpectedWkc(expected: u16, actual: u16) | Timeout | TaskSpecific(error: E)

  /** A PDU handed back to a task by `get_recieved_pdu`. */
  datatype Reply = Reply(command: Command, data: seq<byte>, wkc: u16)

  /** A reply belongs to the last request when command type and register address agree. */
  predicate Matches(sent: Command, got: Command) {
    got.ctype == sent.ctype && got.ado == sent.ado
  }

  /** One reply and the time at which the task sees it. */
  datatype Round = Round(reply: Reply, time: nat)

  const NANOS_PER_MILLI := 1_000_000

  /** SII ownership, written by the AL transfer and by the SII reader. */
  const SII_ACCESS := 0x0500

  /** `buf[..n].fill(0)`. */
  method FillZero(buf: array<byte>, n: nat)
    requires n <= buf.Length
    modifies buf
    ensures forall k :: 0 <= k < buf.Length ==> buf[k] == if k < n then 0 else old(buf[k])
  {
    var i := 0;
    while i < n
      invariant 0 <= i <= n
      invariant forall k :: 0 <= k < i ==> buf[k] == 0
      invariant forall k :: i <= k < buf.Length ==> buf[k] == old(buf[k])
    {
      buf[i] := 0;
      i := i + 1;
    }
  }

  /** Clears the front of the buffer and writes the request's fields into it. */
  method Put(buf: array<byte>, data: seq<byte>)
    requires |data| <= buf.Length
    modifies buf
    ensures buf[..|data|] == data
    ensures forall k :: |data| <= k < buf.Length ==> buf[k] == old(buf[k])
  {
    var i := 0;
    while i < |data|
      invariant 0 <= i <= |data|
      invariant forall k :: 0 <= k < i ==> buf[k] == data[k]
      invariant forall k :: |data| <= k < buf.Length ==> buf[k] == old(buf[k])
    {
      buf[i] := data[i];
      i := i + 1;
    }
  }
}

/** Mailbox SyncManager registers, shared by the two mailbox tasks. */
module SyncManagers {
  import opened Bytes
  import opened Commands

  const STATUS := 0x0805
  const ACTIVATION := 0x0806
  const PDI_CONTROL := 0x0807

  /** Status and activation bytes are read together. */
  const CHECK_SIZE := 2

  datatype SyncManager = SyncManager(number: byte, size: u16, start: u16) {
    function Register(base: u16): u16
      requires base <= PDI_CONTROL
    {
      base + number * 8
    }
  }

  datatype MailboxError = NoSlaveReaction | MailboxEmpty | MailboxAlreadyExisted | BufferSmall

  predicate Full(status: byte) { Bit(status, 3) }

  /** What `next_pdu` hands to the socket. */
  datatype Request = Request(command: Command, length: nat)
}
