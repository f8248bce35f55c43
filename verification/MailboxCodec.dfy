/** The mailbox header with its CoE/SDO payload: printer and parser. */
module MailboxCodec {
  import opened Bytes

  const MAILBOX_HEADER := 6
  const COE_HEADER := 2
  const SDO_HEADER := 4
  const SDO_AT := 12

  datatype MailboxType = ErrorType | AoE | EoE | CoEType | FoE | SoE | VoE | OtherType

  datatype Service = Emergency | SdoRequest | SdoResponse | OtherService(code: nat)

  datatype SdoReq = Download(data: seq<byte>) | Upload | Abort(code: u32) | OtherReq(specifier: nat)

  datatype SdoRes = DownloadDone | UploadData(data: seq<byte>) | OtherRes(specifier: nat)

  datatype CoE = EmergencyMessage(payload: seq<byte>) | Req(request: SdoReq) | Res(response: SdoRes) | UnsupportedService(code: nat)

  datatype Mailbox = ErrorMessage(detail: u16) | Message(index: u16, subIndex: byte, coe: CoE) | UnsupportedProtocol(mtype: MailboxType)

  datatype Parsed = Ok(mailbox: Mailbox) | LengthError

  // ------------------------------------------------------------------ fields

  function TypeOf(nibble: nat): MailboxType {
    if nibble == 0 then ErrorType else if nibble == 1 then AoE else if nibble == 2 then EoE
    else if nibble == 3 then CoEType else if nibble == 4 then FoE else if nibble == 5 then SoE
    else if nibble == 15 then VoE else OtherType
  }

  function ServiceOf(nibble: nat): Service {
    if nibble == 1 then Emergency else if nibble == 2 then SdoRequest else if nibble == 3 then SdoResponse
    else OtherService(nibble)
  }

  function Length(buf: seq<byte>): u16
    requires |buf| >= MAILBOX_HEADER
  {
    Word(buf[0], buf[1])
  }

  function Address(buf: seq<byte>): u16
    requires |buf| >= MAILBOX_HEADER
  {
    Word(buf[2], buf[3])
  }

  function Priority(buf: seq<byte>): nat
    requires |buf| >= MAILBOX_HEADER
  {
    buf[4] / 64
  }

  function Count(buf: seq<byte>): nat
    requires |buf| >= MAILBOX_HEADER
  {
    buf[5] / 16 % 8
  }

  /** `set_count` writes three bits. */
  function WithCount(buf: seq<byte>, count: byte): (r: seq<byte>)
    requires |buf| >= MAILBOX_HEADER
    ensures |r| == |buf| && Count(r) == count % 8
  {
    buf[5 := buf[5] / 128 * 128 + count % 8 * 16 + buf[5] % 16]
  }

  // ------------------------------------------------------------------ the parser

  /** `mailbox`. Every access is inside the bytes given, whatever they are: this function has no precondition. */
  function Parse(buf: seq<byte>): (r: Parsed)
    ensures |buf| < MAILBOX_HEADER ==> r.LengthError?
    ensures r.Ok? && r.mailbox.Message? ==> |buf| >= SDO_AT
  {
    if |buf| < MAILBOX_HEADER then LengthError
    else
      var body := buf[MAILBOX_HEADER..];
      match TypeOf(buf[5] % 16)
      case ErrorType => if |body| < 4 then LengthError else Ok(ErrorMessage(Word(body[2], body[3])))
      case CoEType =>
        if |buf| < MAILBOX_HEADER + COE_HEADER + SDO_HEADER then LengthError
        else
          var sdo := body[COE_HEADER..];
          var payload := sdo[SDO_HEADER..];
          var coe := match ServiceOf(body[1] / 16)
            case Emergency => if |payload| < 8 then None else Some(EmergencyMessage(payload))
            case SdoRequest => ParseRequest(sdo, payload)
            case SdoResponse => ParseResponse(sdo, payload)
            case OtherService(code) => Some(UnsupportedService(code));
          if coe.None? then LengthError else Ok(Message(Word(sdo[1], sdo[2]), sdo[3], coe.value))
      case other => Ok(UnsupportedProtocol(other))
  }

  function ParseRequest(sdo: seq<byte>, payload: seq<byte>): Option<CoE>
    requires |sdo| >= SDO_HEADER && payload == sdo[SDO_HEADER..]
  {
    var specifier := sdo[0] / 32;
    if specifier == 1 then
      var data := Transfer(sdo[0], payload);
      if data.None? then None else Some(Req(Download(data.value)))
    else if specifier == 2 then Some(Req(Upload))
    else if specifier == 4 then
      if |sdo| < SDO_HEADER + 4 then None else Some(Req(Abort(DWord(payload))))
    else Some(Req(OtherReq(specifier)))
  }

  function ParseResponse(sdo: seq<byte>, payload: seq<byte>): Option<CoE>
    requires |sdo| >= SDO_HEADER && payload == sdo[SDO_HEADER..]
  {
    var specifier := sdo[0] / 32;
    if specifier == 2 then
      var data := Transfer(sdo[0], payload);
      if data.None? then None else Some(Res(UploadData(data.value)))
    else if specifier == 3 then Some(Res(DownloadDone))
    else Some(Res(OtherRes(specifier)))
  }

  /** The data of an expedited (up to four bytes) or a normal (size first) transfer. */
  function Transfer(command: byte, payload: seq<byte>): (r: Option<seq<byte>>)
    ensures r.Some? ==> |r.value| <= |payload|
  {
    if command / 2 % 2 == 1 then
      var size := 4 - command / 4 % 4;
      if |payload| < size then None else Some(payload[..size])
    else if |payload| < 4 then None
    else
      var size := DWord(payload);
      if |payload| < size + 4 then None else Some(payload[4..size + 4])
  }

  // ------------------------------------------------------------------ the printer

  /** A download or an upload request, the two messages the master prints. */
  datatype Request = DownloadRequest(index: u16, subIndex: byte, data: seq<byte>) | UploadRequest(index: u16, subIndex: byte) {
    function Payload(): nat {
      match this
      case DownloadRequest(_, _, data) => COE_HEADER + SDO_HEADER + 4 + |data|
      case UploadRequest(_, _) => COE_HEADER + SDO_HEADER + 4
    }

    /** The buffer must hold the headers, and the payload length must fit 16 bits. */
    predicate Printable(buf: seq<byte>) {
      && Payload() < 0x1_0000
      && |buf| >= (if DownloadRequest? then SDO_AT + 4 else SDO_AT)
    }

    function AsMailbox(): Mailbox {
      match this
      case DownloadRequest(index, sub, data) => Message(index, sub, Req(Download(data)))
      case UploadRequest(index, sub) => Message(index, sub, Req(Upload))
    }

    /** Whether the data fits the buffer; it is cut off silently otherwise. */
    predicate Fits(buf: seq<byte>) {
      DownloadRequest? ==> SDO_AT + 4 + |data| <= |buf|
    }
  }

  /** `buf` is `was` with the request printed over it: the bits it owns, and no others, are changed. */
  predicate IsPrinted(was: seq<byte>, req: Request, buf: seq<byte>)
    requires req.Printable(was)
  {
    && |buf| == |was|
    && buf[0] == Low(req.Payload()) && buf[1] == High(req.Payload())
    && buf[5] == was[5] / 16 * 16 + 3
    && buf[6] == 0 && buf[7] == 0x20 + was[7] / 2 % 8 * 2
    && buf[8] == (if req.DownloadRequest? then 0x21 else 0x40)
    && buf[9] == Low(req.index) && buf[10] == High(req.index) && buf[11] == req.subIndex
    && (forall k :: 2 <= k < 5 ==> buf[k] == was[k])
    && PayloadPrinted(was, req, buf)
  }

  predicate PayloadPrinted(was: seq<byte>, req: Request, buf: seq<byte>)
    requires |buf| == |was| && req.Printable(was)
  {
    match req
    case UploadRequest(_, _) => forall k :: SDO_AT <= k < |was| ==> buf[k] == was[k]
    case DownloadRequest(_, _, data) =>
      && buf[SDO_AT..SDO_AT + 4] == DWordBytes(|data|)
      && forall k :: SDO_AT + 4 <= k < |was| ==>
           buf[k] == if k - SDO_AT - 4 < |data| then data[k - SDO_AT - 4] else was[k]
  }

  /** `set_mailbox` for the two requests the master sends. */
  method SetMailbox(buf: array<byte>, req: Request)
    requires req.Printable(buf[..])
    modifies buf
    ensures IsPrinted(old(buf[..]), req, buf[..])
  {
    ghost var was := buf[..];
    SetHeaders(buf, req);
    match req {
      case DownloadRequest(_, _, data) =>
        var size := DWordBytes(|data|);
        buf[SDO_AT], buf[SDO_AT + 1], buf[SDO_AT + 2], buf[SDO_AT + 3] := size[0], size[1], size[2], size[3];
        ghost var headers := buf[..];
        var i := 0;
        while i < |data| && SDO_AT + 4 + i < buf.Length
          invariant 0 <= i <= |data| && SDO_AT + 4 + i <= buf.Length
          invariant forall k :: 0 <= k < SDO_AT + 4 ==> buf[k] == headers[k]
          invariant forall k :: SDO_AT + 4 <= k < SDO_AT + 4 + i ==> buf[k] == data[k - SDO_AT - 4]
          invariant forall k :: SDO_AT + 4 + i <= k < buf.Length ==> buf[k] == was[k]
        {
          buf[SDO_AT + 4 + i] := data[i];
          i := i + 1;
        }
        assert buf[SDO_AT..SDO_AT + 4] == size;
      case UploadRequest(_, _) =>
    }
  }

  method SetHeaders(buf: array<byte>, req: Request)
    requires req.Printable(buf[..])
    modifies buf
    ensures buf[0] == Low(req.Payload()) && buf[1] == High(req.Payload())
    ensures buf[5] == old(buf[5]) / 16 * 16 + 3
    ensures buf[6] == 0 && buf[7] == 0x20 + old(buf[7]) / 2 % 8 * 2
    ensures buf[8] == (if req.DownloadRequest? then 0x21 else 0x40)
    ensures buf[9] == Low(req.index) && buf[10] == High(req.index) && buf[11] == req.subIndex
    ensures forall k :: 2 <= k < 5 || SDO_AT <= k < buf.Length ==> buf[k] == old(buf[k])
  {
    buf[5] := buf[5] / 16 * 16 + 3;
    buf[6] := 0;
    buf[7] := buf[7] / 2 * 2;
    buf[7] := buf[7] % 16 + 0x20;
    buf[8] := if req.DownloadRequest? then 0x21 else 0x40;
    buf[9], buf[10], buf[11] := Low(req.index), High(req.index), req.subIndex;
    buf[0], buf[1] := Low(req.Payload()), High(req.Payload());
  }

  // ------------------------------------------------------------------ round trip

  /** Parsing a printed request gives it back exactly when its data fits the buffer, whatever the buffer held
      before; otherwise the parser reports a length error. */
  lemma RoundTrip(was: seq<byte>, req: Request, buf: seq<byte>)
    requires req.Printable(was) && IsPrinted(was, req, buf)
    ensures Parse(buf) == if req.Fits(was) then Ok(req.AsMailbox()) else LengthError
  {
    var body := buf[MAILBOX_HEADER..];
    var sdo := body[COE_HEADER..];
    var payload := sdo[SDO_HEADER..];
    assert payload == buf[SDO_AT..];
    assert body[1] == buf[7] && sdo[0] == buf[8] && sdo[1] == buf[9] && sdo[2] == buf[10] && sdo[3] == buf[11];
    assert TypeOf(buf[5] % 16) == CoEType && ServiceOf(body[1] / 16) == SdoRequest;
    WordOfHalves(req.index);
    if req.DownloadRequest? {
      SizedTransfer(0x21, buf, req.data);
      if req.Fits(was) { PrintedData(was, req, buf); }
    }
  }

  lemma SizedTransfer(command: byte, buf: seq<byte>, data: seq<byte>)
    requires command / 2 % 2 == 0
    requires |buf| >= SDO_AT + 4 && |data| < 0x1_0000 && buf[SDO_AT..SDO_AT + 4] == DWordBytes(|data|)
    ensures Transfer(command, buf[SDO_AT..]) ==
      if |buf| < SDO_AT + 4 + |data| then None else Some(buf[SDO_AT + 4..SDO_AT + 4 + |data|])
  {
    var payload := buf[SDO_AT..];
    var size := buf[SDO_AT..SDO_AT + 4];
    assert payload[0] == size[0] && payload[1] == size[1] && payload[2] == size[2] && payload[3] == size[3];
    assert DWord(payload) == DWord(size);
    DWordRoundTrip(|data|);
    if SDO_AT + 4 + |data| <= |buf| {
      assert payload[4..|data| + 4] == buf[SDO_AT + 4..SDO_AT + 4 + |data|];
    }
  }

  lemma PrintedData(was: seq<byte>, req: Request, buf: seq<byte>)
    requires req.Printable(was) && IsPrinted(was, req, buf) && req.DownloadRequest? && req.Fits(was)
    ensures buf[SDO_AT + 4..SDO_AT + 4 + |req.data|] == req.data
  {
  }

  /** Length is set; address, priority and count are left alone. */
  lemma PrintedHeader(was: seq<byte>, req: Request, buf: seq<byte>)
    requires req.Printable(was) && IsPrinted(was, req, buf)
    ensures Length(buf) == req.Payload()
    ensures Address(buf) == Address(was) && Priority(buf) == Priority(was) && Count(buf) == Count(was)
  {
    TypeKeepsCount(was[5]);
    WordOfHalves(req.Payload());
    assert buf[2] == was[2] && buf[3] == was[3] && buf[4] == was[4];
    assert buf[5] == was[5] / 16 * 16 + 3;
  }

  lemma TypeKeepsCount(b: byte)
    ensures (b / 16 * 16 + 3) / 16 % 8 == b / 16 % 8
  {
    assert (b / 16 * 16 + 3) / 16 == b / 16;
  }

  /** Setting the count before or after printing gives the same bytes. */
  lemma CountCommutes(was: seq<byte>, req: Request, count: byte, first: seq<byte>, last: seq<byte>)
    requires req.Printable(was) && IsPrinted(WithCount(was, count), req, first) && IsPrinted(was, req, last)
    ensures first == WithCount(last, count)
  {
    var counted := WithCount(was, count);
    CountBits(was[5], count);
    forall k | SDO_AT <= k < |was| ensures first[k] == last[k] {
    }
    assert first[5] == WithCount(last, count)[5];
    assert forall k :: 0 <= k < SDO_AT && k != 5 ==> first[k] == last[k];
  }

  lemma CountBits(b: byte, count: byte)
    ensures (b / 128 * 128 + count % 8 * 16 + b % 16) / 16 * 16 + 3 ==
      (b / 16 * 16 + 3) / 128 * 128 + count % 8 * 16 + (b / 16 * 16 + 3) % 16
  {
    var high, mid, low, c := b / 128, b / 16 % 8, b % 16, count % 8;
    assert b / 16 == 8 * high + mid;
    DivUnique(b / 128 * 128 + c * 16 + low, 16, 8 * high + c, low);
    DivUnique(b / 16 * 16 + 3, 128, high, 16 * mid + 3);
    DivUnique(b / 16 * 16 + 3, 16, 8 * high + mid, 3);
  }

  // ------------------------------------------------------------------ other messages

  /** Where the parser finds the parts of the messages the master does not print: mailbox errors, SDO aborts, emergencies
      and download confirmations; each needs its bytes to be there. */
  lemma OtherMessages(buf: seq<byte>)
    requires |buf| >= MAILBOX_HEADER
    ensures buf[5] % 16 == 0 ==> Parse(buf) == if |buf| < 10 then LengthError else Ok(ErrorMessage(Word(buf[8], buf[9])))
    ensures buf[5] % 16 == 2 ==> Parse(buf) == Ok(UnsupportedProtocol(EoE))
    ensures buf[5] % 16 == 3 && |buf| < SDO_AT ==> Parse(buf) == LengthError
    ensures buf[5] % 16 == 3 && |buf| >= SDO_AT ==> ParsedSdo(buf)
  {
    if buf[5] % 16 == 3 && |buf| >= SDO_AT { SdoParts(buf); }
  }

  predicate ParsedSdo(buf: seq<byte>)
    requires |buf| >= SDO_AT
  {
    var service, specifier, index := buf[7] / 16, buf[8] / 32, Word(buf[9], buf[10]);
    && (service == 1 ==>
          Parse(buf) == if |buf| < SDO_AT + 8 then LengthError else Ok(Message(index, buf[11], EmergencyMessage(buf[SDO_AT..]))))
    && (service == 2 && specifier == 4 ==>
          Parse(buf) == if |buf| < SDO_AT + 4 then LengthError else Ok(Message(index, buf[11], Req(Abort(DWord(buf[SDO_AT..]))))))
    && (service == 3 && specifier == 3 ==> Parse(buf) == Ok(Message(index, buf[11], Res(DownloadDone))))
  }

  lemma SdoParts(buf: seq<byte>)
    requires |buf| >= SDO_AT && buf[5] % 16 == 3
    ensures ParsedSdo(buf)
  {
    var body := buf[MAILBOX_HEADER..];
    var sdo := body[COE_HEADER..];
    assert sdo[SDO_HEADER..] == buf[SDO_AT..];
    assert body[1] == buf[7] && sdo[0] == buf[8] && sdo[1] == buf[9] && sdo[2] == buf[10] && sdo[3] == buf[11];
  }

  // ------------------------------------------------------------------ responses

  /** A slave's answer to an upload, in the two forms of the SDO services. */
  predicate IsUploadResponse(buf: seq<byte>, index: u16, subIndex: byte, data: seq<byte>, expedited: bool) {
    && |buf| >= SDO_AT + 4 && buf[5] % 16 == 3 && buf[7] / 16 == 3
    && buf[9] == Low(index) && buf[10] == High(index) && buf[11] == subIndex
    && (if expedited then
          1 <= |data| <= 4 && buf[8] == 0x43 + (4 - |data|) * 4 && buf[SDO_AT..SDO_AT + |data|] == data
        else
          && |data| < 0x1_0000 && SDO_AT + 4 + |data| <= |buf| && buf[8] == 0x41
          && buf[SDO_AT..SDO_AT + 4] == DWordBytes(|data|) && buf[SDO_AT + 4..SDO_AT + 4 + |data|] == data)
  }

  /** Either form gives the data back. */
  lemma UploadResponse(buf: seq<byte>, index: u16, subIndex: byte, data: seq<byte>, expedited: bool)
    requires IsUploadResponse(buf, index, subIndex, data, expedited)
    ensures Parse(buf) == Ok(Message(index, subIndex, Res(UploadData(data))))
  {
    var body := buf[MAILBOX_HEADER..];
    var sdo := body[COE_HEADER..];
    var payload := sdo[SDO_HEADER..];
    assert payload == buf[SDO_AT..];
    assert body[1] == buf[7] && sdo[0] == buf[8] && sdo[1] == buf[9] && sdo[2] == buf[10] && sdo[3] == buf[11];
    WordOfHalves(index);
    if expedited {
      assert payload[..|data|] == buf[SDO_AT..SDO_AT + |data|];
    } else {
      SizedTransfer(0x41, buf, data);
    }
  }

  // ------------------------------------------------------------------ the session count

  /** `increment_mb_count`. */
  function NextCount(count: nat): (r: nat)
    ensures 1 <= r <= 7 || count > 7
  {
    if count < 7 then count + 1 else 1
  }

  function CountAfter(k: nat): nat { if k == 0 then 0 else NextCount(CountAfter(k - 1)) }

  /** Counts run through 1..7 for ever. */
  lemma {:induction false} CountsCycle(k: nat)
    requires k > 0
    ensures CountAfter(k) == (k - 1) % 7 + 1
  {
    if k > 1 {
      CountsCycle(k - 1);
      NextRemainder(k - 2);
    }
  }

  /** Two exchanges carry the same count exactly when they are a multiple of seven apart. */
  lemma SameCountIff(j: nat, k: nat)
    requires 0 < j <= k
    ensures CountAfter(j) == CountAfter(k) <==> (k - j) % 7 == 0
  {
    CountsCycle(j);
    CountsCycle(k);
  }

  lemma NextRemainder(a: nat)
    ensures (a + 1) % 7 == if a % 7 == 6 then 0 else a % 7 + 1
  {
  }
}
