/** Sockets sharing one frame: which pending PDUs a poll packs, and where the replies go.

    A poll is a relation between states. */
module Sockets {
  import opened Bytes
  import opened Commands
  import opened Datagrams
  import opened PduInterfaces

  datatype Socket = Socket(command: Option<Command>, buf: seq<byte>, wkc: u16, dataLength: nat, recvFlag: bool) {
    predicate Ok() { dataLength <= |buf| }

    /** A PDU is set and has not been answered. */
    predicate Pending() { command.Some? && !recvFlag }

    /** `data_length`. */
    function Len(): nat { if command.Some? then dataLength else 0 }

    /** `take_pdu` leaves the buffer but removes the command. */
    function Taken(): Socket { this.(command := None) }

    function Request(tag: byte): Datagram
      requires command.Some? && Ok()
    {
      Datagram(command.value.ctype, tag, command.value.adp, command.value.ado, buf[..dataLength], 0)
    }

    /** `recieve`: the reply overwrites the front of the buffer. */
    function Receive(d: Datagram): Socket {
      Socket(Some(Command(d.ctype, d.adp, d.ado)), Overlay(buf, d.data), d.wkc, dataLength, true)
    }

    /** `get_recieved_pdu`. */
    function Received(): Option<(Command, seq<byte>, u16)>
      requires Ok()
    {
      if recvFlag && command.Some? then Some((command.value, buf[..dataLength], wkc)) else None
    }
  }

  /** A reply of the right length is what the task reads back. */
  lemma ReceivedIsReply(s: Socket, d: Datagram)
    requires s.Ok() && |d.data| == s.dataLength
    ensures s.Receive(d).Received() == Some((Command(d.ctype, d.adp, d.ado), d.data, d.wkc))
  {
    assert Overlay(s.buf, d.data)[..s.dataLength] == d.data;
  }

  type Slots = seq<Option<Socket>>

  datatype Net = Net(slots: Slots, staged: seq<Datagram>, inFlight: bool)

  /** What the link does during one poll. */
  datatype Rx = Nothing | Foreign | Reply(answers: seq<Datagram>)
  datatype Event = Event(txReady: bool, rx: Rx)

  predicate PendingAt(slots: Slots, k: int) {
    0 <= k < |slots| && slots[k].Some? && slots[k].value.Pending()
  }

  predicate AllOk(slots: Slots) {
    forall k :: 0 <= k < |slots| && slots[k].Some? ==> slots[k].value.Ok()
  }

  /** Position among the occupied slots; the tag a PDU is sent with. */
  function Rank(slots: Slots, k: nat): nat
    requires k <= |slots|
  {
    if k == 0 then 0 else Rank(slots, k - 1) + if slots[k - 1].Some? then 1 else 0
  }

  function RequestAt(slots: Slots, k: nat): Datagram
    requires PendingAt(slots, k) && slots[k].value.Ok()
  {
    slots[k].value.Request(Rank(slots, k) % 256)
  }

  /** The PDUs of the pending sockets among the first c slots. */
  function Requests(slots: Slots, c: nat): seq<Datagram>
    requires c <= |slots| && AllOk(slots)
  {
    if c == 0 then []
    else Requests(slots, c - 1) + if PendingAt(slots, c - 1) then [RequestAt(slots, c - 1)] else []
  }

  /** The room for data behind what is staged, with the subtraction stopped at zero. */
  function Remaining(cap: nat, total: nat): nat {
    if total + PDU_HEADER + WKC_LENGTH <= cap then cap - total - PDU_HEADER - WKC_LENGTH else 0
  }

  /** The packing loop stops at slot c: its PDU, pending or not, has no room. */
  predicate Blocks(n: Net, c: nat, cap: nat)
    requires c <= |n.slots| && AllOk(n.slots)
  {
    c < |n.slots| && n.slots[c].Some?
    && Remaining(cap, Total(n.staged + Requests(n.slots, c))) < n.slots[c].value.Len()
  }

  /** The slot at which the loop stops, or the number of slots. */
  function CutFrom(n: Net, c: nat, cap: nat): (r: nat)
    requires c <= |n.slots| && AllOk(n.slots)
    ensures c <= r <= |n.slots|
    decreases |n.slots| - c
  {
    if c == |n.slots| || Blocks(n, c, cap) then c else CutFrom(n, c + 1, cap)
  }

  function Cut(n: Net, cap: nat): (r: nat)
    requires AllOk(n.slots)
    ensures r <= |n.slots|
  {
    CutFrom(n, 0, cap)
  }

  predicate TakenAt(slots: Slots, slots': Slots, c: nat, k: int)
    requires 0 <= k < |slots| == |slots'|
  {
    slots'[k] == if k < c && PendingAt(slots, k) then Some(slots[k].value.Taken()) else slots[k]
  }

  predicate TakenUpTo(slots: Slots, slots': Slots, c: nat) {
    |slots'| == |slots| && forall k :: 0 <= k < |slots| ==> TakenAt(slots, slots', c, k)
  }

  /** `enqueue_pdus`. */
  ghost predicate EnqueueStep(n: Net, mid: Net, complete: bool, cap: nat) {
    && AllOk(n.slots)
    && var c := Cut(n, cap);
       TakenUpTo(n.slots, mid.slots, c) && mid.staged == n.staged + Requests(n.slots, c)
       && mid.inFlight == n.inFlight && complete == (c == |n.slots|)
  }

  /** A reply is handed to the slot whose index is its tag; with an empty slot it is dropped. */
  function Handed(slots: Slots, a: Datagram): (r: Slots)
    ensures |r| == |slots|
  {
    if a.index < |slots| && slots[a.index].Some? then slots[a.index := Some(slots[a.index].value.Receive(a))] else slots
  }

  function Deliver(slots: Slots, answers: seq<Datagram>, m: nat): (r: Slots)
    requires m <= |answers|
    ensures |r| == |slots|
  {
    if m == 0 then slots else Handed(Deliver(slots, answers, m - 1), answers[m - 1])
  }

  predicate LinkStep(mid: Net, ev: Event, n': Net, complete: bool, r: LinkResult) {
    if mid.staged == [] then n' == mid && r == Ready(complete)
    else if !mid.inFlight && !ev.txReady then n' == mid && r == NotAvailable
    else match ev.rx
      case Nothing => n' == mid.(inFlight := true) && r == NotAvailable
      case Foreign => n' == mid.(inFlight := true) && r == Ready(false)
      case Reply(answers) =>
        Answers(mid.staged, answers) && r == Ready(complete)
        && n' == Net(Deliver(mid.slots, answers, |answers|), [], false)
  }

  /** `poll_tx_rx`. */
  ghost predicate PollStep(n: Net, ev: Event, n': Net, r: LinkResult, cap: nat) {
    exists mid, complete :: EnqueueStep(n, mid, complete, cap) && LinkStep(mid, ev, n', complete, r)
  }

  /** The request/answer pairs a poll completes. */
  ghost function Completed(mid: Net, ev: Event): set<(Datagram, Datagram)> {
    if ev.rx.Reply? && |ev.rx.answers| == |mid.staged| && (mid.inFlight || ev.txReady)
    then set j | 0 <= j < |mid.staged| :: (mid.staged[j], ev.rx.answers[j]) else {}
  }

  // ------------------------------------------------------------------ the run invariant

  /** Answered: the link returned `a` for exactly the PDU this socket had set, and the socket holds it. */
  ghost predicate AnsweredAt(s0: Slots, n: Net, given: set<(Datagram, Datagram)>, k: int)
    requires PendingAt(s0, k) && AllOk(s0)
  {
    exists a :: (RequestAt(s0, k), a) in given && k < |n.slots| && n.slots[k] == Some(s0[k].value.Receive(a))
  }

  predicate StagedAt(s0: Slots, n: Net, k: int)
    requires PendingAt(s0, k) && AllOk(s0)
  {
    RequestAt(s0, k) in n.staged && k < |n.slots| && n.slots[k] == Some(s0[k].value.Taken())
  }

  ghost predicate SlotInv(s0: Slots, n: Net, given: set<(Datagram, Datagram)>, k: int)
    requires 0 <= k < |s0| == |n.slots| && AllOk(s0)
  {
    if PendingAt(s0, k) then n.slots[k] == s0[k] || StagedAt(s0, n, k) || AnsweredAt(s0, n, given, k)
    else n.slots[k] == s0[k]
  }

  /** A staged PDU belongs to the slot its tag names. */
  predicate OwnedAt(s0: Slots, n: Net, j: int)
    requires 0 <= j < |n.staged| && AllOk(s0)
  {
    var k := n.staged[j].index;
    PendingAt(s0, k) && n.staged[j] == RequestAt(s0, k) && k < |n.slots| && n.slots[k] == Some(s0[k].value.Taken())
  }

  predicate Increasing(ds: seq<Datagram>) {
    forall i, j :: 0 <= i < j < |ds| ==> ds[i].index < ds[j].index
  }

  /** While PDUs are staged, another packing pass would add nothing. */
  ghost predicate Saturated(n: Net, cap: nat) {
    AllOk(n.slots) && forall k :: 0 <= k < Cut(n, cap) ==> !PendingAt(n.slots, k)
  }

  ghost predicate Inv(s0: Slots, n: Net, given: set<(Datagram, Datagram)>, cap: nat) {
    && AllOk(s0) && |n.slots| == |s0|
    && (forall k :: 0 <= k < |s0| ==> SlotInv(s0, n, given, k))
    && (forall j :: 0 <= j < |n.staged| ==> OwnedAt(s0, n, j))
    && Increasing(n.staged)
    && (n.staged != [] ==> Saturated(n, cap))
  }

  // ------------------------------------------------------------------ ranks and requests

  /** Every pending PDU is sent with the index of its own slot as tag; replies are delivered by tag. */
  ghost predicate Tagged(slots: Slots) {
    forall k :: PendingAt(slots, k) ==> Rank(slots, k) % 256 == k
  }

  lemma TagIsSlot(slots: Slots, k: nat)
    requires Tagged(slots) && PendingAt(slots, k) && AllOk(slots)
    ensures RequestAt(slots, k) == slots[k].value.Request(k) && RequestAt(slots, k).index == k
  {
  }

  /** What the first c slots contribute. */
  lemma {:induction false} RequestsAre(slots: Slots, c: nat)
    requires Tagged(slots) && AllOk(slots) && c <= |slots|
    ensures var ds := Requests(slots, c);
      && Increasing(ds)
      && (forall j :: 0 <= j < |ds| ==> RequestOf(slots, ds, j) && ds[j].index < c)
      && (forall k :: 0 <= k < c && PendingAt(slots, k) ==> RequestAt(slots, k) in ds)
  {
    if c > 0 {
      RequestsAre(slots, c - 1);
      var before, ds := Requests(slots, c - 1), Requests(slots, c);
      if PendingAt(slots, c - 1) {
        TagIsSlot(slots, c - 1);
        forall j | 0 <= j < |ds| ensures RequestOf(slots, ds, j) && ds[j].index < c {
          if j < |before| { assert RequestOf(slots, before, j) && ds[j] == before[j]; }
        }
      }
    }
  }

  predicate RequestOf(slots: Slots, ds: seq<Datagram>, j: int)
    requires 0 <= j < |ds| && AllOk(slots)
  {
    PendingAt(slots, ds[j].index) && ds[j] == RequestAt(slots, ds[j].index)
  }

  lemma {:induction false} RequestsNone(slots: Slots, c: nat)
    requires AllOk(slots) && c <= |slots| && forall k :: 0 <= k < c ==> !PendingAt(slots, k)
    ensures Requests(slots, c) == []
  {
    if c > 0 { RequestsNone(slots, c - 1); }
  }

  // ------------------------------------------------------------------ the packing pass

  lemma {:induction false} CutStops(n: Net, c: nat, cap: nat)
    requires c <= |n.slots| && AllOk(n.slots)
    ensures CutFrom(n, c, cap) < |n.slots| ==> Blocks(n, CutFrom(n, c, cap), cap)
    decreases |n.slots| - c
  {
    if c < |n.slots| && !Blocks(n, c, cap) { CutStops(n, c + 1, cap); }
  }

  lemma {:induction false} CutAtMost(n: Net, c: nat, cap: nat, b: nat)
    requires c <= b <= |n.slots| && AllOk(n.slots) && (b == |n.slots| || Blocks(n, b, cap))
    ensures CutFrom(n, c, cap) <= b
    decreases |n.slots| - c
  {
    if c < b && !Blocks(n, c, cap) { CutAtMost(n, c + 1, cap, b); }
  }

  /** After a pass, a second one stops no later and finds nothing pending: polling while a frame is in flight,
      or while the device is busy, stages nothing new. */
  lemma PassSaturates(n: Net, mid: Net, complete: bool, cap: nat)
    requires EnqueueStep(n, mid, complete, cap)
    ensures Saturated(mid, cap)
  {
    var c := Cut(n, cap);
    forall k | 0 <= k < |mid.slots| && mid.slots[k].Some? ensures mid.slots[k].value.Ok() {
      assert TakenAt(n.slots, mid.slots, c, k);
    }
    forall k | 0 <= k < c ensures !PendingAt(mid.slots, k) { assert TakenAt(n.slots, mid.slots, c, k); }
    RequestsNone(mid.slots, c);
    CutStops(n, 0, cap);
    if c < |n.slots| {
      assert TakenAt(n.slots, mid.slots, c, c);
      assert mid.staged + Requests(mid.slots, c) == mid.staged;
      assert Blocks(mid, c, cap);
    }
    CutAtMost(mid, 0, cap, c);
  }

  lemma SaturatedPass(n: Net, mid: Net, complete: bool, cap: nat)
    requires EnqueueStep(n, mid, complete, cap) && Saturated(n, cap)
    ensures mid == n
  {
    var c := Cut(n, cap);
    RequestsNone(n.slots, c);
    forall k | 0 <= k < |n.slots| ensures mid.slots[k] == n.slots[k] { assert TakenAt(n.slots, mid.slots, c, k); }
    assert mid.slots == n.slots && mid.staged == n.staged;
  }

  /** The pass keeps the invariant. */
  lemma EnqueueKeepsInv(s0: Slots, n: Net, given: set<(Datagram, Datagram)>, mid: Net, complete: bool, cap: nat)
    requires Tagged(s0) && Inv(s0, n, given, cap) && EnqueueStep(n, mid, complete, cap)
    ensures Inv(s0, mid, given, cap)
  {
    if n.staged != [] {
      SaturatedPass(n, mid, complete, cap);
    } else {
      FreshPass(s0, n, given, mid, complete, cap);
      PassSaturates(n, mid, complete, cap);
    }
  }

  /** Sockets come and go only outside a run, so tags stay right. */
  lemma TaggedKept(s0: Slots, n: Net, given: set<(Datagram, Datagram)>, cap: nat)
    requires Tagged(s0) && Inv(s0, n, given, cap)
    ensures Tagged(n.slots)
  {
    forall k | 0 <= k < |s0|
      ensures (n.slots[k].Some? <==> s0[k].Some?) && (PendingAt(n.slots, k) ==> PendingAt(s0, k))
    {
      assert SlotInv(s0, n, given, k);
    }
    forall k | PendingAt(n.slots, k) ensures Rank(n.slots, k) % 256 == k { SameRank(s0, n.slots, k); }
  }

  lemma {:induction false} SameRank(slots: Slots, slots': Slots, k: nat)
    requires k <= |slots| == |slots'| && forall i :: 0 <= i < |slots| ==> (slots'[i].Some? <==> slots[i].Some?)
    ensures Rank(slots', k) == Rank(slots, k)
  {
    if k > 0 { SameRank(slots, slots', k - 1); }
  }

  /** With nothing staged, a pending slot still holds the PDU it started with. */
  lemma PendingIsOriginal(s0: Slots, n: Net, given: set<(Datagram, Datagram)>, cap: nat, k: nat)
    requires Tagged(s0) && Inv(s0, n, given, cap) && AllOk(n.slots) && PendingAt(n.slots, k)
    ensures k < |s0| && n.slots[k] == s0[k] && PendingAt(s0, k)
    ensures RequestAt(n.slots, k) == RequestAt(s0, k) && RequestAt(s0, k).index == k
  {
    assert SlotInv(s0, n, given, k);
    TaggedKept(s0, n, given, cap);
    TagIsSlot(n.slots, k);
    TagIsSlot(s0, k);
  }

  lemma FreshPass(s0: Slots, n: Net, given: set<(Datagram, Datagram)>, mid: Net, complete: bool, cap: nat)
    requires Tagged(s0) && Inv(s0, n, given, cap) && n.staged == []
    requires EnqueueStep(n, mid, complete, cap)
    ensures forall k :: 0 <= k < |s0| ==> SlotInv(s0, mid, given, k)
    ensures forall j :: 0 <= j < |mid.staged| ==> OwnedAt(s0, mid, j)
    ensures Increasing(mid.staged) && |mid.slots| == |s0|
  {
    var c := Cut(n, cap);
    TaggedKept(s0, n, given, cap);
    RequestsAre(n.slots, c);
    assert mid.staged == Requests(n.slots, c);
    forall j | 0 <= j < |mid.staged| ensures OwnedAt(s0, mid, j) {
      var k := mid.staged[j].index;
      assert RequestOf(n.slots, mid.staged, j);
      PendingIsOriginal(s0, n, given, cap, k);
      assert TakenAt(n.slots, mid.slots, c, k);
    }
    forall k | 0 <= k < |s0| ensures SlotInv(s0, mid, given, k) {
      assert TakenAt(n.slots, mid.slots, c, k);
      assert SlotInv(s0, n, given, k);
      if k < c && PendingAt(n.slots, k) {
        PendingIsOriginal(s0, n, given, cap, k);
        assert StagedAt(s0, mid, k);
      } else if PendingAt(s0, k) && n.slots[k] != s0[k] {
        var a :| (RequestAt(s0, k), a) in given && n.slots[k] == Some(s0[k].value.Receive(a));
        assert mid.slots[k] == Some(s0[k].value.Receive(a));
        assert AnsweredAt(s0, mid, given, k);
      }
    }
  }

  // ------------------------------------------------------------------ delivery

  lemma {:induction false} DeliverAt(slots: Slots, answers: seq<Datagram>, m: nat, k: nat)
    requires m <= |answers| && Increasing(answers) && k < |slots|
    ensures (forall j :: 0 <= j < m ==> answers[j].index != k) ==> Deliver(slots, answers, m)[k] == slots[k]
    ensures forall j :: 0 <= j < m && answers[j].index == k && slots[k].Some? ==>
      Deliver(slots, answers, m)[k] == Some(slots[k].value.Receive(answers[j]))
  {
    if m > 0 { DeliverAt(slots, answers, m - 1, k); }
  }

  lemma AnswersIncreasing(sent: seq<Datagram>, answers: seq<Datagram>)
    requires Answers(sent, answers) && Increasing(sent)
    ensures Increasing(answers)
  {
    forall i, j | 0 <= i < j < |answers| ensures answers[i].index < answers[j].index {
      assert SameShape(sent[i], answers[i]) && SameShape(sent[j], answers[j]);
    }
  }

  lemma DeliverKeepsInv(s0: Slots, mid: Net, given: set<(Datagram, Datagram)>, ev: Event, n': Net, cap: nat)
    requires Tagged(s0) && Inv(s0, mid, given, cap)
    requires ev.rx.Reply? && Answers(mid.staged, ev.rx.answers) && (mid.inFlight || ev.txReady)
    requires n' == Net(Deliver(mid.slots, ev.rx.answers, |ev.rx.answers|), [], false)
    ensures Inv(s0, n', given + Completed(mid, ev), cap)
    ensures forall k :: 0 <= k < |s0| && PendingAt(s0, k) ==>
      n'.slots[k] == s0[k] || AnsweredAt(s0, n', given + Completed(mid, ev), k)
  {
    var answers, given' := ev.rx.answers, given + Completed(mid, ev);
    AnswersIncreasing(mid.staged, answers);
    forall k | 0 <= k < |s0|
      ensures SlotInv(s0, n', given', k)
      ensures PendingAt(s0, k) ==> n'.slots[k] == s0[k] || AnsweredAt(s0, n', given', k)
    {
      DeliverAt(mid.slots, answers, |answers|, k);
      assert SlotInv(s0, mid, given, k);
      if PendingAt(s0, k) && StagedAt(s0, mid, k) {
        StagedIsAnswered(s0, mid, given, ev, n', k);
      } else {
        NotStagedNotHit(s0, mid, answers, k);
        if PendingAt(s0, k) && mid.slots[k] != s0[k] {
          var a :| (RequestAt(s0, k), a) in given && mid.slots[k] == Some(s0[k].value.Receive(a));
          assert n'.slots[k] == Some(s0[k].value.Receive(a));
          assert AnsweredAt(s0, n', given', k);
        }
      }
    }
  }

  lemma StagedIsAnswered(s0: Slots, mid: Net, given: set<(Datagram, Datagram)>, ev: Event, n': Net, k: nat)
    requires Tagged(s0) && AllOk(s0) && |mid.slots| == |s0| && PendingAt(s0, k) && StagedAt(s0, mid, k)
    requires ev.rx.Reply? && Answers(mid.staged, ev.rx.answers) && (mid.inFlight || ev.txReady)
    requires Increasing(ev.rx.answers)
    requires n' == Net(Deliver(mid.slots, ev.rx.answers, |ev.rx.answers|), [], false)
    ensures AnsweredAt(s0, n', given + Completed(mid, ev), k)
  {
    var answers := ev.rx.answers;
    var j :| 0 <= j < |mid.staged| && mid.staged[j] == RequestAt(s0, k);
    TagIsSlot(s0, k);
    assert SameShape(mid.staged[j], answers[j]);
    DeliverAt(mid.slots, answers, |answers|, k);
    assert (mid.staged[j], answers[j]) in Completed(mid, ev);
    assert n'.slots[k] == Some(s0[k].value.Receive(answers[j]));
  }

  lemma NotStagedNotHit(s0: Slots, mid: Net, answers: seq<Datagram>, k: nat)
    requires AllOk(s0) && |mid.slots| == |s0| && k < |s0| && Answers(mid.staged, answers)
    requires forall j :: 0 <= j < |mid.staged| ==> OwnedAt(s0, mid, j)
    requires !(PendingAt(s0, k) && StagedAt(s0, mid, k))
    ensures forall j :: 0 <= j < |answers| ==> answers[j].index != k
  {
    forall j | 0 <= j < |answers| ensures answers[j].index != k {
      assert SameShape(mid.staged[j], answers[j]);
      assert OwnedAt(s0, mid, j);
    }
  }
}
