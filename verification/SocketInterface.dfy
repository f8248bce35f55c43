/** The socket set on top of the staging buffer: `SocketInterface`, proved to take the polls of the socket model. */
module SocketInterfaces {
  import opened Bytes
  import opened Commands
  import opened Datagrams
  import opened Frames
  import opened IndexSets
  import opened PduInterfaces
  import opened Sockets
  import opened SocketRuns

  /** What a poll sees of the link, given the bytes it received. */
  ghost function EventOf(txReady: bool, rx: Option<seq<byte>>, answers: seq<Datagram>): Event
    requires rx.Some? ==> FRAME_HEADER <= |rx.value|
  {
    Event(txReady, if rx.None? then Nothing else if Accepted(rx.value) then Reply(answers) else Foreign)
  }

  /** A poll is done when everything was packed and everything packed has come back. */
  function Outcome(r: LinkResult, complete: bool): LinkResult {
    if r == Ready(true) then Ready(complete) else r
  }

  /** The staged bytes once the PDU of slot c has been taken. */
  function TotalAfter(n: Net, c: nat): nat
    requires AllOk(n.slots) && PendingAt(n.slots, c)
  {
    Total(n.staged + Requests(n.slots, c)) + PDU_HEADER + n.slots[c].value.dataLength + WKC_LENGTH
  }

  /** No PDU the packing pass takes ends exactly at the end of the buffer; there the stores meant for its working
      counter leave the buffer. */
  ghost predicate NoExactFit(n: Net, cap: nat, length: nat)
    requires AllOk(n.slots)
  {
    forall c :: 0 <= c < Cut(n, cap) && PendingAt(n.slots, c) ==> TotalAfter(n, c) != length
  }

  predicate SomeData(slots: Slots) {
    forall k :: 0 <= k < |slots| && slots[k].Some? && slots[k].value.Pending() ==> slots[k].value.dataLength >= 1
  }

  lemma TakenFits(n: Net, cap: nat, c: nat)
    requires AllOk(n.slots) && SomeData(n.slots) && c < Cut(n, cap) && PendingAt(n.slots, c)
    ensures TotalAfter(n, c) <= cap
  {
    if Blocks(n, c, cap) { CutAtMost(n, 0, cap, c); }
  }

  /** One socket whose PDU fills the capacity. */
  function FullSocket(cap: nat): Socket
    requires cap >= 13
  {
    Socket(Some(Command(BRD, 0, 0x130)), Zeros(cap - PDU_HEADER - WKC_LENGTH), 0, cap - PDU_HEADER - WKC_LENGTH, false)
  }

  /** In a buffer no longer than the capacity that socket alone makes the store leave the buffer. */
  lemma FullSocketExact(cap: nat)
    requires cap >= 13
    ensures var n := Net([Some(FullSocket(cap))], [], false);
      AllOk(n.slots) && Fitting(n.slots, cap) && SomeData(n.slots) && !NoExactFit(n, cap, cap)
  {
    var n := Net([Some(FullSocket(cap))], [], false);
    assert n.staged + Requests(n.slots, 0) == [];
    assert !Blocks(n, 0, cap);
    assert Cut(n, cap) == CutFrom(n, 1, cap) == 1;
    assert PendingAt(n.slots, 0) && TotalAfter(n, 0) == cap;
  }

  /** With the capacity the interface takes, no set of sockets can make the store leave the buffer if and only if
      the buffer is longer than the capacity, that is longer than 1498 bytes. */
  lemma NeverExactIff(cap: nat, length: nat)
    requires cap == (if length < MAX_ETHERCAT_DATAGRAM then length else MAX_ETHERCAT_DATAGRAM) && cap >= 13
    ensures cap < length <==> length > 1498
    ensures cap < length <==>
      forall n: Net :: AllOk(n.slots) && Fitting(n.slots, cap) ==> NoExactFit(n, cap, length)
  {
    if cap < length {
      forall n: Net | AllOk(n.slots) && Fitting(n.slots, cap) ensures NoExactFit(n, cap, length) {
        forall c | 0 <= c < Cut(n, cap) && PendingAt(n.slots, c) ensures TotalAfter(n, c) != length { TakenFits(n, cap, c); }
      }
    } else {
      FullSocketExact(cap);
    }
  }

  /** `Faulted` is an underflow of the remaining capacity or a store outside the buffer, which end the program. */
  datatype PassResult = Passed(complete: bool) | Faulted

  /** One slot of the pass: gone past, with or without a socket, out of room, or a fault. */
  datatype SlotStep = Went(occupied: bool) | NoRoom | Fault

  /** The coded pass has handled slot c without a fault. */
  ghost predicate CleanAt(n: Net, cap: nat, length: nat, c: int)
    requires AllOk(n.slots) && 0 <= c < |n.slots|
  {
    && (n.slots[c].Some? ==> RemainingAsCoded(cap, Total(n.staged + Requests(n.slots, c))).Some?)
    && (PendingAt(n.slots, c) ==> TotalAfter(n, c) != length)
  }

  /** The faults of the coded pass, in terms of the slots alone. */
  lemma CleanPass(n: Net, cap: nat, length: nat, i: nat)
    requires AllOk(n.slots) && i <= |n.slots| && i == Cut(n, cap)
    requires forall c :: 0 <= c < i ==> CleanAt(n, cap, length, c)
    requires i < |n.slots| && n.slots[i].Some? ==> RemainingAsCoded(cap, Total(n.staged + Requests(n.slots, i))).Some?
    ensures !PassFaults(n, cap) && NoExactFit(n, cap, length)
  {
    forall c | 0 <= c <= Cut(n, cap) && c < |n.slots| && n.slots[c].Some?
      ensures RemainingAsCoded(cap, Total(n.staged + Requests(n.slots, c))).Some?
    {
      if c < i { assert CleanAt(n, cap, length, c); }
    }
    forall c | 0 <= c < Cut(n, cap) && PendingAt(n.slots, c) ensures TotalAfter(n, c) != length {
      assert CleanAt(n, cap, length, c);
    }
  }

  class SocketInterface {
    const iface: PduInterface
    const sockets: IndexSet<Socket>

    ghost predicate Valid()
      reads this, iface, iface.buffer, sockets, sockets.items
    {
      (iface.Staging() || iface.InFlight()) && sockets.Valid() && AllOk(sockets.Contents())
    }

    /** No PDU without data is staged or waiting. */
    ghost predicate DataOnly()
      reads this, iface, sockets.items
    {
      AllNonEmpty(iface.staged) && SomeData(sockets.Contents())
    }

    ghost function View(): Net
      reads this, iface, sockets.items
    {
      Net(sockets.Contents(), iface.staged, iface.txCount > 0)
    }

    /** The interface stands at `n`, with data in every PDU. */
    ghost predicate StandsAt(n: Net)
      reads this, iface, iface.buffer, sockets, sockets.items
    {
      Valid() && DataOnly() && View() == n
    }

    constructor (iface: PduInterface, sockets: IndexSet<Socket>)
      requires iface.Staging() && iface.staged == [] && sockets.Valid() && AllOk(sockets.Contents())
      ensures Valid() && this.iface == iface && this.sockets == sockets && View() == Net(sockets.Contents(), [], false)
    {
      this.iface := iface;
      this.sockets := sockets;
    }

    /** `add_socket`: into a free slot, or back to the caller when there is none. While no socket was ever removed the
        sockets stay in the first slots. */
    method AddSocket(socket: Socket) returns (r: AddResult<Socket>)
      requires Valid() && socket.Ok()
      modifies sockets, sockets.items
      ensures Valid() && View().staged == old(View()).staged && View().inFlight == old(View()).inFlight
      ensures r.Full? <==> Held(old(View()).slots) == sockets.items.Length
      ensures r.Full? ==> View().slots == old(View()).slots
      ensures r.Added? ==> r.handle < |old(View()).slots| && old(View()).slots[r.handle].None?
      ensures r.Added? ==> View().slots == old(View()).slots[r.handle := Some(socket)]
      ensures old(Ascending(sockets.chain, sockets.items.Length)) ==> Ascending(sockets.chain, sockets.items.Length) && Prefix(View().slots)
    {
      r := sockets.AddItem(socket);
    }

    /** The pass that started in `n` has come to slot i, past `rank` sockets. */
    ghost predicate Packing(n: Net, i: nat, rank: nat)
      reads this, iface, iface.buffer, sockets, sockets.items
    {
      && Valid() && AllOk(n.slots) && i <= |n.slots| && rank == Rank(n.slots, i)
      && TakenUpTo(n.slots, sockets.Contents(), i) && Cut(n, iface.capacity) == CutFrom(n, i, iface.capacity)
      && iface.staged == n.staged + Requests(n.slots, i)
      && n.inFlight == (iface.txCount > 0) && (n.inFlight ==> Saturated(n, iface.capacity))
      && (AllNonEmpty(n.staged) && SomeData(n.slots) ==> DataOnly())
      && forall c :: 0 <= c < i ==> CleanAt(n, iface.capacity, iface.buffer.Length, c)
    }

    /** `enqueue_pdus`, as coded. No PDU may have been set while a frame is in flight. It takes the pass of the
        socket model, in which `add_pdu` never refuses, or the program ends: exactly when the capacity underflows or
        a PDU fits the buffer exactly. */
    method EnqueuePdus() returns (r: PassResult)
      requires Valid() && (iface.Staging() || Saturated(View(), iface.capacity))
      modifies iface, iface.buffer, sockets.items
      ensures r.Faulted? <==>
        PassFaults(old(View()), iface.capacity) || !NoExactFit(old(View()), iface.capacity, iface.buffer.Length)
      ensures r.Passed? ==> Valid() && EnqueueStep(old(View()), View(), r.complete, iface.capacity)
      ensures r.Passed? && old(DataOnly()) ==> DataOnly()
    {
      ghost var n := View();
      StartPacking();
      var rank := 0;
      var i := 0;
      while i < sockets.items.Length
        invariant 0 <= i <= |n.slots| == sockets.items.Length
        invariant Packing(n, i, rank)
      {
        var step := PackSlot(i, rank, n);
        match step {
          case Fault =>
            return Faulted;
          case NoRoom =>
            EndPacking(n, i, rank);
            return Passed(false);
          case Went(occupied) =>
            if occupied { rank := rank + 1; }
            i := i + 1;
        }
      }
      EndPacking(n, i, rank);
      return Passed(true);
    }

    lemma StartPacking()
      requires Valid() && (iface.Staging() || Saturated(View(), iface.capacity))
      ensures Packing(View(), 0, 0)
    {
      var n := View();
      assert n.staged + [] == n.staged;
      forall k | 0 <= k < |n.slots| ensures TakenAt(n.slots, n.slots, 0, k) { }
    }

    lemma EndPacking(n: Net, i: nat, rank: nat)
      requires Packing(n, i, rank)
      requires i < |n.slots| ==>
        Blocks(n, i, iface.capacity) && RemainingAsCoded(iface.capacity, Total(n.staged + Requests(n.slots, i))).Some?
      ensures EnqueueStep(n, View(), i == |n.slots|, iface.capacity)
      ensures !PassFaults(n, iface.capacity) && NoExactFit(n, iface.capacity, iface.buffer.Length)
    {
      CleanPass(n, iface.capacity, iface.buffer.Length, i);
    }

    /** The body of the loop. */
    method PackSlot(i: nat, rank: nat, ghost n: Net) returns (step: SlotStep)
      requires i < |n.slots| == sockets.items.Length && Packing(n, i, rank)
      modifies iface, iface.buffer, sockets.items
      ensures step.Went? ==> Packing(n, i + 1, rank + if step.occupied then 1 else 0)
      ensures step.NoRoom? ==> Packing(n, i, rank) && View() == old(View()) && Blocks(n, i, iface.capacity)
      ensures step.NoRoom? ==> RemainingAsCoded(iface.capacity, Total(n.staged + Requests(n.slots, i))).Some?
      ensures step.Fault? ==> PassFaults(n, iface.capacity) || !NoExactFit(n, iface.capacity, iface.buffer.Length)
    {
      ghost var before := sockets.Contents();
      assert TakenAt(n.slots, before, i, i);
      var item := sockets.GetItem(i);
      if item.None? {
        TakeOneMore(n.slots, before, sockets.Contents(), i);
        return Went(false);
      }
      var socket := item.value;
      var remaining := RemainingAsCoded(iface.capacity, iface.pdusTotalSize);
      if remaining.None? { return Fault; }
      if remaining.value < socket.Len() { return NoRoom; }
      assert !Blocks(n, i, iface.capacity);
      if socket.Pending() {
        assert i < Cut(n, iface.capacity) && PendingAt(n.slots, i);
        var inRange := Take(i, socket, rank);
        if !inRange { return Fault; }
      }
      TakeOneMore(n.slots, before, sockets.Contents(), i);
      return Went(true);
    }

    /** Moves the PDU of slot i into the staging buffer; false stands for a store outside it. */
    method Take(i: nat, socket: Socket, rank: nat) returns (inRange: bool)
      requires Valid() && iface.Staging() && PendingAt(sockets.Contents(), i) && sockets.Contents()[i] == Some(socket)
      requires iface.pdusTotalSize + PDU_HEADER + WKC_LENGTH + socket.Len() <= iface.capacity
      modifies iface, iface.buffer, sockets.items
      ensures inRange <==>
        old(Total(iface.staged)) + PDU_HEADER + socket.dataLength + WKC_LENGTH != iface.buffer.Length
      ensures inRange ==> Valid() && iface.Staging() && (old(DataOnly()) ==> DataOnly())
      ensures inRange ==> sockets.Contents() == old(sockets.Contents())[i := Some(socket.Taken())]
      ensures inRange ==> iface.staged == old(iface.staged) + [socket.Request(rank % 256)]
    {
      var data := socket.buf[..socket.dataLength];
      var updated := sockets.UpdateItem(i, socket.Taken());
      var added := iface.AddPdu(rank % 256, socket.command.value, data);
      return !added.OutOfRange?;
    }

    /** `transmit_and_receive` and the delivery loop. */
    method TransmitAndReceive(
      txReady: bool, rx: Option<seq<byte>>, ghost answers: seq<Datagram>, ghost complete: bool)
      returns (r: LinkResult, frame: Option<seq<byte>>)
      requires Valid() && DataOnly()
      requires rx.Some? ==> FRAME_HEADER <= |rx.value|
      requires iface.staged != [] && rx.Some? && Accepted(rx.value) ==> IsReply(rx.value, iface.staged, answers)
      modifies iface, iface.buffer, sockets.items
      ensures Valid() && DataOnly()
      ensures LinkStep(old(View()), EventOf(txReady, rx, answers), View(), complete, Outcome(r, complete))
      ensures frame.Some? ==> IsFrame(frame.value, old(iface.staged))
    {
      var tx;
      tx, frame := iface.TransmitOneFrame(txReady);
      if tx.NotAvailable? { return tx, frame; }
      r := iface.ReceiveOneFrame(rx, answers);
      if r != Ready(true) { return r, frame; }
      var pdus := iface.ConsumePdus();
      DeliverAll(pdus);
    }

    /** Hands every datagram to the socket its index names. */
    method DeliverAll(pdus: seq<Datagram>)
      requires sockets.Valid() && AllOk(sockets.Contents()) && SomeData(sockets.Contents())
      modifies sockets.items
      ensures sockets.Valid() && sockets.Contents() == Deliver(old(sockets.Contents()), pdus, |pdus|)
      ensures AllOk(sockets.Contents()) && SomeData(sockets.Contents())
    {
      var m := 0;
      while m < |pdus|
        invariant 0 <= m <= |pdus| && sockets.Valid() && sockets.Contents() == Deliver(old(sockets.Contents()), pdus, m)
        invariant AllOk(sockets.Contents()) && SomeData(sockets.Contents())
      {
        Hand(pdus[m]);
        m := m + 1;
      }
    }

    method Hand(a: Datagram)
      requires sockets.Valid() && AllOk(sockets.Contents()) && SomeData(sockets.Contents())
      modifies sockets.items
      ensures sockets.Valid() && sockets.Contents() == Handed(old(sockets.Contents()), a)
      ensures AllOk(sockets.Contents()) && SomeData(sockets.Contents())
    {
      var item := sockets.GetItem(a.index);
      if item.Some? {
        var updated := sockets.UpdateItem(a.index, item.value.Receive(a));
      }
    }

    /** `poll_tx_rx`: one poll of the socket model, or None where the program ends. A frame accepted in this poll
        answers what is staged once the packing pass is done. */
    method PollTxRx(txReady: bool, rx: Option<seq<byte>>, ghost answers: seq<Datagram>)
      returns (r: Option<LinkResult>, frame: Option<seq<byte>>)
      requires Valid() && DataOnly() && (iface.Staging() || Saturated(View(), iface.capacity))
      requires rx.Some? ==> FRAME_HEADER <= |rx.value|
      requires rx.Some? && Accepted(rx.value) ==> forall mid, complete ::
        EnqueueStep(View(), mid, complete, iface.capacity) && mid.staged != [] ==> IsReply(rx.value, mid.staged, answers)
      modifies iface, iface.buffer, sockets.items
      ensures r.None? <==>
        PassFaults(old(View()), iface.capacity) || !NoExactFit(old(View()), iface.capacity, iface.buffer.Length)
      ensures r.Some? ==> Valid() && DataOnly()
      ensures r.Some? ==> PollStep(old(View()), EventOf(txReady, rx, answers), View(), r.value, iface.capacity)
      ensures r.Some? && frame.Some? ==> exists mid, complete ::
        EnqueueStep(old(View()), mid, complete, iface.capacity) && IsFrame(frame.value, mid.staged)
    {
      ghost var n := View();
      var pass := EnqueuePdus();
      if pass.Faulted? { return None, None; }
      var complete := pass.complete;
      ghost var mid := View();
      assert EnqueueStep(n, mid, complete, iface.capacity);
      var link;
      link, frame := TransmitAndReceive(txReady, rx, answers, complete);
      assert LinkStep(mid, EventOf(txReady, rx, answers), View(), complete, Outcome(link, complete));
      r := Some(if link == Ready(true) then Ready(complete) else link);
    }
  }

  lemma TakeOneMore(slots0: Slots, before: Slots, after: Slots, i: nat)
    requires i < |slots0| && TakenUpTo(slots0, before, i)
    requires after == if PendingAt(slots0, i) then before[i := Some(slots0[i].value.Taken())] else before
    ensures TakenUpTo(slots0, after, i + 1)
  {
    var next := i + 1;
    forall k | 0 <= k < |slots0| ensures TakenAt(slots0, after, next, k) { assert TakenAt(slots0, before, i, k); }
  }
}
