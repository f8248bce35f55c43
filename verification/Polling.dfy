/** Polling until everything is answered: the loop of `block_on` over the sockets, joined to the runs of the socket
    model. */
module Polling {
  import opened Bytes
  import opened Commands
  import opened Datagrams
  import opened Frames
  import opened PduInterfaces
  import opened Sockets
  import opened SocketRuns
  import opened SocketInterfaces
  import opened GreedyPacking

  /** What the link offers in one poll. */
  datatype LinkInput = LinkInput(txReady: bool, rx: Option<seq<byte>>)

  ghost function AnswersOf(ev: Event): seq<Datagram> {
    if ev.rx.Reply? then ev.rx.answers else []
  }

  /** The bytes of a poll amount to the event: an accepted frame holds the replies to what is then staged. */
  ghost predicate Gives(input: LinkInput, ev: Event, n: Net, cap: nat) {
    && (input.rx.Some? ==> FRAME_HEADER <= |input.rx.value|)
    && ev == EventOf(input.txReady, input.rx, AnswersOf(ev))
    && (input.rx.Some? && Accepted(input.rx.value) ==> forall mid, complete ::
          EnqueueStep(n, mid, complete, cap) && mid.staged != [] ==> IsReply(input.rx.value, mid.staged, AnswersOf(ev)))
  }

  /** A run of polls on these inputs, from sockets whose tags are right. */
  ghost predicate Polled(s0: Slots, inputs: seq<LinkInput>, evs: seq<Event>, ns: seq<Net>, rs: seq<LinkResult>, cap: nat) {
    && AllOk(s0) && Tagged(s0) && Run(s0, ns, evs, rs, cap) && |inputs| == |evs|
    && forall i {:trigger inputs[i]} :: 0 <= i < |inputs| ==> Gives(inputs[i], evs[i], ns[i], cap)
  }

  /** Every socket that had a PDU pending hands its task a reply to it; every other socket is as it was. */
  ghost predicate AllRead(s0: Slots, n: Net, evs: seq<Event>, given: set<(Datagram, Datagram)>)
    requires AllOk(s0)
  {
    && AllAnswered(s0, n, given) && (forall p :: p in given ==> GivenBy(evs, |evs|, p))
    && forall k :: PendingAt(s0, k) ==> ReadsReply(s0, n.slots, given, k)
  }

  /** The task behind socket k is handed a reply the link gave to its PDU. */
  ghost predicate ReadsReply(s0: Slots, slots: Slots, given: set<(Datagram, Datagram)>, k: int)
    requires PendingAt(s0, k) && AllOk(s0)
  {
    exists a :: (RequestAt(s0, k), a) in given && k < |slots| && slots[k].Some? && slots[k].value.Ok()
      && slots[k].value.Received() == Some((Command(a.ctype, a.adp, a.ado), a.data, a.wkc))
  }

  /** Every PDU fits a frame, and as many replies have landed before poll t as sockets were pending. */
  ghost predicate Drained(s0: Slots, ns: seq<Net>, evs: seq<Event>, t: nat, cap: nat) {
    Fitting(s0, cap) && t <= |evs| < |ns| && Landings(ns, evs, t) >= PendingCount(s0, |s0|)
  }

  /** What a poll that returns true means for the tasks behind the sockets. */
  lemma DoneMeans(s0: Slots, ns: seq<Net>, evs: seq<Event>, rs: seq<LinkResult>, cap: nat, t: nat)
    returns (given: set<(Datagram, Datagram)>)
    requires AllOk(s0) && Tagged(s0) && Run(s0, ns, evs, rs, cap) && t < |rs| && rs[t] == Ready(true)
    ensures AllRead(s0, ns[t + 1], evs, given)
  {
    given := TrueMeansAnswered(s0, ns, evs, rs, cap, t);
    forall p | p in given ensures GivenBy(evs, |evs|, p) { assert GivenBy(evs, t + 1, p); }
    forall k | PendingAt(s0, k) ensures ReadsReply(s0, ns[t + 1].slots, given, k) {
      assert AnsweredAt(s0, ns[t + 1], given, k);
      var a :| (RequestAt(s0, k), a) in given && ns[t + 1].slots[k] == Some(s0[k].value.Receive(a));
      assert GivenBy(evs, |evs|, (RequestAt(s0, k), a));
      ReceivedIsReply(s0[k].value, a);
    }
  }

  /** The poll that leads from `n` to `n'` on this input, unless the program ends. */
  ghost predicate CanPoll(n: Net, input: LinkInput, ev: Event, n': Net, r: LinkResult, cap: nat) {
    && AllOk(n.slots) && (n.staged != [] ==> Saturated(n, cap))
    && Gives(input, ev, n, cap) && PollStep(n, ev, n', r, cap)
  }

  lemma NextPoll(s0: Slots, inputs: seq<LinkInput>, evs: seq<Event>, ns: seq<Net>, rs: seq<LinkResult>, cap: nat, t: nat)
    requires Polled(s0, inputs, evs, ns, rs, cap) && t < |inputs|
    ensures CanPoll(ns[t], inputs[t], evs[t], ns[t + 1], rs[t], cap)
  {
    var given := RunKeepsInv(s0, ns, evs, rs, cap, t);
    InvOk(s0, ns[t], given, cap);
    assert Gives(inputs[t], evs[t], ns[t], cap);
    assert PollStep(ns[t], evs[t], ns[t + 1], rs[t], cap);
  }

  /** A poll is determined by the state and the link. */
  lemma PollDetermined(n: Net, ev: Event, a: Net, r: LinkResult, b: Net, q: LinkResult, cap: nat)
    requires PollStep(n, ev, a, r, cap) && PollStep(n, ev, b, q, cap)
    ensures a == b && r == q
  {
    var mid, complete :| EnqueueStep(n, mid, complete, cap) && LinkStep(mid, ev, a, complete, r);
    var mid', complete' :| EnqueueStep(n, mid', complete', cap) && LinkStep(mid', ev, b, complete', q);
    forall k | 0 <= k < |n.slots| ensures mid.slots[k] == mid'.slots[k] {
      assert TakenAt(n.slots, mid.slots, Cut(n, cap), k) && TakenAt(n.slots, mid'.slots, Cut(n, cap), k);
    }
    assert mid.slots == mid'.slots && mid == mid';
  }

  // ------------------------------------------------------------------ the loop

  /** One poll of a run; None where the program ends. */
  method PollNext(sif: SocketInterface, input: LinkInput, ghost ev: Event, ghost n: Net, ghost n': Net, ghost r': LinkResult)
    returns (r: Option<LinkResult>)
    requires sif.StandsAt(n) && CanPoll(n, input, ev, n', r', sif.iface.capacity)
    modifies sif.iface, sif.iface.buffer, sif.sockets.items
    ensures r.None? <==> PollFails(n, sif.iface.capacity, sif.iface.buffer.Length)
    ensures r.Some? ==> sif.StandsAt(n') && r.value == r'
  {
    var frame;
    r, frame := sif.PollTxRx(input.txReady, input.rx, AnswersOf(ev));
    if r.Some? { PollDetermined(n, ev, sif.View(), r.value, n', r', sif.iface.capacity); }
  }

  /** The polls of a run, each of which can be made. */
  ghost predicate AllCanPoll(inputs: seq<LinkInput>, evs: seq<Event>, ns: seq<Net>, rs: seq<LinkResult>, cap: nat) {
    && |inputs| == |evs| == |rs| && |ns| == |evs| + 1
    && forall t {:trigger inputs[t]} :: 0 <= t < |inputs| ==> CanPoll(ns[t], inputs[t], evs[t], ns[t + 1], rs[t], cap)
  }

  lemma RunCanPoll(s0: Slots, inputs: seq<LinkInput>, evs: seq<Event>, ns: seq<Net>, rs: seq<LinkResult>, cap: nat)
    requires Polled(s0, inputs, evs, ns, rs, cap)
    ensures AllCanPoll(inputs, evs, ns, rs, cap)
  {
    forall t | 0 <= t < |inputs| ensures CanPoll(ns[t], inputs[t], evs[t], ns[t + 1], rs[t], cap) {
      NextPoll(s0, inputs, evs, ns, rs, cap, t);
    }
  }

  /** How the loop comes to an end: a poll returned true, the inputs ran out, or the program ended in a poll. */
  datatype PollOutcome = Done | OutOfInputs | ProgramEnds

  /** The first t polls went through. */
  ghost predicate WentThrough(ns: seq<Net>, t: nat, cap: nat, length: nat) {
    t < |ns| && forall u :: 0 <= u < t ==> AllOk(ns[u].slots) && !PollFails(ns[u], cap, length)
  }

  /** None of the first t polls returned true. */
  predicate NotYet(rs: seq<LinkResult>, t: nat) {
    t <= |rs| && forall u :: 0 <= u < t ==> rs[u] != Ready(true)
  }

  /** The loop made t polls and came to this end. */
  ghost predicate LoopEnds(outcome: PollOutcome, t: nat, ns: seq<Net>, rs: seq<LinkResult>, cap: nat, length: nat) {
    && |ns| == |rs| + 1 && t <= |rs| && WentThrough(ns, t, cap, length)
    && match outcome
       case Done => t > 0 && rs[t - 1] == Ready(true) && NotYet(rs, t - 1)
       case OutOfInputs => t == |rs| && NotYet(rs, t)
       case ProgramEnds => t < |rs| && NotYet(rs, t) && AllOk(ns[t].slots) && PollFails(ns[t], cap, length)
  }

  /** Polls up to the first one that returns true or ends the program. */
  method PollLoop(sif: SocketInterface, inputs: seq<LinkInput>, ghost evs: seq<Event>, ghost ns: seq<Net>, ghost rs: seq<LinkResult>)
    returns (outcome: PollOutcome, t: nat)
    requires AllCanPoll(inputs, evs, ns, rs, sif.iface.capacity) && sif.StandsAt(ns[0])
    modifies sif.iface, sif.iface.buffer, sif.sockets.items
    ensures LoopEnds(outcome, t, ns, rs, sif.iface.capacity, sif.iface.buffer.Length)
    ensures !outcome.ProgramEnds? ==> sif.StandsAt(ns[t])
  {
    t := 0;
    while t < |inputs|
      invariant t <= |inputs| && sif.StandsAt(ns[t])
      invariant WentThrough(ns, t, sif.iface.capacity, sif.iface.buffer.Length) && NotYet(rs, t)
    {
      var r := PollNext(sif, inputs[t], evs[t], ns[t], ns[t + 1], rs[t]);
      if r.None? { return ProgramEnds, t; }
      t := t + 1;
      if r.value == Ready(true) { return Done, t; }
    }
    return OutOfInputs, t;
  }

  /** The inputs determine when and how the loop ends. */
  lemma EndIsUnique(o: PollOutcome, t: nat, o': PollOutcome, t': nat, ns: seq<Net>, rs: seq<LinkResult>, cap: nat, length: nat)
    requires LoopEnds(o, t, ns, rs, cap, length) && LoopEnds(o', t', ns, rs, cap, length)
    ensures o == o' && t == t'
  {
  }

  /** What each end of the loop means. */
  lemma EndMeans(s0: Slots, evs: seq<Event>, ns: seq<Net>, rs: seq<LinkResult>, cap: nat, length: nat, outcome: PollOutcome, t: nat)
    returns (given: set<(Datagram, Datagram)>)
    requires AllOk(s0) && Tagged(s0) && Run(s0, ns, evs, rs, cap) && LoopEnds(outcome, t, ns, rs, cap, length)
    ensures outcome.Done? ==> AllRead(s0, ns[t], evs, given)
    ensures |rs| > 0 && Drained(s0, ns, evs, |rs| - 1, cap) ==> !outcome.OutOfInputs?
    ensures Roomy(s0, cap) && cap <= length ==> !outcome.ProgramEnds?
  {
    given := {};
    match outcome {
      case Done =>
        given := DoneMeans(s0, ns, evs, rs, cap, t - 1);
      case OutOfInputs =>
        if |rs| > 0 && Drained(s0, ns, evs, |rs| - 1, cap) { RunDrains(s0, ns, evs, rs, cap, |rs| - 1); }
      case ProgramEnds =>
        if Roomy(s0, cap) && cap <= length { RunNeverFaults(s0, ns, evs, rs, cap, length, t); }
    }
  }

  /** The polling loop of `block_on`, on a link whose behaviour is given poll by poll: it ends with the first poll that
      returns true, with the first one that ends the program, or when the inputs run out. When a poll returned true,
      every socket that had a PDU pending reads back a reply the link gave to that PDU, and the other sockets are as
      before. The inputs do not run out once as many replies have landed as sockets were pending, and the program
      does not end if every frame leaves 12 bytes. */
  method PollUntilDone(sif: SocketInterface, ghost s0: Slots, inputs: seq<LinkInput>, ghost evs: seq<Event>, ghost ns: seq<Net>,
                       ghost rs: seq<LinkResult>)
    returns (outcome: PollOutcome, t: nat, ghost given: set<(Datagram, Datagram)>)
    requires sif.StandsAt(Net(s0, [], false)) && Polled(s0, inputs, evs, ns, rs, sif.iface.capacity)
    modifies sif.iface, sif.iface.buffer, sif.sockets.items
    ensures LoopEnds(outcome, t, ns, rs, sif.iface.capacity, sif.iface.buffer.Length)
    ensures !outcome.ProgramEnds? ==> sif.StandsAt(ns[t])
    ensures outcome.Done? ==> AllRead(s0, ns[t], evs, given)
    ensures |inputs| > 0 && Drained(s0, ns, evs, |inputs| - 1, sif.iface.capacity) ==> !outcome.OutOfInputs?
    ensures Roomy(s0, sif.iface.capacity) && sif.iface.capacity <= sif.iface.buffer.Length ==> !outcome.ProgramEnds?
  {
    RunCanPoll(s0, inputs, evs, ns, rs, sif.iface.capacity);
    outcome, t := PollLoop(sif, inputs, evs, ns, rs);
    given := EndMeans(s0, evs, ns, rs, sif.iface.capacity, sif.iface.buffer.Length, outcome, t);
  }
}
