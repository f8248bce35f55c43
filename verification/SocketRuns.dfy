/** Runs of polls under arbitrary link events: whose reply each socket holds, what is conserved, how runs end, and the
    faults of the coded packing pass. */
module SocketRuns {
  import opened Bytes
  import opened Datagrams
  import opened PduInterfaces
  import opened Sockets

  // ------------------------------------------------------------------ polls and runs

  /** Every poll keeps the invariant, whatever the link does. */
  lemma PollKeepsInv(s0: Slots, n: Net, given: set<(Datagram, Datagram)>, ev: Event, n': Net, r: LinkResult, cap: nat)
    returns (given': set<(Datagram, Datagram)>)
    requires Tagged(s0) && Inv(s0, n, given, cap) && PollStep(n, ev, n', r, cap)
    ensures given <= given' && Inv(s0, n', given', cap)
    // the answers added are answers the link gave in this poll
    ensures ev.rx.Reply? ==> forall p :: p in given' - given ==> p.1 in ev.rx.answers && SameShape(p.0, p.1)
    ensures !ev.rx.Reply? ==> given' == given
    ensures r == Ready(true) ==> AllAnswered(s0, n', given')
  {
    var mid, complete :| EnqueueStep(n, mid, complete, cap) && LinkStep(mid, ev, n', complete, r);
    EnqueueKeepsInv(s0, n, given, mid, complete, cap);
    if complete { CompleteTakesAll(n, mid, cap); }
    if mid.staged != [] && (mid.inFlight || ev.txReady) && ev.rx.Reply? {
      given' := given + Completed(mid, ev);
      DeliverKeepsInv(s0, mid, given, ev, n', cap);
      if complete { DeliveredAll(s0, mid, given, ev, n', cap); }
    } else {
      given' := given;
      SameSlotsInv(s0, mid, given, n', cap);
      if complete && mid.staged == [] { NothingLeft(s0, mid, given, cap); }
    }
  }

  lemma SameSlotsInv(s0: Slots, mid: Net, given: set<(Datagram, Datagram)>, n': Net, cap: nat)
    requires Inv(s0, mid, given, cap) && n'.slots == mid.slots && n'.staged == mid.staged
    ensures Inv(s0, n', given, cap)
  {
    forall k | 0 <= k < |s0| ensures SlotInv(s0, n', given, k) {
      assert SlotInv(s0, mid, given, k);
      if PendingAt(s0, k) && AnsweredAt(s0, mid, given, k) { assert AnsweredAt(s0, n', given, k); }
    }
    forall j | 0 <= j < |n'.staged| ensures OwnedAt(s0, n', j) { assert OwnedAt(s0, mid, j); }
    if mid.staged != [] { SameCut(mid, n', 0, cap); }
  }

  lemma {:induction false} SameCut(n: Net, n': Net, c: nat, cap: nat)
    requires c <= |n.slots| && AllOk(n.slots) && n'.slots == n.slots && n'.staged == n.staged
    ensures CutFrom(n', c, cap) == CutFrom(n, c, cap)
    decreases |n.slots| - c
  {
    if c < |n.slots| && !Blocks(n, c, cap) { SameCut(n, n', c + 1, cap); }
  }

  /** Every socket that had a PDU pending holds the reply to exactly that PDU; every other one is untouched. */
  ghost predicate AllAnswered(s0: Slots, n: Net, given: set<(Datagram, Datagram)>)
    requires AllOk(s0)
  {
    && |n.slots| == |s0|
    && forall k :: 0 <= k < |s0| ==> if PendingAt(s0, k) then AnsweredAt(s0, n, given, k) else n.slots[k] == s0[k]
  }

  lemma CompleteTakesAll(n: Net, mid: Net, cap: nat)
    requires EnqueueStep(n, mid, true, cap)
    ensures forall k :: 0 <= k < |mid.slots| ==> !PendingAt(mid.slots, k)
  {
    forall k | 0 <= k < |mid.slots| ensures !PendingAt(mid.slots, k) {
      assert TakenAt(n.slots, mid.slots, Cut(n, cap), k);
    }
  }

  lemma DeliveredAll(s0: Slots, mid: Net, given: set<(Datagram, Datagram)>, ev: Event, n': Net, cap: nat)
    requires Tagged(s0) && Inv(s0, mid, given, cap)
    requires ev.rx.Reply? && Answers(mid.staged, ev.rx.answers) && (mid.inFlight || ev.txReady)
    requires n' == Net(Deliver(mid.slots, ev.rx.answers, |ev.rx.answers|), [], false)
    requires forall k :: 0 <= k < |mid.slots| ==> !PendingAt(mid.slots, k)
    ensures AllAnswered(s0, n', given + Completed(mid, ev))
  {
    DeliverKeepsInv(s0, mid, given, ev, n', cap);
    AnswersIncreasing(mid.staged, ev.rx.answers);
    forall k | 0 <= k < |s0|
      ensures if PendingAt(s0, k) then AnsweredAt(s0, n', given + Completed(mid, ev), k) else n'.slots[k] == s0[k]
    {
      assert SlotInv(s0, n', given + Completed(mid, ev), k);
      assert SlotInv(s0, mid, given, k);
      if PendingAt(s0, k) && StagedAt(s0, mid, k) {
        StagedIsAnswered(s0, mid, given, ev, n', k);
      } else if PendingAt(s0, k) {
        assert !PendingAt(mid.slots, k);
        NotStagedNotHit(s0, mid, ev.rx.answers, k);
        DeliverAt(mid.slots, ev.rx.answers, |ev.rx.answers|, k);
      }
    }
  }

  lemma NothingLeft(s0: Slots, mid: Net, given: set<(Datagram, Datagram)>, cap: nat)
    requires Inv(s0, mid, given, cap) && mid.staged == []
    requires forall k :: 0 <= k < |mid.slots| ==> !PendingAt(mid.slots, k)
    ensures AllAnswered(s0, mid, given)
  {
    forall k | 0 <= k < |s0| ensures if PendingAt(s0, k) then AnsweredAt(s0, mid, given, k) else mid.slots[k] == s0[k] {
      assert SlotInv(s0, mid, given, k);
      assert !PendingAt(mid.slots, k);
    }
  }

  /** A run of polls from a state with nothing staged. */
  ghost predicate Run(s0: Slots, ns: seq<Net>, evs: seq<Event>, rs: seq<LinkResult>, cap: nat) {
    && |ns| == |evs| + 1 && |rs| == |evs| && ns[0] == Net(s0, [], false)
    && forall t {:trigger rs[t]} :: 0 <= t < |rs| ==> PollStep(ns[t], evs[t], ns[t + 1], rs[t], cap)
  }

  /** The pair was completed by one of the first t polls. */
  ghost predicate GivenBy(evs: seq<Event>, t: nat, p: (Datagram, Datagram)) {
    SameShape(p.0, p.1) && exists u :: 0 <= u < t <= |evs| && evs[u].rx.Reply? && p.1 in evs[u].rx.answers
  }

  lemma {:induction false} RunKeepsInv(s0: Slots, ns: seq<Net>, evs: seq<Event>, rs: seq<LinkResult>, cap: nat, t: nat)
    returns (given: set<(Datagram, Datagram)>)
    requires AllOk(s0) && Tagged(s0) && Run(s0, ns, evs, rs, cap) && t <= |rs|
    ensures Inv(s0, ns[t], given, cap) && forall p :: p in given ==> GivenBy(evs, t, p)
    ensures t > 0 && rs[t - 1] == Ready(true) ==> AllAnswered(s0, ns[t], given)
  {
    if t == 0 {
      given := {};
      forall k | 0 <= k < |s0| ensures SlotInv(s0, ns[0], given, k) { }
    } else {
      var before := RunKeepsInv(s0, ns, evs, rs, cap, t - 1);
      assert PollStep(ns[t - 1], evs[t - 1], ns[t], rs[t - 1], cap);
      given := PollKeepsInv(s0, ns[t - 1], before, evs[t - 1], ns[t], rs[t - 1], cap);
      forall p | p in given ensures GivenBy(evs, t, p) {
        if p in before { assert GivenBy(evs, t - 1, p); } else { assert p in given - before; }
      }
    }
  }

  /** Whenever a poll returns true, every socket that had a PDU pending at the start of the run holds the reply
      the link gave to that PDU, and no other socket has changed: for every run, with any number of busy,
      silent and foreign-frame polls in between. */
  lemma TrueMeansAnswered(s0: Slots, ns: seq<Net>, evs: seq<Event>, rs: seq<LinkResult>, cap: nat, t: nat)
    returns (given: set<(Datagram, Datagram)>)
    requires AllOk(s0) && Tagged(s0) && Run(s0, ns, evs, rs, cap)
    requires t < |rs| && rs[t] == Ready(true)
    ensures AllAnswered(s0, ns[t + 1], given) && forall p :: p in given ==> GivenBy(evs, t + 1, p)
  {
    given := RunKeepsInv(s0, ns, evs, rs, cap, t + 1);
  }

  // ------------------------------------------------------------------ conservation and progress

  function PendingCount(slots: Slots, c: nat): nat
    requires c <= |slots|
  {
    if c == 0 then 0 else PendingCount(slots, c - 1) + if PendingAt(slots, c - 1) then 1 else 0
  }

  function Waiting(n: Net): nat { PendingCount(n.slots, |n.slots|) }

  lemma {:induction false} RequestsCount(slots: Slots, c: nat)
    requires c <= |slots| && AllOk(slots)
    ensures |Requests(slots, c)| == PendingCount(slots, c)
  {
    if c > 0 { RequestsCount(slots, c - 1); }
  }

  lemma {:induction false} CountAfterTaking(slots: Slots, slots': Slots, c: nat, m: nat)
    requires TakenUpTo(slots, slots', c) && c <= |slots| && m <= |slots|
    ensures PendingCount(slots', m) + PendingCount(slots, if m < c then m else c) == PendingCount(slots, m)
    decreases m
  {
    if m > 0 {
      CountAfterTaking(slots, slots', c, m - 1);
      assert TakenAt(slots, slots', c, m - 1);
    }
  }

  lemma {:induction false} SameCount(slots: Slots, slots': Slots, m: nat)
    requires |slots'| == |slots| && m <= |slots| && forall k :: 0 <= k < m ==> (PendingAt(slots', k) <==> PendingAt(slots, k))
    ensures PendingCount(slots', m) == PendingCount(slots, m)
  {
    if m > 0 { SameCount(slots, slots', m - 1); }
  }

  /** No PDU is lost or duplicated by a packing pass: what stops waiting is staged. */
  lemma EnqueueConserves(n: Net, mid: Net, complete: bool, cap: nat)
    requires EnqueueStep(n, mid, complete, cap)
    ensures Waiting(mid) + |mid.staged| == Waiting(n) + |n.staged|
  {
    var c := Cut(n, cap);
    RequestsCount(n.slots, c);
    CountAfterTaking(n.slots, mid.slots, c, |n.slots|);
  }

  /** Delivery touches no waiting socket and leaves no other one waiting. */
  lemma DeliverKeepsPending(s0: Slots, mid: Net, given: set<(Datagram, Datagram)>, answers: seq<Datagram>, cap: nat)
    requires Tagged(s0) && Inv(s0, mid, given, cap) && Answers(mid.staged, answers)
    ensures var after := Deliver(mid.slots, answers, |answers|);
      forall k :: 0 <= k < |mid.slots| ==>
        (PendingAt(after, k) <==> PendingAt(mid.slots, k)) && (PendingAt(mid.slots, k) ==> after[k] == mid.slots[k])
  {
    var after := Deliver(mid.slots, answers, |answers|);
    AnswersIncreasing(mid.staged, answers);
    forall k | 0 <= k < |mid.slots|
      ensures (PendingAt(after, k) <==> PendingAt(mid.slots, k)) && (PendingAt(mid.slots, k) ==> after[k] == mid.slots[k])
    {
      DeliverAt(mid.slots, answers, |answers|, k);
      if PendingAt(s0, k) && StagedAt(s0, mid, k) {
        HitSlot(s0, mid, answers, k);
      } else {
        NotStagedNotHit(s0, mid, answers, k);
      }
    }
  }

  /** Delivery neither adds nor removes a waiting PDU. */
  lemma DeliverConserves(s0: Slots, mid: Net, given: set<(Datagram, Datagram)>, answers: seq<Datagram>, cap: nat)
    requires Tagged(s0) && Inv(s0, mid, given, cap) && Answers(mid.staged, answers)
    ensures PendingCount(Deliver(mid.slots, answers, |answers|), |mid.slots|) == Waiting(mid)
  {
    DeliverKeepsPending(s0, mid, given, answers, cap);
    SameCount(mid.slots, Deliver(mid.slots, answers, |answers|), |mid.slots|);
  }

  lemma HitSlot(s0: Slots, mid: Net, answers: seq<Datagram>, k: nat)
    requires Tagged(s0) && AllOk(s0) && |mid.slots| == |s0| && PendingAt(s0, k) && StagedAt(s0, mid, k)
    requires Answers(mid.staged, answers) && Increasing(answers)
    ensures Deliver(mid.slots, answers, |answers|)[k].Some?
    ensures Deliver(mid.slots, answers, |answers|)[k].value.recvFlag
  {
    var j :| 0 <= j < |mid.staged| && mid.staged[j] == RequestAt(s0, k);
    TagIsSlot(s0, k);
    assert SameShape(mid.staged[j], answers[j]);
    DeliverAt(mid.slots, answers, |answers|, k);
  }

  /** Every PDU fits a frame of its own, and a pending one is not empty. */
  predicate Fitting(slots: Slots, cap: nat) {
    && PDU_HEADER + WKC_LENGTH <= cap
    && forall k :: 0 <= k < |slots| && slots[k].Some? ==>
         slots[k].value.dataLength <= cap - PDU_HEADER - WKC_LENGTH
         && (slots[k].value.Pending() ==> slots[k].value.dataLength >= 1)
  }

  lemma FittingKept(s0: Slots, n: Net, given: set<(Datagram, Datagram)>, cap: nat)
    requires Fitting(s0, cap) && Inv(s0, n, given, cap)
    ensures Fitting(n.slots, cap) && AllOk(n.slots)
  {
    forall k | 0 <= k < |n.slots| && n.slots[k].Some?
      ensures n.slots[k].value.dataLength <= cap - PDU_HEADER - WKC_LENGTH && n.slots[k].value.Ok()
      ensures n.slots[k].value.Pending() ==> n.slots[k].value.dataLength >= 1
    {
      assert SlotInv(s0, n, given, k);
    }
  }

  /** With an empty staging area the pass reaches the first pending socket: idle and answered sockets before it
      cannot stop it. */
  lemma {:induction false} CutPassesIdle(n: Net, c: nat, p: nat, cap: nat)
    requires AllOk(n.slots) && Fitting(n.slots, cap) && n.staged == [] && c <= p <= |n.slots|
    requires forall k :: 0 <= k < p ==> !PendingAt(n.slots, k)
    ensures CutFrom(n, c, cap) >= p && (p < |n.slots| ==> CutFrom(n, c, cap) > p)
    decreases |n.slots| - c
  {
    if c < |n.slots| {
      RequestsNone(n.slots, c);
      assert n.staged + Requests(n.slots, c) == [];
      assert !Blocks(n, c, cap);
      if c < p { CutPassesIdle(n, c + 1, p, cap); }
    }
  }

  lemma {:induction false} FirstPending(slots: Slots, m: nat) returns (p: nat)
    requires m <= |slots| && PendingCount(slots, m) > 0
    ensures p < m && PendingAt(slots, p) && forall k :: 0 <= k < p ==> !PendingAt(slots, k)
  {
    if PendingCount(slots, m - 1) > 0 {
      p := FirstPending(slots, m - 1);
    } else {
      p := m - 1;
      NoneCounted(slots, m - 1);
    }
  }

  lemma {:induction false} NoneCounted(slots: Slots, m: nat)
    requires m <= |slots| && PendingCount(slots, m) == 0
    ensures forall k :: 0 <= k < m ==> !PendingAt(slots, k)
  {
    if m > 0 { NoneCounted(slots, m - 1); }
  }

  lemma {:induction false} CountMonotone(slots: Slots, a: nat, b: nat)
    requires a <= b <= |slots|
    ensures PendingCount(slots, a) <= PendingCount(slots, b)
    decreases b
  {
    if a < b { CountMonotone(slots, a, b - 1); }
  }

  /** PDUs still waiting in their sockets or on their way. */
  function Open(n: Net): nat { Waiting(n) + |n.staged| }

  /** The poll takes in the reply to what is, or is just being, sent. */
  predicate Lands(n: Net, ev: Event) { (n.inFlight || ev.txReady) && ev.rx.Reply? }

  /** With something open, a pass leaves something staged. */
  lemma PassStages(s0: Slots, n: Net, given: set<(Datagram, Datagram)>, mid: Net, complete: bool, cap: nat)
    requires Fitting(s0, cap) && Inv(s0, n, given, cap) && EnqueueStep(n, mid, complete, cap)
    ensures Open(n) > 0 ==> mid.staged != []
    ensures Open(n) == 0 ==> mid.staged == [] && complete
  {
    FittingKept(s0, n, given, cap);
    if n.staged == [] {
      if Waiting(n) > 0 {
        var p := FirstPending(n.slots, |n.slots|);
        CutPassesIdle(n, 0, p, cap);
        RequestsCount(n.slots, Cut(n, cap));
        CountMonotone(n.slots, p + 1, Cut(n, cap));
      } else {
        NoneCounted(n.slots, |n.slots|);
        CutPassesIdle(n, 0, |n.slots|, cap);
        RequestsNone(n.slots, |n.slots|);
      }
    }
  }

  /** Every poll, whatever the link does: what is open never grows, and shrinks whenever a reply lands. With nothing
      open the poll returns true. */
  lemma RoundProgress(s0: Slots, n: Net, given: set<(Datagram, Datagram)>, ev: Event, n': Net, r: LinkResult, cap: nat)
    requires Tagged(s0) && Fitting(s0, cap) && Inv(s0, n, given, cap) && PollStep(n, ev, n', r, cap)
    ensures Open(n') <= Open(n)
    ensures Lands(n, ev) && Open(n) > 0 ==> Open(n') < Open(n)
    ensures !Lands(n, ev) ==> Open(n') == Open(n)
    ensures Open(n) == 0 ==> r == Ready(true)
  {
    var mid, complete :| EnqueueStep(n, mid, complete, cap) && LinkStep(mid, ev, n', complete, r);
    EnqueueConserves(n, mid, complete, cap);
    EnqueueKeepsInv(s0, n, given, mid, complete, cap);
    PassStages(s0, n, given, mid, complete, cap);
    if mid.staged != [] && Lands(n, ev) { DeliverConserves(s0, mid, given, ev.rx.answers, cap); }
  }

  /** How many of the first t polls took in a reply. */
  function Landings(ns: seq<Net>, evs: seq<Event>, t: nat): nat
    requires t <= |evs| < |ns|
  {
    if t == 0 then 0 else Landings(ns, evs, t - 1) + if Lands(ns[t - 1], evs[t - 1]) then 1 else 0
  }

  /** In every run each reply that lands closes at least one of the PDUs that were pending at the start. */
  lemma {:induction false} RunDrainsBy(s0: Slots, ns: seq<Net>, evs: seq<Event>, rs: seq<LinkResult>, cap: nat, t: nat)
    requires AllOk(s0) && Tagged(s0) && Fitting(s0, cap) && Run(s0, ns, evs, rs, cap) && t <= |rs|
    ensures Open(ns[t]) == 0 || Open(ns[t]) + Landings(ns, evs, t) <= PendingCount(s0, |s0|)
  {
    if t > 0 {
      RunDrainsBy(s0, ns, evs, rs, cap, t - 1);
      var given := RunKeepsInv(s0, ns, evs, rs, cap, t - 1);
      assert PollStep(ns[t - 1], evs[t - 1], ns[t], rs[t - 1], cap);
      RoundProgress(s0, ns[t - 1], given, evs[t - 1], ns[t], rs[t - 1], cap);
    }
  }

  /** Whatever busy, silent and foreign polls lie between them: once as many replies have landed as sockets were
      pending, every further poll returns true. */
  lemma RunDrains(s0: Slots, ns: seq<Net>, evs: seq<Event>, rs: seq<LinkResult>, cap: nat, t: nat)
    requires AllOk(s0) && Tagged(s0) && Fitting(s0, cap) && Run(s0, ns, evs, rs, cap) && t < |rs|
    requires Landings(ns, evs, t) >= PendingCount(s0, |s0|)
    ensures rs[t] == Ready(true)
  {
    RunDrainsBy(s0, ns, evs, rs, cap, t);
    var given := RunKeepsInv(s0, ns, evs, rs, cap, t);
    assert PollStep(ns[t], evs[t], ns[t + 1], rs[t], cap);
    RoundProgress(s0, ns[t], given, evs[t], ns[t + 1], rs[t], cap);
  }

  // ------------------------------------------------------------------ the subtraction as coded

  /** The capacity computation as coded: an unsigned subtraction that faults below zero. */
  function RemainingAsCoded(cap: nat, total: nat): Option<nat> {
    if total + PDU_HEADER + WKC_LENGTH <= cap then Some(cap - total - PDU_HEADER - WKC_LENGTH) else None
  }

  /** The coded pass evaluates the capacity at every occupied slot it reaches. */
  ghost predicate PassFaults(n: Net, cap: nat)
    requires AllOk(n.slots)
  {
    exists c :: 0 <= c <= Cut(n, cap) && c < |n.slots| && n.slots[c].Some?
      && RemainingAsCoded(cap, Total(n.staged + Requests(n.slots, c))).None?
  }

  /** The bytes in front of slot d leave no room for another datagram header. */
  predicate Crowded(n: Net, d: nat, cap: nat)
    requires AllOk(n.slots) && d < |n.slots|
  {
    n.slots[d].Some? && Total(n.staged + Requests(n.slots, d)) + PDU_HEADER + WKC_LENGTH > cap
  }

  /** The PDU of slot e, pending or not, has room behind the bytes in front of it. */
  predicate HasRoom(n: Net, e: nat, cap: nat)
    requires AllOk(n.slots) && e < |n.slots|
  {
    n.slots[e].Some? ==> Total(n.staged + Requests(n.slots, e)) + PDU_HEADER + WKC_LENGTH + n.slots[e].value.Len() <= cap
  }

  /** The coded pass underflows exactly when some occupied slot is crowded and every occupied slot before it has
      room for its PDU. */
  lemma PassFaultsIff(n: Net, cap: nat)
    requires AllOk(n.slots)
    ensures PassFaults(n, cap) <==>
      exists d :: 0 <= d < |n.slots| && Crowded(n, d, cap) && forall e :: 0 <= e < d ==> HasRoom(n, e, cap)
  {
    if PassFaults(n, cap) {
      var c :| 0 <= c <= Cut(n, cap) && c < |n.slots| && n.slots[c].Some?
        && RemainingAsCoded(cap, Total(n.staged + Requests(n.slots, c))).None?;
      assert Crowded(n, c, cap);
      var d := FirstCrowded(n, c, cap);
      forall e | 0 <= e < d ensures HasRoom(n, e, cap) {
        assert !Crowded(n, e, cap);
        if Blocks(n, e, cap) { CutAtMost(n, 0, cap, e); }
      }
    }
    if d :| 0 <= d < |n.slots| && Crowded(n, d, cap) && forall e :: 0 <= e < d ==> HasRoom(n, e, cap) {
      CutReaches(n, 0, d, cap);
    }
  }

  lemma {:induction false} FirstCrowded(n: Net, c: nat, cap: nat) returns (d: nat)
    requires AllOk(n.slots) && c < |n.slots| && Crowded(n, c, cap)
    ensures d <= c && Crowded(n, d, cap) && forall e :: 0 <= e < d ==> !Crowded(n, e, cap)
  {
    if e :| 0 <= e < c && Crowded(n, e, cap) {
      d := FirstCrowded(n, e, cap);
    } else {
      d := c;
    }
  }

  lemma {:induction false} CutReaches(n: Net, c: nat, d: nat, cap: nat)
    requires AllOk(n.slots) && c <= d < |n.slots| && forall e :: 0 <= e < d ==> HasRoom(n, e, cap)
    ensures CutFrom(n, c, cap) >= d
    decreases d - c
  {
    if c < d {
      assert HasRoom(n, c, cap);
      CutReaches(n, c + 1, d, cap);
    }
  }

  /** It does not fault when everything pending fits one frame with 12 bytes to spare. */
  lemma PassSafe(n: Net, cap: nat)
    requires AllOk(n.slots) && Total(n.staged + Requests(n.slots, |n.slots|)) + PDU_HEADER + WKC_LENGTH <= cap
    ensures !PassFaults(n, cap)
  {
    forall c | 0 <= c < |n.slots|
      ensures RemainingAsCoded(cap, Total(n.staged + Requests(n.slots, c))).Some?
    {
      RequestsGrow(n, c, |n.slots|);
    }
  }

  lemma {:induction false} RequestsGrow(n: Net, c: nat, d: nat)
    requires AllOk(n.slots) && c <= d <= |n.slots|
    ensures Total(n.staged + Requests(n.slots, c)) <= Total(n.staged + Requests(n.slots, d))
    decreases d
  {
    if c < d {
      RequestsGrow(n, c, d - 1);
      var before := n.staged + Requests(n.slots, d - 1);
      if PendingAt(n.slots, d - 1) {
        TotalAppend(before, RequestAt(n.slots, d - 1));
        assert n.staged + Requests(n.slots, d) == before + [RequestAt(n.slots, d - 1)];
      } else {
        assert n.staged + Requests(n.slots, d) == before;
      }
    }
  }

  /** Two sockets are enough: the first PDU fills the frame to within 12 bytes, the second is idle. */
  lemma PassCanFault(a: Socket, b: Socket, cap: nat)
    requires a.Ok() && a.Pending() && b.Ok() && b.Len() == 0
    requires PDU_HEADER + WKC_LENGTH <= cap < a.dataLength + 2 * (PDU_HEADER + WKC_LENGTH)
    requires a.dataLength + PDU_HEADER + WKC_LENGTH <= cap
    ensures PassFaults(Net([Some(a), Some(b)], [], false), cap)
  {
    var n := Net([Some(a), Some(b)], [], false);
    assert Requests(n.slots, 0) == [] && n.staged + Requests(n.slots, 0) == [];
    assert Requests(n.slots, 1) == [RequestAt(n.slots, 0)];
    assert n.staged + Requests(n.slots, 1) == [RequestAt(n.slots, 0)];
    TotalAppend([], RequestAt(n.slots, 0));
    assert [] + [RequestAt(n.slots, 0)] == [RequestAt(n.slots, 0)];
    assert Total([RequestAt(n.slots, 0)]) == a.dataLength + PDU_HEADER + WKC_LENGTH;
    assert !Blocks(n, 0, cap);
    assert 1 <= Cut(n, cap);
    assert RemainingAsCoded(cap, Total(n.staged + Requests(n.slots, 1))).None?;
  }

  // ------------------------------------------------------------------ bytes over a run

  /** The bytes the pending PDUs of the first c slots take in a frame. */
  function PendingBytes(slots: Slots, c: nat): nat
    requires c <= |slots|
  {
    if c == 0 then 0
    else PendingBytes(slots, c - 1) + if PendingAt(slots, c - 1) then PDU_HEADER + slots[c - 1].value.dataLength + WKC_LENGTH else 0
  }

  /** All bytes waiting or on their way. */
  function OpenBytes(n: Net): nat { Total(n.staged) + PendingBytes(n.slots, |n.slots|) }

  lemma {:induction false} StagedBytes(n: Net, c: nat)
    requires c <= |n.slots| && AllOk(n.slots)
    ensures Total(n.staged + Requests(n.slots, c)) == Total(n.staged) + PendingBytes(n.slots, c)
  {
    if c == 0 {
      assert n.staged + [] == n.staged;
    } else {
      StagedBytes(n, c - 1);
      var before := n.staged + Requests(n.slots, c - 1);
      if PendingAt(n.slots, c - 1) {
        TotalAppend(before, RequestAt(n.slots, c - 1));
        assert n.staged + Requests(n.slots, c) == before + [RequestAt(n.slots, c - 1)];
      } else {
        assert n.staged + Requests(n.slots, c) == before;
      }
    }
  }

  lemma {:induction false} BytesAfterTaking(slots: Slots, slots': Slots, c: nat, m: nat)
    requires TakenUpTo(slots, slots', c) && c <= |slots| && m <= |slots|
    ensures PendingBytes(slots', m) + PendingBytes(slots, if m < c then m else c) == PendingBytes(slots, m)
    decreases m
  {
    if m > 0 {
      BytesAfterTaking(slots, slots', c, m - 1);
      assert TakenAt(slots, slots', c, m - 1);
    }
  }

  lemma {:induction false} SameBytes(slots: Slots, slots': Slots, m: nat)
    requires |slots'| == |slots| && m <= |slots|
    requires forall k :: 0 <= k < m ==> (PendingAt(slots', k) <==> PendingAt(slots, k)) && (PendingAt(slots, k) ==> slots'[k] == slots[k])
    ensures PendingBytes(slots', m) == PendingBytes(slots, m)
  {
    if m > 0 { SameBytes(slots, slots', m - 1); }
  }

  /** No poll adds bytes. */
  lemma PollKeepsBytes(s0: Slots, n: Net, given: set<(Datagram, Datagram)>, ev: Event, n': Net, r: LinkResult, cap: nat)
    requires Tagged(s0) && Inv(s0, n, given, cap) && PollStep(n, ev, n', r, cap)
    ensures OpenBytes(n') <= OpenBytes(n)
  {
    var mid, complete :| EnqueueStep(n, mid, complete, cap) && LinkStep(mid, ev, n', complete, r);
    EnqueueKeepsInv(s0, n, given, mid, complete, cap);
    StagedBytes(n, Cut(n, cap));
    BytesAfterTaking(n.slots, mid.slots, Cut(n, cap), |n.slots|);
    if mid.staged != [] && Lands(n, ev) {
      DeliverKeepsPending(s0, mid, given, ev.rx.answers, cap);
      SameBytes(mid.slots, n'.slots, |mid.slots|);
    }
  }

  lemma {:induction false} RunKeepsBytes(s0: Slots, ns: seq<Net>, evs: seq<Event>, rs: seq<LinkResult>, cap: nat, t: nat)
    requires AllOk(s0) && Tagged(s0) && Run(s0, ns, evs, rs, cap) && t <= |rs|
    ensures OpenBytes(ns[t]) <= PendingBytes(s0, |s0|)
  {
    if t > 0 {
      RunKeepsBytes(s0, ns, evs, rs, cap, t - 1);
      var given := RunKeepsInv(s0, ns, evs, rs, cap, t - 1);
      assert PollStep(ns[t - 1], evs[t - 1], ns[t], rs[t - 1], cap);
      PollKeepsBytes(s0, ns[t - 1], given, evs[t - 1], ns[t], rs[t - 1], cap);
    }
  }
}
