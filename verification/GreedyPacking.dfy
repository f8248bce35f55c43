/** The frames a set of sockets is packed into, and exactly when no run of polls over them ends the program. */
module GreedyPacking {
  import opened Bytes
  import opened Datagrams
  import opened PduInterfaces
  import opened Sockets
  import opened SocketRuns
  import opened SocketInterfaces

  // ------------------------------------------------------------------ the frames

  /** Where a pass over these sockets stops when nothing is staged. */
  function Front(slots: Slots, cap: nat): (c: nat)
    requires AllOk(slots)
    ensures c <= |slots|
  {
    Cut(Net(slots, [], false), cap)
  }

  /** The bytes of the frame that pass forms. */
  function FrameBytes(slots: Slots, cap: nat): nat
    requires AllOk(slots)
  {
    PendingBytes(slots, Front(slots, cap))
  }

  /** The pending sockets before c have been answered. */
  function Answered(slots: Slots, c: nat): (r: Slots)
    requires AllOk(slots)
    ensures |r| == |slots| && AllOk(r)
  {
    seq(|slots|, k requires 0 <= k < |slots| =>
      if k < c && PendingAt(slots, k) then Some(slots[k].value.(recvFlag := true)) else slots[k])
  }

  /** The sockets once the first j frames have been answered. */
  function After(s0: Slots, cap: nat, j: nat): (r: Slots)
    requires AllOk(s0)
    ensures |r| == |s0| && AllOk(r)
  {
    if j == 0 then s0 else var before := After(s0, cap, j - 1); Answered(before, Front(before, cap))
  }

  predicate LeavesRoom(s0: Slots, cap: nat, j: nat)
    requires AllOk(s0)
  {
    FrameBytes(After(s0, cap, j), cap) + PDU_HEADER + WKC_LENGTH <= cap
  }

  predicate NoSockets(slots: Slots) { forall k :: 0 <= k < |slots| ==> slots[k].None? }

  /** Every frame leaves 12 bytes; a frame later than the number of slots is empty. */
  predicate Roomy(s0: Slots, cap: nat)
    requires AllOk(s0)
  {
    NoSockets(s0) || forall j :: 0 <= j <= |s0| ==> LeavesRoom(s0, cap, j)
  }

  // ------------------------------------------------------------------ there are at most as many as slots

  lemma {:induction false} CountAfterAnswers(slots: Slots, c: nat, m: nat)
    requires AllOk(slots) && c <= |slots| && m <= |slots|
    ensures PendingCount(Answered(slots, c), m) + PendingCount(slots, if m < c then m else c) == PendingCount(slots, m)
    decreases m
  {
    if m > 0 { CountAfterAnswers(slots, c, m - 1); }
  }

  lemma {:induction false} BytesCount(slots: Slots, m: nat)
    requires m <= |slots|
    ensures PendingCount(slots, m) <= m && (PendingBytes(slots, m) == 0 <==> PendingCount(slots, m) == 0)
  {
    if m > 0 { BytesCount(slots, m - 1); }
  }

  /** After an empty frame nothing changes any more. */
  lemma EmptyFrameStays(slots: Slots, cap: nat)
    requires AllOk(slots)
    ensures FrameBytes(slots, cap) == 0 ==> Answered(slots, Front(slots, cap)) == slots
  {
    var c := Front(slots, cap);
    if PendingBytes(slots, c) == 0 {
      BytesCount(slots, c);
      NoneCounted(slots, c);
    }
  }

  /** Each frame that is not empty leaves fewer sockets pending. */
  lemma {:induction false} FramesShrink(s0: Slots, cap: nat, j: nat)
    requires AllOk(s0) && FrameBytes(After(s0, cap, j), cap) > 0
    ensures PendingCount(After(s0, cap, j), |s0|) + j <= PendingCount(s0, |s0|)
  {
    if j > 0 {
      var before := After(s0, cap, j - 1);
      var c := Front(before, cap);
      BytesCount(before, c);
      CountAfterAnswers(before, c, |s0|);
      EmptyFrameStays(before, cap);
      FramesShrink(s0, cap, j - 1);
    }
  }

  lemma RoomyAlways(s0: Slots, cap: nat, j: nat)
    requires AllOk(s0) && Roomy(s0, cap) && !NoSockets(s0)
    ensures LeavesRoom(s0, cap, j)
  {
    assert LeavesRoom(s0, cap, 0);
    if FrameBytes(After(s0, cap, j), cap) > 0 {
      FramesShrink(s0, cap, j);
      BytesCount(s0, |s0|);
    }
  }

  // ------------------------------------------------------------------ runs form these frames

  /** As in s0, except that a pending socket may have been answered. */
  predicate ShapedAt(s0: Slots, slots: Slots, k: int)
    requires 0 <= k < |s0| == |slots|
  {
    && (slots[k].Some? <==> s0[k].Some?)
    && (slots[k].Some? ==>
          && slots[k].value.dataLength == s0[k].value.dataLength && slots[k].value.Len() == s0[k].value.Len()
          && slots[k].value.Ok())
  }

  predicate Shaped(s0: Slots, slots: Slots) {
    |slots| == |s0| && forall k :: 0 <= k < |s0| ==> ShapedAt(s0, slots, k)
  }

  predicate SamePending(a: Slots, b: Slots) {
    |a| == |b| && forall k :: 0 <= k < |a| ==> (PendingAt(a, k) <==> PendingAt(b, k))
  }

  lemma {:induction false} AfterShaped(s0: Slots, cap: nat, j: nat)
    requires AllOk(s0)
    ensures Shaped(s0, After(s0, cap, j))
  {
    if j > 0 {
      AfterShaped(s0, cap, j - 1);
      forall k | 0 <= k < |s0| ensures ShapedAt(s0, After(s0, cap, j), k) {
        assert ShapedAt(s0, After(s0, cap, j - 1), k);
      }
    }
  }

  lemma InvShaped(s0: Slots, n: Net, given: set<(Datagram, Datagram)>, cap: nat)
    requires Inv(s0, n, given, cap) && n.staged == []
    ensures Shaped(s0, n.slots) && AllOk(n.slots)
  {
    forall k | 0 <= k < |s0| ensures ShapedAt(s0, n.slots, k) { assert SlotInv(s0, n, given, k); }
    forall k | 0 <= k < |s0| && n.slots[k].Some? ensures n.slots[k].value.Ok() { assert ShapedAt(s0, n.slots, k); }
  }

  lemma {:induction false} SamePendingBytes(s0: Slots, a: Slots, b: Slots, m: nat)
    requires Shaped(s0, a) && Shaped(s0, b) && SamePending(a, b) && m <= |s0|
    ensures PendingBytes(a, m) == PendingBytes(b, m)
  {
    if m > 0 {
      SamePendingBytes(s0, a, b, m - 1);
      assert ShapedAt(s0, a, m - 1) && ShapedAt(s0, b, m - 1);
    }
  }

  lemma {:induction false} SameCuts(s0: Slots, n: Net, n': Net, cap: nat, c: nat)
    requires Shaped(s0, n.slots) && Shaped(s0, n'.slots) && AllOk(n.slots) && AllOk(n'.slots)
    requires SamePending(n.slots, n'.slots) && n.staged == [] && n'.staged == [] && c <= |s0|
    ensures CutFrom(n, c, cap) == CutFrom(n', c, cap)
    decreases |s0| - c
  {
    if c < |s0| {
      assert ShapedAt(s0, n.slots, c) && ShapedAt(s0, n'.slots, c);
      StagedBytes(n, c);
      StagedBytes(n', c);
      SamePendingBytes(s0, n.slots, n'.slots, c);
      SameCuts(s0, n, n', cap, c + 1);
    }
  }

  /** After j frames: the next one is still to be formed, or it is staged. */
  predicate Follows(s0: Slots, n: Net, cap: nat, j: nat)
    requires AllOk(s0)
  {
    if n.staged == [] then SamePending(n.slots, After(s0, cap, j))
    else SamePending(n.slots, After(s0, cap, j + 1)) && Total(n.staged) == FrameBytes(After(s0, cap, j), cap)
  }

  /** With nothing staged the pass stops where the greedy one does, and sees the same bytes. */
  lemma FollowsFront(s0: Slots, n: Net, given: set<(Datagram, Datagram)>, cap: nat, j: nat, c: nat)
    requires Inv(s0, n, given, cap) && n.staged == [] && Follows(s0, n, cap, j) && c <= |s0|
    ensures AllOk(n.slots) && Cut(n, cap) == Front(After(s0, cap, j), cap)
    ensures Total(n.staged + Requests(n.slots, c)) == PendingBytes(After(s0, cap, j), c)
  {
    var greedy := After(s0, cap, j);
    InvShaped(s0, n, given, cap);
    AfterShaped(s0, cap, j);
    SameCuts(s0, n, Net(greedy, [], false), cap, 0);
    StagedBytes(n, c);
    SamePendingBytes(s0, n.slots, greedy, c);
  }

  lemma PassFollows(s0: Slots, n: Net, given: set<(Datagram, Datagram)>, mid: Net, complete: bool, cap: nat, j: nat)
    requires Inv(s0, n, given, cap) && EnqueueStep(n, mid, complete, cap) && Follows(s0, n, cap, j)
    ensures SamePending(mid.slots, After(s0, cap, j + 1)) && Total(mid.staged) == FrameBytes(After(s0, cap, j), cap)
  {
    if n.staged != [] {
      SaturatedPass(n, mid, complete, cap);
    } else {
      var c := Cut(n, cap);
      FollowsFront(s0, n, given, cap, j, c);
      forall k | 0 <= k < |mid.slots| ensures PendingAt(mid.slots, k) <==> PendingAt(After(s0, cap, j + 1), k) {
        assert TakenAt(n.slots, mid.slots, c, k);
        assert PendingAt(n.slots, k) <==> PendingAt(After(s0, cap, j), k);
      }
    }
  }

  /** Every poll of a run leads to the same frame or to the next, whatever the link does. */
  lemma PollFollows(s0: Slots, n: Net, given: set<(Datagram, Datagram)>, ev: Event, n': Net, r: LinkResult, cap: nat, j: nat)
    returns (j': nat)
    requires Tagged(s0) && Inv(s0, n, given, cap) && PollStep(n, ev, n', r, cap) && Follows(s0, n, cap, j)
    ensures Follows(s0, n', cap, j') && j <= j' <= j + 1
    ensures ev.txReady && ev.rx.Reply? ==> j' == j + 1
  {
    var mid, complete :| EnqueueStep(n, mid, complete, cap) && LinkStep(mid, ev, n', complete, r);
    EnqueueKeepsInv(s0, n, given, mid, complete, cap);
    PassFollows(s0, n, given, mid, complete, cap, j);
    if mid.staged == [] || ((mid.inFlight || ev.txReady) && ev.rx.Reply?) {
      LandFollows(s0, mid, given, ev, n', complete, r, cap, j);
      return j + 1;
    } else {
      assert n'.slots == mid.slots && n'.staged == mid.staged;
      return j;
    }
  }

  lemma LandFollows(s0: Slots, mid: Net, given: set<(Datagram, Datagram)>, ev: Event, n': Net, complete: bool, r: LinkResult, cap: nat, j: nat)
    requires Tagged(s0) && Inv(s0, mid, given, cap) && LinkStep(mid, ev, n', complete, r)
    requires mid.staged == [] || ((mid.inFlight || ev.txReady) && ev.rx.Reply?)
    requires SamePending(mid.slots, After(s0, cap, j + 1))
    ensures n'.staged == [] && Follows(s0, n', cap, j + 1)
  {
    if mid.staged != [] {
      DeliverKeepsPending(s0, mid, given, ev.rx.answers, cap);
      forall k | 0 <= k < |n'.slots| ensures PendingAt(n'.slots, k) <==> PendingAt(After(s0, cap, j + 1), k) {
        assert PendingAt(mid.slots, k) <==> PendingAt(After(s0, cap, j + 1), k);
      }
    }
  }

  lemma {:induction false} RunFollows(s0: Slots, ns: seq<Net>, evs: seq<Event>, rs: seq<LinkResult>, cap: nat, t: nat)
    returns (j: nat)
    requires AllOk(s0) && Tagged(s0) && Run(s0, ns, evs, rs, cap) && t <= |rs|
    ensures Follows(s0, ns[t], cap, j) && j <= t
  {
    if t == 0 { return 0; }
    var before := RunFollows(s0, ns, evs, rs, cap, t - 1);
    var given := RunKeepsInv(s0, ns, evs, rs, cap, t - 1);
    assert PollStep(ns[t - 1], evs[t - 1], ns[t], rs[t - 1], cap);
    j := PollFollows(s0, ns[t - 1], given, evs[t - 1], ns[t], rs[t - 1], cap, before);
  }

  // ------------------------------------------------------------------ room in every frame keeps a run clean

  /** A poll of these sockets ends the program: the capacity underflows, or a PDU ends with the buffer. */
  ghost predicate PollFails(n: Net, cap: nat, length: nat)
    requires AllOk(n.slots)
  {
    PassFaults(n, cap) || !NoExactFit(n, cap, length)
  }

  lemma {:induction false} BytesMonotone(slots: Slots, a: nat, b: nat)
    requires a <= b <= |slots|
    ensures PendingBytes(slots, a) <= PendingBytes(slots, b)
    decreases b
  {
    if a < b { BytesMonotone(slots, a, b - 1); }
  }

  /** What the pass has staged at the slots up to its end stays below the frame it forms. */
  lemma BelowFrame(s0: Slots, n: Net, given: set<(Datagram, Datagram)>, cap: nat, j: nat, c: nat)
    requires Inv(s0, n, given, cap) && AllOk(n.slots) && Follows(s0, n, cap, j) && c <= Cut(n, cap)
    ensures Total(n.staged + Requests(n.slots, c)) <= FrameBytes(After(s0, cap, j), cap)
    ensures c < Cut(n, cap) && PendingAt(n.slots, c) ==> TotalAfter(n, c) <= FrameBytes(After(s0, cap, j), cap)
  {
    if n.staged == [] {
      FollowsFront(s0, n, given, cap, j, c);
      BytesMonotone(After(s0, cap, j), c, Cut(n, cap));
      if c < Cut(n, cap) && PendingAt(n.slots, c) {
        FollowsFront(s0, n, given, cap, j, c + 1);
        StagedBytes(n, c);
        StagedBytes(n, c + 1);
        BytesMonotone(After(s0, cap, j), c + 1, Cut(n, cap));
      }
    } else {
      RequestsNone(n.slots, c);
      assert n.staged + Requests(n.slots, c) == n.staged;
    }
  }

  lemma InvOk(s0: Slots, n: Net, given: set<(Datagram, Datagram)>, cap: nat)
    requires Inv(s0, n, given, cap)
    ensures AllOk(n.slots) && (NoSockets(s0) ==> NoSockets(n.slots))
  {
    forall k | 0 <= k < |s0| && n.slots[k].Some? ensures n.slots[k].value.Ok() && s0[k].Some? {
      assert SlotInv(s0, n, given, k);
    }
  }

  lemma CleanInRoom(s0: Slots, n: Net, given: set<(Datagram, Datagram)>, cap: nat, length: nat, j: nat)
    requires Inv(s0, n, given, cap) && AllOk(n.slots) && Follows(s0, n, cap, j) && LeavesRoom(s0, cap, j) && cap <= length
    ensures !PollFails(n, cap, length)
  {
    forall c | 0 <= c <= Cut(n, cap) && c < |n.slots| && n.slots[c].Some?
      ensures RemainingAsCoded(cap, Total(n.staged + Requests(n.slots, c))).Some?
    {
      BelowFrame(s0, n, given, cap, j, c);
    }
    forall c | 0 <= c < Cut(n, cap) && PendingAt(n.slots, c) ensures TotalAfter(n, c) != length {
      BelowFrame(s0, n, given, cap, j, c);
    }
  }

  /** If every frame leaves 12 bytes, no poll of any run ends the program. */
  lemma RunNeverFaults(s0: Slots, ns: seq<Net>, evs: seq<Event>, rs: seq<LinkResult>, cap: nat, length: nat, t: nat)
    requires AllOk(s0) && Tagged(s0) && Run(s0, ns, evs, rs, cap) && t <= |rs| && cap <= length && Roomy(s0, cap)
    ensures AllOk(ns[t].slots) && !PollFails(ns[t], cap, length)
  {
    var given := RunKeepsInv(s0, ns, evs, rs, cap, t);
    InvOk(s0, ns[t], given, cap);
    if !NoSockets(s0) {
      var j := RunFollows(s0, ns, evs, rs, cap, t);
      RoomyAlways(s0, cap, j);
      CleanInRoom(s0, ns[t], given, cap, length, j);
    }
  }

  /** In particular when everything pending fits one frame with 12 bytes to spare. */
  lemma SpareIsRoomy(s0: Slots, cap: nat)
    requires AllOk(s0) && PendingBytes(s0, |s0|) + PDU_HEADER + WKC_LENGTH <= cap
    ensures Roomy(s0, cap)
  {
    forall j | 0 <= j <= |s0| ensures LeavesRoom(s0, cap, j) {
      BytesShrink(s0, cap, j);
      BytesMonotone(After(s0, cap, j), Front(After(s0, cap, j), cap), |s0|);
    }
  }

  /** Two PDUs that do not fit one frame, each with 12 bytes to spare in a frame of its own, are safe too. */
  lemma TwoFramesRoomy(a: Socket, b: Socket, cap: nat)
    requires a.Ok() && b.Ok() && a.Pending() && b.Pending()
    requires a.dataLength + 2 * (PDU_HEADER + WKC_LENGTH) <= cap && b.dataLength + 2 * (PDU_HEADER + WKC_LENGTH) <= cap
    requires a.dataLength + b.dataLength + 2 * (PDU_HEADER + WKC_LENGTH) > cap
    ensures Roomy([Some(a), Some(b)], cap)
  {
    var s0, s1, s2 := [Some(a), Some(b)], [Some(a.(recvFlag := true)), Some(b)],
      [Some(a.(recvFlag := true)), Some(b.(recvFlag := true))];
    TwoSlots(s0, cap);
    assert Front(s0, cap) == 1 && FrameBytes(s0, cap) == PDU_HEADER + a.dataLength + WKC_LENGTH;
    assert After(s0, cap, 1) == Answered(s0, 1) == s1;
    TwoSlots(s1, cap);
    assert Front(s1, cap) == 2 && FrameBytes(s1, cap) == PDU_HEADER + b.dataLength + WKC_LENGTH;
    assert After(s0, cap, 2) == Answered(s1, 2) == s2;
    TwoSlots(s2, cap);
    assert Front(s2, cap) == 2 && FrameBytes(s2, cap) == 0;
    assert LeavesRoom(s0, cap, 0) && LeavesRoom(s0, cap, 1) && LeavesRoom(s0, cap, 2);
  }

  lemma TwoSlots(slots: Slots, cap: nat)
    requires |slots| == 2 && slots[0].Some? && slots[1].Some? && AllOk(slots)
    requires PDU_HEADER + WKC_LENGTH + slots[0].value.Len() <= cap
    ensures PendingBytes(slots, 1) == if PendingAt(slots, 0) then PDU_HEADER + slots[0].value.dataLength + WKC_LENGTH else 0
    ensures PendingBytes(slots, 2) == PendingBytes(slots, 1) + if PendingAt(slots, 1) then PDU_HEADER + slots[1].value.dataLength + WKC_LENGTH else 0
    ensures Front(slots, cap) == if Remaining(cap, PendingBytes(slots, 1)) < slots[1].value.Len() then 1 else 2
  {
    var n := Net(slots, [], false);
    StagedBytes(n, 0);
    StagedBytes(n, 1);
    assert PendingBytes(slots, 0) == 0;
    assert !Blocks(n, 0, cap);
    assert CutFrom(n, 0, cap) == CutFrom(n, 1, cap);
  }

  lemma {:induction false} BytesShrink(s0: Slots, cap: nat, j: nat)
    requires AllOk(s0)
    ensures PendingBytes(After(s0, cap, j), |s0|) <= PendingBytes(s0, |s0|)
  {
    if j > 0 {
      BytesShrink(s0, cap, j - 1);
      AnswersShrink(After(s0, cap, j - 1), Front(After(s0, cap, j - 1), cap), |s0|);
    }
  }

  lemma {:induction false} AnswersShrink(slots: Slots, c: nat, m: nat)
    requires AllOk(slots) && m <= |slots|
    ensures PendingBytes(Answered(slots, c), m) <= PendingBytes(slots, m)
  {
    if m > 0 { AnswersShrink(slots, c, m - 1); }
  }

  // ------------------------------------------------------------------ and nothing less does

  /** What a pass over these sockets leads to. */
  ghost function Packed(n: Net, cap: nat): (mid: Net)
    requires AllOk(n.slots)
    ensures EnqueueStep(n, mid, Cut(n, cap) == |n.slots|, cap)
  {
    var c := Cut(n, cap);
    Net(seq(|n.slots|, k requires 0 <= k < |n.slots| =>
          if k < c && PendingAt(n.slots, k) then Some(n.slots[k].value.Taken()) else n.slots[k]),
        n.staged + Requests(n.slots, c), n.inFlight)
  }

  /** A poll in which every datagram comes back as it was sent. */
  lemma EchoPoll(n: Net, cap: nat) returns (ev: Event, n': Net, r: LinkResult)
    requires AllOk(n.slots) && n.staged == []
    ensures PollStep(n, ev, n', r, cap) && n'.staged == [] && ev.txReady && ev.rx.Reply?
  {
    var mid, complete := Packed(n, cap), Cut(n, cap) == |n.slots|;
    ev, r := Event(true, Reply(mid.staged)), Ready(complete);
    n' := if mid.staged == [] then mid else Net(Deliver(mid.slots, mid.staged, |mid.staged|), [], false);
    assert Answers(mid.staged, mid.staged);
    assert LinkStep(mid, ev, n', complete, r);
  }

  /** A poll whose frame gets lost. */
  lemma LostPoll(n: Net, cap: nat) returns (ev: Event, n': Net, r: LinkResult)
    requires AllOk(n.slots)
    ensures PollStep(n, ev, n', r, cap) && n'.staged == Packed(n, cap).staged
  {
    var mid, complete := Packed(n, cap), Cut(n, cap) == |n.slots|;
    ev := Event(true, Nothing);
    if mid.staged == [] { n', r := mid, Ready(complete); } else { n', r := mid.(inFlight := true), NotAvailable; }
    assert LinkStep(mid, ev, n', complete, r);
  }

  lemma Extended(s0: Slots, ns: seq<Net>, evs: seq<Event>, rs: seq<LinkResult>, cap: nat, ev: Event, n': Net, r: LinkResult)
    requires Run(s0, ns, evs, rs, cap) && PollStep(ns[|rs|], ev, n', r, cap)
    ensures Run(s0, ns + [n'], evs + [ev], rs + [r], cap)
  {
    var ns', evs', rs' := ns + [n'], evs + [ev], rs + [r];
    forall t | 0 <= t < |rs'| ensures PollStep(ns'[t], evs'[t], ns'[t + 1], rs'[t], cap) {
      if t < |rs| { assert PollStep(ns[t], evs[t], ns[t + 1], rs[t], cap) && rs'[t] == rs[t]; }
    }
  }

  /** j answered frames in j polls. */
  lemma {:induction false} EchoRun(s0: Slots, cap: nat, j: nat)
    returns (ns: seq<Net>, evs: seq<Event>, rs: seq<LinkResult>)
    requires AllOk(s0) && Tagged(s0)
    ensures Run(s0, ns, evs, rs, cap) && |rs| == j && ns[j].staged == [] && Follows(s0, ns[j], cap, j)
  {
    if j == 0 {
      ns, evs, rs := [Net(s0, [], false)], [], [];
    } else {
      ns, evs, rs := EchoRun(s0, cap, j - 1);
      var n := ns[j - 1];
      var given := RunKeepsInv(s0, ns, evs, rs, cap, j - 1);
      InvOk(s0, n, given, cap);
      var ev, n', r := EchoPoll(n, cap);
      Extended(s0, ns, evs, rs, cap, ev, n', r);
      var j' := PollFollows(s0, n, given, ev, n', r, cap, j - 1);
      ns, evs, rs := ns + [n'], evs + [ev], rs + [r];
    }
  }

  /** With that much staged the next pass underflows at the first socket. */
  lemma StagedFaults(n: Net, cap: nat)
    requires AllOk(n.slots) && !NoSockets(n.slots) && Total(n.staged) + PDU_HEADER + WKC_LENGTH > cap
    ensures PassFaults(n, cap)
  {
    var c := FirstSocket(n.slots);
    RequestsGrow(n, 0, c);
    assert n.staged + Requests(n.slots, 0) == n.staged;
    assert Crowded(n, c, cap);
    forall e | 0 <= e < c ensures HasRoom(n, e, cap) { }
    PassFaultsIff(n, cap);
  }

  lemma {:induction false} FirstSocket(slots: Slots) returns (c: nat)
    requires !NoSockets(slots)
    ensures c < |slots| && slots[c].Some? && forall e :: 0 <= e < c ==> slots[e].None?
  {
    if slots[0].Some? { return 0; }
    var rest := slots[1..];
    var k :| 0 <= k < |slots| && slots[k].Some?;
    assert rest[k - 1].Some?;
    c := FirstSocket(rest);
    c := c + 1;
    forall e | 0 <= e < c ensures slots[e].None? { if e > 0 { assert rest[e - 1].None?; } }
  }

  /** A frame that leaves less than 12 bytes ends the program in some run: the frames before it come back, it is lost
      once, and the next poll underflows. */
  lemma TightFrameFaults(s0: Slots, cap: nat, j: nat)
    returns (ns: seq<Net>, evs: seq<Event>, rs: seq<LinkResult>)
    requires AllOk(s0) && Tagged(s0) && !NoSockets(s0) && !LeavesRoom(s0, cap, j)
    ensures Run(s0, ns, evs, rs, cap) && |rs| == j + 1 && AllOk(ns[j + 1].slots) && PassFaults(ns[j + 1], cap)
  {
    ns, evs, rs := EchoRun(s0, cap, j);
    var n := ns[j];
    var given := RunKeepsInv(s0, ns, evs, rs, cap, j);
    InvOk(s0, n, given, cap);
    PassFollows(s0, n, given, Packed(n, cap), Cut(n, cap) == |n.slots|, cap, j);
    var ev, n', r := LostPoll(n, cap);
    var given' := PollKeepsInv(s0, n, given, ev, n', r, cap);
    StillSockets(s0, n', given', cap);
    StagedFaults(n', cap);
    Extended(s0, ns, evs, rs, cap, ev, n', r);
    ns, evs, rs := ns + [n'], evs + [ev], rs + [r];
  }

  lemma StillSockets(s0: Slots, n: Net, given: set<(Datagram, Datagram)>, cap: nat)
    requires Inv(s0, n, given, cap) && !NoSockets(s0)
    ensures AllOk(n.slots) && !NoSockets(n.slots)
  {
    InvOk(s0, n, given, cap);
    var k :| 0 <= k < |s0| && s0[k].Some?;
    assert SlotInv(s0, n, given, k);
  }

  /** No poll of this run ends the program. */
  ghost predicate CleanRun(ns: seq<Net>, cap: nat, length: nat) {
    forall t :: 0 <= t < |ns| ==> AllOk(ns[t].slots) && !PollFails(ns[t], cap, length)
  }

  /** No run of polls over these sockets ends the program, whatever the link does, if and only if every frame they are
      packed into leaves 12 bytes of the capacity. */
  lemma NeverFaultsIff(s0: Slots, cap: nat, length: nat)
    requires AllOk(s0) && Tagged(s0) && cap <= length
    ensures Roomy(s0, cap) <==> forall ns, evs, rs :: Run(s0, ns, evs, rs, cap) ==> CleanRun(ns, cap, length)
  {
    if Roomy(s0, cap) {
      forall ns: seq<Net>, evs, rs | Run(s0, ns, evs, rs, cap) ensures CleanRun(ns, cap, length) {
        forall t | 0 <= t < |ns| ensures AllOk(ns[t].slots) && !PollFails(ns[t], cap, length) {
          RunNeverFaults(s0, ns, evs, rs, cap, length, t);
        }
      }
    } else {
      var j :| 0 <= j <= |s0| && !LeavesRoom(s0, cap, j);
      var ns, evs, rs := TightFrameFaults(s0, cap, j);
      assert Run(s0, ns, evs, rs, cap) && !CleanRun(ns, cap, length);
    }
  }
}
