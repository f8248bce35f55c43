/** When the tags of PDUs name the slots their replies belong to. */
module SocketTags {
  import opened Bytes
  import opened Datagrams
  import opened PduInterfaces
  import opened IndexSets
  import opened Sockets

  /** Every pending socket lies in the first 256 slots, behind occupied ones only. */
  ghost predicate Packed(slots: Slots) {
    forall k :: PendingAt(slots, k) ==> k < 256 && forall i :: 0 <= i < k ==> slots[i].Some?
  }

  /** Tags name their slots exactly when no pending socket has a free slot before it or 256 slots before it: the
      tag is the rank among the occupied slots, cut to eight bits. */
  lemma TagsRightIff(slots: Slots)
    ensures Tagged(slots) <==> Packed(slots)
  {
    if Packed(slots) {
      forall k | PendingAt(slots, k) ensures Rank(slots, k) % 256 == k { RankFull(slots, k); }
    }
    if Tagged(slots) {
      forall k, i | PendingAt(slots, k) && 0 <= i < k ensures slots[i].Some? {
        if slots[i].None? {
          RankGap(slots, i, k);
        }
      }
    }
  }

  /** An allocator from which nothing was removed hands out such slots. */
  lemma PrefixIsPacked(slots: Slots)
    requires Prefix(slots) && |slots| <= 256
    ensures Packed(slots) && Tagged(slots)
  {
    TagsRightIff(slots);
  }

  lemma {:induction false} RankFull(slots: Slots, k: nat)
    requires k <= |slots| && forall i :: 0 <= i < k ==> slots[i].Some?
    ensures Rank(slots, k) == k
  {
    if k > 0 { RankFull(slots, k - 1); }
  }

  lemma {:induction false} RankGap(slots: Slots, i: nat, j: nat)
    requires i < j <= |slots| && slots[i].None?
    ensures Rank(slots, j) < j
    decreases j
  {
    RankBelow(slots, j - 1);
    if i < j - 1 { RankGap(slots, i, j - 1); }
  }

  lemma {:induction false} RankBelow(slots: Slots, k: nat)
    requires k <= |slots|
    ensures Rank(slots, k) <= k
  {
    if k > 0 { RankBelow(slots, k - 1); }
  }

  /** With a hole, a reply is handed to another socket: the PDU of slot 2 carries tag 1, so the poll puts its reply
      into the idle socket of slot 1, leaves slot 2 without any, and returns true. */
  lemma HoleMisdelivers(a: Socket, c: Socket, ans: Datagram, cap: nat)
    requires a.Ok() && a.Len() == 0 && !a.Pending() && c.Ok() && c.Pending()
    requires c.dataLength + PDU_HEADER + WKC_LENGTH <= cap && SameShape(c.Request(1), ans)
    ensures PollStep(Net([None, Some(a), Some(c)], [], false), Event(true, Reply([ans])),
                     Net([None, Some(a.Receive(ans)), Some(c.Taken())], [], false), Ready(true), cap)
  {
    var n := Net([None, Some(a), Some(c)], [], false);
    var mid := Net([None, Some(a), Some(c.Taken())], [c.Request(1)], false);
    HolePass(n, mid, a, c, cap);
    assert Answers(mid.staged, [ans]);
    DeliverOne(mid.slots, ans);
    var n' := Net([None, Some(a.Receive(ans)), Some(c.Taken())], [], false);
    assert LinkStep(mid, Event(true, Reply([ans])), n', true, Ready(true));
  }

  lemma HolePass(n: Net, mid: Net, a: Socket, c: Socket, cap: nat)
    requires a.Ok() && a.Len() == 0 && !a.Pending() && c.Ok() && c.Pending()
    requires c.dataLength + PDU_HEADER + WKC_LENGTH <= cap
    requires n == Net([None, Some(a), Some(c)], [], false) && mid == Net([None, Some(a), Some(c.Taken())], [c.Request(1)], false)
    ensures EnqueueStep(n, mid, true, cap)
  {
    assert Rank(n.slots, 1) == 0;
    assert Rank(n.slots, 2) == 1;
    RequestsNone(n.slots, 2);
    assert RequestAt(n.slots, 2) == c.Request(1);
    assert Requests(n.slots, 3) == [c.Request(1)];
    assert n.staged + Requests(n.slots, 2) == [] && n.staged + Requests(n.slots, 3) == [c.Request(1)];
    assert !Blocks(n, 1, cap) && !Blocks(n, 2, cap);
    assert CutFrom(n, 3, cap) == 3;
    assert CutFrom(n, 2, cap) == 3;
    assert CutFrom(n, 1, cap) == 3;
    forall k | 0 <= k < 3 ensures TakenAt(n.slots, mid.slots, 3, k) { }
  }

  lemma DeliverOne(slots: Slots, ans: Datagram)
    requires |slots| == 3 && slots[1].Some? && ans.index == 1
    ensures Deliver(slots, [ans], 1) == slots[1 := Some(slots[1].value.Receive(ans))]
  {
    assert Deliver(slots, [ans], 0) == slots;
  }

  /** The tag wraps: with 257 sockets the PDU of the last one is tagged for the first. */
  lemma TagWraps(slots: Slots)
    requires |slots| == 257 && AllOk(slots) && PendingAt(slots, 256) && forall i :: 0 <= i < 257 ==> slots[i].Some?
    ensures Prefix(slots) && RequestAt(slots, 256).index == 0 && !Tagged(slots)
  {
    RankFull(slots, 256);
  }
}
