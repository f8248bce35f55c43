/** What comes back from the line: which frames the master takes, and what a frame of its own means when it returns. */
module FrameReturns {
  import opened Bytes
  import opened Datagrams
  import opened Frames
  import opened PduInterfaces
  import opened Sockets
  import opened SocketRuns
  import opened Polling

  // ------------------------------------------------------------------ the frame header

  /** A frame this master builds is not taken when it comes back with its source address as sent, and is taken when any
      byte of that address has changed, whatever else has. */
  lemma OwnFrameTakenIff(sent: seq<byte>, ds: seq<Datagram>, back: seq<byte>)
    requires IsFrame(sent, ds) && FRAME_HEADER <= |back| && back[12..14] == sent[12..14]
    ensures Accepted(back) <==> back[6..12] != sent[6..12]
  {
    assert sent[12] == INITIAL_HEADER[12] && sent[13] == INITIAL_HEADER[13];
    assert back[12..14][0] == sent[12..14][0] && back[12..14][1] == sent[12..14][1];
    forall k | 6 <= k < 12 ensures sent[k] == 5 { assert sent[k] == INITIAL_HEADER[k]; }
    if back[6..12] == sent[6..12] {
      forall k | 6 <= k < 12 ensures back[k] == 5 { assert back[6..12][k - 6] == sent[6..12][k - 6]; }
    }
  }

  /** A frame of another EtherType is not taken. */
  lemma OtherTypeRefused(back: seq<byte>)
    requires FRAME_HEADER <= |back| && 256 * (back[12] as int) + (back[13] as int) != 0x88A4
    ensures !Accepted(back)
  {
  }

  // ------------------------------------------------------------------ the datagrams

  /** The slaves keep type, index, register address and length of a datagram. */
  predicate KeptByLine(sent: seq<byte>, back: seq<byte>, off: nat) {
    && off + PDU_HEADER <= |sent| && off + PDU_HEADER <= |back|
    && back[off] == sent[off] && back[off + 1] == sent[off + 1]
    && back[off + 4] == sent[off + 4] && back[off + 5] == sent[off + 5] && back[off + 6] == sent[off + 6]
    && (back[off + 7] as int) % 8 == (sent[off + 7] as int) % 8
  }

  predicate KeptAt(sent: seq<byte>, back: seq<byte>, ds: seq<Datagram>, i: int)
    requires 0 <= i < |ds|
  {
    KeptByLine(sent, back, FRAME_HEADER + Off(ds, i))
  }

  /** A frame as the line returns it: the same length, the same EtherType and the zeros behind the datagrams; these keep
      their shape. Everything else may have changed. */
  ghost predicate CameBack(sent: seq<byte>, back: seq<byte>, ds: seq<Datagram>) {
    && |back| == |sent| && FRAME_HEADER + Total(ds) <= |sent| && back[12..14] == sent[12..14]
    && (forall i :: 0 <= i < |ds| ==> KeptAt(sent, back, ds, i))
    && forall k :: FRAME_HEADER + Total(ds) <= k < |sent| ==> back[k] == sent[k]
  }

  /** The answer to a datagram, read where the datagram was. */
  function AnswerFrom(back: seq<byte>, off: nat, d: Datagram): (answer: Datagram)
    requires off + d.Size() <= |back|
    ensures SameShape(d, answer)
  {
    Datagram(d.ctype, d.index, Word(back[off + 2], back[off + 3]), d.ado,
             back[off + PDU_HEADER..off + PDU_HEADER + |d.data|],
             Word(back[off + PDU_HEADER + |d.data|], back[off + PDU_HEADER + |d.data| + 1]))
  }

  /** The answer to datagram i in a returned frame. */
  function AnswerIn(back: seq<byte>, ds: seq<Datagram>, i: nat): (answer: Datagram)
    requires i < |ds| && FRAME_HEADER + Off(ds, i) + ds[i].Size() <= |back|
    ensures SameShape(ds[i], answer)
  {
    AnswerFrom(back, FRAME_HEADER + Off(ds, i), ds[i])
  }

  function AnswersIn(back: seq<byte>, ds: seq<Datagram>): (answers: seq<Datagram>)
    requires FRAME_HEADER + Total(ds) <= |back|
    ensures |answers| == |ds|
    ensures forall i {:trigger answers[i]} :: 0 <= i < |ds| ==>
      FRAME_HEADER + Off(ds, i) + ds[i].Size() <= |back| && answers[i] == AnswerIn(back, ds, i)
  {
    InsideFrame(back, ds);
    seq(|ds|, i requires 0 <= i < |ds| => AnswerIn(back, ds, i))
  }

  lemma InsideFrame(back: seq<byte>, ds: seq<Datagram>)
    requires FRAME_HEADER + Total(ds) <= |back|
    ensures forall i {:trigger ds[i]} :: 0 <= i < |ds| ==> FRAME_HEADER + Off(ds, i) + ds[i].Size() <= |back|
  {
    forall i | 0 <= i < |ds| ensures FRAME_HEADER + Off(ds, i) + ds[i].Size() <= |back| { OffStep(ds, i); }
  }

  /** A datagram whose shape was kept is an answer of that shape. */
  lemma AnswerLies(sent: seq<byte>, back: seq<byte>, off: nat, d: Datagram)
    requires At(sent, off, d) && KeptByLine(sent, back, off) && off + d.Size() <= |back|
    ensures At(back, off, AnswerFrom(back, off, d)) && WkcAt(back, off, AnswerFrom(back, off, d))
  {
    assert LengthAt(back, off) == LengthAt(sent, off);
  }

  lemma StillEnds(sent: seq<byte>, back: seq<byte>, ds: seq<Datagram>)
    requires IsFrame(sent, ds) && CameBack(sent, back, ds)
    ensures !Continues(back, FRAME_HEADER + Total(ds), |back|)
  {
    var stop := FRAME_HEADER + Total(ds);
    if stop + PDU_HEADER <= |back| { assert back[stop + 6] == sent[stop + 6] == 0 && back[stop + 7] == sent[stop + 7] == 0; }
  }

  /** A frame of this master that came back is a reply to the datagrams it was built from. */
  lemma ReturnedIsReply(sent: seq<byte>, back: seq<byte>, ds: seq<Datagram>)
    requires IsFrame(sent, ds) && CameBack(sent, back, ds)
    ensures IsReply(back, ds, AnswersIn(back, ds))
  {
    var answers := AnswersIn(back, ds);
    assert Answers(ds, answers);
    AnswersTotal(ds, answers);
    FrameIsLaid(sent, ds);
    forall i | 0 <= i < |ds| ensures InPlace(back, FRAME_HEADER, answers, i) && WkcInPlace(back, FRAME_HEADER, answers, i) {
      AnswerInPlace(sent, back, ds, answers, i);
    }
    StillEnds(sent, back, ds);
  }

  lemma AnswerInPlace(sent: seq<byte>, back: seq<byte>, ds: seq<Datagram>, answers: seq<Datagram>, i: nat)
    requires FRAME_HEADER + Total(ds) <= |back| == |sent| && answers == AnswersIn(back, ds) && Answers(ds, answers) && i < |ds|
    requires InPlace(sent, FRAME_HEADER, ds, i) && KeptAt(sent, back, ds, i)
    ensures InPlace(back, FRAME_HEADER, answers, i) && WkcInPlace(back, FRAME_HEADER, answers, i)
  {
    AnswersOff(ds, answers, i);
    AnswerLies(sent, back, FRAME_HEADER + Off(ds, i), ds[i]);
    assert answers[i] == AnswerIn(back, ds, i);
  }

  // ------------------------------------------------------------------ in a poll

  /** What is staged in a poll does not depend on how the pass is described. */
  lemma SameStaged(n: Net, mid: Net, complete: bool, mid': Net, complete': bool, cap: nat)
    requires EnqueueStep(n, mid, complete, cap) && EnqueueStep(n, mid', complete', cap)
    ensures mid.staged == mid'.staged
  {
  }

  /** When the frame of the staged PDUs comes back with its source address changed, the poll takes in the replies it
      carries, and everything that was staged is answered. */
  lemma ReturnLands(n: Net, mid: Net, complete: bool, sent: seq<byte>, back: seq<byte>, txReady: bool, cap: nat) returns (n': Net)
    requires EnqueueStep(n, mid, complete, cap) && mid.staged != [] && (n.inFlight || txReady)
    requires IsFrame(sent, mid.staged) && CameBack(sent, back, mid.staged) && back[6..12] != sent[6..12]
    ensures var answers := AnswersIn(back, mid.staged); var ev := Event(txReady, Reply(answers));
      && Gives(LinkInput(txReady, Some(back)), ev, n, cap) && Lands(n, ev)
      && PollStep(n, ev, n', Ready(complete), cap) && n' == Net(Deliver(mid.slots, answers, |answers|), [], false)
  {
    OwnFrameTakenIff(sent, mid.staged, back);
    ReturnedIsReply(sent, back, mid.staged);
    var answers := AnswersIn(back, mid.staged);
    forall mid', complete' | EnqueueStep(n, mid', complete', cap) && mid'.staged != []
      ensures IsReply(back, mid'.staged, answers)
    {
      SameStaged(n, mid, complete, mid', complete', cap);
    }
    n' := Net(Deliver(mid.slots, answers, |answers|), [], false);
    assert LinkStep(mid, Event(txReady, Reply(answers)), n', complete, Ready(complete));
  }

  /** When it comes back as it was sent, without a slave behind it, the poll takes in nothing and stays in flight. */
  lemma EchoStays(n: Net, mid: Net, complete: bool, sent: seq<byte>, back: seq<byte>, txReady: bool, cap: nat) returns (n': Net)
    requires EnqueueStep(n, mid, complete, cap) && mid.staged != [] && (n.inFlight || txReady)
    requires IsFrame(sent, mid.staged) && FRAME_HEADER <= |back| && back[6..14] == sent[6..14]
    ensures var ev := Event(txReady, Foreign);
      && Gives(LinkInput(txReady, Some(back)), ev, n, cap) && !Lands(n, ev)
      && PollStep(n, ev, n', Ready(false), cap) && n' == mid.(inFlight := true)
  {
    assert back[6..12] == back[6..14][..6] && back[12..14] == back[6..14][6..];
    assert sent[6..12] == sent[6..14][..6] && sent[12..14] == sent[6..14][6..];
    OwnFrameTakenIff(sent, mid.staged, back);
    n' := mid.(inFlight := true);
    assert LinkStep(mid, Event(txReady, Foreign), n', complete, Ready(false));
  }
}
