/** The mailbox tasks on the line: what arrives in a slave's mailbox, and what is fetched from it. */
module MailboxBus {
  import opened Bytes
  import opened Commands
  import opened Tasks
  import opened SyncManagers
  import opened Bus
  import Out = MailboxWrite
  import In = MailboxRead

  /** The datagrams of a writing run pass the slaves. */
  ghost predicate WriteRun(
    run: seq<Out.System>, rounds: seq<Round>, ps: seq<Passage>, t: Out.Task, sm: SyncManager, slave: SlaveAddress, waitEmpty: bool,
    message: seq<byte>)
  {
    && Out.RunFor(run, rounds, t, sm, slave, waitEmpty, message) && |ps| == |rounds|
    && forall k {:trigger ps[k]} :: 0 <= k < |rounds| ==> SentPasses(run[k], ps[k], rounds[k].reply)
  }

  ghost predicate SentPasses(s: Out.System, p: Passage, reply: Reply)
    requires s.Ok()
  {
    |p.found| <= 0x1_0000 &&
    (s.pending.Some? ==> Returns(s.pending.value.command, s.Sent(), p.found, p.hears, p.left, reply))
  }

  /** Looking for an empty mailbox changes no slave. */
  lemma StatusLeaves(run: seq<Out.System>, rounds: seq<Round>, ps: seq<Passage>, t: Out.Task, sm: SyncManager, slave: SlaveAddress,
                     waitEmpty: bool, message: seq<byte>, k: nat)
    requires WriteRun(run, rounds, ps, t, sm, slave, waitEmpty, message) && k < |rounds| && run[k].task.state.CheckEmpty?
    ensures ps[k].left == ps[k].found
  {
    Out.RequestsMatch(run, rounds, t, sm, slave, waitEmpty, message, k);
    assert SentPasses(run[k], ps[k], rounds[k].reply);
    ReadLeaves(run[k].pending.value.command, run[k].Sent(), ps[k].found, ps[k].hears, |ps[k].found|);
  }

  /** When the task completes, the slave that was meant has the current header and the rest of the message in its
      mailbox, and no other slave was written to; a task that does not wait for an empty mailbox delivered the message
      itself. */
  lemma MessageArrives(run: seq<Out.System>, rounds: seq<Round>, ps: seq<Passage>, t: Out.Task, sm: SyncManager, slave: SlaveAddress,
                       waitEmpty: bool, message: seq<byte>, k: nat) returns (p: nat)
    requires WriteRun(run, rounds, ps, t, sm, slave, waitEmpty, message) && k < |rounds| && Distinct(Single(slave), ps[k].found)
    requires !run[k].task.state.Complete? && run[k + 1].task.state.Complete?
    ensures |ps[k].hears| == |ps[k].found| == |ps[k].left| && sm.size <= |message|
    ensures Party(Single(slave), ps[k].found, ps[k].hears, p)
    ensures |Out.Header(run, rounds, message, k)| == CHECK_SIZE
    ensures Load(ps[k].left[p], sm.start, sm.size) == (Out.Header(run, rounds, message, k) + message[CHECK_SIZE..])[..sm.size]
    ensures !waitEmpty ==> Load(ps[k].left[p], sm.start, sm.size) == message[..sm.size]
    ensures forall q :: 0 <= q < |ps[k].found| && q != p ==> ps[k].left[q] == ps[k].found[q]
  {
    Out.CompleteDelivers(run, rounds, t, sm, slave, waitEmpty, message, k);
    Out.WriteCarries(run, rounds, t, sm, slave, waitEmpty, message, k);
    Out.RequestsMatch(run, rounds, t, sm, slave, waitEmpty, message, k);
    Out.BufferKept(run, rounds, t, sm, slave, waitEmpty, message, k);
    assert SentPasses(run[k], ps[k], rounds[k].reply);
    var found, data := ps[k].found, run[k].Sent();
    p := WrittenParty(slave, sm.start, data, found, ps[k].hears, ps[k].left, rounds[k].reply);
    WriteReaches(Single(slave), sm.start, data, found, ps[k].hears, ps[k].left, rounds[k].reply);
    LoadStored(found[p], sm.start, data);
    forall q | 0 <= q < |found| && q != p ensures ps[k].left[q] == found[q] {
      assert !Party(Single(slave), found, ps[k].hears, q);
    }
    if !waitEmpty {
      Out.HeaderIsMessage(run, rounds, t, sm, slave, message, k);
      assert message[..CHECK_SIZE] + message[CHECK_SIZE..] == message;
    }
  }

  /** The slave that took a write counted once. */
  lemma WrittenParty(slave: SlaveAddress, ado: u16, data: seq<byte>, found: seq<Memory>, hears: seq<bool>, left: seq<Memory>, reply: Reply)
    returns (p: nat)
    requires Returns(NewWrite(Single(slave), ado), data, found, hears, left, reply) && |found| <= 0x1_0000 && reply.wkc == 1
    ensures Party(Single(slave), found, hears, p)
  {
    var c := NewWrite(Single(slave), ado);
    WkcIsParties(c, data, found, hears, |found|);
    if forall q :: 0 <= q < |found| ==> !Takes(c, found, hears, q) { NobodyTakes(c, found, hears, |found|); }
    p :| 0 <= p < |found| && Takes(c, found, hears, p);
    ActsIsMeant(Single(slave), ado, p, found[p]);
  }

  /** The datagrams of a reading run pass the slaves. */
  ghost predicate ReadRun(
    run: seq<In.System>, rounds: seq<Round>, ps: seq<Passage>, t: In.Task, sm: SyncManager, slave: SlaveAddress, waitFull: bool,
    buf: seq<byte>)
  {
    && In.RunFor(run, rounds, t, sm, slave, waitFull, buf) && |ps| == |rounds|
    && forall k {:trigger ps[k]} :: 0 <= k < |rounds| ==> AskedPasses(run[k], ps[k], rounds[k].reply)
  }

  ghost predicate AskedPasses(s: In.System, p: Passage, reply: Reply)
    requires s.Ok()
  {
    |p.found| <= 0x1_0000 &&
    (s.pending.Some? ==> Returns(s.pending.value.command, s.Sent(), p.found, p.hears, p.left, reply))
  }

  /** When the task completes, its buffer holds the mailbox of the slave that was meant, and no slave was written to. */
  lemma MessageFetched(run: seq<In.System>, rounds: seq<Round>, ps: seq<Passage>, t: In.Task, sm: SyncManager, slave: SlaveAddress,
                       waitFull: bool, buf: seq<byte>, k: nat) returns (p: nat)
    requires ReadRun(run, rounds, ps, t, sm, slave, waitFull, buf) && k < |rounds| && Distinct(Single(slave), ps[k].found)
    requires !run[k].task.state.Complete? && run[k + 1].task.state.Complete?
    ensures |ps[k].hears| == |ps[k].found| && Party(Single(slave), ps[k].found, ps[k].hears, p)
    ensures sm.size <= |run[k + 1].buf| && run[k + 1].buf[..sm.size] == Load(ps[k].found[p], sm.start, sm.size)
    ensures ps[k].left == ps[k].found
  {
    In.CompleteIsRead(run, rounds, k);
    In.RequestsMatch(run, rounds, t, sm, slave, waitFull, buf, k);
    assert AskedPasses(run[k], ps[k], rounds[k].reply);
    p := FetchedParty(slave, sm.start, run[k].Sent(), ps[k].found, ps[k].hears, ps[k].left, rounds[k].reply);
  }

  lemma FetchedParty(slave: SlaveAddress, ado: u16, data: seq<byte>, found: seq<Memory>, hears: seq<bool>, left: seq<Memory>, reply: Reply)
    returns (p: nat)
    requires Returns(NewRead(Single(slave), ado), data, found, hears, left, reply) && |found| <= 0x1_0000 && reply.wkc == 1
    requires Distinct(Single(slave), found)
    ensures Party(Single(slave), found, hears, p) && reply.data == Load(found[p], ado, |data|) && left == found
  {
    var c := NewRead(Single(slave), ado);
    WkcIsParties(c, data, found, hears, |found|);
    p := SingleParty(Single(slave), ado, found, hears);
    ReadFetches(c, data, found, hears, |found|, p);
    ReadLeaves(c, data, found, hears, |found|);
    ActsIsMeant(Single(slave), ado, p, found[p]);
  }
}
