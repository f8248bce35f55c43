/** AL state changes on the line: what the task's datagrams do to the slaves, and what their answers mean. */
module AlBus {
  import opened Bytes
  import opened Commands
  import opened Tasks
  import opened Bus
  import opened AlTransfer

  ghost predicate Passes(t: Task, p: Passage, reply: Reply) {
    && |p.found| <= 0x1_0000
    && (Busy(t.state) ==> Returns(CommandOf(t), DataOf(t), p.found, p.hears, p.left, reply))
  }

  /** A run whose replies come from the slaves. */
  ghost predicate BusRun(run: seq<Task>, rounds: seq<Round>, ps: seq<Passage>, slave: TargetSlave, target: AlState) {
    && IsRun(run, rounds, slave, target) && |ps| == |rounds|
    && forall k {:trigger ps[k]} :: 0 <= k < |rounds| ==> Passes(run[k], ps[k], rounds[k].reply)
  }

  /** A status read changes no slave. */
  lemma StatusReadLeaves(run: seq<Task>, rounds: seq<Round>, ps: seq<Passage>, slave: TargetSlave, target: AlState, k: nat)
    requires BusRun(run, rounds, ps, slave, target) && k < |rounds| && Reads(run[k].state)
    ensures ps[k].left == ps[k].found
  {
    assert Passes(run[k], ps[k], rounds[k].reply);
    ReadLeaves(CommandOf(run[k]), DataOf(run[k]), ps[k].found, ps[k].hears, |ps[k].found|);
  }

  /** The register a write of the task goes to, and what it carries. */
  function WriteOf(t: Task): (u16, seq<byte>)
    requires Busy(t.state) && !Reads(t.state)
  {
    match t.state
    case ResetSiiOwnership => (0x0500, [1, 0])
    case ResetError(from) => (0x0120, [from.Code() + 16, 0])
    case OffAck(from) => (0x0120, [from.Code(), 0])
    case Request => (0x0120, [t.target.Code(), 0])
  }

  /** Every write of a run, the request of the target state among them, is stored by exactly the slaves the task was
      started for that hear it. */
  lemma WriteStoredBy(run: seq<Task>, rounds: seq<Round>, ps: seq<Passage>, slave: TargetSlave, target: AlState, k: nat, p: nat)
    requires BusRun(run, rounds, ps, slave, target) && k < |rounds| && Busy(run[k].state) && !Reads(run[k].state)
    requires p < |ps[k].found|
    ensures |ps[k].left| == |ps[k].found| == |ps[k].hears|
    ensures ps[k].left[p] ==
      if Party(slave, ps[k].found, ps[k].hears, p) then Stored(ps[k].found[p], WriteOf(run[k]).0, WriteOf(run[k]).1)
      else ps[k].found[p]
  {
    GoalKept(run, rounds, slave, target, k);
    assert Passes(run[k], ps[k], rounds[k].reply);
    WriteReaches(slave, WriteOf(run[k]).0, WriteOf(run[k]).1, ps[k].found, ps[k].hears, ps[k].left, rounds[k].reply);
  }

  /** The AL control register asks for a state. */
  predicate Asks(control: seq<byte>, target: AlState) {
    match target
    case Init => control == [1, 0]
    case PreOperational => control == [2, 0]
    case Bootstrap => control == [3, 0]
    case SafeOperational => control == [4, 0]
    case Operational => control == [8, 0]
    case InvalidOrMixed => control == [9, 0]
  }

  /** After the request each slave meant that heard it has the code of the target in its control register; no other
      slave is asked for anything. */
  lemma RequestReaches(run: seq<Task>, rounds: seq<Round>, ps: seq<Passage>, slave: TargetSlave, target: AlState, k: nat, p: nat)
    requires BusRun(run, rounds, ps, slave, target) && k < |rounds| && run[k].state.Request? && p < |ps[k].found|
    ensures |ps[k].left| == |ps[k].found| == |ps[k].hears|
    ensures Party(slave, ps[k].found, ps[k].hears, p) ==> Asks(Load(ps[k].left[p], 0x0120, 2), target)
    ensures !Party(slave, ps[k].found, ps[k].hears, p) ==> ps[k].left[p] == ps[k].found[p]
  {
    WriteStoredBy(run, rounds, ps, slave, target, k, p);
    GoalKept(run, rounds, slave, target, k);
    LoadStored(ps[k].found[p], 0x0120, WriteOf(run[k]).1);
  }

  /** A slave's AL state. */
  function StateOf(mem: Memory): AlState { StatusState(mem(0x0130)) }

  /** A completed transfer of one slave: the one slave meant is in the target state. */
  lemma SingleComplete(run: seq<Task>, rounds: seq<Round>, ps: seq<Passage>, slave: SlaveAddress, target: AlState, k: nat)
    returns (p: nat)
    requires BusRun(run, rounds, ps, Single(slave), target) && k < |rounds| && Distinct(Single(slave), ps[k].found)
    requires !run[k].state.Complete? && run[k + 1].state.Complete?
    ensures |ps[k].hears| == |ps[k].found| && Party(Single(slave), ps[k].found, ps[k].hears, p) && StateOf(ps[k].found[p]) == target
    ensures ps[k].left == ps[k].found
  {
    CompleteIsTarget(run, rounds, Single(slave), target, k);
    GoalKept(run, rounds, Single(slave), target, k);
    assert Passes(run[k], ps[k], rounds[k].reply);
    p := ReadReaches(Single(slave), 0x0130, 6, ps[k].found, ps[k].hears, ps[k].left, rounds[k].reply);
  }

  /** The status registers of all slaves. */
  function StatusesOf(slaves: seq<Memory>): (r: seq<byte>)
    ensures |r| == |slaves| && forall p {:trigger r[p]} :: 0 <= p < |r| ==> r[p] == slaves[p](0x0130)
  {
    seq(|slaves|, p requires 0 <= p < |slaves| => slaves[p](0x0130))
  }

  lemma {:induction false} SameOr(slaves: seq<Memory>, n: nat)
    requires n <= |slaves|
    ensures OrAll(Column(slaves, 0x0130), n) == OrAll(StatusesOf(slaves), n)
  {
    if n > 0 { SameOr(slaves, n - 1); }
  }

  /** A completed broadcast to Init, PreOp, SafeOp or Op over the n slaves that were counted has every one of them in
      that state. */
  lemma BroadcastComplete(run: seq<Task>, rounds: seq<Round>, ps: seq<Passage>, n: u16, target: AlState, k: nat)
    requires BusRun(run, rounds, ps, All(n), target) && k < |rounds| && |ps[k].found| == n > 0
    requires !run[k].state.Complete? && run[k + 1].state.Complete?
    requires target != Bootstrap && target != InvalidOrMixed && Statuses(StatusesOf(ps[k].found))
    ensures forall p :: 0 <= p < n ==> StateOf(ps[k].found[p]) == target
    ensures ps[k].left == ps[k].found
  {
    CompleteIsTarget(run, rounds, All(n), target, k);
    GoalKept(run, rounds, All(n), target, k);
    assert Passes(run[k], ps[k], rounds[k].reply);
    var p := ReadReaches(All(n), 0x0130, 6, ps[k].found, ps[k].hears, ps[k].left, rounds[k].reply);
    var statuses := StatusesOf(ps[k].found);
    SameOr(ps[k].found, n);
    assert rounds[k].reply.data[0] == OrAll(statuses, n);
    BroadcastSoundIff(target);
    assert AllIn(statuses, target);
    forall p | 0 <= p < n ensures StateOf(ps[k].found[p]) == target { assert StatusState(statuses[p]) == target; }
  }
}
