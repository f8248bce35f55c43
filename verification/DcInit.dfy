/** Distributed-clock initialisation: the task as a state machine over replies. */
module DcInit {
  import opened Bytes
  import opened Commands
  import opened Tasks
  import opened PortWalk
  import opened DcDelay

  const COUNT_MAX := 8
  const DRIFT_COUNT_MIN := 2000
  const TARGET_DELTA_NS := 50

  const BUFFER_SIZE := 16

  const RECEIVE_TIME: u16 := 0x0900
  const SYSTEM_TIME: u16 := 0x0910
  const TIME_OFFSET: u16 := 0x0920
  const TRANSMISSION_DELAY: u16 := 0x0928
  const TIME_DELTA: u16 := 0x092C

  datatype State =
    | Idle | Error(error: TaskError<()>) | ClearOffset | ClearDelay
    | RequestToLatch(count: nat) | CalculateDelay(round: nat, slave: nat)
    | SetOffset(pos: nat) | SetDelay(pos: nat)
    | CompensateDrift(drift: nat) | CheckDelta | Complete

  datatype Context = Context(
    parent: Option<(nat, nat)>, localTime: nat, portTime: seq<u32>, delay: u32, offset: nat)

  const DEFAULT_CONTEXT := Context(None, 0, [0, 0, 0, 0], 0, 0)

  /** What the task knows of the network: linked ports and DC support of every slave. */
  datatype Topology = Topology(ports: seq<Ports>, dc: seq<bool>) {
    predicate Ok() { |ports| == |dc| && 1 <= |dc| < 0x1_0000 }
    function Size(): nat { |dc| }
  }

  datatype Task = Task(state: State, command: Command, firstDc: Option<nat>, dcCount: nat, contexts: seq<Context>)

  /** The number of DC slaves before position i. */
  function DcBefore(net: Topology, i: nat): nat
    requires i <= |net.dc|
  {
    if i == 0 then 0 else DcBefore(net, i - 1) + if net.dc[i - 1] then 1 else 0
  }

  function DcTotal(net: Topology): nat { DcBefore(net, |net.dc|) }

  /** The first DC slave at or behind position i. */
  function NextDc(net: Topology, i: nat): (r: Option<nat>)
    ensures r.Some? ==> i <= r.value < |net.dc| && net.dc[r.value]
    ensures forall k :: i <= k < (if r.Some? then r.value else |net.dc|) ==> !net.dc[k]
    decreases |net.dc| - i
  {
    if i >= |net.dc| then None else if net.dc[i] then Some(i) else NextDc(net, i + 1)
  }

  // ------------------------------------------------------------------ requests

  function CommandOf(t: Task): Command
    requires t.state.CompensateDrift? ==> t.firstDc.Some? && t.firstDc.value < 0x1_0000
    requires t.state.CalculateDelay? ==> t.state.slave < 0x1_0000
    requires t.state.SetOffset? || t.state.SetDelay? ==> t.state.pos < 0x1_0000
  {
    match t.state
    case ClearOffset => Command(BWR, 0, TIME_OFFSET)
    case ClearDelay => Command(BWR, 0, TRANSMISSION_DELAY)
    case RequestToLatch(_) => Command(BWR, 0, RECEIVE_TIME)
    case CalculateDelay(_, pos) => NewRead(Single(SlavePosition(pos)), RECEIVE_TIME)
    case SetOffset(pos) => NewWrite(Single(SlavePosition(pos)), TIME_OFFSET)
    case SetDelay(pos) => NewWrite(Single(SlavePosition(pos)), TRANSMISSION_DELAY)
    case CompensateDrift(_) => Command(ARMW, SlavePosition(t.firstDc.value).Adp(), SYSTEM_TIME)
    case CheckDelta => Command(BRD, 0, TIME_DELTA)
    case _ => t.command
  }

  predicate Busy(s: State) { !s.Idle? && !s.Error? && !s.Complete? }

  function SizeOf(s: State): nat {
    match s
    case ClearOffset => 8
    case SetOffset(_) => 8
    case CompensateDrift(_) => 8
    case RequestToLatch(_) => 16
    case CalculateDelay(_, _) => 16
    case _ => 4
  }

  function PayloadOf(t: Task): nat {
    match t.state
    case SetOffset(pos) => if pos < |t.contexts| then t.contexts[pos].offset else 0
    case SetDelay(pos) => if pos < |t.contexts| then t.contexts[pos].delay else 0
    case _ => 0
  }

  /** The bytes of the PDU a busy task asks for. */
  function DataOf(t: Task): (data: seq<byte>)
    ensures |data| == SizeOf(t.state) <= BUFFER_SIZE
  {
    LittleEndian(PayloadOf(t), SizeOf(t.state))
  }

  // ------------------------------------------------------------------ the measurement of one slave

  /** The last linked port, or 4. */
  function LastPort(p: Ports): (r: nat)
    ensures r <= NO_PORT && (r < NO_PORT ==> p[r])
  {
    if p[3] then 3 else if p[2] then 2 else if p[1] then 1 else if p[0] then 0 else NO_PORT
  }

  function InnerLoop(p: Ports, times: seq<u32>): u32
    requires |times| == 4 && First(p) < NO_PORT
  {
    if First(p) < LastPort(p) < NO_PORT then LoopTime(times[First(p)], times[LastPort(p)]) else 0
  }

  /** The delay update of slave `pos`; None where the source would stop (a missing parent or port, an overflow). */
  function NewDelay(net: Topology, contexts: seq<Context>, pos: nat, times: seq<u32>): Option<u32>
    requires net.Ok() && |contexts| == net.Size() && pos < net.Size() && |times| == 4
    requires forall i :: 0 <= i < |contexts| ==> |contexts[i].portTime| == 4
  {
    var c := contexts[pos];
    if First(net.ports[pos]) == NO_PORT || c.parent.None? then None
    else
      var (at, port) := c.parent.value;
      if at >= net.Size() || at == pos || port >= NO_PORT || FirstFrom(net.ports[at], port + 1) == NO_PORT then None
      else
        var parent := contexts[at];
        var outer := LoopTime(parent.portTime[port], parent.portTime[FirstFrom(net.ports[at], port + 1)]);
        Measured(c.delay, parent.delay, outer, InnerLoop(net.ports[pos], times))
  }

  predicate ContextsOk(net: Topology, contexts: seq<Context>) {
    |contexts| == net.Size() && forall i :: 0 <= i < |contexts| ==> |contexts[i].portTime| == 4
  }

  function Calculate(net: Topology, contexts: seq<Context>, firstDc: Option<nat>, pos: nat, times: seq<u32>): (r: Option<seq<Context>>)
    requires net.Ok() && ContextsOk(net, contexts) && pos < net.Size() && |times| == 4
    ensures r.Some? ==> ContextsOk(net, r.value)
  {
    if First(net.ports[pos]) == NO_PORT then None
    else
      var c := contexts[pos].(portTime := times, localTime := times[First(net.ports[pos])]);
      if firstDc.Some? && firstDc.value < pos then
        var d := NewDelay(net, contexts, pos, times);
        if d.None? then None else Some(contexts[pos := c.(delay := d.value)])
      else Some(contexts[pos := c])
  }

  function MaxTime(contexts: seq<Context>, k: nat): (m: nat)
    requires k <= |contexts|
    ensures forall i :: 0 <= i < k ==> contexts[i].localTime <= m
    ensures m == 0 || exists i :: 0 <= i < k && contexts[i].localTime == m
  {
    if k == 0 then 0
    else
      var m := MaxTime(contexts, k - 1);
      if contexts[k - 1].localTime > m then contexts[k - 1].localTime else m
  }

  function NewOffset(offset: nat, difference: nat): nat {
    if offset == 0 then difference else offset / 2 + difference / 2
  }

  /** The first k slaves with their offsets to the latest local time averaged in. */
  function Align(contexts: seq<Context>, top: nat, k: nat): (r: seq<Context>)
    requires k <= |contexts| && forall i :: 0 <= i < |contexts| ==> contexts[i].localTime <= top
    ensures |r| == |contexts|
    ensures forall i {:trigger r[i]} :: 0 <= i < |r| ==> r[i] == if i < k then Aligned(contexts[i], top) else contexts[i]
  {
    if k == 0 then contexts
    else
      Align(contexts, top, k - 1)[k - 1 := Aligned(contexts[k - 1], top)]
  }

  function Aligned(c: Context, top: nat): Context
    requires c.localTime <= top
  {
    c.(offset := NewOffset(c.offset, top - c.localTime))
  }

  // ------------------------------------------------------------------ replies

  function Times(data: seq<byte>): (r: seq<u32>)
    requires |data| >= 16
    ensures |r| == 4
  {
    [DWord(data), DWord(data[4..]), DWord(data[8..]), DWord(data[12..])]
  }

  /** The delta without its sign bit. */
  function Delta(data: seq<byte>): nat
    requires |data| >= 4
  {
    DWord(data) % 0x8000_0000
  }

  function ExpectedWkc(net: Topology, t: Task): nat {
    match t.state
    case ClearOffset => net.Size()
    case ClearDelay => net.Size()
    case RequestToLatch(_) => net.Size()
    case CompensateDrift(_) => t.dcCount
    case CheckDelta => t.dcCount
    case _ => 1
  }

  predicate InRange(net: Topology, t: Task) {
    && net.Ok() && ContextsOk(net, t.contexts)
    && (t.state.CalculateDelay? ==> t.state.slave < net.Size())
    && (t.state.SetOffset? || t.state.SetDelay? ==> t.state.pos < net.Size())
    && (t.firstDc.Some? ==> t.firstDc.value < net.Size())
  }

  /** `recieve_and_process`; None where the source stops the program. */
  function OnReply(net: Topology, t: Task, r: Reply): Option<Task>
    requires InRange(net, t)
  {
    if !Matches(t.command, r.command) then Some(t.(state := Error(UnexpectedCommand)))
    else if !Busy(t.state) then Some(t)
    else if r.wkc != ExpectedWkc(net, t) then
      Some(t.(state := Error(UnexpectedWkc(ExpectedWkc(net, t) % 0x1_0000, r.wkc))))
    else match t.state
      case ClearOffset => Some(t.(state := ClearDelay))
      case ClearDelay => Some(t.(state := RequestToLatch(0)))
      case RequestToLatch(count) => Some(t.(state := CalculateDelay(count, 0)))
      case CalculateDelay(count, pos) =>
        if |r.data| < 16 then None
        else
          var calculated := Calculate(net, t.contexts, t.firstDc, pos, Times(r.data));
          if calculated.None? then None
          else Some(AfterSlave(net, t.(contexts := calculated.value), count, pos))
      case SetOffset(pos) =>
        if NextDc(net, pos + 1).Some? then Some(t.(state := SetOffset(NextDc(net, pos + 1).value)))
        else if t.firstDc.Some? then Some(t.(state := SetDelay(t.firstDc.value))) else None
      case SetDelay(pos) =>
        if NextDc(net, pos + 1).Some? then Some(t.(state := SetDelay(NextDc(net, pos + 1).value)))
        else Some(t.(state := CompensateDrift(0)))
      case CompensateDrift(count) =>
        Some(t.(state := if count + 1 < DRIFT_COUNT_MIN then CompensateDrift(count + 1) else CheckDelta))
      case CheckDelta =>
        if |r.data| < 4 then None
        else Some(t.(state := if Delta(r.data) <= TARGET_DELTA_NS then Complete else CompensateDrift(DRIFT_COUNT_MIN - 100)))
  }

  /** After slave `pos`: the next slave, or the end of the round with its offsets. */
  function AfterSlave(net: Topology, t: Task, count: nat, pos: nat): Task
    requires net.Ok() && |t.contexts| == net.Size() && pos < net.Size()
  {
    if pos + 1 < net.Size() then t.(state := CalculateDelay(count, pos + 1))
    else
      var t' := t.(contexts := Align(t.contexts, MaxTime(t.contexts, net.Size()), net.Size()));
      t'.(state :=
        if count + 1 < COUNT_MAX then RequestToLatch(count + 1)
        else if t.firstDc.Some? then SetOffset(t.firstDc.value)
        else Complete)
  }

  // ------------------------------------------------------------------ start

  /** Slave s gets as parent the port handed out before its first appearance behind the start of the walk. */
  function ParentFrom(items: seq<(nat, nat)>, s: nat, k: nat): (r: Option<(nat, nat)>)
    requires 1 <= k
    ensures r.None? <==> forall j :: k <= j < |items| ==> items[j].0 != s
    decreases |items| - k
  {
    if k >= |items| then None else if items[k].0 == s then Some(items[k - 1]) else ParentFrom(items, s, k + 1)
  }

  /** The first slave of the walk that supports DC. */
  function FirstDcFrom(items: seq<(nat, nat)>, dc: seq<bool>, k: nat): Option<nat>
    decreases |items| - k
  {
    if k >= |items| then None
    else if items[k].0 < |dc| && dc[items[k].0] then Some(items[k].0)
    else FirstDcFrom(items, dc, k + 1)
  }

  /** The task as `start` leaves it. */
  ghost predicate Started(net: Topology, t: Task) {
    && net.Ok() && ContextsOk(net, t.contexts) && WalkAll(net.ports).Done?
    && var items := WalkAll(net.ports).items;
    && t.state == ClearOffset && t.command == DEFAULT_COMMAND
    && t.firstDc == FirstDcFrom(items, net.dc, 0) && t.dcCount == DcTotal(net)
    && forall s :: 0 <= s < net.Size() ==> t.contexts[s] == DEFAULT_CONTEXT.(parent := ParentFrom(items, s, 1))
  }
}
