/** `DcInitTask`: the class, proved to take the steps of the state machine. */
module DcTasks {
  import opened Bytes
  import opened Commands
  import opened Tasks
  import opened PortWalk
  import opened DcDelay
  import opened DcInit

  class DcInitTask {
    const net: Topology
    var state: State
    var command: Command
    var firstDc: Option<nat>
    var dcCount: nat
    var contexts: seq<Context>

    ghost function View(): Task
      reads this
    {
      Task(state, command, firstDc, dcCount, contexts)
    }

    constructor (net: Topology, contexts: seq<Context>)
      requires net.Ok() && ContextsOk(net, contexts)
      ensures this.net == net && View() == Task(Idle, DEFAULT_COMMAND, None, 0, contexts)
    {
      this.net := net;
      state, command, firstDc, dcCount := Idle, DEFAULT_COMMAND, None, 0;
      this.contexts := contexts;
    }

    /** `start`: resets every slave, then walks the received ports to find parents and the reference slave. The
        walk must stay inside the slave array. */
    method Start()
      requires net.Ok() && |contexts| == net.Size() && WalkAll(net.ports).Done?
      modifies this
      ensures Started(net, View())
    {
      command, firstDc, dcCount := DEFAULT_COMMAND, None, 0;
      var i := 0;
      while i < |contexts|
        invariant 0 <= i <= |contexts| == net.Size() && command == DEFAULT_COMMAND && firstDc.None? && dcCount == 0
        invariant forall s :: 0 <= s < i ==> contexts[s] == DEFAULT_CONTEXT
      {
        contexts := contexts[i := DEFAULT_CONTEXT];
        i := i + 1;
      }
      FindParents();
      i := 0;
      while i < |net.dc|
        invariant 0 <= i <= |net.dc| && dcCount == DcBefore(net, i)
        invariant command == DEFAULT_COMMAND && ContextsOk(net, contexts)
        invariant firstDc == FirstDcFrom(WalkAll(net.ports).items, net.dc, 0)
        invariant forall s :: 0 <= s < net.Size() ==>
          contexts[s] == DEFAULT_CONTEXT.(parent := ParentFrom(WalkAll(net.ports).items, s, 1))
      {
        if net.dc[i] { dcCount := dcCount + 1; }
        i := i + 1;
      }
      state := ClearOffset;
    }

    method FindParents()
      requires net.Ok() && |contexts| == net.Size() && WalkAll(net.ports).Done? && firstDc.None?
      requires forall s :: 0 <= s < net.Size() ==> contexts[s] == DEFAULT_CONTEXT
      modifies this`contexts, this`firstDc
      ensures |contexts| == net.Size() && firstDc == FirstDcFrom(WalkAll(net.ports).items, net.dc, 0)
      ensures forall s :: 0 <= s < net.Size() ==>
        contexts[s] == DEFAULT_CONTEXT.(parent := ParentFrom(WalkAll(net.ports).items, s, 1))
    {
      ghost var items := WalkAll(net.ports).items;
      var walk := new RecievedPorts(net.ports);
      var last: Option<(nat, nat)> := None;
      ghost var k := 0;
      while true
        invariant walk.Valid() && walk.ports == net.ports && fresh(walk)
        invariant WalkFrom(net.ports, walk.View()).Done? && |contexts| == net.Size()
        invariant 0 <= k <= |items| && items[k..] == WalkFrom(net.ports, walk.View()).items
        invariant last == if k == 0 then None else Some(items[k - 1])
        invariant Searched(items, net.dc, k, firstDc)
        invariant forall s :: 0 <= s < net.Size() ==> ParentSearched(items, k, s, contexts[s])
        decreases |items| - k
      {
        assert walk.position < |net.ports|;
        var item := walk.Next();
        if item.None? { break; }
        assert items[k..][0] == item.value && items[k + 1..] == items[k..][1..];
        Visit(item.value.0, last, items, k);
        last := item;
        k := k + 1;
      }
    }

    /** One port of the walk: slave `s` may become the reference, and gets the port before as its parent. */
    method Visit(s: nat, last: Option<(nat, nat)>, ghost items: seq<(nat, nat)>, ghost k: nat)
      requires s < |contexts| == net.Size() == |net.dc| && k < |items| && items[k].0 == s
      requires last == if k == 0 then None else Some(items[k - 1])
      requires Searched(items, net.dc, k, firstDc)
      requires forall i :: 0 <= i < net.Size() ==> ParentSearched(items, k, i, contexts[i])
      modifies this`contexts, this`firstDc
      ensures |contexts| == net.Size() && Searched(items, net.dc, k + 1, firstDc)
      ensures forall i :: 0 <= i < net.Size() ==> ParentSearched(items, k + 1, i, contexts[i])
    {
      if net.dc[s] && firstDc.None? { firstDc := Some(s); }
      if last.None? {
        contexts := contexts[s := contexts[s].(parent := None)];
      } else if contexts[s].parent.None? {
        contexts := contexts[s := contexts[s].(parent := last)];
      }
    }

    /** `next_pdu`: the request for the current state, written over the front of the buffer. */
    method NextPdu(buf: array<byte>) returns (length: Option<nat>)
      requires InRange(net, View()) && (state.CompensateDrift? ==> firstDc.Some?) && BUFFER_SIZE <= buf.Length
      modifies this`command, buf
      ensures command == if Busy(state) then CommandOf(old(View())) else old(command)
      ensures length.Some? <==> Busy(state)
      ensures length.Some? ==> length.value == |DataOf(old(View()))| && buf[..length.value] == DataOf(old(View()))
    {
      var size, value := 4, 0;
      match state {
        case Idle => return None;
        case Error(_) => return None;
        case Complete => return None;
        case ClearOffset =>
          command := Command(BWR, 0, TIME_OFFSET);
          size := 8;
        case ClearDelay =>
          command := Command(BWR, 0, TRANSMISSION_DELAY);
        case RequestToLatch(_) =>
          command := Command(BWR, 0, RECEIVE_TIME);
          size := 16;
        case CalculateDelay(_, pos) =>
          command := NewRead(Single(SlavePosition(pos)), RECEIVE_TIME);
          size := 16;
        case SetOffset(pos) =>
          command := NewWrite(Single(SlavePosition(pos)), TIME_OFFSET);
          size, value := 8, contexts[pos].offset;
        case SetDelay(pos) =>
          command := NewWrite(Single(SlavePosition(pos)), TRANSMISSION_DELAY);
          value := contexts[pos].delay;
        case CompensateDrift(_) =>
          command := Command(ARMW, SlavePosition(firstDc.value).Adp(), SYSTEM_TIME);
          size := 8;
        case CheckDelta =>
          command := Command(BRD, 0, TIME_DELTA);
      }
      Put(buf, LittleEndian(value, size));
      return Some(size);
    }

    /** `recieve_and_process`; false stands for a stop of the program. */
    method RecieveAndProcess(r: Reply) returns (ok: bool)
      requires InRange(net, View())
      modifies this
      ensures ok <==> OnReply(net, old(View()), r).Some?
      ensures ok ==> View() == OnReply(net, old(View()), r).value
    {
      if !Matches(command, r.command) { state := Error(UnexpectedCommand); }
      ok := true;
      match state {
        case Idle =>
        case Error(_) =>
        case Complete =>
        case ClearOffset =>
          if r.wkc != net.Size() { state := Error(UnexpectedWkc(net.Size(), r.wkc)); } else { state := ClearDelay; }
        case ClearDelay =>
          if r.wkc != net.Size() { state := Error(UnexpectedWkc(net.Size(), r.wkc)); } else { state := RequestToLatch(0); }
        case RequestToLatch(count) =>
          if r.wkc != net.Size() {
            state := Error(UnexpectedWkc(net.Size(), r.wkc));
          } else {
            state := CalculateDelay(count, 0);
          }
        case CalculateDelay(count, pos) =>
          if r.wkc != 1 {
            state := Error(UnexpectedWkc(1, r.wkc));
          } else if |r.data| < 16 {
            ok := false;
          } else {
            ok := CalculateSlave(pos, Times(r.data));
            if ok { FinishSlave(count, pos); }
          }
        case SetOffset(pos) =>
          if r.wkc != 1 {
            state := Error(UnexpectedWkc(1, r.wkc));
          } else {
            var next := NextDc(net, pos + 1);
            if next.Some? {
              state := SetOffset(next.value);
            } else if firstDc.Some? {
              state := SetDelay(firstDc.value);
            } else {
              ok := false;
            }
          }
        case SetDelay(pos) =>
          if r.wkc != 1 {
            state := Error(UnexpectedWkc(1, r.wkc));
          } else {
            var next := NextDc(net, pos + 1);
            if next.Some? { state := SetDelay(next.value); } else { state := CompensateDrift(0); }
          }
        case CompensateDrift(count) =>
          if r.wkc != dcCount {
            state := Error(UnexpectedWkc(dcCount % 0x1_0000, r.wkc));
          } else if count + 1 < DRIFT_COUNT_MIN {
            state := CompensateDrift(count + 1);
          } else {
            state := CheckDelta;
          }
        case CheckDelta =>
          if r.wkc != dcCount {
            state := Error(UnexpectedWkc(dcCount % 0x1_0000, r.wkc));
          } else if |r.data| < 4 {
            ok := false;
          } else if Delta(r.data) <= TARGET_DELTA_NS {
            state := Complete;
          } else {
            state := CompensateDrift(DRIFT_COUNT_MIN - 100);
          }
      }
    }

    /** The latched times of one slave, and its delay when it lies behind the reference slave. */
    method CalculateSlave(pos: nat, times: seq<u32>) returns (ok: bool)
      requires net.Ok() && ContextsOk(net, contexts) && pos < net.Size() && |times| == 4
      modifies this`contexts
      ensures ok <==> Calculate(net, old(contexts), firstDc, pos, times).Some?
      ensures ok ==> contexts == Calculate(net, old(contexts), firstDc, pos, times).value
    {
      var first := First(net.ports[pos]);
      if first == NO_PORT { return false; }
      var c := contexts[pos].(portTime := times, localTime := times[first]);
      if firstDc.Some? && firstDc.value < pos {
        var last := LastPort(net.ports[pos]);
        var inner := 0;
        if first < last < NO_PORT { inner := LoopTime(times[first], times[last]); }
        if c.parent.None? { return false; }
        var (at, port) := c.parent.value;
        if at >= net.Size() || at == pos || port >= NO_PORT { return false; }
        var next := FirstFrom(net.ports[at], port + 1);
        if next == NO_PORT { return false; }
        var outer := LoopTime(contexts[at].portTime[port], contexts[at].portTime[next]);
        var delay := Measured(c.delay, contexts[at].delay, outer, inner);
        if delay.None? { return false; }
        c := c.(delay := delay.value);
      }
      contexts := contexts[pos := c];
      return true;
    }

    /** Behind the last slave of a round the offsets to the latest local time are averaged in. */
    method FinishSlave(count: nat, pos: nat)
      requires net.Ok() && ContextsOk(net, contexts) && pos < net.Size()
      modifies this`state, this`contexts
      ensures View() == AfterSlave(net, old(View()), count, pos)
    {
      if pos + 1 < net.Size() {
        state := CalculateDelay(count, pos + 1);
        return;
      }
      var top := LatestTime();
      AlignAll(top);
      if count + 1 < COUNT_MAX {
        state := RequestToLatch(count + 1);
      } else if firstDc.Some? {
        state := SetOffset(firstDc.value);
      } else {
        state := Complete;
      }
    }

    method LatestTime() returns (top: nat)
      ensures top == MaxTime(contexts, |contexts|)
    {
      top := 0;
      for i := 0 to |contexts|
        invariant top == MaxTime(contexts, i)
      {
        if contexts[i].localTime > top { top := contexts[i].localTime; }
      }
    }

    method AlignAll(top: nat)
      requires forall i :: 0 <= i < |contexts| ==> contexts[i].localTime <= top
      modifies this`contexts
      ensures contexts == Align(old(contexts), top, |old(contexts)|)
    {
      var i := 0;
      while i < |contexts|
        invariant 0 <= i <= |contexts| == |old(contexts)|
        invariant contexts == Align(old(contexts), top, i)
      {
        var c := contexts[i];
        var offset := top - c.localTime;
        if c.offset == 0 {
          c := c.(offset := offset);
        } else {
          c := c.(offset := c.offset / 2 + offset / 2);
        }
        contexts := contexts[i := c];
        i := i + 1;
      }
    }
  }

  /** The search for the first DC slave has looked at the first k items. */
  ghost predicate Searched(items: seq<(nat, nat)>, dc: seq<bool>, k: nat, found: Option<nat>) {
    FirstDcFrom(items, dc, 0) == if found.Some? then found else FirstDcFrom(items, dc, k)
  }

  ghost predicate ParentSearched(items: seq<(nat, nat)>, k: nat, s: nat, c: Context) {
    && c == DEFAULT_CONTEXT.(parent := c.parent)
    && ParentFrom(items, s, 1) == if c.parent.Some? then c.parent else ParentFrom(items, s, if k == 0 then 1 else k)
  }
}
