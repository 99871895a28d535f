/**
  What a log of events says by itself: each thread's type, each CPU's interrupts, the packets on their way, the nodes
  and edges that each event adds, and the disk waits. The handlers do as the log says.
 */
module EventLogs {
  import opened Common
  import opened CriticalGraphs
  import opened CriticalBlockSpec
  import opened CriticalBlockInvariant
  import opened CriticalBlockRun

  type EventLog = seq<Stamped>

  /** What an event adds to the graph: nodes are numbered in order, and so are edges. */
  datatype Gain =
    | Mark(tid: ThreadId)
    | Link(etype: EdgeType, from: NodeId, to: NodeId)
    | WakeUp(from: NodeId, to: NodeId)

  function CountNodes(gains: seq<Gain>): nat {
    if gains == [] then 0 else (if gains[0].Mark? then 1 else 0) + CountNodes(gains[1..])
  }

  /** The last node that the gains give a thread, if the first has number `n`. */
  function LastIn(gains: seq<Gain>, tid: ThreadId, n: NodeId): Option<NodeId> {
    if gains == [] then None
    else
      var later := LastIn(gains[1..], tid, if gains[0].Mark? then n + 1 else n);
      if later.Some? then later else if gains[0] == Mark(tid) then Some(n) else None
  }

  // ----- What the types stand for

  /** Software interrupts and lines by name; the others are waits of an unknown cause. */
  const TIMER := 1
  const NET_TX := 2
  const NET_RX := 3
  const BLOCK := 4
  const BLOCK_IO_POLL := 5
  const SCHED := 7
  const HR_TIMER := 8
  const CLOCK_LINE := 0
  const INPUT_LINES := {19, 23}

  /** Which interrupts and statuses give each type. */
  lemma TypesStandFor(vec: nat, irq: nat, status: Option<Status>)
    ensures ResolveSoftIRQ(vec) == Timer <==> vec in {TIMER, HR_TIMER}
    ensures ResolveSoftIRQ(vec) == Network <==> vec in {NET_TX, NET_RX}
    ensures ResolveSoftIRQ(vec) == BlockDevice <==> vec in {BLOCK, BLOCK_IO_POLL}
    ensures ResolveSoftIRQ(vec) == Interrupted <==> vec == SCHED
    ensures ResolveSoftIRQ(vec) == WaitBlocked <==>
              vec !in {TIMER, NET_TX, NET_RX, BLOCK, BLOCK_IO_POLL, SCHED, HR_TIMER}
    ensures ResolveIRQ(irq) == Interrupted <==> irq == CLOCK_LINE
    ensures ResolveIRQ(irq) == UserInput <==> irq in INPUT_LINES
    ensures ResolveIRQ(irq) == WaitBlocked <==> irq != CLOCK_LINE && irq !in INPUT_LINES
    ensures StatusType(status) == Run <==> status in {Some(RunUsermode), Some(RunSyscall)}
    ensures StatusType(status) == Interrupted <==> status == Some(InterruptedStatus)
    ensures StatusType(status) == WaitCpu <==> status == Some(WaitForCpu)
    ensures StatusType(status) == WaitBlocked <==> status == Some(Blocked)
    ensures StatusType(status) == Unknown <==> status in {None, Some(OtherStatus)}
  {
  }

  // ----- The log, read from its end

  /** How many nodes there are. */
  function NodesAfter(log: EventLog): nat
    decreases |log|, 2
  {
    if log == [] then 0
    else
      var init := log[..|log| - 1];
      NodesAfter(init) + CountNodes(Gains(init, log[|log| - 1].event))
  }

  /** A thread's last node. */
  function LastAfter(log: EventLog, tid: ThreadId): Option<NodeId>
    decreases |log|, 2
  {
    if log == [] then None
    else
      var init := log[..|log| - 1];
      var gained := LastIn(Gains(init, log[|log| - 1].event), tid, NodesAfter(init));
      if gained.Some? then gained else LastAfter(init, tid)
  }

  /** When that was made. */
  function LastTime(log: EventLog, tid: ThreadId): Timestamp
    decreases |log|, 2
  {
    if log == [] then 0
    else
      var init, last := log[..|log| - 1], log[|log| - 1];
      if LastIn(Gains(init, last.event), tid, NodesAfter(init)).Some? then last.ts else LastTime(init, tid)
  }

  /**
    A thread's type: its last status, or the type of the interrupt that woke it since from a blocked wait, without a
    packet. A thread that has exited has none, unless its type was unknown: then its exit goes unnoticed.
   */
  function TypeAfter(log: EventLog, tid: ThreadId): Option<EdgeType>
    decreases |log|, 2
  {
    if log == [] then None
    else
      var init := log[..|log| - 1];
      var before := TypeAfter(init, tid);
      match log[|log| - 1].event
      case ThreadStatus(t, status) =>
        if t != tid then before
        else if status.Some? then Some(StatusType(status))
        else if before == Some(Unknown) then before
        else None
      case Ttwu(cpu, _, target) =>
        var interrupts := InterruptsAfter(init, cpu);
        if target == tid && before == Some(WaitBlocked) && interrupts != [] && interrupts[|interrupts| - 1].node.None?
        then Some(interrupts[|interrupts| - 1].etype)
        else before
      case _ => before
  }

  /** The interrupts a CPU is in, each with the node of the packet that it received last. */
  function InterruptsAfter(log: EventLog, cpu: Cpu): seq<InterruptContext>
    decreases |log|, 2
  {
    if log == [] then []
    else
      var init, e := log[..|log| - 1], log[|log| - 1].event;
      InterruptsNext(InterruptsAfter(init, cpu), if e.InetSockLocalIn? then PacketAfter(init, e.key) else None, cpu, e)
  }

  /** The interrupts of a CPU after an event, which may receive a packet. */
  function InterruptsNext(before: seq<InterruptContext>, packet: Option<NodeId>, cpu: Cpu, e: Event)
    : seq<InterruptContext>
  {
    match e
    case SoftIrqEntry(c, vec) => if c == cpu then Entered(before, ResolveSoftIRQ(vec)) else before
    case SoftIrqExit(c, vec) => if c == cpu then Left(before, ResolveSoftIRQ(vec)) else before
    case IrqHandlerEntry(c, irq) => if c == cpu then Entered(before, ResolveIRQ(irq)) else before
    case IrqHandlerExit(c, irq) => if c == cpu then Left(before, ResolveIRQ(irq)) else before
    case HrtimerExpireEntry(c) => if c == cpu then Entered(before, Timer) else before
    case HrtimerExpireExit(c) => if c == cpu then Left(before, Timer) else before
    case InetSockLocalIn(c, key) =>
      if c == cpu && before != [] && packet.Some? then
        before[|before| - 1 := before[|before| - 1].(node := packet)]
      else before
    case _ => before
  }

  function Entered(before: seq<InterruptContext>, etype: EdgeType): seq<InterruptContext> {
    before + [InterruptContext(etype, None)]
  }

  function Left(before: seq<InterruptContext>, etype: EdgeType): seq<InterruptContext> {
    if before != [] && before[|before| - 1].etype == etype then before[..|before| - 1] else before
  }

  /** The node of a packet that was sent outside interrupts, by a thread with a type, and not received. */
  function PacketAfter(log: EventLog, key: PacketKey): Option<NodeId>
    decreases |log|, 2
  {
    if log == [] then None
    else
      var init := log[..|log| - 1];
      match log[|log| - 1].event
      case InetSockLocalOut(cpu, tid, k) =>
        if k == key && InterruptsAfter(init, cpu) == [] && TypeAfter(init, tid).Some? then Some(NodesAfter(init) + 1)
        else PacketAfter(init, key)
      case InetSockLocalIn(cpu, k) =>
        if k == key && InterruptsAfter(init, cpu) != [] then None else PacketAfter(init, key)
      case _ => PacketAfter(init, key)
  }

  /** The threads that have been named after the disk journal. */
  predicate IsDiskThread(log: EventLog, tid: ThreadId) {
    tid != 0 && exists k :: 0 <= k < |log| && NamesJournal(log[k].event, tid)
  }

  predicate NamesJournal(e: Event, tid: ThreadId) {
    e.ThreadName? && e.tid == tid && e.name.Some? && "jbd2" <= e.name.value
  }

  /** The end of a thread's current link, at a new node. */
  function Cut(log: EventLog, tid: ThreadId, n: NodeId): seq<Gain>
    decreases |log|, 3
  {
    var etype, last := TypeAfter(log, tid), LastAfter(log, tid);
    if etype.Some? && last.Some? then [Mark(tid), Link(etype.value, last.value, n)] else []
  }

  /** What the next event adds to the graph. */
  function Gains(log: EventLog, e: Event): seq<Gain>
    decreases |log|, 4
  {
    var n := NodesAfter(log);
    match e
    case ThreadStatus(tid, status) =>
      if TypeAfter(log, tid) == Some(StatusType(status)) then []
      else if TypeAfter(log, tid).Some? then Cut(log, tid, n)
      else [Mark(tid)]
    case Ttwu(cpu, source, target) =>
      var interrupts := InterruptsAfter(log, cpu);
      if interrupts != [] then
        var packet := interrupts[|interrupts| - 1].node;
        if packet.None? || TypeAfter(log, target) != Some(WaitBlocked) then []
        else
          [Mark(NETWORK_THREAD), Link(Run, packet.value, n)] + Cut(log, target, n + 1) + [WakeUp(n, n + 1)]
      else if source == INVALID_THREAD || target == INVALID_THREAD || TypeAfter(log, source).None? then []
      else if TypeAfter(log, target).None? then Cut(log, source, n)
      else if source == target then Cut(log, source, n) + [Mark(source), Link(TypeAfter(log, source).value, n, n + 1)]
                                    + [WakeUp(n, n + 1)]
      else Cut(log, source, n) + Cut(log, target, n + 1) + [WakeUp(n, n + 1)]
    case InetSockLocalOut(cpu, tid, _) =>
      if InterruptsAfter(log, cpu) == [] && TypeAfter(log, tid).Some? then
        Cut(log, tid, n) + [Mark(NETWORK_THREAD), WakeUp(n, n + 1)]
      else []
    case _ => []
  }

  /** The disk wait that the next event ends, if it wakes a thread from one. */
  function DiskWait(log: EventLog, last: Stamped): seq<DiskInterval> {
    match last.event
    case Ttwu(cpu, source, target) =>
      var interrupts := InterruptsAfter(log, cpu);
      var byDisk :=
        if interrupts != [] then
          && TypeAfter(log, target) == Some(WaitBlocked)
          && interrupts[|interrupts| - 1] == InterruptContext(BlockDevice, None)
        else source != INVALID_THREAD && target != INVALID_THREAD && IsDiskThread(log, source);
      if byDisk && LastAfter(log, target).Some? then [DiskInterval(LastTime(log, target), last.ts, target)] else []
    case _ => []
  }

  function DiskWaits(log: EventLog): seq<DiskInterval> {
    if log == [] then []
    else DiskWaits(log[..|log| - 1]) + DiskWait(log[..|log| - 1], log[|log| - 1])
  }

  // ----- The handlers do so

  /** The state with an event's gains in its graph. */
  function Built(b: Block, gains: seq<Gain>): Block
    decreases |gains|
  {
    if gains == [] then b
    else
      match gains[0]
      case Mark(tid) => Built(b.NewNode(tid), gains[1..])
      case Link(etype, from, to) =>
        if from in b.g.nodes && to in b.g.nodes then Built(b.NewEdge(etype, OutHorizontal, from, to), gains[1..]) else b
      case WakeUp(from, to) =>
        if from in b.g.nodes && to in b.g.nodes then
          Built(b.NewEdge(Vertical, OutVertical, from, to), gains[1..])
        else b
  }

  ghost predicate TypesFollow(b: Block, log: EventLog) {
    forall tid: ThreadId :: TypeAfter(log, tid) == if tid in b.lastType then Some(b.lastType[tid]) else None
  }

  ghost predicate TablesFollow(b: Block, log: EventLog) {
    && (forall cpu: Cpu :: InterruptsAfter(log, cpu) == b.Stack(cpu))
    && (forall key :: PacketAfter(log, key) == if key in b.packets then Some(b.packets[key]) else None)
    && (forall tid: ThreadId :: IsDiskThread(log, tid) <==> tid in b.diskThreads)
  }

  ghost predicate NodesFollow(b: Block, log: EventLog) {
    && NodesAfter(log) == b.nextNode
    && (forall tid: ThreadId :: LastAfter(log, tid) == b.g.LastNode(tid))
    && (forall tid: ThreadId | b.g.LastNode(tid).Some? ::
          b.g.LastNode(tid).value in b.g.nodes && b.g.nodes[b.g.LastNode(tid).value].ts == LastTime(log, tid))
  }

  /** The state is as the log says. */
  ghost predicate Follows(b: Block, log: EventLog) {
    TypesFollow(b, log) && TablesFollow(b, log) && NodesFollow(b, log) && b.requests == DiskWaits(log)
  }

  lemma NextLog(log: EventLog, last: Stamped)
    ensures (log + [last])[..|log + [last]| - 1] == log && (log + [last])[|log + [last]| - 1] == last
  {
  }

  /** All ends of the links and wake-ups exist when they are added. */
  predicate Buildable(b: Block, gains: seq<Gain>)
    decreases |gains|
  {
    if gains == [] then true
    else
      match gains[0]
      case Mark(tid) => Buildable(b.NewNode(tid), gains[1..])
      case Link(etype, from, to) =>
        from in b.g.nodes && to in b.g.nodes && Buildable(b.NewEdge(etype, OutHorizontal, from, to), gains[1..])
      case WakeUp(from, to) =>
        from in b.g.nodes && to in b.g.nodes && Buildable(b.NewEdge(Vertical, OutVertical, from, to), gains[1..])
  }

  /** `c` is `b` with the gains, in that order. */
  ghost predicate Becomes(b: Block, gains: seq<Gain>, c: Block) { Buildable(b, gains) && Built(b, gains) == c }

  lemma NothingBuilt(b: Block)
    ensures Becomes(b, [], b)
  {
  }

  lemma MarkBuilds(b: Block, tid: ThreadId, rest: seq<Gain>, c: Block)
    requires Becomes(b.NewNode(tid), rest, c)
    ensures Becomes(b, [Mark(tid)] + rest, c)
  {
    assert ([Mark(tid)] + rest)[1..] == rest;
    hide Block.NewNode;
  }

  lemma LinkBuilds(b: Block, etype: EdgeType, from: NodeId, to: NodeId, rest: seq<Gain>, c: Block)
    requires from in b.g.nodes && to in b.g.nodes && Becomes(b.NewEdge(etype, OutHorizontal, from, to), rest, c)
    ensures Becomes(b, [Link(etype, from, to)] + rest, c)
  {
    assert ([Link(etype, from, to)] + rest)[1..] == rest;
    hide Block.NewEdge;
  }

  lemma WakeUpBuilds(b: Block, from: NodeId, to: NodeId)
    requires from in b.g.nodes && to in b.g.nodes
    ensures Becomes(b, [WakeUp(from, to)], b.NewEdge(Vertical, OutVertical, from, to))
  {
    hide Block.NewEdge;
    NothingBuilt(b.NewEdge(Vertical, OutVertical, from, to));
    assert [WakeUp(from, to)][1..] == [];
  }

  /** Cutting a thread with a type adds what the log says. */
  lemma CutBuilds(c: Block, log: EventLog, tid: ThreadId, rest: seq<Gain>, d: Block)
    requires c.Closed() && c.Cuttable(tid) && TypeAfter(log, tid) == Some(c.lastType[tid])
    requires c.g.LastNode(tid) == LastAfter(log, tid) && Becomes(c.CutThread(tid), rest, d)
    ensures Becomes(c, Cut(log, tid, c.nextNode) + rest, d)
  {
    var etype, last := c.lastType[tid], c.g.LastNode(tid).value;
    CutEnds(c, tid);
    hide Block.Closed, Becomes, Graph.LastNode;
    assert Cut(log, tid, c.nextNode) + rest == [Mark(tid)] + ([Link(etype, last, c.nextNode)] + rest);
    LinkBuilds(c.NewNode(tid), etype, last, c.nextNode, rest, d);
    MarkBuilds(c, tid, [Link(etype, last, c.nextNode)] + rest, d);
  }

  lemma CutEnds(c: Block, tid: ThreadId)
    requires c.Closed() && c.Cuttable(tid)
    ensures c.g.LastNode(tid).value in c.NewNode(tid).g.nodes && c.nextNode in c.NewNode(tid).g.nodes
    ensures c.CutThread(tid)
         == c.NewNode(tid).NewEdge(c.lastType[tid], OutHorizontal, c.g.LastNode(tid).value, c.nextNode)
  {
  }

  // ----- What gains do to the nodes

  ghost predicate Fresh(b: Block) { forall n <- b.g.nodes :: n < b.nextNode }

  ghost predicate Gained(b: Block, gains: seq<Gain>, c: Block) {
    && c.nextNode == b.nextNode + CountNodes(gains) && c.now == b.now
    && (forall n <- b.g.nodes :: n in c.g.nodes && c.g.nodes[n].ts == b.g.nodes[n].ts)
    && (forall tid: ThreadId ::
          var gained := LastIn(gains, tid, b.nextNode);
          c.g.LastNode(tid) == if gained.Some? then gained else b.g.LastNode(tid))
    && (forall tid: ThreadId | LastIn(gains, tid, b.nextNode).Some? ::
          var n := LastIn(gains, tid, b.nextNode).value; n in c.g.nodes && c.g.nodes[n].ts == b.now)
  }

  lemma {:induction false} BuiltGains(b: Block, gains: seq<Gain>)
    requires Fresh(b) && Buildable(b, gains)
    ensures Gained(b, gains, Built(b, gains))
    decreases |gains|
  {
    if gains != [] {
      match gains[0] {
        case Mark(tid) =>
          NewNodeMarks(b, tid);
          BuiltGains(b.NewNode(tid), gains[1..]);
          hide Graph.LastNode, Block.NewNode, Block.NewEdge, Built, Fresh;
        case Link(etype, from, to) =>
          NewEdgeMarks(b, etype, OutHorizontal, from, to);
          BuiltGains(b.NewEdge(etype, OutHorizontal, from, to), gains[1..]);
          hide Graph.LastNode, Block.NewNode, Block.NewEdge, Built, Fresh;
        case WakeUp(from, to) =>
          NewEdgeMarks(b, Vertical, OutVertical, from, to);
          BuiltGains(b.NewEdge(Vertical, OutVertical, from, to), gains[1..]);
          hide Graph.LastNode, Block.NewNode, Block.NewEdge, Built, Fresh;
      }
    }
  }

  lemma NewNodeMarks(b: Block, tid: ThreadId)
    requires Fresh(b)
    ensures var c := b.NewNode(tid);
            && Fresh(c) && c.nextNode == b.nextNode + 1 && c.now == b.now
            && (forall n <- b.g.nodes :: n in c.g.nodes && c.g.nodes[n].ts == b.g.nodes[n].ts)
            && b.nextNode in c.g.nodes && c.g.nodes[b.nextNode].ts == b.now
            && c.g.LastNode(tid) == Some(b.nextNode) && forall t | t != tid :: c.g.LastNode(t) == b.g.LastNode(t)
  {
  }

  lemma NewEdgeMarks(b: Block, etype: EdgeType, out: Position, from: NodeId, to: NodeId)
    requires Fresh(b) && from in b.g.nodes && to in b.g.nodes
    ensures var c := b.NewEdge(etype, out, from, to);
            && Fresh(c) && c.nextNode == b.nextNode && c.now == b.now
            && (forall n <- b.g.nodes :: n in c.g.nodes && c.g.nodes[n].ts == b.g.nodes[n].ts)
            && forall t :: c.g.LastNode(t) == b.g.LastNode(t)
  {
  }

  // ----- The handlers

  /** The handler adds to the graph what the log says. */
  ghost predicate Adds(b: Block, log: EventLog, e: Event, d: Block) {
    && Buildable(b, Gains(log, e))
    && var c := Built(b, Gains(log, e)); d.g == c.g && d.nextNode == c.nextNode && d.nextEdge == c.nextEdge
  }

  lemma BecomesAdds(b: Block, log: EventLog, e: Event, c: Block, d: Block)
    requires Becomes(b, Gains(log, e), c) && d.g == c.g && d.nextNode == c.nextNode && d.nextEdge == c.nextEdge
    ensures Adds(b, log, e, d)
  {
  }

  lemma TypedIsCuttable(b: Block, tid: ThreadId)
    requires Inv(b) && tid in b.lastType
    ensures b.Cuttable(tid) && tid != NETWORK_THREAD
  {
  }

  lemma StatusAdds(b: Block, log: EventLog, tid: ThreadId, status: Option<Status>)
    requires Inv(b) && b.Closed() && TypesFollow(b, log) && NodesFollow(b, log)
    ensures Adds(b, log, ThreadStatus(tid, status), b.OnThreadStatus(tid, status))
  {
    hide Inv, Block.Closed, Block.CutThread, Block.NewNode, Becomes, Cut, Graph.LastNode, Adds;
    var e := ThreadStatus(tid, status);
    assert TypeAfter(log, tid) == if tid in b.lastType then Some(b.lastType[tid]) else None;
    if tid in b.lastType && b.lastType[tid] == StatusType(status) {
      NothingBuilt(b);
      BecomesAdds(b, log, e, b, b);
    } else if tid in b.lastType {
      TypedIsCuttable(b, tid);
      assert LastAfter(log, tid) == b.g.LastNode(tid);
      NothingBuilt(b.CutThread(tid));
      CutBuilds(b, log, tid, [], b.CutThread(tid));
      assert Cut(log, tid, b.nextNode) + [] == Cut(log, tid, b.nextNode);
      BecomesAdds(b, log, e, b.CutThread(tid), b.OnThreadStatus(tid, status));
    } else {
      NotCuttable(b, tid);
      NothingBuilt(b.NewNode(tid));
      MarkBuilds(b, tid, [], b.NewNode(tid));
      assert [Mark(tid)] + [] == [Mark(tid)];
      BecomesAdds(b, log, e, b.NewNode(tid), b.OnThreadStatus(tid, status));
    }
  }

  lemma NotCuttable(b: Block, tid: ThreadId)
    requires tid !in b.lastType
    ensures !b.Cuttable(tid)
  {
  }

  lemma PacketOutAdds(b: Block, log: EventLog, cpu: Cpu, tid: ThreadId, key: PacketKey)
    requires Inv(b) && b.Closed() && TypesFollow(b, log) && NodesFollow(b, log) && TablesFollow(b, log)
    ensures Adds(b, log, InetSockLocalOut(cpu, tid, key), b.OnInetSockLocalOut(cpu, tid, key))
  {
    hide Inv, Block.Closed, Block.CutThread, Block.NewNode, Block.NewEdge, Becomes, Cut, Graph.LastNode, Adds, Later,
      NetworkNode;
    var e, n := InetSockLocalOut(cpu, tid, key), b.nextNode;
    assert TypeAfter(log, tid) == if tid in b.lastType then Some(b.lastType[tid]) else None;
    assert InterruptsAfter(log, cpu) == b.Stack(cpu);
    if b.Stack(cpu) == [] && tid in b.lastType {
      TypedIsCuttable(b, tid);
      assert LastAfter(log, tid) == b.g.LastNode(tid);
      var c := b.CutThread(tid);
      CutThreadInv(b, tid);
      NetworkNodeInv(c);
      var m := c.NewNode(NETWORK_THREAD);
      NodeIsKept(c, m, n);
      NetworkHas(m, n + 1);
      var d := m.NewEdge(Vertical, OutVertical, n, n + 1);
      WakeUpBuilds(m, n, n + 1);
      MarkBuilds(c, NETWORK_THREAD, [WakeUp(n, n + 1)], d);
      var rest := [Mark(NETWORK_THREAD)] + [WakeUp(n, n + 1)];
      assert rest == [Mark(NETWORK_THREAD), WakeUp(n, n + 1)];
      CutBuilds(b, log, tid, rest, d);
      BecomesAdds(b, log, e, d, b.OnInetSockLocalOut(cpu, tid, key));
    } else {
      if tid !in b.lastType { NotCuttable(b, tid); }
      NothingBuilt(b);
      BecomesAdds(b, log, e, b, b);
    }
  }

  lemma NetworkHas(b: Block, n: NodeId)
    requires NetworkNode(b.g, n)
    ensures n in b.g.nodes && b.g.nodes[n].tid == NETWORK_THREAD
  {
  }

  /** The network's new node after a packet, linked from the packet's node. */
  function PacketArrives(b: Block, from: NodeId): Block
    requires b.Closed() && from in b.g.nodes
  {
    b.NewNode(NETWORK_THREAD).NewEdge(Run, OutHorizontal, from, b.nextNode)
  }

  lemma PacketArrivesInv(b: Block, from: NodeId, target: ThreadId)
    requires Inv(b) && b.Closed() && NetworkNode(b.g, from) && target in b.lastType
    ensures from in b.g.nodes && target != NETWORK_THREAD
    ensures var d, n := PacketArrives(b, from), b.nextNode;
            && Inv(d) && d.Closed() && d.Cuttable(target) && d.nextNode == n + 1 && n in d.g.nodes
            && d.g.LastNode(target) == b.g.LastNode(target) && d.lastType == b.lastType
            && from in b.NewNode(NETWORK_THREAD).g.nodes && n in b.NewNode(NETWORK_THREAD).g.nodes
  {
    hide Inv, Block.Closed, Block.NewNode, Block.NewEdge, Graph.LastNode, Later, NetworkNode;
    var n, m := b.nextNode, b.NewNode(NETWORK_THREAD);
    NetworkHas(b, from);
    TypedIsCuttable(b, target);
    NewNodeFrame(b, NETWORK_THREAD);
    NetworkNodeInv(b);
    NetworkHas(m, n);
    NodeIsKept(b, m, from);
    NodeIsOld(b, from);
    StillNetwork(b, m, from);
    NetworkEdgeInv(m, from, n);
    var d := m.NewEdge(Run, OutHorizontal, from, n);
    InvIsClosed(d);
    NodeIsKept(m, d, n);
    OthersLast(b, m, d, from, target);
  }

  lemma PacketCut(d: Block, target: ThreadId, n: NodeId)
    requires Inv(d) && d.Closed() && d.Cuttable(target) && n in d.g.nodes && target != NETWORK_THREAD
    ensures n in d.CutThread(target).g.nodes && d.nextNode in d.CutThread(target).g.nodes
  {
    hide Inv, Block.Closed, Block.CutThread, Graph.LastNode, Later;
    CutThreadInv(d, target);
    NodeIsKept(d, d.CutThread(target), n);
  }

  lemma PacketWakes(b: Block, log: EventLog, from: NodeId, target: ThreadId, d: Block, c: Block) returns (g: Block)
    requires from in b.g.nodes && target in b.lastType && b.Closed() && d == PacketArrives(b, from)
    requires target in d.lastType && d.nextNode == b.nextNode + 1
    requires TypeAfter(log, target) == Some(d.lastType[target]) && LastAfter(log, target) == d.g.LastNode(target)
    requires from in b.NewNode(NETWORK_THREAD).g.nodes && b.nextNode in b.NewNode(NETWORK_THREAD).g.nodes
    requires d.Cuttable(target) && d.Closed() && c == d.CutThread(target)
    requires b.nextNode in c.g.nodes && b.nextNode + 1 in c.g.nodes
    ensures var n := b.nextNode;
            && g == c.NewEdge(Vertical, OutVertical, n, n + 1)
            && Becomes(b, [Mark(NETWORK_THREAD), Link(Run, from, n)] + Cut(log, target, n + 1) + [WakeUp(n, n + 1)], g)
  {
    hide Block.Closed, Block.CutThread, Block.NewNode, Block.NewEdge, Becomes, Cut, Graph.LastNode;
    var n := b.nextNode;
    g := c.NewEdge(Vertical, OutVertical, n, n + 1);
    WakeUpBuilds(c, n, n + 1);
    CutBuilds(d, log, target, [WakeUp(n, n + 1)], g);
    var rest := Cut(log, target, n + 1) + [WakeUp(n, n + 1)];
    LinkBuilds(b.NewNode(NETWORK_THREAD), Run, from, n, rest, g);
    MarkBuilds(b, NETWORK_THREAD, [Link(Run, from, n)] + rest, g);
    assert [Mark(NETWORK_THREAD)] + ([Link(Run, from, n)] + rest)
        == [Mark(NETWORK_THREAD), Link(Run, from, n)] + Cut(log, target, n + 1) + [WakeUp(n, n + 1)];
  }

  lemma PacketHandlerIs(b: Block, top: InterruptContext, target: ThreadId)
    requires b.Closed() && top.node.Some? && top.node.value in b.g.nodes
    requires target in b.lastType && b.lastType[target] == WaitBlocked
    requires var d := PacketArrives(b, top.node.value);
             && d.Closed() && d.Cuttable(target)
             && b.nextNode in d.CutThread(target).g.nodes && b.nextNode + 1 in d.CutThread(target).g.nodes
    ensures b.OnWakeupFromInterrupt(top, target)
         == PacketArrives(b, top.node.value).CutThread(target)
                                            .NewEdge(Vertical, OutVertical, b.nextNode, b.nextNode + 1)
  {
    hide Block.Closed, Block.CutThread, Graph.LastNode, Graph.Link, Graph.AddNode;
  }

  lemma QuietHandlerIs(b: Block, top: InterruptContext, target: ThreadId)
    requires Inv(b) && b.Closed() && (top.node.Some? ==> top.node.value in b.g.nodes)
    requires top.node.None? || target !in b.lastType || b.lastType[target] != WaitBlocked
    ensures var d := b.OnWakeupFromInterrupt(top, target);
            d.g == b.g && d.nextNode == b.nextNode && d.nextEdge == b.nextEdge
  {
    hide Inv, Block.Closed, Block.CutThread, Block.NewNode, Block.NewEdge, Block.RequestDisk;
    RequestDiskInv(b, target);
  }

  lemma TopIsNetwork(b: Block, cpu: Cpu)
    requires Inv(b) && b.Stack(cpu) != []
    ensures var top := b.Stack(cpu)[|b.Stack(cpu)| - 1]; top.node.Some? ==> NetworkNode(b.g, top.node.value)
  {
    StackTopOk(b, cpu);
  }

  lemma KnownThread(b: Block, log: EventLog, tid: ThreadId)
    requires TypesFollow(b, log) && NodesFollow(b, log)
    ensures TypeAfter(log, tid) == if tid in b.lastType then Some(b.lastType[tid]) else None
    ensures LastAfter(log, tid) == b.g.LastNode(tid) && NodesAfter(log) == b.nextNode
  {
  }

  lemma FollowsAt(b: Block, log: EventLog, tid: ThreadId, cpu: Cpu)
    requires TypesFollow(b, log) && NodesFollow(b, log) && TablesFollow(b, log)
    ensures TypeAfter(log, tid) == if tid in b.lastType then Some(b.lastType[tid]) else None
    ensures InterruptsAfter(log, cpu) == b.Stack(cpu)
    ensures LastAfter(log, tid) == b.g.LastNode(tid) && NodesAfter(log) == b.nextNode
  {
  }

  lemma PacketWakeUpAdds(b: Block, log: EventLog, cpu: Cpu, source: ThreadId, target: ThreadId)
    requires Inv(b) && b.Closed() && TypesFollow(b, log) && NodesFollow(b, log) && TablesFollow(b, log)
    requires b.Stack(cpu) != []
    ensures Adds(b, log, Ttwu(cpu, source, target), b.OnTTWU(cpu, source, target))
  {
    hide Inv, Block.Closed, Block.CutThread, Block.NewNode, Block.NewEdge, Becomes, Cut, Graph.LastNode, Adds,
      NetworkNode, Block.OnWakeupFromInterrupt, PacketArrives, TypesFollow, NodesFollow, TablesFollow;
    var top, e := b.Stack(cpu)[|b.Stack(cpu)| - 1], Ttwu(cpu, source, target);
    TopIsNetwork(b, cpu);
    FollowsAt(b, log, target, cpu);
    if top.node.Some? { NetworkHas(b, top.node.value); }
    if target in b.lastType && b.lastType[target] == WaitBlocked && top.node.Some? {
      PacketArrivesInv(b, top.node.value, target);
      var d := PacketArrives(b, top.node.value);
      PacketCut(d, target, b.nextNode);
      var g := PacketWakes(b, log, top.node.value, target, d, d.CutThread(target));
      PacketHandlerIs(b, top, target);
      BecomesAdds(b, log, e, g, b.OnTTWU(cpu, source, target));
    } else {
      NothingBuilt(b);
      QuietHandlerIs(b, top, target);
      BecomesAdds(b, log, e, b, b.OnTTWU(cpu, source, target));
    }
  }

  lemma StillNetwork(b: Block, c: Block, n: NodeId)
    requires Later(b, c) && NetworkNode(b.g, n)
    ensures NetworkNode(c.g, n)
  {
  }

  lemma OthersLast(b: Block, m: Block, d: Block, from: NodeId, target: ThreadId)
    requires m == b.NewNode(NETWORK_THREAD) && from in m.g.nodes && b.nextNode in m.g.nodes
    requires d == m.NewEdge(Run, OutHorizontal, from, b.nextNode) && target != NETWORK_THREAD
    ensures d.g.LastNode(target) == b.g.LastNode(target) && d.lastType == b.lastType && d.nextNode == b.nextNode + 1
    ensures b.Cuttable(target) ==> d.Cuttable(target)
  {
  }

  lemma ThreadWakeUpAdds(b: Block, log: EventLog, cpu: Cpu, source: ThreadId, target: ThreadId)
    requires Inv(b) && b.Closed() && TypesFollow(b, log) && NodesFollow(b, log) && TablesFollow(b, log)
    requires b.Stack(cpu) == []
    ensures Adds(b, log, Ttwu(cpu, source, target), b.OnTTWU(cpu, source, target))
  {
    hide Inv, Block.Closed, Block.CutThread, Block.NewNode, Block.NewEdge, Becomes, Cut, Graph.LastNode, Adds,
      Block.RequestDisk;
    var e := Ttwu(cpu, source, target);
    assert TypeAfter(log, source) == if source in b.lastType then Some(b.lastType[source]) else None;
    assert TypeAfter(log, target) == if target in b.lastType then Some(b.lastType[target]) else None;
    assert InterruptsAfter(log, cpu) == b.Stack(cpu);
    if source == INVALID_THREAD || target == INVALID_THREAD {
      NothingBuilt(b);
      BecomesAdds(b, log, e, b, b);
    } else {
      RequestDiskInv(b, target);
      var b0 := if source in b.diskThreads then b.RequestDisk(target) else b;
      SameFollows(b, b0, log);
      BetweenAdds(b0, log, cpu, source, target);
      RequestsAside(b0, Gains(log, e), b.requests);
      assert b0.(requests := b.requests) == b;
      AddsAside(b, b0, log, e, b.OnTTWUBetweenThreads(source, target));
    }
  }

  lemma AddsAside(b: Block, b0: Block, log: EventLog, e: Event, d: Block)
    requires Adds(b0, log, e, d) && Buildable(b, Gains(log, e)) == Buildable(b0, Gains(log, e))
    requires Built(b, Gains(log, e)) == Built(b0, Gains(log, e)).(requests := b.requests)
    ensures Adds(b, log, e, d)
  {
  }

  lemma SameFollows(b: Block, c: Block, log: EventLog)
    requires TypesFollow(b, log) && NodesFollow(b, log) && c == b.(requests := c.requests)
    ensures TypesFollow(c, log) && NodesFollow(c, log)
  {
  }

  /** The recorded disk waits are no part of the graph. */
  lemma {:induction false} RequestsAside(b: Block, gains: seq<Gain>, requests: seq<DiskInterval>)
    ensures Buildable(b.(requests := requests), gains) == Buildable(b, gains)
    ensures Built(b.(requests := requests), gains) == Built(b, gains).(requests := requests)
    decreases |gains|
  {
    if gains != [] {
      match gains[0] {
        case Mark(tid) => RequestsAside(b.NewNode(tid), gains[1..], requests);
        case Link(etype, from, to) =>
          if from in b.g.nodes && to in b.g.nodes {
            RequestsAside(b.NewEdge(etype, OutHorizontal, from, to), gains[1..], requests);
          }
        case WakeUp(from, to) =>
          if from in b.g.nodes && to in b.g.nodes {
            RequestsAside(b.NewEdge(Vertical, OutVertical, from, to), gains[1..], requests);
          }
      }
    }
  }

  /** What a wake-up between two threads comes to, after a disk wait is recorded. */
  function Between(b: Block, source: ThreadId, target: ThreadId): Block
    requires b.Closed()
  {
    if !b.Cuttable(source) then b
    else
      var b1 := b.CutThread(source);
      if !b1.Cuttable(target) then b1
      else b1.CutThread(target).NewEdge(Vertical, OutVertical, b.nextNode, b1.nextNode)
  }

  lemma BetweenAdds(b: Block, log: EventLog, cpu: Cpu, source: ThreadId, target: ThreadId)
    requires Inv(b) && b.Closed() && TypesFollow(b, log) && NodesFollow(b, log) && InterruptsAfter(log, cpu) == []
    requires source != INVALID_THREAD && target != INVALID_THREAD
    ensures Adds(b, log, Ttwu(cpu, source, target), Between(b, source, target))
  {
    hide Inv, Block.Closed, Block.CutThread, Block.NewNode, Block.NewEdge, Becomes, Cut, Graph.LastNode, Adds,
      TypesFollow, NodesFollow;
    var e, n := Ttwu(cpu, source, target), b.nextNode;
    KnownThread(b, log, source);
    KnownThread(b, log, target);
    if source !in b.lastType {
      NotCuttable(b, source);
      NothingBuilt(b);
      BecomesAdds(b, log, e, b, b);
    } else {
      TypedIsCuttable(b, source);
      CutThreadInv(b, source);
      IdsAreFresh(b);
      CutThreadEffect(b, source);
      var b1 := b.CutThread(source);
      InvIsClosed(b1);
      if target !in b.lastType {
        NotCuttable(b1, target);
        NothingBuilt(b1);
        CutBuilds(b, log, source, [], b1);
        assert Cut(log, source, n) + [] == Cut(log, source, n);
        BecomesAdds(b, log, e, b1, b1);
      } else {
        TypedIsCuttable(b1, target);
        CutThreadInv(b1, target);
        var b2 := b1.CutThread(target);
        NodeStays(b1, b2, n);
        var d := b2.NewEdge(Vertical, OutVertical, n, n + 1);
        WakeUpBuilds(b2, n, n + 1);
        if source == target {
          CutEnds(b1, source);
          LinkBuilds(b1.NewNode(source), b.lastType[source], n, n + 1, [WakeUp(n, n + 1)], d);
          MarkBuilds(b1, source, [Link(b.lastType[source], n, n + 1)] + [WakeUp(n, n + 1)], d);
          var rest := [Mark(source)] + ([Link(b.lastType[source], n, n + 1)] + [WakeUp(n, n + 1)]);
          CutBuilds(b, log, source, rest, d);
          assert Cut(log, source, n) + rest == Gains(log, e);
        } else {
          CutBuilds(b1, log, target, [WakeUp(n, n + 1)], d);
          CutBuilds(b, log, source, Cut(log, target, n + 1) + [WakeUp(n, n + 1)], d);
          assert Cut(log, source, n) + (Cut(log, target, n + 1) + [WakeUp(n, n + 1)])
              == Cut(log, source, n) + Cut(log, target, n + 1) + [WakeUp(n, n + 1)];
        }
        BecomesAdds(b, log, e, d, d);
      }
    }
  }

  lemma NodeStays(b: Block, c: Block, n: NodeId)
    requires Later(b, c) && n in b.g.nodes
    ensures n in c.g.nodes
  {
  }

  lemma HandleAdds(b: Block, log: EventLog, e: Event)
    requires Inv(b) && b.Closed() && TypesFollow(b, log) && NodesFollow(b, log) && TablesFollow(b, log)
    ensures Adds(b, log, e, b.Handle(e))
  {
    hide Inv, Block.Closed, TypesFollow, TablesFollow, NodesFollow, Block.OnThreadStatus, Block.OnInetSockLocalOut,
      Block.OnTTWU, Adds, Becomes;
    match e {
      case ThreadStatus(tid, status) => StatusAdds(b, log, tid, status);
      case InetSockLocalOut(cpu, tid, key) => PacketOutAdds(b, log, cpu, tid, key);
      case Ttwu(cpu, source, target) =>
        if b.Stack(cpu) == [] { ThreadWakeUpAdds(b, log, cpu, source, target); }
        else { PacketWakeUpAdds(b, log, cpu, source, target); }
      case _ =>
        NothingBuilt(b);
        BecomesAdds(b, log, e, b, b.Handle(e));
    }
  }

  // ----- Tables

  /** `c` differs from `b` in its graph only. */
  ghost predicate SameTables(b: Block, c: Block) {
    c.(g := b.g, nextNode := b.nextNode, nextEdge := b.nextEdge) == b
  }

  lemma BetweenTables(b: Block, source: ThreadId, target: ThreadId)
    requires b.Closed()
    ensures SameTables(b, Between(b, source, target))
  {
    hide Graph.AddNode, Graph.Link, Graph.LastNode, Block.Closed;
  }

  lemma ThreadWakeUpTables(b: Block, cpu: Cpu, source: ThreadId, target: ThreadId)
    requires Inv(b) && b.Closed() && b.Stack(cpu) == []
    ensures var d := b.OnTTWU(cpu, source, target);
            && d.lastType == b.lastType && d.context == b.context && d.packets == b.packets
            && d.diskThreads == b.diskThreads
    ensures b.OnTTWU(cpu, source, target).requests
         == if source != INVALID_THREAD && target != INVALID_THREAD && source in b.diskThreads
            then b.RequestDisk(target).requests else b.requests
  {
    hide Inv, Block.Closed, Block.CutThread, Block.NewEdge, Block.RequestDisk, Graph.LastNode;
    RequestDiskInv(b, target);
    var b0 := if source in b.diskThreads then b.RequestDisk(target) else b;
    BetweenTables(b0, source, target);
    BetweenIs(b, source, target);
  }

  lemma BetweenIs(b: Block, source: ThreadId, target: ThreadId)
    requires b.Closed() && b.RequestDisk(target).Closed()
    ensures b.OnTTWUBetweenThreads(source, target)
         == Between(if source in b.diskThreads then b.RequestDisk(target) else b, source, target)
  {
    hide Block.Closed, Block.CutThread, Block.NewEdge, Block.RequestDisk, Graph.LastNode;
  }

  lemma InterruptWakeUpTables(b: Block, cpu: Cpu, source: ThreadId, target: ThreadId)
    requires Inv(b) && b.Closed() && b.Stack(cpu) != []
    ensures var d, top := b.OnTTWU(cpu, source, target), b.Stack(cpu)[|b.Stack(cpu)| - 1];
            var woken := target in b.lastType && b.lastType[target] == WaitBlocked && top.node.None?;
            && d.context == b.context && d.packets == b.packets && d.diskThreads == b.diskThreads
            && d.lastType == (if woken then b.lastType[target := top.etype] else b.lastType)
            && d.requests == if woken && top.etype == BlockDevice then b.RequestDisk(target).requests else b.requests
  {
    var top := b.Stack(cpu)[|b.Stack(cpu)| - 1];
    TopIsNetwork(b, cpu);
    RequestDiskInv(b, target);
    hide Inv, Graph.AddNode, Graph.Link, Graph.LastNode, Block.Closed, Block.RequestDisk;
  }

  lemma PacketOutTables(b: Block, cpu: Cpu, tid: ThreadId, key: PacketKey)
    requires Inv(b) && b.Closed()
    ensures var d := b.OnInetSockLocalOut(cpu, tid, key);
            && d.lastType == b.lastType && d.context == b.context && d.diskThreads == b.diskThreads
            && d.requests == b.requests
            && d.packets
               == if b.Stack(cpu) == [] && tid in b.lastType then b.packets[key := b.nextNode + 1] else b.packets
  {
    hide Inv, Graph.AddNode, Graph.Link, Graph.LastNode, Block.Closed;
    if tid in b.lastType { TypedIsCuttable(b, tid); } else { NotCuttable(b, tid); }
  }

  lemma StatusTables(b: Block, tid: ThreadId, status: Option<Status>)
    requires Inv(b) && b.Closed()
    ensures var d := b.OnThreadStatus(tid, status);
            && d.context == b.context && d.packets == b.packets && d.diskThreads == b.diskThreads
            && d.requests == b.requests
            && d.lastType == if status.Some? then b.lastType[tid := StatusType(status)]
                             else if tid in b.lastType && b.lastType[tid] == Unknown then b.lastType
                             else b.lastType - {tid}
  {
    hide Inv, Graph.AddNode, Graph.Link, Graph.LastNode, Block.Closed;
    assert tid in b.lastType ==> b.lastType[tid := b.lastType[tid]] == b.lastType;
  }

  // ----- One event

  lemma TypesNext(b: Block, log: EventLog, last: Stamped)
    requires Inv(b) && b.Closed() && TypesFollow(b, log) && TablesFollow(b, log)
    ensures TypesFollow(b.Handle(last.event), log + [last])
  {
    NextLog(log, last);
    hide Inv, Block.Closed, Block.OnTTWU, Block.OnThreadStatus, Block.OnInetSockLocalOut;
    match last.event {
      case ThreadStatus(tid, status) => StatusTables(b, tid, status);
      case InetSockLocalOut(cpu, tid, key) => PacketOutTables(b, cpu, tid, key);
      case Ttwu(cpu, source, target) =>
        if b.Stack(cpu) == [] { ThreadWakeUpTables(b, cpu, source, target); }
        else { InterruptWakeUpTables(b, cpu, source, target); }
      case _ =>
    }
  }

  lemma JournalNext(log: EventLog, last: Stamped, tid: ThreadId)
    ensures IsDiskThread(log + [last], tid) <==> IsDiskThread(log, tid) || (tid != 0 && NamesJournal(last.event, tid))
  {
    var next := log + [last];
    if tid != 0 && NamesJournal(last.event, tid) { assert NamesJournal(next[|log|].event, tid); }
    if k :| 0 <= k < |log| && NamesJournal(log[k].event, tid) { assert NamesJournal(next[k].event, tid); }
    if k :| 0 <= k < |next| && NamesJournal(next[k].event, tid) {
      if k < |log| { assert NamesJournal(log[k].event, tid); }
    }
  }

  /** Waking, sending and changing status leave the interrupts and names alone, and but for sending the packets. */
  lemma OtherTables(b: Block, e: Event)
    requires Inv(b) && b.Closed() && (e.Ttwu? || e.ThreadStatus? || e.InetSockLocalOut?)
    ensures var d := b.Handle(e);
            && d.context == b.context && d.diskThreads == b.diskThreads
            && (!e.InetSockLocalOut? ==> d.packets == b.packets)
  {
    hide Inv, Block.Closed, Block.OnTTWU, Block.OnThreadStatus, Block.OnInetSockLocalOut;
    match e {
      case ThreadStatus(tid, status) => StatusTables(b, tid, status);
      case InetSockLocalOut(cpu, tid, key) => PacketOutTables(b, cpu, tid, key);
      case Ttwu(cpu, source, target) =>
        if b.Stack(cpu) == [] { ThreadWakeUpTables(b, cpu, source, target); }
        else { InterruptWakeUpTables(b, cpu, source, target); }
      case _ =>
    }
  }

  lemma StackNext(b: Block, e: Event, cpu: Cpu)
    requires Inv(b) && b.Closed()
    ensures var packet := if e.InetSockLocalIn? && e.key in b.packets then Some(b.packets[e.key]) else None;
            b.Handle(e).Stack(cpu) == InterruptsNext(b.Stack(cpu), packet, cpu, e)
  {
    hide Inv, Block.Closed, Block.OnTTWU, Block.OnThreadStatus, Block.OnInetSockLocalOut;
    if e.Ttwu? || e.ThreadStatus? || e.InetSockLocalOut? { OtherTables(b, e); }
  }

  lemma InterruptsFollow(b: Block, log: EventLog, last: Stamped, cpu: Cpu)
    requires Inv(b) && b.Closed() && TablesFollow(b, log)
    ensures InterruptsAfter(log + [last], cpu) == b.Handle(last.event).Stack(cpu)
  {
    hide Inv, Block.Closed, Block.Handle, TypeAfter, PacketAfter, IsDiskThread, Block.Stack, InterruptsNext;
    NextLog(log, last);
    StackNext(b, last.event, cpu);
  }

  lemma PacketsNext(b: Block, log: EventLog, last: Stamped, key: PacketKey)
    requires Inv(b) && b.Closed() && TypesFollow(b, log) && TablesFollow(b, log) && NodesAfter(log) == b.nextNode
    ensures var d := b.Handle(last.event);
            PacketAfter(log + [last], key) == if key in d.packets then Some(d.packets[key]) else None
  {
    NextLog(log, last);
    hide Inv, Block.Closed, Block.OnTTWU, Block.OnThreadStatus, Block.OnInetSockLocalOut, IsDiskThread, TypesFollow;
    var e := last.event;
    if e.Ttwu? || e.ThreadStatus? {
      OtherTables(b, e);
    } else if e.InetSockLocalOut? {
      PacketOutTables(b, e.cpu, e.tid, e.key);
      TypeIs(b, log, e.tid);
    }
  }

  lemma JournalFollows(b: Block, log: EventLog, last: Stamped, tid: ThreadId)
    requires Inv(b) && b.Closed() && TablesFollow(b, log)
    ensures IsDiskThread(log + [last], tid) <==> tid in b.Handle(last.event).diskThreads
  {
    JournalNext(log, last, tid);
    hide Inv, Block.Closed, Block.OnTTWU, Block.OnThreadStatus, Block.OnInetSockLocalOut, IsDiskThread;
    var e := last.event;
    if e.Ttwu? || e.ThreadStatus? || e.InetSockLocalOut? { OtherTables(b, e); }
  }

  /** The handlers of interrupts, packets and names are the log's. */
  lemma TablesNext(b: Block, log: EventLog, last: Stamped)
    requires Inv(b) && b.Closed() && TypesFollow(b, log) && TablesFollow(b, log) && NodesAfter(log) == b.nextNode
    ensures TablesFollow(b.Handle(last.event), log + [last])
  {
    var next, d := log + [last], b.Handle(last.event);
    hide Inv, Block.Closed, Block.Handle, IsDiskThread, TypesFollow, InterruptsAfter, PacketAfter, Block.Stack;
    forall cpu: Cpu
      ensures InterruptsAfter(next, cpu) == d.Stack(cpu)
    {
      InterruptsFollow(b, log, last, cpu);
    }
    forall key
      ensures PacketAfter(next, key) == if key in d.packets then Some(d.packets[key]) else None
    {
      PacketsNext(b, log, last, key);
    }
    forall tid: ThreadId
      ensures IsDiskThread(next, tid) <==> tid in d.diskThreads
    {
      JournalFollows(b, log, last, tid);
    }
  }

  lemma TypeIs(b: Block, log: EventLog, tid: ThreadId)
    requires TypesFollow(b, log)
    ensures TypeAfter(log, tid) == if tid in b.lastType then Some(b.lastType[tid]) else None
  {
  }

  lemma NodesNext(b: Block, log: EventLog, last: Stamped, d: Block)
    requires Inv(b) && b.now == last.ts && NodesFollow(b, log) && Adds(b, log, last.event, d)
    ensures NodesFollow(d, log + [last])
  {
    NextLog(log, last);
    assert Fresh(b) by { assert Aged(b); }
    hide Inv, Graph.LastNode, Gains, Fresh;
    BuiltGains(b, Gains(log, last.event));
  }

  lemma DiskNext(b: Block, log: EventLog, last: Stamped)
    requires Inv(b) && b.Closed() && b.now == last.ts && Follows(b, log)
    ensures b.Handle(last.event).requests == DiskWaits(log + [last])
  {
    NextLog(log, last);
    hide Inv, Block.Closed, Block.OnTTWU, Block.OnThreadStatus, Block.OnInetSockLocalOut, TypesFollow, TablesFollow,
      NodesFollow, DiskWaits, IsDiskThread;
    DiskWaitsNext(log, last);
    match last.event {
      case ThreadStatus(tid, status) => StatusTables(b, tid, status);
      case InetSockLocalOut(cpu, tid, key) => PacketOutTables(b, cpu, tid, key);
      case Ttwu(cpu, source, target) =>
        FollowsAt(b, log, target, cpu);
        DiskThreadIs(b, log, source);
        RequestIs(b, log, target);
        if b.Stack(cpu) == [] { ThreadWakeUpTables(b, cpu, source, target); }
        else { InterruptWakeUpTables(b, cpu, source, target); }
      case _ =>
    }
  }

  lemma DiskWaitsNext(log: EventLog, last: Stamped)
    ensures DiskWaits(log + [last]) == DiskWaits(log) + DiskWait(log, last)
  {
    NextLog(log, last);
  }

  lemma DiskThreadIs(b: Block, log: EventLog, tid: ThreadId)
    requires TablesFollow(b, log)
    ensures IsDiskThread(log, tid) <==> tid in b.diskThreads
  {
  }

  lemma RequestIs(b: Block, log: EventLog, tid: ThreadId)
    requires b.Closed() && NodesFollow(b, log)
    ensures b.RequestDisk(tid).requests == b.requests + if LastAfter(log, tid).None? then []
                                                        else [DiskInterval(LastTime(log, tid), b.now, tid)]
  {
    hide Block.Closed, Graph.LastNode;
    assert LastAfter(log, tid) == b.g.LastNode(tid);
  }

  // ----- Runs

  lemma EmptyFollows()
    ensures Follows(EMPTY, [])
  {
  }

  lemma LaterFollows(b: Block, log: EventLog, now: Timestamp)
    requires Follows(b, log)
    ensures Follows(b.(now := now), log)
  {
  }

  lemma EventFollows(b: Block, log: EventLog, last: Stamped)
    requires Inv(b) && b.Closed() && b.now == last.ts && Follows(b, log)
    ensures Follows(b.Handle(last.event), log + [last]) && Adds(b, log, last.event, b.Handle(last.event))
  {
    DiskNext(b, log, last);
    hide Inv, Block.Handle, Block.Closed, TypesFollow, TablesFollow, Adds;
    NodesFollowNumber(b, log);
    TypesNext(b, log, last);
    TablesNext(b, log, last);
    HandleAdds(b, log, last.event);
    hide NodesFollow;
    NodesNext(b, log, last, b.Handle(last.event));
  }

  lemma NodesFollowNumber(b: Block, log: EventLog)
    requires NodesFollow(b, log)
    ensures NodesAfter(log) == b.nextNode
  {
  }

  /** Every run leaves the types, interrupts, packets, last nodes and disk waits that its log says. */
  lemma {:induction false} RunFollows(log: EventLog)
    requires EventsOk(log)
    ensures Follows(CriticalBlockRun.Run(log), log)
  {
    hide Inv, Block.Handle, Block.Closed, Follows;
    if log == [] {
      EmptyFollows();
    } else {
      EventsOkPrefix(log);
      var init, last := log[..|log| - 1], log[|log| - 1];
      RunFollows(init);
      AdvanceInv(CriticalBlockRun.Run(init), last.ts);
      LaterFollows(CriticalBlockRun.Run(init), init, last.ts);
      assert log == init + [last];
      EventFollows(CriticalBlockRun.Run(init).(now := last.ts), init, last);
    }
  }

  /** What the last event of a run adds to the graph is what the log says. */
  lemma RunAdds(log: EventLog)
    requires EventsOk(log) && log != []
    ensures var init, last := log[..|log| - 1], log[|log| - 1];
            && EventsOk(init)
            && Adds(CriticalBlockRun.Run(init).(now := last.ts), init, last.event, CriticalBlockRun.Run(log))
  {
    hide Inv, Block.Handle, Block.Closed, Follows, Adds;
    EventsOkPrefix(log);
    var init, last := log[..|log| - 1], log[|log| - 1];
    RunFollows(init);
    AdvanceInv(CriticalBlockRun.Run(init), last.ts);
    LaterFollows(CriticalBlockRun.Run(init), init, last.ts);
    EventFollows(CriticalBlockRun.Run(init).(now := last.ts), init, last);
  }
}
