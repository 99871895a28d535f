/**
  How scheduling, interrupt and network events grow the critical graph.

  Events carry what their handlers read from the trace and from the current state: the CPU,
  the thread on it, and the decoded fields. `exits` is history: the nodes created by a
  thread's exit.
 */
module CriticalBlockSpec {
  import opened Common
  import opened CriticalGraphs

  type Cpu = nat

  const INVALID_THREAD: ThreadId := 0xFFFF_FFFF

  datatype PacketKey = PacketKey(seqNum: nat, ackSeq: nat, flags: nat)

  datatype Status = RunUsermode | RunSyscall | InterruptedStatus | WaitForCpu | Blocked | OtherStatus

  datatype InterruptContext = InterruptContext(etype: EdgeType, node: Option<NodeId>)

  datatype DiskInterval = DiskInterval(start: Timestamp, end: Timestamp, tid: ThreadId)

  datatype Event =
    | Ttwu(cpu: Cpu, source: ThreadId, target: ThreadId)
    | SoftIrqEntry(cpu: Cpu, vec: nat)
    | SoftIrqExit(cpu: Cpu, vec: nat)
    | IrqHandlerEntry(cpu: Cpu, irq: nat)
    | IrqHandlerExit(cpu: Cpu, irq: nat)
    | HrtimerExpireEntry(cpu: Cpu)
    | HrtimerExpireExit(cpu: Cpu)
    | InetSockLocalIn(cpu: Cpu, key: PacketKey)
    | InetSockLocalOut(cpu: Cpu, tid: ThreadId, key: PacketKey)
    | ThreadStatus(tid: ThreadId, status: Option<Status>)
    | ThreadName(tid: ThreadId, name: Option<string>)

  function ResolveIRQ(irq: nat): EdgeType {
    if irq == 0 then Interrupted else if irq == 19 || irq == 23 then UserInput else WaitBlocked
  }

  function ResolveSoftIRQ(vec: nat): EdgeType {
    if vec == 1 || vec == 8 then Timer
    else if vec == 4 || vec == 5 then BlockDevice
    else if vec == 2 || vec == 3 then Network
    else if vec == 7 then Interrupted
    else WaitBlocked
  }

  function StatusType(status: Option<Status>): EdgeType {
    match status
    case None => Unknown
    case Some(RunUsermode) => Run
    case Some(RunSyscall) => Run
    case Some(InterruptedStatus) => Interrupted
    case Some(WaitForCpu) => WaitCpu
    case Some(Blocked) => WaitBlocked
    case Some(OtherStatus) => Unknown
  }

  /** State of the handlers and of the graph they grow. */
  datatype Block = Block(now: Timestamp, g: Graph, nextNode: NodeId, nextEdge: EdgeId,
                         context: map<Cpu, seq<InterruptContext>>,
                         lastType: map<ThreadId, EdgeType>,
                         packets: map<PacketKey, NodeId>,
                         diskThreads: set<ThreadId>,
                         requests: seq<DiskInterval>,
                         exits: set<NodeId>)
  {
    /** Every node the state refers to exists. */
    ghost predicate Closed() {
      && (forall t <- g.threads, i | 0 <= i < |g.threads[t]| :: g.threads[t][i] in g.nodes)
      && (forall k <- packets :: packets[k] in g.nodes)
      && (forall c <- context, i | 0 <= i < |context[c]| ::
           context[c][i].node.Some? ==> context[c][i].node.value in g.nodes)
    }

    function Stack(cpu: Cpu): seq<InterruptContext> {
      if cpu in context then context[cpu] else []
    }

    function NewNode(tid: ThreadId): Block {
      this.(g := g.AddNode(nextNode, tid, now), nextNode := nextNode + 1)
    }

    function NewEdge(etype: EdgeType, out: Position, from: NodeId, to: NodeId): Block
      requires from in g.nodes && to in g.nodes
    {
      this.(g := g.Link(nextEdge, etype, out, from, to), nextEdge := nextEdge + 1)
    }

    /** A new node at the end of a thread, linked from the last one. */
    function Extend(tid: ThreadId, etype: EdgeType): Block
      requires Closed() && g.LastNode(tid).Some?
    {
      NewNode(tid).NewEdge(etype, OutHorizontal, g.LastNode(tid).value, nextNode)
    }

    predicate Cuttable(tid: ThreadId) { g.LastNode(tid).Some? && tid in lastType }

    /** Ends the current edge of a thread here; the new node is `nextNode`. */
    function CutThread(tid: ThreadId): (b: Block)
      requires Closed() && Cuttable(tid)
      ensures b.Closed()
    {
      Extend(tid, lastType[tid])
    }

    function RequestDisk(tid: ThreadId): Block
      requires Closed()
    {
      match g.LastNode(tid)
      case None => this
      case Some(n) => this.(requests := requests + [DiskInterval(g.nodes[n].ts, now, tid)])
    }

    function OnTTWUBetweenThreads(source: ThreadId, target: ThreadId): Block
      requires Closed()
    {
      var b := if source in diskThreads then RequestDisk(target) else this;
      if !b.Cuttable(source) then b
      else
        var b1 := b.CutThread(source);
        if !b1.Cuttable(target) then b1
        else b1.CutThread(target).NewEdge(Vertical, OutVertical, b.nextNode, b1.nextNode)
    }

    function OnWakeupFromInterrupt(context: InterruptContext, target: ThreadId): Block
      requires Closed() && (context.node.Some? ==> context.node.value in g.nodes)
    {
      if target !in lastType || lastType[target] != WaitBlocked then this
      else if context.node.Some? then
        var b := NewNode(NETWORK_THREAD).NewEdge(Run, OutHorizontal, context.node.value, nextNode);
        if !b.Cuttable(target) then b
        else b.CutThread(target).NewEdge(Vertical, OutVertical, nextNode, b.nextNode)
      else
        var b := if context.etype == BlockDevice then RequestDisk(target) else this;
        b.(lastType := lastType[target := context.etype])
    }

    function OnTTWU(cpu: Cpu, source: ThreadId, target: ThreadId): Block
      requires Closed()
    {
      var stack := Stack(cpu);
      if stack != [] then OnWakeupFromInterrupt(stack[|stack| - 1], target)
      else if source != INVALID_THREAD && target != INVALID_THREAD then OnTTWUBetweenThreads(source, target)
      else this
    }

    function Enter(cpu: Cpu, etype: EdgeType): Block {
      this.(context := context[cpu := Stack(cpu) + [InterruptContext(etype, None)]])
    }

    function Leave(cpu: Cpu, etype: EdgeType): Block {
      var stack := Stack(cpu);
      if stack == [] || stack[|stack| - 1].etype != etype then this
      else this.(context := context[cpu := stack[..|stack| - 1]])
    }

    function OnInetSockLocalIn(cpu: Cpu, key: PacketKey): Block {
      var stack := Stack(cpu);
      if key !in packets || stack == [] then this
      else
        var top := stack[|stack| - 1].(node := Some(packets[key]));
        this.(context := context[cpu := stack[..|stack| - 1] + [top]], packets := packets - {key})
    }

    function OnInetSockLocalOut(cpu: Cpu, tid: ThreadId, key: PacketKey): Block
      requires Closed()
    {
      if Stack(cpu) != [] || !Cuttable(tid) then this
      else
        var b := CutThread(tid);
        var b1 := b.NewNode(NETWORK_THREAD).NewEdge(Vertical, OutVertical, nextNode, b.nextNode);
        b1.(packets := packets[key := b.nextNode])
    }

    function OnThreadStatus(tid: ThreadId, status: Option<Status>): Block
      requires Closed()
    {
      var newType := StatusType(status);
      if tid in lastType && lastType[tid] == newType then this
      else
        var b := if Cuttable(tid) then CutThread(tid) else NewNode(tid);
        if status.Some? then b.(lastType := lastType[tid := newType])
        else b.(lastType := lastType - {tid}, exits := exits + {nextNode})
    }

    function OnThreadName(tid: ThreadId, name: Option<string>): Block {
      if tid != 0 && name.Some? && "jbd2" <= name.value then this.(diskThreads := diskThreads + {tid}) else this
    }

    function Handle(e: Event): Block
      requires Closed()
    {
      match e
      case Ttwu(cpu, source, target) => OnTTWU(cpu, source, target)
      case SoftIrqEntry(cpu, vec) => Enter(cpu, ResolveSoftIRQ(vec))
      case SoftIrqExit(cpu, vec) => Leave(cpu, ResolveSoftIRQ(vec))
      case IrqHandlerEntry(cpu, irq) => Enter(cpu, ResolveIRQ(irq))
      case IrqHandlerExit(cpu, irq) => Leave(cpu, ResolveIRQ(irq))
      case HrtimerExpireEntry(cpu) => Enter(cpu, Timer)
      case HrtimerExpireExit(cpu) => Leave(cpu, Timer)
      case InetSockLocalIn(cpu, key) => OnInetSockLocalIn(cpu, key)
      case InetSockLocalOut(cpu, tid, key) => OnInetSockLocalOut(cpu, tid, key)
      case ThreadStatus(tid, status) => OnThreadStatus(tid, status)
      case ThreadName(tid, name) => OnThreadName(tid, name)
    }
  }

  const EMPTY: Block := Block(0, Graph(map[], map[], map[]), 0, 0, map[], map[], map[], {}, [], {})
}
