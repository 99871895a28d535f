/** The event handlers, updating their tables and the shared graph in place. */
module CriticalBlocks {
  import opened Common
  import opened CriticalGraphs
  import opened GraphStore
  import opened CriticalBlockSpec
  import opened CriticalBlockInvariant
  import opened CriticalBlockRun

  class CriticalBlock {
    const graph: CriticalGraph
    var context: map<Cpu, seq<InterruptContext>>
    var lastEdgeTypePerThread: map<ThreadId, EdgeType>
    var networkNodes: map<PacketKey, NodeId>
    var diskThreads: set<ThreadId>
    var diskRequests: seq<DiskInterval>
    ghost var exits: set<NodeId>

    ghost function State(): Block
      reads this, graph
    {
      Block(graph.ts, graph.State(), graph.nextNode, graph.nextEdge, context, lastEdgeTypePerThread,
            networkNodes, diskThreads, diskRequests, exits)
    }

    constructor ()
      ensures fresh(graph) && State() == EMPTY
    {
      graph := new CriticalGraph();
      context, lastEdgeTypePerThread, networkNodes := map[], map[], map[];
      diskThreads, diskRequests, exits := {}, [], {};
    }

    method CutThread(tid: ThreadId) returns (node: Option<NodeId>)
      requires State().Closed()
      modifies graph
      ensures if old(State()).Cuttable(tid)
              then node == Some(old(graph.nextNode)) && State() == old(State()).CutThread(tid)
              else node == None && State() == old(State())
    {
      var prevNode := graph.GetLastNodeForThread(tid);
      if prevNode.None? { return None; }
      if tid !in lastEdgeTypePerThread { return None; }
      var nextNode := graph.CreateNode(tid);
      var _ := graph.CreateHorizontalEdge(lastEdgeTypePerThread[tid], prevNode.value, nextNode);
      return Some(nextNode);
    }

    method AddDiskRequest(target: ThreadId)
      requires State().Closed()
      modifies this`diskRequests
      ensures State() == old(State()).RequestDisk(target)
    {
      var diskNode := graph.GetLastNodeForThread(target);
      if diskNode.Some? {
        diskRequests := diskRequests + [DiskInterval(graph.nodes[diskNode.value].ts, graph.ts, target)];
      }
    }

    method OnTTWUBetweenThreads(source: ThreadId, target: ThreadId)
      requires State().Closed()
      modifies this`diskRequests, graph
      ensures State() == old(State()).OnTTWUBetweenThreads(source, target)
    {
      hide Block.CutThread, Block.NewEdge, Block.RequestDisk, Block.Closed;
      RequestKeeps(State(), target);
      if source in diskThreads {
        AddDiskRequest(target);
      }
      var nextNodeSource := CutThread(source);
      if nextNodeSource.None? { return; }
      var nextNodeTarget := CutThread(target);
      if nextNodeTarget.None? { return; }
      ghost var before := State();
      CutThreadNodes(old(State()), source, target);
      var _ := graph.CreateVerticalEdge(nextNodeSource.value, nextNodeTarget.value);
      assert State() == before.NewEdge(Vertical, OutVertical, nextNodeSource.value, nextNodeTarget.value) by {
        NewEdgeIs(before, Vertical, OutVertical, nextNodeSource.value, nextNodeTarget.value);
      }
    }

    method OnWakeupFromInterrupt(interrupt: InterruptContext, target: ThreadId)
      requires State().Closed() && (interrupt.node.Some? ==> interrupt.node.value in graph.nodes)
      modifies this, graph
      ensures State() == old(State()).OnWakeupFromInterrupt(interrupt, target)
    {
      if target !in lastEdgeTypePerThread || lastEdgeTypePerThread[target] != WaitBlocked { return; }
      if interrupt.node.Some? {
        hide Block.CutThread;
        var nextNetworkNode := graph.CreateNode(NETWORK_THREAD);
        var _ := graph.CreateHorizontalEdge(Run, interrupt.node.value, nextNetworkNode);
        assert State() == old(State()).NewNode(NETWORK_THREAD)
                          .NewEdge(Run, OutHorizontal, interrupt.node.value, nextNetworkNode);
        var nextThreadNode := CutThread(target);
        if nextThreadNode.None? { return; }
        ghost var before := State();
        assert nextNetworkNode in graph.nodes && nextThreadNode.value in graph.nodes by {
          CutKeepsNodes(old(State()).NewNode(NETWORK_THREAD)
                        .NewEdge(Run, OutHorizontal, interrupt.node.value, nextNetworkNode), target);
        }
        var _ := graph.CreateVerticalEdge(nextNetworkNode, nextThreadNode.value);
        return;
      }
      if interrupt.etype == BlockDevice && lastEdgeTypePerThread[target] != BlockDevice {
        AddDiskRequest(target);
      }
      lastEdgeTypePerThread := lastEdgeTypePerThread[target := interrupt.etype];
    }

    method OnTTWU(cpu: Cpu, source: ThreadId, target: ThreadId)
      requires State().Closed()
      modifies this, graph
      ensures State() == old(State()).OnTTWU(cpu, source, target)
    {
      hide Block.OnWakeupFromInterrupt, Block.OnTTWUBetweenThreads;
      var stack := if cpu in context then context[cpu] else [];
      if stack != [] {
        OnWakeupFromInterrupt(stack[|stack| - 1], target);
      } else if source != INVALID_THREAD && target != INVALID_THREAD {
        OnTTWUBetweenThreads(source, target);
      }
    }

    method EnterInterrupt(cpu: Cpu, etype: EdgeType)
      modifies this`context
      ensures State() == old(State()).Enter(cpu, etype)
    {
      var stack := if cpu in context then context[cpu] else [];
      context := context[cpu := stack + [InterruptContext(etype, None)]];
    }

    method LeaveInterrupt(cpu: Cpu, etype: EdgeType)
      modifies this`context
      ensures State() == old(State()).Leave(cpu, etype)
    {
      var stack := if cpu in context then context[cpu] else [];
      if stack == [] || stack[|stack| - 1].etype != etype { return; }
      context := context[cpu := stack[..|stack| - 1]];
    }

    method OnInetSockLocalIn(cpu: Cpu, key: PacketKey)
      modifies this`context, this`networkNodes
      ensures State() == old(State()).OnInetSockLocalIn(cpu, key)
    {
      if key !in networkNodes { return; }
      var networkNode := networkNodes[key];
      var stack := if cpu in context then context[cpu] else [];
      if stack == [] { return; }
      context := context[cpu := stack[..|stack| - 1] + [stack[|stack| - 1].(node := Some(networkNode))]];
      networkNodes := networkNodes - {key};
    }

    method OnInetSockLocalOut(cpu: Cpu, tid: ThreadId, key: PacketKey)
      requires State().Closed()
      modifies this`networkNodes, graph
      ensures State() == old(State()).OnInetSockLocalOut(cpu, tid, key)
    {
      hide Block.CutThread;
      var stack := if cpu in context then context[cpu] else [];
      if stack != [] { return; }
      var nextNodeSource := CutThread(tid);
      if nextNodeSource.None? { return; }
      CutKeepsNodes(old(State()), tid);
      var networkNode := graph.CreateNode(NETWORK_THREAD);
      var _ := graph.CreateVerticalEdge(nextNodeSource.value, networkNode);
      networkNodes := networkNodes[key := networkNode];
    }

    method OnThreadStatus(tid: ThreadId, status: Option<Status>)
      requires State().Closed()
      modifies this`lastEdgeTypePerThread, this`exits, graph
      ensures State() == old(State()).OnThreadStatus(tid, status)
    {
      var newEdgeType := StatusType(status);
      if tid in lastEdgeTypePerThread && lastEdgeTypePerThread[tid] == newEdgeType { return; }
      var prevNode := graph.GetLastNodeForThread(tid);
      var newNode := graph.CreateNode(tid);
      if prevNode.Some? && tid in lastEdgeTypePerThread {
        var _ := graph.CreateHorizontalEdge(lastEdgeTypePerThread[tid], prevNode.value, newNode);
      }
      if status.Some? {
        lastEdgeTypePerThread := lastEdgeTypePerThread[tid := newEdgeType];
      } else {
        lastEdgeTypePerThread := lastEdgeTypePerThread - {tid};
        exits := exits + {newNode};
      }
    }

    method OnThreadName(tid: ThreadId, name: Option<string>)
      modifies this`diskThreads
      ensures State() == old(State()).OnThreadName(tid, name)
    {
      if tid == 0 || name.None? { return; }
      if "jbd2" <= name.value {
        diskThreads := diskThreads + {tid};
      }
    }

    method Dispatch(e: Event)
      requires State().Closed()
      modifies this, graph
      ensures State() == old(State()).Handle(e)
    {
      hide Block.OnTTWU, Block.Enter, Block.Leave, Block.OnInetSockLocalIn, Block.OnInetSockLocalOut,
        Block.OnThreadStatus, Block.OnThreadName, Block.Closed;
      match e {
        case Ttwu(cpu, source, target) => OnTTWU(cpu, source, target);
        case SoftIrqEntry(cpu, vec) => EnterInterrupt(cpu, ResolveSoftIRQ(vec));
        case SoftIrqExit(cpu, vec) => LeaveInterrupt(cpu, ResolveSoftIRQ(vec));
        case IrqHandlerEntry(cpu, irq) => EnterInterrupt(cpu, ResolveIRQ(irq));
        case IrqHandlerExit(cpu, irq) => LeaveInterrupt(cpu, ResolveIRQ(irq));
        case HrtimerExpireEntry(cpu) => EnterInterrupt(cpu, Timer);
        case HrtimerExpireExit(cpu) => LeaveInterrupt(cpu, Timer);
        case InetSockLocalIn(cpu, key) => OnInetSockLocalIn(cpu, key);
        case InetSockLocalOut(cpu, tid, key) => OnInetSockLocalOut(cpu, tid, key);
        case ThreadStatus(tid, status) => OnThreadStatus(tid, status);
        case ThreadName(tid, name) => OnThreadName(tid, name);
      }
    }

    /** Handles a trace from the start; the invariant holds when it ends. */
    method Process(events: seq<Stamped>)
      requires EventsOk(events) && State() == EMPTY
      modifies this, graph
      ensures State() == CriticalBlockRun.Run(events) && Inv(State())
    {
      hide Inv, Block.Handle, Block.Closed;
      var i := 0;
      while i < |events|
        invariant 0 <= i <= |events| && EventsOk(events[..i])
        invariant State() == CriticalBlockRun.Run(events[..i])
      {
        assert events[..i + 1][..i] == events[..i] && events[..i + 1][i] == events[i];
        assert EventsOk(events[..i + 1]);
        ghost var before := State();
        graph.SetTimestamp(events[i].ts);
        assert State() == before.(now := events[i].ts);
        EventsOkPrefix(events[..i + 1]);
        AdvanceInv(before, events[i].ts);
        Dispatch(events[i].event);
        i := i + 1;
      }
      assert events[..i] == events;
    }
  }

  lemma NewEdgeIs(b: Block, etype: EdgeType, out: Position, from: NodeId, to: NodeId)
    requires from in b.g.nodes && to in b.g.nodes
    ensures b.NewEdge(etype, out, from, to)
              == b.(g := b.g.Link(b.nextEdge, etype, out, from, to), nextEdge := b.nextEdge + 1)
  {
  }

  lemma CutKeepsNodes(b: Block, tid: ThreadId)
    requires b.Closed() && b.Cuttable(tid)
    ensures b.CutThread(tid).g.nodes.Keys == b.g.nodes.Keys + {b.nextNode}
    ensures b.CutThread(tid).nextNode == b.nextNode + 1
  {
  }

  lemma CutThreadNodes(b: Block, source: ThreadId, target: ThreadId)
    requires b.Closed()
    ensures var b0 := if source in b.diskThreads then b.RequestDisk(target) else b;
            b0.Closed() && b0.nextNode == b.nextNode
            && (b0.Cuttable(source) ==>
                  var b1 := b0.CutThread(source);
                  b1.nextNode == b.nextNode + 1
                  && (b1.Cuttable(target) ==> b.nextNode in b1.CutThread(target).g.nodes
                                              && b.nextNode + 1 in b1.CutThread(target).g.nodes))
  {
    hide Block.CutThread, Block.RequestDisk, Block.Closed;
    RequestKeeps(b, target);
    var b0 := if source in b.diskThreads then b.RequestDisk(target) else b;
    if b0.Cuttable(source) {
      CutKeepsNodes(b0, source);
      if b0.CutThread(source).Cuttable(target) {
        CutKeepsNodes(b0.CutThread(source), target);
      }
    }
  }
}
