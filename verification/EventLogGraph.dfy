/** Nodes, links and wake-ups of a built graph, each traced to the event of the log that it comes from. */
module EventLogGraphs {
  import opened Common
  import opened CriticalGraphs
  import opened CriticalBlockSpec
  import opened CriticalBlockInvariant
  import opened CriticalBlockRun
  import opened EventLogs

  /** The thread of the `i`-th node that the gains make. */
  function MarkAt(gains: seq<Gain>, i: nat): ThreadId
    requires i < CountNodes(gains)
  {
    if gains[0].Mark? then if i == 0 then gains[0].tid else MarkAt(gains[1..], i - 1)
    else MarkAt(gains[1..], i)
  }

  /** The gains bring the edge. */
  predicate Brings(gains: seq<Gain>, edge: Edge) {
    exists i :: 0 <= i < |gains| && GainIs(gains[i], edge)
  }

  predicate GainIs(gain: Gain, edge: Edge) {
    if edge.etype.Vertical? then gain == WakeUp(edge.from, edge.to)
    else gain == Link(edge.etype, edge.from, edge.to)
  }

  lemma BringsLater(gains: seq<Gain>, edge: Edge)
    requires gains != [] && (GainIs(gains[0], edge) || Brings(gains[1..], edge))
    ensures Brings(gains, edge)
  {
    if i :| 0 <= i < |gains[1..]| && GainIs(gains[1..][i], edge) { assert GainIs(gains[i + 1], edge); }
  }

  /** Links among the gains are of horizontal types. */
  predicate LinksOk(gains: seq<Gain>) {
    forall i | 0 <= i < |gains| && gains[i].Link? :: !gains[i].etype.Vertical?
  }

  ghost predicate FreshIds(b: Block) {
    (forall n <- b.g.nodes :: n < b.nextNode) && (forall e <- b.g.edges :: e < b.nextEdge)
  }

  /** `c` has the nodes and edges of `b`, and those that the gains bring. */
  ghost predicate Traced(b: Block, gains: seq<Gain>, c: Block) {
    && c.nextNode == b.nextNode + CountNodes(gains)
    && (forall n: NodeId | b.nextNode <= n < c.nextNode ::
          n in c.g.nodes && c.g.nodes[n].tid == MarkAt(gains, n - b.nextNode) && c.g.nodes[n].ts == b.now)
    && (forall n <- b.g.nodes ::
          n in c.g.nodes && c.g.nodes[n].tid == b.g.nodes[n].tid && c.g.nodes[n].ts == b.g.nodes[n].ts)
    && (forall e <- b.g.edges :: e in c.g.edges && c.g.edges[e] == b.g.edges[e])
    && (forall e <- c.g.edges :: e in b.g.edges || Brings(gains, c.g.edges[e]))
  }

  lemma {:induction false} BuiltIsTraced(b: Block, gains: seq<Gain>)
    requires FreshIds(b) && Buildable(b, gains) && LinksOk(gains)
    ensures Traced(b, gains, Built(b, gains))
    decreases |gains|
  {
    if gains != [] {
      assert LinksOk(gains[1..]);
      match gains[0] {
        case Mark(tid) => MarkIsTraced(b, gains);
        case _ => EdgeIsTraced(b, gains);
      }
    }
  }

  lemma {:induction false} MarkIsTraced(b: Block, gains: seq<Gain>)
    requires FreshIds(b) && Buildable(b, gains) && LinksOk(gains) && gains != [] && gains[0].Mark?
    requires LinksOk(gains[1..])
    ensures Traced(b, gains, Built(b, gains))
    decreases |gains|, 0
  {
    var m, rest := b.NewNode(gains[0].tid), gains[1..];
    NewNodeTraced(b, gains[0].tid);
    BuiltIsTraced(m, rest);
    hide FreshIds, Block.NewNode, LinksOk, Brings;
    var c := Built(b, gains);
    forall e <- c.g.edges
      ensures e in b.g.edges || Brings(gains, c.g.edges[e])
    {
      if e !in b.g.edges { BringsLater(gains, c.g.edges[e]); }
    }
  }

  lemma NewNodeTraced(b: Block, tid: ThreadId)
    requires FreshIds(b)
    ensures var m := b.NewNode(tid);
            && FreshIds(m) && m.nextNode == b.nextNode + 1 && m.now == b.now && m.g.edges == b.g.edges
            && b.nextNode in m.g.nodes && m.g.nodes[b.nextNode].tid == tid && m.g.nodes[b.nextNode].ts == b.now
            && forall n <- b.g.nodes :: n in m.g.nodes && m.g.nodes[n] == b.g.nodes[n]
  {
  }

  lemma {:induction false} EdgeIsTraced(b: Block, gains: seq<Gain>)
    requires FreshIds(b) && Buildable(b, gains) && LinksOk(gains) && gains != [] && !gains[0].Mark?
    requires LinksOk(gains[1..])
    ensures Traced(b, gains, Built(b, gains))
    decreases |gains|, 0
  {
    hide FreshIds, Block.NewEdge, LinksOk, Brings, GainIs, Built, Buildable, Traced, CountNodes;
    var from, to, rest := gains[0].from, gains[0].to, gains[1..];
    var etype := if gains[0].Link? then gains[0].etype else Vertical;
    BuiltEdge(b, gains);
    var m := b.NewEdge(etype, if gains[0].Link? then OutHorizontal else OutVertical, from, to);
    NewEdgeTraced(b, etype, if gains[0].Link? then OutHorizontal else OutVertical, from, to);
    BuiltIsTraced(m, rest);
    FirstIs(gains, Edge(etype, from, to));
    TracedFurther(b, gains, m, Edge(etype, from, to), Built(b, gains));
  }

  lemma TracedFurther(b: Block, gains: seq<Gain>, m: Block, edge: Edge, c: Block)
    requires gains != [] && !gains[0].Mark? && Traced(m, gains[1..], c) && GainIs(gains[0], edge)
    requires m.nextNode == b.nextNode && m.now == b.now && b.nextEdge !in b.g.edges
    requires m.g.edges == b.g.edges[b.nextEdge := edge]
    requires forall n <- b.g.nodes :: n in m.g.nodes && m.g.nodes[n].tid == b.g.nodes[n].tid
                                      && m.g.nodes[n].ts == b.g.nodes[n].ts
    ensures Traced(b, gains, c)
  {
    hide GainIs, Brings;
    forall e <- c.g.edges
      ensures e in b.g.edges || Brings(gains, c.g.edges[e])
    {
      if e !in b.g.edges { BringsLater(gains, c.g.edges[e]); }
    }
  }

  lemma FirstIs(gains: seq<Gain>, edge: Edge)
    requires gains != [] && !gains[0].Mark? && edge.from == gains[0].from && edge.to == gains[0].to
    requires edge.etype == (if gains[0].Link? then gains[0].etype else Vertical) && LinksOk(gains)
    ensures GainIs(gains[0], edge)
  {
  }

  lemma BuiltEdge(b: Block, gains: seq<Gain>)
    requires Buildable(b, gains) && gains != [] && !gains[0].Mark?
    ensures var etype := if gains[0].Link? then gains[0].etype else Vertical;
            var out := if gains[0].Link? then OutHorizontal else OutVertical;
            && gains[0].from in b.g.nodes && gains[0].to in b.g.nodes
            && Built(b, gains) == Built(b.NewEdge(etype, out, gains[0].from, gains[0].to), gains[1..])
            && Buildable(b.NewEdge(etype, out, gains[0].from, gains[0].to), gains[1..])
            && CountNodes(gains) == CountNodes(gains[1..])
  {
    hide Block.NewEdge;
  }

  lemma NewEdgeTraced(b: Block, etype: EdgeType, out: Position, from: NodeId, to: NodeId)
    requires FreshIds(b) && from in b.g.nodes && to in b.g.nodes
    ensures var m := b.NewEdge(etype, out, from, to);
            && FreshIds(m) && m.nextNode == b.nextNode && m.now == b.now && b.nextEdge !in b.g.edges
            && m.g.edges == b.g.edges[b.nextEdge := Edge(etype, from, to)]
            && forall n <- b.g.nodes :: n in m.g.nodes && m.g.nodes[n].tid == b.g.nodes[n].tid
                                        && m.g.nodes[n].ts == b.g.nodes[n].ts
  {
  }

  // ----- What the gains of an event are

  /** The link ends at a node made now, and has the type that the node's thread had until now, or is the network's. */
  predicate LinkMeans(log: EventLog, gains: seq<Gain>, link: Gain)
    requires link.Link?
  {
    var n := NodesAfter(log);
    && !link.etype.Vertical? && n <= link.to < n + CountNodes(gains)
    && var tid := MarkAt(gains, link.to - n);
       if tid == NETWORK_THREAD then link.etype == Run else TypeAfter(log, tid) == Some(link.etype)
  }

  /** A wake-up joins nodes made now: of the thread that wakes or the network, and of the one woken or the network. */
  predicate WakeUpMeans(log: EventLog, e: Event, gains: seq<Gain>, wakeUp: Gain)
    requires wakeUp.WakeUp?
  {
    var n := NodesAfter(log);
    && n <= wakeUp.from < n + CountNodes(gains) && n <= wakeUp.to < n + CountNodes(gains)
    && var source, target := MarkAt(gains, wakeUp.from - n), MarkAt(gains, wakeUp.to - n);
       match e
       case Ttwu(cpu, s, t) => target == t && source == if InterruptsAfter(log, cpu) == [] then s else NETWORK_THREAD
       case InetSockLocalOut(_, tid, _) => source == tid && target == NETWORK_THREAD
       case _ => false
  }

  ghost predicate GainsMean(log: EventLog, e: Event, gains: seq<Gain>) {
    forall i | 0 <= i < |gains| ::
      && (gains[i].Link? ==> LinkMeans(log, gains, gains[i]))
      && (gains[i].WakeUp? ==> WakeUpMeans(log, e, gains, gains[i]))
  }

  /** Threads with a type have nodes; the network has none. */
  ghost predicate Sane(log: EventLog) {
    forall tid: ThreadId | TypeAfter(log, tid).Some? ::
      LastAfter(log, tid).Some? && tid != NETWORK_THREAD && HorizontalType(TypeAfter(log, tid).value)
  }

  lemma FollowsIsSane(b: Block, log: EventLog)
    requires Inv(b) && TypesFollow(b, log) && NodesFollow(b, log)
    ensures Sane(log)
  {
    assert Typed(b);
    hide Inv, Graph.LastNode;
  }

  lemma CountTwo(a: Gain, b: Gain)
    requires a.Mark? && !b.Mark?
    ensures CountNodes([a, b]) == 1 && MarkAt([a, b], 0) == a.tid
  {
    assert [a, b][1..] == [b];
    CountRest(b, []);
  }

  lemma CountRest(b: Gain, rest: seq<Gain>)
    requires !b.Mark?
    ensures CountNodes([b] + rest) == CountNodes(rest)
    ensures forall i | 0 <= i < CountNodes(rest) :: MarkAt([b] + rest, i) == MarkAt(rest, i)
    ensures [b] + [] == [b]
  {
    assert ([b] + rest)[1..] == rest;
  }

  lemma CountMore(a: Gain, b: Gain, rest: seq<Gain>)
    requires a.Mark? && !b.Mark? && rest != [] && rest[0].Mark?
    ensures var gains := [a, b] + rest;
            && CountNodes(gains) == 1 + CountNodes(rest) && CountNodes(rest) >= 1
            && MarkAt(gains, 0) == a.tid && MarkAt(gains, 1) == rest[0].tid
  {
    var gains := [a, b] + rest;
    assert gains[1..] == [b] + rest;
    CountRest(b, rest);
    assert MarkAt(gains, 1) == MarkAt([b] + rest, 0);
  }

  lemma CutIs(log: EventLog, tid: ThreadId, n: NodeId)
    requires Sane(log) && TypeAfter(log, tid).Some?
    ensures LastAfter(log, tid).Some?
    ensures Cut(log, tid, n) == [Mark(tid), Link(TypeAfter(log, tid).value, LastAfter(log, tid).value, n)]
  {
  }

  /** A node, a link to it, another node and a link to it, and a wake-up from the first to the second. */
  lemma TwoCutsMean(log: EventLog, e: Event, first: ThreadId, l1: Gain, second: ThreadId, l2: Gain)
    requires var n := NodesAfter(log);
             l1.Link? && l2.Link? && !l1.etype.Vertical? && !l2.etype.Vertical? && l1.to == n && l2.to == n + 1
    requires if first == NETWORK_THREAD then l1.etype == Run else TypeAfter(log, first) == Some(l1.etype)
    requires if second == NETWORK_THREAD then l2.etype == Run else TypeAfter(log, second) == Some(l2.etype)
    requires e.Ttwu? && second == e.target
    requires first == if InterruptsAfter(log, e.cpu) == [] then e.source else NETWORK_THREAD
    ensures var n := NodesAfter(log);
            GainsMean(log, e, [Mark(first), l1, Mark(second), l2, WakeUp(n, n + 1)])
  {
    var n := NodesAfter(log);
    var rest := [Mark(second), l2, WakeUp(n, n + 1)];
    assert [Mark(first), l1] + rest == [Mark(first), l1, Mark(second), l2, WakeUp(n, n + 1)];
    CountMore(Mark(first), l1, rest);
    CountTwo(Mark(second), l2);
    CountRest(l2, [WakeUp(n, n + 1)]);
    CountRest(WakeUp(n, n + 1), []);
    assert rest[1..] == [l2] + [WakeUp(n, n + 1)];
    hide NodesAfter, TypeAfter, InterruptsAfter, CountNodes, MarkAt;
  }

  lemma CutMeans(log: EventLog, e: Event, tid: ThreadId)
    requires Sane(log) && TypeAfter(log, tid).Some?
    ensures GainsMean(log, e, Cut(log, tid, NodesAfter(log)))
  {
    CutIs(log, tid, NodesAfter(log));
    CountTwo(Mark(tid), Link(TypeAfter(log, tid).value, LastAfter(log, tid).value, NodesAfter(log)));
    hide NodesAfter, TypeAfter, LastAfter, CountNodes, MarkAt;
  }

  lemma SendingMeans(log: EventLog, e: Event)
    requires Sane(log) && e.InetSockLocalOut? && TypeAfter(log, e.tid).Some?
    ensures var n := NodesAfter(log);
            GainsMean(log, e, Cut(log, e.tid, n) + [Mark(NETWORK_THREAD), WakeUp(n, n + 1)])
  {
    var n := NodesAfter(log);
    CutIs(log, e.tid, n);
    var link := Link(TypeAfter(log, e.tid).value, LastAfter(log, e.tid).value, n);
    var rest := [Mark(NETWORK_THREAD), WakeUp(n, n + 1)];
    CountMore(Mark(e.tid), link, rest);
    CountTwo(Mark(NETWORK_THREAD), WakeUp(n, n + 1));
    hide NodesAfter, TypeAfter, LastAfter, CountNodes, MarkAt;
  }

  lemma WakingMeans(log: EventLog, e: Event)
    requires Sane(log) && e.Ttwu?
    ensures GainsMean(log, e, Gains(log, e))
  {
    var n, interrupts := NodesAfter(log), InterruptsAfter(log, e.cpu);
    hide NodesAfter, InterruptsAfter, TypeAfter, LastAfter, GainsMean, Cut, Sane;
    if interrupts != [] {
      var packet := interrupts[|interrupts| - 1].node;
      if packet.Some? && TypeAfter(log, e.target) == Some(WaitBlocked) {
        CutIs(log, e.target, n + 1);
        SaneAt(log, e.target);
        var l1, l2 := Link(Run, packet.value, n), Link(WaitBlocked, LastAfter(log, e.target).value, n + 1);
        TwoCutsMean(log, e, NETWORK_THREAD, l1, e.target, l2);
        assert Gains(log, e) == [Mark(NETWORK_THREAD), l1, Mark(e.target), l2, WakeUp(n, n + 1)];
      } else {
        NothingMeans(log, e);
      }
    } else if e.source == INVALID_THREAD || e.target == INVALID_THREAD || TypeAfter(log, e.source).None? {
      NothingMeans(log, e);
    } else if TypeAfter(log, e.target).None? {
      CutMeans(log, e, e.source);
    } else {
      SaneAt(log, e.source);
      SaneAt(log, e.target);
      CutIs(log, e.source, n);
      CutIs(log, e.target, n + 1);
      var l1 := Link(TypeAfter(log, e.source).value, LastAfter(log, e.source).value, n);
      var last := if e.source == e.target then n else LastAfter(log, e.target).value;
      var l2 := Link(TypeAfter(log, e.target).value, last, n + 1);
      TwoCutsMean(log, e, e.source, l1, e.target, l2);
      assert Gains(log, e) == [Mark(e.source), l1, Mark(e.target), l2, WakeUp(n, n + 1)];
    }
  }

  lemma SaneAt(log: EventLog, tid: ThreadId)
    requires Sane(log) && TypeAfter(log, tid).Some?
    ensures tid != NETWORK_THREAD && !TypeAfter(log, tid).value.Vertical?
  {
  }

  lemma NothingMeans(log: EventLog, e: Event)
    ensures GainsMean(log, e, [])
  {
  }

  lemma EventMeans(log: EventLog, e: Event)
    requires Sane(log)
    ensures GainsMean(log, e, Gains(log, e))
  {
    hide NodesAfter, InterruptsAfter, TypeAfter, LastAfter, GainsMean, Cut, Sane;
    match e {
      case Ttwu(_, _, _) => WakingMeans(log, e);
      case ThreadStatus(tid, status) =>
        if TypeAfter(log, tid) == Some(StatusType(status)) { NothingMeans(log, e); }
        else if TypeAfter(log, tid).Some? { CutMeans(log, e, tid); }
        else { MarkMeans(log, e, tid); }
      case InetSockLocalOut(cpu, tid, _) =>
        if InterruptsAfter(log, cpu) == [] && TypeAfter(log, tid).Some? { SendingMeans(log, e); }
        else { NothingMeans(log, e); }
      case _ => NothingMeans(log, e);
    }
  }

  lemma MarkMeans(log: EventLog, e: Event, tid: ThreadId)
    ensures GainsMean(log, e, [Mark(tid)])
  {
  }

  // ----- Runs

  /** The event of the log that made a node. */
  predicate MadeBy(log: EventLog, k: nat, n: NodeId) {
    k < |log| && NodesAfter(log[..k]) <= n < NodesAfter(log[..k + 1])
  }

  /** The node is of a thread that its event marks, and made when that happened. */
  predicate NodeOfLog(log: EventLog, k: nat, n: NodeId, node: Node)
    requires MadeBy(log, k, n)
  {
    && node.ts == log[k].ts
    && var gains := Gains(log[..k], log[k].event);
       n - NodesAfter(log[..k]) < CountNodes(gains) && node.tid == MarkAt(gains, n - NodesAfter(log[..k]))
  }

  /**
    A link is as old as the node it leads to, and has the type that the node's thread had just before; a wake-up is by
    the event that made both its nodes, from the thread that wakes, or the network, to the one woken, or the network.
   */
  ghost predicate EdgeOfLog(g: Graph, log: EventLog, k: nat, edge: Edge)
    requires edge.from in g.nodes && edge.to in g.nodes
  {
    && MadeBy(log, k, edge.to) && g.nodes[edge.to].ts == log[k].ts
    && var source, target := g.nodes[edge.from].tid, g.nodes[edge.to].tid;
       if edge.etype.Vertical? then
         && MadeBy(log, k, edge.from)
         && match log[k].event
            case Ttwu(cpu, s, t) =>
              target == t && source == if InterruptsAfter(log[..k], cpu) == [] then s else NETWORK_THREAD
            case InetSockLocalOut(_, tid, _) => source == tid && target == NETWORK_THREAD
            case _ => false
       else if target == NETWORK_THREAD then edge.etype == Run
       else TypeAfter(log[..k], target) == Some(edge.etype)
  }

  ghost predicate NodesOfLog(g: Graph, log: EventLog) {
    forall n <- g.nodes :: exists k :: MadeBy(log, k, n) && NodeOfLog(log, k, n, g.nodes[n])
  }

  ghost predicate EdgesOfLog(g: Graph, log: EventLog) {
    forall e <- g.edges :: g.edges[e].from in g.nodes && g.edges[e].to in g.nodes
                           && exists k :: MadeBy(log, k, g.edges[e].to) && EdgeOfLog(g, log, k, g.edges[e])
  }

  ghost predicate OfLog(g: Graph, log: EventLog) { NodesOfLog(g, log) && EdgesOfLog(g, log) }

  lemma PrefixStays(log: EventLog, last: Stamped, k: nat)
    requires k < |log|
    ensures (log + [last])[..k] == log[..k] && (log + [last])[..k + 1] == log[..k + 1] && (log + [last])[k] == log[k]
  {
  }

  lemma NewIsMade(log: EventLog, last: Stamped)
    ensures (log + [last])[..|log|] == log && (log + [last])[|log|] == last
    ensures NodesAfter(log + [last]) == NodesAfter(log) + CountNodes(Gains(log, last.event))
    ensures forall n: NodeId | NodesAfter(log) <= n < NodesAfter(log + [last]) :: MadeBy(log + [last], |log|, n)
  {
    NextLog(log, last);
    assert (log + [last])[..|log| + 1] == log + [last];
    hide NodesAfter, Gains;
  }

  lemma OldNodeOfLog(log: EventLog, last: Stamped, n: NodeId, was: Node, node: Node)
    requires exists k :: MadeBy(log, k, n) && NodeOfLog(log, k, n, was)
    requires node.tid == was.tid && node.ts == was.ts
    ensures exists k :: MadeBy(log + [last], k, n) && NodeOfLog(log + [last], k, n, node)
  {
    hide NodesAfter, Gains, MarkAt, CountNodes;
    var k :| MadeBy(log, k, n) && NodeOfLog(log, k, n, was);
    PrefixStays(log, last, k);
    assert MadeBy(log + [last], k, n) && NodeOfLog(log + [last], k, n, node);
  }

  lemma OldEdgeOfLog(g: Graph, log: EventLog, last: Stamped, h: Graph, edge: Edge)
    requires edge.from in g.nodes && edge.to in g.nodes && edge.from in h.nodes && edge.to in h.nodes
    requires exists k :: MadeBy(log, k, edge.to) && EdgeOfLog(g, log, k, edge)
    requires h.nodes[edge.from].tid == g.nodes[edge.from].tid && h.nodes[edge.to].tid == g.nodes[edge.to].tid
    requires h.nodes[edge.to].ts == g.nodes[edge.to].ts
    ensures exists k :: MadeBy(log + [last], k, edge.to) && EdgeOfLog(h, log + [last], k, edge)
  {
    hide NodesAfter, Gains, TypeAfter, InterruptsAfter;
    var k :| MadeBy(log, k, edge.to) && EdgeOfLog(g, log, k, edge);
    PrefixStays(log, last, k);
    assert MadeBy(log + [last], k, edge.to) && EdgeOfLog(h, log + [last], k, edge);
  }

  lemma NewNodeOfLog(log: EventLog, last: Stamped, n: NodeId, node: Node)
    requires NodesAfter(log) <= n < NodesAfter(log) + CountNodes(Gains(log, last.event))
    requires node.ts == last.ts && node.tid == MarkAt(Gains(log, last.event), n - NodesAfter(log))
    ensures exists k :: MadeBy(log + [last], k, n) && NodeOfLog(log + [last], k, n, node)
  {
    NewIsMade(log, last);
    hide NodesAfter, Gains, MarkAt, CountNodes;
    assert MadeBy(log + [last], |log|, n) && NodeOfLog(log + [last], |log|, n, node);
  }

  /** Each new node is of the thread marked, made now. */
  ghost predicate NewNodes(b: Block, gains: seq<Gain>, d: Block) {
    forall n: NodeId | b.nextNode <= n < b.nextNode + CountNodes(gains) ::
      n in d.g.nodes && d.g.nodes[n].tid == MarkAt(gains, n - b.nextNode) && d.g.nodes[n].ts == b.now
  }

  lemma NewEdgeOfLog(b: Block, log: EventLog, last: Stamped, d: Block, edge: Edge)
    requires NodesAfter(log) == b.nextNode && b.now == last.ts && NewNodes(b, Gains(log, last.event), d)
    requires GainsMean(log, last.event, Gains(log, last.event)) && Brings(Gains(log, last.event), edge)
    requires edge.from in d.g.nodes
    ensures edge.to in d.g.nodes
    ensures exists k :: MadeBy(log + [last], k, edge.to) && EdgeOfLog(d.g, log + [last], k, edge)
  {
    NewIsMade(log, last);
    hide NodesAfter, Gains, MarkAt, CountNodes, TypeAfter, InterruptsAfter;
    var gains := Gains(log, last.event);
    var i :| 0 <= i < |gains| && GainIs(gains[i], edge);
    assert MadeBy(log + [last], |log|, edge.to) && EdgeOfLog(d.g, log + [last], |log|, edge);
  }

  lemma GainsMeanLinksOk(log: EventLog, e: Event, gains: seq<Gain>)
    requires GainsMean(log, e, gains)
    ensures LinksOk(gains)
  {
    hide NodesAfter, TypeAfter, MarkAt, CountNodes;
  }

  lemma TracedNodesOfLog(b: Block, log: EventLog, last: Stamped, d: Block)
    requires b.now == last.ts && NodesAfter(log) == b.nextNode && NodesOfLog(b.g, log)
    requires Traced(b, Gains(log, last.event), d)
    requires (forall n: NodeId | n < b.nextNode :: n in b.g.nodes) && (forall n <- d.g.nodes :: n < d.nextNode)
    ensures NodesOfLog(d.g, log + [last])
  {
    hide NodesAfter, Gains, MarkAt, CountNodes, NodeOfLog, MadeBy;
    forall n <- d.g.nodes
      ensures exists k :: MadeBy(log + [last], k, n) && NodeOfLog(log + [last], k, n, d.g.nodes[n])
    {
      if n < b.nextNode {
        OldNodeOfLog(log, last, n, b.g.nodes[n], d.g.nodes[n]);
      } else {
        NewNodeOfLog(log, last, n, d.g.nodes[n]);
      }
    }
  }

  lemma TracedEdgesOfLog(b: Block, log: EventLog, last: Stamped, d: Block)
    requires b.now == last.ts && NodesAfter(log) == b.nextNode && EdgesOfLog(b.g, log)
    requires Traced(b, Gains(log, last.event), d) && GainsMean(log, last.event, Gains(log, last.event))
    requires forall e <- d.g.edges :: d.g.edges[e].from in d.g.nodes
    ensures EdgesOfLog(d.g, log + [last])
  {
    assert NewNodes(b, Gains(log, last.event), d);
    hide NodesAfter, Gains, MarkAt, CountNodes, EdgeOfLog, MadeBy, Brings, GainsMean, NewNodes;
    forall e <- d.g.edges
      ensures d.g.edges[e].from in d.g.nodes && d.g.edges[e].to in d.g.nodes
      ensures exists k :: MadeBy(log + [last], k, d.g.edges[e].to) && EdgeOfLog(d.g, log + [last], k, d.g.edges[e])
    {
      if e in b.g.edges {
        OldEdgeOfLog(b.g, log, last, d.g, d.g.edges[e]);
      } else {
        NewEdgeOfLog(b, log, last, d, d.g.edges[e]);
      }
    }
  }

  lemma EventIsTraced(b: Block, log: EventLog, last: Stamped, d: Block)
    requires Inv(b) && TypesFollow(b, log) && NodesFollow(b, log) && Adds(b, log, last.event, d)
    ensures Traced(b, Gains(log, last.event), d) && GainsMean(log, last.event, Gains(log, last.event))
  {
    FollowsIsSane(b, log);
    EventMeans(log, last.event);
    InvIsFresh(b);
    hide Inv, FreshIds, TypesFollow, NodesFollow, Gains, GainsMean, LinksOk, Buildable, Built;
    GainsMeanLinksOk(log, last.event, Gains(log, last.event));
    BuiltIsTraced(b, Gains(log, last.event));
  }

  lemma InvIsFresh(b: Block)
    requires Inv(b)
    ensures FreshIds(b)
    ensures (forall n: NodeId | n < b.nextNode :: n in b.g.nodes) && (forall n <- b.g.nodes :: n < b.nextNode)
    ensures forall e <- b.g.edges :: b.g.edges[e].from in b.g.nodes
  {
    assert Aged(b) && forall e <- b.g.edges :: EdgeByAge(b.g, b.g.edges[e]);
    hide Inv, Neighbours;
  }

  lemma EventIsOfLog(b: Block, log: EventLog, last: Stamped, d: Block)
    requires Inv(b) && b.now == last.ts && Follows(b, log) && OfLog(b.g, log) && Adds(b, log, last.event, d) && Inv(d)
    ensures OfLog(d.g, log + [last])
  {
    hide Inv, Adds, Traced, GainsMean, TypesFollow, TablesFollow, NodesFollow, NodesAfter, EdgesOfLog, NodesOfLog,
      FreshIds;
    EventIsTraced(b, log, last, d);
    NodesFollowNumber(b, log);
    InvIsFresh(b);
    InvIsFresh(d);
    TracedNodesOfLog(b, log, last, d);
    TracedEdgesOfLog(b, log, last, d);
  }

  /** The nodes and edges that any run leaves are those of its log. */
  lemma {:induction false} RunIsOfLog(log: EventLog)
    requires EventsOk(log)
    ensures OfLog(CriticalBlockRun.Run(log).g, log)
  {
    hide Inv, Adds, Follows, NodesOfLog, EdgesOfLog, Block.Handle, Block.Closed;
    if log == [] {
      EmptyOfLog();
    } else {
      EventsOkPrefix(log);
      var init, last := log[..|log| - 1], log[|log| - 1];
      RunIsOfLog(init);
      RunFollows(init);
      AdvanceInv(CriticalBlockRun.Run(init), last.ts);
      LaterFollows(CriticalBlockRun.Run(init), init, last.ts);
      RunAdds(log);
      assert log == init + [last];
      EventIsOfLog(CriticalBlockRun.Run(init).(now := last.ts), init, last, CriticalBlockRun.Run(log));
    }
  }

  lemma EmptyOfLog()
    ensures OfLog(CriticalBlockRun.Run([]).g, [])
  {
  }
}
