/**
  The critical graph: per-thread sequences of nodes, linked horizontally along a thread
  and vertically (wake-ups) between threads.

  A node is named by its creation index, as an edge is named by its edge id; the index
  plays the part of the node's address. `Graph` is the value of the whole structure and
  `CriticalGraph` the object whose fields hold it.
 */
module CriticalGraphs {
  import opened Common

  type NodeId = nat
  type EdgeId = nat

  const MAX_TID: ThreadId := 32768
  const NETWORK_THREAD: ThreadId := MAX_TID + 1

  datatype EdgeType =
    | Unknown | Vertical | Run | Interrupted | WaitCpu | WaitBlocked
    | Timer | Network | BlockDevice | UserInput | Epsilon

  datatype Position = OutVertical | InVertical | OutHorizontal | InHorizontal {
    predicate IsVertical() { OutVertical? || InVertical? }

    /** The slot the same edge occupies at its other end. */
    function Opposite(): Position {
      match this
      case OutVertical => InVertical
      case InVertical => OutVertical
      case OutHorizontal => InHorizontal
      case InHorizontal => OutHorizontal
    }
  }

  datatype Node = Node(ts: Timestamp, tid: ThreadId,
                       outV: Option<EdgeId>, inV: Option<EdgeId>,
                       outH: Option<EdgeId>, inH: Option<EdgeId>)
  {
    function Slot(p: Position): Option<EdgeId> {
      match p
      case OutVertical => outV
      case InVertical => inV
      case OutHorizontal => outH
      case InHorizontal => inH
    }

    function WithSlot(p: Position, e: Option<EdgeId>): Node {
      match p
      case OutVertical => this.(outV := e)
      case InVertical => this.(inV := e)
      case OutHorizontal => this.(outH := e)
      case InHorizontal => this.(inH := e)
    }
  }

  datatype Edge = Edge(etype: EdgeType, from: NodeId, to: NodeId) {
    /** The endpoint whose slot `p` holds this edge. */
    function End(p: Position): NodeId {
      if p.OutVertical? || p.OutHorizontal? then from else to
    }
  }

  predicate Blocking(t: EdgeType) { t.WaitBlocked? || t.Network? }

  datatype Graph = Graph(nodes: map<NodeId, Node>,
                         threads: map<ThreadId, seq<NodeId>>,
                         edges: map<EdgeId, Edge>)
  {
    /** Every valid slot resolves to a table edge that has the node as the matching endpoint. */
    ghost predicate Resolved() {
      && (forall e <- edges :: edges[e].from in nodes && edges[e].to in nodes)
      && (forall n <- nodes, p: Position | nodes[n].Slot(p).Some? ::
            SlotResolves(n, p, nodes[n].Slot(p).value))
    }

    ghost predicate SlotResolves(n: NodeId, p: Position, e: EdgeId) {
      e in edges && edges[e].End(p) == n && (edges[e].etype.Vertical? <==> p.IsVertical())
    }

    /** The per-thread sequences list exactly the nodes, each under its own thread, by time. */
    ghost predicate Threaded() {
      && (forall t <- threads, i | 0 <= i < |threads[t]| ::
            threads[t][i] in nodes && nodes[threads[t][i]].tid == t)
      && (forall n <- nodes :: nodes[n].tid in threads && n in threads[nodes[n].tid])
      && (forall t <- threads, i, j | 0 <= i < j < |threads[t]| ::
            nodes[threads[t][i]].ts <= nodes[threads[t][j]].ts)
    }

    function Times(tid: ThreadId): (ks: seq<Timestamp>)
      requires Threaded() && tid in threads
      ensures |ks| == |threads[tid]|
      ensures forall i | 0 <= i < |ks| :: ks[i] == nodes[threads[tid][i]].ts
      ensures Sorted(ks)
    {
      seq(|threads[tid]|, i requires 0 <= i < |threads[tid]| => nodes[threads[tid][i]].ts)
    }

    lemma SlotEdge(n: NodeId, p: Position)
      requires Resolved() && n in nodes && nodes[n].Slot(p).Some?
      ensures SlotResolves(n, p, nodes[n].Slot(p).value)
    {
    }

    /** The last node of `tid` at or before `ts`, if it is at `ts` or its outgoing edge reaches `ts`. */
    function Intersecting(ts: Timestamp, tid: ThreadId): (r: Option<NodeId>)
      requires Threaded() && Resolved()
    {
      if tid !in threads then None
      else
        var i := UpperBound(Times(tid), ts);
        if i == 0 then None
        else
          var n := threads[tid][i - 1];
          match nodes[n].outH
          case None => if nodes[n].ts == ts then Some(n) else None
          case Some(e) =>
            SlotEdge(n, OutHorizontal);
            if nodes[edges[e].to].ts < ts then None else Some(n)
    }

    /** The first node of `tid` strictly after `ts`. */
    function StartingAfter(ts: Timestamp, tid: ThreadId): (r: Option<NodeId>)
      requires Threaded()
      ensures r.Some? ==> r.value in nodes && nodes[r.value].tid == tid && ts < nodes[r.value].ts
      ensures forall m <- nodes | nodes[m].tid == tid && ts < nodes[m].ts ::
                r.Some? && nodes[r.value].ts <= nodes[m].ts
    {
      NothingBetween(ts, tid);
      if tid !in threads then None
      else
        var i := UpperBound(Times(tid), ts);
        if i == |threads[tid]| then None
        else
          NodeAt(tid, i);
          Some(threads[tid][i])
    }

    lemma NodeAt(tid: ThreadId, i: nat)
      requires Threaded() && tid in threads && i < |threads[tid]|
      ensures threads[tid][i] in nodes && nodes[threads[tid][i]].tid == tid
    {
    }

    lemma NothingBetween(ts: Timestamp, tid: ThreadId)
      requires Threaded()
      ensures forall m <- nodes | nodes[m].tid == tid && ts < nodes[m].ts :: SearchedBefore(ts, tid, m)
    {
      hide Threaded;
      forall m <- nodes | nodes[m].tid == tid && ts < nodes[m].ts
        ensures SearchedBefore(ts, tid, m)
      {
        var k := IndexOf(m);
      }
    }

    /** The search for the first node after `ts` ends no later than at `m`. */
    ghost predicate SearchedBefore(ts: Timestamp, tid: ThreadId, m: NodeId)
      requires Threaded() && m in nodes
    {
      && tid in threads
      && var times := Times(tid);
         var i := UpperBound(times, ts);
         i < |times| && times[i] <= nodes[m].ts
    }

    lemma IndexOf(m: NodeId) returns (k: nat)
      requires Threaded() && m in nodes
      ensures var tid := nodes[m].tid;
              tid in threads && k < |threads[tid]| && threads[tid][k] == m && Times(tid)[k] == nodes[m].ts
    {
      k :| 0 <= k < |threads[nodes[m].tid]| && threads[nodes[m].tid][k] == m;
    }

    lemma SearchFindsLast(ts: Timestamp, tid: ThreadId)
      requires Threaded() && tid in threads
      ensures var i := UpperBound(Times(tid), ts);
              && (i > 0 ==> LastUpTo(threads[tid][i - 1], ts, tid))
              && (i == 0 ==> forall n <- nodes | nodes[n].tid == tid :: ts < nodes[n].ts)
    {
      var times := Times(tid);
      var i := UpperBound(times, ts);
      assert i > 0 ==> threads[tid][i - 1] in nodes && nodes[threads[tid][i - 1]].tid == tid;
      hide Threaded;
      forall m <- nodes | nodes[m].tid == tid && nodes[m].ts <= ts
        ensures i > 0 && nodes[m].ts <= times[i - 1]
      {
        var k := IndexOf(m);
        assert k < i;
      }
    }

    /** What `Intersecting` answers, said of the nodes of the thread rather than of a search. */
    lemma IntersectingIsLast(ts: Timestamp, tid: ThreadId)
      requires Threaded() && Resolved() && StrictTimes()
      ensures var r := Intersecting(ts, tid);
              && (r.Some? ==> LastUpTo(r.value, ts, tid) && CoversFrom(r.value, ts))
              && (r.None? ==> forall n <- nodes | LastUpTo(n, ts, tid) :: !CoversFrom(n, ts))
    {
      hide Threaded, Resolved, SlotResolves, StrictTimes;
      forall n <- nodes | nodes[n].tid == tid
        ensures tid in threads
      {
        var _ := IndexOf(n);
      }
      if tid in threads {
        SearchFindsLast(ts, tid);
        var i := UpperBound(Times(tid), ts);
        if i > 0 {
          var n := threads[tid][i - 1];
          HorizontalEdge(n);
          forall m <- nodes | LastUpTo(m, ts, tid)
            ensures m == n
          {
            OnlyOneAt(m, n);
          }
        }
      }
    }

    /** A latest node whose edge reaches `ts` is found. */
    lemma LastIsIntersecting(n: NodeId, ts: Timestamp, tid: ThreadId)
      requires Threaded() && Resolved() && StrictTimes()
      requires LastUpTo(n, ts, tid) && CoversFrom(n, ts)
      ensures Intersecting(ts, tid) == Some(n)
    {
      IntersectingIsLast(ts, tid);
      hide Threaded, Resolved, Intersecting, CoversFrom;
      if Intersecting(ts, tid).Some? {
        OnlyOneAt(n, Intersecting(ts, tid).value);
      }
    }

    lemma HorizontalEdge(n: NodeId)
      requires Resolved() && n in nodes
      ensures nodes[n].outH.Some? ==> nodes[n].outH.value in edges && edges[nodes[n].outH.value].to in nodes
    {
      if nodes[n].outH.Some? { SlotEdge(n, OutHorizontal); }
    }

    lemma OnlyOneAt(a: NodeId, b: NodeId)
      requires StrictTimes() && a in nodes && b in nodes
      requires nodes[a].tid == nodes[b].tid && nodes[a].ts == nodes[b].ts
      ensures a == b
    {
    }

    lemma ReachingThreadIntersects(ts: Timestamp, tid: ThreadId, before: NodeId)
      requires Threaded() && Resolved()
      requires before in nodes && nodes[before].tid == tid && nodes[before].ts <= ts
      requires forall n <- nodes | LastUpTo(n, ts, tid) :: CoversFrom(n, ts)
      ensures Intersecting(ts, tid).Some?
    {
      hide Threaded, Resolved, SlotResolves;
      var _ := IndexOf(before);
      SearchFindsLast(ts, tid);
      var i := UpperBound(Times(tid), ts);
      if i > 0 { HorizontalEdge(threads[tid][i - 1]); }
    }

    /** `n` is a latest node of `tid` among those at or before `ts`. */
    ghost predicate LastUpTo(n: NodeId, ts: Timestamp, tid: ThreadId) {
      && n in nodes && nodes[n].tid == tid && nodes[n].ts <= ts
      && forall m <- nodes | nodes[m].tid == tid && nodes[m].ts <= ts :: nodes[m].ts <= nodes[n].ts
    }

    /** `n` sits at `ts`, or its outgoing edge reaches at least `ts`. */
    ghost predicate CoversFrom(n: NodeId, ts: Timestamp)
      requires n in nodes
    {
      match nodes[n].outH
      case None => nodes[n].ts == ts
      case Some(e) => e in edges && edges[e].to in nodes && ts <= nodes[edges[e].to].ts
    }

    /** No two nodes of a thread share a timestamp. */
    ghost predicate StrictTimes() {
      forall a <- nodes, b <- nodes | nodes[a].tid == nodes[b].tid && nodes[a].ts == nodes[b].ts :: a == b
    }

    // ----- Growth

    /** A new unlinked node, last of its thread. */
    function AddNode(n: NodeId, tid: ThreadId, ts: Timestamp): Graph {
      var before := if tid in threads then threads[tid] else [];
      Graph(nodes[n := Node(ts, tid, None, None, None, None)], threads[tid := before + [n]], edges)
    }

    /** A new edge in the table and in the slots `out` of its source and `out.Opposite()` of its target. */
    function Link(e: EdgeId, etype: EdgeType, out: Position, from: NodeId, to: NodeId): Graph
      requires from in nodes && to in nodes
    {
      var nodes1 := nodes[from := nodes[from].WithSlot(out, Some(e))];
      Graph(nodes1[to := nodes1[to].WithSlot(out.Opposite(), Some(e))], threads, edges[e := Edge(etype, from, to)])
    }

    function LastNode(tid: ThreadId): Option<NodeId> {
      if tid !in threads || threads[tid] == [] then None else Some(threads[tid][|threads[tid]| - 1])
    }
  }
}
