/** The critical graph as the object the event handlers and the path queries share. */
module GraphStore {
  import opened Common
  import opened CriticalGraphs
  import opened GraphCleanupSpec

  class CriticalGraph {
    var ts: Timestamp
    var nodes: map<NodeId, Node>
    var threads: map<ThreadId, seq<NodeId>>
    var edges: map<EdgeId, Edge>
    var nextNode: NodeId
    var nextEdge: EdgeId

    constructor ()
      ensures ts == nextNode == nextEdge == 0 && State() == Graph(map[], map[], map[])
    {
      ts, nextNode, nextEdge := 0, 0, 0;
      nodes, threads, edges := map[], map[], map[];
    }

    function State(): Graph reads this { Graph(nodes, threads, edges) }

    method SetTimestamp(now: Timestamp)
      modifies this`ts
      ensures ts == now
    {
      ts := now;
    }

    method CreateNode(tid: ThreadId) returns (n: NodeId)
      modifies this`nodes, this`threads, this`nextNode
      ensures n == old(nextNode) && nextNode == n + 1
      ensures State() == old(State()).AddNode(n, tid, ts)
    {
      n := nextNode;
      nextNode := nextNode + 1;
      nodes := nodes[n := Node(ts, tid, None, None, None, None)];
      if tid !in threads {
        threads := threads[tid := []];
      }
      threads := threads[tid := threads[tid] + [n]];
      assert State() == old(State()).AddNode(n, tid, ts);
    }

    method SetSlot(n: NodeId, p: Position, e: Option<EdgeId>)
      requires n in nodes
      modifies this`nodes
      ensures nodes == old(nodes)[n := old(nodes)[n].WithSlot(p, e)]
    {
      nodes := nodes[n := nodes[n].WithSlot(p, e)];
    }

    method CreateHorizontalEdge(etype: EdgeType, from: NodeId, to: NodeId) returns (id: EdgeId)
      requires from in nodes && to in nodes
      modifies this`nodes, this`edges, this`nextEdge
      ensures id == old(nextEdge) && nextEdge == id + 1
      ensures State() == old(State()).Link(id, etype, OutHorizontal, from, to)
    {
      id := nextEdge;
      nextEdge := nextEdge + 1;
      edges := edges[id := Edge(etype, from, to)];
      SetSlot(from, OutHorizontal, Some(id));
      SetSlot(to, InHorizontal, Some(id));
    }

    method CreateVerticalEdge(from: NodeId, to: NodeId) returns (id: EdgeId)
      requires from in nodes && to in nodes
      modifies this`nodes, this`edges, this`nextEdge
      ensures id == old(nextEdge) && nextEdge == id + 1
      ensures State() == old(State()).Link(id, Vertical, OutVertical, from, to)
    {
      id := nextEdge;
      nextEdge := nextEdge + 1;
      edges := edges[id := Edge(Vertical, from, to)];
      SetSlot(from, OutVertical, Some(id));
      SetSlot(to, InVertical, Some(id));
    }

    function GetEdge(id: EdgeId): Edge
      requires id in edges
      reads this
    {
      edges[id]
    }

    function GetNodeIntersecting(t: Timestamp, tid: ThreadId): Option<NodeId>
      requires State().Threaded() && State().Resolved()
      reads this
    {
      State().Intersecting(t, tid)
    }

    function GetNodeStartingAfter(t: Timestamp, tid: ThreadId): Option<NodeId>
      requires State().Threaded()
      reads this
    {
      State().StartingAfter(t, tid)
    }

    function GetLastNodeForThread(tid: ThreadId): Option<NodeId>
      reads this
    {
      State().LastNode(tid)
    }

    /** Clears, at the far ends, the edges of a node about to be removed, and erases them. */
    method CleanNode(n: NodeId, ghost g0: Graph, ghost dead: set<NodeId>)
      requires Agrees(g0) && Cleaning(g0, State(), dead, n, 0)
      modifies this`nodes, this`edges
      ensures Partial(g0, State(), Alive(g0, dead + {n}), dead + {n}) && nodes.Keys == old(nodes.Keys)
    {
      hide Agrees, Cleaning, Partial;
      var i := 0;
      while i < 4
        invariant i <= 4 && Cleaning(g0, State(), dead, n, i)
        invariant nodes.Keys == old(nodes.Keys) && threads == old(threads)
      {
        PendingSlotIsUsable(g0, State(), dead, n, i);
        RemoveAtKeepsCleaning(g0, State(), dead, n, i);
        ghost var next := RemoveAt(State(), n, POSITIONS[i]);
        var position := POSITIONS[i];
        var edgeId := nodes[n].Slot(position);
        if edgeId.Some? {
          var edge := GetEdge(edgeId.value);
          SetSlot(edge.End(position.Opposite()), position.Opposite(), None);
          edges := edges - {edgeId.value};
        }
        assert State() == next;
        i := i + 1;
      }
      CleaningDone(g0, State(), dead, n);
    }

    /** Removes the nodes of one thread that are before the cut. */
    method CleanThread(tid: ThreadId, cut: Timestamp, ghost g0: Graph, ghost todo: set<ThreadId>)
      requires Agrees(g0) && g0.Threaded() && Distinct(g0)
      requires tid in g0.threads && tid in todo && tid in threads && threads[tid] == g0.threads[tid]
      requires Partial(g0, State(), Alive(g0, Cleaned(g0, cut, todo)), Cleaned(g0, cut, todo))
      requires nodes.Keys == g0.nodes.Keys - Cleaned(g0, cut, todo)
      modifies this`nodes, this`edges, this`threads
      ensures Partial(g0, State(), Alive(g0, Cleaned(g0, cut, todo - {tid})), Cleaned(g0, cut, todo - {tid}))
      ensures nodes.Keys == g0.nodes.Keys - Cleaned(g0, cut, todo - {tid})
      ensures threads == old(threads)[tid := TrimmedThread(g0, cut, tid)]
    {
      hide Agrees, Graph.Threaded, Distinct, Alive, Partial, Cleaning, Prefix, Cleaned, EarlyCount;
      PrefixIsEarly(g0, cut, tid, todo);
      var ids := threads[tid];
      ghost var dead := Cleaned(g0, cut, todo);
      var it := 0;
      NoPrefix(ids, dead);
      while it < |ids|
        invariant it <= EarlyCount(g0, cut, tid) && nodes.Keys == old(nodes.Keys) && threads == old(threads)
        invariant Partial(g0, State(), Alive(g0, dead + Prefix(ids, it)), dead + Prefix(ids, it))
      {
        NextNode(g0, State(), cut, todo, tid, it, Alive(g0, dead + Prefix(ids, it)), dead + Prefix(ids, it));
        if nodes[ids[it]].ts >= cut { break; }
        ReadyToClean(g0, State(), dead + Prefix(ids, it), ids[it]);
        PrefixNext(ids, it);
        assert dead + Prefix(ids, it + 1) == dead + Prefix(ids, it) + {ids[it]};
        CleanNode(ids[it], g0, dead + Prefix(ids, it));
        it := it + 1;
      }
      assert it == EarlyCount(g0, cut, tid);
      ghost var before := State();
      PartialWithout(g0, before, Alive(g0, dead + Prefix(ids, it)), dead + Prefix(ids, it), Prefix(ids, it),
                     threads[tid := ids[it..]]);
      nodes := nodes - Prefix(ids, it);
      threads := threads[tid := ids[it..]];
      assert State() == Graph(before.nodes - Prefix(ids, it), before.threads[tid := ids[it..]], before.edges);
      assert nodes.Keys == g0.nodes.Keys - (dead + Prefix(ids, it));
    }

    /** Removes everything before the cut, thread by thread in any order. */
    method Cleanup(cut: Timestamp)
      requires Agrees(State()) && State().Threaded() && Distinct(State())
      modifies this`nodes, this`edges, this`threads
      ensures State() == Trim(old(State()), cut)
    {
      hide Agrees, Graph.Threaded, Distinct, Alive, Partial, TrimmedThread;
      ghost var g0 := State();
      var todo := threads.Keys;
      NothingCleaned(g0, cut);
      while todo != {}
        invariant todo <= g0.threads.Keys && threads.Keys == g0.threads.Keys
        invariant forall t <- g0.threads :: threads[t] == if t in todo then g0.threads[t] else TrimmedThread(g0, cut, t)
        invariant Partial(g0, State(), Alive(g0, Cleaned(g0, cut, todo)), Cleaned(g0, cut, todo))
        invariant nodes.Keys == g0.nodes.Keys - Cleaned(g0, cut, todo)
        decreases todo
      {
        var tid :| tid in todo;
        CleanThread(tid, cut, g0, todo);
        todo := todo - {tid};
      }
      assert Cleaned(g0, cut, {}) == Early(g0, cut);
      assert threads == Trim(g0, cut).threads;
      PartialIsTrim(g0, State(), cut);
    }
  }

  lemma NoPrefix(ids: seq<NodeId>, dead: set<NodeId>)
    ensures dead + Prefix(ids, 0) == dead
  {
  }

  lemma NothingCleaned(g0: Graph, cut: Timestamp)
    requires g0.Threaded() && Agrees(g0)
    ensures Cleaned(g0, cut, g0.threads.Keys) == {}
    ensures Partial(g0, g0, Alive(g0, {}), {})
  {
    PartialAtStart(g0);
  }
}
