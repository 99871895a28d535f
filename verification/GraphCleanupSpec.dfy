/** Removing everything before a given time from a critical graph. */
module GraphCleanupSpec {
  import opened Common
  import opened CriticalGraphs

  function OutPosition(edge: Edge): Position { if edge.etype.Vertical? then OutVertical else OutHorizontal }

  /** Both ends of an edge of the table hold it in their slots. */
  ghost predicate Held(g: Graph, e: EdgeId) {
    e in g.edges &&
    var edge := g.edges[e];
    && edge.from in g.nodes && g.nodes[edge.from].Slot(OutPosition(edge)) == Some(e)
    && edge.to in g.nodes && g.nodes[edge.to].Slot(OutPosition(edge).Opposite()) == Some(e)
  }

  /** Slots and edge table agree both ways. */
  ghost predicate Agrees(g: Graph) {
    g.Resolved() && forall e <- g.edges :: Held(g, e)
  }

  function Keep(slot: Option<EdgeId>, alive: set<EdgeId>): Option<EdgeId> {
    if slot.Some? && slot.value in alive then slot else None
  }

  /** A node whose slots outside `alive` are cleared. */
  function Filtered(node: Node, alive: set<EdgeId>): Node {
    node.(outV := Keep(node.outV, alive), inV := Keep(node.inV, alive),
          outH := Keep(node.outH, alive), inH := Keep(node.inH, alive))
  }

  /** Edges with no end among `dead`. */
  function Alive(g: Graph, dead: set<NodeId>): set<EdgeId> {
    set e | e in g.edges && g.edges[e].from !in dead && g.edges[e].to !in dead
  }

  function Restrict(g: Graph, alive: set<EdgeId>): map<EdgeId, Edge> {
    map e | e in g.edges && e in alive :: g.edges[e]
  }

  function Early(g: Graph, cut: Timestamp): set<NodeId> { set n | n in g.nodes && g.nodes[n].ts < cut }

  /** How many of a thread's nodes are before the cut. */
  function EarlyCount(g: Graph, cut: Timestamp, tid: ThreadId): nat
    requires g.Threaded() && tid in g.threads
  {
    LowerBound(g.Times(tid), cut)
  }

  function TrimmedThread(g: Graph, cut: Timestamp, tid: ThreadId): seq<NodeId>
    requires g.Threaded() && tid in g.threads
  {
    g.threads[tid][EarlyCount(g, cut, tid)..]
  }

  /** The graph of the nodes at or after the cut and the edges that join two of them. */
  function Trim(g: Graph, cut: Timestamp): Graph
    requires g.Threaded()
  {
    var alive := Alive(g, Early(g, cut));
    Graph(map n | n in g.nodes && cut <= g.nodes[n].ts :: Filtered(g.nodes[n], alive),
          map t | t in g.threads :: TrimmedThread(g, cut, t),
          Restrict(g, alive))
  }

  /** Trimming keeps slots and table in agreement. */
  lemma TrimAgrees(g: Graph, cut: Timestamp)
    requires g.Threaded() && Agrees(g)
    ensures Agrees(Trim(g, cut))
  {
    var h := Trim(g, cut);
    TrimResolved(g, cut);
    hide Graph.Threaded, Graph.Resolved, Trim, Held;
    forall e <- h.edges
      ensures Held(h, e)
    {
      TrimHolds(g, cut, e);
    }
  }

  lemma TrimResolved(g: Graph, cut: Timestamp)
    requires g.Threaded() && g.Resolved()
    ensures Trim(g, cut).Resolved()
  {
    hide Graph.Threaded;
    var h := Trim(g, cut);
    var alive := Alive(g, Early(g, cut));
    forall n <- h.nodes, p: Position | h.nodes[n].Slot(p).Some?
      ensures h.SlotResolves(n, p, h.nodes[n].Slot(p).value)
    {
      assert h.nodes[n].Slot(p) == Keep(g.nodes[n].Slot(p), alive);
      g.SlotEdge(n, p);
    }
  }

  lemma TrimHolds(g: Graph, cut: Timestamp, e: EdgeId)
    requires g.Threaded() && e in Trim(g, cut).edges && Held(g, e)
    ensures Held(Trim(g, cut), e)
  {
    hide Graph.Threaded;
  }

  /** Exactly the nodes of a thread before the cut are early. */
  lemma EarlyCountSplits(g: Graph, cut: Timestamp, t: ThreadId)
    requires g.Threaded() && t in g.threads
    ensures EarlyCount(g, cut, t) <= |g.threads[t]|
    ensures forall i | 0 <= i < |g.threads[t]| :: g.nodes[g.threads[t][i]].ts < cut <==> i < EarlyCount(g, cut, t)
  {
    assert |g.Times(t)| == |g.threads[t]|;
    forall i | 0 <= i < |g.threads[t]|
      ensures g.nodes[g.threads[t][i]].ts < cut <==> i < EarlyCount(g, cut, t)
    {
      assert g.Times(t)[i] == g.nodes[g.threads[t][i]].ts;
    }
  }

  /** Trimming keeps threads sorted, and loses no thread. */
  lemma TrimThreaded(g: Graph, cut: Timestamp)
    requires g.Threaded()
    ensures Trim(g, cut).Threaded() && Trim(g, cut).threads.Keys == g.threads.Keys
  {
    hide EarlyCount, Alive, Restrict;
    var h := Trim(g, cut);
    forall t <- h.threads, i | 0 <= i < |h.threads[t]|
      ensures h.threads[t][i] in h.nodes && h.nodes[h.threads[t][i]].tid == t
    {
      EarlyCountSplits(g, cut, t);
    }
    forall n <- h.nodes
      ensures h.nodes[n].tid in h.threads && n in h.threads[h.nodes[n].tid]
    {
      var k := g.IndexOf(n);
      var t := g.nodes[n].tid;
      EarlyCountSplits(g, cut, t);
      assert h.threads[t][k - EarlyCount(g, cut, t)] == n;
    }
    forall t <- h.threads, i, j | 0 <= i < j < |h.threads[t]|
      ensures h.nodes[h.threads[t][i]].ts <= h.nodes[h.threads[t][j]].ts
    {
      EarlyCountSplits(g, cut, t);
    }
  }

  /** Only the two slots that hold an edge change when it leaves the set of live edges. */
  lemma FilterWithout(g: Graph, alive: set<EdgeId>, e: EdgeId, n: NodeId, p: Position)
    requires g.Resolved() && e in g.edges && n in g.nodes
    ensures Filtered(g.nodes[n], alive - {e}).Slot(p) ==
            if (n == g.edges[e].from && p == OutPosition(g.edges[e]))
               || (n == g.edges[e].to && p == OutPosition(g.edges[e]).Opposite())
            then (if g.nodes[n].Slot(p) == Some(e) then None else Filtered(g.nodes[n], alive).Slot(p))
            else Filtered(g.nodes[n], alive).Slot(p)
  {
    if g.nodes[n].Slot(p).Some? { g.SlotEdge(n, p); }
  }

  // ----- The state between two steps of the removal

  const POSITIONS: seq<Position> := [OutVertical, InVertical, OutHorizontal, InHorizontal]

  /** `g` is `g0` with the edges outside `alive` gone, but for the slots of the nodes in `stale`. */
  ghost predicate Partial(g0: Graph, g: Graph, alive: set<EdgeId>, stale: set<NodeId>) {
    && g.edges == Restrict(g0, alive)
    && (forall m <- g0.nodes | m !in stale :: m in g.nodes && g.nodes[m] == Filtered(g0.nodes[m], alive))
    && (forall m <- g.nodes :: m in g0.nodes && g.nodes[m].ts == g0.nodes[m].ts && g.nodes[m].tid == g0.nodes[m].tid)
  }

  /** Live edges while node `n` is being cleaned: those of its first `i` positions are gone. */
  ghost function AliveDuring(g0: Graph, dead: set<NodeId>, n: NodeId, i: nat): set<EdgeId>
    requires n in g0.nodes && i <= 4
  {
    set e | e in Alive(g0, dead) && forall j | 0 <= j < i :: g0.nodes[n].Slot(POSITIONS[j]) != Some(e)
  }

  /** The slots of `n` that are still to be looked at are in step with the table. */
  ghost predicate Pending(g0: Graph, g: Graph, alive: set<EdgeId>, n: NodeId, i: nat)
    requires n in g0.nodes && i <= 4
  {
    n in g.nodes && forall j | i <= j < 4 ::
      g.nodes[n].Slot(POSITIONS[j]) == Filtered(g0.nodes[n], alive).Slot(POSITIONS[j])
  }

  /** Once its four positions are done, no live edge touches the node. */
  lemma NodeIsCutOff(g0: Graph, dead: set<NodeId>, n: NodeId)
    requires Agrees(g0) && n in g0.nodes
    ensures AliveDuring(g0, dead, n, 4) == Alive(g0, dead + {n})
  {
    assert POSITIONS[0] == OutVertical && POSITIONS[1] == InVertical
           && POSITIONS[2] == OutHorizontal && POSITIONS[3] == InHorizontal;
    forall e <- Alive(g0, dead)
      ensures e in AliveDuring(g0, dead, n, 4) <==> e in Alive(g0, dead + {n})
    {
      forall j | 0 <= j < 4 && g0.nodes[n].Slot(POSITIONS[j]) == Some(e)
        ensures g0.edges[e].from == n || g0.edges[e].to == n
      {
        g0.SlotEdge(n, POSITIONS[j]);
      }
    }
  }

  /** The node at the other end of the edge in a slot, cleared, and the edge erased. */
  function RemoveAt(g: Graph, n: NodeId, p: Position): Graph
    requires n in g.nodes && (g.nodes[n].Slot(p).Some? ==> SlotUsable(g, n, p))
  {
    match g.nodes[n].Slot(p)
    case None => g
    case Some(e) =>
      var other := g.edges[e].End(p.Opposite());
      Graph(g.nodes[other := g.nodes[other].WithSlot(p.Opposite(), None)], g.threads, g.edges - {e})
  }

  predicate SlotUsable(g: Graph, n: NodeId, p: Position)
    requires n in g.nodes && g.nodes[n].Slot(p).Some?
  {
    var e := g.nodes[n].Slot(p).value;
    e in g.edges && g.edges[e].End(p.Opposite()) in g.nodes
  }

  ghost predicate Cleaning(g0: Graph, g: Graph, dead: set<NodeId>, n: NodeId, i: nat) {
    && n in g0.nodes && n !in dead && i <= 4
    && Partial(g0, g, AliveDuring(g0, dead, n, i), dead + {n})
    && Pending(g0, g, AliveDuring(g0, dead, n, i), n, i)
  }

  /** The edge in a pending slot exists, and so does the node at its other end. */
  lemma PendingSlotIsUsable(g0: Graph, g: Graph, dead: set<NodeId>, n: NodeId, i: nat)
    requires Agrees(g0) && i < 4 && Cleaning(g0, g, dead, n, i)
    ensures var p := POSITIONS[i];
            n in g.nodes && (g.nodes[n].Slot(p).Some? ==> SlotUsable(g, n, p))
    ensures var p := POSITIONS[i];
            g.nodes[n].Slot(p).Some? ==> g0.nodes[n].Slot(p) == g.nodes[n].Slot(p)
    ensures var p := POSITIONS[i];
            g.nodes[n].Slot(p).Some? ==> g.nodes[n].Slot(p).value in AliveDuring(g0, dead, n, i)
    ensures var p := POSITIONS[i];
            g.nodes[n].Slot(p).None? && g0.nodes[n].Slot(p).Some? ==>
              g0.nodes[n].Slot(p).value !in AliveDuring(g0, dead, n, i)
  {
    var p := POSITIONS[i];
    var alive := AliveDuring(g0, dead, n, i);
    assert g.nodes[n].Slot(p) == Filtered(g0.nodes[n], alive).Slot(p) == Keep(g0.nodes[n].Slot(p), alive);
    if g.nodes[n].Slot(p).Some? {
      g0.SlotEdge(n, p);
    }
  }

  lemma AliveNext(g0: Graph, dead: set<NodeId>, n: NodeId, i: nat)
    requires n in g0.nodes && i < 4
    ensures AliveDuring(g0, dead, n, i + 1) ==
            AliveDuring(g0, dead, n, i)
            - if g0.nodes[n].Slot(POSITIONS[i]).Some? then {g0.nodes[n].Slot(POSITIONS[i]).value} else {}
  {
  }

  /** What filtering changes when the edge in position `p` of `n` goes. */
  lemma FilterNext(g0: Graph, alive: set<EdgeId>, n: NodeId, p: Position, m: NodeId, q: Position)
    requires Agrees(g0) && n in g0.nodes && m in g0.nodes && g0.nodes[n].Slot(p).Some?
    ensures var e := g0.nodes[n].Slot(p).value;
            && e in g0.edges
            && Filtered(g0.nodes[m], alive - {e}).Slot(q) ==
               if m == g0.edges[e].End(p.Opposite()) && q == p.Opposite() then None
               else if m == n && q == p then None
               else Filtered(g0.nodes[m], alive).Slot(q)
  {
    var e := g0.nodes[n].Slot(p).value;
    g0.SlotEdge(n, p);
    FilterWithout(g0, alive, e, m, q);
  }

  /** One position of one node. */
  lemma RemoveAtKeepsCleaning(g0: Graph, g: Graph, dead: set<NodeId>, n: NodeId, i: nat)
    requires Agrees(g0) && i < 4 && Cleaning(g0, g, dead, n, i)
    requires n in g.nodes && (g.nodes[n].Slot(POSITIONS[i]).Some? ==> SlotUsable(g, n, POSITIONS[i]))
    ensures Cleaning(g0, RemoveAt(g, n, POSITIONS[i]), dead, n, i + 1)
  {
    hide Agrees, AliveDuring, Filtered, Graph.Resolved;
    PendingSlotIsUsable(g0, g, dead, n, i);
    AliveNext(g0, dead, n, i);
    PositionsDiffer();
    var p := POSITIONS[i];
    var alive := AliveDuring(g0, dead, n, i);
    if g.nodes[n].Slot(p).None? {
      assert AliveDuring(g0, dead, n, i + 1) == alive;
    } else {
      var e := g.nodes[n].Slot(p).value;
      var h := RemoveAt(g, n, p);
      RemoveAtPartial(g0, g, alive, dead + {n}, n, p);
      forall j | i + 1 <= j < 4
        ensures h.nodes[n].Slot(POSITIONS[j]) == Filtered(g0.nodes[n], alive - {e}).Slot(POSITIONS[j])
      {
        FilterNext(g0, alive, n, p, n, POSITIONS[j]);
      }
    }
  }

  lemma PositionsDiffer()
    ensures forall i, j | 0 <= i < j < 4 :: POSITIONS[i] != POSITIONS[j]
  {
  }

  lemma RemoveAtPartial(g0: Graph, g: Graph, alive: set<EdgeId>, stale: set<NodeId>, n: NodeId, p: Position)
    requires Agrees(g0) && Partial(g0, g, alive, stale) && n in g0.nodes && n in stale && n in g.nodes
    requires g.nodes[n].Slot(p).Some? && g0.nodes[n].Slot(p) == g.nodes[n].Slot(p) && SlotUsable(g, n, p)
    ensures Partial(g0, RemoveAt(g, n, p), alive - {g.nodes[n].Slot(p).value}, stale)
  {
    var e := g.nodes[n].Slot(p).value;
    var h := RemoveAt(g, n, p);
    hide Agrees, Filtered, Graph.Resolved;
    RestrictNext(g0, g, alive, e);
    forall m <- g0.nodes | m !in stale
      ensures m in h.nodes && h.nodes[m] == Filtered(g0.nodes[m], alive - {e})
    {
      forall q: Position
        ensures h.nodes[m].Slot(q) == Filtered(g0.nodes[m], alive - {e}).Slot(q)
      {
        FilterNext(g0, alive, n, p, m, q);
      }
      FilteredKeepsTime(g0.nodes[m], alive - {e});
      SameSlots(h.nodes[m], Filtered(g0.nodes[m], alive - {e}));
    }
  }

  lemma RestrictNext(g0: Graph, g: Graph, alive: set<EdgeId>, e: EdgeId)
    requires g.edges == Restrict(g0, alive) && e in g.edges
    ensures g.edges - {e} == Restrict(g0, alive - {e}) && e in g0.edges && g0.edges[e] == g.edges[e]
  {
  }

  lemma FilteredKeepsTime(node: Node, alive: set<EdgeId>)
    ensures Filtered(node, alive).ts == node.ts && Filtered(node, alive).tid == node.tid
  {
  }

  lemma SameSlots(a: Node, b: Node)
    requires a.ts == b.ts && a.tid == b.tid && forall q: Position :: a.Slot(q) == b.Slot(q)
    ensures a == b
  {
    assert a.Slot(OutVertical) == b.Slot(OutVertical) && a.Slot(InVertical) == b.Slot(InVertical);
    assert a.Slot(OutHorizontal) == b.Slot(OutHorizontal) && a.Slot(InHorizontal) == b.Slot(InHorizontal);
  }

  // ----- Threads

  /** A thread lists each of its nodes once. */
  ghost predicate Distinct(g: Graph) {
    forall t <- g.threads, i, j | 0 <= i < j < |g.threads[t]| :: g.threads[t][i] != g.threads[t][j]
  }

  /** The nodes before the cut of the threads already cleaned. */
  ghost function Cleaned(g0: Graph, cut: Timestamp, todo: set<ThreadId>): set<NodeId> {
    set n | n in g0.nodes && g0.nodes[n].ts < cut && g0.nodes[n].tid !in todo
  }

  function Prefix(ids: seq<NodeId>, i: nat): set<NodeId>
    requires i <= |ids|
  {
    set k | 0 <= k < i :: ids[k]
  }

  /** The early nodes of a thread are a prefix of its list. */
  lemma PrefixIsEarly(g0: Graph, cut: Timestamp, tid: ThreadId, todo: set<ThreadId>)
    requires g0.Threaded() && tid in g0.threads && tid in todo
    ensures EarlyCount(g0, cut, tid) <= |g0.threads[tid]|
    ensures Cleaned(g0, cut, todo) + Prefix(g0.threads[tid], EarlyCount(g0, cut, tid)) == Cleaned(g0, cut, todo - {tid})
  {
    var ids, c := g0.threads[tid], EarlyCount(g0, cut, tid);
    forall n
      ensures n in Prefix(ids, c) <==> n in g0.nodes && g0.nodes[n].tid == tid && g0.nodes[n].ts < cut
    {
      if n in g0.nodes && g0.nodes[n].tid == tid {
        var k := g0.IndexOf(n);
        assert g0.nodes[n].ts < cut ==> k < c;
      }
      if n in Prefix(ids, c) {
        var k :| 0 <= k < c && ids[k] == n;
        g0.NodeAt(tid, k);
        assert g0.Times(tid)[k] < cut;
      }
    }
  }

  /** The `i`-th node of a thread, once those before it are clean, is ready to be cleaned. */
  lemma ReadyToClean(g0: Graph, g: Graph, dead: set<NodeId>, n: NodeId)
    requires n in g0.nodes && n !in dead && Partial(g0, g, Alive(g0, dead), dead)
    ensures Cleaning(g0, g, dead, n, 0)
  {
    assert AliveDuring(g0, dead, n, 0) == Alive(g0, dead);
  }

  lemma CleaningDone(g0: Graph, g: Graph, dead: set<NodeId>, n: NodeId)
    requires Agrees(g0) && Cleaning(g0, g, dead, n, 4)
    ensures Partial(g0, g, Alive(g0, dead + {n}), dead + {n})
  {
    hide Agrees, Partial;
    NodeIsCutOff(g0, dead, n);
  }

  /** The next node of a thread being cleaned still exists, untouched, at its time. */
  lemma NextNode(g0: Graph, g: Graph, cut: Timestamp, todo: set<ThreadId>, tid: ThreadId, it: nat, alive: set<EdgeId>,
                 stale: set<NodeId>)
    requires g0.Threaded() && Distinct(g0) && tid in g0.threads && tid in todo && it < |g0.threads[tid]|
    requires Partial(g0, g, alive, stale) && g.nodes.Keys == g0.nodes.Keys - Cleaned(g0, cut, todo)
    ensures var n := g0.threads[tid][it];
            && n in g0.nodes && n in g.nodes && g.nodes[n].ts == g0.Times(tid)[it]
            && n !in Cleaned(g0, cut, todo) + Prefix(g0.threads[tid], it)
    ensures it < EarlyCount(g0, cut, tid) <==> g0.Times(tid)[it] < cut
  {
    g0.NodeAt(tid, it);
  }

  lemma PrefixNext(ids: seq<NodeId>, it: nat)
    requires it < |ids|
    ensures Prefix(ids, it + 1) == Prefix(ids, it) + {ids[it]}
  {
  }

  lemma PartialWithout(g0: Graph, g: Graph, alive: set<EdgeId>, stale: set<NodeId>, gone: set<NodeId>,
                       threads: map<ThreadId, seq<NodeId>>)
    requires Partial(g0, g, alive, stale) && gone <= stale
    ensures Partial(g0, Graph(g.nodes - gone, threads, g.edges), alive, stale)
  {
  }

  lemma PartialIsTrim(g0: Graph, g: Graph, cut: Timestamp)
    requires g0.Threaded() && Partial(g0, g, Alive(g0, Early(g0, cut)), Early(g0, cut))
    requires g.nodes.Keys == g0.nodes.Keys - Early(g0, cut) && g.threads == Trim(g0, cut).threads
    ensures g == Trim(g0, cut)
  {
    hide Graph.Threaded, Filtered, TrimmedThread;
    var h := Trim(g0, cut);
    assert g.nodes == h.nodes by {
      assert g.nodes.Keys == h.nodes.Keys;
      assert forall n <- g.nodes :: g.nodes[n] == h.nodes[n];
    }
  }

  lemma PartialAtStart(g0: Graph)
    requires g0.Resolved()
    ensures Alive(g0, {}) == g0.edges.Keys && Partial(g0, g0, g0.edges.Keys, {})
  {
    forall n <- g0.nodes
      ensures g0.nodes[n] == Filtered(g0.nodes[n], g0.edges.Keys)
    {
      forall q: Position
        ensures g0.nodes[n].Slot(q) == Filtered(g0.nodes[n], g0.edges.Keys).Slot(q)
      {
        if g0.nodes[n].Slot(q).Some? { g0.SlotEdge(n, q); }
      }
      SameSlots(g0.nodes[n], Filtered(g0.nodes[n], g0.edges.Keys));
    }
  }
}
