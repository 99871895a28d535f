/** Disk requests: intervals in a red-black tree, trimmed by rebuilding it. */
module DiskRequestsSpec {
  import opened Common
  import opened IntervalTreeSpec
  import opened IntervalTreeQuery

  const MAX_WORD: Word64 := TWO_64 - 1

  /** The tree rebuilt from what a query from `ts` on reports. */
  function Clean(t: Tree, ts: Word64): Tree {
    InsertAll(Leaf, Enumerate(t, Interval(ts, MAX_WORD)))
  }

  lemma CleanContents(t: Tree, ts: Word64)
    requires Valid(t)
    ensures Valid(Clean(t, ts))
    ensures forall e :: Contents(Clean(t, ts))[e] ==
                        if Reported(Contents(t), Interval(ts, MAX_WORD), e) then Contents(t)[e] else 0
  {
    hide Valid, Contents, Enumerate, InsertAll, Reported;
    LeafIsValid();
    EnumerateIsExact(t, Interval(ts, MAX_WORD));
    InsertAllContents(Leaf, Enumerate(t, Interval(ts, MAX_WORD)));
  }

  /** Right after a cleanup, queries from the cleanup time on return the elements they did before. */
  lemma CleanIsTransparent(t: Tree, ts: Word64, q: Interval)
    requires Valid(t) && ts <= q.low
    ensures multiset(Enumerate(Clean(t, ts), q)) == multiset(Enumerate(t, q))
  {
    hide Valid, Contents, Enumerate, Clean, Reported;
    CleanContents(t, ts);
    EnumerateIsExact(t, q);
    EnumerateIsExact(Clean(t, ts), q);
    forall e: Element
      ensures multiset(Enumerate(Clean(t, ts), q))[e] == multiset(Enumerate(t, q))[e]
    {
      ReportedAlike(Contents(t), Contents(Clean(t, ts)), ts, q, e);
    }
  }

  /** What a trimmed set of intervals and the whole set report agrees from the trimming time on. */
  lemma ReportedAlike(all: multiset<Element>, kept: multiset<Element>, ts: Word64, q: Interval, e: Element)
    requires ts <= q.low
    requires forall x :: kept[x] == if Reported(all, Interval(ts, MAX_WORD), x) then all[x] else 0
    ensures e in all || e in kept ==> (Reported(all, q, e) <==> Reported(kept, q, e))
    ensures Reported(all, q, e) ==> kept[e] == all[e]
  {
    if Reported(all, q, e) {
      var s :| s in all && s.low == e.low && q.low < s.high;
      assert Reported(all, Interval(ts, MAX_WORD), e) && Reported(all, Interval(ts, MAX_WORD), s);
      assert s in kept;
    }
  }

  // ----- Whole runs

  datatype Op = Add(e: Element) | Cleanup(ts: Word64)

  function Step(t: Tree, op: Op): Tree {
    match op
    case Add(e) => Insert(t, e)
    case Cleanup(ts) => Clean(t, ts)
  }

  function Run(ops: seq<Op>): Tree {
    if ops == [] then Leaf else Step(Run(ops[..|ops| - 1]), ops[|ops| - 1])
  }

  /** Every interval ever added. */
  function Added(ops: seq<Op>): multiset<Element> {
    if ops == [] then multiset{}
    else
      Added(ops[..|ops| - 1]) + if ops[|ops| - 1].Add? then multiset{ops[|ops| - 1].e} else multiset{}
  }

  /** `t` is strictly after every cleanup of the run. */
  predicate AfterCleanups(ops: seq<Op>, t: nat) {
    forall i | 0 <= i < |ops| && ops[i].Cleanup? :: ops[i].ts < t
  }

  /** A run keeps nothing that was not added, and everything that ends after all its cleanups. */
  lemma {:induction false} RunKeepsLive(ops: seq<Op>)
    ensures Valid(Run(ops)) && Contents(Run(ops)) <= Added(ops)
    ensures forall e: Element | AfterCleanups(ops, e.high) :: Contents(Run(ops))[e] == Added(ops)[e]
  {
    hide Valid, Contents, Insert, Clean;
    LeafIsValid();
    if ops != [] {
      var init, last := ops[..|ops| - 1], ops[|ops| - 1];
      RunKeepsLive(init);
      assert forall e: Element | AfterCleanups(ops, e.high) :: AfterCleanups(init, e.high);
      match last {
        case Add(e) => InsertKeepsValid(Run(init), e);
        case Cleanup(ts) =>
          CleanContents(Run(init), ts);
          forall e: Element | AfterCleanups(ops, e.high)
            ensures Contents(Run(ops))[e] == Added(ops)[e]
          {
            assert ops[|ops| - 1].ts < e.high;
            assert e in Contents(Run(init)) ==> Reported(Contents(Run(init)), Interval(ts, MAX_WORD), e);
          }
      }
    }
  }

  /** A query that starts strictly after every cleanup answers as if nothing had ever been cleaned. */
  lemma CleanupsAreInvisible(ops: seq<Op>, q: Interval)
    requires AfterCleanups(ops, q.low)
    ensures InOrder(Enumerate(Run(ops), q))
    ensures forall e :: multiset(Enumerate(Run(ops), q))[e] == if Reported(Added(ops), q, e) then Added(ops)[e] else 0
  {
    hide Valid, Contents, Enumerate, Run, Added;
    RunKeepsLive(ops);
    EnumerateIsExact(Run(ops), q);
    var kept, all := Contents(Run(ops)), Added(ops);
    forall e: Element
      ensures Reported(kept, q, e) <==> Reported(all, q, e)
      ensures q.low <= e.high ==> kept[e] == all[e]
    {
      if q.low <= e.high { assert AfterCleanups(ops, e.high); }
      if Reported(all, q, e) {
        var s :| s in all && s.low == e.low && q.low < s.high;
        assert AfterCleanups(ops, s.high);
        assert s in kept;
      }
    }
  }

  lemma BothReported(all: multiset<Element>, e: Element, longer: Element, q: Interval)
    requires e in all && longer in all && e.low == longer.low && q.low <= e.high && q.low < longer.high
    requires e.low <= q.high
    ensures Reported(all, q, e)
  {
  }

  lemma RunStep(ops: seq<Op>, op: Op)
    ensures Run(ops + [op]) == Step(Run(ops), op)
    ensures Added(ops + [op]) == Added(ops) + if op.Add? then multiset{op.e} else multiset{}
  {
    assert (ops + [op])[..|ops|] == ops;
  }

  /** Cleaning at the high bound of the only interval removes it. */
  lemma CleanRemovesEnded(e: Element)
    ensures Valid(Clean(Insert(Leaf, e), e.high)) && Contents(Clean(Insert(Leaf, e), e.high)) == multiset{}
  {
    hide Valid, Contents, Insert, Clean, Reported;
    LeafIsValid();
    InsertKeepsValid(Leaf, e);
    CleanContents(Insert(Leaf, e), e.high);
    forall x: Element
      ensures Contents(Clean(Insert(Leaf, e), e.high))[x] == 0
    {
      if x == e { NotReportedAlone(e); }
    }
  }

  lemma NotReportedAlone(e: Element)
    ensures !Reported(multiset{} + multiset{e}, Interval(e.high, MAX_WORD), e)
  {
  }

  /** The query answers from all intervals ever added. */
  ghost predicate AnswersFromAll(ops: seq<Op>, q: Interval) {
    forall e :: multiset(Enumerate(Run(ops), q))[e] == if Reported(Added(ops), q, e) then Added(ops)[e] else 0
  }

  /**
    At the very time of a cleanup a query may differ: an interval that ends then is gone, although a longer one with
    its low bound, added later, would have had it reported.
   */
  lemma CleanupShowsAtItsOwnTime(e: Element, longer: Element, q: Interval)
    requires e.low == longer.low <= q.high && q.low == e.high < longer.high
    ensures !AnswersFromAll([Add(e), Cleanup(e.high), Add(longer)], q)
  {
    hide Valid, Contents, Insert, Clean, Enumerate, Reported, Run, Added;
    var ops := [Add(e), Cleanup(e.high), Add(longer)];
    RunOfThree(Add(e), Cleanup(e.high), Add(longer));
    CleanRemovesEnded(e);
    var t := Clean(Insert(Leaf, e), e.high);
    InsertKeepsValid(t, longer);
    EnumerateIsExact(Insert(t, longer), q);
    BothReported(multiset{e} + multiset{longer}, e, longer, q);
    assert Added(ops) == multiset{e} + multiset{longer};
    assert multiset(Enumerate(Run(ops), q))[e] == 0;
  }

  /** Before the time of a cleanup an interval that has ended by then is gone. */
  lemma CleanupShowsBefore(e: Element, q: Interval)
    requires e.low <= q.high && q.low < e.high
    ensures !AnswersFromAll([Add(e), Cleanup(e.high)], q)
  {
    hide Valid, Contents, Insert, Clean, Enumerate, Reported, Run, Added;
    var ops := [Add(e), Cleanup(e.high)];
    RunOfTwo(Add(e), Cleanup(e.high));
    CleanRemovesEnded(e);
    EnumerateIsExact(Clean(Insert(Leaf, e), e.high), q);
    BothReported(multiset{e}, e, e, q);
    assert Added(ops) == multiset{e};
    assert multiset(Enumerate(Run(ops), q))[e] == 0;
  }

  /** The latest cleanup of the run is at `ts`. */
  predicate LatestCleanup(ops: seq<Op>, ts: Word64) {
    && (exists i :: 0 <= i < |ops| && ops[i] == Cleanup(ts))
    && forall i | 0 <= i < |ops| && ops[i].Cleanup? :: ops[i].ts <= ts
  }

  /** Nothing ends after the last representable time, so nothing is reported from there on. */
  lemma NothingAtTheEnd(ops: seq<Op>, q: Interval)
    requires q.low == MAX_WORD
    ensures AnswersFromAll(ops, q)
  {
    hide Valid, Contents, Enumerate, Run, Added;
    RunKeepsLive(ops);
    EnumerateIsExact(Run(ops), q);
  }

  /**
    Whatever a run did, a query answers from all intervals ever added exactly if it starts after the latest cleanup,
    or both are at the last representable time.
   */
  lemma CleanupsInvisibleIff(ts: Word64, q: Interval)
    ensures (forall ops | LatestCleanup(ops, ts) :: AnswersFromAll(ops, q))
       <==> ts < q.low || ts == q.low == MAX_WORD
  {
    hide AnswersFromAll, Run, Added;
    if ts < q.low || ts == q.low == MAX_WORD {
      forall ops | LatestCleanup(ops, ts)
        ensures AnswersFromAll(ops, q)
      {
        if ts < q.low { InvisibleAfter(ops, q); } else { NothingAtTheEnd(ops, q); }
      }
    } else if q.low < ts {
      var ops := [Add(Element(0, ts, 0)), Cleanup(ts)];
      assert ops[1] == Cleanup(ts) && LatestCleanup(ops, ts);
      CleanupShowsBefore(Element(0, ts, 0), q);
    } else {
      var ops := [Add(Element(0, ts, 0)), Cleanup(ts), Add(Element(0, ts + 1, 0))];
      assert ops[1] == Cleanup(ts) && LatestCleanup(ops, ts);
      CleanupShowsAtItsOwnTime(Element(0, ts, 0), Element(0, ts + 1, 0), q);
    }
  }

  lemma InvisibleAfter(ops: seq<Op>, q: Interval)
    requires AfterCleanups(ops, q.low)
    ensures AnswersFromAll(ops, q)
  {
    hide Enumerate, Run, Added, Reported;
    CleanupsAreInvisible(ops, q);
  }

  lemma RunOfTwo(a: Op, b: Op)
    requires a.Add? && b.Cleanup?
    ensures Run([a, b]) == Clean(Insert(Leaf, a.e), b.ts)
    ensures Added([a, b]) == multiset{} + multiset{a.e} + multiset{}
  {
    hide Insert, Clean;
    assert [] + [a] == [a] && [a] + [b] == [a, b];
    RunStep([], a);
    RunStep([a], b);
  }

  lemma RunOfThree(a: Op, b: Op, c: Op)
    requires a.Add? && b.Cleanup? && c.Add?
    ensures Run([a, b, c]) == Insert(Clean(Insert(Leaf, a.e), b.ts), c.e)
    ensures Added([a, b, c]) == multiset{} + multiset{a.e} + multiset{} + multiset{c.e}
  {
    hide Insert, Clean;
    assert [] + [a] == [a] && [a] + [b] == [a, b] && [a, b] + [c] == [a, b, c];
    RunStep([], a);
    RunStep([a], b);
    RunStep([a, b], c);
  }
}

module DiskRequestsStore {
  import opened Common
  import opened IntervalTreeSpec
  import opened IntervalTreeQuery
  import opened IntervalTrees
  import opened DiskRequestsSpec

  class DiskRequests {
    var intervals: RedBlackIntervalTree
    ghost var ops: seq<Op>

    /** The tree is what the calls so far make of the empty tree. */
    ghost predicate Valid()
      reads this, intervals, intervals.root, ReprOf(intervals.root)
    {
      intervals.Valid() && intervals.Model() == Run(ops)
    }

    constructor ()
      ensures Valid() && ops == [] && fresh(intervals) && intervals.root == null
    {
      intervals := new RedBlackIntervalTree();
      ops := [];
    }

    method AddInterval(start: Word64, end: Word64, tid: ThreadId)
      requires Valid()
      modifies this`ops, intervals, ReprOf(intervals.root)
      ensures Valid() && ops == old(ops) + [Add(Element(start, end, tid))]
      ensures fresh(ReprOf(intervals.root) - old(ReprOf(intervals.root)))
    {
      hide IntervalTreeSpec.Valid, Contents, IntervalTreeSpec.Insert, Clean;
      intervals.Insert(Element(start, end, tid));
      ops := ops + [Add(Element(start, end, tid))];
      RunStep(old(ops), Add(Element(start, end, tid)));
    }

    /** Rebuilds the tree from the intervals that a query from `ts` on reports. */
    method CleanupBefore(ts: Word64)
      requires Valid()
      modifies this`ops, intervals
      ensures Valid() && ops == old(ops) + [Cleanup(ts)]
      ensures fresh(ReprOf(intervals.root))
    {
      hide IntervalTreeSpec.Valid, Contents, InsertAll, Enumerate, Run, Added, TreeNode.Valid, TreeNode.Model;
      RunStep(ops, Cleanup(ts));
      var kept := intervals.EnumerateIntersection(Interval(ts, MAX_WORD));
      var newIntervals := TreeOf(kept);
      assert newIntervals.Model() == Run(ops + [Cleanup(ts)]);
      intervals.root, intervals.size := newIntervals.root, newIntervals.size;
      ops := ops + [Cleanup(ts)];
    }

    /** After every cleanup's time, the answer is that of all the intervals ever added. */
    method GetIntervals(start: Word64, end: Word64) returns (found: seq<Element>)
      requires Valid()
      ensures found == Enumerate(Run(ops), Interval(start, end))
      ensures AfterCleanups(ops, start) ==>
                && InOrder(found)
                && forall e :: multiset(found)[e] ==
                               if Reported(Added(ops), Interval(start, end), e) then Added(ops)[e] else 0
    {
      hide Reported, InOrder, AfterCleanups, Enumerate, Run;
      found := intervals.EnumerateIntersection(Interval(start, end));
      if AfterCleanups(ops, start) {
        CleanupsAreInvisible(ops, Interval(start, end));
      }
    }
  }

  /** A new tree of the elements, inserted in their order. */
  method TreeOf(elements: seq<Element>) returns (tree: RedBlackIntervalTree)
    ensures tree.Valid() && fresh(tree) && fresh(ReprOf(tree.root))
    ensures tree.Model() == InsertAll(Leaf, elements)
  {
    hide IntervalTreeSpec.Valid, Contents, IntervalTreeSpec.Insert, TreeNode.Valid, TreeNode.Model;
    tree := new RedBlackIntervalTree();
    var i := 0;
    while i < |elements|
      invariant 0 <= i <= |elements| && tree.Valid() && fresh(tree) && fresh(ReprOf(tree.root))
      invariant InsertAll(tree.Model(), elements[i..]) == InsertAll(Leaf, elements)
    {
      tree.Insert(elements[i]);
      assert elements[i..][0] == elements[i] && elements[i..][1..] == elements[i + 1..];
      i := i + 1;
    }
  }
}
