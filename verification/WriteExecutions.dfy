/** Rebuilding the forest of stacks of the executions to report, and writing their counts. */
module WriteExecutions {
  import opened Common
  import opened HashConsSpec
  import opened Databases
  import opened Executions
  import opened InclusiveCountsSpec
  import opened MetricReportSpec

  /** A stack with samples is built on `id`. */
  ghost predicate Needed(s: Store, samples: Samples, id: StackId)
    requires s.Consistent() && forall x <- samples :: s.IsStack(x)
  {
    exists x :: x in samples && InChain(s, id, x)
  }

  /** The worklist holds sampled stacks and stacks below them only, and every sampled one. */
  ghost predicate TodoOk(s: Store, samples: Samples, todo: seq<StackId>)
    requires s.Consistent() && forall x <- samples :: s.IsStack(x)
  {
    && (forall k | 0 <= k < |todo| :: s.IsStack(todo[k]) && Needed(s, samples, todo[k]))
    && forall id <- samples :: Listed(todo, 0, id)
  }

  ghost predicate Listed(todo: seq<StackId>, i: nat, id: StackId) {
    exists k :: i <= k < |todo| && todo[k] == id
  }

  /**
    The first `i` stacks of the worklist are in the map; the parents of all cells of the map are there or still to do.
   */
  ghost predicate DoneUpTo(stacks: StacksMap, todo: seq<StackId>, i: nat) {
    && i <= |todo|
    && (forall k | 0 <= k < i :: todo[k] == EMPTY_STACK || todo[k] in stacks)
    && forall id <- stacks :: ParentKnown(stacks, stacks[id].bottom, todo, i)
  }

  ghost predicate ParentKnown(stacks: StacksMap, p: StackId, todo: seq<StackId>, i: nat) {
    p == EMPTY_STACK || p in stacks || Listed(todo, i, p)
  }

  /** The map keeps the cells it had, and the new ones are below sampled stacks. */
  ghost predicate Grown(s: Store, samples: Samples, before: StacksMap, stacks: StacksMap)
    requires s.Consistent() && forall x <- samples :: s.IsStack(x)
  {
    && stacks.Keys <= s.stacks.Keys
    && (forall id <- before :: id in stacks && stacks[id] == before[id])
    && (forall id <- stacks :: id in before || Needed(s, samples, id))
  }

  class Report {
    var stacks: StacksMap
    var reverseStacks: ReverseStacksMap
    var metricsWritten: seq<KeyValue>
    var written: map<StackId, nat>

    constructor ()
      ensures stacks == map[] && reverseStacks == map[] && metricsWritten == [] && written == map[]
    {
      stacks, reverseStacks, metricsWritten, written := map[], map[], [], map[];
    }

    ghost predicate Valid(s: Store)
      reads this
    {
      MapsOk(s, stacks, reverseStacks) && Closed(stacks)
    }

    /** Adds the stacks of an execution, and all stacks below them, to the maps. */
    method EnsureStacksInMap(samples: Samples, db: Database)
      requires db.Valid() && Valid(db.store) && forall id <- samples :: db.store.IsStack(id)
      modifies this`stacks, this`reverseStacks, db`stacksCache
      ensures db.Valid() && Valid(db.store)
      ensures samples.Keys <= stacks.Keys + {EMPTY_STACK}
      ensures old(stacks).Keys <= stacks.Keys && forall id <- old(stacks) :: stacks[id] == old(stacks)[id]
      ensures db.store == old(db.store) && forall id <- stacks.Keys - old(stacks).Keys :: Needed(db.store, samples, id)
    {
      hide Store.Consistent, MapsOk, Closed, TodoOk, DoneUpTo, Grown, Needed;
      ghost var s := db.store;
      var stacksToDo := SampledStacks(samples);
      WorkStarts(s, samples, stacks, reverseStacks, stacksToDo);
      var i := 0;
      while i < |stacksToDo|
        invariant i <= |stacksToDo| && db.Valid() && db.store == s && MapsOk(s, stacks, reverseStacks)
        invariant TodoOk(s, samples, stacksToDo) && DoneUpTo(stacks, stacksToDo, i)
        invariant Grown(s, samples, old(stacks), stacks)
        decreases s.stacks.Keys - stacks.Keys, |stacksToDo| - i
      {
        var stackId := stacksToDo[i];
        if stackId == EMPTY_STACK || stackId in stacks {
          WorkSkips(stacks, stacksToDo, i);
          i := i + 1;
          continue;
        }
        TodoAt(s, samples, stacksToDo, i);
        var stack := db.GetStack(stackId);
        var bottom := stack.value.bottom;
        TodoGrows(s, samples, stacksToDo, stackId);
        WorkAdds(stacks, stacksToDo, i, stack.value);
        GrownBy(s, samples, old(stacks), stacks, stackId);
        AddKeepsMaps(s, stacks, reverseStacks, stackId);
        stacks := stacks[stackId := stack.value];
        reverseStacks :=
          reverseStacks[bottom := (if bottom in reverseStacks then reverseStacks[bottom] else []) + [stackId]];
        stacksToDo := stacksToDo + [bottom];
        i := i + 1;
      }
      WorkEnds(s, samples, stacks, stacksToDo);
      GrownMeans(s, samples, old(stacks), stacks);
    }

    /** Writes the inclusive counts of a stack and of all stacks on it; returns the stack's own. */
    method WriteSamples(id: StackId, samples: Samples, ghost s: Store) returns (inclusiveCount: nat)
      requires s.Consistent() && Valid(s) && (id == EMPTY_STACK || id in stacks)
      requires written.Keys !! Descendants(s, stacks, id)
      modifies this`written
      ensures inclusiveCount == Inclusive(s, stacks, samples, id)
      ensures written == old(written) + InclusiveCountsSpec.Report(s, stacks, samples, Descendants(s, stacks, id))
      decreases s.nextStack - id
    {
      hide Store.Consistent, MapsOk, CellsOk, Closed, Descendants, Through, SumOver, Inclusive,
        InclusiveCountsSpec.Report;
      MapsHoldCells(s, stacks, reverseStacks);
      var children := if id in reverseStacks then reverseStacks[id] else [];
      var childrenCount := 0;
      NothingThrough(s, stacks, samples, children);
      var i := 0;
      while i < |children|
        invariant 0 <= i <= |children|
        invariant childrenCount == SumOver(Through(s, stacks, children, i), samples)
        invariant written == old(written)
                    + InclusiveCountsSpec.Report(s, stacks, samples, Through(s, stacks, children, i))
      {
        NextChild(s, stacks, reverseStacks, samples, id, i);
        ghost var before := InclusiveCountsSpec.Report(s, stacks, samples, Through(s, stacks, children, i));
        ghost var child := Descendants(s, stacks, children[i]);
        StillApart(old(written), before, Descendants(s, stacks, id), child);
        var count := WriteSamples(children[i], samples, s);
        UnionAssociates(old(written), before, InclusiveCountsSpec.Report(s, stacks, samples, child));
        childrenCount := childrenCount + count;
        i := i + 1;
      }
      AllChildren(s, stacks, reverseStacks, samples, id);
      inclusiveCount := (if id in samples then samples[id] else 0) + childrenCount;
      var inclusiveCountMicroseconds := inclusiveCount / 1000;
      ghost var all := InclusiveCountsSpec.Report(s, stacks, samples, Through(s, stacks, children, |children|));
      UnionAssociates(old(written), all, map[id := inclusiveCountMicroseconds]);
      UnionAssociates(old(written), all, map[]);
      if id != EMPTY_STACK && inclusiveCountMicroseconds != 0 {
        written := written[id := inclusiveCountMicroseconds];
      }
    }

    /**
      One execution: every metric under its own name, each stack's count that of all samples on it, and the root's
      the sum of all.
     */
    method WriteExecution(metrics: map<MetricId, nat>, samples: Samples, db: Database) returns (total: nat)
      requires db.Valid() && Valid(db.store) && forall id <- samples :: db.store.IsStack(id)
      modifies this, db`stacksCache
      ensures db.Valid() && Valid(db.store) && CellsOk(db.store, stacks)
      ensures samples.Keys <= stacks.Keys + {EMPTY_STACK}
      ensures Reports(metricsWritten, metrics)
      ensures total == Sum(samples)
      ensures written == InclusiveCountsSpec.Report(db.store, stacks, samples, stacks.Keys + {EMPTY_STACK})
    {
      hide Store.Consistent, Closed, Descendants, Sum, Reports, MapsOk, CellsOk, Inclusive, InclusiveCountsSpec.Report;
      metricsWritten := WriteMetrics(metrics);
      EnsureStacksInMap(samples, db);
      MapsHoldCells(db.store, stacks, reverseStacks);
      written := map[];
      EverythingDescends(db.store, stacks);
      total := WriteSamples(EMPTY_STACK, samples, db.store);
      RootCountsAll(db.store, stacks, samples);
    }
  }

  /** Reports the metrics of an execution, in the order of an iteration over them. */
  method WriteMetrics(metrics: map<MetricId, nat>) returns (written: seq<KeyValue>)
    ensures Reports(written, metrics)
  {
    hide MetricKey, MetricValue, Decimal;
    var order := KeysOf(metrics);
    written := [];
    for i := 0 to |order|
      invariant |written| == i
      invariant forall k | 0 <= k < i :: written[k] == Pair(order[k], metrics[order[k]])
    {
      var id := order[i];
      var value := metrics[id];
      if id < FIRST_COUNTER {
        LetterIsKey(id);
        written := written + [KeyValue(['a' + id as char], value / 1000)];
      } else {
        CounterIsKey(id);
        written := written + [KeyValue("p" + Decimal(id - FIRST_COUNTER), value)];
      }
    }
    OrderReports(metrics, order, written);
  }

  method SampledStacks(samples: Samples) returns (ids: seq<StackId>)
    ensures forall id :: id in ids <==> id in samples
  {
    ids := KeysOf(samples);
  }

  lemma WorkStarts(s: Store, samples: Samples, stacks: StacksMap, reverse: ReverseStacksMap, todo: seq<StackId>)
    requires s.Consistent() && MapsOk(s, stacks, reverse) && Closed(stacks)
    requires (forall x <- samples :: s.IsStack(x)) && forall id :: id in todo <==> id in samples
    ensures TodoOk(s, samples, todo) && DoneUpTo(stacks, todo, 0) && Grown(s, samples, stacks, stacks)
  {
    hide Store.Consistent, ListsOk, AllListed, InChain;
    forall k | 0 <= k < |todo|
      ensures s.IsStack(todo[k]) && Needed(s, samples, todo[k])
    {
      SampledIsNeeded(s, samples, todo[k]);
    }
    forall id <- samples
      ensures Listed(todo, 0, id)
    {
      assert id in todo;
    }
  }

  lemma SampledIsNeeded(s: Store, samples: Samples, id: StackId)
    requires s.Consistent() && (forall x <- samples :: s.IsStack(x)) && id in samples
    ensures Needed(s, samples, id)
  {
    assert InChain(s, id, id);
  }

  lemma TodoAt(s: Store, samples: Samples, todo: seq<StackId>, i: nat)
    requires s.Consistent() && (forall x <- samples :: s.IsStack(x)) && TodoOk(s, samples, todo) && i < |todo|
    ensures s.IsStack(todo[i]) && Needed(s, samples, todo[i])
  {
  }

  /** The parent of a stack to do may be added to the worklist. */
  lemma TodoGrows(s: Store, samples: Samples, todo: seq<StackId>, id: StackId)
    requires s.Consistent() && (forall x <- samples :: s.IsStack(x)) && TodoOk(s, samples, todo)
    requires id in s.stacks && Needed(s, samples, id)
    ensures TodoOk(s, samples, todo + [s.stacks[id].bottom])
  {
    BottomKnown(s, samples, id);
    hide Store.Consistent, Needed, Listed;
    forall x <- samples
      ensures Listed(todo + [s.stacks[id].bottom], 0, x)
    {
      StillListed(todo, 0, s.stacks[id].bottom, x);
    }
  }

  lemma StillListed(todo: seq<StackId>, i: nat, p: StackId, x: StackId)
    requires i <= |todo| && (x == p || Listed(todo, i, x))
    ensures Listed(todo + [p], i, x)
  {
    var todo' := todo + [p];
    assert todo'[|todo|] == p;
    if k :| i <= k < |todo| && todo[k] == x { assert todo'[k] == x; }
  }

  lemma StepListed(todo: seq<StackId>, i: nat, x: StackId)
    requires i < |todo| && Listed(todo, i, x)
    ensures x == todo[i] || Listed(todo, i + 1, x)
  {
    var k :| i <= k < |todo| && todo[k] == x;
    assert k == i || i + 1 <= k;
  }

  lemma WorkSkips(stacks: StacksMap, todo: seq<StackId>, i: nat)
    requires DoneUpTo(stacks, todo, i) && i < |todo| && (todo[i] == EMPTY_STACK || todo[i] in stacks)
    ensures DoneUpTo(stacks, todo, i + 1)
  {
    hide Listed;
    forall id <- stacks
      ensures ParentKnown(stacks, stacks[id].bottom, todo, i + 1)
    {
      if Listed(todo, i, stacks[id].bottom) { StepListed(todo, i, stacks[id].bottom); }
    }
  }

  lemma WorkAdds(stacks: StacksMap, todo: seq<StackId>, i: nat, st: Stack)
    requires DoneUpTo(stacks, todo, i) && i < |todo| && todo[i] !in stacks
    ensures DoneUpTo(stacks[todo[i] := st], todo + [st.bottom], i + 1)
  {
    hide Listed;
    var stacks', todo' := stacks[todo[i] := st], todo + [st.bottom];
    forall id <- stacks'
      ensures ParentKnown(stacks', stacks'[id].bottom, todo', i + 1)
    {
      var p := stacks'[id].bottom;
      if id == todo[i] {
        StillListed(todo, i + 1, st.bottom, p);
      } else if Listed(todo, i, p) {
        StepListed(todo, i, p);
        if p != todo[i] { StillListed(todo, i + 1, st.bottom, p); }
      }
    }
  }

  lemma GrownBy(s: Store, samples: Samples, before: StacksMap, stacks: StacksMap, id: StackId)
    requires s.Consistent() && (forall x <- samples :: s.IsStack(x)) && Grown(s, samples, before, stacks)
    requires id in s.stacks && id !in stacks && Needed(s, samples, id)
    ensures Grown(s, samples, before, stacks[id := s.stacks[id]]) && id in s.stacks.Keys - stacks.Keys
  {
    hide Store.Consistent, Needed;
  }

  lemma GrownMeans(s: Store, samples: Samples, before: StacksMap, stacks: StacksMap)
    requires s.Consistent() && (forall x <- samples :: s.IsStack(x)) && Grown(s, samples, before, stacks)
    ensures before.Keys <= stacks.Keys && forall id <- before :: stacks[id] == before[id]
    ensures forall id <- stacks.Keys - before.Keys :: Needed(s, samples, id)
  {
    hide Store.Consistent, Needed;
  }

  lemma WorkEnds(s: Store, samples: Samples, stacks: StacksMap, todo: seq<StackId>)
    requires s.Consistent() && (forall x <- samples :: s.IsStack(x)) && TodoOk(s, samples, todo)
    requires DoneUpTo(stacks, todo, |todo|)
    ensures Closed(stacks) && samples.Keys <= stacks.Keys + {EMPTY_STACK}
  {
    hide Store.Consistent, Needed;
    forall id <- stacks
      ensures stacks[id].bottom == EMPTY_STACK || stacks[id].bottom in stacks
    {
      assert ParentKnown(stacks, stacks[id].bottom, todo, |todo|);
    }
    forall id <- samples
      ensures id in stacks.Keys + {EMPTY_STACK}
    {
      assert Listed(todo, 0, id);
    }
  }

  lemma BottomKnown(s: Store, samples: Samples, id: StackId)
    requires s.Consistent() && id in s.stacks
    requires (forall x <- samples :: s.IsStack(x)) && Needed(s, samples, id)
    ensures s.IsStack(s.stacks[id].bottom) && Needed(s, samples, s.stacks[id].bottom)
  {
    var x :| x in samples && InChain(s, id, x);
    assert InChain(s, s.stacks[id].bottom, id);
    ChainTransitive(s, s.stacks[id].bottom, id, x);
  }

  lemma NothingThrough(s: Store, stacks: StacksMap, m: Samples, children: seq<StackId>)
    requires s.Consistent() && CellsOk(s, stacks)
    ensures Through(s, stacks, children, 0) == {} && SumOver({}, m) == 0
    ensures InclusiveCountsSpec.Report(s, stacks, m, {}) == map[]
  {
  }

  lemma UnionAssociates(a: map<StackId, nat>, b: map<StackId, nat>, c: map<StackId, nat>)
    ensures a + b + c == a + (b + c)
  {
  }

  lemma StillApart(a: map<StackId, nat>, b: map<StackId, nat>, whole: set<StackId>, part: set<StackId>)
    requires a.Keys !! whole && part <= whole && b.Keys !! part
    ensures (a + b).Keys !! part
  {
  }

  lemma MapsHoldCells(s: Store, stacks: StacksMap, reverse: ReverseStacksMap)
    requires MapsOk(s, stacks, reverse)
    ensures CellsOk(s, stacks)
  {
  }

  lemma ChildIsAbove(s: Store, stacks: StacksMap, reverse: ReverseStacksMap, a: StackId, i: nat)
    requires s.Consistent() && MapsOk(s, stacks, reverse) && i < |Children(reverse, a)|
    ensures var c := Children(reverse, a)[i]; c in stacks && a < c < s.nextStack
  {
    assert ChildListOk(stacks, Children(reverse, a), a);
    assert Children(reverse, a)[i] in s.stacks;
  }

  lemma ChildsDescendants(s: Store, stacks: StacksMap, reverse: ReverseStacksMap, a: StackId, i: nat)
    requires s.Consistent() && MapsOk(s, stacks, reverse) && i < |Children(reverse, a)|
    ensures Descendants(s, stacks, Children(reverse, a)[i]) <= Descendants(s, stacks, a)
  {
    hide Store.Consistent, ListsOk, AllListed, CellsOk, Descendants, Children;
    forall x <- Descendants(s, stacks, Children(reverse, a)[i])
      ensures x in Descendants(s, stacks, a)
    {
      ChildsDescendant(s, stacks, reverse, a, i, x);
    }
  }

  /** What visiting one more child of a stack adds. */
  lemma NextChild(s: Store, stacks: StacksMap, reverse: ReverseStacksMap, m: Samples, a: StackId, i: nat)
    requires s.Consistent() && MapsOk(s, stacks, reverse) && CellsOk(s, stacks) && i < |Children(reverse, a)|
    ensures var ids := Children(reverse, a);
            var before, after := Through(s, stacks, ids, i), Through(s, stacks, ids, i + 1);
            var child := Descendants(s, stacks, ids[i]);
            && ids[i] in stacks && a < ids[i] < s.nextStack && child <= Descendants(s, stacks, a)
            && SumOver(after, m) == SumOver(before, m) + Inclusive(s, stacks, m, ids[i])
            && InclusiveCountsSpec.Report(s, stacks, m, after)
            == InclusiveCountsSpec.Report(s, stacks, m, before) + InclusiveCountsSpec.Report(s, stacks, m, child)
            && InclusiveCountsSpec.Report(s, stacks, m, before).Keys !! child
  {
    hide Store.Consistent, MapsOk, CellsOk, Descendants, Through, SumOver, InclusiveCountsSpec.Report, Children;
    var ids := Children(reverse, a);
    ChildIsAbove(s, stacks, reverse, a, i);
    ChildsDescendants(s, stacks, reverse, a, i);
    ThroughNext(s, stacks, reverse, a, i);
    SumOverUnion(Through(s, stacks, ids, i), Descendants(s, stacks, ids[i]), m);
    ReportUnion(s, stacks, m, Through(s, stacks, ids, i), Descendants(s, stacks, ids[i]));
    ReportKeys(s, stacks, m, Through(s, stacks, ids, i));
  }

  /** All children of a stack, and the stack itself. */
  lemma AllChildren(s: Store, stacks: StacksMap, reverse: ReverseStacksMap, m: Samples, a: StackId)
    requires s.Consistent() && MapsOk(s, stacks, reverse) && CellsOk(s, stacks) && Closed(stacks)
    requires a == EMPTY_STACK || a in stacks
    ensures var ids := Children(reverse, a);
            var all, n := Through(s, stacks, ids, |ids|), Inclusive(s, stacks, m, a);
            && n == SampleOf(m, a) + SumOver(all, m)
            && InclusiveCountsSpec.Report(s, stacks, m, Descendants(s, stacks, a))
            == InclusiveCountsSpec.Report(s, stacks, m, all)
             + if a != EMPTY_STACK && n / 1000 != 0 then map[a := n / 1000] else map[]
  {
    hide Store.Consistent, MapsOk, CellsOk, Closed, Descendants, Through, SumOver, InclusiveCountsSpec.Report, Children;
    var ids := Children(reverse, a);
    var all := Through(s, stacks, ids, |ids|);
    DescendantsSplit(s, stacks, reverse, a);
    SumOverUnion({a}, all, m);
    SumOverOne(a, m);
    ReportUnion(s, stacks, m, all, {a});
    ReportOne(s, stacks, m, a);
    assert all + {a} == {a} + all;
  }

  lemma ReportKeys(s: Store, stacks: StacksMap, m: Samples, ids: set<StackId>)
    requires s.Consistent() && CellsOk(s, stacks)
    ensures InclusiveCountsSpec.Report(s, stacks, m, ids).Keys <= ids
  {
  }

  lemma ReportOne(s: Store, stacks: StacksMap, m: Samples, id: StackId)
    requires s.Consistent() && CellsOk(s, stacks)
    ensures var n := Inclusive(s, stacks, m, id) / 1000;
            InclusiveCountsSpec.Report(s, stacks, m, {id}) ==
              if id != EMPTY_STACK && n != 0 then map[id := n] else map[]
  {
  }

  lemma SumOverOne(id: StackId, m: Samples)
    ensures SumOver({id}, m) == SampleOf(m, id)
  {
    SumOverRemove({id}, m, id);
    assert {id} - {id} == {};
  }

  lemma EverythingDescends(s: Store, stacks: StacksMap)
    requires s.Consistent() && CellsOk(s, stacks)
    ensures Descendants(s, stacks, EMPTY_STACK) == stacks.Keys + {EMPTY_STACK}
  {
    forall x <- stacks.Keys + {EMPTY_STACK}
      ensures InChain(s, EMPTY_STACK, x)
    {
      EmptyInEveryChain(s, x);
    }
  }
}
