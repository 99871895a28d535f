/** Forests of stacks rebuilt from the database, and the inclusive counts of their nodes. */
module InclusiveCountsSpec {
  import opened Common
  import opened HashConsSpec
  import opened Executions

  type StacksMap = map<StackId, Stack>
  type ReverseStacksMap = map<StackId, seq<StackId>>

  ghost predicate Distinct(ids: seq<StackId>) {
    forall i, j | 0 <= i < j < |ids| :: ids[i] != ids[j]
  }

  ghost predicate CellsOk(s: Store, stacks: StacksMap) {
    forall id <- stacks :: id in s.stacks && stacks[id] == s.stacks[id]
  }

  /** A list of cells on one parent, each once. */
  ghost predicate ChildListOk(stacks: StacksMap, ids: seq<StackId>, p: StackId) {
    Distinct(ids) && forall i | 0 <= i < |ids| :: ids[i] in stacks && stacks[ids[i]].bottom == p
  }

  ghost predicate ListsOk(stacks: StacksMap, reverse: ReverseStacksMap) {
    forall p: StackId :: ChildListOk(stacks, Children(reverse, p), p)
  }

  ghost predicate AllListed(stacks: StacksMap, reverse: ReverseStacksMap) {
    forall id <- stacks :: id in Children(reverse, stacks[id].bottom)
  }

  /** The maps hold cells of the database; each is listed exactly once under its parent, and nothing else is. */
  ghost predicate MapsOk(s: Store, stacks: StacksMap, reverse: ReverseStacksMap) {
    CellsOk(s, stacks) && ListsOk(stacks, reverse) && AllListed(stacks, reverse)
  }

  function Children(reverse: ReverseStacksMap, p: StackId): seq<StackId> {
    if p in reverse then reverse[p] else []
  }

  /** The parent of every cell is there too. */
  ghost predicate Closed(stacks: StacksMap) {
    forall id <- stacks :: stacks[id].bottom == EMPTY_STACK || stacks[id].bottom in stacks
  }

  lemma AddKeepsLists(stacks: StacksMap, reverse: ReverseStacksMap, id: StackId, st: Stack)
    requires ListsOk(stacks, reverse) && id !in stacks
    ensures ListsOk(stacks[id := st], reverse[st.bottom := Children(reverse, st.bottom) + [id]])
  {
    var p := st.bottom;
    var stacks', reverse' := stacks[id := st], reverse[p := Children(reverse, p) + [id]];
    forall q: StackId
      ensures ChildListOk(stacks', Children(reverse', q), q)
    {
      assert ChildListOk(stacks, Children(reverse, q), q);
      AddKeepsList(stacks, id, st, Children(reverse, q), q);
      hide ListsOk, ChildListOk;
    }
  }

  lemma AddKeepsList(stacks: StacksMap, id: StackId, st: Stack, ids: seq<StackId>, q: StackId)
    requires ChildListOk(stacks, ids, q) && id !in stacks
    ensures ChildListOk(stacks[id := st], ids, q)
    ensures st.bottom == q ==> ChildListOk(stacks[id := st], ids + [id], q)
  {
  }

  lemma AddKeepsListed(stacks: StacksMap, reverse: ReverseStacksMap, id: StackId, st: Stack)
    requires AllListed(stacks, reverse) && id !in stacks
    ensures AllListed(stacks[id := st], reverse[st.bottom := Children(reverse, st.bottom) + [id]])
  {
    var p := st.bottom;
    var stacks', reverse' := stacks[id := st], reverse[p := Children(reverse, p) + [id]];
    forall x <- stacks'
      ensures x in Children(reverse', stacks'[x].bottom)
    {
      if x == id {
        assert Children(reverse', p)[|Children(reverse, p)|] == id;
      } else {
        assert x in Children(reverse, stacks[x].bottom);
      }
    }
  }

  /** A cell not yet in the maps, added under its parent. */
  lemma AddKeepsMaps(s: Store, stacks: StacksMap, reverse: ReverseStacksMap, id: StackId)
    requires MapsOk(s, stacks, reverse) && id !in stacks && id in s.stacks
    ensures var p := s.stacks[id].bottom;
            MapsOk(s, stacks[id := s.stacks[id]], reverse[p := Children(reverse, p) + [id]])
  {
    AddKeepsLists(stacks, reverse, id, s.stacks[id]);
    AddKeepsListed(stacks, reverse, id, s.stacks[id]);
    hide ListsOk, AllListed;
  }

  // ----- Chains

  /** `a` is `x` or one of the stacks below it, down to the empty one. */
  ghost predicate InChain(s: Store, a: StackId, x: StackId)
    requires s.Consistent() && s.IsStack(x)
    decreases x
  {
    a == x || (x != EMPTY_STACK && InChain(s, a, s.stacks[x].bottom))
  }

  lemma {:induction false} ChainDescends(s: Store, a: StackId, x: StackId)
    requires s.Consistent() && s.IsStack(x) && InChain(s, a, x)
    ensures a <= x && s.IsStack(a)
    decreases x
  {
    if a != x { ChainDescends(s, a, s.stacks[x].bottom); }
  }

  lemma {:induction false} ChainIsLinear(s: Store, a: StackId, b: StackId, x: StackId)
    requires s.Consistent() && s.IsStack(x) && InChain(s, a, x) && InChain(s, b, x) && a <= b
    ensures s.IsStack(b) && InChain(s, a, b)
    decreases x
  {
    ChainDescends(s, b, x);
    if b != x {
      if a == x { ChainDescends(s, b, x); }
      ChainIsLinear(s, a, b, s.stacks[x].bottom);
    }
  }

  lemma {:induction false} ChainTransitive(s: Store, a: StackId, b: StackId, x: StackId)
    requires s.Consistent() && s.IsStack(x) && InChain(s, b, x) && s.IsStack(b) && InChain(s, a, b)
    ensures InChain(s, a, x)
    decreases x
  {
    if b != x { ChainTransitive(s, a, b, s.stacks[x].bottom); }
  }

  lemma {:induction false} EmptyInEveryChain(s: Store, x: StackId)
    requires s.Consistent() && s.IsStack(x)
    ensures InChain(s, EMPTY_STACK, x)
    decreases x
  {
    if x != EMPTY_STACK { EmptyInEveryChain(s, s.stacks[x].bottom); }
  }

  /** The child of `a` through which the chain of `x` passes. */
  lemma {:induction false} ChildToward(s: Store, stacks: StacksMap, a: StackId, x: StackId) returns (c: StackId)
    requires s.Consistent() && Closed(stacks) && CellsOk(s, stacks)
    requires x in stacks && a != x && InChain(s, a, x)
    ensures c in stacks && stacks[c].bottom == a && InChain(s, c, x)
    decreases x
  {
    var p := s.stacks[x].bottom;
    assert x != EMPTY_STACK;
    if p == a { return x; }
    assert p != EMPTY_STACK by { if p == EMPTY_STACK { ChainDescends(s, a, p); } }
    c := ChildToward(s, stacks, a, p);
  }

  /** Two children of one stack share no chain. */
  lemma SiblingsApart(s: Store, a: StackId, c: StackId, d: StackId, x: StackId)
    requires s.Consistent() && s.IsStack(x) && c in s.stacks && d in s.stacks && c < d
    requires s.stacks[c].bottom == a == s.stacks[d].bottom
    ensures !(InChain(s, c, x) && InChain(s, d, x))
  {
    if InChain(s, c, x) && InChain(s, d, x) {
      ChainIsLinear(s, c, d, x);
      ChainDescends(s, c, a);
    }
  }

  // ----- Inclusive counts

  /** The stacks of the maps, and the empty one, whose chain contains `a`. */
  ghost function Descendants(s: Store, stacks: StacksMap, a: StackId): set<StackId>
    requires s.Consistent() && CellsOk(s, stacks)
  {
    set x | x in stacks.Keys + {EMPTY_STACK} && InChain(s, a, x)
  }

  /** What a stack counts: its own samples and those of every stack built on it. */
  ghost function Inclusive(s: Store, stacks: StacksMap, m: Samples, a: StackId): nat
    requires s.Consistent() && CellsOk(s, stacks)
  {
    SumOver(Descendants(s, stacks, a), m)
  }

  /** Descendants through the first `n` children. */
  ghost function Through(s: Store, stacks: StacksMap, children: seq<StackId>, n: nat): set<StackId>
    requires s.Consistent() && CellsOk(s, stacks) && n <= |children|
  {
    if n == 0 then {} else Through(s, stacks, children, n - 1) + Descendants(s, stacks, children[n - 1])
  }

  lemma {:induction false} ThroughHas(s: Store, stacks: StacksMap, children: seq<StackId>, n: nat, j: nat, x: StackId)
    requires s.Consistent() && CellsOk(s, stacks) && j < n <= |children| && x in Descendants(s, stacks, children[j])
    ensures x in Through(s, stacks, children, n)
  {
    if j != n - 1 { ThroughHas(s, stacks, children, n - 1, j, x); }
  }

  lemma {:induction false} ThroughFrom(s: Store, stacks: StacksMap, children: seq<StackId>, n: nat, x: StackId)
    returns (j: nat)
    requires s.Consistent() && CellsOk(s, stacks) && n <= |children| && x in Through(s, stacks, children, n)
    ensures j < n && x in Descendants(s, stacks, children[j])
  {
    if x in Descendants(s, stacks, children[n - 1]) {
      j := n - 1;
    } else {
      j := ThroughFrom(s, stacks, children, n - 1, x);
    }
  }

  /** Children of one stack share no descendant. */
  lemma ChildrenApart(s: Store, stacks: StacksMap, a: StackId, c: StackId, d: StackId)
    requires s.Consistent() && CellsOk(s, stacks) && c in stacks && d in stacks && c != d
    requires stacks[c].bottom == a == stacks[d].bottom
    ensures Descendants(s, stacks, c) !! Descendants(s, stacks, d)
  {
    forall x | x in Descendants(s, stacks, c) && x in Descendants(s, stacks, d)
      ensures false
    {
      if c < d { SiblingsApart(s, a, c, d, x); } else { SiblingsApart(s, a, d, c, x); }
    }
  }

  lemma ThroughNext(s: Store, stacks: StacksMap, reverse: ReverseStacksMap, a: StackId, n: nat)
    requires s.Consistent() && MapsOk(s, stacks, reverse) && n < |Children(reverse, a)|
    ensures var ids := Children(reverse, a);
            && Through(s, stacks, ids, n + 1) == Through(s, stacks, ids, n) + Descendants(s, stacks, ids[n])
            && Through(s, stacks, ids, n) !! Descendants(s, stacks, ids[n])
  {
    var ids := Children(reverse, a);
    assert ChildListOk(stacks, ids, a);
    hide Store.Consistent, InChain, Descendants, CellsOk, ListsOk, AllListed;
    forall x | x in Through(s, stacks, ids, n)
      ensures x !in Descendants(s, stacks, ids[n])
    {
      var j := ThroughFrom(s, stacks, ids, n, x);
      ChildrenApart(s, stacks, a, ids[j], ids[n]);
    }
  }

  lemma DescendantViaChild(s: Store, stacks: StacksMap, reverse: ReverseStacksMap, a: StackId, x: StackId)
    requires s.Consistent() && MapsOk(s, stacks, reverse) && Closed(stacks)
    requires x in Descendants(s, stacks, a) && x != a
    ensures x in Through(s, stacks, Children(reverse, a), |Children(reverse, a)|)
  {
    hide Store.Consistent, ListsOk;
    if x == EMPTY_STACK { ChainDescends(s, a, x); }
    var c := ChildToward(s, stacks, a, x);
    assert c in Children(reverse, stacks[c].bottom);
    var j :| 0 <= j < |Children(reverse, a)| && Children(reverse, a)[j] == c;
    ThroughHas(s, stacks, Children(reverse, a), |Children(reverse, a)|, j, x);
  }

  lemma ChildsDescendant(s: Store, stacks: StacksMap, reverse: ReverseStacksMap, a: StackId, j: nat, x: StackId)
    requires s.Consistent() && MapsOk(s, stacks, reverse) && j < |Children(reverse, a)|
    requires x in Descendants(s, stacks, Children(reverse, a)[j])
    ensures x in Descendants(s, stacks, a) && x != a
  {
    assert ChildListOk(stacks, Children(reverse, a), a);
    hide ListsOk, AllListed;
    var c := Children(reverse, a)[j];
    assert InChain(s, a, c);
    ChainTransitive(s, a, c, x);
    ChainDescends(s, c, x);
  }

  lemma DescendsFromItself(s: Store, stacks: StacksMap, a: StackId)
    requires s.Consistent() && CellsOk(s, stacks) && (a == EMPTY_STACK || a in stacks)
    ensures a in Descendants(s, stacks, a)
  {
  }

  /** A stack's descendants are itself and its children's. */
  lemma DescendantsSplit(s: Store, stacks: StacksMap, reverse: ReverseStacksMap, a: StackId)
    requires s.Consistent() && MapsOk(s, stacks, reverse) && Closed(stacks) && (a == EMPTY_STACK || a in stacks)
    ensures var ids := Children(reverse, a);
            && Descendants(s, stacks, a) == {a} + Through(s, stacks, ids, |ids|)
            && a !in Through(s, stacks, ids, |ids|)
  {
    hide ListsOk, AllListed, CellsOk, Descendants, Through, Store.Consistent, Closed, Children;
    var ids := Children(reverse, a);
    DescendsFromItself(s, stacks, a);
    forall x
      ensures x in Descendants(s, stacks, a) <==> x == a || x in Through(s, stacks, ids, |ids|)
      ensures x in Through(s, stacks, ids, |ids|) ==> x != a
    {
      if x in Through(s, stacks, ids, |ids|) {
        var j := ThroughFrom(s, stacks, ids, |ids|, x);
        ChildsDescendant(s, stacks, reverse, a, j, x);
      } else if x in Descendants(s, stacks, a) && x != a {
        DescendantViaChild(s, stacks, reverse, a, x);
      }
    }
  }

  /** The root counts every sample. */
  lemma RootCountsAll(s: Store, stacks: StacksMap, m: Samples)
    requires s.Consistent() && CellsOk(s, stacks)
    requires m.Keys <= stacks.Keys + {EMPTY_STACK}
    ensures Inclusive(s, stacks, m, EMPTY_STACK) == Sum(m)
  {
    var all := stacks.Keys + {EMPTY_STACK};
    forall x <- all
      ensures InChain(s, EMPTY_STACK, x)
    {
      EmptyInEveryChain(s, x);
    }
    assert Descendants(s, stacks, EMPTY_STACK) == all;
    assert all == m.Keys + (all - m.Keys);
    SumOverUnion(m.Keys, all - m.Keys, m);
    SumOverAbsent(all - m.Keys, m);
  }

  /** The counts written for a subtree: in thousands, nonzero, and not for the empty stack. */
  ghost function Report(s: Store, stacks: StacksMap, m: Samples, ids: set<StackId>): map<StackId, nat>
    requires s.Consistent() && CellsOk(s, stacks)
  {
    map x | x in ids && x != EMPTY_STACK && Inclusive(s, stacks, m, x) / 1000 != 0 :: Inclusive(s, stacks, m, x) / 1000
  }

  lemma ReportUnion(s: Store, stacks: StacksMap, m: Samples, a: set<StackId>, b: set<StackId>)
    requires s.Consistent() && CellsOk(s, stacks)
    ensures Report(s, stacks, m, a + b) == Report(s, stacks, m, a) + Report(s, stacks, m, b)
  {
  }
}
