/** What enumerating the intersections of an interval tree reports, and how tall the tree is. */
module IntervalTreeQuery {
  import opened Common
  import opened IntervalTreeSpec

  datatype Interval = Interval(low: Word64, high: Word64)

  /** The elements of a node from the largest high bound down, while they reach `low`. */
  function Reaching(elems: seq<Element>, low: Word64): seq<Element> {
    if elems == [] || elems[|elems| - 1].high < low then []
    else [elems[|elems| - 1]] + Reaching(elems[..|elems| - 1], low)
  }

  /** The pruned traversal. */
  function Enumerate(t: Tree, q: Interval): seq<Element> {
    if t.Leaf? then []
    else
      var fromLeft := if t.left.Node? && MaxHigh(t.left) > q.low then Enumerate(t.left, q) else [];
      if NodeLow(t.elems) > q.high then fromLeft
      else
        var here := if NodeMaxHigh(t.elems) > q.low then Reaching(t.elems, q.low) else [];
        fromLeft + here + Enumerate(t.right, q)
  }

  lemma EnumerateLeaf(q: Interval)
    ensures Enumerate(Leaf, q) == []
  {
  }

  /** The traversal of a node, one level down. */
  lemma EnumerateNode(t: Tree, q: Interval)
    requires t.Node?
    ensures var fromLeft := if t.left.Node? && MaxHigh(t.left) > q.low then Enumerate(t.left, q) else [];
            var here := if NodeMaxHigh(t.elems) > q.low then Reaching(t.elems, q.low) else [];
            Enumerate(t, q) == if NodeLow(t.elems) > q.high then fromLeft else fromLeft + here + Enumerate(t.right, q)
  {
    hide NodeMaxHigh, NodeLow, Reaching;
  }

  // ----- The plain filter

  function Reverse(xs: seq<Element>): seq<Element> {
    if xs == [] then [] else [xs[|xs| - 1]] + Reverse(xs[..|xs| - 1])
  }

  /** All elements, ascending by low bound, then descending by high bound. */
  function Listing(t: Tree): seq<Element> {
    if t.Leaf? then [] else Listing(t.left) + Reverse(t.elems) + Listing(t.right)
  }

  /** `e` meets the query, and some element with its low bound reaches strictly past the query's start. */
  ghost predicate Reported(all: multiset<Element>, q: Interval, e: Element) {
    && e.low <= q.high && q.low <= e.high
    && exists s <- all :: s.low == e.low && q.low < s.high
  }

  ghost function Select(xs: seq<Element>, all: multiset<Element>, q: Interval): seq<Element> {
    if xs == [] then []
    else (if Reported(all, q, xs[0]) then [xs[0]] else []) + Select(xs[1..], all, q)
  }

  lemma {:induction false} SelectAppend(xs: seq<Element>, ys: seq<Element>, all: multiset<Element>, q: Interval)
    ensures Select(xs + ys, all, q) == Select(xs, all, q) + Select(ys, all, q)
  {
    if xs == [] {
      assert xs + ys == ys;
    } else {
      assert (xs + ys)[1..] == xs[1..] + ys;
      SelectAppend(xs[1..], ys, all, q);
    }
  }

  lemma {:induction false} SelectNone(xs: seq<Element>, all: multiset<Element>, q: Interval)
    requires forall x <- xs :: !Reported(all, q, x)
    ensures Select(xs, all, q) == []
  {
    if xs != [] {
      assert xs[0] in xs;
      SelectNone(xs[1..], all, q);
    }
  }

  lemma {:induction false} ReverseContents(xs: seq<Element>)
    ensures multiset(Reverse(xs)) == multiset(xs)
  {
    if xs != [] {
      ReverseContents(xs[..|xs| - 1]);
      assert xs == xs[..|xs| - 1] + [xs[|xs| - 1]];
    }
  }

  lemma {:induction false} ListingContents(t: Tree)
    ensures multiset(Listing(t)) == Contents(t)
  {
    if t.Node? {
      ListingContents(t.left);
      ReverseContents(t.elems);
      ListingContents(t.right);
    }
  }

  lemma InSeq(xs: seq<Element>, x: Element)
    ensures x in xs <==> x in multiset(xs)
  {
  }

  /** Between the bounds, `all` has the same elements as the tree. */
  ghost predicate Agrees(all: multiset<Element>, t: Tree, lo: int, hi: int) {
    forall e: Element | lo < e.low < hi :: e in all <==> e in Contents(t)
  }

  lemma AgreesBelow(all: multiset<Element>, t: Tree, lo: int, hi: int)
    requires t.Node? && SearchTree(t, lo, hi) && Agrees(all, t, lo, hi)
    ensures Agrees(all, t.left, lo, NodeLow(t.elems)) && Agrees(all, t.right, NodeLow(t.elems), hi)
    ensures forall e <- all | e.low == NodeLow(t.elems) :: e in t.elems
  {
    var key := NodeLow(t.elems);
    SearchTreeBounds(t.left, lo, key);
    SearchTreeBounds(t.right, key, hi);
    assert forall e <- t.elems :: e.low == key;
    forall e: Element
      ensures e in Contents(t) <==> e in Contents(t.left) || e in t.elems || e in Contents(t.right)
    {
      InSeq(t.elems, e);
    }
  }

  /** In one node, the traversal's inner loop keeps what the filter keeps. */
  lemma {:induction false} ReachingIsSelected(elems: seq<Element>, all: multiset<Element>, q: Interval)
    requires forall i, j | 0 <= i < j < |elems| :: elems[i].high <= elems[j].high
    requires forall e <- elems :: Reported(all, q, e) <==> q.low <= e.high
    ensures Reaching(elems, q.low) == Select(Reverse(elems), all, q)
  {
    if elems != [] {
      var last, init := elems[|elems| - 1], elems[..|elems| - 1];
      assert last in elems && forall e <- init :: e in elems;
      if last.high < q.low {
        forall x <- Reverse(elems)
          ensures !Reported(all, q, x)
        {
          InSeq(Reverse(elems), x);
          ReverseContents(elems);
          InSeq(elems, x);
        }
        SelectNone(Reverse(elems), all, q);
      } else {
        ReachingIsSelected(init, all, q);
        assert Reverse(elems)[1..] == Reverse(init);
      }
    }
  }

  lemma NodeIsSelected(t: Tree, q: Interval, all: multiset<Element>, lo: int, hi: int)
    requires t.Node? && SearchTree(t, lo, hi) && Agrees(all, t, lo, hi)
    ensures Select(Reverse(t.elems), all, q) ==
            if NodeLow(t.elems) <= q.high && NodeMaxHigh(t.elems) > q.low then Reaching(t.elems, q.low) else []
  {
    AgreesBelow(all, t, lo, hi);
    var last := t.elems[|t.elems| - 1];
    assert last in Contents(t) && last in all;
    assert forall e <- t.elems :: e.low == NodeLow(t.elems) && e.high <= last.high;
    if NodeLow(t.elems) <= q.high && NodeMaxHigh(t.elems) > q.low {
      ReachingIsSelected(t.elems, all, q);
    } else {
      forall x <- Reverse(t.elems)
        ensures !Reported(all, q, x)
      {
        InSeq(Reverse(t.elems), x);
        ReverseContents(t.elems);
        InSeq(t.elems, x);
      }
      SelectNone(Reverse(t.elems), all, q);
    }
  }

  /** A subtree that ends no later than the query's start, or starts after its end, reports nothing. */
  lemma PrunedIsUnselected(t: Tree, q: Interval, all: multiset<Element>, lo: int, hi: int)
    requires SearchTree(t, lo, hi) && Agrees(all, t, lo, hi)
    requires MaxHigh(t) <= q.low || q.high <= lo
    ensures Select(Listing(t), all, q) == []
  {
    SearchTreeBounds(t, lo, hi);
    MaxHighIsMaximum(t, lo, hi);
    forall x <- Listing(t)
      ensures !Reported(all, q, x)
    {
      ListingContents(t);
      InSeq(Listing(t), x);
    }
    SelectNone(Listing(t), all, q);
  }

  lemma {:induction false} EnumerateSelects(t: Tree, q: Interval, all: multiset<Element>, lo: int, hi: int)
    requires SearchTree(t, lo, hi) && Agrees(all, t, lo, hi)
    ensures Enumerate(t, q) == Select(Listing(t), all, q)
  {
    hide SearchTree, Agrees, Reported, Contents, Select, Reverse, Reaching;
    if t.Leaf? {
      SelectNone(Listing(t), all, q);
    } else {
      ChildrenInOrder(t, lo, hi);
      AgreesBelow(all, t, lo, hi);
      NodeIsSelected(t, q, all, lo, hi);
      var key := NodeLow(t.elems);
      SelectAppend(Listing(t.left) + Reverse(t.elems), Listing(t.right), all, q);
      SelectAppend(Listing(t.left), Reverse(t.elems), all, q);
      if t.left.Node? && MaxHigh(t.left) > q.low {
        EnumerateSelects(t.left, q, all, lo, key);
      } else {
        PrunedIsUnselected(t.left, q, all, lo, key);
      }
      if key > q.high {
        PrunedIsUnselected(t.right, q, all, key, hi);
      } else {
        EnumerateSelects(t.right, q, all, key, hi);
      }
    }
  }

  // ----- The theorem

  ghost predicate Before(a: Element, b: Element) {
    a.low < b.low || (a.low == b.low && a.high >= b.high)
  }

  ghost predicate InOrder(xs: seq<Element>) {
    forall i, j | 0 <= i < j < |xs| :: Before(xs[i], xs[j])
  }

  lemma {:induction false} SelectKeepsOrder(xs: seq<Element>, all: multiset<Element>, q: Interval)
    requires InOrder(xs)
    ensures InOrder(Select(xs, all, q))
    ensures forall e :: multiset(Select(xs, all, q))[e] == if Reported(all, q, e) then multiset(xs)[e] else 0
  {
    if xs != [] {
      SelectKeepsOrder(xs[1..], all, q);
      assert xs == [xs[0]] + xs[1..];
      var rest := Select(xs[1..], all, q);
      forall x <- rest
        ensures Before(xs[0], x)
      {
        InSeq(rest, x);
        InSeq(xs[1..], x);
      }
    }
  }

  lemma {:induction false} ReverseInOrder(xs: seq<Element>)
    requires forall i, j | 0 <= i < j < |xs| :: xs[i].low == xs[j].low && xs[i].high <= xs[j].high
    ensures InOrder(Reverse(xs))
  {
    if xs != [] {
      var last, init := xs[|xs| - 1], xs[..|xs| - 1];
      ReverseInOrder(init);
      ReverseContents(init);
      forall x <- multiset([last]), y <- multiset(Reverse(init))
        ensures Before(x, y)
      {
        InSeq([last], x);
        InSeq(init, y);
      }
      AppendInOrder([last], Reverse(init));
    }
  }

  lemma AppendInOrder(xs: seq<Element>, ys: seq<Element>)
    requires InOrder(xs) && InOrder(ys)
    requires forall x <- multiset(xs), y <- multiset(ys) :: Before(x, y)
    ensures InOrder(xs + ys)
  {
    forall i, j | 0 <= i < |xs| && 0 <= j < |ys|
      ensures Before(xs[i], ys[j])
    {
      assert xs[i] in multiset(xs) && ys[j] in multiset(ys);
    }
  }

  lemma {:induction false} ListingInOrder(t: Tree, lo: int, hi: int)
    requires SearchTree(t, lo, hi)
    ensures InOrder(Listing(t))
  {
    if t.Node? {
      var key := NodeLow(t.elems);
      ListingInOrder(t.left, lo, key);
      ListingInOrder(t.right, key, hi);
      ListingContents(t.left);
      ListingContents(t.right);
      SearchTreeBounds(t.left, lo, key);
      SearchTreeBounds(t.right, key, hi);
      ReverseContents(t.elems);
      ReverseInOrder(t.elems);
      assert forall x <- multiset(t.elems) :: x in t.elems && x.low == key;
      AppendInOrder(Listing(t.left), Reverse(t.elems));
      AppendInOrder(Listing(t.left) + Reverse(t.elems), Listing(t.right));
    }
  }

  /**
    Enumeration reports exactly the elements that meet the query and share their low bound with
    one that reaches past the query's start, each as often as it was inserted, in order.
   */
  lemma EnumerateIsExact(t: Tree, q: Interval)
    requires Valid(t)
    ensures InOrder(Enumerate(t, q))
    ensures forall e :: multiset(Enumerate(t, q))[e] == if Reported(Contents(t), q, e) then Contents(t)[e] else 0
  {
    hide Listing, Enumerate, Select, RedBlack, Reported;
    ListingInOrder(t, -1, TWO_64);
    ListingContents(t);
    EnumerateSelects(t, q, Contents(t), -1, TWO_64);
    SelectKeepsOrder(Listing(t), Contents(t), q);
  }

  /** Every strictly overlapping element is found; nothing that misses the query is reported. */
  lemma OverlapsAreFound(t: Tree, q: Interval, e: Element)
    requires Valid(t) && e in Contents(t)
    ensures e.low <= q.high && q.low < e.high ==> e in Enumerate(t, q)
    ensures e in Enumerate(t, q) ==> e.low <= q.high && q.low <= e.high
    ensures e.low <= q.high && e.high == q.low ==>
              (e in Enumerate(t, q) <==> exists s <- Contents(t) :: s.low == e.low && q.low < s.high)
  {
    hide Valid, Enumerate, Contents;
    EnumerateIsExact(t, q);
    InSeq(Enumerate(t, q), e);
  }

  /**
    What a query reports after any sequence of insertions depends on what was inserted only, not on the tree's shape.
   */
  lemma QueryOfInsertions(es: seq<Element>, q: Interval)
    ensures var calls := Enumerate(InsertAll(Leaf, es), q);
            && InOrder(calls)
            && forall e :: multiset(calls)[e] == if Reported(multiset(es), q, e) then multiset(es)[e] else 0
  {
    hide Enumerate, Valid, Contents, Reported, InsertAll;
    LeafIsValid();
    InsertAllContents(Leaf, es);
    assert multiset{} + multiset(es) == multiset(es);
    EnumerateIsExact(InsertAll(Leaf, es), q);
  }

  // ----- Height

  function Height(t: Tree): nat {
    if t.Leaf? then 0 else 1 + Max(Height(t.left), Height(t.right))
  }

  function Pow2(n: nat): nat { if n == 0 then 1 else 2 * Pow2(n - 1) }

  lemma {:induction false} Pow2Monotone(a: nat, b: nat)
    requires a <= b
    ensures Pow2(a) <= Pow2(b)
  {
    if a < b { Pow2Monotone(a, b - 1); }
  }

  lemma {:induction false} Pow2Double(n: nat)
    ensures Pow2(2 * n) == Pow2(n) * Pow2(n)
  {
    if n > 0 {
      Pow2Double(n - 1);
      assert Pow2(2 * n) == 2 * Pow2(2 * n - 1) == 4 * Pow2(2 * (n - 1));
    }
  }

  lemma {:induction false} HeightByBlackHeight(t: Tree)
    requires RedBlack(t)
    ensures Pow2(BlackHeight(t)) <= Size(t) + 1
    ensures Height(t) <= 2 * BlackHeight(t) + if IsRed(t) then 1 else 0
  {
    if t.Node? {
      HeightByBlackHeight(t.left);
      HeightByBlackHeight(t.right);
    }
  }

  /** Height is at most twice the binary logarithm of the number of nodes plus one. */
  lemma HeightIsLogarithmic(t: Tree)
    requires Valid(t)
    ensures Pow2(Height(t)) <= (Size(t) + 1) * (Size(t) + 1)
  {
    hide RedBlack, SearchTree, Height, BlackHeight, Size, Pow2;
    HeightByBlackHeight(t);
    Pow2Monotone(Height(t), 2 * BlackHeight(t));
    Pow2Double(BlackHeight(t));
    SquareMonotone(Pow2(BlackHeight(t)), Size(t) + 1);
  }

  lemma SquareMonotone(a: nat, b: nat)
    requires a <= b
    ensures a * a <= b * b
  {
    assert a * a <= a * b;
  }
}
