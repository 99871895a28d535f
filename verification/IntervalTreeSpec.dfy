/**
  The red-black interval tree as a value: what insertion does to the shape, the colours,
  the contents and the cached maxima, and what enumeration reports.
 */
module IntervalTreeSpec {
  import opened Common

  datatype Element = Element(low: Word64, high: Word64, value: ThreadId)

  /** A node holds at least one element. */
  type Elements = s: seq<Element> | s != [] witness [Element(0, 0, 0)]

  datatype Tree =
    | Leaf
    | Node(left: Tree, elems: Elements, red: bool, maxHigh: nat, right: Tree)

  predicate IsRed(t: Tree) { t.Node? && t.red }

  function MaxHigh(t: Tree): nat { if t.Leaf? then 0 else t.maxHigh }

  /** The largest high bound of a node: its elements are sorted by high bound. */
  function NodeMaxHigh(elems: Elements): Word64 { elems[|elems| - 1].high }

  function NodeLow(elems: Elements): Word64 { elems[0].low }

  /** What a node caches as the maximum of its subtree. */
  function Cached(left: Tree, elems: Elements, right: Tree): nat {
    Max(Max(MaxHigh(left), MaxHigh(right)), NodeMaxHigh(elems))
  }

  /** A node whose cached maximum is up to date with its children's. */
  function Fresh(left: Tree, elems: Elements, red: bool, right: Tree): (r: Tree)
    ensures r.Node?
  {
    Node(left, elems, red, Cached(left, elems, right), right)
  }

  /** The sorted vector of a node after one more element: ties keep their order of arrival. */
  function AddElement(elems: seq<Element>, e: Element): (r: Elements) {
    if elems == [] || elems[|elems| - 1].high <= e.high then elems + [e]
    else AddElement(elems[..|elems| - 1], e) + [elems[|elems| - 1]]
  }

  function Paint(t: Tree, red: bool): Tree {
    if t.Leaf? then t else t.(red := red)
  }

  function FlipColors(t: Tree): Tree
    requires t.Node?
  {
    Node(Paint(t.left, !IsRed(t.left)), t.elems, !t.red, t.maxHigh, Paint(t.right, !IsRed(t.right)))
  }

  function RotateLeft(h: Tree): (r: Tree)
    requires h.Node? && h.right.Node?
    ensures r.Node?
  {
    var child := h.right;
    Fresh(Fresh(h.left, h.elems, true, child.left), child.elems, h.red, child.right)
  }

  function RotateRight(h: Tree): Tree
    requires h.Node? && h.left.Node?
  {
    var child := h.left;
    Fresh(child.left, child.elems, h.red, Fresh(child.right, h.elems, true, h.right))
  }

  /** Leans a lone red right child to the left, then splits two reds in a row. */
  function Balance(h: Tree): (r: Tree)
    requires h.Node?
    ensures r.Node?
  {
    var h1 := if !IsRed(h.left) && IsRed(h.right) then RotateLeft(h) else h;
    if IsRed(h1.left) && IsRed(h1.left.left) then RotateRight(h1) else h1
  }

  /** A black node with two red children splits on the way down. */
  predicate Splits(t: Tree) { t.Node? && IsRed(t.left) && IsRed(t.right) }

  function Size(t: Tree): nat {
    if t.Leaf? then 0 else Size(t.left) + 1 + Size(t.right)
  }

  function Split(t: Tree): (h: Tree)
    requires t.Node?
    ensures h.Node? && Size(h.left) + Size(h.right) < Size(t)
  {
    if Splits(t) then FlipColors(t) else t
  }

  function InsertBelow(t: Tree, e: Element): (r: Tree)
    ensures r.Node?
    decreases Size(t)
  {
    if t.Leaf? then Fresh(Leaf, [e], true, Leaf)
    else
      var h := Split(t);
      Balance(
        if e.low < NodeLow(h.elems) then Fresh(InsertBelow(h.left, e), h.elems, h.red, h.right)
        else if e.low == NodeLow(h.elems) then Fresh(h.left, AddElement(h.elems, e), h.red, h.right)
        else Fresh(h.left, h.elems, h.red, InsertBelow(h.right, e)))
  }

  function Insert(t: Tree, e: Element): Tree {
    Paint(InsertBelow(t, e), false)
  }

  // ----- Contents and search order

  function Contents(t: Tree): multiset<Element> {
    if t.Leaf? then multiset{} else Contents(t.left) + multiset(t.elems) + Contents(t.right)
  }

  ghost predicate ElementsOk(elems: Elements) {
    && (forall i | 0 <= i < |elems| :: elems[i].low == elems[0].low)
    && (forall i, j | 0 <= i < j < |elems| :: elems[i].high <= elems[j].high)
  }

  /** All low bounds strictly between `lo` and `hi`, in search order; elements sorted; caches right. */
  ghost predicate SearchTree(t: Tree, lo: int, hi: int) {
    t.Node? ==>
      && lo < NodeLow(t.elems) < hi && ElementsOk(t.elems)
      && SearchTree(t.left, lo, NodeLow(t.elems)) && SearchTree(t.right, NodeLow(t.elems), hi)
      && t.maxHigh == Cached(t.left, t.elems, t.right)
  }

  lemma {:induction false} SearchTreeBounds(t: Tree, lo: int, hi: int)
    requires SearchTree(t, lo, hi)
    ensures forall x <- Contents(t) :: lo < x.low < hi
  {
    if t.Node? {
      SearchTreeBounds(t.left, lo, NodeLow(t.elems));
      SearchTreeBounds(t.right, NodeLow(t.elems), hi);
    }
  }

  /** The cached maximum is the true maximum of the subtree. */
  lemma {:induction false} MaxHighIsMaximum(t: Tree, lo: int, hi: int)
    requires SearchTree(t, lo, hi)
    ensures forall x <- Contents(t) :: x.high <= MaxHigh(t)
    ensures t.Node? ==> exists x <- Contents(t) :: x.high == MaxHigh(t)
  {
    if t.Node? {
      MaxHighIsMaximum(t.left, lo, NodeLow(t.elems));
      MaxHighIsMaximum(t.right, NodeLow(t.elems), hi);
      var last := t.elems[|t.elems| - 1];
      assert last in Contents(t);
    }
  }

  lemma {:induction false} AddElementContents(elems: seq<Element>, e: Element)
    ensures multiset(AddElement(elems, e)) == multiset(elems) + multiset{e}
  {
    if elems != [] && elems[|elems| - 1].high > e.high {
      var init, last := elems[..|elems| - 1], elems[|elems| - 1];
      assert elems == init + [last];
      AddElementContents(init, e);
    }
  }

  lemma ElementsOkAppend(elems: Elements, last: Element)
    requires ElementsOk(elems) && last.low == NodeLow(elems) && NodeMaxHigh(elems) <= last.high
    ensures ElementsOk(elems + [last])
  {
  }

  lemma ElementsOkInit(elems: Elements)
    requires ElementsOk(elems) && |elems| > 1
    ensures var init: Elements := elems[..|elems| - 1];
            ElementsOk(init) && NodeLow(init) == NodeLow(elems) && NodeMaxHigh(init) <= NodeMaxHigh(elems)
    ensures NodeLow(elems) == elems[|elems| - 1].low
  {
  }

  lemma {:induction false} AddElementOk(elems: Elements, e: Element)
    requires ElementsOk(elems) && e.low == NodeLow(elems)
    ensures ElementsOk(AddElement(elems, e)) && NodeLow(AddElement(elems, e)) == e.low
    ensures NodeMaxHigh(AddElement(elems, e)) == Max(NodeMaxHigh(elems), e.high)
  {
    hide ElementsOk;
    var last := elems[|elems| - 1];
    if last.high <= e.high {
      ElementsOkAppend(elems, e);
    } else if |elems| == 1 {
      assert AddElement(elems, e) == [e] + [last];
      assert ElementsOk([e]) by { SingleElementOk(e); }
      ElementsOkAppend([e], last);
    } else {
      ElementsOkInit(elems);
      AddElementOk(elems[..|elems| - 1], e);
      ElementsOkAppend(AddElement(elems[..|elems| - 1], e), last);
    }
  }

  lemma SingleElementOk(e: Element)
    ensures ElementsOk([e])
  {
  }

  lemma RotateLeftKeepsSearch(h: Tree, lo: int, hi: int)
    requires SearchTree(h, lo, hi) && h.Node? && h.right.Node?
    ensures SearchTree(RotateLeft(h), lo, hi) && Contents(RotateLeft(h)) == Contents(h)
  {
    assert SearchTree(RotateLeft(h).left, lo, NodeLow(h.right.elems));
  }

  lemma RotateRightKeepsSearch(h: Tree, lo: int, hi: int)
    requires SearchTree(h, lo, hi) && h.Node? && h.left.Node?
    ensures SearchTree(RotateRight(h), lo, hi) && Contents(RotateRight(h)) == Contents(h)
  {
    assert SearchTree(RotateRight(h).right, NodeLow(h.left.elems), hi);
  }

  lemma BalanceKeepsSearch(h: Tree, lo: int, hi: int)
    requires SearchTree(h, lo, hi) && h.Node?
    ensures SearchTree(Balance(h), lo, hi) && Contents(Balance(h)) == Contents(h)
  {
    hide RotateLeft, RotateRight, SearchTree, Contents;
    var h1 := h;
    if !IsRed(h.left) && IsRed(h.right) {
      RotateLeftKeepsSearch(h, lo, hi);
      h1 := RotateLeft(h);
    }
    if IsRed(h1.left) && IsRed(h1.left.left) {
      RotateRightKeepsSearch(h1, lo, hi);
    }
  }

  lemma SplitKeepsSearch(t: Tree, lo: int, hi: int)
    requires SearchTree(t, lo, hi) && t.Node?
    ensures SearchTree(Split(t), lo, hi) && Contents(Split(t)) == Contents(t)
  {
  }

  /** A node whose children and elements are in order, with one more element in one of them. */
  lemma FreshKeepsSearch(h: Tree, left: Tree, elems: Elements, right: Tree, e: Element, lo: int, hi: int)
    requires h.Node? && SearchTree(h, lo, hi) && ElementsOk(elems) && NodeLow(elems) == NodeLow(h.elems)
    requires SearchTree(left, lo, NodeLow(h.elems)) && SearchTree(right, NodeLow(h.elems), hi)
    requires Contents(left) + multiset(elems) + Contents(right)
             == Contents(h.left) + multiset(h.elems) + Contents(h.right) + multiset{e}
    ensures var r := Fresh(left, elems, h.red, right);
            SearchTree(r, lo, hi) && Contents(r) == Contents(h) + multiset{e}
  {
  }

  /** Insertion keeps the search tree and adds exactly the element. */
  lemma {:induction false} InsertBelowKeepsSearch(t: Tree, e: Element, lo: int, hi: int)
    requires SearchTree(t, lo, hi) && lo < e.low < hi
    ensures SearchTree(InsertBelow(t, e), lo, hi) && Contents(InsertBelow(t, e)) == Contents(t) + multiset{e}
    decreases Size(t)
  {
    hide Balance, Split, AddElement, ElementsOk, SearchTree, Contents, Fresh;
    if t.Leaf? {
      LeafInsertion(e, lo, hi);
    } else {
      SplitKeepsSearch(t, lo, hi);
      var h := Split(t);
      ChildrenInOrder(h, lo, hi);
      var key := NodeLow(h.elems);
      var left, elems, right := h.left, h.elems, h.right;
      if e.low < key {
        InsertBelowKeepsSearch(h.left, e, lo, key);
        left := InsertBelow(h.left, e);
      } else if e.low == key {
        AddElementOk(h.elems, e);
        AddElementContents(h.elems, e);
        elems := AddElement(h.elems, e);
      } else {
        InsertBelowKeepsSearch(h.right, e, key, hi);
        right := InsertBelow(h.right, e);
      }
      FreshKeepsSearch(h, left, elems, right, e, lo, hi);
      BalanceKeepsSearch(Fresh(left, elems, h.red, right), lo, hi);
    }
  }

  lemma LeafInsertion(e: Element, lo: int, hi: int)
    requires lo < e.low < hi
    ensures var r := Fresh(Leaf, [e], true, Leaf);
            SearchTree(r, lo, hi) && Contents(r) == Contents(Leaf) + multiset{e}
  {
    assert multiset([e]) == multiset{e};
  }

  lemma ChildrenInOrder(h: Tree, lo: int, hi: int)
    requires h.Node? && SearchTree(h, lo, hi)
    ensures SearchTree(h.left, lo, NodeLow(h.elems)) && SearchTree(h.right, NodeLow(h.elems), hi) && ElementsOk(h.elems)
  {
  }

  // ----- Colours and balance

  function BlackHeight(t: Tree): nat {
    if t.Leaf? then 0 else BlackHeight(t.left) + if t.red then 0 else 1
  }

  /** Equal black height on all paths, no two reds in a row, a red right child only beside a red left one. */
  ghost predicate RedBlack(t: Tree) {
    t.Node? ==>
      && RedBlack(t.left) && RedBlack(t.right)
      && BlackHeight(t.left) == BlackHeight(t.right)
      && (IsRed(t.right) ==> IsRed(t.left))
      && (t.red ==> !IsRed(t.left) && !IsRed(t.right))
  }

  /** As `RedBlack`, but a red root may have a red left child: what an insertion below a red node leaves. */
  ghost predicate NearlyRedBlack(t: Tree) {
    && t.Node? && t.red && !IsRed(t.right)
    && RedBlack(t.left) && RedBlack(t.right)
    && BlackHeight(t.left) == BlackHeight(t.right)
  }

  /** Insertion keeps black heights; the root it returns is red or black as the root it was given tells. */
  lemma {:induction false} InsertBelowKeepsColours(t: Tree, e: Element)
    requires RedBlack(t)
    ensures var r := InsertBelow(t, e);
            && BlackHeight(r) == BlackHeight(t)
            && (IsRed(t) ==> NearlyRedBlack(r))
            && (t.Leaf? || Splits(t) ==> RedBlack(r) && IsRed(r))
            && (t.Node? && !t.red && !Splits(t) ==> RedBlack(r) && !IsRed(r))
    decreases Size(t)
  {
    if t.Node? {
      var h := Split(t);
      if e.low < NodeLow(h.elems) {
        InsertBelowKeepsColours(h.left, e);
      } else if e.low > NodeLow(h.elems) {
        InsertBelowKeepsColours(h.right, e);
      }
    }
  }

  /** The full invariant of the tree. */
  ghost predicate Valid(t: Tree) {
    SearchTree(t, -1, TWO_64) && RedBlack(t) && !IsRed(t)
  }

  lemma BlackRootKeeps(t: Tree, lo: int, hi: int)
    requires t.Node? && SearchTree(t, lo, hi) && RedBlack(t)
    ensures var r := Paint(t, false);
            SearchTree(r, lo, hi) && RedBlack(r) && Contents(r) == Contents(t)
  {
  }

  lemma InsertKeepsValid(t: Tree, e: Element)
    requires Valid(t)
    ensures Valid(Insert(t, e)) && Contents(Insert(t, e)) == Contents(t) + multiset{e}
  {
    hide SearchTree, RedBlack, InsertBelow, Contents;
    InsertBelowKeepsSearch(t, e, -1, TWO_64);
    InsertBelowKeepsColours(t, e);
    BlackRootKeeps(InsertBelow(t, e), -1, TWO_64);
  }

  /** The tree after a sequence of insertions. */
  function InsertAll(t: Tree, xs: seq<Element>): Tree
    decreases |xs|
  {
    if xs == [] then t else InsertAll(Insert(t, xs[0]), xs[1..])
  }

  /** Whatever is inserted, in whatever order, the tree keeps its invariant and gains exactly that. */
  lemma {:induction false} InsertAllContents(t: Tree, xs: seq<Element>)
    requires Valid(t)
    ensures Valid(InsertAll(t, xs)) && Contents(InsertAll(t, xs)) == Contents(t) + multiset(xs)
    decreases |xs|
  {
    hide Valid, Contents, Insert;
    if xs != [] {
      InsertKeepsValid(t, xs[0]);
      InsertAllContents(Insert(t, xs[0]), xs[1..]);
      assert xs == [xs[0]] + xs[1..];
    }
  }

  lemma LeafIsValid()
    ensures Valid(Leaf) && Contents(Leaf) == multiset{}
  {
  }
}
