/** The red-black interval tree on heap nodes, updated in place. */
module IntervalTrees {
  import opened Common
  import opened IntervalTreeSpec
  import opened IntervalTreeQuery

  class TreeNode {
    var elements: Elements
    var red: bool
    var left: TreeNode?
    var right: TreeNode?
    var subtreeMaxHigh: nat
    ghost var repr: set<TreeNode>

    ghost predicate Valid()
      reads this, repr
      ensures Valid() ==> this in repr
      decreases repr
    {
      && this in repr
      && (left != null ==> left in repr && left.repr <= repr && this !in left.repr && left.Valid())
      && (right != null ==> right in repr && right.repr <= repr && this !in right.repr && right.Valid())
      && (left != null && right != null ==> left.repr !! right.repr)
    }

    /** The tree this node is the root of. */
    ghost function Model(): (m: Tree)
      requires Valid()
      reads this, repr
      ensures m.Node? && m.elems == elements && m.red == red && m.maxHigh == subtreeMaxHigh
      ensures (m.left.Node? <==> left != null) && (m.right.Node? <==> right != null)
      decreases repr
    {
      Node(if left == null then Leaf else left.Model(), elements, red, subtreeMaxHigh,
           if right == null then Leaf else right.Model())
    }

    /** A node, its children and the parts of its tree, one level down. */
    lemma Unfold()
      requires Valid()
      ensures Parted(left, right) && {this} + ReprOf(left) + ReprOf(right) <= repr
      ensures Model().left == ModelOf(left) && Model().right == ModelOf(right)
    {
    }

    constructor (e: Element)
      ensures Valid() && fresh(repr) && repr == {this}
      ensures Model() == Fresh(Leaf, [e], true, Leaf)
    {
      elements, red, left, right := [e], true, null, null;
      subtreeMaxHigh := e.high;
      repr := {this};
    }

    /** The children are trees apart from each other and from this node. */
    ghost predicate Parted(l: TreeNode?, r: TreeNode?)
      reads this, l, r, ReprOf(l), ReprOf(r)
    {
      && (l != null ==> l.Valid() && this !in l.repr)
      && (r != null ==> r.Valid() && this !in r.repr)
      && ReprOf(l) !! ReprOf(r)
    }

    method UpdateSubtreeMaxHigh()
      modifies this`subtreeMaxHigh
      ensures subtreeMaxHigh == Max(Max(if left == null then 0 else left.subtreeMaxHigh,
                                        if right == null then 0 else right.subtreeMaxHigh),
                                    NodeMaxHigh(elements))
        || left == this || right == this
    {
      var l := if left == null then 0 else left.subtreeMaxHigh;
      var r := if right == null then 0 else right.subtreeMaxHigh;
      subtreeMaxHigh := Max(Max(l, r), NodeMaxHigh(elements));
    }

    method SetLeft(l: TreeNode?)
      requires Parted(l, right)
      modifies this`left, this`subtreeMaxHigh, this`repr
      ensures Valid() && repr == {this} + ReprOf(l) + ReprOf(right) && left == l
      ensures Model() == Fresh(ModelOf(l), elements, red, ModelOf(right))
    {
      left := l;
      repr := {this} + ReprOf(l) + ReprOf(right);
      UpdateSubtreeMaxHigh();
    }

    method SetRight(r: TreeNode?)
      requires Parted(left, r)
      modifies this`right, this`subtreeMaxHigh, this`repr
      ensures Valid() && repr == {this} + ReprOf(left) + ReprOf(r) && right == r
      ensures Model() == Fresh(ModelOf(left), elements, red, ModelOf(r))
    {
      right := r;
      repr := {this} + ReprOf(left) + ReprOf(r);
      UpdateSubtreeMaxHigh();
    }

    method SetColor(c: bool)
      requires Valid()
      modifies this`red
      ensures Valid() && Model() == Paint(old(Model()), c) && red == c
    {
      red := c;
    }

    method Add(e: Element)
      requires Valid()
      modifies this`elements, this`subtreeMaxHigh
      ensures Valid()
      ensures Model() == Fresh(old(Model()).left, AddElement(old(elements), e), red, old(Model()).right)
    {
      elements := AddElement(elements, e);
      UpdateSubtreeMaxHigh();
    }
  }

  ghost function ReprOf(n: TreeNode?): set<TreeNode>
    reads n
  {
    if n == null then {} else n.repr
  }

  ghost function ModelOf(n: TreeNode?): Tree
    requires n != null ==> n.Valid()
    reads n, if n == null then {} else n.repr
  {
    if n == null then Leaf else n.Model()
  }

  predicate IsRedNode(n: TreeNode?)
    reads n
  {
    n != null && n.red
  }

  /** Colouring a child changes its colour and nothing else of the tree. */
  method PaintChild(parent: TreeNode, child: TreeNode, c: bool)
    requires parent.Valid() && (parent.left == child || parent.right == child)
    modifies child`red
    ensures parent.Valid() && parent.left == old(parent.left) && parent.right == old(parent.right)
    ensures var m := old(parent.Model());
            parent.Model() ==
            if parent.left == child then m.(left := Paint(m.left, c)) else m.(right := Paint(m.right, c))
  {
    child.SetColor(c);
  }

  method FlipNode(h: TreeNode)
    requires h.Valid()
    modifies h.repr
    ensures h.Valid() && h.repr == old(h.repr) && h.Model() == FlipColors(old(h.Model()))
    ensures h.left == old(h.left) && h.right == old(h.right) && h.elements == old(h.elements)
  {
    h.SetColor(!h.red);
    if h.left != null {
      PaintChild(h, h.left, !h.left.red);
    }
    if h.right != null {
      PaintChild(h, h.right, !h.right.red);
    }
  }

  /** A rotation relinks first and paints afterwards. */
  lemma RotateLeftPainted(h: Tree)
    requires h.Node? && h.right.Node?
    ensures var child := h.right;
            var m := Paint(Fresh(Fresh(h.left, h.elems, h.red, child.left), child.elems, child.red, child.right),
                           h.red);
            RotateLeft(h) == m.(left := Paint(m.left, true))
  {
  }

  /** First half of a rotation: `h` adopts its right child's left subtree. */
  method AdoptRight(h: TreeNode) returns (child: TreeNode)
    requires h.Valid() && h.right != null
    modifies h`right, h`subtreeMaxHigh, h`repr
    ensures child == old(h.right) && h.Valid() && child != h && child.repr <= old(h.repr) && h.repr <= old(h.repr)
    ensures child.Parted(h, child.right) && h.red == old(h.red)
    ensures var m := old(h.Model());
            h.Model() == Fresh(m.left, m.elems, m.red, m.right.left) && ModelOf(child.right) == m.right.right
            && child.elements == m.right.elems && child.red == m.right.red && ReprOf(child.right) <= child.repr
  {
    hide TreeNode.Valid, TreeNode.Model, Fresh;
    child := h.right;
    h.Unfold();
    child.Unfold();
    h.SetRight(child.left);
  }

  method RotateNodeLeft(h: TreeNode) returns (child: TreeNode)
    requires h.Valid() && h.right != null
    modifies h.repr
    ensures child.Valid() && child.repr <= old(h.repr)
    ensures child.Model() == RotateLeft(old(h.Model()))
  {
    hide TreeNode.Valid, TreeNode.Model, Fresh, Paint, RotateLeft;
    h.Unfold();
    RotateLeftPainted(h.Model());
    child := AdoptRight(h);
    child.SetLeft(h);
    child.SetColor(h.red);
    PaintChild(child, h, true);
  }

  /** A rotation relinks first and paints afterwards. */
  lemma RotateRightPainted(h: Tree)
    requires h.Node? && h.left.Node?
    ensures var child := h.left;
            var m := Paint(Fresh(child.left, child.elems, child.red, Fresh(child.right, h.elems, h.red, h.right)),
                           h.red);
            RotateRight(h) == m.(right := Paint(m.right, true))
  {
  }

  /** First half of a rotation: `h` adopts its left child's right subtree. */
  method AdoptLeft(h: TreeNode) returns (child: TreeNode)
    requires h.Valid() && h.left != null
    modifies h`left, h`subtreeMaxHigh, h`repr
    ensures child == old(h.left) && h.Valid() && child != h && child.repr <= old(h.repr) && h.repr <= old(h.repr)
    ensures child.Parted(child.left, h) && h.red == old(h.red)
    ensures var m := old(h.Model());
            h.Model() == Fresh(m.left.right, m.elems, m.red, m.right) && ModelOf(child.left) == m.left.left
            && child.elements == m.left.elems && child.red == m.left.red && ReprOf(child.left) <= child.repr
  {
    hide TreeNode.Valid, TreeNode.Model, Fresh;
    child := h.left;
    h.Unfold();
    child.Unfold();
    h.SetLeft(child.right);
  }

  method RotateNodeRight(h: TreeNode) returns (child: TreeNode)
    requires h.Valid() && h.left != null
    modifies h.repr
    ensures child.Valid() && child.repr <= old(h.repr)
    ensures child.Model() == RotateRight(old(h.Model()))
  {
    hide TreeNode.Valid, TreeNode.Model, Fresh, Paint, RotateRight;
    h.Unfold();
    RotateRightPainted(h.Model());
    child := AdoptLeft(h);
    child.SetRight(h);
    child.SetColor(h.red);
    PaintChild(child, h, true);
  }

  /** Rebalancing on the way up from an insertion. */
  method BalanceNode(h: TreeNode) returns (r: TreeNode)
    requires h.Valid()
    modifies h.repr
    ensures r.Valid() && r.repr <= old(h.repr) && r.Model() == Balance(old(h.Model()))
  {
    hide TreeNode.Valid, TreeNode.Model, RotateLeft, RotateRight;
    r := h;
    h.Unfold();
    if !IsRedNode(r.left) && IsRedNode(r.right) {
      r := RotateNodeLeft(r);
    }
    r.Unfold();
    if IsRedNode(r.left) {
      r.left.Unfold();
      if IsRedNode(r.left.left) {
        r := RotateNodeRight(r);
      }
    }
  }

  /** Splitting a node with two red children on the way down. */
  method SplitNode(h: TreeNode)
    requires h.Valid()
    modifies h.repr
    ensures h.Valid() && h.repr == old(h.repr)
    ensures h.Model() == Split(old(h.Model()))
    ensures h.Parted(h.left, h.right) && {h} + ReprOf(h.left) + ReprOf(h.right) <= h.repr
    ensures h.Model().left == ModelOf(h.left) && h.Model().right == ModelOf(h.right)
  {
    hide TreeNode.Valid, TreeNode.Model;
    h.Unfold();
    if IsRedNode(h.left) && IsRedNode(h.right) {
      FlipNode(h);
    }
    h.Unfold();
  }

  method InsertInternal(h: TreeNode?, e: Element) returns (r: TreeNode)
    requires h != null ==> h.Valid()
    modifies ReprOf(h)
    ensures r.Valid() && fresh(r.repr - old(ReprOf(h)))
    ensures r.Model() == InsertBelow(old(ModelOf(h)), e)
    decreases Size(ModelOf(h)), 1
  {
    hide TreeNode.Valid, TreeNode.Model, Split, Balance, Fresh, AddElement;
    if h == null {
      r := new TreeNode(e);
      return;
    }
    SplitNode(h);
    if e.low == NodeLow(h.elements) {
      h.Add(e);
    } else {
      InsertInChild(h, e);
    }
    r := BalanceNode(h);
  }

  /** The descent: replaces the child on the side of `e`'s low bound. */
  method InsertInChild(h: TreeNode, e: Element)
    requires h.Valid() && h.Parted(h.left, h.right) && {h} + ReprOf(h.left) + ReprOf(h.right) <= h.repr
    requires e.low != NodeLow(h.elements)
    modifies h.repr
    ensures h.Valid() && fresh(h.repr - old(h.repr))
    ensures var m := old(h.Model());
            var left, right := old(ModelOf(h.left)), old(ModelOf(h.right));
            h.Model() == if e.low < NodeLow(m.elems) then Fresh(InsertBelow(left, e), m.elems, m.red, right)
                         else Fresh(left, m.elems, m.red, InsertBelow(right, e))
    decreases Size(ModelOf(h.left)) + Size(ModelOf(h.right)), 2
  {
    hide TreeNode.Valid, TreeNode.Model, InsertBelow, Fresh;
    if e.low < NodeLow(h.elements) {
      var l := InsertInternal(h.left, e);
      h.SetLeft(l);
    } else {
      var r := InsertInternal(h.right, e);
      h.SetRight(r);
    }
  }

  class RedBlackIntervalTree {
    var root: TreeNode?
    var size: nat

    ghost predicate Valid()
      reads this, root, ReprOf(root)
    {
      root != null ==> root.Valid()
    }

    ghost function Model(): Tree
      requires Valid()
      reads this, root, ReprOf(root)
    {
      ModelOf(root)
    }

    constructor ()
      ensures Valid() && Model() == Leaf && size == 0 && root == null
    {
      root, size := null, 0;
    }

    /** Inserts an element; from a tree in order, leaves a tree in order with exactly that element more. */
    method Insert(e: Element)
      requires Valid()
      modifies this, ReprOf(root)
      ensures Valid() && Model() == IntervalTreeSpec.Insert(old(Model()), e) && size == old(size) + 1
      ensures fresh(ReprOf(root) - old(ReprOf(root)))
      ensures IntervalTreeSpec.Valid(old(Model())) ==>
                IntervalTreeSpec.Valid(Model()) && Contents(Model()) == old(Contents(Model())) + multiset{e}
    {
      hide TreeNode.Valid, TreeNode.Model, InsertBelow, IntervalTreeSpec.Valid, Contents;
      if IntervalTreeSpec.Valid(Model()) {
        InsertKeepsValid(Model(), e);
      }
      root := InsertInternal(root, e);
      root.SetColor(false);
      size := size + 1;
    }

    /** The calls made to the callback, in order. */
    method EnumerateIntersection(q: Interval) returns (calls: seq<Element>)
      requires Valid()
      ensures calls == Enumerate(Model(), q)
    {
      calls := EnumerateIntersectionInternal(root, q, []);
    }
  }

  method EnumerateIntersectionInternal(h: TreeNode?, q: Interval, before: seq<Element>) returns (calls: seq<Element>)
    requires h != null ==> h.Valid()
    ensures calls == before + Enumerate(ModelOf(h), q)
    decreases ModelOf(h)
  {
    hide TreeNode.Valid, TreeNode.Model, Enumerate, Reaching, NodeMaxHigh, NodeLow;
    calls := before;
    if h == null {
      EnumerateLeaf(q);
      return;
    }
    h.Unfold();
    EnumerateNode(h.Model(), q);
    if h.left != null && h.left.subtreeMaxHigh > q.low {
      calls := EnumerateIntersectionInternal(h.left, q, calls);
    }
    if NodeLow(h.elements) > q.high { return; }
    if NodeMaxHigh(h.elements) > q.low {
      calls := ReportElements(h.elements, q.low, calls);
    }
    calls := EnumerateIntersectionInternal(h.right, q, calls);
  }

  /** Calls back on the elements of a node from the last, up to the first that ends too early. */
  method ReportElements(elements: Elements, low: Word64, before: seq<Element>) returns (calls: seq<Element>)
    ensures calls == before + Reaching(elements, low)
  {
    calls := before;
    var i := |elements|;
    assert elements[..i] == elements;
    while i > 0
      invariant 0 <= i <= |elements|
      invariant calls + Reaching(elements[..i], low) == before + Reaching(elements, low)
    {
      assert elements[..i][..i - 1] == elements[..i - 1];
      if elements[i - 1].high < low { break; }
      calls := calls + [elements[i - 1]];
      i := i - 1;
    }
  }
}
