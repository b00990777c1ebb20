/** Attaching a new leaf, tree.c:225-245, and what an insertion makes of the shape. */
module TreePlace {
  import opened TreeShape
  import opened TreeClimb
  import opened TreeHeap
  import opened TreeOrder
  import opened TreeSplice
  import opened TreePath

  /** `s` with the new node `child` in its empty slot on one side, tree.c:225-230. */
  ghost function Grow(s: Shape, onLeft: bool, child: TreeNode, x: Item): Shape
    requires s.Bin?
  {
    var leaf := Bin(Leaf, child, x, 0, Leaf);
    if onLeft then s.(left := leaf, bal := s.bal - 1) else s.(right := leaf, bal := s.bal + 1)
  }

  ghost function GrowStore(m: Store, n: TreeNode, onLeft: bool, child: TreeNode, x: Item): Store
    requires n in m
  {
    if onLeft then
      m[child := Cell(x, 0, m[n].left, n, false, false)]
       [n := m[n].(left := child, leftChild := true, balance := m[n].balance - 1)]
    else
      m[child := Cell(x, 0, n, m[n].right, false, false)]
       [n := m[n].(right := child, rightChild := true, balance := m[n].balance + 1)]
  }

  /** What inserting `x` makes of a tree; `child` is the node it gets. */
  ghost function Placed(toRoot: bool, cmp: Comparator, t: Shape, x: Item, child: TreeNode): Shape {
    if t.Leaf? then Bin(Leaf, child, x, 0, Leaf)
    else
      var (c, s) := Search(cmp, x, Top, t);
      if s.Leaf? || cmp(x, s.item) == 0 then t
      else InsertClimb(toRoot, Grow(s, cmp(x, s.item) < 0, child, x), c)
  }

  lemma PlacedFirst(toRoot: bool, cmp: Comparator, x: Item, child: TreeNode)
    ensures Placed(toRoot, cmp, Leaf, x, child) == Bin(Leaf, child, x, 0, Leaf)
    ensures Items(Leaf) == [] + [] && Items(Bin(Leaf, child, x, 0, Leaf)) == [] + [x] + []
    ensures Nodes(Leaf) == {} && Nodes(Bin(Leaf, child, x, 0, Leaf)) == {child}
  {
  }

  lemma PlacedFound(toRoot: bool, cmp: Comparator, t: Shape, x: Item, child: TreeNode, c: Ctx, s: Shape)
    requires t.Bin? && (c, s) == Search(cmp, x, Top, t) && s.Bin? && cmp(x, s.item) == 0
    ensures Placed(toRoot, cmp, t, x, child) == t
  {
  }

  lemma PlacedBelow(toRoot: bool, cmp: Comparator, t: Shape, x: Item, child: TreeNode, c: Ctx, s: Shape)
    requires t.Bin? && (c, s) == Search(cmp, x, Top, t) && s.Bin? && cmp(x, s.item) != 0
    ensures Placed(toRoot, cmp, t, x, child) == InsertClimb(toRoot, Grow(s, cmp(x, s.item) < 0, child, x), c)
  {
  }

  lemma GrowAt(m: Store, c: Ctx, s: Shape, onLeft: bool, child: TreeNode, x: Item)
    requires At(m, c, s) && child !in Nodes(s) + CtxNodes(c)
    requires if onLeft then s.left.Leaf? else s.right.Leaf?
    ensures s.node in m && At(GrowStore(m, s.node, onLeft, child, x), c, Grow(s, onLeft, child, x))
    ensures child != s.node ==> GrowStore(m, s.node, onLeft, child, x).Keys == m.Keys + {child}
  {
    var m' := GrowStore(m, s.node, onLeft, child, x);
    var changed := {s.node, child};
    RepCtxFrame(m, m', changed, c, s.node);
    RepFrame(m, m', changed, s.left, Lo(c), s.node);
    RepFrame(m, m', changed, s.right, s.node, Hi(c));
  }

  lemma GrowGrown(toRoot: bool, c: Ctx, s: Shape, onLeft: bool, child: TreeNode, x: Item)
    requires s.Bin? && Balanced(Plug(c, s), toRoot)
    requires if onLeft then s.left.Leaf? else s.right.Leaf?
    ensures Grown(toRoot, Grow(s, onLeft, child, x), c, Height(s))
  {
    PlugBalanced(c, s, toRoot);
  }

  lemma GrowItemsLeft(cmp: Comparator, c: Ctx, s: Shape, child: TreeNode, x: Item)
    returns (a: seq<Item>, b: seq<Item>)
    requires TotalPreorder(cmp) && s.Bin? && s.left.Leaf? && Sorted(cmp, Items(Plug(c, s)))
    requires Between(cmp, Before(c), x, After(c)) && cmp(x, s.item) < 0
    ensures Items(Plug(c, s)) == a + b && Items(Plug(c, Grow(s, true, child, x))) == a + [x] + b
    ensures Between(cmp, a, x, b)
  {
    hide *;
    BetweenChild(cmp, x, c, s, true);
    var r := Items(s.right);
    a, b := Before(c), [s.item] + r + After(c);
    PlugItems(c, s);
    PlugItems(c, Grow(s, true, child, x));
    LeftItems(s, child, x);
    assert Before(c) + ([s.item] + r) + After(c) == a + b;
    assert Before(c) + ([x] + ([s.item] + r)) + After(c) == a + [x] + b;
    LeftFrame(c, s);
  }

  lemma LeftItems(s: Shape, child: TreeNode, x: Item)
    requires s.Bin? && s.left.Leaf?
    ensures Items(s) == [s.item] + Items(s.right)
    ensures Items(Grow(s, true, child, x)) == [x] + ([s.item] + Items(s.right))
  {
  }

  lemma LeftFrame(c: Ctx, s: Shape)
    requires s.Bin?
    ensures var d := Frame(c, true, s.node, s.item, s.bal, s.right);
            Before(d) == Before(c) && After(d) == [s.item] + Items(s.right) + After(c)
  {
  }

  lemma RightItems(s: Shape, child: TreeNode, x: Item)
    requires s.Bin? && s.right.Leaf?
    ensures Items(s) == Items(s.left) + [s.item]
    ensures Items(Grow(s, false, child, x)) == Items(s.left) + [s.item] + [x]
  {
  }

  lemma RightFrame(c: Ctx, s: Shape)
    requires s.Bin?
    ensures var d := Frame(c, false, s.node, s.item, s.bal, s.left);
            Before(d) == Before(c) + Items(s.left) + [s.item] && After(d) == After(c)
  {
  }

  lemma GrowItemsRight(cmp: Comparator, c: Ctx, s: Shape, child: TreeNode, x: Item)
    returns (a: seq<Item>, b: seq<Item>)
    requires TotalPreorder(cmp) && s.Bin? && s.right.Leaf? && Sorted(cmp, Items(Plug(c, s)))
    requires Between(cmp, Before(c), x, After(c)) && cmp(x, s.item) > 0
    ensures Items(Plug(c, s)) == a + b && Items(Plug(c, Grow(s, false, child, x))) == a + [x] + b
    ensures Between(cmp, a, x, b)
  {
    BetweenChild(cmp, x, c, s, false);
    hide *;
    var l := Items(s.left);
    a, b := Before(c) + l + [s.item], After(c);
    PlugItems(c, s);
    PlugItems(c, Grow(s, false, child, x));
    RightItems(s, child, x);
    assert Before(c) + (l + [s.item]) == a;
    assert Before(c) + (l + [s.item] + [x]) == a + [x];
    RightFrame(c, s);
  }

  /** The new leaf sits between the items before and after the place found. */
  lemma GrowContents(cmp: Comparator, c: Ctx, s: Shape, onLeft: bool, child: TreeNode, x: Item)
    returns (a: seq<Item>, b: seq<Item>)
    requires TotalPreorder(cmp) && s.Bin? && Sorted(cmp, Items(Plug(c, s)))
    requires Between(cmp, Before(c), x, After(c))
    requires if onLeft then s.left.Leaf? && cmp(x, s.item) < 0 else s.right.Leaf? && cmp(x, s.item) > 0
    requires Wf(Plug(c, s)) && child !in Nodes(Plug(c, s))
    ensures var t := Plug(c, Grow(s, onLeft, child, x));
            && Items(Plug(c, s)) == a + b && Items(t) == a + [x] + b && Between(cmp, a, x, b)
            && Wf(t) && Nodes(t) == Nodes(Plug(c, s)) + {child} && Size(t) == Size(Plug(c, s)) + 1
            && Height(t) <= Max(Height(Plug(c, s)), Depth(c) + Max(2, Height(s)))
  {
    hide Items, Before, After, Between, Sorted, TotalPreorder, Wf, Nodes, Size, Height, Plug;
    GrowShape(c, s, onLeft, child, x);
    if onLeft {
      a, b := GrowItemsLeft(cmp, c, s, child, x);
    } else {
      a, b := GrowItemsRight(cmp, c, s, child, x);
    }
  }

  /** The part of the tree below the new leaf, on its own. */
  lemma GrowPart(s: Shape, onLeft: bool, child: TreeNode, x: Item)
    requires s.Bin? && (if onLeft then s.left.Leaf? else s.right.Leaf?) && Wf(s) && child !in Nodes(s)
    ensures var g := Grow(s, onLeft, child, x);
            && Wf(g) && Nodes(g) == Nodes(s) + {child} && Size(g) == Size(s) + 1 && Height(g) <= Max(2, Height(s))
  {
  }

  lemma GrowShape(c: Ctx, s: Shape, onLeft: bool, child: TreeNode, x: Item)
    requires s.Bin? && (if onLeft then s.left.Leaf? else s.right.Leaf?)
    requires Wf(Plug(c, s)) && child !in Nodes(Plug(c, s))
    ensures var t := Plug(c, Grow(s, onLeft, child, x));
            && Wf(t) && Nodes(t) == Nodes(Plug(c, s)) + {child} && Size(t) == Size(Plug(c, s)) + 1
            && Height(t) <= Max(Height(Plug(c, s)), Depth(c) + Max(2, Height(s)))
  {
    hide Grow, Plug, Nodes, CtxNodes, Wf, CtxWf, Size, Height, Depth;
    var g := Grow(s, onLeft, child, x);
    PlugWf(c, s);
    PlugNodes(c, s);
    GrowPart(s, onLeft, child, x);
    PlugWf(c, g);
    PlugNodes(c, g);
    PlugSize(c, s, g);
    PlugHeightBound(c, s, g);
  }

  lemma GrowNode(s: Shape, onLeft: bool, child: TreeNode, x: Item)
    requires s.Bin?
    ensures Grow(s, onLeft, child, x).Bin? && Grow(s, onLeft, child, x).node == s.node
  {
  }

  lemma SameTreeFacts(u: Shape, t: Shape)
    requires SameTree(u, t)
    ensures Items(u) == Items(t) && Nodes(u) == Nodes(t) && Size(u) == Size(t) && (Wf(u) <==> Wf(t))
  {
  }

  lemma PlaceHeight(c: Ctx, s: Shape)
    requires Height(Plug(c, s)) <= MAX_HEIGHT && Depth(c) + 1 < MAX_HEIGHT
    ensures Max(Height(Plug(c, s)), Depth(c) + Max(2, Height(s))) <= MAX_HEIGHT
  {
    PlugHeightBound(c, s, s);
  }

  lemma SortedInsert(cmp: Comparator, a: seq<Item>, x: Item, b: seq<Item>)
    requires TotalPreorder(cmp) && Sorted(cmp, a + b) && Between(cmp, a, x, b)
    ensures Sorted(cmp, a + [x] + b)
  {
    SortedConcat(cmp, a, b);
    SortedConcat(cmp, a, [x]);
    SortedConcat(cmp, a + [x], b);
  }

  /** Attaching a leaf and climbing: all an insertion does to the shape. */
  lemma PlaceGrown(toRoot: bool, cmp: Comparator, m: Store, c: Ctx, s: Shape, onLeft: bool, child: TreeNode, x: Item)
    returns (a: seq<Item>, b: seq<Item>)
    requires At(m, c, s) && s.Bin? && m.Keys == Nodes(Plug(c, s)) && child !in m
    requires TotalPreorder(cmp) && Sorted(cmp, Items(Plug(c, s))) && Balanced(Plug(c, s), toRoot)
    requires Between(cmp, Before(c), x, After(c)) && Wf(Plug(c, s))
    requires if onLeft then s.left.Leaf? && cmp(x, s.item) < 0 else s.right.Leaf? && cmp(x, s.item) > 0
    requires Height(Plug(c, s)) <= MAX_HEIGHT && Depth(c) + 1 < MAX_HEIGHT
    ensures var m' := GrowStore(m, s.node, onLeft, child, x); var t := Grow(s, onLeft, child, x);
            && At(m', c, t) && t.Bin? && t.node == s.node && m'.Keys == m.Keys + {child} && Grown(toRoot, t, c, Height(s))
    ensures var u := InsertClimb(toRoot, Grow(s, onLeft, child, x), c);
            && Items(Plug(c, s)) == a + b && Items(u) == a + [x] + b && Between(cmp, a, x, b)
            && Sorted(cmp, Items(u)) && Wf(u) && Nodes(u) == m.Keys + {child} && Size(u) == Size(Plug(c, s)) + 1
            && Balanced(u, toRoot) && Height(u) <= MAX_HEIGHT
  {
    hide *;
    assert child !in Nodes(s) + CtxNodes(c) by { PlugNodes(c, s); }
    GrowAt(m, c, s, onLeft, child, x);
    GrowGrown(toRoot, c, s, onLeft, child, x);
    a, b := GrowContents(cmp, c, s, onLeft, child, x);
    var t := Grow(s, onLeft, child, x);
    GrowNode(s, onLeft, child, x);
    PlaceHeight(c, s);
    InsertClimbBalances(toRoot, t, c, Height(s));
    InsertClimbContents(toRoot, t, c);
    SameTreeFacts(InsertClimb(toRoot, t, c), Plug(c, t));
    SortedInsert(cmp, a, x, b);
  }

  /** A search that ends at a missing child has found the gap for the item. */
  lemma MissItems(cmp: Comparator, c: Ctx, s: Shape, x: Item) returns (a: seq<Item>, b: seq<Item>)
    requires TotalPreorder(cmp) && s.Bin? && Sorted(cmp, Items(Plug(c, s))) && Between(cmp, Before(c), x, After(c))
    requires (s.left.Leaf? && cmp(x, s.item) < 0) || (s.right.Leaf? && cmp(x, s.item) > 0)
    ensures Items(Plug(c, s)) == a + b && Between(cmp, a, x, b)
  {
    if cmp(x, s.item) < 0 {
      a, b := GrowItemsLeft(cmp, c, s, s.node, x);
    } else {
      a, b := GrowItemsRight(cmp, c, s, s.node, x);
    }
  }

  /** Putting another item into a node changes nothing but that item. */
  lemma ReplaceItem(m: Store, c: Ctx, s: Shape, x: Item) returns (a: seq<Item>, b: seq<Item>)
    requires At(m, c, s) && s.Bin? && Wf(Plug(c, s))
    ensures s.node in m
    ensures var t := s.(item := x);
            && At(m[s.node := m[s.node].(item := x)], c, t) && Wf(Plug(c, t)) && Nodes(Plug(c, t)) == Nodes(Plug(c, s))
            && Rep(m[s.node := m[s.node].(item := x)], Plug(c, t), null, null)
            && Root(Plug(c, t), null) == Above(c, s.node)
            && Size(Plug(c, t)) == Size(Plug(c, s)) && Height(Plug(c, t)) == Height(Plug(c, s))
            && Balanced(Plug(c, t), true) == Balanced(Plug(c, s), true)
            && Balanced(Plug(c, t), false) == Balanced(Plug(c, s), false)
    ensures Items(Plug(c, s)) == a + [s.item] + b && Items(Plug(c, s.(item := x))) == a + [x] + b
  {
    var t := s.(item := x);
    var m' := m[s.node := m[s.node].(item := x)];
    RepFrame(m, m', {s.node}, s.left, Lo(c), s.node);
    RepFrame(m, m', {s.node}, s.right, s.node, Hi(c));
    RepCtxFrame(m, m', {s.node}, c, s.node);
    PlugRep(m', c, t);
    ReplaceShape(c, s, x);
    ItemsAroundRoot(s, c);
    ItemsAroundRoot(t, c);
    a, b := Before(c) + Items(s.left), Items(s.right) + After(c);
  }

  lemma ReplaceShape(c: Ctx, s: Shape, x: Item)
    requires s.Bin? && Wf(Plug(c, s))
    ensures var t := s.(item := x);
            && Wf(Plug(c, t)) && Nodes(Plug(c, t)) == Nodes(Plug(c, s))
            && Size(Plug(c, t)) == Size(Plug(c, s)) && Height(Plug(c, t)) == Height(Plug(c, s))
            && Balanced(Plug(c, t), true) == Balanced(Plug(c, s), true)
            && Balanced(Plug(c, t), false) == Balanced(Plug(c, s), false)
  {
    var t := s.(item := x);
    PlugWf(c, s);
    PlugWf(c, t);
    PlugNodes(c, s);
    PlugNodes(c, t);
    PlugSize(c, s, t);
    PlugHeightMonotone(c, s, t);
    PlugHeightMonotone(c, t, s);
    PlugBalanced(c, s, true);
    PlugBalanced(c, t, true);
    PlugBalanced(c, s, false);
    PlugBalanced(c, t, false);
  }

  lemma StoredItem(m: Store, c: Ctx, s: Shape)
    requires At(m, c, s) && s.Bin?
    ensures s.node in m && m[s.node].item == s.item
  {
  }

  lemma ReplacedSorted(cmp: Comparator, a: seq<Item>, y: Item, b: seq<Item>, list: seq<Item>, x: Item)
    requires TotalPreorder(cmp) && Refines(cmp, a + [y] + b, list) && cmp(x, y) == 0
    ensures Sorted(cmp, a + [x] + b)
    ensures var i := IndexOf(cmp, list, x);
            i < |list| && RefStep(cmp, list, Replace(x)) == (list[i := x], y)
  {
    ReplacedStep(cmp, a, y, b, list, x);
  }
}
