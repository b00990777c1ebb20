/** The values behind the threaded AVL tree of tree.c.

    A `Shape` is the ghost picture of a subtree: which node sits where, and
    what item and balance it stores.  A `Ctx` is the rest of the tree seen from
    a hole in it, innermost ancestor first; it is what a cursor path denotes.
    The functions in this module say what the pointer code does to shapes; the
    lemmas say what that means.  The pointer code itself is in `TreeHeap`. */
module TreeShape {

  /** An item is an address; the comparator gives it meaning. */
  type Item = nat
  const NULL: Item := 0

  type Comparator = (Item, Item) -> int

  class TreeNode {
    var item: Item
    var left: TreeNode?
    var right: TreeNode?
    var balance: int
    var leftChild: bool
    var rightChild: bool

    function Contents(): Cell
      reads this
    {
      Cell(item, balance, left, right, leftChild, rightChild)
    }

    /** A node without children and threads. */
    constructor (item: Item)
      ensures Contents() == Cell(item, 0, null, null, false, false)
    {
      this.item := item;
      left, right := null, null;
      balance := 0;
      leftChild, rightChild := false, false;
    }
  }

  /** The contents of a node, and of the nodes of a tree. */
  datatype Cell = Cell(item: Item, balance: int, left: TreeNode?, right: TreeNode?,
                       leftChild: bool, rightChild: bool)

  type Store = map<TreeNode, Cell>

  datatype Shape =
    | Leaf
    | Bin(left: Shape, node: TreeNode, item: Item, bal: int, right: Shape)

  /** The nodes hold what `m` says. */
  ghost predicate Stores(m: Store)
    reads m.Keys
  {
    forall n :: n in m ==> n.Contents() == m[n]
  }

  datatype Ctx =
    | Top
    | Frame(up: Ctx, onLeft: bool, node: TreeNode, item: Item, bal: int, sib: Shape)

  function Max(a: int, b: int): int { if a < b then b else a }

  function Abs(a: int): nat { if a < 0 then -a else a }

  ghost function Height(t: Shape): nat {
    match t
    case Leaf => 0
    case Bin(l, _, _, _, r) => 1 + Max(Height(l), Height(r))
  }

  ghost function Size(t: Shape): nat {
    match t
    case Leaf => 0
    case Bin(l, _, _, _, r) => Size(l) + 1 + Size(r)
  }

  ghost function Items(t: Shape): seq<Item> {
    match t
    case Leaf => []
    case Bin(l, _, x, _, r) => Items(l) + [x] + Items(r)
  }

  ghost function InOrder(t: Shape): seq<TreeNode> {
    match t
    case Leaf => []
    case Bin(l, n, _, _, r) => InOrder(l) + [n] + InOrder(r)
  }

  ghost function Nodes(t: Shape): set<TreeNode> {
    match t
    case Leaf => {}
    case Bin(l, n, _, _, r) => Nodes(l) + {n} + Nodes(r)
  }

  /** No node occurs twice. */
  ghost predicate Wf(t: Shape) {
    match t
    case Leaf => true
    case Bin(l, n, _, _, r) =>
      n !in Nodes(l) && n !in Nodes(r) && Nodes(l) !! Nodes(r) && Wf(l) && Wf(r)
  }

  /** Every stored balance is right height minus left height. */
  ghost predicate Exact(t: Shape) {
    match t
    case Leaf => true
    case Bin(l, _, _, b, r) => b == Height(r) - Height(l) && Exact(l) && Exact(r)
  }

  ghost predicate Avl(t: Shape) {
    match t
    case Leaf => true
    case Bin(l, _, _, _, r) => -1 <= Height(r) - Height(l) <= 1 && Avl(l) && Avl(r)
  }

  /** What insertion without rebalancing the root keeps: both subtrees of the
      root are AVL trees, the root itself need not be balanced. */
  ghost predicate RootAvl(t: Shape) {
    t.Bin? ==> Avl(t.left) && Avl(t.right)
  }

  ghost predicate Balanced(t: Shape, toRoot: bool) {
    Exact(t) && if toRoot then Avl(t) else RootAvl(t)
  }

  // ----- contexts

  ghost function Fill(c: Ctx, t: Shape, bal: int): Shape
    requires c.Frame?
  {
    if c.onLeft then Bin(t, c.node, c.item, bal, c.sib) else Bin(c.sib, c.node, c.item, bal, t)
  }

  ghost function Plug(c: Ctx, t: Shape): Shape {
    match c
    case Top => t
    case Frame(up, _, _, _, bal, _) => Plug(up, Fill(c, t, bal))
  }

  ghost function Depth(c: Ctx): nat {
    match c
    case Top => 0
    case Frame(up, _, _, _, _, _) => 1 + Depth(up)
  }

  ghost function CtxNodes(c: Ctx): set<TreeNode> {
    match c
    case Top => {}
    case Frame(up, _, n, _, _, sib) => CtxNodes(up) + {n} + Nodes(sib)
  }

  ghost predicate CtxWf(c: Ctx) {
    match c
    case Top => true
    case Frame(up, _, n, _, _, sib) =>
      && n !in Nodes(sib) && n !in CtxNodes(up) && Nodes(sib) !! CtxNodes(up)
      && Wf(sib) && CtxWf(up)
  }

  /** The items before the hole, and those after it. */
  ghost function Before(c: Ctx): seq<Item> {
    match c
    case Top => []
    case Frame(up, onLeft, _, x, _, sib) =>
      if onLeft then Before(up) else Before(up) + Items(sib) + [x]
  }

  ghost function After(c: Ctx): seq<Item> {
    match c
    case Top => []
    case Frame(up, onLeft, _, x, _, sib) =>
      if onLeft then [x] + Items(sib) + After(up) else After(up)
  }

  /** The balances in `c` are exact for a hole of height `h`. */
  ghost predicate CtxExact(c: Ctx, h: int) {
    match c
    case Top => true
    case Frame(up, onLeft, _, _, bal, sib) =>
      && Exact(sib)
      && bal == (if onLeft then Height(sib) - h else h - Height(sib))
      && CtxExact(up, 1 + Max(h, Height(sib)))
  }

  /** The frames of `c` are AVL for a hole of height `h`; with `toRoot` false
      the outermost frame, the root, is exempt. */
  ghost predicate CtxAvl(c: Ctx, h: int, toRoot: bool) {
    match c
    case Top => true
    case Frame(up, onLeft, _, _, bal, sib) =>
      && Avl(sib)
      && (-1 <= Height(sib) - h <= 1 || (!toRoot && up.Top?))
      && CtxAvl(up, 1 + Max(h, Height(sib)), toRoot)
  }

  lemma {:induction false} PlugItems(c: Ctx, t: Shape)
    ensures Items(Plug(c, t)) == Before(c) + Items(t) + After(c)
  {
    hide Before, After, Items;
    if c.Frame? {
      PlugItems(c.up, Fill(c, t, c.bal));
      FrameItems(c, t);
    } else {
      TopItems(Items(t));
    }
  }

  lemma TopItems(x: seq<Item>)
    ensures x == Before(Top) + x + After(Top)
  {
  }

  lemma FrameItems(c: Ctx, t: Shape)
    requires c.Frame?
    ensures Before(c.up) + Items(Fill(c, t, c.bal)) + After(c.up) == Before(c) + Items(t) + After(c)
  {
    AroundHole(Before(c.up), Items(t), c.item, Items(c.sib), After(c.up));
    assert c.onLeft ==> Items(Fill(c, t, c.bal)) == Items(t) + [c.item] + Items(c.sib);
    assert !c.onLeft ==> Items(Fill(c, t, c.bal)) == Items(c.sib) + [c.item] + Items(t);
  }

  lemma AroundHole(b: seq<Item>, t: seq<Item>, x: Item, s: seq<Item>, a: seq<Item>)
    ensures b + (t + [x] + s) + a == b + t + ([x] + s + a)
    ensures b + (s + [x] + t) + a == (b + s + [x]) + t + a
  {
  }

  lemma {:induction false} PlugNodes(c: Ctx, t: Shape)
    ensures Nodes(Plug(c, t)) == CtxNodes(c) + Nodes(t)
  {
    match c
    case Top =>
    case Frame(up, _, _, _, bal, _) =>
      PlugNodes(up, Fill(c, t, bal));
  }

  lemma {:induction false} PlugWf(c: Ctx, t: Shape)
    ensures Wf(Plug(c, t)) <==> Wf(t) && CtxWf(c) && Nodes(t) !! CtxNodes(c)
  {
    match c
    case Top =>
    case Frame(up, _, _, _, bal, _) =>
      PlugWf(up, Fill(c, t, bal));
  }

  lemma {:induction false} PlugExact(c: Ctx, t: Shape)
    ensures Exact(Plug(c, t)) <==> Exact(t) && CtxExact(c, Height(t))
  {
    if c.Frame? {
      hide Exact, CtxExact;
      PlugExact(c.up, Fill(c, t, c.bal));
      FrameExact(c, t);
    }
  }

  lemma FrameExact(c: Ctx, t: Shape)
    requires c.Frame?
    ensures var u := Fill(c, t, c.bal);
            Exact(u) && CtxExact(c.up, Height(u)) <==> Exact(t) && CtxExact(c, Height(t))
  {
  }

  lemma {:induction false} PlugAvl(c: Ctx, t: Shape)
    ensures Avl(Plug(c, t)) <==> Avl(t) && CtxAvl(c, Height(t), true)
  {
    if c.Frame? {
      hide Avl, CtxAvl;
      PlugAvl(c.up, Fill(c, t, c.bal));
      FrameAvl(c, t);
    }
  }

  lemma FrameAvl(c: Ctx, t: Shape)
    requires c.Frame?
    ensures var u := Fill(c, t, c.bal);
            Avl(u) && CtxAvl(c.up, Height(u), true) <==> Avl(t) && CtxAvl(c, Height(t), true)
  {
  }

  lemma {:induction false} PlugRootAvl(c: Ctx, t: Shape)
    ensures RootAvl(Plug(c, t)) <==> (if c.Top? then RootAvl(t) else Avl(t) && CtxAvl(c, Height(t), false))
  {
    match c
    case Top =>
    case Frame(up, _, _, _, bal, _) =>
      var t' := Fill(c, t, bal);
      PlugRootAvl(up, t');
      if up.Frame? {
        assert CtxAvl(c, Height(t), false) <==>
               Avl(c.sib) && -1 <= Height(c.sib) - Height(t) <= 1 && CtxAvl(up, Height(t'), false);
      }
  }

  lemma PlugBalanced(c: Ctx, t: Shape, toRoot: bool)
    ensures Balanced(Plug(c, t), toRoot) <==>
            && Exact(t) && CtxExact(c, Height(t)) && CtxAvl(c, Height(t), toRoot)
            && (if c.Top? && !toRoot then RootAvl(t) else Avl(t))
  {
    PlugExact(c, t);
    PlugAvl(c, t);
    PlugRootAvl(c, t);
  }

  lemma {:induction false} PlugSize(c: Ctx, s: Shape, t: Shape)
    ensures Size(Plug(c, t)) - Size(Plug(c, s)) == Size(t) - Size(s)
  {
    match c
    case Top =>
    case Frame(up, _, _, _, bal, _) =>
      PlugSize(up, Fill(c, s, bal), Fill(c, t, bal));
  }

  lemma {:induction false} PlugHeightMonotone(c: Ctx, s: Shape, t: Shape)
    requires Height(s) <= Height(t)
    ensures Height(Plug(c, s)) <= Height(Plug(c, t))
  {
    match c
    case Top =>
    case Frame(up, _, _, _, bal, _) =>
      PlugHeightMonotone(up, Fill(c, s, bal), Fill(c, t, bal));
  }

  lemma {:induction false} PlugHeightBound(c: Ctx, s: Shape, t: Shape)
    ensures Height(Plug(c, t)) <= Max(Height(Plug(c, s)), Depth(c) + Height(t))
    ensures Depth(c) + Height(t) <= Height(Plug(c, t))
  {
    match c
    case Top =>
    case Frame(up, _, _, _, bal, _) =>
      var s', t' := Fill(c, s, bal), Fill(c, t, bal);
      if Height(t') == 1 + Height(t) {
        PlugHeightBound(up, s', t');
      } else {
        PlugHeightMonotone(up, t', s');
        PlugHeightBound(up, s', t');
      }
  }

  // ----- rotations

  /** The new balances of a node and of the child turned above it, from the old ones. */
  ghost function LeftTurnBalances(a: int, b: int): (int, int) {
    if b <= 0 then (a - 1, if a >= 1 then b - 1 else a + b - 2)
    else (a - b - 1, if a <= b then a - 2 else b - 1)
  }

  ghost function RightTurnBalances(a: int, b: int): (int, int) {
    if b <= 0 then (a - b + 1, if b > a then b + 1 else a + 2)
    else (a + 1, if a <= -1 then b + 1 else a + b + 2)
  }

  ghost function RotateLeft(t: Shape): Shape {
    if !t.Bin? || !t.right.Bin? then t else
      var r := t.right;
      var bals := LeftTurnBalances(t.bal, r.bal);
      Bin(Bin(t.left, t.node, t.item, bals.0, r.left), r.node, r.item, bals.1, r.right)
  }

  ghost function RotateRight(t: Shape): Shape {
    if !t.Bin? || !t.left.Bin? then t else
      var l := t.left;
      var bals := RightTurnBalances(t.bal, l.bal);
      Bin(l.left, l.node, l.item, bals.1, Bin(l.right, t.node, t.item, bals.0, t.right))
  }

  ghost function Rebalance(t: Shape): Shape {
    if t.Bin? && t.bal < -1 then
      RotateRight(if t.left.Bin? && t.left.bal > 0 then t.(left := RotateLeft(t.left)) else t)
    else if t.Bin? && t.bal > 1 then
      RotateLeft(if t.right.Bin? && t.right.bal < 0 then t.(right := RotateRight(t.right)) else t)
    else t
  }

  /** Same nodes, same items, same order. */
  ghost predicate SameContents(s: Shape, t: Shape) {
    && Items(s) == Items(t) && InOrder(s) == InOrder(t)
    && Nodes(s) == Nodes(t) && Size(s) == Size(t) && (Wf(s) <==> Wf(t))
  }

  lemma RotateLeftContents(t: Shape)
    ensures SameContents(RotateLeft(t), t)
  {
    if t.Bin? && t.right.Bin? {
      var r := t.right;
      assert Items(RotateLeft(t)) == Items(t.left) + [t.item] + Items(r.left) + [r.item] + Items(r.right);
      assert Items(t) == Items(t.left) + [t.item] + (Items(r.left) + [r.item] + Items(r.right));
      assert InOrder(RotateLeft(t)) == InOrder(t.left) + [t.node] + InOrder(r.left) + [r.node] + InOrder(r.right);
      assert InOrder(t) == InOrder(t.left) + [t.node] + (InOrder(r.left) + [r.node] + InOrder(r.right));
    }
  }

  lemma RotateRightContents(t: Shape)
    ensures SameContents(RotateRight(t), t)
  {
    if t.Bin? && t.left.Bin? {
      var l := t.left;
      assert Items(RotateRight(t)) == Items(l.left) + [l.item] + (Items(l.right) + [t.item] + Items(t.right));
      assert Items(t) == (Items(l.left) + [l.item] + Items(l.right)) + [t.item] + Items(t.right);
      assert InOrder(RotateRight(t)) == InOrder(l.left) + [l.node] + (InOrder(l.right) + [t.node] + InOrder(t.right));
      assert InOrder(t) == (InOrder(l.left) + [l.node] + InOrder(l.right)) + [t.node] + InOrder(t.right);
    }
  }

  /** The balance arithmetic of tree.c:118-135 is exact whatever the subtree heights are. */
  lemma RotateLeftExact(t: Shape)
    requires Exact(t)
    ensures Exact(RotateLeft(t))
  {
  }

  lemma RotateRightExact(t: Shape)
    requires Exact(t)
    ensures Exact(RotateRight(t))
  {
  }

  lemma RebalanceContents(t: Shape)
    ensures SameContents(Rebalance(t), t)
  {
    if t.Bin? && t.bal < -1 {
      RotateLeftContents(t.left);
      var t' := if t.left.Bin? && t.left.bal > 0 then t.(left := RotateLeft(t.left)) else t;
      assert SameContents(t', t);
      RotateRightContents(t');
    } else if t.Bin? && t.bal > 1 {
      RotateRightContents(t.right);
      var t' := if t.right.Bin? && t.right.bal < 0 then t.(right := RotateRight(t.right)) else t;
      assert SameContents(t', t);
      RotateLeftContents(t');
    }
  }

  /** The first rotation of a double rotation keeps the height, so that all
      balances are exact afterwards. */
  lemma RebalanceExact(t: Shape)
    requires t.Bin? && Exact(t) && Avl(t.left) && Avl(t.right)
    ensures Exact(Rebalance(t))
  {
    if t.bal < -1 {
      var t' := if t.left.bal > 0 then t.(left := RotateLeft(t.left)) else t;
      if t.left.bal > 0 {
        LeftTurnHeight(t.left);
      }
      RotateLeftExact(t.left);
      hide RotateLeft, Avl;
      RotateRightExact(t');
    } else if t.bal > 1 {
      var t' := if t.right.bal < 0 then t.(right := RotateRight(t.right)) else t;
      if t.right.bal < 0 {
        RightTurnHeight(t.right);
      }
      RotateRightExact(t.right);
      hide RotateRight, Avl;
      RotateLeftExact(t');
    }
  }

  lemma LeftTurnHeight(t: Shape)
    requires Exact(t) && Avl(t) && t.Bin? && t.bal > 0
    ensures t.right.Bin? && Height(RotateLeft(t)) == Height(t)
  {
  }

  lemma RightTurnHeight(t: Shape)
    requires Exact(t) && Avl(t) && t.Bin? && t.bal < 0
    ensures t.left.Bin? && Height(RotateRight(t)) == Height(t)
  {
  }

  /** What the turns need to know of a node and its children. */
  lemma ChildHeights(t: Shape)
    requires t.Bin? && Exact(t)
    ensures t.bal == Height(t.right) - Height(t.left) && Exact(t.left) && Exact(t.right)
    ensures Height(t) == 1 + Max(Height(t.left), Height(t.right))
    ensures (t.left.Leaf? <==> Height(t.left) == 0) && (t.right.Leaf? <==> Height(t.right) == 0)
    ensures Avl(t) <==> Avl(t.left) && Avl(t.right) && -1 <= t.bal <= 1
  {
  }

  lemma SingleRight(t: Shape, h: nat)
    requires t.Bin? && t.left.Bin? && Avl(t.left.left) && Avl(t.left.right) && Avl(t.right)
    requires Height(t.left.left) == h + 1 && Height(t.right) == h && h <= Height(t.left.right) <= h + 1
    ensures var u := RotateRight(t); u.Bin? && Avl(u) && Height(u) == Height(t.left.right) + 2
  {
    hide RightTurnBalances;
  }

  lemma DoubleRight(t: Shape, h: nat)
    requires t.Bin? && t.left.Bin? && t.left.right.Bin?
    requires Avl(t.left.left) && Avl(t.left.right.left) && Avl(t.left.right.right) && Avl(t.right)
    requires Height(t.left.left) == h && Height(t.right) == h
    requires Max(Height(t.left.right.left), Height(t.left.right.right)) == h
    requires h - 1 <= Height(t.left.right.left) && h - 1 <= Height(t.left.right.right)
    ensures var u := RotateRight(t.(left := RotateLeft(t.left))); u.Bin? && Avl(u) && Height(u) == h + 2
  {
    hide LeftTurnBalances, RightTurnBalances;
  }

  lemma LeftHeavyRestored(t: Shape)
    requires t.Bin? && Exact(t) && Avl(t.left) && Avl(t.right) && t.bal == -2
    ensures var u := Rebalance(t);
            && t.left.Bin? && u.Bin? && Avl(u)
            && Height(u) == (if t.left.bal != 0 then Height(t) - 1 else Height(t))
  {
    hide Exact, Avl, Height, RotateLeft, RotateRight;
    ChildHeights(t);
    var l := t.left;
    ChildHeights(l);
    if l.bal > 0 {
      ChildHeights(l.right);
      DoubleRight(t, Height(t.right));
    } else {
      SingleRight(t, Height(t.right));
    }
  }

  lemma SingleLeft(t: Shape, h: nat)
    requires t.Bin? && t.right.Bin? && Avl(t.right.left) && Avl(t.right.right) && Avl(t.left)
    requires Height(t.right.right) == h + 1 && Height(t.left) == h && h <= Height(t.right.left) <= h + 1
    ensures var u := RotateLeft(t); u.Bin? && Avl(u) && Height(u) == Height(t.right.left) + 2
  {
    hide LeftTurnBalances;
  }

  lemma DoubleLeft(t: Shape, h: nat)
    requires t.Bin? && t.right.Bin? && t.right.left.Bin?
    requires Avl(t.right.right) && Avl(t.right.left.left) && Avl(t.right.left.right) && Avl(t.left)
    requires Height(t.right.right) == h && Height(t.left) == h
    requires Max(Height(t.right.left.left), Height(t.right.left.right)) == h
    requires h - 1 <= Height(t.right.left.left) && h - 1 <= Height(t.right.left.right)
    ensures var u := RotateLeft(t.(right := RotateRight(t.right))); u.Bin? && Avl(u) && Height(u) == h + 2
  {
    hide LeftTurnBalances, RightTurnBalances;
  }

  lemma RightHeavyRestored(t: Shape)
    requires t.Bin? && Exact(t) && Avl(t.left) && Avl(t.right) && t.bal == 2
    ensures var u := Rebalance(t);
            && t.right.Bin? && u.Bin? && Avl(u)
            && Height(u) == (if t.right.bal != 0 then Height(t) - 1 else Height(t))
  {
    hide Exact, Avl, Height, RotateLeft, RotateRight;
    ChildHeights(t);
    var r := t.right;
    ChildHeights(r);
    if r.bal < 0 {
      ChildHeights(r.left);
      DoubleLeft(t, Height(t.left));
    } else {
      SingleLeft(t, Height(t.left));
    }
  }

  /** A node that is out of balance by two over AVL children becomes an AVL
      subtree; it gets one lower unless the taller child was level. */
  lemma RebalanceRestores(t: Shape)
    requires t.Bin? && Exact(t) && Avl(t.left) && Avl(t.right) && Abs(t.bal) == 2
    ensures var u := Rebalance(t);
            var taller := if t.bal < 0 then t.left else t.right;
            && taller.Bin? && u.Bin? && Exact(u) && Avl(u)
            && (taller.bal != 0 ==> Height(u) == Height(t) - 1 && u.bal == 0)
            && (taller.bal == 0 ==> Height(u) == Height(t) && u.bal == (if t.bal < 0 then 1 else -1))
  {
    RebalanceExact(t);
    if t.bal == -2 {
      LeftHeavyRestored(t);
    } else {
      RightHeavyRestored(t);
    }
  }
}
