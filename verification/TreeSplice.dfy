/** Taking a node out of the tree, tree.c:330-430, as changes of the store. */
module TreeSplice {
  import opened TreeShape
  import opened TreeClimb
  import opened TreeHeap

  /** Where the climb of a removal starts: the parent of the hole closed over
      the remaining subtree `x`, its balance moved away from the hole. */
  ghost function ShrunkStart(x: Shape, c: Ctx): Shape
    requires c.Frame?
  {
    Fill(c, x, if c.onLeft then c.bal + 1 else c.bal - 1)
  }

  lemma ShrunkStartWf(x: Shape, c: Ctx)
    requires c.Frame? && Wf(Plug(c, x))
    ensures ShrunkStart(x, c).Bin? && ShrunkStart(x, c).node == c.node
    ensures Wf(ShrunkStart(x, c)) && CtxWf(c.up) && Nodes(ShrunkStart(x, c)) !! CtxNodes(c.up)
    ensures Shrunk(x, c) == RemoveClimb(ShrunkStart(x, c), c.up)
  {
    PlugWf(c.up, Fill(c, x, c.bal));
  }

  // ----- at most one child

  /** What is left of `s` when its root goes: tree.c:343-382. */
  ghost function Remaining(s: Shape): Shape
    requires s.Bin? && (s.left.Leaf? || s.right.Leaf?)
  {
    if s.left.Leaf? then s.right else s.left
  }

  /** The thread of the neighbour below is redirected past the node. */
  ghost function Unthread(m: Store, s: Shape, lo: TreeNode?, hi: TreeNode?): Store
    requires s.Bin? && (s.left.Leaf? || s.right.Leaf?)
  {
    if s.left.Bin? then
      var p := Rightmost(s.left).node;
      if p in m then m[p := m[p].(right := hi)] else m
    else if s.right.Bin? then
      var n := Leftmost(s.right).node;
      if n in m then m[n := m[n].(left := lo)] else m
    else m
  }

  lemma UnthreadRep(m: Store, s: Shape, lo: TreeNode?, hi: TreeNode?)
    requires s.Bin? && (s.left.Leaf? || s.right.Leaf?) && Wf(s) && Rep(m, s, lo, hi)
    ensures var m' := Unthread(m, s, lo, hi);
            m'.Keys == m.Keys && SameOutside(m, m', Nodes(s)) && Rep(m', Remaining(s), lo, hi)
    ensures s.left.Bin? ==> Rightmost(s.left).node in m
    ensures s.right.Bin? ==> Leftmost(s.right).node in m
  {
    if s.left.Bin? {
      RelinkHi(m, s.left, lo, s.node, hi);
    } else if s.right.Bin? {
      RelinkLo(m, s.right, s.node, lo, hi);
    }
  }

  /** The parent's slot and balance once `child` (or the thread `child`) fills it. */
  ghost function Refill(m: Store, p: TreeNode, left: bool, isChild: bool, child: TreeNode?): Store
    requires p in m
  {
    if left then m[p := m[p].(leftChild := isChild, left := child, balance := m[p].balance + 1)]
    else m[p := m[p].(rightChild := isChild, right := child, balance := m[p].balance - 1)]
  }

  lemma RefillAt(m: Store, m1: Store, c: Ctx, s: Shape, x: Shape)
    requires c.Frame? && At(m, c, s) && Wf(x) && Nodes(x) <= Nodes(s)
    requires m1.Keys == m.Keys && SameOutside(m, m1, Nodes(s)) && Rep(m1, x, Lo(c), Hi(c))
    ensures c.node in m1
    ensures var m2 := Refill(m1, c.node, c.onLeft, x.Bin?, Root(x, if c.onLeft then Lo(c) else Hi(c)));
            At(m2, c.up, ShrunkStart(x, c)) && m2.Keys == m.Keys
  {
    RefillFrames(m, m1, c, s, x);
    RefillWf(c, s, x);
  }

  lemma RefillWf(c: Ctx, s: Shape, x: Shape)
    requires c.Frame? && CtxWf(c) && Nodes(s) !! CtxNodes(c) && Wf(x) && Nodes(x) <= Nodes(s)
    ensures Wf(ShrunkStart(x, c)) && CtxWf(c.up) && Nodes(ShrunkStart(x, c)) !! CtxNodes(c.up)
  {
  }

  lemma RefillFrames(m: Store, m1: Store, c: Ctx, s: Shape, x: Shape)
    requires c.Frame? && At(m, c, s) && Nodes(x) <= Nodes(s)
    requires m1.Keys == m.Keys && SameOutside(m, m1, Nodes(s)) && Rep(m1, x, Lo(c), Hi(c))
    ensures c.node in m1
    ensures var m2 := Refill(m1, c.node, c.onLeft, x.Bin?, Root(x, if c.onLeft then Lo(c) else Hi(c)));
            && m2.Keys == m.Keys && RepCtx(m2, c.up, c.node)
            && Rep(m2, ShrunkStart(x, c), Lo(c.up), Hi(c.up))
  {
    hide Items, Before, After;
    var m2 := Refill(m1, c.node, c.onLeft, x.Bin?, Root(x, if c.onLeft then Lo(c) else Hi(c)));
    var changed := Nodes(s) + {c.node};
    assert c.node !in Nodes(x) && Nodes(s) !! Nodes(c.sib) && Nodes(s) !! CtxNodes(c.up);
    RepFrame(m1, m2, {c.node}, x, Lo(c), Hi(c));
    RepCtxFrame(m, m2, changed, c.up, c.node);
    if c.onLeft {
      RepFrame(m, m2, changed, c.sib, c.node, Hi(c.up));
    } else {
      RepFrame(m, m2, changed, c.sib, Lo(c.up), c.node);
    }
  }

  // ----- two children

  /** tree.c:402-412: the successor `x` leaves its place below `p`, which is
      `n` itself when `x` is the right child of `n`. */
  ghost function Detach(m: Store, n: TreeNode, x: TreeNode, p: TreeNode): Store
    requires n in m && x in m && p in m
  {
    if p != n then
      m[p := (if m[x].rightChild then m[p].(left := m[x].right) else m[p].(leftChild := false)).(balance := m[p].balance + 1)]
       [x := m[x].(rightChild := true, right := m[n].right)]
    else
      m[n := m[n].(balance := m[n].balance - 1)]
  }

  /** tree.c:415-422: `x` takes over the left subtree of `n`, whose last node is `v`. */
  ghost function Adopt(m: Store, n: TreeNode, x: TreeNode, v: TreeNode): Store
    requires n in m && x in m && v in m
  {
    m[v := m[v].(right := x)][x := m[x].(leftChild := true, left := m[n].left, balance := m[n].balance)]
  }

  /** The subtree of `t` whose left child is the leftmost node. */
  ghost function LeftParent(t: Shape): Shape
    requires t.Bin? && t.left.Bin?
    ensures LeftParent(t).Bin? && LeftParent(t).left.Bin?
  {
    if t.left.left.Leaf? then t else LeftParent(t.left)
  }

  lemma {:induction false} LeftParentIn(t: Shape)
    requires t.Bin? && t.left.Bin? && Wf(t)
    ensures var p := LeftParent(t).node; var x := Leftmost(t).node;
            p in Nodes(t) && x in Nodes(t.left) && p != x && (t.left.left.Bin? ==> p in Nodes(t.left))
  {
    if t.left.left.Bin? {
      LeftParentIn(t.left);
    }
  }

  /** The spine from `t` down to the parent of its leftmost node, when only that
      parent and the leftmost node have changed. */
  lemma {:induction false} Spine(m: Store, m': Store, t: Shape, b: Ctx, lo: TreeNode?, s: set<TreeNode>)
    requires t.Bin? && t.left.Bin? && Wf(t) && Rep(m, t, lo, Hi(b)) && RepCtx(m', b, t.node)
    requires forall n :: n in s && n in Nodes(t) ==> n == LeftParent(t).node || n == Leftmost(t).node
    requires SameOutside(m, m', s)
    requires Lo(b) == Leftmost(t).node
    requires var p := LeftParent(t); var x := Leftmost(t);
             && p.node in m' && p.node in m
             && m'[p.node] == m[p.node].(left := Root(x.right, x.node), leftChild := x.right.Bin?, balance := p.bal + 1)
    ensures var d := LeftmostCtx(t, b);
            && d.Frame? && d.onLeft && d.node == LeftParent(t).node
            && Rep(m', ShrunkStart(Leftmost(t).right, d), Lo(d.up), Hi(d.up)) && RepCtx(m', d.up, d.node)
    decreases t
  {
    var x, p := Leftmost(t), LeftParent(t);
    LeftParentIn(t);
    assert s !! Nodes(t.right);
    RepFrame(m, m', s, t.right, t.node, Hi(b));
    if t.left.left.Bin? {
      Spine(m, m', t.left, Frame(b, true, t.node, t.item, t.bal, t.right), lo, s);
    } else {
      assert s !! Nodes(x.right);
      RepFrame(m, m', s, x.right, x.node, t.node);
    }
  }

  /** The node that loses its left child, or right child, to the successor. */
  ghost function NextParent(s: Shape): TreeNode
    requires s.Bin? && s.right.Bin?
  {
    if s.right.left.Leaf? then s.node else LeftParent(s.right).node
  }

  /** All nodes involved are stored, and apart. */
  lemma SpliceNodes(m: Store, c: Ctx, s: Shape)
    requires At(m, c, s) && s.left.Bin? && s.right.Bin?
    ensures var n := s.node; var x := Leftmost(s.right).node; var p := NextParent(s); var v := Rightmost(s.left).node;
            && n in m && x in m && p in m && v in m
            && x in Nodes(s.right) && v in Nodes(s.left) && (p == n || (p in Nodes(s.right) && p != x))
            && (p == n <==> s.right.left.Leaf?) && (p != n ==> m[p].left == x)
    ensures c.Frame? ==> c.node in m && c.node !in Nodes(s)
  {
    LeftmostStored(m, s.right, s.node, Hi(c));
    RelinkHi(m, s.left, Lo(c), s.node, s.node);
    if s.right.left.Bin? {
      LeftParentIn(s.right);
      LeftParentStored(m, s.right, s.node, Hi(c));
    }
  }

  lemma {:induction false} LeftmostStored(m: Store, t: Shape, lo: TreeNode?, hi: TreeNode?)
    requires t.Bin? && Rep(m, t, lo, hi)
    ensures var x := Leftmost(t);
            && x.node in Nodes(t) && x.node in m
            && m[x.node].item == x.item && m[x.node].balance == x.bal
            && m[x.node].rightChild == x.right.Bin? && (x.right.Bin? ==> m[x.node].right == x.right.node)
  {
    if t.left.Bin? {
      LeftmostStored(m, t.left, lo, t.node);
    }
  }

  lemma {:induction false} LeftParentStored(m: Store, t: Shape, lo: TreeNode?, hi: TreeNode?)
    requires t.Bin? && t.left.Bin? && Rep(m, t, lo, hi)
    ensures var p := LeftParent(t);
            && p.node in Nodes(t) && p.node in m && m[p.node].balance == p.bal
            && m[p.node].left == Leftmost(t).node && m[p.node].leftChild && p.left == Leftmost(t)
  {
    if t.left.left.Bin? {
      LeftParentStored(m, t.left, lo, t.node);
    }
  }

  /** The store after tree.c:402-429. */
  ghost function Spliced(m: Store, c: Ctx, s: Shape): Store
    requires At(m, c, s) && s.left.Bin? && s.right.Bin?
  {
    SpliceNodes(m, c, s);
    var n, x, p, v := s.node, Leftmost(s.right).node, NextParent(s), Rightmost(s.left).node;
    Hang(Adopt(Detach(m, n, x, p), n, x, v), Parent(c), OnLeft(c), x)
  }

  /** The nodes that the splice changes. */
  ghost function Spot(c: Ctx, s: Shape): set<TreeNode>
    requires s.Bin? && s.left.Bin? && s.right.Bin?
  {
    {s.node, Leftmost(s.right).node, NextParent(s), Rightmost(s.left).node}
      + (if c.Frame? then {c.node} else {})
  }

  lemma SplicedCells(m: Store, c: Ctx, s: Shape)
    requires At(m, c, s) && s.left.Bin? && s.right.Bin?
    ensures var m' := Spliced(m, c, s);
            var n := s.node; var next := Leftmost(s.right); var x := next.node; var p := NextParent(s);
            && m'.Keys == m.Keys && SameOutside(m, m', Spot(c, s))
            && x in m && x in m' && n in m && n in m' && p in m && p in m'
            && m'[x].item == next.item && m'[x].left == s.left.node && m'[x].leftChild
            && (if p != n then
                  && m'[x].rightChild && m'[x].right == s.right.node && m'[x].balance == s.bal
                  && m'[p] == m[p].(left := Root(next.right, x), leftChild := next.right.Bin?, balance := m[p].balance + 1)
                else
                  m'[x].rightChild == m[x].rightChild && m'[x].right == m[x].right && m'[x].balance == s.bal - 1)
  {
    SpliceNodes(m, c, s);
    LeftmostStored(m, s.right, s.node, Hi(c));
    if s.right.left.Bin? {
      LeftParentStored(m, s.right, s.node, Hi(c));
    }
  }

  lemma SpliceLeft(m: Store, c: Ctx, s: Shape)
    requires At(m, c, s) && s.left.Bin? && s.right.Bin?
    ensures Rep(Spliced(m, c, s), s.left, Lo(c), Leftmost(s.right).node)
  {
    var n, x, p, v := s.node, Leftmost(s.right).node, NextParent(s), Rightmost(s.left).node;
    SpliceNodes(m, c, s);
    RelinkHi(m, s.left, Lo(c), n, x);
    var m1, m' := m[v := m[v].(right := x)], Spliced(m, c, s);
    var changed := {n, x, p} + (if c.Frame? then {c.node} else {});
    assert n !in Nodes(s.left) && x !in Nodes(s.left) && p !in Nodes(s.left);
    assert c.Frame? ==> c.node !in Nodes(s.left);
    assert SameOutside(m1, m', changed);
    RepFrame(m1, m', changed, s.left, Lo(c), x);
  }

  lemma SpliceUp(m: Store, c: Ctx, s: Shape)
    requires At(m, c, s) && s.left.Bin? && s.right.Bin?
    ensures RepCtx(Spliced(m, c, s), c, Leftmost(s.right).node)
  {
    if c.Frame? {
      SpliceNodes(m, c, s);
      SplicedCells(m, c, s);
      var x, m' := Leftmost(s.right).node, Spliced(m, c, s);
      var changed := Spot(c, s);
      assert forall y :: y in changed && y != c.node ==> y in Nodes(s);
      assert changed * CtxNodes(c) == {c.node};
      assert m'[c.node] == if c.onLeft then m[c.node].(left := x) else m[c.node].(right := x);
      RepCtxReplace(m, m', changed, c, s.node, x);
    }
  }

  /** The successor's new frame, and the context of the hole it leaves. */
  ghost function SuccessorFrame(c: Ctx, s: Shape): Ctx
    requires s.Bin? && s.right.Bin?
  {
    var next := Leftmost(s.right);
    Frame(c, false, next.node, next.item, s.bal, s.left)
  }

  lemma SpliceBase(m: Store, c: Ctx, s: Shape)
    requires At(m, c, s) && s.left.Bin? && s.right.Bin? && s.right.left.Leaf?
    ensures var m' := Spliced(m, c, s); var d := SuccessorFrame(c, s);
            Rep(m', ShrunkStart(s.right.right, d), Lo(c), Hi(c)) && RepCtx(m', c, s.right.node)
  {
    hide CtxWf, CtxNodes, Items, Spliced;
    SpliceNodes(m, c, s);
    SplicedCells(m, c, s);
    SpliceLeft(m, c, s);
    SpliceUp(m, c, s);
    var changed := Spot(c, s);
    var r := s.right;
    assert Leftmost(r) == r && Wf(r) && Rep(m, r, s.node, Hi(c));
    assert Rep(m, r.right, r.node, Hi(c)) && m[r.node].right == Root(r.right, Hi(c));
    assert forall y :: y in Nodes(r.right) ==> y in Nodes(r) && y != r.node;
    RepFrame(m, Spliced(m, c, s), changed, s.right.right, s.right.node, Hi(c));
  }

  lemma SpliceSpine(m: Store, c: Ctx, s: Shape)
    requires At(m, c, s) && s.left.Bin? && s.right.Bin? && s.right.left.Bin?
    ensures var m' := Spliced(m, c, s); var d := LeftmostCtx(s.right, SuccessorFrame(c, s));
            && d.Frame? && Rep(m', ShrunkStart(Leftmost(s.right).right, d), Lo(d.up), Hi(d.up))
            && RepCtx(m', d.up, d.node)
  {
    SpliceNodes(m, c, s);
    SplicedCells(m, c, s);
    SpliceLeft(m, c, s);
    SpliceUp(m, c, s);
    LeftParentStored(m, s.right, s.node, Hi(c));
    var changed := Spot(c, s);
    assert forall y :: y in changed && y in Nodes(s.right) ==> y == LeftParent(s.right).node || y == Leftmost(s.right).node;
    Spine(m, Spliced(m, c, s), s.right, SuccessorFrame(c, s), s.node, changed);
  }

  /** After the splice the store holds the tree in which the climb starts. */
  lemma SplicedAt(m: Store, c: Ctx, s: Shape)
    requires At(m, c, s) && s.left.Bin? && s.right.Bin? && Wf(Plug(c, s))
    ensures var d := LeftmostCtx(s.right, SuccessorFrame(c, s));
            && d.Frame? && At(Spliced(m, c, s), d.up, ShrunkStart(Leftmost(s.right).right, d))
            && Spliced(m, c, s).Keys == m.Keys
            && RemoveRoot(s, c) == Shrunk(Leftmost(s.right).right, d)
  {
    var d := LeftmostCtx(s.right, SuccessorFrame(c, s));
    var x := Leftmost(s.right).right;
    SuccessorSplice(s, c);
    SplicedCells(m, c, s);
    if s.right.left.Leaf? {
      SpliceBase(m, c, s);
    } else {
      SpliceSpine(m, c, s);
    }
    ShrunkStartWf(x, d);
  }

  // ----- ready for the climb

  /** `m` stores the tree in which the climb of the removal of the root of `s`
      starts, below the parent of the hole of `d`, which `x` now fills. */
  ghost predicate ReadyToClimb(toRoot: bool, m: Store, d: Ctx, x: Shape, h: int, goal: Shape) {
    && d.Frame? && ShrunkStart(x, d).Bin? && ShrunkStart(x, d).node == d.node
    && At(m, d.up, ShrunkStart(x, d)) && Lowered(toRoot, ShrunkStart(x, d), d.up, h)
    && RemoveClimb(ShrunkStart(x, d), d.up) == goal
  }

  ghost function UpHeight(d: Ctx, h: int): int {
    if d.Top? then h else 1 + Max(h, Height(d.sib))
  }

  lemma UnlinkReady(toRoot: bool, m: Store, c: Ctx, s: Shape)
    requires At(m, c, s) && (s.left.Leaf? || s.right.Leaf?)
    requires Wf(Plug(c, s)) && Balanced(Plug(c, s), toRoot)
    ensures var x := Remaining(s); var m1 := Unthread(m, s, Lo(c), Hi(c));
            && m1.Keys == m.Keys
            && (c.Top? ==> Rep(m1, x, null, null) && RemoveRoot(s, c) == x)
            && (c.Frame? ==>
                  var m2 := Refill(m1, c.node, c.onLeft, x.Bin?, Root(x, if c.onLeft then Lo(c) else Hi(c)));
                  m2.Keys == m.Keys && ReadyToClimb(toRoot, m2, c, x, UpHeight(c, Height(s)), RemoveRoot(s, c)))
  {
    hide *;
    UnlinkFacts(toRoot, m, c, s);
    var x, m1 := Remaining(s), Unthread(m, s, Lo(c), Hi(c));
    UnthreadRep(m, s, Lo(c), Hi(c));
    if c.Frame? {
      RefillAt(m, m1, c, s, x);
      LoweredFill(toRoot, x, c, Height(s));
      MakeReady(toRoot, Refill(m1, c.node, c.onLeft, x.Bin?, Root(x, if c.onLeft then Lo(c) else Hi(c))), c, x, Height(s));
    }
  }

  /** What is left below a node with at most one child fits where the node was. */
  lemma UnlinkFacts(toRoot: bool, m: Store, c: Ctx, s: Shape)
    requires At(m, c, s) && (s.left.Leaf? || s.right.Leaf?)
    requires Wf(Plug(c, s)) && Balanced(Plug(c, s), toRoot)
    ensures s.Bin?
    ensures var x := Remaining(s);
            && Wf(s) && Rep(m, s, Lo(c), Hi(c)) && Wf(x) && Nodes(x) <= Nodes(s)
            && RemoveRoot(s, c) == Shrunk(x, c) && (c.Top? ==> Shrunk(x, c) == x && Lo(c) == null && Hi(c) == null)
            && (c.Frame? ==>
                  && Exact(x) && Avl(x) && Height(x) == Height(s) - 1
                  && CtxExact(c, Height(s)) && CtxAvl(c, Height(s), toRoot))
  {
    hide Items, InOrder, Rep, RepCtx;
    PlugBalanced(c, s, toRoot);
  }

  lemma SpliceReady(toRoot: bool, m: Store, c: Ctx, s: Shape)
    requires At(m, c, s) && s.Bin? && s.left.Bin? && s.right.Bin?
    requires Wf(Plug(c, s)) && Balanced(Plug(c, s), toRoot)
    ensures var next := Leftmost(s.right); var d := LeftmostCtx(s.right, SuccessorFrame(c, s));
            && Spliced(m, c, s).Keys == m.Keys && d.Frame?
            && ReadyToClimb(toRoot, Spliced(m, c, s), d, next.right, UpHeight(d, Height(next)), RemoveRoot(s, c))
  {
    hide *;
    var next, d := Leftmost(s.right), LeftmostCtx(s.right, SuccessorFrame(c, s));
    SplicedAt(m, c, s);
    ShrunkStartIs(next.right, d);
    SuccessorBalanced(toRoot, c, s);
    LoweredFill(toRoot, next.right, d, Height(next));
    MakeReady(toRoot, Spliced(m, c, s), d, next.right, Height(next));
  }

  lemma SuccessorBalanced(toRoot: bool, c: Ctx, s: Shape)
    requires s.Bin? && s.right.Bin? && Balanced(Plug(c, s), toRoot)
    ensures var next := Leftmost(s.right); var d := LeftmostCtx(s.right, SuccessorFrame(c, s)); var h := Height(next);
            && Exact(next.right) && Avl(next.right) && Height(next.right) == h - 1
            && CtxExact(d, h) && CtxAvl(d, h, toRoot)
  {
    PlugBalanced(c, s, toRoot);
    LeftmostBalanced(toRoot, s.right, SuccessorFrame(c, s));
  }

  lemma MakeReady(toRoot: bool, m: Store, d: Ctx, x: Shape, h: int)
    requires d.Frame? && At(m, d.up, ShrunkStart(x, d))
    requires Lowered(toRoot, Fill(d, x, if d.onLeft then d.bal + 1 else d.bal - 1), d.up, 1 + Max(h, Height(d.sib)))
    ensures d.Frame? && ReadyToClimb(toRoot, m, d, x, UpHeight(d, h), Shrunk(x, d))
  {
    ShrunkStartIs(x, d);
  }

  lemma ShrunkStartIs(x: Shape, d: Ctx)
    requires d.Frame?
    ensures ShrunkStart(x, d).Bin? && ShrunkStart(x, d).node == d.node
    ensures Shrunk(x, d) == RemoveClimb(ShrunkStart(x, d), d.up)
  {
  }

  lemma ReadyFacts(toRoot: bool, m: Store, d: Ctx, x: Shape, h: int, goal: Shape)
    requires ReadyToClimb(toRoot, m, d, x, h, goal)
    ensures d.Frame? && Parent(d) == d.node
    ensures ShrunkStart(x, d).Bin? && ShrunkStart(x, d).node == d.node && At(m, d.up, ShrunkStart(x, d))
    ensures Lowered(toRoot, ShrunkStart(x, d), d.up, h) && RemoveClimb(ShrunkStart(x, d), d.up) == goal
  {
  }

  lemma {:induction false} AboveLeftmost(t: Shape, c: Ctx)
    requires t.Bin?
    ensures Above(LeftmostCtx(t, c), Leftmost(t).node) == Above(c, t.node)
    decreases t
  {
    if t.left.Bin? {
      AboveLeftmost(t.left, Frame(c, true, t.node, t.item, t.bal, t.right));
    }
  }

  lemma SpliceAbove(c: Ctx, s: Shape)
    requires s.Bin? && s.right.Bin?
    ensures var d := LeftmostCtx(s.right, SuccessorFrame(c, s));
            d.Frame? ==> Above(d.up, d.node) == Above(c, Leftmost(s.right).node)
  {
    AboveLeftmost(s.right, SuccessorFrame(c, s));
  }
}
