/** The ancestor path a cursor holds, and searching along it. */
module TreePath {
  import opened TreeShape
  import opened TreeClimb
  import opened TreeHeap
  import opened TreeOrder
  import opened TreeSplice

  /** tree.h:31 */
  const PATH_LENGTH := 40

  /** The depth test of tree.c:214 admits no node below this level. */
  const MAX_HEIGHT := 37

  /** `path[..d + 1]` holds NULL and then the nodes of `c`, outermost first. */
  ghost predicate PathIs(c: Ctx, path: seq<TreeNode?>, d: int) {
    && 0 <= d < |path|
    && match c
       case Top => d == 0 && path[d] == null
       case Frame(up, _, n, _, _, _) => path[d] == n && PathIs(up, path, d - 1)
  }

  /** A cursor of depth `d` with this path leads to the root node of `s` in `t`. */
  ghost predicate Leads(d: int, path: seq<TreeNode?>, c: Ctx, s: Shape, t: Shape) {
    && s.Bin? && Plug(c, s) == t && 0 < d < |path| == PATH_LENGTH
    && PathIs(c, path, d - 1) && path[d] == s.node
  }

  lemma MakeLeads(d: int, path: seq<TreeNode?>, c: Ctx, s: Shape, t: Shape)
    requires s.Bin? && Plug(c, s) == t && 0 < d < |path| == 40 && PathIs(c, path, d - 1) && path[d] == s.node
    ensures Leads(d, path, c, s, t)
  {
  }

  lemma LeadsFacts(d: int, path: seq<TreeNode?>, c: Ctx, s: Shape, t: Shape)
    requires Leads(d, path, c, s, t)
    ensures s.Bin? && Plug(c, s) == t && 0 < d < |path| == 40 == PATH_LENGTH
    ensures PathIs(c, path, d - 1) && path[d] == s.node
  {
  }

  lemma {:induction false} PathSame(c: Ctx, p: seq<TreeNode?>, q: seq<TreeNode?>, d: int)
    requires PathIs(c, p, d) && |p| == |q| && p[..d + 1] == q[..d + 1]
    ensures PathIs(c, q, d)
  {
    assert p[d] == p[..d + 1][d] && q[d] == q[..d + 1][d];
    if c.Frame? {
      assert p[..d] == p[..d + 1][..d] && q[..d] == q[..d + 1][..d];
      PathSame(c.up, p, q, d - 1);
    }
  }

  lemma {:induction false} PathDepth(c: Ctx, p: seq<TreeNode?>, d: int)
    requires PathIs(c, p, d)
    ensures d == Depth(c)
  {
    if c.Frame? {
      PathDepth(c.up, p, d - 1);
    }
  }

  lemma PathPush(c: Ctx, p: seq<TreeNode?>, d: int, onLeft: bool, s: Shape, sib: Shape)
    requires PathIs(c, p, d) && d + 1 < |p| && s.Bin?
    ensures PathIs(Frame(c, onLeft, s.node, s.item, s.bal, sib), p[d + 1 := s.node], d + 1)
  {
    PathSame(c, p, p[d + 1 := s.node], d);
  }

  lemma PathTop(p: seq<TreeNode?>)
    requires |p| > 0 && p[0] == null
    ensures PathIs(Top, p, 0)
  {
  }

  lemma PathUp(c: Ctx, p: seq<TreeNode?>, d: int)
    requires PathIs(c, p, d)
    ensures 0 <= d < |p| && p[d] == Parent(c) && (p[d] == null <==> c.Top?)
    ensures c.Frame? ==> PathIs(c.up, p, d - 1)
  {
  }

  lemma DeepPath(c: Ctx, s: Shape)
    requires s.Bin?
    ensures Height(Plug(c, s)) >= Depth(c) + 1
  {
    PlugHeightBound(c, s, s);
  }

  /** Taking a stored tree apart at a hole. */
  lemma {:induction false} Locate(m: Store, c: Ctx, s: Shape)
    requires s.Bin? && Rep(m, Plug(c, s), null, null)
    ensures Rep(m, s, Lo(c), Hi(c)) && RepCtx(m, c, s.node)
    ensures Plug(c, s).Bin? && Plug(c, s).node == Above(c, s.node)
  {
    match c
    case Top =>
    case Frame(up, _, _, _, bal, _) =>
      Locate(m, up, Fill(c, s, bal));
  }

  lemma DescendItems(cmp: Comparator, x: Item, c: Ctx, s: Shape)
    requires TotalPreorder(cmp) && s.Bin? && Sorted(cmp, Items(Plug(c, s)))
    requires Between(cmp, Before(c), x, After(c))
    ensures var l := Frame(c, true, s.node, s.item, s.bal, s.right);
            && Plug(l, s.left) == Plug(c, s) && Depth(l) == Depth(c) + 1
            && (cmp(x, s.item) < 0 ==> Between(cmp, Before(l), x, After(l)))
    ensures var r := Frame(c, false, s.node, s.item, s.bal, s.left);
            && Plug(r, s.right) == Plug(c, s) && Depth(r) == Depth(c) + 1
            && (cmp(x, s.item) > 0 ==> Between(cmp, Before(r), x, After(r)))
    ensures 1 + Height(s.left) <= Height(s) && 1 + Height(s.right) <= Height(s) && Height(s) >= 1
  {
    if cmp(x, s.item) < 0 {
      BetweenChild(cmp, x, c, s, true);
    } else if cmp(x, s.item) > 0 {
      BetweenChild(cmp, x, c, s, false);
    }
  }

  /** Where the search of tree.c:209-253 ends that has come to the hole of `c`: at
      `x`, or at the node that `x` has to be attached to. */
  ghost function Search(cmp: Comparator, x: Item, c: Ctx, s: Shape): (Ctx, Shape)
    requires s.Bin?
    decreases s
  {
    if cmp(x, s.item) < 0 && s.left.Bin? then
      Search(cmp, x, Frame(c, true, s.node, s.item, s.bal, s.right), s.left)
    else if cmp(x, s.item) > 0 && s.right.Bin? then
      Search(cmp, x, Frame(c, false, s.node, s.item, s.bal, s.left), s.right)
    else (c, s)
  }

  lemma SearchStep(cmp: Comparator, x: Item, c: Ctx, s: Shape)
    requires s.Bin?
    ensures cmp(x, s.item) < 0 && s.left.Bin? ==>
              Search(cmp, x, c, s) == Search(cmp, x, Frame(c, true, s.node, s.item, s.bal, s.right), s.left)
    ensures cmp(x, s.item) > 0 && s.right.Bin? ==>
              Search(cmp, x, c, s) == Search(cmp, x, Frame(c, false, s.node, s.item, s.bal, s.left), s.right)
    ensures cmp(x, s.item) == 0 || (cmp(x, s.item) < 0 && s.left.Leaf?) || (cmp(x, s.item) > 0 && s.right.Leaf?) ==>
              Search(cmp, x, c, s) == (c, s)
  {
  }

  /** The search ends at the item or at the empty slot between its neighbours. */
  lemma {:induction false} SearchFinds(cmp: Comparator, x: Item, c: Ctx, s: Shape)
    requires TotalPreorder(cmp) && s.Bin? && Sorted(cmp, Items(Plug(c, s)))
    requires Between(cmp, Before(c), x, After(c))
    ensures var (d, t) := Search(cmp, x, c, s);
            && t.Bin? && Plug(d, t) == Plug(c, s) && Between(cmp, Before(d), x, After(d))
            && (cmp(x, t.item) < 0 ==> t.left.Leaf?) && (cmp(x, t.item) > 0 ==> t.right.Leaf?)
    decreases s
  {
    hide TotalPreorder, Sorted, Items, Plug, Between, Before, After, Height;
    DescendItems(cmp, x, c, s);
    if cmp(x, s.item) < 0 && s.left.Bin? {
      SearchFinds(cmp, x, Frame(c, true, s.node, s.item, s.bal, s.right), s.left);
    } else if cmp(x, s.item) > 0 && s.right.Bin? {
      SearchFinds(cmp, x, Frame(c, false, s.node, s.item, s.bal, s.left), s.right);
    }
  }

  /** One step of the search, to either side. */
  lemma DescendStep(cmp: Comparator, x: Item, c: Ctx, s: Shape, p: seq<TreeNode?>, d: int)
    requires TotalPreorder(cmp) && s.Bin? && Sorted(cmp, Items(Plug(c, s)))
    requires Between(cmp, Before(c), x, After(c))
    requires PathIs(c, p, d - 1) && d < |p| && d == Depth(c) + 1
    ensures PathIs(c, p[d := s.node], d - 1)
    ensures var l := Frame(c, true, s.node, s.item, s.bal, s.right);
            && Plug(l, s.left) == Plug(c, s) && PathIs(l, p[d := s.node], d) && Depth(l) == d
            && (cmp(x, s.item) < 0 ==> Between(cmp, Before(l), x, After(l)))
    ensures var r := Frame(c, false, s.node, s.item, s.bal, s.left);
            && Plug(r, s.right) == Plug(c, s) && PathIs(r, p[d := s.node], d) && Depth(r) == d
            && (cmp(x, s.item) > 0 ==> Between(cmp, Before(r), x, After(r)))
  {
    PathPush(c, p, d - 1, true, s, s.right);
    PathPush(c, p, d - 1, false, s, s.left);
    if cmp(x, s.item) < 0 {
      BetweenChild(cmp, x, c, s, true);
    } else if cmp(x, s.item) > 0 {
      BetweenChild(cmp, x, c, s, false);
    }
  }

  lemma SpineHead(m: Store, t: Shape, lo: TreeNode?, hi: TreeNode?)
    requires t.Bin? && Rep(m, t, lo, hi)
    ensures t.node in m && m[t.node].leftChild == t.left.Bin?
  {
  }

  lemma SpineStart(m: Store, c: Ctx, s: Shape, p: seq<TreeNode?>, d: int)
    requires At(m, c, s) && s.left.Bin? && s.right.Bin? && |p| == PATH_LENGTH && PathIs(c, p, d)
    requires Depth(c) + Height(s) <= MAX_HEIGHT
    ensures s.node in m && m[s.node].right == s.right.node && Rep(m, s.right, s.node, Hi(c))
    ensures 0 <= d && d + 1 < |p| == 40 && d + 1 + Height(s.right) <= 37
    ensures PathIs(SuccessorFrame(c, s), p[d + 1 := Leftmost(s.right).node], d + 1)
    ensures s.right.node in m && m[s.right.node].leftChild == s.right.left.Bin?
  {
    PathDepth(c, p, d);
    PathSame(c, p, p[d + 1 := Leftmost(s.right).node], d);
  }

  lemma SpineDown(m: Store, t: Shape, b: Ctx, lo: TreeNode?, hi: TreeNode?, p: seq<TreeNode?>, d: int)
    requires t.Bin? && Rep(m, t, lo, hi) && PathIs(b, p, d) && d + Height(t) <= 37 && |p| == 40
    ensures t.left.Bin? ==>
            && t.left != t && m[t.node].left == t.left.node && Rep(m, t.left, lo, t.node)
            && Leftmost(t) == Leftmost(t.left)
            && LeftmostCtx(t, b) == LeftmostCtx(t.left, Frame(b, true, t.node, t.item, t.bal, t.right))
            && d + 1 < |p| && d + 1 + Height(t.left) <= 37
            && PathIs(Frame(b, true, t.node, t.item, t.bal, t.right), p[d + 1 := t.node], d + 1)
  {
    if t.left.Bin? {
      PathPush(b, p, d, true, t, t.right);
    }
  }

  lemma {:induction false} LeftmostCtxNode(t: Shape, c: Ctx)
    requires t.Bin? && t.left.Bin?
    ensures LeftmostCtx(t, c).Frame? && LeftmostCtx(t, c).node == LeftParent(t).node
    decreases t
  {
    if t.left.left.Bin? {
      LeftmostCtxNode(t.left, Frame(c, true, t.node, t.item, t.bal, t.right));
    }
  }

  lemma SpineEnd(t: Shape, b: Ctx, s: Shape, c: Ctx)
    requires t.Bin? && t.left.Leaf? && s.Bin? && s.right.Bin?
    requires LeftmostCtx(t, b) == LeftmostCtx(s.right, SuccessorFrame(c, s)) && Leftmost(t) == Leftmost(s.right)
    ensures LeftmostCtx(t, b) == b && Leftmost(t) == t
    ensures s.right.left.Bin? ==> b.Frame? && b.node == LeftParent(s.right).node
  {
    if s.right.left.Bin? {
      LeftmostCtxNode(s.right, SuccessorFrame(c, s));
    }
  }
}
