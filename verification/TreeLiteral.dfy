/** The insertion climb as tree.c:255 writes it, which stops below the root:
    when it nevertheless leaves an AVL tree. */
module TreeLiteral {
  import opened TreeShape
  import opened TreeClimb
  import opened TreeHeap
  import opened TreeOrder
  import opened TreePath
  import opened TreePlace

  /** The subtree in the hole of `c` is about to grow (`grows`), every node in
      between is level, and the root already leans to that side. */
  ghost predicate Tips(c: Ctx, grows: bool) {
    c.Frame? &&
    if c.up.Top? then grows && c.bal == (if c.onLeft then -1 else 1)
    else Tips(c.up, grows && c.bal == 0)
  }

  lemma {:induction false} LiteralClimb(t: Shape, c: Ctx, h: int)
    requires c.Frame? && Grown(true, t, c, h)
    ensures Avl(InsertClimb(false, t, c)) <==> !Tips(c, Fix(t).bal != 0)
    decreases c
  {
    hide Rebalance, CtxExact;
    FixGrown(true, t, c, h);
    var t' := Fix(t);
    if t'.bal == 0 {
      PlugAvl(c, t');
      NeverTips(c);
    } else if c.up.Top? {
      LiteralRoot(t, c, h);
    } else {
      hide CtxAvl, Avl, Exact, Height, Fix;
      FrameLevel(t, c, h);
      GrownStep(true, t, c, h);
      GrowsOn(t, c, h);
      LiteralClimb(Fill(c, t', if c.onLeft then c.bal - 1 else c.bal + 1), c.up, 1 + Max(h, Height(c.sib)));
    }
  }

  lemma FrameLevel(t: Shape, c: Ctx, h: int)
    requires c.Frame? && Grown(true, t, c, h)
    ensures -1 <= c.bal <= 1
  {
  }

  lemma LiteralRoot(t: Shape, c: Ctx, h: int)
    requires c.Frame? && c.up.Top? && Grown(true, t, c, h) && Fix(t).Bin? && Fix(t).bal != 0
    ensures Avl(InsertClimb(false, t, c)) <==> !Tips(c, true)
  {
    FixGrown(true, t, c, h);
    var up := Fill(c, Fix(t), if c.onLeft then c.bal - 1 else c.bal + 1);
    assert InsertClimb(false, t, c) == up;
  }

  lemma {:induction false} NeverTips(c: Ctx)
    ensures !Tips(c, false)
  {
    if c.Frame? {
      NeverTips(c.up);
    }
  }

  /** A grown subtree makes its parent's subtree grow exactly when the parent was level. */
  lemma GrowsOn(t: Shape, c: Ctx, h: int)
    requires c.Frame? && Grown(true, t, c, h) && Fix(t).Bin? && Fix(t).bal != 0
    requires -1 <= c.bal <= 1
    ensures var up := Fill(c, Fix(t), if c.onLeft then c.bal - 1 else c.bal + 1);
            Fix(up).Bin? && (Fix(up).bal != 0 <==> c.bal == 0)
  {
    hide Rebalance, CtxExact, CtxAvl;
    GrownStep(true, t, c, h);
    var up := Fill(c, Fix(t), if c.onLeft then c.bal - 1 else c.bal + 1);
    if Abs(up.bal) > 1 {
      RebalanceRestores(up);
    }
  }

  /** Inserting into an AVL tree without rebalancing the root leaves an AVL tree
      exactly when the insertion does not reach, over level nodes only, a root
      that already leans to its side.  All of it can be read off the search path
      before the insertion. */
  lemma LiteralInsertion(c: Ctx, s: Shape, onLeft: bool, child: TreeNode, x: Item)
    requires s.Bin? && Balanced(Plug(c, s), true)
    requires if onLeft then s.left.Leaf? else s.right.Leaf?
    ensures Avl(InsertClimb(false, Grow(s, onLeft, child, x), c)) <==> !Tips(c, s.bal == 0)
  {
    var t := Grow(s, onLeft, child, x);
    GrowGrown(true, c, s, onLeft, child, x);
    PlugBalanced(c, s, true);
    assert Fix(t) == t && (t.bal != 0 <==> s.bal == 0);
    if c.Frame? {
      LiteralClimb(t, c, Height(s));
    }
  }

  /** Carrying the climb to the root differs from the code only in such a case. */
  lemma {:induction false} ClimbsAgree(t: Shape, c: Ctx, h: int)
    requires Grown(true, t, c, h)
    ensures InsertClimb(true, t, c) == Fix(InsertClimb(false, t, c))
    decreases c
  {
    if c.Frame? {
      FixGrown(true, t, c, h);
      var t' := Fix(t);
      if t'.bal == 0 {
        PlugBalanced(c, t', true);
      } else {
        GrownStep(true, t, c, h);
        ClimbsAgree(Fill(c, t', if c.onLeft then c.bal - 1 else c.bal + 1), c.up, 1 + Max(h, Height(c.sib)));
      }
    }
  }

  /** The search for `x` ends at a node whose empty slot it will take and from
      where level nodes lead up to a root that leans to that side. */
  ghost predicate Topples(cmp: Comparator, t: Shape, x: Item) {
    t.Bin? &&
    var (c, s) := Search(cmp, x, Top, t);
    s.Bin? && cmp(x, s.item) != 0 && Tips(c, s.bal == 0)
  }

  /** What the code makes of an AVL tree differs from the AVL tree it should be
      exactly when the insertion topples it; then the root is off by two. */
  lemma PlacedAsWritten(cmp: Comparator, t: Shape, x: Item, child: TreeNode)
    requires TotalPreorder(cmp) && Balanced(t, true) && Sorted(cmp, Items(t))
    ensures Avl(Placed(false, cmp, t, x, child)) <==> !Topples(cmp, t, x)
    ensures Placed(true, cmp, t, x, child) == Fix(Placed(false, cmp, t, x, child))
    ensures Avl(Placed(true, cmp, t, x, child)) && Exact(Placed(true, cmp, t, x, child))
    ensures Placed(false, cmp, t, x, child) == Placed(true, cmp, t, x, child) <==> !Topples(cmp, t, x)
  {
    hide Rebalance, Search, Sorted, TotalPreorder, Tips, InsertClimb, Grow, Items;
    if t.Bin? {
      StartBetween(cmp, t, x);
      SearchFinds(cmp, x, Top, t);
      var (c, s) := Search(cmp, x, Top, t);
      if cmp(x, s.item) == 0 {
        LevelFix(t);
      } else {
        PlaceAlike(t, c, s, cmp(x, s.item) < 0, child, x);
      }
    }
  }

  lemma Toppling(toRoot: bool, cmp: Comparator, t: Shape, x: Item, child: TreeNode)
    requires TotalPreorder(cmp) && Balanced(t, toRoot) && Sorted(cmp, Items(t))
    ensures Avl(t) ==> (Avl(Placed(toRoot, cmp, t, x, child)) <==> toRoot || !Topples(cmp, t, x))
  {
    hide Topples, Placed, Sorted, TotalPreorder;
    if Avl(t) {
      PlacedAsWritten(cmp, t, x, child);
    }
  }

  lemma StartBetween(cmp: Comparator, t: Shape, x: Item)
    ensures Plug(Top, t) == t && Between(cmp, Before(Top), x, After(Top))
  {
  }

  lemma LevelFix(t: Shape)
    requires Balanced(t, true)
    ensures Fix(t) == t
  {
  }

  lemma PlaceAlike(t: Shape, c: Ctx, s: Shape, onLeft: bool, child: TreeNode, x: Item)
    requires s.Bin? && Plug(c, s) == t && Balanced(t, true)
    requires if onLeft then s.left.Leaf? else s.right.Leaf?
    ensures var g := Grow(s, onLeft, child, x);
            var u, v := InsertClimb(false, g, c), InsertClimb(true, g, c);
            v == Fix(u) && Balanced(v, true) && (Avl(u) <==> !Tips(c, s.bal == 0)) && (u == v <==> !Tips(c, s.bal == 0))
  {
    hide Rebalance, Tips, InsertClimb, Height, Plug;
    var g := Grow(s, onLeft, child, x);
    GrowGrown(true, c, s, onLeft, child, x);
    LiteralInsertion(c, s, onLeft, child, x);
    ClimbsAgree(g, c, Height(s));
    InsertClimbBalances(true, g, c, Height(s));
    WeakClimb(c, s, onLeft, child, x);
    if Avl(InsertClimb(false, g, c)) {
      LevelFix(InsertClimb(false, g, c));
    }
  }

  lemma WeakClimb(c: Ctx, s: Shape, onLeft: bool, child: TreeNode, x: Item)
    requires s.Bin? && Balanced(Plug(c, s), true)
    requires if onLeft then s.left.Leaf? else s.right.Leaf?
    ensures Balanced(InsertClimb(false, Grow(s, onLeft, child, x), c), false)
  {
    GrowGrown(false, c, s, onLeft, child, x);
    InsertClimbBalances(false, Grow(s, onLeft, child, x), c, Height(s));
  }
}
