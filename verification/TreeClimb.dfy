/** The climbs that follow an insertion and a removal, as functions on shapes,
    and what they restore. */
module TreeClimb {
  import opened TreeShape

  ghost function Fix(s: Shape): Shape {
    if s.Bin? && Abs(s.bal) > 1 then Rebalance(s) else s
  }

  lemma FixContents(s: Shape)
    ensures SameContents(Fix(s), s)
  {
    RebalanceContents(s);
  }

  /** The same items in the same order in the same nodes, wherever they sit. */
  ghost predicate SameTree(s: Shape, t: Shape) {
    && Items(s) == Items(t) && Nodes(s) == Nodes(t)
    && Size(s) == Size(t) && (Wf(s) <==> Wf(t))
  }

  lemma SameTreeTransitive(s: Shape, t: Shape, u: Shape)
    requires SameTree(s, t) && SameTree(t, u)
    ensures SameTree(s, u)
  {
  }

  /** Replacing the subtree in the hole by one with the same contents keeps the
      contents of the tree. */
  lemma PlugContents(c: Ctx, s: Shape, t: Shape)
    requires SameContents(s, t)
    ensures SameTree(Plug(c, s), Plug(c, t))
  {
    PlugItems(c, s);
    PlugItems(c, t);
    PlugNodes(c, s);
    PlugNodes(c, t);
    PlugWf(c, s);
    PlugWf(c, t);
    PlugSize(c, s, t);
  }

  /** One step of a climb: fixing `s` and changing the balance of its parent. */
  lemma StepContents(c: Ctx, s: Shape, bal: int)
    requires c.Frame?
    ensures SameTree(Plug(c.up, Fill(c, Fix(s), bal)), Plug(c, s))
  {
    FixContents(s);
    var t := Fill(c, Fix(s), bal);
    assert SameContents(t, Fill(c, Fix(s), c.bal));
    PlugContents(c.up, t, Fill(c, Fix(s), c.bal));
    PlugContents(c, Fix(s), s);
    SameTreeTransitive(Plug(c.up, t), Plug(c, Fix(s)), Plug(c, s));
  }

  // ----- insertion

  /** The climb of tree.c:255-278 from the node `s` whose subtree just changed,
      with context `c`.  With `toRoot` it also rebalances a node without a
      parent; the code's loop guard leaves that node alone. */
  ghost function InsertClimb(toRoot: bool, s: Shape, c: Ctx): Shape
    decreases c
  {
    if c.Top? then (if toRoot then Fix(s) else s) else
      var s' := Fix(s);
      if s'.Leaf? || s'.bal == 0 then Plug(c, s')
      else InsertClimb(toRoot, Fill(c, s', if c.onLeft then c.bal - 1 else c.bal + 1), c.up)
  }

  /** Where an insertion climb stands: `s` has grown, or not, from height `h`,
      which the balances in `c` still reckon with. */
  ghost predicate Grown(toRoot: bool, s: Shape, c: Ctx, h: int) {
    && s.Bin? && Exact(s) && Avl(s.left) && Avl(s.right)
    && CtxExact(c, h) && CtxAvl(c, h, toRoot)
    && (c.Frame? || toRoot ==>
        && Abs(s.bal) <= 2
        && Height(s) == (if s.bal == 0 then h else h + 1)
        && (s.bal == 2 ==> s.right.bal != 0)
        && (s.bal == -2 ==> s.left.bal != 0))
  }

  lemma FixGrown(toRoot: bool, s: Shape, c: Ctx, h: int)
    requires Grown(toRoot, s, c, h) && (c.Frame? || toRoot)
    ensures var s' := Fix(s);
            && s'.Bin? && Exact(s') && Avl(s') && Height(s') <= Height(s)
            && Height(s') == (if s'.bal == 0 then h else h + 1)
  {
    if Abs(s.bal) > 1 {
      RebalanceRestores(s);
    }
  }

  lemma GrownStep(toRoot: bool, s: Shape, c: Ctx, h: int)
    requires c.Frame? && Grown(toRoot, s, c, h) && Fix(s).Bin? && Fix(s).bal != 0
    ensures var s' := Fix(s);
            Grown(toRoot, Fill(c, s', if c.onLeft then c.bal - 1 else c.bal + 1), c.up, 1 + Max(h, Height(c.sib)))
  {
    FixGrown(toRoot, s, c, h);
  }

  lemma {:induction false} InsertClimbBalances(toRoot: bool, s: Shape, c: Ctx, h: int)
    requires Grown(toRoot, s, c, h)
    ensures Balanced(InsertClimb(toRoot, s, c), toRoot)
    ensures Height(InsertClimb(toRoot, s, c)) <= Height(Plug(c, s))
    decreases c
  {
    if c.Frame? || toRoot {
      FixGrown(toRoot, s, c, h);
    }
    if c.Frame? {
      var s' := Fix(s);
      if s'.bal == 0 {
        PlugBalanced(c, s', toRoot);
        PlugHeightMonotone(c, s', s);
      } else {
        GrownStep(toRoot, s, c, h);
        var t := Fill(c, s', if c.onLeft then c.bal - 1 else c.bal + 1);
        InsertClimbBalances(toRoot, t, c.up, 1 + Max(h, Height(c.sib)));
        PlugHeightMonotone(c.up, t, Fill(c, s, c.bal));
      }
    }
  }

  lemma {:induction false} InsertClimbContents(toRoot: bool, s: Shape, c: Ctx)
    ensures SameTree(InsertClimb(toRoot, s, c), Plug(c, s))
    decreases c
  {
    var s' := Fix(s);
    if c.Top? || s'.Leaf? || s'.bal == 0 {
      FixContents(s);
      PlugContents(c, s', s);
    } else {
      var bal := if c.onLeft then c.bal - 1 else c.bal + 1;
      var t := Fill(c, s', bal);
      StepContents(c, s, bal);
      InsertClimbContents(toRoot, t, c.up);
      SameTreeTransitive(InsertClimb(toRoot, s, c), Plug(c.up, t), Plug(c, s));
    }
  }

  // ----- removal

  /** The climb of tree.c:434-459 from the node `s` one of whose subtrees got smaller. */
  ghost function RemoveClimb(s: Shape, c: Ctx): Shape
    decreases c
  {
    var s' := Fix(s);
    if c.Top? || s'.Leaf? || s'.bal != 0 then Plug(c, s')
    else RemoveClimb(Fill(c, s', if c.onLeft then c.bal + 1 else c.bal - 1), c.up)
  }

  /** What tree.c:343-382 and the climb make of the tree when the subtree in
      the hole of `c` has been replaced by `x`, one level lower. */
  ghost function Shrunk(x: Shape, c: Ctx): Shape {
    if c.Top? then x
    else RemoveClimb(Fill(c, x, if c.onLeft then c.bal + 1 else c.bal - 1), c.up)
  }

  /** Where a removal climb stands: the balances in `c` reckon with height `h`
      for the hole, the height `s` had before.  Without `toRoot` the balance of
      the root may be anything. */
  ghost predicate Lowered(toRoot: bool, s: Shape, c: Ctx, h: int) {
    && s.Bin? && Exact(s) && Avl(s.left) && Avl(s.right)
    && CtxExact(c, h) && CtxAvl(c, h, toRoot)
    && (c.Frame? || toRoot ==> Abs(s.bal) <= 2 && Height(s) == (if s.bal == 0 then h - 1 else h))
  }

  lemma FixLowered(toRoot: bool, s: Shape, c: Ctx, h: int)
    requires Lowered(toRoot, s, c, h)
    ensures var s' := Fix(s);
            && s'.Bin? && Exact(s')
            && (c.Frame? || toRoot ==>
                  Avl(s') && Height(s') <= h && Height(s') == (if s'.bal == 0 then h - 1 else h))
  {
    hide Height, Avl, CtxExact, CtxAvl;
    if c.Frame? || toRoot {
      if Abs(s.bal) > 1 {
        RebalanceRestores(s);
      } else {
        LevelAvl(s);
      }
    } else {
      RebalanceExact(s);
    }
  }

  lemma LevelAvl(s: Shape)
    requires s.Bin? && Exact(s) && Avl(s.left) && Avl(s.right) && Abs(s.bal) <= 1
    ensures Avl(s)
  {
  }

  lemma LoweredFill(toRoot: bool, x: Shape, c: Ctx, h: int)
    requires c.Frame? && Exact(x) && Avl(x) && Height(x) == h - 1
    requires CtxExact(c, h) && CtxAvl(c, h, toRoot)
    ensures Lowered(toRoot, Fill(c, x, if c.onLeft then c.bal + 1 else c.bal - 1), c.up, 1 + Max(h, Height(c.sib)))
  {
  }

  lemma LoweredFacts(toRoot: bool, s: Shape, c: Ctx, h: int)
    requires Lowered(toRoot, s, c, h)
    ensures CtxExact(c, h) && CtxAvl(c, h, toRoot)
  {
  }

  lemma FillHeight(c: Ctx, s: Shape, bal: int)
    requires c.Frame?
    ensures Height(Fill(c, s, bal)) == 1 + Max(Height(s), Height(c.sib))
    ensures Plug(c, s) == Plug(c.up, Fill(c, s, c.bal))
  {
  }

  lemma {:induction false} RemoveClimbBalances(s: Shape, c: Ctx, h: int, previous: Shape)
    requires Lowered(true, s, c, h) && Height(previous) == h
    ensures Balanced(RemoveClimb(s, c), true)
    ensures Height(RemoveClimb(s, c)) <= Height(Plug(c, previous))
    decreases c
  {
    hide Lowered, Fix, Fill, Plug, Height, Exact, Avl;
    FixLowered(true, s, c, h);
    LoweredFacts(true, s, c, h);
    var s' := Fix(s);
    if c.Top? || s'.bal != 0 {
      PlugBalanced(c, s', true);
      PlugHeightMonotone(c, s', previous);
    } else {
      LoweredFill(true, s', c, h);
      FillHeight(c, previous, c.bal);
      RemoveClimbBalances(Fill(c, s', if c.onLeft then c.bal + 1 else c.bal - 1), c.up,
                          1 + Max(h, Height(c.sib)), Fill(c, previous, c.bal));
    }
  }

  lemma ShrunkBalances(x: Shape, c: Ctx, previous: Shape)
    requires Exact(x) && Avl(x) && Height(x) == Height(previous) - 1
    requires CtxExact(c, Height(previous)) && CtxAvl(c, Height(previous), true)
    ensures Balanced(Shrunk(x, c), true)
    ensures Height(Shrunk(x, c)) <= Height(Plug(c, previous))
  {
    hide Lowered, Fill, Height, CtxExact, CtxAvl, RemoveClimb, Exact, Avl;
    if c.Frame? {
      LoweredFill(true, x, c, Height(previous));
      FillHeight(c, previous, c.bal);
      RemoveClimbBalances(Fill(c, x, if c.onLeft then c.bal + 1 else c.bal - 1), c.up,
                          1 + Max(Height(previous), Height(c.sib)), Fill(c, previous, c.bal));
    }
  }

  lemma {:induction false} RemoveClimbContents(s: Shape, c: Ctx)
    ensures SameTree(RemoveClimb(s, c), Plug(c, s))
    decreases c
  {
    var s' := Fix(s);
    if c.Top? || s'.Leaf? || s'.bal != 0 {
      FixContents(s);
      PlugContents(c, s', s);
    } else {
      var bal := if c.onLeft then c.bal + 1 else c.bal - 1;
      var t := Fill(c, s', bal);
      StepContents(c, s, bal);
      RemoveClimbContents(t, c.up);
      SameTreeTransitive(RemoveClimb(s, c), Plug(c.up, t), Plug(c, s));
    }
  }

  lemma ShrunkContents(x: Shape, c: Ctx)
    ensures SameTree(Shrunk(x, c), Plug(c, x))
  {
    if c.Frame? {
      var t := Fill(c, x, if c.onLeft then c.bal + 1 else c.bal - 1);
      assert SameContents(t, Fill(c, x, c.bal));
      PlugContents(c.up, t, Fill(c, x, c.bal));
      RemoveClimbContents(t, c.up);
      SameTreeTransitive(Shrunk(x, c), Plug(c.up, t), Plug(c, x));
    }
  }

  // ----- removing the node in a hole

  ghost function Leftmost(t: Shape): Shape
    requires t.Bin?
    ensures Leftmost(t).Bin? && Leftmost(t).left.Leaf?
  {
    if t.left.Leaf? then t else Leftmost(t.left)
  }

  ghost function Rightmost(t: Shape): Shape
    requires t.Bin?
    ensures Rightmost(t).Bin? && Rightmost(t).right.Leaf?
  {
    if t.right.Leaf? then t else Rightmost(t.right)
  }

  /** The context of the leftmost node of `t` when `t` itself has context `c`. */
  ghost function LeftmostCtx(t: Shape, c: Ctx): Ctx
    requires t.Bin?
    decreases t
  {
    if t.left.Leaf? then c else LeftmostCtx(t.left, Frame(c, true, t.node, t.item, t.bal, t.right))
  }

  /** Removal of the root node of `s` from the tree `Plug(c, s)`, tree.c:330-463. */
  ghost function RemoveRoot(s: Shape, c: Ctx): Shape
    requires s.Bin?
  {
    if s.left.Leaf? then Shrunk(s.right, c)
    else if s.right.Leaf? then Shrunk(s.left, c)
    else
      var next := Leftmost(s.right);
      Shrunk(next.right, LeftmostCtx(s.right, Frame(c, false, next.node, next.item, s.bal, s.left)))
  }

  lemma {:induction false} LeftmostPlug(t: Shape, c: Ctx)
    requires t.Bin?
    ensures Plug(LeftmostCtx(t, c), Leftmost(t)) == Plug(c, t)
    decreases t
  {
    if t.left.Bin? {
      LeftmostPlug(t.left, Frame(c, true, t.node, t.item, t.bal, t.right));
    }
  }

  /** `t` without its leftmost node, the balances not yet adjusted. */
  ghost function DropLeftmost(t: Shape): Shape
    requires t.Bin?
  {
    if t.left.Leaf? then t.right else Bin(DropLeftmost(t.left), t.node, t.item, t.bal, t.right)
  }

  lemma {:induction false} DropLeftmostPlug(t: Shape, c: Ctx)
    requires t.Bin?
    ensures Plug(LeftmostCtx(t, c), Leftmost(t).right) == Plug(c, DropLeftmost(t))
    decreases t
  {
    if t.left.Bin? {
      DropLeftmostPlug(t.left, Frame(c, true, t.node, t.item, t.bal, t.right));
    }
  }

  lemma {:induction false} DropLeftmostContents(t: Shape)
    requires t.Bin?
    ensures Items(t) == [Leftmost(t).item] + Items(DropLeftmost(t))
    ensures Nodes(t) == {Leftmost(t).node} + Nodes(DropLeftmost(t))
    ensures Wf(t) ==> Wf(DropLeftmost(t)) && Leftmost(t).node !in Nodes(DropLeftmost(t))
    ensures Size(t) == Size(DropLeftmost(t)) + 1
  {
    if t.left.Bin? {
      DropLeftmostContents(t.left);
    }
  }

  lemma {:induction false} LeftmostBalanced(toRoot: bool, t: Shape, c: Ctx)
    requires t.Bin? && Exact(t) && Avl(t)
    requires CtxExact(c, Height(t)) && CtxAvl(c, Height(t), toRoot)
    ensures var m := Leftmost(t); var d := LeftmostCtx(t, c);
            && Exact(m) && Avl(m) && CtxExact(d, Height(m)) && CtxAvl(d, Height(m), toRoot)
    decreases t
  {
    if t.left.Bin? {
      LeftmostBalanced(toRoot, t.left, Frame(c, true, t.node, t.item, t.bal, t.right));
    }
  }

  /** `u` is `Plug(c, s)` without the root node of `s`. */
  ghost predicate WithoutRoot(u: Shape, s: Shape, c: Ctx)
    requires s.Bin?
  {
    && Items(u) == Before(c) + Items(s.left) + (Items(s.right) + After(c))
    && Nodes(u) == Nodes(Plug(c, s)) - {s.node}
    && Wf(u) && Size(u) == Size(Plug(c, s)) - 1
  }

  lemma PlugWithoutRoot(x: Shape, s: Shape, c: Ctx)
    requires s.Bin? && Wf(Plug(c, s))
    requires Items(x) == Items(s.left) + Items(s.right) && Nodes(x) == Nodes(s.left) + Nodes(s.right)
    requires Wf(x) && Size(x) == Size(s) - 1
    ensures WithoutRoot(Plug(c, x), s, c)
  {
    hide Plug, Items, Nodes, Wf, CtxWf, CtxNodes, Size, Before, After;
    PlugItems(c, x);
    AssociateItems(Before(c), Items(s.left), Items(s.right), After(c));
    PlugWf(c, s);
    PlugNodes(c, s);
    PlugNodes(c, x);
    RootNode(s);
    PlugWf(c, x);
    PlugSize(c, s, x);
  }

  lemma RootNode(s: Shape)
    requires s.Bin? && Wf(s)
    ensures Nodes(s) == Nodes(s.left) + {s.node} + Nodes(s.right)
    ensures s.node !in Nodes(s.left) && s.node !in Nodes(s.right)
  {
  }

  lemma AssociateItems(a: seq<Item>, b: seq<Item>, c: seq<Item>, d: seq<Item>)
    ensures a + (b + c) + d == a + b + (c + d)
  {
  }

  lemma ItemsAroundRoot(s: Shape, c: Ctx)
    requires s.Bin?
    ensures Items(Plug(c, s)) == Before(c) + Items(s.left) + [s.item] + (Items(s.right) + After(c))
  {
    PlugItems(c, s);
    AssociateItems(Before(c), Items(s.left) + [s.item], Items(s.right), After(c));
    assert Before(c) + (Items(s.left) + [s.item]) == Before(c) + Items(s.left) + [s.item];
  }

  lemma SuccessorSplice(s: Shape, c: Ctx)
    requires s.Bin? && s.right.Bin? && Wf(Plug(c, s))
    ensures var next := Leftmost(s.right);
            var t := Bin(s.left, next.node, next.item, s.bal, DropLeftmost(s.right));
            && Plug(c, t) == Plug(LeftmostCtx(s.right, Frame(c, false, next.node, next.item, s.bal, s.left)), next.right)
            && WithoutRoot(Plug(c, t), s, c)
  {
    var next := Leftmost(s.right);
    var x := DropLeftmost(s.right);
    var c' := Frame(c, false, next.node, next.item, s.bal, s.left);
    var t := Fill(c', x, s.bal);
    assert Wf(s) by { PlugWf(c, s); }
    DropLeftmostContents(s.right);
    assert Items(t) == Items(s.left) + ([next.item] + Items(x));
    PlugWithoutRoot(t, s, c);
    DropLeftmostPlug(s.right, c');
  }

  lemma WithoutRootSameTree(u: Shape, t: Shape, s: Shape, c: Ctx)
    requires s.Bin? && SameTree(u, t) && WithoutRoot(t, s, c)
    ensures WithoutRoot(u, s, c)
  {
  }

  /** Removing a node takes out exactly that node and its item. */
  lemma RemoveRootContents(s: Shape, c: Ctx)
    requires s.Bin? && Wf(Plug(c, s))
    ensures WithoutRoot(RemoveRoot(s, c), s, c)
  {
    var x, d: Ctx;
    if s.left.Leaf? || s.right.Leaf? {
      x, d := if s.left.Leaf? then s.right else s.left, c;
      assert Wf(s) by { PlugWf(c, s); }
      PlugWithoutRoot(x, s, c);
    } else {
      var next := Leftmost(s.right);
      x, d := next.right, LeftmostCtx(s.right, Frame(c, false, next.node, next.item, s.bal, s.left));
      SuccessorSplice(s, c);
    }
    ShrunkContents(x, d);
    WithoutRootSameTree(Shrunk(x, d), Plug(d, x), s, c);
  }

  /** Removing a node from an AVL tree leaves an AVL tree with exact balances, no higher. */
  lemma RemoveRootBalanced(s: Shape, c: Ctx)
    requires s.Bin? && Balanced(Plug(c, s), true)
    ensures Balanced(RemoveRoot(s, c), true)
    ensures Height(RemoveRoot(s, c)) <= Height(Plug(c, s))
  {
    PlugBalanced(c, s, true);
    if s.left.Leaf? || s.right.Leaf? {
      ShrunkBalances(if s.left.Leaf? then s.right else s.left, c, s);
    } else {
      var next := Leftmost(s.right);
      var c' := Frame(c, false, next.node, next.item, s.bal, s.left);
      LeftmostBalanced(true, s.right, c');
      ShrunkBalances(next.right, LeftmostCtx(s.right, c'), next);
      LeftmostPlug(s.right, c');
      PlugHeightMonotone(c, Fill(c', s.right, s.bal), s);
    }
  }
}
