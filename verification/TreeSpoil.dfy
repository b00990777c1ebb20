/** Removal from the trees that insertion as written leaves, whose roots may be out
    of balance: when tree.c:330-463 keeps all other nodes balanced. */
module TreeSpoil {
  import opened TreeShape
  import opened TreeClimb
  import opened TreeOrder
  import opened TreePath

  /** Rebalancing a root that is `k` too high on one side leaves both its new subtrees
      balanced: `heavy` is the child on that side. */
  ghost predicate Restorable(k: int, toRight: bool, heavy: Shape) {
    k <= 1 ||
    (heavy.Bin? &&
     var lean := if toRight then 1 else -1;
     var inner := if toRight then heavy.left else heavy.right;
     if heavy.bal == 0 then k <= 2
     else k <= 3 || (k == 4 && heavy.bal == -lean && inner.Bin? && inner.bal == lean))
  }

  /** The subtree in the hole of `c` has lost a level, only level nodes or ones that
      become level are between it and the root, and the root cannot be restored. All
      of it can be read off the balances on the path and of the siblings along it. */
  ghost predicate Spoils(c: Ctx) {
    c.Frame? &&
    var bal := if c.onLeft then c.bal + 1 else c.bal - 1;
    if !c.up.Top? then (bal == 0 || (Abs(bal) == 2 && c.sib.Bin? && c.sib.bal != 0)) && Spoils(c.up)
    else if (bal > 0) == c.onLeft then !Restorable(Abs(bal), c.onLeft, c.sib)
    else Abs(bal) > 2
  }

  /** Where a level is lost when the root node of `s` is removed. */
  ghost function HoleOf(s: Shape, c: Ctx): Ctx
    requires s.Bin?
  {
    if s.left.Leaf? || s.right.Leaf? then c
    else
      var next := Leftmost(s.right);
      LeftmostCtx(s.right, Frame(c, false, next.node, next.item, s.bal, s.left))
  }

  /** Removing `x`, if it is there, spoils the tree. */
  ghost predicate RemovalSpoils(cmp: Comparator, t: Shape, x: Item) {
    t.Bin? &&
    var (c, s) := Search(cmp, x, Top, t);
    s.Bin? && cmp(x, s.item) == 0 && Spoils(HoleOf(s, c))
  }

  /** One of the root's children is out of balance. */
  ghost predicate ChildOff(t: Shape) {
    t.Bin? && ((t.left.Bin? && Abs(t.left.bal) > 1) || (t.right.Bin? && Abs(t.right.bal) > 1))
  }

  // ----- the root

  lemma TurnedLeft(t: Shape)
    requires t.Bin? && t.right.Bin? && Avl(t.left) && Avl(t.right.left) && Avl(t.right.right)
    ensures var u, r := RotateLeft(t), t.right;
            && u.Bin? && u.left.Bin? && u.left.left == t.left && u.left.right == r.left && u.right == r.right
            && Height(u) == 1 + Max(1 + Max(Height(t.left), Height(r.left)), Height(r.right))
            && (RootAvl(u) <==> -1 <= Height(r.left) - Height(t.left) <= 1)
  {
    hide LeftTurnBalances;
  }

  lemma TwiceLeft(t: Shape)
    requires t.Bin? && t.right.Bin? && t.right.left.Bin?
    requires Avl(t.left) && Avl(t.right.left.left) && Avl(t.right.left.right) && Avl(t.right.right)
    ensures var u, r := RotateLeft(t.(right := RotateRight(t.right))), t.right;
            && u.Bin? && u.left.Bin? && u.left.left == t.left && u.left.right == r.left.left
            && Height(u) == 1 + Max(1 + Max(Height(t.left), Height(r.left.left)),
                                    1 + Max(Height(r.left.right), Height(r.right)))
            && (RootAvl(u) <==>
                  && -1 <= Height(r.left.left) - Height(t.left) <= 1
                  && -1 <= Height(r.right) - Height(r.left.right) <= 1)
  {
    hide LeftTurnBalances, RightTurnBalances;
  }

  lemma LeftFits(t: Shape)
    requires t.Bin? && Exact(t) && Avl(t.left) && Avl(t.right) && t.bal > 1
    ensures t.right.Bin?
    ensures t.right.bal >= 0 ==>
              (Restorable(t.bal, true, t.right) <==> Height(t.right.left) - Height(t.left) <= 1)
    ensures t.right.bal < 0 ==>
              && t.right.left.Bin?
              && (Restorable(t.bal, true, t.right) <==> Height(t.right.left.left) - Height(t.left) <= 1)
  {
    hide Exact, Avl, Height;
    ChildHeights(t);
    ChildHeights(t.right);
    if t.right.bal < 0 {
      ChildHeights(t.right.left);
    }
  }

  lemma RestoredLeft(t: Shape)
    requires t.Bin? && Exact(t) && Avl(t.left) && Avl(t.right) && t.bal > 1
    ensures var u := Rebalance(t);
            && t.right.Bin? && u.Bin? && Height(u) <= Height(t)
            && (RootAvl(u) <==> Restorable(t.bal, true, t.right))
            && (!RootAvl(u) ==> u.left.Bin? && Height(u.left.right) - Height(u.left.left) > 1)
  {
    hide Exact, Avl, Height, RotateLeft, RotateRight, RootAvl, Restorable;
    LeftFits(t);
    ChildHeights(t);
    var r := t.right;
    ChildHeights(r);
    if r.bal < 0 {
      ChildHeights(r.left);
      TwiceLeft(t);
    } else {
      TurnedLeft(t);
    }
  }

  lemma TurnedRight(t: Shape)
    requires t.Bin? && t.left.Bin? && Avl(t.right) && Avl(t.left.left) && Avl(t.left.right)
    ensures var u, l := RotateRight(t), t.left;
            && u.Bin? && u.right.Bin? && u.right.right == t.right && u.right.left == l.right && u.left == l.left
            && Height(u) == 1 + Max(Height(l.left), 1 + Max(Height(l.right), Height(t.right)))
            && (RootAvl(u) <==> -1 <= Height(t.right) - Height(l.right) <= 1)
  {
    hide RightTurnBalances;
  }

  lemma TwiceRight(t: Shape)
    requires t.Bin? && t.left.Bin? && t.left.right.Bin?
    requires Avl(t.right) && Avl(t.left.right.left) && Avl(t.left.right.right) && Avl(t.left.left)
    ensures var u, l := RotateRight(t.(left := RotateLeft(t.left))), t.left;
            && u.Bin? && u.right.Bin? && u.right.right == t.right && u.right.left == l.right.right
            && Height(u) == 1 + Max(1 + Max(Height(l.left), Height(l.right.left)),
                                    1 + Max(Height(l.right.right), Height(t.right)))
            && (RootAvl(u) <==>
                  && -1 <= Height(t.right) - Height(l.right.right) <= 1
                  && -1 <= Height(l.right.left) - Height(l.left) <= 1)
  {
    hide LeftTurnBalances, RightTurnBalances;
  }

  lemma RightFits(t: Shape)
    requires t.Bin? && Exact(t) && Avl(t.left) && Avl(t.right) && t.bal < -1
    ensures t.left.Bin?
    ensures t.left.bal <= 0 ==>
              (Restorable(-t.bal, false, t.left) <==> Height(t.left.right) - Height(t.right) <= 1)
    ensures t.left.bal > 0 ==>
              && t.left.right.Bin?
              && (Restorable(-t.bal, false, t.left) <==> Height(t.left.right.right) - Height(t.right) <= 1)
  {
    hide Exact, Avl, Height;
    ChildHeights(t);
    ChildHeights(t.left);
    if t.left.bal > 0 {
      ChildHeights(t.left.right);
    }
  }

  lemma RestoredRight(t: Shape)
    requires t.Bin? && Exact(t) && Avl(t.left) && Avl(t.right) && t.bal < -1
    ensures var u := Rebalance(t);
            && t.left.Bin? && u.Bin? && Height(u) <= Height(t)
            && (RootAvl(u) <==> Restorable(-t.bal, false, t.left))
            && (!RootAvl(u) ==> u.right.Bin? && Height(u.right.right) - Height(u.right.left) < -1)
  {
    hide Exact, Avl, Height, RotateLeft, RotateRight, RootAvl, Restorable;
    RightFits(t);
    ChildHeights(t);
    var l := t.left;
    ChildHeights(l);
    if l.bal > 0 {
      ChildHeights(l.right);
      TwiceRight(t);
    } else {
      TurnedRight(t);
    }
  }

  lemma LittleOff(k: int, toRight: bool, heavy: Shape)
    requires k <= 1
    ensures Restorable(k, toRight, heavy)
  {
  }

  /** What rebalancing makes of a root over AVL subtrees, whatever its balance. */
  lemma RootRestored(t: Shape)
    requires t.Bin? && Exact(t) && Avl(t.left) && Avl(t.right)
    ensures var u := Fix(t);
            && u.Bin? && Exact(u) && Height(u) <= Height(t)
            && (Balanced(u, false) <==> Restorable(Abs(t.bal), t.bal > 0, if t.bal > 0 then t.right else t.left))
            && (!Balanced(u, false) ==> ChildOff(u))
  {
    hide Rebalance, Restorable, Avl, Height;
    RebalanceExact(t);
    var u := Fix(t);
    if t.bal > 1 {
      RestoredLeft(t);
    } else if t.bal < -1 {
      RestoredRight(t);
    } else {
      assert Restorable(Abs(t.bal), t.bal > 0, if t.bal > 0 then t.right else t.left) by {
        LittleOff(Abs(t.bal), t.bal > 0, if t.bal > 0 then t.right else t.left);
      }
    }
  }

  // ----- the climb

  /** The subtree in the hole of `c` has lost a level, and the root is above it. */
  lemma RootLoses(x: Shape, c: Ctx, previous: Shape)
    requires c.Frame? && c.up.Top? && Exact(x) && Avl(x) && Height(x) == Height(previous) - 1
    requires Height(x) <= 1 || (x.Bin? && x.bal == 0)
    requires CtxExact(c, Height(previous)) && CtxAvl(c, Height(previous), false)
    ensures var u := Shrunk(x, c);
            && Exact(u) && Height(u) <= Height(Plug(c, previous))
            && (Balanced(u, false) <==> !Spoils(c)) && (!Balanced(u, false) ==> ChildOff(u))
  {
    hide Rebalance, Fix, Restorable, ChildOff, Balanced, Exact, Avl;
    LoweredFill(false, x, c, Height(previous));
    var t := Fill(c, x, if c.onLeft then c.bal + 1 else c.bal - 1);
    RootFacts(x, c, previous);
    RootRestored(t);
    FewLevels(Abs(t.bal), c.onLeft, c.sib, x);
  }

  lemma RootFacts(x: Shape, c: Ctx, previous: Shape)
    requires c.Frame? && c.up.Top? && Exact(x) && Avl(x) && Height(x) == Height(previous) - 1
    requires CtxExact(c, Height(previous)) && CtxAvl(c, Height(previous), false)
    ensures var t := Fill(c, x, if c.onLeft then c.bal + 1 else c.bal - 1);
            && Shrunk(x, c) == Fix(t) && t.Bin? && Exact(t) && Avl(t.left) && Avl(t.right)
            && t.bal == (if c.onLeft then Height(c.sib) - Height(x) else Height(x) - Height(c.sib))
            && Height(t) <= Height(Plug(c, previous))
  {
  }

  /** A subtree that is level, or one level high, is not much too high. */
  lemma FewLevels(k: int, toRight: bool, sib: Shape, x: Shape)
    requires Height(x) <= 1 || (x.Bin? && x.bal == 0)
    ensures k <= Max(0, Height(x) - Height(sib)) ==> (Restorable(k, !toRight, x) <==> k <= 2)
    ensures k <= 1 ==> Restorable(k, toRight, sib) && Restorable(k, !toRight, x)
  {
  }

  /** One step further down: the climb stops where the parent does not become level. */
  lemma StepLoses(x: Shape, c: Ctx, previous: Shape)
    requires c.Frame? && c.up.Frame? && Exact(x) && Avl(x) && Height(x) == Height(previous) - 1
    requires CtxExact(c, Height(previous)) && CtxAvl(c, Height(previous), false)
    ensures var t := Fill(c, x, if c.onLeft then c.bal + 1 else c.bal - 1);
            var t', h := Fix(t), 1 + Max(Height(previous), Height(c.sib));
            && Shrunk(x, c) == RemoveClimb(t, c.up) && t'.Bin? && Exact(t') && Avl(t')
            && Height(t') == (if t'.bal == 0 then h - 1 else h)
            && (t'.bal == 0 <==> t.bal == 0 || (Abs(t.bal) == 2 && c.sib.Bin? && c.sib.bal != 0))
            && CtxExact(c.up, h) && CtxAvl(c.up, h, false)
  {
    hide Rebalance, CtxExact, CtxAvl, Height, Exact, Avl;
    LoweredFill(false, x, c, Height(previous));
    var t := Fill(c, x, if c.onLeft then c.bal + 1 else c.bal - 1);
    var h := 1 + Max(Height(previous), Height(c.sib));
    LoweredFacts(false, t, c.up, h);
    FixLowered(false, t, c.up, h);
    StepStarts(x, c, Height(previous));
    if Abs(t.bal) == 2 {
      RebalanceRestores(t);
    }
  }

  /** Below the root, a node that goes off balance leans to the other side. */
  lemma StepStarts(x: Shape, c: Ctx, h: int)
    requires c.Frame? && c.up.Frame? && Height(x) == h - 1 && CtxExact(c, h) && CtxAvl(c, h, false)
    ensures var bal := if c.onLeft then c.bal + 1 else c.bal - 1;
            && Abs(bal) <= 2 && (Abs(bal) == 2 ==> (bal > 0) == c.onLeft && c.sib.Bin?)
            && Shrunk(x, c) == RemoveClimb(Fill(c, x, bal), c.up)
    ensures var t := Fill(c, x, if c.onLeft then c.bal + 1 else c.bal - 1);
            t.Bin? && (Avl(x) ==> Avl(t.left) && Avl(t.right))
  {
  }

  /** The climb of a removal from a tree whose root may be out of balance: balances
      stay exact, and the tree is one of the same kind again unless its root cannot
      be restored. */
  lemma {:induction false} ShrunkAsWritten(x: Shape, c: Ctx, previous: Shape)
    requires Exact(x) && Avl(x) && Height(x) == Height(previous) - 1
    requires Height(x) <= 1 || (x.Bin? && x.bal == 0)
    requires CtxExact(c, Height(previous)) && CtxAvl(c, Height(previous), false)
    ensures var u := Shrunk(x, c);
            && Exact(u) && Height(u) <= Height(Plug(c, previous))
            && (Balanced(u, false) <==> !Spoils(c)) && (!Balanced(u, false) ==> ChildOff(u))
    decreases c
  {
    hide Fix, Height, Exact, Avl, CtxExact, CtxAvl, ChildOff, Plug;
    if c.Top? {
      WholeTree(x, previous);
    } else if c.up.Top? {
      RootLoses(x, c, previous);
    } else {
      StepLoses(x, c, previous);
      FillHeight(c, previous, c.bal);
      var t' := Fix(Fill(c, x, if c.onLeft then c.bal + 1 else c.bal - 1));
      if t'.bal != 0 {
        PlugBalanced(c.up, t', false);
        PlugHeightMonotone(c.up, t', Fill(c, previous, c.bal));
      } else {
        ShrunkAsWritten(t', c.up, Fill(c, previous, c.bal));
      }
    }
  }

  lemma WholeTree(x: Shape, previous: Shape)
    requires Exact(x) && Avl(x) && Height(x) == Height(previous) - 1
    ensures Balanced(x, false) && Height(x) <= Height(Plug(Top, previous))
  {
  }

  lemma OneChild(s: Shape, c: Ctx)
    requires s.Bin? && Balanced(Plug(c, s), false) && (s.left.Leaf? || s.right.Leaf?)
    ensures var x := if s.left.Leaf? then s.right else s.left;
            && Exact(x) && Avl(x) && Height(x) == Height(s) - 1 && (c.Frame? ==> Height(x) <= 1)
            && CtxExact(c, Height(s)) && CtxAvl(c, Height(s), false)
  {
    PlugBalanced(c, s, false);
  }

  lemma TwoChildren(s: Shape, c: Ctx)
    requires s.Bin? && Balanced(Plug(c, s), false) && s.left.Bin? && s.right.Bin?
    ensures var next, d := Leftmost(s.right), HoleOf(s, c);
            && Exact(next.right) && Avl(next.right) && Height(next.right) == Height(next) - 1 && Height(next.right) <= 1
            && CtxExact(d, Height(next)) && CtxAvl(d, Height(next), false)
            && Height(Plug(d, next)) <= Height(Plug(c, s))
  {
    var next := Leftmost(s.right);
    var d := Frame(c, false, next.node, next.item, s.bal, s.left);
    PlugBalanced(c, s, false);
    LeftmostBalanced(false, s.right, d);
    LeftmostPlug(s.right, d);
    PlugHeightMonotone(c, Fill(d, s.right, s.bal), s);
  }

  /** Removing a node from a tree that insertion as written has left: the balances stay
      exact, the tree gets no higher, and both subtrees of the root are AVL trees again
      exactly when the removal does not spoil it. */
  lemma RemoveAsWritten(s: Shape, c: Ctx)
    requires s.Bin? && Balanced(Plug(c, s), false)
    ensures var u := RemoveRoot(s, c);
            && Exact(u) && Height(u) <= Height(Plug(c, s))
            && (Balanced(u, false) <==> !Spoils(HoleOf(s, c))) && (!Balanced(u, false) ==> ChildOff(u))
  {
    hide Spoils, ChildOff, CtxExact, CtxAvl, Shrunk, Plug, Balanced, Height, Exact, Avl;
    if s.left.Bin? && s.right.Bin? {
      TwoChildren(s, c);
      ShrunkAsWritten(Leftmost(s.right).right, HoleOf(s, c), Leftmost(s.right));
    } else {
      OneChild(s, c);
      if c.Frame? {
        ShrunkAsWritten(if s.left.Leaf? then s.right else s.left, c, s);
      } else {
        RootGoes(s, c);
      }
    }
  }

  lemma RootGoes(s: Shape, c: Ctx)
    requires c.Top? && s.Bin? && Balanced(Plug(c, s), false) && (s.left.Leaf? || s.right.Leaf?)
    ensures var u := RemoveRoot(s, c);
            Exact(u) && Height(u) <= Height(Plug(c, s)) && Balanced(u, false) && !Spoils(HoleOf(s, c))
  {
    OneChild(s, c);
  }

  /** A removal from an AVL tree does not spoil it. */
  lemma NeverSpoilsAvl(s: Shape, c: Ctx)
    requires s.Bin? && Balanced(Plug(c, s), true)
    ensures !Spoils(HoleOf(s, c))
  {
    hide Spoils, ChildOff, RemoveRoot, HoleOf;
    RemoveRootBalanced(s, c);
    AvlIsBoth(Plug(c, s));
    AvlIsBoth(RemoveRoot(s, c));
    RemoveAsWritten(s, c);
  }

  lemma AvlIsBoth(t: Shape)
    requires Balanced(t, true)
    ensures Balanced(t, false)
  {
  }

  /** The balances of `u`, which is `Plug(c, s)` without the root node of `s`. */
  ghost predicate Removed(toRoot: bool, s: Shape, c: Ctx, u: Shape)
    requires s.Bin?
  {
    && Exact(u) && (Balanced(u, toRoot) <==> toRoot || !Spoils(HoleOf(s, c)))
    && (Avl(Plug(c, s)) ==> Avl(u)) && (!Balanced(u, toRoot) ==> ChildOff(u))
  }

  lemma RemovedFacts(toRoot: bool, s: Shape, c: Ctx, u: Shape)
    requires s.Bin? && Removed(toRoot, s, c, u)
    ensures Exact(u) && (Balanced(u, toRoot) <==> toRoot || !Spoils(HoleOf(s, c)))
    ensures (Avl(Plug(c, s)) ==> Avl(u)) && (!Balanced(u, toRoot) ==> ChildOff(u))
  {
  }

  lemma RemoveBalances(toRoot: bool, s: Shape, c: Ctx)
    requires s.Bin? && Balanced(Plug(c, s), toRoot)
    ensures Removed(toRoot, s, c, RemoveRoot(s, c)) && Height(RemoveRoot(s, c)) <= Height(Plug(c, s))
  {
    hide Spoils, ChildOff, RemoveRoot, HoleOf, Height, Exact, Avl, RootAvl;
    if toRoot || Avl(Plug(c, s)) {
      RemoveRootBalanced(s, c);
    }
    if !toRoot {
      RemoveAsWritten(s, c);
    }
  }
}
