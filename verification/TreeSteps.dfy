/** The steps of the two climbs and of a removal, put together for the methods of `TreeClass`. */
module TreeSteps {
  import opened TreeShape
  import opened TreeClimb
  import opened TreeHeap
  import opened TreeOrder
  import opened TreeSplice
  import opened TreePath
  import opened TreePlace
  import opened TreeSpoil

  /** The store facts of one step of a climb, whichever way the parent's balance goes. */
  lemma StepUp(m: Store, c: Ctx, s: Shape)
    requires At(m, c, s) && Exact(s)
    ensures CanRebalance(m, s.node) && m[s.node].balance == s.bal
    ensures var m' := FixedStore(m, s.node, Parent(c), OnLeft(c)); var s' := Fix(s);
            && m'.Keys == m.Keys && At(m', c, s') && s'.node == NewRoot(m, s.node)
            && s'.node in m' && m'[s'.node].balance == s'.bal
  {
    FixAt(m, c, s);
  }

  /** The parent frame of `s` closed over the fixed subtree, its balance lowered
      or raised because the subtree has grown. */
  ghost function InsertUp(s: Shape, c: Ctx): Shape {
    if c.Top? then Leaf else Fill(c, Fix(s), if c.onLeft then c.bal - 1 else c.bal + 1)
  }

  lemma InsertStep(toRoot: bool, m: Store, s: Shape, c: Ctx, h: int)
    requires At(m, c, s) && Grown(toRoot, s, c, h) && (toRoot || c.Frame?)
    ensures CanRebalance(m, s.node) && m[s.node].balance == s.bal
    ensures c.Frame? ==> c.node in m && (m[c.node].left == s.node <==> c.onLeft)
    ensures c.Frame? ==> Above(c, s.node) == Above(c, Fix(s).node) == Above(c.up, c.node)
    ensures c.Top? ==> Parent(c) == null && !OnLeft(c) && Above(c, s.node) == s.node && Above(c, Fix(s).node) == Fix(s).node
    ensures c.Frame? ==> Parent(c) == c.node && OnLeft(c) == c.onLeft
    ensures var m' := FixedStore(m, s.node, Parent(c), OnLeft(c)); var s' := Fix(s);
            && m'.Keys == m.Keys && s'.Bin? && s'.node == NewRoot(m, s.node)
            && (Abs(s.bal) <= 1 ==> s' == s)
            && s'.node in m' && m'[s'.node].balance == s'.bal
            && (s'.bal == 0 || c.Top? ==>
                  && Rep(m', InsertClimb(toRoot, s, c), null, null)
                  && Root(InsertClimb(toRoot, s, c), null) == Above(c, s'.node))
            && (s'.bal != 0 && c.Frame? ==>
                  var up := InsertUp(s, c);
                  && up.Bin? && up.node == c.node
                  && up.bal == (if c.onLeft then m'[c.node].balance - 1 else m'[c.node].balance + 1)
                  && At(m'[c.node := m'[c.node].(balance := up.bal)], c.up, up)
                  && Grown(toRoot, up, c.up, 1 + Max(h, Height(c.sib)))
                  && InsertClimb(toRoot, up, c.up) == InsertClimb(toRoot, s, c))
  {
    hide Rep, RepCtx, Wf, CtxWf, Nodes, CtxNodes, Exact, Avl, CtxExact, CtxAvl, Height, Rebalance, FixedStore, NewRoot, CanRebalance;
    StepUp(m, c, s);
    var m', s' := FixedStore(m, s.node, Parent(c), OnLeft(c)), Fix(s);
    if c.Frame? {
      BumpAt(m, c, s, c.bal);
      BumpAt(m', c, s', InsertUp(s, c).bal);
    }
    if s'.bal == 0 || c.Top? {
      PlugRep(m', c, s');
    } else {
      GrownStep(toRoot, s, c, h);
    }
  }

  lemma InsertStop(m: Store, s: Shape, c: Ctx)
    requires At(m, c, s) && c.Top?
    ensures Rep(m, InsertClimb(false, s, c), null, null) && Root(InsertClimb(false, s, c), null) == Above(c, s.node)
  {
  }

  ghost function RemoveUp(s: Shape, c: Ctx): Shape {
    if c.Top? then Leaf else ShrunkStart(Fix(s), c)
  }

  lemma RemoveStep(toRoot: bool, m: Store, s: Shape, c: Ctx, h: int)
    requires At(m, c, s) && Lowered(toRoot, s, c, h)
    ensures CanRebalance(m, s.node) && m[s.node].balance == s.bal
    ensures c.Frame? ==> c.node in m && (m[c.node].left == s.node <==> c.onLeft)
    ensures c.Frame? ==> Above(c, s.node) == Above(c, Fix(s).node) == Above(c.up, c.node)
    ensures c.Top? ==> Parent(c) == null && !OnLeft(c) && Above(c, s.node) == s.node && Above(c, Fix(s).node) == Fix(s).node
    ensures c.Frame? ==> Parent(c) == c.node && OnLeft(c) == c.onLeft
    ensures var m' := FixedStore(m, s.node, Parent(c), OnLeft(c)); var s' := Fix(s);
            && m'.Keys == m.Keys && s'.Bin? && s'.node == NewRoot(m, s.node)
            && (Abs(s.bal) <= 1 ==> s' == s)
            && s'.node in m' && m'[s'.node].balance == s'.bal
            && (s'.bal != 0 || c.Top? ==>
                  && Rep(m', RemoveClimb(s, c), null, null)
                  && Root(RemoveClimb(s, c), null) == Above(c, s'.node))
            && (s'.bal == 0 && c.Frame? ==>
                  var up := RemoveUp(s, c);
                  && up.Bin? && up.node == c.node
                  && up.bal == (if c.onLeft then m'[c.node].balance + 1 else m'[c.node].balance - 1)
                  && At(m'[c.node := m'[c.node].(balance := up.bal)], c.up, up)
                  && Lowered(toRoot, up, c.up, 1 + Max(h, Height(c.sib)))
                  && RemoveClimb(up, c.up) == RemoveClimb(s, c))
  {
    hide Rep, RepCtx, Wf, CtxWf, Nodes, CtxNodes, Exact, Avl, CtxExact, CtxAvl, Height, Rebalance, FixedStore, NewRoot, CanRebalance;
    StepUp(m, c, s);
    FixLowered(toRoot, s, c, h);
    var m', s' := FixedStore(m, s.node, Parent(c), OnLeft(c)), Fix(s);
    if c.Frame? {
      BumpAt(m, c, s, c.bal);
      BumpAt(m', c, s', RemoveUp(s, c).bal);
    }
    if s'.bal != 0 || c.Top? {
      PlugRep(m', c, s');
    } else {
      LoweredFill(toRoot, s', c, h);
    }
  }

  lemma ParentFacts(m: Store, c: Ctx, s: Shape)
    requires At(m, c, s) && s.Bin?
    ensures c.Top? ==> Parent(c) == null && !OnLeft(c)
    ensures c.Frame? ==> Parent(c) == c.node && OnLeft(c) == c.onLeft && c.node in m && c.node != s.node
    ensures c.Frame? ==> (m[c.node].left == s.node <==> c.onLeft)
    ensures c.Frame? ==> if c.onLeft then m[c.node].leftChild else m[c.node].rightChild
    ensures c.Frame? ==> forall x :: Above(c, x) == Above(c.up, c.node)
    ensures c.Top? ==> forall x :: Above(c, x) == x
  {
    if c.Frame? {
      BumpAt(m, c, s, c.bal);
    }
  }

  lemma {:induction false} RightmostStored(m: Store, t: Shape, lo: TreeNode?, hi: TreeNode?)
    requires t.Bin? && Rep(m, t, lo, hi)
    ensures Rightmost(t).node in Nodes(t) && Rightmost(t).node in m
  {
    if t.right.Bin? {
      RightmostStored(m, t.right, t.node, hi);
    }
  }

  lemma UnlinkOperands(m: Store, c: Ctx, s: Shape)
    requires At(m, c, s) && s.Bin? && (s.left.Leaf? || s.right.Leaf?)
    ensures var m1 := Unthread(m, s, Lo(c), Hi(c)); var x := Remaining(s);
            && m1.Keys == m.Keys && s.node in m1 && m1[s.node] == m[s.node]
            && m[s.node].leftChild == s.left.Bin? && m[s.node].rightChild == s.right.Bin?
            && x.Bin? == (s.left.Bin? || s.right.Bin?)
            && (s.left.Bin? ==> m[s.node].left == x.node) && (s.right.Bin? ==> m[s.node].right == x.node)
            && (x.Leaf? ==> m[s.node].left == Lo(c) && m[s.node].right == Hi(c))
            && (c.Frame? ==> c.node in m1 && m1[c.node].leftChild == m[c.node].leftChild && m1[c.node].rightChild == m[c.node].rightChild)
    ensures c.Top? ==> Root(Remaining(s), null) == Root(RemoveRoot(s, c), null)
  {
    UnthreadRep(m, s, Lo(c), Hi(c));
    if s.left.Bin? {
      RightmostStored(m, s.left, Lo(c), s.node);
    } else if s.right.Bin? {
      LeftmostStored(m, s.right, s.node, Hi(c));
    }
  }

  lemma SpliceOperands(m: Store, c: Ctx, s: Shape)
    requires At(m, c, s) && s.Bin? && s.left.Bin? && s.right.Bin?
    ensures Rep(m, s.left, Lo(c), s.node) && m[s.node].leftChild == s.left.Bin? && m[s.node].left == Root(s.left, Lo(c))
    ensures c.Frame? ==> c.node in m
    ensures Parent(c) != null ==> Parent(c) in m
    ensures var n := s.node; var x := Leftmost(s.right).node; var p := NextParent(s); var v := Rightmost(s.left).node;
            && n in m && x in m && p in m && v in m
            && Detach(m, n, x, p).Keys == m.Keys && Adopt(Detach(m, n, x, p), n, x, v).Keys == m.Keys
            && n != x && n != v && x != v && p != x
            && Spliced(m, c, s) == Hang(Adopt(Detach(m, n, x, p), n, x, v), Parent(c), OnLeft(c), x)
  {
    SpliceNodes(m, c, s);
  }

  /** What removing the root of `s` does to the items and the invariants. */
  lemma RemoveFacts(toRoot: bool, cmp: Comparator, c: Ctx, s: Shape) returns (a: seq<Item>, b: seq<Item>)
    requires s.Bin? && Wf(Plug(c, s)) && Balanced(Plug(c, s), toRoot) && Height(Plug(c, s)) <= MAX_HEIGHT
    requires Sorted(cmp, Items(Plug(c, s)))
    ensures var u := RemoveRoot(s, c);
            && Items(Plug(c, s)) == a + [s.item] + b && Items(u) == a + b && Sorted(cmp, Items(u))
            && Wf(u) && Nodes(u) == Nodes(Plug(c, s)) - {s.node} && Size(u) == Size(Plug(c, s)) - 1
            && Exact(u) && Height(u) <= MAX_HEIGHT
    ensures Removed(toRoot, s, c, RemoveRoot(s, c))
  {
    RemoveRootContents(s, c);
    RemoveBalances(toRoot, s, c);
    ItemsAroundRoot(s, c);
    a, b := Before(c) + Items(s.left), Items(s.right) + After(c);
    SortedConcat(cmp, a + [s.item], b);
    SortedConcat(cmp, a, [s.item]);
    SortedConcat(cmp, a, b);
  }

  /** Forgetting a node that the tree no longer has. */
  lemma FreeNode(m: Store, u: Shape, n: TreeNode)
    requires Stores(m) && n !in Nodes(u) && Rep(m, u, null, null)
    ensures var m' := map x | x in m && x != n :: m[x];
            Stores(m') && m'.Keys == m.Keys - {n} && Rep(m', u, null, null)
  {
    RepFrame(m, map x | x in m && x != n :: m[x], {n}, u, null, null);
  }
}
