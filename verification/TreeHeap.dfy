/** When a store of tree nodes represents a shape, threads included, and the
    small pointer operations of tree.c:67-194. */
module TreeHeap {
  import opened TreeShape
  import opened TreeClimb

  ghost function Root(t: Shape, thread: TreeNode?): TreeNode? {
    if t.Bin? then t.node else thread
  }

  /** `m` stores the shape `t`; an empty child slot holds the in-order
      neighbour, which is `lo` before the first node and `hi` after the last. */
  ghost predicate Rep(m: Store, t: Shape, lo: TreeNode?, hi: TreeNode?) {
    match t
    case Leaf => true
    case Bin(l, n, x, b, r) =>
      && n in m && m[n] == Cell(x, b, Root(l, lo), Root(r, hi), l.Bin?, r.Bin?)
      && Rep(m, l, lo, n) && Rep(m, r, n, hi)
  }

  /** The in-order neighbours of the hole of `c`. */
  ghost function Lo(c: Ctx): TreeNode? {
    match c
    case Top => null
    case Frame(up, onLeft, n, _, _, _) => if onLeft then Lo(up) else n
  }

  ghost function Hi(c: Ctx): TreeNode? {
    match c
    case Top => null
    case Frame(up, onLeft, n, _, _, _) => if onLeft then n else Hi(up)
  }

  /** `m` stores the context `c` around a subtree with root `x`. */
  ghost predicate RepCtx(m: Store, c: Ctx, x: TreeNode) {
    match c
    case Top => true
    case Frame(up, onLeft, n, y, b, sib) =>
      && n in m
      && (if onLeft then
            m[n] == Cell(y, b, x, Root(sib, Hi(up)), true, sib.Bin?) && Rep(m, sib, n, Hi(up))
          else
            m[n] == Cell(y, b, Root(sib, Lo(up)), x, sib.Bin?, true) && Rep(m, sib, Lo(up), n))
      && RepCtx(m, up, n)
  }

  /** The root of a tree whose subtree in the hole of `c` has root `x`. */
  ghost function Above(c: Ctx, x: TreeNode): TreeNode {
    match c
    case Top => x
    case Frame(up, _, n, _, _, _) => Above(up, n)
  }

  lemma {:induction false} PlugRep(m: Store, c: Ctx, t: Shape)
    requires t.Bin? && RepCtx(m, c, t.node) && Rep(m, t, Lo(c), Hi(c))
    ensures Rep(m, Plug(c, t), null, null) && Plug(c, t).Bin? && Plug(c, t).node == Above(c, t.node)
  {
    match c
    case Top =>
    case Frame(up, _, _, _, bal, _) =>
      PlugRep(m, up, Fill(c, t, bal));
  }

  lemma {:induction false} LoOutside(c: Ctx)
    ensures Lo(c) == null || Lo(c) in CtxNodes(c)
    ensures Hi(c) == null || Hi(c) in CtxNodes(c)
  {
    match c
    case Top =>
    case Frame(up, _, _, _, _, _) => LoOutside(up);
  }

  /** `m'` differs from `m` at most on `s`. */
  ghost predicate SameOutside(m: Store, m': Store, s: set<TreeNode>) {
    forall n :: n in m && n !in s ==> n in m' && m'[n] == m[n]
  }

  lemma {:induction false} RepFrame(m: Store, m': Store, s: set<TreeNode>, t: Shape, lo: TreeNode?, hi: TreeNode?)
    requires SameOutside(m, m', s) && s !! Nodes(t) && Rep(m, t, lo, hi)
    ensures Rep(m', t, lo, hi)
    decreases t
  {
    if t.Bin? {
      RepFrame(m, m', s, t.left, lo, t.node);
      RepFrame(m, m', s, t.right, t.node, hi);
    }
  }

  lemma {:induction false} RepCtxFrame(m: Store, m': Store, s: set<TreeNode>, c: Ctx, x: TreeNode)
    requires SameOutside(m, m', s) && s !! CtxNodes(c) && RepCtx(m, c, x)
    ensures RepCtx(m', c, x)
    decreases c
  {
    match c
    case Top =>
    case Frame(up, onLeft, n, _, _, sib) =>
      RepCtxFrame(m, m', s, up, n);
      if onLeft {
        RepFrame(m, m', s, sib, n, Hi(up));
      } else {
        RepFrame(m, m', s, sib, Lo(up), n);
      }
  }

  /** Hanging a subtree with another root into the hole. */
  lemma RepCtxReplace(m: Store, m': Store, s: set<TreeNode>, c: Ctx, x: TreeNode, y: TreeNode)
    requires c.Frame? && CtxWf(c) && RepCtx(m, c, x)
    requires c.node in s && s * CtxNodes(c) == {c.node} && SameOutside(m, m', s)
    requires c.node in m'
    requires m'[c.node] == if c.onLeft then m[c.node].(left := y) else m[c.node].(right := y)
    ensures RepCtx(m', c, y)
  {
    RepCtxFrame(m, m', s, c.up, c.node);
    if c.onLeft {
      RepFrame(m, m', s, c.sib, c.node, Hi(c.up));
    } else {
      RepFrame(m, m', s, c.sib, Lo(c.up), c.node);
    }
  }

  /** Redirecting the thread of the first node of `t`. */
  lemma {:induction false} RelinkLo(m: Store, t: Shape, lo: TreeNode?, lo2: TreeNode?, hi: TreeNode?)
    requires t.Bin? && Wf(t) && Rep(m, t, lo, hi)
    ensures var x := Leftmost(t).node;
            x in Nodes(t) && x in m && Rep(m[x := m[x].(left := lo2)], t, lo2, hi)
    decreases t
  {
    var x := Leftmost(t).node;
    var n := t.node;
    if t.left.Bin? {
      RelinkLo(m, t.left, lo, lo2, n);
    }
    RepFrame(m, m[x := m[x].(left := lo2)], {x}, t.right, n, hi);
  }

  /** Redirecting the thread of the last node of `t`. */
  lemma {:induction false} RelinkHi(m: Store, t: Shape, lo: TreeNode?, hi: TreeNode?, hi2: TreeNode?)
    requires t.Bin? && Wf(t) && Rep(m, t, lo, hi)
    ensures var x := Rightmost(t).node;
            x in Nodes(t) && x in m && Rep(m[x := m[x].(right := hi2)], t, lo, hi2)
    decreases t
  {
    var x := Rightmost(t).node;
    var n := t.node;
    if t.right.Bin? {
      RelinkHi(m, t.right, n, hi, hi2);
    }
    RepFrame(m, m[x := m[x].(right := hi2)], {x}, t.left, lo, n);
  }

  // ----- walking

  /** The nodes from the root of `t` down to its first. */
  ghost function LeftSpine(t: Shape): (nodes: set<TreeNode>)
    ensures nodes <= Nodes(t)
  {
    if t.Leaf? then {} else {t.node} + LeftSpine(t.left)
  }

  /** tree.c:90-99; `r` is the right subtree of `node` and `read` the nodes it looks at. */
  method NextNode(node: TreeNode, ghost m: Store, ghost r: Shape, ghost hi: TreeNode?)
    returns (tmp: TreeNode?, ghost read: set<TreeNode>)
    requires Stores(m) && Rep(m, r, node, hi)
    requires node in m && m[node].rightChild == r.Bin? && m[node].right == Root(r, hi)
    ensures tmp == if r.Bin? then Leftmost(r).node else hi
    ensures read == {node} + LeftSpine(r)
  {
    tmp := node.right;
    read := {node};
    if node.rightChild {
      ghost var t, h := r, hi;
      read := read + {tmp};
      while tmp.leftChild
        invariant t.Bin? && tmp == t.node && Rep(m, t, node, h) && Leftmost(t) == Leftmost(r)
        invariant read + LeftSpine(t.left) == {node} + LeftSpine(r)
        decreases t
      {
        tmp := tmp.left;
        t, h := t.left, t.node;
        read := read + {tmp};
      }
    }
  }

  /** tree.c:79-88; `l` is the left subtree of `node`. */
  method PreviousNode(node: TreeNode, ghost m: Store, ghost l: Shape, ghost lo: TreeNode?) returns (tmp: TreeNode?)
    requires Stores(m) && Rep(m, l, lo, node)
    requires node in m && m[node].leftChild == l.Bin? && m[node].left == Root(l, lo)
    ensures tmp == if l.Bin? then Rightmost(l).node else lo
  {
    tmp := node.left;
    if node.leftChild {
      ghost var t, k := l, lo;
      while tmp.rightChild
        invariant t.Bin? && tmp == t.node && Rep(m, t, k, node) && Rightmost(t) == Rightmost(l)
        decreases t
      {
        tmp := tmp.right;
        t, k := t.right, t.node;
      }
    }
  }

  // ----- rotations

  /** tree.c:121-135: the balances of a node and of its right child, `a` and
      `b` before, once the child has been turned above it. */
  method LeftTurn(a: int, b: int) returns (nodeBalance: int, rightBalance: int)
    ensures (nodeBalance, rightBalance) == LeftTurnBalances(a, b)
  {
    if b <= 0 {
      if a >= 1 {
        rightBalance := b - 1;
      } else {
        rightBalance := a + b - 2;
      }
      nodeBalance := a - 1;
    } else {
      if a <= b {
        rightBalance := a - 2;
      } else {
        rightBalance := b - 1;
      }
      nodeBalance := a - b - 1;
    }
  }

  /** tree.c:160-174, the mirror image. */
  method RightTurn(a: int, b: int) returns (nodeBalance: int, leftBalance: int)
    ensures (nodeBalance, leftBalance) == RightTurnBalances(a, b)
  {
    if b <= 0 {
      if b > a {
        leftBalance := b + 1;
      } else {
        leftBalance := a + 2;
      }
      nodeBalance := a - b + 1;
    } else {
      if a <= -1 {
        leftBalance := b + 1;
      } else {
        leftBalance := a + b + 2;
      }
      nodeBalance := a + 1;
    }
  }

  ghost predicate CanTurnLeft(m: Store, n: TreeNode) {
    n in m && m[n].right != null && m[n].right in m && m[n].right != n
  }

  ghost predicate CanTurnRight(m: Store, n: TreeNode) {
    n in m && m[n].left != null && m[n].left in m && m[n].left != n
  }

  /** The store after turning the right child of `n` above `n`. */
  ghost function TurnLeft(m: Store, n: TreeNode): Store
    requires CanTurnLeft(m, n)
  {
    var r := m[n].right;
    var bals := LeftTurnBalances(m[n].balance, m[r].balance);
    var c := if m[r].leftChild then m[n].(right := m[r].left) else m[n].(rightChild := false);
    m[r := m[r].(left := n, leftChild := true, balance := bals.1)][n := c.(balance := bals.0)]
  }

  ghost function TurnRight(m: Store, n: TreeNode): Store
    requires CanTurnRight(m, n)
  {
    var l := m[n].left;
    var bals := RightTurnBalances(m[n].balance, m[l].balance);
    var c := if m[l].rightChild then m[n].(left := m[l].right) else m[n].(leftChild := false);
    m[l := m[l].(right := n, rightChild := true, balance := bals.1)][n := c.(balance := bals.0)]
  }

  /** tree.c:101-138 */
  method RotateNodeLeft(node: TreeNode, ghost m: Store) returns (right: TreeNode)
    requires Stores(m) && CanTurnLeft(m, node)
    modifies m.Keys
    ensures Stores(TurnLeft(m, node)) && right == m[node].right
  {
    hide LeftTurnBalances, RightTurnBalances;
    right := node.right;
    if right.leftChild {
      node.right := right.left;
    } else {
      node.rightChild := false;
      right.leftChild := true;
    }
    right.left := node;
    var a := node.balance;
    var b := right.balance;
    node.balance, right.balance := LeftTurn(a, b);
  }

  /** tree.c:140-177 */
  method RotateNodeRight(node: TreeNode, ghost m: Store) returns (left: TreeNode)
    requires Stores(m) && CanTurnRight(m, node)
    modifies m.Keys
    ensures Stores(TurnRight(m, node)) && left == m[node].left
  {
    hide LeftTurnBalances, RightTurnBalances;
    left := node.left;
    if left.rightChild {
      node.left := left.right;
    } else {
      node.leftChild := false;
      left.rightChild := true;
    }
    left.right := node;
    var a := node.balance;
    var b := left.balance;
    node.balance, left.balance := RightTurn(a, b);
  }

  /** The pointer rotation performs the rotation of the shape, threads included. */
  lemma TurnLeftRep(m: Store, t: Shape, lo: TreeNode?, hi: TreeNode?)
    requires t.Bin? && t.right.Bin? && Wf(t) && Rep(m, t, lo, hi)
    ensures CanTurnLeft(m, t.node) && Rep(TurnLeft(m, t.node), RotateLeft(t), lo, hi)
    ensures SameOutside(m, TurnLeft(m, t.node), Nodes(t))
  {
    var n, r := t.node, t.right.node;
    var m' := TurnLeft(m, n);
    RepFrame(m, m', {n, r}, t.left, lo, n);
    RepFrame(m, m', {n, r}, t.right.left, n, r);
    RepFrame(m, m', {n, r}, t.right.right, r, hi);
  }

  lemma TurnRightRep(m: Store, t: Shape, lo: TreeNode?, hi: TreeNode?)
    requires t.Bin? && t.left.Bin? && Wf(t) && Rep(m, t, lo, hi)
    ensures CanTurnRight(m, t.node) && Rep(TurnRight(m, t.node), RotateRight(t), lo, hi)
    ensures SameOutside(m, TurnRight(m, t.node), Nodes(t))
  {
    var n, l := t.node, t.left.node;
    var m' := TurnRight(m, n);
    RepFrame(m, m', {n, l}, t.left.left, lo, l);
    RepFrame(m, m', {n, l}, t.left.right, l, n);
    RepFrame(m, m', {n, l}, t.right, n, hi);
  }

  // ----- rebalancing

  /** The nodes that rebalancing `n` dereferences are there. */
  ghost predicate CanRebalance(m: Store, n: TreeNode) {
    && n in m
    && (m[n].balance < -1 ==>
          CanTurnRight(m, n) && (m[m[n].left].balance > 0 ==> CanTurnLeft(m, m[n].left) && m[m[n].left].right != n))
    && (m[n].balance > 1 ==>
          CanTurnLeft(m, n) && (m[m[n].right].balance < 0 ==> CanTurnRight(m, m[n].right) && m[m[n].right].left != n))
  }

  /** The store once a heavy grandchild on the inside has been turned outside. */
  ghost function Straighten(m: Store, n: TreeNode): Store
    requires CanRebalance(m, n)
    ensures m[n].balance < -1 ==> CanTurnRight(Straighten(m, n), n)
    ensures m[n].balance > 1 ==> CanTurnLeft(Straighten(m, n), n)
  {
    var l, r := m[n].left, m[n].right;
    if m[n].balance < -1 && m[l].balance > 0 then TurnLeft(m, l)[n := m[n].(left := m[l].right)]
    else if m[n].balance > 1 && m[r].balance < 0 then TurnRight(m, r)[n := m[n].(right := m[r].left)]
    else m
  }

  ghost function RebalanceStore(m: Store, n: TreeNode): Store
    requires CanRebalance(m, n)
  {
    if m[n].balance < -1 then TurnRight(Straighten(m, n), n)
    else if m[n].balance > 1 then TurnLeft(Straighten(m, n), n)
    else m
  }

  method SetLeft(node: TreeNode, left: TreeNode?, ghost m: Store)
    requires Stores(m) && node in m
    modifies node
    ensures Stores(m[node := m[node].(left := left)])
  {
    node.left := left;
  }

  method SetRight(node: TreeNode, right: TreeNode?, ghost m: Store)
    requires Stores(m) && node in m
    modifies node
    ensures Stores(m[node := m[node].(right := right)])
  {
    node.right := right;
  }

  /** Turning the child of `n` does not change `n`. */
  lemma StraightenIs(m: Store, n: TreeNode)
    requires CanRebalance(m, n)
    ensures m[n].balance < -1 && m[m[n].left].balance > 0 ==>
              var m1 := TurnLeft(m, m[n].left);
              n in m1 && Straighten(m, n) == m1[n := m1[n].(left := m[m[n].left].right)]
    ensures m[n].balance < -1 && m[m[n].left].balance <= 0 ==> Straighten(m, n) == m
    ensures m[n].balance > 1 && m[m[n].right].balance < 0 ==>
              var m1 := TurnRight(m, m[n].right);
              n in m1 && Straighten(m, n) == m1[n := m1[n].(right := m[m[n].right].left)]
    ensures m[n].balance > 1 && m[m[n].right].balance >= 0 ==> Straighten(m, n) == m
    ensures forall n' :: CanTurnLeft(m, n') ==> TurnLeft(m, n').Keys == m.Keys
    ensures forall n' :: CanTurnRight(m, n') ==> TurnRight(m, n').Keys == m.Keys
  {
    hide LeftTurnBalances, RightTurnBalances;
  }

  /** tree.c:183-185 */
  method StraightenLeft(node: TreeNode, ghost m: Store)
    requires Stores(m) && CanRebalance(m, node) && m[node].balance < -1
    modifies m.Keys
    ensures Stores(Straighten(m, node))
  {
    hide Straighten, TurnLeft, TurnRight;
    StraightenIs(m, node);
    if node.left.balance > 0 {
      var left := RotateNodeLeft(node.left, m);
      SetLeft(node, left, TurnLeft(m, m[node].left));
    }
  }

  /** tree.c:188-190 */
  method StraightenRight(node: TreeNode, ghost m: Store)
    requires Stores(m) && CanRebalance(m, node) && m[node].balance > 1
    modifies m.Keys
    ensures Stores(Straighten(m, node))
  {
    hide Straighten, TurnLeft, TurnRight;
    StraightenIs(m, node);
    if node.right.balance < 0 {
      var right := RotateNodeRight(node.right, m);
      SetRight(node, right, TurnRight(m, m[node].right));
    }
  }

  /** tree.c:179-194 */
  method RebalanceNode(node0: TreeNode, ghost m: Store) returns (node: TreeNode)
    requires Stores(m) && CanRebalance(m, node0)
    modifies m.Keys
    ensures Stores(RebalanceStore(m, node0))
    ensures node == if m[node0].balance < -1 then Straighten(m, node0)[node0].left
                    else if m[node0].balance > 1 then Straighten(m, node0)[node0].right else node0
  {
    node := node0;
    if node.balance < -1 {
      StraightenLeft(node, m);
      node := RotateNodeRight(node, Straighten(m, node));
    } else if node.balance > 1 {
      StraightenRight(node, m);
      node := RotateNodeLeft(node, Straighten(m, node));
    }
  }

  lemma LeftHeavyRep(m: Store, t: Shape, lo: TreeNode?, hi: TreeNode?)
    requires t.Bin? && t.bal < -1 && Wf(t) && Rep(m, t, lo, hi)
    requires t.left.Bin? && (t.left.bal > 0 ==> t.left.right.Bin?)
    ensures CanRebalance(m, t.node) && Rep(RebalanceStore(m, t.node), Rebalance(t), lo, hi)
    ensures SameOutside(m, RebalanceStore(m, t.node), Nodes(t))
    ensures Rebalance(t).Bin? && Rebalance(t).node == Straighten(m, t.node)[t.node].left
  {
    var n, l := t.node, t.left.node;
    if t.left.bal > 0 {
      TurnLeftRep(m, t.left, lo, n);
      assert m[l].right == t.left.right.node;
    }
    var m' := Straighten(m, n);
    var u := t;
    if t.left.bal > 0 {
      u := t.(left := RotateLeft(t.left));
      RotateLeftContents(t.left);
      RepFrame(TurnLeft(m, l), m', {n}, u.left, lo, n);
      RepFrame(m, m', Nodes(t.left) + {n}, t.right, n, hi);
    }
    assert Rep(m', u, lo, hi) && Wf(u) && Nodes(u) == Nodes(t) && SameOutside(m, m', Nodes(t));
    TurnRightRep(m', u, lo, hi);
  }

  lemma RightHeavyRep(m: Store, t: Shape, lo: TreeNode?, hi: TreeNode?)
    requires t.Bin? && t.bal > 1 && Wf(t) && Rep(m, t, lo, hi)
    requires t.right.Bin? && (t.right.bal < 0 ==> t.right.left.Bin?)
    ensures CanRebalance(m, t.node) && Rep(RebalanceStore(m, t.node), Rebalance(t), lo, hi)
    ensures SameOutside(m, RebalanceStore(m, t.node), Nodes(t))
    ensures Rebalance(t).Bin? && Rebalance(t).node == Straighten(m, t.node)[t.node].right
  {
    var n, r := t.node, t.right.node;
    if t.right.bal < 0 {
      TurnRightRep(m, t.right, n, hi);
      assert m[r].left == t.right.left.node;
    }
    var m' := Straighten(m, n);
    var u := t;
    if t.right.bal < 0 {
      u := t.(right := RotateRight(t.right));
      RotateRightContents(t.right);
      RepFrame(TurnRight(m, r), m', {n}, u.right, n, hi);
      RepFrame(m, m', Nodes(t.right) + {n}, t.left, lo, n);
    }
    assert Rep(m', u, lo, hi) && Wf(u) && Nodes(u) == Nodes(t) && SameOutside(m, m', Nodes(t));
    TurnLeftRep(m', u, lo, hi);
  }

  /** Rebalancing the pointers is `Rebalance` of the shape; exact balances say
      that the nodes it dereferences exist. */
  lemma RebalanceRep(m: Store, t: Shape, lo: TreeNode?, hi: TreeNode?)
    requires t.Bin? && Wf(t) && Rep(m, t, lo, hi) && Exact(t)
    ensures CanRebalance(m, t.node) && Rep(RebalanceStore(m, t.node), Rebalance(t), lo, hi)
    ensures SameOutside(m, RebalanceStore(m, t.node), Nodes(t))
    ensures Rebalance(t).Bin?
    ensures t.bal < -1 ==> Rebalance(t).node == Straighten(m, t.node)[t.node].left
    ensures t.bal > 1 ==> Rebalance(t).node == Straighten(m, t.node)[t.node].right
  {
    if t.bal < -1 {
      LeftHeavyRep(m, t, lo, hi);
    } else if t.bal > 1 {
      RightHeavyRep(m, t, lo, hi);
    }
  }

  // ----- one step of a climb

  /** `m` stores the tree `Plug(c, s)`, whose hole holds the subtree `s`. */
  ghost predicate At(m: Store, c: Ctx, s: Shape) {
    && s.Bin? && Wf(s) && CtxWf(c) && Nodes(s) !! CtxNodes(c)
    && Rep(m, s, Lo(c), Hi(c)) && RepCtx(m, c, s.node)
  }

  ghost function Parent(c: Ctx): TreeNode? {
    if c.Top? then null else c.node
  }

  ghost predicate OnLeft(c: Ctx) {
    c.Frame? && c.onLeft
  }

  /** The root of the subtree of `n` after rebalancing. */
  ghost function NewRoot(m: Store, n: TreeNode): TreeNode
    requires CanRebalance(m, n)
  {
    if m[n].balance < -1 then Straighten(m, n)[n].left
    else if m[n].balance > 1 then Straighten(m, n)[n].right
    else n
  }

  ghost function Hang(m: Store, p: TreeNode?, left: bool, y: TreeNode): Store {
    if p == null || p !in m then m
    else if left then m[p := m[p].(left := y)]
    else m[p := m[p].(right := y)]
  }

  ghost function FixedStore(m: Store, n: TreeNode, p: TreeNode?, left: bool): Store
    requires CanRebalance(m, n)
  {
    if Abs(m[n].balance) > 1 then Hang(RebalanceStore(m, n), p, left, NewRoot(m, n)) else m
  }

  lemma RebalanceStoreKeys(m: Store, n: TreeNode)
    requires CanRebalance(m, n)
    ensures RebalanceStore(m, n).Keys == m.Keys
  {
  }

  /** Rebalancing `s` and hanging it back. */
  lemma FixAt(m: Store, c: Ctx, s: Shape)
    requires At(m, c, s) && Exact(s)
    ensures CanRebalance(m, s.node) && (c.Frame? ==> c.node in m)
    ensures var m' := FixedStore(m, s.node, Parent(c), OnLeft(c));
            m'.Keys == m.Keys && At(m', c, Fix(s)) && Fix(s).node == NewRoot(m, s.node)
  {
    RebalanceRep(m, s, Lo(c), Hi(c));
    RebalanceStoreKeys(m, s.node);
    if Abs(s.bal) > 1 {
      RebalanceContents(s);
      FixHang(m, c, s);
    }
  }

  lemma FixHang(m: Store, c: Ctx, s: Shape)
    requires At(m, c, s) && Rebalance(s).Bin? && Nodes(Rebalance(s)) == Nodes(s)
    requires CanRebalance(m, s.node)
    requires var m1 := RebalanceStore(m, s.node);
             m1.Keys == m.Keys && SameOutside(m, m1, Nodes(s)) && Rep(m1, Rebalance(s), Lo(c), Hi(c))
    ensures var m2 := Hang(RebalanceStore(m, s.node), Parent(c), OnLeft(c), Rebalance(s).node);
            && m2.Keys == m.Keys
            && Rep(m2, Rebalance(s), Lo(c), Hi(c)) && RepCtx(m2, c, Rebalance(s).node)
  {
    if c.Frame? {
      HangAt(m, RebalanceStore(m, s.node), c, s, Rebalance(s));
    }
  }

  /** Hanging another subtree `t` on the nodes of `s` into the hole. */
  lemma HangAt(m: Store, m1: Store, c: Ctx, s: Shape, t: Shape)
    requires c.Frame? && s.Bin? && CtxWf(c) && Nodes(s) !! CtxNodes(c) && RepCtx(m, c, s.node)
    requires t.Bin? && Nodes(t) <= Nodes(s) && m1.Keys == m.Keys && SameOutside(m, m1, Nodes(s)) && Rep(m1, t, Lo(c), Hi(c))
    ensures var m2 := Hang(m1, c.node, c.onLeft, t.node);
            m2.Keys == m.Keys && Rep(m2, t, Lo(c), Hi(c)) && RepCtx(m2, c, t.node)
  {
    var m2 := Hang(m1, c.node, c.onLeft, t.node);
    RepFrame(m1, m2, {c.node}, t, Lo(c), Hi(c));
    RepCtxReplace(m, m2, Nodes(s) + {c.node}, c, s.node, t.node);
  }

  /** Changing the stored balance of the parent of `s` and stepping up to it. */
  lemma BumpAt(m: Store, c: Ctx, s: Shape, bal: int)
    requires c.Frame? && At(m, c, s)
    ensures c.node in m && m[c.node].balance == c.bal && (m[c.node].left == s.node <==> c.onLeft)
    ensures At(m[c.node := m[c.node].(balance := bal)], c.up, Fill(c, s, bal))
  {
    var m' := m[c.node := m[c.node].(balance := bal)];
    LoOutside(c.up);
    RepFrame(m, m', {c.node}, s, Lo(c), Hi(c));
    RepCtxFrame(m, m', {c.node}, c.up, c.node);
    if c.onLeft {
      RepFrame(m, m', {c.node}, c.sib, c.node, Hi(c.up));
    } else {
      RepFrame(m, m', {c.node}, c.sib, Lo(c.up), c.node);
    }
  }
}
