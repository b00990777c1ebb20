/** The operations of tree.c on the mutable tree. */
module TreeClass {
  import opened TreeShape
  import opened TreeClimb
  import opened TreeHeap
  import opened TreeOrder
  import opened TreeSplice
  import opened TreePath
  import opened TreePlace
  import opened TreeSpoil
  import opened TreeSteps
  import opened TreeLiteral

  class TreeReference {
    var tree: Tree?
    var depth: nat
    var maxdepth: nat
    const path: array<TreeNode?>

    /** TREE_REFERENCE_INITIALIZER, tree.h:54 */
    constructor ()
      ensures tree == null && Initialised() && fresh(path)
    {
      tree, depth, maxdepth := null, 0, PATH_LENGTH;
      path := new TreeNode?[PATH_LENGTH](_ => null);
    }

    ghost predicate Initialised()
      reads this
    {
      maxdepth == PATH_LENGTH && path.Length == PATH_LENGTH
    }
  }

  class Tree {
    var root: TreeNode?
    const compare: Comparator
    var count: nat

    ghost var shape: Shape
    ghost var store: Store
    /** What the tree stands for: a list of items, no two of them equivalent. */
    ghost var list: seq<Item>

    /** The nodes are linked up as `shape` says, threads included. */
    ghost predicate Linked()
      reads this, store.Keys
    {
      && Stores(store) && store.Keys == Nodes(shape) && Rep(store, shape, null, null) && Wf(shape)
      && root == Root(shape, null) && count == Size(shape)
    }

    /** A search tree with exact balances. */
    ghost predicate Sound()
      reads this, store.Keys
    {
      && Linked() && Exact(shape) && Height(shape) <= MAX_HEIGHT
      && TotalPreorder(compare) && Sorted(compare, Items(shape))
    }

    /** An AVL tree, except, without `toRoot`, for the balance of the root. */
    ghost predicate Valid(toRoot: bool)
      reads this, store.Keys
    {
      Sound() && Balanced(shape, toRoot)
    }

    ghost predicate Denotes()
      reads this
    {
      Refines(compare, Items(shape), list)
    }

    /** tree.c:513-523 */
    constructor (compare: Comparator)
      requires TotalPreorder(compare)
      ensures Valid(true) && Valid(false) && Denotes() && list == []
      ensures store == map[] && this.compare == compare
    {
      root := null;
      this.compare := compare;
      count := 0;
      shape := Leaf;
      store := map[];
      list := [];
    }

    /** The search of tree.c:209-253: where `item` is, or the node it has to be
        attached to. */
    method FindPlace(item: Item, cursor: TreeReference)
      returns (node: TreeNode, cmp: int, aborted: bool, ghost c: Ctx, ghost s: Shape)
      requires Linked() && TotalPreorder(compare) && Sorted(compare, Items(shape))
      requires root != null && cursor.Initialised()
      modifies cursor`depth, cursor.path
      ensures aborted ==> Height(shape) >= MAX_HEIGHT
      ensures Plug(c, s) == shape && s.Bin? && node == s.node && Between(compare, Before(c), item, After(c))
      ensures cursor.depth == Depth(c) + 1 && PathIs(c, cursor.path[..], cursor.depth - 1)
      ensures !aborted ==> cursor.depth < MAX_HEIGHT && cmp == compare(item, s.item)
      ensures !aborted && cmp < 0 ==> s.left.Leaf?
      ensures !aborted && cmp > 0 ==> s.right.Leaf?
      ensures !aborted ==> shape.Bin? && (c, s) == Search(compare, item, Top, shape)
      ensures !aborted && cmp == 0 ==> 0 < cursor.depth < cursor.path.Length == 40 && cursor.path[cursor.depth] == node
    {
      hide *;
      SearchStart(item, cursor);
      aborted, cmp := false, 0;
      cursor.depth := 0;
      cursor.path[0] := null;
      cursor.depth := 1;
      node := root;
      c, s := Top, shape;
      assert PathIs(c, cursor.path[..], 0) by { PathTop(cursor.path[..]); }
      while true
        invariant Plug(c, s) == shape && s.Bin? && node == s.node && Between(compare, Before(c), item, After(c))
        invariant cursor.depth == Depth(c) + 1 <= MAX_HEIGHT && PathIs(c, cursor.path[..], cursor.depth - 1)
        invariant Search(compare, item, c, s) == Search(compare, item, Top, shape)
        decreases s
      {
        NodeFields(c, s);
        SearchStep(compare, item, c, s);
        if cursor.depth > 36 {
          DeepPath(c, s);
          aborted := true;
          return;
        }
        cmp := compare(item, node.item);
        ghost var path := cursor.path[..];
        DescendStep(compare, item, c, s, path, cursor.depth);
        if cmp == 0 {
          cursor.path[cursor.depth] := node;
          assert cursor.path[..] == path[cursor.depth := node];
          return;
        } else if cmp < 0 {
          if node.leftChild {
            cursor.path[cursor.depth] := node;
            assert cursor.path[..] == path[cursor.depth := node];
            cursor.depth := cursor.depth + 1;
            node := node.left;
            c, s := Frame(c, true, s.node, s.item, s.bal, s.right), s.left;
          } else {
            return;
          }
        } else {
          if node.rightChild {
            cursor.path[cursor.depth] := node;
            assert cursor.path[..] == path[cursor.depth := node];
            cursor.depth := cursor.depth + 1;
            node := node.right;
            c, s := Frame(c, false, s.node, s.item, s.bal, s.left), s.right;
          } else {
            return;
          }
        }
        if cursor.depth >= cursor.maxdepth {
          aborted := true;
          return;
        }
      }
    }

    lemma SearchStart(item: Item, cursor: TreeReference)
      requires Linked() && root != null && cursor.Initialised()
      ensures cursor.path.Length == cursor.maxdepth == 40 && MAX_HEIGHT == 37
      ensures shape.Bin? && root == shape.node && Plug(Top, shape) == shape && Depth(Top) == 0
      ensures Between(compare, Before(Top), item, After(Top))
    {
    }

    /** What the node of the subtree in a hole holds. */
    lemma NodeFields(c: Ctx, s: Shape)
      requires Linked() && Plug(c, s) == shape && s.Bin?
      ensures s.node in store && At(store, c, s)
      ensures s.node.item == s.item && s.node.balance == s.bal
      ensures s.node.leftChild == s.left.Bin? && s.node.left == Root(s.left, Lo(c))
      ensures s.node.rightChild == s.right.Bin? && s.node.right == Root(s.right, Hi(c))
      ensures s.left.Bin? ==> s.node.left == s.left.node
      ensures s.right.Bin? ==> s.node.right == s.right.node
      ensures root == Above(c, s.node)
    {
      Locate(store, c, s);
      PlugWf(c, s);
    }

    /** tree.c:203-207 */
    method PlaceFirst(toRoot: bool, item: Item)
      requires Valid(toRoot) && root == null
      modifies this`root, this`count, this`shape, this`store
      ensures Valid(toRoot) && fresh(store.Keys) && old(shape) == Leaf && old(Items(shape)) == [] && Items(shape) == [item]
      ensures root != null && shape == Bin(Leaf, root, item, 0, Leaf)
      ensures store.Keys == old(store.Keys) + {root} && root !in old(store.Keys)
      ensures Between(compare, [], item, [])
    {
      root := new TreeNode(item);
      count := count + 1;
      shape := Bin(Leaf, root, item, 0, Leaf);
      store := map[root := Cell(item, 0, null, null, false, false)];
    }

    lemma ValidFacts(toRoot: bool)
      requires Valid(toRoot)
      ensures Linked() && Stores(store) && store.Keys == Nodes(shape) && Rep(store, shape, null, null) && Wf(shape)
      ensures root == Root(shape, null) && count == Size(shape) && (root == null <==> shape.Leaf?)
      ensures Balanced(shape, toRoot) && Height(shape) <= MAX_HEIGHT == 37 && PATH_LENGTH == 40
      ensures TotalPreorder(compare) && Sorted(compare, Items(shape))
    {
    }

    lemma MakeSound(toRoot: bool)
      requires Stores(store) && store.Keys == Nodes(shape) && Rep(store, shape, null, null) && Wf(shape)
      requires root == Root(shape, null) && count == Size(shape)
      requires Exact(shape) && Height(shape) <= MAX_HEIGHT
      requires TotalPreorder(compare) && Sorted(compare, Items(shape))
      ensures Sound() && (Valid(toRoot) <==> Balanced(shape, toRoot))
    {
    }

    lemma MakeValid(toRoot: bool)
      requires Stores(store) && store.Keys == Nodes(shape) && Rep(store, shape, null, null) && Wf(shape)
      requires root == Root(shape, null) && count == Size(shape)
      requires Balanced(shape, toRoot) && Height(shape) <= MAX_HEIGHT
      requires TotalPreorder(compare) && Sorted(compare, Items(shape))
      ensures Valid(toRoot)
    {
    }

    /** tree.c:225-230 */
    method AttachLeft(node: TreeNode, item: Item, ghost m: Store) returns (child: TreeNode)
      requires Stores(m) && node in m
      modifies node
      ensures fresh(child) && Stores(GrowStore(m, node, true, child, item))
    {
      child := new TreeNode(item);
      child.left := node.left;
      child.right := node;
      node.left := child;
      node.leftChild := true;
      node.balance := node.balance - 1;
    }

    /** tree.c:240-245 */
    method AttachRight(node: TreeNode, item: Item, ghost m: Store) returns (child: TreeNode)
      requires Stores(m) && node in m
      modifies node
      ensures fresh(child) && Stores(GrowStore(m, node, false, child, item))
    {
      child := new TreeNode(item);
      child.right := node.right;
      child.left := node;
      node.right := child;
      node.rightChild := true;
      node.balance := node.balance + 1;
    }

    /** tree.c:196-280.  `toRoot` carries the climb past the loop guard to the
        node without a parent; the code as written is `toRoot == false`. */
    method PlaceNode(toRoot: bool, item: Item, cursor: TreeReference)
      returns (result: int, aborted: bool, ghost c: Ctx, ghost s: Shape, ghost a: seq<Item>, ghost b: seq<Item>,
               ghost child: TreeNode)
      requires Valid(toRoot) && cursor.Initialised()
      modifies this`root, this`count, this`shape, this`store, store.Keys, cursor`depth, cursor.path
      ensures Valid(toRoot) && fresh(store.Keys - old(store.Keys))
      ensures aborted ==> shape == old(shape) && Height(shape) >= MAX_HEIGHT
      ensures !aborted ==> shape == Placed(toRoot, compare, old(shape), item, child)
      ensures !aborted && result == 0 ==>
              && shape == old(shape) && store == old(store) && Plug(c, s) == shape
              && s.Bin? && compare(item, s.item) == 0
              && PathIs(c, cursor.path[..], cursor.depth - 1)
              && 0 < cursor.depth < cursor.path.Length == 40 && cursor.path[cursor.depth] == s.node
      ensures !aborted && result != 0 ==>
              && result == 1 && old(Items(shape)) == a + b && Items(shape) == a + [item] + b
              && Between(compare, a, item, b)
              && store.Keys == old(store.Keys) + {child} && child !in old(store.Keys)
    {
      hide *;
      result, aborted, c, s, a, b := 0, false, Top, Leaf, [], [];
      ValidFacts(toRoot);
      if root == null {
        result := 1;
        PlaceFirst(toRoot, item);
        child := root;
        PlacedFirst(toRoot, compare, item, root);
        return;
      }
      var node, cmp;
      node, cmp, aborted, c, s := FindPlace(item, cursor);
      if aborted || cmp == 0 {
        child := node;
        if !aborted {
          PlacedFound(toRoot, compare, shape, item, node, c, s);
        }
        return;
      }
      result := 1;
      a, b, child := PlaceBelow(toRoot, item, cursor, node, cmp, c, s);
    }

    /** tree.c:223-279: `node` has an empty slot for the item. */
    method PlaceBelow(toRoot: bool, item: Item, cursor: TreeReference, node: TreeNode, cmp: int,
                      ghost c: Ctx, ghost s: Shape)
      returns (ghost a: seq<Item>, ghost b: seq<Item>, ghost child: TreeNode)
      requires Valid(toRoot) && Plug(c, s) == shape && s.Bin? && node == s.node
      requires Between(compare, Before(c), item, After(c))
      requires shape.Bin? && (c, s) == Search(compare, item, Top, shape) && cmp == compare(item, s.item) != 0
      requires if cmp < 0 then s.left.Leaf? else s.right.Leaf?
      requires cursor.depth == Depth(c) + 1 < MAX_HEIGHT && PathIs(c, cursor.path[..], cursor.depth - 1)
      modifies this`root, this`count, this`shape, this`store, store.Keys, cursor`depth
      ensures Valid(toRoot) && fresh(store.Keys - old(store.Keys))
      ensures old(Items(shape)) == a + b && Items(shape) == a + [item] + b && Between(compare, a, item, b)
      ensures store.Keys == old(store.Keys) + {child} && child !in old(store.Keys)
      ensures shape == Placed(toRoot, compare, old(shape), item, child)
    {
      hide *;
      ValidFacts(toRoot);
      NodeFields(c, s);
      ghost var onLeft := cmp < 0;
      var leaf;
      if cmp < 0 {
        leaf := AttachLeft(node, item, store);
      } else {
        leaf := AttachRight(node, item, store);
      }
      child := leaf;
      count := count + 1;
      ghost var m, t := GrowStore(store, node, onLeft, child, item), Grow(s, onLeft, child, item);
      a, b := PlaceGrown(toRoot, compare, store, c, s, onLeft, child, item);
      PlacedBelow(toRoot, compare, shape, item, child, c, s);
      m := ClimbInsert(toRoot, cursor, node, m, t, c, Height(s));
      store, shape := m, InsertClimb(toRoot, t, c);
      MakeValid(toRoot);
    }

    /** tree.c:261-266 and 441-446 */
    method HangNode(bparent: TreeNode?, leftNode: bool, node: TreeNode, ghost m: Store)
      requires Stores(m) && (bparent != null ==> bparent in m)
      modifies this`root, m.Keys
      ensures Stores(Hang(m, bparent, leftNode, node))
      ensures root == if bparent == null then node else old(root)
    {
      if bparent == null {
        root := node;
      } else if leftNode {
        bparent.left := node;
      } else {
        bparent.right := node;
      }
    }

    /** tree.c:257-267 and 437-447 */
    method FixNode(node0: TreeNode, bparent: TreeNode?, ghost m: Store) returns (node: TreeNode, leftNode: bool)
      requires Stores(m) && CanRebalance(m, node0) && (bparent != null ==> bparent in m)
      modifies this`root, m.Keys
      ensures leftNode == (bparent != null && m[bparent].left == node0)
      ensures Stores(FixedStore(m, node0, bparent, leftNode)) && node == NewRoot(m, node0)
      ensures node in FixedStore(m, node0, bparent, leftNode) ==>
              node.balance == FixedStore(m, node0, bparent, leftNode)[node].balance
      ensures root == if bparent == null && Abs(m[node0].balance) > 1 then node else old(root)
    {
      hide Straighten, Hang, CanTurnLeft, CanTurnRight;
      leftNode := bparent != null && node0 == bparent.left;
      node := node0;
      RebalanceStoreKeys(m, node0);
      if node.balance < -1 || node.balance > 1 {
        node := RebalanceNode(node, m);
        HangNode(bparent, leftNode, node, RebalanceStore(m, node0));
      }
    }

    /** tree.c:272-275 and 452-455; `delta` is what the left side's change does to the balance. */
    method BumpParent(bparent: TreeNode, leftNode: bool, delta: int, ghost m: Store)
      requires Stores(m) && bparent in m
      modifies m.Keys
      ensures Stores(m[bparent := m[bparent].(balance := if leftNode then m[bparent].balance + delta
                                                         else m[bparent].balance - delta)])
    {
      if leftNode {
        bparent.balance := bparent.balance + delta;
      } else {
        bparent.balance := bparent.balance - delta;
      }
    }

    /** The climb of an insertion, tree.c:255-278, from `node0`, the root of `s0`. */
    method ClimbInsert(toRoot: bool, cursor: TreeReference, node0: TreeNode,
                       ghost m0: Store, ghost s0: Shape, ghost c0: Ctx, ghost h0: int)
      returns (ghost m: Store)
      requires Stores(m0) && At(m0, c0, s0) && s0.Bin? && node0 == s0.node && root == Above(c0, node0)
      requires Grown(toRoot, s0, c0, h0) && PathIs(c0, cursor.path[..], cursor.depth - 1)
      modifies this`root, m0.Keys
      ensures Stores(m) && m.Keys == m0.Keys && Rep(m, InsertClimb(toRoot, s0, c0), null, null)
      ensures root == Root(InsertClimb(toRoot, s0, c0), null)
    {
      hide *;
      m := m0;
      var node := node0;
      var index := cursor.depth - 1;
      ghost var s, c, h := s0, c0, h0;
      PathUp(c, cursor.path[..], index);
      while toRoot || cursor.path[index] != null
        invariant Stores(m) && m.Keys == m0.Keys && At(m, c, s) && s.Bin? && node == s.node && root == Above(c, node)
        invariant Grown(toRoot, s, c, h) && 0 <= index < cursor.path.Length && PathIs(c, cursor.path[..], index)
        invariant InsertClimb(toRoot, s, c) == InsertClimb(toRoot, s0, c0)
        decreases c
      {
        ghost var s', up := Fix(s), InsertUp(s, c);
        PathUp(c, cursor.path[..], index);
        InsertStep(toRoot, m, s, c, h);
        var bparent := cursor.path[index];
        var leftNode;
        node, leftNode := FixNode(node, bparent, m);
        m := FixedStore(m, s.node, bparent, leftNode);

        if node.balance == 0 || bparent == null {
          return;
        }

        BumpParent(bparent, leftNode, -1, m);
        m := m[bparent := m[bparent].(balance := up.bal)];
        s, c, h := up, c.up, 1 + Max(h, Height(c.sib));
        node := bparent;
        index := index - 1;
      }
      PathUp(c, cursor.path[..], index);
      InsertStop(m, s, c);
    }

    /** The climb of a removal, tree.c:434-459, from `balance0`, the root of `s0`. */
    method ClimbRemove(cursor: TreeReference, balance0: TreeNode, ghost toRoot: bool,
                       ghost m0: Store, ghost s0: Shape, ghost c0: Ctx, ghost h0: int)
      returns (ghost m: Store)
      requires Stores(m0) && At(m0, c0, s0) && s0.Bin? && balance0 == s0.node && root == Above(c0, balance0)
      requires Lowered(toRoot, s0, c0, h0) && PathIs(c0, cursor.path[..], cursor.depth - 1)
      modifies this`root, m0.Keys, cursor`depth
      ensures Stores(m) && m.Keys == m0.Keys && Rep(m, RemoveClimb(s0, c0), null, null)
      ensures root == Root(RemoveClimb(s0, c0), null)
    {
      hide *;
      m := m0;
      var balance := balance0;
      ghost var s, c, h := s0, c0, h0;
      PathUp(c, cursor.path[..], cursor.depth - 1);
      while true
        invariant Stores(m) && m.Keys == m0.Keys && At(m, c, s) && s.Bin? && balance == s.node
        invariant root == Above(c, balance) && Lowered(toRoot, s, c, h)
        invariant 0 < cursor.depth <= cursor.path.Length && PathIs(c, cursor.path[..], cursor.depth - 1)
        invariant RemoveClimb(s, c) == RemoveClimb(s0, c0)
        decreases c
      {
        ghost var up := RemoveUp(s, c);
        PathUp(c, cursor.path[..], cursor.depth - 1);
        RemoveStep(toRoot, m, s, c, h);
        cursor.depth := cursor.depth - 1;
        var bparent := cursor.path[cursor.depth];
        var isleft;
        balance, isleft := FixNode(balance, bparent, m);
        m := FixedStore(m, s.node, bparent, isleft);

        if balance.balance != 0 || bparent == null {
          return;
        }

        BumpParent(bparent, isleft, 1, m);
        m := m[bparent := m[bparent].(balance := up.bal)];
        s, c, h := up, c.up, 1 + Max(h, Height(c.sib));
        balance := bparent;
        PathUp(c, cursor.path[..], cursor.depth - 1);
      }
    }

    /** tree.c:356-373: the neighbour below `node` is threaded past it. */
    method UnthreadNode(node: TreeNode, ghost m: Store, ghost c: Ctx, ghost s: Shape)
      requires Stores(m) && At(m, c, s) && s.Bin? && node == s.node && (s.left.Leaf? || s.right.Leaf?)
      modifies m.Keys
      ensures Stores(Unthread(m, s, Lo(c), Hi(c)))
    {
      hide Wf, Nodes, CtxWf, CtxNodes, RepCtx, Leftmost, Rightmost, Lo, Hi;
      UnthreadRep(m, s, Lo(c), Hi(c));
      if node.leftChild {
        var tmp := PreviousNode(node, m, s.left, Lo(c));
        SetRight(tmp, node.right, m);
      } else if node.rightChild {
        var tmp, read := NextNode(node, m, s.right, Hi(c));
        SetLeft(tmp, node.left, m);
      }
    }

    /** tree.c:345-382: the parent's slot is filled with what is left below `node`. */
    method RefillParent(node: TreeNode, parent: TreeNode?, isleft: bool, ghost m: Store,
                        ghost x: Shape, ghost thread: TreeNode?)
      requires Stores(m) && node in m && !(m[node].leftChild && m[node].rightChild)
      requires x.Bin? == (m[node].leftChild || m[node].rightChild)
      requires m[node].leftChild ==> x.Bin? && m[node].left == x.node
      requires m[node].rightChild ==> x.Bin? && m[node].right == x.node
      requires parent != null ==> parent in m && parent != node && (if isleft then m[parent].leftChild else m[parent].rightChild)
      requires parent != null && x.Leaf? ==> thread == (if isleft then m[node].left else m[node].right)
      modifies this`root, m.Keys
      ensures parent == null ==> Stores(m) && root == Root(x, null)
      ensures parent != null ==> Stores(Refill(m, parent, isleft, x.Bin?, Root(x, thread))) && root == old(root)
    {
      hide Rep, Wf, Nodes;
      if !node.leftChild && !node.rightChild {
        if parent == null {
          root := null;
        } else if isleft {
          parent.leftChild := false;
          parent.left := node.left;
          parent.balance := parent.balance + 1;
        } else {
          parent.rightChild := false;
          parent.right := node.right;
          parent.balance := parent.balance - 1;
        }
      } else {
        var child := if node.leftChild then node.left else node.right;
        if parent == null {
          root := child;
        } else if isleft {
          parent.left := child;
          parent.balance := parent.balance + 1;
        } else {
          parent.right := child;
          parent.balance := parent.balance - 1;
        }
      }
    }

    /** tree.c:385-399: walks to the in-order successor of `node` and leaves its
        ancestors, with the successor in the place of `node`, on the path. */
    method FindSuccessor(cursor: TreeReference, node: TreeNode, ghost m: Store, ghost c: Ctx, ghost s: Shape)
      returns (next: TreeNode, nextp: TreeNode)
      requires Stores(m) && At(m, c, s) && s.Bin? && s.left.Bin? && s.right.Bin? && node == s.node
      requires cursor.path.Length == PATH_LENGTH && PathIs(c, cursor.path[..], cursor.depth)
      requires Depth(c) + Height(s) <= MAX_HEIGHT
      modifies cursor`depth, cursor.path
      ensures next == Leftmost(s.right).node && nextp == NextParent(s)
      ensures PathIs(LeftmostCtx(s.right, SuccessorFrame(c, s)), cursor.path[..], cursor.depth)
    {
      hide Rep, RepCtx, Wf, CtxWf, Nodes, CtxNodes, Height, Depth, PathIs, At, Leftmost, LeftmostCtx, LeftParent;
      ghost var x := Leftmost(s.right).node;
      ghost var t, b, hi := s.right, SuccessorFrame(c, s), Hi(c);
      SpineStart(m, c, s, cursor.path[..], cursor.depth);
      next := node.right;
      nextp := node;
      var depth := cursor.depth + 1;
      cursor.depth := cursor.depth + 1;
      while next.leftChild
        invariant 0 < depth <= cursor.depth < cursor.path.Length == 40
        invariant t.Bin? && next == t.node && next in m && m[next].leftChild == t.left.Bin? && Rep(m, t, node, hi)
        invariant LeftmostCtx(t, b) == LeftmostCtx(s.right, SuccessorFrame(c, s)) && Leftmost(t) == Leftmost(s.right)
        invariant PathIs(b, cursor.path[..][depth := x], cursor.depth) && cursor.depth + Height(t) <= 37
        invariant b.Frame? && if t == s.right then nextp == node else s.right.left.Bin? && nextp == b.node
        decreases t
      {
        SpineDown(m, t, b, node, hi, cursor.path[..][depth := x], cursor.depth);
        cursor.depth := cursor.depth + 1;
        ghost var path := cursor.path[..];
        cursor.path[cursor.depth] := next;
        assert cursor.path[..][depth := x] == path[depth := x][cursor.depth := next];
        nextp := next;
        next := next.left;
        t, b, hi := t.left, Frame(b, true, t.node, t.item, t.bal, t.right), t.node;
        SpineHead(m, t, node, hi);
      }
      SpineEnd(t, b, s, c);
      ghost var path := cursor.path[..];
      cursor.path[depth] := next;
      assert cursor.path[..] == path[depth := x];
    }

    /** tree.c:402-412 */
    method DetachNext(node: TreeNode, next: TreeNode, nextp: TreeNode, ghost m: Store)
      requires Stores(m) && node in m && next in m && nextp in m && next != nextp
      modifies m.Keys
      ensures Stores(Detach(m, node, next, nextp))
    {
      if nextp != node {
        hide Stores;
        CellOf(m, node);
        CellOf(m, next);
        CellOf(m, nextp);
        LeaveParent(next, nextp, m);
        ghost var p := m[nextp];
        ghost var c := (if m[next].rightChild then p.(left := m[next].right) else p.(leftChild := false));
        ghost var m1 := m[nextp := c.(balance := p.balance + 1)];
        CellOf(m1, node);
        TakeRight(node, next, m1);
      } else {
        node.balance := node.balance - 1;
      }
    }

    lemma CellOf(m: Store, n: TreeNode)
      requires Stores(m) && n in m
      ensures m[n].rightChild == n.rightChild && m[n].right == n.right && m[n].left == n.left
    {
    }

    method LeaveParent(next: TreeNode, nextp: TreeNode, ghost m: Store)
      requires Stores(m) && next in m && nextp in m && next != nextp
      modifies nextp
      ensures var p := m[nextp];
              var c := (if m[next].rightChild then p.(left := m[next].right) else p.(leftChild := false));
              Stores(m[nextp := c.(balance := p.balance + 1)])
    {
      if next.rightChild {
        nextp.left := next.right;
      } else {
        nextp.leftChild := false;
      }
      nextp.balance := nextp.balance + 1;
    }

    method TakeRight(node: TreeNode, next: TreeNode, ghost m: Store)
      requires Stores(m) && node in m && next in m
      modifies next
      ensures Stores(m[next := m[next].(rightChild := true, right := m[node].right)])
    {
      next.rightChild := true;
      next.right := node.right;
    }

    /** tree.c:417-422; `prev` is the last node of the left subtree of `node`. */
    method AdoptNext(node: TreeNode, next: TreeNode, prev: TreeNode, ghost m: Store)
      requires Stores(m) && node in m && next in m && prev in m && next != prev && node != prev && next != node
      modifies m.Keys
      ensures Stores(Adopt(m, node, next, prev))
    {
      prev.right := next;
      next.leftChild := true;
      next.left := node.left;
      next.balance := node.balance;
    }

    /** tree.c:385-429: the successor of `node` takes its place. */
    method SpliceNode(cursor: TreeReference, node: TreeNode, parent: TreeNode?, isleft: bool,
                      ghost m: Store, ghost c: Ctx, ghost s: Shape)
      requires Stores(m) && At(m, c, s) && s.Bin? && s.left.Bin? && s.right.Bin? && node == s.node
      requires parent == Parent(c) && isleft == OnLeft(c)
      requires cursor.path.Length == PATH_LENGTH && PathIs(c, cursor.path[..], cursor.depth)
      requires Depth(c) + Height(s) <= MAX_HEIGHT
      modifies this`root, m.Keys, cursor`depth, cursor.path
      ensures Stores(Spliced(m, c, s)) && root == if parent == null then Leftmost(s.right).node else old(root)
      ensures PathIs(LeftmostCtx(s.right, SuccessorFrame(c, s)), cursor.path[..], cursor.depth)
    {
      hide *;
      SpliceOperands(m, c, s);
      var next, nextp := FindSuccessor(cursor, node, m, c, s);
      var prev := PreviousNode(node, m, s.left, Lo(c));
      DetachNext(node, next, nextp, m);
      AdoptNext(node, next, prev, Detach(m, node, next, nextp));
      HangNode(parent, isleft, next, Adopt(Detach(m, node, next, nextp), node, next, prev));
    }

    /** tree.c:341 */
    method IsLeft(node: TreeNode, parent: TreeNode?, ghost m: Store) returns (isleft: bool)
      requires Stores(m) && (parent != null ==> parent in m)
      ensures isleft == (parent != null && m[parent].left == node)
    {
      isleft := parent != null && node == parent.left;
    }

    /** tree.c:343-431, up to the climb; `x` fills the hole of `d` afterwards. */
    method TakeOut(cursor: TreeReference, node: TreeNode, parent: TreeNode?, ghost toRoot: bool,
                   ghost c: Ctx, ghost s: Shape)
      returns (ghost m: Store, ghost d: Ctx, ghost x: Shape, ghost h: int)
      requires Valid(toRoot) && Plug(c, s) == shape && s.Bin? && node == s.node && parent == Parent(c)
      requires cursor.path.Length == PATH_LENGTH && PathIs(c, cursor.path[..], cursor.depth)
      modifies this`root, store.Keys, cursor`depth, cursor.path
      ensures Stores(m) && m.Keys == store.Keys && PathIs(d, cursor.path[..], cursor.depth)
      ensures d.Top? ==> Rep(m, RemoveRoot(s, c), null, null) && root == Root(RemoveRoot(s, c), null)
      ensures d.Frame? ==> ReadyToClimb(toRoot, m, d, x, h, RemoveRoot(s, c)) && root == Above(d.up, d.node)
    {
      hide *;
      ValidFacts(toRoot);
      NodeFields(c, s);
      ParentFacts(store, c, s);
      PlugHeightBound(c, s, s);
      assert root == Above(c, node);
      var isleft := IsLeft(node, parent, store);
      if !node.leftChild || !node.rightChild {
        UnlinkReady(toRoot, store, c, s);
        UnlinkOperands(store, c, s);
        m, d, x, h := Unthread(store, s, Lo(c), Hi(c)), c, Remaining(s), UpHeight(c, Height(s));
        UnthreadNode(node, store, c, s);
        RefillParent(node, parent, isleft, m, x, if isleft then Lo(c) else Hi(c));
        if parent != null {
          m := Refill(m, parent, isleft, x.Bin?, Root(x, if isleft then Lo(c) else Hi(c)));
        }
      } else {
        SpliceReady(toRoot, store, c, s);
        ghost var next := Leftmost(s.right);
        d, x := LeftmostCtx(s.right, SuccessorFrame(c, s)), next.right;
        m, h := Spliced(store, c, s), UpHeight(d, Height(next));
        SpliceAbove(c, s);
        SpliceNode(cursor, node, parent, isleft, store, c, s);
      }
    }

    /** tree.c:343-459: the node is out of the tree, which is rebalanced. */
    method Unlink(cursor: TreeReference, node: TreeNode, parent: TreeNode?, ghost toRoot: bool,
                  ghost c: Ctx, ghost s: Shape)
      returns (ghost m: Store)
      requires Valid(toRoot) && Plug(c, s) == shape && s.Bin? && node == s.node && parent == Parent(c)
      requires cursor.path.Length == PATH_LENGTH && PathIs(c, cursor.path[..], cursor.depth)
      modifies this`root, store.Keys, cursor`depth, cursor.path
      ensures Stores(m) && m.Keys == store.Keys
      ensures Rep(m, RemoveRoot(s, c), null, null) && root == Root(RemoveRoot(s, c), null)
    {
      hide *;
      ghost var d, x, h;
      m, d, x, h := TakeOut(cursor, node, parent, toRoot, c, s);
      PathUp(d, cursor.path[..], cursor.depth);
      var balance := cursor.path[cursor.depth];
      if balance != null {
        ReadyFacts(toRoot, m, d, x, h, RemoveRoot(s, c));
        m := ClimbRemove(cursor, balance, toRoot, m, ShrunkStart(x, d), d.up, h);
      }
    }

    /** tree.c:330-463; the cursor's path leads to the root of `s`. */
    method RemoveNode(cursor: TreeReference, ghost toRoot: bool, ghost c: Ctx, ghost s: Shape)
      returns (ghost a: seq<Item>, ghost b: seq<Item>)
      requires Valid(toRoot) && cursor.tree == this && Plug(c, s) == shape && s.Bin?
      requires cursor.path.Length == PATH_LENGTH && 0 < cursor.depth < PATH_LENGTH
      requires PathIs(c, cursor.path[..], cursor.depth - 1) && cursor.path[cursor.depth] == s.node
      modifies this`root, this`count, this`shape, this`store, store.Keys, cursor`depth, cursor.path
      ensures Sound() && store.Keys == old(store.Keys) - {s.node}
      ensures Valid(toRoot) <==> toRoot || !Spoils(HoleOf(s, c))
      ensures Removed(toRoot, s, c, shape)
      ensures old(Items(shape)) == a + [s.item] + b && Items(shape) == a + b
    {
      hide *;
      ValidFacts(toRoot);
      a, b := RemoveFacts(toRoot, compare, c, s);
      var node := cursor.path[cursor.depth];
      cursor.depth := cursor.depth - 1;
      PathUp(c, cursor.path[..], cursor.depth);
      var parent := cursor.path[cursor.depth];
      ghost var m := Unlink(cursor, node, parent, toRoot, c, s);
      count := count - 1;
      FreeNode(m, RemoveRoot(s, c), node);
      store, shape := map n | n in m && n != node :: m[n], RemoveRoot(s, c);
      MakeSound(toRoot);
      RemovedFacts(toRoot, s, c, shape);
    }

    // ----- the public operations

    /** The search for `item` has come to the hole of `c`, which `s` fills. */
    ghost predicate Looking(item: Item, c: Ctx, s: Shape)
      reads this, store.Keys
    {
      && Sound() && shape.Bin? && Plug(c, s) == shape && s.Bin? && Between(compare, Before(c), item, After(c))
      && Depth(c) + Height(s) <= MAX_HEIGHT && Search(compare, item, c, s) == Search(compare, item, Top, shape)
    }

    /** The path of the cursor, if there is one, leads to that hole. */
    ghost predicate Follows(cursor: TreeReference?, c: Ctx)
      reads if cursor == null then {} else {cursor, cursor.path}
    {
      cursor != null ==>
        && cursor.tree == this && cursor.maxdepth == 40 && cursor.path.Length == PATH_LENGTH
        && cursor.depth == Depth(c) + 1 && PathIs(c, cursor.path[..], cursor.depth - 1)
    }

    lemma LookStep(item: Item, c: Ctx, s: Shape)
      requires Looking(item, c, s)
      ensures s.Bin? && s.node in store && s.node.item == s.item && Depth(c) + 1 <= 37
      ensures s.node.leftChild == s.left.Bin? && s.node.rightChild == s.right.Bin?
      ensures compare(item, s.item) < 0 && s.left.Bin? ==>
                && s.node.left == s.left.node
                && Looking(item, Frame(c, true, s.node, s.item, s.bal, s.right), s.left)
      ensures compare(item, s.item) > 0 && s.right.Bin? ==>
                && s.node.right == s.right.node
                && Looking(item, Frame(c, false, s.node, s.item, s.bal, s.left), s.right)
    {
      hide Between, TotalPreorder, Sorted, Items, Before, After, Search, Exact, Wf, Nodes, Rep, Plug;
      NodeFields(c, s);
      DescendItems(compare, item, c, s);
      SearchStep(compare, item, c, s);
    }

    lemma LookMiss(item: Item, c: Ctx, s: Shape) returns (a: seq<Item>, b: seq<Item>)
      requires Looking(item, c, s) && s.Bin?
      requires (s.left.Leaf? && compare(item, s.item) < 0) || (s.right.Leaf? && compare(item, s.item) > 0)
      ensures Items(shape) == a + b && Between(compare, a, item, b)
    {
      a, b := MissItems(compare, c, s, item);
    }

    lemma LookHit(item: Item, c: Ctx, s: Shape)
      requires Looking(item, c, s) && s.Bin? && compare(item, s.item) == 0
      ensures Plug(c, s) == shape && shape.Bin? && (c, s) == Search(compare, item, Top, shape)
    {
      SearchStep(compare, item, c, s);
    }

    /** tree.c:303-304 and 313-314, without the sibling indices. */
    method Descend(cursor: TreeReference?, node: TreeNode, ghost onLeft: bool, ghost c: Ctx, ghost s: Shape)
      requires s.Bin? && node == s.node && Follows(cursor, c) && Depth(c) + 1 <= 37
      modifies if cursor == null then {} else {cursor, cursor.path}
      ensures Follows(cursor, Frame(c, onLeft, s.node, s.item, s.bal, if onLeft then s.right else s.left))
    {
      hide PathIs;
      if cursor != null {
        ghost var path := cursor.path[..];
        PathPush(c, path, cursor.depth - 1, onLeft, s, if onLeft then s.right else s.left);
        cursor.path[cursor.depth] := node;
        assert cursor.path[..] == path[cursor.depth := node];
        cursor.depth := cursor.depth + 1;
      }
    }

    /** tree.c:288-294 */
    method StartCursor(cursor: TreeReference?)
      requires cursor != null ==> cursor.path.Length == PATH_LENGTH
      modifies if cursor == null then {} else {cursor, cursor.path}
      ensures Follows(cursor, Top)
    {
      if cursor != null {
        cursor.tree := this;
        cursor.depth := 0;
        cursor.maxdepth := 40;
        cursor.path[cursor.depth] := null;
        cursor.depth := cursor.depth + 1;
      }
    }

    /** tree.c:320-322 */
    method SetHit(cursor: TreeReference?, node: TreeNode, ghost c: Ctx)
      requires Follows(cursor, c) && Depth(c) + 1 <= 37
      modifies if cursor == null then {} else {cursor.path}
      ensures cursor != null ==>
                && cursor.tree == this && 0 < cursor.depth < PATH_LENGTH && cursor.path.Length == PATH_LENGTH
                && PathIs(c, cursor.path[..], cursor.depth - 1) && cursor.path[cursor.depth] == node
    {
      hide PathIs;
      if cursor != null {
        ghost var path := cursor.path[..];
        cursor.path[cursor.depth] := node;
        assert cursor.path[..] == path[cursor.depth := node];
        PathSame(c, path, cursor.path[..], cursor.depth - 1);
      }
    }

    /** tree.c:282-328.  With a cursor, its path leads to the item found; the length
        check never fires. */
    method LookupNode(item: Item, cursor: TreeReference?)
      returns (result: Item, hit: bool, ghost c: Ctx, ghost s: Shape, ghost a: seq<Item>, ghost b: seq<Item>)
      requires Sound() && (cursor != null ==> cursor.path.Length == PATH_LENGTH)
      modifies if cursor == null then {} else {cursor, cursor.path}
      ensures hit ==>
              && Plug(c, s) == shape && s.Bin? && compare(item, s.item) == 0 && result == s.item
              && shape.Bin? && (c, s) == Search(compare, item, Top, shape)
              && (cursor != null ==>
                    && cursor.tree == this && 0 < cursor.depth < PATH_LENGTH && cursor.path.Length == PATH_LENGTH
                    && PathIs(c, cursor.path[..], cursor.depth - 1) && cursor.path[cursor.depth] == s.node)
      ensures !hit ==> result == NULL && Items(shape) == a + b && Between(compare, a, item, b)
    {
      hide *;
      hit, result, a, b := false, NULL, [], [];
      c, s := Top, shape;
      LookupStart(item);
      var node := root;
      StartCursor(cursor);
      if node == null {
        return;
      }
      while true
        invariant Looking(item, c, s) && s.Bin? && node == s.node && Follows(cursor, c)
        decreases s
      {
        LookStep(item, c, s);
        var cmp := compare(item, node.item);
        if cmp < 0 {
          if !node.leftChild {
            a, b := LookMiss(item, c, s);
            return;
          }
          Descend(cursor, node, true, c, s);
          node := node.left;
          c, s := Frame(c, true, s.node, s.item, s.bal, s.right), s.left;
        } else if cmp > 0 {
          if !node.rightChild {
            a, b := LookMiss(item, c, s);
            return;
          }
          Descend(cursor, node, false, c, s);
          node := node.right;
          c, s := Frame(c, false, s.node, s.item, s.bal, s.left), s.right;
        } else {
          LookHit(item, c, s);
          SetHit(cursor, node, c);
          hit, result := true, node.item;
          return;
        }
        LookDepth(item, cursor, c, s);
        assert cursor != null ==> cursor.depth < cursor.maxdepth;
      }
    }

    lemma LookDepth(item: Item, cursor: TreeReference?, c: Ctx, s: Shape)
      requires Looking(item, c, s) && Follows(cursor, c)
      ensures cursor != null ==> cursor.depth < cursor.maxdepth
    {
    }

    lemma LookupStart(item: Item)
      requires Sound()
      ensures shape.Bin? ==> root == shape.node && Looking(item, Top, shape)
      ensures shape.Leaf? ==> root == null && Items(shape) == [] + [] && Between(compare, [], item, [])
    {
    }

    /** The item of a hole that a search has found is the one the list has. */
    lemma FoundInList(c: Ctx, s: Shape, item: Item)
      requires TotalPreorder(compare) && Denotes() && Plug(c, s) == shape && s.Bin? && compare(item, s.item) == 0
      ensures var i := IndexOf(compare, list, item); i < |list| && list[i] == s.item
    {
      ItemsAroundRoot(s, c);
      FindSame(compare, Before(c) + Items(s.left), s.item, Items(s.right) + After(c), list, item);
    }

    lemma Crowded(toRoot: bool)
      requires Valid(toRoot) && Denotes() && Height(shape) >= MAX_HEIGHT
      ensures |list| >= if toRoot then 63245985 else 39088169
    {
      TallTree(shape, toRoot);
      ItemsSize(shape);
      RefinesSize(compare, Items(shape), list);
    }

    /** tree.c:541-545 */
    method TreeSize() returns (size: nat)
      requires Sound() && Denotes()
      ensures size == |list|
    {
      ItemsSize(shape);
      RefinesSize(compare, Items(shape), list);
      size := count;
    }

    lemma DenotesFacts()
      requires Denotes()
      ensures Refines(compare, Items(shape), list)
    {
    }

    lemma MakeDenotes()
      requires Refines(compare, Items(shape), list)
      ensures Denotes()
    {
    }

    /** `PlaceNode`, and what it means for the list. */
    method Place(toRoot: bool, item: Item, ref: TreeReference)
      returns (placed: int, aborted: bool, ghost c: Ctx, ghost s: Shape, ghost child: TreeNode)
      requires Valid(toRoot) && Denotes() && ref.Initialised()
      modifies this, store.Keys, ref`depth, ref.path
      ensures Valid(toRoot) && Denotes() && fresh(store.Keys - old(store.Keys))
      ensures aborted ==> shape == old(shape) && list == old(list) && |list| >= if toRoot then 63245985 else 39088169
      ensures !aborted ==> shape == Placed(toRoot, compare, old(shape), item, child)
      ensures !aborted && old(Avl(shape)) ==> (Avl(shape) <==> toRoot || !Topples(compare, old(shape), item))
      ensures !aborted && placed != 0 ==>
              placed == 1 && list == old(list) + [item] && IndexOf(compare, old(list), item) == |old(list)|
      ensures !aborted && placed == 0 ==>
              && list == old(list) && Leads(ref.depth, ref.path[..], c, s, shape) && compare(item, s.item) == 0
              && s.node in store && s.node.item == s.item
              && var i := IndexOf(compare, list, item); i < |list| && list[i] == s.item
    {
      hide *;
      ValidFacts(toRoot);
      DenotesFacts();
      ghost var a, b;
      ghost var t := shape;
      placed, aborted, c, s, a, b, child := PlaceNode(toRoot, item, ref);
      Toppling(toRoot, compare, t, item, child);
      if aborted {
        MakeDenotes();
        Crowded(toRoot);
      } else if placed == 0 {
        MakeDenotes();
        FoundInList(c, s, item);
        ValidFacts(toRoot);
        NodeFields(c, s);
        MakeLeads(ref.depth, ref.path[..], c, s, shape);
      } else {
        Append(toRoot, item, a, b);
      }
    }

    /** The list gets the item that the tree has got. */
    ghost method Append(toRoot: bool, item: Item, a: seq<Item>, b: seq<Item>)
      requires Valid(toRoot) && Refines(compare, a + b, list)
      requires Items(shape) == a + [item] + b && Between(compare, a, item, b)
      modifies this`list
      ensures Valid(toRoot) && Denotes() && list == old(list) + [item]
      ensures IndexOf(compare, old(list), item) == |old(list)|
    {
      hide *;
      ValidFacts(toRoot);
      InsertedStep(compare, a, b, list, item);
      list := list + [item];
      MakeValid(toRoot);
      MakeDenotes();
    }

    /** tree.c:601-607 */
    method TreeInsert(toRoot: bool, item: Item) returns (result: int, aborted: bool, ghost child: TreeNode)
      requires Valid(toRoot) && Denotes()
      modifies this, store.Keys
      ensures Valid(toRoot) && Denotes() && fresh(store.Keys - old(store.Keys))
      ensures aborted ==> shape == old(shape) && list == old(list) && |list| >= if toRoot then 63245985 else 39088169
      ensures !aborted ==> (list, result) == RefStep(compare, old(list), Insert(item))
      ensures !aborted ==> result == if exists y :: y in old(list) && compare(item, y) == 0 then 0 else 1
      ensures !aborted ==> list == if result == 0 then old(list) else old(list) + [item]
      ensures !aborted ==> shape == Placed(toRoot, compare, old(shape), item, child)
      ensures !aborted && old(Avl(shape)) ==> (Avl(shape) <==> toRoot || !Topples(compare, old(shape), item))
    {
      hide Valid, Denotes, IndexOf, Leads, Placed, Topples, Avl;
      var ref := new TreeReference();
      ref.tree := this;
      ghost var c, s;
      result, aborted, c, s, child := Place(toRoot, item, ref);
      FoundAnswers(compare, old(list), item);
    }

    /** tree.c:609-619.  When the item was there, the cursor leads to it. */
    method TreeInsertRef(toRoot: bool, item: Item, ref: TreeReference)
      returns (result: Item, aborted: bool, ghost c: Ctx, ghost s: Shape)
      requires Valid(toRoot) && Denotes() && ref.Initialised()
      modifies this, store.Keys, ref, ref.path
      ensures Valid(toRoot) && Denotes() && fresh(store.Keys - old(store.Keys)) && ref.tree == this
      ensures aborted ==> shape == old(shape) && list == old(list) && |list| >= if toRoot then 63245985 else 39088169
      ensures !aborted ==> (list, result) == RefStep(compare, old(list), InsertRef(item))
      ensures !aborted && (exists y :: y in old(list) && compare(item, y) == 0) ==>
                result in old(list) && compare(item, result) == 0 && list == old(list)
      ensures !aborted && !(exists y :: y in old(list) && compare(item, y) == 0) ==>
                result == NULL && list == old(list) + [item]
      ensures !aborted && old(Avl(shape)) ==> (Avl(shape) <==> toRoot || !Topples(compare, old(shape), item))
      ensures !aborted && list == old(list) ==>
              Leads(ref.depth, ref.path[..], c, s, shape) && compare(item, s.item) == 0
    {
      hide Valid, Denotes, IndexOf, Placed, Topples, Avl;
      ref.tree := this;
      var existing;
      result := NULL;
      ghost var child;
      existing, aborted, c, s, child := Place(toRoot, item, ref);
      FoundAnswers(compare, old(list), item);
      if !aborted && existing == 0 {
        result := ref.path[ref.depth].item;
      }
    }

    /** tree.c:587-599 */
    method TreeReplace(toRoot: bool, item: Item) returns (existing: Item, aborted: bool)
      requires Valid(toRoot) && Denotes()
      modifies this, store.Keys
      ensures Valid(toRoot) && Denotes() && fresh(store.Keys - old(store.Keys))
      ensures aborted ==> shape == old(shape) && list == old(list) && |list| >= if toRoot then 63245985 else 39088169
      ensures !aborted ==> (list, existing) == RefStep(compare, old(list), Replace(item))
      ensures !aborted && (exists y :: y in old(list) && compare(item, y) == 0) ==>
                && compare(item, existing) == 0
                && exists i :: 0 <= i < |old(list)| && old(list)[i] == existing && list == old(list)[i := item]
      ensures !aborted && !(exists y :: y in old(list) && compare(item, y) == 0) ==>
                existing == NULL && list == old(list) + [item]
      ensures !aborted && old(Avl(shape)) ==> (Avl(shape) <==> toRoot || !Topples(compare, old(shape), item))
    {
      hide Valid, Denotes, IndexOf, Placed, Topples, Avl;
      var ref := new TreeReference();
      ref.tree := this;
      existing := NULL;
      var placed;
      ghost var c, s, child;
      placed, aborted, c, s, child := Place(toRoot, item, ref);
      FoundAnswers(compare, old(list), item);
      if !aborted && placed == 0 {
        existing := SetItem(toRoot, ref.path[ref.depth], item, c, s);
      }
    }

    method PutItem(node: TreeNode, item: Item, ghost m: Store) returns (previous: Item)
      requires Stores(m) && node in m
      modifies node`item
      ensures Stores(m[node := m[node].(item := item)]) && previous == m[node].item
    {
      previous := node.item;
      node.item := item;
    }

    /** tree.c:594-595 and 726-727 */
    method SetItem(toRoot: bool, node: TreeNode, item: Item, ghost c: Ctx, ghost s: Shape) returns (previous: Item)
      requires Valid(toRoot) && Denotes() && Plug(c, s) == shape && s.Bin? && node == s.node && compare(item, s.item) == 0
      modifies this`shape, this`store, this`list, node
      ensures Valid(toRoot) && Denotes() && store.Keys == old(store.Keys) && (Avl(shape) <==> old(Avl(shape)))
      ensures (list, previous) == RefStep(compare, old(list), Replace(item))
      ensures previous == s.item
      ensures exists i :: 0 <= i < |old(list)| && old(list)[i] == previous && list == old(list)[i := item]
    {
      hide *;
      ValidFacts(toRoot);
      DenotesFacts();
      NodeFields(c, s);
      ghost var a, b := ReplaceItem(store, c, s, item);
      SameAvl(toRoot, shape, Plug(c, s.(item := item)));
      ReplacedStep(compare, a, s.item, b, list, item);
      ReplacedSorted(compare, a, s.item, b, list, item);
      StoredItem(store, c, s);
      FoundAnswers(compare, list, item);
      previous := PutItem(node, item, store);
      store := store[node := store[node].(item := item)];
      shape := Plug(c, s.(item := item));
      list := list[IndexOf(compare, list, item) := item];
      MakeValid(toRoot);
      MakeDenotes();
    }

    lemma SameAvl(toRoot: bool, t: Shape, u: Shape)
      requires Balanced(t, toRoot) && Balanced(u, toRoot) && Balanced(t, true) == Balanced(u, true)
      ensures Avl(t) <==> Avl(u)
    {
    }

    // ----- removing and looking up

    lemma SoundFacts()
      requires Sound()
      ensures PATH_LENGTH == 40 && Linked() && TotalPreorder(compare) && Sorted(compare, Items(shape))
    {
    }

    /** tree.c:713-720; the cursor leads to an item equivalent to `item`.  Without
        `toRoot` the tree is one that insertion as written has left. */
    method CursorRemove(ref: TreeReference, ghost toRoot: bool, ghost item: Item, ghost c: Ctx, ghost s: Shape)
      returns (previous: Item)
      requires Valid(toRoot) && Denotes() && ref.tree == this && ref.path.Length == PATH_LENGTH
      requires Leads(ref.depth, ref.path[..], c, s, shape) && compare(item, s.item) == 0
      modifies this, store.Keys, ref`depth, ref.path
      ensures Sound() && Denotes() && store.Keys <= old(store.Keys)
      ensures Valid(toRoot) <==> toRoot || !Spoils(HoleOf(s, c))
      ensures (old(Avl(shape)) ==> Avl(shape)) && (!Valid(toRoot) ==> ChildOff(shape))
      ensures var i := IndexOf(compare, old(list), item);
              i < |old(list)| && previous == old(list)[i] && list == Without(old(list), i)
      ensures previous == s.item && exists i :: 0 <= i < |old(list)| && old(list)[i] == previous &&
                                                list == old(list)[..i] + old(list)[i + 1..]
    {
      hide *;
      ValidFacts(toRoot);
      DenotesFacts();
      LeadsFacts(ref.depth, ref.path[..], c, s, shape);
      NodeFields(c, s);
      previous := ref.path[ref.depth].item;
      ghost var a, b := RemoveNode(ref, toRoot, c, s);
      RemovedStep(compare, a, s.item, b, list, item);
      FoundAnswers(compare, list, item);
      RemovedFacts(toRoot, s, c, shape);
      Shorten(toRoot, item, a, b);
    }

    /** The list loses the item that the tree has lost. */
    ghost method Shorten(toRoot: bool, item: Item, a: seq<Item>, b: seq<Item>)
      requires Sound() && IndexOf(compare, list, item) < |list|
      requires Items(shape) == a + b && Refines(compare, a + b, Without(list, IndexOf(compare, list, item)))
      modifies this`list
      ensures Sound() && Denotes() && list == Without(old(list), IndexOf(compare, old(list), item))
      ensures (Valid(toRoot) <==> old(Valid(toRoot))) && (Valid(toRoot) <==> Balanced(shape, toRoot))
    {
      list := Without(list, IndexOf(compare, list, item));
    }

    /** tree.c:627-631.  A stored NULL item cannot be told from absence. */
    method LookupRef(item: Item, ref: TreeReference)
      returns (result: Item, ghost hit: bool, ghost c: Ctx, ghost s: Shape)
      requires Sound() && Denotes() && ref.path.Length == PATH_LENGTH
      modifies ref, ref.path
      ensures result == RefStep(compare, list, Lookup(item)).1
      ensures hit == (IndexOf(compare, list, item) < |list|) && (!hit ==> result == NULL)
      ensures hit == (exists y :: y in list && compare(item, y) == 0)
      ensures hit ==> result in list && compare(item, result) == 0
      ensures hit ==> ref.tree == this && Leads(ref.depth, ref.path[..], c, s, shape) && compare(item, s.item) == 0
      ensures hit ==> shape.Bin? && (c, s) == Search(compare, item, Top, shape)
    {
      hide *;
      SoundFacts();
      DenotesFacts();
      ghost var a, b;
      result, hit, c, s, a, b := LookupNode(item, ref);
      LookupOutcome(item, result, hit, c, s, a, b);
      if hit {
        MakeLeads(ref.depth, ref.path[..], c, s, shape);
      }
    }

    lemma LookupOutcome(item: Item, result: Item, hit: bool, c: Ctx, s: Shape, a: seq<Item>, b: seq<Item>)
      requires TotalPreorder(compare) && Denotes()
      requires hit ==> Plug(c, s) == shape && s.Bin? && compare(item, s.item) == 0 && result == s.item
      requires !hit ==> result == NULL && Items(shape) == a + b && Between(compare, a, item, b)
      ensures hit == (IndexOf(compare, list, item) < |list|)
      ensures result == RefStep(compare, list, Lookup(item)).1
      ensures RefStep(compare, list, Lookup(item)).0 == list
      ensures hit == (exists y :: y in list && compare(item, y) == 0)
      ensures hit ==> result in list && compare(item, result) == 0
    {
      hide Sorted, Items, TotalPreorder, Plug, Between, IndexOf, Refines;
      FoundAnswers(compare, list, item);
      if hit {
        FoundInList(c, s, item);
      } else {
        FindNone(compare, a, b, list, item);
      }
    }

    /** tree.c:621-625 */
    method TreeLookup(item: Item) returns (result: Item)
      requires Sound() && Denotes()
      ensures (list, result) == RefStep(compare, list, Lookup(item))
      ensures if exists y :: y in list && compare(item, y) == 0
              then result in list && compare(item, result) == 0
              else result == NULL
    {
      hide *;
      SoundFacts();
      ghost var hit, c, s, a, b;
      result, hit, c, s, a, b := LookupNode(item, null);
      LookupOutcome(item, result, hit, c, s, a, b);
    }

    /** tree.c:575-585; also `tree_lookupref` followed by `tree_cursorremove`. */
    method TreeRemove(item: Item, ghost toRoot: bool) returns (removed: Item)
      requires Valid(toRoot) && Denotes()
      modifies this, store.Keys
      ensures Sound() && Denotes() && store.Keys <= old(store.Keys)
      ensures Valid(toRoot) <==> toRoot || removed == NULL || !RemovalSpoils(compare, old(shape), item)
      ensures (old(Avl(shape)) ==> Avl(shape)) && (!Valid(toRoot) ==> ChildOff(shape))
      ensures (list, removed) == RefStep(compare, old(list), Remove(item))
      ensures if exists y :: y in old(list) && compare(item, y) == 0
              then removed in old(list) && compare(item, removed) == 0
              else removed == NULL
      ensures if removed == NULL then list == old(list)
              else exists i :: 0 <= i < |old(list)| && old(list)[i] == removed &&
                               list == old(list)[..i] + old(list)[i + 1..]
    {
      hide Sound, Valid, Denotes, IndexOf, Leads, Without, Spoils, HoleOf, Search, ChildOff, Avl;
      ValidSound(toRoot);
      var ref := new TreeReference();
      ref.tree := this;
      ghost var hit, c, s;
      removed, hit, c, s := LookupRef(item, ref);
      if removed != NULL {
        LeadsFacts(ref.depth, ref.path[..], c, s, shape);
        var previous := CursorRemove(ref, toRoot, item, c, s);
      }
    }

    lemma ValidSound(toRoot: bool)
      requires Valid(toRoot)
      ensures Sound()
    {
    }
  }
}
