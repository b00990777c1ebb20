/** Whole runs of tree operations against the list they stand for. */
module TreeRuns {
  import opened TreeShape
  import opened TreeClimb
  import opened TreeOrder
  import opened TreePath
  import opened TreePlace
  import opened TreeLiteral
  import opened TreeSpoil
  import opened TreeClass

  predicate Adds(op: Op) {
    op.Insert? || op.InsertRef? || op.Replace?
  }

  predicate Removes(op: Op) {
    op.Remove? || op.CursorRemove?
  }

  /** The operation, which has returned `result`, takes an item out and spoils the tree. */
  ghost predicate Harms(cmp: Comparator, t: Shape, op: Op, result: Item) {
    Removes(op) && result != NULL && RemovalSpoils(cmp, t, op.x)
  }

  /** One operation; without `toRoot` it is the code as written. */
  method Step(toRoot: bool, t: Tree, op: Op) returns (result: Item, aborted: bool)
    requires t.Valid(toRoot) && t.Denotes()
    modifies t, t.store.Keys
    ensures t.Sound() && t.Denotes() && fresh(t.store.Keys - old(t.store.Keys))
    ensures aborted ==> t.shape == old(t.shape) && t.list == old(t.list)
    ensures aborted ==> |t.list| >= if toRoot then 63245985 else 39088169
    ensures !aborted ==> (t.list, result) == RefStep(t.compare, old(t.list), op)
    ensures t.Valid(toRoot) <==> toRoot || !Harms(t.compare, old(t.shape), op, result)
    ensures !t.Valid(toRoot) ==> ChildOff(t.shape)
    ensures !aborted && old(Avl(t.shape)) ==>
              (Avl(t.shape) <==> toRoot || !Adds(op) || !Topples(t.compare, old(t.shape), op.x))
  {
    hide *;
    aborted := false;
    OpKinds(op);
    t.ValidSound(toRoot);
    match op
    case Insert(x) =>
      var inserted;
      ghost var child;
      inserted, aborted, child := t.TreeInsert(toRoot, x);
      result := if inserted == 1 then 1 else 0;
      InsertResult(t.compare, old(t.list), x);
      NoHarm(t.compare, old(t.shape), op, result);
      t.ValidSound(toRoot);
    case InsertRef(x) =>
      var ref := new TreeReference();
      ghost var c, s;
      result, aborted, c, s := t.TreeInsertRef(toRoot, x, ref);
      NoHarm(t.compare, old(t.shape), op, result);
      t.ValidSound(toRoot);
    case Replace(x) =>
      result, aborted := t.TreeReplace(toRoot, x);
      NoHarm(t.compare, old(t.shape), op, result);
      t.ValidSound(toRoot);
    case Remove(x) =>
      result := t.TreeRemove(x, toRoot);
      HarmIs(t.compare, old(t.shape), op, result);
    case Lookup(x) =>
      result := t.TreeLookup(x);
      NoHarm(t.compare, old(t.shape), op, result);
    case CursorRemove(x) =>
      result := LookupThenRemove(toRoot, t, x);
      HarmIs(t.compare, old(t.shape), op, result);
  }

  /** tree.c:627-631 and then 713-720. */
  method LookupThenRemove(toRoot: bool, t: Tree, x: Item) returns (result: Item)
    requires t.Valid(toRoot) && t.Denotes()
    modifies t, t.store.Keys
    ensures t.Sound() && t.Denotes() && t.store.Keys <= old(t.store.Keys)
    ensures (t.list, result) == RefStep(t.compare, old(t.list), CursorRemove(x))
    ensures t.Valid(toRoot) <==> toRoot || result == NULL || !RemovalSpoils(t.compare, old(t.shape), x)
    ensures (old(Avl(t.shape)) ==> Avl(t.shape)) && (!t.Valid(toRoot) ==> ChildOff(t.shape))
  {
    hide *;
    t.ValidSound(toRoot);
    var ref := new TreeReference();
    ghost var hit, c, s;
    result, hit, c, s := t.LookupRef(x, ref);
    CursorResult(t.compare, t.list, x);
    if result != NULL {
      LeadsFacts(ref.depth, ref.path[..], c, s, t.shape);
      SpoilsIs(t.compare, t.shape, x, c, s);
      result := t.CursorRemove(ref, toRoot, x, c, s);
    }
  }

  lemma SpoilsIs(cmp: Comparator, t: Shape, x: Item, c: Ctx, s: Shape)
    requires t.Bin? && (c, s) == Search(cmp, x, Top, t) && s.Bin? && cmp(x, s.item) == 0
    ensures RemovalSpoils(cmp, t, x) <==> Spoils(HoleOf(s, c))
  {
  }

  lemma NoHarm(cmp: Comparator, t: Shape, op: Op, result: Item)
    requires !Removes(op)
    ensures !Harms(cmp, t, op, result)
  {
  }

  lemma HarmIs(cmp: Comparator, t: Shape, op: Op, result: Item)
    requires Removes(op)
    ensures Harms(cmp, t, op, result) <==> result != NULL && RemovalSpoils(cmp, t, op.x)
  {
  }

  lemma OpKinds(op: Op)
    ensures Adds(op) <==> op.Insert? || op.InsertRef? || op.Replace?
    ensures Removes(op) <==> op.Remove? || op.CursorRemove?
  {
  }

  lemma InsertResult(cmp: Comparator, s: seq<Item>, x: Item)
    ensures RefStep(cmp, s, Insert(x)).1 == 0 || RefStep(cmp, s, Insert(x)).1 == 1
  {
  }

  lemma CursorResult(cmp: Comparator, s: seq<Item>, x: Item)
    ensures NULL == 0
    ensures var r := RefStep(cmp, s, Lookup(x)).1; var i := IndexOf(cmp, s, x);
            && (r == NULL ==> RefStep(cmp, s, CursorRemove(x)) == (s, NULL))
            && (r != NULL ==> i < |s| && s[i] == r && RefStep(cmp, s, CursorRemove(x)) == (Without(s, i), r))
  {
  }

  /** Any run of operations returns what the unordered list returns and stands
      for it afterwards; the depth test can only end it in an enormous tree. */
  method Run(t: Tree, ops: seq<Op>) returns (results: seq<Item>, aborted: bool)
    requires t.Valid(true) && t.Denotes()
    modifies t, t.store.Keys
    ensures t.Valid(true) && t.Denotes() && fresh(t.store.Keys - old(t.store.Keys))
    ensures !aborted ==> (t.list, results) == RefRun(t.compare, old(t.list), ops)
    ensures aborted ==> |t.list| >= 63245985
  {
    hide RefRun, RefStep, Tree.Sound, Tree.Valid, Tree.Denotes, Avl, Topples, Harms, ChildOff;
    results, aborted := [], false;
    RefRunNone(t.compare, t.list);
    assert ops[..0] == [];
    for i := 0 to |ops|
      invariant t.Valid(true) && t.Denotes() && fresh(t.store.Keys - old(t.store.Keys))
      invariant (t.list, results) == RefRun(t.compare, old(t.list), ops[..i])
    {
      var r;
      r, aborted := Step(true, t, ops[i]);
      if aborted {
        return;
      }
      RefRunSnoc(t.compare, old(t.list), ops[..i], ops[i]);
      assert ops[..i + 1] == ops[..i] + [ops[i]];
      results := results + [r];
    }
    assert ops[..|ops|] == ops;
  }

  lemma RefRunNone(cmp: Comparator, s: seq<Item>)
    ensures RefRun(cmp, s, []) == (s, [])
  {
  }

  /** The stored balances of the root's children tell whether a removal has spoiled the tree. */
  method Spoiled(t: Tree) returns (off: bool)
    requires t.Sound() && (!t.Valid(false) ==> ChildOff(t.shape))
    ensures off <==> !t.Valid(false)
  {
    NotOff(t.shape);
    if t.root == null {
      return false;
    }
    t.NodeFields(Top, t.shape);
    off := false;
    if t.root.leftChild {
      t.NodeFields(Frame(Top, true, t.shape.node, t.shape.item, t.shape.bal, t.shape.right), t.shape.left);
      off := t.root.left.balance < -1 || t.root.left.balance > 1;
    }
    if t.root.rightChild && !off {
      t.NodeFields(Frame(Top, false, t.shape.node, t.shape.item, t.shape.bal, t.shape.left), t.shape.right);
      off := t.root.right.balance < -1 || t.root.right.balance > 1;
    }
  }

  lemma NotOff(t: Shape)
    requires Exact(t)
    ensures Balanced(t, false) ==> !ChildOff(t)
  {
  }

  /** What one operation of the code as written makes of the shape. */
  ghost predicate Passes(cmp: Comparator, op: Op, result: Item, t: Shape, u: Shape) {
    && (Balanced(u, false) <==> !Harms(cmp, t, op, result))
    && (Avl(t) ==> (Avl(u) <==> !(Adds(op) && Topples(cmp, t, op.x))))
  }

  /** The shapes a run of the code as written goes through. */
  ghost predicate PassesAll(cmp: Comparator, ops: seq<Op>, results: seq<Item>, shapes: seq<Shape>) {
    && |results| <= |ops| && |shapes| == |results| + 1
    && forall i :: 0 <= i < |results| ==>
         Balanced(shapes[i], false) && Passes(cmp, ops[i], results[i], shapes[i], shapes[i + 1])
  }

  lemma PassesOne(cmp: Comparator, ops: seq<Op>, t: Shape)
    ensures PassesAll(cmp, ops, [], [t])
  {
  }

  lemma PassesMore(cmp: Comparator, ops: seq<Op>, results: seq<Item>, shapes: seq<Shape>, result: Item, u: Shape)
    requires PassesAll(cmp, ops, results, shapes) && |results| < |ops| && Balanced(shapes[|results|], false)
    requires Passes(cmp, ops[|results|], result, shapes[|results|], u)
    ensures PassesAll(cmp, ops, results + [result], shapes + [u])
  {
    hide Passes, Balanced;
    var more, after := results + [result], shapes + [u];
    forall i | 0 <= i < |more|
      ensures Balanced(after[i], false) && Passes(cmp, ops[i], more[i], after[i], after[i + 1])
    {
      if i < |results| {
        assert after[i] == shapes[i] && after[i + 1] == shapes[i + 1] && more[i] == results[i];
      }
    }
  }

  /** Runs of the code as written, removals included: they return what the list
      returns and keep both subtrees of the root AVL trees up to the first removal that
      spoils the tree, its result included.  Without removals there is none, and the
      depth test does not fire below 39,088,169 items. */
  method RunAsWritten(t: Tree, ops: seq<Op>)
    returns (results: seq<Item>, aborted: bool, stopped: bool, ghost shapes: seq<Shape>)
    requires t.Valid(false) && t.Denotes()
    modifies t, t.store.Keys
    ensures t.Sound() && t.Denotes() && fresh(t.store.Keys - old(t.store.Keys))
    ensures |results| <= |ops| && (t.list, results) == RefRun(t.compare, old(t.list), ops[..|results|])
    ensures aborted ==> |t.list| >= 39088169
    ensures !aborted && !stopped ==> |results| == |ops|
    ensures PassesAll(t.compare, ops, results, shapes)
    ensures shapes[0] == old(t.shape) && shapes[|results|] == t.shape
    ensures !stopped <==> t.Valid(false)
    ensures stopped ==>
              && |results| > 0
              && var i := |results| - 1; Harms(t.compare, shapes[i], ops[i], results[i])
  {
    hide RefRun, RefStep, Tree.Sound, Tree.Denotes, Avl, Topples, PassesAll, Harms, ChildOff, Balanced;
    results, aborted, stopped, shapes := [], false, false, [t.shape];
    RefRunNone(t.compare, t.list);
    PassesOne(t.compare, ops, t.shape);
    assert ops[..0] == [];
    for i := 0 to |ops|
      invariant t.Valid(false) && t.Denotes() && fresh(t.store.Keys - old(t.store.Keys))
      invariant |results| == i && (t.list, results) == RefRun(t.compare, old(t.list), ops[..i])
      invariant PassesAll(t.compare, ops, results, shapes)
      invariant |shapes| == i + 1 && shapes[0] == old(t.shape) && shapes[i] == t.shape
    {
      var r;
      r, aborted := Step(false, t, ops[i]);
      if aborted {
        assert !Harms(t.compare, shapes[i], ops[i], r);
        return;
      }
      PassesMore(t.compare, ops, results, shapes, r, t.shape);
      shapes := shapes + [t.shape];
      RefRunSnoc(t.compare, old(t.list), ops[..i], ops[i]);
      assert ops[..i + 1] == ops[..i] + [ops[i]];
      results := results + [r];
      stopped := Spoiled(t);
      if stopped {
        return;
      }
    }
  }

  /** As long as no insertion topples the tree, the code as written keeps AVL trees,
      and no removal spoils one. */
  lemma {:induction false} NeverOff(cmp: Comparator, ops: seq<Op>, results: seq<Item>, shapes: seq<Shape>, i: nat)
    requires PassesAll(cmp, ops, results, shapes) && Avl(shapes[0]) && i < |shapes|
    requires forall j :: 0 <= j < i && Adds(ops[j]) ==> !Topples(cmp, shapes[j], ops[j].x)
    ensures Avl(shapes[i])
  {
    hide Avl, Topples, Balanced, Harms;
    if i > 0 {
      NeverOff(cmp, ops, results, shapes, i - 1);
      assert Passes(cmp, ops[i - 1], results[i - 1], shapes[i - 1], shapes[i]);
    }
  }

  /** Three ascending items inserted by the code as written into an empty tree: the
      root keeps a balance of two. */
  method ThreeAscending(t: Tree, x1: Item, x2: Item, x3: Item)
    requires t.Valid(false) && t.Denotes() && t.list == []
    requires t.compare(x1, x2) < 0 && t.compare(x2, x3) < 0
    modifies t, t.store.Keys
    ensures t.Valid(false) && t.Denotes() && t.list == [x1, x2, x3]
    ensures t.root != null && t.root.balance == 2 && t.shape.Bin? && t.shape.bal == 2 && !Avl(t.shape)
  {
    hide *;
    EmptyTree(t);
    ghost var cmp, list0 := t.compare, t.list;
    AscendingSteps(cmp, x1, x2, x3);
    ghost var n1, n2, n3;
    var placed, aborted;
    placed, aborted, n1 := t.TreeInsert(false, x1);
    placed, aborted, n2 := t.TreeInsert(false, x2);
    placed, aborted, n3 := t.TreeInsert(false, x3);
    RootBalance(t);
    AscendingShapes(cmp, x1, x2, x3, n1, n2, n3);
  }

  lemma EmptyTree(t: Tree)
    requires t.Valid(false) && t.Denotes() && t.list == []
    ensures t.shape == Leaf && TotalPreorder(t.compare)
  {
    ItemsSize(t.shape);
    RefinesSize(t.compare, Items(t.shape), t.list);
  }

  lemma RootBalance(t: Tree)
    requires t.Valid(false)
    ensures t.shape.Bin? ==> t.root != null && t.root.balance == t.shape.bal
  {
    if t.shape.Bin? {
      t.NodeFields(Top, t.shape);
    }
  }

  lemma AscendingSteps(cmp: Comparator, x1: Item, x2: Item, x3: Item)
    requires TotalPreorder(cmp) && cmp(x1, x2) < 0 && cmp(x2, x3) < 0
    ensures RefStep(cmp, [], Insert(x1)) == ([x1], 1)
    ensures RefStep(cmp, [x1], Insert(x2)) == ([x1, x2], 1)
    ensures RefStep(cmp, [x1, x2], Insert(x3)) == ([x1, x2, x3], 1)
  {
    StrictTransitive(cmp, x1, x2, x3);
    assert [x1] + [x2] == [x1, x2] && [x1, x2] + [x3] == [x1, x2, x3] && [] + [x1] == [x1];
    assert [x1, x2][1..] == [x2] && [x2][1..] == [];
    assert IndexOf(cmp, [x2], x3) == 1;
  }

  lemma AscendingShapes(cmp: Comparator, x1: Item, x2: Item, x3: Item, n1: TreeNode, n2: TreeNode, n3: TreeNode)
    requires TotalPreorder(cmp) && cmp(x1, x2) < 0 && cmp(x2, x3) < 0
    ensures var one := Placed(false, cmp, Leaf, x1, n1);
            var two := Placed(false, cmp, one, x2, n2);
            var three := Placed(false, cmp, two, x3, n3);
            Avl(two) && three.Bin? && three.bal == 2 && !Avl(three)
  {
    var one := Bin(Leaf, n1, x1, 0, Leaf);
    var two := Bin(Leaf, n1, x1, 1, Bin(Leaf, n2, x2, 0, Leaf));
    var three := Bin(Leaf, n1, x1, 2, Bin(Leaf, n2, x2, 1, Bin(Leaf, n3, x3, 0, Leaf)));
    StrictTransitive(cmp, x1, x2, x3);
    assert Placed(false, cmp, one, x2, n2) == two;
    SearchStep(cmp, x3, Top, two);
    var c := Frame(Top, false, n1, x1, 1, Leaf);
    SearchStep(cmp, x3, c, two.right);
    assert InsertClimb(false, Grow(two.right, false, n3, x3), c) == three;
    assert Placed(false, cmp, two, x3, n3) == three;
    assert Height(three.right.right) == 1 && Height(three.right) == 2;
  }

  /** The heights a size allows: one more for the code as written. */
  lemma LiteralHeight(t: Shape, h: nat)
    requires Size(t) + 1 < Fib(h + 3)
    ensures Avl(t) ==> Height(t) <= h
    ensures Balanced(t, false) ==> Height(t) <= h + 1
  {
    hide Fib, Exact, Avl;
    if Avl(t) && Height(t) > h {
      AvlSize(t);
      FibMonotone(h + 3, Height(t) + 2);
    }
    if Balanced(t, false) && Height(t) > h + 1 {
      RootAvlSize(t);
      FibMonotone(h + 3, Height(t) + 1);
    }
  }

  // ----- a removal that spoils the tree

  ghost predicate Ascending(cmp: Comparator, x: seq<Item>) {
    forall i, j :: 0 <= i < j < |x| ==> cmp(x[i], x[j]) < 0 && cmp(x[j], x[i]) > 0
  }

  /** An insertion into a small tree of an item that is not there. */
  method InsertNew(t: Tree, item: Item) returns (ghost child: TreeNode)
    requires t.Valid(false) && t.Denotes() && |t.list| < 39088169 && RefStep(t.compare, t.list, Insert(item)).1 == 1
    modifies t, t.store.Keys
    ensures t.Valid(false) && t.Denotes() && fresh(t.store.Keys - old(t.store.Keys))
    ensures t.list == RefStep(t.compare, old(t.list), Insert(item)).0
    ensures t.shape == Placed(false, t.compare, old(t.shape), item, child)
  {
    hide *;
    var placed, aborted;
    placed, aborted, child := t.TreeInsert(false, item);
  }

  /** The code as written: seven items inserted into an empty tree in the order 2, 1, 5,
      3, 6, 4, 7 leave the root off by two, and when the first in order is removed, an
      inner node is off by two. */
  method RemovalCanSpoil(t: Tree, x: seq<Item>)
    requires t.Valid(false) && t.Denotes() && t.list == []
    requires |x| == 7 && Ascending(t.compare, x) && x[0] != NULL
    modifies t, t.store.Keys
    ensures t.Sound() && t.Denotes() && t.list == [x[1], x[4], x[2], x[5], x[3], x[6]]
    ensures !t.Valid(false) && ChildOff(t.shape)
  {
    hide *;
    EmptyTree(t);
    ghost var cmp := t.compare;
    ghost var n0, n1, n2, n3, n4, n5, n6;
    ComparesSame(cmp, x[0]);
    FirstSteps(cmp, x);
    FifthStep(cmp, x);
    SixthStep(cmp, x);
    SeventhStep(cmp, x);
    RemovalStep(cmp, x);
    n1 := InsertNew(t, x[1]);
    n0 := InsertNew(t, x[0]);
    n4 := InsertNew(t, x[4]);
    n2 := InsertNew(t, x[2]);
    n5 := InsertNew(t, x[5]);
    n3 := InsertNew(t, x[3]);
    n6 := InsertNew(t, x[6]);
    SevenShapes(cmp, x, [n0, n1, n2, n3, n4, n5, n6]);
    var removed := t.TreeRemove(x[0], false);
  }

  lemma ComparesSame(cmp: Comparator, x: Item)
    requires TotalPreorder(cmp)
    ensures cmp(x, x) == 0
  {
  }

  lemma {:induction false} NotIn(cmp: Comparator, s: seq<Item>, x: Item, t: seq<Item>)
    requires (forall y :: y in s ==> cmp(x, y) != 0) && t == s + [x]
    ensures IndexOf(cmp, s, x) == |s| && RefStep(cmp, s, Insert(x)) == (t, 1)
  {
    if s != [] {
      NotIn(cmp, s[1..], x, t[1..]);
    }
  }

  lemma FirstSteps(cmp: Comparator, x: seq<Item>)
    requires |x| == 7 && Ascending(cmp, x)
    ensures RefStep(cmp, [], Insert(x[1])) == ([x[1]], 1)
    ensures RefStep(cmp, [x[1]], Insert(x[0])) == ([x[1], x[0]], 1)
    ensures RefStep(cmp, [x[1], x[0]], Insert(x[4])) == ([x[1], x[0], x[4]], 1)
    ensures RefStep(cmp, [x[1], x[0], x[4]], Insert(x[2])) == ([x[1], x[0], x[4], x[2]], 1)
  {
    hide IndexOf, RefStep;
    NotIn(cmp, [], x[1], [x[1]]);
    NotIn(cmp, [x[1]], x[0], [x[1], x[0]]);
    NotIn(cmp, [x[1], x[0]], x[4], [x[1], x[0], x[4]]);
    NotIn(cmp, [x[1], x[0], x[4]], x[2], [x[1], x[0], x[4], x[2]]);
  }

  lemma FifthStep(cmp: Comparator, x: seq<Item>)
    requires |x| == 7 && Ascending(cmp, x)
    ensures RefStep(cmp, [x[1], x[0], x[4], x[2]], Insert(x[5])) == ([x[1], x[0], x[4], x[2], x[5]], 1)
  {
    hide IndexOf, RefStep;
    NotIn(cmp, [x[1], x[0], x[4], x[2]], x[5], [x[1], x[0], x[4], x[2], x[5]]);
  }

  lemma SixthStep(cmp: Comparator, x: seq<Item>)
    requires |x| == 7 && Ascending(cmp, x)
    ensures RefStep(cmp, [x[1], x[0], x[4], x[2], x[5]], Insert(x[3])) == ([x[1], x[0], x[4], x[2], x[5], x[3]], 1)
  {
    hide IndexOf, RefStep;
    NotIn(cmp, [x[1], x[0], x[4], x[2], x[5]], x[3], [x[1], x[0], x[4], x[2], x[5], x[3]]);
  }

  lemma SeventhStep(cmp: Comparator, x: seq<Item>)
    requires |x| == 7 && Ascending(cmp, x)
    ensures RefStep(cmp, [x[1], x[0], x[4], x[2], x[5], x[3]], Insert(x[6])) ==
            ([x[1], x[0], x[4], x[2], x[5], x[3], x[6]], 1)
  {
    hide IndexOf, RefStep;
    NotIn(cmp, [x[1], x[0], x[4], x[2], x[5], x[3]], x[6], [x[1], x[0], x[4], x[2], x[5], x[3], x[6]]);
  }

  lemma RemovalStep(cmp: Comparator, x: seq<Item>)
    requires |x| == 7 && Ascending(cmp, x) && cmp(x[0], x[0]) == 0 && x[0] != NULL
    ensures RefStep(cmp, [x[1], x[0], x[4], x[2], x[5], x[3], x[6]], Remove(x[0])) ==
            ([x[1], x[4], x[2], x[5], x[3], x[6]], x[0])
  {
    hide IndexOf, RefStep;
    assert [x[1]] + [x[4], x[2], x[5], x[3], x[6]] == [x[1], x[4], x[2], x[5], x[3], x[6]];
    SecondOut(cmp, x[1], x[0], [x[4], x[2], x[5], x[3], x[6]], [x[1], x[0], x[4], x[2], x[5], x[3], x[6]]);
  }

  lemma SecondOut(cmp: Comparator, y: Item, x: Item, rest: seq<Item>, s: seq<Item>)
    requires cmp(x, y) != 0 && cmp(x, x) == 0 && x != NULL && s == [y, x] + rest
    ensures RefStep(cmp, s, Remove(x)) == ([y] + rest, x)
  {
    assert s[1..] == [x] + rest;
    assert IndexOf(cmp, s, x) == 1;
    assert s[..1] + s[2..] == [y] + rest;
  }

  // the shapes that the seven insertions make

  ghost function Leafy(n: TreeNode, x: Item): Shape {
    Bin(Leaf, n, x, 0, Leaf)
  }

  /** A node with a right child only. */
  ghost function Leaning(n: TreeNode, x: Item, m: TreeNode, y: Item): Shape {
    Bin(Leaf, n, x, 1, Leafy(m, y))
  }

  ghost function Seven(n: seq<TreeNode>, x: seq<Item>): Shape
    requires |n| == |x| == 7
  {
    Bin(Leafy(n[0], x[0]), n[1], x[1], 2,
        Bin(Leaning(n[2], x[2], n[3], x[3]), n[4], x[4], 0, Leaning(n[5], x[5], n[6], x[6])))
  }

  lemma SevenShapes(cmp: Comparator, x: seq<Item>, n: seq<TreeNode>)
    requires |n| == |x| == 7 && Ascending(cmp, x) && TotalPreorder(cmp)
    ensures var t1 := Placed(false, cmp, Leaf, x[1], n[1]);
            var t2 := Placed(false, cmp, t1, x[0], n[0]);
            var t3 := Placed(false, cmp, t2, x[4], n[4]);
            var t4 := Placed(false, cmp, t3, x[2], n[2]);
            var t5 := Placed(false, cmp, t4, x[5], n[5]);
            var t6 := Placed(false, cmp, t5, x[3], n[3]);
            var t7 := Placed(false, cmp, t6, x[6], n[6]);
            t7 == Seven(n, x) && RemovalSpoils(cmp, t7, x[0])
  {
    hide Placed, RemovalSpoils, InsertClimb, Search;
    ThreeFirst(cmp, x, n);
    FourthFifth(cmp, x, n);
    Sixth(cmp, x, n);
    Seventh(cmp, x, n);
    SevenSpoils(cmp, x, n);
  }

  lemma ThreeFirst(cmp: Comparator, x: seq<Item>, n: seq<TreeNode>)
    requires |n| == |x| == 7 && Ascending(cmp, x)
    ensures Placed(false, cmp, Leaf, x[1], n[1]) == Leafy(n[1], x[1])
    ensures Placed(false, cmp, Leafy(n[1], x[1]), x[0], n[0]) == Bin(Leafy(n[0], x[0]), n[1], x[1], -1, Leaf)
    ensures Placed(false, cmp, Bin(Leafy(n[0], x[0]), n[1], x[1], -1, Leaf), x[4], n[4]) ==
            Bin(Leafy(n[0], x[0]), n[1], x[1], 0, Leafy(n[4], x[4]))
  {
  }

  /** The tree from the fourth insertion on: the root, its left leaf and its right subtree. */
  ghost function Rooted(n: seq<TreeNode>, x: seq<Item>, bal: int, right: Shape): Shape
    requires |n| == |x| == 7
  {
    Bin(Leafy(n[0], x[0]), n[1], x[1], bal, right)
  }

  /** What an insertion makes of the tree is what the search and the climb make of it. */
  lemma PlacedAt(cmp: Comparator, t: Shape, x: Item, child: TreeNode, c: Ctx, s: Shape, u: Shape)
    requires t.Bin? && Search(cmp, x, Top, t) == (c, s) && s.Bin? && cmp(x, s.item) != 0
    requires InsertClimb(false, Grow(s, cmp(x, s.item) < 0, child, x), c) == u
    ensures Placed(false, cmp, t, x, child) == u
  {
    PlacedBelow(false, cmp, t, x, child, c, s);
  }

  lemma FourthFifth(cmp: Comparator, x: seq<Item>, n: seq<TreeNode>)
    requires |n| == |x| == 7 && Ascending(cmp, x)
    ensures var t3 := Rooted(n, x, 0, Leafy(n[4], x[4]));
            var t4 := Rooted(n, x, 1, Bin(Leafy(n[2], x[2]), n[4], x[4], -1, Leaf));
            var t5 := Rooted(n, x, 1, Bin(Leafy(n[2], x[2]), n[4], x[4], 0, Leafy(n[5], x[5])));
            Placed(false, cmp, t3, x[2], n[2]) == t4 && Placed(false, cmp, t4, x[5], n[5]) == t5
  {
    var low, high := Leafy(n[2], x[2]), Leafy(n[5], x[5]);
    var c0 := Frame(Top, false, n[1], x[1], 0, Leafy(n[0], x[0]));
    var r0 := Leafy(n[4], x[4]);
    SearchStep(cmp, x[2], Top, Rooted(n, x, 0, r0));
    SearchStep(cmp, x[2], c0, r0);
    PlacedAt(cmp, Rooted(n, x, 0, r0), x[2], n[2], c0, r0, Rooted(n, x, 1, Bin(low, n[4], x[4], -1, Leaf)));
    var c1 := Frame(Top, false, n[1], x[1], 1, Leafy(n[0], x[0]));
    var r1 := Bin(low, n[4], x[4], -1, Leaf);
    SearchStep(cmp, x[5], Top, Rooted(n, x, 1, r1));
    SearchStep(cmp, x[5], c1, r1);
    var r2 := Bin(low, n[4], x[4], 0, high);
    assert Grow(r1, false, n[5], x[5]) == r2;
    assert InsertClimb(false, r2, c1) == Plug(c1, r2);
    PlacedAt(cmp, Rooted(n, x, 1, r1), x[5], n[5], c1, r1, Rooted(n, x, 1, r2));
  }

  lemma Sixth(cmp: Comparator, x: seq<Item>, n: seq<TreeNode>)
    requires |n| == |x| == 7 && Ascending(cmp, x)
    ensures var t5 := Rooted(n, x, 1, Bin(Leafy(n[2], x[2]), n[4], x[4], 0, Leafy(n[5], x[5])));
            var t6 := Rooted(n, x, 2, Bin(Leaning(n[2], x[2], n[3], x[3]), n[4], x[4], -1, Leafy(n[5], x[5])));
            Placed(false, cmp, t5, x[3], n[3]) == t6
  {
    var low, high := Leafy(n[2], x[2]), Leafy(n[5], x[5]);
    var r := Bin(low, n[4], x[4], 0, high);
    var c := Frame(Top, false, n[1], x[1], 1, Leafy(n[0], x[0]));
    var d := Frame(c, true, n[4], x[4], 0, high);
    SearchStep(cmp, x[3], Top, Rooted(n, x, 1, r));
    SearchStep(cmp, x[3], c, r);
    SearchStep(cmp, x[3], d, low);
    var g := Grow(low, false, n[3], x[3]);
    assert g == Leaning(n[2], x[2], n[3], x[3]);
    var r' := Bin(g, n[4], x[4], -1, high);
    assert InsertClimb(false, g, d) == InsertClimb(false, r', c);
    assert InsertClimb(false, r', c) == InsertClimb(false, Rooted(n, x, 2, r'), Top);
    PlacedAt(cmp, Rooted(n, x, 1, r), x[3], n[3], d, low, Rooted(n, x, 2, r'));
  }

  lemma Seventh(cmp: Comparator, x: seq<Item>, n: seq<TreeNode>)
    requires |n| == |x| == 7 && Ascending(cmp, x)
    ensures var t6 := Rooted(n, x, 2, Bin(Leaning(n[2], x[2], n[3], x[3]), n[4], x[4], -1, Leafy(n[5], x[5])));
            Placed(false, cmp, t6, x[6], n[6]) == Seven(n, x)
  {
    var low, high := Leaning(n[2], x[2], n[3], x[3]), Leafy(n[5], x[5]);
    var r := Bin(low, n[4], x[4], -1, high);
    var c := Frame(Top, false, n[1], x[1], 2, Leafy(n[0], x[0]));
    var d := Frame(c, false, n[4], x[4], -1, low);
    SearchStep(cmp, x[6], Top, Rooted(n, x, 2, r));
    SearchStep(cmp, x[6], c, r);
    SearchStep(cmp, x[6], d, high);
    var g := Grow(high, false, n[6], x[6]);
    assert g == Leaning(n[5], x[5], n[6], x[6]);
    var r' := Bin(low, n[4], x[4], 0, g);
    assert Fix(g) == g && g.bal == 1 && Fix(r') == r';
    assert InsertClimb(false, g, d) == InsertClimb(false, r', c);
    assert InsertClimb(false, r', c) == Plug(c, r') == Seven(n, x);
    assert cmp(x[6], high.item) > 0;
    PlacedAt(cmp, Rooted(n, x, 2, r), x[6], n[6], d, high, Seven(n, x));
  }

  lemma SevenSpoils(cmp: Comparator, x: seq<Item>, n: seq<TreeNode>)
    requires |n| == |x| == 7 && Ascending(cmp, x) && TotalPreorder(cmp)
    ensures RemovalSpoils(cmp, Seven(n, x), x[0])
  {
  }
}
