/** Walking the tree along its threads, and taking it apart. */
module TreeWalk {
  import opened TreeShape
  import opened TreeClimb
  import opened TreeHeap
  import opened TreePath
  import opened TreeClass

  // ----- threads are in-order neighbours

  lemma {:induction false} FirstInOrder(t: Shape)
    requires t.Bin?
    ensures |InOrder(t)| > 0 && InOrder(t)[0] == Leftmost(t).node
  {
    if t.left.Bin? {
      FirstInOrder(t.left);
    }
  }

  lemma {:induction false} LastInOrder(t: Shape)
    requires t.Bin?
    ensures |InOrder(t)| > 0 && InOrder(t)[|InOrder(t)| - 1] == Rightmost(t).node
  {
    if t.right.Bin? {
      LastInOrder(t.right);
    }
  }

  /** The right subtree of the node at position `i`, and what comes after it. */
  ghost function RightOf(t: Shape, hi: TreeNode?, i: nat): (Shape, TreeNode?)
    requires i < |InOrder(t)|
  {
    var k := |InOrder(t.left)|;
    if i < k then RightOf(t.left, t.node, i)
    else if i == k then (t.right, hi)
    else RightOf(t.right, hi, i - k - 1)
  }

  lemma {:induction false} NextAt(m: Store, t: Shape, lo: TreeNode?, hi: TreeNode?, i: nat)
    requires Rep(m, t, lo, hi) && i < |InOrder(t)|
    ensures var x := InOrder(t)[i]; var (r, h) := RightOf(t, hi, i);
            && x in m && m[x].rightChild == r.Bin? && m[x].right == Root(r, h) && Rep(m, r, x, h)
            && (if r.Bin? then Leftmost(r).node else h) == (if i + 1 < |InOrder(t)| then InOrder(t)[i + 1] else hi)
    decreases t
  {
    var k := |InOrder(t.left)|;
    if i < k {
      NextAt(m, t.left, lo, t.node, i);
    } else if i > k {
      NextAt(m, t.right, t.node, hi, i - k - 1);
    } else if t.right.Bin? {
      FirstInOrder(t.right);
    }
  }

  /** The right subtree of a node comes later in the order. */
  lemma {:induction false} RightLater(t: Shape, hi: TreeNode?, i: nat, x: TreeNode)
    requires Wf(t) && i < |InOrder(t)| && x in Nodes(RightOf(t, hi, i).0)
    ensures x in Nodes(t) && x !in InOrder(t)[..i]
    decreases t
  {
    var l, r := InOrder(t.left), InOrder(t.right);
    var s := l + [t.node] + r;
    InOrderNode(t.left, x);
    InOrderNode(t.right, x);
    if i < |l| {
      RightLater(t.left, t.node, i, x);
      assert s[..i] == l[..i];
    } else if i == |l| {
      assert s[..i] == l;
    } else {
      RightLater(t.right, hi, i - |l| - 1, x);
      assert s[..i] == l + [t.node] + r[..i - |l| - 1];
    }
  }

  /** A right thread leads to the next node in order, and a left one to the previous. */
  lemma {:induction false} ThreadsAreNeighbours(m: Store, t: Shape, lo: TreeNode?, hi: TreeNode?, i: nat)
    requires Rep(m, t, lo, hi) && i < |InOrder(t)|
    ensures var s := InOrder(t); var x := s[i];
            && x in m
            && (!m[x].rightChild ==> m[x].right == if i + 1 < |s| then s[i + 1] else hi)
            && (!m[x].leftChild ==> m[x].left == if i > 0 then s[i - 1] else lo)
    decreases t
  {
    var s, k := InOrder(t), |InOrder(t.left)|;
    assert s == InOrder(t.left) + [t.node] + InOrder(t.right);
    if i < k {
      ThreadsAreNeighbours(m, t.left, lo, t.node, i);
    } else if i > k {
      ThreadsAreNeighbours(m, t.right, t.node, hi, i - k - 1);
    } else {
      assert t.left.Leaf? ==> k == 0;
      assert t.right.Leaf? ==> k + 1 == |s|;
    }
  }

  lemma {:induction false} ItemAt(m: Store, t: Shape, lo: TreeNode?, hi: TreeNode?, i: nat)
    requires Rep(m, t, lo, hi) && i < |InOrder(t)|
    ensures |Items(t)| == |InOrder(t)| && InOrder(t)[i] in m && m[InOrder(t)[i]].item == Items(t)[i]
    decreases t
  {
    SameLength(t.left);
    SameLength(t.right);
    var k := |InOrder(t.left)|;
    if i < k {
      ItemAt(m, t.left, lo, t.node, i);
    } else if i > k {
      ItemAt(m, t.right, t.node, hi, i - k - 1);
    }
  }

  lemma {:induction false} SameLength(t: Shape)
    ensures |Items(t)| == |InOrder(t)|
  {
    if t.Bin? {
      SameLength(t.left);
      SameLength(t.right);
    }
  }

  lemma {:induction false} InOrderNode(t: Shape, n: TreeNode)
    ensures n in InOrder(t) <==> n in Nodes(t)
  {
    if t.Bin? {
      InOrderNode(t.left, n);
      InOrderNode(t.right, n);
    }
  }

  lemma {:induction false} InOrderDistinct(t: Shape)
    requires Wf(t)
    ensures forall i, j :: 0 <= i < j < |InOrder(t)| ==> InOrder(t)[i] != InOrder(t)[j]
  {
    if t.Bin? {
      InOrderDistinct(t.left);
      InOrderDistinct(t.right);
      var l, r := InOrder(t.left), InOrder(t.right);
      forall i, j | 0 <= i < j < |InOrder(t)| ensures InOrder(t)[i] != InOrder(t)[j] {
        var k := |l|;
        if j < k {
          assert InOrder(t)[i] == l[i] && InOrder(t)[j] == l[j];
        } else if i > k {
          assert InOrder(t)[i] == r[i - k - 1] && InOrder(t)[j] == r[j - k - 1];
        } else {
          if i < k {
            assert InOrder(t)[i] == l[i] && l[i] in l;
            InOrderNode(t.left, l[i]);
          }
          if j > k {
            assert InOrder(t)[j] == r[j - k - 1] && r[j - k - 1] in r;
            InOrderNode(t.right, r[j - k - 1]);
          }
        }
      }
    }
  }

  // ----- visiting

  /** A visitor with its user data threaded through; `true` stops the walk. */
  function Visit<S>(f: (S, Item) -> (S, bool), user: S, items: seq<Item>): (S, bool) {
    if items == [] then (user, false)
    else
      var step := f(user, items[0]);
      if step.1 then step else Visit(f, step.0, items[1..])
  }

  lemma {:induction false} VisitConcat<S>(f: (S, Item) -> (S, bool), user: S, a: seq<Item>, b: seq<Item>)
    ensures Visit(f, user, a + b) == var v := Visit(f, user, a); if v.1 then v else Visit(f, v.0, b)
    decreases |a|
  {
    if a == [] {
      assert a + b == b;
    } else {
      assert (a + b)[0] == a[0] && (a + b)[1..] == a[1..] + b;
      var step := f(user, a[0]);
      if !step.1 {
        VisitConcat(f, step.0, a[1..], b);
      }
    }
  }

  lemma {:induction false} VisitOne<S>(f: (S, Item) -> (S, bool), user: S, x: Item)
    ensures Visit(f, user, [x]) == f(user, x)
  {
    assert [x][1..] == [];
    var step := f(user, x);
    assert Visit(f, step.0, []) == (step.0, false);
  }

  /** The calls of the visitor one by one: with the items in their order, the first
      with the caller's data and each further one with what the call before it left,
      up to the first that asks to stop. */
  lemma {:induction false} VisitCalls<S>(f: (S, Item) -> (S, bool), user: S, items: seq<Item>)
    returns (data: seq<S>)
    ensures 0 < |data| <= |items| + 1 && data[0] == user && Visit(f, user, items).0 == data[|data| - 1]
    ensures forall i :: 0 <= i < |data| - 1 ==> f(data[i], items[i]).0 == data[i + 1]
    ensures forall i :: 0 <= i < |data| - 2 ==> !f(data[i], items[i]).1
    ensures Visit(f, user, items).1 <==> |data| > 1 && f(data[|data| - 2], items[|data| - 2]).1
    ensures !Visit(f, user, items).1 ==> |data| == |items| + 1
    decreases |items|
  {
    data := [user];
    if items != [] {
      var step := f(user, items[0]);
      if step.1 {
        data := [user, step.0];
      } else {
        var rest := VisitCalls(f, step.0, items[1..]);
        data := [user] + rest;
        assert forall i :: 0 < i < |data| - 1 ==> data[i] == rest[i - 1] && items[i] == items[1..][i - 1];
      }
    }
  }

  /** tree.c:67-77, remembering which nodes it looks at. */
  method FirstNode(t: Tree) returns (tmp: TreeNode?, ghost read: set<TreeNode>)
    requires t.Linked()
    ensures tmp == if t.shape.Bin? then Leftmost(t.shape).node else null
    ensures read == LeftSpine(t.shape)
  {
    tmp := t.root;
    read := {};
    if tmp == null {
      return;
    }
    ghost var s, h := t.shape, null;
    read := {tmp};
    while tmp.leftChild
      invariant s.Bin? && tmp == s.node && Rep(t.store, s, null, h) && Leftmost(s) == Leftmost(t.shape)
      invariant read + LeftSpine(s.left) == LeftSpine(t.shape)
      decreases s
    {
      tmp := tmp.left;
      s, h := s.left, s.node;
      read := read + {tmp};
    }
  }

  /** tree.c:547-559: the visitor sees every item once, in ascending order, up
      to the first one at which it stops. */
  method ForEach<S>(t: Tree, f: (S, Item) -> (S, bool), user0: S) returns (user: S)
    requires t.Linked()
    ensures user == Visit(f, user0, Items(t.shape)).0
  {
    user := user0;
    if t.root == null {
      return;
    }
    hide Rep, InOrder, Items, Nodes, Wf, Visit, Leftmost;
    ghost var s, items := InOrder(t.shape), Items(t.shape);
    SameLength(t.shape);
    FirstInOrder(t.shape);
    VisitNone(f, user0);
    var node, read := FirstNode(t);
    ghost var i := 0;
    assert items[..0] == [];
    while node != null
      invariant 0 <= i <= |s| == |items|
      invariant node == if i < |s| then s[i] else null
      invariant Visit(f, user0, items[..i]) == (user, false)
      decreases |s| - i
    {
      ItemAt(t.store, t.shape, null, null, i);
      NextAt(t.store, t.shape, null, null, i);
      var step := f(user, node.item);
      VisitNext(f, user0, items, i);
      user := step.0;
      if step.1 {
        return;
      }
      ghost var (r, h) := RightOf(t.shape, null, i);
      ghost var seen;
      node, seen := NextNode(node, t.store, r, h);
      i := i + 1;
    }
    assert items[..|items|] == items;
  }

  lemma VisitNone<S>(f: (S, Item) -> (S, bool), user: S)
    ensures Visit(f, user, []) == (user, false)
  {
  }

  /** Visiting one item more, when none has stopped the walk so far. */
  lemma VisitNext<S>(f: (S, Item) -> (S, bool), user0: S, items: seq<Item>, i: nat)
    requires i < |items| && !Visit(f, user0, items[..i]).1
    ensures var step := f(Visit(f, user0, items[..i]).0, items[i]);
            && Visit(f, user0, items[..i + 1]) == step
            && (step.1 ==> Visit(f, user0, items) == step)
  {
    VisitConcat(f, user0, items[..i], [items[i]]);
    VisitOne(f, Visit(f, user0, items[..i]).0, items[i]);
    assert items[..i + 1] == items[..i] + [items[i]];
    VisitConcat(f, user0, items[..i + 1], items[i + 1..]);
    assert items == items[..i + 1] + items[i + 1..];
  }

  /** tree.c:481-495: the recursive walk agrees with the threaded one. */
  method InOrderVisit<S>(node: TreeNode, ghost m: Store, ghost t: Shape, ghost lo: TreeNode?, ghost hi: TreeNode?,
                         f: (S, Item) -> (S, bool), user0: S)
    returns (stop: bool, user: S)
    requires Stores(m) && t.Bin? && t.node == node && Rep(m, t, lo, hi)
    ensures (user, stop) == Visit(f, user0, Items(t))
    decreases t
  {
    user, stop := user0, false;
    ghost var l, r := Items(t.left), Items(t.right);
    VisitConcat(f, user0, l + [t.item], r);
    VisitConcat(f, user0, l, [t.item]);
    if node.leftChild {
      stop, user := InOrderVisit(node.left, m, t.left, lo, node, f, user);
      if stop {
        return;
      }
    }
    VisitOne(f, user, t.item);
    var step := f(user, node.item);
    user, stop := step.0, step.1;
    if stop {
      return;
    }
    if node.rightChild {
      stop, user := InOrderVisit(node.right, m, t.right, node, hi, f, user);
    }
  }

  // ----- destroying

  datatype Event = Read(nodes: set<TreeNode>) | Free(node: TreeNode)

  function Touched(e: Event): set<TreeNode> {
    if e.Read? then e.nodes else {e.node}
  }

  /** No freed node is looked at or freed again. */
  ghost predicate Safe(trace: seq<Event>) {
    forall i, j :: 0 <= i < j < |trace| && trace[i].Free? ==> trace[i].node !in Touched(trace[j])
  }

  ghost function Freed(trace: seq<Event>): seq<TreeNode> {
    if trace == [] then []
    else
      var last := trace[|trace| - 1];
      Freed(trace[..|trace| - 1]) + if last.Free? then [last.node] else []
  }

  lemma {:induction false} FreedMember(trace: seq<Event>, i: nat)
    requires i < |trace| && trace[i].Free?
    ensures trace[i].node in Freed(trace)
  {
    if i + 1 < |trace| {
      FreedMember(trace[..|trace| - 1], i);
    }
  }

  lemma SafeExtend(trace: seq<Event>, e: Event)
    requires Safe(trace) && forall x :: x in Touched(e) ==> x !in Freed(trace)
    ensures Safe(trace + [e])
    ensures Freed(trace + [e]) == Freed(trace) + if e.Free? then [e.node] else []
  {
    var t := trace + [e];
    assert t[..|t| - 1] == trace;
    forall i | 0 <= i < |trace| && trace[i].Free? ensures trace[i].node in Freed(trace) {
      FreedMember(trace, i);
    }
  }

  /** What the first `i` rounds of `tree_destroy` look at and free. */
  ghost function Rounds(t: Shape, i: nat): (trace: seq<Event>)
    requires i <= |InOrder(t)|
  {
    if i == 0 then [Read(LeftSpine(t))]
    else
      var node := InOrder(t)[i - 1];
      Rounds(t, i - 1) + [Read({node} + LeftSpine(RightOf(t, null, i - 1).0)), Free(node)]
  }

  /** tree.c:525-539: every node is freed exactly once, in order, and none is
      looked at after it has been freed. */
  method Destroy(t: Tree) returns (ghost trace: seq<Event>)
    requires t.Linked()
    modifies t`root, t`count
    ensures t.root == null && t.count == 0
    ensures trace == Rounds(old(t.shape), |InOrder(old(t.shape))|)
    ensures Safe(trace) && Freed(trace) == InOrder(old(t.shape))
  {
    hide Rep, InOrder, Nodes, Wf, Safe, Freed, Leftmost, RightOf, LeftSpine;
    ghost var s := InOrder(t.shape);
    WalkFacts(t.shape);
    var node, read := FirstNode(t);
    SafeNone();
    SafeExtend([], Read(read));
    trace := [Read(read)];
    assert [] + trace == trace;
    ghost var i := 0;
    while node != null
      invariant 0 <= i <= |s| && node == (if i < |s| then s[i] else null)
      invariant Safe(trace) && Freed(trace) == s[..i] && trace == Rounds(t.shape, i)
      decreases |s| - i
    {
      NextAt(t.store, t.shape, null, null, i);
      ghost var (r, h) := RightOf(t.shape, null, i);
      var next, seen := NextNode(node, t.store, r, h);
      NotFreed(t.shape, i);
      SafeExtend(trace, Read(seen));
      trace := trace + [Read(seen)];
      SafeExtend(trace, Free(node));
      trace := trace + [Free(node)];
      assert trace == Rounds(t.shape, i) + [Read(seen), Free(node)];
      assert s[..i + 1] == s[..i] + [node];
      node := next;
      i := i + 1;
    }
    t.root := null;
    t.count := 0;
  }

  lemma SafeNone()
    ensures Safe([]) && Freed([]) == []
  {
  }

  lemma WalkFacts(t: Shape)
    requires Wf(t)
    ensures t.Leaf? <==> InOrder(t) == []
    ensures t.Bin? ==> InOrder(t)[0] == Leftmost(t).node
  {
    if t.Bin? {
      FirstInOrder(t);
    }
  }

  lemma NotFreed(t: Shape, i: nat)
    requires Wf(t) && i < |InOrder(t)|
    ensures InOrder(t)[i] !in InOrder(t)[..i]
    ensures forall x :: x in Nodes(RightOf(t, null, i).0) ==> x !in InOrder(t)[..i]
  {
    InOrderDistinct(t);
    forall x | x in Nodes(RightOf(t, null, i).0) ensures x !in InOrder(t)[..i] {
      RightLater(t, null, i, x);
    }
  }
}
