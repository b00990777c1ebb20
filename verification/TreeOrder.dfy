/** Search order, the association list a tree stands for, and how high an AVL
    tree of a given size can be. */
module TreeOrder {
  import opened TreeShape

  ghost predicate TotalPreorder(cmp: Comparator) {
    && (forall a :: cmp(a, a) == 0)
    && (forall a, b :: cmp(a, b) < 0 <==> cmp(b, a) > 0)
    && (forall a, b, c :: cmp(a, b) <= 0 && cmp(b, c) <= 0 ==> cmp(a, c) <= 0)
  }

  ghost predicate Sorted(cmp: Comparator, s: seq<Item>) {
    forall i, j :: 0 <= i < j < |s| ==> cmp(s[i], s[j]) < 0
  }

  /** `x` belongs between `a` and `b`. */
  ghost predicate Between(cmp: Comparator, a: seq<Item>, x: Item, b: seq<Item>) {
    (forall y :: y in a ==> cmp(x, y) > 0) && (forall y :: y in b ==> cmp(x, y) < 0)
  }

  lemma SortedConcat(cmp: Comparator, a: seq<Item>, b: seq<Item>)
    ensures Sorted(cmp, a + b) <==>
            Sorted(cmp, a) && Sorted(cmp, b) && forall x, y :: x in a && y in b ==> cmp(x, y) < 0
  {
    var s := a + b;
    if Sorted(cmp, s) {
      forall i, j | 0 <= i < j < |a| ensures cmp(a[i], a[j]) < 0 {
        assert s[i] == a[i] && s[j] == a[j];
      }
      forall i, j | 0 <= i < j < |b| ensures cmp(b[i], b[j]) < 0 {
        assert s[|a| + i] == b[i] && s[|a| + j] == b[j];
      }
      forall x, y | x in a && y in b ensures cmp(x, y) < 0 {
        var i :| 0 <= i < |a| && a[i] == x;
        var j :| 0 <= j < |b| && b[j] == y;
        assert s[i] == x && s[|a| + j] == y;
      }
    }
  }

  /** Going down one level narrows the interval around the searched item. */
  lemma BetweenChild(cmp: Comparator, x: Item, c: Ctx, s: Shape, onLeft: bool)
    requires TotalPreorder(cmp) && s.Bin? && Sorted(cmp, Items(Plug(c, s)))
    requires Between(cmp, Before(c), x, After(c))
    requires if onLeft then cmp(x, s.item) < 0 else cmp(x, s.item) > 0
    ensures var d := Frame(c, onLeft, s.node, s.item, s.bal, if onLeft then s.right else s.left);
            Between(cmp, Before(d), x, After(d))
  {
    PlugItems(c, s);
    var l, r := Items(s.left), Items(s.right);
    SortedConcat(cmp, Before(c) + Items(s), After(c));
    SortedConcat(cmp, Before(c), Items(s));
    SortedConcat(cmp, l + [s.item], r);
    SortedConcat(cmp, l, [s.item]);
    assert s.item in [s.item] && s.item in l + [s.item];
    if onLeft {
      forall y | y in r ensures cmp(x, y) < 0 {
        assert cmp(s.item, y) < 0;
        StrictTransitive(cmp, x, s.item, y);
      }
    } else {
      forall y | y in l ensures cmp(x, y) > 0 {
        assert cmp(y, s.item) < 0;
        StrictTransitive(cmp, y, s.item, x);
      }
    }
  }

  lemma StrictTransitive(cmp: Comparator, a: Item, b: Item, c: Item)
    requires TotalPreorder(cmp) && cmp(a, b) <= 0 && cmp(b, c) <= 0 && (cmp(a, b) < 0 || cmp(b, c) < 0)
    ensures cmp(a, c) < 0
  {
    assert cmp(a, c) <= 0;
    assert cmp(c, a) <= 0 ==> cmp(b, a) <= 0 && cmp(c, b) <= 0;
  }

  // ----- the reference: an unordered list of pairwise inequivalent items

  /** The position of the first item equivalent to `x`, or the length. */
  function IndexOf(cmp: Comparator, s: seq<Item>, x: Item): (i: nat)
    ensures i <= |s|
  {
    if s == [] || cmp(x, s[0]) == 0 then 0 else 1 + IndexOf(cmp, s[1..], x)
  }

  /** The list without the item at its position `i`. */
  function Without(s: seq<Item>, i: nat): seq<Item>
    requires i < |s|
  {
    s[..i] + s[i + 1..]
  }

  datatype Op =
    | Insert(x: Item)
    | InsertRef(x: Item)
    | Replace(x: Item)
    | Remove(x: Item)
    | Lookup(x: Item)
    | CursorRemove(x: Item)

  /** What each operation does to the list, and what it returns. */
  function RefStep(cmp: Comparator, s: seq<Item>, op: Op): (seq<Item>, Item) {
    var i := IndexOf(cmp, s, op.x);
    if i == |s| then
      match op
      case Insert(x) => (s + [x], 1)
      case InsertRef(x) => (s + [x], NULL)
      case Replace(x) => (s + [x], NULL)
      case _ => (s, NULL)
    else
      match op
      case Insert(_) => (s, 0)
      case Replace(x) => (s[i := x], s[i])
      case Remove(_) => if s[i] == NULL then (s, NULL) else (Without(s, i), s[i])
      case CursorRemove(_) => if s[i] == NULL then (s, NULL) else (Without(s, i), s[i])
      case _ => (s, s[i])
  }

  function RefRun(cmp: Comparator, s: seq<Item>, ops: seq<Op>): (seq<Item>, seq<Item>)
    decreases |ops|
  {
    if ops == [] then (s, [])
    else
      var (s', r) := RefStep(cmp, s, ops[0]);
      var (s'', rs) := RefRun(cmp, s', ops[1..]);
      (s'', [r] + rs)
  }

  /** The sorted items of a tree and a list with the same items. */
  ghost predicate Refines(cmp: Comparator, items: seq<Item>, s: seq<Item>) {
    Sorted(cmp, items) && multiset(items) == multiset(s)
  }

  lemma {:induction false} IndexOfFound(cmp: Comparator, s: seq<Item>, x: Item)
    ensures var i := IndexOf(cmp, s, x);
            && (i < |s| ==> cmp(x, s[i]) == 0)
            && (forall j :: 0 <= j < i ==> cmp(x, s[j]) != 0)
  {
    if s != [] && cmp(x, s[0]) != 0 {
      var t := s[1..];
      IndexOfFound(cmp, t, x);
      forall j | 0 <= j < IndexOf(cmp, s, x) ensures cmp(x, s[j]) != 0 {
        if j > 0 {
          assert s[j] == t[j - 1];
        }
      }
    }
  }

  /** Some item of the list is equivalent to `x`. */
  ghost predicate Has(cmp: Comparator, s: seq<Item>, x: Item) {
    exists y :: y in s && cmp(x, y) == 0
  }

  /** The answer `r` to an operation on `s`, and the list `t` after it, in terms of
      the items that are equivalent to the operand. */
  ghost predicate Answers(cmp: Comparator, s: seq<Item>, op: Op, t: seq<Item>, r: Item) {
    if !Has(cmp, s, op.x) then
      && t == (if op.Insert? || op.InsertRef? || op.Replace? then s + [op.x] else s)
      && r == (if op.Insert? then 1 else NULL)
    else if op.Insert? then t == s && r == 0
    else
      exists i :: 0 <= i < |s| && s[i] == r && cmp(op.x, r) == 0 &&
                  t == if op.Replace? then s[i := op.x]
                       else if (op.Remove? || op.CursorRemove?) && r != NULL then s[..i] + s[i + 1..]
                       else s
  }

  lemma StepAnswers(cmp: Comparator, s: seq<Item>, op: Op)
    ensures Answers(cmp, s, op, RefStep(cmp, s, op).0, RefStep(cmp, s, op).1)
    ensures Has(cmp, s, op.x) <==> IndexOf(cmp, s, op.x) < |s|
  {
    IndexOfFound(cmp, s, op.x);
    var i := IndexOf(cmp, s, op.x);
    if i < |s| {
      assert s[i] in s;
    }
  }

  /** The same for an item found at its position. */
  lemma FoundAnswers(cmp: Comparator, s: seq<Item>, x: Item)
    ensures (exists y :: y in s && cmp(x, y) == 0) <==> IndexOf(cmp, s, x) < |s|
    ensures var i := IndexOf(cmp, s, x);
            i < |s| ==>
              && s[i] in s && cmp(x, s[i]) == 0
              && (exists j :: 0 <= j < |s| && s[j] == s[i] && Without(s, i) == s[..j] + s[j + 1..])
              && (exists j :: 0 <= j < |s| && s[j] == s[i] && s[i := x] == s[j := x])
  {
    IndexOfFound(cmp, s, x);
    var i := IndexOf(cmp, s, x);
    if i < |s| {
      assert s[i] in s;
    }
  }

  /** The states that a run goes through, one answer for each step. */
  lemma {:induction false} RunAnswers(cmp: Comparator, s: seq<Item>, ops: seq<Op>) returns (lists: seq<seq<Item>>)
    ensures var (t, rs) := RefRun(cmp, s, ops);
            && |lists| == |ops| + 1 && |rs| == |ops| && lists[0] == s && lists[|ops|] == t
            && forall k :: 0 <= k < |ops| ==> Answers(cmp, lists[k], ops[k], lists[k + 1], rs[k])
    decreases |ops|
  {
    if ops == [] {
      lists := [s];
    } else {
      var (t, r) := RefStep(cmp, s, ops[0]);
      StepAnswers(cmp, s, ops[0]);
      var rest := RunAnswers(cmp, t, ops[1..]);
      lists := [s] + rest;
      assert forall k :: 0 < k < |ops| ==> ops[k] == ops[1..][k - 1];
      assert forall k :: 0 < k <= |ops| ==> lists[k] == rest[k - 1];
    }
  }

  lemma SameMembers(s: seq<Item>, t: seq<Item>, y: Item)
    requires multiset(s) == multiset(t)
    ensures y in s <==> y in t
  {
    assert y in s <==> y in multiset(s);
    assert y in t <==> y in multiset(t);
  }

  /** Searching the list finds the item that searching the tree finds. */
  lemma FindSame(cmp: Comparator, a: seq<Item>, y: Item, b: seq<Item>, s: seq<Item>, x: Item)
    requires TotalPreorder(cmp) && Refines(cmp, a + [y] + b, s) && cmp(x, y) == 0
    ensures var i := IndexOf(cmp, s, x); i < |s| && s[i] == y
  {
    var items := a + [y] + b;
    assert items[|a|] == y;
    assert forall k :: 0 <= k < |items| && cmp(items[k], y) == 0 ==> k == |a|;
    IndexOfFound(cmp, s, x);
    var i := IndexOf(cmp, s, x);
    SameMembers(items, s, y);
    var k :| 0 <= k < |s| && s[k] == y;
    assert i <= k;
    SameMembers(items, s, s[i]);
    var j :| 0 <= j < |items| && items[j] == s[i];
    assert cmp(y, x) <= 0 && cmp(s[i], x) <= 0;
    assert cmp(s[i], y) <= 0 && cmp(y, s[i]) <= 0;
  }

  lemma FindNone(cmp: Comparator, a: seq<Item>, b: seq<Item>, s: seq<Item>, x: Item)
    requires Refines(cmp, a + b, s) && Between(cmp, a, x, b)
    ensures IndexOf(cmp, s, x) == |s|
  {
    IndexOfFound(cmp, s, x);
    var i := IndexOf(cmp, s, x);
    assert i < |s| ==> s[i] in a + b by {
      if i < |s| {
        SameMembers(a + b, s, s[i]);
      }
    }
  }

  lemma InsertRefines(cmp: Comparator, a: seq<Item>, b: seq<Item>, s: seq<Item>, x: Item)
    requires TotalPreorder(cmp) && Refines(cmp, a + b, s) && Between(cmp, a, x, b)
    ensures Refines(cmp, a + [x] + b, s + [x])
  {
    SortedConcat(cmp, a, b);
    SortedConcat(cmp, a, [x]);
    SortedConcat(cmp, a + [x], b);
    assert multiset(a + [x] + b) == multiset(a + b) + multiset{x};
  }

  lemma {:induction false} RemoveAtMultiset(s: seq<Item>, i: nat)
    requires i < |s|
    ensures multiset(s) == multiset(s[..i] + s[i + 1..]) + multiset{s[i]}
  {
    assert s == s[..i] + [s[i]] + s[i + 1..];
  }

  lemma RemoveRefines(cmp: Comparator, a: seq<Item>, y: Item, b: seq<Item>, s: seq<Item>, i: nat)
    requires Refines(cmp, a + [y] + b, s) && i < |s| && s[i] == y
    ensures Refines(cmp, a + b, s[..i] + s[i + 1..])
  {
    SortedConcat(cmp, a + [y], b);
    SortedConcat(cmp, a, [y]);
    SortedConcat(cmp, a, b);
    RemoveAtMultiset(s, i);
    assert multiset(a + [y] + b) == multiset(a + b) + multiset{y};
    MultisetCancel(multiset(a + b), multiset(s[..i] + s[i + 1..]), y);
  }

  lemma MultisetCancel(a: multiset<Item>, b: multiset<Item>, y: Item)
    requires a + multiset{y} == b + multiset{y}
    ensures a == b
  {
    assert a == (a + multiset{y}) - multiset{y};
    assert b == (b + multiset{y}) - multiset{y};
  }

  lemma ReplaceRefines(cmp: Comparator, a: seq<Item>, y: Item, b: seq<Item>, s: seq<Item>, i: nat, x: Item)
    requires TotalPreorder(cmp) && Refines(cmp, a + [y] + b, s) && i < |s| && s[i] == y && cmp(x, y) == 0
    ensures Refines(cmp, a + [x] + b, s[i := x])
  {
    RemoveRefines(cmp, a, y, b, s, i);
    var t := s[i := x];
    RemoveAtMultiset(t, i);
    assert t[..i] + t[i + 1..] == s[..i] + s[i + 1..];
    assert multiset(a + [x] + b) == multiset(a + b) + multiset{x};
    SortedConcat(cmp, a + [y], b);
    SortedConcat(cmp, a, [y]);
    assert y in [y] && y in a + [y];
    forall z | z in a ensures cmp(z, x) < 0 {
      assert cmp(z, y) < 0 && cmp(y, x) <= 0;
      StrictTransitive(cmp, z, y, x);
    }
    forall z | z in b ensures cmp(x, z) < 0 {
      assert cmp(x, y) <= 0 && cmp(y, z) < 0;
      StrictTransitive(cmp, x, y, z);
    }
    SortedConcat(cmp, a, [x]);
    SortedConcat(cmp, a + [x], b);
    assert forall u, v :: u in a + [x] && v in b ==> cmp(u, v) < 0;
  }

  /** The list effect of each outcome of a search in the tree. */
  lemma InsertedStep(cmp: Comparator, a: seq<Item>, b: seq<Item>, s: seq<Item>, x: Item)
    requires TotalPreorder(cmp) && Refines(cmp, a + b, s) && Between(cmp, a, x, b)
    ensures IndexOf(cmp, s, x) == |s| && Refines(cmp, a + [x] + b, s + [x])
  {
    FindNone(cmp, a, b, s, x);
    InsertRefines(cmp, a, b, s, x);
  }

  lemma RemovedStep(cmp: Comparator, a: seq<Item>, y: Item, b: seq<Item>, s: seq<Item>, x: Item)
    requires TotalPreorder(cmp) && Refines(cmp, a + [y] + b, s) && cmp(x, y) == 0
    ensures var i := IndexOf(cmp, s, x); i < |s| && s[i] == y && Refines(cmp, a + b, Without(s, i))
  {
    hide Sorted, TotalPreorder, IndexOf;
    FindSame(cmp, a, y, b, s, x);
    RemoveRefines(cmp, a, y, b, s, IndexOf(cmp, s, x));
  }

  lemma ReplacedStep(cmp: Comparator, a: seq<Item>, y: Item, b: seq<Item>, s: seq<Item>, x: Item)
    requires TotalPreorder(cmp) && Refines(cmp, a + [y] + b, s) && cmp(x, y) == 0
    ensures var i := IndexOf(cmp, s, x); i < |s| && s[i] == y && Refines(cmp, a + [x] + b, s[i := x])
  {
    FindSame(cmp, a, y, b, s, x);
    ReplaceRefines(cmp, a, y, b, s, IndexOf(cmp, s, x), x);
  }

  lemma RefinesSize(cmp: Comparator, items: seq<Item>, s: seq<Item>)
    requires Refines(cmp, items, s)
    ensures |items| == |s|
  {
    assert |multiset(items)| == |items| && |multiset(s)| == |s|;
  }

  lemma {:induction false} RefRunSnoc(cmp: Comparator, s: seq<Item>, ops: seq<Op>, op: Op)
    ensures var (t, rs) := RefRun(cmp, s, ops);
            RefRun(cmp, s, ops + [op]) == (RefStep(cmp, t, op).0, rs + [RefStep(cmp, t, op).1])
    decreases |ops|
  {
    if ops == [] {
      assert ops + [op] == [op] && [op][1..] == [];
      var one := RefStep(cmp, s, op);
      assert RefRun(cmp, one.0, []) == (one.0, []);
      assert [one.1] + [] == [] + [one.1];
    } else {
      assert (ops + [op])[1..] == ops[1..] + [op] && (ops + [op])[0] == ops[0];
      var first := RefStep(cmp, s, ops[0]);
      var rest := RefRun(cmp, first.0, ops[1..]);
      RefRunSnoc(cmp, first.0, ops[1..], op);
      var last := RefStep(cmp, rest.0, op);
      assert [first.1] + (rest.1 + [last.1]) == [first.1] + rest.1 + [last.1];
    }
  }

  lemma {:induction false} ItemsSize(t: Shape)
    ensures |Items(t)| == Size(t)
  {
    if t.Bin? {
      ItemsSize(t.left);
      ItemsSize(t.right);
    }
  }

  // ----- height

  function Fib(n: nat): nat {
    if n < 2 then n else Fib(n - 1) + Fib(n - 2)
  }

  lemma {:induction false} FibMonotone(m: nat, n: nat)
    requires m <= n
    ensures Fib(m) <= Fib(n)
    decreases n - m
  {
    if m < n {
      FibMonotone(m + 1, n);
    }
  }

  lemma FibStep(n: nat)
    ensures Fib(0) == 0 && Fib(1) == 1 && Fib(n + 2) == Fib(n + 1) + Fib(n)
  {
  }

  lemma BinHeight(t: Shape)
    requires t.Bin?
    ensures Size(t) == 1 + Size(t.left) + Size(t.right) && Height(t) == 1 + Max(Height(t.left), Height(t.right))
    ensures Avl(t) ==> Avl(t.left) && Avl(t.right) && -1 <= Height(t.right) - Height(t.left) <= 1
  {
  }

  /** An AVL tree of height `h` has at least `Fib(h + 2) - 1` nodes. */
  lemma {:induction false} AvlSize(t: Shape)
    requires Avl(t)
    ensures Size(t) >= Fib(Height(t) + 2) - 1
  {
    hide Fib, Avl;
    if t.Bin? {
      BinHeight(t);
      AvlSize(t.left);
      AvlSize(t.right);
      var h := Height(t);
      FibStep(h);
      FibMonotone(h, Height(t.left) + 2);
      FibMonotone(h, Height(t.right) + 2);
    } else {
      FibStep(0);
    }
  }

  /** A tree whose root is exempt from balancing can be one higher. */
  lemma RootAvlSize(t: Shape)
    requires RootAvl(t)
    ensures t.Bin? ==> Size(t) >= Fib(Height(t) + 1)
  {
    hide Fib, Avl, Size;
    if t.Bin? {
      BinHeight(t);
      AvlSize(t.left);
      AvlSize(t.right);
    }
  }

  /** A tree as high as the depth test allows holds this many items, at least. */
  lemma TallTree(t: Shape, toRoot: bool)
    requires Balanced(t, toRoot) && Height(t) >= 37
    ensures Size(t) >= if toRoot then 63245985 else 39088169
  {
    FibNumbers();
    if toRoot {
      AvlSize(t);
      FibMonotone(39, Height(t) + 2);
    } else {
      RootAvlSize(t);
      FibMonotone(38, Height(t) + 1);
    }
  }

  lemma FibNumbers()
    ensures Fib(38) == 39088169 && Fib(39) == 63245986
  {
    assert Fib(10) == 55 && Fib(11) == 89;
    assert Fib(20) == 6765 && Fib(21) == 10946;
    assert Fib(30) == 832040 && Fib(31) == 1346269;
  }
}
