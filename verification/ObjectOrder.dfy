/** The order of the object map, dbsimplebase.c:54-73. */
module ObjectOrder {
  import opened ObjectGraph
  import opened TreeOrder
  import opened TreeShape

  /** `strcmp`: the difference of the first characters that differ, the end
      counting as NUL. */
  function StrCmp(a: string, b: string): int {
    if a == [] then (if b == [] then 0 else -(b[0] as int))
    else if b == [] then a[0] as int
    else if a[0] != b[0] then a[0] as int - b[0] as int
    else StrCmp(a[1..], b[1..])
  }

  /** `objectmapcompare`, on keys; a name comes before any id. */
  function ObjectMapCompare(x: Key, y: Key): int {
    if x.def != y.def then x.def - y.def
    else if x.id.Name? then (if y.id.Name? then StrCmp(x.id.s, y.id.s) else -1)
    else if y.id.Name? then 1
    else x.id.n - y.id.n
  }

  predicate Terminated(s: string) {
    '\0' !in s
  }

  predicate KeyOk(k: Key) {
    k.id.Name? ==> Terminated(k.id.s)
  }

  lemma {:induction false} StrCmpOpposite(a: string, b: string)
    ensures StrCmp(a, b) == -StrCmp(b, a)
  {
    if a != [] && b != [] && a[0] == b[0] {
      StrCmpOpposite(a[1..], b[1..]);
    }
  }

  lemma {:induction false} StrCmpTransitive(a: string, b: string, c: string)
    requires Terminated(a) && Terminated(b) && Terminated(c)
    requires StrCmp(a, b) <= 0 && StrCmp(b, c) <= 0
    ensures StrCmp(a, c) <= 0
  {
    if a != [] && b != [] && c != [] && a[0] == b[0] == c[0] {
      StrCmpTransitive(a[1..], b[1..], c[1..]);
    } else {
      assert a != [] ==> a[0] as int != 0;
      assert b != [] ==> b[0] as int != 0;
      assert c != [] ==> c[0] as int != 0;
    }
  }

  lemma {:induction false} StrCmpEqual(a: string, b: string)
    requires Terminated(a) && Terminated(b)
    ensures StrCmp(a, b) == 0 <==> a == b
  {
    if a != [] && b != [] && a[0] == b[0] {
      StrCmpEqual(a[1..], b[1..]);
      assert a == [a[0]] + a[1..] && b == [b[0]] + b[1..];
    } else {
      assert a != [] ==> a[0] as int != 0;
      assert b != [] ==> b[0] as int != 0;
    }
  }

  /** Two objects are at the same place of the map exactly if they have the same key. */
  lemma SamePlaceSameKey(x: Key, y: Key)
    requires KeyOk(x) && KeyOk(y)
    ensures ObjectMapCompare(x, y) == 0 <==> x == y
  {
    if x.id.Name? && y.id.Name? {
      StrCmpEqual(x.id.s, y.id.s);
    }
  }

  lemma {:induction false} CommonStart(p: string, a: string, b: string)
    ensures StrCmp(p + a, p + b) == StrCmp(a, b)
  {
    if p == [] {
      assert p + a == a && p + b == b;
    } else {
      CommonStart(p[1..], a, b);
      assert (p + a)[1..] == p[1..] + a && (p + b)[1..] == p[1..] + b;
    }
  }

  /** What comes earlier: a lower type; of one type, a name before an id; a lower id; of
      two names the shorter one, if the other goes on from it, or else the one with the
      lower character where they part. */
  lemma ComesEarlier(x: Key, y: Key, p: string, a: string, b: string)
    ensures x.def < y.def ==> ObjectMapCompare(x, y) < 0
    ensures x.def == y.def && x.id.Name? && y.id.Id? ==> ObjectMapCompare(x, y) < 0 < ObjectMapCompare(y, x)
    ensures x.def == y.def && x.id.Id? && y.id.Id? && x.id.n < y.id.n ==> ObjectMapCompare(x, y) < 0
    ensures x.def == y.def && x.id == Name(p + a) && y.id == Name(p + b) && b != [] && b[0] != '\0' &&
            (a == [] || a[0] < b[0]) ==>
              ObjectMapCompare(x, y) < 0
  {
    CommonStart(p, a, b);
  }

  /** The order is one that the tree can keep. */
  lemma ObjectMapOrder(keys: Item -> Key, cmp: Comparator)
    requires forall i :: KeyOk(keys(i))
    requires forall i, j :: cmp(i, j) == ObjectMapCompare(keys(i), keys(j))
    ensures TotalPreorder(cmp)
  {
    forall i, j ensures cmp(i, j) == -cmp(j, i) {
      if keys(i).id.Name? && keys(j).id.Name? {
        StrCmpOpposite(keys(i).id.s, keys(j).id.s);
      }
    }
    forall i ensures cmp(i, i) == 0 {
      SamePlaceSameKey(keys(i), keys(i));
    }
    forall i, j, k | cmp(i, j) <= 0 && cmp(j, k) <= 0 ensures cmp(i, k) <= 0 {
      CompareTransitive(keys(i), keys(j), keys(k));
    }
  }

  lemma CompareTransitive(x: Key, y: Key, z: Key)
    requires KeyOk(x) && KeyOk(y) && KeyOk(z)
    requires ObjectMapCompare(x, y) <= 0 && ObjectMapCompare(y, z) <= 0
    ensures ObjectMapCompare(x, z) <= 0
  {
    if x.id.Name? && y.id.Name? && z.id.Name? {
      if x.def == y.def == z.def {
        StrCmpTransitive(x.id.s, y.id.s, z.id.s);
      }
    }
  }
}
