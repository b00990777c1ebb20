/** The values an insert binds, and what a fetch makes of them again,
    dbsimple_sqlite3.c:307-454, 456-556. */
module Bind {
  import opened ObjectGraph
  import opened Schema
  import opened Reach
  import opened Wrappers

  /** What is written for one object. */
  datatype Image = Image(block: Block, id: KeyId, revision: int)

  function IdValue(id: KeyId): Value {
    match id case Id(n) => Integer(n) case Name(t) => Text(t)
  }

  /** The key as the first field's type takes it: an object with a name has id 0. */
  function KeyColumn(kind: FieldType, id: KeyId): Value {
    if Whole(kind) then Integer(if id.Id? then id.n else 0) else if id.Name? then Text(id.s) else Null
  }

  /** The memory of a scalar field; zeroed memory is 0, or no string. */
  function PlainAt(b: Block, f: Field): Value {
    if f.offset in b.plain then b.plain[f.offset] else if f.kind == STRING then Null else Integer(0)
  }

  /** The keys of the objects that references may lead to. */
  type Keys = map<Ptr, KeyId>

  function TargetValue(keys: Keys, q: Ptr): Value {
    if q == 0 then Null else IdValue(if q in keys then keys[q] else Id(0))
  }

  predicate Bindable(f: Field) {
    Scalar(f.kind) || f.kind == REFERENCE
  }

  function FieldValue(d: Definition, x: Image, keys: Keys, i: nat): Value
    requires i < |d.fields|
  {
    var f := d.fields[i];
    if f.kind == REFERENCE then TargetValue(keys, BlockRef(x.block, f.offset))
    else if i == 0 then KeyColumn(f.kind, x.id)
    else if i == 1 && d.hasRevision && Whole(f.kind) then Integer(x.revision)
    else PlainAt(x.block, f)
  }

  /** What an insert writes: the columns of the first `n` fields. */
  function Bound(d: Definition, x: Image, keys: Keys, n: nat): (cols: seq<Value>)
    requires n <= |d.fields|
  {
    if n == 0 then []
    else Bound(d, x, keys, n - 1) + if Bindable(d.fields[n - 1]) then [FieldValue(d, x, keys, n - 1)] else []
  }

  lemma KeyAndRevisionFirst(d: Definition, x: Image, keys: Keys)
    requires KeyField(d) && (d.hasRevision ==> |d.fields| > 1 && Whole(d.fields[1].kind))
    ensures Bound(d, x, keys, 1) == [KeyColumn(d.fields[0].kind, x.id)]
    ensures d.hasRevision ==>
              Bound(d, x, keys, 2) == [KeyColumn(d.fields[0].kind, x.id)] + [Integer(x.revision)]
  {
    assert Bound(d, x, keys, 1) == Bound(d, x, keys, 0) + [FieldValue(d, x, keys, 0)];
  }

  /** Only the ids of the objects that the references lead to matter. */
  lemma {:induction false} SameKeys(d: Definition, x: Image, keys: Keys, keys': Keys, n: nat)
    requires n <= |d.fields|
    requires forall f :: f in d.fields && f.kind == REFERENCE ==>
               TargetValue(keys, BlockRef(x.block, f.offset)) == TargetValue(keys', BlockRef(x.block, f.offset))
    ensures Bound(d, x, keys, n) == Bound(d, x, keys', n)
  {
    hide TargetValue;
    if n > 0 {
      SameKeys(d, x, keys, keys', n - 1);
      assert d.fields[n - 1] in d.fields;
    }
  }

  // ----- where a field's value is

  /** How many of the first `i` fields an insert binds. */
  function BoundColumn(fields: seq<Field>, i: nat): (c: nat)
    requires i <= |fields|
  {
    if i == 0 then 0 else BoundColumn(fields, i - 1) + if Bindable(fields[i - 1]) then 1 else 0
  }

  /** Field `i`'s value is bound in column `BoundColumn(i)`. */
  lemma {:induction false} BoundAt(d: Definition, x: Image, keys: Keys, i: nat, n: nat)
    requires i < n <= |d.fields| && Bindable(d.fields[i])
    ensures |Bound(d, x, keys, n)| == BoundColumn(d.fields, n)
    ensures BoundColumn(d.fields, i) < |Bound(d, x, keys, n)|
    ensures Bound(d, x, keys, n)[BoundColumn(d.fields, i)] == FieldValue(d, x, keys, i)
  {
    BoundLength(d, x, keys, n);
    BoundLength(d, x, keys, n - 1);
    BoundLength(d, x, keys, i);
    if i < n - 1 {
      BoundAt(d, x, keys, i, n - 1);
    }
  }

  lemma {:induction false} BoundLength(d: Definition, x: Image, keys: Keys, n: nat)
    requires n <= |d.fields|
    ensures |Bound(d, x, keys, n)| == BoundColumn(d.fields, n)
  {
    if n > 0 {
      BoundLength(d, x, keys, n - 1);
    }
  }

  lemma {:induction false} CountBound(fields: seq<Field>, i: nat)
    requires i <= |fields|
    ensures BoundColumn(fields, i) == |set j | 0 <= j < i && Bindable(fields[j])|
  {
    hide Bindable;
    if i > 0 {
      CountBound(fields, i - 1);
      NextBound(fields, i);
    }
  }

  lemma NextBound(fields: seq<Field>, i: nat)
    requires 0 < i <= |fields|
    ensures |set j | 0 <= j < i && Bindable(fields[j])| ==
            |set j | 0 <= j < i - 1 && Bindable(fields[j])| + if Bindable(fields[i - 1]) then 1 else 0
  {
    hide Bindable;
    var a := set j | 0 <= j < i - 1 && Bindable(fields[j]);
    var b := set j | 0 <= j < i && Bindable(fields[j]);
    if Bindable(fields[i - 1]) {
      assert b == a + {i - 1};
    } else {
      assert b == a;
    }
  }

  lemma BindableIs(fields: seq<Field>, i: nat)
    requires i <= |fields|
    ensures (set j | 0 <= j < i && Bindable(fields[j])) ==
            set j | 0 <= j < i &&
              (fields[j].kind == INT || fields[j].kind == UINT || fields[j].kind == LONGINT ||
               fields[j].kind == ULONGINT || fields[j].kind == STRING || fields[j].kind == REFERENCE)
  {
  }

  /** The columns that an insert binds, each from the memory of its field: the key, the
      revision in the second column if there is one, the scalars as they are in the
      block, where nothing is 0 or no string, and the ids of what references lead to. */
  lemma ColumnIs(d: Definition, x: Image, keys: Keys, i: nat)
    requires i < |d.fields| && d.fields[i].kind != BACKREFERENCE && d.fields[i].kind != MASTERREFERENCES
    requires d.fields[i].kind != STUBREFERENCES && d.fields[i].kind != OPENREFERENCES
    ensures var fields, f, cols := d.fields, d.fields[i], Bound(d, x, keys, |d.fields|);
            var c := |set j | 0 <= j < i &&
                       (fields[j].kind == INT || fields[j].kind == UINT || fields[j].kind == LONGINT ||
                        fields[j].kind == ULONGINT || fields[j].kind == STRING || fields[j].kind == REFERENCE)|;
            && c < |cols|
            && (f.kind == REFERENCE ==>
                  var q := if f.offset in x.block.refs then x.block.refs[f.offset] else 0;
                  cols[c] == if q == 0 then Null
                             else if q !in keys then Integer(0)
                             else if keys[q].Id? then Integer(keys[q].n) else Text(keys[q].s))
            && (f.kind != REFERENCE && i == 0 ==>
                  cols[c] == if f.kind == STRING then (if x.id.Name? then Text(x.id.s) else Null)
                             else Integer(if x.id.Id? then x.id.n else 0))
            && (f.kind != REFERENCE && i == 1 && d.hasRevision && f.kind != STRING ==> cols[c] == Integer(x.revision))
            && (f.kind != REFERENCE && i > 0 && (i > 1 || !d.hasRevision || f.kind == STRING) ==>
                  cols[c] == if f.offset in x.block.plain then x.block.plain[f.offset]
                             else if f.kind == STRING then Null else Integer(0))
  {
    hide Bound, BoundColumn;
    BoundAt(d, x, keys, i, |d.fields|);
    CountBound(d.fields, i);
    BindableIs(d.fields, i);
  }

  // ----- reading a written row again

  /** A fetched row without the columns of its back references. */
  function WithoutBacks(s: Schema, r: Row, n: nat): (cols: seq<Value>)
    requires r.def in s && DefinitionOk(s, r.def) && n <= |s[r.def].fields|
  {
    if n == 0 then []
    else WithoutBacks(s, r, n - 1) + if Bindable(s[r.def].fields[n - 1]) then [ColumnAt(s, r, n - 1)] else []
  }

  /** How many of the first `i` fields are back references to an object with a key column. */
  function Backs(s: Schema, fields: seq<Field>, i: nat): (c: nat)
    requires i <= |fields| && forall f :: f in fields ==> TargetKnown(s, f)
  {
    if i == 0 then 0
    else Backs(s, fields, i - 1) +
         if fields[i - 1].kind == BACKREFERENCE && TakesColumn(s, fields[i - 1]) then 1 else 0
  }

  /** The column counters of a fetch and of an insert differ by the back
      references before the field that a fetch reads a key for. */
  lemma {:induction false} ColumnsDiffer(s: Schema, fields: seq<Field>, i: nat)
    requires i <= |fields| && forall f :: f in fields ==> TargetKnown(s, f)
    ensures ColumnOf(s, fields, i) == BoundColumn(fields, i) + Backs(s, fields, i)
  {
    if i > 0 {
      ColumnsDiffer(s, fields, i - 1);
      assert fields[i - 1] in fields;
    }
  }

  lemma {:induction false} WithoutBacksLength(s: Schema, r: Row, n: nat)
    requires r.def in s && DefinitionOk(s, r.def) && n <= |s[r.def].fields|
    ensures |WithoutBacks(s, r, n)| == BoundColumn(s[r.def].fields, n)
  {
    hide DefinitionOk, ColumnAt;
    if n > 0 {
      WithoutBacksLength(s, r, n - 1);
    }
  }

  lemma {:induction false} SameColumns(s: Schema, r: Row, x: Image, keys: Keys, i: nat, n: nat)
    requires r.def in s && DefinitionOk(s, r.def)
    requires i < n <= |s[r.def].fields| && Bindable(s[r.def].fields[i])
    requires WithoutBacks(s, r, n) == Bound(s[r.def], x, keys, n)
    ensures ColumnAt(s, r, i) == FieldValue(s[r.def], x, keys, i)
  {
    hide DefinitionOk, ColumnAt, FieldValue;
    var d := s[r.def];
    WithoutBacksLength(s, r, n - 1);
    BoundLength(d, x, keys, n - 1);
    var a, b := WithoutBacks(s, r, n), Bound(d, x, keys, n);
    var k := BoundColumn(d.fields, n - 1);
    assert a[..k] == WithoutBacks(s, r, n - 1) && b[..k] == Bound(d, x, keys, n - 1);
    if i < n - 1 {
      SameColumns(s, r, x, keys, i, n - 1);
    } else {
      assert a[k] == ColumnAt(s, r, i) && b[k] == FieldValue(d, x, keys, i);
    }
  }

  /** The key of the object a reference leads to. */
  function TargetKey(f: Field, keys: Keys, q: Ptr): Key
    requires f.def.Some?
  {
    Key(f.def.value, if q in keys then keys[q] else Id(0))
  }

  /** `r` is what a query gives for the row an insert wrote for `x`; it may have
      columns for back references in addition. */
  ghost predicate ReadOf(s: Schema, r: Row, x: Image, keys: Keys) {
    && RowOk(s, r)
    && WithoutBacks(s, r, |s[r.def].fields|) == Bound(s[r.def], x, keys, |s[r.def].fields|)
  }

  /** Reading a written row gives the key, the revision and the scalars back. */
  lemma WrittenIsRead(s: Schema, r: Row, x: Image, keys: Keys, i: nat)
    requires ReadOf(s, r, x, keys) && i < |s[r.def].fields| && Scalar(s[r.def].fields[i].kind)
    ensures ColumnAt(s, r, i) ==
            if i == 0 then KeyColumn(s[r.def].fields[0].kind, x.id)
            else if i == 1 && s[r.def].hasRevision then Integer(x.revision)
            else PlainAt(x.block, s[r.def].fields[i])
    ensures (x.id.Id? <==> Whole(s[r.def].fields[0].kind)) ==> RowKey(s, r) == Key(r.def, x.id)
  {
    hide Bound, WithoutBacks, PlainAt, RowTyped;
    SameColumns(s, r, x, keys, i, |s[r.def].fields|);
    SameColumns(s, r, x, keys, 0, |s[r.def].fields|);
  }

  /** A reference field of a written row leads to the object it led to, or nowhere. */
  lemma WrittenReferenceIsRead(s: Schema, r: Row, x: Image, keys: Keys, i: nat)
    requires ReadOf(s, r, x, keys) && 0 < i < |s[r.def].fields| && s[r.def].fields[i].kind == REFERENCE
    ensures var f := s[r.def].fields[i];
            var q := BlockRef(x.block, f.offset);
            && TargetKnown(s, f)
            && FieldLink(s, f, RowKey(s, r), ColumnAt(s, r, i)) ==
               if q == 0 then [] else [Link(false, RowKey(s, r), f.offset, TargetKey(f, keys, q))]
  {
    hide Bound, WithoutBacks, PlainAt, RowTyped, RowKey, ColumnAt;
    assert s[r.def].fields[i] in s[r.def].fields;
    SameColumns(s, r, x, keys, i, |s[r.def].fields|);
  }
}
