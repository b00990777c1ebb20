/** Definitions of record types and the columns of their rows, dbsimple.h:37-68
    and dbsimple_sqlite3.c:326-436. */
module Schema {
  import opened ObjectGraph
  import opened Wrappers

  datatype FieldType =
    | INT | UINT | LONGINT | ULONGINT | STRING
    | REFERENCE | BACKREFERENCE | MASTERREFERENCES | STUBREFERENCES | OPENREFERENCES

  datatype Field = Field(kind: FieldType, def: Option<nat>, offset: int)

  datatype Definition = Definition(
    fields: seq<Field>, hasRevision: bool, singleton: bool, explicitRemove: bool, autoRemove: bool)

  type Schema = map<nat, Definition>

  predicate Whole(t: FieldType) {
    t == INT || t == UINT || t == LONGINT || t == ULONGINT
  }

  predicate Scalar(t: FieldType) {
    Whole(t) || t == STRING
  }

  /** Fields that lead to other objects know where. */
  predicate TargetKnown(s: Schema, f: Field) {
    f.kind == REFERENCE || f.kind == BACKREFERENCE ==>
      f.def.Some? && f.def.value in s && (s[f.def.value].singleton || KeyField(s[f.def.value]))
  }

  /** The first field is the key. */
  predicate KeyField(d: Definition) {
    |d.fields| > 0 && Scalar(d.fields[0].kind)
  }

  predicate DefinitionOk(s: Schema, def: nat)
    requires def in s
  {
    var d := s[def];
    && (forall f :: f in d.fields ==> TargetKnown(s, f))
    && (d.singleton || (KeyField(d) && d.fields[0].def == Some(def)))
    && (d.hasRevision ==> |d.fields| > 1 && Whole(d.fields[1].kind))
    && (forall i, j :: 0 <= i < j < |d.fields| && d.fields[i].kind == d.fields[j].kind == REFERENCE ==>
          d.fields[i].offset != d.fields[j].offset)
    && (forall i, j :: 0 <= i < j < |d.fields| && Scalar(d.fields[i].kind) && Scalar(d.fields[j].kind) ==>
          d.fields[j].offset < 0 || d.fields[i].offset != d.fields[j].offset)
  }

  predicate SchemaOk(s: Schema) {
    forall def :: def in s ==> DefinitionOk(s, def)
  }

  // ----- columns

  predicate TakesColumn(s: Schema, f: Field)
    requires TargetKnown(s, f)
  {
    Scalar(f.kind) || f.kind == REFERENCE || (f.kind == BACKREFERENCE && !s[f.def.value].singleton)
  }

  /** The column of field `i`: how many fields before it bear one. */
  function ColumnOf(s: Schema, fields: seq<Field>, i: nat): (c: nat)
    requires i <= |fields| && forall f :: f in fields ==> TargetKnown(s, f)
  {
    if i == 0 then 0
    else ColumnOf(s, fields, i - 1) + if TakesColumn(s, fields[i - 1]) then 1 else 0
  }

  lemma {:induction false} ColumnsGrow(s: Schema, fields: seq<Field>, i: nat, j: nat)
    requires i <= j <= |fields| && forall f :: f in fields ==> TargetKnown(s, f)
    ensures ColumnOf(s, fields, i) <= ColumnOf(s, fields, j)
    ensures i < j && TakesColumn(s, fields[i]) ==> ColumnOf(s, fields, i) < ColumnOf(s, fields, j)
  {
    if i < j {
      ColumnsGrow(s, fields, i, j - 1);
    }
  }

  predicate KeyTyped(s: Schema, def: nat, v: Value)
    requires def in s
  {
    && !s[def].singleton && KeyField(s[def])
    && if Whole(s[def].fields[0].kind) then v.Integer? else v.Text?
  }

  /** The column types `fetchobject` asserts, dbsimple_sqlite3.c:334-419. */
  predicate ColumnTyped(s: Schema, f: Field, v: Value)
    requires TargetKnown(s, f)
  {
    if Whole(f.kind) then v.Integer?
    else if f.kind == STRING then v.Text?
    else TakesColumn(s, f) ==> v.Null? || KeyTyped(s, f.def.value, v)
  }

  predicate RowTyped(s: Schema, fields: seq<Field>, cols: seq<Value>)
    requires forall f :: f in fields ==> TargetKnown(s, f)
  {
    && |cols| == ColumnOf(s, fields, |fields|)
    && forall i :: 0 <= i < |fields| && TakesColumn(s, fields[i]) ==>
         ColumnOf(s, fields, i) < |cols| && ColumnTyped(s, fields[i], cols[ColumnOf(s, fields, i)])
  }

  function KeyOf(def: nat, v: Value): Key
    requires !v.Null?
  {
    Key(def, match v case Integer(n) => Id(n) case Text(t) => Name(t))
  }

  /** The row of a table: the key is its first column. */
  datatype Row = Row(def: nat, cols: seq<Value>)

  predicate RowOk(s: Schema, r: Row) {
    && SchemaOk(s) && r.def in s && DefinitionOk(s, r.def) && !s[r.def].singleton
    && RowTyped(s, s[r.def].fields, r.cols) && KeyTyped(s, r.def, ColumnAt(s, r, 0))
  }

  function ColumnAt(s: Schema, r: Row, i: nat): Value
    requires r.def in s && DefinitionOk(s, r.def) && i < |s[r.def].fields|
  {
    var c := ColumnOf(s, s[r.def].fields, i);
    if c < |r.cols| then r.cols[c] else Null
  }

  function RowKey(s: Schema, r: Row): Key
    requires RowOk(s, r)
  {
    KeyOf(r.def, ColumnAt(s, r, 0))
  }

  // ----- what a row says

  /** The object a field leads to, and from which side. */
  function FieldLink(s: Schema, f: Field, k: Key, v: Value): seq<Link>
    requires TargetKnown(s, f)
  {
    if f.kind == REFERENCE then
      if v.Null? then [] else [Link(false, k, f.offset, KeyOf(f.def.value, v))]
    else if f.kind == BACKREFERENCE then
      if s[f.def.value].singleton then [Link(true, k, f.offset, Key(f.def.value, Id(0)))]
      else if v.Null? then [] else [Link(true, k, f.offset, KeyOf(f.def.value, v))]
    else []
  }

  function RowLinks(s: Schema, r: Row, i: nat): (links: seq<Link>)
    requires RowOk(s, r) && i <= |s[r.def].fields|
  {
    if i == 0 then []
    else RowLinks(s, r, i - 1) + FieldLink(s, s[r.def].fields[i - 1], RowKey(s, r), ColumnAt(s, r, i - 1))
  }

  function AllRowLinks(s: Schema, r: Row): (links: seq<Link>)
    requires RowOk(s, r)
  {
    RowLinks(s, r, |s[r.def].fields|)
  }

  ghost predicate RowsOk(s: Schema, rows: seq<Row>) {
    forall r :: r in rows ==> RowOk(s, r)
  }

  function Links(s: Schema, rows: seq<Row>): (links: seq<Link>)
    requires RowsOk(s, rows)
  {
    if rows == [] then []
    else Links(s, rows[..|rows| - 1]) + AllRowLinks(s, rows[|rows| - 1])
  }

  /** The links of a row start at its object, and each belongs to a field. */
  lemma {:induction false} RowLinksFrom(s: Schema, r: Row, i: nat, l: Link)
    requires RowOk(s, r) && i <= |s[r.def].fields| && l in RowLinks(s, r, i)
    ensures l.source == RowKey(s, r)
    ensures exists j :: 0 <= j < i && s[r.def].fields[j].offset == l.offset
                        && (s[r.def].fields[j].kind == if l.back then BACKREFERENCE else REFERENCE)
  {
    var f := s[r.def].fields[i - 1];
    if l !in FieldLink(s, f, RowKey(s, r), ColumnAt(s, r, i - 1)) {
      RowLinksFrom(s, r, i - 1, l);
    }
  }

  // ----- the order of rows does not matter to the links

  lemma LinksSnoc(s: Schema, rows: seq<Row>, r: Row)
    requires RowsOk(s, rows) && RowOk(s, r)
    ensures RowsOk(s, rows + [r]) && Links(s, rows + [r]) == Links(s, rows) + AllRowLinks(s, r)
  {
    hide RowOk, AllRowLinks;
    assert (rows + [r])[..|rows|] == rows;
  }

  lemma WithoutOne(rest: seq<Row>, r: Row, rows: seq<Row>) returns (a: seq<Row>, b: seq<Row>)
    requires multiset(rest + [r]) == multiset(rows)
    ensures rows == a + [r] + b && multiset(a + b) == multiset(rest)
  {
    assert multiset(rest + [r]) == multiset(rest) + multiset{r};
    assert r in multiset(rows);
    var j :| 0 <= j < |rows| && rows[j] == r;
    a, b := rows[..j], rows[j + 1..];
    assert rows == a + [r] + b;
    forall x ensures multiset(a + b)[x] == multiset(rest)[x] {
      assert multiset(rest + [r])[x] == multiset(a + [r] + b)[x];
    }
  }

  /** How often a link is asked for depends only on which rows there are. */
  lemma {:induction false} LinksOfPermutation(s: Schema, rows: seq<Row>, rows': seq<Row>)
    requires multiset(rows) == multiset(rows') && RowsOk(s, rows) && RowsOk(s, rows')
    ensures multiset(Links(s, rows)) == multiset(Links(s, rows'))
    decreases |rows|
  {
    hide RowOk, AllRowLinks;
    if rows == [] {
      assert |multiset(rows')| == 0;
      assert rows' == [];
    } else {
      hide Links;
      var rest, r := rows[..|rows| - 1], rows[|rows| - 1];
      assert rows == rest + [r];
      var a, b := WithoutOne(rest, r, rows');
      assert forall x :: x in a || x in b ==> x in rows';
      LinksOfSplit(s, a, r, b);
      LinksOfPermutation(s, rest, a + b);
      LinksSnoc(s, rest, r);
    }
  }

  lemma {:induction false} LinksOfSplit(s: Schema, a: seq<Row>, r: Row, b: seq<Row>)
    requires RowsOk(s, a) && RowOk(s, r) && RowsOk(s, b)
    ensures RowsOk(s, a + [r] + b) && RowsOk(s, a + b)
    ensures multiset(Links(s, a + [r] + b)) == multiset(Links(s, a + b)) + multiset(AllRowLinks(s, r))
    decreases |b|
  {
    hide RowOk, AllRowLinks, Links;
    if b == [] {
      LinksSnoc(s, a, r);
      assert a + [r] + b == a + [r];
      assert a + b == a;
    } else {
      var init, x := b[..|b| - 1], b[|b| - 1];
      LinksOfSplit(s, a, r, init);
      LinksSnoc(s, a + [r] + init, x);
      LinksSnoc(s, a + init, x);
      assert a + [r] + b == a + [r] + init + [x];
      assert a + b == a + init + [x];
    }
  }
}
