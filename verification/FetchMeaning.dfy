/** What a fetched graph is, said with the columns of the rows alone,
    dbsimple_sqlite3.c:307-454. */
module FetchMeaning {
  import opened ObjectGraph
  import opened Schema
  import opened Fetch
  import opened Wrappers

  // ----- the columns of a row

  /** The column of a field: how many fields before it bear one.  Those are scalars,
      references, and back references to a type that is no singleton. */
  lemma ColumnNumber(s: Schema, r: Row, i: nat)
    requires RowOk(s, r) && i < |s[r.def].fields|
    ensures var fields := s[r.def].fields;
            var c := |set j | 0 <= j < i &&
                       (fields[j].kind == INT || fields[j].kind == UINT || fields[j].kind == LONGINT ||
                        fields[j].kind == ULONGINT || fields[j].kind == STRING || fields[j].kind == REFERENCE ||
                        (fields[j].kind == BACKREFERENCE && fields[j].def.Some? && fields[j].def.value in s &&
                         !s[fields[j].def.value].singleton))|;
            ColumnAt(s, r, i) == if c < |r.cols| then r.cols[c] else Null
    ensures RowKey(s, r) == match ColumnAt(s, r, 0) {
                              case Integer(n) => Key(r.def, Id(n))
                              case Text(t) => Key(r.def, Name(t))
                            }
  {
    hide RowTyped, KeyTyped, SchemaOk;
    var fields := s[r.def].fields;
    CountColumns(s, fields, i);
    forall j | 0 <= j < i
      ensures TargetKnown(s, fields[j])
      ensures TakesColumn(s, fields[j]) <==>
              (fields[j].kind == INT || fields[j].kind == UINT || fields[j].kind == LONGINT ||
               fields[j].kind == ULONGINT || fields[j].kind == STRING || fields[j].kind == REFERENCE ||
               (fields[j].kind == BACKREFERENCE && fields[j].def.Some? && fields[j].def.value in s &&
                !s[fields[j].def.value].singleton))
    {
      assert fields[j] in fields;
    }
    assert (set j | 0 <= j < i && TakesColumn(s, fields[j])) ==
           set j | 0 <= j < i &&
             (fields[j].kind == INT || fields[j].kind == UINT || fields[j].kind == LONGINT ||
              fields[j].kind == ULONGINT || fields[j].kind == STRING || fields[j].kind == REFERENCE ||
              (fields[j].kind == BACKREFERENCE && fields[j].def.Some? && fields[j].def.value in s &&
               !s[fields[j].def.value].singleton));
  }

  lemma {:induction false} CountColumns(s: Schema, fields: seq<Field>, i: nat)
    requires i <= |fields| && forall f :: f in fields ==> TargetKnown(s, f)
    ensures ColumnOf(s, fields, i) == |set j | 0 <= j < i && TakesColumn(s, fields[j])|
  {
    hide TakesColumn, TargetKnown;
    if i > 0 {
      CountColumns(s, fields, i - 1);
      NextColumn(s, fields, i);
    }
  }

  lemma NextColumn(s: Schema, fields: seq<Field>, i: nat)
    requires 0 < i <= |fields| && forall f :: f in fields ==> TargetKnown(s, f)
    ensures |set j | 0 <= j < i && TakesColumn(s, fields[j])| ==
            |set j | 0 <= j < i - 1 && TakesColumn(s, fields[j])| + if TakesColumn(s, fields[i - 1]) then 1 else 0
  {
    hide TakesColumn, TargetKnown;
    var a := set j | 0 <= j < i - 1 && TakesColumn(s, fields[j]);
    var b := set j | 0 <= j < i && TakesColumn(s, fields[j]);
    if TakesColumn(s, fields[i - 1]) {
      assert b == a + {i - 1};
    } else {
      assert b == a;
    }
  }

  // ----- the links of a row

  lemma {:induction false} LinkOfRow(s: Schema, rows: seq<Row>, l: Link)
    requires RowsOk(s, rows)
    ensures l in Links(s, rows) <==> exists r :: r in rows && l in AllRowLinks(s, r)
  {
    hide RowOk, AllRowLinks;
    if rows != [] {
      var init, last := rows[..|rows| - 1], rows[|rows| - 1];
      assert rows == init + [last];
      LinkOfRow(s, init, l);
      if l in Links(s, rows) && l !in Links(s, init) {
        assert l in AllRowLinks(s, last) && last in rows;
      }
      if exists r :: r in rows && l in AllRowLinks(s, r) {
        var r :| r in rows && l in AllRowLinks(s, r);
        assert r in init || r == last;
      }
    }
  }

  ghost predicate OfField(s: Schema, r: Row, j: nat, l: Link)
    requires RowOk(s, r) && j < |s[r.def].fields|
  {
    l in FieldLink(s, s[r.def].fields[j], RowKey(s, r), ColumnAt(s, r, j))
  }

  lemma {:induction false} LinkOfField(s: Schema, r: Row, i: nat, l: Link)
    requires RowOk(s, r) && i <= |s[r.def].fields|
    ensures l in RowLinks(s, r, i) <==> exists j :: 0 <= j < i && OfField(s, r, j, l)
  {
    hide RowTyped, KeyTyped, SchemaOk, DefinitionOk;
    if i > 0 {
      LinkOfField(s, r, i - 1, l);
      LastField(s, r, i, l);
      hide OfField, RowLinks;
    }
  }

  lemma LastField(s: Schema, r: Row, i: nat, l: Link)
    requires RowOk(s, r) && 0 < i <= |s[r.def].fields|
    ensures l in RowLinks(s, r, i) <==> l in RowLinks(s, r, i - 1) || OfField(s, r, i - 1, l)
  {
    hide RowTyped, KeyTyped, SchemaOk, RowKey, ColumnAt, FieldLink;
    assert s[r.def].fields[i - 1] in s[r.def].fields;
    assert RowLinks(s, r, i) ==
           RowLinks(s, r, i - 1) + FieldLink(s, s[r.def].fields[i - 1], RowKey(s, r), ColumnAt(s, r, i - 1));
  }

  lemma FieldLinkIs(s: Schema, r: Row, j: nat, l: Link)
    requires RowOk(s, r) && j < |s[r.def].fields| && OfField(s, r, j, l)
    ensures l.source == RowKey(s, r) && l.offset == s[r.def].fields[j].offset
    ensures !l.back <==> s[r.def].fields[j].kind == REFERENCE
  {
    hide RowTyped, KeyTyped, SchemaOk;
  }

  /** No key is read twice. */
  lemma OneRow(s: Schema, plan: seq<nat>, tables: Tables, r: Row, r': Row)
    requires PlanOk(s, plan, tables) && r in AllRows(s, plan, tables) && r' in AllRows(s, plan, tables)
    requires RowKey(s, r) == RowKey(s, r')
    ensures r == r'
  {
    RowsOfPlan(s, plan, tables, r);
    RowsOfPlan(s, plan, tables, r');
    hide RowOk, ColumnAt, SchemaOk;
    assert r in multiset(AllRows(s, plan, tables)) && r' in multiset(AllRows(s, plan, tables));
    KeyDef(s, r);
    KeyDef(s, r');
    var table := tables[r.def];
    assert r in table && r' in table;
    var i :| 0 <= i < |table| && table[i] == r;
    var j :| 0 <= j < |table| && table[j] == r';
  }

  lemma KeyDef(s: Schema, r: Row)
    requires RowOk(s, r)
    ensures RowKey(s, r).def == r.def
  {
  }

  lemma ReferenceLinked(s: Schema, plan: seq<nat>, tables: Tables, m: Objects, r: Row, j: nat)
    requires PlanOk(s, plan, tables) && IsFetchOf(s, m, AllRows(s, plan, tables), Singles(s, plan))
    requires r in AllRows(s, plan, tables) && j < |s[r.def].fields| && s[r.def].fields[j].kind == REFERENCE
    ensures var f := s[r.def].fields[j];
            && TargetKnown(s, f)
            && RefOf(m, RowKey(s, r), f.offset) ==
               match FieldLink(s, f, RowKey(s, r), ColumnAt(s, r, j))
               case ls => if ls != [] && Fetched(m, ls[0].target) then Some(ls[0].target) else None
  {
    hide RowTyped, KeyTyped, RowKey, ColumnAt, RefOf, Fetched, ListOf, PatchesOf, FaceOf, ScalarsRead, PlanOk, AllRows;
    var rows, k, f := AllRows(s, plan, tables), RowKey(s, r), s[r.def].fields[j];
    assert f in s[r.def].fields;
    var ls := FieldLink(s, f, k, ColumnAt(s, r, j));
    if ls != [] && Fetched(m, ls[0].target) {
      LinkIn(s, rows, r, j, ls[0]);
      FieldLinkIs(s, r, j, ls[0]);
      assert ls[0] == Link(false, k, f.offset, ls[0].target);
    } else if RefOf(m, k, f.offset).Some? {
      var l := Link(false, k, f.offset, RefOf(m, k, f.offset).value);
      LinkFrom(s, plan, tables, r, j, l);
    }
  }

  lemma LinkIn(s: Schema, rows: seq<Row>, r: Row, j: nat, l: Link)
    requires RowsOk(s, rows) && r in rows && j < |s[r.def].fields| && OfField(s, r, j, l)
    ensures l in Links(s, rows)
  {
    hide OfField, RowTyped, KeyTyped, SchemaOk;
    LinkOfField(s, r, |s[r.def].fields|, l);
    LinkOfRow(s, rows, l);
  }

  lemma LinkFrom(s: Schema, plan: seq<nat>, tables: Tables, r: Row, j: nat, l: Link)
    requires PlanOk(s, plan, tables) && r in AllRows(s, plan, tables) && j < |s[r.def].fields|
    requires s[r.def].fields[j].kind == REFERENCE && !l.back && l.source == RowKey(s, r)
    requires l.offset == s[r.def].fields[j].offset && l in Links(s, AllRows(s, plan, tables))
    ensures OfField(s, r, j, l)
  {
    hide OfField, AllRowLinks, RowTyped, KeyTyped, RowKey, AllRows, TableOk, Links;
    var rows := AllRows(s, plan, tables);
    LinkOfRow(s, rows, l);
    var r' :| r' in rows && l in AllRowLinks(s, r');
    AllLinks(s, r', l);
    var i :| 0 <= i < |s[r'.def].fields| && OfField(s, r', i, l);
    FieldLinkIs(s, r', i, l);
    OneRow(s, plan, tables, r, r');
    assert DefinitionOk(s, r.def);
  }

  lemma AllLinks(s: Schema, r: Row, l: Link)
    requires RowOk(s, r) && l in AllRowLinks(s, r)
    ensures exists i :: 0 <= i < |s[r.def].fields| && OfField(s, r, i, l)
  {
    hide OfField, RowLinks, RowTyped, KeyTyped, SchemaOk;
    LinkOfField(s, r, |s[r.def].fields|, l);
  }

  /** A reference field of a fetched object is set to what its column names, if that
      was fetched as well. */
  lemma ReferenceIs(s: Schema, plan: seq<nat>, tables: Tables, m: Objects, r: Row, j: nat)
    requires PlanOk(s, plan, tables) && IsFetchOf(s, m, AllRows(s, plan, tables), Singles(s, plan))
    requires r in AllRows(s, plan, tables) && j < |s[r.def].fields| && s[r.def].fields[j].kind == REFERENCE
    ensures var f := s[r.def].fields[j];
            && f.def.Some?
            && var named := match ColumnAt(s, r, j) {
                 case Null => None
                 case Integer(n) => Some(Key(f.def.value, Id(n)))
                 case Text(t) => Some(Key(f.def.value, Name(t)))
               };
               RefOf(m, RowKey(s, r), f.offset) ==
               if named.Some? && named.value in m && m[named.value].data.Some? then named else None
  {
    hide IsFetchOf, AllRows, RowKey, ColumnAt, RefOf;
    assert s[r.def].fields[j] in s[r.def].fields;
    ReferenceLinked(s, plan, tables, m, r, j);
  }

  // ----- collections

  /** The collection of a fetched object `t` at offset `o` holds a row's object as often
      as the row has a back reference with that offset that names `t`: one to the type
      of `t` whose column holds the id of `t`, or which needs no column as `t` is a
      singleton. */
  lemma CollectionIs(s: Schema, plan: seq<nat>, tables: Tables, m: Objects, r: Row, t: Key, o: int)
    requires PlanOk(s, plan, tables) && IsFetchOf(s, m, AllRows(s, plan, tables), Singles(s, plan))
    requires r in AllRows(s, plan, tables) && t in m && m[t].data.Some?
    ensures var fields := s[r.def].fields;
            multiset(ListOf(m, t, o))[RowKey(s, r)] ==
            |set j | 0 <= j < |fields| && fields[j].kind == BACKREFERENCE && fields[j].offset == o &&
               fields[j].def == Some(t.def) && t.def in s &&
               match ColumnAt(s, r, j) {
                 case Null => s[t.def].singleton && t.id == Id(0)
                 case Integer(n) => t.id == Id(if s[t.def].singleton then 0 else n)
                 case Text(x) => t.id == if s[t.def].singleton then Id(0) else Name(x)
               }|
  {
    hide RowTyped, KeyTyped, RowKey, ColumnAt, RefOf, PatchesOf, FaceOf, ScalarsRead, PlanOk, AllRows, Links,
      AllRowLinks, FieldLink, SchemaOk;
    var rows, l := AllRows(s, plan, tables), Link(true, RowKey(s, r), o, t);
    var fields := s[r.def].fields;
    OwnLinks(s, plan, tables, r, l);
    CountRowLinks(s, r, |fields|, l);
    AllLinksAre(s, r);
    var a := FieldsOf(s, r, |fields|, l);
    var b := set j | 0 <= j < |fields| && fields[j].kind == BACKREFERENCE && fields[j].offset == o &&
               fields[j].def == Some(t.def) && t.def in s &&
               match ColumnAt(s, r, j) {
                 case Null => s[t.def].singleton && t.id == Id(0)
                 case Integer(n) => t.id == Id(if s[t.def].singleton then 0 else n)
                 case Text(x) => t.id == if s[t.def].singleton then Id(0) else Name(x)
               };
    forall j | 0 <= j < |fields| ensures j in a <==> j in b {
      OneLinkIs(s, r, j, l);
    }
    assert a == b;
  }

  /** Nothing else is in it. */
  lemma OnlyRows(s: Schema, plan: seq<nat>, tables: Tables, m: Objects, t: Key, o: int, k: Key)
    requires PlanOk(s, plan, tables) && IsFetchOf(s, m, AllRows(s, plan, tables), Singles(s, plan))
    requires t in m && m[t].data.Some? && k in ListOf(m, t, o)
    ensures exists r :: r in AllRows(s, plan, tables) && RowKey(s, r) == k
  {
    hide RowOk, RowKey, ColumnAt, RefOf, PatchesOf, FaceOf, ScalarsRead, PlanOk, AllRows, Links, ListOf, AllRowLinks;
    var rows, l := AllRows(s, plan, tables), Link(true, k, o, t);
    assert k in multiset(ListOf(m, t, o));
    assert Fetched(m, t) && l in multiset(Links(s, rows));
    LinkOfRow(s, rows, l);
    var r :| r in rows && l in AllRowLinks(s, r);
    AllLinksFrom(s, r, l);
  }

  lemma AllLinksFrom(s: Schema, r: Row, l: Link)
    requires RowOk(s, r) && l in AllRowLinks(s, r)
    ensures l.source == RowKey(s, r)
  {
    RowLinksFrom(s, r, |s[r.def].fields|, l);
  }

  /** No row arrives twice, so the links from a row's object are those of the row. */
  lemma OwnLinks(s: Schema, plan: seq<nat>, tables: Tables, r: Row, l: Link)
    requires PlanOk(s, plan, tables) && r in AllRows(s, plan, tables) && l.source == RowKey(s, r)
    ensures multiset(Links(s, AllRows(s, plan, tables)))[l] == multiset(AllRowLinks(s, r))[l]
  {
    hide RowOk, RowKey, AllRowLinks, Links, SchemaOk, AllRows, PlanOk;
    var rows := AllRows(s, plan, tables);
    RowOnce(s, plan, tables, r);
    var a, b := AroundOne(rows, r);
    LinksOfSplit(s, a, r, b);
    forall r' | r' in a + b && l in AllRowLinks(s, r') ensures false {
      AllLinksFrom(s, r', l);
      OneRow(s, plan, tables, r, r');
    }
    LinkOfRow(s, a + b, l);
  }

  lemma AroundOne<T>(all: seq<T>, r: T) returns (a: seq<T>, b: seq<T>)
    requires multiset(all)[r] == 1
    ensures all == a + [r] + b && r !in a + b && forall x :: x in a + b ==> x in all
  {
    assert r in multiset(all);
    var i :| 0 <= i < |all| && all[i] == r;
    a, b := all[..i], all[i + 1..];
    assert all == a + [r] + b;
    assert multiset(all) == multiset(a + b) + multiset{r};
    assert r !in multiset(a + b);
  }

  lemma CountedOnce<T>(all: seq<T>, i: nat)
    requires i < |all| && forall j :: 0 <= j < |all| && j != i ==> all[j] != all[i]
    ensures multiset(all)[all[i]] == 1
  {
    assert all == all[..i] + [all[i]] + all[i + 1..];
    assert all[i] !in all[..i] && all[i] !in all[i + 1..];
  }

  lemma RowOnce(s: Schema, plan: seq<nat>, tables: Tables, r: Row)
    requires PlanOk(s, plan, tables) && r in AllRows(s, plan, tables)
    ensures multiset(AllRows(s, plan, tables))[r] == 1
  {
    hide RowOk, RowKey, SchemaOk, AllRows;
    RowsOfPlan(s, plan, tables, r);
    assert r in multiset(AllRows(s, plan, tables));
    var table := tables[r.def];
    assert r in multiset(table) && TableOk(s, r.def, table);
    var i :| 0 <= i < |table| && table[i] == r;
    CountedOnce(table, i);
  }

  ghost function FieldsOf(s: Schema, r: Row, i: nat, l: Link): set<int>
    requires RowOk(s, r) && i <= |s[r.def].fields|
  {
    set j | 0 <= j < i && OfField(s, r, j, l)
  }

  lemma {:induction false} CountRowLinks(s: Schema, r: Row, i: nat, l: Link)
    requires RowOk(s, r) && i <= |s[r.def].fields|
    ensures multiset(RowLinks(s, r, i))[l] == |FieldsOf(s, r, i, l)|
  {
    hide *;
    if i == 0 {
      NoLinks(s, r, l);
    } else {
      CountRowLinks(s, r, i - 1, l);
      NextLink(s, r, i, l);
      NextField(s, r, i, l);
    }
  }

  lemma NoLinks(s: Schema, r: Row, l: Link)
    requires RowOk(s, r)
    ensures multiset(RowLinks(s, r, 0))[l] == 0 == |FieldsOf(s, r, 0, l)|
  {
    assert FieldsOf(s, r, 0, l) == {};
  }

  lemma NextField(s: Schema, r: Row, i: nat, l: Link)
    requires RowOk(s, r) && 0 < i <= |s[r.def].fields|
    ensures |FieldsOf(s, r, i, l)| == |FieldsOf(s, r, i - 1, l)| + if OfField(s, r, i - 1, l) then 1 else 0
  {
    hide RowTyped, KeyTyped, SchemaOk, DefinitionOk, OfField;
    var a := FieldsOf(s, r, i - 1, l);
    if OfField(s, r, i - 1, l) {
      assert FieldsOf(s, r, i, l) == a + {i - 1};
      assert i - 1 !in a;
    } else {
      assert FieldsOf(s, r, i, l) == a;
    }
  }

  lemma AllLinksAre(s: Schema, r: Row)
    requires RowOk(s, r)
    ensures AllRowLinks(s, r) == RowLinks(s, r, |s[r.def].fields|)
  {
  }

  lemma NextLink(s: Schema, r: Row, i: nat, l: Link)
    requires RowOk(s, r) && 0 < i <= |s[r.def].fields|
    ensures multiset(RowLinks(s, r, i))[l] ==
            multiset(RowLinks(s, r, i - 1))[l] + if OfField(s, r, i - 1, l) then 1 else 0
  {
    hide RowTyped, KeyTyped, RowKey, ColumnAt, SchemaOk;
    var f, k, v := s[r.def].fields[i - 1], RowKey(s, r), ColumnAt(s, r, i - 1);
    assert f in s[r.def].fields;
    AtMostOne(s, f, k, v, l);
    assert RowLinks(s, r, i) == RowLinks(s, r, i - 1) + FieldLink(s, f, k, v);
  }

  lemma AtMostOne(s: Schema, f: Field, k: Key, v: Value, l: Link)
    requires TargetKnown(s, f)
    ensures multiset(FieldLink(s, f, k, v))[l] == if l in FieldLink(s, f, k, v) then 1 else 0
  {
    var ls := FieldLink(s, f, k, v);
    if ls != [] {
      assert ls == [ls[0]];
    }
  }

  /** What a row asks for: a link for each reference field whose column names an object
      of the field's type, and for each back reference that names one or leads to the
      type of a singleton. */
  lemma RowLinkIs(s: Schema, r: Row, l: Link)
    requires RowOk(s, r)
    ensures l in AllRowLinks(s, r) <==>
            && l.source == RowKey(s, r)
            && exists j ::
                 && 0 <= j < |s[r.def].fields| && s[r.def].fields[j].offset == l.offset
                 && s[r.def].fields[j].def == Some(l.target.def) && l.target.def in s
                 && s[r.def].fields[j].kind == (if l.back then BACKREFERENCE else REFERENCE)
                 && if l.back && s[l.target.def].singleton then l.target.id == Id(0)
                    else match ColumnAt(s, r, j) {
                           case Null => false
                           case Integer(n) => l.target.id == Id(n)
                           case Text(x) => l.target.id == Name(x)
                         }
  {
    hide RowTyped, KeyTyped, RowKey, ColumnAt, SchemaOk, OfField, RowLinks, DefinitionOk;
    LinkOfField(s, r, |s[r.def].fields|, l);
    forall j | 0 <= j < |s[r.def].fields|
      ensures OfField(s, r, j, l) <==>
              && l.source == RowKey(s, r) && s[r.def].fields[j].offset == l.offset
              && s[r.def].fields[j].def == Some(l.target.def) && l.target.def in s
              && s[r.def].fields[j].kind == (if l.back then BACKREFERENCE else REFERENCE)
              && if l.back && s[l.target.def].singleton then l.target.id == Id(0)
                 else match ColumnAt(s, r, j) {
                        case Null => false
                        case Integer(n) => l.target.id == Id(n)
                        case Text(x) => l.target.id == Name(x)
                      }
    {
      OneLinkIs(s, r, j, l);
    }
  }

  lemma OneLinkIs(s: Schema, r: Row, j: nat, l: Link)
    requires RowOk(s, r) && j < |s[r.def].fields|
    ensures OfField(s, r, j, l) <==>
            && l.source == RowKey(s, r) && s[r.def].fields[j].offset == l.offset
            && s[r.def].fields[j].def == Some(l.target.def) && l.target.def in s
            && s[r.def].fields[j].kind == (if l.back then BACKREFERENCE else REFERENCE)
            && if l.back && s[l.target.def].singleton then l.target.id == Id(0)
               else match ColumnAt(s, r, j) {
                      case Null => false
                      case Integer(n) => l.target.id == Id(n)
                      case Text(x) => l.target.id == Name(x)
                    }
  {
    hide RowTyped, KeyTyped, RowKey, ColumnAt, SchemaOk;
    assert s[r.def].fields[j] in s[r.def].fields;
  }

  // ----- objects

  /** What is fetched: an object for each singleton and one for each row. */
  lemma FetchedExactly(s: Schema, plan: seq<nat>, tables: Tables, m: Objects, k: Key)
    requires PlanOk(s, plan, tables) && IsFetchOf(s, m, AllRows(s, plan, tables), Singles(s, plan))
    ensures k in m && m[k].data.Some? <==>
            || (k.def in plan && s[k.def].singleton && k.id == Id(0))
            || (k.def in plan && !s[k.def].singleton &&
                exists r :: r in tables[k.def] && RowOk(s, r) && RowKey(s, r) == k)
  {
    hide RowOk, RowKey, Links, RefOf, ListOf, PatchesOf, FaceOf, ScalarsRead, SchemaOk;
    var rows := AllRows(s, plan, tables);
    if k in KeysOf(s, rows) {
      var r :| r in rows && RowKey(s, r) == k;
      KeyDef(s, r);
      RowsOfPlan(s, plan, tables, r);
      assert r in multiset(rows);
    }
    if k.def in plan && !s[k.def].singleton && exists r :: r in tables[k.def] && RowOk(s, r) && RowKey(s, r) == k {
      var r :| r in tables[k.def] && RowOk(s, r) && RowKey(s, r) == k;
      KeyDef(s, r);
      RowsOfPlan(s, plan, tables, r);
      assert r in multiset(tables[r.def]);
      assert r in multiset(rows);
    }
  }

  /** Scalars are those of the row, and the second column is the revision. */
  lemma ScalarIs(s: Schema, plan: seq<nat>, tables: Tables, m: Objects, r: Row, j: nat)
    requires PlanOk(s, plan, tables) && IsFetchOf(s, m, AllRows(s, plan, tables), Singles(s, plan))
    requires r in AllRows(s, plan, tables) && j < |s[r.def].fields|
    ensures var f, k := s[r.def].fields[j], RowKey(s, r);
            && k in m && m[k].data.Some? && m[k].state == OBJCLEAN
            && (s[r.def].hasRevision ==> ColumnAt(s, r, 1) == Integer(m[k].revision))
            && (f.kind == INT || f.kind == UINT || f.kind == LONGINT || f.kind == ULONGINT || f.kind == STRING ==>
                  f.offset >= 0 ==> PlainOf(m, k, f.offset) == ColumnAt(s, r, j))
  {
    hide RowTyped, KeyTyped, RowKey, ColumnAt, RefOf, ListOf, PatchesOf, PlainOf, Links, SchemaOk, AllRows;
    assert RowKey(s, r) in KeysOf(s, AllRows(s, plan, tables));
    assert Fetched(m, RowKey(s, r));
    assert ScalarsRead(s, r, m, AllFields(s, r));
  }
}
