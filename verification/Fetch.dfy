/** Reading the rows of all tables into a graph of objects,
    dbsimplebase.c:199-310, 399-416 and dbsimple_sqlite3.c:307-454. */
module Fetch {
  import opened ObjectGraph
  import opened Schema
  import opened Wrappers

  /** Nothing but links changed. */
  ghost predicate OnlyLinks(m: Objects, m': Objects) {
    && m.Keys <= m'.Keys
    && (forall x :: Fetched(m', x) <==> Fetched(m, x))
    && (forall x, o :: PlainOf(m', x, o) == PlainOf(m, x, o))
    && (forall x :: x in m ==> FaceOf(m', x) == FaceOf(m, x))
  }

  /** Scalar fields and the revision of the row's object, as far as field `n`. */
  ghost predicate ScalarsRead(s: Schema, r: Row, m: Objects, n: nat)
    requires RowOk(s, r) && n <= |s[r.def].fields|
  {
    var k := RowKey(s, r);
    && (forall j :: 0 <= j < n && Scalar(s[r.def].fields[j].kind) && s[r.def].fields[j].offset >= 0 ==>
          PlainOf(m, k, s[r.def].fields[j].offset) == ColumnAt(s, r, j))
    && (n > 1 && s[r.def].hasRevision ==> Integer(FaceOf(m, k).revision) == ColumnAt(s, r, 1))
  }

  /** Objects other than `k` keep their scalars. */
  ghost predicate OthersKept(m: Objects, m': Objects, k: Key) {
    && m.Keys <= m'.Keys
    && (forall x, o :: x != k ==> PlainOf(m', x, o) == PlainOf(m, x, o))
    && (forall x :: x in m && x != k ==> FaceOf(m', x) == FaceOf(m, x))
  }

  /** The first `i` fields of row `r` are read, starting from `m0` and `links0`. */
  ghost predicate RowSoFar(s: Schema, r: Row, m0: Objects, links0: seq<Link>, m: Objects, links: seq<Link>, i: nat)
    requires RowOk(s, r) && i <= |s[r.def].fields|
  {
    var k := RowKey(s, r);
    && Inv(m, links, {}) && links == links0 + RowLinks(s, r, i)
    && (forall x :: Fetched(m, x) <==> Fetched(m0, x) || x == k)
    && ScalarsRead(s, r, m, i) && OthersKept(m0, m, k)
  }

  /** A reference field that no link has used. */
  ghost predicate Unlinked(links: seq<Link>, source: Key, offset: int) {
    forall l :: l in links && !l.back && l.source == source ==> l.offset != offset
  }

  lemma FieldUnlinked(s: Schema, r: Row, m0: Objects, links0: seq<Link>, links: seq<Link>, i: nat)
    requires RowOk(s, r) && i < |s[r.def].fields| && s[r.def].fields[i].kind == REFERENCE
    requires LinksOk(m0, links0) && !Fetched(m0, RowKey(s, r)) && links == links0 + RowLinks(s, r, i)
    ensures Unlinked(links, RowKey(s, r), s[r.def].fields[i].offset)
  {
    forall l | l in links && !l.back && l.source == RowKey(s, r)
      ensures l.offset != s[r.def].fields[i].offset
    {
      if l !in links0 {
        RowLinksFrom(s, r, i, l);
      }
    }
  }

  lemma LinkFieldRead(s: Schema, r: Row, m0: Objects, links0: seq<Link>, m: Objects, links: seq<Link>,
                      m': Objects, links': seq<Link>, i: nat)
    requires RowOk(s, r) && 0 < i < |s[r.def].fields| && !Scalar(s[r.def].fields[i].kind)
    requires RowSoFar(s, r, m0, links0, m, links, i)
    requires OnlyLinks(m, m') && Inv(m', links', {})
    requires links' == links + FieldLink(s, s[r.def].fields[i], RowKey(s, r), ColumnAt(s, r, i))
    ensures RowSoFar(s, r, m0, links0, m', links', i + 1)
  {
    assert i == 1 ==> !s[r.def].hasRevision;
    hide Inv, RowOk, RowKey, PlainOf, FaceOf, Fetched, ColumnAt, FieldLink, DefinitionOk, SchemaOk;
    var k := RowKey(s, r);
    assert k in m by {
      FetchedKnown(m, k);
    }
    assert links' == links0 + RowLinks(s, r, i + 1);
  }

  /** Collections of this object are filled by other rows. */
  lemma OtherFieldRead(s: Schema, r: Row, m0: Objects, links0: seq<Link>, m: Objects, links: seq<Link>, i: nat)
    requires RowOk(s, r) && 0 < i < |s[r.def].fields| && !Scalar(s[r.def].fields[i].kind)
    requires s[r.def].fields[i].kind != REFERENCE && s[r.def].fields[i].kind != BACKREFERENCE
    requires RowSoFar(s, r, m0, links0, m, links, i)
    ensures RowSoFar(s, r, m0, links0, m, links, i + 1)
  {
    LinkFieldRead(s, r, m0, links0, m, links, m, links, i);
  }

  lemma FetchedKnown(m: Objects, k: Key)
    ensures Fetched(m, k) ==> k in m
  {
  }

  lemma KeyFieldRead(s: Schema, r: Row, m0: Objects, links0: seq<Link>, m: Objects)
    requires RowOk(s, r) && Inv(m0, links0, {}) && !Fetched(m0, RowKey(s, r))
    requires var k, f := RowKey(s, r), s[r.def].fields[0];
             var m1 := Get(m0, OBJCLEAN, k);
             m == if f.offset >= 0 && Fetched(m1, k) then SetPlain(m1, k, f.offset, ColumnAt(s, r, 0)) else m1
    ensures Scalar(s[r.def].fields[0].kind) && Fetched(m, RowKey(s, r))
    ensures RowSoFar(s, r, m0, links0, m, links0, 1)
  {
    var k, f := RowKey(s, r), s[r.def].fields[0];
    var m1 := Get(m0, OBJCLEAN, k);
    GetCleanKeeps(m0, links0, k);
    GetCleanSeen(m0, k);
    if f.offset >= 0 {
      SetPlainSeen(m1, k, f.offset, ColumnAt(s, r, 0));
      hide Fetched, RefOf, ListOf, PatchesOf, FaceOf, PlainOf, Inv, SetPlain, Get, ColumnAt, RowOk, RowKey;
      Kept(m1, m, links0, {});
    }
    assert RowLinks(s, r, 1) == [];
  }

  /** A revision, then the field itself, neither of them the key. */
  lemma ScalarFieldRead(s: Schema, r: Row, m0: Objects, links0: seq<Link>, m: Objects, links: seq<Link>,
                        m': Objects, i: nat)
    requires RowOk(s, r) && 0 < i < |s[r.def].fields| && Scalar(s[r.def].fields[i].kind)
    requires RowSoFar(s, r, m0, links0, m, links, i)
    requires SameFetched(m, m') && SameRefs(m, m') && SameLists(m, m') && SamePatches(m, m') && SameStates(m, m')
    requires OthersKept(m, m', RowKey(s, r))
    requires var k, f, v := RowKey(s, r), s[r.def].fields[i], ColumnAt(s, r, i);
             && Integer(FaceOf(m', k).revision) ==
                  (if i == 1 && s[r.def].hasRevision then v else Integer(FaceOf(m, k).revision))
             && forall o :: PlainOf(m', k, o) == if o == f.offset && o >= 0 then v else PlainOf(m, k, o)
    ensures RowSoFar(s, r, m0, links0, m', links, i + 1)
  {
    assert RowLinks(s, r, i + 1) == RowLinks(s, r, i);
    ScalarsReadStep(s, r, m, m', i);
    OthersKeptOn(m0, m, m', RowKey(s, r));
    Kept(m, m', links, {});
    hide RowOk, RowKey, PlainOf, FaceOf, Fetched, ColumnAt, FieldLink, DefinitionOk, SchemaOk, Inv, RowLinks;
    hide SameRefs, SameLists, SamePatches, SameStates, OthersKept, ScalarsRead;
  }

  lemma OthersKeptOn(m0: Objects, m: Objects, m': Objects, k: Key)
    requires OthersKept(m0, m, k) && OthersKept(m, m', k)
    ensures OthersKept(m0, m', k)
  {
    hide PlainOf, FaceOf;
  }

  lemma ScalarsReadStep(s: Schema, r: Row, m: Objects, m': Objects, i: nat)
    requires RowOk(s, r) && 0 < i < |s[r.def].fields| && Scalar(s[r.def].fields[i].kind)
    requires ScalarsRead(s, r, m, i)
    requires var k, f, v := RowKey(s, r), s[r.def].fields[i], ColumnAt(s, r, i);
             && Integer(FaceOf(m', k).revision) ==
                  (if i == 1 && s[r.def].hasRevision then v else Integer(FaceOf(m, k).revision))
             && forall o :: PlainOf(m', k, o) == if o == f.offset && o >= 0 then v else PlainOf(m, k, o)
    ensures ScalarsRead(s, r, m', i + 1)
  {
    DistinctScalars(s, r.def, i);
    hide RowOk, RowKey, PlainOf, FaceOf, Fetched, ColumnAt, DefinitionOk, SchemaOk, Scalar;
  }

  lemma DistinctScalars(s: Schema, def: nat, i: nat)
    requires def in s && DefinitionOk(s, def) && i < |s[def].fields| && Scalar(s[def].fields[i].kind)
    ensures forall j :: 0 <= j < i && Scalar(s[def].fields[j].kind) && s[def].fields[j].offset >= 0 ==>
                          s[def].fields[j].offset != s[def].fields[i].offset
  {
  }

  lemma OnlyLinksThrough(m: Objects, m1: Objects, m': Objects, k: Key)
    requires m1 == Get(m, OBJUNKNOWN, k) && SameFetched(m1, m') && SamePlain(m1, m')
    ensures OnlyLinks(m, m')
  {
    GetUnknownSeen(m, k);
    hide Get, Fetched, PlainOf, FaceOf;
  }

  /** The column of field `i` of a row is there and of the type the field asks for. */
  lemma FieldColumn(s: Schema, r: Row, i: nat)
    requires RowOk(s, r) && i < |s[r.def].fields|
    ensures var fields := s[r.def].fields;
            && TargetKnown(s, fields[i]) && (forall f :: f in fields ==> TargetKnown(s, f))
            && ColumnOf(s, fields, i + 1) == ColumnOf(s, fields, i) + (if TakesColumn(s, fields[i]) then 1 else 0)
            && (TakesColumn(s, fields[i]) ==>
                  && ColumnOf(s, fields, i) < |r.cols|
                  && ColumnAt(s, r, i) == r.cols[ColumnOf(s, fields, i)]
                  && ColumnTyped(s, fields[i], ColumnAt(s, r, i)))
            && (i == 0 ==> Scalar(fields[i].kind))
  {
    assert s[r.def].fields[i] in s[r.def].fields;
  }

  lemma RowShape(s: Schema, r: Row)
    requires RowOk(s, r)
    ensures r.def in s && |s[r.def].fields| > 0 && forall f :: f in s[r.def].fields ==> TargetKnown(s, f)
  {
  }

  // ----- all rows of all tables

  ghost function KeysOf(s: Schema, rows: seq<Row>): set<Key>
    requires RowsOk(s, rows)
  {
    set r | r in rows :: RowKey(s, r)
  }

  function AllFields(s: Schema, r: Row): nat {
    if r.def in s then |s[r.def].fields| else 0
  }

  /** The rows read so far and the singletons made so far are all there is. */
  ghost predicate SoFar(s: Schema, m: Objects, links: seq<Link>, rows: seq<Row>, singles: set<Key>) {
    && RowsOk(s, rows) && Inv(m, links, {}) && links == Links(s, rows)
    && (forall k :: Fetched(m, k) <==> k in singles || k in KeysOf(s, rows))
    && (forall r :: r in rows ==> ScalarsRead(s, r, m, AllFields(s, r)))
  }

  /** The rows of one table: of its type, and no key twice. */
  ghost predicate TableOk(s: Schema, def: nat, table: seq<Row>) {
    && RowsOk(s, table) && (forall r :: r in table ==> r.def == def)
    && (forall i, j :: 0 <= i < j < |table| ==> RowKey(s, table[i]) != RowKey(s, table[j]))
  }

  type Tables = map<nat, seq<Row>>

  /** A plan names each definition once, and its tables are in order. */
  ghost predicate PlanOk(s: Schema, plan: seq<nat>, tables: Tables) {
    && SchemaOk(s)
    && (forall d :: d in plan ==> d in s && (s[d].singleton || (d in tables && TableOk(s, d, tables[d]))))
    && (forall i, j :: 0 <= i < j < |plan| ==> plan[i] != plan[j])
  }

  ghost function AllRows(s: Schema, plan: seq<nat>, tables: Tables): (rows: seq<Row>)
    requires PlanOk(s, plan, tables)
    ensures RowsOk(s, rows) && forall r :: r in rows ==> r.def in plan && !s[r.def].singleton
  {
    if plan == [] then []
    else
      var d := plan[|plan| - 1];
      AllRows(s, plan[..|plan| - 1], tables) + if s[d].singleton then [] else tables[d]
  }

  ghost function Singles(s: Schema, plan: seq<nat>): set<Key>
    requires forall d :: d in plan ==> d in s
  {
    set d | d in plan && s[d].singleton :: Key(d, Id(0))
  }

  /** What fetching a plan is for: its objects, each with its scalars, its
      references set exactly where the named object exists, and its collections
      holding each object as often as that object's row names the collection. */
  ghost predicate IsFetchOf(s: Schema, m: Objects, rows: seq<Row>, singles: set<Key>)
    requires RowsOk(s, rows)
  {
    var links := Links(s, rows);
    && (forall k :: Fetched(m, k) <==> k in singles || k in KeysOf(s, rows))
    && (forall k :: Fetched(m, k) ==> FaceOf(m, k).state == OBJCLEAN)
    && (forall k :: PatchesOf(m, k) == [])
    && (forall r :: r in rows ==> ScalarsRead(s, r, m, AllFields(s, r)))
    && (forall k, o, t :: RefOf(m, k, o) == Some(t) <==> Link(false, k, o, t) in links && Fetched(m, t))
    && (forall k, o, x :: Fetched(m, k) ==> multiset(ListOf(m, k, o))[x] == multiset(links)[Link(true, x, o, k)])
  }

  lemma ScalarsStay(s: Schema, r: Row, m: Objects, m': Objects, k: Key, n: nat)
    requires RowOk(s, r) && n <= |s[r.def].fields| && Fetched(m, RowKey(s, r)) && RowKey(s, r) != k
    requires ScalarsRead(s, r, m, n) && OthersKept(m, m', k)
    ensures ScalarsRead(s, r, m', n)
  {
    FetchedKnown(m, RowKey(s, r));
    hide RowOk, RowKey, PlainOf, FaceOf, ColumnAt, DefinitionOk, SchemaOk, Scalar, Fetched;
  }

  lemma RowSoFarAdds(s: Schema, r: Row, m0: Objects, m: Objects, links: seq<Link>, rows: seq<Row>, singles: set<Key>)
    requires RowsOk(s, rows) && SoFar(s, m0, Links(s, rows), rows, singles)
    requires RowOk(s, r) && !Fetched(m0, RowKey(s, r))
    requires RowSoFar(s, r, m0, Links(s, rows), m, links, AllFields(s, r))
    ensures SoFar(s, m, links, rows + [r], singles)
  {
    hide Inv, RowOk, Fetched, RowKey, ScalarsRead, OthersKept, Links, SchemaOk, DefinitionOk;
    LinksSnoc(s, rows, r);
    RowShape(s, r);
    forall x | x in rows ensures ScalarsRead(s, x, m, AllFields(s, x)) {
      assert RowKey(s, x) in KeysOf(s, rows);
      ScalarsStay(s, x, m0, m, RowKey(s, r), AllFields(s, x));
    }
    assert forall x :: x in rows + [r] <==> x in rows || x == r;
    assert KeysOf(s, rows + [r]) == KeysOf(s, rows) + {RowKey(s, r)};
  }

  lemma SingletonAdds(s: Schema, m: Objects, links: seq<Link>, rows: seq<Row>, singles: set<Key>, k: Key)
    requires SoFar(s, m, links, rows, singles) && !Fetched(m, k)
    ensures SoFar(s, Get(m, OBJCLEAN, k), links, rows, singles + {k})
  {
    GetCleanKeeps(m, links, k);
    GetCleanSeen(m, k);
    hide Inv, RowOk, Fetched, RowKey, ScalarsRead, Links, SchemaOk, DefinitionOk, Get, PlainOf, FaceOf;
    forall x | x in rows ensures ScalarsRead(s, x, Get(m, OBJCLEAN, k), AllFields(s, x)) {
      ScalarsStay(s, x, m, Get(m, OBJCLEAN, k), k, AllFields(s, x));
    }
  }

  /** The rows from `n` on name objects that are not fetched yet. */
  ghost predicate Unread(s: Schema, m: Objects, table: seq<Row>, n: nat)
    requires RowsOk(s, table)
  {
    forall i :: n <= i < |table| ==> !Fetched(m, RowKey(s, table[i]))
  }

  lemma AllUnread(s: Schema, m: Objects, def: nat, table: seq<Row>)
    requires TableOk(s, def, table) && forall k :: Fetched(m, k) ==> k.def != def
    ensures RowsOk(s, table) && Unread(s, m, table, 0)
  {
    hide Fetched, SchemaOk, DefinitionOk, RowTyped;
  }

  lemma NextUnread(s: Schema, m: Objects, links: seq<Link>, rows: seq<Row>, singles: set<Key>, table: seq<Row>, n: nat)
    requires SoFar(s, m, links, rows, singles) && RowsOk(s, table) && n < |table| && Unread(s, m, table, n)
    ensures RowOk(s, table[n]) && Inv(m, links, {}) && !Fetched(m, RowKey(s, table[n]))
    ensures RowsOk(s, rows) && links == Links(s, rows)
  {
    hide RowOk, RowKey, Inv, Fetched;
  }

  lemma StillUnread(s: Schema, m0: Objects, links: seq<Link>, m: Objects, rows: seq<Row>, def: nat, table: seq<Row>, n: nat)
    requires RowsOk(s, table) && n < |table| && Unread(s, m0, table, n) && RowsOk(s, rows)
    requires RowSoFar(s, table[n], m0, Links(s, rows), m, links, AllFields(s, table[n]))
    requires TableOk(s, def, table)
    ensures Unread(s, m, table, n + 1)
  {
    hide RowOk, RowKey, Inv, Fetched, OthersKept, ScalarsRead;
  }

  // ----- the definitions of a plan, one after the other

  ghost predicate PlanSoFar(s: Schema, m: Objects, links: seq<Link>, plan: seq<nat>, tables: Tables, i: nat) {
    && i <= |plan| && PlanOk(s, plan, tables) && PlanOk(s, plan[..i], tables)
    && SoFar(s, m, links, AllRows(s, plan[..i], tables), Singles(s, plan[..i]))
  }

  ghost predicate RootFound(s: Schema, plan: seq<nat>, i: nat, found: bool, root: Key) {
    && i <= |plan| && (forall d :: d in plan ==> d in s)
    && (found ==> LastSingleton(s, plan, i, root))
    && (!found ==> forall j :: 0 <= j < i ==> !s[plan[j]].singleton)
  }

  /** The object of the last singleton among the first `i` definitions. */
  ghost predicate LastSingleton(s: Schema, plan: seq<nat>, i: nat, root: Key)
    requires i <= |plan| && forall d :: d in plan ==> d in s
  {
    exists j :: 0 <= j < i && s[plan[j]].singleton && root == Key(plan[j], Id(0))
                && forall l :: j < l < i ==> !s[plan[l]].singleton
  }

  lemma PlanStart(s: Schema, plan: seq<nat>, tables: Tables)
    requires PlanOk(s, plan, tables)
    ensures PlanSoFar(s, map[], [], plan, tables, 0) && RootFound(s, plan, 0, false, Key(0, Id(0)))
  {
  }

  /** A definition's objects are not fetched before its turn. */
  lemma NextDefinition(s: Schema, m: Objects, links: seq<Link>, plan: seq<nat>, tables: Tables, i: nat)
    returns (rows: seq<Row>, singles: set<Key>)
    requires PlanSoFar(s, m, links, plan, tables, i) && i < |plan|
    ensures SoFar(s, m, links, rows, singles) && plan[i] in s
    ensures PlanOk(s, plan[..i], tables) && rows == AllRows(s, plan[..i], tables) && singles == Singles(s, plan[..i])
    ensures forall k :: Fetched(m, k) ==> k.def != plan[i]
    ensures !s[plan[i]].singleton ==> plan[i] in tables && TableOk(s, plan[i], tables[plan[i]])
    ensures !Fetched(m, Key(plan[i], Id(0)))
  {
    rows, singles := AllRows(s, plan[..i], tables), Singles(s, plan[..i]);
    hide Inv, Fetched, SchemaOk, DefinitionOk, RowTyped, ScalarsRead, Links, TableOk;
  }

  lemma PlanPrefix(s: Schema, plan: seq<nat>, tables: Tables, i: nat)
    requires PlanOk(s, plan, tables) && i < |plan| && PlanOk(s, plan[..i], tables)
    ensures PlanOk(s, plan[..i + 1], tables)
    ensures AllRows(s, plan[..i + 1], tables) ==
            AllRows(s, plan[..i], tables) + if s[plan[i]].singleton then [] else tables[plan[i]]
    ensures Singles(s, plan[..i + 1]) ==
            Singles(s, plan[..i]) + if s[plan[i]].singleton then {Key(plan[i], Id(0))} else {}
  {
    hide SchemaOk, TableOk, RowsOk;
    assert plan[..i + 1] == plan[..i] + [plan[i]];
    assert plan[..i + 1][..i] == plan[..i];
  }

  lemma DefinitionDone(s: Schema, m: Objects, links: seq<Link>, plan: seq<nat>, tables: Tables, i: nat,
                       rows: seq<Row>, singles: set<Key>, found: bool, root: Key)
    requires PlanOk(s, plan, tables) && i < |plan| && plan[i] in s && PlanOk(s, plan[..i], tables)
    requires rows == AllRows(s, plan[..i], tables) && singles == Singles(s, plan[..i])
    requires if s[plan[i]].singleton then SoFar(s, m, links, rows, singles + {Key(plan[i], Id(0))})
             else plan[i] in tables && SoFar(s, m, links, rows + tables[plan[i]], singles)
    requires if s[plan[i]].singleton then found && root == Key(plan[i], Id(0))
             else RootFound(s, plan, i, found, root)
    ensures PlanSoFar(s, m, links, plan, tables, i + 1) && RootFound(s, plan, i + 1, found, root)
  {
    hide SchemaOk, TableOk, SoFar, RowsOk, AllRows, Singles;
    PlanPrefix(s, plan, tables, i);
    assert rows + [] == rows && singles + {} == singles;
  }

  lemma PlanDone(s: Schema, m: Objects, links: seq<Link>, plan: seq<nat>, tables: Tables, found: bool, root: Key)
    requires PlanSoFar(s, m, links, plan, tables, |plan|) && RootFound(s, plan, |plan|, found, root)
    requires exists d :: d in plan && d in s && s[d].singleton
    ensures PlanOk(s, plan, tables) && SchemaOk(s) && SoFar(s, m, links, AllRows(s, plan, tables), Singles(s, plan))
    ensures exists j :: 0 <= j < |plan| && s[plan[j]].singleton && root == Key(plan[j], Id(0))
                        && forall l :: j < l < |plan| ==> !s[plan[l]].singleton
  {
    hide Inv, Fetched, SchemaOk, DefinitionOk, RowTyped, ScalarsRead, Links, TableOk, SoFar;
    assert plan[..|plan|] == plan;
  }

  class Session {
    const schema: Schema
    var objects: Objects
    /** The links read so far. */
    ghost var links: seq<Link>

    constructor (schema: Schema)
      ensures this.schema == schema && objects == map[] && links == []
    {
      this.schema := schema;
      objects := map[];
      links := [];
    }

    /** dbsimplebase.c:199-235 */
    method GetObject(state: ObjectState, k: Key)
      modifies this`objects
      ensures objects == Get(old(objects), state, k)
    {
      if k !in objects {
        if state != OBJNULL {
          var data := if state != OBJUNKNOWN then Some(ZEROED) else None;
          objects := objects[k := Object(data, state, -1, [])];
        }
      } else if objects[k].data == None && state != OBJUNKNOWN {
        objects := objects[k := objects[k].(data := Some(ZEROED), state := state)];
      }
    }

    /** dbsimplebase.c:237-245 */
    method SubscribeReference(p: Patch, subject: Key)
      requires subject in objects
      modifies this`objects
      ensures objects == Subscribe(old(objects), subject, p)
    {
      objects := objects[subject := objects[subject].(patches := [p] + objects[subject].patches)];
    }

    /** dbsimplebase.c:247-258 */
    method AssignReference(offset: int, target: Key, source: Key)
      requires Inv(objects, links, {}) && Fetched(objects, source) && Unlinked(links, source, offset)
      modifies this
      ensures Inv(objects, links, {}) && links == old(links) + [Link(false, source, offset, target)]
      ensures OnlyLinks(old(objects), objects)
    {
      GetUnknownKeeps(objects, links, target);
      GetUnknownSeen(objects, target);
      GetObject(OBJUNKNOWN, target);
      ghost var m1 := objects;
      if objects[target].data.Some? {
        SetRefKeeps(m1, links, source, offset, target);
        SetRefSeen(m1, source, offset, Some(target));
        objects := SetRef(objects, source, offset, Some(target));
      } else {
        SubscribeKeeps(m1, links, Link(false, source, offset, target));
        SubscribeSeen(m1, target, Patch(false, source, offset));
        SubscribeReference(Patch(false, source, offset), target);
      }
      OnlyLinksThrough(old(objects), m1, objects, target);
      links := links + [Link(false, source, offset, target)];
    }

    /** dbsimplebase.c:260-278 */
    method AssignBackReference(offset: int, target: Key, source: Key)
      requires Inv(objects, links, {}) && Fetched(objects, source)
      modifies this
      ensures Inv(objects, links, {}) && links == old(links) + [Link(true, source, offset, target)]
      ensures OnlyLinks(old(objects), objects)
    {
      GetUnknownKeeps(objects, links, target);
      GetUnknownSeen(objects, target);
      GetObject(OBJUNKNOWN, target);
      ghost var m1 := objects;
      if objects[target].data.Some? {
        AppendKeeps(m1, links, source, offset, target);
        AppendSeen(m1, target, offset, source);
        objects := Append(objects, target, offset, source);
      } else {
        SubscribeKeeps(m1, links, Link(true, source, offset, target));
        SubscribeSeen(m1, target, Patch(true, source, offset));
        SubscribeReference(Patch(true, source, offset), target);
      }
      OnlyLinksThrough(old(objects), m1, objects, target);
      links := links + [Link(true, source, offset, target)];
    }

    /** dbsimple_sqlite3.c:332-366 */
    method ReadScalar(r: Row, i: nat, v: Value, owner: Key, ghost m0: Objects, ghost links0: seq<Link>)
      returns (owner': Key)
      requires RowOk(schema, r) && i < |schema[r.def].fields| && Scalar(schema[r.def].fields[i].kind)
      requires v == ColumnAt(schema, r, i) && ColumnTyped(schema, schema[r.def].fields[i], v)
      requires i == 0 ==> objects == m0 && links == links0 && Inv(m0, links0, {}) && !Fetched(m0, RowKey(schema, r))
      requires i > 0 ==> owner == RowKey(schema, r) && RowSoFar(schema, r, m0, links0, objects, links, i)
      modifies this`objects
      ensures owner' == RowKey(schema, r) && RowSoFar(schema, r, m0, links0, objects, links, i + 1)
    {
      var field := schema[r.def].fields[i];
      owner' := owner;
      ghost var m := objects;
      if i == 0 {
        owner' := KeyOf(field.def.value, v);
        GetObject(OBJCLEAN, owner');
        GetCleanSeen(m0, owner');
        if field.offset >= 0 {
          objects := SetPlain(objects, owner', field.offset, v);
        }
        KeyFieldRead(schema, r, m0, links0, objects);
      } else {
        if Whole(field.kind) && i == 1 && schema[r.def].hasRevision {
          SetRevisionSeen(objects, owner, v.n);
          objects := SetRevision(objects, owner, v.n);
        }
        if field.offset >= 0 {
          SetPlainSeen(objects, owner, field.offset, v);
          objects := SetPlain(objects, owner, field.offset, v);
        }
        ScalarFieldRead(schema, r, m0, links0, m, links, objects, i);
      }
    }

    /** dbsimple_sqlite3.c:367-397 */
    method ReadReference(r: Row, i: nat, v: Value, owner: Key, ghost m0: Objects, ghost links0: seq<Link>)
      requires RowOk(schema, r) && 0 < i < |schema[r.def].fields| && schema[r.def].fields[i].kind == REFERENCE
      requires v == ColumnAt(schema, r, i)
      requires Inv(m0, links0, {}) && !Fetched(m0, RowKey(schema, r))
      requires owner == RowKey(schema, r) && RowSoFar(schema, r, m0, links0, objects, links, i)
      modifies this
      ensures RowSoFar(schema, r, m0, links0, objects, links, i + 1)
    {
      var field := schema[r.def].fields[i];
      ghost var m, ls := objects, links;
      FieldColumn(schema, r, i);
      FieldUnlinked(schema, r, m0, links0, links, i);
      if !v.Null? {
        AssignReference(field.offset, KeyOf(field.def.value, v), owner);
      } else {
        ClearRefKeeps(objects, links, owner, field.offset);
        SetRefSeen(objects, owner, field.offset, None);
        objects := SetRef(objects, owner, field.offset, None);
      }
      LinkFieldRead(schema, r, m0, links0, m, ls, objects, links, i);
    }

    /** dbsimple_sqlite3.c:398-428 */
    method ReadBackReference(r: Row, i: nat, v: Value, owner: Key, ghost m0: Objects, ghost links0: seq<Link>)
      requires RowOk(schema, r) && 0 < i < |schema[r.def].fields| && schema[r.def].fields[i].kind == BACKREFERENCE
      requires TargetKnown(schema, schema[r.def].fields[i])
      requires TakesColumn(schema, schema[r.def].fields[i]) ==> v == ColumnAt(schema, r, i)
      requires owner == RowKey(schema, r) && RowSoFar(schema, r, m0, links0, objects, links, i)
      modifies this
      ensures RowSoFar(schema, r, m0, links0, objects, links, i + 1)
    {
      var field := schema[r.def].fields[i];
      ghost var m, ls := objects, links;
      if schema[field.def.value].singleton {
        AssignBackReference(field.offset, Key(field.def.value, Id(0)), owner);
      } else if !v.Null? {
        AssignBackReference(field.offset, KeyOf(field.def.value, v), owner);
      }
      LinkFieldRead(schema, r, m0, links0, m, ls, objects, links, i);
    }

    /** One row, dbsimple_sqlite3.c:325-437. */
    method FetchRow(r: Row)
      requires RowOk(schema, r) && Inv(objects, links, {}) && !Fetched(objects, RowKey(schema, r))
      modifies this
      ensures RowSoFar(schema, r, old(objects), old(links), objects, links, AllFields(schema, r))
    {
      hide RowSoFar, RowOk, SchemaOk, DefinitionOk, Inv, Fetched, RowKey, RowTyped, FieldLink, ColumnTyped, ColumnAt;
      RowShape(schema, r);
      var fields := schema[r.def].fields;
      var column, i, owner := 0, 0, Key(r.def, Id(0));
      ghost var m0, links0 := objects, links;
      while i < |fields|
        invariant i <= |fields| && column == ColumnOf(schema, fields, i)
        invariant i == 0 ==> objects == m0 && links == links0
        invariant i > 0 ==> owner == RowKey(schema, r) && RowSoFar(schema, r, m0, links0, objects, links, i)
      {
        var field := fields[i];
        FieldColumn(schema, r, i);
        if Scalar(field.kind) {
          var value := r.cols[column];
          column := column + 1;
          owner := ReadScalar(r, i, value, owner, m0, links0);
        } else if field.kind == REFERENCE {
          var value := r.cols[column];
          column := column + 1;
          ReadReference(r, i, value, owner, m0, links0);
        } else if field.kind == BACKREFERENCE {
          if !schema[field.def.value].singleton {
            var value := r.cols[column];
            column := column + 1;
            ReadBackReference(r, i, value, owner, m0, links0);
          } else {
            ReadBackReference(r, i, Null, owner, m0, links0);
          }
        } else {
          OtherFieldRead(schema, r, m0, links0, objects, links, i);
        }
        i := i + 1;
      }
    }

    /** The backpatches of one object, dbsimplebase.c:280-310. */
    method ResolveBackpatches(k: Key, ghost done: set<Key>)
      requires Inv(objects, links, done) && k in done && k in objects
      modifies this`objects
      ensures Inv(objects, links, done) && PatchesOf(objects, k) == []
      ensures SameFetched(old(objects), objects) && SamePlain(old(objects), objects)
      ensures forall x :: x != k ==> PatchesOf(objects, x) == PatchesOf(old(objects), x)
    {
      hide Inv;
      ghost var m0 := objects;
      while objects[k].patches != []
        invariant k in objects && Inv(objects, links, done)
        invariant SameFetched(m0, objects) && SamePlain(m0, objects)
        invariant forall x :: x != k ==> PatchesOf(objects, x) == PatchesOf(m0, x)
        decreases |PatchesOf(objects, k)|
      {
        var patch := objects[k].patches[0];
        ghost var m := objects;
        ResolveKeeps(m, links, done, k);
        if !patch.back {
          objects := SetRef(objects, patch.source, patch.offset, if objects[k].data.Some? then Some(k) else None);
        } else if objects[k].data.Some? {
          objects := Append(objects, k, patch.offset, patch.source);
        }
        PatchesStay(m, k, patch);
        objects := objects[k := objects[k].(patches := objects[k].patches[1..])];
        assert objects == DropPatch(Resolve(m, k, patch), k);
        FramesCompose(m0, m, objects);
      }
    }

    /** The rows of one table, dbsimple_sqlite3.c:307-454. */
    method FetchObject(table: seq<Row>, ghost def: nat, ghost rows: seq<Row>, ghost singles: set<Key>)
      requires SoFar(schema, objects, links, rows, singles) && TableOk(schema, def, table)
      requires forall k :: Fetched(objects, k) ==> k.def != def
      modifies this
      ensures SoFar(schema, objects, links, rows + table, singles)
    {
      hide *;
      AllUnread(schema, objects, def, table);
      var n := 0;
      ghost var all := rows;
      assert all == rows + table[..0];
      while n < |table|
        invariant n <= |table| && all == rows + table[..n]
        invariant SoFar(schema, objects, links, all, singles) && RowsOk(schema, table)
        invariant Unread(schema, objects, table, n)
      {
        ghost var m0, row := objects, table[n];
        NextUnread(schema, objects, links, all, singles, table, n);
        FetchRow(table[n]);
        RowSoFarAdds(schema, table[n], m0, objects, links, all, singles);
        StillUnread(schema, m0, links, objects, all, def, table, n);
        all := all + [table[n]];
        n := n + 1;
      }
      assert table[..n] == table;
    }

    /** All backpatches, in any order of the objects; dbsimplebase.c:414 takes them in key order. */
    method ResolveAll(ghost rows: seq<Row>, ghost singles: set<Key>)
      requires SoFar(schema, objects, links, rows, singles)
      modifies this`objects
      ensures IsFetchOf(schema, objects, rows, singles)
    {
      hide *;
      ghost var m0 := objects;
      var todo, done := objects.Keys, {};
      SoFarStart(schema, objects, links, rows, singles);
      while todo != {}
        invariant Resolving(m0, objects, links, todo, done)
      {
        var k :| k in todo;
        ghost var m := objects;
        NextResolved(m0, m, links, todo, done, k);
        ResolveBackpatches(k, done + {k});
        OneResolved(m0, m, objects, links, todo, done, k);
        todo, done := todo - {k}, done + {k};
      }
      AllResolved(schema, m0, objects, links, done, rows, singles);
    }

    /** dbsimplebase.c:399-416 */
    method Fetch(plan: seq<nat>, tables: Tables) returns (root: Key)
      requires objects == map[] && links == [] && PlanOk(schema, plan, tables)
      requires exists d :: d in plan && schema[d].singleton
      modifies this
      ensures IsFetchOf(schema, objects, AllRows(schema, plan, tables), Singles(schema, plan))
      ensures exists j :: 0 <= j < |plan| && schema[plan[j]].singleton && root == Key(plan[j], Id(0))
                          && forall l :: j < l < |plan| ==> !schema[plan[l]].singleton
    {
      hide *;
      var i, found := 0, false;
      root := Key(0, Id(0));
      PlanStart(schema, plan, tables);
      while i < |plan|
        invariant i <= |plan| && PlanSoFar(schema, objects, links, plan, tables, i)
        invariant RootFound(schema, plan, i, found, root)
      {
        ghost var rows, singles := NextDefinition(schema, objects, links, plan, tables, i);
        if schema[plan[i]].singleton {
          root, found := Key(plan[i], Id(0)), true;
          SingletonAdds(schema, objects, links, rows, singles, root);
          GetObject(OBJCLEAN, root);
        } else {
          FetchObject(tables[plan[i]], plan[i], rows, singles);
        }
        DefinitionDone(schema, objects, links, plan, tables, i, rows, singles, found, root);
        i := i + 1;
      }
      PlanDone(schema, objects, links, plan, tables, found, root);
      ResolveAll(AllRows(schema, plan, tables), Singles(schema, plan));
    }
  }

  lemma PatchesStay(m: Objects, k: Key, p: Patch)
    requires k in m && Fetched(m, p.source)
    ensures k in Resolve(m, k, p) && Resolve(m, k, p)[k].patches == m[k].patches
  {
  }

  lemma FramesCompose(m0: Objects, m: Objects, m': Objects)
    requires SameFetched(m0, m) && SamePlain(m0, m) && SameFetched(m, m') && SamePlain(m, m')
    ensures SameFetched(m0, m') && SamePlain(m0, m')
  {
    hide Fetched, PlainOf, FaceOf;
  }

  // ----- resolving the backpatches of all objects

  /** Those in `done` wait for nothing any more. */
  ghost predicate Resolving(m0: Objects, m: Objects, links: seq<Link>, todo: set<Key>, done: set<Key>) {
    && Inv(m, links, done) && SameFetched(m0, m) && SamePlain(m0, m)
    && todo + done == m.Keys && (forall k :: k in done ==> PatchesOf(m, k) == [])
  }

  lemma SoFarStart(s: Schema, m: Objects, links: seq<Link>, rows: seq<Row>, singles: set<Key>)
    requires SoFar(s, m, links, rows, singles)
    ensures Resolving(m, m, links, m.Keys, {})
  {
    hide Inv, Fetched, PatchesOf, PlainOf, FaceOf, RowOk, ScalarsRead, Links, RowKey;
  }

  lemma NextResolved(m0: Objects, m: Objects, links: seq<Link>, todo: set<Key>, done: set<Key>, k: Key)
    requires Resolving(m0, m, links, todo, done) && k in todo
    ensures Inv(m, links, done + {k}) && k in m && k in done + {k}
  {
    MoreDone(m, links, done, done + {k});
    hide Inv, Fetched, PatchesOf, PlainOf, FaceOf;
  }

  lemma OneResolved(m0: Objects, m: Objects, m': Objects, links: seq<Link>, todo: set<Key>, done: set<Key>, k: Key)
    requires Resolving(m0, m, links, todo, done) && k in todo
    requires Inv(m', links, done + {k}) && SameFetched(m, m') && SamePlain(m, m') && PatchesOf(m', k) == []
    requires forall x :: x != k ==> PatchesOf(m', x) == PatchesOf(m, x)
    ensures Resolving(m0, m', links, todo - {k}, done + {k})
  {
    FramesCompose(m0, m, m');
    hide Inv, Fetched, PatchesOf, PlainOf, FaceOf, SamePlain;
  }

  lemma AllResolved(s: Schema, m0: Objects, m: Objects, links: seq<Link>, done: set<Key>, rows: seq<Row>, singles: set<Key>)
    requires SoFar(s, m0, links, rows, singles) && Resolving(m0, m, links, {}, done)
    ensures IsFetchOf(s, m, rows, singles)
  {
    forall k ensures PatchesOf(m, k) == [] {
      if k in m {
        assert k in {} + done;
      }
    }
    NothingWaits(m, links, done);
    StatesAfter(m, links, done);
    hide Inv, Fetched, PatchesOf, PlainOf, FaceOf, RowOk, Links, RowKey, RefOf, ListOf, SchemaOk, DefinitionOk, ScalarsRead;
    forall r | r in rows ensures ScalarsRead(s, r, m, AllFields(s, r)) {
      ScalarsSame(s, r, m0, m, AllFields(s, r));
    }
  }

  lemma StatesAfter(m: Objects, links: seq<Link>, done: set<Key>)
    requires Inv(m, links, done)
    ensures forall k :: Fetched(m, k) ==> FaceOf(m, k).state == OBJCLEAN
  {
  }

  lemma ScalarsSame(s: Schema, r: Row, m: Objects, m': Objects, n: nat)
    requires RowOk(s, r) && n <= |s[r.def].fields| && Fetched(m, RowKey(s, r))
    requires ScalarsRead(s, r, m, n) && SamePlain(m, m')
    ensures ScalarsRead(s, r, m', n)
  {
    FetchedKnown(m, RowKey(s, r));
    hide RowOk, RowKey, PlainOf, FaceOf, ColumnAt, DefinitionOk, SchemaOk, Scalar, Fetched;
  }

  // ----- the order of arrival

  lemma {:induction false} RowsOfPlan(s: Schema, plan: seq<nat>, tables: Tables, r: Row)
    requires PlanOk(s, plan, tables)
    ensures multiset(AllRows(s, plan, tables))[r] ==
            if r.def in plan && !s[r.def].singleton then multiset(tables[r.def])[r] else 0
    decreases |plan|
  {
    hide RowsOk, RowKey, SchemaOk;
    if plan != [] {
      var n := |plan| - 1;
      var d := plan[n];
      RowsOfPlan(s, plan[..n], tables, r);
      assert plan == plan[..n] + [d];
      if !s[d].singleton && r.def != d {
        assert r !in tables[d];
      }
    }
  }

  /** Two fetches of the same rows, in whatever order the definitions are taken
      and the rows of each table arrive, give the same graph; only the order
      inside a collection may differ. */
  lemma ArrivalOrder(s: Schema, plan: seq<nat>, tables: Tables, m: Objects,
                     plan': seq<nat>, tables': Tables, m': Objects)
    requires PlanOk(s, plan, tables) && PlanOk(s, plan', tables')
    requires IsFetchOf(s, m, AllRows(s, plan, tables), Singles(s, plan))
    requires IsFetchOf(s, m', AllRows(s, plan', tables'), Singles(s, plan'))
    requires forall d :: d in plan <==> d in plan'
    requires forall d :: d in plan && !s[d].singleton ==> multiset(tables[d]) == multiset(tables'[d])
    ensures forall k :: Fetched(m, k) <==> Fetched(m', k)
    ensures forall k, o :: RefOf(m, k, o) == RefOf(m', k, o)
    ensures forall k, o :: multiset(ListOf(m, k, o)) == multiset(ListOf(m', k, o))
    ensures forall r :: r in AllRows(s, plan, tables) ==>
                          ScalarsRead(s, r, m, AllFields(s, r)) && ScalarsRead(s, r, m', AllFields(s, r))
  {
    var rows, rows' := AllRows(s, plan, tables), AllRows(s, plan', tables');
    forall r ensures multiset(rows)[r] == multiset(rows')[r] {
      RowsOfPlan(s, plan, tables, r);
      RowsOfPlan(s, plan', tables', r);
    }
    LinksOfPermutation(s, rows, rows');
    assert Singles(s, plan) == Singles(s, plan');
    SameRowsSameGraph(s, rows, Singles(s, plan), m, rows', m');
  }

  lemma SameRowsSameGraph(s: Schema, rows: seq<Row>, singles: set<Key>, m: Objects, rows': seq<Row>, m': Objects)
    requires RowsOk(s, rows) && RowsOk(s, rows') && multiset(rows) == multiset(rows')
    requires multiset(Links(s, rows)) == multiset(Links(s, rows'))
    requires IsFetchOf(s, m, rows, singles) && IsFetchOf(s, m', rows', singles)
    ensures forall k :: Fetched(m, k) <==> Fetched(m', k)
    ensures forall k, o :: RefOf(m, k, o) == RefOf(m', k, o)
    ensures forall k, o :: multiset(ListOf(m, k, o)) == multiset(ListOf(m', k, o))
    ensures forall r :: r in rows ==> ScalarsRead(s, r, m, AllFields(s, r)) && ScalarsRead(s, r, m', AllFields(s, r))
  {
    hide RowKey, RowOk, ScalarsRead, FaceOf, PatchesOf, RefOf, Links;
    assert forall r :: r in rows <==> r in multiset(rows);
    assert forall r :: r in rows' <==> r in multiset(rows');
    assert KeysOf(s, rows) == KeysOf(s, rows');
    assert forall l :: l in Links(s, rows) <==> l in multiset(Links(s, rows));
    assert forall l :: l in Links(s, rows') <==> l in multiset(Links(s, rows'));
    forall k, o ensures RefOf(m, k, o) == RefOf(m', k, o) {
      if RefOf(m, k, o).Some? {
        assert RefOf(m', k, o) == Some(RefOf(m, k, o).value);
      } else if RefOf(m', k, o).Some? {
        assert RefOf(m, k, o) == Some(RefOf(m', k, o).value);
      }
    }
    forall k, o ensures multiset(ListOf(m, k, o)) == multiset(ListOf(m', k, o)) {
      if Fetched(m, k) {
        forall x ensures multiset(ListOf(m, k, o))[x] == multiset(ListOf(m', k, o))[x] {
        }
      }
    }
  }
}
