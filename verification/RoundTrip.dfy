/** Fetching what a complete commit has left in the store gives the graph in memory
    back: dbsimple_sqlite3.c:307-454, 456-619 and dbsimplebase.c:199-346 together. */
module RoundTrip {
  import opened ObjectGraph
  import opened Schema
  import opened Reach
  import opened Traverse
  import opened Bind
  import opened Persist
  import opened Fetch
  import opened FetchMeaning
  import Commit
  import opened Wrappers

  // ----- the objects that have a row after a commit

  ghost predicate Kept(x: Plan, p: Ptr) {
    x.Comes(p) && !x.Removes(p) && !x.Def(p).singleton
  }

  function FinalKeys(x: Plan): Keys {
    map q | q in x.heap :: x.FinalId(q)
  }

  ghost function RevisionNow(x: Plan, p: Ptr): int {
    if x.Writes(p) then x.FinalRevision(p) else x.RecordOf(p).revision
  }

  ghost function ImageNow(x: Plan, p: Ptr): Image {
    Image(x.BlockOf(p), x.FinalId(p), RevisionNow(x, p))
  }

  /** The ids that a row of the object at `p` has for its references: the targets' own,
      if nothing is written, and those of the moment of writing otherwise. */
  ghost function RowKeys(x: Plan, p: Ptr): Keys {
    if x.Writes(p) then x.KeysAt(p) else FinalKeys(x)
  }

  /** The key that the row has for a reference to `q`. */
  ghost function ReferenceKey(x: Plan, p: Ptr, q: Ptr): Key {
    Key(x.BlockOf(q).def, if x.Writes(p) then x.KeyAt(p, q) else x.FinalId(q))
  }

  /** The row that says what memory holds. */
  ghost function RowNow(x: Plan, p: Ptr): seq<Value> {
    Bound(x.Def(p), ImageNow(x, p), RowKeys(x, p), |x.Def(p).fields|)
  }

  /** Objects that nobody reported as changed are as their rows say. */
  ghost predicate InStep(x: Plan, store0: Store) {
    forall p: Ptr :: Kept(x, p) && !x.Writes(p) ==>
      x.FinalKey(p) in store0 && store0[x.FinalKey(p)] == RowNow(x, p)
  }

  ghost predicate Complete(x: Plan, store0: Store, store: Store, limit: nat) {
    x.Ok() && x.WrittenBack(store0, store, limit) && x.Over(limit)
  }

  lemma KeptInHeap(x: Plan, p: Ptr)
    requires Kept(x, p)
    ensures p in x.heap && x.heap[p].def in x.schema && x.Def(p) == x.schema[x.heap[p].def]
    ensures x.FinalKey(p) == Key(x.heap[p].def, x.FinalId(p)) && x.BlockOf(p) == x.heap[p]
  {
    hide Plan.Comes, Plan.Removes, Plan.FinalId;
  }

  lemma NewRowNow(x: Plan, p: Ptr)
    requires x.Writes(p)
    ensures x.NewRow(p) == RowNow(x, p)
  {
    hide Plan.Writes, Plan.KeysAt, Bound;
  }

  /** After a complete commit every object that is kept has the row that says what
      memory holds, and no removed object has a row. */
  lemma KeptRow(x: Plan, store0: Store, store: Store, limit: nat, p: Ptr)
    requires Complete(x, store0, store, limit) && InStep(x, store0) && Kept(x, p)
    ensures x.FinalKey(p) in store && store[x.FinalKey(p)] == RowNow(x, p)
  {
    hide Plan.Ok, Plan.Writes, Plan.Comes, Plan.Removes, Plan.FinalKey, Plan.NewRow, RowNow, Plan.Untouched,
      Plan.RefersTo;
    assert p < limit;
    if x.Writes(p) {
      NewRowNow(x, p);
    } else {
      NotTouched(x, p);
      KeyUntouched(x, limit, p);
    }
  }

  lemma NotTouched(x: Plan, p: Ptr)
    requires !x.Writes(p) && !x.Removes(p)
    ensures !x.Touches(p)
  {
  }

  lemma RemovedRow(x: Plan, store0: Store, store: Store, limit: nat, q: Ptr)
    requires Complete(x, store0, store, limit) && x.Removes(q)
    ensures x.FinalKey(q) !in store
  {
    hide Plan.Ok, Plan.Writes, Plan.Comes, Plan.Removes, Plan.FinalKey, Plan.NewRow, Plan.Untouched;
    RemovedComes(x, q);
  }

  // ----- reading the store

  /** The rows that the fetch queries give are those of the store, with columns for
      back references in addition. */
  ghost predicate Reads(s: Schema, plan: seq<nat>, tables: Tables, store: Store)
    requires PlanOk(s, plan, tables)
  {
    && (forall r :: r in AllRows(s, plan, tables) ==> IsStored(s, r, store))
    && (forall k :: k in store && k.def in plan && !s[k.def].singleton ==>
          exists r :: r in AllRows(s, plan, tables) && RowKey(s, r) == k)
  }

  ghost predicate IsStored(s: Schema, r: Row, store: Store)
    requires RowOk(s, r)
  {
    RowKey(s, r) in store && WithoutBacks(s, r, |s[r.def].fields|) == store[RowKey(s, r)]
  }

  // ----- the graph comes back

  /** What the object at `p` holds in field `j`. */
  ghost function ScalarNow(x: Plan, p: Ptr, j: nat): Value
    requires j < |x.Def(p).fields|
  {
    if j == 0 then KeyColumn(x.Def(p).fields[0].kind, x.FinalId(p))
    else if j == 1 && x.Def(p).hasRevision then Integer(RevisionNow(x, p))
    else PlainAt(x.BlockOf(p), x.Def(p).fields[j])
  }

  /** Where the object at `p` refers to with field `f`: to what has the key in its row.
      That is the object it refers to in memory, unless a new one had no id yet, and
      nothing for one that was removed, unless it was removed before and something
      has the id 0. */
  ghost predicate ReferenceBack(x: Plan, store: Store, m: Objects, p: Ptr, f: Field) {
    var q := BlockRef(x.BlockOf(p), f.offset);
    var back, k := RefOf(m, x.FinalKey(p), f.offset), ReferenceKey(x, p, q);
    && back == (if q != 0 && k in store then Some(k) else None)
    && (q != 0 && Kept(x, q) && (!x.Writes(p) || q <= p || x.FateOf(q) != OBJNEW) ==> back == Some(x.FinalKey(q)))
    && (q == 0 || (x.Removes(q) && (!x.Writes(p) || q > p || Key(x.BlockOf(q).def, Id(0)) !in store)) ==> back == None)
  }

  /** The object at `p` is in the fetched graph under its key, clean, with its scalars
      and its references. */
  ghost predicate ComesBack(x: Plan, store: Store, m: Objects, p: Ptr) {
    var d, k := x.Def(p), x.FinalKey(p);
    && Fetched(m, k) && FaceOf(m, k).state == OBJCLEAN
    && (d.hasRevision ==> FaceOf(m, k).revision == RevisionNow(x, p))
    && (forall j :: 0 <= j < |d.fields| && Scalar(d.fields[j].kind) && d.fields[j].offset >= 0 ==>
          PlainOf(m, k, d.fields[j].offset) == ScalarNow(x, p, j))
    && (forall j :: 0 <= j < |d.fields| && d.fields[j].kind == REFERENCE ==> ReferenceBack(x, store, m, p, d.fields[j]))
  }

  /** `m` is what a fetch of the store gives. */
  ghost predicate FetchedFrom(s: Schema, store: Store, plan: seq<nat>, tables: Tables, m: Objects) {
    && PlanOk(s, plan, tables) && Reads(s, plan, tables, store) && (forall d :: d in plan <==> d in s)
    && IsFetchOf(s, m, AllRows(s, plan, tables), Singles(s, plan))
  }

  lemma StoredRow(x: Plan, store0: Store, store: Store, limit: nat, plan: seq<nat>, tables: Tables, p: Ptr)
    returns (r: Row)
    requires Complete(x, store0, store, limit) && InStep(x, store0) && Kept(x, p)
    requires PlanOk(x.schema, plan, tables) && Reads(x.schema, plan, tables, store)
    requires forall d :: d in plan <==> d in x.schema
    ensures r in AllRows(x.schema, plan, tables) && RowKey(x.schema, r) == x.FinalKey(p)
    ensures p in x.heap && r.def == x.heap[p].def && x.Def(p) == x.schema[r.def]
    ensures ReadOf(x.schema, r, ImageNow(x, p), RowKeys(x, p))
  {
    hide Plan.Ok, Plan.Comes, Plan.Removes, Plan.WrittenBack, Plan.Over, InStep, PlanOk, RowOk, AllRows, Bound,
      WithoutBacks, RowKey, ImageNow, RowKeys;
    KeptInHeap(x, p);
    KeptRow(x, store0, store, limit, p);
    var k := x.FinalKey(p);
    r :| r in AllRows(x.schema, plan, tables) && RowKey(x.schema, r) == k;
    KeyDef(x.schema, r);
    assert IsStored(x.schema, r, store);
  }

  /** What has a row is fetched, and, apart from the singletons, nothing else. */
  lemma FetchedIs(s: Schema, store: Store, plan: seq<nat>, tables: Tables, m: Objects, k: Key)
    requires FetchedFrom(s, store, plan, tables, m) && k.def in s && !s[k.def].singleton
    ensures Fetched(m, k) <==> k in store
  {
    hide Fetched, RowOk, PlanOk, RowKey, AllRows, ScalarsRead, Links, RefOf, ListOf, PatchesOf, FaceOf;
    var rows := AllRows(s, plan, tables);
    assert k !in Singles(s, plan);
    if Fetched(m, k) {
      var r :| r in rows && RowKey(s, r) == k;
      assert IsStored(s, r, store);
    }
  }

  lemma ReferenceTyped(s: Schema, r: Row, j: nat)
    requires RowOk(s, r) && j < |s[r.def].fields| && s[r.def].fields[j].kind == REFERENCE
    ensures j > 0 && TargetKnown(s, s[r.def].fields[j])
    ensures FieldLink(s, s[r.def].fields[j], RowKey(s, r), ColumnAt(s, r, j)) != [] ==>
              !s[s[r.def].fields[j].def.value].singleton
  {
    assert s[r.def].fields[j] in s[r.def].fields;
  }

  lemma ReferenceComesBack(x: Plan, store0: Store, store: Store, limit: nat, plan: seq<nat>, tables: Tables, m: Objects,
                           p: Ptr, r: Row, j: nat)
    requires Complete(x, store0, store, limit) && InStep(x, store0) && Kept(x, p)
    requires FetchedFrom(x.schema, store, plan, tables, m)
    requires r in AllRows(x.schema, plan, tables) && RowKey(x.schema, r) == x.FinalKey(p)
    requires p in x.heap && r.def == x.heap[p].def && r.def in x.schema && x.Def(p) == x.schema[r.def]
    requires ReadOf(x.schema, r, ImageNow(x, p), RowKeys(x, p))
    requires j < |x.Def(p).fields| && x.Def(p).fields[j].kind == REFERENCE
    ensures ReferenceBack(x, store, m, p, x.Def(p).fields[j])
  {
    hide Plan.WrittenBack, Plan.Over, InStep, PlanOk, RowOk, AllRows, RowKey, Bound, WithoutBacks, RefOf,
      Fetched, ColumnAt, ReadOf, Plan.FinalId, Plan.Comes, Plan.Removes, Links, Plan.Ok, Reads, Kept, Plan.FinalKey;
    var s, f := x.schema, x.Def(p).fields[j];
    var q := BlockRef(x.heap[p], f.offset);
    ReferenceTyped(s, r, j);
    ReferenceLinked(s, plan, tables, m, r, j);
    WrittenReferenceIsRead(s, r, ImageNow(x, p), RowKeys(x, p), j);
    if q != 0 {
      TargetRef(x, p, f, q);
      FetchedIs(s, store, plan, tables, m, ReferenceKey(x, p, q));
      LeadsTo(x, p, q);
      if Kept(x, q) {
        KeptRow(x, store0, store, limit, q);
      }
      if x.Removes(q) {
        RemovedRow(x, store0, store, limit, q);
      }
    }
  }

  lemma TargetRef(x: Plan, p: Ptr, f: Field, q: Ptr)
    requires x.Ok() && p in x.heap && f in x.Def(p).fields && f.kind == REFERENCE && q != 0
    requires q == BlockRef(x.heap[p], f.offset)
    ensures f.def.Some? && TargetKey(f, RowKeys(x, p), q) == ReferenceKey(x, p, q)
    ensures ReferenceKey(x, p, q).def == f.def.value && f.def.value in x.schema
  {
    hide Plan.FinalId, Plan.Comes, Plan.Writes, Plan.KeyAt;
    assert FieldOk(x.schema, x.heap, x.heap[p], f);
    assert q in Targets(x.heap[p], f);
  }

  lemma LeadsTo(x: Plan, p: Ptr, q: Ptr)
    ensures Kept(x, q) && (!x.Writes(p) || q <= p || x.FateOf(q) != OBJNEW) ==> ReferenceKey(x, p, q) == x.FinalKey(q)
    ensures x.Removes(q) ==>
              ReferenceKey(x, p, q) == if x.Writes(p) && q <= p then Key(x.BlockOf(q).def, Id(0)) else x.FinalKey(q)
  {
    hide Plan.Comes, Plan.Writes, Plan.RefersTo;
  }

  lemma ScalarsComeBack(x: Plan, m: Objects, p: Ptr, r: Row)
    requires ReadOf(x.schema, r, ImageNow(x, p), RowKeys(x, p)) && x.Def(p) == x.schema[r.def]
    requires RowKey(x.schema, r) == x.FinalKey(p) && ScalarsRead(x.schema, r, m, AllFields(x.schema, r))
    ensures var d, k := x.Def(p), x.FinalKey(p);
            && (d.hasRevision ==> FaceOf(m, k).revision == RevisionNow(x, p))
            && (forall j :: 0 <= j < |d.fields| && Scalar(d.fields[j].kind) && d.fields[j].offset >= 0 ==>
                  PlainOf(m, k, d.fields[j].offset) == ScalarNow(x, p, j))
  {
    hide Plan.FinalId, Plan.Comes, Plan.Writes, Plan.FinalKey, Bound, WithoutBacks, RowKey, ColumnAt, PlainAt, PlainOf,
      FaceOf, RowTyped, KeyTyped, SchemaOk, Plan.FinalRevision, KeyColumn, RowKeys;
    var d, k := x.Def(p), x.FinalKey(p);
    forall j | 0 <= j < |d.fields| && Scalar(d.fields[j].kind)
      ensures ColumnAt(x.schema, r, j) == ScalarNow(x, p, j)
    {
      WrittenIsRead(x.schema, r, ImageNow(x, p), RowKeys(x, p), j);
    }
    if d.hasRevision {
      assert Scalar(d.fields[1].kind);
      assert ColumnAt(x.schema, r, 1) == ScalarNow(x, p, 1);
    }
  }

  /** After a complete commit, fetching gives the graph in memory back: every object
      that is kept comes back under its key with its revision, its scalars and its
      references; a reference to a removed object comes back as NULL; and apart from
      the singletons nothing else is fetched than what has a row. */
  lemma GraphComesBack(x: Plan, store0: Store, store: Store, limit: nat, plan: seq<nat>, tables: Tables, m: Objects)
    requires Complete(x, store0, store, limit) && InStep(x, store0)
    requires FetchedFrom(x.schema, store, plan, tables, m)
    ensures forall p: Ptr :: Kept(x, p) ==> ComesBack(x, store, m, p)
    ensures forall p: Ptr :: x.Removes(p) ==> !Fetched(m, x.FinalKey(p))
    ensures forall k: Key :: k.def in x.schema && !x.schema[k.def].singleton ==> (Fetched(m, k) <==> k in store)
  {
    hide *;
    forall p: Ptr | Kept(x, p) ensures ComesBack(x, store, m, p) {
      ObjectComesBack(x, store0, store, limit, plan, tables, m, p);
    }
    forall p: Ptr | x.Removes(p) ensures !Fetched(m, x.FinalKey(p)) {
      RemovedStaysAway(x, store0, store, limit, plan, tables, m, p);
    }
    forall k: Key | k.def in x.schema && !x.schema[k.def].singleton ensures Fetched(m, k) <==> k in store {
      FetchedIs(x.schema, store, plan, tables, m, k);
    }
  }

  lemma RemovedStaysAway(x: Plan, store0: Store, store: Store, limit: nat, plan: seq<nat>, tables: Tables, m: Objects,
                         p: Ptr)
    requires Complete(x, store0, store, limit) && FetchedFrom(x.schema, store, plan, tables, m) && x.Removes(p)
    ensures !Fetched(m, x.FinalKey(p))
  {
    hide Plan.Ok, Plan.Comes, Plan.WrittenBack, Plan.Over, FetchedFrom, Fetched;
    RemovedRow(x, store0, store, limit, p);
    FetchedIs(x.schema, store, plan, tables, m, x.FinalKey(p));
  }

  lemma ObjectComesBack(x: Plan, store0: Store, store: Store, limit: nat, plan: seq<nat>, tables: Tables, m: Objects,
                        p: Ptr)
    requires Complete(x, store0, store, limit) && InStep(x, store0) && Kept(x, p)
    requires FetchedFrom(x.schema, store, plan, tables, m)
    ensures ComesBack(x, store, m, p)
  {
    hide Plan.Ok, Plan.Comes, Plan.Removes, Plan.Writes, Plan.WrittenBack, Plan.Over, Plan.FinalKey, InStep,
      PlanOk, RowOk, AllRows, RowKey, ReadOf, Links, Fetched, PlainOf, RefOf, ListOf, PatchesOf, FaceOf, ScalarsRead,
      ReferenceBack, ScalarNow, Reads, ImageNow, RowKeys, RevisionNow, Singles;
    var s := x.schema;
    var r := StoredRow(x, store0, store, limit, plan, tables, p);
    ScalarsComeBack(x, m, p, r);
    assert x.FinalKey(p) in KeysOf(s, AllRows(s, plan, tables));
    forall j | 0 <= j < |x.Def(p).fields| && x.Def(p).fields[j].kind == REFERENCE
      ensures ReferenceBack(x, store, m, p, x.Def(p).fields[j])
    {
      ReferenceComesBack(x, store0, store, limit, plan, tables, m, p, r, j);
    }
  }

  /** A session that fetches from the store another session has committed to. */
  method FetchAgain(written: Commit.Session, ghost x: Plan, ghost store0: Store, ghost limit: nat, plan: seq<nat>,
                    tables: Tables)
    returns (session: Fetch.Session, root: Key)
    requires x.schema == written.schema && Complete(x, store0, written.store, limit) && InStep(x, store0)
    requires PlanOk(x.schema, plan, tables) && Reads(x.schema, plan, tables, written.store)
    requires (forall d :: d in plan <==> d in x.schema) && exists d :: d in plan && x.schema[d].singleton
    ensures FetchedFrom(x.schema, written.store, plan, tables, session.objects)
    ensures forall p: Ptr :: Kept(x, p) ==> ComesBack(x, written.store, session.objects, p)
    ensures forall p: Ptr :: x.Removes(p) ==> !Fetched(session.objects, x.FinalKey(p))
  {
    hide Complete, InStep, PlanOk, Reads, Kept, ComesBack, Plan.Removes, Plan.FinalKey, IsFetchOf, Fetched,
      AllRows, Singles;
    session := new Fetch.Session(written.schema);
    root := session.Fetch(plan, tables);
    GraphComesBack(x, store0, written.store, limit, plan, tables, session.objects);
  }

  // ----- committing what was fetched

  /** What the session knows after a fetch: the fetched objects, as they were fetched. */
  ghost predicate Loaded(m: Objects, heap: Heap, records: Records) {
    && records.Keys == heap.Keys
    && (forall p :: p in records ==>
          var r, k := records[p], Key(heap[p].def, records[p].id);
          && r.def == Some(heap[p].def) && r.next.None? && Fetched(m, k)
          && r.state == FaceOf(m, k).state && r.revision == FaceOf(m, k).revision)
    && (forall p, q :: p in records && q in records && p != q ==>
          Key(heap[p].def, records[p].id) != Key(heap[q].def, records[q].id))
  }

  ghost function PlanOf(s: Schema, heap: Heap, records: Records, roots: set<Ptr>, random: Ptr -> int): Plan {
    Plan(s, heap, Known(s, heap, records, roots), random)
  }

  /** The object at `p` goes with a commit though nobody touched it. */
  ghost predicate Goes(s: Schema, heap: Heap, roots: set<Ptr>, p: Ptr) {
    && p in heap && heap[p].def in s && !s[heap[p].def].singleton && s[heap[p].def].autoRemove
    && !Reachable(s, heap, roots, p)
  }

  /** A plan over clean objects, which are all there is in memory. */
  ghost predicate Clean(x: Plan) {
    && HeapOk(x.schema, x.heap) && x.m.Keys == x.heap.Keys
    && forall p :: p in x.m ==> x.m[p].def == Some(x.heap[p].def) && x.m[p].state == OBJCLEAN
  }

  lemma LoadedClean(s: Schema, store: Store, plan: seq<nat>, tables: Tables, m: Objects,
                    heap: Heap, records: Records, roots: set<Ptr>, random: Ptr -> int)
    requires FetchedFrom(s, store, plan, tables, m) && Loaded(m, heap, records) && HeapOk(s, heap)
    ensures var x := PlanOf(s, heap, records, roots, random);
            && Clean(x) && RecordsOk(heap, x.m)
            && forall p :: p in heap ==>
                 x.m[p] == records[p].(next := if Reachable(s, heap, roots, p) then Some(p) else None)
  {
    hide FetchedFrom, Loaded, Reachable, HeapOk, Known;
    FetchedClean(s, store, plan, tables, m);
    KnownKeys(s, m, heap, records, roots);
    forall p | p in heap
      ensures p in records && records[p].def == Some(heap[p].def) && records[p].state == OBJCLEAN
      ensures Known(s, heap, records, roots)[p] ==
              records[p].(next := if Reachable(s, heap, roots, p) then Some(p) else None)
    {
      KnownOne(s, m, heap, records, roots, p);
    }
  }

  lemma FetchedClean(s: Schema, store: Store, plan: seq<nat>, tables: Tables, m: Objects)
    requires FetchedFrom(s, store, plan, tables, m)
    ensures forall k :: Fetched(m, k) ==> FaceOf(m, k).state == OBJCLEAN
  {
    hide PlanOk, Reads, Links, Fetched, FaceOf, RefOf, ListOf, PatchesOf, ScalarsRead, AllRows, RowKey;
  }

  lemma KnownKeys(s: Schema, m: Objects, heap: Heap, records: Records, roots: set<Ptr>)
    requires Loaded(m, heap, records)
    ensures Known(s, heap, records, roots).Keys == heap.Keys
  {
    hide Reachable;
    assert forall p :: p in heap ==> p in records by {
      forall p | p in heap ensures p in records {
        assert p in heap.Keys;
      }
    }
  }

  lemma KnownOne(s: Schema, m: Objects, heap: Heap, records: Records, roots: set<Ptr>, p: Ptr)
    requires Loaded(m, heap, records) && p in heap
    requires forall k :: Fetched(m, k) ==> FaceOf(m, k).state == OBJCLEAN
    ensures p in records && records[p].def == Some(heap[p].def) && records[p].state == OBJCLEAN
    ensures p in Known(s, heap, records, roots)
    ensures Known(s, heap, records, roots)[p] ==
            records[p].(next := if Reachable(s, heap, roots, p) then Some(p) else None)
  {
    hide Reachable, Fetched, FaceOf;
    assert p in heap.Keys;
  }

  /** An object of a clean plan is left alone, or goes because nothing leads to it. */
  lemma CleanFate(x: Plan, p: Ptr)
    requires Clean(x)
    ensures !x.Writes(p) && (x.Comes(p) <==> p in x.heap)
    ensures x.Removes(p) <==> p in x.heap && !x.Def(p).singleton && x.Def(p).autoRemove && x.m[p].next.None?
    ensures p in x.heap ==>
              && x.heap[p].def in x.schema && x.Def(p) == x.schema[x.heap[p].def]
              && x.FinalKey(p) == Key(x.heap[p].def, x.m[p].id) && x.RecordOf(p) == x.m[p] && x.FinalId(p) == x.m[p].id
  {
    hide Plan.RefersTo, FieldOk;
    forall q: Ptr ensures !x.Writes(q) {
      assert x.FateOf(q) == OBJCLEAN || x.FateOf(q) == OBJREMOVED;
    }
  }

  /** A fetched object has a row, with its key and its revision. */
  lemma RowOfLoaded(s: Schema, store: Store, plan: seq<nat>, tables: Tables, m: Objects, k: Key)
    requires FetchedFrom(s, store, plan, tables, m) && k.def in s && !s[k.def].singleton && Fetched(m, k)
    ensures FitsKey(s[k.def], k.id) && Matches(store, k, s[k.def].hasRevision, FaceOf(m, k).revision)
  {
    hide Fetched, RowKey, AllRows, Links, RefOf, ListOf, PatchesOf, FaceOf, RowTyped;
    var rows := AllRows(s, plan, tables);
    FetchedIs(s, store, plan, tables, m, k);
    var r :| r in rows && RowKey(s, r) == k;
    assert IsStored(s, r, store);
    KeyKind(s, r);
    if s[k.def].hasRevision {
      KeyDef(s, r);
      RevisionColumn(s, r);
    }
  }

  lemma KeyKind(s: Schema, r: Row)
    requires RowOk(s, r)
    ensures RowKey(s, r).def == r.def && FitsKey(s[r.def], RowKey(s, r).id)
  {
    hide RowTyped;
  }

  lemma RevisionColumn(s: Schema, r: Row)
    requires RowOk(s, r) && s[r.def].hasRevision
    ensures var cols := WithoutBacks(s, r, |s[r.def].fields|);
            |s[r.def].fields| > 1 && |cols| > 1 && cols[1] == ColumnAt(s, r, 1)
  {
    hide RowTyped, ColumnAt;
    var fields := s[r.def].fields;
    assert DefinitionOk(s, r.def);
    assert BoundColumn(fields, 1) == 1;
    WithoutBacksAt(s, r, 1, |fields|);
  }

  lemma {:induction false} WithoutBacksAt(s: Schema, r: Row, i: nat, n: nat)
    requires r.def in s && DefinitionOk(s, r.def) && i < n <= |s[r.def].fields| && Bindable(s[r.def].fields[i])
    ensures BoundColumn(s[r.def].fields, i) < |WithoutBacks(s, r, n)|
    ensures WithoutBacks(s, r, n)[BoundColumn(s[r.def].fields, i)] == ColumnAt(s, r, i)
  {
    hide DefinitionOk, ColumnAt;
    WithoutBacksLength(s, r, n);
    WithoutBacksLength(s, r, n - 1);
    if i < n - 1 {
      WithoutBacksAt(s, r, i, n - 1);
    }
  }

  lemma CleanOk(s: Schema, store: Store, plan: seq<nat>, tables: Tables, m: Objects,
                heap: Heap, records: Records, roots: set<Ptr>, random: Ptr -> int)
    requires FetchedFrom(s, store, plan, tables, m) && Loaded(m, heap, records) && HeapOk(s, heap)
    ensures var x := PlanOf(s, heap, records, roots, random);
            x.Ok() && forall p: Ptr :: x.Removes(p) ==> x.Removable(store, p)
  {
    hide PlanOk, Reads, Reachable, HeapOk, IsFetchOf, Plan.Comes, Plan.Writes, Plan.Removes, Plan.FinalKey, Plan.FinalId,
      Plan.RecordOf, FitsKey, Clean, Matches, PlanOf, Fetched, FaceOf, RecordsOk, Plan.Def;
    var x := PlanOf(s, heap, records, roots, random);
    PlanParts(s, heap, records, roots, random);
    LoadedClean(s, store, plan, tables, m, heap, records, roots, random);
    forall p: Ptr | x.Comes(p) ensures x.KeyFits(p) {
      CleanFate(x, p);
      if !x.Def(p).singleton {
        RowOfLoaded(s, store, plan, tables, m, Key(heap[p].def, records[p].id));
      }
    }
    forall p: Ptr | x.Removes(p) ensures x.Removable(store, p) {
      CleanFate(x, p);
      RowOfLoaded(s, store, plan, tables, m, Key(heap[p].def, records[p].id));
    }
    forall p: Ptr, q: Ptr | x.Comes(p) && x.Comes(q) && p != q ensures x.FinalKey(p) != x.FinalKey(q) {
      CleanFate(x, p);
      CleanFate(x, q);
    }
    CleanDefs(x);
    assert SchemaOk(s) by { PlanSchema(s, plan, tables); }
  }

  lemma PlanParts(s: Schema, heap: Heap, records: Records, roots: set<Ptr>, random: Ptr -> int)
    ensures var x := PlanOf(s, heap, records, roots, random); x.schema == s && x.heap == heap && x.random == random
  {
  }

  lemma CleanDefs(x: Plan)
    requires Clean(x)
    ensures HeapOk(x.schema, x.heap) && forall p :: p in x.m ==> x.m[p].def.Some?
  {
  }

  lemma PlanSchema(s: Schema, plan: seq<nat>, tables: Tables)
    requires PlanOk(s, plan, tables)
    ensures SchemaOk(s)
  {
  }

  /** A commit after a fetch, when nothing was reported as changed: it is complete and
      leaves the store as it was, except that the objects nothing leads to go if their
      type asks for automatic removal. */
  method CommitUntouched(session: Commit.Session, ghost m: Objects, roots: seq<Ptr>, ghost plan: seq<nat>,
                         ghost tables: Tables)
    returns (complete: bool)
    requires FetchedFrom(session.schema, session.store, plan, tables, m)
    requires Loaded(m, session.heap, session.records) && session.Ready(roots)
    modifies session
    ensures complete
    ensures forall k :: SameRow(old(session.store), session.store, k) ||
                        (k !in session.store &&
                         exists p :: Goes(session.schema, session.heap, Commit.SetOf(roots), p)
                                     && k == Key(session.heap[p].def, old(session.records)[p].id))
    ensures forall p :: Goes(session.schema, session.heap, Commit.SetOf(roots), p) ==>
                          Key(session.heap[p].def, old(session.records)[p].id) !in session.store
  {
    hide FetchedFrom, Loaded, Plan.Ok, Plan.WrittenBack, Plan.Removes, Plan.Removable, Plan.Over, Plan.Blocked, Known,
      Reachable, HeapOk, RecordsOk;
    ghost var s, heap, records, store0 := session.schema, session.heap, session.records, session.store;
    CleanOk(s, store0, plan, tables, m, heap, records, Commit.SetOf(roots), session.random);
    ghost var x, limit;
    complete, x, limit := session.CommitData(roots);
    OnlyGone(s, store0, plan, tables, m, heap, records, Commit.SetOf(roots), x, session.store, limit);
  }

  lemma OnlyGone(s: Schema, store0: Store, plan: seq<nat>, tables: Tables, m: Objects, heap: Heap, records: Records,
                 roots: set<Ptr>, x: Plan, store: Store, limit: nat)
    requires FetchedFrom(s, store0, plan, tables, m) && Loaded(m, heap, records) && HeapOk(s, heap)
    requires x == PlanOf(s, heap, records, roots, x.random) && x.WrittenBack(store0, store, limit) && x.Over(limit)
    ensures forall p :: Goes(s, heap, roots, p) ==> p in records && Key(heap[p].def, records[p].id) !in store
    ensures forall k :: SameRow(store0, store, k) ||
                        (k !in store && exists p :: Goes(s, heap, roots, p) && k == Key(heap[p].def, records[p].id))
  {
    hide FetchedFrom, Loaded, Plan.Comes, Plan.Writes, Plan.Removes, Plan.FinalKey, Plan.FinalId, Plan.RecordOf, HeapOk,
      Reachable, Clean, PlanOf, Plan.Def, SameRow, Plan.Touches;
    PlanParts(s, heap, records, roots, x.random);
    LoadedClean(s, store0, plan, tables, m, heap, records, roots, x.random);
    forall p: Ptr ensures x.Removes(p) <==> Goes(s, heap, roots, p) {
      CleanFate(x, p);
    }
    forall p: Ptr | Goes(s, heap, roots, p) ensures p in records && Key(heap[p].def, records[p].id) !in store {
      CleanFate(x, p);
      LoadedKnown(m, heap, records, p);
    }
    forall k | !SameRow(store0, store, k)
      ensures k !in store && exists p :: Goes(s, heap, roots, p) && k == Key(heap[p].def, records[p].id)
    {
      var p: Ptr :| p < limit && x.Touches(p) && x.FinalKey(p) == k;
      CleanFate(x, p);
      assert x.Removes(p) by { TouchedBy(x, p); }
    }
  }

  lemma TouchedBy(x: Plan, p: Ptr)
    requires x.Touches(p) && !x.Writes(p)
    ensures x.Removes(p)
  {
  }

  lemma LoadedKnown(m: Objects, heap: Heap, records: Records, p: Ptr)
    requires Loaded(m, heap, records) && p in heap
    ensures p in records
  {
    assert p in heap.Keys;
  }
}
