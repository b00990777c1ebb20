/** What a commit does to the store, dbsimplebase.c:312-346 and
    dbsimple_sqlite3.c:558-596. */
module Persist {
  import opened ObjectGraph
  import opened Schema
  import opened Reach
  import opened Traverse
  import opened Bind
  import opened Wrappers

  /** All tables: a row is found by its type and id. */
  type Store = map<Key, seq<Value>>

  /** The rows a delete statement finds: it asks for the revision as well if rows have one. */
  predicate Matches(store: Store, k: Key, hasRevision: bool, revision: int) {
    k in store && (hasRevision ==> |store[k]| > 1 && store[k][1] == Integer(revision))
  }

  predicate FitsKey(d: Definition, id: KeyId) {
    KeyField(d) && (Whole(d.fields[0].kind) <==> id.Id?)
  }

  /** The state an object is written back in; a singleton is never written. */
  function Fate(d: Definition, r: Record): ObjectState {
    if d.singleton then OBJCLEAN
    else if r.next.Some? then r.state
    else if r.state == OBJMODIFIED then (if d.explicitRemove then OBJMODIFIED else OBJREMOVED)
    else if r.state == OBJCLEAN then (if d.autoRemove then OBJREMOVED else OBJCLEAN)
    else r.state
  }

  /** What the commit is told: definitions, memory, objects after marking, random numbers. */
  datatype Plan = Plan(schema: Schema, heap: Heap, m: Records, random: Ptr -> int) {
    function Def(p: Ptr): Definition {
      if p in heap && heap[p].def in schema then schema[heap[p].def]
      else Definition([], false, true, false, false)
    }

    function BlockOf(p: Ptr): Block {
      if p in heap then heap[p] else Block(0, map[], map[], map[])
    }

    /** What the session knows of an object, or what it will write down on meeting it. */
    function RecordOf(p: Ptr): Record {
      if p in m then m[p] else FRESH.(def := Some(BlockOf(p).def))
    }

    function FateOf(p: Ptr): ObjectState {
      Fate(Def(p), RecordOf(p))
    }

    predicate RefersTo(p: Ptr, q: Ptr) {
      q != 0 && p in heap && exists f :: f in Def(p).fields && f.kind == REFERENCE && BlockRef(heap[p], f.offset) == q
    }

    /** The objects that get their turn: those the session knows, and those that are
        first met while an object at a lower address is written. */
    ghost predicate Comes(p: Ptr)
      decreases p, 0
    {
      p in m || exists q :: 0 <= q < p && Writes(q) && RefersTo(q, p)
    }

    ghost predicate Writes(p: Ptr)
      decreases p, 1
    {
      (FateOf(p) == OBJNEW || FateOf(p) == OBJMODIFIED) && Comes(p)
    }

    predicate Removes(p: Ptr) {
      p in m && FateOf(p) == OBJREMOVED
    }

    ghost predicate Touches(p: Ptr) {
      Writes(p) || Removes(p)
    }

    /** A new object gets its id when it is written. */
    function FinalId(p: Ptr): KeyId {
      if FateOf(p) == OBJNEW then Id(random(p)) else RecordOf(p).id
    }

    function FinalKey(p: Ptr): Key {
      Key(BlockOf(p).def, FinalId(p))
    }

    function FinalRevision(p: Ptr): int {
      if FateOf(p) == OBJNEW then 1 else RecordOf(p).revision + 1
    }

    /** The id of `q` before its turn: 0 as long as nobody has met it. */
    function EarlyId(q: Ptr): KeyId {
      RecordOf(q).id
    }

    /** The id of `q` after its turn: 0 when it was removed, as it is in the index
        no more, and when its turn did not come. */
    ghost function LateId(q: Ptr): KeyId {
      if Comes(q) && !Removes(q) then FinalId(q) else Id(0)
    }

    /** The id that a reference to `q` is written with while `p` is written: objects
        are taken in the order of their addresses. */
    ghost function KeyAt(p: Ptr, q: Ptr): KeyId {
      if q <= p then LateId(q) else EarlyId(q)
    }

    ghost function KeysAt(p: Ptr): Keys {
      map q | q in heap :: KeyAt(p, q)
    }

    ghost function NewRow(p: Ptr): seq<Value> {
      var d := Def(p);
      Bound(d, Image(BlockOf(p), FinalId(p), FinalRevision(p)), KeysAt(p), |d.fields|)
    }

    predicate Removable(store: Store, p: Ptr) {
      Matches(store, FinalKey(p), Def(p).hasRevision, RecordOf(p).revision)
    }

    ghost predicate KeyFits(p: Ptr) {
      Def(p).singleton || (FitsKey(Def(p), RecordOf(p).id) && FitsKey(Def(p), FinalId(p)))
    }

    /** Memory, objects and definitions agree, and no two objects end up with one key. */
    ghost predicate Ok() {
      && SchemaOk(schema) && HeapOk(schema, heap) && RecordsOk(heap, m)
      && (forall p :: p in m ==> m[p].def.Some?)
      && (forall p :: Comes(p) ==> KeyFits(p))
      && (forall p, q :: Comes(p) && Comes(q) && p != q && !Def(p).singleton && !Def(q).singleton ==>
            FinalKey(p) != FinalKey(q))
    }

    /** The objects below `limit` are written back: new and modified ones have the row
        that says what they hold, removed ones have none, other rows are as before. */
    ghost predicate WrittenBack(store0: Store, store: Store, limit: nat) {
      && (forall p: Ptr :: p < limit && Writes(p) ==> FinalKey(p) in store && store[FinalKey(p)] == NewRow(p))
      && (forall p: Ptr :: p < limit && Removes(p) ==> FinalKey(p) !in store)
      && (forall k :: Untouched(limit, k) ==> SameRow(store0, store, k))
    }

    ghost predicate Untouched(limit: nat, k: Key) {
      forall p: Ptr :: p < limit && Touches(p) ==> FinalKey(p) != k
    }

    /** Nobody comes at `limit` or above. */
    ghost predicate Over(limit: nat) {
      forall p: Ptr :: Comes(p) ==> p < limit
    }

    /** At `limit` is an object that is to be removed and has no row. */
    predicate Blocked(store0: Store, limit: nat) {
      Removes(limit) && !Removable(store0, limit)
    }
  }

  predicate SameRow(store: Store, store': Store, k: Key) {
    (k in store <==> k in store') && (k in store ==> store[k] == store'[k])
  }

  // ----- the objects in the order of their addresses

  /** Which object comes next in the chain does not matter to what is written. */
  function Settled(r: Record, p: Ptr): Record {
    if r.next.Some? then r.(next := Some(p)) else r
  }

  function AllSettled(m: Records): Records {
    map p | p in m :: Settled(m[p], p)
  }

  function IdAt(records: Records, q: Ptr): KeyId {
    if q in records then records[q].id else Id(0)
  }

  function IdsOf(records: Records): Keys {
    map p | p in records :: records[p].id
  }

  /** Known, or met by an object below `at`. */
  ghost predicate Due(x: Plan, at: nat, q: Ptr) {
    q in x.m || exists r :: 0 <= r < at && x.Writes(r) && x.RefersTo(r, q)
  }

  /** The index: above, the objects that are due, as they were met; below, ids as
      they are after their turn. */
  ghost predicate IndexOk(x: Plan, records: Records, at: nat) {
    && (forall q :: q in records ==> q in x.heap)
    && (forall q: Ptr :: q >= at ==> (q in records <==> Due(x, at, q)))
    && (forall q: Ptr :: q >= at && q in records ==> Settled(records[q], q) == x.RecordOf(q))
    && (forall q: Ptr :: q < at ==> IdAt(records, q) == x.LateId(q))
  }

  /** The objects below `at` have had their turn. */
  ghost predicate Underway(x: Plan, records: Records, store0: Store, store: Store, at: nat) {
    && x.Ok() && IndexOk(x, records, at)
    && (forall p: Ptr :: p < at && x.Removes(p) ==> x.Removable(store0, p))
    && x.WrittenBack(store0, store, at)
  }

  lemma NothingWritten(x: Plan, records: Records, store: Store)
    requires x.Ok() && AllSettled(records) == x.m
    ensures Underway(x, records, store, store, 0)
  {
    hide Plan.Ok, Plan.Comes, Plan.Writes, Plan.Removes, Plan.LateId, Plan.RefersTo, Plan.FinalKey, Plan.NewRow;
    RecordsInHeap(x);
    assert forall q :: q in records <==> q in AllSettled(records);
  }

  lemma RecordsInHeap(x: Plan)
    requires x.Ok()
    ensures forall q :: q in x.m ==> q in x.heap
  {
    forall q | q in x.m ensures q in x.heap {
      assert RecordOk(x.heap, q, x.m[q]);
    }
  }

  lemma RefersInHeap(x: Plan, p: Ptr, q: Ptr)
    requires x.Ok() && x.RefersTo(p, q)
    ensures q in x.heap && q != 0
  {
    var f :| f in x.Def(p).fields && f.kind == REFERENCE && BlockRef(x.heap[p], f.offset) == q;
    assert FieldOk(x.schema, x.heap, x.heap[p], f);
    assert q in Targets(x.heap[p], f);
  }

  /** Nobody comes in a stretch where nobody is in the index. */
  lemma {:induction false} NobodyComes(x: Plan, records: Records, at: nat, p: nat, r: nat)
    requires IndexOk(x, records, at) && at <= r < p && forall q :: at <= q < p ==> q !in records
    ensures !x.Comes(r)
    decreases r
  {
    hide Plan.Removes, Plan.LateId, Plan.RefersTo, Plan.FateOf, Plan.RecordOf;
    assert r !in records;
    assert !Due(x, at, r);
    forall q | 0 <= q < r && x.Writes(q) && x.RefersTo(q, r) ensures false {
      assert q >= at;
      NobodyComes(x, records, at, p, q);
    }
  }

  /** Going on to the next object in the index. */
  lemma OnTo(x: Plan, records: Records, store0: Store, store: Store, at: nat, p: nat)
    requires Underway(x, records, store0, store, at) && at <= p && p in records
    requires forall q: Ptr :: at <= q < p ==> q !in records
    ensures Underway(x, records, store0, store, p) && x.Comes(p)
  {
    hide Plan.Ok, Plan.Comes, Plan.Removes, Plan.Removable, Plan.WrittenBack, IndexOk, Plan.Writes, Plan.RefersTo;
    forall r: Ptr | at <= r < p ensures !x.Comes(r) {
      NobodyComes(x, records, at, p, r);
    }
    forall r: Ptr | at <= r < p ensures !x.Removes(r) {
      RemovedComes(x, r);
    }
    IndexOn(x, records, at, p);
    RowsOn(x, store0, store, at, p);
    assert x.Comes(p) by {
      InIndex(x, records, p, p);
    }
  }

  lemma InIndex(x: Plan, records: Records, at: nat, q: Ptr)
    requires IndexOk(x, records, at) && q in records && q >= at
    ensures Due(x, at, q) && (at <= q ==> x.Comes(q))
  {
    hide Plan.Writes, Plan.RefersTo, Plan.LateId, Plan.RecordOf;
  }

  lemma IndexOn(x: Plan, records: Records, at: nat, p: nat)
    requires IndexOk(x, records, at) && at <= p
    requires forall q: Ptr :: at <= q < p ==> q !in records && !x.Comes(q)
    ensures IndexOk(x, records, p)
  {
    hide Plan.Comes, Plan.Writes, Plan.RefersTo, Plan.RecordOf, Due;
    DueSame(x, at, p);
  }

  lemma RowsOn(x: Plan, store0: Store, store: Store, at: nat, p: nat)
    requires x.WrittenBack(store0, store, at) && at <= p
    requires forall q: Ptr :: at <= q < p ==> !x.Comes(q)
    ensures x.WrittenBack(store0, store, p)
  {
    hide Plan.Comes, Plan.Writes, Plan.Removes, Plan.FinalKey, Plan.NewRow, SameRow, Plan.Touches;
    forall q: Ptr | at <= q < p ensures !x.Writes(q) && !x.Removes(q) && !x.Touches(q) {
      TouchedComes(x, q);
    }
    assert forall k :: x.Untouched(p, k) ==> x.Untouched(at, k);
  }

  lemma TouchedComes(x: Plan, q: Ptr)
    ensures x.Writes(q) || x.Removes(q) || x.Touches(q) ==> x.Comes(q)
  {
  }

  lemma DueSame(x: Plan, at: nat, p: nat)
    requires at <= p && forall r: Ptr :: at <= r < p ==> !x.Comes(r)
    ensures forall q :: Due(x, p, q) <==> Due(x, at, q)
  {
    hide Plan.RefersTo, Plan.FateOf;
    forall q | Due(x, p, q) ensures Due(x, at, q) {
      if q !in x.m {
        var r :| 0 <= r < p && x.Writes(r) && x.RefersTo(r, q);
        assert x.Comes(r);
      }
    }
    forall q | Due(x, at, q) ensures Due(x, p, q) {
    }
  }

  lemma RemovedComes(x: Plan, r: Ptr)
    ensures x.Removes(r) ==> x.Comes(r)
  {
  }

  lemma OwnKey(x: Plan, p: Ptr, q: Ptr)
    requires x.Ok() && x.Touches(p) && x.Touches(q) && p != q
    ensures x.FinalKey(p) != x.FinalKey(q)
  {
    hide Plan.FinalKey, Plan.FinalId, Plan.RefersTo, RecordsOk, SchemaOk, HeapOk, FitsKey, Plan.Def, Plan.RecordOf;
    RemovedComes(x, p);
    RemovedComes(x, q);
    NotSingleton(x, p);
    NotSingleton(x, q);
  }

  lemma NotSingleton(x: Plan, p: Ptr)
    ensures x.Touches(p) ==> !x.Def(p).singleton && x.Comes(p)
  {
  }

  /** The row a touched object has in the store is still the one it had. */
  lemma StillThere(x: Plan, records: Records, store0: Store, store: Store, p: Ptr)
    requires Underway(x, records, store0, store, p) && x.Touches(p)
    ensures SameRow(store0, store, x.FinalKey(p))
  {
    hide Plan.Ok, Plan.Removes, Plan.FinalId, Plan.Removable, Plan.FinalKey, Plan.NewRow, SameRow, Plan.Touches, IndexOk;
    forall q: Ptr | q < p && x.Touches(q) ensures x.FinalKey(q) != x.FinalKey(p) {
      OwnKey(x, p, q);
    }
  }

  predicate RefersBefore(fields: seq<Field>, b: Block, n: nat, q: Ptr)
    requires n <= |fields|
  {
    q != 0 && exists j :: 0 <= j < n && fields[j].kind == REFERENCE && BlockRef(b, fields[j].offset) == q
  }

  /** Binding the first `n` fields of an object brings the unknown targets of its
      references into the index. */
  ghost predicate Introduced(heap: Heap, fields: seq<Field>, b: Block, n: nat, m: Records, m': Records)
    requires n <= |fields|
  {
    && (forall q :: q in m ==> q in m' && m'[q] == m[q])
    && (forall q :: q in m' && q !in m ==>
          RefersBefore(fields, b, n, q) && q in heap && m'[q] == FRESH.(def := Some(heap[q].def)))
    && (forall q :: RefersBefore(fields, b, n, q) ==> q in m')
  }

  lemma NotIntroduced(heap: Heap, fields: seq<Field>, b: Block, n: nat, m: Records, m': Records)
    requires n < |fields| && Introduced(heap, fields, b, n, m, m')
    requires fields[n].kind != REFERENCE || BlockRef(b, fields[n].offset) == 0
    ensures Introduced(heap, fields, b, n + 1, m, m')
  {
    assert forall q :: RefersBefore(fields, b, n + 1, q) <==> RefersBefore(fields, b, n, q);
  }

  lemma OneIntroduced(heap: Heap, fields: seq<Field>, b: Block, n: nat, m: Records, m': Records, q: Ptr)
    requires n < |fields| && Introduced(heap, fields, b, n, m, m')
    requires fields[n].kind == REFERENCE && BlockRef(b, fields[n].offset) == q && q != 0 && q in heap
    ensures Introduced(heap, fields, b, n + 1, m, Found(m', heap[q].def, q))
  {
    assert forall r :: RefersBefore(fields, b, n + 1, r) <==> RefersBefore(fields, b, n, r) || r == q;
    hide RefersBefore;
  }

  /** What the turn of `p` may do to the index. */
  ghost predicate Turned(x: Plan, records: Records, p: Ptr, records': Records) {
    && (forall q :: q in records' ==> q in x.heap)
    && (forall q :: q in records && q != p ==> q in records' && records'[q] == records[q])
    && (forall q :: q in records' && q !in records && q != p ==>
          x.Writes(p) && x.RefersTo(p, q) && records'[q] == FRESH.(def := Some(x.BlockOf(q).def)))
    && (forall q :: x.Writes(p) && x.RefersTo(p, q) && q != p ==> q in records')
    && IdAt(records', p) == x.LateId(p)
  }

  lemma IndexTurned(x: Plan, records: Records, p: Ptr, records': Records)
    requires IndexOk(x, records, p) && Turned(x, records, p, records')
    ensures IndexOk(x, records', p + 1)
  {
    hide Plan.Comes, Plan.Writes, Plan.Removes, Plan.LateId, Plan.RefersTo, Plan.FateOf, Plan.BlockOf;
    forall q: Ptr | q > p ensures q in records' <==> Due(x, p + 1, q) {
      assert Due(x, p, q) ==> Due(x, p + 1, q);
      assert x.Writes(p) && x.RefersTo(p, q) ==> Due(x, p + 1, q);
      DueSplit(x, p, q);
    }
    forall q: Ptr | q > p && q in records' ensures Settled(records'[q], q) == x.RecordOf(q) {
      if q !in records {
        assert !Due(x, p, q);
      }
    }
    forall q: Ptr | q < p ensures IdAt(records', q) == x.LateId(q) {
    }
  }

  lemma DueSplit(x: Plan, p: Ptr, q: Ptr)
    ensures Due(x, p + 1, q) ==> Due(x, p, q) || (x.Writes(p) && x.RefersTo(p, q))
  {
    hide Plan.Comes, Plan.Writes, Plan.RefersTo;
  }

  /** One more object has had its turn. */
  lemma OneMore(x: Plan, records: Records, store0: Store, store: Store, p: Ptr, records': Records, store': Store)
    requires Underway(x, records, store0, store, p) && Turned(x, records, p, records')
    requires x.Writes(p) ==> x.FinalKey(p) in store' && store'[x.FinalKey(p)] == x.NewRow(p)
    requires x.Removes(p) ==> x.FinalKey(p) !in store' && x.Removable(store0, p)
    requires forall k :: !x.Touches(p) || k != x.FinalKey(p) ==> SameRow(store, store', k)
    ensures Underway(x, records', store0, store', p + 1)
  {
    hide Plan.Ok, Plan.Writes, Plan.Removes, Plan.Removable, Plan.FinalKey, Plan.NewRow, Plan.Touches, Plan.WrittenBack,
      IndexOk, Turned;
    OneMoreRow(x, store0, store, p, store');
    IndexTurned(x, records, p, records');
  }

  lemma OneMoreRow(x: Plan, store0: Store, store: Store, p: Ptr, store': Store)
    requires x.Ok() && x.WrittenBack(store0, store, p)
    requires x.Writes(p) ==> x.FinalKey(p) in store' && store'[x.FinalKey(p)] == x.NewRow(p)
    requires x.Removes(p) ==> x.FinalKey(p) !in store'
    requires forall k :: !x.Touches(p) || k != x.FinalKey(p) ==> SameRow(store, store', k)
    ensures x.WrittenBack(store0, store', p + 1)
  {
    hide Plan.Ok, Plan.Writes, Plan.Removes, Plan.FinalKey, Plan.NewRow, Plan.Touches, SameRow, Plan.Untouched;
    forall q: Ptr | q < p + 1 && x.Writes(q)
      ensures x.FinalKey(q) in store' && store'[x.FinalKey(q)] == x.NewRow(q)
    {
      if q < p {
        RowStays(x, store, p, store', q);
      }
    }
    forall q: Ptr | q < p + 1 && x.Removes(q) ensures x.FinalKey(q) !in store' {
      if q < p {
        RowStays(x, store, p, store', q);
      }
    }
    forall k | x.Untouched(p + 1, k) ensures SameRow(store0, store', k) {
      StillUntouched(x, p, k);
      SameRowTrans(store0, store, store', k);
    }
  }

  lemma StillUntouched(x: Plan, p: Ptr, k: Key)
    requires x.Untouched(p + 1, k)
    ensures x.Untouched(p, k) && (x.Touches(p) ==> x.FinalKey(p) != k)
  {
    hide Plan.FinalKey, Plan.Touches;
  }

  lemma SameRowTrans(store0: Store, store: Store, store': Store, k: Key)
    requires SameRow(store0, store, k) && SameRow(store, store', k)
    ensures SameRow(store0, store', k)
  {
  }

  /** The turn of `p` leaves the rows of the others alone. */
  lemma RowStays(x: Plan, store: Store, p: Ptr, store': Store, q: Ptr)
    requires x.Ok() && q != p && (x.Writes(q) || x.Removes(q))
    requires forall k :: !x.Touches(p) || k != x.FinalKey(p) ==> SameRow(store, store', k)
    ensures x.FinalKey(q) in store <==> x.FinalKey(q) in store'
    ensures x.FinalKey(q) in store ==> store[x.FinalKey(q)] == store'[x.FinalKey(q)]
  {
    hide Plan.Ok, Plan.Writes, Plan.Removes, Plan.FinalKey;
    if x.Touches(p) {
      OwnKey(x, p, q);
    }
    assert SameRow(store, store', x.FinalKey(q));
  }

  /** With nobody left in the index, nobody comes any more. */
  lemma AllWritten(x: Plan, records: Records, store0: Store, store: Store, at: nat)
    requires Underway(x, records, store0, store, at) && forall q: Ptr :: q >= at ==> q !in records
    ensures x.Over(at) && forall p :: x.Removes(p) ==> x.Removable(store0, p)
  {
    hide Plan.Ok, Plan.Comes, Plan.Removes, Plan.Removable, Plan.WrittenBack, IndexOk;
    forall r: Ptr | r >= at ensures !x.Comes(r) {
      NobodyComes(x, records, at, r + 1, r);
    }
    forall p: Ptr | x.Removes(p) ensures x.Removable(store0, p) {
      RemovedComes(x, p);
      assert p < at;
    }
  }

  lemma UnderwayWritten(x: Plan, records: Records, store0: Store, store: Store, at: nat)
    requires Underway(x, records, store0, store, at)
    ensures x.WrittenBack(store0, store, at)
  {
  }

  /** While `p` is written, references get the ids of `KeysAt`. */
  lemma IdsAre(x: Plan, records: Records, store0: Store, store: Store, p: Ptr, r: Record)
    requires Underway(x, records, store0, store, p) && p in x.heap && r.id == x.LateId(p)
    ensures forall q :: TargetValue(IdsOf(records[p := r]), q) == TargetValue(x.KeysAt(p), q)
  {
    hide Plan.Ok, Plan.WrittenBack, Plan.Removes, Plan.FinalId, Plan.Removable, Plan.Comes, Plan.Writes, Plan.LateId,
      Plan.RefersTo, Plan.FateOf;
    forall q: Ptr ensures TargetValue(IdsOf(records[p := r]), q) == TargetValue(x.KeysAt(p), q) {
      assert q > p && q !in records ==> !Due(x, p, q);
      if q in x.m {
        RecordsInHeap(x);
      }
    }
  }

  // ----- from the marks to the plan

  /** What a commit knows of: the objects of the session and all that is reachable. */
  ghost function Known(s: Schema, heap: Heap, m: Records, roots: set<Ptr>): Records {
    map p | p in heap && (p in m || Reachable(s, heap, roots, p)) ::
      var r := if p in m then m[p] else FRESH;
      if Reachable(s, heap, roots, p) then r.(def := Some(heap[p].def), next := Some(p)) else r
  }

  lemma KnownAfterMarking(s: Schema, heap: Heap, m: Records, m': Records, roots: set<Ptr>)
    requires RecordsOk(heap, m) && RecordsOk(heap, m') && Grown(m, m')
    requires forall p :: p in m ==> m[p].next.None? && (m[p].def.Some? || Reachable(s, heap, roots, p))
    requires forall p :: Marked(m', p) <==> Reachable(s, heap, roots, p)
    ensures AllSettled(m') == Known(s, heap, m, roots)
  {
    var k, t := Known(s, heap, m, roots), AllSettled(m');
    forall p ensures p in t <==> p in k {
      assert p in m' ==> RecordOk(heap, p, m'[p]);
      assert Marked(m', p) ==> p in m';
    }
    forall p | p in t ensures t[p] == k[p] {
      assert RecordOk(heap, p, m'[p]);
      assert Marked(m', p) <==> m'[p].next.Some?;
    }
  }

  lemma {:induction false} Least(todo: set<Ptr>) returns (z: Ptr)
    requires todo != {}
    ensures z in todo && forall q :: q in todo ==> z <= q
  {
    z :| z in todo;
    var rest := todo - {z};
    assert todo == rest + {z};
    if rest != {} {
      var y := Least(rest);
      z := if z <= y then z else y;
    }
  }

  // ----- the statements that write one object

  lemma KeyIs(d: Definition, def: nat, id: KeyId)
    requires FitsKey(d, id)
    ensures !KeyColumn(d.fields[0].kind, id).Null?
    ensures KeyOf(def, KeyColumn(d.fields[0].kind, id)) == Key(def, id)
  {
  }

  lemma FirstIsKey(d: Definition, x: Image, keys: Keys)
    requires KeyField(d)
    ensures |Bound(d, x, keys, |d.fields|)| > 0
    ensures Bound(d, x, keys, |d.fields|)[0] == KeyColumn(d.fields[0].kind, x.id)
  {
    BoundAt(d, x, keys, 0, |d.fields|);
  }

  /** What an insert for object `p` writes, and where. */
  lemma InsertIs(x: Plan, p: Ptr)
    requires x.Ok() && x.Writes(p)
    ensures KeyField(x.Def(p)) && |x.NewRow(p)| > 0
    ensures !x.NewRow(p)[0].Null? && KeyOf(x.BlockOf(p).def, x.NewRow(p)[0]) == x.FinalKey(p)
  {
    hide Bound, KeyColumn, Plan.KeysAt;
    assert FitsKey(x.Def(p), x.FinalId(p));
    FirstIsKey(x.Def(p), Image(x.BlockOf(p), x.FinalId(p), x.FinalRevision(p)), x.KeysAt(p));
    KeyIs(x.Def(p), x.BlockOf(p).def, x.FinalId(p));
  }

  // ----- what a complete commit means

  /** A row of a type with revisions has its revision in the second column. */
  lemma RevisionWritten(x: Plan, p: Ptr)
    requires x.Ok() && x.Writes(p) && x.Def(p).hasRevision
    ensures |x.NewRow(p)| > 1 && x.NewRow(p)[1] == Integer(x.FinalRevision(p))
  {
    hide Plan.KeysAt, HeapOk, Bound;
    var d := x.Def(p);
    assert p in x.heap;
    assert DefinitionOk(x.schema, x.heap[p].def);
    assert BoundColumn(d.fields, 1) == 1;
    BoundAt(d, Image(x.BlockOf(p), x.FinalId(p), x.FinalRevision(p)), x.KeysAt(p), 1, |d.fields|);
  }

  /** Clean objects that can be reached keep their rows; modified ones have their
      contents and the next revision; new ones are there with revision 1; removed
      ones are gone. What cannot be reached any more is gone as well when it was
      modified, unless its type asks for explicit removal, and when it was clean
      only if its type asks for automatic removal. */
  lemma CompleteCommit(x: Plan, store0: Store, store: Store, limit: nat, p: Ptr)
    requires x.Ok() && x.WrittenBack(store0, store, limit) && x.Over(limit) && x.Comes(p) && !x.Def(p).singleton
    ensures var r, d, k := x.RecordOf(p), x.Def(p), x.FinalKey(p);
            && (r.next.Some? && r.state == OBJCLEAN ==> SameRow(store0, store, k))
            && k.def == (if p in x.heap then x.heap[p].def else 0)
            && (r.state == OBJNEW ==> k.id == Id(x.random(p)))
            && (r.state != OBJNEW ==> k.id == r.id)
            && (r.state == OBJNEW || (r.state == OBJMODIFIED && (r.next.Some? || d.explicitRemove)) ==>
                  && k in store && store[k] == x.NewRow(p)
                  && (d.hasRevision ==> |store[k]| > 1)
                  && (d.hasRevision ==> store[k][1] == Integer(if r.state == OBJNEW then 1 else r.revision + 1)))
            && (r.state == OBJREMOVED ==> k !in store)
            && (r.next.None? && r.state == OBJMODIFIED && !d.explicitRemove ==> k !in store)
            && (r.next.None? && r.state == OBJCLEAN && d.autoRemove ==> k !in store)
            && (r.next.None? && r.state == OBJCLEAN && !d.autoRemove ==> SameRow(store0, store, k))
  {
    hide Plan.Ok, Plan.KeysAt, Plan.NewRow, Plan.RefersTo, SameRow, Plan.FinalKey, Plan.Comes, Plan.Untouched;
    assert p < limit;
    if x.Writes(p) {
      if x.Def(p).hasRevision {
        RevisionWritten(x, p);
      }
    } else if !x.Removes(p) {
      KeyUntouched(x, limit, p);
    }
    assert x.FinalKey(p) == Key(x.BlockOf(p).def, x.FinalId(p)) by {
      KeyParts(x, p);
    }
  }

  lemma KeyParts(x: Plan, p: Ptr)
    ensures x.FinalKey(p) == Key(x.BlockOf(p).def, x.FinalId(p))
  {
  }

  /** Nobody writes or removes under the key of an object that is left alone. */
  lemma KeyUntouched(x: Plan, limit: nat, p: Ptr)
    requires x.Ok() && x.Comes(p) && !x.Def(p).singleton && !x.Touches(p)
    ensures x.Untouched(limit, x.FinalKey(p))
  {
    hide Plan.FinalKey, Plan.RefersTo, RecordsOk, SchemaOk, HeapOk, FitsKey, Plan.Def, Plan.RecordOf, Plan.Touches;
    forall q: Ptr | q < limit && x.Touches(q) ensures x.FinalKey(q) != x.FinalKey(p) {
      NotSingleton(x, q);
    }
  }

  /** A row under a key that none of the objects gets is as before. */
  lemma ForeignRows(x: Plan, store0: Store, store: Store, limit: nat, k: Key)
    requires x.Ok() && x.WrittenBack(store0, store, limit) && x.Over(limit)
    requires forall p :: x.Comes(p) && !x.Def(p).singleton ==> x.FinalKey(p) != k
    ensures (k in store <==> k in store0) && (k in store ==> store[k] == store0[k])
  {
    hide Plan.Ok, Plan.NewRow, Plan.FinalKey, Plan.Comes, Plan.Touches, Plan.Def;
    forall p: Ptr | p < limit && x.Touches(p) ensures x.FinalKey(p) != k {
      NotSingleton(x, p);
    }
    assert x.Untouched(limit, k);
    assert SameRow(store0, store, k);
  }

  /** An object that can be reached is written when it was modified, and when it is
      new, whether the session knew it or not. */
  lemma ReachedIsWritten(x: Plan, m: Records, roots: set<Ptr>, store0: Store, store: Store, limit: nat, p: Ptr)
    requires x.Ok() && x.WrittenBack(store0, store, limit) && x.Over(limit)
    requires x.m == Known(x.schema, x.heap, m, roots) && Reachable(x.schema, x.heap, roots, p) && p in x.heap
    requires x.heap[p].def in x.schema && !x.schema[x.heap[p].def].singleton
    requires p in m ==> m[p].state == OBJMODIFIED || m[p].state == OBJNEW
    ensures var known := p in m && m[p].state == OBJMODIFIED;
            var k := Key(x.heap[p].def, if known then m[p].id else Id(x.random(p)));
            && k in store && store[k] == x.NewRow(p)
            && (x.schema[x.heap[p].def].hasRevision ==>
                  |store[k]| > 1 && store[k][1] == Integer(if known then m[p].revision + 1 else 1))
  {
    hide Plan.Ok, Plan.WrittenBack, Plan.Over, Plan.NewRow, Reachable, Plan.FinalKey;
    assert p in x.m;
    CompleteCommit(x, store0, store, limit, p);
  }

  /** So is a modified object that a root lists, and one that it refers to. */
  lemma ListedIsWritten(x: Plan, m: Records, roots: set<Ptr>, store0: Store, store: Store, limit: nat,
                        p: Ptr, f: Field, q: Ptr)
    requires x.Ok() && x.WrittenBack(store0, store, limit) && x.Over(limit)
    requires x.m == Known(x.schema, x.heap, m, roots) && p in roots && p in x.heap && q in x.heap && q != 0
    requires x.heap[p].def in x.schema && f in x.schema[x.heap[p].def].fields
    requires
      || (f.kind == REFERENCE && f.offset in x.heap[p].refs && x.heap[p].refs[f.offset] == q)
      || (f.kind == MASTERREFERENCES && f.offset in x.heap[p].lists && q in x.heap[p].lists[f.offset])
    requires x.heap[q].def in x.schema && !x.schema[x.heap[q].def].singleton && q in m && m[q].state == OBJMODIFIED
    ensures var k := Key(x.heap[q].def, m[q].id);
            && k in store && store[k] == x.NewRow(q)
            && (x.schema[x.heap[q].def].hasRevision ==>
                  |store[k]| > 1 && store[k][1] == Integer(m[q].revision + 1))
  {
    hide Plan.Ok, Plan.WrittenBack, Plan.Over, Plan.NewRow, Reachable, Plan.FinalKey, Known;
    RootReachable(x.schema, x.heap, roots, p);
    ReachableFollows(x.schema, x.heap, roots, p, f, q);
    ReachedIsWritten(x, m, roots, store0, store, limit, q);
  }

  /** A reference is written with the id its target ends up with, except when the
      target had its turn before and was removed or was not known then, or comes
      later and is new: then its id is not drawn yet. */
  lemma ReferenceWritten(x: Plan, p: Ptr, q: Ptr)
    requires x.Ok() && x.RefersTo(p, q)
    ensures TargetValue(x.KeysAt(p), q) == IdValue(x.FinalId(q)) <==>
            if q <= p then (x.Comes(q) && !x.Removes(q)) || x.FinalId(q) == Id(0)
            else x.FateOf(q) != OBJNEW || x.RecordOf(q).id == x.FinalId(q)
  {
    hide Plan.Ok, Plan.FateOf, Plan.RefersTo, Plan.Comes, Plan.Removes;
    RefersInHeap(x, p, q);
  }

  /** Fetching what a commit wrote finds the object again: its key, its scalars, and
      for a reference the key of the object it led to. */
  lemma CommittedIsRead(x: Plan, store0: Store, store: Store, limit: nat, p: Ptr, r: Row, i: nat)
    requires x.Ok() && x.WrittenBack(store0, store, limit) && p < limit && x.Writes(p) && p in x.heap
    requires RowOk(x.schema, r) && r.def == x.heap[p].def && i < |x.schema[r.def].fields|
    requires WithoutBacks(x.schema, r, |x.schema[r.def].fields|) == store[x.FinalKey(p)]
    ensures RowKey(x.schema, r) == x.FinalKey(p)
    ensures var f := x.schema[r.def].fields[i];
            && (i > 1 && Scalar(f.kind) ==> ColumnAt(x.schema, r, i) == PlainAt(x.heap[p], f))
            && (i > 0 && f.kind == REFERENCE ==>
                  var q := BlockRef(x.heap[p], f.offset);
                  && TargetKnown(x.schema, f)
                  && FieldLink(x.schema, f, x.FinalKey(p), ColumnAt(x.schema, r, i)) ==
                     if q == 0 then []
                     else [Link(false, x.FinalKey(p), f.offset, TargetKey(f, x.KeysAt(p), q))])
  {
    hide Bound, WithoutBacks, Plan.KeysAt, HeapOk, RecordsOk, RowTyped, ColumnAt, PlainAt, FieldLink, Plan.RefersTo;
    var d := x.schema[r.def];
    var image := Image(x.heap[p], x.FinalId(p), x.FinalRevision(p));
    assert ReadOf(x.schema, r, image, x.KeysAt(p));
    WrittenIsRead(x.schema, r, image, x.KeysAt(p), 0);
    if i > 0 && Scalar(d.fields[i].kind) {
      WrittenIsRead(x.schema, r, image, x.KeysAt(p), i);
    } else if i > 0 && d.fields[i].kind == REFERENCE {
      WrittenReferenceIsRead(x.schema, r, image, x.KeysAt(p), i);
    }
  }

  // ----- two references that are not written as their targets' keys

  const PAIR := Definition([Field(INT, Some(1), 0), Field(REFERENCE, Some(1), 8)], false, false, true, false)

  function PairHeap(p: Ptr, q: Ptr): Heap {
    map[p := Block(1, map[], map[8 := q], map[]), q := Block(1, map[], map[], map[])]
  }

  lemma PairRefers(x: Plan, p: Ptr, q: Ptr)
    requires x.schema == map[1 := PAIR] && x.heap == PairHeap(p, q) && p != q
    ensures q != 0 ==> x.RefersTo(p, q)
    ensures forall r, t :: x.RefersTo(r, t) ==> r == p && t == q
  {
    assert x.Def(p) == PAIR && x.Def(q) == PAIR;
    assert PAIR.fields[1] in PAIR.fields;
  }

  lemma PairSchema(x: Plan, p: Ptr, q: Ptr)
    requires x.schema == map[1 := PAIR] && x.heap == PairHeap(p, q) && p != q && p != 0 && q != 0
    ensures SchemaOk(x.schema) && HeapOk(x.schema, x.heap)
  {
    hide DefinitionOk, FieldOk;
    PairDefinition();
    assert PAIR.fields == [Field(INT, Some(1), 0), Field(REFERENCE, Some(1), 8)];
    PairFields(x.heap[p], q, x.heap);
    PairFields(x.heap[q], 0, x.heap);
  }

  lemma PairDefinition()
    ensures DefinitionOk(map[1 := PAIR], 1)
  {
  }

  lemma PairFields(b: Block, q: Ptr, heap: Heap)
    requires BlockRef(b, 8) == q && (q != 0 ==> q in heap && heap[q].def == 1)
    ensures FieldOk(map[1 := PAIR], heap, b, PAIR.fields[0]) && FieldOk(map[1 := PAIR], heap, b, PAIR.fields[1])
  {
  }

  lemma PairOk(x: Plan, p: Ptr, q: Ptr)
    requires x.schema == map[1 := PAIR] && x.heap == PairHeap(p, q) && p != q && p != 0 && q != 0
    requires RecordsOk(x.heap, x.m) && forall r :: r in x.m ==> x.m[r].def.Some?
    requires x.RecordOf(p).id.Id? && x.RecordOf(q).id.Id? && x.FinalId(p).Id? && x.FinalId(q).Id?
    requires x.FinalId(p) != x.FinalId(q)
    ensures x.Ok()
  {
    hide SchemaOk, HeapOk, Plan.RefersTo, Plan.FinalId, Plan.RecordOf, Plan.Writes;
    PairSchema(x, p, q);
    PairRefers(x, p, q);
    RecordsInPair(x, p, q);
    assert forall r :: x.Comes(r) ==> r == p || r == q;
    assert x.Def(p) == PAIR && x.Def(q) == PAIR;
  }

  lemma RecordsInPair(x: Plan, p: Ptr, q: Ptr)
    requires x.heap == PairHeap(p, q) && RecordsOk(x.heap, x.m)
    ensures forall r :: r in x.m ==> r == p || r == q
  {
    assert forall r :: r in x.m ==> RecordOk(x.heap, r, x.m[r]);
  }

  lemma PairRow(b: Block, id: int, revision: int, keys: Keys)
    ensures Bound(PAIR, Image(b, Id(id), revision), keys, 2) == [Integer(id), TargetValue(keys, BlockRef(b, 8))]
  {
    var x := Image(b, Id(id), revision);
    assert Bound(PAIR, x, keys, 1) == [Integer(id)];
  }

  /** An object that refers to one with a lower address that is removed in the same
      commit is written with the id 0 in its place. */
  lemma RemovedEarlier(random: Ptr -> int)
    ensures var x := Plan(map[1 := PAIR], PairHeap(30, 20),
                          map[20 := Record(Some(1), Id(5), 1, OBJREMOVED, None),
                              30 := Record(Some(1), Id(6), 1, OBJMODIFIED, Some(30))], random);
            x.Ok() && x.RefersTo(30, 20) && x.Writes(30) && x.NewRow(30) == [Integer(6), Integer(0)]
  {
    hide Plan.Ok, Plan.RefersTo, Bound;
    var x := Plan(map[1 := PAIR], PairHeap(30, 20),
                  map[20 := Record(Some(1), Id(5), 1, OBJREMOVED, None),
                      30 := Record(Some(1), Id(6), 1, OBJMODIFIED, Some(30))], random);
    PairOk(x, 30, 20);
    PairRefers(x, 30, 20);
    PairRow(x.heap[30], 6, 2, x.KeysAt(30));
  }

  /** An object that is written although it cannot be reached brings in the objects it
      refers to: the session did not know object 30, and a row for it is added. */
  lemma MetWhileWriting(random: Ptr -> int)
    requires random(30) != 5
    ensures var x := Plan(map[1 := PAIR], PairHeap(20, 30),
                          map[20 := Record(Some(1), Id(5), 1, OBJMODIFIED, None)], random);
            && x.Ok() && x.RefersTo(20, 30) && x.NewRow(20) == [Integer(5), Integer(0)]
            && 30 !in x.m && x.Writes(30) && x.FinalKey(30) == Key(1, Id(random(30)))
  {
    hide Plan.Ok, Plan.RefersTo, Bound;
    var x := Plan(map[1 := PAIR], PairHeap(20, 30), map[20 := Record(Some(1), Id(5), 1, OBJMODIFIED, None)], random);
    PairOk(x, 20, 30);
    PairRefers(x, 20, 30);
    assert x.Writes(20);
    PairRow(x.heap[20], 5, 2, x.KeysAt(20));
  }

  // ----- telling the session that an object changed

  /** What `dbsimple_dirty` does to the records. */
  function Dirtied(m: Records, p: Ptr): Records {
    if p !in m then m[p := Record(None, Id(-1), 0, OBJNEW, None)] else m[p := m[p].(state := OBJMODIFIED)]
  }

  /** A known object that is reported, whatever state it was in, and that can be
      reached, is written under its id with the next revision. */
  lemma ReportedIsWritten(x: Plan, m: Records, roots: set<Ptr>, store0: Store, store: Store, limit: nat, p: Ptr)
    requires x.Ok() && x.WrittenBack(store0, store, limit) && x.Over(limit) && p in m
    requires x.m == Known(x.schema, x.heap, Dirtied(m, p), roots) && Reachable(x.schema, x.heap, roots, p)
    requires p in x.heap && x.heap[p].def in x.schema && !x.schema[x.heap[p].def].singleton
    ensures var k := Key(x.heap[p].def, m[p].id);
            && k in store && store[k] == x.NewRow(p)
            && (x.schema[x.heap[p].def].hasRevision ==>
                  |store[k]| > 1 && store[k][1] == Integer(m[p].revision + 1))
  {
    hide Plan.Ok, Plan.WrittenBack, Plan.Over, Plan.NewRow, Reachable, Plan.FinalKey, Known;
    ReachedIsWritten(x, Dirtied(m, p), roots, store0, store, limit, p);
  }

  function DirtiedTimes(m: Records, p: Ptr, n: nat): Records {
    if n == 0 then m else Dirtied(DirtiedTimes(m, p, n - 1), p)
  }

  lemma {:induction false} DirtiedOften(m: Records, p: Ptr, n: nat)
    requires p !in m && n > 0
    ensures p in DirtiedTimes(m, p, n)
    ensures DirtiedTimes(m, p, n)[p] == Record(None, Id(-1), 0, if n == 1 then OBJNEW else OBJMODIFIED, None)
  {
    if n > 1 {
      DirtiedOften(m, p, n - 1);
    } else {
      assert DirtiedTimes(m, p, 0) == m;
    }
  }

  /** An object unknown to the session that is reported once is written as a new one,
      under an id drawn for it; reported again, it counts as modified and is written
      under the id -1. */
  lemma ReportedOnce(x: Plan, m: Records, p: Ptr, n: nat)
    requires p !in m && n > 0 && p in x.m && !x.Def(p).singleton
    requires p in DirtiedTimes(m, p, n) && x.m[p].next.Some?
    requires var r := DirtiedTimes(m, p, n)[p]; x.m[p].state == r.state && x.m[p].id == r.id
    ensures x.Writes(p) && (x.FinalId(p) == Id(x.random(p)) <==> n == 1 || x.random(p) == -1)
  {
    DirtiedOften(m, p, n);
  }
}
