/** Writing a session's objects back, dbsimplebase.c:110-197, 312-350 and
    dbsimple_sqlite3.c:456-619. */
module Commit {
  import opened ObjectGraph
  import opened Schema
  import opened Reach
  import opened Traverse
  import opened Bind
  import opened Persist
  import opened Wrappers

  class Session {
    const schema: Schema
    /** The memory the caller and the session share. */
    const heap: Heap
    /** What `random()` gives for the object at an address. */
    const random: Ptr -> int
    /** The pointer map. */
    var records: Records
    var firstModified: Option<Ptr>
    var store: Store
    /** The list that starts at `firstModified`. */
    ghost var chain: seq<Ptr>

    constructor (schema: Schema, heap: Heap, random: Ptr -> int, records: Records, store: Store)
      ensures this.schema == schema && this.heap == heap && this.random == random
      ensures this.records == records && this.store == store && firstModified == None && chain == []
    {
      this.schema, this.heap, this.random := schema, heap, random;
      this.records, this.store := records, store;
      firstModified, chain := None, [];
    }

    ghost predicate Tidy(roots: set<Ptr>, open: set<Ptr>)
      reads this
    {
      HeapOk(schema, heap) && Valid(schema, heap, records, firstModified, chain, roots, open)
    }

    /** dbsimplebase.c:110-130 */
    method ReferenceByPtr(def: nat, p: Ptr)
      modifies this`records
      ensures records == Found(old(records), def, p)
    {
      if p !in records {
        records := records[p := FRESH.(def := Some(def))];
      }
    }

    /** A non-NULL pointer found in a field, dbsimplebase.c:167-170 and 184-187. */
    method Follow(def: nat, q: Ptr, ghost roots: set<Ptr>, ghost open: set<Ptr>)
      requires Tidy(roots, open) && q in heap && heap[q].def == def && Reachable(schema, heap, roots, q)
      modifies this`records, this`firstModified, this`chain
      ensures Tidy(roots, open) && Grown(old(records), records) && Marked(records, q)
      decreases |heap.Keys - Marks(records)|, 1
    {
      hide Valid, Reachable, Grown, Marks, Marked, HeapOk;
      ghost var m := records;
      MetKeeps(schema, heap, m, firstModified, chain, roots, open, def, q);
      ReferenceByPtr(def, q);
      if records[q].def == None {
        records := records[q := records[q].(def := Some(def))];
      }
      CommitTraverse(q, roots, open);
      MetGrown(m, def, q, records);
    }

    /** One field of an object, dbsimplebase.c:157-195. */
    method VisitField(p: Ptr, i: nat, ghost roots: set<Ptr>, ghost open: set<Ptr>)
      requires Tidy(roots, open) && Reachable(schema, heap, roots, p) && p in heap
      requires i < |Fields(schema, heap, p)|
      modifies this`records, this`firstModified, this`chain
      ensures Tidy(roots, open) && Grown(old(records), records)
      ensures forall q :: q in Targets(heap[p], Fields(schema, heap, p)[i]) ==> Marked(records, q)
      decreases |heap.Keys - Marks(records)|, 2
    {
      hide Valid, Reachable, Grown, Marks, Marked, HeapOk, Fields;
      ghost var m0 := records;
      GrownRefl(m0);
      FieldShape(schema, heap, roots, p, i);
      var field := schema[heap[p].def].fields[i];
      if field.kind == REFERENCE {
        var target := BlockRef(heap[p], field.offset);
        if target != 0 {
          Follow(field.def.value, target, roots, open);
        }
      } else if field.kind == MASTERREFERENCES {
        var list := BlockList(heap[p], field.offset);
        var j := 0;
        while j < |list|
          invariant j <= |list| && Tidy(roots, open) && Grown(m0, records)
          invariant forall l :: 0 <= l < j && list[l] != 0 ==> Marked(records, list[l])
        {
          var target := list[j];
          if target != 0 {
            ghost var m1 := records;
            NoMoreLeft(heap, m0, m1);
            Follow(field.def.value, target, roots, open);
            GrownTrans(m0, m1, records);
            MarkedStay(m1, records);
          }
          j := j + 1;
        }
      }
    }

    /** dbsimplebase.c:132-197. `open` are the objects whose calls have not returned. */
    method CommitTraverse(p: Ptr, ghost roots: set<Ptr>, ghost open: set<Ptr>)
      requires Tidy(roots, open) && p in records && records[p].def.Some? && Reachable(schema, heap, roots, p)
      modifies this`records, this`firstModified, this`chain
      ensures Tidy(roots, open) && Grown(old(records), records) && Marked(records, p)
      decreases |heap.Keys - Marks(records)|, 0
    {
      hide Valid, Reachable, Grown, Marks, FieldsDone, Targets, Edge, HeapOk;
      ghost var m0 := records;
      if records[p].next != None {
        GrownRefl(m0);
        return;
      }
      ghost var m1 := MarkedRecord(records, firstModified, p);
      MarkKeeps(schema, heap, m0, firstModified, chain, roots, open, p);
      if records[p].state == OBJCLEAN {
        records := records[p := records[p].(next := Some(p))];
      } else {
        records := records[p := records[p].(next := if firstModified != None then firstModified else Some(p))];
        firstModified := Some(p);
        chain := [p] + chain;
      }
      assert records == m1 && Marked(m1, p);
      TypeKnown(schema, heap, m1, firstModified, chain, roots, open + {p}, p);
      var fields := schema[records[p].def.value].fields;
      var i := 0;
      while i < |fields|
        invariant i <= |fields| && fields == Fields(schema, heap, p)
        invariant Tidy(roots, open + {p}) && Grown(m0, records) && Grown(m1, records)
        invariant FieldsDone(schema, heap, records, p, i)
      {
        ghost var m2 := records;
        LeftToMark(schema, heap, m0, m1, m2, firstModified, chain, roots, open + {p}, p);
        VisitField(p, i, roots, open + {p});
        FieldsStayDone(schema, heap, m2, records, p, i);
        FieldDone(schema, heap, records, p, i);
        GrownTrans(m0, m2, records);
        GrownTrans(m1, m2, records);
        i := i + 1;
      }
      ObjectCloses(schema, heap, m1, records, firstModified, chain, roots, open, p);
    }

    /** dbsimplebase.c:374-397 */
    method Dirty(p: Ptr)
      requires p != 0
      modifies this`records
      ensures records == Dirtied(old(records), p)
    {
      if p !in records {
        records := records[p := Record(None, Id(-1), 0, OBJNEW, None)];
      } else {
        records := records[p := records[p].(state := OBJMODIFIED)];
      }
    }

    /** dbsimplebase.c:361-372 */
    method MarkRemoved(p: Ptr)
      requires p != 0
      modifies this`records
      ensures records.Keys == old(records).Keys
      ensures forall q :: q in records ==>
                records[q] == if q == p then old(records)[q].(state := OBJREMOVED) else old(records)[q]
    {
      if p in records {
        records := records[p := records[p].(state := OBJREMOVED)];
      }
    }

    // ----- writing back

    /** dbsimple_sqlite3.c:456-556, with style 1 for an insert and style 0 for a delete. */
    method BindStatement(p: Ptr, insert: bool) returns (cols: seq<Value>)
      requires HeapOk(schema, heap) && p in heap && p in records && records[p].def == Some(heap[p].def)
      requires var d := schema[heap[p].def];
               !insert ==> KeyField(d) && (d.hasRevision ==> |d.fields| > 1 && Whole(d.fields[1].kind))
      modifies this`records
      ensures var d, r := schema[heap[p].def], old(records)[p];
              if insert then
                && cols == Bound(d, Image(heap[p], r.id, r.revision), IdsOf(old(records)), |d.fields|)
                && Introduced(heap, d.fields, heap[p], |d.fields|, old(records), records)
              else
                && cols == [KeyColumn(d.fields[0].kind, r.id)] + (if d.hasRevision then [Integer(r.revision)] else [])
                && records == old(records)
    {
      hide HeapOk, Introduced, Bound, IdsOf, Found;
      cols := [];
      var i := 0;
      ghost var r, m := records[p], records;
      Nothing(schema, heap, m, p, Image(heap[p], r.id, r.revision));
      var d := schema[records[p].def.value];
      ghost var x := Image(heap[p], r.id, r.revision);
      while i < |d.fields|
        invariant i <= |d.fields| && cols == Bound(d, x, IdsOf(m), i)
        invariant Introduced(heap, d.fields, heap[p], i, m, records) && p in records && records[p] == r
        invariant !insert ==> (i <= if d.hasRevision then 2 else 1) && records == m
        decreases |d.fields| - i
      {
        if !insert && i >= (if d.hasRevision then 2 else 1) {
          break;
        }
        var field := d.fields[i];
        ghost var m' := records;
        BoundNext(d, x, IdsOf(m), i);
        if field.kind != REFERENCE || BlockRef(heap[p], field.offset) == 0 {
          NotIntroduced(heap, d.fields, heap[p], i, m, m');
        }
        if Whole(field.kind) {
          if i == 0 {
            cols := cols + [Integer(if records[p].id.Id? then records[p].id.n else 0)];
          } else if i == 1 && d.hasRevision {
            cols := cols + [Integer(records[p].revision)];
          } else {
            cols := cols + [PlainAt(heap[p], field)];
          }
        } else if field.kind == STRING {
          if i == 0 {
            cols := cols + [if records[p].id.Name? then Text(records[p].id.s) else Null];
          } else {
            cols := cols + [PlainAt(heap[p], field)];
          }
        } else if field.kind == REFERENCE {
          var target := BlockRef(heap[p], field.offset);
          if target != 0 {
            ReferenceType(schema, heap, p, i);
            ReferenceByPtr(field.def.value, target);
            Introduces(schema, heap, m, m', p, i, records);
            cols := cols + [IdValue(records[target].id)];
          } else {
            cols := cols + [Null];
          }
        }
        i := i + 1;
      }
      if !insert {
        KeyAndRevisionFirst(d, x, IdsOf(m));
      }
    }

    /** Of the rows a delete statement asks for, at most one is there. */
    method Delete(def: nat, key: Value, hasRevision: bool, revision: Value) returns (affected: int)
      requires !key.Null? && revision.Integer?
      modifies this`store
      ensures var k := KeyOf(def, key);
              var found := Matches(old(store), k, hasRevision, revision.n);
              affected == (if found then 1 else 0) && store == if found then old(store) - {k} else old(store)
      ensures affected == 1 <==>
              && KeyOf(def, key) in old(store)
              && var row := old(store)[KeyOf(def, key)]; hasRevision ==> |row| > 1 && row[1] == revision
    {
      var k := KeyOf(def, key);
      affected := 0;
      if k in store && (hasRevision ==> |store[k]| > 1 && store[k][1] == revision) {
        store := store - {k};
        affected := 1;
      }
    }

    /** INSERT OR REPLACE */
    method Insert(def: nat, cols: seq<Value>)
      requires |cols| > 0 && !cols[0].Null?
      modifies this`store
      ensures store == old(store)[KeyOf(def, cols[0]) := cols]
    {
      store := store[KeyOf(def, cols[0]) := cols];
    }

    ghost predicate Writing(x: Plan, store0: Store, at: nat)
      reads this
    {
      x.schema == schema && x.heap == heap && x.random == random && Underway(x, records, store0, store, at)
    }

    /** It is the turn of `p`, which is in the state it is to be written back in. */
    ghost predicate WritingOne(x: Plan, store0: Store, index: Records, p: Ptr)
      reads this
    {
      && x.schema == schema && x.heap == heap && x.random == random
      && p in index && records == index[p := index[p].(state := x.FateOf(p))] && !x.Def(p).singleton
      && Underway(x, index, store0, store, p)
    }

    /** dbsimple_sqlite3.c:558-596 */
    method PersistObject(p: Ptr, ghost x: Plan, ghost store0: Store, ghost index: Records) returns (stop: bool)
      requires WritingOne(x, store0, index, p)
      modifies this`records, this`store
      ensures stop <==> x.Removes(p) && !x.Removable(store0, p)
      ensures stop ==> store == old(store)
      ensures !stop ==> Writing(x, store0, p + 1)
    {
      hide Underway, Plan.Ok, Plan.Comes, Plan.Removes, Plan.FateOf, Plan.FinalId, Plan.FinalKey, Plan.Removable,
        Plan.NewRow, Plan.Def, Bound, KeyColumn, KeyOf, KeyField, Whole, IdsOf, Introduced, HeapOk;
      ghost var store1 := store;
      ObjectShape(x, index, store0, store, p);
      var r := records[p];
      var d := schema[r.def.value];
      if r.state == OBJNEW {
        records := records[p := r.(revision := 1, id := Id(random(p)))];
        ghost var r' := records[p];
        assert records == index[p := r'];
        var cols := BindStatement(p, true);
        NewRowIs(x, index, store0, store1, p, r', cols);
        Insert(r.def.value, cols);
        Inserted(x, index, store0, store1, p, r', records, store1, cols, store);
        stop := false;
      } else if r.state == OBJMODIFIED {
        var cols := BindStatement(p, false);
        var affected := Delete(r.def.value, cols[0], d.hasRevision, Integer(r.revision));
        ghost var store2 := store;
        records := records[p := r.(revision := r.revision + 1)];
        ghost var r' := records[p];
        assert records == index[p := r'];
        cols := BindStatement(p, true);
        NewRowIs(x, index, store0, store1, p, r', cols);
        Insert(r.def.value, cols);
        Inserted(x, index, store0, store1, p, r', records, store2, cols, store);
        stop := false;
      } else if r.state == OBJREMOVED {
        var cols := BindStatement(p, false);
        var affected := Delete(r.def.value, cols[0], d.hasRevision, Integer(r.revision));
        records := records - {p};
        stop := affected != 1;
        assert records == index - {p};
        Deleted(x, index, store0, store1, p, affected, store);
      } else {
        stop := false;
        LeftAlone(x, index, store0, store1, p, r);
      }
    }

    /** dbsimplebase.c:312-339 */
    method CommitObject(p: Ptr, ghost x: Plan, ghost store0: Store) returns (stop: bool)
      requires Writing(x, store0, p) && p in records
      modifies this`records, this`store
      ensures stop <==> x.Removes(p) && !x.Removable(store0, p)
      ensures stop ==> store == old(store)
      ensures !stop ==> Writing(x, store0, p + 1)
    {
      hide Underway, Plan.Ok, Plan.FinalId, Plan.FinalKey, Plan.Removable, Plan.NewRow, Plan.Def, Plan.Comes,
        Plan.RecordOf;
      InMemory(x, records, store0, store, p);
      ghost var index := records;
      var d := schema[records[p].def.value];
      if d.singleton {
        LeftAlone(x, index, store0, store, p, records[p]);
        assert index[p := records[p]] == records;
        return false;
      }
      if records[p].next == None {
        if records[p].state == OBJMODIFIED {
          if !d.explicitRemove {
            records := records[p := records[p].(state := OBJREMOVED)];
          }
        } else if records[p].state == OBJCLEAN {
          if d.autoRemove {
            records := records[p := records[p].(state := OBJREMOVED)];
          }
        }
      }
      assert records == index[p := index[p].(state := x.FateOf(p))];
      stop := PersistObject(p, x, store0, index);
    }

    /** dbsimplebase.c:341-350: the objects in the order of their addresses, those that
        are met on the way included, up to the first that cannot be removed. */
    method Commit(ghost x: Plan) returns (complete: bool, ghost limit: nat)
      requires x.schema == schema && x.heap == heap && x.random == random && x.Ok()
      requires AllSettled(records) == x.m
      modifies this`records, this`store
      ensures complete <==> forall p :: x.Removes(p) ==> x.Removable(old(store), p)
      ensures x.WrittenBack(old(store), store, limit)
      ensures if complete then x.Over(limit) else x.Blocked(old(store), limit)
    {
      hide Underway, Plan.Ok, Plan.WrittenBack, Plan.Over, Plan.Removes, Plan.Removable, AllSettled, From;
      ghost var store0 := store;
      var at := 0;
      NothingWritten(x, records, store);
      var todo := From(records, at);
      while todo != {}
        invariant Writing(x, store0, at) && todo == From(records, at)
        decreases |From(heap, at)|
      {
        var p := LeastOf(todo);
        NoneBetween(records, at, p);
        OnTo(x, records, store0, store, at, p);
        UnderwayWritten(x, records, store0, store, p);
        InMemory(x, records, store0, store, p);
        var stop := CommitObject(p, x, store0);
        if stop {
          return false, p;
        }
        FewerFrom(heap, at, p);
        at := p + 1;
        todo := From(records, at);
      }
      NoneFrom(records, at);
      AllWritten(x, records, store0, store, at);
      UnderwayWritten(x, records, store0, store, at);
      complete, limit := true, at;
    }

    /** Before a commit: no marks, and a type for all that will not get one by being reached. */
    ghost predicate Ready(roots: seq<Ptr>)
      reads this
    {
      && HeapOk(schema, heap) && RecordsOk(heap, records) && firstModified == None && chain == []
      && (forall p :: p in roots ==> p in records && records[p].def.Some?)
      && (forall p :: p in records ==> records[p].next.None?)
      && (forall p :: p in records ==> records[p].def.Some? || Reachable(schema, heap, SetOf(roots), p))
    }

    /** dbsimple_sqlite3.c:606-612: marks exactly what can be reached from the
        singletons, and lists what of it is new, modified or removed. */
    method MarkAll(roots: seq<Ptr>)
      requires Ready(roots)
      modifies this`records, this`firstModified, this`chain
      ensures RecordsOk(heap, records) && ChainOk(records, firstModified, chain) && Grown(old(records), records)
      ensures forall p :: Marked(records, p) <==> Reachable(schema, heap, SetOf(roots), p)
      ensures forall p :: p in roots ==> p in records && records[p].next.Some?
      ensures forall p, f :: p in records && records[p].next.Some? && p in heap && heap[p].def in schema &&
                             f in schema[heap[p].def].fields ==>
                && (f.kind == REFERENCE && f.offset in heap[p].refs && heap[p].refs[f.offset] != 0 ==>
                      var q := heap[p].refs[f.offset]; q in records && records[q].next.Some?)
                && (f.kind == MASTERREFERENCES && f.offset in heap[p].lists ==>
                      forall j :: 0 <= j < |heap[p].lists[f.offset]| && heap[p].lists[f.offset][j] != 0 ==>
                        var q := heap[p].lists[f.offset][j]; q in records && records[q].next.Some?)
    {
      hide HeapOk, Valid, Grown, Marked, Reachable, RecordsOk, ChainOk;
      ghost var m0 := records;
      NoMarksYet(schema, heap, records, SetOf(roots));
      GrownRefl(m0);
      var i := 0;
      while i < |roots|
        invariant i <= |roots| && Tidy(SetOf(roots), {}) && Grown(m0, records)
        invariant forall j :: 0 <= j < i ==> Marked(records, roots[j])
      {
        ghost var m := records;
        RootStays(schema, heap, m0, m, roots, i);
        CommitTraverse(roots[i], SetOf(roots), {});
        GrownTrans(m0, m, records);
        MarkedStay(m, records);
        i := i + 1;
      }
      AllMarked(schema, heap, records, firstModified, chain, roots);
      MarksFollow(schema, heap, records, roots);
    }

    /** dbsimple_sqlite3.c:598-613: the whole commit, from the memory the caller
        leaves to the rows in the store. */
    method CommitData(roots: seq<Ptr>) returns (complete: bool, ghost x: Plan, ghost limit: nat)
      requires Ready(roots)
      requires Plan(schema, heap, Known(schema, heap, records, SetOf(roots)), random).Ok()
      modifies this
      ensures x == Plan(schema, heap, Known(schema, heap, old(records), SetOf(roots)), random)
      ensures complete <==> forall p :: x.Removes(p) ==> x.Removable(old(store), p)
      ensures complete <==>
              forall p :: x.Removes(p) ==>
                && x.FinalKey(p) in old(store)
                && var row := old(store)[x.FinalKey(p)];
                   x.Def(p).hasRevision ==> |row| > 1 && row[1] == Integer(x.RecordOf(p).revision)
      ensures x.WrittenBack(old(store), store, limit)
      ensures if complete then x.Over(limit) else x.Blocked(old(store), limit)
    {
      hide HeapOk, Grown, Marked, Reachable, RecordsOk, ChainOk, AllSettled, Known, Plan.Ok, Plan.Removes,
        Plan.Removable, Plan.WrittenBack, Plan.Blocked, Plan.Over;
      ghost var m := records;
      x := Plan(schema, heap, Known(schema, heap, m, SetOf(roots)), random);
      MarkAll(roots);
      KnownAfterMarking(schema, heap, m, records, SetOf(roots));
      RemovablesAre(x, store);
      complete, limit := Commit(x);
    }
  }

  ghost function SetOf(roots: seq<Ptr>): set<Ptr> {
    set p | p in roots
  }

  /** An object can be removed if its row is there, in the revision that is known. */
  lemma RemovablesAre(x: Plan, store: Store)
    ensures (forall p :: x.Removes(p) ==> x.Removable(store, p)) <==>
            forall p :: x.Removes(p) ==>
              && x.FinalKey(p) in store
              && var row := store[x.FinalKey(p)];
                 x.Def(p).hasRevision ==> |row| > 1 && row[1] == Integer(x.RecordOf(p).revision)
  {
    hide Plan.Removes, Plan.FinalKey, Plan.Def, Plan.RecordOf;
  }

  lemma NoMarksYet(s: Schema, heap: Heap, m: Records, roots: set<Ptr>)
    requires RecordsOk(heap, m) && forall p :: p in m ==> m[p].next.None?
    ensures Valid(s, heap, m, None, [], roots, {})
  {
    assert forall p :: !Marked(m, p);
  }

  lemma RootStays(s: Schema, heap: Heap, m0: Records, m: Records, roots: seq<Ptr>, i: nat)
    requires i < |roots| && Grown(m0, m) && roots[i] in m0 && m0[roots[i]].def.Some?
    ensures roots[i] in m && m[roots[i]].def.Some? && Reachable(s, heap, SetOf(roots), roots[i])
  {
    RootReachable(s, heap, SetOf(roots), roots[i]);
  }

  lemma AllMarked(s: Schema, heap: Heap, m: Records, first: Option<Ptr>, chain: seq<Ptr>, roots: seq<Ptr>)
    requires Valid(s, heap, m, first, chain, SetOf(roots), {})
    requires forall j :: 0 <= j < |roots| ==> Marked(m, roots[j])
    ensures RecordsOk(heap, m) && ChainOk(m, first, chain)
    ensures forall p :: Marked(m, p) <==> Reachable(s, heap, SetOf(roots), p)
  {
    hide RecordsOk, ChainOk, Edge, Reachable;
    assert forall p :: p in Marks(m) <==> Marked(m, p);
    ClosedIsReachable(s, heap, SetOf(roots), Marks(m));
  }

  lemma MarksFollow(s: Schema, heap: Heap, m: Records, roots: seq<Ptr>)
    requires forall p :: Marked(m, p) <==> Reachable(s, heap, SetOf(roots), p)
    ensures forall p :: p in roots ==> p in m && m[p].next.Some?
    ensures forall p, f :: p in m && m[p].next.Some? && p in heap && heap[p].def in s &&
                           f in s[heap[p].def].fields ==>
              && (f.kind == REFERENCE && f.offset in heap[p].refs && heap[p].refs[f.offset] != 0 ==>
                    var q := heap[p].refs[f.offset]; q in m && m[q].next.Some?)
              && (f.kind == MASTERREFERENCES && f.offset in heap[p].lists ==>
                    forall j :: 0 <= j < |heap[p].lists[f.offset]| && heap[p].lists[f.offset][j] != 0 ==>
                      var q := heap[p].lists[f.offset][j]; q in m && m[q].next.Some?)
  {
    hide Reachable;
    RootsReachable(s, heap, SetOf(roots));
    assert forall p :: p in roots ==> Marked(m, p);
    forall p, f, q | p in m && m[p].next.Some? && p in heap && heap[p].def in s && f in s[heap[p].def].fields &&
                     q != 0 && ((f.kind == REFERENCE && f.offset in heap[p].refs && heap[p].refs[f.offset] == q) ||
                     (f.kind == MASTERREFERENCES && f.offset in heap[p].lists && q in heap[p].lists[f.offset]))
      ensures q in m && m[q].next.Some?
    {
      assert Marked(m, p);
      ReachableFollows(s, heap, SetOf(roots), p, f, q);
      assert Marked(m, q);
    }
  }

  method LeastOf(todo: set<Ptr>) returns (p: Ptr)
    requires todo != {}
    ensures p in todo && forall q :: q in todo ==> p <= q
  {
    ghost var z := Least(todo);
    p :| p in todo && forall q :: q in todo ==> p <= q;
  }

  function From<T>(m: map<Ptr, T>, at: nat): set<Ptr> {
    set q | q in m && q >= at
  }

  lemma FewerFrom<T>(m: map<Ptr, T>, at: nat, p: Ptr)
    requires p in m && at <= p
    ensures |From(m, p + 1)| < |From(m, at)|
  {
    Smaller(From(m, p + 1), From(m, at), p);
  }

  lemma NoneBetween<T>(m: map<Ptr, T>, at: nat, p: Ptr)
    requires p in From(m, at) && forall q :: q in From(m, at) ==> p <= q
    ensures at <= p && p in m && forall q: Ptr :: at <= q < p ==> q !in m
  {
    assert forall q: Ptr :: at <= q && q in m ==> q in From(m, at);
  }

  lemma NoneFrom<T>(m: map<Ptr, T>, at: nat)
    requires From(m, at) == {}
    ensures forall q: Ptr :: at <= q ==> q !in m
  {
    assert forall q: Ptr :: at <= q && q in m ==> q in From(m, at);
  }

  // ----- binding

  lemma BoundNext(d: Definition, x: Image, keys: Keys, i: nat)
    requires i < |d.fields|
    ensures Bound(d, x, keys, i + 1) ==
            Bound(d, x, keys, i) + if Bindable(d.fields[i]) then [FieldValue(d, x, keys, i)] else []
  {
  }

  lemma Nothing(s: Schema, heap: Heap, m: Records, p: Ptr, x: Image)
    requires HeapOk(s, heap) && p in heap
    ensures heap[p].def in s && Introduced(heap, s[heap[p].def].fields, heap[p], 0, m, m)
    ensures Bound(s[heap[p].def], x, IdsOf(m), 0) == []
  {
  }

  lemma ReferenceType(s: Schema, heap: Heap, p: Ptr, i: nat)
    requires HeapOk(s, heap) && p in heap && heap[p].def in s && i < |s[heap[p].def].fields|
    requires s[heap[p].def].fields[i].kind == REFERENCE
    ensures var f := s[heap[p].def].fields[i];
            var q := BlockRef(heap[p], f.offset);
            f.def.Some? && (q != 0 ==> q in heap && heap[q].def == f.def.value)
  {
    var f := s[heap[p].def].fields[i];
    assert FieldOk(s, heap, heap[p], f);
    assert BlockRef(heap[p], f.offset) != 0 ==> BlockRef(heap[p], f.offset) in Targets(heap[p], f);
  }

  /** A reference brings in its target, whose id was 0 if it was not known. */
  lemma Introduces(s: Schema, heap: Heap, m: Records, m1: Records, p: Ptr, i: nat, m2: Records)
    requires p in heap && heap[p].def in s && i < |s[heap[p].def].fields|
    requires var f := s[heap[p].def].fields[i];
             var q := BlockRef(heap[p], f.offset);
             && f.kind == REFERENCE && q != 0 && q in heap && f.def == Some(heap[q].def)
             && Introduced(heap, s[heap[p].def].fields, heap[p], i, m, m1) && m2 == Found(m1, heap[q].def, q)
    ensures Introduced(heap, s[heap[p].def].fields, heap[p], i + 1, m, m2)
    ensures var q := BlockRef(heap[p], s[heap[p].def].fields[i].offset);
            q in m2 && IdValue(m2[q].id) == TargetValue(IdsOf(m), q)
    ensures p in m1 ==> p in m2 && m2[p] == m1[p]
  {
    var q := BlockRef(heap[p], s[heap[p].def].fields[i].offset);
    OneIntroduced(heap, s[heap[p].def].fields, heap[p], i, m, m1, q);
  }

  // ----- the turn of one object

  /** The object whose turn it is. */
  lemma InMemory(x: Plan, records: Records, store0: Store, store: Store, p: Ptr)
    requires Underway(x, records, store0, store, p) && p in records
    ensures p in x.heap && x.heap[p].def in x.schema && x.schema[x.heap[p].def] == x.Def(p)
    ensures records[p].def == Some(x.heap[p].def) && x.Comes(p)
    ensures Settled(records[p], p) == x.RecordOf(p) && x.FateOf(p) == Fate(x.Def(p), records[p])
    ensures x.Def(p).singleton ==> !x.Touches(p)
  {
    hide Plan.WrittenBack, Plan.Removable, SchemaOk, Plan.LateId, Plan.RefersTo, Plan.KeyFits, Plan.Comes;
    InIndex(x, records, p, p);
    assert p in x.m ==> RecordOk(x.heap, p, x.m[p]);
    NotSingleton(x, p);
  }

  /** The object about to be written has its id and revision still. */
  lemma ObjectShape(x: Plan, index: Records, store0: Store, store: Store, p: Ptr)
    requires Underway(x, index, store0, store, p) && p in index && !x.Def(p).singleton
    ensures HeapOk(x.schema, x.heap) && p in x.heap && x.heap[p].def in x.schema
    ensures x.schema[x.heap[p].def] == x.Def(p) && index[p].def == Some(x.heap[p].def) && x.Comes(p)
    ensures var d, r := x.Def(p), index[p];
            && KeyField(d) && (d.hasRevision ==> |d.fields| > 1 && Whole(d.fields[1].kind))
            && !KeyColumn(d.fields[0].kind, r.id).Null? && (x.Removes(p) <==> x.FateOf(p) == OBJREMOVED)
            && (x.FateOf(p) == OBJNEW ==> x.FinalId(p) == Id(x.random(p)) && x.FinalRevision(p) == 1)
            && (x.FateOf(p) != OBJNEW ==>
                  && x.FinalId(p) == r.id && x.FinalRevision(p) == r.revision + 1 && x.RecordOf(p).revision == r.revision
                  && KeyOf(x.heap[p].def, KeyColumn(d.fields[0].kind, r.id)) == x.FinalKey(p))
  {
    hide Plan.WrittenBack, Plan.Removable, Plan.KeysAt, KeyColumn, Plan.Comes, Plan.RefersTo, Plan.LateId;
    InMemory(x, index, store0, store, p);
    var d := x.schema[x.heap[p].def];
    assert DefinitionOk(x.schema, x.heap[p].def);
    KeyIs(d, x.heap[p].def, index[p].id);
  }

  /** The bound columns are the new row. */
  lemma NewRowIs(x: Plan, index: Records, store0: Store, store: Store, p: Ptr, r: Record, cols: seq<Value>)
    requires Underway(x, index, store0, store, p) && p in index
    requires x.Writes(p) && r.id == x.FinalId(p) && r.revision == x.FinalRevision(p)
    requires p in x.heap && x.heap[p].def in x.schema
    requires var d := x.schema[x.heap[p].def];
             cols == Bound(d, Image(x.heap[p], r.id, r.revision), IdsOf(index[p := r]), |d.fields|)
    ensures cols == x.NewRow(p) && |cols| > 0 && !cols[0].Null? && KeyOf(x.heap[p].def, cols[0]) == x.FinalKey(p)
  {
    hide Plan.Ok, Plan.WrittenBack, Plan.Removable, Plan.KeysAt, KeyColumn, Bound, IdsOf, Plan.Comes, Plan.FinalKey,
      Plan.FinalId, Plan.FinalRevision, TargetValue, IndexOk;
    LateIs(x, p);
    IdsAre(x, index, store0, store, p, r);
    InsertIs(x, p);
    SameKeys(x.Def(p), Image(x.heap[p], r.id, r.revision), IdsOf(index[p := r]), x.KeysAt(p), |x.Def(p).fields|);
  }

  lemma LateIs(x: Plan, p: Ptr)
    requires x.Comes(p)
    ensures x.LateId(p) == if x.Removes(p) then Id(0) else x.FinalId(p)
    ensures x.Writes(p) ==> !x.Removes(p) && x.Touches(p)
  {
  }

  lemma Inserted(x: Plan, index: Records, store0: Store, store1: Store, p: Ptr, r: Record, records: Records,
                 store2: Store, cols: seq<Value>, store: Store)
    requires Underway(x, index, store0, store1, p) && p in index && x.Writes(p) && r.id == x.FinalId(p)
    requires p in x.heap && x.heap[p].def in x.schema
    requires var fields := x.schema[x.heap[p].def].fields;
             Introduced(x.heap, fields, x.heap[p], |fields|, index[p := r], records)
    requires store2 == store1 || store2 == store1 - {x.FinalKey(p)}
    requires cols == x.NewRow(p) && store == store2[x.FinalKey(p) := cols]
    ensures Underway(x, records, store0, store, p + 1)
  {
    hide Plan.Ok, Plan.WrittenBack, Plan.Removable, Plan.NewRow, Plan.FinalKey, Plan.FinalId, Underway, Introduced,
      Plan.Comes, Plan.Removes, Turned;
    LateIs(x, p);
    WrittenTurned(x, index, store0, store1, p, r, records);
    OneMore(x, index, store0, store1, p, records, store);
  }

  lemma WrittenTurned(x: Plan, index: Records, store0: Store, store1: Store, p: Ptr, r: Record, records: Records)
    requires Underway(x, index, store0, store1, p) && p in index && x.Writes(p) && r.id == x.FinalId(p)
    requires p in x.heap && x.heap[p].def in x.schema
    requires var fields := x.schema[x.heap[p].def].fields;
             Introduced(x.heap, fields, x.heap[p], |fields|, index[p := r], records)
    ensures Turned(x, index, p, records)
  {
    hide Plan.Ok, Plan.WrittenBack, Plan.Removable, Plan.FinalId, Plan.Comes, Plan.Removes, Plan.LateId, Plan.FateOf,
      RefersBefore, Plan.RefersTo, Due, Plan.RecordOf;
    LateIs(x, p);
    RefersSame(x, p);
  }

  lemma RefersSame(x: Plan, p: Ptr)
    requires p in x.heap && x.heap[p].def in x.schema
    ensures forall q :: x.RefersTo(p, q) <==>
                        RefersBefore(x.schema[x.heap[p].def].fields, x.heap[p], |x.schema[x.heap[p].def].fields|, q)
  {
    var fields := x.schema[x.heap[p].def].fields;
    forall q | RefersBefore(fields, x.heap[p], |fields|, q) ensures x.RefersTo(p, q) {
      var j :| 0 <= j < |fields| && fields[j].kind == REFERENCE && BlockRef(x.heap[p], fields[j].offset) == q;
      assert fields[j] in fields;
    }
  }

  lemma Deleted(x: Plan, index: Records, store0: Store, store1: Store, p: Ptr, affected: int, store: Store)
    requires Underway(x, index, store0, store1, p) && p in index && x.Removes(p)
    requires var found := Matches(store1, x.FinalKey(p), x.Def(p).hasRevision, x.RecordOf(p).revision);
             affected == (if found then 1 else 0) && store == if found then store1 - {x.FinalKey(p)} else store1
    ensures affected == 1 <==> x.Removable(store0, p)
    ensures affected != 1 ==> store == store1
    ensures affected == 1 ==> Underway(x, index - {p}, store0, store, p + 1)
  {
    hide Plan.Ok, Plan.WrittenBack, Plan.NewRow, Plan.FinalKey, Plan.FinalId, Underway, Plan.Comes, Plan.RecordOf,
      Turned;
    RemovedTouched(x, p);
    StillThere(x, index, store0, store1, p);
    if affected == 1 {
      RemovedTurned(x, index, store0, store1, p);
      OneMore(x, index, store0, store1, p, index - {p}, store);
    }
  }

  lemma RemovedTouched(x: Plan, p: Ptr)
    requires x.Removes(p)
    ensures x.Touches(p) && !x.Writes(p) && x.LateId(p) == Id(0)
  {
  }

  lemma RemovedTurned(x: Plan, index: Records, store0: Store, store1: Store, p: Ptr)
    requires Underway(x, index, store0, store1, p) && x.Removes(p)
    ensures Turned(x, index, p, index - {p})
  {
    hide Plan.Ok, Plan.WrittenBack, Plan.FinalId, Plan.Removes, Plan.LateId, Plan.Writes;
    RemovedTouched(x, p);
  }

  lemma LeftAlone(x: Plan, index: Records, store0: Store, store: Store, p: Ptr, r: Record)
    requires Underway(x, index, store0, store, p) && p in index && r.id == index[p].id
    requires x.Def(p).singleton || (x.FateOf(p) != OBJNEW && x.FateOf(p) != OBJMODIFIED && x.FateOf(p) != OBJREMOVED)
    ensures Underway(x, index[p := r], store0, store, p + 1) && !x.Removes(p)
  {
    hide Plan.Ok, Plan.WrittenBack, Plan.NewRow, Plan.FinalKey, Underway, Plan.Comes, IndexOk;
    InMemory(x, index, store0, store, p);
    LateIs(x, p);
    assert Turned(x, index, p, index[p := r]) by {
      HeapIndex(x, index, store0, store, p);
    }
    OneMore(x, index, store0, store, p, index[p := r], store);
  }

  lemma HeapIndex(x: Plan, index: Records, store0: Store, store: Store, p: Ptr)
    requires Underway(x, index, store0, store, p)
    ensures forall q :: q in index ==> q in x.heap
  {
  }

  lemma MarkedStay(m: Records, m': Records)
    requires Grown(m, m')
    ensures forall q :: Marked(m, q) ==> Marked(m', q)
  {
  }

  lemma NoMoreLeft(heap: Heap, m: Records, m': Records)
    requires Grown(m, m')
    ensures |heap.Keys - Marks(m')| <= |heap.Keys - Marks(m)|
  {
    MarksGrow(m, m');
    NotLarger(heap.Keys - Marks(m'), heap.Keys - Marks(m));
  }

  lemma FieldShape(s: Schema, heap: Heap, roots: set<Ptr>, p: Ptr, i: nat)
    requires HeapOk(s, heap) && p in heap && i < |Fields(s, heap, p)| && Reachable(s, heap, roots, p)
    ensures heap[p].def in s && Fields(s, heap, p) == s[heap[p].def].fields
    ensures var f := Fields(s, heap, p)[i];
            && (f.kind == REFERENCE || f.kind == MASTERREFERENCES ==> f.def.Some?)
            && forall q :: q in Targets(heap[p], f) ==>
                 f.def.Some? && q in heap && heap[q].def == f.def.value && Reachable(s, heap, roots, q)
  {
    var f := Fields(s, heap, p)[i];
    assert FieldOk(s, heap, heap[p], f);
    forall q | q in Targets(heap[p], f) ensures Reachable(s, heap, roots, q) {
      assert Edge(s, heap, p, q);
      StepReachable(s, heap, roots, p, q);
    }
  }

  /** The type of a marked object is that of its block. */
  lemma TypeKnown(s: Schema, heap: Heap, m: Records, first: Option<Ptr>, chain: seq<Ptr>,
                  roots: set<Ptr>, open: set<Ptr>, p: Ptr)
    requires HeapOk(s, heap) && Valid(s, heap, m, first, chain, roots, open) && p in m && m[p].def.Some?
    ensures p in heap && m[p].def.value in s && s[m[p].def.value].fields == Fields(s, heap, p)
    ensures FieldsDone(s, heap, m, p, 0) && Grown(m, m)
  {
    hide ChainOk, ClosedBut, MarksReachable;
    assert RecordOk(heap, p, m[p]);
  }

  lemma ObjectCloses(s: Schema, heap: Heap, m1: Records, m: Records, first: Option<Ptr>, chain: seq<Ptr>,
                     roots: set<Ptr>, open: set<Ptr>, p: Ptr)
    requires Valid(s, heap, m, first, chain, roots, open + {p}) && Grown(m1, m) && Marked(m1, p)
    requires FieldsDone(s, heap, m, p, |Fields(s, heap, p)|)
    ensures Valid(s, heap, m, first, chain, roots, open) && Marked(m, p)
  {
    hide RecordsOk, ChainOk, MarksReachable, ClosedBut;
    assert ClosedBut(s, heap, m, open) by {
      Closes(s, heap, m, p, open);
    }
  }

  lemma LeftToMark(s: Schema, heap: Heap, m0: Records, m1: Records, m2: Records, first: Option<Ptr>,
                   chain: seq<Ptr>, roots: set<Ptr>, open: set<Ptr>, p: Ptr)
    requires Valid(s, heap, m2, first, chain, roots, open) && Marks(m1) == Marks(m0) + {p} && !Marked(m0, p)
    requires Grown(m1, m2)
    ensures |heap.Keys - Marks(m2)| < |heap.Keys - Marks(m0)|
  {
    hide ChainOk, ClosedBut, MarksReachable;
    MarksGrow(m1, m2);
    FewerLeft(heap, m0, m2, p);
  }
}
