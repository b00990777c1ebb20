/** The marks and the chain that `dbsimple__committraverse` leaves behind,
    dbsimplebase.c:110-197: what it maintains. */
module Traverse {
  import opened ObjectGraph
  import opened Schema
  import opened Reach
  import opened Wrappers

  /** `struct object`, for an object that has data: it is found by the address of
      its data, so `next` is an address as well. */
  datatype Record = Record(def: Option<nat>, id: KeyId, revision: int, state: ObjectState, next: Option<Ptr>)

  type Records = map<Ptr, Record>

  function NextOf(m: Records, p: Ptr): Option<Ptr> {
    if p in m then m[p].next else None
  }

  predicate Marked(m: Records, p: Ptr) {
    NextOf(m, p).Some?
  }

  ghost function Marks(m: Records): set<Ptr> {
    set p | p in m && Marked(m, p)
  }

  predicate Dirty(st: ObjectState) {
    st == OBJNEW || st == OBJMODIFIED || st == OBJREMOVED
  }

  /** An object's state, and a type that is either unknown or the block's. */
  ghost predicate RecordOk(heap: Heap, p: Ptr, r: Record) {
    && p in heap && (Dirty(r.state) || r.state == OBJCLEAN)
    && (r.def.Some? ==> r.def.value == heap[p].def) && (r.next.Some? ==> r.def.Some?)
  }

  ghost predicate RecordsOk(heap: Heap, m: Records) {
    forall p :: p in m ==> RecordOk(heap, p, m[p])
  }

  function ChainNext(chain: seq<Ptr>, i: nat): Option<Ptr>
    requires i < |chain|
  {
    Some(if i + 1 < |chain| then chain[i + 1] else chain[i])
  }

  /** The list from `first`, which the last member ends by pointing to itself,
      holds every marked dirty object once; marked clean objects point to
      themselves. */
  ghost predicate ChainOk(m: Records, first: Option<Ptr>, chain: seq<Ptr>) {
    && first == (if chain == [] then None else Some(chain[0]))
    && (forall i, j :: 0 <= i < j < |chain| ==> chain[i] != chain[j])
    && (forall p :: p in chain <==> Marked(m, p) && m[p].state != OBJCLEAN)
    && (forall i :: 0 <= i < |chain| ==>
          NextOf(m, chain[i]) == ChainNext(chain, i))
    && (forall p :: Marked(m, p) && m[p].state == OBJCLEAN ==> NextOf(m, p) == Some(p))
  }

  /** Marked objects have marked targets, unless they are still being visited. */
  ghost predicate ClosedBut(s: Schema, heap: Heap, m: Records, open: set<Ptr>) {
    forall p, q :: Marked(m, p) && p !in open && Edge(s, heap, p, q) ==> Marked(m, q)
  }

  ghost predicate MarksReachable(s: Schema, heap: Heap, m: Records, roots: set<Ptr>) {
    forall p :: Marked(m, p) ==> Reachable(s, heap, roots, p)
  }

  ghost predicate Valid(s: Schema, heap: Heap, m: Records, first: Option<Ptr>, chain: seq<Ptr>,
                        roots: set<Ptr>, open: set<Ptr>) {
    && RecordsOk(heap, m) && ChainOk(m, first, chain)
    && ClosedBut(s, heap, m, open) && MarksReachable(s, heap, m, roots)
  }

  /** An object that was met for the first time. */
  const FRESH := Record(None, Id(0), 0, OBJNEW, None)

  /** Marks and types are added, and new objects, which are all marked. */
  ghost predicate Grown(m: Records, m': Records) {
    && m.Keys <= m'.Keys
    && (forall p :: p in m ==>
          m'[p] == m[p].(def := m'[p].def, next := m'[p].next) && (m[p].def.Some? ==> m'[p].def == m[p].def))
    && (forall p :: Marked(m, p) ==> Marked(m', p))
    && (forall p :: p in m' && p !in m ==>
          Marked(m', p) && m'[p] == FRESH.(def := m'[p].def, next := m'[p].next))
  }

  lemma GrownRefl(m: Records)
    ensures Grown(m, m)
  {
  }

  lemma GrownTrans(m0: Records, m1: Records, m2: Records)
    requires Grown(m0, m1) && Grown(m1, m2)
    ensures Grown(m0, m2)
  {
  }

  // ----- marking an object

  function MarkedRecord(m: Records, first: Option<Ptr>, p: Ptr): Records
    requires p in m
  {
    m[p := m[p].(next := if m[p].state == OBJCLEAN || first == None then Some(p) else first)]
  }

  lemma MarkChain(m: Records, first: Option<Ptr>, chain: seq<Ptr>, p: Ptr)
    requires ChainOk(m, first, chain) && p in m && !Marked(m, p)
    ensures var m' := MarkedRecord(m, first, p);
            if m[p].state == OBJCLEAN then ChainOk(m', first, chain) else ChainOk(m', Some(p), [p] + chain)
  {
    var m' := MarkedRecord(m, first, p);
    assert p !in chain;
    assert forall q :: NextOf(m', q) == if q == p then m'[p].next else NextOf(m, q);
    if m[p].state != OBJCLEAN {
      MarkFront(m, first, chain, p);
    }
  }

  lemma MarkedNext(m: Records, first: Option<Ptr>, p: Ptr)
    requires p in m
    ensures var m' := MarkedRecord(m, first, p);
            && (forall q :: NextOf(m', q) == if q == p then m'[p].next else NextOf(m, q))
            && m'[p].next == (if m[p].state == OBJCLEAN || first == None then Some(p) else first)
            && m'.Keys == m.Keys && forall q :: q in m ==> m'[q].state == m[q].state
  {
  }

  lemma MarkFront(m: Records, first: Option<Ptr>, chain: seq<Ptr>, p: Ptr)
    requires ChainOk(m, first, chain) && p in m && !Marked(m, p) && m[p].state != OBJCLEAN && p !in chain
    ensures ChainOk(MarkedRecord(m, first, p), Some(p), [p] + chain)
  {
    hide NextOf, MarkedRecord, ChainNext;
    MarkedNext(m, first, p);
    var m', c := MarkedRecord(m, first, p), [p] + chain;
    assert forall q :: q in c <==> q == p || q in chain;
    forall i | 0 <= i < |c| ensures NextOf(m', c[i]) == ChainNext(c, i) {
      ChainFront(p, chain, i);
      if i > 0 {
        assert NextOf(m, chain[i - 1]) == ChainNext(chain, i - 1);
      }
    }
    assert forall q :: Marked(m', q) ==> q in m by { MarkedKnown(m'); }
  }

  lemma ChainFront(p: Ptr, chain: seq<Ptr>, i: nat)
    requires i <= |chain|
    ensures i == 0 ==> ChainNext([p] + chain, i) == Some(if chain == [] then p else chain[0])
    ensures i > 0 ==> ([p] + chain)[i] == chain[i - 1] && ChainNext([p] + chain, i) == ChainNext(chain, i - 1)
  {
  }

  lemma MarkedKnown(m: Records)
    ensures forall q :: Marked(m, q) ==> q in m
  {
  }

  lemma MarkSeen(m: Records, first: Option<Ptr>, p: Ptr)
    requires p in m && !Marked(m, p)
    ensures var m' := MarkedRecord(m, first, p);
            && Grown(m, m') && Marks(m') == Marks(m) + {p}
            && forall q :: Marked(m', q) <==> Marked(m, q) || q == p
  {
    var m' := MarkedRecord(m, first, p);
    assert forall q :: NextOf(m', q) == if q == p then m'[p].next else NextOf(m, q);
  }

  lemma MarkRecords(heap: Heap, m: Records, first: Option<Ptr>, p: Ptr)
    requires RecordsOk(heap, m) && p in m && m[p].def.Some?
    ensures RecordsOk(heap, MarkedRecord(m, first, p))
  {
  }

  lemma MarkKeeps(s: Schema, heap: Heap, m: Records, first: Option<Ptr>, chain: seq<Ptr>,
                  roots: set<Ptr>, open: set<Ptr>, p: Ptr)
    requires Valid(s, heap, m, first, chain, roots, open) && p in m && !Marked(m, p) && m[p].def.Some?
    requires Reachable(s, heap, roots, p)
    ensures var m' := MarkedRecord(m, first, p);
            && (if m[p].state == OBJCLEAN then Valid(s, heap, m', first, chain, roots, open + {p})
                else Valid(s, heap, m', Some(p), [p] + chain, roots, open + {p}))
            && Grown(m, m') && Marks(m') == Marks(m) + {p}
  {
    hide ChainOk, Edge, Reachable, RecordsOk, MarkedRecord, Grown, Marks, Marked, NextOf;
    MarkSeen(m, first, p);
    MarkChain(m, first, chain, p);
    MarkRecords(heap, m, first, p);
  }

  // ----- meeting an object, dbsimplebase.c:110-130, 168-169

  function Found(m: Records, def: nat, p: Ptr): Records {
    if p !in m then m[p := FRESH.(def := Some(def))] else m
  }

  function Met(m: Records, def: nat, p: Ptr): Records {
    var m' := Found(m, def, p);
    if m'[p].def.None? then m'[p := m'[p].(def := Some(def))] else m'
  }

  lemma MetSeen(m: Records, def: nat, p: Ptr)
    ensures var m' := Met(m, def, p);
            && (forall q :: NextOf(m', q) == NextOf(m, q)) && p in m' && m'[p].def.Some?
            && (forall q :: Marked(m, q) ==> q in m && q in m' && m'[q].state == m[q].state)
  {
  }

  lemma MetRecords(heap: Heap, m: Records, p: Ptr)
    requires RecordsOk(heap, m) && p in heap
    ensures RecordsOk(heap, Met(m, heap[p].def, p))
  {
  }

  lemma SameMarks(m: Records, m': Records)
    requires forall q :: NextOf(m', q) == NextOf(m, q)
    ensures Marks(m') == Marks(m) && forall q :: Marked(m', q) <==> Marked(m, q)
  {
    assert forall q :: Marked(m', q) <==> Marked(m, q);
    assert forall q :: Marked(m, q) ==> q in m && q in m';
  }

  lemma SameChain(m: Records, m': Records, first: Option<Ptr>, chain: seq<Ptr>)
    requires ChainOk(m, first, chain) && forall q :: NextOf(m', q) == NextOf(m, q)
    requires forall q :: Marked(m, q) ==> q in m && q in m' && m'[q].state == m[q].state
    ensures ChainOk(m', first, chain)
  {
    assert forall q :: Marked(m', q) <==> Marked(m, q);
  }

  lemma MetKeeps(s: Schema, heap: Heap, m: Records, first: Option<Ptr>, chain: seq<Ptr>,
                 roots: set<Ptr>, open: set<Ptr>, def: nat, p: Ptr)
    requires Valid(s, heap, m, first, chain, roots, open) && p in heap && heap[p].def == def
    ensures Valid(s, heap, Met(m, def, p), first, chain, roots, open)
    ensures p in Met(m, def, p) && Met(m, def, p)[p].def.Some? && Marks(Met(m, def, p)) == Marks(m)
  {
    hide ChainOk, Edge, Reachable, RecordsOk, Met, Marks, Marked, NextOf;
    var m' := Met(m, def, p);
    MetSeen(m, def, p);
    MetRecords(heap, m, p);
    SameMarks(m, m');
    SameChain(m, m', first, chain);
  }

  lemma MetGrown(m: Records, def: nat, p: Ptr, m': Records)
    requires Grown(Met(m, def, p), m') && Marked(m', p)
    ensures Grown(m, m')
  {
  }

  lemma MarksGrow(m: Records, m': Records)
    requires Grown(m, m')
    ensures Marks(m) <= Marks(m')
  {
  }

  /** Fewer objects are left to be marked. */
  lemma FewerLeft(heap: Heap, m: Records, m': Records, p: Ptr)
    requires RecordsOk(heap, m') && Marks(m) <= Marks(m') && p in Marks(m') && p !in Marks(m)
    ensures |heap.Keys - Marks(m')| < |heap.Keys - Marks(m)|
  {
    assert p in heap;
    Smaller(heap.Keys - Marks(m'), heap.Keys - Marks(m), p);
  }

  lemma Smaller(a: set<Ptr>, b: set<Ptr>, p: Ptr)
    requires a <= b && p in b && p !in a
    ensures |a| < |b|
  {
    assert a <= b - {p};
    NotLarger(a, b - {p});
  }

  lemma {:induction false} NotLarger(a: set<Ptr>, b: set<Ptr>)
    requires a <= b
    ensures |a| <= |b|
  {
    if a != {} {
      var x :| x in a;
      NotLarger(a - {x}, b - {x});
    }
  }

  // ----- closing an object

  /** The targets of the first `n` fields of `p` are marked. */
  ghost predicate FieldsDone(s: Schema, heap: Heap, m: Records, p: Ptr, n: nat) {
    n <= |Fields(s, heap, p)| && p in heap &&
    forall i, q :: 0 <= i < n && q in Targets(heap[p], Fields(s, heap, p)[i]) ==> Marked(m, q)
  }

  lemma Closes(s: Schema, heap: Heap, m: Records, p: Ptr, open: set<Ptr>)
    requires ClosedBut(s, heap, m, open + {p}) && FieldsDone(s, heap, m, p, |Fields(s, heap, p)|)
    ensures ClosedBut(s, heap, m, open)
  {
    hide Targets, Fields;
  }

  lemma FieldsStayDone(s: Schema, heap: Heap, m: Records, m': Records, p: Ptr, n: nat)
    requires FieldsDone(s, heap, m, p, n) && Grown(m, m')
    ensures FieldsDone(s, heap, m', p, n)
  {
    hide Targets, Fields;
  }

  lemma FieldDone(s: Schema, heap: Heap, m: Records, p: Ptr, n: nat)
    requires FieldsDone(s, heap, m, p, n) && n < |Fields(s, heap, p)|
    requires forall q :: q in Targets(heap[p], Fields(s, heap, p)[n]) ==> Marked(m, q)
    ensures FieldsDone(s, heap, m, p, n + 1)
  {
    hide Targets, Fields;
  }
}
