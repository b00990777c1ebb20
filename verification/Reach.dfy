/** The memory a session's objects live in, and what can be reached in it
    through REFERENCE and MASTERREFERENCES fields. */
module Reach {
  import opened ObjectGraph
  import opened Schema
  import opened Wrappers

  /** The address of a data block; 0 is NULL. */
  type Ptr = nat

  /** A data block, with the definition it is laid out by. */
  datatype Block = Block(def: nat, plain: map<int, Value>, refs: map<int, Ptr>, lists: map<int, seq<Ptr>>)

  type Heap = map<Ptr, Block>

  function BlockRef(b: Block, offset: int): Ptr {
    if offset in b.refs then b.refs[offset] else 0
  }

  function BlockList(b: Block, offset: int): seq<Ptr> {
    if offset in b.lists then b.lists[offset] else []
  }

  /** The blocks a field of `b` keeps alive. */
  function Targets(b: Block, f: Field): set<Ptr> {
    if f.kind == REFERENCE then {BlockRef(b, f.offset)} - {0}
    else if f.kind == MASTERREFERENCES then (set q | q in BlockList(b, f.offset)) - {0}
    else {}
  }

  /** Pointers lead to blocks of the type their field says. */
  ghost predicate FieldOk(s: Schema, heap: Heap, b: Block, f: Field) {
    f.kind == REFERENCE || f.kind == MASTERREFERENCES ==>
      f.def.Some? && forall q :: q in Targets(b, f) ==> q in heap && heap[q].def == f.def.value
  }

  ghost predicate HeapOk(s: Schema, heap: Heap) {
    forall p :: p in heap ==>
      p != 0 && heap[p].def in s && forall f :: f in s[heap[p].def].fields ==> FieldOk(s, heap, heap[p], f)
  }

  function Fields(s: Schema, heap: Heap, p: Ptr): seq<Field> {
    if p in heap && heap[p].def in s then s[heap[p].def].fields else []
  }

  ghost predicate Edge(s: Schema, heap: Heap, p: Ptr, q: Ptr) {
    p in heap && exists f :: f in Fields(s, heap, p) && q in Targets(heap[p], f)
  }

  ghost predicate IsPath(s: Schema, heap: Heap, path: seq<Ptr>) {
    forall i :: 0 < i < |path| ==> Edge(s, heap, path[i - 1], path[i])
  }

  ghost predicate Reachable(s: Schema, heap: Heap, roots: set<Ptr>, q: Ptr) {
    exists path :: PathTo(s, heap, roots, path, q)
  }

  ghost predicate PathTo(s: Schema, heap: Heap, roots: set<Ptr>, path: seq<Ptr>, q: Ptr) {
    |path| > 0 && path[0] in roots && path[|path| - 1] == q && IsPath(s, heap, path)
  }

  lemma RootReachable(s: Schema, heap: Heap, roots: set<Ptr>, q: Ptr)
    requires q in roots
    ensures Reachable(s, heap, roots, q)
  {
    assert PathTo(s, heap, roots, [q], q);
  }

  lemma StepReachable(s: Schema, heap: Heap, roots: set<Ptr>, p: Ptr, q: Ptr)
    requires Reachable(s, heap, roots, p) && Edge(s, heap, p, q)
    ensures Reachable(s, heap, roots, q)
  {
    hide Edge;
    var path :| PathTo(s, heap, roots, path, p);
    assert PathTo(s, heap, roots, path + [q], q);
  }

  /** A closed set that holds the roots holds all that can be reached. */
  lemma {:induction false} ClosedHoldsPath(s: Schema, heap: Heap, marked: set<Ptr>, path: seq<Ptr>)
    requires |path| > 0 && path[0] in marked && IsPath(s, heap, path)
    requires forall p, q :: p in marked && Edge(s, heap, p, q) ==> q in marked
    ensures path[|path| - 1] in marked
  {
    hide Edge;
    if |path| > 1 {
      ClosedHoldsPath(s, heap, marked, path[..|path| - 1]);
      assert Edge(s, heap, path[|path| - 2], path[|path| - 1]);
    }
  }

  lemma ClosedIsReachable(s: Schema, heap: Heap, roots: set<Ptr>, marked: set<Ptr>)
    requires roots <= marked && forall p, q :: p in marked && Edge(s, heap, p, q) ==> q in marked
    requires forall p :: p in marked ==> Reachable(s, heap, roots, p)
    ensures forall p :: p in marked <==> Reachable(s, heap, roots, p)
  {
    hide Edge;
    forall q | Reachable(s, heap, roots, q) ensures q in marked {
      var path :| PathTo(s, heap, roots, path, q);
      ClosedHoldsPath(s, heap, marked, path);
    }
  }

  // ----- the same in terms of the memory itself

  /** What a reachable block refers to, or lists, can be reached. */
  lemma ReachableFollows(s: Schema, heap: Heap, roots: set<Ptr>, p: Ptr, f: Field, q: Ptr)
    requires Reachable(s, heap, roots, p) && p in heap && heap[p].def in s && f in s[heap[p].def].fields && q != 0
    requires
      || (f.kind == REFERENCE && f.offset in heap[p].refs && heap[p].refs[f.offset] == q)
      || (f.kind == MASTERREFERENCES && f.offset in heap[p].lists && q in heap[p].lists[f.offset])
    ensures Reachable(s, heap, roots, q)
  {
    assert q in Targets(heap[p], f);
    assert Edge(s, heap, p, q);
    StepReachable(s, heap, roots, p, q);
  }

  /** And nothing else can: every set that holds the roots, and with a block all that
      it refers to or lists, holds what can be reached. */
  lemma ReachableLeast(s: Schema, heap: Heap, roots: set<Ptr>, closed: set<Ptr>, q: Ptr)
    requires Reachable(s, heap, roots, q) && roots <= closed
    requires forall p, f :: p in closed && p in heap && heap[p].def in s && f in s[heap[p].def].fields ==>
               && (f.kind == REFERENCE && f.offset in heap[p].refs && heap[p].refs[f.offset] != 0 ==>
                     heap[p].refs[f.offset] in closed)
               && (f.kind == MASTERREFERENCES && f.offset in heap[p].lists ==>
                     forall t :: t in heap[p].lists[f.offset] && t != 0 ==> t in closed)
    ensures q in closed
  {
    var path :| PathTo(s, heap, roots, path, q);
    ClosedHoldsPath(s, heap, closed, path);
  }

  lemma RootsReachable(s: Schema, heap: Heap, roots: set<Ptr>)
    ensures forall q :: q in roots ==> Reachable(s, heap, roots, q)
  {
    forall q | q in roots ensures Reachable(s, heap, roots, q) {
      RootReachable(s, heap, roots, q);
    }
  }
}
