/** Threads in circular doubly linked lists, janitor.c:171-186, 196-300. */
module Rings {

  class Thread {
    var next: Thread?
    var prev: Thread?
    const threadClass: nat
    const detached: bool
    var isStarted: bool

    constructor (threadClass: nat, detached: bool)
      ensures this.threadClass == threadClass && this.detached == detached && !isStarted
    {
      this.threadClass, this.detached, isStarted := threadClass, detached, false;
      next, prev := null, null;
    }
  }

  function Succ(n: nat, i: nat): nat {
    if i + 1 == n then 0 else i + 1
  }

  function Pred(n: nat, i: nat): nat {
    if i == 0 then (if n == 0 then 0 else n - 1) else i - 1
  }

  ghost predicate Distinct(ring: seq<Thread>) {
    forall i, j :: 0 <= i < j < |ring| ==> ring[i] != ring[j]
  }

  /** Following `next` goes through `ring` and round, following `prev` the other way. */
  ghost predicate Ring(ring: seq<Thread>)
    reads ring
  {
    && Distinct(ring)
    && (forall i :: 0 <= i < |ring| ==> ring[i].next == ring[Succ(|ring|, i)])
    && (forall i :: 0 <= i < |ring| ==> ring[i].prev == ring[Pred(|ring|, i)])
  }

  function Head(ring: seq<Thread>): Thread? {
    if ring == [] then null else ring[0]
  }

  /** janitor.c:269-277 and 286-294 */
  method InsertFront(info: Thread, head: Thread?, ghost ring: seq<Thread>) returns (head': Thread)
    requires Ring(ring) && head == Head(ring) && info !in ring
    modifies info`next, info`prev, (set t | t in ring)`next, (set t | t in ring)`prev
    ensures Ring([info] + ring) && head' == info
  {
    if head != null {
      info.next := head;
      info.prev := head.prev;
      head.prev.next := info;
      head.prev := info;
    } else {
      info.next := info;
      info.prev := info;
    }
    head' := info;
    ghost var ring' := [info] + ring;
    assert Distinct(ring');
    forall i | 0 <= i < |ring'| ensures ring'[i].next == ring'[Succ(|ring'|, i)] {
      if 0 < i < |ring| {
        assert ring'[i] == ring[i - 1] && ring'[i + 1] == ring[i];
      }
    }
  }

  function Without(ring: seq<Thread>, k: nat): seq<Thread>
    requires k < |ring|
  {
    ring[..k] + ring[k + 1..]
  }

  /** All but `ring[k]` are linked as if it had been stepped over. */
  ghost predicate SteppedOver(ring: seq<Thread>, k: nat)
    requires k < |ring|
    reads ring
  {
    && (forall i :: 0 <= i < |ring| && i != k ==>
          ring[i].next == ring[if i == Pred(|ring|, k) then Succ(|ring|, k) else Succ(|ring|, i)])
    && (forall i :: 0 <= i < |ring| && i != k ==>
          ring[i].prev == ring[if i == Succ(|ring|, k) then Pred(|ring|, k) else Pred(|ring|, i)])
  }

  lemma SteppedOverIsRing(ring: seq<Thread>, k: nat)
    requires Distinct(ring) && k < |ring| && SteppedOver(ring, k)
    ensures Ring(Without(ring, k))
  {
    var w := Without(ring, k);
    var n := |w|;
    assert forall j :: 0 <= j < n ==> w[j] == ring[if j < k then j else j + 1];
    forall j | 0 <= j < n ensures w[j].next == w[Succ(n, j)] && w[j].prev == w[Pred(n, j)] {
      var i := if j < k then j else j + 1;
      assert w[j] == ring[i] && i != k;
    }
  }

  lemma Around(n: nat, k: nat)
    requires k < n
    ensures Succ(n, k) < n && Pred(n, Succ(n, k)) == k
    ensures Pred(n, k) < n && Succ(n, Pred(n, k)) == k
    ensures forall i :: 0 <= i < n ==> Succ(n, i) < n && Pred(n, i) < n
  {
  }

  /** janitor.c:211-213 and 253-257; the guards of the latter hold for a member of the ring. */
  method Unlink(info: Thread, ghost others: set<Thread>)
    requires info.next != null && info.prev != null && info.next.prev == info && info.prev.next == info
    requires info.next in others && info.prev in others && info in others
    modifies others`next, others`prev
    ensures info.next == null && info.prev == null
    ensures forall t :: t in others && t != info ==> t.next == if t == old(info.prev) then old(info.next) else old(t.next)
    ensures forall t :: t in others && t != info ==> t.prev == if t == old(info.next) then old(info.prev) else old(t.prev)
  {
    if info.next != null && info.next.prev == info {
      info.next.prev := info.prev;
    }
    if info.prev != null && info.prev.next == info {
      info.prev.next := info.next;
    }
    info.next, info.prev := null, null;
  }

  /** janitor.c:204-210 and 246-252 */
  method HeadAfter(info: Thread, head: Thread?, ghost ring: seq<Thread>, ghost k: nat) returns (head': Thread?)
    requires Ring(ring) && head == Head(ring) && k < |ring| && ring[k] == info
    ensures head' == Head(Without(ring, k))
  {
    head' := head;
    if head == info {
      if info.next == info {
        head' := null;
      } else {
        head' := info.next;
      }
    }
  }

  /** janitor.c:203-213 and 245-257 */
  method Remove(info: Thread, head: Thread?, ghost ring: seq<Thread>, ghost k: nat) returns (head': Thread?)
    requires Ring(ring) && head == Head(ring) && k < |ring| && ring[k] == info
    modifies (set t | t in ring)`next, (set t | t in ring)`prev
    ensures Ring(Without(ring, k)) && head' == Head(Without(ring, k)) && info.next == null && info.prev == null
  {
    hide Without, SteppedOver, Succ, Pred, Head;
    head' := HeadAfter(info, head, ring, k);
    Around(|ring|, k);
    Unlink(info, set t | t in ring);
    Stepped(ring, k);
    SteppedOverIsRing(ring, k);
  }

  lemma Stepped(ring: seq<Thread>, k: nat)
    requires Distinct(ring) && k < |ring|
    requires forall i :: 0 <= i < |ring| && i != k ==>
               ring[i].next == if ring[i] == ring[Pred(|ring|, k)] then ring[Succ(|ring|, k)] else ring[Succ(|ring|, i)]
    requires forall i :: 0 <= i < |ring| && i != k ==>
               ring[i].prev == if ring[i] == ring[Succ(|ring|, k)] then ring[Pred(|ring|, k)] else ring[Pred(|ring|, i)]
    ensures SteppedOver(ring, k)
  {
  }
}
