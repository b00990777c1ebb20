/** The barrier used where pthreads has none, janitor.c:745-810, as its
    lock-protected steps: a caller of `wait` arrives, and either is the last and
    goes on at once, or sleeps on the condition until the broadcast. */
module Barrier {

  /** A call of `wait`. */
  type Waiter = nat

  /** `struct janitor_pthread_barrier_struct` */
  datatype Counters = Counters(waiting: nat, count: nat)

  /** The counters, with the calls so far in the order they arrived, those asleep,
      those the broadcast has reached, and those that returned: with the serial
      value, and with 0. */
  datatype State = State(
    c: Counters, arrived: seq<Waiter>, sleeping: set<Waiter>, signalled: set<Waiter>,
    serial: seq<Waiter>, back: set<Waiter>)

  function Init(count: nat): State {
    State(Counters(0, count), [], {}, {}, [], {})
  }

  predicate Tripped(s: State) {
    s.c.count == 0
  }

  predicate Returned(s: State, w: Waiter) {
    w in s.serial || w in s.back
  }

  /** janitor.c:798-806, until the mutex is released. */
  function Arrive(s: State, w: Waiter): State {
    var waiting := s.c.waiting + 1;
    if waiting == s.c.count then
      State(Counters(waiting, 0), s.arrived + [w], {}, s.signalled + s.sleeping, s.serial + [w], s.back)
    else
      s.(c := s.c.(waiting := waiting), arrived := s.arrived + [w], sleeping := s.sleeping + {w})
  }

  /** janitor.c:806-808: there are no spurious wakeups. */
  function Wake(s: State, w: Waiter): State {
    s.(signalled := s.signalled - {w}, back := s.back + {w})
  }

  ghost function First(a: seq<Waiter>, n: nat): set<Waiter> {
    set i | 0 <= i < n && i < |a| :: a[i]
  }

  /** What holds of a barrier for `n` in every reachable state. */
  ghost predicate Inv(s: State, n: nat) {
    && n > 0 && s.c.waiting == |s.arrived|
    && (forall i, j :: 0 <= i < j < |s.arrived| ==> s.arrived[i] != s.arrived[j])
    && (if s.c.count > 0 then
          && s.c.count == n && |s.arrived| < n
          && s.sleeping == First(s.arrived, n) && s.signalled == s.back == {} && s.serial == []
        else
          && |s.arrived| >= n && s.serial == [s.arrived[n - 1]]
          && s.signalled + s.back == First(s.arrived, n - 1) && s.signalled !! s.back)
  }

  lemma ArriveKeeps(s: State, n: nat, w: Waiter)
    requires Inv(s, n) && w !in s.arrived
    ensures Inv(Arrive(s, w), n)
  {
    hide First;
    var a := s.arrived + [w];
    FirstSnoc(s.arrived, w, n);
    FirstSnoc(s.arrived, w, n - 1);
    FirstOfAll(s.arrived, n);
    assert forall i :: 0 <= i < |a| ==> a[i] == if i < |s.arrived| then s.arrived[i] else w;
  }

  lemma FirstOfAll(a: seq<Waiter>, n: nat)
    ensures |a| < n ==> First(a, n) == First(a, n - 1)
  {
  }

  lemma FirstSnoc(a: seq<Waiter>, w: Waiter, n: nat)
    ensures First(a + [w], n) == First(a, n) + if |a| < n then {w} else {}
  {
    var b := a + [w];
    forall x ensures x in First(b, n) <==> x in First(a, n) + (if |a| < n then {w} else {}) {
      if x in First(a, n) {
        var i :| 0 <= i < n && i < |a| && a[i] == x;
        assert b[i] == x;
      }
      if x in First(b, n) {
        var i :| 0 <= i < n && i < |b| && b[i] == x;
        assert i < |a| ==> a[i] == x;
      }
      assert |a| < n ==> b[|a|] == w;
    }
  }

  lemma WakeKeeps(s: State, n: nat, w: Waiter)
    requires Inv(s, n) && w in s.signalled
    ensures Inv(Wake(s, w), n)
  {
  }

  /** One-shot and safe: nobody returns before `n` have arrived, only the first `n`
      can return, and exactly one of them, the last to arrive, is given the serial value. */
  lemma BarrierIsSafe(s: State, n: nat)
    requires Inv(s, n)
    ensures forall w :: Returned(s, w) ==> |s.arrived| >= n && w in First(s.arrived, n)
    ensures (exists w :: Returned(s, w)) ==> |s.serial| == 1
    ensures |s.serial| <= 1 && (forall w :: w in s.serial ==> w !in s.back)
    ensures |s.arrived| >= n <==> Tripped(s)
  {
    forall w | Returned(s, w) ensures |s.arrived| >= n && w in First(s.arrived, n) {
      if w in s.back {
        assert w in First(s.arrived, n - 1);
      } else {
        assert w == s.arrived[n - 1];
      }
    }
    assert s.back <= First(s.arrived, n - 1);
  }

  // ----- the barrier itself

  class PthreadBarrier {
    var waiting: nat
    var count: nat
    ghost const size: nat
    ghost var state: State

    ghost predicate Valid()
      reads this
    {
      Inv(state, size) && state.c == Counters(waiting, count)
    }

    constructor (count: nat)
      requires count > 0
      ensures Valid() && size == count && state == Init(count)
    {
      this.count, waiting := count, 0;
      size, state := count, Init(count);
    }

    /** janitor.c:752-774: a count of 0 and any attributes are refused. */
    static method Create(count: nat, attributes: bool) returns (b: PthreadBarrier?)
      ensures b == null <==> count == 0 || attributes
      ensures b != null ==> fresh(b) && b.Valid() && b.size == count && b.state == Init(count)
    {
      if count == 0 || attributes {
        b := null;
      } else {
        b := new PthreadBarrier(count);
      }
    }

    /** Up to the return, or the release of the mutex, of janitor.c:794-810. */
    method Enter(w: Waiter) returns (serial: bool)
      requires Valid() && w !in state.arrived
      modifies this
      ensures Valid() && state == Arrive(old(state), w) && (serial <==> w in state.serial)
    {
      ArriveKeeps(state, size, w);
      SerialArrived(state, size);
      ghost var before := state;
      waiting := waiting + 1;
      state := Arrive(state, w);
      if waiting == count {
        count := 0;
        serial := true;
      } else {
        serial := false;
      }
    }

    /** The rest, once the broadcast has come. */
    method Leave(w: Waiter)
      requires Valid() && w in state.signalled
      modifies this`state
      ensures Valid() && state == Wake(old(state), w)
    {
      WakeKeeps(state, size, w);
      state := Wake(state, w);
    }

    /** janitor.c:776-792: refused with EBUSY until the barrier has tripped. */
    method Destroy() returns (busy: bool)
      requires Valid()
      ensures busy <==> |state.arrived| < size
    {
      BarrierIsSafe(state, size);
      busy := count > 0;
    }
  }

  lemma SerialArrived(s: State, n: nat)
    requires Inv(s, n)
    ensures forall w :: w in s.serial ==> w in s.arrived
  {
  }

  // ----- all interleavings

  datatype Action = ARRIVE(w: Waiter) | WAKE(w: Waiter)

  predicate Possible(s: State, a: Action) {
    match a case ARRIVE(w) => w !in s.arrived case WAKE(w) => w in s.signalled
  }

  /** A schedule; what is not possible is passed over. */
  function Run(s: State, schedule: seq<Action>): State
    decreases |schedule|
  {
    if schedule == [] then s
    else
      var a := schedule[0];
      Run(if !Possible(s, a) then s else match a case ARRIVE(w) => Arrive(s, w) case WAKE(w) => Wake(s, w), schedule[1..])
  }

  /** Whatever the schedule, a barrier for `n` lets nobody return before `n` have
      arrived, gives the serial value to exactly one, and cannot be destroyed before. */
  lemma {:induction false} EveryRunIsSafe(n: nat, schedule: seq<Action>)
    requires n > 0
    ensures var s := Run(Init(n), schedule);
            && (forall w :: Returned(s, w) ==> |s.arrived| >= n && w in First(s.arrived, n))
            && |s.serial| == (if |s.arrived| >= n then 1 else 0)
            && (s.c.count > 0 <==> |s.arrived| < n)
  {
    RunKeeps(Init(n), n, schedule);
    BarrierIsSafe(Run(Init(n), schedule), n);
  }

  lemma {:induction false} RunKeeps(s: State, n: nat, schedule: seq<Action>)
    requires Inv(s, n)
    ensures Inv(Run(s, schedule), n)
    decreases |schedule|
  {
    hide Inv, Arrive, Wake;
    if schedule != [] {
      var a := schedule[0];
      var s' := s;
      if Possible(s, a) {
        match a
        case ARRIVE(w) =>
          ArriveKeeps(s, n, w);
          s' := Arrive(s, w);
        case WAKE(w) =>
          WakeKeeps(s, n, w);
          s' := Wake(s, w);
      }
      RunKeeps(s', n, schedule[1..]);
    }
  }

  /** Nobody is left behind: once `n` have arrived, everybody who arrived among the
      first `n` has returned or can, and whoever comes later cannot. */
  lemma Released(s: State, n: nat)
    requires Inv(s, n) && |s.arrived| >= n
    ensures forall w :: w in First(s.arrived, n) <==> Returned(s, w) || w in s.signalled
  {
    assert First(s.arrived, n) == First(s.arrived, n - 1) + {s.arrived[n - 1]} by {
      var a := s.arrived;
      forall x | x in First(a, n) ensures x in First(a, n - 1) + {a[n - 1]} {
        var i :| 0 <= i < n && i < |a| && a[i] == x;
        assert i < n - 1 ==> x in First(a, n - 1);
      }
      forall x | x in First(a, n - 1) ensures x in First(a, n) {
        var i :| 0 <= i < n - 1 && i < |a| && a[i] == x;
      }
    }
  }
}
