/** The life of threads as lock-protected steps that interleave in any order,
    janitor.c:196-441, with one joiner. */
module Threads {
  import opened Rings
  import opened Barrier

  /** Created; in the thread list; its function begun; taken from the thread list;
      in the list of finished threads; freed. */
  datatype Phase = MADE | LISTED | RUNNING | UNLISTED | WAITING | DISPOSED

  function Rank(p: Phase): nat {
    match p case MADE => 0 case LISTED => 1 case RUNNING => 2 case UNLISTED => 3 case WAITING => 4 case DISPOSED => 5
  }

  /** The two that meet at a thread's start barrier. */
  const SELF: Waiter := 0
  const STARTER: Waiter := 1

  /** `going`: somebody found `isstarted` unset and has not entered the barrier yet. */
  datatype Info = Info(phase: Phase, started: bool, going: bool, barrier: State)

  datatype Event = Event(t: Thread, phase: Phase)

  datatype World = World(
    info: map<Thread, Info>, running: seq<Thread>, finished: seq<Thread>, joining: Thread?, log: seq<Event>)

  datatype Action =
    | CREATE(t: Thread) | REGISTER(t: Thread) | START(t: Thread) | ENTER(t: Thread, who: Waiter)
    | LEAVE(t: Thread, who: Waiter) | BEGIN(t: Thread) | UNREGISTER(t: Thread) | FINISH(t: Thread)
    | FIND(t: Thread) | JOINED(t: Thread)

  /** What a thread, its creator, a starter that was given the handle, or the joiner can do next. */
  predicate Possible(w: World, a: Action) {
    if a.CREATE? then a.t !in w.info
    else
      a.t in w.info &&
      var x := w.info[a.t];
      match a
      case CREATE(_) => false
      case REGISTER(_) => x.phase == MADE
      case START(_) => x.phase != MADE && x.phase != DISPOSED
      case ENTER(_, who) =>
        if who == SELF then Rank(x.phase) <= Rank(LISTED) && SELF !in x.barrier.arrived else who == STARTER && x.going
      case LEAVE(_, who) => who in x.barrier.signalled
      case BEGIN(_) => Rank(x.phase) <= Rank(LISTED) && Returned(x.barrier, SELF)
      case UNREGISTER(_) => x.phase == RUNNING
      case FINISH(_) => x.phase == UNLISTED
      case FIND(_) => w.joining == null && a.t in w.finished
      case JOINED(_) => w.joining == a.t
  }

  function IndexIn(ring: seq<Thread>, t: Thread): (k: nat)
    ensures k <= |ring| && (k < |ring| ==> ring[k] == t) && forall i :: 0 <= i < k ==> ring[i] != t
  {
    if ring == [] || ring[0] == t then 0 else 1 + IndexIn(ring[1..], t)
  }

  function Removed(ring: seq<Thread>, t: Thread): seq<Thread> {
    var k := IndexIn(ring, t);
    if k < |ring| then Without(ring, k) else ring
  }

  function Set(w: World, t: Thread, x: Info): World {
    w.(info := w.info[t := x])
  }

  function Enters(w: World, t: Thread, p: Phase): World
    requires t in w.info
  {
    w.(info := w.info[t := w.info[t].(phase := p)], log := w.log + [Event(t, p)])
  }

  function Step(w: World, a: Action): World
    requires Possible(w, a)
  {
    match a
    case CREATE(t) => Set(w, t, Info(MADE, false, false, Init(2)))
    case REGISTER(t) => Enters(w, t, LISTED).(running := [t] + w.running)
    case START(t) => Set(w, t, w.info[t].(started := true, going := w.info[t].going || !w.info[t].started))
    case ENTER(t, who) =>
      Set(w, t, w.info[t].(barrier := Arrive(w.info[t].barrier, who), going := w.info[t].going && who != STARTER))
    case LEAVE(t, who) => Set(w, t, w.info[t].(barrier := Barrier.Wake(w.info[t].barrier, who)))
    case BEGIN(t) => Enters(w, t, RUNNING)
    case UNREGISTER(t) => Enters(w, t, UNLISTED).(running := Removed(w.running, t))
    case FINISH(t) =>
      if t.detached then Enters(w, t, DISPOSED)
      else Enters(w, t, WAITING).(finished := [t] + w.finished)
    case FIND(t) => w.(joining := t)
    case JOINED(t) => Enters(w, t, DISPOSED).(finished := Removed(w.finished, t), joining := null)
  }

  // ----- what holds in every reachable state

  /** A thread begins only when it and one starter have met, so after it was started,
      so after it was registered. */
  ghost predicate InfoOk(x: Info) {
    && Inv(x.barrier, 2) && (forall v :: v in x.barrier.arrived ==> v == SELF || v == STARTER)
    && (STARTER in x.barrier.arrived ==> x.started && !x.going)
    && (x.going ==> x.started) && (x.started ==> x.phase != MADE)
    && (x.started ==> x.going || STARTER in x.barrier.arrived)
    && (Rank(x.phase) >= Rank(RUNNING) ==> Returned(x.barrier, SELF))
  }

  ghost predicate InfosOk(w: World) {
    forall t :: t in w.info ==> InfoOk(w.info[t])
  }

  /** Who is in which list is a matter of phase; nobody is in both or twice in one. */
  ghost predicate ListsOk(w: World) {
    && Distinct(w.running) && Distinct(w.finished)
    && (forall t :: t in w.running ==> t in w.info) && (forall t :: t in w.finished ==> t in w.info)
    && (forall t :: t in w.info ==> (t in w.running <==> w.info[t].phase == LISTED || w.info[t].phase == RUNNING))
    && (forall t :: t in w.info ==> (t in w.finished <==> w.info[t].phase == WAITING))
    && (w.joining != null ==> w.joining in w.finished)
  }

  /** A thread's phases come in their order, none of them twice, and listed comes first. */
  ghost predicate LogOk(w: World) {
    && (forall i, j :: 0 <= i < j < |w.log| && w.log[i].t == w.log[j].t ==> Rank(w.log[i].phase) < Rank(w.log[j].phase))
    && (forall e :: e in w.log ==> e.t in w.info && Rank(e.phase) <= Rank(w.info[e.t].phase))
    && (forall t :: t in w.info && w.info[t].phase != MADE ==> Event(t, LISTED) in w.log)
  }

  ghost predicate WorldOk(w: World) {
    InfosOk(w) && ListsOk(w) && LogOk(w)
  }

  const EMPTY := World(map[], [], [], null, [])

  lemma EmptyOk()
    ensures WorldOk(EMPTY)
  {
  }

  /** Two distinct waiters out of two are both. */
  lemma BothArrived(x: Info)
    requires InfoOk(x) && Returned(x.barrier, SELF)
    ensures SELF in x.barrier.arrived && STARTER in x.barrier.arrived && Tripped(x.barrier)
  {
    BarrierIsSafe(x.barrier, 2);
    var a := x.barrier.arrived;
    assert a[0] in a && a[1] in a;
  }

  /** The function of a thread begins only when the thread is in the thread list. */
  lemma BegunListed(w: World, t: Thread)
    requires WorldOk(w) && Possible(w, BEGIN(t))
    ensures w.info[t].phase == LISTED && w.info[t].started && t in w.running
  {
    BothArrived(w.info[t]);
  }

  // ----- steps keep it

  lemma InfoStep(w: World, a: Action)
    requires WorldOk(w) && Possible(w, a)
    ensures InfosOk(Step(w, a))
  {
    hide LogOk;
    hide Inv;
    InitOk();
    if !a.CREATE? {
      var x := w.info[a.t];
      assert InfoOk(x);
      if a.ENTER? {
        EnterOk(x, a.who);
      } else if a.LEAVE? {
        LeaveOk(x, a.who);
      } else if a.BEGIN? {
        BothArrived(x);
      }
    }
  }

  lemma InitOk()
    ensures Inv(Init(2), 2)
  {
    assert First([], 2) == {};
  }

  lemma EnterOk(x: Info, who: Waiter)
    requires InfoOk(x) && if who == SELF then Rank(x.phase) <= Rank(LISTED) && SELF !in x.barrier.arrived
                          else who == STARTER && x.going
    ensures InfoOk(x.(barrier := Arrive(x.barrier, who), going := x.going && who != STARTER))
  {
    ArriveKeeps(x.barrier, 2, who);
  }

  lemma LeaveOk(x: Info, who: Waiter)
    requires InfoOk(x) && who in x.barrier.signalled
    ensures InfoOk(x.(barrier := Barrier.Wake(x.barrier, who)))
  {
    WakeKeeps(x.barrier, 2, who);
  }

  lemma RemovedFrom(ring: seq<Thread>, t: Thread)
    requires Distinct(ring)
    ensures Distinct(Removed(ring, t))
    ensures forall x :: x in Removed(ring, t) ==> x in ring && x != t
    ensures forall x :: x in ring && x != t ==> x in Removed(ring, t)
  {
    var k := IndexIn(ring, t);
    if k < |ring| {
      var r := Without(ring, k);
      assert forall j :: 0 <= j < |r| ==> r[j] == ring[if j < k then j else j + 1];
      forall x | x in ring && x != t ensures x in r {
        var i :| 0 <= i < |ring| && ring[i] == x;
        assert r[if i < k then i else i - 1] == x;
      }
    }
  }

  lemma Fronted(ring: seq<Thread>, t: Thread)
    requires Distinct(ring) && t !in ring
    ensures Distinct([t] + ring)
    ensures forall x :: x in [t] + ring ==> x in ring || x == t
    ensures t in [t] + ring && forall x :: x in ring ==> x in [t] + ring
  {
    var r := [t] + ring;
    assert forall i :: 0 < i < |r| ==> r[i] == ring[i - 1];
  }

  /** The lists after `t` went from one phase to another. */
  lemma ListsMoved(w: World, t: Thread, w': World)
    requires ListsOk(w) && t in w.info && w'.info.Keys == w.info.Keys
    requires forall x :: x in w.info && x != t ==> w'.info[x].phase == w.info[x].phase
    requires Distinct(w'.running) && Distinct(w'.finished)
    requires forall x :: x in w'.running ==> x in w.running || x == t
    requires forall x :: x in w.running && x != t ==> x in w'.running
    requires forall x :: x in w'.finished ==> x in w.finished || x == t
    requires forall x :: x in w.finished && x != t ==> x in w'.finished
    requires t in w'.running <==> w'.info[t].phase == LISTED || w'.info[t].phase == RUNNING
    requires t in w'.finished <==> w'.info[t].phase == WAITING
    requires w'.joining != null ==> w'.joining in w'.finished
    ensures ListsOk(w')
  {
    hide Distinct;
  }

  lemma ListsStep(w: World, a: Action)
    requires WorldOk(w) && Possible(w, a)
    ensures ListsOk(Step(w, a))
  {
    hide InfosOk, LogOk, Removed, Distinct, Inv, Arrive, Barrier.Wake, Init;
    if a.CREATE? {
    } else if a.REGISTER? {
      Fronted(w.running, a.t);
      ListsMoved(w, a.t, Step(w, a));
    } else if a.BEGIN? {
      BegunListed(w, a.t);
      ListsMoved(w, a.t, Step(w, a));
    } else if a.UNREGISTER? {
      RemovedFrom(w.running, a.t);
      ListsMoved(w, a.t, Step(w, a));
    } else if a.FINISH? {
      if !a.t.detached {
        Fronted(w.finished, a.t);
      }
      ListsMoved(w, a.t, Step(w, a));
    } else if a.JOINED? {
      RemovedFrom(w.finished, a.t);
      ListsMoved(w, a.t, Step(w, a));
    }
  }

  lemma EntersLog(w: World, t: Thread, p: Phase)
    requires LogOk(w) && t in w.info && Rank(w.info[t].phase) < Rank(p)
    requires w.info[t].phase == MADE ==> p == LISTED
    ensures LogOk(Enters(w, t, p))
  {
    var w' := Enters(w, t, p);
    assert forall i :: 0 <= i < |w.log| ==> w.log[i] in w.log;
    assert forall e :: e in w'.log <==> e in w.log || e == Event(t, p);
  }

  lemma SameLog(w: World, w': World)
    requires LogOk(w) && w'.log == w.log && w.info.Keys <= w'.info.Keys
    requires forall t :: t in w'.info ==> w'.info[t].phase == if t in w.info then w.info[t].phase else MADE
    ensures LogOk(w')
  {
  }

  lemma LogStep(w: World, a: Action)
    requires WorldOk(w) && Possible(w, a)
    ensures LogOk(Step(w, a))
  {
    hide LogOk, Inv, Arrive, Barrier.Wake, Init, Removed, Distinct;
    if a.CREATE? {
      SameLog(w, Step(w, a));
    } else {
      var x := w.info[a.t];
      match a
      case CREATE(_) =>
      case REGISTER(t) => EntersLog(w, t, LISTED); LogOnly(Enters(w, t, LISTED), Step(w, a));
      case BEGIN(t) => BegunListed(w, t); EntersLog(w, t, RUNNING);
      case UNREGISTER(t) => EntersLog(w, t, UNLISTED); LogOnly(Enters(w, t, UNLISTED), Step(w, a));
      case FINISH(t) =>
        var p := if t.detached then DISPOSED else WAITING;
        EntersLog(w, t, p);
        LogOnly(Enters(w, t, p), Step(w, a));
      case JOINED(t) => EntersLog(w, t, DISPOSED); LogOnly(Enters(w, t, DISPOSED), Step(w, a));
      case FIND(t) => LogOnly(w, Step(w, a));
      case START(t) => SameLog(w, Step(w, a));
      case ENTER(t, _) => SameLog(w, Step(w, a));
      case LEAVE(t, _) => SameLog(w, Step(w, a));
    }
  }

  lemma LogOnly(w: World, w': World)
    requires LogOk(w) && w'.log == w.log && w'.info == w.info
    ensures LogOk(w')
  {
  }

  lemma StepKeeps(w: World, a: Action)
    requires WorldOk(w) && Possible(w, a)
    ensures WorldOk(Step(w, a))
  {
    InfoStep(w, a);
    ListsStep(w, a);
    LogStep(w, a);
  }

  // ----- every interleaving

  function Run(w: World, schedule: seq<Action>): World
    decreases |schedule|
  {
    if schedule == [] then w
    else Run(if Possible(w, schedule[0]) then Step(w, schedule[0]) else w, schedule[1..])
  }

  lemma {:induction false} RunKeeps(w: World, schedule: seq<Action>)
    requires WorldOk(w)
    ensures WorldOk(Run(w, schedule))
    decreases |schedule|
  {
    hide WorldOk, Step;
    if schedule != [] {
      if Possible(w, schedule[0]) {
        StepKeeps(w, schedule[0]);
        RunKeeps(Step(w, schedule[0]), schedule[1..]);
      } else {
        RunKeeps(w, schedule[1..]);
      }
    }
  }

  lemma LogOrder(w: World, i: nat, j: nat)
    requires LogOk(w) && i < |w.log| && j < |w.log| && w.log[i].t == w.log[j].t
    requires Rank(w.log[i].phase) < Rank(w.log[j].phase)
    ensures i < j
  {
  }

  /** Whatever the schedule: nobody is in both lists or twice in one, no thread is
      disposed of twice, and none begins before it was registered. */
  lemma EveryRunIsSafe(schedule: seq<Action>)
    ensures var w := Run(EMPTY, schedule);
            && Distinct(w.running) && Distinct(w.finished) && (forall t :: t in w.running ==> t !in w.finished)
            && (forall i, j :: 0 <= i < j < |w.log| ==> w.log[i] != w.log[j])
            && (forall j :: 0 <= j < |w.log| && w.log[j].phase == RUNNING ==>
                  exists i :: 0 <= i < j && w.log[i] == Event(w.log[j].t, LISTED))
  {
    hide Run;
    EmptyOk();
    RunKeeps(EMPTY, schedule);
    var w := Run(EMPTY, schedule);
    forall j | 0 <= j < |w.log| && w.log[j].phase == RUNNING
      ensures exists i :: 0 <= i < j && w.log[i] == Event(w.log[j].t, LISTED)
    {
      assert w.log[j] in w.log;
      assert Event(w.log[j].t, LISTED) in w.log;
      var i :| 0 <= i < |w.log| && w.log[i] == Event(w.log[j].t, LISTED);
      LogOrder(w, i, j);
    }
  }

  // ----- getting on

  /** Who starts a thread first is on its way to the barrier, and can enter it. */
  lemma FirstStarts(w: World, t: Thread)
    requires WorldOk(w) && Possible(w, START(t)) && !w.info[t].started
    ensures var w' := Step(w, START(t));
            t in w'.info && w'.info[t].started && Possible(w', ENTER(t, STARTER))
            && STARTER in Step(w', ENTER(t, STARTER)).info[t].barrier.arrived
  {
    hide Inv;
    assert InfoOk(w.info[t]);
  }

  /** When both have met, the thread begins, if need be after it has been woken. */
  lemma BothMet(w: World, t: Thread)
    requires WorldOk(w) && t in w.info && w.info[t].phase == LISTED
    requires SELF in w.info[t].barrier.arrived && STARTER in w.info[t].barrier.arrived
    ensures if SELF in w.info[t].barrier.signalled
            then Possible(w, LEAVE(t, SELF)) && Possible(Step(w, LEAVE(t, SELF)), BEGIN(t))
            else Possible(w, BEGIN(t))
  {
    var b := w.info[t].barrier;
    assert InfoOk(w.info[t]);
    var i :| 0 <= i < |b.arrived| && b.arrived[i] == SELF;
    var j :| 0 <= j < |b.arrived| && b.arrived[j] == STARTER;
    assert |b.arrived| >= 2;
    assert b.arrived[0] in b.arrived && b.arrived[1] in b.arrived;
    assert b.arrived[0] in First(b.arrived, 1);
  }

  lemma RunFirst(w: World, a: Action, rest: seq<Action>)
    requires Possible(w, a)
    ensures Run(w, [a] + rest) == Run(Step(w, a), rest)
  {
    assert ([a] + rest)[1..] == rest;
  }

  /** In no reachable state is a listed thread stuck: steps of it and of a starter lead
      to its beginning, whatever has been done so far. */
  lemma {:induction false} CanBegin(w: World, t: Thread) returns (schedule: seq<Action>)
    requires WorldOk(w) && t in w.info && w.info[t].phase == LISTED
    ensures forall a :: a in schedule ==> a.t == t && (a.START? || a.ENTER? || a.LEAVE? || a.BEGIN?)
    ensures var w' := Run(w, schedule); t in w'.info && w'.info[t].phase == RUNNING
    decreases !w.info[t].started, w.info[t].going, SELF !in w.info[t].barrier.arrived,
              SELF in w.info[t].barrier.signalled
  {
    hide WorldOk, Run;
    var a := TowardsBegin(w, t);
    if a.BEGIN? {
      schedule := [a];
      RunFirst(w, a, []);
      RunNothing(Step(w, a));
      assert [a] + [] == [a];
    } else {
      StepKeeps(w, a);
      var rest := CanBegin(Step(w, a), t);
      RunFirst(w, a, rest);
      schedule := [a] + rest;
    }
  }

  lemma RunNothing(w: World)
    ensures Run(w, []) == w
  {
  }

  /** A step that brings a listed thread nearer to its beginning. */
  lemma TowardsBegin(w: World, t: Thread) returns (a: Action)
    requires WorldOk(w) && t in w.info && w.info[t].phase == LISTED
    ensures Possible(w, a) && a.t == t && (a.START? || a.ENTER? || a.LEAVE? || a.BEGIN?)
    ensures var x, y := w.info[t], Step(w, a).info[t];
            if a.BEGIN? then y.phase == RUNNING
            else
              && y.phase == LISTED
              && if !x.started then y.started
                 else
                   && y.started
                   && if x.going then !y.going
                      else
                        && !y.going
                        && if SELF !in x.barrier.arrived then SELF in y.barrier.arrived
                           else
                             SELF in y.barrier.arrived && SELF in x.barrier.signalled && SELF !in y.barrier.signalled
  {
    hide Inv;
    var x := w.info[t];
    assert InfoOk(x);
    if !x.started {
      a := START(t);
    } else if x.going {
      a := ENTER(t, STARTER);
    } else if SELF !in x.barrier.arrived {
      a := ENTER(t, SELF);
    } else {
      BothMet(w, t);
      a := if SELF in x.barrier.signalled then LEAVE(t, SELF) else BEGIN(t);
    }
  }

  lemma LastSteps(w: World, a: Action)
    requires Possible(w, a) && (a.UNREGISTER? || a.FINISH? || a.FIND? || a.JOINED?)
    ensures var x, t := Step(w, a), a.t;
            && t in x.info
            && x.info[t].phase == (match a
                                   case UNREGISTER(_) => UNLISTED
                                   case FINISH(_) => if t.detached then DISPOSED else WAITING
                                   case FIND(_) => w.info[t].phase
                                   case _ => DISPOSED)
            && x.joining == (if a.FIND? then t else if a.JOINED? then null else w.joining)
            && (a.UNREGISTER? || (a.FINISH? && t.detached) ==> x.finished == w.finished)
  {
  }

  lemma Finds(w: World, t: Thread)
    requires WorldOk(w) && t in w.info && w.info[t].phase == WAITING && w.joining == null
    ensures Possible(w, FIND(t))
  {
  }

  /** A thread whose function has returned gets out of both lists and is disposed of:
      by itself if it is detached, and by the joiner otherwise. */
  lemma CanFinish(w: World, t: Thread)
    requires WorldOk(w) && t in w.info && w.info[t].phase == RUNNING && w.joining == null
    ensures var w' := Run(w, [UNREGISTER(t), FINISH(t)] + if t.detached then [] else [FIND(t), JOINED(t)]);
            && t in w'.info && w'.info[t].phase == DISPOSED && t !in w'.running && t !in w'.finished
            && (t.detached ==> w'.finished == w.finished)
  {
    hide WorldOk, Run, Step;
    var w1 := Step(w, UNREGISTER(t));
    LastSteps(w, UNREGISTER(t));
    StepKeeps(w, UNREGISTER(t));
    var w2 := Step(w1, FINISH(t));
    LastSteps(w1, FINISH(t));
    StepKeeps(w1, FINISH(t));
    var rest := if t.detached then [] else [FIND(t), JOINED(t)];
    assert [UNREGISTER(t), FINISH(t)] + rest == [UNREGISTER(t)] + ([FINISH(t)] + rest);
    RunFirst(w, UNREGISTER(t), [FINISH(t)] + rest);
    RunFirst(w1, FINISH(t), rest);
    if t.detached {
      RunNothing(w2);
      NotListed(w2, t);
    } else {
      Joined(w2, t);
    }
  }

  lemma Joined(w: World, t: Thread)
    requires WorldOk(w) && t in w.info && w.info[t].phase == WAITING && w.joining == null
    ensures var w' := Run(w, [FIND(t), JOINED(t)]);
            t in w'.info && w'.info[t].phase == DISPOSED && t !in w'.running && t !in w'.finished
  {
    hide WorldOk, Run, Step;
    Finds(w, t);
    var w1 := Step(w, FIND(t));
    LastSteps(w, FIND(t));
    StepKeeps(w, FIND(t));
    var w2 := Step(w1, JOINED(t));
    LastSteps(w1, JOINED(t));
    StepKeeps(w1, JOINED(t));
    assert [FIND(t), JOINED(t)] == [FIND(t)] + [JOINED(t)] && [JOINED(t)] + [] == [JOINED(t)];
    RunFirst(w, FIND(t), [JOINED(t)]);
    RunFirst(w1, JOINED(t), []);
    RunNothing(w2);
    NotListed(w2, t);
  }

  lemma NotListed(w: World, t: Thread)
    requires WorldOk(w) && t in w.info && w.info[t].phase == DISPOSED
    ensures t !in w.running && t !in w.finished
  {
  }

  /** At most one starter is on its way to a thread's barrier or has entered it. */
  lemma OneStarter(w: World, t: Thread)
    requires WorldOk(w) && t in w.info
    ensures w.info[t].going ==> STARTER !in w.info[t].barrier.arrived
    ensures Possible(w, START(t)) && w.info[t].started ==> Step(w, START(t)).info[t] == w.info[t]
  {
    assert InfoOk(w.info[t]);
  }

  /** No thread of a class in either list: each that was registered and is not
      disposed of is between leaving the one list and entering the other. */
  lemma NothingListed(w: World, class_: nat)
    requires WorldOk(w)
    requires forall t :: t in w.running || t in w.finished ==> t.threadClass != class_
    ensures forall t :: t in w.info && t.threadClass == class_ ==>
                          w.info[t].phase == MADE || w.info[t].phase == UNLISTED || w.info[t].phase == DISPOSED
  {
  }
}
