/** The lists of threads behind the lock, janitor.c:183-186, 196-300, 364-441:
    each method is what one thread does while it holds the lock. */
module Registry {
  import opened Rings
  import opened Threads
  import Barrier

  class Janitor {
    var threadList: Thread?
    var finishedThreadList: Thread?
    /** All threads there have been, and who is where. */
    ghost var world: World

    ghost predicate Valid()
      reads this, world.info.Keys, world.running, world.finished
    {
      && WorldOk(world)
      && Ring(world.running) && threadList == Head(world.running)
      && Ring(world.finished) && finishedThreadList == Head(world.finished)
      && forall t :: t in world.info ==> t.isStarted == world.info[t].started
    }

    constructor ()
      ensures Valid() && world == EMPTY
    {
      threadList, finishedThreadList, world := null, null, EMPTY;
      EmptyOk();
    }

    /** janitor.c:341-346; the caller goes on to start the thread's own steps. */
    method Create(threadClass: nat, detached: bool) returns (info: Thread)
      requires Valid()
      modifies this`world
      ensures Valid() && fresh(info) && info.threadClass == threadClass && info.detached == detached
      ensures info !in old(world).info && world == Step(old(world), CREATE(info))
    {
      hide WorldOk, Step;
      Known(world);
      info := new Thread(threadClass, detached);
      Admit(info);
    }

    /** janitor.c:345-346: from here on the thread's own steps are possible. */
    ghost method Admit(info: Thread)
      requires Valid() && info !in world.info && !info.isStarted
      modifies this`world
      ensures Valid() && world == Step(old(world), CREATE(info))
    {
      hide WorldOk, Step;
      Known(world);
      CreateKeeps(world, info);
      world := Step(world, CREATE(info));
    }

    /** janitor.c:264-279 */
    method Register(info: Thread)
      requires Valid() && Possible(world, REGISTER(info))
      modifies this, world.info.Keys
      ensures Valid() && world == Step(old(world), REGISTER(info))
    {
      hide WorldOk, Possible, Enters, Step, Removed, Without;
      ghost var w := world;
      Known(w);
      RegisterKeeps(w, info);
      threadList := InsertFront(info, threadList, w.running);
      world := Step(w, REGISTER(info));
    }

    /** janitor.c:196-236; the start barrier has tripped, so that its destruction is not refused. */
    method Unregister(info: Thread)
      requires Valid() && Possible(world, UNREGISTER(info))
      modifies this, world.info.Keys
      ensures Valid() && world == Step(old(world), UNREGISTER(info))
      ensures Barrier.Tripped(old(world).info[info].barrier)
    {
      hide WorldOk, Possible, Enters, Step, Removed, Without;
      ghost var w := world;
      Known(w);
      UnregisterKeeps(w, info);
      if threadList != null {
        threadList := Remove(info, threadList, w.running, IndexIn(w.running, info));
        world := Step(w, UNREGISTER(info));
      }
    }

    /** janitor.c:281-300 */
    method Finished(info: Thread)
      requires Valid() && Possible(world, FINISH(info))
      modifies this, world.info.Keys
      ensures Valid() && world == Step(old(world), FINISH(info))
    {
      hide WorldOk, Possible, Enters, Step, Removed, Without;
      ghost var w := world;
      Known(w);
      FinishKeeps(w, info);
      if !info.detached {
        finishedThreadList := InsertFront(info, finishedThreadList, w.finished);
      }
      world := Step(w, FINISH(info));
    }

    /** janitor.c:238-262, for the thread the joiner has waited for. */
    method Dispose(info: Thread)
      requires Valid() && Possible(world, JOINED(info))
      modifies this, world.info.Keys
      ensures Valid() && world == Step(old(world), JOINED(info)) && old(world).info[info].phase == WAITING
    {
      hide WorldOk, Possible, Enters, Step, Removed, Without;
      ghost var w := world;
      Known(w);
      JoinedKeeps(w, info);
      if finishedThreadList != null {
        finishedThreadList := Remove(info, finishedThreadList, w.finished, IndexIn(w.finished, info));
        world := Step(w, JOINED(info));
      }
    }

    /** janitor.c:369-372; whoever found the flag unset goes on to the start barrier. */
    method Start(info: Thread) returns (first: bool)
      requires Valid() && Possible(world, START(info))
      modifies this`world, info`isStarted
      ensures Valid() && world == Step(old(world), START(info)) && first == !old(world.info[info].started)
    {
      hide WorldOk, Possible, Enters, Step, Removed, Without;
      ghost var w := world;
      Known(w);
      StartKeeps(w, info);
      first := !info.isStarted;
      info.isStarted := true;
      world := Step(w, START(info));
    }

    /** What happens without the lock: the meeting at the start barrier, and the
        thread's function. */
    method OutsideLock(ghost a: Action)
      requires Valid() && Possible(world, a) && (a.ENTER? || a.LEAVE? || a.BEGIN?)
      modifies this`world
      ensures Valid() && world == Step(old(world), a)
    {
      hide WorldOk, Possible, Step;
      OutsideKeeps(world, a);
      world := Step(world, a);
    }

    /** The first thread of a class in a list, janitor.c:397-406 and 415-434. */
    method Search(list: Thread?, threadClass: nat, ghost ring: seq<Thread>) returns (found: Thread?)
      requires Ring(ring) && list == Head(ring)
      ensures found != null ==> found in ring && found.threadClass == threadClass
      ensures found == null ==> forall t :: t in ring ==> t.threadClass != threadClass
    {
      found := null;
      var thread := list;
      if thread != null {
        ghost var i := 0;
        while true
          invariant i < |ring| && thread == ring[i] && found == null
          invariant forall j :: 0 <= j < i ==> ring[j].threadClass != threadClass
          decreases |ring| - i
        {
          if thread.threadClass == threadClass {
            found := thread;
            break;
          }
          thread := thread.next;
          i := i + 1;
          if thread == list {
            break;
          }
        }
      }
    }

    /** janitor.c:396-407 */
    method FindFinished(threadClass: nat) returns (found: Thread?)
      requires Valid() && world.joining == null
      modifies this`world
      ensures Valid() && if found == null then world == old(world)
                         else found.threadClass == threadClass && found in old(world).info
                              && Possible(old(world), FIND(found)) && world == Step(old(world), FIND(found))
      ensures found == null ==> forall t :: t in world.finished ==> t.threadClass != threadClass
    {
      hide WorldOk, Step;
      ghost var w := world;
      Known(w);
      found := Search(finishedThreadList, threadClass, w.finished);
      if found != null {
        FindKeeps(w, found);
        world := Step(w, FIND(found));
      }
    }

    /** janitor.c:413-440: 0 says that no thread of the class is in either list. */
    method AnyLeft(threadClass: nat) returns (r: int)
      requires Valid()
      ensures r == 0 <==> forall t :: t in world.running || t in world.finished ==> t.threadClass != threadClass
      ensures r == 0 ==> forall t :: t in world.info && t.threadClass == threadClass ==>
                world.info[t].phase == MADE || world.info[t].phase == UNLISTED || world.info[t].phase == DISPOSED
    {
      hide WorldOk;
      var found := Search(finishedThreadList, threadClass, world.finished);
      if found == null {
        found := Search(threadList, threadClass, world.running);
      }
      if found != null {
        r := 1;
      } else {
        NothingListed(world, threadClass);
        r := 0;
      }
    }
  }

  // ----- whole schedules

  /** What the janitor makes of an action: the joiner takes the first finished thread of
      the class it asks for, and waits for the one it has taken. */
  predicate Alike(a: Action, done: Action) {
    if a.FIND? then done.FIND? && done.t.threadClass == a.t.threadClass
    else if a.JOINED? then done.JOINED?
    else done == a
  }

  function After(w: World, a: Action): World {
    if Possible(w, a) then Step(w, a) else w
  }

  /** One action on the lists, if it is possible; `w` is the world as the driver knows it. */
  method Perform(j: Janitor, w: World, a: Action) returns (done: Action)
    requires j.Valid() && j.world == w && (a.CREATE? && a.t !in w.info ==> !a.t.isStarted)
    modifies j, w.info.Keys, a.t
    ensures j.Valid() && j.world == After(w, done) && Alike(a, done)
    ensures a.t !in j.world.info ==> a.t.isStarted == old(a.t.isStarted)
  {
    hide WorldOk, Step, Enters, Removed;
    Known(w);
    done := a;
    if a.FIND? {
      if w.joining == null {
        var found := j.FindFinished(a.t.threadClass);
        if found != null {
          done := FIND(found);
        }
      }
    } else if a.JOINED? {
      if w.joining != null {
        done := JOINED(w.joining);
        j.Dispose(w.joining);
      }
    } else if Possible(w, a) {
      if a.CREATE? {
        j.Admit(a.t);
      } else if a.REGISTER? {
        j.Register(a.t);
      } else if a.START? {
        var first := j.Start(a.t);
      } else if a.UNREGISTER? {
        j.Unregister(a.t);
      } else if a.FINISH? {
        j.Finished(a.t);
      } else {
        j.OutsideLock(a);
      }
    }
    NoneElse(w, a, done);
  }

  /** Any schedule of threads' steps on the lists, impossible ones left out: both rings
      stay well-formed and hold what the interleaving of the steps says. */
  method RunSchedule(j: Janitor, schedule: seq<Action>) returns (taken: seq<Action>)
    requires j.Valid() && j.world == EMPTY
    requires forall a :: a in schedule && a.CREATE? ==> !a.t.isStarted
    modifies j, set a | a in schedule :: a.t
    ensures j.Valid() && j.world == Run(EMPTY, taken)
    ensures |taken| == |schedule| && forall i :: 0 <= i < |schedule| ==> Alike(schedule[i], taken[i])
  {
    hide Run, WorldOk, Step, Possible, After, Alike;
    ghost var threads := set a | a in schedule :: a.t;
    taken := [];
    var w := EMPTY;
    RunNone(EMPTY);
    for i := 0 to |schedule|
      invariant j.Valid() && j.world == w == Run(EMPTY, taken)
      invariant |taken| == i && forall k :: 0 <= k < i ==> Alike(schedule[k], taken[k])
      invariant w.info.Keys <= threads
      invariant forall a :: a in schedule && a.CREATE? && a.t !in w.info ==> !a.t.isStarted
    {
      var done := Perform(j, w, schedule[i]);
      RunSnoc(EMPTY, taken, done);
      NoneElse(w, schedule[i], done);
      taken := taken + [done];
      w := After(w, done);
    }
  }

  lemma RunNone(w: World)
    ensures Run(w, []) == w
  {
  }

  lemma {:induction false} RunSnoc(w: World, schedule: seq<Action>, a: Action)
    ensures Run(w, schedule + [a]) == After(Run(w, schedule), a)
    decreases |schedule|
  {
    hide Step, Possible;
    if schedule == [] {
      assert schedule + [a] == [a] && [a][1..] == [];
    } else {
      assert (schedule + [a])[1..] == schedule[1..] + [a] && (schedule + [a])[0] == schedule[0];
      RunSnoc(After(w, schedule[0]), schedule[1..], a);
    }
  }

  /** Only creation makes a thread known. */
  lemma NoneElse(w: World, a: Action, done: Action)
    requires Alike(a, done)
    ensures w.info.Keys <= After(w, done).info.Keys <= w.info.Keys + {a.t}
  {
  }

  /** Members of the lists are known, and of one list only. */
  lemma Known(w: World)
    requires WorldOk(w)
    ensures forall t :: t in w.running ==> t in w.info && t !in w.finished
    ensures forall t :: t in w.finished ==> t in w.info
    ensures w.joining != null ==> w.joining in w.finished
  {
  }

  lemma CreateKeeps(w: World, t: Thread)
    requires WorldOk(w) && t !in w.info
    ensures WorldOk(Step(w, CREATE(t)))
    ensures Step(w, CREATE(t)).running == w.running && Step(w, CREATE(t)).finished == w.finished
    ensures Step(w, CREATE(t)).info.Keys == w.info.Keys + {t} && !Step(w, CREATE(t)).info[t].started
    ensures forall x :: x in w.info ==> Step(w, CREATE(t)).info[x] == w.info[x]
  {
    StepKeeps(w, CREATE(t));
  }

  lemma StartedKept(w: World, t: Thread, p: Phase)
    requires t in w.info
    ensures Enters(w, t, p).info.Keys == w.info.Keys
    ensures forall x :: x in w.info ==> Enters(w, t, p).info[x].started == w.info[x].started
  {
  }

  lemma RegisterKeeps(w: World, t: Thread)
    requires WorldOk(w) && Possible(w, REGISTER(t))
    ensures WorldOk(Step(w, REGISTER(t))) && t in w.info && t !in w.running && t !in w.finished
    ensures Step(w, REGISTER(t)).info.Keys == w.info.Keys
    ensures Step(w, REGISTER(t)).running == [t] + w.running
    ensures Step(w, REGISTER(t)).finished == w.finished
    ensures forall x :: x in w.info ==> Step(w, REGISTER(t)).info[x].started == w.info[x].started
  {
    StepKeeps(w, REGISTER(t));
    StartedKept(w, t, LISTED);
  }

  lemma UnregisterKeeps(w: World, t: Thread)
    requires WorldOk(w) && Possible(w, UNREGISTER(t))
    ensures WorldOk(Step(w, UNREGISTER(t))) && t in w.info && t in w.running && Barrier.Tripped(w.info[t].barrier)
    ensures IndexIn(w.running, t) < |w.running| && w.running != []
    ensures Removed(w.running, t) == Without(w.running, IndexIn(w.running, t))
    ensures Step(w, UNREGISTER(t)).info.Keys == w.info.Keys
    ensures Step(w, UNREGISTER(t)).running == Removed(w.running, t)
    ensures Step(w, UNREGISTER(t)).finished == w.finished
    ensures forall x :: x in w.info ==> Step(w, UNREGISTER(t)).info[x].started == w.info[x].started
  {
    StepKeeps(w, UNREGISTER(t));
    BothArrived(w.info[t]);
    StartedKept(w, t, UNLISTED);
    assert IndexIn(w.running, t) < |w.running|;
  }

  lemma FinishKeeps(w: World, t: Thread)
    requires WorldOk(w) && Possible(w, FINISH(t))
    ensures WorldOk(Step(w, FINISH(t))) && t in w.info && t !in w.running && t !in w.finished
    ensures Step(w, FINISH(t)).info.Keys == w.info.Keys
    ensures Step(w, FINISH(t)).running == w.running
    ensures Step(w, FINISH(t)).finished == if t.detached then w.finished else [t] + w.finished
    ensures forall x :: x in w.info ==> Step(w, FINISH(t)).info[x].started == w.info[x].started
  {
    StepKeeps(w, FINISH(t));
    StartedKept(w, t, DISPOSED);
    StartedKept(w, t, WAITING);
  }

  lemma JoinedKeeps(w: World, t: Thread)
    requires WorldOk(w) && Possible(w, JOINED(t))
    ensures WorldOk(Step(w, JOINED(t))) && t in w.info && t in w.finished && w.info[t].phase == WAITING
    ensures IndexIn(w.finished, t) < |w.finished| && w.finished != []
    ensures Removed(w.finished, t) == Without(w.finished, IndexIn(w.finished, t))
    ensures Step(w, JOINED(t)).info.Keys == w.info.Keys
    ensures Step(w, JOINED(t)).running == w.running
    ensures Step(w, JOINED(t)).finished == Removed(w.finished, t)
    ensures forall x :: x in w.info ==> Step(w, JOINED(t)).info[x].started == w.info[x].started
  {
    StepKeeps(w, JOINED(t));
    StartedKept(w, t, DISPOSED);
    assert IndexIn(w.finished, t) < |w.finished|;
  }

  lemma StartKeeps(w: World, t: Thread)
    requires WorldOk(w) && Possible(w, START(t))
    ensures WorldOk(Step(w, START(t))) && t in w.info
    ensures Step(w, START(t)).info.Keys == w.info.Keys && Step(w, START(t)).info[t].started
    ensures Step(w, START(t)).running == w.running && Step(w, START(t)).finished == w.finished
    ensures forall x :: x in w.info && x != t ==> Step(w, START(t)).info[x] == w.info[x]
  {
    StepKeeps(w, START(t));
  }

  lemma OutsideKeeps(w: World, a: Action)
    requires WorldOk(w) && Possible(w, a) && (a.ENTER? || a.LEAVE? || a.BEGIN?)
    ensures WorldOk(Step(w, a)) && Step(w, a).info.Keys == w.info.Keys
    ensures Step(w, a).running == w.running && Step(w, a).finished == w.finished
    ensures forall x :: x in w.info ==> Step(w, a).info[x].started == w.info[x].started
  {
    hide WorldOk, Barrier.Arrive, Barrier.Wake;
    StepKeeps(w, a);
    if a.BEGIN? {
      StartedKept(w, a.t, RUNNING);
    }
  }

  lemma FindKeeps(w: World, t: Thread)
    requires WorldOk(w) && w.joining == null && t in w.finished && t in w.info
    ensures Possible(w, FIND(t)) && WorldOk(Step(w, FIND(t)))
    ensures Step(w, FIND(t)) == w.(joining := t)
  {
    StepKeeps(w, FIND(t));
  }
}
