/** The mutex object and its calls, on top of the scheduler; each is proved to be its step in MutexSpec. */
module MutexObject {
  import opened Lists
  import opened Threads
  import Sched = Scheduler
  import opened MutexSpec
  import opened WaitLists

  datatype Answer = Taken | TimedOut | Blocked

  const EERROR := -1

  // ----- what the calls keep of the object's own fields

  lemma TakeCoherent(m: Mutex, t: Tid, wait: bool, byPriority: bool)
    requires Coherent(m) && MutexSpec.Legal(m, Take(t, wait))
    ensures Coherent(TakeIt(m, t, wait, byPriority))
  {
    NestingOverflowsExactly(m, t, wait, byPriority);
  }

  lemma ReleaseCoherent(m: Mutex, t: Tid)
    requires Coherent(m) && MutexSpec.Legal(m, Release(t))
    ensures Coherent(ReleaseIt(m, t))
  {
    if m.owner == Held(t) && m.hold == 1 && m.waiters != [] {
      assert m.waiters == [m.waiters[0]] + m.waiters[1..];
    }
  }

  class MutexObject {
    const sched: Sched.Scheduler
    const id: nat                  // names the mutex's suspend list
    const byPriority: bool         // RT_IPC_FLAG_PRIO or RT_IPC_FLAG_FIFO
    var value: nat
    var owner: Owner
    var original: nat
    var hold: nat
    ghost var waited: set<Tid>

    ghost function M(): Mutex
      reads this, sched
    {
      Mutex(Priorities(sched.K()), value, owner, original, hold, Waiters(sched.K(), id), waited)
    }

    /** The scheduler is sound, the suspend list is one of its lists, and the owner is a started thread. */
    ghost predicate Sited()
      reads this, sched
    {
      && sched.Valid() && WaitQ(id) in sched.lists
      && (owner.Held? ==> Started(sched.K(), owner.thread) && original < sched.levels)
    }

    ghost predicate Valid()
      reads this, sched
    {
      Sited() && Coherent(M())
    }

    constructor (s: Sched.Scheduler, o: nat, prio: bool)
      requires s.Valid() && WaitQ(o) in s.lists && s.lists[WaitQ(o)] == []
      ensures sched == s && id == o && byPriority == prio && Valid() && M() == Fresh(Priorities(s.K()))
    {
      sched, id, byPriority := s, o, prio;
      value, owner, original, hold := 1, Nobody, NO_PRIORITY, 0;
      waited := {};
    }

    method SetError(t: Tid, e: int)
      requires Sited() && t in sched.tcb
      modifies sched`tcb
      ensures Sited() && M() == old(M()) && SameView(old(sched.K()), sched.K(), id)
      ensures sched.tcb == old(sched.tcb)[t := old(sched.tcb)[t].(error := e)]
    {
      ErrorKeeps(sched.K(), t, e);
      ErrorView(sched.K(), t, e, id);
      hide Threads.Inv, Coherent, SameView, Priorities, Waiters;
      sched.tcb := sched.tcb[t := sched.tcb[t].(error := e)];
    }

    /** rt_mutex_take by the running thread t, up to its call of rt_schedule. */
    method Take(t: Tid, wait: bool) returns (r: Answer)
      requires Valid() && t in sched.tcb && sched.tcb[t].stat == Ready && MutexSpec.Legal(M(), MutexSpec.Take(t, wait))
      modifies this`value, this`owner, this`original, this`hold, this`waited
      modifies sched`tcb, sched`lists, sched`readyGroup, sched`readyTable
      ensures Valid() && M() == TakeIt(old(M()), t, wait, byPriority)
      ensures r == if old(owner) == Held(t) || old(value) > 0 then Taken else if wait then Blocked else TimedOut
      ensures t in sched.tcb && sched.tcb[t].stat == if r == Blocked then Suspend else Ready
      ensures sched.tcb[t].error == if r == TimedOut then ETIMEDOUT else 0
    {
      TakeCoherent(M(), t, wait, byPriority);
      FreeIsUnowned(M());
      hide Coherent, Threads.Inv, Priorities, Waiters, SameView, Enqueue, TakeIt, M;
      SetError(t, 0);
      if owner == Held(t) {
        Nest(t, wait);
        r := Taken;
      } else if value > 0 {
        Own(t, wait);
        r := Taken;
      } else if !wait {
        SetError(t, ETIMEDOUT);
        Refused(M(), t, byPriority);
        r := TimedOut;
      } else {
        Block(t);
        r := Blocked;
      }
    }

    lemma Refused(m: Mutex, t: Tid, byPriority: bool)
      requires t in m.prio && m.owner != Held(t) && m.value == 0
      ensures TakeIt(m, t, false, byPriority) == m
    {
    }

    method Nest(t: Tid, wait: bool)
      requires Sited() && owner == Held(t)
      modifies this`hold
      ensures Sited() && t in M().prio && M() == TakeIt(old(M()), t, wait, byPriority)
    {
      hide Threads.Inv, Waiters, Enqueue;
      hold := (hold + 1) % 256;
    }

    method Own(t: Tid, wait: bool)
      requires Sited() && Started(sched.K(), t) && value > 0 && owner != Held(t)
      modifies this`value, this`owner, this`original, this`hold, this`waited
      ensures Sited() && M() == TakeIt(old(M()), t, wait, byPriority) && owner == Held(t)
    {
      PriorityKnown(sched.K(), t);
      hide Threads.Inv, Waiters, Enqueue;
      value, owner, original, hold := value - 1, Held(t), sched.tcb[t].currentPriority, (hold + 1) % 256;
      waited := {};
    }

    /** A free mutex is not held, and only a free one has no owner. */
    lemma FreeIsUnowned(m: Mutex)
      requires Coherent(m)
      ensures m.value == 0 <==> m.owner.Held?
      ensures m.owner.Held? ==> 0 < m.hold < 256 && m.owner.thread in m.prio && m.owner.thread !in m.waiters
    {
      hide Distinct;
    }

    /** The owner is lifted to the caller's priority if that is more urgent, and the caller waits. */
    method Block(t: Tid)
      requires Valid() && Started(sched.K(), t) && sched.tcb[t].stat == Ready && owner.Held? && owner != Held(t)
               && value == 0
      modifies this`waited, sched`tcb, sched`lists, sched`readyGroup, sched`readyTable
      ensures Sited() && M() == TakeIt(old(M()), t, true, byPriority)
      ensures t in sched.tcb && sched.tcb[t].stat == Suspend && sched.tcb.Keys == old(sched.tcb.Keys)
      ensures sched.tcb[t].error == old(sched.tcb)[t].error
    {
      hide Threads.Inv, Coherent, Enqueue, Priorities, Waiters, SuspendOn;
      ghost var k := sched.K();
      PriorityKnown(k, t);
      PriorityOf(k, t);
      PriorityOf(k, owner.thread);
      var p := sched.tcb[t].currentPriority;
      if p < sched.tcb[owner.thread].currentPriority {
        Lift(owner.thread, p);
      }
      ghost var l := sched.K();
      SuspendView(l, t, id, byPriority);
      SuspendOther(l, t, id, byPriority, t);
      sched.SuspendOnList(t, id, byPriority);
      waited := waited + {t};
    }

    lemma SuspendOther(k: Kernel, t: Tid, o: nat, byPriority: bool, u: Tid)
      requires t in k.tcb && u in k.tcb
      ensures var r := SuspendOn(k, t, o, byPriority); u in r.tcb && r.tcb[u].error == k.tcb[u].error
    {
      hide WaitPlace;
    }

    /** RT_THREAD_CTRL_CHANGE_PRIORITY on the owner. */
    method Lift(u: Tid, p: nat)
      requires Sited() && Started(sched.K(), u) && p < sched.levels
      modifies sched`tcb, sched`lists, sched`readyGroup, sched`readyTable
      ensures Sited() && M() == old(M()).(prio := old(M()).prio[u := p])
      ensures sched.tcb.Keys == old(sched.tcb.Keys)
      ensures forall v :: v in sched.tcb ==>
                sched.tcb[v].stat == old(sched.tcb)[v].stat && sched.tcb[v].error == old(sched.tcb)[v].error
    {
      hide Threads.Inv;
      PriorityView(sched.K(), u, p, id);
      LiftErrors(sched.K(), u, p);
      hide ChangePriority, Priorities, Waiters;
      sched.ChangePriorityOf(u, p);
      assert WaitQ(id) in sched.K().lists;
    }

    lemma LiftErrors(k: Kernel, u: Tid, p: nat)
      requires u in k.tcb
      ensures forall v :: v in k.tcb ==>
                v in ChangePriority(k, u, p).tcb && ChangePriority(k, u, p).tcb[v].error == k.tcb[v].error
    {
    }

    /** rt_mutex_release by thread t, up to its call of rt_schedule; `done` is false when t is not the owner. */
    method Release(t: Tid) returns (done: bool)
      requires Valid() && t in sched.tcb && MutexSpec.Legal(M(), MutexSpec.Release(t))
      modifies this`value, this`owner, this`original, this`hold, this`waited
      modifies sched`tcb, sched`lists, sched`readyGroup, sched`readyTable
      ensures Valid() && M() == ReleaseIt(old(M()), t)
      ensures done == (old(owner) == Held(t))
      ensures !done ==> t in sched.tcb && sched.tcb[t].error == EERROR && SameView(old(sched.K()), sched.K(), id)
      ensures old(owner) == Held(t) && owner.Held? && owner != Held(t) ==>
                owner.thread in sched.tcb && sched.tcb[owner.thread].stat == Ready
    {
      ReleaseCoherent(M(), t);
      FreeIsUnowned(M());
      hide Coherent, Threads.Inv, Priorities, Waiters, SameView, M;
      done := owner == Held(t);
      if !done {
        SetError(t, EERROR);
        Ignored(M(), t);
      } else if (hold + 255) % 256 != 0 {
        Unnest(t);
      } else {
        LetGo(t);
      }
    }

    lemma Ignored(m: Mutex, t: Tid)
      requires m.owner != Held(t)
      ensures ReleaseIt(m, t) == m
    {
    }

    method Unnest(t: Tid)
      requires Sited() && owner == Held(t) && (hold + 255) % 256 != 0
      modifies this`hold
      ensures Sited() && M() == ReleaseIt(old(M()), t)
    {
      hide Threads.Inv, Waiters;
      hold := (hold + 255) % 256;
    }

    /** The owner gets its own priority back; the first waiter, if any, becomes the owner. */
    method LetGo(t: Tid)
      requires Valid() && owner == Held(t) && hold == 1
      modifies this`value, this`owner, this`original, this`hold, this`waited
      modifies sched`tcb, sched`lists, sched`readyGroup, sched`readyTable
      ensures Sited() && M() == ReleaseIt(old(M()), t)
      ensures owner.Held? && owner != Held(t) ==> owner.thread in sched.tcb && sched.tcb[owner.thread].stat == Ready
    {
      FreeIsUnowned(M());
      LetGoIs(M(), t);
      MParts();
      hide Coherent, Threads.Inv, Priorities, Waiters, M, ReleaseIt, Sited, PassedOn;
      Restore();
      PassOn();
    }

    /** The first waiter, if any, becomes the owner. */
    method PassOn()
      requires Sited() && hold == 0
      modifies this`value, this`owner, this`original, this`hold, this`waited
      modifies sched`tcb, sched`lists, sched`readyGroup, sched`readyTable
      ensures Sited() && M() == PassedOn(old(M()))
      ensures owner == (if old(M()).waiters == [] then Nobody else Held(old(M()).waiters[0]))
      ensures owner.Held? ==> owner.thread in sched.tcb && sched.tcb[owner.thread].stat == Ready
    {
      ListIsWaiters();
      hide Threads.Inv, Priorities, Waiters, M, Sited, HandedOver;
      if sched.lists[WaitQ(id)] != [] {
        HandOver(sched.lists[WaitQ(id)][0]);
      } else {
        SetFree();
      }
    }

    ghost function PassedOn(m: Mutex): Mutex {
      if m.waiters == [] then m.(value := m.value + 1, owner := Nobody, original := NO_PRIORITY, waited := {})
      else HandedOver(m, m.waiters[0])
    }

    lemma MParts()
      ensures M().owner == owner && M().hold == hold && M().value == value && M().original == original
    {
      hide Priorities, Waiters;
    }

    /** An outermost release in three edits: the priority, then the owner, then the wait list. */
    lemma LetGoIs(m: Mutex, t: Tid)
      requires m.owner == Held(t) && m.hold == 1
      ensures ReleaseIt(m, t) == PassedOn(m.(hold := 0, prio := m.prio[t := m.original]))
    {
    }

    ghost function HandedOver(m: Mutex, first: Tid): Mutex
      requires m.waiters != []
    {
      m.(owner := Held(first), original := PrioOf(m.prio, first), hold := (m.hold + 1) % 256,
         waiters := m.waiters[1..], waited := set u | u in m.waiters[1..])
    }

    method HandOver(first: Tid)
      requires Sited() && M().waiters != [] && first == M().waiters[0]
      modifies this`owner, this`original, this`hold, this`waited
      modifies sched`tcb, sched`lists, sched`readyGroup, sched`readyTable
      ensures Sited() && owner == Held(first) && M() == HandedOver(old(M()), first)
      ensures first in sched.tcb && sched.tcb[first].stat == Ready
    {
      hide Threads.Inv, Priorities, Sited;
      HandTo(first);
      Wake();
    }

    lemma ListIsWaiters()
      requires Sited()
      ensures WaitQ(id) in sched.lists && M().waiters == sched.lists[WaitQ(id)]
    {
    }

    method Restore()
      requires Sited() && owner.Held?
      modifies this`hold, sched`tcb, sched`lists, sched`readyGroup, sched`readyTable
      ensures Sited()
      ensures M() == old(M()).(hold := (old(hold) + 255) % 256, prio := old(M()).prio[owner.thread := original])
    {
      hide Threads.Inv, Priorities, Waiters;
      PriorityOf(sched.K(), owner.thread);
      ghost var m := M();
      hold := (hold + 255) % 256;
      if original != sched.tcb[owner.thread].currentPriority {
        Lift(owner.thread, original);
      } else {
        assert m.prio[owner.thread := original] == m.prio;
      }
    }

    method SetFree()
      requires Sited()
      modifies this`value, this`owner, this`original, this`waited
      ensures Sited() && M()
              == old(M()).(value := old(value) + 1, owner := Nobody, original := NO_PRIORITY, waited := {})
      ensures owner == Nobody
    {
      hide Threads.Inv, Priorities, Waiters;
      value, owner, original := value + 1, Nobody, NO_PRIORITY;
      waited := {};
    }

    method HandTo(first: Tid)
      requires Sited() && M().waiters != [] && first == M().waiters[0]
      modifies this`owner, this`original, this`hold, this`waited
      ensures Sited() && owner == Held(first)
      ensures M() == old(M()).(owner := Held(first), original := PrioOf(old(M()).prio, first),
                               hold := (old(hold) + 1) % 256, waited := set u | u in old(M()).waiters[1..])
    {
      ghost var k := sched.K();
      WaitersKnown(k, id);
      PriorityKnown(k, first);
      PriorityOf(k, first);
      hide Threads.Inv, Priorities, Waiters;
      owner, original := Held(first), sched.tcb[first].currentPriority;
      hold := (hold + 1) % 256;
      waited := set u | u in Waiters(k, id)[1..];
    }

    /** rt_ipc_list_resume */
    method Wake()
      requires Sited() && Waiters(sched.K(), id) != []
      modifies sched`tcb, sched`lists, sched`readyGroup, sched`readyTable
      ensures Sited() && M() == old(M()).(waiters := old(M()).waiters[1..])
      ensures var n := old(M()).waiters[0]; n in sched.tcb && sched.tcb[n].stat == Ready
    {
      ghost var k := sched.K();
      ghost var first := sched.lists[WaitQ(id)][0];
      WaitersKnown(k, id);
      ResumeView(k, first, id);
      Once(k, id);
      HeadOut(Waiters(k, id));
      hide Threads.Inv, Priorities, ResumeThread, Without;
      sched.ResumeFirst(id);
    }

    /** The timer of a waiting thread runs out: rt_thread_timeout, up to its call of rt_schedule. */
    method OnTimeout(t: Tid)
      requires Valid() && MutexSpec.Legal(M(), MutexSpec.TimeOut(t))
      modifies sched`tcb, sched`lists, sched`readyGroup, sched`readyTable
      ensures Valid() && M() == MutexSpec.Step(old(M()), MutexSpec.TimeOut(t), byPriority)
      ensures t in sched.tcb && sched.tcb[t].stat == Ready && sched.tcb[t].error == ETIMEDOUT
    {
      ghost var k := sched.K();
      WaitersKnown(k, id);
      TimeOutView(k, t, id);
      TimeOutCoherent(M(), t);
      hide Threads.Inv, Coherent, TimeOutThread;
      sched.OnTimeout(t);
    }

    lemma TimeOutCoherent(m: Mutex, t: Tid)
      requires Coherent(m)
      ensures Coherent(m.(waiters := Without(m.waiters, t)))
    {
      hide Without;
    }

  }
}
