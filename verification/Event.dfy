/** The event object and its calls, on top of the scheduler; each is proved to be its step in EventSpec. */
module EventObject {
  import opened Lists
  import opened ReadyBits
  import opened Threads
  import Sched = Scheduler
  import opened WaitLists
  import opened EventSpec

  datatype Reply = Received(bits: bv32) | NotNow | Blocked | NoFlags

  const EERROR := -1

  function Wants(k: Kernel): map<Tid, Want> { map t | t in k.tcb :: Want(k.tcb[t].eventSet, k.tcb[t].eventInfo) }

  /** A thread's event fields are nobody's business but the events'. */
  function WithWant(k: Kernel, t: Tid, w: Want): Kernel
    requires t in k.tcb
  {
    k.(tcb := k.tcb[t := k.tcb[t].(eventSet := w.bits, eventInfo := w.opts)])
  }

  lemma WantKeeps(k: Kernel, t: Tid, w: Want)
    requires Threads.Inv(k) && t in k.tcb
    ensures Threads.Inv(WithWant(k, t, w))
  {
    hide NodesOnce, Bitmap.Marked, Bitmap.WellFormed;
  }

  lemma WantView(k: Kernel, t: Tid, w: Want, o: nat)
    requires t in k.tcb
    ensures SameView(k, WithWant(k, t, w), o) && Wants(WithWant(k, t, w)) == Wants(k)[t := w]
    ensures Priorities(WithWant(k, t, w)) == Priorities(k) && Waiters(WithWant(k, t, w), o) == Waiters(k, o)
  {
  }

  lemma ErrorWants(k: Kernel, t: Tid, e: int)
    requires t in k.tcb
    ensures Wants(k.(tcb := k.tcb[t := k.tcb[t].(error := e)])) == Wants(k)
  {
  }

  lemma ResumeWants(k: Kernel, t: Tid)
    requires t in k.tcb
    ensures Wants(ResumeThread(k, t)) == Wants(k)
  {
  }

  lemma TimeOutWants(k: Kernel, t: Tid)
    requires t in k.tcb
    ensures Wants(TimeOutThread(k, t)) == Wants(k)
  {
    var e := k.(tcb := k.tcb[t := k.tcb[t].(error := ETIMEDOUT)]);
    ErrorWants(k, t, ETIMEDOUT);
    ResumeWants(e, t);
    hide Wants, ResumeThread;
  }

  lemma SuspendWants(k: Kernel, t: Tid, o: nat, byPriority: bool)
    requires t in k.tcb
    ensures Wants(SuspendOn(k, t, o, byPriority)) == Wants(k)
  {
    hide WaitPlace;
  }

  lemma WantAt(k: Kernel, t: Tid)
    requires t in k.tcb
    ensures t in Wants(k) && Wants(k)[t] == Want(k.tcb[t].eventSet, k.tcb[t].eventInfo)
  {
  }

  class EventObject {
    const sched: Sched.Scheduler
    const id: nat                  // names the event's suspend list
    const byPriority: bool         // RT_IPC_FLAG_PRIO or RT_IPC_FLAG_FIFO
    var bits: bv32

    ghost function E(): Event
      reads this, sched
    {
      Event(bits, Waiters(sched.K(), id), Wants(sched.K()))
    }

    ghost predicate Sited()
      reads this, sched
    {
      sched.Valid() && WaitQ(id) in sched.lists
    }

    ghost predicate Valid()
      reads this, sched
    {
      Sited() && EventSpec.Inv(E())
    }

    constructor (s: Sched.Scheduler, o: nat, prio: bool)
      requires s.Valid() && WaitQ(o) in s.lists && s.lists[WaitQ(o)] == []
      ensures sched == s && id == o && byPriority == prio && Valid() && E() == Fresh(Wants(s.K()))
    {
      sched, id, byPriority, bits := s, o, prio, 0;
    }

    /** rt_event_send, up to its call of rt_schedule. */
    method Send(flags: bv32) returns (done: bool)
      requires Valid()
      modifies this`bits, sched`tcb, sched`lists, sched`readyGroup, sched`readyTable
      ensures Valid() && E() == SendIt(old(E()), flags) && done == (flags != 0)
    {
      SendKeeps(E(), flags);
      hide Threads.Inv, EventSpec.Inv, WalkFrom, Waiters, Wants, Both;
      if flags == 0 {
        return false;
      }
      bits := Both(bits, flags);
      Walk();
      return true;
    }

    method Walk()
      requires Sited()
      modifies this`bits, sched`tcb, sched`lists, sched`readyGroup, sched`readyTable
      ensures Sited() && E() == WalkFrom(old(E()), 0)
    {
      ListIsWaiters();
      hide Threads.Inv, Satisfied, Wake, E, Wants, Waiters;
      var i: nat := 0;
      while i < |sched.lists[WaitQ(id)]|
        invariant Sited() && i <= |E().waiters| && E().waiters == sched.lists[WaitQ(id)]
        invariant WalkFrom(E(), i) == WalkFrom(old(E()), 0)
        decreases |sched.lists[WaitQ(id)]| - i
      {
        i := Visit(i);
        ListIsWaiters();
      }
    }

    lemma ListIsWaiters()
      requires Sited()
      ensures WaitQ(id) in sched.lists && E().waiters == sched.lists[WaitQ(id)] && Distinct(E().waiters)
    {
      Once(sched.K(), id);
    }

    /** One turn of the walk: where it goes on, and what it did. */
    method Visit(i: nat) returns (next: nat)
      requires Sited() && i < |E().waiters|
      modifies this`bits, sched`tcb, sched`lists, sched`readyGroup, sched`readyTable
      ensures Sited()
      ensures var e := old(E());
              if Satisfied(WantOf(e, e.waiters[i]), e.bits) then next == i && E() == Wake(e, i)
              else next == i + 1 && E() == e
      ensures |E().waiters| == |old(E()).waiters| - (if next == i then 1 else 0)
    {
      ListIsWaiters();
      WaitersKnown(sched.K(), id);
      var t := sched.lists[WaitQ(id)][i];
      WantAt(sched.K(), t);
      WithoutAt(E().waiters, i);
      hide Threads.Inv, Wants, Waiters, Without, Satisfied, Given, Cleared;
      var ok, w := Judge(Want(sched.tcb[t].eventSet, sched.tcb[t].eventInfo), bits);
      next := i + 1;
      if ok {
        if Clears(w) {
          bits := Cleared(bits, w.bits);
        }
        assert bits == Cleared(old(bits), Eats(w)) by { NothingCleared(old(bits)); }
        Rouse(t, w);
        next := i;
      }
    }

    lemma NothingCleared(b: bv32)
      ensures Cleared(b, 0) == b
    {
    }

    /** Whether the flags meet a waiting thread's condition, and what its event_set says if they do. */
    method Judge(w: Want, b: bv32) returns (ok: bool, g: Want)
      ensures ok == Satisfied(w, b) && g == if ok then Given(w, b) else w
    {
      hide All, Within, Meets;
      ok, g := false, w;
      if All(w) {
        if Within(w.bits, b) {
          ok := true;
        }
      } else if Any(w) {
        if Meets(w.bits, b) {
          g := w.(bits := w.bits & b);
          ok := true;
        }
      }
    }

    /** The waiter leaves the list with what it got. */
    method Rouse(t: Tid, w: Want)
      requires Sited() && t in E().waiters
      modifies sched`tcb, sched`lists, sched`readyGroup, sched`readyTable
      ensures Sited() && E() == old(E()).(waiters := Without(old(E()).waiters, t), want := old(E()).want[t := w])
      ensures t in sched.tcb && sched.tcb[t].stat == Ready
    {
      ghost var k := sched.K();
      WaitersKnown(k, id);
      WantKeeps(k, t, w);
      WantView(k, t, w, id);
      hide Threads.Inv, Wants, Without;
      ResumeView(WithWant(k, t, w), t, id);
      ResumeWants(WithWant(k, t, w), t);
      hide Waiters, ResumeThread, SameView, Priorities;
      sched.tcb := sched.tcb[t := sched.tcb[t].(eventSet := w.bits, eventInfo := w.opts)];
      var ok := sched.ResumeCall(t);
    }

    /** rt_event_recv by the running thread t, up to its call of rt_schedule. */
    method Recv(t: Tid, w: Want, wait: bool) returns (r: Reply)
      requires Valid() && t in sched.tcb && sched.tcb[t].stat == Ready
               && EventSpec.Legal(E(), EventSpec.Recv(t, w, wait))
      modifies this`bits, sched`tcb, sched`lists, sched`readyGroup, sched`readyTable
      ensures Valid() && E() == RecvIt(old(E()), t, w, wait, Priorities(old(sched.K())), byPriority)
      ensures r == if w.bits == 0 then NoFlags
                   else if Satisfied(w, old(bits)) then Received(Given(w, old(bits)).bits)
                   else if wait then Blocked else NotNow
      ensures t in sched.tcb && sched.tcb[t].stat == if r == Blocked then Suspend else Ready
      ensures r != NoFlags ==> sched.tcb[t].error == if r == NotNow then ETIMEDOUT else 0
    {
      RecvKeeps(E(), t, w, wait, Priorities(sched.K()), byPriority);
      hide Threads.Inv, EventSpec.Inv, Satisfied, Given, Waiters, Wants, Priorities, Enqueue, SameView, E, Eats;
      if w.bits == 0 {
        return NoFlags;
      }
      SetError(t, 0);
      var ok, g := Judge(w, bits);
      if ok {
        Spend(w);
        r := Received(g.bits);
      } else if !wait {
        SetError(t, ETIMEDOUT);
        r := NotNow;
      } else {
        Block(t, w);
        r := Blocked;
      }
    }

    method SetError(t: Tid, e: int)
      requires Sited() && t in sched.tcb
      modifies sched`tcb
      ensures Sited() && E() == old(E()) && Priorities(sched.K()) == Priorities(old(sched.K()))
      ensures sched.tcb == old(sched.tcb)[t := old(sched.tcb)[t].(error := e)]
    {
      ErrorKeeps(sched.K(), t, e);
      ErrorView(sched.K(), t, e, id);
      ErrorWants(sched.K(), t, e);
      hide Threads.Inv, Priorities, Waiters, Wants, SameView;
      sched.tcb := sched.tcb[t := sched.tcb[t].(error := e)];
    }

    method Spend(w: Want)
      requires Sited()
      modifies this`bits
      ensures Sited() && E() == old(E()).(bits := Cleared(old(bits), Eats(w)))
    {
      NothingCleared(bits);
      hide Threads.Inv, Waiters, Wants, Cleared;
      if Clears(w) {
        bits := Cleared(bits, w.bits);
      }
    }

    method Block(t: Tid, w: Want)
      requires Sited() && Started(sched.K(), t) && sched.tcb[t].stat == Ready
      modifies sched`tcb, sched`lists, sched`readyGroup, sched`readyTable
      ensures Sited() && E() == Enlist(old(E()), t, w, Priorities(old(sched.K())), byPriority)
      ensures t in sched.tcb && sched.tcb[t].stat == Suspend && sched.tcb[t].error == old(sched.tcb)[t].error
    {
      WantKeeps(sched.K(), t, w);
      WantAllowed(sched.K(), t, w, id);
      BlockView(sched.K(), t, w, id, byPriority);
      hide Threads.Inv, Wants, Waiters, SuspendOn, Priorities, Enqueue;
      sched.tcb := sched.tcb[t := sched.tcb[t].(eventSet := w.bits, eventInfo := w.opts)];
      sched.SuspendOnList(t, id, byPriority);
    }

    lemma WantAllowed(k: Kernel, t: Tid, w: Want, o: nat)
      requires t in k.tcb && k.tcb[t].stat == Ready && WaitQ(o) in k.lists
      ensures Threads.Legal(WithWant(k, t, w), DoWait(t, o, byPriority))
    {
    }

    lemma BlockView(k: Kernel, t: Tid, w: Want, o: nat, byPriority: bool)
      requires Threads.Inv(k) && Started(k, t) && k.tcb[t].stat == Ready && WaitQ(o) in k.lists
      ensures var r := SuspendOn(WithWant(k, t, w), t, o, byPriority);
              && WaitQ(o) in r.lists && Waiters(r, o) == Enqueue(Waiters(k, o), t, Priorities(k), byPriority)
              && Wants(r) == Wants(k)[t := w]
              && t in r.tcb && r.tcb[t].stat == Suspend && r.tcb[t].error == k.tcb[t].error
    {
      WantKeeps(k, t, w);
      WantView(k, t, w, o);
      hide Threads.Inv, Wants, Waiters, SameView, Priorities, Enqueue;
      SuspendView(WithWant(k, t, w), t, o, byPriority);
      SuspendWants(WithWant(k, t, w), t, o, byPriority);
      SuspendError(WithWant(k, t, w), t, o, byPriority);
      hide SuspendOn;
    }

    lemma SuspendError(k: Kernel, t: Tid, o: nat, byPriority: bool)
      requires t in k.tcb
      ensures var r := SuspendOn(k, t, o, byPriority); t in r.tcb && r.tcb[t].error == k.tcb[t].error
    {
      hide WaitPlace;
    }

    /** The timer of a waiting thread runs out. */
    method OnTimeout(t: Tid)
      requires Valid() && t in E().waiters
      modifies sched`tcb, sched`lists, sched`readyGroup, sched`readyTable
      ensures Valid() && E() == old(E()).(waiters := Without(old(E()).waiters, t))
      ensures t in sched.tcb && sched.tcb[t].stat == Ready && sched.tcb[t].error == ETIMEDOUT
    {
      hide Threads.Inv, EventSpec.Inv, Wants, Waiters, Without, TimeOutThread;
      EventSpec.TimeOutKeeps(E(), t);
      TimeOutSeen(sched.K(), t, id);
      sched.OnTimeout(t);
    }

    lemma TimeOutSeen(k: Kernel, t: Tid, o: nat)
      requires Threads.Inv(k) && WaitQ(o) in k.lists && t in Waiters(k, o)
      ensures t in k.tcb && Threads.Legal(k, DoTimeOut(t)) && k.tcb[t].stat == Suspend
      ensures var r := TimeOutThread(k, t);
              && WaitQ(o) in r.lists && Waiters(r, o) == Without(Waiters(k, o), t) && Wants(r) == Wants(k)
              && t in r.tcb && r.tcb[t].stat == Ready && r.tcb[t].error == ETIMEDOUT
    {
      WaitersKnown(k, o);
      TimeOutView(k, t, o);
      TimeOutWants(k, t);
      hide Threads.Inv, Wants, Waiters, Without, Priorities, TimeOutThread;
    }

    /** RT_IPC_CMD_RESET, up to its call of rt_schedule: every waiter leaves with an error. */
    method Reset()
      requires Valid()
      modifies this`bits, sched`tcb, sched`lists, sched`readyGroup, sched`readyTable
      ensures Valid() && E() == old(E()).(bits := 0, waiters := [])
      ensures forall t :: t in old(E()).waiters ==> Out(t)
    {
      ExpelAll();
      hide Threads.Inv, Satisfied, Wants, Waiters;
      SetBits(0);
    }

    /** rt_ipc_list_resume_all */
    method ExpelAll()
      requires Sited()
      modifies sched`tcb, sched`lists, sched`readyGroup, sched`readyTable
      ensures Sited() && E() == old(E()).(waiters := [])
      ensures forall t :: t in old(E()).waiters ==> Out(t)
    {
      ListIsWaiters();
      hide Sited, E, Distinct, Out;
      while sched.lists[WaitQ(id)] != []
        invariant WaitQ(id) in sched.lists && Sited() && E().waiters == sched.lists[WaitQ(id)]
        invariant E() == old(E()).(waiters := E().waiters)
        invariant forall t :: t in old(E()).waiters ==> t in E().waiters || Out(t)
        decreases |sched.lists[WaitQ(id)]|
      {
        Expel();
        ListIsWaiters();
      }
    }

    /** Thread t was sent away with an error. */
    ghost predicate Out(t: Tid)
      reads sched
    {
      t in sched.tcb && sched.tcb[t].stat == Ready && sched.tcb[t].error == EERROR
    }

    method SetBits(b: bv32)
      requires Sited()
      modifies this`bits
      ensures Sited() && E() == old(E()).(bits := b)
    {
      hide Threads.Inv, Wants, Waiters;
      bits := b;
    }

    /** One turn of rt_ipc_list_resume_all. */
    method Expel()
      requires Sited() && E().waiters != []
      modifies sched`tcb, sched`lists, sched`readyGroup, sched`readyTable
      ensures Sited() && E() == old(E()).(waiters := old(E()).waiters[1..])
      ensures forall t :: old(Out(t)) || t == old(E()).waiters[0] ==> Out(t)
      ensures forall t :: t in old(E()).waiters ==> t in E().waiters || t == old(E()).waiters[0]
    {
      hide Threads.Inv, Wants, Without, Distinct, Priorities, ResumeThread, SameView;
      ghost var k := sched.K();
      var t := sched.lists[WaitQ(id)][0];
      WaitersKnown(k, id);
      Once(k, id);
      HeadOut(Waiters(k, id));
      ErrorKeeps(k, t, EERROR);
      ErrorView(k, t, EERROR, id);
      ErrorWants(k, t, EERROR);
      ghost var l := k.(tcb := k.tcb[t := k.tcb[t].(error := EERROR)]);
      ResumeView(l, t, id);
      ResumeWants(l, t);
      ResumeErrors(l, t);
      sched.tcb := sched.tcb[t := sched.tcb[t].(error := EERROR)];
      var ok := sched.ResumeCall(t);
    }

    lemma ResumeErrors(k: Kernel, t: Tid)
      requires t in k.tcb
      ensures forall u :: u in k.tcb ==>
                u in ResumeThread(k, t).tcb && ResumeThread(k, t).tcb[u].error == k.tcb[u].error
    {
    }
  }
}
