/** Each outcome of a take and a release of a mutex in full, for both flags and for takes that do not wait. */
module MutexExact {
  import opened Lists
  import opened Threads
  import opened WaitLists
  import opened WaitOrder
  import opened MutexSpec

  function Least(a: nat, b: nat): nat { if a <= b then a else b }

  /** A free mutex is taken whether or not the caller would wait; the owner nests; anyone else joins the waiters if it
      would wait, lifting the owner to its own priority if that is more urgent, and otherwise nothing happens. */
  lemma TakeExactly(m: Mutex, t: Tid, wait: bool, byPriority: bool)
    requires Coherent(m) && MutexSpec.Legal(m, Take(t, wait))
    ensures var r := TakeIt(m, t, wait, byPriority);
            match m.owner
            case Nobody =>
              && r.owner == Held(t) && r.hold == 1 && r.value == 0 && r.original == m.prio[t]
              && r.prio == m.prio && r.waiters == m.waiters
            case Held(o) =>
              if o == t then r == m.(hold := m.hold + 1)
              else if !wait then r == m
              else
                && r.owner == m.owner && r.hold == m.hold && r.value == m.value && r.original == m.original
                && t in r.waiters && Without(r.waiters, t) == m.waiters
                && r.prio == m.prio[o := Least(m.prio[o], m.prio[t])]
  {
    if m.owner.Held? && m.owner.thread != t && wait {
      EnqueueWithout(m.waiters, t, Boost(m.prio, m.owner.thread, m.prio[t]), byPriority);
      hide Without, Enqueue;
    }
    hide Distinct;
  }

  /** A release by another than the owner does nothing; a nested one lowers the count; the outermost gives the owner its
      priority back, and the mutex to the first waiter at that one's own priority, or sets it free. */
  lemma ReleaseExactly(m: Mutex, t: Tid)
    requires Coherent(m)
    ensures var r := ReleaseIt(m, t);
            if m.owner != Held(t) then r == m
            else if m.hold > 1 then r == m.(hold := m.hold - 1)
            else
              && t in m.prio && r.prio == m.prio[t := m.original]
              && (m.waiters == [] ==> r.owner == Nobody && r.value == 1 && r.hold == 0 && r.waiters == [])
              && (m.waiters != [] ==>
                   && r.owner == Held(m.waiters[0]) && r.value == 0 && r.hold == 1 && r.waiters == m.waiters[1..]
                   && m.waiters[0] in r.prio && r.original == r.prio[m.waiters[0]])
  {
    hide Distinct;
    if m.waiters != [] { assert m.waiters[0] in m.waiters; }
  }

  /** While two threads wait they never change places, whatever is called. */
  lemma WaitersKeepPlaces(m: Mutex, c: MutexSpec.Call, byPriority: bool, u: Tid, t: Tid)
    requires Coherent(m) && MutexSpec.Legal(m, c) && u in m.waiters && t in m.waiters
    requires var r := MutexSpec.Step(m, c, byPriority); u in r.waiters && t in r.waiters
    ensures InFront(MutexSpec.Step(m, c, byPriority).waiters, u, t) <==> InFront(m.waiters, u, t)
  {
    var r := MutexSpec.Step(m, c, byPriority);
    match c
    case Take(v, wait) =>
      TakeExactly(m, v, wait, byPriority);
      WithoutFront(r.waiters, v, u, t);
      hide InFront, Enqueue, Without, Distinct, TakeIt;
    case Release(v) =>
      ReleaseExactly(m, v);
      if r.waiters != m.waiters {
        HeadOut(m.waiters);
        WithoutFront(m.waiters, m.waiters[0], u, t);
      }
      hide InFront, Without, ReleaseIt;
    case TimeOut(v) =>
      WithoutFront(m.waiters, v, u, t);
      hide InFront, Without;
  }
}
