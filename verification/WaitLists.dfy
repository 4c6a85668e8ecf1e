/** The suspend list of an IPC object: its order, and how the scheduler's calls show in it. */
module WaitLists {
  import opened Lists
  import opened ReadyBits
  import opened Threads

  ghost predicate Sorted(s: seq<Tid>, prio: map<Tid, nat>) {
    (forall t :: t in s ==> t in prio) && forall i, j :: 0 <= i < j < |s| ==> prio[s[i]] <= prio[s[j]]
  }

  function PrioOf(prio: map<Tid, nat>, t: Tid): nat { if t in prio then prio[t] else 0 }

  /** Before the first waiter of a strictly greater number (RT_IPC_FLAG_PRIO), or at the end (RT_IPC_FLAG_FIFO). */
  function Enqueue(s: seq<Tid>, t: Tid, prio: map<Tid, nat>, byPriority: bool): (r: seq<Tid>)
    ensures forall u :: u in r <==> u in s || u == t
    ensures |r| == |s| + 1
  {
    if s == [] then [t]
    else if byPriority && PrioOf(prio, t) < PrioOf(prio, s[0]) then [t] + s
    else [s[0]] + Enqueue(s[1..], t, prio, byPriority)
  }

  lemma {:induction false} EnqueueDistinct(s: seq<Tid>, t: Tid, prio: map<Tid, nat>, byPriority: bool)
    requires Distinct(s) && t !in s
    ensures Distinct(Enqueue(s, t, prio, byPriority))
  {
    if s == [] || (byPriority && PrioOf(prio, t) < PrioOf(prio, s[0])) {
    } else {
      assert s == [s[0]] + s[1..] && s[0] !in s[1..];
      EnqueueDistinct(s[1..], t, prio, byPriority);
    }
  }

  lemma ConsSorted(x: Tid, s: seq<Tid>, prio: map<Tid, nat>)
    requires Sorted(s, prio) && x in prio && forall u :: u in s ==> prio[x] <= prio[u]
    ensures Sorted([x] + s, prio)
  {
  }

  lemma SortedTail(s: seq<Tid>, prio: map<Tid, nat>)
    requires Sorted(s, prio) && s != []
    ensures Sorted(s[1..], prio) && s[0] in prio && forall u :: u in s[1..] ==> u in prio && prio[s[0]] <= prio[u]
  {
    assert s == [s[0]] + s[1..];
  }

  lemma {:induction false} EnqueueSorted(s: seq<Tid>, t: Tid, prio: map<Tid, nat>)
    requires Sorted(s, prio) && t in prio
    ensures Sorted(Enqueue(s, t, prio, true), prio)
  {
    if s == [] || PrioOf(prio, t) < PrioOf(prio, s[0]) {
    } else {
      SortedTail(s, prio);
      hide Sorted;
      EnqueueSorted(s[1..], t, prio);
      ConsSorted(s[0], Enqueue(s[1..], t, prio, true), prio);
    }
  }

  /** What is left of a list after one thread leaves it keeps its order. */
  lemma {:induction false} WithoutSorted(s: seq<Tid>, t: Tid, prio: map<Tid, nat>)
    requires Sorted(s, prio)
    ensures Sorted(Without(s, t), prio)
  {
    hide Distinct;
    if s != [] {
      SortedTail(s, prio);
      hide Sorted;
      WithoutSorted(s[1..], t, prio);
      if s[0] != t { ConsSorted(s[0], Without(s[1..], t), prio); }
    }
  }

  // ----- how the scheduler's calls show in an object's view

  function Priorities(k: Kernel): map<Tid, nat> { map t | t in k.tcb :: k.tcb[t].currentPriority }

  function Waiters(k: Kernel, o: nat): seq<Tid> { if WaitQ(o) in k.lists then k.lists[WaitQ(o)] else [] }

  /** Nothing an IPC object looks at differs: priorities, its waiters, and which threads are started. */
  ghost predicate SameView(k: Kernel, r: Kernel, o: nat) {
    && Priorities(r) == Priorities(k) && Waiters(r, o) == Waiters(k, o)
      && (WaitQ(o) in r.lists <==> WaitQ(o) in k.lists)
    && r.levels == k.levels && r.tcb.Keys == k.tcb.Keys && forall u :: u in k.tcb ==> r.tcb[u].stat == k.tcb[u].stat
  }

  lemma {:induction false} EnqueueAtPlace(k: Kernel, w: seq<Tid>, t: Tid, byPriority: bool)
    requires t in k.tcb && forall u :: u in w ==> u in k.tcb
    ensures var i := WaitPlace(k, w, k.tcb[t].currentPriority, byPriority);
            Enqueue(w, t, Priorities(k), byPriority) == w[..i] + [t] + w[i..]
  {
    if w != [] {
      EnqueueAtPlace(k, w[1..], t, byPriority);
      var i := WaitPlace(k, w[1..], k.tcb[t].currentPriority, byPriority);
      assert [w[0]] + w[1..][..i] == w[..i + 1] && w[1..][i..] == w[i + 1..];
    }
  }

  lemma PriorityKnown(k: Kernel, t: Tid)
    requires Inv(k) && Started(k, t)
    ensures k.tcb[t].currentPriority < k.levels
  {
    hide NodesOnce, ReadyListed, ListedAgree, BitsSound;
  }

  lemma PriorityOf(k: Kernel, t: Tid)
    requires t in k.tcb
    ensures t in Priorities(k) && Priorities(k)[t] == k.tcb[t].currentPriority
  {
  }

  lemma NotWaiting(k: Kernel, t: Tid, o: nat)
    requires Inv(k) && Started(k, t) && k.tcb[t].stat == Ready
    ensures t !in Waiters(k, o)
  {
    hide NodesOnce, ReadyListed, MasksSound, BitsSound;
  }

  lemma WaitersKnown(k: Kernel, o: nat)
    requires Inv(k)
    ensures forall u :: u in Waiters(k, o) ==> Started(k, u) && k.tcb[u].stat == Suspend
  {
    hide NodesOnce, ReadyListed, MasksSound, BitsSound;
  }

  lemma PriorityView(k: Kernel, u: Tid, p: nat, o: nat)
    requires Inv(k) && Started(k, u) && p < k.levels && WaitQ(o) in k.lists
    ensures var r := ChangePriority(k, u, p);
            && Priorities(r) == Priorities(k)[u := p] && Waiters(r, o) == Waiters(k, o) && WaitQ(o) in r.lists
            && r.levels == k.levels && r.tcb.Keys == k.tcb.Keys
              && forall v :: v in k.tcb ==> r.tcb[v].stat == k.tcb[v].stat
  {
    hide Inv, SetMark, ClearMark, MasksOf, Without;
    if k.tcb[u].stat == Ready { NotWaiting(k, u, o); }
  }

  lemma SuspendView(k: Kernel, t: Tid, o: nat, byPriority: bool)
    requires Inv(k) && Started(k, t) && k.tcb[t].stat == Ready && WaitQ(o) in k.lists
    ensures var r := SuspendOn(k, t, o, byPriority);
            && Priorities(r) == Priorities(k) && WaitQ(o) in r.lists
            && Waiters(r, o) == Enqueue(Waiters(k, o), t, Priorities(k), byPriority)
            && r.levels == k.levels && r.tcb.Keys == k.tcb.Keys
            && forall u :: u in k.tcb ==> r.tcb[u].stat == if u == t then Suspend else k.tcb[u].stat
  {
    NotWaiting(k, t, o);
    WaitersKnown(k, o);
    var s := SuspendThread(k, t);
    RemoveTcb(SetStat(k, t, Suspend), t);
    EnqueueAtPlace(s, s.lists[WaitQ(o)], t, byPriority);
    assert Priorities(s) == Priorities(k);
    hide Inv, WaitPlace, Enqueue, ClearMark;
  }

  lemma ResumeView(k: Kernel, t: Tid, o: nat)
    requires Inv(k) && Started(k, t) && WaitQ(o) in k.lists && t in Waiters(k, o)
    ensures var r := ResumeThread(k, t);
            && Priorities(r) == Priorities(k) && WaitQ(o) in r.lists && Waiters(r, o) == Without(Waiters(k, o), t)
            && r.levels == k.levels && r.tcb.Keys == k.tcb.Keys
            && forall u :: u in k.tcb ==> r.tcb[u].stat == if u == t then Ready else k.tcb[u].stat
  {
    WaitersKnown(k, o);
    hide Inv, SetMark, Without;
  }

  lemma ErrorView(k: Kernel, t: Tid, e: int, o: nat)
    requires t in k.tcb
    ensures var r := k.(tcb := k.tcb[t := k.tcb[t].(error := e)]);
            SameView(k, r, o) && Priorities(r) == Priorities(k) && Waiters(r, o) == Waiters(k, o)
  {
  }

  lemma Once(k: Kernel, o: nat)
    requires Inv(k)
    ensures Distinct(Waiters(k, o))
  {
    hide ReadyListed, ListedAgree, MasksSound, BitsSound;
  }

  lemma TimeOutView(k: Kernel, t: Tid, o: nat)
    requires Inv(k) && WaitQ(o) in k.lists && t in Waiters(k, o)
    ensures t in k.tcb
    ensures var r := TimeOutThread(k, t);
            && Priorities(r) == Priorities(k) && WaitQ(o) in r.lists && Waiters(r, o) == Without(Waiters(k, o), t)
            && r.levels == k.levels && r.tcb.Keys == k.tcb.Keys && r.tcb[t].error == ETIMEDOUT
            && forall u :: u in k.tcb ==> r.tcb[u].stat == if u == t then Ready else k.tcb[u].stat
  {
    WaitersKnown(k, o);
    ErrorKeeps(k, t, ETIMEDOUT);
    ErrorView(k, t, ETIMEDOUT, o);
    var e := k.(tcb := k.tcb[t := k.tcb[t].(error := ETIMEDOUT)]);
    hide Inv, Priorities, Waiters, Without;
    ResumeView(e, t, o);
    ResumeError(e, t);
    hide ResumeThread;
  }

  lemma ResumeError(k: Kernel, t: Tid)
    requires t in k.tcb
    ensures var r := ResumeThread(k, t); t in r.tcb && r.tcb[t].error == k.tcb[t].error
  {
  }
}
