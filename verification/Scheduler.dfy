/** The scheduler's own variables and the thread calls as they rewrite them, one interrupt-disabled
    region at a time; each is proved to be the step of Threads that bears its name. */
module Scheduler {
  import opened Bits
  import opened ReadyBits
  import opened Lists
  import opened Threads
  import ThreadsExact
  import Regions = ThreadRegions

  class Scheduler {
    const levels: nat                           // RT_THREAD_PRIORITY_MAX
    var tcb: map<Tid, Tcb>                      // the thread objects
    var lists: map<ListId, seq<Tid>>            // every list a thread's node can be on
    var readyGroup: nat                         // rt_thread_ready_priority_group
    var readyTable: seq<nat>                    // rt_thread_ready_table
    var current: Tid
    var lockNest: int

    ghost function K(): Kernel
      reads this
    {
      Kernel(levels, tcb, lists, Bitmap(levels > 32, readyGroup, readyTable))
    }

    ghost predicate Valid()
      reads this
    {
      Inv(K())
    }

    constructor (n: nat, threads: map<Tid, Tcb>, objects: set<nat>)
      requires 0 < n <= 256 && forall t :: t in threads ==> threads[t].stat == Init
      ensures Valid() && levels == n && tcb == threads && lockNest == 0
      ensures forall l :: l in lists ==> lists[l] == []
      ensures forall o :: o in objects ==> WaitQ(o) in lists
    {
      levels, tcb, current, lockNest := n, threads, 0, 0;
      readyGroup, readyTable := 0, if n > 32 then seq(32, _ => 0) else [];
      var ids := {Defunct} + (set o | o in objects :: WaitQ(o)) + (set p | 0 <= p < n :: ReadyQ(p));
      lists := map l | l in ids :: [];
      new;
      NothingReady(K());
    }

    method RemoveThread(t: Tid)
      requires t in tcb && (levels > 32 ==> tcb[t].masks.number < |readyTable|)
               && ReadyQ(tcb[t].currentPriority) in lists
      modifies this`lists, this`readyGroup, this`readyTable
      ensures K() == Remove(old(K()), t)
    {
      lists := Unlink(lists, t);
      if lists[ReadyQ(tcb[t].currentPriority)] == [] {
        var m := tcb[t].masks;
        if levels > 32 {
          readyTable := readyTable[m.number := AndNot(readyTable[m.number], m.highMask)];
          if readyTable[m.number] == 0 {
            readyGroup := AndNot(readyGroup, m.numberMask);
          }
        } else {
          readyGroup := AndNot(readyGroup, m.numberMask);
        }
      }
    }

    method InsertThread(t: Tid)
      requires t in tcb && (levels > 32 ==> tcb[t].masks.number < |readyTable|)
               && ReadyQ(tcb[t].currentPriority) in lists
      modifies this`tcb, this`lists, this`readyGroup, this`readyTable
      ensures K() == InsertReady(old(K()), t)
    {
      tcb := tcb[t := tcb[t].(stat := Ready)];
      var q := ReadyQ(tcb[t].currentPriority);
      lists := lists[q := lists[q] + [t]];
      var m := tcb[t].masks;
      if levels > 32 {
        readyTable := readyTable[m.number := Or(readyTable[m.number], m.highMask)];
      }
      readyGroup := Or(readyGroup, m.numberMask);
    }

    /** A started thread's cached marks index the table, and its ready queue exists. */
    lemma MarksIndex(k: Kernel, t: Tid)
      requires Sound(k, {}) && Started(k, t)
      ensures ReadyQ(k.tcb[t].currentPriority) in k.lists
      ensures k.levels > 32 ==> k.tcb[t].masks.number < |k.bits.table|
    {
      hide NodesOnce, ListedAgree, ReadyListed, Bitmap.Marked;
    }

    method SetPriorityOf(t: Tid, p: nat)
      requires t in tcb
      modifies this`tcb
      ensures K() == SetPriority(old(K()), t, p)
    {
      var m := if levels > 32 then Masks(p / 8, Pow2(p / 8), Pow2(p % 8)) else Masks(0, Pow2(p), 0);
      tcb := tcb[t := tcb[t].(currentPriority := p, masks := m)];
    }

    method ChangePriorityOf(t: Tid, p: nat)
      requires Valid() && Legal(K(), DoPriority(t, p))
      modifies this`tcb, this`lists, this`readyGroup, this`readyTable
      ensures Valid() && K() == ChangePriority(old(K()), t, p)
    {
      hide Inv, Remove, InsertReady;
      ChangePriorityKeeps(K(), t, p);
      PriorityFits(K(), t, p);
      if tcb[t].stat == Ready {
        RemoveThread(t);
        SetPriorityOf(t, p);
        InsertThread(t);
      } else {
        SetPriorityOf(t, p);
      }
    }

    lemma PriorityFits(k: Kernel, t: Tid, p: nat)
      requires Inv(k) && Started(k, t) && p < k.levels
      ensures ReadyQ(k.tcb[t].currentPriority) in k.lists && ReadyQ(p) in k.lists
      ensures k.bits.wide == (k.levels > 32)
      ensures k.levels > 32 ==> k.tcb[t].masks.number < |k.bits.table| && p / 8 < |k.bits.table|
      ensures var r := Remove(k, t); r.tcb == k.tcb && r.levels == k.levels && r.lists.Keys == k.lists.Keys
                                     && r.bits.wide == k.bits.wide && |r.bits.table| == |k.bits.table|
    {
      MarksIndex(k, t);
      RemoveTcb(k, t);
      hide NodesOnce, ListedAgree, ReadyListed, Bitmap.Marked;
    }

    method SuspendCall(t: Tid) returns (ok: bool)
      requires Valid() && Legal(K(), DoSuspend(t))
      modifies this`tcb, this`lists, this`readyGroup, this`readyTable
      ensures Valid() && K() == SuspendThread(old(K()), t) && ok == (old(tcb)[t].stat == Ready)
    {
      hide Inv, Remove;
      SuspendKeeps(K(), t);
      if tcb[t].stat != Ready {
        return false;
      }
      InvIsSound(K());
      MarksIndex(K(), t);
      tcb := tcb[t := tcb[t].(stat := Suspend)];
      RemoveThread(t);
      return true;
    }

    /** The first region of rt_thread_resume; the second is InsertThread. */
    method TakeOffList(t: Tid)
      modifies this`lists
      ensures K() == Regions.OffList(old(K()), t)
    {
      lists := Unlink(lists, t);
    }

    /** The last region of rt_thread_detach and rt_thread_delete; the first is RemoveThread. */
    method LayOut(t: Tid)
      requires Defunct in lists
      modifies this`lists
      ensures K() == Bury(old(K()), t)
    {
      lists := lists[Defunct := [t] + lists[Defunct]];
    }

    /** rt_thread_resume, undisturbed between its regions. */
    method ResumeCall(t: Tid) returns (ok: bool)
      requires Valid() && Legal(K(), DoResume(t))
      modifies this`tcb, this`lists, this`readyGroup, this`readyTable
      ensures Valid() && K() == ResumeThread(old(K()), t) && ok == (old(tcb)[t].stat == Suspend)
    {
      hide Inv, InsertReady;
      ResumeKeeps(K(), t);
      if tcb[t].stat != Suspend {
        return false;
      }
      InvIsSound(K());
      MarksIndex(K(), t);
      TakeOffList(t);
      InsertThread(t);
      return true;
    }

    /** rt_thread_startup, up to its call of rt_schedule. */
    method Startup(t: Tid)
      requires Valid() && Legal(K(), DoStart(t))
      modifies this`tcb, this`lists, this`readyGroup, this`readyTable
      ensures Valid() && K() == StartThread(old(K()), t)
      ensures var p := old(tcb)[t].initPriority;
              && ReadyQ(p) in old(lists) && lists == old(lists)[ReadyQ(p) := old(lists)[ReadyQ(p)] + [t]]
              && tcb == old(tcb)[t := old(tcb)[t].(stat := Ready, currentPriority := p,
                                                   masks := MasksOf(levels > 32, p))]
    {
      hide Inv, InsertReady;
      ThreadsExact.StartExactly(K(), t);
      StartKeeps(K(), t);
      StartedSound(K(), t);
      SetPriorityOf(t, tcb[t].initPriority);
      tcb := tcb[t := tcb[t].(stat := Suspend)];
      MarksIndex(K(), t);
      lists := Unlink(lists, t);
      InsertThread(t);
    }

    lemma StartedSound(k: Kernel, t: Tid)
      requires Inv(k) && Legal(k, DoStart(t))
      ensures var m := SetStat(SetPriority(k, t, k.tcb[t].initPriority), t, Suspend); Sound(m, {}) && Started(m, t)
    {
      hide NodesOnce, Bitmap.Marked, Bitmap.WellFormed;
    }

    /** rt_thread_timeout, up to its call of rt_schedule. */
    method OnTimeout(t: Tid)
      requires Valid() && Legal(K(), DoTimeOut(t))
      modifies this`tcb, this`lists, this`readyGroup, this`readyTable
      ensures Valid() && K() == TimeOutThread(old(K()), t)
    {
      hide Inv, InsertReady;
      TimeOutKeeps(K(), t);
      InvIsSound(K());
      MarksIndex(K(), t);
      tcb := tcb[t := tcb[t].(error := ETIMEDOUT)];
      lists := Unlink(lists, t);
      InsertThread(t);
    }

    /** rt_thread_yield, up to its call of rt_schedule; a node has other neighbours than the list head
        on both sides exactly when its queue is longer than one. */
    method Yield(t: Tid) returns (moved: bool)
      requires Valid() && Legal(K(), DoYield(t))
      modifies this`lists
      ensures Valid() && K() == YieldThread(old(K()), t)
    {
      hide Inv;
      YieldKeeps(K(), t);
      InvIsSound(K());
      MarksIndex(K(), t);
      var q := ReadyQ(tcb[t].currentPriority);
      moved := tcb[t].stat == Ready && |lists[q]| > 1;
      if moved {
        lists := Unlink(lists, t);
        lists := lists[q := lists[q] + [t]];
      }
    }

    /** Exit of a started thread; detach and delete, undisturbed between their regions. */
    method CloseCall(t: Tid, kept: bool)
      requires Valid() && Legal(K(), DoClose(t, kept))
      modifies this`tcb, this`lists, this`readyGroup, this`readyTable
      ensures Valid() && K() == CloseThread(old(K()), t, kept)
    {
      hide Inv, Remove;
      CloseKeeps(K(), t, kept);
      InvIsSound(K());
      MarksIndex(K(), t);
      RemoveTcb(K(), t);
      HasDefunct(K());
      RemoveThread(t);
      tcb := tcb[t := tcb[t].(stat := Close)];
      if kept {
        LayOut(t);
      }
    }

    lemma HasDefunct(k: Kernel)
      requires Inv(k)
      ensures Defunct in k.lists
    {
      hide NodesOnce, ListedAgree, ReadyListed, MasksSound, BitsSound;
    }

    /** rt_ipc_list_suspend: suspend, then link at the end, or by priority. */
    method SuspendOnList(t: Tid, o: nat, byPriority: bool)
      requires Valid() && Legal(K(), DoWait(t, o, byPriority))
      modifies this`tcb, this`lists, this`readyGroup, this`readyTable
      ensures Valid() && K() == SuspendOn(old(K()), t, o, byPriority)
    {
      hide Inv, Remove, WaitPlace;
      SuspendOnKeeps(K(), t, o, byPriority);
      RemoveTcb(SetStat(K(), t, Suspend), t);
      var ok := SuspendCall(t);
      var w := lists[WaitQ(o)];
      var i := |w|;
      if byPriority {
        i := FindPlace(w, tcb[t].currentPriority);
      }
      PlaceAtEnd(K(), w, tcb[t].currentPriority);
      lists := lists[WaitQ(o) := w[..i] + [t] + w[i..]];
    }

    /** The scan for the first waiter of a strictly greater priority number. */
    method FindPlace(w: seq<Tid>, p: nat) returns (i: nat)
      ensures i == WaitPlace(K(), w, p, true)
      ensures forall j :: 0 <= j < i && w[j] in tcb ==> tcb[w[j]].currentPriority <= p
      ensures i < |w| ==> w[i] in tcb && tcb[w[i]].currentPriority > p
    {
      i := 0;
      while i < |w| && !(w[i] in tcb && p < tcb[w[i]].currentPriority)
        invariant i <= |w| && WaitPlace(K(), w, p, true) == i + WaitPlace(K(), w[i..], p, true)
        invariant forall j :: 0 <= j < i && w[j] in tcb ==> tcb[w[j]].currentPriority <= p
        decreases |w| - i
      {
        i := i + 1;
      }
    }

    lemma {:induction false} PlaceAtEnd(k: Kernel, w: seq<Tid>, p: nat)
      ensures WaitPlace(k, w, p, false) == |w|
    {
      if w != [] { PlaceAtEnd(k, w[1..], p); }
    }

    /** rt_ipc_list_resume on a list that is not empty. */
    method ResumeFirst(o: nat)
      requires Valid() && WaitQ(o) in lists && lists[WaitQ(o)] != []
      modifies this`tcb, this`lists, this`readyGroup, this`readyTable
      ensures Valid() && old(lists)[WaitQ(o)][0] in old(tcb)
      ensures K() == ResumeThread(old(K()), old(lists)[WaitQ(o)][0])
    {
      var t := lists[WaitQ(o)][0];
      WaiterIs(K(), o, t);
      hide Inv, ResumeThread;
      var ok := ResumeCall(t);
    }

    lemma WaiterIs(k: Kernel, o: nat, t: Tid)
      requires Inv(k) && WaitQ(o) in k.lists && t in k.lists[WaitQ(o)]
      ensures Started(k, t) && k.tcb[t].stat == Suspend
    {
      hide NodesOnce, ReadyListed, MasksSound, BitsSound;
    }

    /** rt_schedule: with the scheduler unlocked, some thread being ready, the most urgent one runs. */
    method Schedule()
      requires Valid() && exists p: nat :: p < levels && lists[ReadyQ(p)] != []
      modifies this`current
      ensures lockNest != 0 ==> current == old(current)
      ensures lockNest == 0 ==>
                && current == Choose(K()) && current in tcb && tcb[current].stat == Ready
                && lists[ReadyQ(tcb[current].currentPriority)][0] == current
                && forall u :: u in tcb && tcb[u].stat == Ready ==>
                     tcb[current].currentPriority <= tcb[u].currentPriority
    {
      hide Inv, Ffs, Bitmap.Marked, BitsSound;
      ghost var p := SomeReady(K());
      InvIsSound(K());
      ChoiceIsUrgent(K());
      BitsFit(K(), p);
      GroupFits(K(), p);
      if lockNest == 0 {
        var highest;
        if levels <= 32 {
          highest := Ffs(readyGroup) - 1;
        } else {
          var number := Ffs(readyGroup) - 1;
          highest := 8 * number + Ffs(readyTable[number]) - 1;
        }
        var to := lists[ReadyQ(highest)][0];
        if to != current {
          current := to;
        }
      }
    }

    lemma SomeReady(k: Kernel) returns (p: nat)
      requires Inv(k) && exists p: nat :: p < k.levels && k.lists[ReadyQ(p)] != []
      ensures p < k.levels && ReadyQ(p) in k.lists && k.lists[ReadyQ(p)] != []
    {
      hide NodesOnce, ListedAgree, ReadyListed, MasksSound;
      p :| p < k.levels && k.lists[ReadyQ(p)] != [];
    }

    lemma BitsFit(k: Kernel, p: nat)
      requires Inv(k) && p < k.levels && k.lists[ReadyQ(p)] != []
      ensures k.bits.wide == (k.levels > 32) && k.bits.WellFormed()
      ensures var h := Highest(k.bits); h >= 0 && ReadyQ(h) in k.lists && k.lists[ReadyQ(h)] != []
    {
      hide NodesOnce, ListedAgree, ReadyListed, MasksSound, Ffs, Bit, Bitmap.Marked, Highest;
      HighestIsLeast(k.bits, p);
    }

    lemma GroupFits(k: Kernel, p: nat)
      requires Inv(k) && p < k.levels && k.lists[ReadyQ(p)] != []
      ensures k.levels > 32 ==> 0 <= Ffs(k.bits.group) - 1 < 32
    {
      hide NodesOnce, ListedAgree, ReadyListed, MasksSound, Ffs, Bit, Lowest;
      if k.levels > 32 {
        if k.bits.table[p / 8] == 0 { ZeroBit(p % 8); }
        FirstSet(k.bits.group, p / 8);
      }
    }

    method EnterCritical()
      modifies this`lockNest
      ensures lockNest == old(lockNest) + 1
    {
      lockNest := lockNest + 1;
    }

    /** Leaving the outermost level schedules; leaving more often than entering does no harm. */
    method ExitCritical()
      requires Valid() && exists p: nat :: p < levels && lists[ReadyQ(p)] != []
      modifies this`lockNest, this`current
      ensures lockNest == if old(lockNest) <= 1 then 0 else old(lockNest) - 1
      ensures Valid() && K() == old(K())
      ensures current == if old(lockNest) <= 1 then Choose(K()) else old(current)
    {
      lockNest := lockNest - 1;
      if lockNest <= 0 {
        lockNest := 0;
        Schedule();
      }
    }
  }

  lemma InvIsSound(k: Kernel)
    requires Inv(k)
    ensures Sound(k, {})
  {
    hide Sound;
  }

  lemma NothingReady(k: Kernel)
    requires 0 < k.levels <= 256 && k.bits == Empty(k.levels > 32) && (forall l :: l in k.lists ==> k.lists[l] == [])
    requires Defunct in k.lists && (forall p: nat :: p < k.levels ==> ReadyQ(p) in k.lists)
    requires forall t :: t in k.tcb ==> k.tcb[t].stat == Init
    ensures Inv(k)
  {
    forall i: nat ensures !Bit(0, i) { ZeroBit(i); }
    hide Bit;
  }
}
