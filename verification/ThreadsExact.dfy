/** Each call on a thread in full: what becomes of the thread, that every other thread stays as it is and in its place
    on every list, and where the thread itself ends up. With the invariant this settles the ready bits too. */
module ThreadsExact {
  import opened Lists
  import opened ReadyBits
  import opened Threads
  import opened WaitLists

  /** All other threads are as they were, and stand on every list in the order they had. */
  ghost predicate Beside(k: Kernel, r: Kernel, t: Tid) {
    && r.levels == k.levels && r.tcb.Keys == k.tcb.Keys && r.lists.Keys == k.lists.Keys
    && (forall u :: u in k.tcb && u != t ==> r.tcb[u] == k.tcb[u])
    && (forall l :: l in k.lists ==> Without(r.lists[l], t) == Without(k.lists[l], t))
  }

  /** The thread is the last of its ready queue, and with the invariant on no other list. */
  ghost predicate LastReady(r: Kernel, t: Tid) {
    t in r.tcb && r.tcb[t].stat == Ready
    && var q := ReadyQ(r.tcb[t].currentPriority); q in r.lists && r.lists[q] != [] && r.lists[q][|r.lists[q]| - 1] == t
  }

  lemma {:induction false} WithoutTwice(s: seq<Tid>, t: Tid)
    ensures Without(Without(s, t), t) == Without(s, t) && Without(s + [t], t) == Without(s, t)
    ensures Without([t] + s, t) == Without(s, t)
  {
    hide Distinct;
    if s == [] {
    } else {
      assert (s + [t])[1..] == s[1..] + [t] && ([t] + s)[1..] == s;
      WithoutTwice(s[1..], t);
    }
  }

  lemma UnlinkBeside(k: Kernel, t: Tid)
    ensures forall l :: l in k.lists ==> Without(Unlink(k.lists, t)[l], t) == Without(k.lists[l], t)
  {
    forall l | l in k.lists ensures Without(Unlink(k.lists, t)[l], t) == Without(k.lists[l], t) {
      WithoutTwice(k.lists[l], t);
    }
    hide Without;
  }

  lemma RemoveBeside(k: Kernel, t: Tid)
    requires t in k.tcb
    ensures Beside(k, Remove(k, t), t) && Remove(k, t).tcb == k.tcb
  {
    UnlinkBeside(k, t);
    hide Without;
  }

  lemma InsertBeside(k: Kernel, t: Tid)
    requires t in k.tcb
    ensures Beside(k, InsertReady(k, t), t) && InsertReady(k, t).tcb == k.tcb[t := k.tcb[t].(stat := Ready)]
    ensures ReadyQ(k.tcb[t].currentPriority) in k.lists ==> LastReady(InsertReady(k, t), t)
  {
    var q := ReadyQ(k.tcb[t].currentPriority);
    if q in k.lists { WithoutTwice(k.lists[q], t); }
    hide Without, SetMark;
  }

  lemma TcbBeside(k: Kernel, t: Tid, c: Tcb)
    requires t in k.tcb
    ensures Beside(k, k.(tcb := k.tcb[t := c]), t)
  {
  }

  lemma BesideTwice(k: Kernel, m: Kernel, r: Kernel, t: Tid)
    requires Beside(k, m, t) && Beside(m, r, t)
    ensures Beside(k, r, t)
  {
    hide Without;
    assert forall u :: u in k.tcb <==> u in k.tcb.Keys;
    assert forall u :: u in m.tcb <==> u in m.tcb.Keys;
    assert forall l :: l in k.lists <==> l in k.lists.Keys;
    assert forall l :: l in m.lists <==> l in m.lists.Keys;
  }

  lemma HasQueue(k: Kernel, t: Tid)
    requires Inv(k) && Started(k, t)
    ensures ReadyQ(k.tcb[t].currentPriority) in k.lists && Defunct in k.lists && k.tcb[t].currentPriority < k.levels
  {
    hide NodesOnce, ListedAgree, ReadyListed, BitsSound;
  }

  // ----- the calls

  /** rt_thread_startup: READY at the priority it was created with, last of that queue; every other list is as it was,
      and of the ready bits only that of its priority may have changed, to set. */
  lemma StartExactly(k: Kernel, t: Tid)
    requires Inv(k) && Legal(k, DoStart(t))
    ensures var r, p := StartThread(k, t), k.tcb[t].initPriority;
            && Inv(r) && ReadyQ(p) in k.lists
            && r.tcb == k.tcb[t := k.tcb[t].(stat := Ready, currentPriority := p, masks := MasksOf(k.bits.wide, p))]
            && r.lists == k.lists[ReadyQ(p) := k.lists[ReadyQ(p)] + [t]]
            && forall q: nat :: q < k.levels ==> (r.bits.Marked(q) <==> k.bits.Marked(q) || q == p)
  {
    StartKeeps(k, t);
    var r, p := StartThread(k, t), k.tcb[t].initPriority;
    InitIsOff(k, t);
    assert ReadyQ(p) in k.lists by { hide NodesOnce, ListedAgree, ReadyListed, MasksSound, BitsSound; }
    assert Unlink(k.lists, t) == k.lists by { hide Without; }
    hide SetMark, Bitmap.Marked, Bitmap.WellFormed, ListsSound, MasksSound, Unlink;
  }

  lemma InitIsOff(k: Kernel, t: Tid)
    requires Inv(k) && t in k.tcb && k.tcb[t].stat == Init
    ensures Off(k, t)
  {
    hide NodesOnce, ReadyListed, MasksSound, BitsSound;
  }

  lemma SuspendExactly(k: Kernel, t: Tid)
    requires Inv(k) && Started(k, t)
    ensures var r := SuspendThread(k, t);
            if k.tcb[t].stat != Ready then r == k
            else Inv(r) && Beside(k, r, t) && Off(r, t) && r.tcb == k.tcb[t := k.tcb[t].(stat := Suspend)]
  {
    SuspendKeeps(k, t);
    if k.tcb[t].stat == Ready {
      var m := SetStat(k, t, Suspend);
      TcbBeside(k, t, k.tcb[t].(stat := Suspend));
      RemoveBeside(m, t);
      BesideTwice(k, m, SuspendThread(k, t), t);
    }
    hide Inv, Off, Beside, Remove;
  }

  lemma ResumeExactly(k: Kernel, t: Tid)
    requires Inv(k) && Started(k, t)
    ensures var r := ResumeThread(k, t);
            if k.tcb[t].stat != Suspend then r == k
            else Inv(r) && Beside(k, r, t) && LastReady(r, t) && r.tcb == k.tcb[t := k.tcb[t].(stat := Ready)]
  {
    ResumeKeeps(k, t);
    HasQueue(k, t);
    if k.tcb[t].stat == Suspend {
      var m := k.(lists := Unlink(k.lists, t));
      UnlinkBeside(k, t);
      assert Beside(k, m, t) by { hide Without; }
      InsertBeside(m, t);
      BesideTwice(k, m, ResumeThread(k, t), t);
    }
    hide Inv, Beside, InsertReady, LastReady, Without;
  }

  /** rt_thread_timeout */
  lemma TimeOutExactly(k: Kernel, t: Tid)
    requires Inv(k) && Started(k, t) && k.tcb[t].stat == Suspend
    ensures var r := TimeOutThread(k, t);
            && Inv(r) && Beside(k, r, t) && LastReady(r, t)
            && r.tcb == k.tcb[t := k.tcb[t].(stat := Ready, error := ETIMEDOUT)]
  {
    hide Inv, Beside, ResumeThread, LastReady;
    var e := k.(tcb := k.tcb[t := k.tcb[t].(error := ETIMEDOUT)]);
    ErrorKeeps(k, t, ETIMEDOUT);
    TcbBeside(k, t, k.tcb[t].(error := ETIMEDOUT));
    var r := ResumedIn(e, t);
    BesideTwice(k, e, r, t);
  }

  lemma ResumedIn(k: Kernel, t: Tid) returns (r: Kernel)
    requires Inv(k) && Started(k, t) && k.tcb[t].stat == Suspend
    ensures r == ResumeThread(k, t)
    ensures Inv(r) && Beside(k, r, t) && LastReady(r, t) && r.tcb == k.tcb[t := k.tcb[t].(stat := Ready)]
  {
    ResumeExactly(k, t);
    r := ResumeThread(k, t);
    hide Inv, Beside, LastReady, ResumeThread;
  }

  /** Exit, detach and delete: first on the defunct list, or on none. */
  lemma CloseExactly(k: Kernel, t: Tid, kept: bool)
    requires Inv(k) && Started(k, t)
    ensures var r := CloseThread(k, t, kept);
            && Inv(r) && Beside(k, r, t) && r.tcb == k.tcb[t := k.tcb[t].(stat := Close)]
            && Defunct in r.lists && (if kept then r.lists[Defunct] != [] && r.lists[Defunct][0] == t else Off(r, t))
  {
    CloseKeeps(k, t, kept);
    HasQueue(k, t);
    RemoveBeside(k, t);
    var m := Remove(k, t);
    RemoveKeeps(k, t, {}, {t});
    var c := SetStat(m, t, Close);
    TcbBeside(m, t, m.tcb[t].(stat := Close));
    OffStat(m, t, Close);
    BesideTwice(k, m, c, t);
    BuryBeside(c, t);
    BesideTwice(k, c, Bury(c, t), t);
    hide Sound, Beside, Remove, Off, Without;
  }

  lemma BuryBeside(k: Kernel, t: Tid)
    ensures Beside(k, Bury(k, t), t)
  {
    if Defunct in k.lists { WithoutTwice(k.lists[Defunct], t); }
    hide Without;
  }

  /** A priority change moves a READY thread behind those of its new priority, and any other nowhere. */
  lemma ChangePriorityExactly(k: Kernel, t: Tid, p: nat)
    requires Inv(k) && Started(k, t) && p < k.levels
    ensures var r := ChangePriority(k, t, p);
            && Inv(r) && Beside(k, r, t)
            && r.tcb == k.tcb[t := k.tcb[t].(currentPriority := p, masks := MasksOf(k.bits.wide, p))]
            && (if k.tcb[t].stat == Ready then LastReady(r, t) else r.lists == k.lists)
  {
    hide Inv, Beside, Remove, InsertReady, LastReady, MasksOf;
    ChangePriorityKeeps(k, t, p);
    if k.tcb[t].stat == Ready {
      ReadyMoves(k, t, p);
    } else {
      TcbBeside(k, t, k.tcb[t].(currentPriority := p, masks := MasksOf(k.bits.wide, p)));
    }
  }

  lemma ReadyMoves(k: Kernel, t: Tid, p: nat)
    requires Inv(k) && t in k.tcb && p < k.levels && k.tcb[t].stat == Ready
    ensures var r := InsertReady(SetPriority(Remove(k, t), t, p), t);
            && Beside(k, r, t) && LastReady(r, t)
            && r.tcb == k.tcb[t := k.tcb[t].(currentPriority := p, masks := MasksOf(k.bits.wide, p))]
  {
    hide Inv, Beside, Remove, InsertReady, LastReady, MasksOf;
    QueueOf(k, p);
    RemoveBeside(k, t);
    var m := Remove(k, t);
    RemoveTcb(k, t);
    var c := SetPriority(m, t, p);
    TcbBeside(m, t, c.tcb[t]);
    BesideTwice(k, m, c, t);
    InsertBeside(c, t);
    var r := InsertReady(c, t);
    BesideTwice(k, c, r, t);
    assert c.tcb[t].stat == Ready;
  }

  lemma QueueOf(k: Kernel, p: nat)
    requires Inv(k) && p < k.levels
    ensures ReadyQ(p) in k.lists && ReadyQ(p) in k.lists.Keys
  {
    hide NodesOnce, ListedAgree, ReadyListed, BitsSound, MasksSound;
  }

  /** rt_thread_yield: behind the others of its queue, if there are any. */
  lemma YieldExactly(k: Kernel, t: Tid)
    requires Inv(k) && Started(k, t)
    ensures var r := YieldThread(k, t);
            && Inv(r) && Beside(k, r, t) && r.tcb == k.tcb && (k.tcb[t].stat == Ready ==> LastReady(r, t))
            && (k.tcb[t].stat != Ready ==> r == k)
  {
    hide Inv;
    YieldKeeps(k, t);
    HasQueue(k, t);
    if k.tcb[t].stat == Ready {
      ReadyIsListed(k, t);
      Rotated(k, t);
      if |k.lists[ReadyQ(k.tcb[t].currentPriority)]| == 1 { assert k.lists[ReadyQ(k.tcb[t].currentPriority)][0] == t; }
    }
  }

  lemma Rotated(k: Kernel, t: Tid)
    requires t in k.tcb && ReadyQ(k.tcb[t].currentPriority) in k.lists
    ensures Beside(k, YieldThread(k, t), t)
  {
    var q := ReadyQ(k.tcb[t].currentPriority);
    UnlinkBeside(k, t);
    WithoutTwice(Unlink(k.lists, t)[q], t);
    hide Without;
  }

  lemma ReadyIsListed(k: Kernel, t: Tid)
    requires Inv(k) && Started(k, t) && k.tcb[t].stat == Ready
    ensures t in k.lists[ReadyQ(k.tcb[t].currentPriority)]
  {
    hide NodesOnce, ListedAgree, MasksSound, BitsSound;
  }

  /** Blocking on an object: the thread joins its list, behind those at least as urgent or at the end. */
  lemma SuspendOnExactly(k: Kernel, t: Tid, o: nat, byPriority: bool)
    requires Inv(k) && Legal(k, DoWait(t, o, byPriority))
    ensures var r := SuspendOn(k, t, o, byPriority);
            && Inv(r) && Beside(k, r, t) && WaitQ(o) in r.lists && r.tcb == k.tcb[t := k.tcb[t].(stat := Suspend)]
            && r.lists[WaitQ(o)] == Enqueue(k.lists[WaitQ(o)], t, Priorities(k), byPriority)
  {
    SuspendOnKeeps(k, t, o, byPriority);
    SuspendView(k, t, o, byPriority);
    SuspendExactly(k, t);
    var s := SuspendThread(k, t);
    PutBeside(s, WaitQ(o), WaitPlace(s, s.lists[WaitQ(o)], s.tcb[t].currentPriority, byPriority), t);
    BesideTwice(k, s, SuspendOn(k, t, o, byPriority), t);
    hide Inv, Beside, SuspendThread, Enqueue, WaitPlace;
  }

  lemma PutBeside(k: Kernel, l: ListId, i: nat, t: Tid)
    requires l in k.lists && i <= |k.lists[l]|
    ensures Beside(k, k.(lists := PutAt(k.lists, l, i, t)), t)
  {
    var s := k.lists[l];
    PutWithout(s, i, t);
    hide Without;
  }

  lemma {:induction false} PutWithout(s: seq<Tid>, i: nat, t: Tid)
    requires i <= |s|
    ensures Without(s[..i] + [t] + s[i..], t) == Without(s, t)
  {
    hide Distinct;
    if i == 0 {
      assert s[..0] + [t] + s[0..] == [t] + s && ([t] + s)[1..] == s;
    } else {
      PutWithout(s[1..], i - 1, t);
      assert s[..i] + [t] + s[i..] == [s[0]] + (s[1..][..i - 1] + [t] + s[1..][i - 1..]);
      assert ([s[0]] + (s[1..][..i - 1] + [t] + s[1..][i - 1..]))[1..] == s[1..][..i - 1] + [t] + s[1..][i - 1..];
    }
  }
}
