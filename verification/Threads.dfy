/** Threads, the lists their one list node can be on, and the ready bitmap. */
module Threads {
  import opened Lists
  import opened ReadyBits

  type Tid = nat

  datatype Stat = Init | Ready | Suspend | Close

  datatype Tcb = Tcb(stat: Stat, initPriority: nat, currentPriority: nat, masks: Masks, error: int,
                     eventSet: bv32, eventInfo: bv8)

  /** The ready queue of a priority, the suspend list of an IPC object, or the defunct list. */
  datatype ListId = ReadyQ(p: nat) | WaitQ(object: nat) | Defunct

  datatype Kernel = Kernel(levels: nat, tcb: map<Tid, Tcb>, lists: map<ListId, seq<Tid>>, bits: Bitmap)

  /** The list agrees with the thread's state; a thread in `moving` is excused as to its stat. */
  predicate Agrees(c: Tcb, l: ListId, moving: bool) {
    match l
    case ReadyQ(p) => c.currentPriority == p && (moving || c.stat == Ready)
    case WaitQ(_) => moving || c.stat == Suspend
    case Defunct => moving || c.stat == Close
  }

  ghost predicate HasQueues(k: Kernel) {
    Defunct in k.lists && forall p: nat :: p < k.levels ==> ReadyQ(p) in k.lists
  }

  /** No list holds a thread twice, and no thread is on two lists. */
  ghost predicate NodesOnce(lists: map<ListId, seq<Tid>>) {
    && (forall l :: l in lists ==> Distinct(lists[l]))
    && (forall l, m, t :: l in lists && m in lists && t in lists[l] && t in lists[m] ==> l == m)
  }

  ghost predicate ListedAgree(k: Kernel, moving: set<Tid>) {
    forall l, t :: l in k.lists && t in k.lists[l] ==>
      t in k.tcb && k.tcb[t].stat != Init && Agrees(k.tcb[t], l, t in moving)
  }

  ghost predicate ReadyListed(k: Kernel, moving: set<Tid>) {
    forall t :: t in k.tcb && t !in moving && k.tcb[t].stat == Ready ==>
      ReadyQ(k.tcb[t].currentPriority) in k.lists && t in k.lists[ReadyQ(k.tcb[t].currentPriority)]
  }

  ghost predicate ListsSound(k: Kernel, moving: set<Tid>) {
    HasQueues(k) && NodesOnce(k.lists) && ListedAgree(k, moving) && ReadyListed(k, moving)
  }

  ghost predicate MasksSound(k: Kernel) {
    forall t :: t in k.tcb && k.tcb[t].stat != Init ==>
      k.tcb[t].currentPriority < k.levels && k.tcb[t].masks == MasksOf(k.bits.wide, k.tcb[t].currentPriority)
  }

  /** A priority is marked ready exactly when its queue is not empty. */
  ghost predicate BitsSound(k: Kernel) {
    && 0 < k.levels <= 256 && k.bits.WellFormed() && k.bits.wide == (k.levels > 32)
    && (forall p: nat :: p < k.levels ==> ReadyQ(p) in k.lists && (k.bits.Marked(p) <==> k.lists[ReadyQ(p)] != []))
    && (forall p: nat :: k.levels <= p < k.bits.Span() ==> !k.bits.Marked(p))
  }

  ghost predicate Sound(k: Kernel, moving: set<Tid>) {
    ListsSound(k, moving) && MasksSound(k) && BitsSound(k)
  }

  /** Every started thread is on the one list its state calls for. */
  ghost predicate Inv(k: Kernel) { Sound(k, {}) }

  ghost predicate Off(k: Kernel, t: Tid) { forall l :: l in k.lists ==> t !in k.lists[l] }

  ghost predicate Started(k: Kernel, t: Tid) { t in k.tcb && k.tcb[t].stat != Init }

  // ----- list primitives

  /** rt_list_remove on the thread's node: it leaves whatever list it is on. */
  function Unlink(lists: map<ListId, seq<Tid>>, t: Tid): (r: map<ListId, seq<Tid>>)
    ensures r.Keys == lists.Keys && forall l :: l in r ==> r[l] == Without(lists[l], t)
  {
    map l | l in lists :: Without(lists[l], t)
  }

  function PutAt(lists: map<ListId, seq<Tid>>, l: ListId, i: nat, t: Tid): map<ListId, seq<Tid>>
    requires l in lists && i <= |lists[l]|
  {
    lists[l := lists[l][..i] + [t] + lists[l][i..]]
  }

  // ----- kernel operations on the data above

  /** rt_schedule_remove_thread */
  function Remove(k: Kernel, t: Tid): Kernel
    requires t in k.tcb
  {
    var lists, q := Unlink(k.lists, t), ReadyQ(k.tcb[t].currentPriority);
    k.(lists := lists,
       bits := if q in lists && lists[q] == [] then ClearMark(k.bits, k.tcb[t].masks) else k.bits)
  }

  function SetStat(k: Kernel, t: Tid, s: Stat): Kernel
    requires t in k.tcb
  {
    k.(tcb := k.tcb[t := k.tcb[t].(stat := s)])
  }

  /** rt_schedule_insert_thread, for a thread whose node is on no list */
  function InsertReady(k: Kernel, t: Tid): Kernel
    requires t in k.tcb
  {
    var q := ReadyQ(k.tcb[t].currentPriority);
    SetStat(k, t, Ready).(lists := if q in k.lists then k.lists[q := k.lists[q] + [t]] else k.lists,
                          bits := SetMark(k.bits, k.tcb[t].masks))
  }

  /** The priority and the marks computed from it. */
  function SetPriority(k: Kernel, t: Tid, p: nat): Kernel
    requires t in k.tcb
  {
    k.(tcb := k.tcb[t := k.tcb[t].(currentPriority := p, masks := MasksOf(k.bits.wide, p))])
  }

  /** RT_THREAD_CTRL_CHANGE_PRIORITY */
  function ChangePriority(k: Kernel, t: Tid, p: nat): Kernel
    requires t in k.tcb
  {
    if k.tcb[t].stat == Ready then InsertReady(SetPriority(Remove(k, t), t, p), t) else SetPriority(k, t, p)
  }

  function SuspendThread(k: Kernel, t: Tid): Kernel
    requires t in k.tcb
  {
    if k.tcb[t].stat != Ready then k else Remove(SetStat(k, t, Suspend), t)
  }

  function ResumeThread(k: Kernel, t: Tid): Kernel
    requires t in k.tcb
  {
    if k.tcb[t].stat != Suspend then k else InsertReady(k.(lists := Unlink(k.lists, t)), t)
  }

  /** rt_thread_startup */
  function StartThread(k: Kernel, t: Tid): Kernel
    requires t in k.tcb
  {
    ResumeThread(SetStat(SetPriority(k, t, k.tcb[t].initPriority), t, Suspend), t)
  }

  /** Thread exit, detach and delete; `kept` says whether the object goes on the defunct list. */
  function CloseThread(k: Kernel, t: Tid, kept: bool): Kernel
    requires t in k.tcb
  {
    var c := SetStat(Remove(k, t), t, Close);
    if kept then Bury(c, t) else c
  }

  /** rt_list_insert_after on the defunct list's head */
  function Bury(k: Kernel, t: Tid): Kernel {
    if Defunct in k.lists then k.(lists := k.lists[Defunct := [t] + k.lists[Defunct]]) else k
  }

  /** rt_thread_yield: to the back of its queue, if anyone else is on it. */
  function YieldThread(k: Kernel, t: Tid): Kernel
    requires t in k.tcb
  {
    var q := ReadyQ(k.tcb[t].currentPriority);
    if k.tcb[t].stat == Ready && q in k.lists && |k.lists[q]| > 1
    then var lists := Unlink(k.lists, t); k.(lists := lists[q := lists[q] + [t]])
    else k
  }

  /** Where rt_ipc_list_suspend links a thread of priority p: at the end, or before the first thread of a
      strictly greater priority number. */
  function WaitPlace(k: Kernel, s: seq<Tid>, p: nat, byPriority: bool): (i: nat)
    ensures i <= |s|
  {
    if s == [] then 0
    else if byPriority && s[0] in k.tcb && p < k.tcb[s[0]].currentPriority then 0
    else WaitPlace(k, s[1..], p, byPriority) + 1
  }

  function SuspendOn(k: Kernel, t: Tid, o: nat, byPriority: bool): Kernel
    requires t in k.tcb
  {
    var s := SuspendThread(k, t);
    if WaitQ(o) in s.lists then
      var w := s.lists[WaitQ(o)];
      s.(lists := PutAt(s.lists, WaitQ(o), WaitPlace(s, w, s.tcb[t].currentPriority, byPriority), t))
    else s
  }

  // ----- what they keep

  lemma RemoveKeeps(k: Kernel, t: Tid, moving: set<Tid>, after: set<Tid>)
    requires Sound(k, moving) && Started(k, t) && after == moving + {t}
    ensures Sound(Remove(k, t), after) && Off(Remove(k, t), t)
  {
    RemoveBits(k, t, moving);
    RemoveLists(k, t, moving);
    hide BitsSound, ListsSound;
  }

  lemma RemoveLists(k: Kernel, t: Tid, moving: set<Tid>)
    requires ListsSound(k, moving) && t in k.tcb
    ensures ListsSound(Remove(k, t), moving + {t}) && Off(Remove(k, t), t)
  {
    UnlinkOnce(k.lists, t);
    RemoveAgree(k, t, moving);
    RemoveListed(k, t, moving);
    hide NodesOnce, ClearMark, ListedAgree, ReadyListed;
  }

  lemma RemoveAgree(k: Kernel, t: Tid, moving: set<Tid>)
    requires ListedAgree(k, moving) && t in k.tcb
    ensures ListedAgree(Remove(k, t), moving + {t})
  {
    hide ClearMark;
  }

  lemma RemoveListed(k: Kernel, t: Tid, moving: set<Tid>)
    requires ReadyListed(k, moving) && t in k.tcb
    ensures ReadyListed(Remove(k, t), moving + {t})
  {
    hide ClearMark;
  }

  lemma UnlinkOnce(lists: map<ListId, seq<Tid>>, t: Tid)
    requires NodesOnce(lists)
    ensures NodesOnce(Unlink(lists, t))
  {
  }

  lemma RemoveBits(k: Kernel, t: Tid, moving: set<Tid>)
    requires Sound(k, moving) && Started(k, t)
    ensures BitsSound(Remove(k, t))
  {
    var p := k.tcb[t].currentPriority;
    ClearMarkKeeps(k.bits, p);
    var r := Remove(k, t);
    hide ClearMark, Bitmap.WellFormed, Bitmap.Marked;
    forall q: nat | q < k.levels ensures r.bits.Marked(q) <==> r.lists[ReadyQ(q)] != [] {
      if q != p { assert t !in k.lists[ReadyQ(q)]; }
    }
  }

  lemma InsertKeeps(k: Kernel, t: Tid, moving: set<Tid>, after: set<Tid>)
    requires Sound(k, moving) && Started(k, t) && Off(k, t) && after == moving - {t}
    ensures Sound(InsertReady(k, t), after)
  {
    InsertBits(k, t, moving);
    InsertLists(k, t, moving);
    hide BitsSound, ListsSound;
  }

  lemma InsertLists(k: Kernel, t: Tid, moving: set<Tid>)
    requires ListsSound(k, moving) && MasksSound(k) && Started(k, t) && Off(k, t)
    ensures ListsSound(InsertReady(k, t), moving - {t})
  {
    AppendOnce(k.lists, ReadyQ(k.tcb[t].currentPriority), t);
    InsertAgree(k, t, moving);
    InsertListed(k, t, moving);
    hide NodesOnce, SetMark, ListedAgree, ReadyListed, Off;
  }

  lemma InsertAgree(k: Kernel, t: Tid, moving: set<Tid>)
    requires ListedAgree(k, moving) && Started(k, t) && Off(k, t)
    ensures ListedAgree(InsertReady(k, t), moving - {t})
  {
    var r, q := InsertReady(k, t), ReadyQ(k.tcb[t].currentPriority);
    hide SetMark;
    forall l, u | l in r.lists && u in r.lists[l]
      ensures u in r.tcb && r.tcb[u].stat != Init && Agrees(r.tcb[u], l, u in moving - {t})
    {
      assert u != t ==> u in k.lists[l];
      assert u == t ==> l == q;
    }
  }

  lemma InsertListed(k: Kernel, t: Tid, moving: set<Tid>)
    requires HasQueues(k) && MasksSound(k) && ReadyListed(k, moving) && Started(k, t)
    ensures ReadyListed(InsertReady(k, t), moving - {t})
  {
    hide SetMark;
  }

  lemma AppendOnce(lists: map<ListId, seq<Tid>>, l: ListId, t: Tid)
    requires NodesOnce(lists) && l in lists && forall m :: m in lists ==> t !in lists[m]
    ensures NodesOnce(lists[l := lists[l] + [t]])
  {
  }

  lemma InsertBits(k: Kernel, t: Tid, moving: set<Tid>)
    requires Sound(k, moving) && Started(k, t)
    ensures BitsSound(InsertReady(k, t))
  {
    SetMarkKeeps(k.bits, k.tcb[t].currentPriority);
    hide SetMark, Bitmap.WellFormed, Bitmap.Marked;
  }

  // ----- from "moving" back to the full invariant

  lemma SetStatMoves(k: Kernel, t: Tid, s: Stat, moving: set<Tid>, after: set<Tid>)
    requires Sound(k, moving) && Started(k, t) && s != Init && after == moving + {t}
    ensures Sound(SetStat(k, t, s), after)
  {
    hide Bitmap.WellFormed, Bitmap.Marked, NodesOnce;
  }

  /** A thread off all lists may settle in any state but READY. */
  lemma Settle(k: Kernel, t: Tid, moving: set<Tid>, after: set<Tid>)
    requires Sound(k, moving) && Started(k, t) && Off(k, t) && k.tcb[t].stat != Ready && after == moving - {t}
    ensures Sound(k, after)
  {
    hide Bitmap.WellFormed, Bitmap.Marked, NodesOnce;
  }

  lemma PriorityMoves(k: Kernel, t: Tid, p: nat, moving: set<Tid>)
    requires Sound(k, moving) && Started(k, t) && p < k.levels
    requires Off(k, t) || (k.tcb[t].stat != Ready && t !in moving)
    ensures Sound(SetPriority(k, t, p), moving)
  {
    hide Bitmap.WellFormed, Bitmap.Marked, NodesOnce;
  }

  lemma SuspendKeeps(k: Kernel, t: Tid)
    requires Inv(k) && Started(k, t)
    ensures Inv(SuspendThread(k, t))
    ensures k.tcb[t].stat == Ready ==> Off(SuspendThread(k, t), t)
  {
    hide Sound, Off, SuspendThread;
    SuspendSound(k, t, {});
  }

  /** Threads in `moving`, which some other call has in hand, do not matter to the calls on t. */
  lemma SuspendSound(k: Kernel, t: Tid, moving: set<Tid>)
    requires Sound(k, moving) && Started(k, t) && t !in moving
    ensures Sound(SuspendThread(k, t), moving)
    ensures k.tcb[t].stat == Ready ==> Off(SuspendThread(k, t), t)
  {
    hide Sound, Off, Remove;
    if k.tcb[t].stat == Ready {
      SetStatMoves(k, t, Suspend, moving, moving + {t});
      var m := SetStat(k, t, Suspend);
      RemoveKeeps(m, t, moving + {t}, moving + {t});
      RemoveTcb(m, t);
      Settle(Remove(m, t), t, moving + {t}, moving);
    }
  }

  lemma RemoveTcb(k: Kernel, t: Tid)
    requires t in k.tcb
    ensures Remove(k, t).tcb == k.tcb && Remove(k, t).levels == k.levels && Remove(k, t).lists.Keys == k.lists.Keys
    ensures Remove(k, t).bits.wide == k.bits.wide
  {
  }

  lemma ResumeKeeps(k: Kernel, t: Tid)
    requires Inv(k) && Started(k, t)
    ensures Inv(ResumeThread(k, t))
  {
    hide Sound, ResumeThread;
    ResumeSound(k, t, {});
  }

  lemma ResumeSound(k: Kernel, t: Tid, moving: set<Tid>)
    requires Sound(k, moving) && Started(k, t) && t !in moving
    ensures Sound(ResumeThread(k, t), moving)
  {
    hide Sound, Off, InsertReady;
    if k.tcb[t].stat == Suspend {
      UnlinkSound(k, t, moving);
      InsertKeeps(k.(lists := Unlink(k.lists, t)), t, moving, moving);
    }
  }

  /** Only thread t's place in the lists changes, to one its state allows, and no ready queue becomes
      empty or stops being empty. */
  ghost predicate Relisted(k: Kernel, lists: map<ListId, seq<Tid>>, t: Tid) {
    && Started(k, t) && lists.Keys == k.lists.Keys && NodesOnce(lists)
    && (forall l, u :: l in lists && u != t ==> (u in lists[l] <==> u in k.lists[l]))
    && (forall l :: l in lists && t in lists[l] ==> Agrees(k.tcb[t], l, false))
    && (k.tcb[t].stat == Ready ==>
          ReadyQ(k.tcb[t].currentPriority) in lists && t in lists[ReadyQ(k.tcb[t].currentPriority)])
    && (forall p :: ReadyQ(p) in lists ==> (lists[ReadyQ(p)] == [] <==> k.lists[ReadyQ(p)] == []))
  }

  lemma RelistedSound(k: Kernel, lists: map<ListId, seq<Tid>>, t: Tid, moving: set<Tid>)
    requires Sound(k, moving) && Relisted(k, lists, t) && t !in moving
    ensures Sound(k.(lists := lists), moving)
  {
    RelistedAgree(k, lists, t, moving);
    RelistedReady(k, lists, t, moving);
    hide NodesOnce, ListedAgree, ReadyListed, Bitmap.Marked, Bitmap.WellFormed;
  }

  lemma RelistedAgree(k: Kernel, lists: map<ListId, seq<Tid>>, t: Tid, moving: set<Tid>)
    requires ListedAgree(k, moving) && Relisted(k, lists, t)
    ensures ListedAgree(k.(lists := lists), moving)
  {
    hide NodesOnce;
  }

  lemma RelistedReady(k: Kernel, lists: map<ListId, seq<Tid>>, t: Tid, moving: set<Tid>)
    requires ReadyListed(k, moving) && Relisted(k, lists, t)
    ensures ReadyListed(k.(lists := lists), moving)
  {
    hide NodesOnce;
  }

  lemma NotQueued(k: Kernel, t: Tid, moving: set<Tid>)
    requires ListedAgree(k, moving) && Started(k, t) && k.tcb[t].stat != Ready && t !in moving
    ensures forall p :: ReadyQ(p) in k.lists ==> t !in k.lists[ReadyQ(p)]
  {
  }

  /** A thread that is not READY can be taken off its list without touching the bitmap. */
  lemma UnlinkSound(k: Kernel, t: Tid, moving: set<Tid>)
    requires Sound(k, moving) && Started(k, t) && k.tcb[t].stat != Ready && t !in moving
    ensures Sound(k.(lists := Unlink(k.lists, t)), moving) && Off(k.(lists := Unlink(k.lists, t)), t)
  {
    UnlinkOnce(k.lists, t);
    NotQueued(k, t, moving);
    hide NodesOnce, ListedAgree, ReadyListed, MasksSound, BitsSound;
    RelistedSound(k, Unlink(k.lists, t), t, moving);
  }

  lemma StartKeeps(k: Kernel, t: Tid)
    requires Inv(k) && t in k.tcb && k.tcb[t].stat == Init && k.tcb[t].initPriority < k.levels
    ensures Inv(StartThread(k, t))
  {
    hide Sound, StartThread;
    StartSound(k, t, {});
  }

  lemma StartSound(k: Kernel, t: Tid, moving: set<Tid>)
    requires Sound(k, moving) && t in k.tcb && k.tcb[t].stat == Init && k.tcb[t].initPriority < k.levels
    requires t !in moving
    ensures Sound(StartThread(k, t), moving)
  {
    var m := SetStat(SetPriority(k, t, k.tcb[t].initPriority), t, Suspend);
    assert Sound(m, moving) && Started(m, t) by { hide Bitmap.WellFormed, Bitmap.Marked, NodesOnce; }
    ResumeSound(m, t, moving);
  }

  lemma CloseKeeps(k: Kernel, t: Tid, kept: bool)
    requires Inv(k) && Started(k, t)
    ensures Inv(CloseThread(k, t, kept))
  {
    hide Sound, CloseThread;
    CloseSound(k, t, kept, {});
  }

  lemma CloseSound(k: Kernel, t: Tid, kept: bool, moving: set<Tid>)
    requires Sound(k, moving) && Started(k, t) && t !in moving
    ensures Sound(CloseThread(k, t, kept), moving)
  {
    hide Sound, Off, Remove;
    RemoveKeeps(k, t, moving, moving + {t});
    RemoveTcb(k, t);
    ClosedSound(Remove(k, t), t, moving);
    if kept { DefunctSound(SetStat(Remove(k, t), t, Close), t, moving); }
  }

  /** A thread taken off its queue, or in hand already, becomes CLOSE. */
  lemma ClosedSound(k: Kernel, t: Tid, moving: set<Tid>)
    requires Sound(k, moving + {t}) && Started(k, t) && Off(k, t) && t !in moving
    ensures Sound(SetStat(k, t, Close), moving) && Off(SetStat(k, t, Close), t)
  {
    hide Sound, Off;
    var m := SetStat(k, t, Close);
    SetStatMoves(k, t, Close, moving + {t}, moving + {t});
    OffStat(k, t, Close);
    Settle(m, t, moving + {t}, moving);
  }

  lemma OffStat(k: Kernel, t: Tid, s: Stat)
    requires t in k.tcb && Off(k, t)
    ensures Off(SetStat(k, t, s), t)
  {
  }

  lemma DefunctSound(k: Kernel, t: Tid, moving: set<Tid>)
    requires Sound(k, moving) && Started(k, t) && Off(k, t) && k.tcb[t].stat == Close && t !in moving
    ensures Defunct in k.lists && Sound(Bury(k, t), moving)
  {
    PutOnce(k.lists, Defunct, 0, t);
    var d := k.lists[Defunct];
    assert d[..0] + [t] + d[0..] == [t] + d;
    hide NodesOnce, ListedAgree, ReadyListed, MasksSound, BitsSound;
    RelistedSound(k, k.lists[Defunct := [t] + d], t, moving);
  }

  lemma PutOnce(lists: map<ListId, seq<Tid>>, l: ListId, i: nat, t: Tid)
    requires NodesOnce(lists) && l in lists && i <= |lists[l]| && forall m :: m in lists ==> t !in lists[m]
    ensures NodesOnce(PutAt(lists, l, i, t))
    ensures forall u :: u in PutAt(lists, l, i, t)[l] <==> u in lists[l] || u == t
  {
    assert lists[l] == lists[l][..i] + lists[l][i..];
  }

  lemma ChangePriorityKeeps(k: Kernel, t: Tid, p: nat)
    requires Inv(k) && Started(k, t) && p < k.levels
    ensures Inv(ChangePriority(k, t, p))
  {
    hide Sound, ChangePriority;
    ChangePrioritySound(k, t, p, {});
  }

  lemma ChangePrioritySound(k: Kernel, t: Tid, p: nat, moving: set<Tid>)
    requires Sound(k, moving) && Started(k, t) && p < k.levels && t !in moving
    ensures Sound(ChangePriority(k, t, p), moving)
  {
    hide Sound, Off, Remove, InsertReady;
    if k.tcb[t].stat == Ready {
      RemoveKeeps(k, t, moving, moving + {t});
      RemoveTcb(k, t);
      PriorityMoves(Remove(k, t), t, p, moving + {t});
      OffPriority(Remove(k, t), t, p);
      InsertKeeps(SetPriority(Remove(k, t), t, p), t, moving + {t}, moving);
    } else {
      PriorityMoves(k, t, p, moving);
    }
  }

  lemma OffPriority(k: Kernel, t: Tid, p: nat)
    requires t in k.tcb && Off(k, t)
    ensures Off(SetPriority(k, t, p), t)
  {
  }

  lemma YieldKeeps(k: Kernel, t: Tid)
    requires Inv(k) && Started(k, t)
    ensures Inv(YieldThread(k, t))
  {
    hide Sound, YieldThread;
    YieldSound(k, t, {});
  }

  lemma YieldSound(k: Kernel, t: Tid, moving: set<Tid>)
    requires Sound(k, moving) && Started(k, t) && t !in moving
    ensures Sound(YieldThread(k, t), moving)
  {
    var q := ReadyQ(k.tcb[t].currentPriority);
    if k.tcb[t].stat == Ready && q in k.lists && |k.lists[q]| > 1 {
      YieldListed(k, t, moving);
      YieldMembers(k, t);
      YieldOnce(k, t);
      hide NodesOnce, ReadyListed, MasksSound, BitsSound, YieldThread;
      var r := YieldThread(k, t).lists;
      forall l | l in k.lists ensures r[l] == [] <==> k.lists[l] == [] {
        if k.lists[l] != [] { assert k.lists[l][0] in r[l]; }
        if r[l] != [] { assert r[l][0] in k.lists[l]; }
      }
      RelistedSound(k, r, t, moving);
    }
  }

  lemma YieldListed(k: Kernel, t: Tid, moving: set<Tid>)
    requires Sound(k, moving) && Started(k, t) && k.tcb[t].stat == Ready && t !in moving
    ensures var q := ReadyQ(k.tcb[t].currentPriority);
            q in k.lists && t in k.lists[q] && forall l :: l in k.lists && t in k.lists[l] ==> l == q
    ensures forall l :: l in k.lists && t in k.lists[l] ==> Agrees(k.tcb[t], l, false)
    ensures YieldThread(k, t) == k.(lists := YieldThread(k, t).lists)
  {
  }

  lemma YieldOnce(k: Kernel, t: Tid)
    requires NodesOnce(k.lists) && t in k.tcb
    ensures NodesOnce(YieldThread(k, t).lists)
  {
    var q := ReadyQ(k.tcb[t].currentPriority);
    UnlinkOnce(k.lists, t);
    hide NodesOnce;
    if q in k.lists { AppendOnce(Unlink(k.lists, t), q, t); }
  }

  /** Yielding moves the thread within its queue; no list gains or loses a member. */
  lemma YieldMembers(k: Kernel, t: Tid)
    requires t in k.tcb
    requires var q := ReadyQ(k.tcb[t].currentPriority);
             q in k.lists && t in k.lists[q] && forall l :: l in k.lists && t in k.lists[l] ==> l == q
    ensures var r := YieldThread(k, t);
            r.lists.Keys == k.lists.Keys && forall l, u :: l in k.lists ==> (u in r.lists[l] <==> u in k.lists[l])
  {
  }

  lemma SuspendOnKeeps(k: Kernel, t: Tid, o: nat, byPriority: bool)
    requires Inv(k) && Started(k, t) && k.tcb[t].stat == Ready && WaitQ(o) in k.lists
    ensures Inv(SuspendOn(k, t, o, byPriority))
  {
    hide Sound, SuspendOn;
    SuspendOnSound(k, t, o, byPriority, {});
  }

  lemma SuspendOnSound(k: Kernel, t: Tid, o: nat, byPriority: bool, moving: set<Tid>)
    requires Sound(k, moving) && Started(k, t) && k.tcb[t].stat == Ready && WaitQ(o) in k.lists && t !in moving
    ensures Sound(SuspendOn(k, t, o, byPriority), moving)
  {
    SuspendSound(k, t, moving);
    var s := SuspendThread(k, t);
    RemoveTcb(SetStat(k, t, Suspend), t);
    var i := WaitPlace(s, s.lists[WaitQ(o)], s.tcb[t].currentPriority, byPriority);
    hide WaitPlace, Remove;
    WaitSound(s, t, o, i, moving);
  }

  lemma WaitSound(k: Kernel, t: Tid, o: nat, i: nat, moving: set<Tid>)
    requires Sound(k, moving) && Started(k, t) && k.tcb[t].stat == Suspend && Off(k, t) && t !in moving
    requires WaitQ(o) in k.lists && i <= |k.lists[WaitQ(o)]|
    ensures Sound(k.(lists := PutAt(k.lists, WaitQ(o), i, t)), moving)
  {
    PutOnce(k.lists, WaitQ(o), i, t);
    hide NodesOnce, ListedAgree, ReadyListed, MasksSound, BitsSound;
    RelistedSound(k, PutAt(k.lists, WaitQ(o), i, t), t, moving);
  }

  // ----- the choice rt_schedule makes

  function Choose(k: Kernel): (t: Tid)
    requires BitsSound(k) && exists p: nat :: p < k.levels && k.lists[ReadyQ(p)] != []
  {
    var h := Highest(k.bits);
    if h >= 0 && ReadyQ(h) in k.lists && k.lists[ReadyQ(h)] != [] then k.lists[ReadyQ(h)][0] else 0
  }

  /** It takes the thread at the head of the non-empty queue of least number: a READY thread such that
      no READY thread has a smaller priority number. */
  lemma ChoiceIsUrgent(k: Kernel)
    requires Inv(k) && exists p: nat :: p < k.levels && k.lists[ReadyQ(p)] != []
    ensures var t := Choose(k);
            && t in k.tcb && k.tcb[t].stat == Ready
            && k.lists[ReadyQ(k.tcb[t].currentPriority)][0] == t
            && forall u :: u in k.tcb && k.tcb[u].stat == Ready ==> k.tcb[t].currentPriority <= k.tcb[u].currentPriority
  {
    hide NodesOnce, Highest, Bitmap.Marked;
    var p: nat :| p < k.levels && k.lists[ReadyQ(p)] != [];
    HighestIsLeast(k.bits, p);
    var h := Highest(k.bits);
    assert k.lists[ReadyQ(h)] != [];
    assert k.lists[ReadyQ(h)][0] in k.lists[ReadyQ(h)];
    forall u | u in k.tcb && k.tcb[u].stat == Ready ensures h <= k.tcb[u].currentPriority {
      assert k.bits.Marked(k.tcb[u].currentPriority);
    }
  }

  // ----- every run of kernel calls

  /** rt_thread_timeout: a sleeper's timer ran out. */
  function TimeOutThread(k: Kernel, t: Tid): Kernel
    requires t in k.tcb
  {
    ResumeThread(k.(tcb := k.tcb[t := k.tcb[t].(error := ETIMEDOUT)]), t)
  }

  const ETIMEDOUT := -2

  lemma TimeOutKeeps(k: Kernel, t: Tid)
    requires Inv(k) && Started(k, t) && k.tcb[t].stat == Suspend
    ensures Inv(TimeOutThread(k, t)) && TimeOutThread(k, t).tcb[t].stat == Ready
    ensures TimeOutThread(k, t).tcb[t].error == ETIMEDOUT
  {
    hide Sound;
    TimeOutSound(k, t, {});
  }

  lemma TimeOutSound(k: Kernel, t: Tid, moving: set<Tid>)
    requires Sound(k, moving) && Started(k, t) && t !in moving
    ensures Sound(TimeOutThread(k, t), moving)
  {
    ErrorSound(k, t, ETIMEDOUT, moving);
    ResumeSound(k.(tcb := k.tcb[t := k.tcb[t].(error := ETIMEDOUT)]), t, moving);
  }

  lemma ErrorKeeps(k: Kernel, t: Tid, e: int)
    requires Inv(k) && t in k.tcb
    ensures Inv(k.(tcb := k.tcb[t := k.tcb[t].(error := e)]))
  {
    hide Sound;
    ErrorSound(k, t, e, {});
  }

  lemma ErrorSound(k: Kernel, t: Tid, e: int, moving: set<Tid>)
    requires Sound(k, moving) && t in k.tcb
    ensures Sound(k.(tcb := k.tcb[t := k.tcb[t].(error := e)]), moving)
  {
    hide NodesOnce, Bitmap.Marked, Bitmap.WellFormed;
  }

  datatype Call =
    | DoStart(t: Tid)
    | DoSuspend(t: Tid)
    | DoResume(t: Tid)
    | DoTimeOut(t: Tid)
    | DoYield(t: Tid)
    | DoClose(t: Tid, kept: bool)
    | DoPriority(t: Tid, p: nat)
    | DoWait(t: Tid, object: nat, byPriority: bool)

  /** Only started threads may be operated on; only a fresh one may be started; only a READY one may wait; only a
      suspended one may time out. */
  predicate Legal(k: Kernel, c: Call) {
    match c
    case DoStart(t) => t in k.tcb && k.tcb[t].stat == Init && k.tcb[t].initPriority < k.levels
    case DoPriority(t, p) => t in k.tcb && k.tcb[t].stat != Init && p < k.levels
    case DoWait(t, o, b) => t in k.tcb && k.tcb[t].stat == Ready && WaitQ(o) in k.lists
    case DoTimeOut(t) => t in k.tcb && k.tcb[t].stat == Suspend
    case _ => c.t in k.tcb && k.tcb[c.t].stat != Init
  }

  function Step(k: Kernel, c: Call): Kernel
    requires Legal(k, c)
  {
    match c
    case DoStart(t) => StartThread(k, t)
    case DoSuspend(t) => SuspendThread(k, t)
    case DoResume(t) => ResumeThread(k, t)
    case DoTimeOut(t) => TimeOutThread(k, t)
    case DoYield(t) => YieldThread(k, t)
    case DoClose(t, kept) => CloseThread(k, t, kept)
    case DoPriority(t, p) => ChangePriority(k, t, p)
    case DoWait(t, o, b) => SuspendOn(k, t, o, b)
  }

  predicate LegalRun(k: Kernel, cs: seq<Call>)
    decreases |cs|
  {
    cs != [] ==> Legal(k, cs[0]) && LegalRun(Step(k, cs[0]), cs[1..])
  }

  function After(k: Kernel, cs: seq<Call>): Kernel
    requires LegalRun(k, cs)
    decreases |cs|
  {
    if cs == [] then k else After(Step(k, cs[0]), cs[1..])
  }

  lemma StepSound(k: Kernel, c: Call, moving: set<Tid>)
    requires Sound(k, moving) && Legal(k, c) && c.t !in moving
    ensures Sound(Step(k, c), moving)
  {
    hide Sound;
    match c
    case DoStart(t) => StartSound(k, t, moving);
    case DoSuspend(t) => SuspendSound(k, t, moving);
    case DoResume(t) => ResumeSound(k, t, moving);
    case DoTimeOut(t) => TimeOutSound(k, t, moving);
    case DoYield(t) => YieldSound(k, t, moving);
    case DoClose(t, kept) => CloseSound(k, t, kept, moving);
    case DoPriority(t, p) => ChangePrioritySound(k, t, p, moving);
    case DoWait(t, o, b) => SuspendOnSound(k, t, o, b, moving);
  }

  lemma StepKeeps(k: Kernel, c: Call)
    requires Inv(k) && Legal(k, c)
    ensures Inv(Step(k, c))
  {
    hide Sound, Step, Legal;
    StepSound(k, c, {});
  }

  /** Whatever calls are made in whatever order, every started thread stays on exactly the list its state
      calls for, and a ready bit is set exactly when the queue it stands for is not empty. */
  lemma {:induction false} RunsKeepInvariant(k: Kernel, cs: seq<Call>)
    requires Inv(k) && LegalRun(k, cs)
    ensures Inv(After(k, cs))
    decreases |cs|
  {
    hide Inv, Step, Legal;
    if cs != [] {
      StepKeeps(k, cs[0]);
      RunsKeepInvariant(Step(k, cs[0]), cs[1..]);
    }
  }

  /** What the invariant says of one thread. */
  lemma PlaceOfThread(k: Kernel, t: Tid, l: ListId)
    requires Inv(k) && Started(k, t) && l in k.lists
    ensures k.tcb[t].stat == Ready ==> (t in k.lists[l] <==> l == ReadyQ(k.tcb[t].currentPriority))
    ensures k.tcb[t].stat == Suspend && t in k.lists[l] ==> l.WaitQ?
    ensures k.tcb[t].stat == Close && t in k.lists[l] ==> l == Defunct
  {
    hide NodesOnce, BitsSound;
    if k.tcb[t].stat == Ready { assert t in k.lists[ReadyQ(k.tcb[t].currentPriority)]; }
  }

  /** A resumed thread queues behind the threads of its priority that were ready before it. */
  lemma ResumedGoesLast(k: Kernel, t: Tid)
    requires Inv(k) && Started(k, t) && k.tcb[t].stat == Suspend
    ensures var p := k.tcb[t].currentPriority;
            var r := ResumeThread(k, t);
            && ReadyQ(p) in k.lists && ReadyQ(p) in r.lists && r.lists[ReadyQ(p)] == k.lists[ReadyQ(p)] + [t]
            && (forall l :: l in k.lists && l != ReadyQ(p) ==> r.lists[l] == Without(k.lists[l], t))
  {
    NotQueued(k, t, {});
    hide NodesOnce, ListedAgree, ReadyListed, Bitmap.Marked, Bitmap.WellFormed;
  }

  /** Yielding, the thread at the head of a shared queue goes to its end and the others move up in order. */
  lemma YieldRotates(k: Kernel, t: Tid)
    requires Inv(k) && Started(k, t) && k.tcb[t].stat == Ready
    ensures var q := ReadyQ(k.tcb[t].currentPriority);
            && q in k.lists && k.lists[q] != [] && q in YieldThread(k, t).lists
            && (k.lists[q][0] == t ==> YieldThread(k, t).lists[q] == k.lists[q][1..] + [t])
  {
    var q := ReadyQ(k.tcb[t].currentPriority);
    assert t in k.lists[q];
    assert Distinct(k.lists[q]);
    if k.lists[q][0] == t {
      var s := k.lists[q];
      assert s == [t] + s[1..];
      assert t !in s[1..];
    }
  }
}
