/** The thread calls that turn interrupts off more than once, or look at a thread before they do: suspend, resume,
    detach and delete, region by region. Between two regions of a call any other caller may take any step. */
module ThreadRegions {
  import opened Lists
  import ReadyBits
  import opened Threads

  /** A thread or an interrupt that makes calls. */
  type Caller = nat

  /** Where a caller stands inside a call, and on which thread. */
  datatype Flight =
    | Idle
    | Noticed(t: Tid)                // suspend: found READY, interrupts still on
    | Tested(t: Tid)                 // resume: found SUSPEND, interrupts still on
    | Unlinked(t: Tid)               // resume: off its list, not yet queued
    | Removed(t: Tid, kept: bool, quiet: bool)   // detach, delete: off its queue; quiet when its timer is off too
    | Closed(t: Tid)                 // delete: CLOSE, not yet on the defunct list

  /** `timed` are the threads whose timer is running: those in a timed wait, or asleep. */
  datatype Sys = Sys(k: Kernel, at: map<Caller, Flight>, timed: set<Tid>)

  datatype Region =
    | Whole(c: Call, timer: bool)                 // a call of one region; `timer` if it starts the thread's timer
    | Alarm(t: Tid)                               // the tick interrupt finds the thread's timer run out
    | TestReady(r: Caller, t: Tid) | Halt(r: Caller)
    | TestSuspend(r: Caller, t: Tid) | TakeOff(r: Caller) | QueueUp(r: Caller)
    | Dequeue(r: Caller, t: Tid, kept: bool) | Drop(r: Caller) | Shut(r: Caller) | LayOut(r: Caller)

  predicate InFlight(s: Sys, t: Tid) { exists r :: r in s.at && s.at[r] != Idle && s.at[r].t == t }

  /** The caller can take the step where it stands. */
  predicate Enabled(s: Sys, g: Region) {
    match g
    case Whole(c, timer) => Legal(s.k, c) && !c.DoTimeOut? && (timer ==> c.DoWait? || c.DoSuspend?)
    case Alarm(t) => t in s.timed && Legal(s.k, DoTimeOut(t))
    case TestReady(r, t) => r in s.at && s.at[r].Idle? && t in s.k.tcb && s.k.tcb[t].stat != Init
    case Halt(r) => r in s.at && s.at[r].Noticed? && s.at[r].t in s.k.tcb
    case TestSuspend(r, t) => r in s.at && s.at[r].Idle? && t in s.k.tcb && s.k.tcb[t].stat != Init
    case TakeOff(r) => r in s.at && s.at[r].Tested? && s.at[r].t in s.k.tcb
    case QueueUp(r) => r in s.at && s.at[r].Unlinked? && s.at[r].t in s.k.tcb
    case Dequeue(r, t, _) => r in s.at && s.at[r].Idle? && t in s.k.tcb && s.k.tcb[t].stat != Init
    case Drop(r) => r in s.at && s.at[r].Removed? && !s.at[r].quiet
    case Shut(r) => r in s.at && s.at[r].Removed? && s.at[r].quiet && s.at[r].t in s.k.tcb
    case LayOut(r) => r in s.at && s.at[r].Closed?
  }

  /** What callers see to: no call on a thread begins while another on the same thread is under way; and resume,
      detach and delete begin on no thread whose timer is running. The timer interrupt comes when it comes. */
  predicate Apart(s: Sys, g: Region) {
    match g
    case Whole(c, _) => !InFlight(s, c.t)
    case TestReady(_, t) => !InFlight(s, t)
    case TestSuspend(_, t) => !InFlight(s, t) && t !in s.timed
    case Dequeue(_, t, _) => !InFlight(s, t) && t !in s.timed
    case _ => true
  }

  /** The threads whose timer is running after a call: suspend and resume stop it, a timed wait starts it again. */
  function Armed(s: Sys, c: Call, timer: bool): set<Tid>
    requires Legal(s.k, c)
  {
    match c
    case DoSuspend(t) => if s.k.tcb[t].stat != Ready then s.timed else if timer then s.timed + {t} else s.timed - {t}
    case DoWait(t, _, _) => if timer then s.timed + {t} else s.timed - {t}
    case DoResume(t) => if s.k.tcb[t].stat != Suspend then s.timed else s.timed - {t}
    case DoStart(t) => s.timed - {t}
    case DoClose(t, _) => s.timed - {t}
    case _ => s.timed
  }

  function Apply(s: Sys, g: Region): Sys
    requires Enabled(s, g)
  {
    match g
    case Whole(c, timer) => s.(k := Step(s.k, c), timed := Armed(s, c, timer))
    case Alarm(t) => s.(k := Step(s.k, DoTimeOut(t)), timed := s.timed - {t})
    case TestReady(r, t) => s.(at := s.at[r := if s.k.tcb[t].stat == Ready then Noticed(t) else Idle])
    case Halt(r) =>
      var t := s.at[r].t;
      Sys(Remove(SetStat(s.k, t, Suspend), t), s.at[r := Idle], s.timed - {t})
    case TestSuspend(r, t) => s.(at := s.at[r := if s.k.tcb[t].stat == Suspend then Tested(t) else Idle])
    case TakeOff(r) => Sys(OffList(s.k, s.at[r].t), s.at[r := Unlinked(s.at[r].t)], s.timed - {s.at[r].t})
    case QueueUp(r) => s.(k := InsertReady(s.k, s.at[r].t), at := s.at[r := Idle])
    case Dequeue(r, t, kept) => s.(k := Remove(s.k, t), at := s.at[r := Removed(t, kept, false)])
    case Drop(r) => s.(at := s.at[r := Removed(s.at[r].t, s.at[r].kept, true)], timed := s.timed - {s.at[r].t})
    case Shut(r) =>
      s.(k := SetStat(s.k, s.at[r].t, Close), at := s.at[r := if s.at[r].kept then Closed(s.at[r].t) else Idle])
    case LayOut(r) => s.(k := Bury(s.k, s.at[r].t), at := s.at[r := Idle])
  }

  function OffList(k: Kernel, t: Tid): Kernel { k.(lists := Unlink(k.lists, t)) }

  // ----- the invariant with calls under way

  /** Threads that are on no queue although their state may still be READY. */
  ghost function Moving(at: map<Caller, Flight>): set<Tid> { set r | r in at && at[r].Removed? :: at[r].t }

  ghost predicate FlightOk(k: Kernel, f: Flight) {
    match f
    case Idle => true
    case Noticed(t) => Started(k, t)
    case Tested(t) => Started(k, t) && k.tcb[t].stat == Suspend
    case Unlinked(t) => Started(k, t) && k.tcb[t].stat == Suspend && Off(k, t)
    case Removed(t, _, _) => Started(k, t) && Off(k, t)
    case Closed(t) => Started(k, t) && k.tcb[t].stat == Close && Off(k, t)
  }

  ghost predicate OneEach(at: map<Caller, Flight>) {
    forall r, u :: r in at && u in at && r != u && at[r] != Idle && at[u] != Idle ==> at[r].t != at[u].t
  }

  /** Only suspended threads that nobody has in hand have a running timer. */
  ghost predicate TimersOk(s: Sys) {
    && (forall t :: t in s.timed ==> Started(s.k, t) && s.k.tcb[t].stat == Suspend)
    && (forall r :: r in s.at && s.at[r] != Idle ==> s.at[r].t !in s.timed)
  }

  ghost predicate Held(s: Sys) {
    && Sound(s.k, Moving(s.at)) && OneEach(s.at) && TimersOk(s)
    && forall r :: r in s.at ==> FlightOk(s.k, s.at[r])
  }

  /** With no call under way this is the invariant of Threads. */
  lemma QuietIsSound(s: Sys)
    requires Held(s) && forall r :: r in s.at ==> s.at[r] == Idle
    ensures Inv(s.k)
  {
    assert Moving(s.at) == {};
    hide Sound;
  }

  // ----- what a step on one thread leaves to the others

  ghost predicate Leaves(k: Kernel, l: Kernel, t: Tid) {
    && l.tcb.Keys == k.tcb.Keys
    && (forall u :: u in k.tcb && u != t ==> l.tcb[u] == k.tcb[u])
    && (forall u :: u != t && Off(k, u) ==> Off(l, u))
  }

  lemma LeavesTwice(k: Kernel, l: Kernel, m: Kernel, t: Tid)
    requires Leaves(k, l, t) && Leaves(l, m, t)
    ensures Leaves(k, m, t)
  {
    hide Off;
    assert forall u :: u in k.tcb <==> u in k.tcb.Keys;
    assert forall u :: u in l.tcb <==> u in l.tcb.Keys;
  }

  lemma SetStatLeaves(k: Kernel, t: Tid, c: Stat)
    requires t in k.tcb
    ensures Leaves(k, SetStat(k, t, c), t)
  {
  }

  lemma StatKnown(k: Kernel, t: Tid, c: Stat)
    requires t in k.tcb
    ensures t in SetStat(k, t, c).tcb
  {
  }

  lemma OffListLeaves(k: Kernel, t: Tid)
    ensures Leaves(k, OffList(k, t), t)
  {
  }

  lemma RemoveLeaves(k: Kernel, t: Tid)
    requires t in k.tcb
    ensures Leaves(k, Remove(k, t), t)
  {
  }

  lemma InsertLeaves(k: Kernel, t: Tid)
    requires t in k.tcb
    ensures Leaves(k, InsertReady(k, t), t)
  {
  }

  lemma BuryLeaves(k: Kernel, t: Tid)
    ensures Leaves(k, Bury(k, t), t)
  {
  }

  lemma PriorityLeaves(k: Kernel, t: Tid, p: nat)
    requires t in k.tcb
    ensures Leaves(k, SetPriority(k, t, p), t)
  {
  }

  lemma SelfLeaves(k: Kernel, t: Tid)
    ensures Leaves(k, k, t)
  {
  }

  lemma SuspendLeaves(k: Kernel, t: Tid)
    requires t in k.tcb
    ensures Leaves(k, SuspendThread(k, t), t)
  {
    hide Leaves, Remove, SetStat;
    SelfLeaves(k, t);
    SetStatLeaves(k, t, Suspend);
    if k.tcb[t].stat == Ready {
      StatKnown(k, t, Suspend);
      RemoveLeaves(SetStat(k, t, Suspend), t);
      LeavesTwice(k, SetStat(k, t, Suspend), Remove(SetStat(k, t, Suspend), t), t);
    }
  }

  lemma ResumeLeaves(k: Kernel, t: Tid)
    requires t in k.tcb
    ensures Leaves(k, ResumeThread(k, t), t)
  {
    hide Leaves, InsertReady, Unlink;
    SelfLeaves(k, t);
    if k.tcb[t].stat == Suspend {
      OffListLeaves(k, t);
      InsertLeaves(OffList(k, t), t);
      LeavesTwice(k, OffList(k, t), ResumeThread(k, t), t);
    }
  }

  lemma StartLeaves(k: Kernel, t: Tid)
    requires t in k.tcb
    ensures Leaves(k, StartThread(k, t), t)
  {
    var p := SetPriority(k, t, k.tcb[t].initPriority);
    PriorityLeaves(k, t, k.tcb[t].initPriority);
    SetStatLeaves(p, t, Suspend);
    ResumeLeaves(SetStat(p, t, Suspend), t);
    hide Leaves, ResumeThread;
    LeavesTwice(k, p, SetStat(p, t, Suspend), t);
    LeavesTwice(k, SetStat(p, t, Suspend), StartThread(k, t), t);
  }

  lemma CloseLeaves(k: Kernel, t: Tid, kept: bool)
    requires t in k.tcb
    ensures Leaves(k, CloseThread(k, t, kept), t)
  {
    RemoveTcb(k, t);
    hide Leaves, Remove, Bury;
    var m := Remove(k, t);
    RemoveLeaves(k, t);
    SetStatLeaves(m, t, Close);
    LeavesTwice(k, m, SetStat(m, t, Close), t);
    BuryLeaves(SetStat(m, t, Close), t);
    LeavesTwice(k, SetStat(m, t, Close), Bury(SetStat(m, t, Close), t), t);
  }

  lemma ChangePriorityLeaves(k: Kernel, t: Tid, p: nat)
    requires t in k.tcb
    ensures Leaves(k, ChangePriority(k, t, p), t)
  {
    RemoveTcb(k, t);
    hide Leaves, Remove, InsertReady;
    PriorityLeaves(k, t, p);
    var m := Remove(k, t);
    RemoveLeaves(k, t);
    PriorityLeaves(m, t, p);
    LeavesTwice(k, m, SetPriority(m, t, p), t);
    InsertLeaves(SetPriority(m, t, p), t);
    LeavesTwice(k, SetPriority(m, t, p), InsertReady(SetPriority(m, t, p), t), t);
  }

  lemma YieldLeaves(k: Kernel, t: Tid)
    requires t in k.tcb
    ensures Leaves(k, YieldThread(k, t), t)
  {
  }

  lemma SuspendOnLeaves(k: Kernel, t: Tid, o: nat, byPriority: bool)
    requires t in k.tcb
    ensures Leaves(k, SuspendOn(k, t, o, byPriority), t)
  {
    SuspendLeaves(k, t);
    var s := SuspendThread(k, t);
    if WaitQ(o) in s.lists {
      PutLeaves(s, WaitQ(o), WaitPlace(s, s.lists[WaitQ(o)], s.tcb[t].currentPriority, byPriority), t);
      LeavesTwice(k, s, SuspendOn(k, t, o, byPriority), t);
    }
    hide Leaves, SuspendThread, WaitPlace;
  }

  lemma PutLeaves(k: Kernel, l: ListId, i: nat, t: Tid)
    requires l in k.lists && i <= |k.lists[l]|
    ensures Leaves(k, k.(lists := PutAt(k.lists, l, i, t)), t)
  {
    assert k.lists[l] == k.lists[l][..i] + k.lists[l][i..];
  }

  lemma TimeOutLeaves(k: Kernel, t: Tid)
    requires t in k.tcb
    ensures Leaves(k, TimeOutThread(k, t), t)
  {
    var e := k.(tcb := k.tcb[t := k.tcb[t].(error := ETIMEDOUT)]);
    assert Leaves(k, e, t);
    ResumeLeaves(e, t);
    hide Leaves, ResumeThread;
    LeavesTwice(k, e, TimeOutThread(k, t), t);
  }

  lemma StepLeaves(k: Kernel, c: Call)
    requires Legal(k, c)
    ensures Leaves(k, Step(k, c), c.t)
  {
    hide Leaves;
    match c
    case DoStart(t) => StartLeaves(k, t);
    case DoSuspend(t) => SuspendLeaves(k, t);
    case DoResume(t) => ResumeLeaves(k, t);
    case DoTimeOut(t) => TimeOutLeaves(k, t);
    case DoYield(t) => YieldLeaves(k, t);
    case DoClose(t, kept) => CloseLeaves(k, t, kept);
    case DoPriority(t, p) => ChangePriorityLeaves(k, t, p);
    case DoWait(t, o, b) => SuspendOnLeaves(k, t, o, b);
  }

  // ----- every step keeps it

  lemma FlightLeft(k: Kernel, l: Kernel, t: Tid, f: Flight)
    requires FlightOk(k, f) && Leaves(k, l, t) && (f == Idle || f.t != t)
    ensures FlightOk(l, f)
  {
    hide Off;
    assert forall u :: u in k.tcb <==> u in k.tcb.Keys;
    assert forall u :: u in l.tcb <==> u in l.tcb.Keys;
  }

  /** What is left to show of a step of caller r on thread t. */
  lemma Settled(s: Sys, l: Kernel, r: Caller, t: Tid, f: Flight, timed: set<Tid>)
    requires Held(s) && r in s.at && Leaves(s.k, l, t) && FlightOk(l, f) && (f == Idle || f.t == t)
    requires Sound(l, Moving(s.at[r := f])) && OneEach(s.at[r := f])
    requires forall u :: u in s.at && u != r && s.at[u] != Idle ==> s.at[u].t != t
    requires timed <= s.timed && (t in timed ==> f == Idle && l == s.k)
    ensures Held(Sys(l, s.at[r := f], timed))
  {
    hide Sound, FlightOk, Moving, Off, OneEach;
    var at := s.at[r := f];
    forall u | u in at ensures FlightOk(l, at[u]) {
      if u != r { FlightLeft(s.k, l, t, s.at[u]); }
    }
    TimersLeft(s, l, t, timed);
  }

  lemma TimersLeft(s: Sys, l: Kernel, t: Tid, timed: set<Tid>)
    requires TimersOk(s) && Leaves(s.k, l, t) && timed <= s.timed && (t in timed ==> l == s.k)
    ensures forall u :: u in timed ==> Started(l, u) && l.tcb[u].stat == Suspend
  {
    hide Off;
    assert forall u :: u in s.k.tcb <==> u in s.k.tcb.Keys;
    assert forall u :: u in l.tcb <==> u in l.tcb.Keys;
  }

  /** The threads in hand change by caller r's own only. */
  lemma MovingSet(at: map<Caller, Flight>, r: Caller, f: Flight)
    requires r in at && OneEach(at[r := f]) && (at[r].Removed? && f.Removed? ==> at[r].t == f.t)
    requires OneEach(at)
    ensures Moving(at[r := f])
         == Moving(at) - (if at[r].Removed? then {at[r].t} else {}) + (if f.Removed? then {f.t} else {})
  {
    var a := at[r := f];
    forall t ensures t in Moving(a) <==>
        t in Moving(at) - (if at[r].Removed? then {at[r].t} else {}) + (if f.Removed? then {f.t} else {}) {
      if t in Moving(at) && !(at[r].Removed? && at[r].t == t) {
        var u :| u in at && at[u].Removed? && at[u].t == t;
        assert u != r;
        assert a[u] == at[u];
      }
      if f.Removed? { assert a[r] == f; }
    }
  }

  lemma NotMoving(s: Sys, t: Tid)
    requires !InFlight(s, t)
    ensures t !in Moving(s.at)
    ensures forall u :: u in s.at && s.at[u] != Idle ==> s.at[u].t != t
  {
  }

  /** The thread a caller has in hand is nobody else's. */
  lemma OwnFlight(s: Sys, r: Caller)
    requires Held(s) && r in s.at && s.at[r] != Idle
    ensures forall u :: u in s.at && u != r && s.at[u] != Idle ==> s.at[u].t != s.at[r].t
    ensures s.at[r].t in Moving(s.at) <==> s.at[r].Removed?
    ensures FlightOk(s.k, s.at[r]) && s.at[r].t !in s.timed
  {
    hide Sound, FlightOk;
    if s.at[r].Removed? { assert s.at[r].t in Moving(s.at); }
  }

  lemma OneEachSet(at: map<Caller, Flight>, r: Caller, f: Flight)
    requires OneEach(at) && r in at
    requires f == Idle || forall u :: u in at && u != r && at[u] != Idle ==> at[u].t != f.t
    ensures OneEach(at[r := f])
  {
  }

  /** A step of caller r on the thread it has in hand, or takes in hand. */
  lemma CallerStep(s: Sys, l: Kernel, r: Caller, t: Tid, f: Flight, timed: set<Tid>)
    requires Held(s) && r in s.at && Leaves(s.k, l, t) && FlightOk(l, f) && (f == Idle || f.t == t)
    requires s.at[r] == Idle || s.at[r].t == t
    requires forall u :: u in s.at && u != r && s.at[u] != Idle ==> s.at[u].t != t
    requires Sound(l, Moving(s.at) - {t} + if f.Removed? then {t} else {})
    requires timed <= s.timed && (t in timed ==> f == Idle && l == s.k)
    ensures Held(Sys(l, s.at[r := f], timed))
  {
    hide Sound, Leaves, FlightOk, Moving, TimersOk;
    OneEachSet(s.at, r, f);
    MovingSet(s.at, r, f);
    NotOthers(s, r, t);
    assert Moving(s.at[r := f]) == Moving(s.at) - {t} + if f.Removed? then {t} else {};
    Settled(s, l, r, t, f, timed);
  }

  lemma NotOthers(s: Sys, r: Caller, t: Tid)
    requires r in s.at && forall u :: u in s.at && u != r && s.at[u] != Idle ==> s.at[u].t != t
    ensures t in Moving(s.at) ==> s.at[r].Removed? && s.at[r].t == t
  {
  }

  lemma WholeKeeps(s: Sys, c: Call, timer: bool)
    requires Held(s) && Enabled(s, Whole(c, timer)) && Apart(s, Whole(c, timer))
    ensures Held(Apply(s, Whole(c, timer)))
  {
    hide Sound, Leaves, Step, FlightOk, Legal;
    NotMoving(s, c.t);
    StepSound(s.k, c, Moving(s.at));
    StepLeaves(s.k, c);
    forall u | u in s.at ensures FlightOk(Step(s.k, c), s.at[u]) { FlightLeft(s.k, Step(s.k, c), c.t, s.at[u]); }
    ArmedOthers(s, c, timer);
    TimersLeft(s, Step(s.k, c), c.t, s.timed - {c.t});
    if c.t in Armed(s, c, timer) { ArmedOk(s, c, timer); }
  }

  lemma ArmedOthers(s: Sys, c: Call, timer: bool)
    requires Legal(s.k, c)
    ensures Armed(s, c, timer) - {c.t} == s.timed - {c.t}
  {
  }

  /** A thread whose timer is running after a call on it is suspended. */
  lemma ArmedOk(s: Sys, c: Call, timer: bool)
    requires TimersOk(s) && Enabled(s, Whole(c, timer)) && c.t in Armed(s, c, timer)
    ensures Started(Step(s.k, c), c.t) && Step(s.k, c).tcb[c.t].stat == Suspend
  {
    var k, t := s.k, c.t;
    if c.DoPriority? {
      PriorityStat(k, t, c.p);
    } else if c.DoSuspend? || c.DoWait? {
      RemoveTcb(SetStat(k, t, Suspend), t);
    }
    hide Remove, InsertReady;
  }

  lemma PriorityStat(k: Kernel, t: Tid, p: nat)
    requires t in k.tcb
    ensures t in ChangePriority(k, t, p).tcb && ChangePriority(k, t, p).tcb[t].stat == k.tcb[t].stat
  {
    RemoveTcb(k, t);
    hide Remove;
  }

  /** The timer interrupt needs no caller's care: what has a running timer nobody has in hand. */
  lemma AlarmKeeps(s: Sys, t: Tid)
    requires Held(s) && Enabled(s, Alarm(t))
    ensures Held(Apply(s, Alarm(t)))
  {
    hide Sound, Leaves, Step, FlightOk, Legal;
    NotHeldTimed(s, t);
    StepSound(s.k, DoTimeOut(t), Moving(s.at));
    StepLeaves(s.k, DoTimeOut(t));
    var l := Step(s.k, DoTimeOut(t));
    forall u | u in s.at ensures FlightOk(l, s.at[u]) { FlightLeft(s.k, l, t, s.at[u]); }
    TimersLeft(s, l, t, s.timed - {t});
  }

  lemma NotHeldTimed(s: Sys, t: Tid)
    requires TimersOk(s) && t in s.timed
    ensures t !in Moving(s.at)
    ensures forall u :: u in s.at && s.at[u] != Idle ==> s.at[u].t != t
  {
  }

  lemma TestsKeep(s: Sys, g: Region)
    requires Held(s) && Enabled(s, g) && Apart(s, g) && (g.TestReady? || g.TestSuspend?)
    ensures Held(Apply(s, g))
  {
    hide Sound, Leaves, Off;
    NotMoving(s, g.t);
    SelfLeaves(s.k, g.t);
    assert Moving(s.at) - {g.t} + {} == Moving(s.at);
    CallerStep(s, s.k, g.r, g.t, Apply(s, g).at[g.r], s.timed);
  }

  lemma HaltKeeps(s: Sys, r: Caller)
    requires Held(s) && Enabled(s, Halt(r))
    ensures Held(Apply(s, Halt(r)))
  {
    hide Sound, Leaves, Off, Remove, Held;
    OwnFlight(s, r);
    var t, m := s.at[r].t, SetStat(s.k, s.at[r].t, Suspend);
    var moving := Moving(s.at);
    SoundOf(s);
    SetStatMoves(s.k, t, Suspend, moving, moving + {t});
    SetStatLeaves(s.k, t, Suspend);
    RemoveKeeps(m, t, moving + {t}, moving + {t});
    RemoveLeaves(m, t);
    RemoveTcb(m, t);
    LeavesTwice(s.k, m, Remove(m, t), t);
    Settle(Remove(m, t), t, moving + {t}, moving);
    assert moving - {t} + {} == moving;
    CallerStep(s, Remove(m, t), r, t, Idle, s.timed - {t});
  }

  lemma SoundOf(s: Sys)
    requires Held(s)
    ensures Sound(s.k, Moving(s.at))
  {
    hide Sound;
  }

  lemma TakeOffKeeps(s: Sys, r: Caller)
    requires Held(s) && Enabled(s, TakeOff(r))
    ensures Held(Apply(s, TakeOff(r)))
  {
    hide Sound, Leaves, Off, Unlink, Held;
    OwnFlight(s, r);
    SoundOf(s);
    var t := s.at[r].t;
    UnlinkSound(s.k, t, Moving(s.at));
    OffListLeaves(s.k, t);
    assert Moving(s.at) - {t} + {} == Moving(s.at);
    CallerStep(s, OffList(s.k, t), r, t, Unlinked(t), s.timed - {t});
  }

  lemma QueueUpKeeps(s: Sys, r: Caller)
    requires Held(s) && Enabled(s, QueueUp(r))
    ensures Held(Apply(s, QueueUp(r)))
  {
    hide Sound, Leaves, Off, InsertReady, Held;
    OwnFlight(s, r);
    SoundOf(s);
    var t := s.at[r].t;
    InsertKeeps(s.k, t, Moving(s.at), Moving(s.at));
    InsertLeaves(s.k, t);
    assert Moving(s.at) - {t} + {} == Moving(s.at);
    CallerStep(s, InsertReady(s.k, t), r, t, Idle, s.timed);
  }

  lemma DequeueKeeps(s: Sys, r: Caller, t: Tid, kept: bool)
    requires Held(s) && Enabled(s, Dequeue(r, t, kept)) && Apart(s, Dequeue(r, t, kept))
    ensures Held(Apply(s, Dequeue(r, t, kept)))
  {
    hide Sound, Leaves, Off, Remove, Held;
    NotMoving(s, t);
    SoundOf(s);
    RemoveKeeps(s.k, t, Moving(s.at), Moving(s.at) + {t});
    RemoveLeaves(s.k, t);
    RemoveTcb(s.k, t);
    assert Moving(s.at) - {t} + {t} == Moving(s.at) + {t};
    CallerStep(s, Remove(s.k, t), r, t, Removed(t, kept, false), s.timed);
  }

  lemma DropKeeps(s: Sys, r: Caller)
    requires Held(s) && Enabled(s, Drop(r))
    ensures Held(Apply(s, Drop(r)))
  {
    hide Sound, Leaves, Off, Held;
    OwnFlight(s, r);
    SoundOf(s);
    var t := s.at[r].t;
    SelfLeaves(s.k, t);
    assert Moving(s.at) - {t} + {t} == Moving(s.at);
    CallerStep(s, s.k, r, t, Removed(t, s.at[r].kept, true), s.timed - {t});
  }

  lemma ShutKeeps(s: Sys, r: Caller)
    requires Held(s) && Enabled(s, Shut(r))
    ensures Held(Apply(s, Shut(r)))
  {
    hide Sound, Leaves, Off, Held;
    OwnFlight(s, r);
    SoundOf(s);
    var t := s.at[r].t;
    var moving := Moving(s.at) - {t};
    assert moving + {t} == Moving(s.at);
    ClosedSound(s.k, t, moving);
    SetStatLeaves(s.k, t, Close);
    assert moving + {} == moving;
    CallerStep(s, SetStat(s.k, t, Close), r, t, Apply(s, Shut(r)).at[r], s.timed);
  }

  lemma LayOutKeeps(s: Sys, r: Caller)
    requires Held(s) && Enabled(s, LayOut(r))
    ensures Held(Apply(s, LayOut(r)))
  {
    hide Sound, Leaves, Off, Bury, Held;
    OwnFlight(s, r);
    SoundOf(s);
    var t := s.at[r].t;
    DefunctSound(s.k, t, Moving(s.at));
    BuryLeaves(s.k, t);
    assert Moving(s.at) - {t} + {} == Moving(s.at);
    CallerStep(s, Bury(s.k, t), r, t, Idle, s.timed);
  }

  lemma RegionKeeps(s: Sys, g: Region)
    requires Held(s) && Enabled(s, g) && Apart(s, g)
    ensures Held(Apply(s, g))
  {
    hide Held, Enabled, Apart, Apply;
    match g
    case Whole(c, timer) => WholeKeeps(s, c, timer);
    case Alarm(t) => AlarmKeeps(s, t);
    case TestReady(_, _) => TestsKeep(s, g);
    case Halt(r) => HaltKeeps(s, r);
    case TestSuspend(_, _) => TestsKeep(s, g);
    case TakeOff(r) => TakeOffKeeps(s, r);
    case QueueUp(r) => QueueUpKeeps(s, r);
    case Dequeue(r, t, kept) => DequeueKeeps(s, r, t, kept);
    case Drop(r) => DropKeeps(s, r);
    case Shut(r) => ShutKeeps(s, r);
    case LayOut(r) => LayOutKeeps(s, r);
  }

  // ----- every interleaving

  predicate ApartRun(s: Sys, gs: seq<Region>)
    decreases |gs|
  {
    gs != [] ==> Enabled(s, gs[0]) && Apart(s, gs[0]) && ApartRun(Apply(s, gs[0]), gs[1..])
  }

  predicate Run(s: Sys, gs: seq<Region>)
    decreases |gs|
  {
    gs != [] ==> Enabled(s, gs[0]) && Run(Apply(s, gs[0]), gs[1..])
  }

  function After(s: Sys, gs: seq<Region>): Sys
    requires Run(s, gs)
    decreases |gs|
  {
    if gs == [] then s else After(Apply(s, gs[0]), gs[1..])
  }

  lemma {:induction false} ApartIsRun(s: Sys, gs: seq<Region>)
    requires ApartRun(s, gs)
    ensures Run(s, gs)
    decreases |gs|
  {
    if gs != [] { ApartIsRun(Apply(s, gs[0]), gs[1..]); }
  }

  /** However the regions of all callers interleave, as long as no two calls on one thread overlap and no resume,
      detach or delete begins on a thread whose timer is running, and whenever timers run out: every thread is where its
      state, or the call that has it in hand, says, and the ready bits are right. */
  lemma {:induction false} InterleavingsKeepInvariant(s: Sys, gs: seq<Region>)
    requires Held(s) && ApartRun(s, gs)
    ensures Run(s, gs) && Held(After(s, gs))
    decreases |gs|
  {
    hide Held, Enabled, Apart, Apply;
    ApartIsRun(s, gs);
    if gs != [] {
      RegionKeeps(s, gs[0]);
      InterleavingsKeepInvariant(Apply(s, gs[0]), gs[1..]);
    }
  }

  /** Undisturbed, the regions of a resume amount to ResumeThread. */
  lemma ResumeIsItsRegions(s: Sys, r: Caller, t: Tid)
    requires r in s.at && s.at[r] == Idle && Started(s.k, t) && s.k.tcb[t].stat == Suspend
    ensures Run(s, [TestSuspend(r, t), TakeOff(r), QueueUp(r)])
    ensures After(s, [TestSuspend(r, t), TakeOff(r), QueueUp(r)])
         == s.(k := ResumeThread(s.k, t), timed := s.timed - {t})
  {
    hide InsertReady, Unlink;
    var s1 := Apply(s, TestSuspend(r, t));
    var s2 := Apply(s1, TakeOff(r));
    ThreeSteps(s, TestSuspend(r, t), TakeOff(r), QueueUp(r));
    assert s2.at[r := Idle] == s.at;
  }

  lemma ThreeSteps(s: Sys, a: Region, b: Region, c: Region)
    requires Enabled(s, a) && Enabled(Apply(s, a), b) && Enabled(Apply(Apply(s, a), b), c)
    ensures Run(s, [a, b, c]) && After(s, [a, b, c]) == Apply(Apply(Apply(s, a), b), c)
  {
    hide Enabled, Apply;
    var s1 := Apply(s, a);
    var s2 := Apply(s1, b);
    var s3 := Apply(s2, c);
    assert [a, b, c][1..] == [b, c] && [b, c][1..] == [c] && [c][1..] == [];
    assert Run(s3, []) && After(s3, []) == s3;
    assert Run(s2, [c]) && After(s2, [c]) == s3;
    assert Run(s1, [b, c]) && After(s1, [b, c]) == s3;
  }

  /** Likewise those of a delete, and of a detach with a cleanup function. */
  lemma CloseIsItsRegions(s: Sys, r: Caller, t: Tid)
    requires r in s.at && s.at[r] == Idle && Started(s.k, t)
    ensures Run(s, [Dequeue(r, t, true), Drop(r), Shut(r), LayOut(r)])
    ensures After(s, [Dequeue(r, t, true), Drop(r), Shut(r), LayOut(r)])
         == s.(k := CloseThread(s.k, t, true), timed := s.timed - {t})
  {
    RemoveTcb(s.k, t);
    hide Remove, Bury;
    var s1 := Apply(s, Dequeue(r, t, true));
    var s2 := Apply(s1, Drop(r));
    var s3 := Apply(s2, Shut(r));
    FourSteps(s, Dequeue(r, t, true), Drop(r), Shut(r), LayOut(r));
    assert s3.at[r := Idle] == s.at;
  }

  lemma FourSteps(s: Sys, a: Region, b: Region, c: Region, d: Region)
    requires Enabled(s, a) && Enabled(Apply(s, a), b) && Enabled(Apply(Apply(s, a), b), c)
    requires Enabled(Apply(Apply(Apply(s, a), b), c), d)
    ensures Run(s, [a, b, c, d]) && After(s, [a, b, c, d]) == Apply(Apply(Apply(Apply(s, a), b), c), d)
  {
    hide Enabled, Apply;
    ThreeSteps(Apply(s, a), b, c, d);
    assert [a, b, c, d][1..] == [b, c, d];
  }

  // ----- which regions need the thread as their call found it

  /** The second region of a resume is safe exactly when the thread is still on no list. */
  lemma QueueUpExactly(k: Kernel, t: Tid)
    requires Inv(k) && Started(k, t)
    ensures Inv(InsertReady(k, t)) <==> Off(k, t)
  {
    hide Sound, InsertReady;
    if Off(k, t) {
      InsertKeeps(k, t, {}, {});
    } else {
      TwiceListed(k, t);
    }
  }

  lemma TwiceListed(k: Kernel, t: Tid)
    requires Inv(k) && Started(k, t) && !Off(k, t)
    ensures !Inv(InsertReady(k, t))
  {
    var l :| l in k.lists && t in k.lists[l];
    var r, q := InsertReady(k, t), ReadyQ(k.tcb[t].currentPriority);
    hide ReadyBits.SetMark, ReadyBits.Bitmap.Marked, ReadyBits.Bitmap.WellFormed, ListedAgree, ReadyListed;
    assert r.lists[q] == k.lists[q] + [t];
    if l == q {
      var i :| 0 <= i < |k.lists[q]| && k.lists[q][i] == t;
      assert r.lists[q][i] == r.lists[q][|k.lists[q]|] == t;
      assert !Distinct(r.lists[q]);
    } else {
      assert t in r.lists[l] && t in r.lists[q];
      assert !NodesOnce(r.lists);
    }
  }

  /** The first one is safe exactly when the thread has not been made READY since it was looked at. */
  lemma TakeOffExactly(k: Kernel, t: Tid)
    requires Inv(k) && Started(k, t)
    ensures Inv(OffList(k, t)) <==> k.tcb[t].stat != Ready
  {
    hide Sound, Unlink;
    if k.tcb[t].stat != Ready {
      UnlinkSound(k, t, {});
    } else {
      Unlisted(k, t);
    }
  }

  lemma Unlisted(k: Kernel, t: Tid)
    requires Inv(k) && Started(k, t) && k.tcb[t].stat == Ready
    ensures !Inv(OffList(k, t))
  {
    hide NodesOnce, ListedAgree, BitsSound, MasksSound;
  }

  /** The region of a suspend is safe whatever has become of the thread since it was found READY. */
  lemma HaltSafe(k: Kernel, t: Tid, moving: set<Tid>)
    requires Sound(k, moving) && Started(k, t)
    ensures Sound(Remove(SetStat(k, t, Suspend), t), moving - {t})
  {
    hide Sound, Off, Remove;
    var m := SetStat(k, t, Suspend);
    SetStatMoves(k, t, Suspend, moving, moving + {t});
    RemoveKeeps(m, t, moving + {t}, moving + {t});
    RemoveTcb(m, t);
    Settle(Remove(m, t), t, moving + {t}, moving - {t});
  }

  /** A delete or detach closes the thread in its hands safely exactly when nobody has listed it meanwhile. */
  lemma ShutExactly(k: Kernel, t: Tid, moving: set<Tid>)
    requires Sound(k, moving + {t}) && Started(k, t) && t !in moving
    ensures Sound(SetStat(k, t, Close), moving) <==> forall l :: l in k.lists && t in k.lists[l] ==> l == Defunct
  {
    hide NodesOnce, ReadyBits.Bitmap.Marked, ReadyBits.Bitmap.WellFormed;
    var m := SetStat(k, t, Close);
    if Sound(m, moving) {
      forall l | l in k.lists && t in k.lists[l] ensures l == Defunct { assert Agrees(m.tcb[t], l, t in moving); }
    }
  }

  /** Its last region is safe exactly when the thread is CLOSE and on no list. */
  lemma LayOutExactly(k: Kernel, t: Tid, moving: set<Tid>)
    requires Sound(k, moving) && Started(k, t) && t !in moving
    ensures Sound(Bury(k, t), moving) <==> Off(k, t) && k.tcb[t].stat == Close
  {
    if Off(k, t) && k.tcb[t].stat == Close {
      DefunctSound(k, t, moving);
    } else {
      BuriedTwice(k, t, moving);
    }
    hide Sound, Off, Bury;
  }

  lemma BuriedTwice(k: Kernel, t: Tid, moving: set<Tid>)
    requires Sound(k, moving) && Started(k, t) && t !in moving && !(Off(k, t) && k.tcb[t].stat == Close)
    ensures !Sound(Bury(k, t), moving)
  {
    hide ReadyBits.Bitmap.Marked, ReadyBits.Bitmap.WellFormed, BitsSound, MasksSound, ReadyListed;
    var r := Bury(k, t);
    assert r.lists[Defunct] == [t] + k.lists[Defunct];
    assert t in r.lists[Defunct];
    if k.tcb[t].stat != Close {
      assert !Agrees(r.tcb[t], Defunct, t in moving);
    } else {
      var l :| l in k.lists && t in k.lists[l];
      assert Agrees(k.tcb[t], l, t in moving);
      var i :| 0 <= i < |k.lists[l]| && k.lists[l][i] == t;
      assert r.lists[Defunct][0] == r.lists[Defunct][i + 1] == t;
      assert !Distinct(r.lists[Defunct]);
    }
  }

  // ----- when a timer runs out inside a call

  /** A delete or detach is safe, whatever calls the others make on other threads and whenever timers run out,
      exactly when the thread's timer is not running as it begins. */
  lemma DequeueSafeExactly(s: Sys, r: Caller, t: Tid, kept: bool)
    requires Held(s) && Enabled(s, Dequeue(r, t, kept)) && !InFlight(s, t)
    ensures (forall gs :: ApartRun(Apply(s, Dequeue(r, t, kept)), gs) ==> StaysSound(Apply(s, Dequeue(r, t, kept)), gs))
       <==> t !in s.timed
  {
    var g := Dequeue(r, t, kept);
    if t !in s.timed {
      RegionKeeps(s, g);
      forall gs | ApartRun(Apply(s, g), gs) ensures StaysSound(Apply(s, g), gs) { HeldIsSound(Apply(s, g), gs); }
    } else {
      TimeoutBreaksDelete(s, r, t, kept);
    }
    hide Held, Enabled, Apply, ApartRun, StaysSound;
  }

  /** So is a resume. */
  lemma ResumeSafeExactly(s: Sys, r: Caller, t: Tid)
    requires Held(s) && Enabled(s, TestSuspend(r, t)) && !InFlight(s, t)
    ensures (forall gs :: ApartRun(Apply(s, TestSuspend(r, t)), gs) ==> StaysSound(Apply(s, TestSuspend(r, t)), gs))
       <==> t !in s.timed
  {
    var g := TestSuspend(r, t);
    if t !in s.timed {
      RegionKeeps(s, g);
      forall gs | ApartRun(Apply(s, g), gs) ensures StaysSound(Apply(s, g), gs) { HeldIsSound(Apply(s, g), gs); }
    } else {
      TimeoutBreaksResume(s, r, t);
    }
    hide Held, Enabled, Apply, ApartRun, StaysSound;
  }

  ghost predicate StaysSound(s: Sys, gs: seq<Region>) {
    Run(s, gs) && Sound(After(s, gs).k, Moving(After(s, gs).at))
  }

  lemma HeldIsSound(s: Sys, gs: seq<Region>)
    requires Held(s) && ApartRun(s, gs)
    ensures StaysSound(s, gs)
  {
    InterleavingsKeepInvariant(s, gs);
    SoundOf(After(s, gs));
    hide Held, Sound, Run, After, ApartRun;
  }

  /** The timer runs out between the unlinking and rt_timer_detach: the thread is queued READY, and then CLOSE. */
  lemma TimeoutBreaksDelete(s: Sys, r: Caller, t: Tid, kept: bool)
    requires Held(s) && Enabled(s, Dequeue(r, t, kept)) && t in s.timed
    ensures var gs := [Alarm(t), Drop(r), Shut(r)];
            ApartRun(Apply(s, Dequeue(r, t, kept)), gs) && !StaysSound(Apply(s, Dequeue(r, t, kept)), gs)
  {
    hide Remove, TimeOutThread, Sound, Moving, Run, After, ApartRun, Held, InFlight, Enabled, Apart, Apply, Legal, Step;
    SoundQueues(s, t);
    DequeueIs(s, r, t, kept);
    var s1 := Apply(s, Dequeue(r, t, kept));
    TimedOut(s1.k, t);
    AlarmIs(s1, t);
    var s2 := Apply(s1, Alarm(t));
    DropIs(s2, r);
    var s3 := Apply(s2, Drop(r));
    ShutIs(s3, r);
    var s4 := Apply(s3, Shut(r));
    ThreeSteps(s1, Alarm(t), Drop(r), Shut(r));
    ThreeApart(s1, Alarm(t), Drop(r), Shut(r));
    NobodyMoves(s, s4, r, t);
    ClosedOnQueue(s4.k, t, Moving(s4.at));
  }

  lemma DequeueIs(s: Sys, r: Caller, t: Tid, kept: bool)
    requires Enabled(s, Dequeue(r, t, kept))
    ensures r in s.at && t in s.k.tcb
    ensures Apply(s, Dequeue(r, t, kept)) == Sys(Remove(s.k, t), s.at[r := Removed(t, kept, false)], s.timed)
    ensures Remove(s.k, t).tcb == s.k.tcb && Remove(s.k, t).lists.Keys == s.k.lists.Keys
  {
    RemoveTcb(s.k, t);
    hide Legal, Step, InFlight, Remove;
  }

  lemma AlarmIs(s: Sys, t: Tid)
    requires t in s.timed && t in s.k.tcb && s.k.tcb[t].stat == Suspend
    ensures Enabled(s, Alarm(t)) && Apart(s, Alarm(t))
    ensures Apply(s, Alarm(t)) == Sys(TimeOutThread(s.k, t), s.at, s.timed - {t})
  {
    hide TimeOutThread, InFlight;
  }

  lemma DropIs(s: Sys, r: Caller)
    requires r in s.at && s.at[r].Removed? && !s.at[r].quiet
    ensures Enabled(s, Drop(r)) && Apart(s, Drop(r))
    ensures Apply(s, Drop(r)) == Sys(s.k, s.at[r := Removed(s.at[r].t, s.at[r].kept, true)], s.timed - {s.at[r].t})
  {
    hide Legal, Step, InFlight;
  }

  lemma ShutIs(s: Sys, r: Caller)
    requires r in s.at && s.at[r].Removed? && s.at[r].quiet && s.at[r].t in s.k.tcb
    ensures Enabled(s, Shut(r)) && Apart(s, Shut(r))
    ensures Apply(s, Shut(r)).k == SetStat(s.k, s.at[r].t, Close)
    ensures Apply(s, Shut(r)).at == s.at[r := if s.at[r].kept then Closed(s.at[r].t) else Idle]
  {
    hide Legal, Step, InFlight;
  }

  /** It runs out after a resume has found the thread suspended: the READY thread is taken off its queue. */
  lemma TimeoutBreaksResume(s: Sys, r: Caller, t: Tid)
    requires Held(s) && Enabled(s, TestSuspend(r, t)) && t in s.timed
    ensures var gs := [Alarm(t), TakeOff(r)];
            ApartRun(Apply(s, TestSuspend(r, t)), gs) && !StaysSound(Apply(s, TestSuspend(r, t)), gs)
  {
    hide TimeOutThread, Sound, Moving, Run, After, ApartRun, Held, InFlight;
    hide Enabled, Apart, Apply, Legal, Step, OffList;
    SoundQueues(s, t);
    TestIs(s, r, t);
    var s1 := Apply(s, TestSuspend(r, t));
    TimedOut(s1.k, t);
    AlarmIs(s1, t);
    var s2 := Apply(s1, Alarm(t));
    TakeOffIs(s2, r);
    var s3 := Apply(s2, TakeOff(r));
    TwoSteps(s1, Alarm(t), TakeOff(r));
    TwoApart(s1, Alarm(t), TakeOff(r));
    NobodyMoves(s, s3, r, t);
    ReadyOffQueue(s2.k, t, Moving(s3.at));
  }

  lemma TestIs(s: Sys, r: Caller, t: Tid)
    requires Enabled(s, TestSuspend(r, t)) && s.k.tcb[t].stat == Suspend
    ensures r in s.at && Apply(s, TestSuspend(r, t)) == Sys(s.k, s.at[r := Tested(t)], s.timed)
  {
    hide Legal, Step, InFlight;
  }

  lemma TakeOffIs(s: Sys, r: Caller)
    requires r in s.at && s.at[r].Tested? && s.at[r].t in s.k.tcb
    ensures Enabled(s, TakeOff(r)) && Apart(s, TakeOff(r))
    ensures Apply(s, TakeOff(r)).k == OffList(s.k, s.at[r].t)
    ensures Apply(s, TakeOff(r)).at == s.at[r := Unlinked(s.at[r].t)]
  {
    hide Legal, Step, InFlight, OffList;
  }

  lemma SoundQueues(s: Sys, t: Tid)
    requires Held(s) && t in s.timed
    ensures Started(s.k, t) && s.k.tcb[t].stat == Suspend && ReadyQ(s.k.tcb[t].currentPriority) in s.k.lists
  {
    hide NodesOnce, ListedAgree, ReadyListed, BitsSound;
  }

  /** Nobody but caller r takes or leaves a thread, and t was in nobody's hands. */
  lemma NobodyMoves(s: Sys, e: Sys, r: Caller, t: Tid)
    requires Held(s) && t in s.timed && r in s.at && e.at.Keys == s.at.Keys && !e.at[r].Removed?
    requires forall u :: u in s.at && u != r ==> e.at[u] == s.at[u]
    ensures t !in Moving(e.at)
  {
    hide Sound, FlightOk, OneEach;
  }

  lemma TimedOut(k: Kernel, t: Tid)
    requires t in k.tcb && k.tcb[t].stat == Suspend && ReadyQ(k.tcb[t].currentPriority) in k.lists
    ensures var l, q := TimeOutThread(k, t), ReadyQ(k.tcb[t].currentPriority);
            t in l.tcb && l.tcb[t].stat == Ready && q in l.lists && t in l.lists[q]
  {
  }

  lemma ClosedOnQueue(k: Kernel, t: Tid, moving: set<Tid>)
    requires t in k.tcb && k.tcb[t].stat == Close && t !in moving
    requires exists p :: ReadyQ(p) in k.lists && t in k.lists[ReadyQ(p)]
    ensures !Sound(k, moving)
  {
    hide NodesOnce, ReadyListed, MasksSound, BitsSound;
  }

  lemma ReadyOffQueue(k: Kernel, t: Tid, moving: set<Tid>)
    requires t in k.tcb && k.tcb[t].stat == Ready && t !in moving
    ensures !Sound(OffList(k, t), moving)
  {
    hide NodesOnce, ListedAgree, MasksSound, BitsSound;
  }

  lemma TwoSteps(s: Sys, a: Region, b: Region)
    requires Enabled(s, a) && Enabled(Apply(s, a), b)
    ensures Run(s, [a, b]) && After(s, [a, b]) == Apply(Apply(s, a), b)
  {
    hide Enabled, Apply;
    var s1 := Apply(s, a);
    assert [a, b][1..] == [b] && [b][1..] == [];
    assert Run(Apply(s1, b), []);
    assert Run(s1, [b]) && After(s1, [b]) == Apply(s1, b);
  }

  lemma TwoApart(s: Sys, a: Region, b: Region)
    requires Enabled(s, a) && Apart(s, a) && Enabled(Apply(s, a), b) && Apart(Apply(s, a), b)
    ensures ApartRun(s, [a, b])
  {
    hide Enabled, Apply, Apart;
    var s1 := Apply(s, a);
    assert [a, b][1..] == [b] && [b][1..] == [];
    assert ApartRun(Apply(s1, b), []);
    assert ApartRun(s1, [b]);
  }

  lemma ThreeApart(s: Sys, a: Region, b: Region, c: Region)
    requires Enabled(s, a) && Apart(s, a) && Enabled(Apply(s, a), b) && Apart(Apply(s, a), b)
    requires Enabled(Apply(Apply(s, a), b), c) && Apart(Apply(Apply(s, a), b), c)
    ensures ApartRun(s, [a, b, c])
  {
    hide Enabled, Apply, Apart;
    TwoApart(Apply(s, a), b, c);
    assert [a, b, c][1..] == [b, c];
  }

  // ----- when two resumes overlap

  /** A resume that is interrupted between its regions by another of the same thread puts its node on the ready
      queue twice, whatever the state was. */
  lemma OverlapBreaks(s: Sys, r: Caller, u: Caller, t: Tid)
    requires Inv(s.k) && Started(s.k, t) && s.k.tcb[t].stat == Suspend
    requires r in s.at && u in s.at && r != u && s.at[r] == s.at[u] == Idle
    ensures var gs := [TestSuspend(r, t), TakeOff(r), TestSuspend(u, t), TakeOff(u), QueueUp(u), QueueUp(r)];
            Run(s, gs) && !Inv(After(s, gs).k)
  {
    hide Inv, InsertReady, OffList, Off, Run, After;
    OverlapRun(s, r, u, t);
    OffTwice(s.k, t);
    QueuedTwice(OffList(OffList(s.k, t), t), t);
  }

  lemma QueuedTwice(k: Kernel, t: Tid)
    requires Inv(k) && Started(k, t) && Off(k, t)
    ensures t in InsertReady(k, t).tcb && !Inv(InsertReady(InsertReady(k, t), t))
  {
    hide Sound, InsertReady, Off;
    InsertKeeps(k, t, {}, {});
    NowQueued(k, t);
    TwiceListed(InsertReady(k, t), t);
  }

  lemma OffTwice(k: Kernel, t: Tid)
    requires Inv(k) && Started(k, t) && k.tcb[t].stat == Suspend
    ensures var n := OffList(OffList(k, t), t); Inv(n) && Started(n, t) && Off(n, t)
  {
    UnlinkSound(k, t, {});
    UnlinkSound(OffList(k, t), t, {});
    hide Sound, Unlink, Off;
  }

  lemma OverlapRun(s: Sys, r: Caller, u: Caller, t: Tid)
    requires Started(s.k, t) && s.k.tcb[t].stat == Suspend
    requires r in s.at && u in s.at && r != u && s.at[r] == s.at[u] == Idle
    ensures var gs := [TestSuspend(r, t), TakeOff(r), TestSuspend(u, t), TakeOff(u), QueueUp(u), QueueUp(r)];
            && Run(s, gs)
            && After(s, gs).k == InsertReady(InsertReady(OffList(OffList(s.k, t), t), t), t)
  {
    hide InsertReady, OffList, Run, After;
    SameThreads(s.k, t);
    SameThreads(OffList(s.k, t), t);
    ThenKnown(OffList(OffList(s.k, t), t), t);
    var c := Apply(Apply(Apply(s, TestSuspend(r, t)), TakeOff(r)), TestSuspend(u, t));
    ThreeSteps(s, TestSuspend(r, t), TakeOff(r), TestSuspend(u, t));
    ThreeSteps(c, TakeOff(u), QueueUp(u), QueueUp(r));
    SixSteps(s, [TestSuspend(r, t), TakeOff(r), TestSuspend(u, t)], [TakeOff(u), QueueUp(u), QueueUp(r)]);
    assert [TestSuspend(r, t), TakeOff(r), TestSuspend(u, t)] + [TakeOff(u), QueueUp(u), QueueUp(r)]
        == [TestSuspend(r, t), TakeOff(r), TestSuspend(u, t), TakeOff(u), QueueUp(u), QueueUp(r)];
  }

  lemma SameThreads(k: Kernel, t: Tid)
    ensures OffList(k, t).tcb == k.tcb
  {
  }

  lemma ThenKnown(k: Kernel, t: Tid)
    requires t in k.tcb
    ensures t in InsertReady(k, t).tcb
  {
  }

  lemma NowQueued(k: Kernel, t: Tid)
    requires Inv(k) && Started(k, t)
    ensures Started(InsertReady(k, t), t) && !Off(InsertReady(k, t), t)
  {
    var q := ReadyQ(k.tcb[t].currentPriority);
    assert q in k.lists;
    assert t in InsertReady(k, t).lists[q];
    hide ReadyBits.SetMark, NodesOnce, ListedAgree, ReadyListed, ReadyBits.Bitmap.Marked, ReadyBits.Bitmap.WellFormed;
  }

  lemma {:induction false} SixSteps(s: Sys, a: seq<Region>, b: seq<Region>)
    requires Run(s, a) && Run(After(s, a), b)
    ensures Run(s, a + b) && After(s, a + b) == After(After(s, a), b)
    decreases |a|
  {
    hide Apply, Enabled;
    if a == [] {
      assert a + b == b;
    } else {
      assert (a + b)[0] == a[0] && (a + b)[1..] == a[1..] + b;
      SixSteps(Apply(s, a[0]), a[1..], b);
    }
  }
}
