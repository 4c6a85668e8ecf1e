/** The timer list over whole runs: starts and stops of any callers, part by part, and clock interrupts, in any order.
    Deadlines never come to lie so far apart that wrapped ticks would mislead, and no timer is early. */
module TimerRuns {
  import opened Lists
  import opened TimerList
  import opened TimerSpec

  /** A start between its two regions: before and after the deadline is computed. */
  datatype Opening = Cleared | Timed(due: nat)

  type Caller = nat

  /** A stop after its test of the ACTIVATED flag: before its region, and between that and clearing the flag. */
  datatype Halting = Noticed(t: Id) | Unhooked(t: Id)

  /** `active` are the timers whose ACTIVATED flag is set. */
  datatype Clockwork =
    Clockwork(p: Pending, now: nat, open: map<Id, Opening>, active: set<Id>, halting: map<Caller, Halting>)

  datatype Step =
    | Withdraw(t: Id) | SetTimeout(t: Id) | Enter(t: Id)   // rt_timer_start
    | TestStop(r: Caller, t: Id) | Unhook(r: Caller) | Lower(r: Caller)   // rt_timer_stop
    | Interrupt                                            // rt_tick_increase and rt_timer_check

  function Fresh(): Clockwork { Clockwork(Pending([], map[], 0), 0, map[], {}, map[]) }

  /** No timer is started while a start of the same timer is under way, and each start is over within `late` ticks
      of the deadline it computed. */
  predicate Enabled(c: Clockwork, cfg: map<Id, Setting>, late: nat, s: Step) {
    match s
    case Withdraw(t) => t in cfg && t !in c.open
    case SetTimeout(t) => t in cfg && t in c.open
    case Enter(t) => t in c.open && c.open[t].Timed? && c.now < c.open[t].due + late
    case TestStop(r, t) => r !in c.halting
    case Unhook(r) => r in c.halting && c.halting[r].Noticed?
    case Lower(r) => r in c.halting && c.halting[r].Unhooked?
    case Interrupt => true
  }

  function Gone(p: Pending, t: Id): Pending { Pending(Without(p.row, t), p.key, p.clock) }

  function Entered(p: Pending, t: Id, due: nat): Pending {
    var key := p.key[t := Key(due, p.clock)];
    Pending(Insert(p.row, t, key), key, p.clock + 1)
  }

  function Checked(p: Pending, cfg: map<Id, Setting>, now: nat): Pending {
    var n := DueCount(p.row, p.key, now);
    Rearm(p.row[..n], Behind(p, n), cfg, now)
  }

  /** Only active timers are started again. */
  function Live(cfg: map<Id, Setting>, active: set<Id>): map<Id, Setting> {
    map t | t in cfg :: cfg[t].(periodic := cfg[t].periodic && t in active)
  }

  /** What has fired stays active only if it was started again. */
  function StillActive(c: Clockwork, after: Pending, now: nat): set<Id> {
    var fired := c.p.row[..DueCount(c.p.row, c.p.key, now)];
    set t | t in c.active && (t in fired ==> t in after.row)
  }

  function Apply(c: Clockwork, cfg: map<Id, Setting>, late: nat, s: Step): Clockwork
    requires Enabled(c, cfg, late, s)
  {
    match s
    case Withdraw(t) => c.(p := Gone(c.p, t), open := c.open[t := Cleared], active := c.active - {t})
    case SetTimeout(t) => c.(open := c.open[t := Timed(c.now + cfg[t].period)])
    case Enter(t) => c.(p := Entered(c.p, t, c.open[t].due), open := c.open - {t}, active := c.active + {t})
    case TestStop(r, t) => if t in c.active then c.(halting := c.halting[r := Noticed(t)]) else c
    case Unhook(r) =>
      c.(p := Gone(c.p, c.halting[r].t), halting := c.halting[r := Unhooked(c.halting[r].t)])
    case Lower(r) => c.(active := c.active - {c.halting[r].t}, halting := c.halting - {r})
    case Interrupt =>
      var after := Checked(c.p, Live(cfg, c.active), c.now + 1);
      c.(p := after, now := c.now + 1, active := StillActive(c, after, c.now + 1))
  }

  /** Init ticks and periods are not zero, and fit under RT_TICK_MAX / 2 with the delay a start may have. */
  ghost predicate Fits(cfg: map<Id, Setting>, longest: nat, late: nat) {
    longest + late < HALF && forall t :: t in cfg ==> 1 <= cfg[t].period <= longest
  }

  ghost predicate Ready(c: Clockwork, cfg: map<Id, Setting>, longest: nat, late: nat) {
    && Ordered(c.p.row, c.p.key)
    && (forall u :: u in c.p.row ==>
          && u in c.p.key && u in cfg && c.p.key[u].stamp < c.p.clock
          && c.now < c.p.key[u].due + late && c.p.key[u].due <= c.now + longest)
    && (forall t :: t in c.open ==>
         t in cfg && t !in c.p.row && (c.open[t].Timed? ==> c.open[t].due <= c.now + longest))
  }

  lemma GoneKeeps(c: Clockwork, cfg: map<Id, Setting>, longest: nat, late: nat, t: Id)
    requires Ready(c, cfg, longest, late)
    ensures Ready(c.(p := Gone(c.p, t)), cfg, longest, late)
  {
    WithoutOrdered(c.p.row, t, c.p.key);
    hide Ordered;
  }

  lemma EnterKeeps(c: Clockwork, cfg: map<Id, Setting>, longest: nat, late: nat, t: Id)
    requires Ready(c, cfg, longest, late) && Enabled(c, cfg, late, Enter(t))
    ensures Ready(Apply(c, cfg, late, Enter(t)), cfg, longest, late)
  {
    var key := c.p.key[t := Key(c.open[t].due, c.p.clock)];
    OrderedRekey(c.p.row, c.p.key, t, key[t]);
    InsertOrdered(c.p.row, t, key);
    hide Ordered;
  }

  lemma InterruptKeeps(c: Clockwork, cfg: map<Id, Setting>, longest: nat, late: nat)
    requires Fits(cfg, longest, late) && Ready(c, cfg, longest, late)
    ensures var r := Apply(c, cfg, late, Interrupt);
            Ready(r, cfg, longest, late) && forall u :: u in r.p.row ==> r.p.key[u].due > r.now
  {
    hide Ordered, Checked, StillActive;
    var now := c.now + 1;
    var r := Checked(c.p, Live(cfg, c.active), now);
    CheckedRow(c.p, Live(cfg, c.active), now);
    CheckStamps(c.p, Live(cfg, c.active), now);
    forall u | u in r.row ensures u in cfg && r.key[u].due <= now + longest {
      assert u in c.p.row;
    }
  }

  /** What a check leaves, seen timer by timer. */
  lemma CheckedRow(p: Pending, cfg: map<Id, Setting>, now: nat)
    requires Ordered(p.row, p.key) && forall u :: u in p.row ==> u in p.key && p.key[u].stamp < p.clock
    requires forall u :: u in p.row && u in cfg && cfg[u].periodic ==> cfg[u].period > 0
    ensures var r := Checked(p, cfg, now);
            && Ordered(r.row, r.key)
            && forall u :: u in r.row ==>
                 u in p.row && u in r.key && (r.key[u] == p.key[u] || (u in cfg && r.key[u].due == now + cfg[u].period))
  {
    CheckFiresExactly(p, cfg, now);
    CheckStamps(p, cfg, now);
    hide Ordered, Rearm, DueCount, Behind;
  }

  lemma CheckStamps(p: Pending, cfg: map<Id, Setting>, now: nat)
    requires Ordered(p.row, p.key) && forall u :: u in p.row ==> u in p.key && p.key[u].stamp < p.clock
    requires forall u :: u in p.row && u in cfg && cfg[u].periodic ==> cfg[u].period > 0
    ensures Later(Checked(p, cfg, now), now)
  {
    var n := DueCount(p.row, p.key, now);
    FiredAreDue(p, now);
    RearmResult(p.row[..n], Behind(p, n), cfg, now);
    hide Rearm, DueCount, Ordered;
  }

  lemma StepKeeps(c: Clockwork, cfg: map<Id, Setting>, longest: nat, late: nat, s: Step)
    requires Fits(cfg, longest, late) && Ready(c, cfg, longest, late) && Enabled(c, cfg, late, s)
    ensures Ready(Apply(c, cfg, late, s), cfg, longest, late)
  {
    match s
    case Withdraw(t) => GoneKeeps(c, cfg, longest, late, t); hide Ordered;
    case SetTimeout(t) => hide Ordered;
    case Enter(t) => EnterKeeps(c, cfg, longest, late, t); hide Ready;
    case TestStop(_, _) => hide Ordered;
    case Unhook(r) => GoneKeeps(c, cfg, longest, late, c.halting[r].t); hide Ordered;
    case Lower(_) => hide Ordered;
    case Interrupt => InterruptKeeps(c, cfg, longest, late); hide Ready;
  }

  predicate Run(c: Clockwork, cfg: map<Id, Setting>, late: nat, ss: seq<Step>)
    decreases |ss|
  {
    ss != [] ==> Enabled(c, cfg, late, ss[0]) && Run(Apply(c, cfg, late, ss[0]), cfg, late, ss[1..])
  }

  function After(c: Clockwork, cfg: map<Id, Setting>, late: nat, ss: seq<Step>): Clockwork
    requires Run(c, cfg, late, ss)
    decreases |ss|
  {
    if ss == [] then c else After(Apply(c, cfg, late, ss[0]), cfg, late, ss[1..])
  }

  lemma {:induction false} RunsStayReady(c: Clockwork, cfg: map<Id, Setting>, longest: nat, late: nat, ss: seq<Step>)
    requires Fits(cfg, longest, late) && Ready(c, cfg, longest, late) && Run(c, cfg, late, ss)
    ensures Ready(After(c, cfg, late, ss), cfg, longest, late)
    decreases |ss|
  {
    hide Ready, Apply, Enabled;
    if ss != [] {
      StepKeeps(c, cfg, longest, late, ss[0]);
      RunsStayReady(Apply(c, cfg, late, ss[0]), cfg, longest, late, ss[1..]);
    }
  }

  /** From the empty list on, whatever is started and stopped: after every clock interrupt all deadlines lie ahead,
      and less than RT_TICK_MAX / 2 ahead. */
  lemma DeadlinesStayAhead(cfg: map<Id, Setting>, longest: nat, late: nat, ss: seq<Step>)
    requires Fits(cfg, longest, late) && Run(Fresh(), cfg, late, ss)
    ensures var c := After(Fresh(), cfg, late, ss);
            var r := Apply(c, cfg, late, Interrupt);
            forall u :: u in r.p.row ==> u in r.p.key && r.now < r.p.key[u].due < r.now + HALF
  {
    hide Ready, Apply, Run;
    FreshReady(cfg, longest, late);
    RunsStayReady(Fresh(), cfg, longest, late, ss);
    Ahead(After(Fresh(), cfg, late, ss), cfg, longest, late);
  }

  lemma FreshReady(cfg: map<Id, Setting>, longest: nat, late: nat)
    ensures Ready(Fresh(), cfg, longest, late) && Flagged(Fresh())
  {
  }

  lemma Ahead(c: Clockwork, cfg: map<Id, Setting>, longest: nat, late: nat)
    requires Fits(cfg, longest, late) && Ready(c, cfg, longest, late)
    ensures var r := Apply(c, cfg, late, Interrupt);
            forall u :: u in r.p.row ==> u in r.p.key && r.now < r.p.key[u].due < r.now + HALF
  {
    InterruptKeeps(c, cfg, longest, late);
    hide Ordered, Checked;
  }

  /** No timer fires before its deadline, and none more than `late` ticks after the interrupt at its deadline. */
  lemma FiresOnTime(c: Clockwork, cfg: map<Id, Setting>, longest: nat, late: nat, u: Id)
    requires Fits(cfg, longest, late) && Ready(c, cfg, longest, late) && u in c.p.row
    ensures var now := c.now + 1;
            var fired := c.p.row[..DueCount(c.p.row, c.p.key, now)];
            && (u in fired <==> c.p.key[u].due <= now)
            && (u in fired ==> c.p.key[u].due <= now <= c.p.key[u].due + late)
  {
    FiredAreDue(c.p, c.now + 1);
    hide Ordered, DueCount;
  }

  /** Of the timers that fire at an interrupt exactly the periodic ones that are active are pending again. */
  lemma ComesBackExactly(c: Clockwork, cfg: map<Id, Setting>, longest: nat, late: nat, u: Id)
    requires Fits(cfg, longest, late) && Ready(c, cfg, longest, late) && u in c.p.row && c.p.key[u].due <= c.now + 1
    ensures var r := Apply(c, cfg, late, Interrupt);
            && (u in r.p.row <==> u in c.active && u in cfg && cfg[u].periodic)
            && (u in r.p.row ==> u in r.p.key && r.p.key[u].due == c.now + 1 + cfg[u].period && u in r.active)
            && (u !in r.p.row ==> u !in r.active)
  {
    CheckFiresExactly(c.p, Live(cfg, c.active), c.now + 1);
    hide Ordered, Rearm, DueCount, Behind;
  }

  // ----- one start and what becomes of it

  /** Neither region of the start of t that is under way. */
  predicate NotStarting(ss: seq<Step>, t: Id) { SetTimeout(t) !in ss && Enter(t) !in ss }

  lemma StepLeavesOpen(c: Clockwork, cfg: map<Id, Setting>, late: nat, s: Step, t: Id)
    requires Enabled(c, cfg, late, s) && t in c.open && s != SetTimeout(t) && s != Enter(t)
    ensures t in Apply(c, cfg, late, s).open && Apply(c, cfg, late, s).open[t] == c.open[t]
  {
    hide Gone, Entered, Checked, StillActive;
  }

  lemma {:induction false} StaysOpen(c: Clockwork, cfg: map<Id, Setting>, late: nat, ss: seq<Step>, t: Id)
    requires Run(c, cfg, late, ss) && t in c.open && NotStarting(ss, t)
    ensures t in After(c, cfg, late, ss).open && After(c, cfg, late, ss).open[t] == c.open[t]
    decreases |ss|
  {
    hide Apply, Enabled;
    if ss != [] {
      assert ss == [ss[0]] + ss[1..] && ss[0] in ss;
      StepLeavesOpen(c, cfg, late, ss[0], t);
      StaysOpen(Apply(c, cfg, late, ss[0]), cfg, late, ss[1..], t);
    }
  }

  /** A start leaves the timer pending and active, due its init ticks after the tick it read between its regions,
      whatever comes in between. */
  lemma StartSetsDeadline(c: Clockwork, cfg: map<Id, Setting>, late: nat, t: Id, a: seq<Step>, d: Clockwork,
    b: seq<Step>, e: Clockwork)
    requires Enabled(c, cfg, late, Withdraw(t)) && NotStarting(a, t) && NotStarting(b, t)
    requires Run(Apply(c, cfg, late, Withdraw(t)), cfg, late, a)
    requires d == After(Apply(c, cfg, late, Withdraw(t)), cfg, late, a)
    requires Enabled(d, cfg, late, SetTimeout(t)) && Run(Apply(d, cfg, late, SetTimeout(t)), cfg, late, b)
    requires e == After(Apply(d, cfg, late, SetTimeout(t)), cfg, late, b)
    ensures t in e.open && e.open[t] == Timed(d.now + cfg[t].period)
    ensures Enabled(e, cfg, late, Enter(t)) ==>
              var r := Apply(e, cfg, late, Enter(t));
              t in r.p.row && t in r.p.key && r.p.key[t].due == d.now + cfg[t].period && t in r.active && t !in r.open
  {
    StaysOpen(Apply(d, cfg, late, SetTimeout(t)), cfg, late, b, t);
    hide Run, After, Checked, StillActive;
  }

  /** The step neither starts the timer again nor takes it out for a stop. */
  predicate LeavesPending(c: Clockwork, s: Step, t: Id) {
    match s
    case Withdraw(u) => u != t
    case Enter(u) => u != t
    case Unhook(r) => r in c.halting ==> c.halting[r].t != t
    case _ => true
  }

  predicate LeftPending(c: Clockwork, cfg: map<Id, Setting>, late: nat, ss: seq<Step>, t: Id)
    requires Run(c, cfg, late, ss)
    decreases |ss|
  {
    ss != [] ==> LeavesPending(c, ss[0], t) && LeftPending(Apply(c, cfg, late, ss[0]), cfg, late, ss[1..], t)
  }

  lemma StepLeavesPending(c: Clockwork, cfg: map<Id, Setting>, longest: nat, late: nat, s: Step, t: Id)
    requires Fits(cfg, longest, late) && Ready(c, cfg, longest, late) && Enabled(c, cfg, late, s)
    requires t in c.p.row && LeavesPending(c, s, t)
    ensures var r := Apply(c, cfg, late, s);
            && c.now <= r.now <= c.now + 1
            && (c.p.key[t].due > r.now ==> t in r.p.row && t in r.p.key && r.p.key[t] == c.p.key[t])
  {
    if s.Interrupt? {
      CheckFiresExactly(c.p, Live(cfg, c.active), c.now + 1);
      CheckStamps(c.p, Live(cfg, c.active), c.now + 1);
    }
    hide Ordered, Rearm, DueCount, StillActive;
  }

  /** Started and not stopped or started again, a timer stays pending with its deadline until its time has come; then,
      as FiresOnTime says, it fires. */
  lemma {:induction false} PendingUntilDue(c: Clockwork, cfg: map<Id, Setting>, longest: nat, late: nat, ss: seq<Step>,
    t: Id)
    requires Fits(cfg, longest, late) && Ready(c, cfg, longest, late) && Run(c, cfg, late, ss)
    requires t in c.p.row && LeftPending(c, cfg, late, ss, t)
    ensures var r := After(c, cfg, late, ss);
            r.now >= c.now && (c.p.key[t].due > r.now ==> t in r.p.row && t in r.p.key && r.p.key[t] == c.p.key[t])
    decreases |ss|
  {
    hide Ready, Apply, Enabled, Fits, LeavesPending;
    InKey(c, cfg, longest, late, t);
    if ss != [] {
      var d := Apply(c, cfg, late, ss[0]);
      StepLeavesPending(c, cfg, longest, late, ss[0], t);
      StepKeeps(c, cfg, longest, late, ss[0]);
      if c.p.key[t].due > d.now {
        PendingUntilDue(d, cfg, longest, late, ss[1..], t);
      } else {
        TimePasses(d, cfg, late, ss[1..]);
      }
    }
  }

  lemma InKey(c: Clockwork, cfg: map<Id, Setting>, longest: nat, late: nat, t: Id)
    requires Ready(c, cfg, longest, late) && t in c.p.row
    ensures t in c.p.key
  {
  }

  lemma {:induction false} TimePasses(c: Clockwork, cfg: map<Id, Setting>, late: nat, ss: seq<Step>)
    requires Run(c, cfg, late, ss)
    ensures After(c, cfg, late, ss).now >= c.now
    decreases |ss|
  {
    hide Gone, Entered, Checked, StillActive;
    if ss != [] { TimePasses(Apply(c, cfg, late, ss[0]), cfg, late, ss[1..]); }
  }

  // ----- the ACTIVATED flag

  predicate StopUnderWay(c: Clockwork, t: Id) { exists r :: r in c.halting && c.halting[r].t == t }

  /** No timer is started while a stop of the same timer is under way. */
  predicate Tidy(c: Clockwork, s: Step) { s.Withdraw? ==> !StopUnderWay(c, s.t) }

  predicate TidyRun(c: Clockwork, cfg: map<Id, Setting>, late: nat, ss: seq<Step>)
    decreases |ss|
  {
    ss != [] ==>
      Enabled(c, cfg, late, ss[0]) && Tidy(c, ss[0]) && TidyRun(Apply(c, cfg, late, ss[0]), cfg, late, ss[1..])
  }

  predicate AllActive(c: Clockwork) { forall u :: u in c.p.row ==> u in c.active }

  ghost predicate Flagged(c: Clockwork) {
    && AllActive(c)
    && (forall t :: t in c.open ==> t !in c.active && !StopUnderWay(c, t))
    && (forall r :: r in c.halting && c.halting[r].Unhooked? ==> c.halting[r].t !in c.p.row)
  }

  lemma StepFlagged(c: Clockwork, cfg: map<Id, Setting>, longest: nat, late: nat, s: Step)
    requires Fits(cfg, longest, late) && Ready(c, cfg, longest, late) && Flagged(c)
    requires Enabled(c, cfg, late, s) && Tidy(c, s)
    ensures Flagged(Apply(c, cfg, late, s))
  {
    if s.Interrupt? {
      InterruptFlagged(c, cfg, longest, late);
      hide Ready, Fits, Apply;
    } else {
      hide Ordered, Checked, StillActive, Live;
      var d := Apply(c, cfg, late, s);
      forall t | StopUnderWay(d, t) ensures StopUnderWay(c, t) || (s.TestStop? && s.t == t && t in c.active) {
        var r :| r in d.halting && d.halting[r].t == t;
        if r in c.halting { assert c.halting[r].t == t; }
      }
    }
  }

  lemma InterruptFlagged(c: Clockwork, cfg: map<Id, Setting>, longest: nat, late: nat)
    requires Fits(cfg, longest, late) && Ready(c, cfg, longest, late) && Flagged(c)
    ensures Flagged(Apply(c, cfg, late, Interrupt))
  {
    hide Ordered, Checked, DueCount;
    CheckedRow(c.p, Live(cfg, c.active), c.now + 1);
    var d := Apply(c, cfg, late, Interrupt);
    assert forall t :: StopUnderWay(d, t) <==> StopUnderWay(c, t);
  }

  /** As long as no timer is started while a stop of it is under way, every pending timer is active at every point
      of every run: with ComesBackExactly, a periodic timer goes on until it is stopped. */
  lemma {:induction false} TidyRunsStayActive(c: Clockwork, cfg: map<Id, Setting>, longest: nat, late: nat,
    ss: seq<Step>)
    requires Fits(cfg, longest, late) && Ready(c, cfg, longest, late) && Flagged(c) && TidyRun(c, cfg, late, ss)
    ensures Run(c, cfg, late, ss) && AllActive(After(c, cfg, late, ss))
    decreases |ss|
  {
    hide Ready, Apply, Enabled, Fits, Tidy;
    if ss != [] {
      StepKeeps(c, cfg, longest, late, ss[0]);
      StepFlagged(c, cfg, longest, late, ss[0]);
      TidyRunsStayActive(Apply(c, cfg, late, ss[0]), cfg, longest, late, ss[1..]);
    }
  }

  ghost predicate EndsActive(c: Clockwork, cfg: map<Id, Setting>, late: nat, ss: seq<Step>) {
    Run(c, cfg, late, ss) && AllActive(After(c, cfg, late, ss))
  }

  /** The condition cannot be weakened: a start is safe, whatever else is done tidily after it, exactly when no stop
      of the timer is under way as it begins. */
  lemma StartSafeExactly(c: Clockwork, cfg: map<Id, Setting>, longest: nat, late: nat, t: Id)
    requires Fits(cfg, longest, late) && Ready(c, cfg, longest, late) && Flagged(c)
    requires Enabled(c, cfg, late, Withdraw(t))
    ensures (forall ss :: TidyRun(Apply(c, cfg, late, Withdraw(t)), cfg, late, ss) ==>
                            EndsActive(Apply(c, cfg, late, Withdraw(t)), cfg, late, ss))
       <==> !StopUnderWay(c, t)
  {
    hide Ready, Fits, Apply, TidyRun, AllActive;
    var d := Apply(c, cfg, late, Withdraw(t));
    if StopUnderWay(c, t) {
      StopClearsFlag(c, cfg, longest, late, t);
    } else {
      StepKeeps(c, cfg, longest, late, Withdraw(t));
      StepFlagged(c, cfg, longest, late, Withdraw(t));
      forall ss | TidyRun(d, cfg, late, ss) ensures EndsActive(d, cfg, late, ss) {
        TidyRunsStayActive(d, cfg, longest, late, ss);
      }
    }
  }

  /** The stop clears the flag that the start has set. */
  lemma StopClearsFlag(c: Clockwork, cfg: map<Id, Setting>, longest: nat, late: nat, t: Id)
    requires Fits(cfg, longest, late) && Ready(c, cfg, longest, late)
    requires Enabled(c, cfg, late, Withdraw(t)) && StopUnderWay(c, t)
    ensures exists ss :: TidyRun(Apply(c, cfg, late, Withdraw(t)), cfg, late, ss)
                      && !EndsActive(Apply(c, cfg, late, Withdraw(t)), cfg, late, ss)
  {
    var r :| r in c.halting && c.halting[r].t == t;
    var d := Apply(c, cfg, late, Withdraw(t));
    hide Ordered;
    if c.halting[r].Noticed? {
      var e := Apply(d, cfg, late, Unhook(r));
      LowerLast(e, cfg, longest, late, t, r);
      var ss := [SetTimeout(t), Enter(t), Lower(r)];
      OneMore(d, cfg, late, Unhook(r), ss);
    } else {
      LowerLast(d, cfg, longest, late, t, r);
    }
  }

  lemma LowerLast(c: Clockwork, cfg: map<Id, Setting>, longest: nat, late: nat, t: Id, r: Caller)
    requires Fits(cfg, longest, late) && t in cfg && t in c.open && r in c.halting && c.halting[r] == Unhooked(t)
    ensures var ss := [SetTimeout(t), Enter(t), Lower(r)];
            TidyRun(c, cfg, late, ss) && !EndsActive(c, cfg, late, ss)
  {
    var c1 := Apply(c, cfg, late, SetTimeout(t));
    var c2 := Apply(c1, cfg, late, Enter(t));
    var c3 := Apply(c2, cfg, late, Lower(r));
    assert t in c3.p.row && t !in c3.active;
    hide Apply, AllActive, Enabled, Tidy;
    Nothing(c3, cfg, late);
    OneMore(c2, cfg, late, Lower(r), []);
    OneMore(c1, cfg, late, Enter(t), [Lower(r)]);
    OneMore(c, cfg, late, SetTimeout(t), [Enter(t), Lower(r)]);
  }

  lemma Nothing(c: Clockwork, cfg: map<Id, Setting>, late: nat)
    ensures TidyRun(c, cfg, late, []) && (EndsActive(c, cfg, late, []) <==> AllActive(c))
  {
  }

  lemma OneMore(c: Clockwork, cfg: map<Id, Setting>, late: nat, s: Step, ss: seq<Step>)
    requires Enabled(c, cfg, late, s) && Tidy(c, s) && TidyRun(Apply(c, cfg, late, s), cfg, late, ss)
    ensures TidyRun(c, cfg, late, [s] + ss)
    ensures EndsActive(c, cfg, late, [s] + ss) <==> EndsActive(Apply(c, cfg, late, s), cfg, late, ss)
  {
    hide Enabled, Tidy, Apply, AllActive;
    assert ([s] + ss)[0] == s && ([s] + ss)[1..] == ss;
  }

  function Earliest(now: nat, late: nat): nat { if now < late then 0 else now - late }

  /** What the methods of the timer list ask of their callers holds at every step of such a run: a window for the
      check at the next tick, and one for each start that is about to enter. */
  lemma ReadyGivesWindow(c: Clockwork, cfg: map<Id, Setting>, longest: nat, late: nat, ticks: map<Id, Tick>,
    flags: set<Id>)
    requires Fits(cfg, longest, late) && Ready(c, cfg, longest, late)
    requires forall t :: t in cfg ==> t in ticks && ticks[t] == cfg[t].period
    ensures var now := c.now + 1;
            var lo := Earliest(now, late);
            && lo <= now < lo + HALF && Window(c.p.row, c.p.key, lo)
            && PeriodsFit(c.p.row, c.p.key, now, lo, flags, ticks)
    ensures forall t :: t in c.open && Enabled(c, cfg, late, Enter(t)) ==>
              var lo := Earliest(c.now + 1, late); lo <= c.open[t].due < lo + HALF
  {
    hide Ordered;
  }
}
