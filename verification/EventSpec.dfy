/** An event object: a set of 32 flags that threads wait on for all (AND) or any (OR) of some of them, and
    may clear as they are woken. */
module EventSpec {
  import opened Lists
  import opened Threads
  import opened WaitLists

  const FLAG_AND: bv8 := 0x01
  const FLAG_OR: bv8 := 0x02
  const FLAG_CLEAR: bv8 := 0x04

  /** A thread's event_set and event_info: what it waits for and, once it is woken, what it got. */
  datatype Want = Want(bits: bv32, opts: bv8)

  datatype Event = Event(bits: bv32, waiters: seq<Tid>, want: map<Tid, Want>)

  function Cleared(bits: bv32, x: bv32): bv32 { bits & !x }

  function Both(x: bv32, y: bv32): bv32 { x | y }

  predicate Within(x: bv32, bits: bv32) { x & bits == x }

  predicate Meets(x: bv32, bits: bv32) { x & bits != 0 }

  predicate All(w: Want) { w.opts & FLAG_AND != 0 }

  predicate Any(w: Want) { !All(w) && w.opts & FLAG_OR != 0 }

  predicate Clears(w: Want) { w.opts & FLAG_CLEAR != 0 }

  predicate Satisfied(w: Want, bits: bv32) {
    (All(w) && Within(w.bits, bits)) || (Any(w) && Meets(w.bits, bits))
  }

  function WantOf(e: Event, t: Tid): Want { if t in e.want then e.want[t] else Want(0, 0) }

  /** What a satisfied thread's event_set says afterwards: an OR wait keeps only the flags it received. */
  function Given(w: Want, bits: bv32): Want { if All(w) then w else w.(bits := w.bits & bits) }

  /** What a woken thread takes out of the event. */
  function Eats(w: Want): bv32 { if Clears(w) then w.bits else 0 }

  // ----- rt_event_send

  function Wake(e: Event, i: nat): Event
    requires i < |e.waiters|
  {
    var t := e.waiters[i];
    var g := Given(WantOf(e, t), e.bits);
    Event(Cleared(e.bits, Eats(g)), e.waiters[..i] + e.waiters[i + 1..], e.want[t := g])
  }

  /** The walk over the suspend list from position i on. */
  function WalkFrom(e: Event, i: nat): (r: Event)
    ensures forall t :: t in r.waiters ==> t in e.waiters
    ensures forall t :: t in e.want ==> t in r.want
    decreases |e.waiters| - i
  {
    if i >= |e.waiters| then e
    else if Satisfied(WantOf(e, e.waiters[i]), e.bits) then
      WalkFrom(Wake(e, i), i)
    else WalkFrom(e, i + 1)
  }

  function SendIt(e: Event, flags: bv32): Event {
    if flags == 0 then e else WalkFrom(e.(bits := Both(e.bits, flags)), 0)
  }

  // ----- rt_event_recv

  function Enlist(e: Event, t: Tid, w: Want, prio: map<Tid, nat>, byPriority: bool): Event {
    e.(waiters := Enqueue(e.waiters, t, prio, byPriority), want := e.want[t := w])
  }

  function RecvIt(e: Event, t: Tid, w: Want, wait: bool, prio: map<Tid, nat>, byPriority: bool): Event {
    if w.bits == 0 then e
    else if Satisfied(w, e.bits) then e.(bits := Cleared(e.bits, Eats(w)))
    else if !wait then e
    else Enlist(e, t, w, prio, byPriority)
  }

  // ----- the flags

  lemma ClearTwice(b: bv32, x: bv32, y: bv32)
    ensures Cleared(Cleared(b, x), y) == Cleared(b, Both(x, y)) && Cleared(b, 0) == b && Both(0, y) == y
  {
  }

  /** Clearing flags satisfies nobody. */
  lemma FewerSatisfyLess(w: Want, b: bv32, x: bv32)
    requires Satisfied(w, Cleared(b, x))
    ensures Satisfied(w, b)
  {
    hide All, Any, Cleared, Within, Meets;
    if All(w) && Within(w.bits, Cleared(b, x)) {
      WithinMore(w.bits, b, x);
    } else {
      MeetsMore(w.bits, b, x);
    }
  }

  lemma WithinMore(w: bv32, b: bv32, x: bv32)
    requires Within(w, Cleared(b, x))
    ensures Within(w, b)
  {
  }

  lemma MeetsMore(w: bv32, b: bv32, x: bv32)
    requires Meets(w, Cleared(b, x))
    ensures Meets(w, b)
  {
  }

  // ----- the walk

  /** What the woken threads among ws took out, read off the result r. */
  function Eaten(ws: seq<Tid>, r: Event): bv32 {
    if ws == [] then 0
    else Both(if ws[0] in r.waiters then 0 else Eats(WantOf(r, ws[0])), Eaten(ws[1..], r))
  }

  lemma WakeShape(e: Event, i: nat)
    requires i < |e.waiters| && Distinct(e.waiters)
    ensures var f := Wake(e, i);
            && Distinct(f.waiters) && e.waiters[i] !in f.waiters && |f.waiters| == |e.waiters| - 1
            && f.waiters[..i] == e.waiters[..i] && f.waiters[i..] == e.waiters[i + 1..]
            && (forall t :: t in f.waiters <==> t in e.waiters && t != e.waiters[i])
  {
    assert e.waiters == e.waiters[..i] + [e.waiters[i]] + e.waiters[i + 1..];
    hide Eats, Given;
  }

  /** The walk leaves alone the threads it has passed, and the wants of all it has passed or never meets. */
  lemma {:induction false} WalkFrame(e: Event, i: nat, t: Tid)
    requires Distinct(e.waiters) && i <= |e.waiters| && t !in e.waiters[i..]
    ensures WantOf(WalkFrom(e, i), t) == WantOf(e, t)
    ensures t in WalkFrom(e, i).waiters <==> t in e.waiters
    ensures Distinct(WalkFrom(e, i).waiters)
    decreases |e.waiters| - i
  {
    if i < |e.waiters| {
      assert e.waiters[i..] == [e.waiters[i]] + e.waiters[i + 1..];
      if Satisfied(WantOf(e, e.waiters[i]), e.bits) {
        WakeShape(e, i);
        hide Distinct, Satisfied, Given, Eats, Cleared, Both;
        WalkFrame(Wake(e, i), i, t);
      } else {
        WalkFrame(e, i + 1, t);
      }
    }
  }

  /** What the walk does to the waiter at position k, in terms of the flags the earlier ones left it: it is
      woken exactly when those satisfy it, with all it asked for (AND) or what there is of it (OR). */
  ghost predicate Treated(e: Event, i: nat, k: nat, r: Event)
    requires i <= k < |e.waiters|
  {
    var t := e.waiters[k];
    var left := Cleared(e.bits, Eaten(e.waiters[i..k], r));
    && (t !in r.waiters <==> Satisfied(WantOf(e, t), left))
    && WantOf(r, t) == if t in r.waiters then WantOf(e, t) else Given(WantOf(e, t), left)
  }

  lemma EatenHead(ws: seq<Tid>, i: nat, k: nat, r: Event)
    requires i < k <= |ws|
    ensures Eaten(ws[i..k], r) == Both(if ws[i] in r.waiters then 0 else Eats(WantOf(r, ws[i])), Eaten(ws[i + 1..k], r))
  {
    assert ws[i..k][1..] == ws[i + 1..k];
  }

  /** Flags eaten by the first of the waiters, if it was woken, and then by the others. */
  lemma LeftAfterHead(e: Event, b: bv32, i: nat, k: nat, r: Event)
    requires i < k <= |e.waiters|
    requires b == if e.waiters[i] in r.waiters then e.bits else Cleared(e.bits, Eats(WantOf(r, e.waiters[i])))
    ensures Cleared(e.bits, Eaten(e.waiters[i..k], r)) == Cleared(b, Eaten(e.waiters[i + 1..k], r))
  {
    hide Eats, Eaten, Cleared, Both;
    EatenHead(e.waiters, i, k, r);
    ClearTwice(e.bits, if e.waiters[i] in r.waiters then 0
      else Eats(WantOf(r, e.waiters[i])), Eaten(e.waiters[i + 1..k], r));
  }

  lemma NoneEaten(e: Event, i: nat, r: Event)
    requires i <= |e.waiters|
    ensures Cleared(e.bits, Eaten(e.waiters[i..i], r)) == e.bits
  {
    assert e.waiters[i..i] == [];
    ClearTwice(e.bits, 0, 0);
  }

  /** What one step of the walk that wakes its thread leaves: the rest of the walk starts without it. */
  lemma WokenStep(e: Event, i: nat)
    requires Distinct(e.waiters) && i < |e.waiters| && Satisfied(WantOf(e, e.waiters[i]), e.bits)
    ensures var f, t := Wake(e, i), e.waiters[i];
            var r := WalkFrom(e, i);
            && r == WalkFrom(f, i) && t !in r.waiters && WantOf(r, t) == Given(WantOf(e, t), e.bits)
            && f.bits == Cleared(e.bits, Eats(WantOf(r, t)))
            && forall u :: u != t ==> WantOf(f, u) == WantOf(e, u)
  {
    WakeShape(e, i);
    hide Distinct, Satisfied, Given, Eats, Cleared, Both;
    WalkFrame(Wake(e, i), i, e.waiters[i]);
  }

  /** A step that does not wake its thread leaves it waiting. */
  lemma PassedStep(e: Event, i: nat)
    requires Distinct(e.waiters) && i < |e.waiters| && !Satisfied(WantOf(e, e.waiters[i]), e.bits)
    ensures var r := WalkFrom(e, i);
            && r == WalkFrom(e, i + 1) && e.waiters[i] in r.waiters
              && WantOf(r, e.waiters[i]) == WantOf(e, e.waiters[i])
  {
    hide Cleared, Both, Satisfied, Given, Eats;
    WalkFrame(e, i + 1, e.waiters[i]);
  }

  lemma {:induction false} WalkTreats(e: Event, i: nat, k: nat)
    requires Distinct(e.waiters) && i <= k < |e.waiters|
    ensures Treated(e, i, k, WalkFrom(e, i))
    decreases |e.waiters| - i
  {
    hide Cleared, Both, Satisfied, Given, Eats, Eaten, WalkFrom, Wake;
    var r := WalkFrom(e, i);
    NoneEaten(e, i, r);
    if Satisfied(WantOf(e, e.waiters[i]), e.bits) {
      WokenStep(e, i);
      WakeShape(e, i);
      var f := Wake(e, i);
      hide Distinct;
      if k > i {
        WalkTreats(f, i, k - 1);
        LeftAfterHead(e, f.bits, i, k, r);
        assert f.waiters[i..k - 1] == e.waiters[i + 1..k] && f.waiters[k - 1] == e.waiters[k] by {
          assert f.waiters[i..][..k - 1 - i] == f.waiters[i..k - 1];
        }
        assert e.waiters[k] != e.waiters[i] by { assert f.waiters[k - 1] in f.waiters; }
      }
    } else {
      PassedStep(e, i);
      hide Distinct;
      if k > i {
        WalkTreats(e, i + 1, k);
        LeftAfterHead(e, e.bits, i, k, r);
      }
    }
  }

  /** The flags left over are those sent less those the woken threads cleared. */
  lemma {:induction false} WalkLeaves(e: Event, i: nat)
    requires Distinct(e.waiters) && i <= |e.waiters|
    ensures WalkFrom(e, i).bits == Cleared(e.bits, Eaten(e.waiters[i..|e.waiters|], WalkFrom(e, i)))
    decreases |e.waiters| - i
  {
    hide Cleared, Both, Satisfied, Given, Eats, Eaten, Wake;
    var r := WalkFrom(e, i);
    if i == |e.waiters| {
      NoneEaten(e, i, r);
    } else if Satisfied(WantOf(e, e.waiters[i]), e.bits) {
      WokenStep(e, i);
      WakeShape(e, i);
      WalkLeaves(Wake(e, i), i);
      LeftAfterHead(e, Wake(e, i).bits, i, |e.waiters|, r);
      assert Wake(e, i).waiters[i..|e.waiters| - 1] == e.waiters[i + 1..|e.waiters|];
    } else {
      PassedStep(e, i);
      WalkLeaves(e, i + 1);
      LeftAfterHead(e, e.bits, i, |e.waiters|, r);
    }
  }

  // ----- nobody sleeps on a condition that holds

  ghost predicate Unsatisfied(e: Event, n: nat) {
    forall k :: 0 <= k < n && k < |e.waiters| ==> !Satisfied(WantOf(e, e.waiters[k]), e.bits)
  }

  lemma WakeKeepsUnsatisfied(e: Event, i: nat)
    requires Distinct(e.waiters) && i < |e.waiters| && Unsatisfied(e, i)
    ensures Unsatisfied(Wake(e, i), i)
  {
    WakeShape(e, i);
    var f, g := Wake(e, i), Given(WantOf(e, e.waiters[i]), e.bits);
    hide Given, Eats, Satisfied, Cleared, Both;
    forall k | 0 <= k < i ensures !Satisfied(WantOf(f, f.waiters[k]), f.bits) {
      assert f.waiters[k] == e.waiters[..i][k];
      if Satisfied(WantOf(e, e.waiters[k]), f.bits) { FewerSatisfyLess(WantOf(e, e.waiters[k]), e.bits, Eats(g)); }
    }
  }

  lemma {:induction false} WalkSatisfies(e: Event, i: nat)
    requires Distinct(e.waiters) && i <= |e.waiters| && Unsatisfied(e, i)
    ensures var r := WalkFrom(e, i); Distinct(r.waiters) && Unsatisfied(r, |r.waiters|)
    decreases |e.waiters| - i
  {
    hide Satisfied, Wake, Cleared, Both;
    if i < |e.waiters| {
      if Satisfied(WantOf(e, e.waiters[i]), e.bits) {
        WakeKeepsUnsatisfied(e, i);
        WakeShape(e, i);
        hide Unsatisfied, Distinct;
        WalkSatisfies(Wake(e, i), i);
      } else {
        WalkSatisfies(e, i + 1);
      }
    }
  }

  ghost predicate Inv(e: Event) {
    && Distinct(e.waiters) && Unsatisfied(e, |e.waiters|)
    && forall t :: t in e.waiters ==> t in e.want && e.want[t].bits != 0 && (All(e.want[t]) || Any(e.want[t]))
  }

  datatype Call =
    | Send(flags: bv32)
    | Recv(t: Tid, want: Want, wait: bool)
    | TimeOut(t: Tid)
    | Reset

  /** A waiting thread makes no calls; a wait is for all or for any; only a waiter can time out. */
  predicate Legal(e: Event, c: Call) {
    match c
    case Send(_) => true
    case Recv(t, w, _) => t !in e.waiters && (All(w) || Any(w))
    case TimeOut(t) => t in e.waiters
    case Reset => true
  }

  function Step(e: Event, c: Call, prio: map<Tid, nat>, byPriority: bool): Event {
    match c
    case Send(flags) => SendIt(e, flags)
    case Recv(t, w, wait) => RecvIt(e, t, w, wait, prio, byPriority)
    case TimeOut(t) => e.(waiters := Without(e.waiters, t))
    case Reset => e.(bits := 0, waiters := [])
  }

  lemma SendKeeps(e: Event, flags: bv32)
    requires Inv(e)
    ensures Inv(SendIt(e, flags))
  {
    if flags != 0 {
      var s := e.(bits := Both(e.bits, flags));
      var r := SendIt(e, flags);
      WalkSatisfies(s, 0);
      hide Satisfied, WalkFrom, Unsatisfied, All, Any, Cleared, Both;
      forall t | t in r.waiters ensures t in r.want && r.want[t] == e.want[t] {
        var k :| 0 <= k < |e.waiters| && e.waiters[k] == t;
        WalkTreats(s, 0, k);
        hide Eaten, Given, Distinct;
      }
    }
  }

  lemma RecvKeeps(e: Event, t: Tid, w: Want, wait: bool, prio: map<Tid, nat>, byPriority: bool)
    requires Inv(e) && Legal(e, Recv(t, w, wait))
    ensures Inv(RecvIt(e, t, w, wait, prio, byPriority))
  {
    hide Satisfied, Eats, All, Any, Cleared, Enqueue;
    if w.bits != 0 && Satisfied(w, e.bits) {
      forall k | 0 <= k < |e.waiters| ensures !Satisfied(WantOf(e, e.waiters[k]), Cleared(e.bits, Eats(w))) {
        if Satisfied(WantOf(e, e.waiters[k]), Cleared(e.bits, Eats(w))) { FewerSatisfyLess(WantOf(e, e.waiters[k]),
          e.bits, Eats(w)); }
      }
    } else if w.bits != 0 && wait {
      EnqueueDistinct(e.waiters, t, prio, byPriority);
      hide Distinct;
      var r := Enlist(e, t, w, prio, byPriority);
      forall k | 0 <= k < |r.waiters| ensures !Satisfied(WantOf(r, r.waiters[k]), r.bits) {
        assert r.waiters[k] in r.waiters;
        if r.waiters[k] != t {
          var j :| 0 <= j < |e.waiters| && e.waiters[j] == r.waiters[k];
        }
      }
    }
  }

  lemma TimeOutKeeps(e: Event, t: Tid)
    requires Inv(e)
    ensures Inv(e.(waiters := Without(e.waiters, t)))
  {
    hide Satisfied, All, Any, Without;
    var r := e.(waiters := Without(e.waiters, t));
    forall k | 0 <= k < |r.waiters| ensures !Satisfied(WantOf(r, r.waiters[k]), r.bits) {
      assert r.waiters[k] in r.waiters;
      var j :| 0 <= j < |e.waiters| && e.waiters[j] == r.waiters[k];
    }
  }

  lemma StepKeeps(e: Event, c: Call, prio: map<Tid, nat>, byPriority: bool)
    requires Inv(e) && Legal(e, c)
    ensures Inv(Step(e, c, prio, byPriority))
  {
    match c
    case Send(flags) => SendKeeps(e, flags);
    case Recv(t, w, wait) => RecvKeeps(e, t, w, wait, prio, byPriority);
    case TimeOut(t) => TimeOutKeeps(e, t);
    case Reset =>
  }

  predicate LegalRun(e: Event, cs: seq<Call>, prio: map<Tid, nat>, byPriority: bool)
    decreases |cs|
  {
    cs != [] ==> Legal(e, cs[0]) && LegalRun(Step(e, cs[0], prio, byPriority), cs[1..], prio, byPriority)
  }

  function After(e: Event, cs: seq<Call>, prio: map<Tid, nat>, byPriority: bool): Event
    requires LegalRun(e, cs, prio, byPriority)
    decreases |cs|
  {
    if cs == [] then e else After(Step(e, cs[0], prio, byPriority), cs[1..], prio, byPriority)
  }

  lemma {:induction false} RunsKeepInvariant(e: Event, cs: seq<Call>, prio: map<Tid, nat>, byPriority: bool)
    requires Inv(e) && LegalRun(e, cs, prio, byPriority)
    ensures Inv(After(e, cs, prio, byPriority))
    decreases |cs|
  {
    hide Inv, Step, Legal;
    if cs != [] {
      StepKeeps(e, cs[0], prio, byPriority);
      RunsKeepInvariant(Step(e, cs[0], prio, byPriority), cs[1..], prio, byPriority);
    }
  }

  /** rt_event_init */
  function Fresh(want: map<Tid, Want>): Event { Event(0, [], want) }

  /** In every state a run can reach, whatever its sends, receives, timeouts and resets, and however the
      woken threads clear flags while one send walks the list, no thread waits for a condition that holds. */
  lemma NobodySleepsSatisfied(want: map<Tid, Want>, cs: seq<Call>, prio: map<Tid, nat>, byPriority: bool, t: Tid)
    requires LegalRun(Fresh(want), cs, prio, byPriority)
    ensures var e := After(Fresh(want), cs, prio, byPriority);
            t in e.waiters ==> t in e.want && !Satisfied(e.want[t], e.bits)
  {
    RunsKeepInvariant(Fresh(want), cs, prio, byPriority);
    hide After, LegalRun, Satisfied, Distinct, All, Any;
    var e := After(Fresh(want), cs, prio, byPriority);
    if t in e.waiters {
      var k :| 0 <= k < |e.waiters| && e.waiters[k] == t;
    }
  }

  /** What one send does, read off its result: a waiter is woken exactly when the flags sent, less those that
      threads woken before it cleared, satisfy it; and the event keeps the flags nobody cleared. */
  lemma SendExactly(e: Event, flags: bv32, k: nat)
    requires Inv(e) && flags != 0 && k < |e.waiters|
    ensures var r, t := SendIt(e, flags), e.waiters[k];
            var offered := Both(e.bits, flags);
            var left := Cleared(offered, Eaten(e.waiters[..k], r));
            && (t !in r.waiters <==> Satisfied(WantOf(e, t), left))
            && WantOf(r, t) == (if t in r.waiters then WantOf(e, t) else Given(WantOf(e, t), left))
            && r.bits == Cleared(offered, Eaten(e.waiters, r))
  {
    var s := e.(bits := Both(e.bits, flags));
    hide Satisfied, WalkFrom, Given, Eaten, Cleared, Both, Distinct;
    WalkTreats(s, 0, k);
    WalkLeaves(s, 0);
    assert e.waiters[0..k] == e.waiters[..k] && e.waiters[0..|e.waiters|] == e.waiters;
  }

  /** Each thread a send wakes got all the flags it waited for, if it waits for all of them, and otherwise
      some of them and no others; all of them were sent or already set. */
  lemma WokenGetTheirFlags(e: Event, flags: bv32, t: Tid)
    requires Inv(e) && flags != 0 && t in e.waiters && t !in SendIt(e, flags).waiters
    ensures var w, g := WantOf(e, t), WantOf(SendIt(e, flags), t);
            && g.bits != 0 && Within(g.bits, w.bits) && Within(g.bits, Both(e.bits, flags))
              && (All(w) ==> g.bits == w.bits)
  {
    var k :| 0 <= k < |e.waiters| && e.waiters[k] == t;
    SendExactly(e, flags, k);
    var x := Eaten(e.waiters[..k], SendIt(e, flags));
    Received(WantOf(e, t), Both(e.bits, flags), x);
    hide Satisfied, SendIt, Given, Eaten, Cleared, Both, Within, Distinct, Unsatisfied, All;
  }

  lemma Received(w: Want, offered: bv32, x: bv32)
    requires w.bits != 0 && Satisfied(w, Cleared(offered, x))
    ensures var g := Given(w, Cleared(offered, x)).bits;
            && g != 0 && Within(g, w.bits) && Within(g, offered) && (All(w) ==> g == w.bits)
  {
    hide All, Within, Meets, Cleared;
    Overlap(w.bits, Cleared(offered, x));
    var g := Given(w, Cleared(offered, x)).bits;
    WithinSelf(w.bits);
    assert Within(g, Cleared(offered, x));
    WithinMore(g, offered, x);
  }

  lemma Overlap(x: bv32, b: bv32)
    ensures Within(x & b, x) && Within(x & b, b) && (Meets(x, b) <==> x & b != 0)
  {
  }

  /** What a woken thread got stays in its event_set until it looks, whatever others do meanwhile. */
  lemma {:induction false} GotStays(e: Event, cs: seq<Call>, prio: map<Tid, nat>, byPriority: bool, t: Tid)
    requires Inv(e) && LegalRun(e, cs, prio, byPriority) && t !in e.waiters
    requires forall c :: c in cs && c.Recv? ==> c.t != t
    ensures WantOf(After(e, cs, prio, byPriority), t) == WantOf(e, t) && t !in After(e, cs, prio, byPriority).waiters
    decreases |cs|
  {
    if cs != [] {
      var f := Step(e, cs[0], prio, byPriority);
      StepKeeps(e, cs[0], prio, byPriority);
      StepLeavesGot(e, cs[0], prio, byPriority, t);
      hide Inv, Step, Legal, WantOf;
      GotStays(f, cs[1..], prio, byPriority, t);
    }
  }

  lemma StepLeavesGot(e: Event, c: Call, prio: map<Tid, nat>, byPriority: bool, t: Tid)
    requires Inv(e) && Legal(e, c) && t !in e.waiters && (c.Recv? ==> c.t != t)
    ensures var r := Step(e, c, prio, byPriority); WantOf(r, t) == WantOf(e, t) && t !in r.waiters
  {
    if c.Send? { WalkFrame(e.(bits := Both(e.bits, c.flags)), 0, t); }
    hide Satisfied, WalkFrom, Cleared, Both, Distinct, Unsatisfied;
  }

  /** A flag a thread woken with CLEAR received is gone: no thread woken after it by the same send gets it,
      and the event does not keep it. */
  lemma ClearedGoesOnce(e: Event, flags: bv32, j: nat, k: nat)
    requires Inv(e) && flags != 0 && j < k < |e.waiters|
    ensures var r := SendIt(e, flags);
            var t, u := e.waiters[j], e.waiters[k];
            t !in r.waiters && u !in r.waiters && Clears(WantOf(r, t)) ==>
              WantOf(r, t).bits & WantOf(r, u).bits == 0 && WantOf(r, t).bits & r.bits == 0
  {
    var r := SendIt(e, flags);
    var t, u := e.waiters[j], e.waiters[k];
    if t !in r.waiters && u !in r.waiters && Clears(WantOf(r, t)) {
      SendExactly(e, flags, k);
      EatenHas(e.waiters[..k], j, r);
      EatenHas(e.waiters, j, r);
      var offered := Both(e.bits, flags);
      var x := Eaten(e.waiters[..k], r);
      hide SendIt, Eaten, Both, Distinct, Inv, Clears;
      GivenWithin(WantOf(e, u), Cleared(offered, x));
      Apart(WantOf(r, t).bits, WantOf(r, u).bits, offered, x);
      Apart(WantOf(r, t).bits, r.bits, offered, Eaten(e.waiters, r));
    }
  }

  lemma GivenWithin(w: Want, b: bv32)
    requires Satisfied(w, b)
    ensures Within(Given(w, b).bits, b)
  {
    hide All, Meets, Within;
    Overlap(w.bits, b);
  }

  lemma Apart(x: bv32, y: bv32, b: bv32, z: bv32)
    requires Within(x, z) && Within(y, Cleared(b, z))
    ensures x & y == 0
  {
  }

  lemma {:induction false} EatenHas(ws: seq<Tid>, j: nat, r: Event)
    requires j < |ws| && ws[j] !in r.waiters && Clears(WantOf(r, ws[j]))
    ensures Within(WantOf(r, ws[j]).bits, Eaten(ws, r))
  {
    hide Clears, Both, Within;
    var head := if ws[0] in r.waiters then 0 else Eats(WantOf(r, ws[0]));
    InBoth(WantOf(r, ws[j]).bits, head, Eaten(ws[1..], r));
    if j == 0 {
      WithinSelf(WantOf(r, ws[j]).bits);
    } else {
      EatenHas(ws[1..], j - 1, r);
    }
  }

  lemma WithinSelf(x: bv32)
    ensures Within(x, x)
  {
  }

  lemma InBoth(x: bv32, y: bv32, z: bv32)
    ensures Within(x, y) || Within(x, z) ==> Within(x, Both(y, z))
  {
  }

  /** A receive that need not wait gets all of what it asked for (AND) or what there is of it (OR), never nothing;
      with CLEAR exactly what it got is gone from the event, and nothing it asked for is left. */
  lemma ReceivesItsFlags(e: Event, t: Tid, w: Want, wait: bool, prio: map<Tid, nat>, byPriority: bool)
    requires Inv(e) && Legal(e, Recv(t, w, wait)) && w.bits != 0
    ensures var r, g := RecvIt(e, t, w, wait, prio, byPriority), Given(w, e.bits).bits;
            if Satisfied(w, e.bits) then
              && g != 0 && Within(g, w.bits) && Within(g, e.bits) && (All(w) ==> g == w.bits) && r.waiters == e.waiters
              && (if Clears(w) then Both(r.bits, g) == e.bits && !Meets(w.bits, r.bits) else r.bits == e.bits)
            else r.bits == e.bits && (t in r.waiters <==> wait)
  {
    hide Satisfied, Enqueue, Distinct, All, Within, Meets, Cleared, Both;
    ClearTwice(e.bits, 0, 0);
    if Satisfied(w, e.bits) {
      Received(w, e.bits, 0);
      TakenOut(e.bits, w.bits);
      AllOverlaps(w, e.bits);
    }
  }

  lemma AllOverlaps(w: Want, b: bv32)
    requires Satisfied(w, b)
    ensures Given(w, b).bits == w.bits & b
  {
    hide All, Meets, Within;
    if All(w) { WithinIs(w.bits, b); }
  }

  lemma WithinIs(x: bv32, b: bv32)
    requires Within(x, b)
    ensures x & b == x
  {
  }

  lemma TakenOut(b: bv32, x: bv32)
    ensures Both(Cleared(b, x), x & b) == b && !Meets(x, Cleared(b, x)) && Cleared(b, 0) == b
  {
  }
}
