/** One wait on an event followed from the receive that blocks to the send that ends it, whatever others receive, send
    or give up in between. */
module EventWaits {
  import opened Lists
  import opened Threads
  import opened WaitLists
  import opened WaitOrder
  import opened EventSpec

  /** A wait for all is met when every flag, and so every set of flags, it names is set; a wait for any when some set of
      flags it names is; a wait for neither never. */
  lemma SatisfiedExactly(w: Want, b: bv32)
    ensures w.opts & 1 != 0 ==> (Satisfied(w, b) <==> forall y: bv32 :: Within(y, w.bits) ==> Within(y, b))
    ensures w.opts & 1 == 0 && w.opts & 2 != 0 ==>
              (Satisfied(w, b) <==> exists y: bv32 :: y != 0 && Within(y, w.bits) && Within(y, b))
    ensures w.opts & 3 == 0 ==> !Satisfied(w, b)
  {
    OptionBits(w.opts);
    PartOfAll(w.bits, b);
    PartOfSome(w.bits, b);
    hide Within, Meets;
  }

  lemma OptionBits(o: bv8)
    ensures o & 3 == 0 <==> o & 1 == 0 && o & 2 == 0
  {
  }

  lemma PartOfAll(x: bv32, b: bv32)
    ensures Within(x, b) <==> forall y: bv32 :: Within(y, x) ==> Within(y, b)
  {
    WithinSelf(x);
    forall y: bv32 | Within(y, x) && Within(x, b) ensures Within(y, b) { WithinChain(y, x, b); }
    hide Within;
  }

  lemma WithinChain(x: bv32, y: bv32, z: bv32)
    requires Within(x, y) && Within(y, z)
    ensures Within(x, z)
  {
  }

  lemma PartOfSome(x: bv32, b: bv32)
    ensures Meets(x, b) <==> exists y: bv32 :: y != 0 && Within(y, x) && Within(y, b)
  {
    Overlap(x, b);
    forall y: bv32 | y != 0 && Within(y, x) && Within(y, b) ensures Meets(x, b) { CommonPart(x, b, y); }
    hide Within, Meets;
  }

  lemma CommonPart(x: bv32, b: bv32, y: bv32)
    requires y != 0 && Within(y, x) && Within(y, b)
    ensures Meets(x, b)
  {
  }

  /** What a receive leaves behind, whichever way it goes: one that blocks waits for what it asked for, and nobody else
      is disturbed. */
  lemma RecvExactly(e: Event, t: Tid, w: Want, wait: bool, prio: map<Tid, nat>, byPriority: bool)
    requires EventSpec.Inv(e) && EventSpec.Legal(e, Recv(t, w, wait))
    ensures var r := RecvIt(e, t, w, wait, prio, byPriority);
            && (w.bits == 0 || (!Satisfied(w, e.bits) && !wait) ==> r == e)
            && (w.bits != 0 && Satisfied(w, e.bits) ==> r.want == e.want && r.waiters == e.waiters)
            && (w.bits != 0 && !Satisfied(w, e.bits) && wait ==>
                 && t in r.waiters && WantOf(r, t) == w && r.bits == e.bits && Without(r.waiters, t) == e.waiters
                 && forall u :: u != t ==> WantOf(r, u) == WantOf(e, u))
  {
    EnqueueWithout(e.waiters, t, prio, byPriority);
    EnqueueDistinct(e.waiters, t, prio, byPriority);
    hide Satisfied, Enqueue, Distinct, Without, Unsatisfied;
  }

  function PlaceOf(ws: seq<Tid>, t: Tid): (k: nat)
    ensures k <= |ws| && (k < |ws| <==> t in ws) && (t in ws ==> ws[k] == t)
  {
    if ws == [] || ws[0] == t then 0 else PlaceOf(ws[1..], t) + 1
  }

  /** The flags a send offers to waiter t: those set and those sent, less what the waiters before t clear. */
  function LeftTo(e: Event, flags: bv32, t: Tid): bv32 {
    Cleared(Both(e.bits, flags), Eaten(e.waiters[..PlaceOf(e.waiters, t)], SendIt(e, flags)))
  }

  datatype Outcome = Waits | Woken(got: bv32)

  /** How t's wait for w fares in a run: the first send that offers what w asks for ends it. */
  function Fate(e: Event, cs: seq<EventSpec.Call>, prio: map<Tid, nat>, byPriority: bool, t: Tid, w: Want): Outcome
    decreases |cs|
  {
    if cs == [] then Waits
    else if cs[0].Send? && cs[0].flags != 0 && Satisfied(w, LeftTo(e, cs[0].flags, t)) then
      Woken(Given(w, LeftTo(e, cs[0].flags, t)).bits)
    else Fate(EventSpec.Step(e, cs[0], prio, byPriority), cs[1..], prio, byPriority, t, w)
  }

  /** Calls other than t's own, its timeout, and resets. */
  predicate LeavesAlone(c: EventSpec.Call, t: Tid) {
    match c
    case Send(_) => true
    case Recv(u, _, _) => u != t
    case TimeOut(u) => u != t
    case Reset => false
  }

  lemma StepServes(e: Event, c: EventSpec.Call, prio: map<Tid, nat>, byPriority: bool, t: Tid, w: Want)
    requires EventSpec.Inv(e) && EventSpec.Legal(e, c) && t in e.waiters && WantOf(e, t) == w && LeavesAlone(c, t)
    ensures var r := EventSpec.Step(e, c, prio, byPriority);
            if c.Send? && c.flags != 0 && Satisfied(w, LeftTo(e, c.flags, t)) then
              t !in r.waiters && WantOf(r, t).bits == Given(w, LeftTo(e, c.flags, t)).bits
            else t in r.waiters && WantOf(r, t) == w
  {
    hide Satisfied, Given, Eaten, Cleared, Both, Distinct, SendIt, Without, Enqueue, Unsatisfied;
    if c.Send? {
      if c.flags == 0 {
        NothingSent(e);
      } else {
        SendExactly(e, c.flags, PlaceOf(e.waiters, t));
      }
    } else if c.Recv? {
      RecvExactly(e, c.t, c.want, c.wait, prio, byPriority);
    }
  }

  lemma NothingSent(e: Event)
    ensures SendIt(e, 0) == e
  {
  }

  /** A wait ends at the first send after which its condition holds of the flags left to it, with what that send gives
      it, and at none before: until then the thread waits, and for what it asked for. */
  lemma {:induction false} WaitEndsAtFirst(e: Event, cs: seq<EventSpec.Call>, prio: map<Tid, nat>, byPriority: bool,
    t: Tid, w: Want)
    requires EventSpec.Inv(e) && EventSpec.LegalRun(e, cs, prio, byPriority) && t in e.waiters && WantOf(e, t) == w
    requires forall c :: c in cs ==> LeavesAlone(c, t)
    ensures var r := EventSpec.After(e, cs, prio, byPriority);
            match Fate(e, cs, prio, byPriority, t, w)
            case Waits => t in r.waiters && WantOf(r, t) == w
            case Woken(got) => t !in r.waiters && WantOf(r, t).bits == got
    decreases |cs|
  {
    hide EventSpec.Inv, EventSpec.Step, EventSpec.Legal, Satisfied, Given, LeftTo, WantOf;
    if cs != [] {
      assert cs[0] in cs && forall c :: c in cs[1..] ==> c in cs;
      EventSpec.StepKeeps(e, cs[0], prio, byPriority);
      StepServes(e, cs[0], prio, byPriority, t, w);
      var r := EventSpec.Step(e, cs[0], prio, byPriority);
      if t in r.waiters {
        WaitEndsAtFirst(r, cs[1..], prio, byPriority, t, w);
      } else {
        NotItsRecv(cs[1..], t);
        GotStays(r, cs[1..], prio, byPriority, t);
      }
    }
  }

  lemma NotItsRecv(cs: seq<EventSpec.Call>, t: Tid)
    requires forall c :: c in cs ==> LeavesAlone(c, t)
    ensures forall c :: c in cs && c.Recv? ==> c.t != t
  {
  }

  /** From the receive on: a thread that blocks on w is served by the first send that leaves it what w asks for. */
  lemma BlockedIsServed(e: Event, t: Tid, w: Want, cs: seq<EventSpec.Call>, prio: map<Tid, nat>, byPriority: bool)
    requires EventSpec.Inv(e) && EventSpec.Legal(e, Recv(t, w, true)) && w.bits != 0 && !Satisfied(w, e.bits)
    requires EventSpec.LegalRun(RecvIt(e, t, w, true, prio, byPriority), cs, prio, byPriority)
    requires forall c :: c in cs ==> LeavesAlone(c, t)
    ensures var f := RecvIt(e, t, w, true, prio, byPriority);
            var r := EventSpec.After(f, cs, prio, byPriority);
            match Fate(f, cs, prio, byPriority, t, w)
            case Waits => t in r.waiters && WantOf(r, t) == w
            case Woken(got) => t !in r.waiters && WantOf(r, t).bits == got
  {
    hide EventSpec.Inv, Satisfied, Fate, EventSpec.After, EventSpec.LegalRun, RecvIt, WantOf;
    RecvExactly(e, t, w, true, prio, byPriority);
    RecvKeeps(e, t, w, true, prio, byPriority);
    WaitEndsAtFirst(RecvIt(e, t, w, true, prio, byPriority), cs, prio, byPriority, t, w);
  }

  // ----- the order of waiters

  lemma {:induction false} WalkKeepsPlaces(e: Event, i: nat, u: Tid, t: Tid)
    requires Distinct(e.waiters) && i <= |e.waiters| && u in WalkFrom(e, i).waiters && t in WalkFrom(e, i).waiters
    ensures InFront(WalkFrom(e, i).waiters, u, t) <==> InFront(e.waiters, u, t)
    decreases |e.waiters| - i
  {
    hide Satisfied, Given, Eats, Cleared, Both, InFront;
    if i < |e.waiters| {
      if Satisfied(WantOf(e, e.waiters[i]), e.bits) {
        WakeShape(e, i);
        WithoutAt(e.waiters, i);
        WithoutFront(e.waiters, e.waiters[i], u, t);
        hide Distinct, Without;
        WalkKeepsPlaces(Wake(e, i), i, u, t);
      } else {
        WalkKeepsPlaces(e, i + 1, u, t);
      }
    }
  }

  /** While two threads wait they never change places, whatever is called. */
  lemma WaitersKeepPlaces(e: Event, c: EventSpec.Call, prio: map<Tid, nat>, byPriority: bool, u: Tid, t: Tid)
    requires EventSpec.Inv(e) && EventSpec.Legal(e, c) && u in e.waiters && t in e.waiters
    requires var r := EventSpec.Step(e, c, prio, byPriority); u in r.waiters && t in r.waiters
    ensures InFront(EventSpec.Step(e, c, prio, byPriority).waiters, u, t) <==> InFront(e.waiters, u, t)
  {
    hide InFront, Satisfied, Cleared, Both, Unsatisfied, WalkFrom, Enqueue, Without;
    var r := EventSpec.Step(e, c, prio, byPriority);
    match c
    case Send(flags) =>
      if flags != 0 { WalkKeepsPlaces(e.(bits := Both(e.bits, flags)), 0, u, t); }
    case Recv(v, w, wait) =>
      RecvExactly(e, v, w, wait, prio, byPriority);
      WithoutFront(r.waiters, v, u, t);
    case TimeOut(v) => WithoutFront(e.waiters, v, u, t);
    case Reset =>
  }
}
