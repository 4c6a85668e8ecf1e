/** One mutex with priority inheritance, among threads whose priorities nothing else changes. */
module MutexSpec {
  import opened Lists
  import opened Threads
  import opened WaitLists

  datatype Owner = Nobody | Held(thread: Tid)

  /** `waited` records the threads that have blocked on the mutex since its owner acquired it. */
  datatype Mutex = Mutex(prio: map<Tid, nat>, value: nat, owner: Owner, original: nat, hold: nat,
                         waiters: seq<Tid>, waited: set<Tid>)

  const HOLD_RANGE := 256                // hold is an 8-bit counter
  const NO_PRIORITY := 0xFF

  datatype Call = Take(t: Tid, wait: bool) | Release(t: Tid) | TimeOut(t: Tid)

  function Boost(prio: map<Tid, nat>, o: Tid, p: nat): map<Tid, nat> {
    if o in prio && p < prio[o] then prio[o := p] else prio
  }

  function TakeIt(m: Mutex, t: Tid, wait: bool, byPriority: bool): Mutex
    requires t in m.prio
  {
    if m.owner == Held(t) then m.(hold := (m.hold + 1) % HOLD_RANGE)
    else if m.value > 0 then
      m.(value := m.value - 1, owner := Held(t), original := m.prio[t], hold := (m.hold + 1) % HOLD_RANGE, waited := {})
    else if !wait || m.owner == Nobody then m
    else
      var prio := Boost(m.prio, m.owner.thread, m.prio[t]);
      m.(prio := prio, waiters := Enqueue(m.waiters, t, prio, byPriority), waited := m.waited + {t})
  }

  function Restored(m: Mutex): map<Tid, nat>
    requires m.owner.Held?
  {
    m.prio[m.owner.thread := m.original]
  }

  function ReleaseIt(m: Mutex, t: Tid): Mutex {
    if m.owner != Held(t) then m
    else
      var hold := (m.hold + HOLD_RANGE - 1) % HOLD_RANGE;
      if hold != 0 then m.(hold := hold)
      else
        var prio := Restored(m);
        if m.waiters != [] then
          var n := m.waiters[0];
          Mutex(prio, m.value, Held(n), PrioOf(prio, n), 1, m.waiters[1..], set u | u in m.waiters[1..])
        else Mutex(prio, m.value + 1, Nobody, NO_PRIORITY, 0, [], {})
  }

  function Step(m: Mutex, c: Call, byPriority: bool): Mutex
    requires Legal(m, c)
  {
    match c
    case Take(t, wait) => TakeIt(m, t, wait, byPriority)
    case Release(t) => ReleaseIt(m, t)
    case TimeOut(t) => m.(waiters := Without(m.waiters, t))
  }

  /** A thread that waits makes no calls; only one that waits can time out; the owner may nest its takes up to
      the range of the 8-bit counter. */
  predicate Legal(m: Mutex, c: Call) {
    match c
    case Take(t, _) => t in m.prio && t !in m.waiters && (m.owner == Held(t) ==> m.hold < HOLD_RANGE - 1)
    case Release(t) => t in m.prio && t !in m.waiters
    case TimeOut(t) => t in m.waiters
  }

  // ----- invariants

  /** Counter, owner and waiters fit together. */
  ghost predicate Coherent(m: Mutex) {
    && m.value <= 1 && m.hold < HOLD_RANGE
    && (m.value == 1 <==> m.owner == Nobody) && (m.owner == Nobody <==> m.hold == 0)
    && (m.owner.Held? ==> m.owner.thread in m.prio && m.owner.thread !in m.waiters)
    && (m.owner == Nobody ==> m.waiters == [])
    && Distinct(m.waiters) && forall t :: t in m.waiters ==> t in m.prio && t in m.waited
  }

  /** Everyone but the owner runs at its own priority; the owner's own is kept in `original`. */
  ghost predicate Bases(m: Mutex, base: map<Tid, nat>) {
    && m.prio.Keys == base.Keys && m.waited <= base.Keys
    && (forall t :: t in m.prio && m.owner != Held(t) ==> m.prio[t] == base[t])
    && (m.owner.Held? ==> m.owner.thread in base && m.original == base[m.owner.thread])
  }

  /** The owner runs at the most urgent of its own priority and those of all who waited on it. */
  ghost predicate Inherits(m: Mutex, base: map<Tid, nat>) {
    m.owner.Held? && m.owner.thread in m.prio && m.owner.thread in base && m.waited <= base.Keys ==>
      var p := m.prio[m.owner.thread];
      && p <= base[m.owner.thread] && (forall w :: w in m.waited ==> p <= base[w])
      && (p == base[m.owner.thread] || exists w :: w in m.waited && p == base[w])
  }

  ghost predicate Inv(m: Mutex, base: map<Tid, nat>) {
    Coherent(m) && Bases(m, base) && Inherits(m, base) && Sorted(m.waiters, m.prio)
  }

  // ----- what each call keeps

  lemma TakeKeeps(m: Mutex, base: map<Tid, nat>, t: Tid, wait: bool)
    requires Inv(m, base) && Legal(m, Take(t, wait))
    ensures Inv(TakeIt(m, t, wait, true), base)
  {
    if m.owner != Held(t) && m.value == 0 && wait {
      WaitKeeps(m, base, t);
    }
  }

  lemma WaitKeeps(m: Mutex, base: map<Tid, nat>, t: Tid)
    requires Inv(m, base) && t in m.prio && t !in m.waiters && m.owner.Held? && m.owner != Held(t) && m.value == 0
    ensures Inv(TakeIt(m, t, true, true), base)
  {
    var r := TakeIt(m, t, true, true);
    assert Sorted(m.waiters, r.prio);
    EnqueueSorted(m.waiters, t, r.prio);
    EnqueueDistinct(m.waiters, t, r.prio, true);
    assert Coherent(r) && Bases(r, base) by { hide Inherits, Sorted, Enqueue; }
    WaitInherits(m, base, t);
  }

  lemma WaitInherits(m: Mutex, base: map<Tid, nat>, t: Tid)
    requires Inv(m, base) && t in m.prio && m.owner.Held? && m.owner != Held(t) && m.value == 0
    ensures Inherits(TakeIt(m, t, true, true), base)
  {
    hide Sorted, Enqueue, Distinct;
    var r, o := TakeIt(m, t, true, true), m.owner.thread;
    if r.prio[o] != base[o] && m.prio[o] == r.prio[o] {
      var w :| w in m.waited && m.prio[o] == base[w];
      assert w in r.waited;
    } else if m.prio[o] != r.prio[o] {
      assert t in r.waited && r.prio[o] == base[t];
    }
  }

  lemma ReleaseKeeps(m: Mutex, base: map<Tid, nat>, t: Tid)
    requires Inv(m, base) && Legal(m, Release(t))
    ensures Inv(ReleaseIt(m, t), base)
  {
    if m.owner == Held(t) && m.hold == 1 && m.waiters != [] {
      HandOffKeeps(m, base, t);
    }
  }

  lemma HandOffKeeps(m: Mutex, base: map<Tid, nat>, t: Tid)
    requires Inv(m, base) && m.owner == Held(t) && m.hold == 1 && m.waiters != []
    ensures Inv(ReleaseIt(m, t), base)
  {
    var r, n := ReleaseIt(m, t), m.waiters[0];
    assert m.waiters == [n] + m.waiters[1..];
    HandOffInherits(m, base, t);
    assert Coherent(r) by { hide Inherits, Sorted, Bases; }
    assert Bases(r, base) by { hide Inherits, Sorted, Distinct; }
    assert Sorted(r.waiters, r.prio) by { hide Inherits, Distinct; }
    hide Coherent, Bases, Inherits, Sorted;
  }

  lemma HandOffInherits(m: Mutex, base: map<Tid, nat>, t: Tid)
    requires Inv(m, base) && m.owner == Held(t) && m.hold == 1 && m.waiters != []
    ensures Inherits(ReleaseIt(m, t), base)
  {
    var r := ReleaseIt(m, t);
    forall w | w in r.waiters ensures base[m.waiters[0]] <= base[w] {
      var i :| 0 <= i < |r.waiters| && r.waiters[i] == w;
      assert m.waiters[i + 1] == w;
    }
    hide Sorted, Distinct;
  }

  lemma TimeOutKeeps(m: Mutex, base: map<Tid, nat>, t: Tid)
    requires Inv(m, base) && Legal(m, TimeOut(t))
    ensures Inv(m.(waiters := Without(m.waiters, t)), base)
  {
    WithoutSorted(m.waiters, t, m.prio);
    hide Without, Sorted;
  }

  lemma StepKeeps(m: Mutex, base: map<Tid, nat>, c: Call)
    requires Inv(m, base) && Legal(m, c)
    ensures Inv(Step(m, c, true), base)
  {
    hide Inv, TakeIt, ReleaseIt;
    match c
    case Take(t, wait) => TakeKeeps(m, base, t, wait);
    case Release(t) => ReleaseKeeps(m, base, t);
    case TimeOut(t) => TimeOutKeeps(m, base, t);
  }

  predicate LegalRun(m: Mutex, cs: seq<Call>, byPriority: bool)
    decreases |cs|
  {
    cs != [] ==> Legal(m, cs[0]) && LegalRun(Step(m, cs[0], byPriority), cs[1..], byPriority)
  }

  function After(m: Mutex, cs: seq<Call>, byPriority: bool): Mutex
    requires LegalRun(m, cs, byPriority)
    decreases |cs|
  {
    if cs == [] then m else After(Step(m, cs[0], byPriority), cs[1..], byPriority)
  }

  /** rt_mutex_init */
  function Fresh(prio: map<Tid, nat>): Mutex { Mutex(prio, 1, Nobody, NO_PRIORITY, 0, [], {}) }

  lemma {:induction false} RunsKeepInvariant(m: Mutex, base: map<Tid, nat>, cs: seq<Call>)
    requires Inv(m, base) && LegalRun(m, cs, true)
    ensures Inv(After(m, cs, true), base)
    decreases |cs|
  {
    hide Inv, Step, Legal;
    if cs != [] {
      StepKeeps(m, base, cs[0]);
      RunsKeepInvariant(Step(m, cs[0], true), base, cs[1..]);
    }
  }

  /** In every state a run of a PRIO-flag mutex can reach: it is free exactly when its counter is 1, when
      nobody owns it and when it is not held; waiters stand in order of urgency and only before an owner;
      the owner runs at least as urgently as each of them, and everyone else at the priority it began with. */
  lemma OwnerIsUrgent(prio: map<Tid, nat>, cs: seq<Call>)
    requires LegalRun(Fresh(prio), cs, true)
    ensures var m := After(Fresh(prio), cs, true);
            && (m.value == 1 <==> m.owner == Nobody) && (m.owner == Nobody <==> m.hold == 0) && m.value <= 1
            && m.prio.Keys == prio.Keys && Sorted(m.waiters, m.prio) && (m.waiters != [] ==> m.owner.Held?)
            && (m.owner.Held? ==> m.owner.thread in m.prio && m.owner.thread !in m.waiters)
            && (forall w :: w in m.waiters && m.owner.Held? ==> m.prio[m.owner.thread] <= m.prio[w])
            && (forall t :: t in m.prio && m.owner != Held(t) ==> m.prio[t] == prio[t])
            && (m.owner.Held? ==> m.prio[m.owner.thread] <= prio[m.owner.thread])
  {
    RunsKeepInvariant(Fresh(prio), prio, cs);
    hide After, LegalRun, Sorted, Distinct;
  }

  /** The outermost release gives the releaser back the priority it had when it acquired the mutex, and
      hands the mutex to the most urgent waiter, which then runs at its own priority, or frees it. */
  lemma OutermostReleaseRestores(m: Mutex, base: map<Tid, nat>, t: Tid)
    requires Inv(m, base) && m.owner == Held(t) && m.hold == 1
    ensures var r := ReleaseIt(m, t);
            && r.prio == base
            && (m.waiters == [] ==> r == Fresh(base))
            && (m.waiters != [] ==> r.owner == Held(m.waiters[0]) && r.waiters == m.waiters[1..] && r.hold == 1
                                    && m.waiters[0] in base
                                    && forall w :: w in m.waiters ==> w in base && base[m.waiters[0]] <= base[w])
  {
    forall w | w in m.waiters ensures w in base && base[m.waiters[0]] <= base[w] {
      var i :| 0 <= i < |m.waiters| && m.waiters[i] == w;
    }
  }

  /** Nested takes count: k takes by the owner need k releases before anything else changes. */
  lemma {:induction false} NestingBalances(m: Mutex, t: Tid, k: nat)
    requires Coherent(m) && m.owner == Held(t) && m.hold + k < HOLD_RANGE
    ensures Nested(m, t, k) == m.(hold := m.hold + k) && Unnested(Nested(m, t, k), t, k) == m
    decreases k
  {
    hide Distinct;
    if k > 0 {
      var n := TakeIt(m, t, true, true);
      NestingBalances(n, t, k - 1);
      assert ReleaseIt(n, t) == m;
      UnnestedLast(m.(hold := m.hold + k), t, k - 1);
    }
  }

  function Nested(m: Mutex, t: Tid, k: nat): Mutex
    requires t in m.prio
    decreases k
  {
    if k == 0 || m.owner != Held(t) then m else Nested(TakeIt(m, t, true, true), t, k - 1)
  }

  function Unnested(m: Mutex, t: Tid, k: nat): Mutex
    decreases k
  {
    if k == 0 then m else Unnested(ReleaseIt(m, t), t, k - 1)
  }

  lemma {:induction false} UnnestedLast(m: Mutex, t: Tid, k: nat)
    ensures Unnested(m, t, k + 1) == ReleaseIt(Unnested(m, t, k), t)
    decreases k
  {
    hide ReleaseIt;
    if k > 0 { UnnestedLast(ReleaseIt(m, t), t, k - 1); }
  }

  /** A take keeps counter, owner and waiters consistent exactly when it does not nest past the 8-bit
      counter's range: at 255 the counter wraps to 0 with the mutex still owned. */
  lemma NestingOverflowsExactly(m: Mutex, t: Tid, wait: bool, byPriority: bool)
    requires Coherent(m) && t in m.prio && t !in m.waiters
    ensures Coherent(TakeIt(m, t, wait, byPriority)) <==> !(m.owner == Held(t) && m.hold == HOLD_RANGE - 1)
  {
    if m.owner != Held(t) && m.value == 0 && wait {
      EnqueueDistinct(m.waiters, t, Boost(m.prio, m.owner.thread, m.prio[t]), byPriority);
      hide Enqueue, Distinct;
    }
  }

  lemma FirstTake(prio: map<Tid, nat>, t: Tid)
    requires t in prio
    ensures var m := TakeIt(Fresh(prio), t, true, true);
            Coherent(m) && m.owner == Held(t) && m.hold == 1 && m.prio == prio
  {
  }

  /** 256 takes by one thread show it: the thread still owns the mutex, but holds it zero times. */
  lemma TakenTooOften(prio: map<Tid, nat>, t: Tid)
    requires t in prio
    ensures var m := Nested(TakeIt(Fresh(prio), t, true, true), t, 254);
            && Coherent(m) && m.owner == Held(t) && m.hold == 255 && t in m.prio
            && TakeIt(m, t, true, true).owner == Held(t) && TakeIt(m, t, true, true).hold == 0
            && !Coherent(TakeIt(m, t, true, true))
  {
    hide Distinct, Nested;
    var m1 := TakeIt(Fresh(prio), t, true, true);
    FirstTake(prio, t);
    NestingBalances(m1, t, 254);
  }

  /** With a FIFO-flag mutex the head of the list need not be the most urgent waiter: after a hand-off the
      new owner runs at least as urgently as the rest exactly when it happens to be. */
  lemma FifoHandOffExactly(m: Mutex, base: map<Tid, nat>, t: Tid)
    requires Coherent(m) && Bases(m, base) && m.owner == Held(t) && m.hold == 1 && m.waiters != []
    ensures Inherits(ReleaseIt(m, t), base) <==> forall w :: w in m.waiters[1..] ==> base[m.waiters[0]] <= base[w]
  {
    assert m.waiters == [m.waiters[0]] + m.waiters[1..];
  }

  /** Three threads of priorities 3, 2 and 1 take a FIFO-flag mutex in this order; when the first releases
      it the second owns it at priority 2 while the third waits at priority 1. */
  lemma FifoLetsOwnerLag()
    ensures var prio: map<Tid, nat> := map[0 := 3, 1 := 2, 2 := 1];
            var m1 := TakeIt(Fresh(prio), 0, true, false);
            var m2 := TakeIt(m1, 1, true, false);
            var m3 := TakeIt(m2, 2, true, false);
            var m4 := ReleaseIt(m3, 0);
            && m3.owner == Held(0) && m3.waiters == [1, 2] && m3.prio[0] == 1
            && m4.owner == Held(1) && m4.waiters == [2] && m4.prio == prio
  {
    var prio: map<Tid, nat> := map[0 := 3, 1 := 2, 2 := 1];
    var m2 := TakeIt(TakeIt(Fresh(prio), 0, true, false), 1, true, false);
    assert m2.waiters == [1] && m2.prio == prio[0 := 2];
    assert [1][1..] == [];
    assert Enqueue([], 2, prio[0 := 1], false) == [2];
    assert TakeIt(m2, 2, true, false).prio == prio[0 := 1];
    assert prio[0 := 1][0 := 3] == prio;
  }
}
