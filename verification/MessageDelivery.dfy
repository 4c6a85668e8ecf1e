/** From the sender's buffer to the receiver's: one message followed through the steps of its own sender and
    receiver, with the steps of all other threads in between. */
module MessageDelivery {
  import opened MessageQueueSpec

  /** Steps of other threads, and resets. */
  predicate OthersOnly(ss: seq<Step>, t: Tid) { forall s :: s in ss ==> OfOther(s, t) }

  predicate OfOther(s: Step, t: Tid) { s.Reset? || s.t != t }

  function Least(a: nat, b: nat): nat { if a <= b then a else b }

  // ----- what a step does to the threads

  ghost predicate OthersStand(q: Queue, r: Queue, t: Tid) {
    forall u :: u in q.pc && u != t ==> u in r.pc && r.pc[u] == q.pc[u]
  }

  /** A step moves the thread that takes it, and no other but a receiver it wakes: linking wakes the first waiter,
      a reset sends all waiters away, and a thread joins the waiters only by receiving from an empty queue. */
  lemma StepThreads(q: Queue, s: Step)
    requires q.WaitersAgree() && Enabled(q, s)
    ensures var r := Apply(q, s);
            match s
            case Link(t) =>
              && r.pc[t].Idle? && r.waiters == (if q.waiters == [] then [] else q.waiters[1..])
              && (q.waiters != [] ==> q.waiters[0] in r.pc && r.pc[q.waiters[0]].Woken?)
              && forall u :: u in q.pc && u != t && (q.waiters == [] || u != q.waiters[0]) ==>
                   u in r.pc && r.pc[u] == q.pc[u]
            case Reset =>
              && r.waiters == []
              && forall u :: u in q.pc ==> u in r.pc && r.pc[u] == if u in q.waiters then Idle else q.pc[u]
            case Receive(t, block, place) =>
              && OthersStand(q, r, t)
              && (if q.queue == [] && block then r.waiters == q.waiters[..place] + [t] + q.waiters[place..]
                  else r.waiters == q.waiters)
              && (r.pc[t].Taken? <==> q.queue != []) && (r.pc[t].Idle? <==> q.queue == [] && !block)
            case TimeOut(t) =>
              OthersStand(q, r, t) && r.pc[t].Idle? && forall u :: u in r.waiters <==> u in q.waiters && u != t
            case Claim(t, _, _) => OthersStand(q, r, t) && r.waiters == q.waiters
            case CopyIn(t) => OthersStand(q, r, t) && r.waiters == q.waiters
            case CopyOut(t, _) => OthersStand(q, r, t) && r.waiters == q.waiters
            case GiveBack(t) => OthersStand(q, r, t) && r.waiters == q.waiters && r.pc[t].Idle?
  {
  }

  /** A send is refused, with nothing changed, exactly when the message is too long or no node is free. */
  lemma ClaimRefusedExactly(q: Queue, t: Tid, m: Msg, urgent: bool)
    requires Enabled(q, Claim(t, m, urgent))
    ensures Apply(q, Claim(t, m, urgent)) == q <==> |m| > q.size || q.free == []
  {
  }

  lemma OtherStep(q: Queue, s: Step, t: Tid)
    requires q.Inv() && Enabled(q, s) && OfOther(s, t) && t in q.pc && !Nodeless(q.pc[t])
    ensures t in Apply(q, s).pc && Apply(q, s).pc[t] == q.pc[t]
  {
    hide Queue.Partitioned, Queue.TextsStand, Queue.NoLostWakeup;
    StepThreads(q, s);
    if q.waiters != [] { assert q.waiters[0] in q.waiters; }
    hide Apply, Enabled;
  }

  lemma {:induction false} Undisturbed(q: Queue, ss: seq<Step>, t: Tid)
    requires q.Inv() && Run(q, ss) && OthersOnly(ss, t) && t in q.pc && !Nodeless(q.pc[t])
    ensures var r := After(q, ss); r.Inv() && r.size == q.size && t in r.pc && r.pc[t] == q.pc[t]
    decreases |ss|
  {
    hide Queue.Inv, Apply, Enabled;
    if ss != [] {
      assert ss[0] in ss && forall s :: s in ss[1..] ==> s in ss;
      OtherStep(q, ss[0], t);
      StepKeeps(q, ss[0]);
      SizeStays(q, ss[0]);
      Undisturbed(Apply(q, ss[0]), ss[1..], t);
    }
  }

  lemma SizeStays(q: Queue, s: Step)
    requires Enabled(q, s)
    ensures Apply(q, s).size == q.size
  {
  }

  lemma {:induction false} RunConcat(q: Queue, a: seq<Step>, b: seq<Step>)
    ensures Run(q, a + b) <==> Run(q, a) && Run(After(q, a), b)
    ensures Run(q, a + b) ==> After(q, a + b) == After(After(q, a), b)
    decreases |a|
  {
    hide Apply, Enabled;
    if a == [] {
      assert a + b == b;
    } else {
      assert (a + b)[0] == a[0] && (a + b)[1..] == a[1..] + b;
      if Enabled(q, a[0]) { RunConcat(Apply(q, a[0]), a[1..], b); }
    }
  }

  lemma OneStep(q: Queue, s: Step)
    ensures Run(q, [s]) <==> Enabled(q, s)
    ensures Enabled(q, s) ==> After(q, [s]) == Apply(q, s)
  {
    hide Apply, Enabled;
    assert [s][1..] == [];
    if Enabled(q, s) { assert Run(Apply(q, s), []) && After(Apply(q, s), []) == Apply(q, s); }
  }

  // ----- the sender

  /** A send up to its last region: a node claimed and the message copied in, whatever others do in between. */
  function Filling(t: Tid, m: Msg, urgent: bool, a: seq<Step>, b: seq<Step>): seq<Step> {
    [Claim(t, m, urgent)] + a + [CopyIn(t)] + b
  }

  lemma FillingRun(q: Queue, t: Tid, m: Msg, urgent: bool, a: seq<Step>, b: seq<Step>)
    requires Run(q, Filling(t, m, urgent, a, b))
    ensures Enabled(q, Claim(t, m, urgent))
    ensures var q1 := Apply(q, Claim(t, m, urgent));
            Run(q1, a)
            && var q2 := After(q1, a);
               Enabled(q2, CopyIn(t))
               && var q3 := Apply(q2, CopyIn(t));
                  Run(q3, b) && After(q, Filling(t, m, urgent, a, b)) == After(q3, b)
  {
    hide Run, After, Enabled, Apply;
    RunConcat(q, [Claim(t, m, urgent)] + a + [CopyIn(t)], b);
    RunConcat(q, [Claim(t, m, urgent)] + a, [CopyIn(t)]);
    RunConcat(q, [Claim(t, m, urgent)], a);
    OneStep(q, Claim(t, m, urgent));
    OneStep(After(After(q, [Claim(t, m, urgent)]), a), CopyIn(t));
  }

  /** A send that is not refused comes to its last region with its own message in its own node. */
  lemma SendFills(q: Queue, t: Tid, m: Msg, urgent: bool, a: seq<Step>, b: seq<Step>)
    requires q.Inv() && |m| <= q.size && q.free != []
    requires Run(q, Filling(t, m, urgent, a, b)) && OthersOnly(a, t) && OthersOnly(b, t)
    ensures var p := After(q, Filling(t, m, urgent, a, b));
            && p.Inv() && p.size == q.size
            && t in p.pc && p.pc[t].Written? && p.pc[t].m == m && p.pc[t].urgent == urgent
  {
    FillingRun(q, t, m, urgent, a, b);
    var q1 := Apply(q, Claim(t, m, urgent));
    assert q1.size == q.size && q1.pc[t].Claimed? && q1.pc[t].m == m && q1.pc[t].urgent == urgent;
    StepKeeps(q, Claim(t, m, urgent));
    Undisturbed(q1, a, t);
    var q2 := After(q1, a);
    CopiedIn(q2, t);
    StepKeeps(q2, CopyIn(t));
    Undisturbed(Apply(q2, CopyIn(t)), b, t);
    hide Queue.Inv, Run, After, Enabled, Overlay;
  }

  lemma CopiedIn(q: Queue, t: Tid)
    requires Enabled(q, CopyIn(t))
    ensures var r := Apply(q, CopyIn(t));
            && r.size == q.size && t in r.pc && r.pc[t].Written?
            && r.pc[t].m == q.pc[t].m && r.pc[t].urgent == q.pc[t].urgent
  {
  }

  /** What a send adds to the queue begins with the message its caller passed, at the end for a plain send and at the
      front for an urgent one, whatever other threads do between its regions. */
  lemma SendLinksItsMessage(q: Queue, t: Tid, m: Msg, urgent: bool, a: seq<Step>, b: seq<Step>)
    requires q.Inv() && |m| <= q.size && q.free != []
    requires Run(q, Filling(t, m, urgent, a, b)) && OthersOnly(a, t) && OthersOnly(b, t)
    ensures var p := After(q, Filling(t, m, urgent, a, b));
            && Enabled(p, Link(t))
            && var r, x := Apply(p, Link(t)), p.TextOf(p.pc[t].node);
               && m <= x && |x| == q.size && r.linked == p.linked + [x] && r.pc[t].Idle?
               && r.Texts() == if urgent then [x] + p.Texts() else p.Texts() + [x]
  {
    SendFills(q, t, m, urgent, a, b);
    var p := After(q, Filling(t, m, urgent, a, b));
    StepRefines(p, Link(t));
    WrittenText(p, t);
    hide Run, After, Filling, Queue.Texts, LinkNode, Queue.Partitioned;
    StepThreads(p, Link(t));
  }

  lemma WrittenText(p: Queue, t: Tid)
    requires p.Inv() && t in p.pc && p.pc[t].Written?
    ensures p.pc[t].m <= p.TextOf(p.pc[t].node) && |p.TextOf(p.pc[t].node)| == p.size
  {
    assert p.Holds(t, p.pc[t].node);
  }

  // ----- in the queue

  /** How many messages stand before the one that had k before it, after a step; below zero when it is no longer
      queued. */
  function Moved(q: Queue, s: Step, k: int): int
    requires Enabled(q, s)
  {
    match s
    case Link(t) => if q.pc[t].urgent then k + 1 else k
    case Receive(_, _, _) => if q.queue == [] then k else k - 1
    case Reset => -1
    case _ => k
  }

  function Ahead(q: Queue, ss: seq<Step>, k: int): int
    requires Run(q, ss)
    decreases |ss|
  {
    if k < 0 || ss == [] then k else Ahead(Apply(q, ss[0]), ss[1..], Moved(q, ss[0], k))
  }

  lemma MovedPlace(q: Queue, s: Step, k: nat)
    requires q.Inv() && Enabled(q, s) && k < |q.queue| && Moved(q, s, k) >= 0
    ensures Moved(q, s, k) < |Apply(q, s).queue|
    ensures Apply(q, s).Texts()[Moved(q, s, k)] == q.Texts()[k]
  {
    StepRefines(q, s);
    hide Queue.Inv, Queue.Texts, Apply;
    if s.Receive? && q.queue != [] { assert q.Texts()[k] == ([q.Texts()[0]] + Apply(q, s).Texts())[k]; }
  }

  /** A queued message moves up with each receive and back with each urgent send, and is lost to a reset only. */
  lemma {:induction false} KeepsItsPlace(q: Queue, ss: seq<Step>, k: nat)
    requires q.Inv() && Run(q, ss) && k < |q.queue| && Ahead(q, ss, k) >= 0
    ensures After(q, ss).Inv() && Ahead(q, ss, k) < |After(q, ss).queue|
    ensures After(q, ss).Texts()[Ahead(q, ss, k)] == q.Texts()[k]
    decreases |ss|
  {
    hide Queue.Inv, Apply, Enabled, Queue.Texts, Moved;
    if ss != [] {
      StepKeeps(q, ss[0]);
      if Moved(q, ss[0], k) >= 0 {
        MovedPlace(q, ss[0], k);
        KeepsItsPlace(Apply(q, ss[0]), ss[1..], Moved(q, ss[0], k));
      }
    }
  }

  // ----- the receiver

  /** A receive of `want` bytes from a queue that is not empty puts into the caller's buffer the front of the message
      that stood first when it looked, whatever other threads do before it is copied. */
  lemma ReceiverGetsFirst(q: Queue, v: Tid, block: bool, place: nat, d: seq<Step>, want: nat)
    requires q.Inv() && q.queue != [] && Enabled(q, Receive(v, block, place))
    requires Run(Apply(q, Receive(v, block, place)), d) && OthersOnly(d, v)
    ensures var e, x := After(Apply(q, Receive(v, block, place)), d), q.Texts()[0];
            && Enabled(e, CopyOut(v, want))
            && var g := Apply(e, CopyOut(v, want)).pc[v];
               && g.Read? && |g.got| == Least(want, |x|) && forall i :: 0 <= i < |g.got| ==> g.got[i] == x[i]
  {
    StepRefines(q, Receive(v, block, place));
    StepKeeps(q, Receive(v, block, place));
    var q1 := Apply(q, Receive(v, block, place));
    Undisturbed(q1, d, v);
    var e := After(q1, d);
    hide Queue.Inv, Run, After, Queue.Texts;
    DeliveryIsExact(e, v, want);
  }

  /** From buffer to buffer: of a message that was sent, plain or urgent, the receiver that finds it first in the queue
      gets as many bytes as it asks for, and the sender's own bytes as far as the message goes. */
  lemma SentIsReceived(q: Queue, t: Tid, m: Msg, urgent: bool, a: seq<Step>, b: seq<Step>, p: Queue, c: seq<Step>,
    w: Queue, v: Tid, block: bool, place: nat, d: seq<Step>, want: nat)
    requires q.Inv() && |m| <= q.size && q.free != []
    requires Run(q, Filling(t, m, urgent, a, b)) && OthersOnly(a, t) && OthersOnly(b, t)
    requires p == After(q, Filling(t, m, urgent, a, b))
    requires Enabled(p, Link(t)) && Run(Apply(p, Link(t)), c) && w == After(Apply(p, Link(t)), c)
    requires Ahead(Apply(p, Link(t)), c, if urgent then 0 else |p.queue|) == 0
    requires Enabled(w, Receive(v, block, place)) && Run(Apply(w, Receive(v, block, place)), d) && OthersOnly(d, v)
    ensures var e := After(Apply(w, Receive(v, block, place)), d);
            && Enabled(e, CopyOut(v, want))
            && var g := Apply(e, CopyOut(v, want)).pc[v];
               && g.Read? && |g.got| == Least(want, q.size)
               && forall i :: 0 <= i < |g.got| && i < |m| ==> g.got[i] == m[i]
  {
    hide Run, After, Filling, Queue.Texts, Apply, Enabled, Queue.Inv, OthersOnly, Ahead;
    SendLinksItsMessage(q, t, m, urgent, a, b);
    SendFills(q, t, m, urgent, a, b);
    var r := Apply(p, Link(t));
    StepKeeps(p, Link(t));
    var k: nat := if urgent then 0 else |p.queue|;
    var x := p.TextOf(p.pc[t].node);
    assert r.Texts()[k] == x;
    KeepsItsPlace(r, c, k);
    ReceiverGetsFirst(w, v, block, place, d, want);
  }
}
