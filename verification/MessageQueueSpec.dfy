/** The message queue as its critical sections leave it. Send, urgent send and receive each open the
    queue twice with interrupts off and copy the message in between with interrupts on, so a call is a
    sequence of steps that may interleave with the steps of every other thread. */
module MessageQueueSpec {
  import opened Lists

  type Tid = nat
  type Node = nat
  type Msg = seq<bv8>

  /** Where a thread stands inside a call; the message carried along is the caller's own buffer. */
  datatype Pc =
    | Idle
    | Claimed(node: Node, m: Msg, urgent: bool)     // node taken off the free list, not yet filled
    | Written(node: Node, m: Msg, urgent: bool)     // message copied in, not yet linked
    | Waiting                                       // on the suspend list
    | Woken                                         // resumed by a sender, has not looked at the queue yet
    | Taken(node: Node, m: Msg)                     // node unlinked while holding message m
    | Read(node: Node, got: Msg)                    // message copied out, node not yet given back

  /** `text` is the message area of each node, `size` bytes long; a shorter message fills only its front.
      linked, taken and dropped log the messages linked in, unlinked, and thrown away by a reset. */
  datatype Queue = Queue(max: nat, size: nat, free: seq<Node>, queue: seq<Node>, text: map<Node, Msg>,
                         pc: map<Tid, Pc>, waiters: seq<Tid>,
                         linked: seq<Msg>, taken: seq<Msg>, dropped: seq<Msg>)
  {
    predicate Holds(t: Tid, n: Node) {
      t in pc && (pc[t].Claimed? || pc[t].Written? || pc[t].Taken? || pc[t].Read?) && pc[t].node == n
    }

    function TextOf(n: Node): Msg { if n in text then text[n] else [] }

    /** The messages in the queue, first to be received first. */
    function Texts(): (r: seq<Msg>)
      ensures |r| == |queue|
    {
      seq(|queue|, i requires 0 <= i < |queue| => TextOf(queue[i]))
    }

    function Ready(): set<Tid> { set t | t in pc && pc[t] == Woken }

    /** Every message node is on the free chain, on the queue chain, or in flight with one thread. */
    ghost predicate Partitioned() {
      && Distinct(free)
      && Distinct(queue)
      && (forall n :: n in free ==> n !in queue && n < max)
      && (forall n :: n in queue ==> n < max)
      && (forall t, n: Node :: Holds(t, n) ==> n !in free && n !in queue && n < max)
      && (forall t, u, n: Node :: Holds(t, n) && Holds(u, n) ==> t == u)
      && (forall n: Node :: n < max ==> n in free || n in queue || exists t :: Holds(t, n))
    }

    /** A message in flight is what the sender passed in, or what was unlinked, whatever other threads do. */
    ghost predicate TextsStand() {
      && (forall n: Node :: n < max ==> n in text && |text[n]| == size)
      && (forall t :: t in pc && (pc[t].Claimed? || pc[t].Written?) ==> |pc[t].m| <= size)
      && (forall t :: t in pc && pc[t].Written? ==> pc[t].m <= TextOf(pc[t].node))
      && (forall t :: t in pc && pc[t].Taken? ==> pc[t].m == TextOf(pc[t].node))
    }

    ghost predicate WaitersAgree() {
      && Distinct(waiters)
      && (forall t :: t in waiters <==> t in pc && pc[t] == Waiting)
    }

    /** No lost wake-up: while a receiver sleeps, each queued message has a resumed receiver coming for it. */
    ghost predicate NoLostWakeup() {
      waiters != [] ==> |queue| <= |Ready()|
    }

    ghost predicate Inv() { Partitioned() && TextsStand() && WaitersAgree() && NoLostWakeup() }
  }

  /** One atomic step of some thread (or of the tick interrupt). */
  datatype Step =
    | Claim(t: Tid, m: Msg, urgent: bool)
    | CopyIn(t: Tid)
    | Link(t: Tid)
    | Receive(t: Tid, block: bool, place: nat)      // look at the queue; `place` is where a waiter is inserted
    | CopyOut(t: Tid, want: nat)
    | GiveBack(t: Tid)
    | TimeOut(t: Tid)
    | Reset

  /** The step is one its thread can take where it stands. */
  predicate Enabled(q: Queue, s: Step) {
    match s
    case Claim(t, m, u) => t in q.pc && q.pc[t].Idle?
    case CopyIn(t) => t in q.pc && q.pc[t].Claimed?
    case Link(t) => t in q.pc && q.pc[t].Written?
    case Receive(t, b, place) => t in q.pc && (q.pc[t].Idle? || q.pc[t].Woken?) && place <= |q.waiters|
    case CopyOut(t, want) => t in q.pc && q.pc[t].Taken?
    case GiveBack(t) => t in q.pc && q.pc[t].Read?
    case TimeOut(t) => t in q.pc && q.pc[t].Waiting?
    case Reset => true
  }

  function Reversed(s: seq<Node>): (r: seq<Node>)
    ensures |r| == |s| && forall i :: 0 <= i < |s| ==> r[i] == s[|s| - 1 - i]
  {
    if s == [] then [] else Reversed(s[1..]) + [s[0]]
  }

  /** rt_memcpy of a message to the front of a node's area, or of its front to the receiver. */
  function Overlay(area: Msg, m: Msg): Msg { if |m| <= |area| then m + area[|m|..] else m }

  function Front(area: Msg, want: nat): Msg { if want <= |area| then area[..want] else area }

  /** A sender resumes the first waiter. */
  function WakeFirst(q: Queue): Queue {
    if q.waiters == [] then q
    else q.(waiters := q.waiters[1..], pc := q.pc[q.waiters[0] := Woken])
  }

  function LinkNode(q: Queue, t: Tid): Queue
    requires t in q.pc && q.pc[t].Written?
  {
    WakeFirst(Attached(q, t))
  }

  function Attached(q: Queue, t: Tid): Queue
    requires t in q.pc && q.pc[t].Written?
  {
    var Written(n, m, urgent) := q.pc[t];
    q.(queue := if urgent then [n] + q.queue else q.queue + [n],
       pc := q.pc[t := Idle], linked := q.linked + [q.TextOf(n)])
  }

  function Unlink(q: Queue, t: Tid): Queue
    requires q.queue != []
  {
    var n := q.queue[0];
    q.(queue := q.queue[1..], pc := q.pc[t := Taken(n, q.TextOf(n))], taken := q.taken + [q.TextOf(n)])
  }

  function Sleep(q: Queue, t: Tid, place: nat): Queue
    requires place <= |q.waiters|
  {
    q.(waiters := q.waiters[..place] + [t] + q.waiters[place..], pc := q.pc[t := Waiting])
  }

  function Cleared(q: Queue): Queue {
    Drained(ResumedAll(q))
  }

  function ResumedAll(q: Queue): Queue {
    q.(waiters := [], pc := map t | t in q.pc :: if q.pc[t] == Waiting then Idle else q.pc[t])
  }

  function Drained(q: Queue): Queue {
    q.(free := Reversed(q.queue) + q.free, queue := [], dropped := q.dropped + q.Texts())
  }

  function Apply(q: Queue, s: Step): Queue
    requires Enabled(q, s)
  {
    match s
    case Claim(t, m, urgent) =>
      if |m| > q.size || q.free == [] then q
      else q.(free := q.free[1..], pc := q.pc[t := Claimed(q.free[0], m, urgent)])
    case CopyIn(t) =>
      var Claimed(n, m, urgent) := q.pc[t];
      q.(text := q.text[n := Overlay(q.TextOf(n), m)], pc := q.pc[t := Written(n, m, urgent)])
    case Link(t) => LinkNode(q, t)
    case Receive(t, block, place) =>
      if q.queue == [] then (if block then Sleep(q, t, place) else q.(pc := q.pc[t := Idle]))
      else Unlink(q, t)
    case CopyOut(t, want) =>
      var n := q.pc[t].node;
      q.(pc := q.pc[t := Read(n, Front(q.TextOf(n), want))])
    case GiveBack(t) => q.(free := [q.pc[t].node] + q.free, pc := q.pc[t := Idle])
    case TimeOut(t) => q.(waiters := Without(q.waiters, t), pc := q.pc[t := Idle])
    case Reset => Cleared(q)
  }

  // ----- every step keeps the partition, whatever the other threads are doing

  lemma ClaimPartition(q: Queue, s: Step)
    requires q.Partitioned() && s.Claim? && Enabled(q, s)
    ensures Apply(q, s).Partitioned()
  {
    var r := Apply(q, s);
    if |s.m| <= q.size && q.free != [] {
      assert q.free == [q.free[0]] + r.free;
      assert q.free[0] !in r.free;
      assert forall k :: k in q.free <==> k == q.free[0] || k in r.free;
      assert forall k :: k in r.free ==> k in q.free;
      assert r.Holds(s.t, q.free[0]);
      assert forall t, n: Node :: r.Holds(t, n) ==> q.Holds(t, n) || (t == s.t && n == q.free[0]);
      assert forall t, n: Node :: q.Holds(t, n) ==> r.Holds(t, n);
      forall k: Node | k < q.max ensures k in r.free || k in r.queue || exists u :: r.Holds(u, k) {
        if k == q.free[0] {
          assert r.Holds(s.t, k);
        } else if k !in r.free && k !in r.queue {
          var u :| q.Holds(u, k);
          assert r.Holds(u, k);
        }
      }
    }
  }

  lemma ClaimKeeps(q: Queue, s: Step)
    requires q.Inv() && s.Claim? && Enabled(q, s)
    ensures Apply(q, s).Inv()
  {
    hide Queue.Partitioned, Queue.Holds;
    ClaimPartition(q, s);
    assert Apply(q, s).Ready() == q.Ready();
  }

  lemma CopyInKeeps(q: Queue, s: Step)
    requires q.Inv() && s.CopyIn? && Enabled(q, s)
    ensures Apply(q, s).Inv()
  {
    var r := Apply(q, s);
    assert forall t, n: Node :: r.Holds(t, n) <==> q.Holds(t, n);
    assert q.Holds(s.t, q.pc[s.t].node);
    assert r.Ready() == q.Ready();
    forall t | t in r.pc && (r.pc[t].Written? || r.pc[t].Taken?) && t != s.t
      ensures r.TextOf(r.pc[t].node) == q.TextOf(q.pc[t].node)
    {
      assert q.Holds(t, q.pc[t].node);
    }
    assert |q.TextOf(q.pc[s.t].node)| == q.size;
  }

  /** What linking does to the threads: t lets its node go, and the first waiter, if any, is woken. */
  lemma LinkThreads(q: Queue, t: Tid)
    requires q.WaitersAgree() && t in q.pc && q.pc[t].Written?
    ensures var r := LinkNode(q, t);
            && r.pc.Keys == q.pc.Keys && r.pc[t] == Idle
            && (q.waiters != [] ==>
                 q.waiters[0] in q.pc && q.pc[q.waiters[0]] == Waiting && r.pc[q.waiters[0]] == Woken)
            && forall u :: u in q.pc && u != t && (q.waiters == [] || u != q.waiters[0]) ==> r.pc[u] == q.pc[u]
    ensures forall u, k: Node :: LinkNode(q, t).Holds(u, k) <==> q.Holds(u, k) && u != t
  {
    if q.waiters != [] { assert q.waiters[0] in q.waiters; }
  }

  lemma LinkPartition(q: Queue, t: Tid)
    requires q.Partitioned() && q.WaitersAgree() && t in q.pc && q.pc[t].Written?
    ensures LinkNode(q, t).Partitioned()
  {
    LinkThreads(q, t);
    var n := q.pc[t].node;
    var r := LinkNode(q, t);
    assert q.Holds(t, n);
    assert forall k :: k in r.queue <==> k == n || k in q.queue;
    assert r.free == q.free && r.max == q.max;
    hide LinkNode, Queue.WaitersAgree;
    forall k: Node | k < q.max ensures k in r.free || k in r.queue || exists u :: r.Holds(u, k) {
      if k !in q.free && k !in q.queue && k != n {
        var u :| q.Holds(u, k);
        assert r.Holds(u, k);
      }
    }
  }

  lemma LinkTexts(q: Queue, t: Tid)
    requires q.TextsStand() && q.WaitersAgree() && t in q.pc && q.pc[t].Written?
    ensures LinkNode(q, t).TextsStand()
  {
    LinkThreads(q, t);
  }

  lemma LinkWaiters(q: Queue, t: Tid)
    requires q.WaitersAgree() && t in q.pc && q.pc[t].Written?
    ensures LinkNode(q, t).WaitersAgree()
  {
    LinkThreads(q, t);
    var r := LinkNode(q, t);
    if q.waiters != [] {
      assert q.waiters == [q.waiters[0]] + r.waiters;
      assert q.waiters[0] !in r.waiters;
    }
  }

  /** With a receiver asleep, one more message and one more receiver awake; with none, nothing to show. */
  lemma LinkWakes(q: Queue, t: Tid)
    requires q.NoLostWakeup() && q.WaitersAgree() && t in q.pc && q.pc[t].Written?
    ensures LinkNode(q, t).NoLostWakeup()
  {
    LinkThreads(q, t);
    var r := LinkNode(q, t);
    if q.waiters != [] {
      assert r.Ready() == q.Ready() + {q.waiters[0]};
      assert q.waiters[0] !in q.Ready();
    }
  }

  lemma LinkKeeps(q: Queue, s: Step)
    requires q.Inv() && s.Link? && Enabled(q, s)
    ensures Apply(q, s).Inv()
  {
    hide Queue.Partitioned, Queue.TextsStand, Queue.WaitersAgree, Queue.NoLostWakeup, LinkNode;
    LinkPartition(q, s.t);
    LinkTexts(q, s.t);
    LinkWaiters(q, s.t);
    LinkWakes(q, s.t);
  }

  lemma ReceiveKeeps(q: Queue, s: Step)
    requires q.Inv() && s.Receive? && Enabled(q, s)
    ensures Apply(q, s).Inv()
  {
    hide Queue.Partitioned, Queue.TextsStand, Queue.WaitersAgree, Queue.NoLostWakeup, Sleep, Unlink;
    if q.queue != [] {
      UnlinkKeeps(q, s.t);
    } else if s.block {
      SleepKeeps(q, s.t, s.place);
    } else {
      GiveUpKeeps(q, s.t);
    }
  }

  lemma QueueHeadHasText(q: Queue)
    requires q.Partitioned() && q.TextsStand() && q.queue != []
    ensures q.queue[0] < q.max && q.queue[0] in q.text
  {
    assert q.queue[0] in q.queue;
  }

  predicate Nodeless(p: Pc) { p.Idle? || p.Waiting? || p.Woken? }

  /** A step in which thread t holds no node before or after moves none. */
  lemma NoNodeMoves(q: Queue, r: Queue, t: Tid)
    requires q.Partitioned() && q.TextsStand() && t in q.pc && t in r.pc && r.pc.Keys == q.pc.Keys
    requires r.max == q.max && r.size == q.size && r.free == q.free && r.queue == q.queue && r.text == q.text
    requires Nodeless(q.pc[t]) && Nodeless(r.pc[t]) && forall u :: u in q.pc && u != t ==> r.pc[u] == q.pc[u]
    ensures r.Partitioned() && r.TextsStand()
  {
    assert forall u, n: Node :: r.Holds(u, n) <==> q.Holds(u, n);
  }

  lemma GiveUpKeeps(q: Queue, t: Tid)
    requires q.Inv() && t in q.pc && (q.pc[t].Idle? || q.pc[t].Woken?) && q.queue == []
    ensures q.(pc := q.pc[t := Idle]).Inv()
  {
    hide Queue.Partitioned, Queue.TextsStand;
    NoNodeMoves(q, q.(pc := q.pc[t := Idle]), t);
  }

  lemma SleepKeeps(q: Queue, t: Tid, place: nat)
    requires q.Inv() && t in q.pc && (q.pc[t].Idle? || q.pc[t].Woken?) && q.queue == [] && place <= |q.waiters|
    ensures Sleep(q, t, place).Inv()
  {
    hide Queue.Partitioned, Queue.TextsStand;
    NoNodeMoves(q, Sleep(q, t, place), t);
    SleepWaiters(q, t, place);
    hide Queue.WaitersAgree;
  }

  lemma SleepWaiters(q: Queue, t: Tid, place: nat)
    requires q.WaitersAgree() && t in q.pc && (q.pc[t].Idle? || q.pc[t].Woken?) && place <= |q.waiters|
    ensures Sleep(q, t, place).WaitersAgree()
  {
    var r := Sleep(q, t, place);
    assert q.waiters == q.waiters[..place] + q.waiters[place..];
    assert t !in q.waiters;
    assert forall u :: u in r.waiters <==> u in q.waiters || u == t;
  }

  lemma UnlinkKeeps(q: Queue, t: Tid)
    requires q.Inv() && t in q.pc && (q.pc[t].Idle? || q.pc[t].Woken?) && q.queue != []
    ensures Unlink(q, t).Inv()
  {
    hide Queue.Partitioned, Queue.TextsStand, Queue.WaitersAgree, Queue.NoLostWakeup, Unlink;
    UnlinkPartition(q, t);
    UnlinkTexts(q, t);
    UnlinkWaiters(q, t);
  }

  lemma UnlinkTexts(q: Queue, t: Tid)
    requires q.Partitioned() && q.TextsStand() && t in q.pc && q.queue != []
    ensures Unlink(q, t).TextsStand()
  {
    QueueHeadHasText(q);
    hide Queue.Partitioned;
  }

  lemma UnlinkWaiters(q: Queue, t: Tid)
    requires q.WaitersAgree() && q.NoLostWakeup() && t in q.pc && (q.pc[t].Idle? || q.pc[t].Woken?) && q.queue != []
    ensures Unlink(q, t).WaitersAgree() && Unlink(q, t).NoLostWakeup()
  {
    hide Distinct;
    assert Unlink(q, t).Ready() == q.Ready() - {t};
  }

  lemma UnlinkPartition(q: Queue, t: Tid)
    requires q.Partitioned() && t in q.pc && (q.pc[t].Idle? || q.pc[t].Woken?) && q.queue != []
    ensures Unlink(q, t).Partitioned()
  {
    var r, n := Unlink(q, t), q.queue[0];
    assert q.queue == [n] + r.queue;
    assert n in q.queue && n !in r.queue;
    assert forall k :: k in r.queue ==> k in q.queue;
    assert r.Holds(t, n);
    assert forall u, k: Node :: r.Holds(u, k) <==> q.Holds(u, k) || (u == t && k == n);
    forall k: Node | k < q.max ensures k in r.free || k in r.queue || exists u :: r.Holds(u, k) {
      if k !in q.free && k !in q.queue {
        var u :| q.Holds(u, k);
        assert r.Holds(u, k);
      }
    }
  }

  lemma CopyOutKeeps(q: Queue, s: Step)
    requires q.Inv() && s.CopyOut? && Enabled(q, s)
    ensures Apply(q, s).Inv()
  {
    var r := Apply(q, s);
    assert forall u, k: Node :: r.Holds(u, k) <==> q.Holds(u, k);
    assert r.Ready() == q.Ready();
  }

  lemma GiveBackKeeps(q: Queue, s: Step)
    requires q.Inv() && s.GiveBack? && Enabled(q, s)
    ensures Apply(q, s).Inv()
  {
    var r, n := Apply(q, s), q.pc[s.t].node;
    assert q.Holds(s.t, n);
    assert forall u, k: Node :: r.Holds(u, k) <==> q.Holds(u, k) && u != s.t;
    assert r.Ready() == q.Ready();
    forall k: Node | k < q.max ensures k in r.free || k in r.queue || exists u :: r.Holds(u, k) {
      if k !in q.free && k !in q.queue && k != n {
        var u :| q.Holds(u, k);
        assert r.Holds(u, k);
      } else if k in q.free {
        assert k in r.free;
      }
    }
  }

  lemma TimeOutKeeps(q: Queue, s: Step)
    requires q.Inv() && s.TimeOut? && Enabled(q, s)
    ensures Apply(q, s).Inv()
  {
    hide Queue.Partitioned, Queue.TextsStand;
    var r := Apply(q, s);
    NoNodeMoves(q, r, s.t);
    assert r.Ready() == q.Ready();
    if r.waiters != [] {
      assert r.waiters[0] in r.waiters;
      assert q.waiters != [];
    }
  }

  lemma ResetKeeps(q: Queue, s: Step)
    requires q.Inv() && s.Reset? && Enabled(q, s)
    ensures Apply(q, s).Inv()
  {
    hide Cleared, Queue.Partitioned, Queue.TextsStand, Queue.WaitersAgree, Queue.NoLostWakeup;
    ResetPartition(q);
    ResetRest(q);
  }

  lemma ResetRest(q: Queue)
    requires q.TextsStand() && q.WaitersAgree()
    ensures Cleared(q).TextsStand() && Cleared(q).WaitersAgree() && Cleared(q).NoLostWakeup()
  {
    assert forall t :: t in q.pc && q.pc[t] != Waiting ==> ResumedAll(q).pc[t] == q.pc[t];
  }

  lemma ResetPartition(q: Queue)
    requires q.Inv()
    ensures Cleared(q).Partitioned()
  {
    var r := Cleared(q);
    ResetFrees(q);
    hide Queue.Inv, Queue.TextsStand, Queue.WaitersAgree, Queue.NoLostWakeup;
    assert q.Partitioned();
    assert forall u, k: Node :: r.Holds(u, k) <==> q.Holds(u, k);
    forall k: Node | k < q.max ensures k in r.free || k in r.queue || exists u :: r.Holds(u, k) {
      if k !in q.free && k !in q.queue {
        var u :| q.Holds(u, k);
        assert r.Holds(u, k);
      }
    }
  }

  lemma ResetFrees(q: Queue)
    requires q.Inv()
    ensures var r := Reversed(q.queue) + q.free;
            Distinct(r) && forall k :: k in r <==> k in q.queue || k in q.free
  {
    ReversedMembers(q.queue);
    var b := Reversed(q.queue);
    var r := b + q.free;
    forall i, j | 0 <= i < j < |r| ensures r[i] != r[j] {
      if i < |b| <= j { assert r[i] in b && r[j] in q.free; }
    }
  }

  lemma ReversedMembers(s: seq<Node>)
    ensures forall k :: k in Reversed(s) <==> k in s
  {
    forall k | k in s ensures k in Reversed(s) {
      var i :| 0 <= i < |s| && s[i] == k;
      assert Reversed(s)[|s| - 1 - i] == k;
    }
  }

  lemma StepKeeps(q: Queue, s: Step)
    requires q.Inv() && Enabled(q, s)
    ensures Apply(q, s).Inv()
  {
    hide Queue.Inv, Apply, Enabled;
    match s
    case Claim(_, _, _) => ClaimKeeps(q, s);
    case CopyIn(_) => CopyInKeeps(q, s);
    case Link(_) => LinkKeeps(q, s);
    case Receive(_, _, _) => ReceiveKeeps(q, s);
    case CopyOut(_, _) => CopyOutKeeps(q, s);
    case GiveBack(_) => GiveBackKeeps(q, s);
    case TimeOut(_) => TimeOutKeeps(q, s);
    case Reset => ResetKeeps(q, s);
  }

  // ----- runs

  function After(q: Queue, ss: seq<Step>): Queue
    requires Run(q, ss)
    decreases |ss|
  {
    if ss == [] then q else After(Apply(q, ss[0]), ss[1..])
  }

  /** Any interleaving: each step is one some thread can take at that moment. */
  predicate Run(q: Queue, ss: seq<Step>)
    decreases |ss|
  {
    ss != [] ==> Enabled(q, ss[0]) && Run(Apply(q, ss[0]), ss[1..])
  }

  /** Under every interleaving each node is in exactly one place, messages in flight stand, and no wake-up is lost. */
  lemma {:induction false} RunsKeepInvariant(q: Queue, ss: seq<Step>)
    requires q.Inv() && Run(q, ss)
    ensures After(q, ss).Inv()
    decreases |ss|
  {
    hide Queue.Inv, Apply, Enabled;
    if ss != [] {
      StepKeeps(q, ss[0]);
      RunsKeepInvariant(Apply(q, ss[0]), ss[1..]);
    }
  }

  /** What each step does to the queue of messages: only linking, unlinking and reset change it, and
      they change it the way an atomic queue would. */
  lemma StepRefines(q: Queue, s: Step)
    requires q.Inv() && Enabled(q, s)
    ensures var r := Apply(q, s);
            match s
            case Link(t) =>
              var m := q.TextOf(q.pc[t].node);
              && q.pc[t].m <= m
              && r.Texts() == (if q.pc[t].urgent then [m] + q.Texts() else q.Texts() + [m])
              && r.linked == q.linked + [m] && r.taken == q.taken && r.dropped == q.dropped
            case Receive(t, _, _) =>
              if q.queue == [] then r.Texts() == q.Texts() && r.linked == q.linked && r.taken == q.taken
                && r.dropped == q.dropped
              else && q.Texts() == [q.Texts()[0]] + r.Texts() && r.pc[t].Taken? && r.pc[t].m == q.Texts()[0]
                   && r.taken == q.taken + [q.Texts()[0]] && r.linked == q.linked && r.dropped == q.dropped
            case Reset => r.Texts() == [] && r.dropped == q.dropped + q.Texts() && r.linked == q.linked
              && r.taken == q.taken
            case _ => r.Texts() == q.Texts() && r.linked == q.linked && r.taken == q.taken && r.dropped == q.dropped
  {
    match s
    case Link(t) => LinkRefines(q, t);
    case CopyIn(t) => CopyInRefines(q, t);
    case _ =>
  }

  lemma LinkRefines(q: Queue, t: Tid)
    requires q.Inv() && Enabled(q, Link(t))
    ensures var r, m := LinkNode(q, t), q.TextOf(q.pc[t].node);
            && q.pc[t].m <= m
            && r.Texts() == (if q.pc[t].urgent then [m] + q.Texts() else q.Texts() + [m])
            && r.linked == q.linked + [m] && r.taken == q.taken && r.dropped == q.dropped
  {
    hide Queue.Partitioned, Queue.WaitersAgree, Queue.NoLostWakeup;
    assert q.pc[t].m <= q.TextOf(q.pc[t].node);
    assert Attached(q, t).queue == LinkNode(q, t).queue;
  }

  lemma CopyInRefines(q: Queue, t: Tid)
    requires q.Inv() && Enabled(q, CopyIn(t))
    ensures Apply(q, CopyIn(t)).Texts() == q.Texts()
  {
    var r := Apply(q, CopyIn(t));
    assert q.Holds(t, q.pc[t].node);
    forall i | 0 <= i < |q.queue| ensures r.TextOf(q.queue[i]) == q.TextOf(q.queue[i]) {
      assert q.queue[i] in q.queue;
    }
  }

  /** The message a receiver copies out is the one it unlinked, however long the node was in flight. */
  lemma DeliveryIsExact(q: Queue, t: Tid, want: nat)
    requires q.Inv() && Enabled(q, CopyOut(t, want))
    ensures Apply(q, CopyOut(t, want)).pc[t] == Read(q.pc[t].node, Front(q.pc[t].m, want))
  {
  }

  predicate PlainSends(ss: seq<Step>) {
    forall s :: s in ss ==> s != Reset && (s.Claim? ==> !s.urgent)
  }

  ghost predicate NoUrgentInFlight(q: Queue) {
    forall t :: t in q.pc && (q.pc[t].Claimed? || q.pc[t].Written?) ==> !q.pc[t].urgent
  }

  lemma FifoStep(q: Queue, s: Step)
    requires q.Inv() && Enabled(q, s) && PlainSends([s]) && NoUrgentInFlight(q)
    requires q.linked == q.taken + q.Texts()
    ensures var r := Apply(q, s); NoUrgentInFlight(r) && r.linked == r.taken + r.Texts()
  {
    hide Queue.Inv, Queue.Texts;
    assert s in [s];
    StepRefines(q, s);
  }

  /** First in, first out: without urgent sends and resets, what was received, in order, followed by what
      is still queued, is exactly what was linked, in order. */
  lemma {:induction false} FifoOrder(q: Queue, ss: seq<Step>)
    requires q.Inv() && Run(q, ss) && PlainSends(ss) && NoUrgentInFlight(q)
    requires q.linked == q.taken + q.Texts()
    ensures After(q, ss).linked == After(q, ss).taken + After(q, ss).Texts()
    decreases |ss|
  {
    hide Queue.Inv, Apply, Enabled, NoUrgentInFlight, Queue.Texts;
    if ss != [] {
      assert ss[0] in ss;
      FifoStep(q, ss[0]);
      StepKeeps(q, ss[0]);
      assert forall x :: x in ss[1..] ==> x in ss;
      FifoOrder(Apply(q, ss[0]), ss[1..]);
    }
  }

  /** Each message linked is received once, or thrown away once by a reset, or still queued: none lost, none doubled. */
  lemma {:induction false} EachMessageOnce(q: Queue, ss: seq<Step>)
    requires q.Inv() && Run(q, ss)
    requires multiset(q.linked) == multiset(q.taken) + multiset(q.dropped) + multiset(q.Texts())
    ensures var r := After(q, ss);
            multiset(r.linked) == multiset(r.taken) + multiset(r.dropped) + multiset(r.Texts())
    decreases |ss|
  {
    hide Queue.Inv, Apply, Enabled, Queue.Texts;
    if ss != [] {
      StepRefines(q, ss[0]);
      StepKeeps(q, ss[0]);
      EachMessageOnce(Apply(q, ss[0]), ss[1..]);
    }
  }

  /** When every resumed receiver has had its turn, a sleeping receiver means an empty queue. */
  lemma NobodySleepsOnAMessage(q: Queue)
    requires q.Inv() && q.waiters != [] && (forall t :: t in q.pc ==> q.pc[t] != Woken)
    ensures q.queue == []
  {
    assert q.Ready() == {};
  }
}
