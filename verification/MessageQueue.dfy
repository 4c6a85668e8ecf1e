/** The message queue object: chains of nodes threaded through `next`, rewritten one critical section
    at a time. Each method below is one section, or one copy between two, and is proved to be the step
    of MessageQueueSpec that bears its name. */
module MessageQueue {
  import opened Lists
  import opened MessageQueueSpec

  datatype Pointer = Null | To(node: Node)

  datatype Status = Ok | Error | Full | Timeout | Blocked

  /** From h, following next, one meets the nodes of s in order and then NULL. */
  ghost predicate Chain(next: map<Node, Pointer>, h: Pointer, s: seq<Node>)
    decreases |s|
  {
    if s == [] then h == Null else h == To(s[0]) && s[0] in next && Chain(next, next[s[0]], s[1..])
  }

  lemma {:induction false} ChainUnmoved(next: map<Node, Pointer>, h: Pointer, s: seq<Node>, n: Node, p: Pointer)
    requires Chain(next, h, s) && n !in s
    ensures Chain(next[n := p], h, s)
    decreases |s|
  {
    if s != [] { ChainUnmoved(next, next[s[0]], s[1..], n, p); }
  }

  lemma ChainCons(next: map<Node, Pointer>, h: Pointer, s: seq<Node>, n: Node)
    requires Chain(next, h, s) && n !in s
    ensures Chain(next[n := h], To(n), [n] + s)
  {
    ChainUnmoved(next, h, s, n, h);
    assert ([n] + s)[1..] == s;
  }

  lemma EmptyChain(next: map<Node, Pointer>)
    ensures Chain(next, Null, []) && Distinct<Node>([])
  {
  }

  lemma DistinctCons(s: seq<Node>, n: Node)
    requires Distinct(s) && n !in s
    ensures Distinct([n] + s)
  {
  }

  lemma HeadIs(next: map<Node, Pointer>, h: Pointer, s: seq<Node>)
    requires Chain(next, h, s) && s != [] && Distinct(s)
    ensures h == To(s[0]) && s[0] in next && Chain(next, next[s[0]], s[1..])
    ensures s[|s| - 1] == s[0] <==> |s| == 1
  {
    HeadOut(s);
    assert |s| > 1 ==> s[1..][|s| - 2] == s[|s| - 1];
  }

  /** Appending a node that ends in NULL: the last node's link, if there is one, is redirected to it. */
  lemma {:induction false} ChainSnoc(next: map<Node, Pointer>, h: Pointer, s: seq<Node>, n: Node)
    requires Chain(next, h, s) && Distinct(s) && n !in s && n in next && next[n] == Null
    ensures if s == [] then Chain(next, To(n), [n]) else Chain(next[s[|s| - 1] := To(n)], h, s + [n])
    decreases |s|
  {
    if |s| == 1 {
      assert (s + [n])[1..] == [n];
      assert Chain(next[s[0] := To(n)], To(n), [n]);
    } else if |s| > 1 {
      assert s[1..][|s[1..]| - 1] == s[|s| - 1];
      assert (s + [n])[1..] == s[1..] + [n];
      assert s[0] != s[|s| - 1];
      ChainSnoc(next, next[s[0]], s[1..], n);
    }
  }

  function Fill<T>(n: nat, v: T): (m: map<Node, T>)
    ensures forall k: Node :: k in m <==> k < n
    ensures forall k :: k in m ==> m[k] == v
  {
    if n == 0 then map[] else Fill(n - 1, v)[n - 1 := v]
  }

  lemma FreshInv(q: Queue)
    requires Distinct(q.free) && (forall n: Node :: n in q.free <==> n < q.max)
    requires q.queue == [] && q.waiters == [] && forall t :: t in q.pc ==> q.pc[t] == Idle
    requires forall n: Node :: n < q.max ==> n in q.text && |q.text[n]| == q.size
    ensures q.Inv()
  {
  }

  class MessageQueue {
    const maxMsgs: nat
    const msgSize: nat
    var next: map<Node, Pointer>         // the link field of each node
    var text: map<Node, Msg>             // the message area of each node
    var msgQueueHead: Pointer
    var msgQueueTail: Pointer
    var msgQueueFree: Pointer
    var entry: nat
    var suspendThread: seq<Tid>
    var pc: map<Tid, Pc>                 // local variables of the calls in progress
    ghost var free: seq<Node>
    ghost var queue: seq<Node>
    ghost var linked: seq<Msg>
    ghost var taken: seq<Msg>
    ghost var dropped: seq<Msg>

    ghost function Model(): Queue
      reads this
    {
      Queue(maxMsgs, msgSize, free, queue, text, pc, suspendThread, linked, taken, dropped)
    }

    ghost predicate Linked()
      reads this
    {
      && (forall n: Node :: n < maxMsgs ==> n in next)
      && Chain(next, msgQueueFree, free) && Chain(next, msgQueueHead, queue)
      && msgQueueTail == (if queue == [] then Null else To(queue[|queue| - 1]))
      && entry == |queue|
      && forall t :: t in pc && pc[t].Written? && !pc[t].urgent ==> pc[t].node in next && next[pc[t].node] == Null
    }

    ghost predicate Valid()
      reads this
    {
      Model().Inv() && Linked()
    }

    /** rt_mq_init: all nodes are put on the free list, the last one first. */
    constructor (max: nat, messageSize: nat, threads: set<Tid>)
      ensures Valid() && maxMsgs == max && msgSize == messageSize
      ensures queue == [] && linked == taken == dropped == [] && pc == map t | t in threads :: Idle
    {
      hide Fill, Queue.Inv, Distinct, Chain;
      maxMsgs := max;
      msgSize := messageSize;
      msgQueueHead, msgQueueTail, entry := Null, Null, 0;
      suspendThread := [];
      pc := map t | t in threads :: Idle;
      queue, linked, taken, dropped := [], [], [], [];
      text := Fill(max, seq(messageSize, _ => 0));
      next := Fill(max, Null);
      msgQueueFree := Null;
      free := [];
      new;
      EmptyChain(next);
      var temp := 0;
      while temp < maxMsgs
        invariant 0 <= temp <= maxMsgs
        invariant forall n: Node :: n < maxMsgs <==> n in next
        invariant Chain(next, msgQueueFree, free) && Distinct(free)
        invariant forall n: Node :: n in free <==> n < temp
        invariant queue == [] && msgQueueHead == Null && msgQueueTail == Null && entry == 0
        invariant linked == taken == dropped == [] && suspendThread == []
        invariant text == Fill(maxMsgs, seq(messageSize, _ => 0))
        invariant pc == map t | t in threads :: Idle
      {
        ChainCons(next, msgQueueFree, free, temp);
        DistinctCons(free, temp);
        next := next[temp := msgQueueFree];
        msgQueueFree := To(temp);
        free := [temp] + free;
        temp := temp + 1;
      }
      EmptyChain(next);
      FreshInv(Model());
    }

    /** First critical section of rt_mq_send and rt_mq_urgent. */
    method ClaimNode(t: Tid, m: Msg, urgent: bool) returns (r: Status)
      requires Valid() && Enabled(Model(), Claim(t, m, urgent))
      modifies this
      ensures Valid() && Model() == Apply(old(Model()), Claim(t, m, urgent))
      ensures r == if |m| > msgSize then Error else if old(msgQueueFree) == Null then Full else Ok
    {
      hide Queue.Inv;
      StepKeeps(Model(), Claim(t, m, urgent));
      if |m| > msgSize {
        return Error;
      }
      var msg := msgQueueFree;
      if msg == Null {
        return Full;
      }
      msgQueueFree := next[msg.node];
      pc := pc[t := Claimed(msg.node, m, urgent)];
      free := free[1..];
      return Ok;
    }

    /** Between the sections, interrupts on: clear the link (plain send only) and copy the message in. */
    method CopyMessageIn(t: Tid)
      requires Valid() && Enabled(Model(), Step.CopyIn(t))
      modifies this
      ensures Valid() && Model() == Apply(old(Model()), Step.CopyIn(t))
    {
      hide Queue.Inv, Chain, Overlay;
      StepKeeps(Model(), Step.CopyIn(t));
      OwnNode(t);
      var Claimed(msg, m, urgent) := pc[t];
      if !urgent {
        ChainUnmoved(next, msgQueueFree, free, msg, Null);
        ChainUnmoved(next, msgQueueHead, queue, msg, Null);
        next := next[msg := Null];
      }
      text := text[msg := Overlay(if msg in text then text[msg] else [], m)];
      pc := pc[t := Written(msg, m, urgent)];
    }

    /** A node in flight is on neither chain and with no other thread. */
    lemma OwnNode(t: Tid)
      requires Model().Inv() && t in pc && !Nodeless(pc[t])
      ensures pc[t].node !in free && pc[t].node !in queue && pc[t].node < maxMsgs
      ensures forall u :: u in pc && u != t && !Nodeless(pc[u]) ==> pc[u].node != pc[t].node
    {
      assert Model().Holds(t, pc[t].node);
      forall u | u in pc && u != t && !Nodeless(pc[u]) ensures pc[u].node != pc[t].node {
        assert Model().Holds(u, pc[u].node);
      }
    }

    /** rt_ipc_list_resume on the suspend list. */
    method ResumeFirst()
      requires Linked() && suspendThread != []
      modifies this`suspendThread, this`pc
      ensures Linked() && Model() == WakeFirst(old(Model()))
    {
      hide Chain;
      pc := pc[suspendThread[0] := Woken];
      suspendThread := suspendThread[1..];
    }

    /** Second critical section of rt_mq_send (at the tail) and rt_mq_urgent (at the head). */
    method LinkMessage(t: Tid)
      requires Valid() && Enabled(Model(), Step.Link(t))
      modifies this
      ensures Valid() && Model() == Apply(old(Model()), Step.Link(t))
    {
      hide Queue.Inv, Chain, Distinct;
      StepKeeps(Model(), Step.Link(t));
      WaitersOf(Model());
      OwnNode(t);
      DistinctChains(Model());
      LinkIs(Model(), t);
      Attach(t);
      if suspendThread != [] {
        ResumeFirst();
      }
    }

    method Attach(t: Tid)
      requires Linked() && t in pc && pc[t].Written? && Distinct(queue)
      requires pc[t].node !in free && pc[t].node !in queue && pc[t].node < maxMsgs
      requires forall u :: u in pc && u != t && !Nodeless(pc[u]) ==> pc[u].node != pc[t].node
      requires forall n :: n in queue ==> n !in free
      requires forall u :: u in pc && !Nodeless(pc[u]) ==> pc[u].node !in queue
      modifies this
      ensures Linked() && Model() == Attached(old(Model()), t)
    {
      hide Chain, Distinct;
      var Written(msg, _, urgent) := pc[t];
      if urgent {
        PutFirst(msg);
      } else {
        PutLast(msg);
      }
      Linking(t, msg);
    }

    method Linking(t: Tid, msg: Node)
      requires t in pc && |queue| == entry + 1
      requires Chain(next, msgQueueFree, free) && Chain(next, msgQueueHead, queue)
      requires msgQueueTail == (if queue == [] then Null else To(queue[|queue| - 1]))
      requires forall n: Node :: n < maxMsgs ==> n in next
      requires forall u :: u in pc && u != t && pc[u].Written? && !pc[u].urgent ==>
                pc[u].node in next && next[pc[u].node] == Null
      modifies this`entry, this`linked, this`pc
      ensures Linked()
      ensures entry == old(entry) + 1 && linked == old(linked) + [if msg in text then text[msg] else []]
      ensures pc == old(pc)[t := Idle]
    {
      hide Chain;
      entry := entry + 1;
      linked := linked + [if msg in text then text[msg] else []];
      pc := pc[t := Idle];
    }

    method PutFirst(msg: Node)
      requires Chain(next, msgQueueFree, free) && Chain(next, msgQueueHead, queue)
      requires msg !in free && msg !in queue && msg < maxMsgs
      requires msgQueueTail == (if queue == [] then Null else To(queue[|queue| - 1]))
      modifies this`next, this`msgQueueHead, this`msgQueueTail, this`queue
      ensures queue == [msg] + old(queue)
      ensures Chain(next, msgQueueFree, free) && Chain(next, msgQueueHead, queue)
      ensures msgQueueTail == To(queue[|queue| - 1])
      ensures next == old(next)[msg := old(msgQueueHead)]
    {
      ChainUnmoved(next, msgQueueFree, free, msg, msgQueueHead);
      ChainCons(next, msgQueueHead, queue, msg);
      next := next[msg := msgQueueHead];
      msgQueueHead := To(msg);
      if msgQueueTail == Null {
        msgQueueTail := To(msg);
      }
      queue := [msg] + queue;
    }

    method PutLast(msg: Node)
      requires Chain(next, msgQueueFree, free) && Chain(next, msgQueueHead, queue) && Distinct(queue)
      requires msg !in free && msg !in queue && msg in next && next[msg] == Null
      requires forall n :: n in queue ==> n !in free
      requires msgQueueTail == (if queue == [] then Null else To(queue[|queue| - 1]))
      modifies this`next, this`msgQueueHead, this`msgQueueTail, this`queue
      ensures queue == old(queue) + [msg]
      ensures Chain(next, msgQueueFree, free) && Chain(next, msgQueueHead, queue)
      ensures msgQueueTail == To(queue[|queue| - 1])
      ensures next.Keys >= old(next.Keys) && forall n :: n in old(next) && n !in old(queue) ==> next[n] == old(next[n])
    {
      ChainSnoc(next, msgQueueHead, queue, msg);
      assert msgQueueHead == Null <==> queue == [];
      if msgQueueTail != Null {
        ChainUnmoved(next, msgQueueFree, free, msgQueueTail.node, To(msg));
        next := next[msgQueueTail.node := To(msg)];
      }
      msgQueueTail := To(msg);
      if msgQueueHead == Null {
        msgQueueHead := To(msg);
      }
      queue := queue + [msg];
    }

    /** One pass of the receive loop: unlink the head, or sleep, or give up when not to wait. */
    method TryReceive(t: Tid, block: bool, place: nat) returns (r: Status)
      requires Valid() && Enabled(Model(), Step.Receive(t, block, place))
      modifies this
      ensures Valid() && Model() == Apply(old(Model()), Step.Receive(t, block, place))
      ensures r == if old(entry) > 0 then Ok else if block then Blocked else Timeout
    {
      hide Queue.Inv, Chain, Distinct, Unlink;
      StepKeeps(Model(), Step.Receive(t, block, place));
      DistinctChains(Model());
      if entry == 0 {
        if block {
          suspendThread := suspendThread[..place] + [t] + suspendThread[place..];
          pc := pc[t := Waiting];
          r := Blocked;
        } else {
          pc := pc[t := Idle];
          r := Timeout;
        }
      } else {
        UnlinkHead(t);
        r := Ok;
      }
    }

    method UnlinkHead(t: Tid)
      requires Linked() && queue != [] && Distinct(queue) && t in pc
      modifies this
      ensures Linked() && Model() == Unlink(old(Model()), t)
    {
      hide Distinct, Chain;
      var msg := DropHead();
      var m := if msg in text then text[msg] else [];
      pc := pc[t := Taken(msg, m)];
      taken := taken + [m];
    }

    method DropHead() returns (msg: Node)
      requires Linked() && queue != [] && Distinct(queue)
      modifies this`msgQueueHead, this`msgQueueTail, this`entry, this`queue
      ensures Linked() && msg == old(queue)[0] && queue == old(queue)[1..]
    {
      HeadIs(next, msgQueueHead, queue);
      hide Distinct, Chain;
      msg := msgQueueHead.node;
      msgQueueHead := next[msg];
      if msgQueueTail == To(msg) {
        msgQueueTail := Null;
      }
      entry := entry - 1;
      queue := queue[1..];
    }

    /** Between the sections of rt_mq_recv, interrupts on. */
    method CopyMessageOut(t: Tid, want: nat) returns (buffer: Msg)
      requires Valid() && Enabled(Model(), Step.CopyOut(t, want))
      modifies this
      ensures Valid() && Model() == Apply(old(Model()), Step.CopyOut(t, want))
      ensures buffer == Front(old(pc[t].m), want)
    {
      StepKeeps(Model(), Step.CopyOut(t, want));
      DeliveryIsExact(Model(), t, want);
      hide Queue.Inv, Chain;
      var msg := pc[t].node;
      buffer := Front(if msg in text then text[msg] else [], want);
      pc := pc[t := Read(msg, buffer)];
    }

    /** Last critical section of rt_mq_recv. */
    method ReturnNode(t: Tid)
      requires Valid() && Enabled(Model(), Step.GiveBack(t))
      modifies this
      ensures Valid() && Model() == Apply(old(Model()), Step.GiveBack(t))
    {
      hide Queue.Inv, Chain;
      StepKeeps(Model(), Step.GiveBack(t));
      OwnNode(t);
      var msg := pc[t].node;
      ChainCons(next, msgQueueFree, free, msg);
      ChainUnmoved(next, msgQueueHead, queue, msg, msgQueueFree);
      next := next[msg := msgQueueFree];
      msgQueueFree := To(msg);
      free := [msg] + free;
      pc := pc[t := Idle];
    }

    /** rt_thread_timeout on a sleeping receiver. */
    method OnTimeout(t: Tid)
      requires Valid() && Enabled(Model(), Step.TimeOut(t))
      modifies this
      ensures Valid() && Model() == Apply(old(Model()), Step.TimeOut(t))
    {
      hide Queue.Inv, Chain;
      StepKeeps(Model(), Step.TimeOut(t));
      suspendThread := Without(suspendThread, t);
      pc := pc[t := Idle];
    }

    /** rt_mq_control with RT_IPC_CMD_RESET. */
    method ResetQueue()
      requires Valid()
      modifies this
      ensures Valid() && Model() == Apply(old(Model()), Step.Reset)
    {
      hide Queue.Inv, Chain, Distinct, Reversed, Queue.Texts;
      StepKeeps(Model(), Step.Reset);
      DistinctChains(Model());
      WaitersOf(Model());
      ResumeAll();
      assert forall t :: t in pc && !Nodeless(pc[t]) ==> pc[t] == old(pc)[t];
      Drain();
    }

    method Drain()
      requires Linked() && Distinct(queue) && forall n :: n in queue ==> n !in free
      requires forall t :: t in pc && !Nodeless(pc[t]) ==> pc[t].node !in queue
      modifies this
      ensures Linked() && Model() == Drained(old(Model()))
    {
      hide Chain, Distinct, Reversed, Queue.Texts;
      ghost var q := Model();
      FreeAll();
      entry := 0;
      dropped := dropped + q.Texts();
    }

    /** Move every queued node to the front of the free list, one at a time. */
    method FreeAll()
      requires Chain(next, msgQueueFree, free) && Chain(next, msgQueueHead, queue)
      requires msgQueueTail == (if queue == [] then Null else To(queue[|queue| - 1]))
      requires Distinct(queue) && forall n :: n in queue ==> n !in free
      modifies this`next, this`msgQueueHead, this`msgQueueTail, this`msgQueueFree, this`free, this`queue
      ensures queue == [] && free == Reversed(old(queue)) + old(free)
      ensures Chain(next, msgQueueFree, free) && Chain(next, msgQueueHead, queue) && msgQueueTail == Null
      ensures next.Keys == old(next.Keys) && forall n :: n in next && n !in old(queue) ==> next[n] == old(next[n])
    {
      hide Chain, Reversed, Distinct;
      ghost var all, given := queue, free;
      ChainEnds(next, msgQueueHead, queue);
      while msgQueueHead != Null
        invariant Reversed(queue) + free == Reversed(all) + given
        invariant Chain(next, msgQueueFree, free) && Chain(next, msgQueueHead, queue)
        invariant msgQueueTail == (if queue == [] then Null else To(queue[|queue| - 1]))
        invariant next.Keys == old(next.Keys) && forall n :: n in next && n !in all ==> next[n] == old(next[n])
        invariant forall n :: n in queue ==> n !in free && n in all
        invariant Distinct(queue) && (msgQueueHead == Null <==> queue == [])
        decreases |queue|
      {
        ReversedFirst(queue, free);
        HeadOut(queue);
        FreeHead();
        ChainEnds(next, msgQueueHead, queue);
      }
      ReversedNone(free);
    }

    method FreeHead()
      requires Chain(next, msgQueueFree, free) && Chain(next, msgQueueHead, queue) && queue != []
      requires msgQueueTail == To(queue[|queue| - 1])
      requires Distinct(queue) && forall n :: n in queue ==> n !in free
      modifies this`next, this`msgQueueHead, this`msgQueueTail, this`msgQueueFree, this`free, this`queue
      ensures queue == old(queue)[1..] && free == [old(queue)[0]] + old(free)
      ensures Chain(next, msgQueueFree, free) && Chain(next, msgQueueHead, queue)
      ensures msgQueueTail == (if queue == [] then Null else To(queue[|queue| - 1]))
      ensures old(queue)[0] in old(next) && next == old(next)[old(queue)[0] := old(msgQueueFree)]
      ensures forall n :: n in queue ==> n !in free
    {
      var msg := msgQueueHead.node;
      msgQueueHead := next[msg];
      if msgQueueTail == To(msg) {
        msgQueueTail := Null;
      }
      assert queue == [msg] + queue[1..] && msg !in queue[1..];
      ChainUnmoved(next, msgQueueHead, queue[1..], msg, msgQueueFree);
      ChainCons(next, msgQueueFree, free, msg);
      next := next[msg := msgQueueFree];
      msgQueueFree := To(msg);
      free := [msg] + free;
      queue := queue[1..];
    }

    /** rt_ipc_list_resume_all: every sleeper returns with an error. */
    method ResumeAll()
      requires forall t :: t in suspendThread <==> t in pc && pc[t] == Waiting
      modifies this`suspendThread, this`pc
      ensures Model() == ResumedAll(old(Model()))
    {
      while suspendThread != []
        invariant pc.Keys == old(pc.Keys)
        invariant forall t :: t in pc ==> pc[t] == if old(pc)[t] == Waiting
                  && t !in suspendThread then Idle else old(pc)[t]
        invariant forall t :: t in suspendThread ==> t in old(pc) && old(pc)[t] == Waiting
        decreases |suspendThread|
      {
        var t := suspendThread[0];
        assert suspendThread == [t] + suspendThread[1..];
        suspendThread := suspendThread[1..];
        pc := pc[t := if t in suspendThread then Waiting else Idle];
      }
    }
  }

  lemma ChainEnds(next: map<Node, Pointer>, h: Pointer, s: seq<Node>)
    requires Chain(next, h, s)
    ensures h == Null <==> s == []
  {
  }

  lemma LinkIs(q: Queue, t: Tid)
    requires t in q.pc && q.pc[t].Written?
    ensures LinkNode(q, t) == WakeFirst(Attached(q, t))
  {
  }

  lemma WaitersOf(q: Queue)
    requires q.Inv()
    ensures q.WaitersAgree()
  {
  }

  lemma DistinctChains(q: Queue)
    requires q.Inv()
    ensures Distinct(q.queue) && Distinct(q.free) && q.WaitersAgree()
    ensures forall n :: n in q.queue ==> n !in q.free
    ensures forall t :: t in q.pc && !Nodeless(q.pc[t]) ==> q.pc[t].node !in q.queue
  {
    forall t | t in q.pc && !Nodeless(q.pc[t]) ensures q.pc[t].node !in q.queue {
      assert q.Holds(t, q.pc[t].node);
    }
  }

  lemma ReversedFirst(s: seq<Node>, t: seq<Node>)
    requires s != []
    ensures Reversed(s) + t == Reversed(s[1..]) + ([s[0]] + t)
  {
  }

  lemma ReversedNone(t: seq<Node>)
    ensures Reversed([]) + t == t
  {
  }

  /** The 16-bit entry counter cannot overflow: it never exceeds the number of nodes. */
  lemma EntryBounded(q: Queue)
    requires q.Inv()
    ensures |q.queue| <= q.max
  {
    SizeOfDistinct(q.queue);
    BoundedSet(ToSet(q.queue), q.max);
  }

  function ToSet(s: seq<nat>): (r: set<nat>)
    ensures forall n :: n in r <==> n in s
  {
    if s == [] then {} else {s[0]} + ToSet(s[1..])
  }

  lemma {:induction false} SizeOfDistinct(s: seq<nat>)
    requires Distinct(s)
    ensures |ToSet(s)| == |s|
  {
    if s != [] {
      SizeOfDistinct(s[1..]);
      assert s[0] !in ToSet(s[1..]);
    }
  }

  lemma {:induction false} BoundedSet(a: set<nat>, k: nat)
    requires forall n :: n in a ==> n < k
    ensures |a| <= k
    decreases k
  {
    if k > 0 {
      BoundedSet(a - {k - 1}, k - 1);
    } else {
      assert a == {};
    }
  }
}
