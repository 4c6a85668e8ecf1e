/** The order of waiters: a thread joins behind all that are at least as urgent, and before the others; two waiters
    never change places. So waiters of one priority stand in the order in which they came. */
module WaitOrder {
  import opened Lists
  import opened Threads
  import opened WaitLists

  /** u stands somewhere in front of t. */
  ghost predicate InFront(s: seq<Tid>, u: Tid, t: Tid) { exists i, j :: 0 <= i < j < |s| && s[i] == u && s[j] == t }

  lemma FrontCons(x: Tid, s: seq<Tid>, u: Tid, t: Tid)
    ensures InFront([x] + s, u, t) <==> InFront(s, u, t) || (u == x && t in s)
  {
    var r := [x] + s;
    if InFront(r, u, t) {
      var i, j :| 0 <= i < j < |r| && r[i] == u && r[j] == t;
      assert s[j - 1] == t;
      if i > 0 { assert s[i - 1] == u; }
    }
    if InFront(s, u, t) {
      var i, j :| 0 <= i < j < |s| && s[i] == u && s[j] == t;
      assert r[i + 1] == u && r[j + 1] == t;
    }
    if u == x && t in s {
      var j :| 0 <= j < |s| && s[j] == t;
      assert r[0] == u && r[j + 1] == t;
    }
  }

  lemma FrontMembers(s: seq<Tid>, u: Tid, t: Tid)
    ensures InFront(s, u, t) ==> u in s && t in s
  {
  }

  lemma HeadAndTail(s: seq<Tid>)
    requires s != []
    ensures s == [s[0]] + s[1..] && forall u :: u in s <==> u == s[0] || u in s[1..]
  {
  }

  /** Joining a list sorted by priority: behind every waiter at least as urgent, before every one that is less so. */
  lemma {:induction false} JoinsBehindEquals(s: seq<Tid>, t: Tid, prio: map<Tid, nat>, u: Tid)
    requires Sorted(s, prio) && t in prio && t !in s && u in s
    ensures var r := Enqueue(s, t, prio, true);
            (InFront(r, u, t) <==> PrioOf(prio, u) <= PrioOf(prio, t))
            && (InFront(r, t, u) <==> PrioOf(prio, u) > PrioOf(prio, t))
  {
    hide InFront;
    HeadAndTail(s);
    SortedTail(s, prio);
    if PrioOf(prio, t) < PrioOf(prio, s[0]) {
      FrontCons(t, s, t, u);
      FrontCons(t, s, u, t);
      FrontMembers(s, u, t);
    } else {
      var r := Enqueue(s[1..], t, prio, true);
      FrontCons(s[0], r, u, t);
      FrontCons(s[0], r, t, u);
      FrontMembers(r, u, t);
      FrontMembers(r, t, u);
      if u in s[1..] {
        hide Sorted;
        JoinsBehindEquals(s[1..], t, prio, u);
      } else {
        NotBefore(s[1..], t, prio, u);
      }
    }
  }

  lemma NotBefore(s: seq<Tid>, t: Tid, prio: map<Tid, nat>, u: Tid)
    requires u !in s && u != t
    ensures !InFront(Enqueue(s, t, prio, true), t, u) && t in Enqueue(s, t, prio, true)
  {
    FrontMembers(Enqueue(s, t, prio, true), t, u);
    hide Enqueue, InFront;
  }

  /** Without the priority flag a thread joins at the end. */
  lemma {:induction false} JoinsAtEnd(s: seq<Tid>, t: Tid, prio: map<Tid, nat>)
    ensures Enqueue(s, t, prio, false) == s + [t]
  {
    if s != [] {
      JoinsAtEnd(s[1..], t, prio);
      assert [s[0]] + (s[1..] + [t]) == s + [t];
    }
  }

  /** Joining moves nobody else. */
  lemma {:induction false} EnqueueWithout(s: seq<Tid>, t: Tid, prio: map<Tid, nat>, byPriority: bool)
    requires t !in s
    ensures Without(Enqueue(s, t, prio, byPriority), t) == s
  {
    hide Distinct;
    if s != [] {
      HeadAndTail(s);
      if !(byPriority && PrioOf(prio, t) < PrioOf(prio, s[0])) { EnqueueWithout(s[1..], t, prio, byPriority); }
    }
  }

  /** Nor does leaving. */
  lemma {:induction false} WithoutFront(s: seq<Tid>, x: Tid, u: Tid, t: Tid)
    requires u != x && t != x
    ensures InFront(Without(s, x), u, t) <==> InFront(s, u, t)
  {
    hide InFront, Distinct;
    if s != [] {
      HeadAndTail(s);
      WithoutFront(s[1..], x, u, t);
      FrontCons(s[0], s[1..], u, t);
      FrontCons(s[0], Without(s[1..], x), u, t);
    }
  }
}
