/** The kernel's intrusive list: nodes that point to each other in a ring, one of them the list's head. */
module IntrusiveList {
  import opened Lists

  class ListNode {
    var next: ListNode
    var prev: ListNode

    /** rt_list_init: a list of nothing but its head */
    constructor ()
      ensures NodeRing([this])
    {
      next, prev := this, this;
    }
  }

  function After(n: nat, i: nat): (j: nat)
    requires i < n
    ensures j < n
  {
    if i + 1 == n then 0 else i + 1
  }

  /** Following next from s[0] one meets the nodes of s in order and is back at s[0]; prev leads the other way. */
  ghost predicate NodeRing(s: seq<ListNode>)
    reads s
  {
    && s != [] && Distinct(s)
    && forall i, j :: 0 <= i < |s| && 0 <= j < |s| && j == After(|s|, i) ==> s[i].next == s[j] && s[j].prev == s[i]
  }

  function Before(n: nat, i: nat): (j: nat)
    requires i < n
    ensures j < n && After(n, j) == i
  {
    if i == 0 then n - 1 else i - 1
  }

  lemma Neighbours(s: seq<ListNode>, i: nat)
    requires NodeRing(s) && i < |s|
    ensures s[i].next == s[After(|s|, i)] && s[i].prev == s[Before(|s|, i)]
    ensures forall j :: 0 <= j < |s| && j != i ==> s[j] != s[i]
  {
  }

  function Shift(i: nat, a: int): int { if a <= i then a else a - 1 }

  function Skip(i: nat, a: int): int { if a < i then a else a + 1 }

  /** The nodes of s but for the links between s[i] and its successor, with n between them. */
  lemma Widened(s: seq<ListNode>, i: nat, n: ListNode)
    requires s != [] && Distinct(s) && i < |s| && n !in s
    requires forall a :: 0 <= a < |s| && a != i ==> s[a].next == s[After(|s|, a)] && s[After(|s|, a)].prev == s[a]
    requires s[i].next == n && n.prev == s[i] && n.next == s[After(|s|, i)] && s[After(|s|, i)].prev == n
    ensures NodeRing(s[..i + 1] + [n] + s[i + 1..])
  {
    var r := s[..i + 1] + [n] + s[i + 1..];
    forall a | 0 <= a < |r| ensures r[a] == if a == i + 1 then n else s[Shift(i, a)] {}
    forall a, b | 0 <= a < |r| && 0 <= b < |r| && b == After(|r|, a) ensures r[a].next == r[b] && r[b].prev == r[a] {
      if a != i && a != i + 1 { assert b != i + 1 && Shift(i, b) == After(|s|, Shift(i, a)); }
    }
  }

  /** The nodes of s but for s[i], whose neighbours link to each other. */
  lemma Narrowed(s: seq<ListNode>, i: nat)
    requires Distinct(s) && i < |s| && |s| > 1
    requires forall a :: 0 <= a < |s| && a != i && After(|s|, a) != i ==>
               s[a].next == s[After(|s|, a)] && s[After(|s|, a)].prev == s[a]
    requires s[Before(|s|, i)].next == s[After(|s|, i)] && s[After(|s|, i)].prev == s[Before(|s|, i)]
    ensures NodeRing(s[..i] + s[i + 1..])
  {
    var r := s[..i] + s[i + 1..];
    forall a | 0 <= a < |r| ensures r[a] == s[Skip(i, a)] {}
    forall a, b | 0 <= a < |r| && 0 <= b < |r| && b == After(|r|, a) ensures r[a].next == r[b] && r[b].prev == r[a] {
      var x := Skip(i, a);
      assert Skip(i, b) == if x == Before(|s|, i) then After(|s|, i) else After(|s|, x);
    }
  }

  /** The links of the ring but for those between s[i] and its successor, which are of no other nodes. */
  lemma OtherLinks(s: seq<ListNode>, i: nat)
    requires NodeRing(s) && i < |s|
    ensures forall a :: 0 <= a < |s| && a != i ==>
              && s[a].next == s[After(|s|, a)] && s[After(|s|, a)].prev == s[a]
              && s[a] != s[i] && s[After(|s|, a)] != s[After(|s|, i)]
  {
    Around(|s|, i);
    hide After;
  }

  /** rt_list_insert_after: n comes to stand behind l = s[i]. */
  method InsertAfter(l: ListNode, n: ListNode, ghost s: seq<ListNode>, ghost i: nat)
    requires NodeRing(s) && i < |s| && s[i] == l && n !in s
    modifies s, n
    ensures NodeRing(s[..i + 1] + [n] + s[i + 1..])
  {
    hide Before, After, Distinct, NodeRing;
    Neighbours(s, i);
    RingApart(s);
    OtherLinks(s, i);
    l.next.prev := n;
    n.next := l.next;
    l.next := n;
    n.prev := l;
    Widened(s, i, n);
  }

  /** rt_list_insert_before: n comes to stand before l = s[i]; before the head is at the end. */
  method InsertBefore(l: ListNode, n: ListNode, ghost s: seq<ListNode>, ghost i: nat)
    requires NodeRing(s) && i < |s| && s[i] == l && n !in s
    modifies s, n
    ensures NodeRing(Preceded(s, i, n))
  {
    hide Preceded, Before, After, Distinct, NodeRing;
    ghost var h := Before(|s|, i);
    Neighbours(s, i);
    RingApart(s);
    OtherLinks(s, h);
    PrecededIs(s, i, n);
    l.prev.next := n;
    n.prev := l.prev;
    l.prev := n;
    n.next := l;
    Widened(s, h, n);
  }

  function Preceded(s: seq<ListNode>, i: nat, n: ListNode): seq<ListNode>
    requires i < |s|
  {
    if i == 0 then s + [n] else s[..i] + [n] + s[i..]
  }

  lemma PrecededIs(s: seq<ListNode>, i: nat, n: ListNode)
    requires i < |s|
    ensures var h := Before(|s|, i); Preceded(s, i, n) == s[..h + 1] + [n] + s[h + 1..]
  {
  }

  /** rt_list_remove: the others, if there are any, close up, and the node is a ring of its own. */
  method Remove(n: ListNode, ghost s: seq<ListNode>, ghost i: nat)
    requires NodeRing(s) && i < |s| && s[i] == n
    modifies s
    ensures NodeRing([n]) && (|s| > 1 ==> NodeRing(s[..i] + s[i + 1..]))
  {
    hide After, Before;
    Neighbours(s, i);
    RingApart(s);
    Around(|s|, i);
    n.next.prev := n.prev;
    n.prev.next := n.next;
    n.next := n;
    n.prev := n;
    LoneRing(n);
    if |s| > 1 { Narrowed(s, i); }
  }

  lemma RingApart(s: seq<ListNode>)
    requires NodeRing(s)
    ensures Distinct(s)
  {
  }

  lemma LoneRing(n: ListNode)
    requires n.next == n == n.prev
    ensures NodeRing([n])
  {
  }

  /** In a ring of more than one, a node is not its own neighbour, and no other node has its successor. */
  lemma Around(n: nat, i: nat)
    requires i < n
    ensures n > 1 ==> After(n, i) != i && Before(n, i) != i
    ensures n == 1 ==> After(n, i) == i == Before(n, i)
    ensures forall a, b :: 0 <= a < n && 0 <= b < n && After(n, a) == After(n, b) ==> a == b
  {
  }

  /** rt_list_isempty: nothing but the head */
  method IsEmpty(l: ListNode, ghost s: seq<ListNode>) returns (empty: bool)
    requires NodeRing(s) && s[0] == l
    ensures empty <==> |s| == 1
  {
    Neighbours(s, 0);
    empty := l.next == l;
  }
}
