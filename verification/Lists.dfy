/** Lists of nodes: order, removal, and the circular doubly linked form in which the kernel keeps them. */
module Lists {

  ghost predicate Distinct<T>(s: seq<T>) { forall i, j :: 0 <= i < j < |s| ==> s[i] != s[j] }

  function Without(s: seq<nat>, t: nat): (r: seq<nat>)
    ensures forall u :: u in r <==> u in s && u != t
    ensures t !in s ==> r == s
    ensures Distinct(s) ==> Distinct(r)
  {
    if s == [] then []
    else
      var r := Without(s[1..], t);
      assert s == [s[0]] + s[1..];
      assert Distinct(s) ==> Distinct(s[1..]) && s[0] !in s[1..];
      if s[0] == t then r else [s[0]] + r
  }

  lemma HeadOut(s: seq<nat>)
    requires s != [] && Distinct(s)
    ensures Without(s, s[0]) == s[1..] && s[0] !in s[1..] && Distinct(s[1..])
  {
    assert s == [s[0]] + s[1..] && s[0] !in s[1..];
  }

  lemma {:induction false} WithoutAt(s: seq<nat>, i: nat)
    requires Distinct(s) && i < |s|
    ensures Without(s, s[i]) == s[..i] + s[i + 1..]
  {
    assert s == [s[0]] + s[1..] && s[0] !in s[1..];
    if i > 0 {
      WithoutAt(s[1..], i - 1);
      assert s[..i] == [s[0]] + s[1..][..i - 1] && s[1..][i..] == s[i + 1..];
    }
  }

  // ----- circular doubly linked lists, as the two link fields of each node

  function Succ(s: seq<nat>, i: nat): (j: nat)
    requires i < |s|
    ensures j < |s|
  {
    if i + 1 == |s| then 0 else i + 1
  }

  /** Following next from s[0] one meets the nodes of s in order and is back at s[0]; prev leads the other way. */
  ghost predicate Ring(next: map<nat, nat>, prev: map<nat, nat>, s: seq<nat>) {
    && s != [] && Distinct(s)
    && (forall i :: 0 <= i < |s| ==> s[i] in next && s[i] in prev)
    && (forall i, j :: 0 <= i < |s| && 0 <= j < |s| && j == Succ(s, i) ==> next[s[i]] == s[j] && prev[s[j]] == s[i])
  }

  function Shift(i: nat, a: int): int { if a <= i then a else a - 1 }

  /** With n behind s[i], n's successor is the former successor of s[i]; all others keep theirs. */
  lemma Added(s: seq<nat>, i: nat, n: nat)
    requires Distinct(s) && i < |s| && n !in s
    ensures var r := s[..i + 1] + [n] + s[i + 1..];
            && Distinct(r) && (forall a :: 0 <= a < |r| ==> r[a] == if a == i + 1 then n else s[Shift(i, a)])
            && forall a, b :: 0 <= a < |r| && 0 <= b < |r| && b == Succ(r, a) ==>
                 (if a == i then b == i + 1 else b != i + 1 && Shift(i, b) == Succ(s, Shift(i, a)))
  {
  }

  lemma SuccIsUnique(s: seq<nat>, a: nat, b: nat)
    requires a < |s| && b < |s| && a != b
    ensures Succ(s, a) != Succ(s, b)
  {
  }

  /** rt_list_insert_after: n between s[i] and its successor. */
  lemma InsertedAfter(next: map<nat, nat>, prev: map<nat, nat>, s: seq<nat>, i: nat, n: nat)
    requires Ring(next, prev, s) && i < |s| && n !in s
    ensures Ring(next[n := next[s[i]]][s[i] := n], prev[next[s[i]] := n][n := s[i]], s[..i + 1] + [n] + s[i + 1..])
  {
    Added(s, i, n);
    var k := Succ(s, i);
    assert next[s[i]] == s[k];
    var r := s[..i + 1] + [n] + s[i + 1..];
    var nx, pv := next[n := s[k]][s[i] := n], prev[s[k] := n][n := s[i]];
    forall a, b | 0 <= a < |r| && 0 <= b < |r| && b == Succ(r, a) ensures nx[r[a]] == r[b] && pv[r[b]] == r[a] {
      var x := Shift(i, a);
      if a != i {
        assert r[b] == s[Shift(i, b)];
        if x != i { SuccIsUnique(s, x, i); }
        assert next[s[x]] == s[Succ(s, x)];
      }
      hide Succ;
    }
    hide Distinct, Succ;
  }

  function Skip(i: nat, a: int): int { if a < i then a else a + 1 }

  function Pred(s: seq<nat>, i: nat): (j: nat)
    requires i < |s|
    ensures j < |s| && Succ(s, j) == i
  {
    if i == 0 then |s| - 1 else i - 1
  }

  /** With s[i] gone, the successor of its predecessor is its successor; all others keep theirs. */
  lemma Dropped(s: seq<nat>, i: nat)
    requires Distinct(s) && i < |s|
    ensures var r := s[..i] + s[i + 1..];
            && Distinct(r) && (forall a :: 0 <= a < |r| ==> r[a] == s[Skip(i, a)])
            && forall a, b :: 0 <= a < |r| && 0 <= b < |r| && b == Succ(r, a) ==>
                 Skip(i, b) == if Skip(i, a) == Pred(s, i) then Succ(s, i) else Succ(s, Skip(i, a))
  {
  }

  /** rt_list_remove: the neighbours of s[i] linked to each other. */
  lemma Unlinked(next: map<nat, nat>, prev: map<nat, nat>, s: seq<nat>, i: nat)
    requires Ring(next, prev, s) && i < |s| && |s| > 1
    ensures s[i] in next && s[i] in prev && next[s[i]] in prev && prev[s[i]] in next
    ensures Ring(next[prev[s[i]] := next[s[i]]], prev[next[s[i]] := prev[s[i]]], s[..i] + s[i + 1..])
  {
    Dropped(s, i);
    var h, k := Pred(s, i), Succ(s, i);
    assert next[s[i]] == s[k] && prev[s[i]] == s[h];
    var r := s[..i] + s[i + 1..];
    var n, p := next[s[h] := s[k]], prev[s[k] := s[h]];
    forall a, b | 0 <= a < |r| && 0 <= b < |r| && b == Succ(r, a) ensures n[r[a]] == r[b] && p[r[b]] == r[a] {
      var x := Skip(i, a);
      assert r[a] == s[x] && r[b] == s[Skip(i, b)];
      if x != h {
        SuccIsUnique(s, x, i);
        SuccIsUnique(s, x, h);
        assert next[s[x]] == s[Succ(s, x)];
      }
      hide Succ, Pred;
    }
    hide Distinct, Succ, Pred;
  }

  /** Links of a node that is not in the ring do not matter. */
  lemma OutsideRing(next: map<nat, nat>, prev: map<nat, nat>, s: seq<nat>, n: nat, x: nat, y: nat)
    requires Ring(next, prev, s) && n !in s
    ensures Ring(next[n := x], prev[n := y], s)
  {
  }
}
