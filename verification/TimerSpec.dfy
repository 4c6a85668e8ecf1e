/** Timer rows: lists of timers ordered by deadline, each row a sublist of the row below, with
    deadlines that the code can only compare modulo 2^32. */
module TimerSpec {
  import opened Lists

  const TICKS: nat := 0x1_0000_0000
  const HALF: nat := 0x7FFF_FFFF         // RT_TICK_MAX / 2

  type Tick = n: nat | n < 0x1_0000_0000
  type Id = nat

  /** The tick counter shows the true time modulo 2^32. */
  function Wrap(time: nat): Tick { time % 0x1_0000_0000 }

  /** Subtraction of two unsigned 32-bit ticks. */
  function Minus(a: Tick, b: Tick): Tick { if a >= b then a - b else a + 0x1_0000_0000 - b }

  lemma WrapParts(a: nat) returns (q: nat)
    ensures a == q * 0x1_0000_0000 + Wrap(a)
  {
    q := a / 0x1_0000_0000;
  }

  /** Two times less than a turn apart are in the same turn or in consecutive ones. */
  lemma WrappedMinus(a: nat, b: nat)
    requires a < b + TICKS && b < a + TICKS
    ensures Minus(Wrap(a), Wrap(b)) == if a >= b then a - b else a + TICKS - b
  {
    hide Wrap;
    var qa := WrapParts(a);
    var qb := WrapParts(b);
    if qa == qb {
    } else if qa == qb + 1 {
    } else {
      assert qb == qa + 1;
    }
  }

  /** The wrapped difference of two times is below HALF exactly when the first is not earlier and less
      than HALF later, as long as they lie within 2^31 + 1 of each other. */
  lemma WrappedCompare(a: nat, b: nat)
    requires a < b + TICKS && b < a + TICKS
    ensures Minus(Wrap(a), Wrap(b)) == if a >= b then a - b else a + TICKS - b
    ensures (Minus(Wrap(a), Wrap(b)) < HALF <==> a >= b) <==> a < b + HALF && b <= a + TICKS - HALF
  {
    hide Wrap, Minus;
    WrappedMinus(a, b);
  }

  // ----- one row

  /** What orders a timer: its true deadline, then the order in which timers were started. */
  datatype Key = Key(due: nat, stamp: nat)

  predicate Before(a: Key, b: Key) { a.due < b.due || (a.due == b.due && a.stamp < b.stamp) }

  ghost predicate Ordered(row: seq<Id>, key: map<Id, Key>) {
    && (forall t :: t in row ==> t in key)
    && forall i, j :: 0 <= i < j < |row| ==> Before(key[row[i]], key[row[j]])
  }

  function Due(key: map<Id, Key>, t: Id): nat { if t in key then key[t].due else 0 }

  /** Linear insertion in front of the first timer that is due strictly later. */
  function Insert(row: seq<Id>, t: Id, key: map<Id, Key>): (r: seq<Id>)
    ensures |r| == |row| + 1
    ensures forall u :: u in r <==> u in row || u == t
  {
    if row == [] || Due(key, row[0]) > Due(key, t) then [t] + row
    else [row[0]] + Insert(row[1..], t, key)
  }

  /** The timers of `row` that belong to `keep`, in order. */
  function Filter(row: seq<Id>, keep: seq<Id>): (r: seq<Id>)
    ensures forall u :: u in r <==> u in row && u in keep
  {
    if row == [] then [] else (if row[0] in keep then [row[0]] else []) + Filter(row[1..], keep)
  }

  ghost predicate Sublist(a: seq<Id>, b: seq<Id>) { a == Filter(b, a) }

  lemma {:induction false} InsertBetween(a: seq<Id>, b: seq<Id>, t: Id, key: map<Id, Key>)
    requires forall u :: u in a ==> Due(key, u) <= Due(key, t)
    requires b != [] ==> Due(key, b[0]) > Due(key, t)
    ensures Insert(a + b, t, key) == a + [t] + b
  {
    hide Insert, Due;
    if a == [] {
      assert a + b == b;
      InsertFront(b, t, key);
    } else {
      assert a + b == [a[0]] + (a[1..] + b);
      InsertBetween(a[1..], b, t, key);
      InsertCons(a[0], a[1..] + b, t, key);
      assert a + [t] + b == [a[0]] + (a[1..] + [t] + b);
    }
  }

  lemma InsertAt(row: seq<Id>, p: nat, t: Id, key: map<Id, Key>)
    requires p <= |row| && forall i :: 0 <= i < p ==> Due(key, row[i]) <= Due(key, t)
    requires p < |row| ==> Due(key, row[p]) > Due(key, t)
    ensures row[..p] + [t] + row[p..] == Insert(row, t, key)
  {
    assert row == row[..p] + row[p..];
    InsertBetween(row[..p], row[p..], t, key);
  }

  lemma OrderedCons(h: Id, row: seq<Id>, key: map<Id, Key>)
    requires Ordered(row, key) && h in key && forall u :: u in row ==> Before(key[h], key[u])
    ensures Ordered([h] + row, key)
  {
  }

  lemma OrderedRest(row: seq<Id>, key: map<Id, Key>)
    requires Ordered(row, key) && row != []
    ensures row == [row[0]] + row[1..] && Ordered(row[1..], key)
    ensures row[0] in key && forall u :: u in row[1..] ==> u in row && u in key && Before(key[row[0]], key[u])
  {
    forall u | u in row[1..] ensures Before(key[row[0]], key[u]) {
      var i :| 0 <= i < |row[1..]| && row[1..][i] == u;
      assert row[i + 1] == u;
    }
  }

  lemma {:induction false} InsertOrdered(row: seq<Id>, t: Id, key: map<Id, Key>)
    requires Ordered(row, key) && t in key
    requires forall u :: u in row ==> key[u].stamp < key[t].stamp
    ensures Ordered(Insert(row, t, key), key)
  {
    if row == [] {
    } else {
      OrderedRest(row, key);
      hide Ordered;
      if Due(key, row[0]) <= Due(key, t) {
        InsertOrdered(row[1..], t, key);
        OrderedCons(row[0], Insert(row[1..], t, key), key);
      } else {
        OrderedCons(t, row, key);
      }
    }
  }

  /** A row's insertion is the lower row's insertion seen through the row. */
  lemma {:induction false} FilterInsert(b: seq<Id>, keep: seq<Id>, keep': seq<Id>, t: Id, key: map<Id, Key>)
    requires Ordered(b, key) && t !in b && t !in keep
    requires forall u :: u in keep' <==> u in keep || u == t
    ensures Filter(Insert(b, t, key), keep') == Insert(Filter(b, keep), t, key)
  {
    if b == [] {
      assert [t][1..] == [];
    } else {
      hide Ordered, Insert, Filter;
      OrderedRest(b, key);
      if Due(key, b[0]) > Due(key, t) {
        FilterInsertFront(b, keep, keep', t, key);
      } else {
        FilterInsert(b[1..], keep, keep', t, key);
        FilterCons(b[0], Insert(b[1..], t, key), keep');
        FilterCons(b[0], b[1..], keep);
        InsertCons(b[0], Filter(b[1..], keep), t, key);
        InsertCons(b[0], b[1..], t, key);
      }
    }
  }

  lemma FilterInsertFront(b: seq<Id>, keep: seq<Id>, keep': seq<Id>, t: Id, key: map<Id, Key>)
    requires Ordered(b, key) && b != [] && t !in b && Due(key, b[0]) > Due(key, t)
    requires forall u :: u in keep' <==> u in keep || u == t
    ensures Filter(Insert(b, t, key), keep') == Insert(Filter(b, keep), t, key)
  {
    hide Ordered, Insert, Filter;
    OrderedRest(b, key);
    var f := Filter(b, keep);
    FilterSame(b, keep, keep', t);
    FilterCons(t, b, keep');
    assert f != [] ==> f[0] in f;
    InsertFront(b, t, key);
    InsertFront(f, t, key);
  }

  lemma InsertFront(row: seq<Id>, t: Id, key: map<Id, Key>)
    requires row != [] ==> Due(key, row[0]) > Due(key, t)
    ensures Insert(row, t, key) == [t] + row
  {
  }

  lemma InsertCons(h: Id, row: seq<Id>, t: Id, key: map<Id, Key>)
    requires Due(key, h) <= Due(key, t)
    ensures Insert([h] + row, t, key) == [h] + Insert(row, t, key)
  {
    assert ([h] + row)[1..] == row;
  }

  lemma FilterCons(h: Id, row: seq<Id>, keep: seq<Id>)
    ensures Filter([h] + row, keep) == if h in keep then [h] + Filter(row, keep) else Filter(row, keep)
  {
    assert ([h] + row)[1..] == row;
  }

  lemma {:induction false} FilterSame(b: seq<Id>, keep: seq<Id>, keep': seq<Id>, t: Id)
    requires t !in b && forall u :: u in keep' <==> u in keep || u == t
    ensures Filter(b, keep') == Filter(b, keep)
  {
    if b != [] { FilterSame(b[1..], keep, keep', t); }
  }

  lemma {:induction false} FilterSkips(b: seq<Id>, keep: seq<Id>, t: Id, key: map<Id, Key>)
    requires t !in keep
    ensures Filter(Insert(b, t, key), keep) == Filter(b, keep)
  {
    if b == [] || Due(key, b[0]) > Due(key, t) {
      assert ([t] + b)[1..] == b;
    } else {
      FilterSkips(b[1..], keep, t, key);
      assert ([b[0]] + Insert(b[1..], t, key))[1..] == Insert(b[1..], t, key);
    }
  }

  lemma {:induction false} FilterWithout(b: seq<Id>, keep: seq<Id>, keep': seq<Id>, t: Id)
    requires forall u :: u in keep' <==> u in keep && u != t
    ensures Filter(Without(b, t), keep') == Without(Filter(b, keep), t)
  {
    if b != [] {
      FilterWithout(b[1..], keep, keep', t);
      var w := Without(b[1..], t);
      assert ([b[0]] + w)[1..] == w;
      var f := Filter(b[1..], keep);
      assert ([b[0]] + f)[1..] == f;
      assert [] + f == f;
    }
  }

  lemma {:induction false} WithoutOrdered(row: seq<Id>, t: Id, key: map<Id, Key>)
    requires Ordered(row, key)
    ensures Ordered(Without(row, t), key)
  {
    if row != [] {
      OrderedRest(row, key);
      hide Ordered;
      WithoutOrdered(row[1..], t, key);
      if row[0] != t { OrderedCons(row[0], Without(row[1..], t), key); }
    }
  }

  lemma {:induction false} FilterOrdered(b: seq<Id>, keep: seq<Id>, key: map<Id, Key>)
    requires Ordered(b, key)
    ensures Ordered(Filter(b, keep), key)
  {
    if b != [] {
      OrderedRest(b, key);
      hide Ordered;
      FilterOrdered(b[1..], keep, key);
      FilterCons(b[0], b[1..], keep);
      if b[0] in keep { OrderedCons(b[0], Filter(b[1..], keep), key); }
    }
  }

  // ----- all the rows; the last one holds every pending timer

  ghost predicate RowsInv(rows: seq<seq<Id>>, key: map<Id, Key>) {
    && |rows| > 0 && Ordered(rows[|rows| - 1], key)
    && forall l, m :: 0 <= l < m < |rows| && m == l + 1 ==> Sublist(rows[l], rows[m])
  }

  /** Every row is ordered, being a sublist of an ordered row. */
  lemma {:induction false} RowOrdered(rows: seq<seq<Id>>, key: map<Id, Key>, l: nat)
    requires RowsInv(rows, key) && l < |rows|
    ensures Ordered(rows[l], key)
    ensures forall t :: t in rows[l] ==> t in rows[|rows| - 1]
    decreases |rows| - l
  {
    if l < |rows| - 1 {
      RowOrdered(rows, key, l + 1);
      assert Sublist(rows[l], rows[l + 1]);
      FilterOrdered(rows[l + 1], rows[l], key);
    }
  }

  /** Taken out of every row. */
  function Removed(rows: seq<seq<Id>>, t: Id): seq<seq<Id>> {
    seq(|rows|, l requires 0 <= l < |rows| => Without(rows[l], t))
  }

  /** Inserted into the lowest h rows. */
  function Started(rows: seq<seq<Id>>, t: Id, h: nat, key: map<Id, Key>): seq<seq<Id>>
  {
    seq(|rows|, l requires 0 <= l < |rows| => if l >= |rows| - h then Insert(rows[l], t, key) else rows[l])
  }

  lemma RemovedKeeps(rows: seq<seq<Id>>, t: Id, key: map<Id, Key>)
    requires RowsInv(rows, key)
    ensures RowsInv(Removed(rows, t), key)
  {
    var r := Removed(rows, t);
    WithoutOrdered(rows[|rows| - 1], t, key);
    forall l, m | 0 <= l < m < |rows| && m == l + 1 ensures Sublist(r[l], r[m]) {
      assert Sublist(rows[l], rows[m]);
      FilterWithout(rows[m], rows[l], r[l], t);
    }
    hide Ordered, Sublist;
  }

  /** Insertion into the lowest h rows, h at least one, keeps each row a sublist of the row below
      and puts the timer in the bottom row where stable linear insertion would. */
  lemma StartedKeeps(rows: seq<seq<Id>>, t: Id, h: nat, key: map<Id, Key>)
    requires RowsInv(rows, key) && 1 <= h <= |rows| && t in key
    requires t !in rows[|rows| - 1] && forall u :: u in rows[|rows| - 1] ==> key[u].stamp < key[t].stamp
    ensures RowsInv(Started(rows, t, h, key), key)
    ensures Started(rows, t, h, key)[|rows| - 1] == Insert(rows[|rows| - 1], t, key)
  {
    hide Ordered, Sublist, Insert;
    InsertOrdered(rows[|rows| - 1], t, key);
    var r := Started(rows, t, h, key);
    forall l, m | 0 <= l < m < |rows| && m == l + 1 ensures Sublist(r[l], r[m]) { StartedPair(rows, t, h, key, l); }
  }

  lemma StartedPair(rows: seq<seq<Id>>, t: Id, h: nat, key: map<Id, Key>, l: nat)
    requires RowsInv(rows, key) && t in key && l + 1 < |rows| && t !in rows[|rows| - 1]
    ensures Sublist(Started(rows, t, h, key)[l], Started(rows, t, h, key)[l + 1])
  {
    RowOrdered(rows, key, l);
    RowOrdered(rows, key, l + 1);
    var a, b := rows[l], rows[l + 1];
    assert Sublist(a, b);
    hide Ordered, RowsInv, Insert, Filter;
    if l >= |rows| - h {
      SublistBoth(a, b, t, key);
    } else if l + 1 >= |rows| - h {
      FilterSkips(b, a, t, key);
    }
  }

  /** A timer that is in the rows already must not be inserted: the rows stay in order exactly if it was not. */
  lemma StartedExactly(rows: seq<seq<Id>>, t: Id, h: nat, key: map<Id, Key>)
    requires RowsInv(rows, key) && 1 <= h <= |rows| && t in key
    requires forall u :: u in rows[|rows| - 1] && u != t ==> key[u].stamp < key[t].stamp
    ensures RowsInv(Started(rows, t, h, key), key) <==> t !in rows[|rows| - 1]
  {
    hide RowsInv, Started;
    if t !in rows[|rows| - 1] {
      StartedKeeps(rows, t, h, key);
    } else {
      TwiceInserted(rows, t, h, key);
    }
  }

  lemma TwiceInserted(rows: seq<seq<Id>>, t: Id, h: nat, key: map<Id, Key>)
    requires |rows| > 0 && 1 <= h <= |rows| && t in rows[|rows| - 1]
    ensures !RowsInv(Started(rows, t, h, key), key)
  {
    var b := rows[|rows| - 1];
    var i, j := TwoPlaces(b, t, key);
    hide Insert, Sublist;
    assert Started(rows, t, h, key)[|rows| - 1] == Insert(b, t, key);
  }

  lemma {:induction false} TwoPlaces(row: seq<Id>, t: Id, key: map<Id, Key>) returns (i: nat, j: nat)
    requires t in row
    ensures i < j < |Insert(row, t, key)| && Insert(row, t, key)[i] == Insert(row, t, key)[j] == t
  {
    var r := Insert(row, t, key);
    if Due(key, row[0]) > Due(key, t) {
      var k :| 0 <= k < |row| && row[k] == t;
      i, j := 0, k + 1;
    } else if row[0] == t {
      var m := Insert(row[1..], t, key);
      assert t in m;
      var k :| 0 <= k < |m| && m[k] == t;
      i, j := 0, k + 1;
    } else {
      i, j := TwoPlaces(row[1..], t, key);
      i, j := i + 1, j + 1;
    }
  }

  lemma SublistBoth(a: seq<Id>, b: seq<Id>, t: Id, key: map<Id, Key>)
    requires Sublist(a, b) && Ordered(b, key) && t !in b && t !in a
    ensures Sublist(Insert(a, t, key), Insert(b, t, key))
  {
    FilterInsert(b, a, Insert(a, t, key), t, key);
  }

  // ----- expiry

  /** How many timers at the head of the row are due at time `now`. */
  function DueCount(row: seq<Id>, key: map<Id, Key>, now: nat): (n: nat)
    ensures n <= |row|
  {
    if row == [] || Due(key, row[0]) > now then 0 else DueCount(row[1..], key, now) + 1
  }

  /** In an ordered row these are exactly the timers that are due. */
  lemma {:induction false} DuePrefix(row: seq<Id>, key: map<Id, Key>, now: nat)
    requires Ordered(row, key)
    ensures forall i :: 0 <= i < |row| ==> (key[row[i]].due <= now <==> i < DueCount(row, key, now))
  {
    if row != [] {
      OrderedRest(row, key);
      if Due(key, row[0]) <= now {
        DuePrefix(row[1..], key, now);
        forall i | 0 <= i < |row| ensures key[row[i]].due <= now <==> i < DueCount(row, key, now) {
          if i > 0 { assert row[i] == row[1..][i - 1]; }
        }
      }
    }
  }

  lemma WithoutHead(row: seq<Id>, key: map<Id, Key>)
    requires Ordered(row, key) && row != []
    ensures Without(row, row[0]) == row[1..] && row[0] !in row[1..]
  {
    OrderedRest(row, key);
  }

  /** Insertion leaves alone a prefix of timers that are due no later. */
  lemma InsertBehind(row: seq<Id>, p: nat, t: Id, key: map<Id, Key>)
    requires p <= |row| && forall i :: 0 <= i < p ==> Due(key, row[i]) <= Due(key, t)
    ensures Insert(row, t, key) == row[..p] + Insert(row[p..], t, key)
  {
    assert row == row[..p] + row[p..];
    InsertAfter(row[..p], row[p..], t, key);
  }

  lemma {:induction false} InsertAfter(a: seq<Id>, b: seq<Id>, t: Id, key: map<Id, Key>)
    requires forall u :: u in a ==> Due(key, u) <= Due(key, t)
    ensures Insert(a + b, t, key) == a + Insert(b, t, key)
  {
    if a == [] {
      assert a + b == b;
    } else {
      assert a + b == [a[0]] + (a[1..] + b);
      InsertAfter(a[1..], b, t, key);
      InsertCons(a[0], a[1..] + b, t, key);
      hide Insert;
      assert a + Insert(b, t, key) == [a[0]] + (a[1..] + Insert(b, t, key));
    }
  }

  /** What a timer is set to do, fixed while the clock interrupt runs. */
  datatype Setting = Setting(period: nat, periodic: bool)

  datatype Pending = Pending(row: seq<Id>, key: map<Id, Key>, clock: nat)

  /** The pending timers after those in `todo`, all due, are expired one by one: a one-shot timer is
      gone, a periodic one is inserted again, due a period from now. */
  function Rearm(todo: seq<Id>, p: Pending, cfg: map<Id, Setting>, now: nat): Pending
    decreases |todo|
  {
    if todo == [] then p
    else Rearm(todo[1..], RearmOne(todo[0], p, cfg, now), cfg, now)
  }

  function RearmOne(t: Id, p: Pending, cfg: map<Id, Setting>, now: nat): Pending {
    if t in cfg && cfg[t].periodic then
      var key := p.key[t := Key(now + cfg[t].period, p.clock)];
      Pending(Insert(p.row, t, key), key, p.clock + 1)
    else p
  }

  ghost predicate Later(p: Pending, now: nat) {
    forall u :: u in p.row ==> u in p.key && p.key[u].due > now && p.key[u].stamp < p.clock
  }

  lemma RearmOneKeeps(t: Id, p: Pending, cfg: map<Id, Setting>, now: nat)
    requires Ordered(p.row, p.key) && Later(p, now) && t !in p.row
    requires t in cfg && cfg[t].periodic ==> cfg[t].period > 0
    ensures var r := RearmOne(t, p, cfg, now);
            && Ordered(r.row, r.key) && Later(r, now) && r.clock >= p.clock
            && (forall u :: u in p.row ==> u in r.row && u in r.key && r.key[u] == p.key[u])
            && (forall u :: u in r.row ==> u in p.row || u == t)
            && (t in r.row <==> t in cfg && cfg[t].periodic)
            && (t in r.row ==> r.key[t] == Key(now + cfg[t].period, p.clock))
  {
    if t in cfg && cfg[t].periodic {
      var key := p.key[t := Key(now + cfg[t].period, p.clock)];
      assert Ordered(p.row, key);
      InsertOrdered(p.row, t, key);
    }
  }

  /** Afterwards nothing pending is due; the timers that were not due stand as they were; of those that
      were, exactly the periodic ones are pending again, one period from now. */
  lemma {:induction false} RearmResult(todo: seq<Id>, p: Pending, cfg: map<Id, Setting>, now: nat)
    requires Ordered(p.row, p.key) && Later(p, now)
    requires forall u :: u in todo ==> u !in p.row
    requires forall i, j :: 0 <= i < j < |todo| ==> todo[i] != todo[j]
    requires forall u :: u in todo && u in cfg && cfg[u].periodic ==> cfg[u].period > 0
    ensures var r := Rearm(todo, p, cfg, now);
            && Ordered(r.row, r.key) && Later(r, now) && r.clock >= p.clock
            && (forall u :: u in p.row ==> u in r.row && u in r.key && r.key[u] == p.key[u])
            && (forall u :: u in r.row ==> u in p.row || u in todo)
            && (forall u :: u in todo ==> (u in r.row <==> u in cfg && cfg[u].periodic))
            && (forall u :: u in todo && u in r.row ==> r.key[u].due == now + cfg[u].period)
    decreases |todo|
  {
    if todo != [] {
      var t, q := todo[0], RearmOne(todo[0], p, cfg, now);
      RearmOneKeeps(t, p, cfg, now);
      assert todo == [t] + todo[1..];
      hide Ordered, RearmOne;
      RearmResult(todo[1..], q, cfg, now);
    }
  }

  /** Half-way through the interrupt: the timers in `todo` are due and head the row, the rest are later. */
  ghost predicate Expiring(p: Pending, todo: seq<Id>, now: nat) {
    && Ordered(p.row, p.key) && |todo| <= |p.row| && p.row[..|todo|] == todo
    && (forall u :: u in todo ==> u in p.key && p.key[u].due <= now && p.key[u].stamp < p.clock)
    && Later(Behind(p, |todo|), now)
  }

  function Behind(p: Pending, n: nat): Pending
    requires n <= |p.row|
  {
    Pending(p.row[n..], p.key, p.clock)
  }

  lemma ExpiringStart(p: Pending, now: nat)
    requires Ordered(p.row, p.key) && forall u :: u in p.row ==> u in p.key && p.key[u].stamp < p.clock
    ensures Expiring(p, p.row[..DueCount(p.row, p.key, now)], now)
  {
    DuePrefix(p.row, p.key, now);
  }

  lemma ExpiringHead(p: Pending, todo: seq<Id>, now: nat)
    requires Expiring(p, todo, now) && p.row != []
    ensures p.row[0] in p.key && (p.key[p.row[0]].due <= now <==> todo != [])
    ensures todo != [] ==> todo[0] == p.row[0] && todo == [todo[0]] + todo[1..]
  {
    if todo == [] { assert p.row[0] in Behind(p, 0).row; }
  }

  /** Expiring the head of the row commutes with looking behind the timers still to do. */
  lemma ExpiringStep(p: Pending, todo: seq<Id>, cfg: map<Id, Setting>, now: nat)
    requires Expiring(p, todo, now) && todo != [] && p.row != []
    requires forall t :: t in cfg && cfg[t].periodic && t == todo[0] ==> cfg[t].period > 0
    ensures var r := RearmOne(todo[0], Behind(p, 1), cfg, now);
            && Expiring(r, todo[1..], now)
            && |todo| - 1 <= |r.row| && Behind(r, |todo| - 1) == RearmOne(todo[0], Behind(p, |todo|), cfg, now)
  {
    hide RearmOne, Ordered, Later;
    ExpiringSplit(p, todo, now);
    ExpiringRow(p, todo, cfg, now);
    RearmOneKeeps(todo[0], Behind(p, |todo|), cfg, now);
    RearmOneKey(todo[0], Behind(p, 1), Behind(p, |todo|), cfg, now);
  }

  lemma ExpiringSplit(p: Pending, todo: seq<Id>, now: nat)
    requires Expiring(p, todo, now) && todo != [] && p.row != []
    ensures var q, n := Behind(p, 1), |todo| - 1;
            && q.row[..n] == todo[1..] && q.row[n..] == p.row[|todo|..]
            && todo[0] == p.row[0] && todo[0] !in q.row && todo[0] !in p.row[|todo|..] && todo[0] !in todo[1..]
            && Ordered(q.row, p.key) && Ordered(p.row[|todo|..], p.key)
            && forall u :: u in q.row ==> u in p.key && p.key[u].stamp < p.clock
  {
    ExpiringHead(p, todo, now);
    WithoutHead(p.row, p.key);
    OrderedRest(p.row, p.key);
    var q, n := Behind(p, 1), |todo| - 1;
    assert q.row[..n] == todo[1..] && q.row[n..] == p.row[|todo|..];
    forall u | u in q.row ensures u in p.key && p.key[u].stamp < p.clock { QueuedEarlier(p, todo, now, u); }
  }

  lemma ExpiringRow(p: Pending, todo: seq<Id>, cfg: map<Id, Setting>, now: nat)
    requires Expiring(p, todo, now) && todo != [] && p.row != []
    ensures var r, n := RearmOne(todo[0], Behind(p, 1), cfg, now), |todo| - 1;
            && Ordered(r.row, r.key) && n <= |r.row| && r.row[..n] == todo[1..]
            && r.row[n..] == RearmOne(todo[0], Behind(p, |todo|), cfg, now).row
  {
    hide Ordered, Insert, Later;
    ExpiringSplit(p, todo, now);
    var t, n, q := todo[0], |todo| - 1, Behind(p, 1);
    if t in cfg && cfg[t].periodic {
      var key := p.key[t := Key(now + cfg[t].period, p.clock)];
      OrderedRekey(q.row, p.key, t, key[t]);
      forall i | 0 <= i < n ensures Due(key, q.row[i]) <= Due(key, t) {
        assert q.row[i] == q.row[..n][i] == todo[1..][i] == todo[i + 1];
      }
      InsertBehind(q.row, n, t, key);
      InsertOrdered(q.row, t, key);
    }
  }

  lemma OrderedRekey(row: seq<Id>, key: map<Id, Key>, t: Id, k: Key)
    requires Ordered(row, key) && t !in row
    ensures Ordered(row, key[t := k])
  {
  }

  lemma RearmOneKey(t: Id, p: Pending, q: Pending, cfg: map<Id, Setting>, now: nat)
    requires p.key == q.key && p.clock == q.clock
    ensures var r, s := RearmOne(t, p, cfg, now), RearmOne(t, q, cfg, now);
            r.key == s.key && r.clock == s.clock && r.clock >= p.clock
            && forall u :: u in p.key && u != t ==> u in r.key && r.key[u] == p.key[u]
  {
  }

  lemma QueuedEarlier(p: Pending, todo: seq<Id>, now: nat, u: Id)
    requires Expiring(p, todo, now) && u in p.row
    ensures u in p.key && p.key[u].stamp < p.clock
  {
    var i :| 0 <= i < |p.row| && p.row[i] == u;
    if i < |todo| { assert p.row[..|todo|][i] == u; } else { assert p.row[|todo|..][i - |todo|] == u; }
  }

  /** One clock interrupt, in full: it fires exactly the timers that are due, earliest deadline first and in
      start order among equals; nothing due is left pending; the other timers stand as they were; and of
      the fired ones exactly the periodic are pending again, due one period from now. */
  lemma CheckFiresExactly(p: Pending, cfg: map<Id, Setting>, now: nat)
    requires Ordered(p.row, p.key) && forall u :: u in p.row ==> u in p.key && p.key[u].stamp < p.clock
    requires forall u :: u in p.row && u in cfg && cfg[u].periodic && p.key[u].due <= now ==> cfg[u].period > 0
    ensures var n := DueCount(p.row, p.key, now);
            var fired, r := p.row[..n], Rearm(p.row[..n], Behind(p, n), cfg, now);
            && (forall u :: u in fired <==> u in p.row && p.key[u].due <= now)
            && Ordered(fired, p.key) && Ordered(r.row, r.key)
            && (forall u :: u in r.row ==> u in p.row && r.key[u].due > now)
            && (forall u :: u in p.row && u !in fired ==> u in r.row && r.key[u] == p.key[u])
            && (forall u :: u in fired ==> (u in r.row <==> u in cfg && cfg[u].periodic))
            && (forall u :: u in fired && u in r.row ==> r.key[u].due == now + cfg[u].period)
  {
    var n := DueCount(p.row, p.key, now);
    FiredAreDue(p, now);
    RearmResult(p.row[..n], Behind(p, n), cfg, now);
    hide Rearm, DueCount;
  }

  lemma FiredAreDue(p: Pending, now: nat)
    requires Ordered(p.row, p.key) && forall u :: u in p.row ==> u in p.key && p.key[u].stamp < p.clock
    ensures var n := DueCount(p.row, p.key, now);
            && (forall u :: u in p.row[..n] <==> u in p.row && p.key[u].due <= now)
            && (forall u :: u in p.row[n..] <==> u in p.row && p.key[u].due > now)
            && Ordered(p.row[..n], p.key) && Ordered(p.row[n..], p.key) && Later(Behind(p, n), now)
            && (forall i, j :: 0 <= i < j < n ==> p.row[..n][i] != p.row[..n][j])
  {
    var n := DueCount(p.row, p.key, now);
    DuePrefix(p.row, p.key, now);
    hide DueCount;
    assert Ordered(p.row[..n], p.key) && Ordered(p.row[n..], p.key);
    hide Ordered;
    SplitMembers(p.row, n, p.key, now);
  }

  lemma SplitMembers(row: seq<Id>, n: nat, key: map<Id, Key>, now: nat)
    requires n <= |row| && forall i :: 0 <= i < |row| ==> row[i] in key && (key[row[i]].due <= now <==> i < n)
    ensures forall u :: u in row[..n] <==> u in row && key[u].due <= now
    ensures forall u :: u in row[n..] <==> u in row && key[u].due > now
  {
    forall u | u in row ensures u in row[..n] <==> key[u].due <= now {
      var i :| 0 <= i < |row| && row[i] == u;
      if i < n { assert row[..n][i] == u; }
    }
    forall u | u in row ensures u in row[n..] <==> key[u].due > now {
      var i :| 0 <= i < |row| && row[i] == u;
      if i >= n { assert row[n..][i - n] == u; }
    }
  }
}
