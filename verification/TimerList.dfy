/** The timer rows as rt_timer_start, rt_timer_stop and rt_timer_check rewrite them. The code sees
    32-bit ticks; the ghost fields keep the true times, and the proofs show they never disagree. */
module TimerList {
  import opened Lists
  import opened TimerSpec

  function IndexOf(row: seq<Id>, t: Id): (i: nat)
    requires t in row
    ensures i < |row| && row[i] == t
  {
    if row[0] == t then 0 else IndexOf(row[1..], t) + 1
  }

  function Plus(a: Tick, n: nat): Tick { (a + n) % 0x1_0000_0000 }

  /** Inserting t in front of position p is where linear insertion by deadline puts it. */
  ghost predicate Placed(row: seq<Id>, p: nat, t: Id, key: map<Id, Key>) {
    p <= |row| && row[..p] + [t] + row[p..] == Insert(row, t, key)
  }

  /** How many rows a timer joins: one more for each pair of low zero bits of the counter
      (RT_TIMER_SKIP_LIST_MASK is 3), counted from level `level`. */
  function Height(tst: nat, level: nat, levels: nat): (h: nat)
    requires 2 <= level <= levels + 1
    ensures 1 <= h <= levels
    decreases levels - level + 1
  {
    if level > levels || tst % 4 != 0 then level - 1 else Height(tst / 4, level + 1, levels)
  }

  /** The deadlines of the timers in `row` lie in one window of HALF ticks. */
  ghost predicate Window(row: seq<Id>, key: map<Id, Key>, lo: nat) {
    forall u :: u in row ==> u in key && lo <= key[u].due < lo + HALF
  }

  ghost predicate PeriodsFit(row: seq<Id>, key: map<Id, Key>, now: nat, lo: nat, periodic: set<Id>, period: map<Id,
    Tick>) {
    forall u :: u in row && u in periodic && Due(key, u) <= now ==>
      u in period && 0 < period[u] < HALF && now + period[u] < lo + HALF
  }

  lemma PeriodsStillFit(row: seq<Id>, key: map<Id, Key>, now: nat, lo: nat, periodic: set<Id>, period: map<Id, Tick>,
    k: Key)
    requires PeriodsFit(row, key, now, lo, periodic, period) && row != [] && k.due > now
    ensures PeriodsFit(row[1..], key, now, lo, periodic, period)
    ensures row[0] !in row[1..] ==>
              PeriodsFit(Insert(row[1..], row[0], key[row[0] := k]), key[row[0] := k], now, lo, periodic, period)
  {
  }

  lemma FitsNow(row: seq<Id>, key: map<Id, Key>, now: nat, lo: nat, periodic: set<Id>, period: map<Id, Tick>, t: Id)
    requires PeriodsFit(row, key, now, lo, periodic, period) && t in row && Due(key, t) <= now
    ensures t in periodic ==> t in period && 0 < period[t] < HALF && now + period[t] < lo + HALF
  {
  }

  lemma WindowRest(row: seq<Id>, key: map<Id, Key>, lo: nat)
    requires Window(row, key, lo) && row != []
    ensures Window(row[1..], key, lo)
  {
  }

  lemma WindowInsert(row: seq<Id>, key: map<Id, Key>, t: Id, k: Key, lo: nat)
    requires Window(row, key, lo) && lo <= k.due < lo + HALF
    ensures Window(Insert(row, t, key[t := k]), key[t := k], lo)
  {
  }

  class TimerList {
    const levels: nat                    // RT_TIMER_SKIP_LIST_LEVEL
    var rows: seq<seq<Id>>
    const ids: set<Id>                   // the timer objects; the next four are their fields
    var timeoutTick: map<Id, Tick>
    var initTick: map<Id, Tick>
    var activated: set<Id>               // RT_TIMER_FLAG_ACTIVATED
    var periodic: set<Id>                // RT_TIMER_FLAG_PERIODIC
    var randomNr: Tick
    var tick: Tick
    var fired: seq<Id>                   // timeout functions called so far
    ghost var now: nat
    ghost var key: map<Id, Key>
    ghost var clock: nat

    ghost predicate Valid()
      reads this
    {
      && levels > 0 && |rows| == levels && RowsInv(rows, key) && tick == Wrap(now)
      && ids <= timeoutTick.Keys && ids <= initTick.Keys
      && (forall t :: t in Bottom() ==> t in ids && t in activated && Shows(t) && key[t].stamp < clock)
    }

    /** The 32-bit field and the true deadline agree. */
    ghost predicate Shows(t: Id)
      reads this`key, this`timeoutTick
    {
      t in key && t in timeoutTick && timeoutTick[t] == Wrap(key[t].due)
    }

    ghost function Bottom(): seq<Id>
      requires |rows| > 0
      reads this
    {
      rows[|rows| - 1]
    }

    constructor (n: nat, ts: set<Id>, init: map<Id, Tick>, flags: set<Id>)
      requires n > 0 && ts <= init.Keys
      ensures Valid() && levels == n && ids == ts && initTick == init && periodic == flags && activated == {}
      ensures now == 0 && fired == [] && rows == seq(n, _ => [])
    {
      levels, ids := n, ts;
      rows := seq(n, _ => []);
      timeoutTick := map t | t in ts :: 0;
      initTick, periodic, activated := init, flags, {};
      randomNr, tick, now, clock := 0, 0, 0, 0;
      fired := [];
      key := map[];
    }

    /** _rt_timer_remove */
    method Remove(t: Id)
      modifies this`rows
      ensures rows == Removed(old(rows), t)
    {
      var i := 0;
      while i < |rows|
        invariant 0 <= i <= |rows| == |old(rows)|
        invariant forall l :: 0 <= l < |rows| ==> rows[l] == if l < i then Without(old(rows)[l], t) else old(rows)[l]
      {
        rows := rows[i := Without(rows[i], t)];
        i := i + 1;
      }
    }

    method Stop(t: Id) returns (ok: bool)
      requires Valid() && t in ids
      modifies this`rows, this`activated
      ensures Valid() && ok == (t in old(activated))
      ensures rows == if ok then Removed(old(rows), t) else old(rows)
      ensures activated == old(activated) - {t}
    {
      hide RowsInv, Wrap;
      if t !in activated {
        return false;
      }
      RemovedKeeps(rows, t, key);
      Remove(t);
      activated := activated - {t};
      return true;
    }

    /** The walk through one row: past every timer due no later than t. */
    method Walk(row: seq<Id>, from: nat, t: Id, ghost lo: nat) returns (p: nat)
      requires Ordered(row, key) && from <= |row| && Shows(t) && lo <= key[t].due < lo + HALF
      requires Window(row, key, lo) && forall u :: u in row ==> Shows(u)
      requires from > 0 ==> key[row[from - 1]].due <= key[t].due
      ensures p <= |row| && Placed(row, p, t, key)
      ensures forall i :: 0 <= i < p ==> key[row[i]].due <= key[t].due
      ensures forall i :: p <= i < |row| ==> key[row[i]].due > key[t].due
    {
      p := from;
      while p != |row|
        invariant from <= p <= |row|
        invariant forall i :: 0 <= i < p ==> key[row[i]].due <= key[t].due
      {
        var u := row[p];
        assert u in row && Shows(u);
        WrappedCompare(key[u].due, key[t].due);
        var diff := Minus(timeoutTick[u], timeoutTick[t]);
        if diff != 0 && diff < HALF {
          break;
        }
        p := p + 1;
      }
      InsertAt(row, p, t, key);
    }

    /** Where t goes in each row; the walk through a row resumes at the timer reached in the row above. */
    method FindPlaces(t: Id, ghost lo: nat) returns (places: seq<nat>)
      requires levels > 0 && |rows| == levels && RowsInv(rows, key)
      requires Shows(t) && lo <= key[t].due < lo + HALF
      requires Window(Bottom(), key, lo) && forall u :: u in Bottom() ==> Shows(u)
      ensures |places| == levels
      ensures forall l :: 0 <= l < levels ==> Placed(rows[l], places[l], t, key)
    {
      places := [];
      var from: nat := 0;
      while |places| < levels
        invariant |places| <= levels
        invariant forall l :: 0 <= l < |places| ==> Placed(rows[l], places[l], t, key)
        invariant |places| < levels ==> from <= |rows[|places|]|
        invariant |places| < levels && from > 0 ==>
                    rows[|places|][from - 1] in key && key[rows[|places|][from - 1]].due <= key[t].due
        decreases levels - |places|
      {
        var l := |places|;
        hide RowsInv, Insert, Wrap, Window, Ordered, Without, Shows, Placed;
        RowReady(l, lo);
        var p := Walk(rows[l], from, t, lo);
        if l + 1 != levels {
          if p == 0 {
            from := 0;
          } else {
            InRowBelow(l, rows[l][p - 1]);
            from := IndexOf(rows[l + 1], rows[l][p - 1]) + 1;
          }
        }
        places := places + [p];
      }
    }

    lemma RowReady(l: nat, lo: nat)
      requires levels > 0 && |rows| == levels && RowsInv(rows, key) && l < levels
      requires Window(Bottom(), key, lo) && forall u :: u in Bottom() ==> Shows(u)
      ensures Ordered(rows[l], key) && Window(rows[l], key, lo) && forall u :: u in rows[l] ==> Shows(u)
    {
      RowOrdered(rows, key, l);
      hide RowsInv, Wrap, Ordered, Shows;
    }

    lemma InRowBelow(l: nat, u: Id)
      requires |rows| > 0 && RowsInv(rows, key) && l + 1 < |rows| && u in rows[l]
      ensures u in rows[l + 1]
    {
      assert Sublist(rows[l], rows[l + 1]);
    }

    /** Insert t at its places: always in the bottom row, then upwards while the counter allows. */
    method InsertRows(t: Id, places: seq<nat>)
      requires levels > 0 && |rows| == levels && |places| == levels
      requires forall l :: 0 <= l < levels ==> Placed(rows[l], places[l], t, key)
      modifies this`rows, this`randomNr
      ensures randomNr == (old(randomNr) + 1) % TICKS
      ensures rows == Started(old(rows), t, Height(randomNr, 2, levels), key)
    {
      ghost var given := rows;
      randomNr := (randomNr + 1) % TICKS;
      var tst: nat := randomNr;
      var b := levels - 1;
      rows := rows[b := rows[b][..places[b]] + [t] + rows[b][places[b]..]];
      var level := 2;
      while level <= levels
        invariant 2 <= level <= levels + 1 && randomNr == (old(randomNr) + 1) % TICKS
        invariant rows == Started(given, t, level - 1, key)
        invariant Height(tst, level, levels) == Height(randomNr, 2, levels)
      {
        if tst % 4 != 0 {
          break;
        }
        b := levels - level;
        rows := rows[b := rows[b][..places[b]] + [t] + rows[b][places[b]..]];
        tst := tst / 4;
        level := level + 1;
      }
    }

    /** The first region of rt_timer_start: whatever t was doing before, it is in no row now. */
    method Withdraw(t: Id)
      requires Valid() && t in ids
      modifies this`rows, this`activated
      ensures Valid() && t !in Bottom()
      ensures rows == Removed(old(rows), t) && activated == old(activated) - {t}
    {
      hide RowsInv, Wrap;
      RemovedKeeps(rows, t, key);
      Remove(t);
      activated := activated - {t};
    }

    /** Between the regions, interrupts on: the deadline is computed from the tick of that moment. */
    method SetTimeout(t: Id)
      requires Valid() && t in ids && initTick[t] < HALF && t !in Bottom()
      modifies this`timeoutTick, this`key
      ensures Valid() && Shows(t)
      ensures key == old(key)[t := Key(now + initTick[t], clock)]
      ensures timeoutTick == old(timeoutTick)[t := Wrap(now + initTick[t])]
    {
      hide RowsInv, Wrap, Plus;
      timeoutTick := timeoutTick[t := Plus(tick, initTick[t])];
      WrapSum(now, initTick[t]);
      RekeyRows(rows, key, t, Key(now + initTick[t], clock));
      key := key[t := Key(now + initTick[t], clock)];
    }

    /** The second region: t enters the rows, behind every pending timer due at the same tick. */
    method Enter(t: Id, ghost lo: nat)
      requires Valid() && t in ids && t !in Bottom() && Shows(t)
      requires Window(Bottom(), key, lo) && lo <= key[t].due < lo + HALF
      modifies this`rows, this`activated, this`randomNr, this`key, this`clock
      ensures Valid() && clock == old(clock) + 1 && activated == old(activated) + {t}
      ensures key == old(key)[t := Key(old(key)[t].due, old(clock))]
      ensures rows == Started(old(rows), t, Height(randomNr, 2, levels), key)
      ensures Bottom() == Insert(old(Bottom()), t, key)
    {
      hide RowsInv, Insert, Ordered, Wrap, Started, Height;
      RekeyRows(rows, key, t, Key(key[t].due, clock));
      key := key[t := Key(key[t].due, clock)];
      clock := clock + 1;
      Join(t, lo);
      activated := activated + {t};
    }

    /** rt_timer_start, undisturbed between its regions. */
    method Start(t: Id, ghost lo: nat)
      requires Valid() && t in ids && initTick[t] < HALF
      requires Window(Without(Bottom(), t), key, lo) && lo <= now + initTick[t] < lo + HALF
      modifies this`rows, this`timeoutTick, this`activated, this`randomNr, this`key, this`clock
      ensures Valid() && clock == old(clock) + 1 && activated == old(activated) + {t}
      ensures key == old(key)[t := Key(now + initTick[t], old(clock))]
      ensures timeoutTick == old(timeoutTick)[t := Wrap(now + initTick[t])]
      ensures rows == Started(Removed(old(rows), t), t, Height(randomNr, 2, levels), key)
      ensures Bottom() == Insert(Without(old(Bottom()), t), t, key)
    {
      hide RowsInv, Insert, Ordered, Wrap, Started, Height, Without, Distinct;
      Withdraw(t);
      SetTimeout(t);
      Enter(t, lo);
    }

    method Join(t: Id, ghost lo: nat)
      requires levels > 0 && |rows| == levels && RowsInv(rows, key)
      requires Shows(t) && lo <= key[t].due < lo + HALF && t !in Bottom()
      requires Window(Bottom(), key, lo) && forall u :: u in Bottom() ==> Shows(u) && key[u].stamp < key[t].stamp
      modifies this`rows, this`randomNr
      ensures |rows| == levels && RowsInv(rows, key)
      ensures rows == Started(old(rows), t, Height(randomNr, 2, levels), key)
      ensures Bottom() == Insert(old(Bottom()), t, key)
    {
      hide RowsInv, Insert, Ordered, Wrap;
      ghost var cleared := rows;
      var places := FindPlaces(t, lo);
      InsertRows(t, places);
      StartedKeeps(cleared, t, Height(randomNr, 2, levels), key);
    }

    ghost function Settings(): map<Id, Setting>
      reads this
    {
      map t | t in initTick :: Setting(initTick[t], t in periodic)
    }

    ghost function Pendings(): Pending
      requires |rows| > 0
      reads this
    {
      Pending(Bottom(), key, clock)
    }

    /** One common window of HALF ticks holds the present, every pending deadline, and the next deadline
        of every periodic timer that is due; periods are not zero. */
    ghost predicate CheckReady(lo: nat)
      reads this
    {
      && Valid() && lo <= now < lo + HALF && Window(Bottom(), key, lo)
      && PeriodsFit(Bottom(), key, now, lo, periodic, initTick)
    }

    /** rt_timer_check: call the timeout functions of the timers that are due, in order, and restart the
        periodic ones; the rest of the row evolves as Rearm says. */
    method Check(ghost lo: nat)
      requires CheckReady(lo)
      modifies this`rows, this`timeoutTick, this`activated, this`randomNr, this`key, this`clock, this`fired
      ensures Valid()
      ensures var p := old(Pendings()); var n := DueCount(p.row, p.key, now);
              && fired == old(fired) + p.row[..n] && Pendings() == Rearm(p.row[..n], Behind(p, n), Settings(), now)
              && activated == old(activated) - OneShots(p.row[..n])
    {
      hide RowsInv, Insert, Ordered, Wrap, Expiring, Rearm, Later, Window, PeriodsFit, DueCount;
      BottomOrdered(rows, key);
      ExpiringStart(Pendings(), now);
      ghost var all := Bottom()[..DueCount(Bottom(), key, now)];
      ghost var todo, done: seq<Id> := all, [];
      ghost var end := Rearm(all, Behind(Pendings(), |all|), Settings(), now);
      var more := true;
      while more && rows[levels - 1] != []
        invariant CheckReady(lo) && Expiring(Pendings(), todo, now) && |todo| <= |Bottom()|
        invariant done + todo == all && fired == old(fired) + done && activated == old(activated) - OneShots(done)
        invariant Rearm(todo, Behind(Pendings(), |todo|), Settings(), now) == end
        invariant !more ==> todo == []
        decreases |todo|, more
      {
        more := Turn(lo, todo);
        if more {
          Moved(done, todo);
          todo, done := todo[1..], done + [todo[0]];
        }
      }
      RearmDone(Pendings(), todo, Settings(), now);
    }

    lemma RearmDone(p: Pending, todo: seq<Id>, cfg: map<Id, Setting>, now: nat)
      requires Expiring(p, todo, now) && (p.row == [] || todo == [])
      ensures todo == [] && Rearm(todo, Behind(p, 0), cfg, now) == p
    {
      ExpiringDone(p, todo, now);
    }

    /** One turn of the loop: the first pending timer expires if it is due, and otherwise none is. */
    method Turn(ghost lo: nat, ghost todo: seq<Id>) returns (more: bool)
      requires CheckReady(lo) && Expiring(Pendings(), todo, now) && |todo| <= |Bottom()| && Bottom() != []
      modifies this`rows, this`timeoutTick, this`activated, this`randomNr, this`key, this`clock, this`fired
      ensures CheckReady(lo) && more == (todo != [])
      ensures !more ==> Pendings() == old(Pendings()) && fired == old(fired) && activated == old(activated)
      ensures more ==>
                && fired == old(fired) + [todo[0]] && activated == old(activated) - OneShots([todo[0]])
                && Expiring(Pendings(), todo[1..], now) && |todo| - 1 <= |Bottom()|
                && Rearm(todo[1..], Behind(Pendings(), |todo| - 1), Settings(), now)
                == Rearm(todo, Behind(old(Pendings()), |todo|), Settings(), now)
    {
      hide RowsInv, Insert, Ordered, Wrap, Expiring, RearmOne, Later;
      ExpiringHead(Pendings(), todo, now);
      var t := rows[levels - 1][0];
      IsDue(t, lo);
      more := Minus(tick, timeoutTick[t]) < HALF;
      if more {
        ExpiringStep(Pendings(), todo, Settings(), now);
        Expire(t, lo);
      }
    }

    lemma Moved(done: seq<Id>, todo: seq<Id>)
      requires todo != []
      ensures done + [todo[0]] + todo[1..] == done + todo
    {
    }

    /** Those that do not start again. */
    ghost function OneShots(row: seq<Id>): (r: set<Id>)
      reads this`periodic
      ensures forall u :: u in r <==> u in row && u !in periodic
    {
      set u | u in row && u !in periodic
    }

    /** The wrapped comparison tells whether a pending timer is due. */
    lemma IsDue(t: Id, lo: nat)
      requires CheckReady(lo) && t in Bottom()
      ensures Shows(t) && (Minus(tick, timeoutTick[t]) < HALF <==> key[t].due <= now)
    {
      assert Shows(t);
      WrappedCompare(now, key[t].due);
    }

    /** One expired timer: off the rows, its function called, and back on if periodic. */
    method Expire(t: Id, ghost lo: nat)
      requires CheckReady(lo) && Bottom() != [] && t == Bottom()[0] && key[t].due <= now
      modifies this`rows, this`timeoutTick, this`activated, this`randomNr, this`key, this`clock, this`fired
      ensures CheckReady(lo) && fired == old(fired) + [t]
      ensures Pendings() == RearmOne(t, Behind(old(Pendings()), 1), Settings(), now)
      ensures activated == if t in periodic then old(activated) else old(activated) - {t}
    {
      hide RowsInv, Insert, Ordered, Wrap, Window, PeriodsFit, Shows;
      ghost var row := Bottom();
      BelongsTo(t);
      FitsNow(row, key, now, lo, periodic, initTick, t);
      WindowRest(row, key, lo);
      TakeOff(t);
      PeriodsStillFit(row, key, now, lo, periodic, initTick, Key(now + initTick[t] + 1, clock));
      if t in periodic && t in activated {
        PeriodsStillFit(row, key, now, lo, periodic, initTick, Key(now + initTick[t], clock));
        WindowInsert(Bottom(), key, t, Key(now + initTick[t], clock), lo);
        StartAgain(t, lo);
      } else {
        Deactivate(t);
      }
    }

    lemma BelongsTo(t: Id)
      requires Valid() && t in Bottom()
      ensures t in ids && t in activated && t in key && t in initTick
    {
      hide RowsInv, Wrap;
    }

    /** Off the rows first, then the timeout function is called. */
    method TakeOff(t: Id)
      requires Valid() && Bottom() != [] && t == Bottom()[0]
      modifies this`rows, this`fired
      ensures Valid() && fired == old(fired) + [t]
      ensures |rows| == |old(rows)| && Bottom() == old(Bottom())[1..] && t !in Bottom()
    {
      hide RowsInv, Ordered, Wrap;
      RemovedKeeps(rows, t, key);
      BottomOrdered(rows, key);
      WithoutHead(Bottom(), key);
      Remove(t);
      fired := fired + [t];
    }

    method Deactivate(t: Id)
      requires Valid() && t !in Bottom()
      modifies this`activated
      ensures Valid() && activated == old(activated) - {t}
    {
      hide RowsInv, Wrap;
      activated := activated - {t};
    }

    method StartAgain(t: Id, ghost lo: nat)
      requires Valid() && t in ids && initTick[t] < HALF && t !in Bottom()
      requires Window(Bottom(), key, lo) && lo <= now + initTick[t] < lo + HALF
      modifies this`rows, this`timeoutTick, this`activated, this`randomNr, this`key, this`clock
      ensures Valid() && clock == old(clock) + 1 && activated == old(activated) + {t}
      ensures key == old(key)[t := Key(now + initTick[t], old(clock))] && |rows| == |old(rows)|
      ensures Bottom() == Insert(old(Bottom()), t, key)
    {
      hide RowsInv, Insert, Ordered, Wrap, Window;
      Deactivate(t);
      Start(t, lo);
    }

    /** The clock interrupt. */
    method TickIncrease()
      requires Valid()
      modifies this`tick, this`now
      ensures Valid() && now == old(now) + 1
    {
      hide RowsInv, Wrap, Plus;
      WrapSum(now, 1);
      tick := Plus(tick, 1);
      now := now + 1;
    }
  }

  lemma WrapSum(a: nat, b: nat)
    ensures Plus(Wrap(a), b) == Wrap(a + b)
  {
  }

  /** The key of a timer that is in no row does not matter. */
  lemma RekeyRows(rows: seq<seq<Id>>, key: map<Id, Key>, t: Id, k: Key)
    requires RowsInv(rows, key) && t !in rows[|rows| - 1]
    ensures RowsInv(rows, key[t := k])
  {
  }

  lemma BottomOrdered(rows: seq<seq<Id>>, key: map<Id, Key>)
    requires RowsInv(rows, key)
    ensures Ordered(rows[|rows| - 1], key)
  {
  }

  lemma ExpiringDone(p: Pending, todo: seq<Id>, now: nat)
    requires Expiring(p, todo, now) && (p.row == [] || todo == [])
    ensures todo == [] && Behind(p, 0) == p
  {
    assert p.row[0..] == p.row;
  }
}
