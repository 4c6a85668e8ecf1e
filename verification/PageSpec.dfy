/** The page allocator's list of free page runs. Pages are numbered; a run is its first page and its length. */
module PageSpec {

  datatype Run = Run(at: nat, n: nat)

  datatype PagePtr = NoPage | Page(p: nat)

  /** Address order, no empty run, and a gap between any two: every run is as long as it can be. */
  ghost predicate Canonical(runs: seq<Run>) {
    runs != [] ==>
      && runs[0].n > 0 && Canonical(runs[1..])
      && (|runs| > 1 ==> runs[0].at + runs[0].n < runs[1].at)
  }

  predicate Within(r: Run, p: nat) { r.at <= p < r.at + r.n }

  predicate Listed(runs: seq<Run>, p: nat) {
    runs != [] && (Within(runs[0], p) || Listed(runs[1..], p))
  }

  /** rt_page_alloc: the first run that is long enough gives up its front. */
  function AllocFrom(runs: seq<Run>, n: nat): (seq<Run>, PagePtr) {
    if runs == [] then ([], NoPage)
    else if runs[0].n > n then ([Run(runs[0].at + n, runs[0].n - n)] + runs[1..], Page(runs[0].at))
    else if runs[0].n == n then (runs[1..], Page(runs[0].at))
    else
      var (rest, r) := AllocFrom(runs[1..], n);
      ([runs[0]] + rest, r)
  }

  function Alloc(runs: seq<Run>, n: nat): (seq<Run>, PagePtr) {
    if n == 0 then (runs, NoPage) else AllocFrom(runs, n)
  }

  /** rt_page_free: onto the end of a run, and perhaps the next run onto that; onto the front of a run;
      or a run of its own. */
  function Free(runs: seq<Run>, a: nat, n: nat): seq<Run> {
    if runs == [] then [Run(a, n)]
    else
      var b := runs[0];
      if b.at + b.n == a then
        if |runs| > 1 && b.at + b.n + n == runs[1].at then [Run(b.at, b.n + n + runs[1].n)] + runs[2..]
        else [Run(b.at, b.n + n)] + runs[1..]
      else if b.at == a + n then [Run(a, b.n + n)] + runs[1..]
      else if b.at > a + n then [Run(a, n)] + runs
      else [b] + Free(runs[1..], a, n)
  }

  // ----- order

  lemma {:induction false} Beyond(runs: seq<Run>, p: nat)
    requires Canonical(runs) && runs != [] && Listed(runs[1..], p)
    ensures p > runs[0].at + runs[0].n
  {
    var t := runs[1..];
    if !Within(t[0], p) { Beyond(t, p); }
  }

  /** A canonical list is determined by its pages. */
  lemma {:induction false} CanonicalIsUnique(a: seq<Run>, b: seq<Run>)
    requires Canonical(a) && Canonical(b) && forall p: nat :: Listed(a, p) <==> Listed(b, p)
    ensures a == b
  {
    if a == [] {
      if b != [] { assert Listed(b, b[0].at); }
    } else if b == [] {
      assert Listed(a, a[0].at);
    } else {
      SameHead(a, b);
      forall p: nat ensures Listed(a[1..], p) <==> Listed(b[1..], p) {
        if Listed(a[1..], p) {
          Beyond(a, p);
          assert Listed(a, p);
        }
        if Listed(b[1..], p) {
          Beyond(b, p);
          assert Listed(b, p);
        }
      }
      CanonicalIsUnique(a[1..], b[1..]);
      assert a == [a[0]] + a[1..] && b == [b[0]] + b[1..];
    }
  }

  lemma SameHead(a: seq<Run>, b: seq<Run>)
    requires Canonical(a) && Canonical(b) && a != [] && b != [] && forall p: nat :: Listed(a, p) <==> Listed(b, p)
    ensures a[0] == b[0]
  {
    HeadReaches(a, b);
    HeadReaches(b, a);
  }

  /** The first run of b starts no earlier than that of a and, if they start together, ends no later. */
  lemma HeadReaches(a: seq<Run>, b: seq<Run>)
    requires Canonical(a) && Canonical(b) && a != [] && b != [] && forall p: nat :: Listed(b, p) ==> Listed(a, p)
    ensures a[0].at <= b[0].at && (a[0].at == b[0].at ==> b[0].n <= a[0].n)
  {
    assert Listed(b, b[0].at);
    if Listed(a[1..], b[0].at) { Beyond(a, b[0].at); }
    if a[0].at == b[0].at && a[0].n < b[0].n {
      var p := a[0].at + a[0].n;
      assert Within(b[0], p) && Listed(b, p);
      if Listed(a[1..], p) { Beyond(a, p); }
    }
  }

  // ----- alloc

  /** What is handed out is a stretch of listed pages; all other pages stay, and the list stays canonical. */
  lemma {:induction false} AllocKeeps(runs: seq<Run>, n: nat)
    requires Canonical(runs) && n > 0
    ensures var (r, q) := AllocFrom(runs, n);
            && Canonical(r)
            && (q == NoPage ==> r == runs)
            && (forall p: nat :: Listed(r, p) <==> Listed(runs, p) && !(q.Page? && Within(Run(q.p, n), p)))
            && (q.Page? ==> forall p: nat :: Within(Run(q.p, n), p) ==> Listed(runs, p))
            && (r != [] ==> runs != [] && r[0].at >= runs[0].at)
  {
    if runs != [] {
      if runs[0].n >= n {
        forall p: nat | Listed(runs[1..], p) ensures p > runs[0].at + runs[0].n { Beyond(runs, p); }
      } else {
        AllocKeeps(runs[1..], n);
        var (t, q) := AllocFrom(runs[1..], n);
        assert ([runs[0]] + t)[1..] == t;
        forall p: nat | Listed(runs[1..], p) ensures !Within(runs[0], p) { Beyond(runs, p); }
      }
    }
  }

  /** No pages are refused while some run is long enough, and the lowest such run serves. */
  lemma {:induction false} AllocIsFirstFit(runs: seq<Run>, n: nat)
    requires n > 0
    ensures AllocFrom(runs, n).1 == NoPage <==> forall r :: r in runs ==> r.n < n
    ensures AllocFrom(runs, n).1.Page? ==>
              exists k :: 0 <= k < |runs| && runs[k].n >= n && AllocFrom(runs, n).1.p == runs[k].at
                          && forall j :: 0 <= j < k ==> runs[j].n < n
  {
    if runs != [] && runs[0].n < n {
      AllocIsFirstFit(runs[1..], n);
      assert runs == [runs[0]] + runs[1..];
      if AllocFrom(runs, n).1.Page? {
        var k :| 0 <= k < |runs[1..]| && runs[1..][k].n >= n && AllocFrom(runs, n).1.p == runs[1..][k].at
                 && forall j :: 0 <= j < k ==> runs[1..][j].n < n;
        forall j | 0 <= j < k + 1 ensures runs[j].n < n { if j > 0 { assert runs[j] == runs[1..][j - 1]; } }
        assert runs[k + 1] == runs[1..][k];
      }
    } else if runs != [] {
      assert runs[0] in runs;
    }
  }

  // ----- free

  /** The freed pages join the listed ones; the list stays canonical. */
  lemma {:induction false} FreeKeeps(runs: seq<Run>, a: nat, n: nat)
    requires Canonical(runs) && n > 0 && forall p: nat :: Within(Run(a, n), p) ==> !Listed(runs, p)
    ensures var r := Free(runs, a, n);
            && Canonical(r) && r != []
            && (forall p: nat :: Listed(r, p) <==> Listed(runs, p) || Within(Run(a, n), p))
            && r[0].at == if runs != [] && runs[0].at < a then runs[0].at else a
  {
    if runs != [] {
      var b := runs[0];
      assert !Within(Run(a, n), b.at) by { assert Listed(runs, b.at); }
      assert !Within(b, a) by { assert Within(Run(a, n), a); }
      if b.at + b.n == a {
        JoinBehind(runs, a, n);
      } else if b.at == a + n {
        assert runs == [b] + runs[1..];
      } else if b.at < a {
        forall p: nat | Within(Run(a, n), p) ensures !Listed(runs[1..], p) {}
        FreeKeeps(runs[1..], a, n);
      }
    }
  }

  lemma JoinBehind(runs: seq<Run>, a: nat, n: nat)
    requires Canonical(runs) && runs != [] && runs[0].at + runs[0].n == a && n > 0
    requires forall p: nat :: Within(Run(a, n), p) ==> !Listed(runs, p)
    ensures var r := Free(runs, a, n);
            && Canonical(r) && r != [] && r[0].at == runs[0].at
            && (forall p: nat :: Listed(r, p) <==> Listed(runs, p) || Within(Run(a, n), p))
  {
    if |runs| > 1 {
      var c := runs[1];
      assert runs[1..][0] == c && runs[1..][1..] == runs[2..];
      assert !Within(Run(a, n), c.at) by { assert Listed(runs[1..], c.at); }
      if |runs| > 2 { assert runs[1..][1] == runs[2]; }
    }
  }

  // ----- runs of calls

  /** The list and the stretches handed out and not yet returned. */
  datatype Pool = Pool(runs: seq<Run>, held: set<Run>)

  datatype Call = AllocPages(n: nat) | FreePages(r: Run)

  ghost predicate HeldPage(held: set<Run>, p: nat) { exists r :: r in held && Within(r, p) }

  /** Each page of the heap is either listed or held, by one holder only. */
  ghost predicate Inv(s: Pool, whole: Run) {
    && Canonical(s.runs)
    && (forall r :: r in s.held ==> r.n > 0)
    && (forall p: nat :: Within(whole, p) <==> Listed(s.runs, p) || HeldPage(s.held, p))
    && (forall r, p: nat :: r in s.held && Within(r, p) ==> !Listed(s.runs, p))
    && (forall r, t, p: nat :: r in s.held && t in s.held && Within(r, p) && Within(t, p) ==> r == t)
  }

  predicate Legal(s: Pool, c: Call) { c.FreePages? ==> c.r in s.held }

  function Step(s: Pool, c: Call): Pool {
    match c
    case AllocPages(n) =>
      var (r, q) := Alloc(s.runs, n);
      Pool(r, if q.Page? then s.held + {Run(q.p, n)} else s.held)
    case FreePages(r) => Pool(Free(s.runs, r.at, r.n), s.held - {r})
  }

  lemma AllocStep(s: Pool, whole: Run, n: nat)
    requires Inv(s, whole) && n > 0
    ensures Inv(Step(s, AllocPages(n)), whole)
  {
    hide Canonical, Listed, AllocFrom;
    AllocKeeps(s.runs, n);
    var r := Step(s, AllocPages(n));
    var q := Alloc(s.runs, n).1;
    if q.Page? {
      var g := Run(q.p, n);
      assert g in r.held;
      forall p: nat ensures HeldPage(r.held, p) <==> HeldPage(s.held, p) || Within(g, p) {
        if HeldPage(s.held, p) {
          var h :| h in s.held && Within(h, p);
          assert h in r.held;
        }
      }
    }
  }

  lemma FreeStep(s: Pool, whole: Run, f: Run)
    requires Inv(s, whole) && f in s.held
    ensures Inv(Step(s, FreePages(f)), whole)
  {
    hide Canonical, Listed, Free;
    FreeKeeps(s.runs, f.at, f.n);
    var r := Step(s, FreePages(f));
    assert Run(f.at, f.n) == f;
    forall p: nat ensures HeldPage(s.held, p) <==> HeldPage(r.held, p) || Within(f, p) {
      if HeldPage(s.held, p) {
        var h :| h in s.held && Within(h, p);
        assert h != f ==> h in r.held;
      }
    }
  }

  lemma StepKeeps(s: Pool, whole: Run, c: Call)
    requires Inv(s, whole) && Legal(s, c)
    ensures Inv(Step(s, c), whole)
  {
    hide Inv, AllocFrom, Free;
    match c
    case AllocPages(n) => if n > 0 { AllocStep(s, whole, n); }
    case FreePages(r) => FreeStep(s, whole, r);
  }

  predicate LegalRun(s: Pool, cs: seq<Call>)
    decreases |cs|
  {
    cs != [] ==> Legal(s, cs[0]) && LegalRun(Step(s, cs[0]), cs[1..])
  }

  function After(s: Pool, cs: seq<Call>): Pool
    decreases |cs|
  {
    if cs == [] then s else After(Step(s, cs[0]), cs[1..])
  }

  lemma {:induction false} RunsKeepInvariant(s: Pool, whole: Run, cs: seq<Call>)
    requires Inv(s, whole) && LegalRun(s, cs)
    ensures Inv(After(s, cs), whole)
    decreases |cs|
  {
    hide Inv, Step, Legal;
    if cs != [] {
      StepKeeps(s, whole, cs[0]);
      RunsKeepInvariant(Step(s, cs[0]), whole, cs[1..]);
    }
  }

  lemma {:induction false} OneRun(whole: Run)
    ensures forall p: nat :: Listed([whole], p) <==> Within(whole, p)
    ensures whole.n > 0 ==> Canonical([whole])
  {
    assert [whole][1..] == [];
  }

  /** rt_page_init, then any calls: once all that was handed out is freed, in whatever order, the list is the
      single run it began as. */
  lemma AllFreedIsInitial(whole: Run, cs: seq<Call>)
    requires whole.n > 0 && LegalRun(Pool([whole], {}), cs) && After(Pool([whole], {}), cs).held == {}
    ensures After(Pool([whole], {}), cs).runs == [whole]
  {
    hide LegalRun, After, Canonical, Listed;
    OneRun(whole);
    RunsKeepInvariant(Pool([whole], {}), whole, cs);
    var r := After(Pool([whole], {}), cs);
    forall p: nat ensures Listed(r.runs, p) <==> Listed([whole], p) {
      assert !HeldPage(r.held, p);
    }
    CanonicalIsUnique(r.runs, [whole]);
  }

  /** Returning what was just handed out gives back the very same list. */
  lemma FreeUndoesAlloc(runs: seq<Run>, n: nat)
    requires Canonical(runs) && n > 0 && AllocFrom(runs, n).1.Page?
    ensures var (r, q) := AllocFrom(runs, n); Free(r, q.p, n) == runs
  {
    hide Canonical, Listed, AllocFrom, Free;
    AllocKeeps(runs, n);
    var (r, q) := AllocFrom(runs, n);
    FreeKeeps(r, q.p, n);
    CanonicalIsUnique(Free(r, q.p, n), runs);
  }

  /** Two stretches may be freed in either order. */
  lemma FreesCommute(runs: seq<Run>, a: Run, b: Run)
    requires Canonical(runs) && a.n > 0 && b.n > 0
    requires forall p: nat :: Within(a, p) ==> !Listed(runs, p) && !Within(b, p)
    requires forall p: nat :: Within(b, p) ==> !Listed(runs, p)
    ensures Free(Free(runs, a.at, a.n), b.at, b.n) == Free(Free(runs, b.at, b.n), a.at, a.n)
  {
    hide Canonical, Listed, Free;
    assert Run(a.at, a.n) == a && Run(b.at, b.n) == b;
    FreeKeeps(runs, a.at, a.n);
    FreeKeeps(runs, b.at, b.n);
    FreeKeeps(Free(runs, a.at, a.n), b.at, b.n);
    FreeKeeps(Free(runs, b.at, b.n), a.at, a.n);
    CanonicalIsUnique(Free(Free(runs, a.at, a.n), b.at, b.n), Free(Free(runs, b.at, b.n), a.at, a.n));
  }
}
