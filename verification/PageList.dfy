/** The free page runs threaded through their own first pages, as rt_page_alloc and rt_page_free walk and
    relink them. */
module PageList {
  import opened PageSpec

  /** From h, following next, one meets the runs in order and then NULL. */
  ghost predicate Chain(h: PagePtr, next: map<nat, PagePtr>, page: map<nat, nat>, runs: seq<Run>)
    decreases |runs|
  {
    if runs == [] then h == NoPage
    else
      && h == Page(runs[0].at) && h.p in next && h.p in page && page[h.p] == runs[0].n
      && Chain(next[h.p], next, page, runs[1..])
  }

  ghost predicate Apart(at: nat, runs: seq<Run>) { forall r :: r in runs ==> r.at != at }

  lemma {:induction false} ChainFrame(h: PagePtr, next: map<nat, PagePtr>, page: map<nat, nat>, runs: seq<Run>,
                                      at: nat, x: PagePtr, n: nat)
    requires Chain(h, next, page, runs) && Apart(at, runs)
    ensures Chain(h, next[at := x], page[at := n], runs)
    decreases |runs|
  {
    if runs != [] {
      assert runs[0] in runs;
      ChainFrame(next[h.p], next, page, runs[1..], at, x, n);
    }
  }

  lemma {:induction false} ChainFrameNext(h: PagePtr, next: map<nat, PagePtr>, page: map<nat, nat>, runs: seq<Run>,
                                          at: nat, x: PagePtr)
    requires Chain(h, next, page, runs) && Apart(at, runs)
    ensures Chain(h, next[at := x], page, runs)
    decreases |runs|
  {
    if runs != [] {
      assert runs[0] in runs;
      ChainFrameNext(next[h.p], next, page, runs[1..], at, x);
    }
  }

  lemma {:induction false} Ascend(runs: seq<Run>, i: nat, j: nat)
    requires Canonical(runs) && i < j < |runs|
    ensures runs[i].at + runs[i].n < runs[j].at && runs[i].n > 0
  {
    if i > 0 {
      Ascend(runs[1..], i - 1, j - 1);
    } else if j > 1 {
      Ascend(runs[1..], 0, j - 1);
    }
  }

  lemma {:induction false} HeadListed(runs: seq<Run>, i: nat)
    requires Canonical(runs) && i < |runs|
    ensures Listed(runs, runs[i].at)
  {
    if i > 0 { HeadListed(runs[1..], i - 1); }
  }

  lemma {:induction false} CanonicalFrom(runs: seq<Run>, k: nat)
    requires Canonical(runs) && k <= |runs|
    ensures Canonical(runs[k..])
  {
    if k > 0 {
      CanonicalFrom(runs[1..], k - 1);
      assert runs[1..][k - 1..] == runs[k..];
    }
  }

  predicate PassedBy(b: Run, a: nat, n: nat) { b.at + b.n != a && b.at < a + n }

  lemma {:induction false} AllocSkips(runs: seq<Run>, n: nat, k: nat)
    requires k <= |runs| && forall j :: 0 <= j < k ==> runs[j].n < n
    ensures AllocFrom(runs, n).0 == runs[..k] + AllocFrom(runs[k..], n).0
    ensures AllocFrom(runs, n).1 == AllocFrom(runs[k..], n).1
  {
    if k > 0 {
      AllocSkips(runs[1..], n, k - 1);
      assert runs[1..][k - 1..] == runs[k..] && runs[..k] == [runs[0]] + runs[1..][..k - 1];
    }
  }

  lemma {:induction false} FreeSkips(runs: seq<Run>, a: nat, n: nat, k: nat)
    requires k <= |runs| && forall j :: 0 <= j < k ==> PassedBy(runs[j], a, n)
    ensures PageSpec.Free(runs, a, n) == runs[..k] + PageSpec.Free(runs[k..], a, n)
  {
    if k > 0 {
      FreeSkips(runs[1..], a, n, k - 1);
      assert runs[1..][k - 1..] == runs[k..] && runs[..k] == [runs[0]] + runs[1..][..k - 1];
    }
  }

  class PageList {
    var head: PagePtr                    // rt_page_list
    var next: map<nat, PagePtr>          // the fields of the page heads, by page
    var page: map<nat, nat>
    ghost var runs: seq<Run>

    ghost predicate Valid()
      reads this
    {
      Chain(head, next, page, runs) && Canonical(runs)
    }

    /** rt_page_init */
    constructor (whole: Run)
      requires whole.n > 0
      ensures Valid() && runs == [whole]
    {
      head, next, page, runs := NoPage, map[], map[], [];
      new;
      FreePages(whole.at, whole.n);
    }

    /** The page head at `at` comes to stand for n pages in front of x, behind the first k runs. */
    method Put(prev: PagePtr, at: nat, n: nat, x: PagePtr, ghost k: nat, ghost rest: seq<Run>)
      requires Valid() && k <= |runs| && prev == if k == 0 then NoPage else Page(runs[k - 1].at)
      requires Chain(x, next, page, rest) && Apart(at, rest) && Apart(at, runs[..k])
      requires k > 0 ==> Apart(runs[k - 1].at, rest)
      modifies this
      ensures Chain(head, next, page, runs) && runs == old(runs)[..k] + ([Run(at, n)] + rest)
    {
      ghost var first := runs[..k];
      hide Canonical;
      ChainPrefix(head, next, page, runs, k, at, x, n);
      ChainFrame(x, next, page, rest, at, x, n);
      page, next := page[at := n], next[at := x];
      assert ([Run(at, n)] + rest)[1..] == rest;
      Redirect(prev, Page(at), k, first, [Run(at, n)] + rest);
    }

    /** *prev = x */
    method Redirect(prev: PagePtr, x: PagePtr, ghost k: nat, ghost first: seq<Run>, ghost t: seq<Run>)
      requires Canonical(runs) && k <= |runs| && first == runs[..k]
               && prev == if k == 0 then NoPage else Page(runs[k - 1].at)
      requires Chain(x, next, page, t) && (k > 0 ==> Apart(runs[k - 1].at, t) && Leads(head, next, page, runs, k))
      modifies this`head, this`next, this`runs
      ensures Chain(head, next, page, runs) && runs == old(runs)[..k] + t
    {
      if prev == NoPage {
        assert runs[..k] + t == t;
        head := x;
      } else {
        LeadsOn(head, next, page, runs, k, x, t);
        next := next[prev.p := x];
      }
      runs := runs[..k] + t;
    }

    /** The walk to the first run of at least n pages. */
    method FindRun(n: nat) returns (prev: PagePtr, b: PagePtr, ghost k: nat)
      requires Valid()
      ensures k <= |runs| && Chain(b, next, page, runs[k..]) && prev == if k == 0 then NoPage else Page(runs[k - 1].at)
      ensures AllocFrom(runs, n) == (runs[..k] + AllocFrom(runs[k..], n).0, AllocFrom(runs[k..], n).1)
      ensures b.Page? ==> k < |runs| && runs[k].n >= n && b.p == runs[k].at
    {
      prev, b, k := NoPage, head, 0;
      while b.Page? && page[b.p] < n
        invariant k <= |runs| && Chain(b, next, page, runs[k..])
        invariant prev == if k == 0 then NoPage else Page(runs[k - 1].at)
        invariant forall j :: 0 <= j < k ==> runs[j].n < n
        invariant b.Page? ==> b.p in page && k < |runs| && page[b.p] == runs[k].n
        decreases |runs| - k
      {
        assert runs[k..][1..] == runs[k + 1..];
        prev := b;
        b := next[b.p];
        k := k + 1;
      }
      AllocSkips(runs, n, k);
    }

    /** rt_page_alloc */
    method AllocPages(n: nat) returns (r: PagePtr)
      requires Valid()
      modifies this
      ensures Valid() && (runs, r) == Alloc(old(runs), n)
    {
      if n == 0 {
        return NoPage;
      }
      hide Canonical, Chain, Listed;
      AllocKeeps(runs, n);
      var prev, b, k := FindRun(n);
      if b.Page? {
        TakeFrom(prev, b.p, n, k);
      } else {
        NoneLeft(runs, k);
      }
      return b;
    }

    lemma NoneLeft(runs: seq<Run>, k: nat)
      requires k <= |runs| && Chain(NoPage, next, page, runs[k..])
      ensures runs[k..] == [] && runs[..k] == runs
    {
    }

    /** Run k gives up its first n pages, or all it has. */
    method TakeFrom(prev: PagePtr, b: nat, n: nat, ghost k: nat)
      requires Valid() && n > 0 && k < |runs| && runs[k].n >= n && Chain(Page(b), next, page, runs[k..])
      requires prev == if k == 0 then NoPage else Page(runs[k - 1].at)
      modifies this
      ensures Chain(head, next, page, runs) && b == old(runs)[k].at
      ensures AllocFrom(old(runs)[k..], n).1 == Page(b) && runs == old(runs)[..k] + AllocFrom(old(runs)[k..], n).0
    {
      hide Canonical, Apart, Leads;
      assert runs[k..][0] == runs[k] && runs[k..][1..] == runs[k + 1..];
      TailOf(runs, k, b + n);
      if page[b] > n {
        Put(prev, b + n, page[b] - n, next[b], k, runs[k + 1..]);
      } else {
        ChainLeads(head, next, page, runs, k);
        Redirect(prev, next[b], k, runs[..k], runs[k + 1..]);
      }
    }

    /** The walk to the run that a stretch of n pages at a touches or precedes. */
    method FindPlace(a: nat, n: nat) returns (prev: PagePtr, b: PagePtr, ghost k: nat)
      requires Valid()
      ensures k <= |runs| && Chain(b, next, page, runs[k..]) && prev == if k == 0 then NoPage else Page(runs[k - 1].at)
      ensures PageSpec.Free(runs, a, n) == runs[..k] + PageSpec.Free(runs[k..], a, n)
      ensures b.Page? ==> k < |runs| && (runs[k].at + runs[k].n == a || runs[k].at == a + n || runs[k].at > a + n)
      ensures k > 0 ==> runs[k - 1].at + runs[k - 1].n != a && runs[k - 1].at < a + n
    {
      prev, b, k := NoPage, head, 0;
      while b.Page? && b.p + page[b.p] != a && b.p != a + n && b.p <= a + n
        invariant k <= |runs| && Chain(b, next, page, runs[k..])
        invariant prev == if k == 0 then NoPage else Page(runs[k - 1].at)
        invariant forall j :: 0 <= j < k ==> PassedBy(runs[j], a, n)
        invariant b.Page? ==> b.p in page && k < |runs| && b.p == runs[k].at && page[b.p] == runs[k].n
        invariant k > 0 ==> runs[k - 1].at + runs[k - 1].n != a && runs[k - 1].at < a + n
        decreases |runs| - k
      {
        assert runs[k..][1..] == runs[k + 1..];
        prev := b;
        b := next[b.p];
        k := k + 1;
      }
      FreeSkips(runs, a, n, k);
    }

    /** rt_page_free */
    method FreePages(a: nat, n: nat)
      requires Valid() && n > 0 && forall p: nat :: Within(Run(a, n), p) ==> !Listed(runs, p)
      modifies this
      ensures Valid() && runs == PageSpec.Free(old(runs), a, n)
    {
      hide Canonical, Apart, Listed;
      FreeKeeps(runs, a, n);
      var prev, b, k := FindPlace(a, n);
      if b.Page? && b.p + page[b.p] == a {
        Lengthen(prev, b.p, a, n, k);
      } else if b.Page? && b.p == a + n {
        FreedApart(a, n, k);
        TailOf(runs, k, b.p);
        Put(prev, a, n + page[b.p], next[b.p], k, runs[k + 1..]);
        assert old(runs)[k..][1..] == old(runs)[k + 1..];
      } else {
        FreedApart(a, n, k);
        assert PageSpec.Free(runs[k..], a, n) == [Run(a, n)] + runs[k..];
        Put(prev, a, n, b, k, runs[k..]);
      }
    }

    /** The stretch goes onto the end of run k, and the next run onto that if they touch. */
    method Lengthen(prev: PagePtr, b: nat, a: nat, n: nat, ghost k: nat)
      requires Valid() && k < |runs| && b == runs[k].at && b in page && b in next && runs[k].at + runs[k].n == a
      requires prev == if k == 0 then NoPage else Page(runs[k - 1].at)
      requires Chain(Page(b), next, page, runs[k..])
      modifies this
      ensures Chain(head, next, page, runs) && runs == old(runs)[..k] + PageSpec.Free(old(runs)[k..], a, n)
    {
      hide Canonical, Apart;
      TailOf(runs, k, b);
      assert runs[k..][1..] == runs[k + 1..];
      if next[b].Page? && b + page[b] + n == next[b].p {
        assert runs[k + 1..][1..] == runs[k + 2..];
        var c := next[b].p;
        ApartTail(b, runs[k + 1..]);
        if k > 0 { ApartTail(runs[k - 1].at, runs[k + 1..]); }
        Put(prev, b, page[b] + n + page[c], next[c], k, runs[k + 2..]);
      } else {
        Put(prev, b, page[b] + n, next[b], k, runs[k + 1..]);
      }
    }

    lemma ApartTail(p: nat, s: seq<Run>)
      requires Apart(p, s) && s != []
      ensures Apart(p, s[1..])
    {
    }

    /** A stretch of unlisted pages starts where no run does. */
    lemma FreedApart(a: nat, n: nat, k: nat)
      requires Canonical(runs) && k <= |runs| && n > 0 && forall p: nat :: Within(Run(a, n), p) ==> !Listed(runs, p)
      ensures Apart(a, runs[..k]) && Apart(a, runs[k..]) && (k < |runs| ==> Apart(a, runs[k + 1..]))
      ensures k > 0 ==> Apart(runs[k - 1].at, runs[k..])
    {
      hide Canonical, Listed;
      assert Within(Run(a, n), a);
      forall i | 0 <= i < |runs| ensures runs[i].at != a {
        HeadListed(runs, i);
      }
      if k > 0 {
        forall j | k <= j < |runs| ensures runs[k - 1].at < runs[j].at { Ascend(runs, k - 1, j); }
      }
    }

    /** Run k's neighbours start elsewhere than anywhere in it. */
    lemma TailOf(runs: seq<Run>, k: nat, p: nat)
      requires Canonical(runs) && k < |runs| && runs[k].at <= p <= runs[k].at + runs[k].n
      ensures Apart(p, runs[k + 1..]) && Apart(p, runs[..k])
      ensures k > 0 ==> Apart(runs[k - 1].at, runs[k + 1..])
    {
      hide Canonical;
      forall r | r in runs[k + 1..] ensures r.at > runs[k].at + runs[k].n && (k > 0 ==> r.at > runs[k - 1].at) {
        var j :| 0 <= j < |runs[k + 1..]| && runs[k + 1..][j] == r;
        Ascend(runs, k, k + 1 + j);
        if k > 0 { Ascend(runs, k - 1, k + 1 + j); }
      }
      forall r | r in runs[..k] ensures r.at < runs[k].at {
        var j :| 0 <= j < k && runs[j] == r;
        Ascend(runs, j, k);
      }
    }
  }

  /** From h one meets the first k runs, wherever the last of them leads. */
  ghost predicate Leads(h: PagePtr, next: map<nat, PagePtr>, page: map<nat, nat>, runs: seq<Run>, k: nat)
    requires 0 < k <= |runs|
    decreases k
  {
    && h == Page(runs[0].at) && h.p in next && h.p in page && page[h.p] == runs[0].n
    && (k > 1 ==> Leads(next[h.p], next, page, runs[1..], k - 1))
  }

  lemma {:induction false} LeadsOn(h: PagePtr, next: map<nat, PagePtr>, page: map<nat, nat>, runs: seq<Run>, k: nat,
                                   x: PagePtr, t: seq<Run>)
    requires 0 < k <= |runs| && Leads(h, next, page, runs, k) && Canonical(runs)
    requires Chain(x, next, page, t) && Apart(runs[k - 1].at, t)
    ensures Chain(h, next[runs[k - 1].at := x], page, runs[..k] + t)
    decreases k
  {
    assert runs == [runs[0]] + runs[1..];
    if k == 1 {
      ChainFrameNext(x, next, page, t, runs[0].at, x);
      assert (runs[..1] + t)[1..] == t;
    } else {
      Ascend(runs, 0, k - 1);
      LeadsOn(next[h.p], next, page, runs[1..], k - 1, x, t);
      assert (runs[..k] + t)[1..] == runs[1..][..k - 1] + t;
    }
  }

  lemma {:induction false} ChainPrefix(h: PagePtr, next: map<nat, PagePtr>, page: map<nat, nat>, runs: seq<Run>, k: nat,
                                       at: nat, x: PagePtr, n: nat)
    requires Chain(h, next, page, runs) && k <= |runs| && Apart(at, runs[..k])
    ensures k > 0 ==> Leads(h, next[at := x], page[at := n], runs, k)
    decreases k
  {
    if k > 0 {
      assert runs[..k][0] == runs[0];
      assert runs[..k] == [runs[0]] + runs[1..][..k - 1];
      if k > 1 { ChainPrefix(next[h.p], next, page, runs[1..], k - 1, at, x, n); }
    }
  }

  lemma {:induction false} ChainLeads(h: PagePtr, next: map<nat, PagePtr>, page: map<nat, nat>, runs: seq<Run>, k: nat)
    requires Chain(h, next, page, runs) && k <= |runs|
    ensures k > 0 ==> Leads(h, next, page, runs, k)
    decreases k
  {
    if k > 1 { ChainLeads(next[h.p], next, page, runs[1..], k - 1); }
  }
}
