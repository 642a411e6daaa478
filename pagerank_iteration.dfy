/**
 * `iterate_pagerank`: start from 1/N everywhere and repeatedly replace every
 * rank by (1-d)/N plus d times the rank flowing in over links; a page without
 * links passes an equal share of its rank to every page. The loop stops when
 * no rank moves by 0.001 or more, and returns the ranks from before that last
 * update.
 */
module PageRankIteration {
  import opened Wrappers
  import opened PageRankCorpus

  /** The convergence threshold of the loop. */
  const Tolerance: real := 0.001

  /** A rank vector over the corpus: one value per page. */
  ghost predicate Ranked(c: Corpus, r: map<Page, real>) {
    c.Valid() && r.Keys == c.links.Keys
  }

  /** The part of `q`'s rank that `q` passes to `p`. */
  function Share(c: Corpus, r: map<Page, real>, p: Page, q: Page): real
    requires Ranked(c, r) && q in c.links
  {
    assert q in c.pages;
    if p in c.links[q] then r[q] / (|c.links[q]| as real)
    else if |c.links[q]| == 0 then r[q] / c.Size()
    else 0.0
  }

  /** The rank flowing into `p` from the pages `qs`. */
  function Inflow(c: Corpus, r: map<Page, real>, p: Page, qs: seq<Page>): real
    requires Ranked(c, r) && forall q :: q in qs ==> q in c.links
  {
    if qs == [] then 0.0 else Inflow(c, r, p, qs[..|qs| - 1]) + Share(c, r, p, qs[|qs| - 1])
  }

  /** The rank of every page flowing in from the whole corpus. */
  function Inflows(c: Corpus, r: map<Page, real>): (m: map<Page, real>)
    requires Ranked(c, r)
    ensures m.Keys == c.links.Keys
  {
    map p | p in c.links :: Inflow(c, r, p, c.pages)
  }

  /** `(1 - damping_factor) / len(corpus) + damping_factor * total`. */
  function Damped(d: real, n: real, total: real): real
    requires n > 0.0
  {
    (1.0 - d) / n + d * total
  }

  /** One synchronous update: every new rank is computed from the previous ranks only. */
  function Step(c: Corpus, d: real, r: map<Page, real>): (next: map<Page, real>)
    requires Ranked(c, r)
    ensures Ranked(c, next)
  {
    StepOver(c, d, r, c.pages)
  }

  /** The new ranks of the pages `ps`. */
  function StepOver(c: Corpus, d: real, r: map<Page, real>, ps: seq<Page>): (next: map<Page, real>)
    requires Ranked(c, r) && forall p :: p in ps ==> p in c.links
    ensures next.Keys == Members(ps)
  {
    if ps == [] then map[]
    else
      assert ps[|ps| - 1] in c.pages;
      StepOver(c, d, r, ps[..|ps| - 1])[ps[|ps| - 1] := Damped(d, c.Size(), Inflow(c, r, ps[|ps| - 1], c.pages))]
  }

  /** The new rank of one page. */
  lemma {:induction false} StepOverAt(c: Corpus, d: real, r: map<Page, real>, ps: seq<Page>, p: Page)
    requires Ranked(c, r) && forall q :: q in ps ==> q in c.links
    requires p in ps
    ensures p in c.pages && StepOver(c, d, r, ps)[p] == Damped(d, c.Size(), Inflow(c, r, p, c.pages))
  {
    if p != ps[|ps| - 1] {
      StepOverAt(c, d, r, ps[..|ps| - 1], p);
    }
  }

  lemma StepAt(c: Corpus, d: real, r: map<Page, real>, p: Page)
    requires Ranked(c, r) && p in c.links
    ensures p in c.pages && Step(c, d, r)[p] == Damped(d, c.Size(), Inflow(c, r, p, c.pages))
  {
    StepOverAt(c, d, r, c.pages, p);
  }

  /** The initial vector `{page: 1 / len(corpus)}`. */
  function Init(c: Corpus): (r: map<Page, real>)
    requires c.Valid()
    ensures Ranked(c, r)
  {
    map p | p in c.links :: (assert p in c.pages; 1.0 / c.Size())
  }

  /** |x|. */
  function Abs(x: real): real {
    if x < 0.0 then -x else x
  }

  /** The exit test: no page's rank moved by `Tolerance` or more. */
  predicate Converged(c: Corpus, prev: map<Page, real>, next: map<Page, real>)
    requires Ranked(c, prev) && next.Keys == c.links.Keys
  {
    AllClose(c.pages, prev, next)
  }

  /** `all(abs(next[p] - prev[p]) < Tolerance for p in ps)`. */
  predicate AllClose(ps: seq<Page>, prev: map<Page, real>, next: map<Page, real>)
    requires forall p :: p in ps ==> p in prev && p in next
  {
    ps == [] || (AllClose(ps[..|ps| - 1], prev, next) && Abs(next[ps[|ps| - 1]] - prev[ps[|ps| - 1]]) < Tolerance)
  }

  /** The test holds exactly when every listed page moved by less than `Tolerance`. */
  lemma {:induction false} AllCloseMeans(ps: seq<Page>, prev: map<Page, real>, next: map<Page, real>)
    requires forall p :: p in ps ==> p in prev && p in next
    ensures AllClose(ps, prev, next) <==> forall p :: p in ps ==> Abs(next[p] - prev[p]) < Tolerance
  {
    if ps != [] {
      var init := ps[..|ps| - 1];
      AllCloseMeans(init, prev, next);
      assert forall p :: p in ps ==> p in init || p == ps[|ps| - 1];
    }
  }

  /**
   * The outcome of the loop when at most `fuel` updates are allowed: the ranks
   * before the first update that moves no rank by `Tolerance`, or
   * `NonConvergence` when the allowance runs out first.
   */
  function Iterate(c: Corpus, d: real, r: map<Page, real>, fuel: nat): (res: Result<map<Page, real>, Error>)
    requires Ranked(c, r)
    ensures res.Success? ==> Ranked(c, res.value)
    decreases fuel
  {
    if fuel == 0 then Failure(NonConvergence)
    else
      var next := Step(c, d, r);
      if Converged(c, r, next) then Success(r) else Iterate(c, d, next, fuel - 1)
  }

  /**
   * A run that ends does not depend on the allowance: any larger bound gives
   * the same result, the one the unbounded loop returns.
   */
  lemma {:induction false} IterateFuelIrrelevant(c: Corpus, d: real, r: map<Page, real>, fuel: nat, more: nat)
    requires Ranked(c, r) && fuel <= more && Iterate(c, d, r, fuel).Success?
    ensures Iterate(c, d, r, more) == Iterate(c, d, r, fuel)
    decreases more - fuel
  {
    if fuel < more {
      IterateOneMore(c, d, r, fuel);
      IterateFuelIrrelevant(c, d, r, fuel + 1, more);
    }
  }

  /** One more allowed round does not change a run that ends. */
  lemma {:induction false} IterateOneMore(c: Corpus, d: real, r: map<Page, real>, fuel: nat)
    requires Ranked(c, r) && Iterate(c, d, r, fuel).Success?
    ensures Iterate(c, d, r, fuel + 1) == Iterate(c, d, r, fuel)
    decreases fuel
  {
    var next := Step(c, d, r);
    if Converged(c, r, next) {
      IterateStep(c, d, r, fuel);
      IterateStep(c, d, r, fuel + 1);
    } else {
      IterateStep(c, d, r, fuel);
      IterateOneMore(c, d, next, fuel - 1);
      IterateStep(c, d, r, fuel + 1);
    }
  }

  // ---------------------------------------------------------------------------
  // The update, imperatively

  /**
   * The inner loop of one round: `total` adds up, over every page of the
   * corpus, the share of its rank that page passes to `page`.
   */
  method CollectInflow(c: Corpus, pageranks: map<Page, real>, page: Page) returns (total: real)
    requires Ranked(c, pageranks)
    ensures total == Inflow(c, pageranks, page, c.pages)
  {
    var n := c.Size();
    total := 0.0;
    for j := 0 to |c.pages|
      invariant total == Inflow(c, pageranks, page, c.pages[..j])
    {
      var possiblePage := c.pages[j];
      InflowExtend(c, pageranks, page, j);
      if page in c.links[possiblePage] {
        total := total + pageranks[possiblePage] / (|c.links[possiblePage]| as real);
      } else if |c.links[possiblePage]| == 0 {
        total := total + pageranks[possiblePage] / n;
      }
    }
    assert c.pages[..|c.pages|] == c.pages;
  }

  /** Taking one more page of the corpus into account adds its share. */
  lemma InflowExtend(c: Corpus, r: map<Page, real>, p: Page, j: nat)
    requires Ranked(c, r) && j < |c.pages|
    ensures c.pages[j] in c.links
    ensures Inflow(c, r, p, c.pages[..j + 1]) == Inflow(c, r, p, c.pages[..j]) + Share(c, r, p, c.pages[j])
  {
    assert c.pages[..j + 1][..j] == c.pages[..j];
  }

  /**
   * The body of the `while True` loop up to the convergence test: for every
   * page the inflow is collected and the page's entry of `new_pageranks` is
   * overwritten. The entries `new_pageranks` held before play no part: the
   * result depends on `pageranks` alone.
   */
  method UpdateRanks(c: Corpus, d: real, pageranks: map<Page, real>, newPageranks: map<Page, real>)
    returns (next: map<Page, real>)
    requires Ranked(c, pageranks) && newPageranks.Keys == c.links.Keys
    ensures next == Step(c, d, pageranks)
  {
    next := newPageranks;
    ghost var step := Step(c, d, pageranks);
    for i := 0 to |c.pages|
      invariant next.Keys == c.links.Keys
      invariant forall k :: 0 <= k < i ==> next[c.pages[k]] == step[c.pages[k]]
    {
      next := UpdatePage(c, d, pageranks, next, c.pages[i]);
    }
    AgreeOnPages(c, next, step);
  }

  /**
   * One pass of the outer `for` loop: the inflow into `page` is collected and
   * `new_pageranks[page]` is set to the damped value.
   */
  method UpdatePage(c: Corpus, d: real, pageranks: map<Page, real>, next: map<Page, real>, page: Page)
    returns (updated: map<Page, real>)
    requires Ranked(c, pageranks) && page in c.links
    ensures updated == next[page := Step(c, d, pageranks)[page]]
  {
    assert page in c.pages;
    var total := CollectInflow(c, pageranks, page);
    var rank := (1.0 - d) / c.Size() + d * total;
    assert rank == Damped(d, c.Size(), total);
    StepAt(c, d, pageranks, page);
    updated := next[page := rank];
  }

  /** Two rank vectors over the corpus that agree on every listed page are equal. */
  lemma AgreeOnPages(c: Corpus, m: map<Page, real>, m': map<Page, real>)
    requires c.Valid() && m.Keys == c.links.Keys && m'.Keys == c.links.Keys
    requires forall k :: 0 <= k < |c.pages| ==> m[c.pages[k]] == m'[c.pages[k]]
    ensures m == m'
  {
    forall p | p in m
      ensures m[p] == m'[p]
    {
      var k :| 0 <= k < |c.pages| && c.pages[k] == p;
    }
  }

  /**
   * `iterate_pagerank(corpus, damping_factor)` with the `while True` loop
   * allowed `fuel` rounds. On exit by convergence the result is `pageranks`,
   * the vector the last round started from.
   */
  method IteratePageRank(c: Corpus, d: real, fuel: nat) returns (r: Result<map<Page, real>, Error>)
    requires c.Valid()
    ensures r == Iterate(c, d, Init(c), fuel)
  {
    var n := c.Size();
    var pageranks := map p | p in c.links :: (assert p in c.pages; 1.0 / n);
    assert pageranks == Init(c);
    var newPageranks := pageranks;
    var rounds := 0;
    while rounds < fuel
      invariant rounds <= fuel
      invariant Ranked(c, pageranks) && newPageranks.Keys == c.links.Keys
      invariant Iterate(c, d, pageranks, fuel - rounds) == Iterate(c, d, Init(c), fuel)
      decreases fuel - rounds
    {
      newPageranks := UpdateRanks(c, d, pageranks, newPageranks);
      IterateStep(c, d, pageranks, fuel - rounds);
      if Converged(c, pageranks, newPageranks) {
        return Success(pageranks);
      }
      pageranks := newPageranks;
      rounds := rounds + 1;
    }
    return Failure(NonConvergence);
  }

  // ---------------------------------------------------------------------------
  // What one update and the whole loop preserve

  /** One round of the loop: stop with the old ranks, or go on from the new ones. */
  lemma IterateStep(c: Corpus, d: real, r: map<Page, real>, fuel: nat)
    requires Ranked(c, r) && fuel > 0
    ensures Converged(c, r, Step(c, d, r)) ==> Iterate(c, d, r, fuel) == Success(r)
    ensures !Converged(c, r, Step(c, d, r)) ==> Iterate(c, d, r, fuel) == Iterate(c, d, Step(c, d, r), fuel - 1)
  {
  }

  /** d * (t + x) == d * t + d * x. */
  lemma Distribute(d: real, t: real, x: real)
    ensures d * (t + x) == d * t + d * x
  {
  }

  /** The part of its rank a page gives to each page it passes rank to. */
  function Portion(c: Corpus, r: map<Page, real>, q: Page): real
    requires Ranked(c, r) && q in c.links
  {
    assert q in c.pages;
    if |c.links[q]| == 0 then r[q] / c.Size() else r[q] / (|c.links[q]| as real)
  }

  /** The shares `q` passes to each page of `ps`, added up. */
  function SumShares(c: Corpus, r: map<Page, real>, q: Page, ps: seq<Page>): real
    requires Ranked(c, r) && q in c.links
  {
    if ps == [] then 0.0 else SumShares(c, r, q, ps[..|ps| - 1]) + Share(c, r, ps[|ps| - 1], q)
  }

  /**
   * Over the pages `ps`, `q` passes one portion to each page when it has no
   * links and one portion to each linked page otherwise.
   */
  lemma {:induction false} OutflowCount(c: Corpus, r: map<Page, real>, q: Page, ps: seq<Page>)
    requires Ranked(c, r) && q in c.links
    ensures SumShares(c, r, q, ps) ==
      Copies(if |c.links[q]| == 0 then |ps| else CountIn(ps, c.links[q]), Portion(c, r, q))
  {
    if ps != [] {
      OutflowCount(c, r, q, ps[..|ps| - 1]);
    }
  }

  /** In a closed corpus every page passes out exactly its own rank. */
  lemma Outflow(c: Corpus, r: map<Page, real>, q: Page)
    requires Ranked(c, r) && c.Closed() && q in c.links
    ensures SumShares(c, r, q, c.pages) == r[q]
  {
    OutflowCount(c, r, q, c.pages);
    if |c.links[q]| != 0 {
      CountLinks(c, q);
    }
    assert q in c.pages;
    var k := if |c.links[q]| == 0 then |c.pages| else |c.links[q]|;
    CopiesOfPortion(r[q], k, Portion(c, r, q));
  }

  /** k portions of x / k add up to x. */
  lemma CopiesOfPortion(x: real, k: nat, w: real)
    requires k > 0 && w == x / (k as real)
    ensures Copies(k, w) == x
  {
    CopiesIsProduct(k, w);
    MulDivCancel(x, k as real);
  }

  /** The inflows into the pages `ps` from the pages `qs`, added up. */
  function TotalInflow(c: Corpus, r: map<Page, real>, ps: seq<Page>, qs: seq<Page>): real
    requires Ranked(c, r) && forall q :: q in qs ==> q in c.links
  {
    if ps == [] then 0.0 else TotalInflow(c, r, ps[..|ps| - 1], qs) + Inflow(c, r, ps[|ps| - 1], qs)
  }

  /** The outflows of the pages `qs` to the pages `ps`, added up. */
  function TotalOutflow(c: Corpus, r: map<Page, real>, qs: seq<Page>, ps: seq<Page>): real
    requires Ranked(c, r) && forall q :: q in qs ==> q in c.links
  {
    if qs == [] then 0.0 else TotalOutflow(c, r, qs[..|qs| - 1], ps) + SumShares(c, r, qs[|qs| - 1], ps)
  }

  /** Adding one more source page to every inflow adds its outflow to the total. */
  lemma {:induction false} TotalInflowExtend(c: Corpus, r: map<Page, real>, ps: seq<Page>, qs: seq<Page>, q: Page)
    requires Ranked(c, r) && q in c.links && forall x :: x in qs ==> x in c.links
    ensures TotalInflow(c, r, ps, qs + [q]) == TotalInflow(c, r, ps, qs) + SumShares(c, r, q, ps)
  {
    assert (qs + [q])[..|qs|] == qs;
    if ps != [] {
      TotalInflowExtend(c, r, ps[..|ps| - 1], qs, q);
    }
  }

  /** A double sum can be taken in either order. */
  lemma {:induction false} SwapSums(c: Corpus, r: map<Page, real>, ps: seq<Page>, qs: seq<Page>)
    requires Ranked(c, r) && forall q :: q in qs ==> q in c.links
    ensures TotalInflow(c, r, ps, qs) == TotalOutflow(c, r, qs, ps)
  {
    if qs == [] {
      EmptyInflow(c, r, ps);
    } else {
      var init, q := qs[..|qs| - 1], qs[|qs| - 1];
      assert init + [q] == qs;
      SwapSums(c, r, ps, init);
      TotalInflowExtend(c, r, ps, init, q);
    }
  }

  lemma {:induction false} EmptyInflow(c: Corpus, r: map<Page, real>, ps: seq<Page>)
    requires Ranked(c, r)
    ensures TotalInflow(c, r, ps, []) == 0.0
  {
    if ps != [] {
      EmptyInflow(c, r, ps[..|ps| - 1]);
    }
  }

  /** In a closed corpus the outflows of all pages add up to the total rank. */
  lemma {:induction false} OutflowsAddUp(c: Corpus, r: map<Page, real>, qs: seq<Page>)
    requires Ranked(c, r) && c.Closed() && forall q :: q in qs ==> q in c.links
    ensures TotalOutflow(c, r, qs, c.pages) == Total(qs, r)
  {
    if qs != [] {
      OutflowsAddUp(c, r, qs[..|qs| - 1]);
      Outflow(c, r, qs[|qs| - 1]);
    }
  }

  /** The inflow vector adds up to the double sum of all shares. */
  lemma {:induction false} TotalOfInflows(c: Corpus, r: map<Page, real>, ps: seq<Page>)
    requires Ranked(c, r) && forall p :: p in ps ==> p in c.links
    ensures Total(ps, Inflows(c, r)) == TotalInflow(c, r, ps, c.pages)
  {
    if ps != [] {
      TotalOfInflows(c, r, ps[..|ps| - 1]);
    }
  }

  /** A vector whose every entry is the damped f[p] sums to |ps| * (1-d)/n + d * (the sum of f). */
  ghost predicate DampedOver(ps: seq<Page>, m: map<Page, real>, f: map<Page, real>, d: real, n: real)
    requires n > 0.0
  {
    forall p :: p in ps ==> p in m && p in f && m[p] == Damped(d, n, f[p])
  }

  lemma {:induction false} TotalAffine(ps: seq<Page>, m: map<Page, real>, f: map<Page, real>, d: real, n: real)
    requires n > 0.0 && DampedOver(ps, m, f, d, n)
    ensures Total(ps, m) == Copies(|ps|, (1.0 - d) / n) + d * Total(ps, f)
  {
    if ps != [] {
      var init := ps[..|ps| - 1];
      TotalAffine(init, m, f, d, n);
      Distribute(d, Total(init, f), f[ps[|ps| - 1]]);
    }
  }

  /**
   * With every link inside the corpus, one update maps a vector summing to 1
   * to a vector summing to 1.
   */
  lemma StepPreservesMass(c: Corpus, d: real, r: map<Page, real>)
    requires Ranked(c, r) && c.Closed() && c.pages != [] && Total(c.pages, r) == 1.0
    ensures Total(c.pages, Step(c, d, r)) == 1.0
  {
    StepIsDamped(c, d, r);
    InflowsPreserveMass(c, r);
    DampedMass(c.pages, Step(c, d, r), Inflows(c, r), d, c.Size());
  }

  /** Damping a vector over N pages that sums to 1 gives a vector that sums to 1. */
  lemma DampedMass(ps: seq<Page>, m: map<Page, real>, f: map<Page, real>, d: real, n: real)
    requires n > 0.0 && |ps| as real == n && DampedOver(ps, m, f, d, n) && Total(ps, f) == 1.0
    ensures Total(ps, m) == 1.0
  {
    TotalAffine(ps, m, f, d, n);
    CopiesIsProduct(|ps|, (1.0 - d) / n);
    MulDivCancel(1.0 - d, n);
  }

  /** Every new rank is the damped inflow of its page. */
  lemma StepIsDamped(c: Corpus, d: real, r: map<Page, real>)
    requires Ranked(c, r) && c.pages != []
    ensures DampedOver(c.pages, Step(c, d, r), Inflows(c, r), d, c.Size())
  {
    forall p | p in c.pages
      ensures p in Step(c, d, r) && p in Inflows(c, r) && Step(c, d, r)[p] == Damped(d, c.Size(), Inflows(c, r)[p])
    {
      StepAt(c, d, r, p);
    }
  }

  /** In a closed corpus the inflows add up to the total rank. */
  lemma InflowsPreserveMass(c: Corpus, r: map<Page, real>)
    requires Ranked(c, r) && c.Closed()
    ensures Total(c.pages, Inflows(c, r)) == Total(c.pages, r)
  {
    TotalOfInflows(c, r, c.pages);
    SwapSums(c, r, c.pages, c.pages);
    OutflowsAddUp(c, r, c.pages);
  }

  /** With non-negative ranks every inflow is non-negative. */
  lemma {:induction false} InflowNonNegative(c: Corpus, r: map<Page, real>, p: Page, qs: seq<Page>)
    requires Ranked(c, r) && forall q :: q in qs ==> q in c.links
    requires forall q :: q in r ==> r[q] >= 0.0
    ensures Inflow(c, r, p, qs) >= 0.0
  {
    if qs != [] {
      var q := qs[|qs| - 1];
      InflowNonNegative(c, r, p, qs[..|qs| - 1]);
      assert q in c.pages;
      if |c.links[q]| > 0 {
        DivNonNegative(r[q], |c.links[q]| as real);
      }
      DivNonNegative(r[q], c.Size());
    }
  }

  lemma DivNonNegative(x: real, n: real)
    requires x >= 0.0 && n > 0.0
    ensures x / n >= 0.0
  {
  }

  /** For d >= 0 and non-negative ranks every new rank is at least (1-d)/N. */
  lemma StepLowerBound(c: Corpus, d: real, r: map<Page, real>, p: Page)
    requires Ranked(c, r) && p in c.links && d >= 0.0
    requires forall q :: q in r ==> r[q] >= 0.0
    ensures Step(c, d, r)[p] >= (1.0 - d) / c.Size()
  {
    InflowNonNegative(c, r, p, c.pages);
    StepAt(c, d, r, p);
    DampedAtLeast(d, c.Size(), Inflow(c, r, p, c.pages));
  }

  /** Damping a non-negative inflow with d >= 0 gives at least (1-d)/n. */
  lemma DampedAtLeast(d: real, n: real, total: real)
    requires d >= 0.0 && n > 0.0 && total >= 0.0
    ensures Damped(d, n, total) >= (1.0 - d) / n
  {
    assert d * total >= 0.0;
  }

  /** For 0 <= d <= 1 an update keeps every rank non-negative. */
  lemma StepNonNegative(c: Corpus, d: real, r: map<Page, real>)
    requires Ranked(c, r) && 0.0 <= d <= 1.0
    requires forall q :: q in r ==> r[q] >= 0.0
    ensures forall q :: q in Step(c, d, r) ==> Step(c, d, r)[q] >= 0.0
  {
    forall q | q in Step(c, d, r)
      ensures Step(c, d, r)[q] >= 0.0
    {
      InflowNonNegative(c, r, q, c.pages);
      StepAt(c, d, r, q);
      DampedNonNegative(d, c.Size(), Inflow(c, r, q, c.pages));
    }
  }

  /** Damping a non-negative inflow with 0 <= d <= 1 gives a non-negative rank. */
  lemma DampedNonNegative(d: real, n: real, total: real)
    requires 0.0 <= d <= 1.0 && n > 0.0 && total >= 0.0
    ensures Damped(d, n, total) >= 0.0
  {
    DampedAtLeast(d, n, total);
    DivNonNegative(1.0 - d, n);
  }

  /** The initial vector sums to 1 for a non-empty corpus. */
  lemma InitSumsToOne(c: Corpus)
    requires c.Valid() && c.pages != []
    ensures Total(c.pages, Init(c)) == 1.0
    ensures forall p :: p in Init(c) ==> Init(c)[p] == 1.0 / c.Size()
  {
    forall p | p in c.pages
      ensures p in Init(c) && Init(c)[p] == 1.0 / c.Size() + (if p in {} then 0.0 else 0.0)
    {
    }
    TotalTwoValued(c.pages, Init(c), {}, 1.0 / c.Size(), 0.0);
    MulDivCancel(1.0, c.Size());
  }

  /**
   * On exit by convergence the result is a rank vector over the corpus from
   * which one more update moves no rank by `Tolerance` or more.
   */
  lemma {:induction false} IterateExit(c: Corpus, d: real, r: map<Page, real>, fuel: nat)
    requires Ranked(c, r) && Iterate(c, d, r, fuel).Success?
    ensures Ranked(c, Iterate(c, d, r, fuel).value)
    ensures Converged(c, Iterate(c, d, r, fuel).value, Step(c, d, Iterate(c, d, r, fuel).value))
    decreases fuel
  {
    if !Converged(c, r, Step(c, d, r)) {
      IterateExit(c, d, Step(c, d, r), fuel - 1);
    }
  }

  /** On exit no page's rank moves by `Tolerance` or more in the update it skipped. */
  lemma IterateStops(c: Corpus, d: real, r: map<Page, real>, fuel: nat)
    requires Ranked(c, r) && Iterate(c, d, r, fuel).Success?
    ensures forall p :: p in c.links ==>
      Abs(Step(c, d, Iterate(c, d, r, fuel).value)[p] - Iterate(c, d, r, fuel).value[p]) < Tolerance
  {
    IterateExit(c, d, r, fuel);
    var res := Iterate(c, d, r, fuel).value;
    AllCloseMeans(c.pages, res, Step(c, d, res));
  }

  /** A rank vector over the corpus whose values are non-negative and add up to 1. */
  ghost predicate IsDistribution(c: Corpus, r: map<Page, real>) {
    Ranked(c, r) && Total(c.pages, r) == 1.0 && forall q :: q in r ==> r[q] >= 0.0
  }

  /** In a closed, non-empty corpus with 0 <= d <= 1 an update maps distributions to distributions. */
  lemma StepKeepsDistribution(c: Corpus, d: real, r: map<Page, real>)
    requires c.Closed() && c.pages != [] && 0.0 <= d <= 1.0 && IsDistribution(c, r)
    ensures IsDistribution(c, Step(c, d, r))
  {
    StepPreservesMass(c, d, r);
    StepNonNegative(c, d, r);
  }

  /**
   * In a closed corpus with 0 <= d <= 1, a run that starts from a
   * distribution ends with one as well.
   */
  lemma {:induction false} IterateKeepsDistribution(c: Corpus, d: real, r: map<Page, real>, fuel: nat)
    requires c.Closed() && c.pages != [] && 0.0 <= d <= 1.0 && IsDistribution(c, r)
    requires Iterate(c, d, r, fuel).Success?
    ensures IsDistribution(c, Iterate(c, d, r, fuel).value)
    decreases fuel
  {
    var next := Step(c, d, r);
    IterateStep(c, d, r, fuel);
    if Converged(c, r, next) {
      assert Iterate(c, d, r, fuel).value == r;
    } else {
      StepKeepsDistribution(c, d, r);
      IterateKeepsDistribution(c, d, next, fuel - 1);
      assert Iterate(c, d, r, fuel).value == Iterate(c, d, next, fuel - 1).value;
    }
  }

  /** `iterate_pagerank` on a closed, non-empty corpus returns a distribution. */
  lemma IterationIsDistribution(c: Corpus, d: real, fuel: nat)
    requires c.Closed() && c.pages != [] && 0.0 <= d <= 1.0
    requires Iterate(c, d, Init(c), fuel).Success?
    ensures IsDistribution(c, Iterate(c, d, Init(c), fuel).value)
  {
    InitSumsToOne(c);
    forall q | q in Init(c)
      ensures Init(c)[q] >= 0.0
    {
      DivNonNegative(1.0, c.Size());
    }
    IterateKeepsDistribution(c, d, Init(c), fuel);
  }

  /** An empty corpus yields the empty dictionary after one round. */
  lemma EmptyCorpusIterate(c: Corpus, d: real, fuel: nat)
    requires c.Valid() && c.pages == [] && fuel > 0
    ensures Iterate(c, d, Init(c), fuel) == Success(map[])
  {
    assert forall p :: p !in c.links;
    assert Init(c) == map[];
  }
}
