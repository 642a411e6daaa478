/**
 * `sample_pagerank`: a random surfer walks `n` steps and the visit counts,
 * divided by `n`, estimate the PageRank. The module-level random number
 * generator is replaced by injected values: the index `random.choice` picks
 * for the start page and, for each step, the number in [0, 1) that
 * `random.choices` draws before it looks the number up in the running sums
 * of the weights.
 */
module PageRankSampling {
  import opened Wrappers
  import opened PageRankCorpus
  import opened PageRankTransition

  /** A number `random.random()` can return. */
  type Uniform = u: real | 0.0 <= u < 1.0 witness 0.0

  /** The sum of a list of weights. */
  function SumOf(ws: seq<real>): real {
    if ws == [] then 0.0 else SumOf(ws[..|ws| - 1]) + ws[|ws| - 1]
  }

  /** `itertools.accumulate(weights)`: the running sums of the weights. */
  function Accumulate(ws: seq<real>): (cum: seq<real>)
    ensures |cum| == |ws|
  {
    if ws == [] then []
    else
      var prev := Accumulate(ws[..|ws| - 1]);
      prev + [(if prev == [] then 0.0 else prev[|prev| - 1]) + ws[|ws| - 1]]
  }

  /** The first running sum is the first weight, each next adds one weight, and the last is the total. */
  lemma {:induction false} AccumulateSums(ws: seq<real>)
    ensures |ws| > 0 ==> Accumulate(ws)[0] == ws[0] && Accumulate(ws)[|ws| - 1] == SumOf(ws)
    ensures forall i {:trigger ws[i]} :: 0 < i < |ws| ==> Accumulate(ws)[i] == Accumulate(ws)[i - 1] + ws[i]
  {
    if ws != [] {
      var init := ws[..|ws| - 1];
      AccumulateSums(init);
      assert forall i :: 0 <= i < |init| ==> Accumulate(ws)[i] == Accumulate(init)[i];
      assert forall i :: 0 <= i < |init| ==> ws[i] == init[i];
    }
  }

  /**
   * `bisect.bisect_right(cum, x, lo, hi)` on non-decreasing running sums: the first
   * index below `hi` whose running sum exceeds `x`, or `hi` when there is none.
   */
  function Bisect(cum: seq<real>, x: real, lo: nat, hi: nat): (i: nat)
    requires lo <= hi <= |cum|
    ensures lo <= i <= hi
    decreases hi - lo
  {
    if lo == hi then hi else if x < cum[lo] then lo else Bisect(cum, x, lo + 1, hi)
  }

  /** Every running sum before the index found is at most `x`; the one at it, if any, exceeds `x`. */
  lemma {:induction false} BisectFinds(cum: seq<real>, x: real, lo: nat, hi: nat)
    requires lo <= hi <= |cum|
    ensures forall j :: lo <= j < Bisect(cum, x, lo, hi) ==> cum[j] <= x
    ensures Bisect(cum, x, lo, hi) < hi ==> x < cum[Bisect(cum, x, lo, hi)]
    decreases hi - lo
  {
    if lo < hi && cum[lo] <= x {
      BisectFinds(cum, x, lo + 1, hi);
    }
  }

  /**
   * For a number `x` in [0, total) the index `bisect` selects, searching below
   * the last index, has a positive weight.
   */
  lemma BisectHasWeight(weights: seq<real>, x: real)
    requires |weights| > 0 && 0.0 <= x < SumOf(weights)
    ensures weights[Bisect(Accumulate(weights), x, 0, |weights| - 1)] > 0.0
  {
    var cum := Accumulate(weights);
    var last := |cum| - 1;
    var i := Bisect(cum, x, 0, last);
    AccumulateSums(weights);
    BisectFinds(cum, x, 0, last);
    assert cum[i] > x by {
      if i == last {
        assert cum[i] == SumOf(weights);
      }
    }
    if i > 0 {
      assert cum[i - 1] <= x;
      assert cum[i] == cum[i - 1] + weights[i];
    }
  }

  /**
   * `random.choices(population, weights, k=1)[0]` when the generator yields
   * `u`: the running sums are searched for `u` times the total, which must be
   * positive.
   */
  function Choose(population: seq<Page>, weights: seq<real>, u: Uniform): Result<Page, Error>
    requires |population| == |weights| > 0
  {
    var cum := Accumulate(weights);
    var total := cum[|cum| - 1];
    if total <= 0.0 then Failure(NonPositiveWeights)
    else Success(population[Bisect(cum, Scaled(u, total), 0, |cum| - 1)])
  }

  /**
   * A pick exists exactly when the weights add up to something positive;
   * otherwise the error is `NonPositiveWeights`. A page of weight 0 is never
   * picked.
   */
  lemma ChooseSpec(population: seq<Page>, weights: seq<real>, u: Uniform)
    requires |population| == |weights| > 0
    ensures Choose(population, weights, u).Success? <==> SumOf(weights) > 0.0
    ensures Choose(population, weights, u).Failure? ==> Choose(population, weights, u).error == NonPositiveWeights
    ensures Choose(population, weights, u).Success? ==>
      exists i :: 0 <= i < |population| && population[i] == Choose(population, weights, u).value && weights[i] > 0.0
  {
    AccumulateSums(weights);
    var cum := Accumulate(weights);
    var total := cum[|cum| - 1];
    if total > 0.0 {
      var x := Scaled(u, total);
      BisectHasWeight(weights, x);
    }
  }

  /** `random() * total`: a number in [0, total) when random() yields `u`. */
  function Scaled(u: Uniform, total: real): (x: real)
    requires total > 0.0
    ensures 0.0 <= x < total
  {
    assert total - u * total == (1.0 - u) * total;
    assert (1.0 - u) * total > 0.0;
    u * total
  }

  /**
   * `list(model.values())` for the transition model of `cur`: the probability
   * of each page of `ps`, in that order.
   */
  function Weights(c: Corpus, cur: Page, d: real, ps: seq<Page>): (ws: seq<real>)
    requires c.Valid() && cur in c.links
    ensures |ws| == |ps|
  {
    if ps == [] then [] else Weights(c, cur, d, ps[..|ps| - 1]) + [Probability(c, cur, d, ps[|ps| - 1])]
  }

  /** The weights are the transition model's values and add up to its total. */
  lemma {:induction false} WeightsOfModel(c: Corpus, cur: Page, d: real, ps: seq<Page>)
    requires c.Valid() && cur in c.links && forall p :: p in ps ==> p in c.links
    ensures forall k :: 0 <= k < |ps| ==> Weights(c, cur, d, ps)[k] == Distribution(c, cur, d)[ps[k]]
    ensures SumOf(Weights(c, cur, d, ps)) == Total(ps, Distribution(c, cur, d))
  {
    if ps != [] {
      var init := ps[..|ps| - 1];
      WeightsOfModel(c, cur, d, init);
      assert Weights(c, cur, d, ps)[..|ps| - 1] == Weights(c, cur, d, init);
      assert forall k :: 0 <= k < |init| ==> ps[k] == init[k];
    }
  }

  /** One step of the surfer from `cur`, drawing with the uniform number `u`. */
  function Draw(c: Corpus, d: real, cur: Page, u: Uniform): (r: Result<Page, Error>)
    requires c.Valid() && cur in c.links
    ensures r.Success? ==> r.value in c.links
    ensures c.Closed() ==> r.Success?
  {
    assert cur in c.pages;
    var r := Choose(c.pages, Weights(c, cur, d, c.pages), u);
    assert r.Success? ==> r.value in c.links by {
      ChooseSpec(c.pages, Weights(c, cur, d, c.pages), u);
    }
    assert c.Closed() ==> r.Success? by {
      if c.Closed() {
        ChooseSpec(c.pages, Weights(c, cur, d, c.pages), u);
        WeightsOfModel(c, cur, d, c.pages);
        DistributionSumsToOne(c, cur, d);
      }
    }
    r
  }

  /** The page drawn is one the transition model gives a positive probability. */
  lemma DrawFollowsTransition(c: Corpus, d: real, cur: Page, u: Uniform)
    requires c.Valid() && cur in c.links
    ensures Draw(c, d, cur, u).Success? ==> Probability(c, cur, d, Draw(c, d, cur, u).value) > 0.0
  {
    assert cur in c.pages;
    var ws := Weights(c, cur, d, c.pages);
    var r := Choose(c.pages, ws, u);
    assert Draw(c, d, cur, u) == r;
    ChooseSpec(c.pages, ws, u);
    if r.Success? {
      var i :| 0 <= i < |c.pages| && c.pages[i] == r.value && ws[i] > 0.0;
      WeightsOfModel(c, cur, d, c.pages);
      assert ws[i] == Distribution(c, cur, d)[c.pages[i]];
    }
  }

  /** The page the surfer stands on after walking `w` from `start`. */
  function Current(start: Page, w: seq<Page>): Page {
    if w == [] then start else w[|w| - 1]
  }

  /**
   * The pages visited in the first `n` steps of the walk from `start` that
   * uses the uniform numbers `us` in turn.
   */
  function Walk(c: Corpus, d: real, start: Page, us: seq<Uniform>, n: nat): (r: Result<seq<Page>, Error>)
    requires c.Valid() && start in c.links && n <= |us|
    ensures r.Success? ==> |r.value| == n
    ensures r.Success? ==> forall k :: 0 <= k < n ==> r.value[k] in c.links
    ensures c.Closed() ==> r.Success?
  {
    if n == 0 then Success([])
    else
      match Walk(c, d, start, us, n - 1)
      case Failure(e) => Failure(e)
      case Success(w) =>
        match Draw(c, d, Current(start, w), us[n - 1])
        case Failure(e) => Failure(e)
        case Success(p) => Success(w + [p])
  }

  /** Step k of a successful walk draws its page from the page reached after k steps. */
  lemma {:induction false} WalkDraws(c: Corpus, d: real, start: Page, us: seq<Uniform>, n: nat, k: nat)
    requires c.Valid() && start in c.links && n <= |us|
    requires Walk(c, d, start, us, n).Success? && k < n
    ensures Current(start, Walk(c, d, start, us, n).value[..k]) in c.links
    ensures Draw(c, d, Current(start, Walk(c, d, start, us, n).value[..k]), us[k]) == Success(Walk(c, d, start, us, n).value[k])
  {
    var w := Walk(c, d, start, us, n).value;
    var w0 := Walk(c, d, start, us, n - 1).value;
    assert w == w0 + [w[n - 1]];
    if k < n - 1 {
      WalkDraws(c, d, start, us, n - 1, k);
      assert w[..k] == w0[..k];
    } else {
      assert w[..k] == w0;
    }
  }

  /** Every step of a walk follows a transition of positive probability. */
  lemma WalkFollowsTransitions(c: Corpus, d: real, start: Page, us: seq<Uniform>, k: nat)
    requires c.Valid() && start in c.links
    requires Walk(c, d, start, us, |us|).Success? && k < |us|
    ensures Current(start, Walk(c, d, start, us, |us|).value[..k]) in c.links
    ensures Probability(c, Current(start, Walk(c, d, start, us, |us|).value[..k]), d, Walk(c, d, start, us, |us|).value[k]) > 0.0
  {
    WalkDraws(c, d, start, us, |us|, k);
    DrawFollowsTransition(c, d, Current(start, Walk(c, d, start, us, |us|).value[..k]), us[k]);
  }

  /** How often `p` occurs in the walk `w`. */
  function Occurrences(w: seq<Page>, p: Page): nat {
    if w == [] then 0 else Occurrences(w[..|w| - 1], p) + (if w[|w| - 1] == p then 1 else 0)
  }

  /** The visit counts of the pages `ps`, added up. */
  function SumCounts(ps: seq<Page>, w: seq<Page>): nat {
    if ps == [] then 0 else SumCounts(ps[..|ps| - 1], w) + Occurrences(w, ps[|ps| - 1])
  }

  /** One more visit to `x` adds one to the counts of the pages equal to `x`. */
  lemma {:induction false} SumCountsStep(ps: seq<Page>, w: seq<Page>, x: Page)
    ensures SumCounts(ps, w + [x]) == SumCounts(ps, w) + CountIn(ps, {x})
  {
    assert (w + [x])[..|w|] == w;
    if ps != [] {
      SumCountsStep(ps[..|ps| - 1], w, x);
    }
  }

  /** Every visit increments exactly one counter, so the counts add up to the walk's length. */
  lemma {:induction false} CountsSumToLength(ps: seq<Page>, w: seq<Page>)
    requires Distinct(ps)
    requires forall k :: 0 <= k < |w| ==> w[k] in ps
    ensures SumCounts(ps, w) == |w|
  {
    if w == [] {
      ZeroCounts(ps);
    } else {
      var init, x := w[..|w| - 1], w[|w| - 1];
      CountsSumToLength(ps, init);
      assert init + [x] == w;
      SumCountsStep(ps, init, x);
      CountInDistinct(ps, {x});
      assert {x} * Members(ps) == {x};
    }
  }

  lemma {:induction false} ZeroCounts(ps: seq<Page>)
    ensures SumCounts(ps, []) == 0
  {
    if ps != [] {
      ZeroCounts(ps[..|ps| - 1]);
    }
  }

  /** The normalised counts `{page: count / n}`. */
  function Frequencies(c: Corpus, w: seq<Page>, n: nat): (m: map<Page, real>)
    requires n > 0
    ensures m.Keys == c.links.Keys
  {
    map p | p in c.links :: Occurrences(w, p) as real / n as real
  }

  lemma {:induction false} TotalOfFrequencies(c: Corpus, w: seq<Page>, n: nat, ps: seq<Page>)
    requires n > 0 && forall p :: p in ps ==> p in c.links
    ensures Total(ps, Frequencies(c, w, n)) == SumCounts(ps, w) as real / n as real
  {
    if ps != [] {
      var init := ps[..|ps| - 1];
      TotalOfFrequencies(c, w, n, init);
      AddQuotients(SumCounts(init, w) as real, Occurrences(w, ps[|ps| - 1]) as real, n as real);
    }
  }

  /**
   * The result of `sample_pagerank` for a walk from `start` driven by `us`:
   * the walk's error, the division by n = 0, or the visit frequencies.
   */
  function Estimate(c: Corpus, d: real, start: Page, us: seq<Uniform>): (r: Result<map<Page, real>, Error>)
    requires c.Valid() && start in c.links
    ensures r.Success? ==> r.value.Keys == c.links.Keys
  {
    match Walk(c, d, start, us, |us|)
    case Failure(e) => Failure(e)
    case Success(w) => if |us| == 0 then Failure(ZeroSamples) else Success(Frequencies(c, w, |us|))
  }

  /**
   * With all links inside the corpus and n > 0 the estimate exists, has a
   * key for every page, gives every page a value in [0, 1], and sums to 1.
   */
  lemma EstimateIsDistribution(c: Corpus, d: real, start: Page, us: seq<Uniform>)
    requires c.Closed() && start in c.links && |us| > 0
    ensures Estimate(c, d, start, us).Success?
    ensures Estimate(c, d, start, us).value.Keys == c.links.Keys
    ensures Total(c.pages, Estimate(c, d, start, us).value) == 1.0
    ensures forall p :: p in c.links ==> 0.0 <= Estimate(c, d, start, us).value[p] <= 1.0
  {
    var w := Walk(c, d, start, us, |us|).value;
    var n := |us|;
    var f := Frequencies(c, w, n);
    assert Estimate(c, d, start, us).value == f;
    assert forall k :: 0 <= k < |w| ==> w[k] in c.pages;
    CountsSumToLength(c.pages, w);
    FrequenciesSumToOne(c, w, n);
    forall p | p in c.links
      ensures 0.0 <= f[p] <= 1.0
    {
      OccurrencesAtMost(w, p);
      FractionBounds(Occurrences(w, p) as real, n as real);
    }
  }

  lemma FrequenciesSumToOne(c: Corpus, w: seq<Page>, n: nat)
    requires n > 0 && c.Valid() && SumCounts(c.pages, w) == n
    ensures Total(c.pages, Frequencies(c, w, n)) == 1.0
  {
    TotalOfFrequencies(c, w, n, c.pages);
    DivSelf(n as real);
  }

  lemma {:induction false} OccurrencesAtMost(w: seq<Page>, p: Page)
    ensures Occurrences(w, p) <= |w|
  {
    if w != [] {
      OccurrencesAtMost(w[..|w| - 1], p);
    }
  }

  /** One more step of a successful walk draws from the page it has reached. */
  lemma WalkExtend(c: Corpus, d: real, start: Page, us: seq<Uniform>, i: nat, w: seq<Page>)
    requires c.Valid() && start in c.links && i < |us| && Walk(c, d, start, us, i) == Success(w)
    ensures Current(start, w) in c.links
    ensures Draw(c, d, Current(start, w), us[i]).Failure? ==>
      Walk(c, d, start, us, i + 1) == Failure(Draw(c, d, Current(start, w), us[i]).error)
    ensures Draw(c, d, Current(start, w), us[i]).Success? ==>
      Walk(c, d, start, us, i + 1) == Success(w + [Draw(c, d, Current(start, w), us[i]).value])
  {
  }

  /** A walk that fails within its first i steps fails the same way after more steps. */
  lemma {:induction false} WalkFailurePersists(c: Corpus, d: real, start: Page, us: seq<Uniform>, i: nat, n: nat)
    requires c.Valid() && start in c.links
    requires i <= n <= |us| && Walk(c, d, start, us, i).Failure?
    ensures Walk(c, d, start, us, n) == Walk(c, d, start, us, i)
  {
    if i < n {
      WalkFailurePersists(c, d, start, us, i, n - 1);
    }
  }

  /**
   * One step of the loop in `sample_pagerank`: the transition model of the
   * current page, its keys as the population and its values as the weights.
   */
  method NextSample(c: Corpus, d: real, sample: Page, u: Uniform) returns (next: Result<Page, Error>)
    requires c.Valid() && sample in c.links
    ensures next == Draw(c, d, sample, u)
  {
    assert sample in c.pages;
    var model := TransitionModel(c, sample, d);
    var weights := seq(|c.pages|, k requires 0 <= k < |c.pages| => model[c.pages[k]]);
    WeightsOfModel(c, sample, d, c.pages);
    assert weights == Weights(c, sample, d, c.pages);
    next := Choose(c.pages, weights, u);
  }

  /** `{page: count / n for page, count in pageranks.items()}`. */
  function Normalise(counts: map<Page, nat>, n: nat): (m: map<Page, real>)
    requires n > 0
    ensures m.Keys == counts.Keys
  {
    map page | page in counts :: counts[page] as real / n as real
  }

  /** Normalising the counters of a walk gives its visit frequencies. */
  lemma NormaliseCounts(c: Corpus, counts: map<Page, nat>, walk: seq<Page>, n: nat)
    requires n > 0 && counts.Keys == c.links.Keys
    requires forall p :: p in counts ==> counts[p] == Occurrences(walk, p)
    ensures Normalise(counts, n) == Frequencies(c, walk, n)
  {
  }

  lemma EstimateOfFailedWalk(c: Corpus, d: real, start: Page, us: seq<Uniform>)
    requires c.Valid() && start in c.links
    requires Walk(c, d, start, us, |us|).Failure?
    ensures Estimate(c, d, start, us) == Failure(Walk(c, d, start, us, |us|).error)
  {
  }

  lemma EstimateOfWalk(c: Corpus, d: real, start: Page, us: seq<Uniform>, w: seq<Page>)
    requires c.Valid() && start in c.links && |us| > 0
    requires Walk(c, d, start, us, |us|) == Success(w)
    ensures Estimate(c, d, start, us) == Success(Frequencies(c, w, |us|))
  {
  }

  /** The counters after one more visit to `x`. */
  lemma CountStep(counts: map<Page, nat>, walk: seq<Page>, x: Page)
    requires x in counts && forall p :: p in counts ==> counts[p] == Occurrences(walk, p)
    ensures forall p :: p in counts ==> counts[x := counts[x] + 1][p] == Occurrences(walk + [x], p)
  {
    assert (walk + [x])[..|walk|] == walk;
  }

  /**
   * One draw of the loop in `sample_pagerank`, related to the walk: a draw that
   * fails ends the walk with that error, one that succeeds extends it.
   */
  method Advance(c: Corpus, d: real, first: Page, us: seq<Uniform>, i: nat, sample: Page, ghost walk: seq<Page>)
    returns (next: Result<Page, Error>)
    requires c.Valid() && first in c.links && i < |us|
    requires Walk(c, d, first, us, i) == Success(walk) && sample == Current(first, walk)
    ensures next.Failure? ==> Walk(c, d, first, us, |us|) == Failure(next.error)
    ensures next.Success? ==> next.value in c.links && Walk(c, d, first, us, i + 1) == Success(walk + [next.value])
  {
    WalkExtend(c, d, first, us, i, walk);
    next := NextSample(c, d, sample, us[i]);
    if next.Failure? {
      WalkFailurePersists(c, d, first, us, i + 1, |us|);
    }
  }

  /**
   * The loop of `sample_pagerank`: counters start at zero and each step
   * builds the transition model of the current page, draws the next page
   * with the next uniform number and increments that page's counter. On
   * success the counters are the visit counts of the walk.
   */
  method CountVisits(c: Corpus, d: real, first: Page, us: seq<Uniform>)
    returns (r: Result<map<Page, nat>, Error>, ghost walk: seq<Page>)
    requires c.Valid() && first in c.links
    ensures r.Failure? ==> Walk(c, d, first, us, |us|) == Failure(r.error)
    ensures r.Success? ==> Walk(c, d, first, us, |us|) == Success(walk)
    ensures r.Success? ==> r.value.Keys == c.links.Keys
    ensures r.Success? ==> forall p :: p in r.value ==> r.value[p] == Occurrences(walk, p)
  {
    var pageranks: map<Page, nat> := map page | page in c.links :: 0;
    var sample := first;
    walk := [];
    for i := 0 to |us|
      invariant sample in c.links && sample == Current(first, walk)
      invariant Walk(c, d, first, us, i) == Success(walk)
      invariant pageranks.Keys == c.links.Keys
      invariant forall p :: p in pageranks ==> pageranks[p] == Occurrences(walk, p)
    {
      var next := Advance(c, d, first, us, i, sample, walk);
      if next.Failure? {
        return Failure(next.error), walk;
      }
      sample := next.value;
      CountStep(pageranks, walk, sample);
      pageranks := pageranks[sample := pageranks[sample] + 1];
      walk := walk + [sample];
    }
    r := Success(pageranks);
  }

  /**
   * `sample_pagerank(corpus, damping_factor, n)`: the start page is
   * `pages[start]`, the n steps of the walk are counted, and the counts are
   * divided by n.
   */
  method SamplePageRank(c: Corpus, d: real, n: nat, start: nat, us: seq<Uniform>)
    returns (r: Result<map<Page, real>, Error>)
    requires c.Valid()
    requires c.pages != [] ==> start < |c.pages|
    requires |us| == n
    ensures c.pages == [] ==> r == Failure(EmptyCorpus)
    ensures c.pages != [] ==> r == Estimate(c, d, c.pages[start], us)
    ensures c.Closed() && c.pages != [] && n > 0 ==>
      r.Success? && r.value.Keys == c.links.Keys && Total(c.pages, r.value) == 1.0
  {
    if |c.pages| == 0 {
      return Failure(EmptyCorpus);
    }
    var first := c.pages[start];
    var counts, walk := CountVisits(c, d, first, us);
    if counts.Failure? {
      EstimateOfFailedWalk(c, d, first, us);
      return Failure(counts.error);
    }
    if n == 0 {
      return Failure(ZeroSamples);
    }
    NormaliseCounts(c, counts.value, walk, n);
    EstimateOfWalk(c, d, first, us, walk);
    r := Success(Normalise(counts.value, n));
    if c.Closed() {
      EstimateIsDistribution(c, d, first, us);
    }
  }
}
