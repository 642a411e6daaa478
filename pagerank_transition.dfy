/**
 * `transition_model`: the random surfer's distribution over the next page.
 * With probability `d` the surfer follows one of the current page's links,
 * otherwise it jumps to a page chosen uniformly; a page without links sends
 * the surfer to every page with equal probability.
 */
module PageRankTransition {
  import opened PageRankCorpus

  /** The probability of moving from `page` to `q`. */
  function Probability(c: Corpus, page: Page, d: real, q: Page): real
    requires c.Valid() && page in c.links
  {
    assert page in c.pages;
    var links := c.links[page];
    if |links| == 0 then 1.0 / c.Size()
    else (1.0 - d) / c.Size() + (if q in links then d / (|links| as real) else 0.0)
  }

  /** The whole distribution, as the dictionary `transition_model` returns. */
  function Distribution(c: Corpus, page: Page, d: real): (model: map<Page, real>)
    requires c.Valid() && page in c.links
    ensures model.Keys == c.links.Keys
  {
    map q | q in c.links :: Probability(c, page, d, q)
  }

  /** A page without links gives every page exactly 1/N. */
  lemma DanglingIsUniform(c: Corpus, page: Page, d: real, q: Page)
    requires c.Valid() && page in c.links && c.links[page] == {} && q in c.links
    ensures Distribution(c, page, d)[q] * c.Size() == 1.0
  {
    assert page in c.pages;
  }

  /**
   * A page with links gives each linked page (1-d)/N + d/|links| and every
   * other page (1-d)/N; for 0 <= d <= 1 all of these lie in [0, 1].
   */
  lemma LinkedProbabilities(c: Corpus, page: Page, d: real, q: Page)
    requires c.Valid() && page in c.links && c.links[page] != {} && q in c.links
    ensures q in c.links[page] ==>
      Distribution(c, page, d)[q] == (1.0 - d) / c.Size() + d / (|c.links[page]| as real)
    ensures q !in c.links[page] ==> Distribution(c, page, d)[q] == (1.0 - d) / c.Size()
    ensures 0.0 <= d <= 1.0 ==> 0.0 <= Distribution(c, page, d)[q] <= 1.0
  {
    assert page in c.pages && q in c.pages;
    var n, k := c.Size(), |c.links[page]| as real;
    assert n >= 1.0 && k >= 1.0;
    if 0.0 <= d <= 1.0 {
      DivAtMost(1.0 - d, n);
      DivAtMost(d, k);
    }
  }

  /** For 0 <= d <= 1 every probability lies in [0, 1]. */
  lemma ProbabilityBounds(c: Corpus, page: Page, d: real, q: Page)
    requires c.Valid() && page in c.links && q in c.links && 0.0 <= d <= 1.0
    ensures 0.0 <= Probability(c, page, d, q) <= 1.0
  {
    if c.links[page] == {} {
      assert page in c.pages;
      DivAtMost(1.0, c.Size());
    } else {
      LinkedProbabilities(c, page, d, q);
    }
  }

  /**
   * When every link stays inside the corpus the distribution sums to one,
   * whatever the damping factor.
   */
  lemma DistributionSumsToOne(c: Corpus, page: Page, d: real)
    requires c.Closed() && page in c.links
    ensures Total(c.pages, Distribution(c, page, d)) == 1.0
  {
    if c.links[page] == {} {
      DanglingSumsToOne(c, page, d);
    } else {
      LinkedSumsToOne(c, page, d);
    }
  }

  lemma DanglingSumsToOne(c: Corpus, page: Page, d: real)
    requires c.Valid() && page in c.links && c.links[page] == {}
    ensures Total(c.pages, Distribution(c, page, d)) == 1.0
  {
    assert page in c.pages;
    var n := c.Size();
    TotalTwoValued(c.pages, Distribution(c, page, d), {}, 1.0 / n, 0.0);
    assert CountIn(c.pages, {}) as real * 0.0 == 0.0;
    MulDivCancel(1.0, n);
  }

  lemma LinkedSumsToOne(c: Corpus, page: Page, d: real)
    requires c.Closed() && page in c.links && c.links[page] != {}
    ensures Total(c.pages, Distribution(c, page, d)) == 1.0
  {
    LinkedIsTwoValued(c, page, d);
    CountLinks(c, page);
    TwoValuedSumsToOne(c.pages, Distribution(c, page, d), c.links[page], d);
  }

  /** The distribution of a page with links, entry by entry. */
  lemma LinkedIsTwoValued(c: Corpus, page: Page, d: real)
    requires c.Valid() && page in c.links && c.links[page] != {}
    ensures forall q :: q in c.pages ==>
      && q in Distribution(c, page, d)
      && Distribution(c, page, d)[q] == (1.0 - d) / c.Size() + (if q in c.links[page] then d / (|c.links[page]| as real) else 0.0)
  {
    assert page in c.pages;
  }

  /**
   * A vector giving every page (1-d)/N and each of k pages of `s` another d/k
   * sums to 1.
   */
  lemma TwoValuedSumsToOne(ps: seq<Page>, m: map<Page, real>, s: set<Page>, d: real)
    requires ps != [] && CountIn(ps, s) == |s| > 0
    requires forall q :: q in ps ==>
      && q in m
      && m[q] == (1.0 - d) / (|ps| as real) + (if q in s then d / (|s| as real) else 0.0)
    ensures Total(ps, m) == 1.0
  {
    var n, k := |ps| as real, |s| as real;
    TotalTwoValued(ps, m, s, (1.0 - d) / n, d / k);
    MulDivCancel(1.0 - d, n);
    MulDivCancel(d, k);
  }

  /** For 0 <= d <= 1 no probability is negative. */
  lemma DistributionNonNegative(c: Corpus, page: Page, d: real)
    requires c.Valid() && page in c.links && 0.0 <= d <= 1.0
    ensures forall q :: q in c.links ==> Distribution(c, page, d)[q] >= 0.0
  {
    forall q | q in c.links
      ensures Distribution(c, page, d)[q] >= 0.0
    {
      ProbabilityBounds(c, page, d, q);
    }
  }

  /**
   * `transition_model(corpus, page, damping_factor)`: the dictionary is filled
   * page by page in corpus order, by one of two loops.
   */
  method TransitionModel(c: Corpus, page: Page, d: real) returns (model: map<Page, real>)
    requires c.Valid() && page in c.links
    ensures model == Distribution(c, page, d)
  {
    var links := c.links[page];
    if |links| == 0 {
      model := UniformModel(c, page, d);
    } else {
      model := LinkedModel(c, page, d);
    }
  }

  /** The loop for a page without links: every page gets 1 / len(corpus). */
  method UniformModel(c: Corpus, page: Page, d: real) returns (model: map<Page, real>)
    requires c.Valid() && page in c.links && c.links[page] == {}
    ensures model == Distribution(c, page, d)
  {
    assert page in c.pages;
    model := map[];
    var n := c.Size();
    for i := 0 to |c.pages|
      invariant model.Keys == Members(c.pages[..i])
      invariant forall q :: q in model ==> model[q] == Probability(c, page, d, q)
    {
      assert c.pages[..i + 1] == c.pages[..i] + [c.pages[i]];
      assert Probability(c, page, d, c.pages[i]) == 1.0 / n;
      model := model[c.pages[i] := 1.0 / n];
    }
    assert c.pages[..|c.pages|] == c.pages;
  }

  /**
   * The loop for a page with links: every page gets (1-d)/N, and each linked
   * page another d/|links|.
   */
  method LinkedModel(c: Corpus, page: Page, d: real) returns (model: map<Page, real>)
    requires c.Valid() && page in c.links && c.links[page] != {}
    ensures model == Distribution(c, page, d)
  {
    assert page in c.pages;
    model := map[];
    var links := c.links[page];
    var n := c.Size();
    for i := 0 to |c.pages|
      invariant model.Keys == Members(c.pages[..i])
      invariant forall q :: q in model ==> model[q] == Probability(c, page, d, q)
    {
      var link := c.pages[i];
      assert c.pages[..i + 1] == c.pages[..i] + [link];
      model := model[link := (1.0 - d) / n];
      if link in links {
        model := model[link := model[link] + d / (|links| as real)];
      }
      assert model[link] == Probability(c, page, d, link);
    }
    assert c.pages[..|c.pages|] == c.pages;
  }
}
