/**
 * The link graph of the PageRank program: a dictionary from page name to the
 * set of pages it links to, and the normalisation `crawl` applies to it.
 * Python dictionaries remember insertion order; `pages` records that order.
 */
module PageRankCorpus {

  type Page = string

  /** Error conditions of the two estimators. */
  datatype Error =
    | EmptyCorpus         // random.choice on an empty key list raises IndexError
    | ZeroSamples         // count / n with n == 0 raises ZeroDivisionError
    | NonPositiveWeights  // random.choices rejects weights whose total is not positive
    | NonConvergence      // the iteration bound ran out before the tolerance was met

  /** A crawled corpus: the key order of the dictionary and the dictionary itself. */
  datatype Corpus = Corpus(pages: seq<Page>, links: map<Page, set<Page>>) {

    /** `pages` lists every key of `links` exactly once. */
    ghost predicate Valid() {
      Distinct(pages) && forall p :: p in links <==> p in pages
    }

    /** The invariant `crawl` establishes: no self-links, no links leaving the corpus. */
    ghost predicate Closed() {
      Valid() && forall p, q :: p in links && q in links[p] ==> q != p && q in links
    }

    /** `len(corpus)` as a real number. */
    function Size(): real {
      |pages| as real
    }
  }

  /** The pages a list mentions. */
  function Members(ps: seq<Page>): set<Page> {
    set p | p in ps
  }

  predicate Distinct(s: seq<Page>) {
    forall i, j :: 0 <= i < j < |s| ==> s[i] != s[j]
  }

  /** The links `crawl` keeps for page `p`. */
  function Kept(raw: Corpus, p: Page): set<Page>
    requires p in raw.links
  {
    set q | q in raw.links[p] && q != p && q in raw.links
  }

  /**
   * The corpus `crawl` returns for the extracted links `raw` (one entry per
   * HTML file, in directory order): each page drops the link to itself and
   * every link that does not name a page of the corpus.
   */
  function Normalised(raw: Corpus): (c: Corpus)
    requires raw.Valid()
    ensures c.Closed() && c.pages == raw.pages && c.links.Keys == raw.links.Keys
    ensures forall p :: p in c.links ==> c.links[p] <= raw.links[p]
    ensures forall p, q :: p in raw.links && q in raw.links[p] && q != p && q in raw.links ==> q in c.links[p]
  {
    Corpus(raw.pages, map p | p in raw.links :: Kept(raw, p))
  }

  /** Normalising a corpus that is already closed changes nothing. */
  lemma NormalisedClosed(c: Corpus)
    requires c.Closed()
    ensures Normalised(c) == c
  {
    var n := Normalised(c);
    forall p | p in c.links
      ensures n.links[p] == c.links[p]
    {
      forall q | q in c.links[p]
        ensures q in n.links[p]
      {
      }
    }
    assert n.links == c.links;
  }

  /** Normalisation is idempotent. */
  lemma NormalisedIdempotent(raw: Corpus)
    requires raw.Valid()
    ensures Normalised(Normalised(raw)) == Normalised(raw)
  {
    NormalisedClosed(Normalised(raw));
  }

  /**
   * The first half of `crawl`'s normalisation: as each HTML file is read,
   * its page maps to the set of extracted links minus itself.
   */
  method RemoveSelfLinks(raw: Corpus) returns (pages: map<Page, set<Page>>)
    requires raw.Valid()
    ensures pages.Keys == raw.links.Keys
    ensures forall p :: p in pages ==> pages[p] == raw.links[p] - {p}
  {
    pages := map[];
    for i := 0 to |raw.pages|
      invariant pages.Keys == Members(raw.pages[..i])
      invariant forall p :: p in pages ==> pages[p] == raw.links[p] - {p}
    {
      var filename := raw.pages[i];
      assert raw.pages[..i + 1] == raw.pages[..i] + [filename];
      pages := pages[filename := raw.links[filename] - {filename}];
    }
    assert raw.pages[..|raw.pages|] == raw.pages;
  }

  /**
   * The link normalisation of `crawl`: after the self-links are gone, a second
   * pass over the dictionary keeps only the links that name a key.
   */
  method Crawl(raw: Corpus) returns (c: Corpus)
    requires raw.Valid()
    ensures c == Normalised(raw)
  {
    var pages := RemoveSelfLinks(raw);
    for i := 0 to |raw.pages|
      invariant pages.Keys == raw.links.Keys
      invariant forall k :: 0 <= k < i ==> pages[raw.pages[k]] == Kept(raw, raw.pages[k])
      invariant forall k :: i <= k < |raw.pages| ==> pages[raw.pages[k]] == raw.links[raw.pages[k]] - {raw.pages[k]}
    {
      var filename := raw.pages[i];
      pages := pages[filename := set link | link in pages[filename] && link in pages];
    }
    c := Corpus(raw.pages, pages);
    LinksAgree(raw, pages, Normalised(raw).links);
  }

  /** Two link maps keyed by the pages of a corpus that agree on every listed page are equal. */
  lemma LinksAgree(c: Corpus, m: map<Page, set<Page>>, m': map<Page, set<Page>>)
    requires c.Valid() && m.Keys == c.links.Keys && m'.Keys == c.links.Keys
    requires forall k :: 0 <= k < |c.pages| ==> m[c.pages[k]] == m'[c.pages[k]]
    ensures m == m'
  {
    forall p | p in m
      ensures m[p] == m'[p]
    {
      var k :| 0 <= k < |c.pages| && c.pages[k] == p;
    }
  }

  // ---------------------------------------------------------------------------
  // Sums and counts over the key order

  /** The sum of `m`'s values over the pages `ps`. */
  function Total(ps: seq<Page>, m: map<Page, real>): real
    requires forall p :: p in ps ==> p in m
  {
    if ps == [] then 0.0 else Total(ps[..|ps| - 1], m) + m[ps[|ps| - 1]]
  }

  /** How many entries of `ps` belong to `s`. */
  function CountIn(ps: seq<Page>, s: set<Page>): nat {
    if ps == [] then 0 else CountIn(ps[..|ps| - 1], s) + (if ps[|ps| - 1] in s then 1 else 0)
  }

  /** For a list without repetitions, CountIn counts the members of `s` it lists. */
  lemma {:induction false} CountInDistinct(ps: seq<Page>, s: set<Page>)
    requires Distinct(ps)
    ensures CountIn(ps, s) == |s * Members(ps)|
  {
    if ps != [] {
      var init, x := ps[..|ps| - 1], ps[|ps| - 1];
      CountInDistinct(init, s);
      var a, b := s * Members(init), s * Members(ps);
      assert x !in init;
      if x in s {
        assert b == a + {x};
      } else {
        assert b == a;
      }
    }
  }

  /** Every link of a closed corpus is listed once in `pages`. */
  lemma CountLinks(c: Corpus, p: Page)
    requires c.Closed() && p in c.links
    ensures CountIn(c.pages, c.links[p]) == |c.links[p]|
  {
    CountInDistinct(c.pages, c.links[p]);
    assert c.links[p] * Members(c.pages) == c.links[p];
  }

  /**
   * A map that gives `a` to every page, plus `b` to the members of `s`, sums
   * over `ps` to |ps| * a + CountIn(ps, s) * b.
   */
  lemma TotalTwoValued(ps: seq<Page>, m: map<Page, real>, s: set<Page>, a: real, b: real)
    requires forall p :: p in ps ==> p in m && m[p] == a + (if p in s then b else 0.0)
    ensures Total(ps, m) == (|ps| as real) * a + (CountIn(ps, s) as real) * b
  {
    TotalTwoValuedCopies(ps, m, s, a, b);
    CopiesIsProduct(|ps|, a);
    CopiesIsProduct(CountIn(ps, s), b);
  }

  lemma {:induction false} TotalTwoValuedCopies(ps: seq<Page>, m: map<Page, real>, s: set<Page>, a: real, b: real)
    requires forall p :: p in ps ==> p in m && m[p] == a + (if p in s then b else 0.0)
    ensures Total(ps, m) == Copies(|ps|, a) + Copies(CountIn(ps, s), b)
  {
    if ps != [] {
      TotalTwoValuedCopies(ps[..|ps| - 1], m, s, a, b);
    }
  }

  /** `w` added up `k` times. */
  function Copies(k: nat, w: real): real {
    if k == 0 then 0.0 else Copies(k - 1, w) + w
  }

  lemma {:induction false} CopiesIsProduct(k: nat, w: real)
    ensures Copies(k, w) == (k as real) * w
  {
    if k > 0 {
      CopiesIsProduct(k - 1, w);
      MulSucc(k - 1, w);
    }
  }

  /** (k + 1) * a == k * a + a. */
  lemma MulSucc(k: nat, a: real)
    ensures ((k + 1) as real) * a == (k as real) * a + a
  {
  }

  /** Multiplying a quotient back by its divisor. */
  lemma MulDivCancel(x: real, n: real)
    requires n != 0.0
    ensures n * (x / n) == x
  {
  }

  /** Dividing a non-negative number by at least one does not make it larger. */
  lemma DivAtMost(x: real, n: real)
    requires x >= 0.0 && n >= 1.0
    ensures 0.0 <= x / n <= x
  {
    assert x / n * n == x;
    assert x / n * n >= x / n;
  }

  /** Quotients with a common divisor add up. */
  lemma AddQuotients(a: real, b: real, n: real)
    requires n != 0.0
    ensures a / n + b / n == (a + b) / n
  {
  }

  /** A part of a positive whole, divided by the whole, lies in [0, 1]. */
  lemma FractionBounds(a: real, n: real)
    requires 0.0 <= a <= n && n > 0.0
    ensures 0.0 <= a / n <= 1.0
  {
    assert a / n * n == a;
  }

  lemma DivSelf(n: real)
    requires n != 0.0
    ensures n / n == 1.0
  {
  }
}
