/**
 * PageRank over a corpus of linked pages: the crawler's link filtering, the
 * damped random-surfer transition model, the Monte Carlo estimate and the
 * fixed-point iteration.
 *
 * Probabilities are exact reals. A corpus is enumerated in a fixed order
 * (`order`), which stands for the insertion order of the original dictionaries;
 * the transition dictionary is built by enumerating the corpus, so it is
 * enumerated in the same order. Random numbers are injected: the start page
 * is given by its index in `order`, and the sampler consumes one draw per step.
 */
module PageRank {
  import opened Sums
  import opened Wrappers
  import opened Fixpoint

  type Page = string

  /** Every page of the corpus, with the set of pages it links to. */
  type Corpus = map<Page, set<Page>>

  /** The largest per-page change that the iteration accepts as converged. */
  const Tolerance: real := 0.001

  datatype Error = EmptyCorpus

  /** A corpus as the crawler leaves it: links stay inside the corpus and no page links to itself. */
  predicate WellFormed(corpus: Corpus) {
    forall p | p in corpus :: corpus[p] <= corpus.Keys && p !in corpus[p]
  }

  /** A well-formed corpus together with the order in which its pages are enumerated. */
  predicate Ready(corpus: Corpus, order: seq<Page>) {
    WellFormed(corpus) && IsEnumeration(order, corpus.Keys)
  }

  function Abs(x: real): real {
    if x < 0.0 then -x else x
  }

  /** One n-th: what the sampler credits per sample and the uniform rank; 0 when n = 0. */
  function Fraction(n: nat): real {
    if n == 0 then 0.0 else 1.0 / n as real
  }


  // ---------------------------------------------------------------------------
  // Crawling: the link bookkeeping once every HTML file has been read.
  // ---------------------------------------------------------------------------

  /**
   * `found` maps each HTML file name to the link targets found in it. A page
   * keeps exactly the links that point to another page of the corpus.
   */
  method CrawlLinks(found: map<Page, set<Page>>) returns (pages: Corpus)
    ensures pages.Keys == found.Keys
    ensures forall f, l | f in pages :: l in pages[f] <==> l in found[f] && l != f && l in found
    ensures WellFormed(pages)
  {
    pages := map[];
    var todo := found.Keys;
    while todo != {}
      invariant todo <= found.Keys
      invariant pages.Keys == found.Keys - todo
      invariant forall f | f in pages :: pages[f] == found[f] - {f}
      decreases todo
    {
      var f :| f in todo;
      pages := pages[f := found[f] - {f}];
      todo := todo - {f};
    }
    todo := pages.Keys;
    while todo != {}
      invariant todo <= pages.Keys && pages.Keys == found.Keys
      invariant forall f | f in pages && f in todo :: pages[f] == found[f] - {f}
      invariant forall f | f in pages && f !in todo :: pages[f] == (found[f] - {f}) * found.Keys
      decreases todo
    {
      var f :| f in todo;
      pages := pages[f := set l | l in pages[f] && l in pages];
      todo := todo - {f};
    }
  }

  /** A dictionary holding 0 for every page of the enumeration. */
  method Zeros(order: seq<Page>) returns (ans: map<Page, real>)
    ensures forall q :: q in ans <==> q in order
    ensures forall q | q in ans :: ans[q] == 0.0
  {
    ans := map[];
    for i := 0 to |order|
      invariant forall q :: q in ans <==> q in order[..i]
      invariant forall q | q in ans :: ans[q] == 0.0
    {
      ans := ans[order[i] := 0.0];
    }
    assert order[..|order|] == order;
  }

  // ---------------------------------------------------------------------------
  // Transition model
  // ---------------------------------------------------------------------------

  /** The share of a page among the links: d split evenly over them, nothing for a page not linked. */
  function LinkShare(links: set<Page>, d: real, p: Page): real {
    if p in links then d / |links| as real else 0.0
  }

  /** The share every page gets from a uniform jump: 1 - d, or everything for a page without links. */
  function JumpShare(corpus: Corpus, links: set<Page>, d: real): real
    requires |corpus| > 0
  {
    (if links != {} then 1.0 - d else 1.0) / |corpus| as real
  }

  /** The probability of moving to `p` from a page with the given links. */
  function Probability(corpus: Corpus, links: set<Page>, d: real, p: Page): real
    requires |corpus| > 0
  {
    LinkShare(links, d, p) + JumpShare(corpus, links, d)
  }

  /**
   * The damped random-surfer distribution over the page visited after `page`:
   * with probability `d` a uniformly chosen link of `page`, otherwise a
   * uniformly chosen page of the corpus; a page without links spreads all of
   * its mass uniformly.
   */
  function Transition(corpus: Corpus, page: Page, d: real): (t: map<Page, real>)
    requires page in corpus
    ensures t.Keys == corpus.Keys
  {
    map p | p in corpus :: Probability(corpus, corpus[page], d, p)
  }

  /**
   * The transition distribution, built as the original builds it: every page
   * starts at 0, each link receives its share of `d`, then every page
   * receives its jump share.
   */
  method TransitionModel(corpus: Corpus, order: seq<Page>, page: Page, d: real) returns (ans: map<Page, real>)
    requires Ready(corpus, order) && page in corpus
    ensures ans == Transition(corpus, page, d)
  {
    var links := corpus[page];
    var share := if links == {} then 0.0 else d / |links| as real;
    var jump := (if links != {} then 1.0 - d else 1.0) / |corpus| as real;
    ans := Accumulate(order, links, share, jump);
    forall q | q in corpus ensures ans[q] == Transition(corpus, page, d)[q] {
      assert q in order;
    }
  }

  /**
   * The three passes of TransitionModel: zero for every page, `share` added for
   * every link, `jump` added for every page.
   */
  method Accumulate(order: seq<Page>, links: set<Page>, share: real, jump: real) returns (ans: map<Page, real>)
    requires Distinct(order) && forall q | q in links :: q in order
    ensures forall q :: q in ans <==> q in order
    ensures forall q | q in ans :: ans[q] == (if q in links then share else 0.0) + jump
  {
    ans := Zeros(order);
    var todo := links;
    while todo != {}
      invariant todo <= links
      invariant forall q :: q in ans <==> q in order
      invariant forall q | q in ans :: ans[q] == if q in links && q !in todo then share else 0.0
      decreases todo
    {
      var q :| q in todo;
      ans := ans[q := ans[q] + share];
      todo := todo - {q};
    }
    for i := 0 to |order|
      invariant forall q :: q in ans <==> q in order
      invariant forall k | 0 <= k < |order| :: ans[order[k]] == (if order[k] in links then share else 0.0) + (if k < i then jump else 0.0)
    {
      ans := ans[order[i] := ans[order[i]] + jump];
    }
  }

  /** The three kinds of entry of a transition distribution. */
  lemma TransitionCases(corpus: Corpus, page: Page, d: real)
    requires page in corpus
    ensures forall q | q in corpus && q in corpus[page] ::
      Transition(corpus, page, d)[q] == d / |corpus[page]| as real + (1.0 - d) / |corpus| as real
    ensures corpus[page] != {} ==> forall q | q in corpus && q !in corpus[page] ::
      Transition(corpus, page, d)[q] == (1.0 - d) / |corpus| as real
    ensures corpus[page] == {} ==> forall q | q in corpus :: Transition(corpus, page, d)[q] == 1.0 / |corpus| as real
  {
  }

  /** Every transition distribution has total mass 1, whatever the damping factor. */
  lemma TransitionSumsToOne(corpus: Corpus, order: seq<Page>, page: Page, d: real)
    requires Ready(corpus, order) && page in corpus
    ensures SumOver(order, Transition(corpus, page, d)) == 1.0
  {
    var t := Transition(corpus, page, d);
    var links := corpus[page];
    var jump := JumpShare(corpus, links, d);
    var w := if links == {} then 0.0 else d / |links| as real;
    EnumerationLength(order, corpus.Keys);
    assert forall k | k in order :: k in t && t[k] == (if k in links then w else 0.0) + jump;
    SumOverSpread(order, t, links, w, jump);
    TransitionMass(|order|, |links|, d);
  }

  /** The arithmetic behind TransitionSumsToOne: the link shares and the jump shares make up the whole mass. */
  lemma TransitionMass(n: nat, l: nat, d: real)
    requires n > 0
    ensures l > 0 ==> Scale(l, d / l as real) + Scale(n, (1.0 - d) / n as real) == 1.0
    ensures l == 0 ==> Scale(l, 0.0) + Scale(n, 1.0 / n as real) == 1.0
  {
    ScaleMul(n, (1.0 - d) / n as real);
    ScaleMul(n, 1.0 / n as real);
    if l > 0 {
      ScaleMul(l, d / l as real);
    }
  }

  /** With a damping factor in [0, 1], every transition probability lies in [0, 1]. */
  lemma TransitionBounds(corpus: Corpus, order: seq<Page>, page: Page, d: real)
    requires Ready(corpus, order) && page in corpus
    requires 0.0 <= d <= 1.0
    ensures forall q | q in corpus :: 0.0 <= Transition(corpus, page, d)[q] <= 1.0
  {
    var t := Transition(corpus, page, d);
    forall q | q in order ensures t[q] >= 0.0 {
      var links := corpus[page];
      if q in links {
        assert d / |links| as real >= 0.0;
      }
    }
    SumOverNonneg(order, t);
    TransitionSumsToOne(corpus, order, page, d);
  }

  // ---------------------------------------------------------------------------
  // Sampling
  // ---------------------------------------------------------------------------

  /**
   * The cumulative walk: the first page of `order` at which the remaining
   * draw is at most that page's probability, the remaining draw having been
   * reduced by the probabilities of the pages passed over; `current` when no
   * page qualifies.
   */
  function Pick(order: seq<Page>, t: map<Page, real>, u: real, current: Page): (p: Page)
    requires forall q | q in order :: q in t
    ensures p == current || p in order
  {
    if order == [] then current
    else if u <= t[order[0]] then order[0]
    else Pick(order[1..], t, u - t[order[0]], current)
  }

  /** The draw `u` passes over the k-th page of the walk: what is left of it exceeds that page's probability. */
  ghost predicate PassesOver(order: seq<Page>, t: map<Page, real>, u: real, k: int)
    requires 0 <= k < |order|
    requires forall q | q in order :: q in t
  {
    u - SumOver(order[..k], t) > t[order[k]]
  }

  /** The k-th page is where the walk stops: the draw passes over every page before it but not this one. */
  ghost predicate StopsAt(order: seq<Page>, t: map<Page, real>, u: real, k: int)
    requires forall q | q in order :: q in t
  {
    0 <= k < |order| && !PassesOver(order, t, u, k) &&
    forall j | 0 <= j < k :: PassesOver(order, t, u, j)
  }

  /** The inner loop of the sampler: choose the next page from the draw `u`. */
  method NextPage(order: seq<Page>, t: map<Page, real>, u: real, current: Page) returns (next: Page)
    requires forall q | q in order :: q in t
    ensures next == Pick(order, t, u, current)
    ensures forall k | StopsAt(order, t, u, k) :: next == order[k]
    ensures (forall k | 0 <= k < |order| :: PassesOver(order, t, u, k)) ==> next == current
  {
    next := current;
    var possibility := u;
    var i := 0;
    while i < |order|
      invariant 0 <= i <= |order|
      invariant possibility == u - SumOver(order[..i], t)
      invariant forall j | 0 <= j < i :: PassesOver(order, t, u, j)
      invariant Pick(order, t, u, current) == Pick(order[i..], t, possibility, current)
    {
      var p := order[i];
      assert order[i..][0] == p;
      if possibility <= t[p] {
        next := p;
        assert StopsAt(order, t, u, i);
        return;
      }
      SumOverSnoc(order, i, t);
      assert order[i..][1..] == order[i + 1..];
      possibility := possibility - t[p];
      i := i + 1;
    }
  }

  /** One move of the sampler: build the transition model of `current` and walk it with the draw `u`. */
  method Move(corpus: Corpus, order: seq<Page>, d: real, current: Page, u: real) returns (next: Page)
    requires Ready(corpus, order) && current in corpus
    ensures next == Step(corpus, order, d, current, u)
  {
    var t := TransitionModel(corpus, order, current, d);
    next := NextPage(order, t, u, current);
  }

  /** A draw no larger than the total probability always lands on a page of the enumeration. */
  lemma {:induction false} PickLands(order: seq<Page>, t: map<Page, real>, u: real, current: Page)
    requires order != []
    requires forall q | q in order :: q in t
    requires u <= SumOver(order, t)
    ensures Pick(order, t, u, current) in order
  {
    SumOverCons(order, t);
    if u <= t[order[0]] {
    } else if order[1..] == [] {
      assert false;
    } else {
      PickLands(order[1..], t, u - t[order[0]], current);
    }
  }

  /** One step of the walk from `current` with the draw `u`. */
  function Step(corpus: Corpus, order: seq<Page>, d: real, current: Page, u: real): (next: Page)
    requires Ready(corpus, order) && current in corpus
    ensures next in corpus
  {
    Pick(order, Transition(corpus, current, d), u, current)
  }

  /** A draw in [0, 1) always moves the walk along a transition: it never falls through the cumulative walk. */
  lemma StepFollowsTransition(corpus: Corpus, order: seq<Page>, d: real, current: Page, u: real)
    requires Ready(corpus, order) && current in corpus
    requires 0.0 <= u < 1.0
    ensures exists k | 0 <= k < |order| :: Step(corpus, order, d, current, u) == order[k] && StopsAt(order, Transition(corpus, current, d), u, k)
  {
    var t := Transition(corpus, current, d);
    TransitionSumsToOne(corpus, order, current, d);
    assert order != [];
    PickLands(order, t, u, current);
    var p := Step(corpus, order, d, current, u);
    var k :| 0 <= k < |order| && order[k] == p;
    PickStops(order, t, u, current, k);
  }

  /**
   * When a draw no larger than the total lands on the k-th page of a
   * duplicate-free enumeration, the walk stopped there.
   */
  lemma {:induction false} PickStops(order: seq<Page>, t: map<Page, real>, u: real, current: Page, k: int)
    requires Distinct(order) && 0 <= k < |order|
    requires forall q | q in order :: q in t
    requires u <= SumOver(order, t)
    requires Pick(order, t, u, current) == order[k]
    ensures StopsAt(order, t, u, k)
  {
    SumOverCons(order, t);
    if u <= t[order[0]] {
      assert k == 0;
    } else {
      var rest := order[1..];
      if rest == [] {
        assert false;
      }
      var v := u - t[order[0]];
      PickLands(rest, t, v, current);
      assert forall j | 0 <= j < |rest| :: rest[j] == order[j + 1];
      assert order[0] !in rest;
      assert k > 0;
      PickStops(rest, t, v, current, k - 1);
      forall j | 0 <= j <= k ensures
        SumOver(order[..j], t) == (if j == 0 then 0.0 else t[order[0]] + SumOver(rest[..j - 1], t))
      {
        if j > 0 {
          SumOverCons(order[..j], t);
          assert order[..j][1..] == rest[..j - 1];
        }
      }
      forall j | 0 <= j < k ensures PassesOver(order, t, u, j) {
        if j > 0 {
          assert PassesOver(rest, t, v, j - 1);
        }
      }
      assert !PassesOver(rest, t, v, k - 1);
    }
  }

  /** Where the walk stands after consuming `draws`. */
  function PageAfter(corpus: Corpus, order: seq<Page>, d: real, start: Page, draws: seq<real>): (p: Page)
    requires Ready(corpus, order) && start in corpus
    ensures p in corpus
  {
    if draws == [] then start
    else Step(corpus, order, d, PageAfter(corpus, order, d, start, draws[..|draws| - 1]), draws[|draws| - 1])
  }

  /** The pages credited by the walk, one per draw: each step credits the page it leaves. */
  function Visits(corpus: Corpus, order: seq<Page>, d: real, start: Page, draws: seq<real>): (v: seq<Page>)
    requires Ready(corpus, order) && start in corpus
    ensures |v| == |draws|
    ensures forall i | 0 <= i < |v| :: v[i] in corpus
  {
    if draws == [] then []
    else
      var before := draws[..|draws| - 1];
      Visits(corpus, order, d, start, before) + [PageAfter(corpus, order, d, start, before)]
  }

  /** How often `p` occurs in `visits`. */
  function Count(visits: seq<Page>, p: Page): (c: nat)
    ensures c <= |visits|
  {
    if visits == [] then 0
    else Count(visits[..|visits| - 1], p) + (if visits[|visits| - 1] == p then 1 else 0)
  }

  /** Every page of the corpus credited `w` once per occurrence in `visits`. */
  function Frequencies(corpus: Corpus, visits: seq<Page>, w: real): (f: map<Page, real>)
    ensures f.Keys == corpus.Keys
  {
    map p | p in corpus :: Scale(Count(visits, p), w)
  }

  /** The sampler's estimate: the pages credited by the walk started at `start`, 1/n per sample. */
  function SampleRanks(corpus: Corpus, order: seq<Page>, d: real, start: Page, draws: seq<real>): (r: map<Page, real>)
    requires Ready(corpus, order) && start in corpus
    ensures r.Keys == corpus.Keys
  {
    Frequencies(corpus, Visits(corpus, order, d, start, draws), Fraction(|draws|))
  }

  /** Crediting 1/n per visit gives each page its share of the visits, count / n. */
  lemma FrequenciesRatio(corpus: Corpus, visits: seq<Page>, n: nat)
    requires n > 0
    ensures forall p | p in corpus :: Frequencies(corpus, visits, Fraction(n))[p] == Count(visits, p) as real / n as real
  {
    forall p | p in corpus ensures Frequencies(corpus, visits, Fraction(n))[p] == Count(visits, p) as real / n as real {
      CountShare(Count(visits, p), n);
    }
  }

  /** c credits of 1/n make c / n. */
  lemma CountShare(c: nat, n: nat)
    requires n > 0
    ensures Scale(c, 1.0 / n as real) == c as real / n as real
  {
    ScaleMul(c, 1.0 / n as real);
  }

  /** Crediting one more visit adds `w` to exactly one page. */
  lemma FrequenciesSnoc(corpus: Corpus, visits: seq<Page>, x: Page, w: real)
    ensures forall p | p in corpus :: (Frequencies(corpus, visits + [x], w)[p] ==
      Frequencies(corpus, visits, w)[p] + (if p == x then w else 0.0))
  {
    assert (visits + [x])[..|visits|] == visits;
  }

  /** Before any sample, every page has been credited nothing. */
  lemma FrequenciesNone(corpus: Corpus, w: real)
    ensures Frequencies(corpus, [], w) == map p | p in corpus :: 0.0
  {
  }

  /** The sampler's update of its dictionary: crediting page x with `w`. */
  lemma FrequenciesCredit(corpus: Corpus, visits: seq<Page>, x: Page, w: real)
    requires x in corpus
    ensures Frequencies(corpus, visits, w)[x := Frequencies(corpus, visits, w)[x] + w]
      == Frequencies(corpus, visits + [x], w)
  {
    FrequenciesSnoc(corpus, visits, x, w);
  }

  /** Over the whole corpus the credits add up to one `w` per visit. */
  lemma {:induction false} FrequenciesSum(corpus: Corpus, order: seq<Page>, visits: seq<Page>, w: real)
    requires IsEnumeration(order, corpus.Keys)
    requires forall i | 0 <= i < |visits| :: visits[i] in corpus
    ensures SumOver(order, Frequencies(corpus, visits, w)) == Scale(|visits|, w)
  {
    if visits == [] {
      SumOverConst(order, Frequencies(corpus, visits, w), 0.0);
    } else {
      var init, x := visits[..|visits| - 1], visits[|visits| - 1];
      FrequenciesSum(corpus, order, init, w);
      FrequenciesSnoc(corpus, init, x, w);
      assert init + [x] == visits;
      SumOverBump(order, Frequencies(corpus, init, w), Frequencies(corpus, visits, w), x, w);
    }
  }

  /** Fewer credits of a nonnegative amount weigh no more. */
  lemma {:induction false} ScaleMono(c: nat, n: nat, w: real)
    requires c <= n && w >= 0.0
    ensures 0.0 <= Scale(c, w) <= Scale(n, w)
  {
    if c < n {
      ScaleMono(c, n - 1, w);
    } else if c > 0 {
      ScaleMono(c - 1, c - 1, w);
    }
  }

  /** The frequencies of n > 0 visits to pages of the corpus, credited 1/n each, form a probability distribution. */
  lemma FrequenciesDistribution(corpus: Corpus, order: seq<Page>, visits: seq<Page>)
    requires IsEnumeration(order, corpus.Keys) && |visits| > 0
    requires forall i | 0 <= i < |visits| :: visits[i] in corpus
    ensures SumOver(order, Frequencies(corpus, visits, Fraction(|visits|))) == 1.0
    ensures forall p | p in corpus :: 0.0 <= Frequencies(corpus, visits, Fraction(|visits|))[p] <= 1.0
  {
    var n := |visits|;
    var w := Fraction(n);
    FrequenciesSum(corpus, order, visits, w);
    CountShare(n, n);
    DivideSelf(n as real);
    forall p | p in corpus ensures 0.0 <= Frequencies(corpus, visits, w)[p] <= 1.0 {
      ScaleMono(Count(visits, p), n, w);
    }
  }

  /** After n > 0 samples, the estimate is a probability distribution over the corpus. */
  lemma SampleRanksDistribution(corpus: Corpus, order: seq<Page>, d: real, start: Page, draws: seq<real>)
    requires Ready(corpus, order) && start in corpus
    requires |draws| > 0
    ensures SumOver(order, SampleRanks(corpus, order, d, start, draws)) == 1.0
    ensures forall p | p in corpus :: 0.0 <= SampleRanks(corpus, order, d, start, draws)[p] <= 1.0
  {
    FrequenciesDistribution(corpus, order, Visits(corpus, order, d, start, draws));
  }

  /**
   * One pass of the sampler's loop: when `credits` holds the frequencies of the
   * first i steps and the walk stands where those steps took it, crediting the
   * current page gives the frequencies of the first i + 1 steps.
   */
  lemma SampleStep(corpus: Corpus, order: seq<Page>, d: real, start: Page, draws: seq<real>, i: nat, w: real,
                   credits: map<Page, real>, current: Page)
    requires Ready(corpus, order) && start in corpus && i < |draws|
    requires credits == Frequencies(corpus, Visits(corpus, order, d, start, draws[..i]), w)
    requires current == PageAfter(corpus, order, d, start, draws[..i])
    ensures current in credits
    ensures credits[current := credits[current] + w] == Frequencies(corpus, Visits(corpus, order, d, start, draws[..i + 1]), w)
  {
    VisitsSnoc(corpus, order, d, start, draws, i);
    FrequenciesCredit(corpus, Visits(corpus, order, d, start, draws[..i]), current, w);
  }

  /** Each draw credits the page the walk stands on before it. */
  lemma VisitsSnoc(corpus: Corpus, order: seq<Page>, d: real, start: Page, draws: seq<real>, i: nat)
    requires Ready(corpus, order) && start in corpus && i < |draws|
    ensures Visits(corpus, order, d, start, draws[..i + 1])
      == Visits(corpus, order, d, start, draws[..i]) + [PageAfter(corpus, order, d, start, draws[..i])]
  {
    assert draws[..i + 1][..i] == draws[..i];
  }

  /** The walk after i + 1 draws is one step on from the walk after i draws. */
  lemma WalkStep(corpus: Corpus, order: seq<Page>, d: real, start: Page, draws: seq<real>, i: nat)
    requires Ready(corpus, order) && start in corpus && i < |draws|
    ensures PageAfter(corpus, order, d, start, draws[..i + 1]) == Step(corpus, order, d, PageAfter(corpus, order, d, start, draws[..i]), draws[i])
  {
    assert draws[..i + 1][..i] == draws[..i];
  }

  /**
   * The sampling loop: from `start`, one step per draw, each step crediting
   * `w` to the page it leaves.
   */
  method Walk(corpus: Corpus, order: seq<Page>, d: real, start: Page, draws: seq<real>, w: real)
    returns (ans: map<Page, real>)
    requires Ready(corpus, order) && start in corpus
    ensures ans == Frequencies(corpus, Visits(corpus, order, d, start, draws), w)
  {
    ans := Zeros(order);
    var current := start;
    assert draws[..0] == [];
    FrequenciesNone(corpus, w);
    for i := 0 to |draws|
      invariant current == PageAfter(corpus, order, d, start, draws[..i])
      invariant ans == Frequencies(corpus, Visits(corpus, order, d, start, draws[..i]), w)
    {
      SampleStep(corpus, order, d, start, draws, i, w, ans, current);
      ans := ans[current := ans[current] + w];
      current := Move(corpus, order, d, current, draws[i]);
      WalkStep(corpus, order, d, start, draws, i);
    }
    assert draws[..|draws|] == draws;
  }

  /**
   * The Monte Carlo estimate: starting at the `choice`-th page, each of the n
   * steps credits 1/n to the current page and moves with the next draw.
   * An empty corpus fails, as choosing a start page from no pages does.
   */
  method SamplePagerank(corpus: Corpus, order: seq<Page>, d: real, n: nat, choice: nat, draws: seq<real>)
    returns (r: Result<map<Page, real>, Error>)
    requires Ready(corpus, order)
    requires |draws| == n
    requires order == [] || choice < |order|
    ensures r.Failure? <==> order == []
    ensures r.Success? ==> r.value == SampleRanks(corpus, order, d, order[choice], draws)
    ensures r.Success? && n > 0 ==> SumOver(order, r.value) == 1.0
  {
    if order == [] {
      return Failure(EmptyCorpus);
    }
    var start := order[choice];
    var ans := Walk(corpus, order, d, start, draws, Fraction(n));
    if n > 0 {
      SampleRanksDistribution(corpus, order, d, start, draws);
    }
    return Success(ans);
  }

  // ---------------------------------------------------------------------------
  // Iteration
  // ---------------------------------------------------------------------------

  /** The starting ranks: 1/N for each of the N pages. */
  function Uniform(corpus: Corpus): (r: map<Page, real>)
    ensures r.Keys == corpus.Keys
  {
    map p | p in corpus :: Fraction(|corpus|)
  }

  /** `m` with `c` times `t` added at every key. */
  function AddScaled(m: map<Page, real>, c: real, t: map<Page, real>): (r: map<Page, real>)
    requires m.Keys <= t.Keys
    ensures r.Keys == m.Keys
  {
    map q | q in m :: m[q] + c * t[q]
  }

  /**
   * The rank that flows out of the pages in `sources`: each page hands its
   * current rank on along its transition distribution.
   */
  function Inflow(corpus: Corpus, d: real, ranks: map<Page, real>, sources: seq<Page>): (r: map<Page, real>)
    requires forall p | p in sources :: p in corpus && p in ranks
    ensures r.Keys == corpus.Keys
  {
    if sources == [] then map q | q in corpus :: 0.0
    else
      var p := sources[|sources| - 1];
      AddScaled(Inflow(corpus, d, ranks, sources[..|sources| - 1]), ranks[p], Transition(corpus, p, d))
  }

  /** One round of the iteration: every page receives the rank that flows into it from every page. */
  function Sweep(corpus: Corpus, order: seq<Page>, d: real, ranks: map<Page, real>): (r: map<Page, real>)
    requires Ready(corpus, order) && corpus.Keys <= ranks.Keys
    ensures r.Keys == corpus.Keys
  {
    Inflow(corpus, d, ranks, order)
  }

  /** Before any page hands on its rank, every page has received nothing. */
  lemma InflowNone(corpus: Corpus, order: seq<Page>, d: real, ranks: map<Page, real>)
    requires Ready(corpus, order)
    ensures forall q :: q in Inflow(corpus, d, ranks, order[..0]) <==> q in order
    ensures forall q | q in order :: Inflow(corpus, d, ranks, order[..0])[q] == 0.0
  {
    assert order[..0] == [];
  }

  /** Handing on the rank of one more page of the enumeration. */
  lemma InflowSnoc(corpus: Corpus, order: seq<Page>, d: real, ranks: map<Page, real>, i: nat)
    requires Ready(corpus, order) && corpus.Keys <= ranks.Keys && i < |order|
    ensures forall q :: q in Inflow(corpus, d, ranks, order[..i]) <==> q in order
    ensures Inflow(corpus, d, ranks, order[..i + 1])
      == AddScaled(Inflow(corpus, d, ranks, order[..i]), ranks[order[i]], Transition(corpus, order[i], d))
  {
    assert order[..i + 1][..i] == order[..i];
  }

  /** No page moved by more than the tolerance. */
  predicate Settled(corpus: Corpus, prev: map<Page, real>, next: map<Page, real>)
    requires corpus.Keys <= prev.Keys && corpus.Keys <= next.Keys
  {
    forall p | p in corpus :: Abs(next[p] - prev[p]) <= Tolerance
  }

  /** One round as a total function on ranks (a dictionary missing a page is left alone). */
  function SweepStep(corpus: Corpus, order: seq<Page>, d: real): map<Page, real> -> map<Page, real> {
    (ranks: map<Page, real>) => if Ready(corpus, order) && corpus.Keys <= ranks.Keys then Sweep(corpus, order, d, ranks) else ranks
  }

  /** The convergence test as a total function on pairs of ranks. */
  function SettledTest(corpus: Corpus): (map<Page, real>, map<Page, real>) -> bool {
    (prev: map<Page, real>, next: map<Page, real>) => corpus.Keys <= prev.Keys && corpus.Keys <= next.Keys && Settled(corpus, prev, next)
  }

  /**
   * The iteration from `ranks`: sweep, and stop with the new ranks once no page
   * moved by more than the tolerance; give up after `fuel` sweeps.
   */
  function Iterate(corpus: Corpus, order: seq<Page>, d: real, ranks: map<Page, real>, fuel: nat): Outcome<map<Page, real>> {
    Run(SweepStep(corpus, order, d), SettledTest(corpus), ranks, fuel)
  }

  /** One turn of the iteration loop, in terms of the sweep and the convergence test it computed. */
  lemma IterateStep(corpus: Corpus, order: seq<Page>, d: real, ranks: map<Page, real>, fuel: nat, left: nat,
                    next: map<Page, real>, finished: bool, outcome: Outcome<map<Page, real>>)
    requires Ready(corpus, order) && corpus.Keys <= ranks.Keys && fuel == left + 1
    requires Iterate(corpus, order, d, ranks, fuel) == outcome
    requires next == Sweep(corpus, order, d, ranks)
    requires finished == Settled(corpus, ranks, next)
    ensures finished ==> outcome == Converged(next)
    ensures !finished ==> Iterate(corpus, order, d, next, left) == outcome
  {
  }

  /** The inner loop of a sweep: every entry of `t`, scaled by `c`, is added to `res`. */
  method Disperse(order: seq<Page>, res: map<Page, real>, c: real, t: map<Page, real>) returns (out: map<Page, real>)
    requires Distinct(order)
    requires forall q :: q in res <==> q in order
    requires res.Keys <= t.Keys
    ensures out == AddScaled(res, c, t)
  {
    out := res;
    ghost var goal := AddScaled(res, c, t);
    for j := 0 to |order|
      invariant out.Keys == res.Keys
      invariant forall k | 0 <= k < |order| :: out[order[k]] == if k < j then goal[order[k]] else res[order[k]]
    {
      var q := order[j];
      out := out[q := out[q] + c * t[q]];
    }
    forall q | q in res ensures out[q] == goal[q] {
      var k :| 0 <= k < |order| && order[k] == q;
    }
  }

  /** One round of the iteration, computed as the original does: a fresh dictionary, filled page by page. */
  method SweepOnce(corpus: Corpus, order: seq<Page>, d: real, ranks: map<Page, real>) returns (res: map<Page, real>)
    requires Ready(corpus, order) && corpus.Keys <= ranks.Keys
    ensures res == Sweep(corpus, order, d, ranks)
  {
    res := Zeros(order);
    InflowNone(corpus, order, d, ranks);
    for i := 0 to |order|
      invariant res == Inflow(corpus, d, ranks, order[..i])
    {
      var p := order[i];
      var t := TransitionModel(corpus, order, p, d);
      InflowSnoc(corpus, order, d, ranks, i);
      res := Disperse(order, res, ranks[p], t);
    }
    assert order[..|order|] == order;
  }

  /** The convergence test: does any page move by more than the tolerance? */
  method IsSettled(corpus: Corpus, order: seq<Page>, prev: map<Page, real>, next: map<Page, real>) returns (finished: bool)
    requires Ready(corpus, order) && corpus.Keys <= prev.Keys && corpus.Keys <= next.Keys
    ensures finished == Settled(corpus, prev, next)
  {
    finished := true;
    for i := 0 to |order|
      invariant forall k | 0 <= k < i :: Abs(next[order[k]] - prev[order[k]]) <= Tolerance
    {
      var p := order[i];
      if Abs(next[p] - prev[p]) > Tolerance {
        finished := false;
        break;
      }
    }
  }

  /** The starting ranks, filled page by page. */
  method UniformRanks(corpus: Corpus, order: seq<Page>) returns (ans: map<Page, real>)
    requires Ready(corpus, order)
    ensures ans == Uniform(corpus)
  {
    ans := map[];
    EnumerationLength(order, corpus.Keys);
    for i := 0 to |order|
      invariant forall q :: q in ans <==> q in order[..i]
      invariant forall q | q in ans :: ans[q] == Fraction(|corpus|)
    {
      ans := ans[order[i] := 1.0 / |corpus| as real];
    }
    assert order[..|order|] == order;
  }

  /**
   * The fixed-point iteration, started from the uniform ranks. The original
   * loops until the ranks settle; here it is given at most `fuel` sweeps.
   */
  method IteratePagerank(corpus: Corpus, order: seq<Page>, d: real, fuel: nat) returns (r: Outcome<map<Page, real>>)
    requires Ready(corpus, order)
    ensures r == Iterate(corpus, order, d, Uniform(corpus), fuel)
  {
    var ans := UniformRanks(corpus, order);
    r := Settle(corpus, order, d, ans, fuel);
  }

  /** The loop of the iteration: sweep, test, and stop once the ranks settled (or the fuel ran out). */
  method Settle(corpus: Corpus, order: seq<Page>, d: real, start: map<Page, real>, fuel: nat) returns (r: Outcome<map<Page, real>>)
    requires Ready(corpus, order) && corpus.Keys <= start.Keys
    ensures r == Iterate(corpus, order, d, start, fuel)
  {
    ghost var goal := Iterate(corpus, order, d, start, fuel);
    var ans := start;
    var remaining := fuel;
    while true
      invariant corpus.Keys <= ans.Keys
      invariant Iterate(corpus, order, d, ans, remaining) == goal
      decreases remaining
    {
      if remaining == 0 {
        return OutOfFuel(ans);
      }
      var res := SweepOnce(corpus, order, d, ans);
      var finished := IsSettled(corpus, order, ans, res);
      var left := remaining - 1;
      IterateStep(corpus, order, d, ans, remaining, left, res, finished, goal);
      if finished {
        return Converged(res);
      }
      ans, remaining := res, left;
    }
  }

  // ---------------------------------------------------------------------------
  // What the iteration preserves
  // ---------------------------------------------------------------------------

  /** Ranks for every page of the corpus that are probabilities adding up to 1. */
  predicate Distribution(corpus: Corpus, order: seq<Page>, ranks: map<Page, real>)
    requires Ready(corpus, order)
  {
    corpus.Keys <= ranks.Keys &&
    SumOver(order, ranks) == 1.0 &&
    forall p | p in corpus :: 0.0 <= ranks[p] <= 1.0
  }

  /** The uniform start is a distribution over any non-empty corpus. */
  lemma UniformDistribution(corpus: Corpus, order: seq<Page>)
    requires Ready(corpus, order) && |corpus| > 0
    ensures Distribution(corpus, order, Uniform(corpus))
  {
    var u := Uniform(corpus);
    var n := |corpus|;
    EnumerationLength(order, corpus.Keys);
    SumOverSpread(order, u, {}, 0.0, Fraction(n));
    CountShare(n, n);
    DivideSelf(n as real);
    forall p | p in corpus ensures 0.0 <= u[p] <= 1.0 {
      DivideBounds(1.0, n as real);
    }
  }

  /** Adding c times a distribution adds c to the total. */
  lemma AddMass(order: seq<Page>, m: map<Page, real>, c: real, t: map<Page, real>)
    requires m.Keys <= t.Keys && forall k | k in order :: k in m
    requires SumOver(order, t) == 1.0
    ensures SumOver(order, AddScaled(m, c, t)) == SumOver(order, m) + c
  {
    SumOverLinear(order, AddScaled(m, c, t), m, c, t);
  }

  /** The rank flowing out of `sources` arrives in full: nothing is created or lost. */
  lemma {:induction false} InflowMass(corpus: Corpus, order: seq<Page>, d: real, ranks: map<Page, real>, sources: seq<Page>)
    requires Ready(corpus, order) && corpus.Keys <= ranks.Keys
    requires forall p | p in sources :: p in corpus
    ensures SumOver(order, Inflow(corpus, d, ranks, sources)) == SumOver(sources, ranks)
  {
    if sources == [] {
      SumOverConst(order, Inflow(corpus, d, ranks, sources), 0.0);
    } else {
      var init, p := sources[..|sources| - 1], sources[|sources| - 1];
      InflowMass(corpus, order, d, ranks, init);
      TransitionSumsToOne(corpus, order, p, d);
      AddMass(order, Inflow(corpus, d, ranks, init), ranks[p], Transition(corpus, p, d));
    }
  }

  /** A sweep keeps the total rank. */
  lemma SweepMass(corpus: Corpus, order: seq<Page>, d: real, ranks: map<Page, real>)
    requires Ready(corpus, order) && corpus.Keys <= ranks.Keys
    ensures SumOver(order, Sweep(corpus, order, d, ranks)) == SumOver(order, ranks)
  {
    InflowMass(corpus, order, d, ranks, order);
  }

  /** With a damping factor in [0, 1], nonnegative ranks hand on nonnegative rank. */
  lemma {:induction false} InflowNonneg(corpus: Corpus, order: seq<Page>, d: real, ranks: map<Page, real>, sources: seq<Page>)
    requires Ready(corpus, order) && corpus.Keys <= ranks.Keys && 0.0 <= d <= 1.0
    requires forall p | p in corpus :: ranks[p] >= 0.0
    requires forall p | p in sources :: p in corpus
    ensures forall q | q in corpus :: Inflow(corpus, d, ranks, sources)[q] >= 0.0
  {
    if sources != [] {
      var init, p := sources[..|sources| - 1], sources[|sources| - 1];
      InflowNonneg(corpus, order, d, ranks, init);
      TransitionBounds(corpus, order, p, d);
      AddScaledNonneg(Inflow(corpus, d, ranks, init), ranks[p], Transition(corpus, p, d));
    }
  }

  /** Adding a nonnegative multiple of nonnegative values keeps values nonnegative. */
  lemma AddScaledNonneg(m: map<Page, real>, c: real, t: map<Page, real>)
    requires m.Keys <= t.Keys && c >= 0.0
    requires forall q | q in m :: m[q] >= 0.0 && t[q] >= 0.0
    ensures forall q | q in m :: AddScaled(m, c, t)[q] >= 0.0
  {
    forall q | q in m ensures AddScaled(m, c, t)[q] >= 0.0 {
      MultiplyNonneg(c, t[q]);
    }
  }

  /** A sweep maps a distribution to a distribution. */
  lemma SweepDistribution(corpus: Corpus, order: seq<Page>, d: real, ranks: map<Page, real>)
    requires Ready(corpus, order) && 0.0 <= d <= 1.0
    requires Distribution(corpus, order, ranks)
    ensures Distribution(corpus, order, Sweep(corpus, order, d, ranks))
  {
    var next := Sweep(corpus, order, d, ranks);
    SweepMass(corpus, order, d, ranks);
    InflowNonneg(corpus, order, d, ranks, order);
    SumOverNonneg(order, next);
  }

  /** However the iteration ends, it ends on a distribution when it starts from one. */
  lemma IterateDistribution(corpus: Corpus, order: seq<Page>, d: real, ranks: map<Page, real>, fuel: nat)
    requires Ready(corpus, order) && 0.0 <= d <= 1.0
    requires Distribution(corpus, order, ranks)
    ensures Distribution(corpus, order, Iterate(corpus, order, d, ranks, fuel).state)
  {
    var step := SweepStep(corpus, order, d);
    var inv := (r: map<Page, real>) => Ready(corpus, order) && Distribution(corpus, order, r);
    forall r | inv(r) ensures inv(step(r)) {
      SweepDistribution(corpus, order, d, r);
    }
    RunPreserves(step, SettledTest(corpus), ranks, fuel, inv);
  }

  /** The PageRank iteration over a non-empty corpus ends on a distribution. */
  lemma PagerankDistribution(corpus: Corpus, order: seq<Page>, d: real, fuel: nat)
    requires Ready(corpus, order) && |corpus| > 0 && 0.0 <= d <= 1.0
    ensures Distribution(corpus, order, Iterate(corpus, order, d, Uniform(corpus), fuel).state)
  {
    UniformDistribution(corpus, order);
    IterateDistribution(corpus, order, d, Uniform(corpus), fuel);
  }
}
