/** The server's in-memory market cache: `updateCache` refreshes it from the
    paged listing, and `GET /api/markets` searches it. */
module MarketCache {
  import opened Wrappers
  import opened Markets
  import Seqs

  /** Page size and page bound of the server's own listing. */
  const PAGE_SIZE: nat := 500
  const MAX_PAGES: nat := 10

  /** Most results a search returns. */
  const SEARCH_LIMIT: nat := 20

  /** `cachedMarkets` together with `updateMarketCount`. */
  datatype Cache = Cache(markets: seq<MarketSummary>, updateCount: nat)

  /** `updateCache()`: on success the cache is replaced wholesale by the
      projection of every fetched market and the counter advances; when any
      page request throws, the catch leaves both untouched. */
  function UpdateCache(c: Cache, fetch: PageFetcher): (r: Cache)
    ensures Paginate(fetch, PAGE_SIZE, MAX_PAGES, 0).outcome.Threw? ==> r == c
    ensures Paginate(fetch, PAGE_SIZE, MAX_PAGES, 0).outcome.Ok? ==>
              r.updateCount == c.updateCount + 1 &&
              |r.markets| == |Paginate(fetch, PAGE_SIZE, MAX_PAGES, 0).outcome.value|
  {
    var run := Paginate(fetch, PAGE_SIZE, MAX_PAGES, 0);
    if run.outcome.Threw? then c
    else Cache(Project(run.outcome.value), c.updateCount + 1)
  }

  /** A successful refresh holds, in upstream order, exactly the markets of
      the requested pages: at most MAX_PAGES of them, up to and including
      the first empty or short one (`Markets.PaginateStops`). */
  lemma UpdateCacheContents(c: Cache, fetch: PageFetcher)
    ensures var run := Paginate(fetch, PAGE_SIZE, MAX_PAGES, 0);
            run.outcome.Ok? ==>
              && |run.offsets| <= MAX_PAGES
              && UpdateCache(c, fetch).markets == Project(Batches(fetch, PAGE_SIZE, run.offsets))
  {
    PaginateOffsets(fetch, PAGE_SIZE, MAX_PAGES, 0);
    PaginateResult(fetch, PAGE_SIZE, MAX_PAGES, 0);
  }

  /** ASCII lower-casing, standing for `String.prototype.toLowerCase`. */
  function LowerChar(ch: char): char {
    if 'A' <= ch <= 'Z' then (ch as int - 'A' as int + 'a' as int) as char else ch
  }

  function Lower(s: string): (r: string)
    ensures |r| == |s|
    ensures forall i :: 0 <= i < |s| ==> r[i] == LowerChar(s[i])
  {
    if s == [] then [] else [LowerChar(s[0])] + Lower(s[1..])
  }

  /** `t` occurs in `s` starting at index `i`. */
  predicate OccursAt(s: string, t: string, i: nat) {
    i + |t| <= |s| && s[i..i + |t|] == t
  }

  /** `s.includes(t)` */
  predicate Includes(s: string, t: string) {
    exists i: nat | i <= |s| :: OccursAt(s, t, i)
  }

  /** Whether a market's lower-cased question contains the lower-cased term. */
  predicate QuestionMatches(term: string, m: MarketSummary) {
    Includes(Lower(m.question), Lower(term))
  }

  /** `GET /api/markets?q=…`: without a term (absent or empty, both falsy)
      the first markets of the cache; with one, the markets whose question
      contains it case-insensitively; at most SEARCH_LIMIT either way. */
  function Search(c: Cache, q: Option<string>): (r: seq<MarketSummary>)
    ensures |r| <= SEARCH_LIMIT
    ensures Seqs.Subseq(r, c.markets)
    ensures (q.None? || q.value == "") ==> r == c.markets[..if |c.markets| < SEARCH_LIMIT then |c.markets| else SEARCH_LIMIT]
    ensures q.Some? && q.value != "" ==> forall m :: m in r ==> QuestionMatches(q.value, m)
    ensures q.Some? && q.value != "" && |r| < SEARCH_LIMIT ==>
              forall m :: m in c.markets && QuestionMatches(q.value, m) ==> m in r
    ensures q.Some? && q.value != "" ==>
              var hits := Seqs.Filter((m: MarketSummary) => QuestionMatches(q.value, m), c.markets);
              r <= hits && |r| == (if |hits| < SEARCH_LIMIT then |hits| else SEARCH_LIMIT)
  {
    var list := if q.Some? && q.value != "" then Seqs.Filter((m: MarketSummary) => QuestionMatches(q.value, m), c.markets) else c.markets;
    Seqs.SubseqRefl(c.markets);
    var r := list[..if |list| < SEARCH_LIMIT then |list| else SEARCH_LIMIT];
    PrefixSubseq(r, list);
    Seqs.SubseqTrans(r, list, c.markets);
    r
  }

  lemma {:induction false} PrefixSubseq<T>(xs: seq<T>, ys: seq<T>)
    requires xs <= ys
    ensures Seqs.Subseq(xs, ys)
    decreases |ys|
  {
    if xs != [] {
      assert xs[0] == ys[0];
      PrefixSubseq(xs[1..], ys[1..]);
    }
  }

  lemma MatchExample(m: MarketSummary)
    requires m.question == "Will X happen?"
    ensures QuestionMatches("x", m)
  {
    var lq := Lower(m.question);
    assert Lower("x") == "x";
    assert lq[5] == LowerChar('X') == 'x';
    assert lq[5..6] == "x";
    assert OccursAt(lq, "x", 5);
  }

  lemma NoMatchExample(m: MarketSummary)
    requires m.question == "Will X happen?"
    ensures !QuestionMatches("zz", m)
  {
    var lq := Lower(m.question);
    assert Lower("zz") == "zz";
  }

  /** The worked example: a one-market cache found by a lower-case term
      that occurs in upper case, and not by a term that does not occur. */
  lemma SearchExample(m: MarketSummary)
    requires m.question == "Will X happen?"
    ensures Search(Cache([m], 1), Some("x")) == [m]
    ensures Search(Cache([m], 1), Some("zz")) == []
  {
    var c := Cache([m], 1);
    MatchExample(m);
    NoMatchExample(m);
    var rx := Search(c, Some("x"));
    assert m in rx;
    var rz := Search(c, Some("zz"));
    assert forall y :: y in rz ==> y in c.markets by { Seqs.SubseqMembers(rz, c.markets); }
  }
}
