/** The active-market listing: bounded pagination over the upstream market
    list, projection to `{id, question}`, and the `marketExists` membership
    test built on it. The upstream page request is an oracle. */
module Markets {
  import opened Wrappers
  import opened JsValues

  /** Page size and page bound of the shared module's listing. */
  const PAGE: nat := 500
  const MAXPG: nat := 10

  /** An upstream market; `rest` stands for the fields the projection drops. */
  datatype RawMarket = RawMarket(id: string, question: string, rest: map<string, JValue>)

  datatype MarketSummary = MarketSummary(id: string, question: string)

  /** `fetchMarketsPage(limit, offset)`: a page of markets, or a throw on a
      non-ok response or network failure. */
  type PageFetcher = (nat, nat) -> Result<seq<RawMarket>>

  /** The pages requested, by offset, and what the loop produced. */
  datatype PageRun = PageRun(offsets: seq<nat>, outcome: Result<seq<RawMarket>>)

  /** A page after which the loop asks for the next one: neither empty nor
      shorter than the page size. */
  predicate FullPage(page: Result<seq<RawMarket>>, pageSize: nat) {
    page.Ok? && |page.value| != 0 && |page.value| >= pageSize
  }

  /** The batches fetched at the given offsets, concatenated in order. */
  function Batches(fetch: PageFetcher, pageSize: nat, offsets: seq<nat>): seq<RawMarket> {
    if offsets == [] then []
    else
      var b := fetch(pageSize, offsets[0]);
      (if b.Ok? then b.value else []) + Batches(fetch, pageSize, offsets[1..])
  }

  /** The paging loop from page `page` on: request page i at offset
      i * pageSize, stop after an empty or short page, never request page
      `maxPages` or later, and abandon everything when a request throws. */
  function Paginate(fetch: PageFetcher, pageSize: nat, maxPages: nat, page: nat): PageRun
    decreases maxPages - page
  {
    if page >= maxPages then PageRun([], Ok([]))
    else
      var offset := page * pageSize;
      var batch := fetch(pageSize, offset);
      if batch.Threw? then PageRun([offset], Threw)
      else if |batch.value| == 0 then PageRun([offset], Ok([]))
      else if |batch.value| < pageSize then PageRun([offset], Ok(batch.value))
      else
        var rest := Paginate(fetch, pageSize, maxPages, page + 1);
        PageRun([offset] + rest.offsets, if rest.outcome.Ok? then Ok(batch.value + rest.outcome.value) else Threw)
  }

  /** Page k of the run is requested at offset k * pageSize, no page at or
      beyond the bound is requested, and below the bound at least one is. */
  lemma {:induction false} PaginateOffsets(fetch: PageFetcher, pageSize: nat, maxPages: nat, page: nat)
    ensures var r := Paginate(fetch, pageSize, maxPages, page);
            && (forall k :: 0 <= k < |r.offsets| ==> r.offsets[k] == (page + k) * pageSize && page + k < maxPages)
            && (page < maxPages ==> |r.offsets| > 0)
    decreases maxPages - page
  {
    if page < maxPages {
      var r := Paginate(fetch, pageSize, maxPages, page);
      var rest := Paginate(fetch, pageSize, maxPages, page + 1);
      var full := FullPage(fetch(pageSize, page * pageSize), pageSize);
      assert r.offsets == [page * pageSize] + (if full then rest.offsets else []);
      if full {
        PaginateOffsets(fetch, pageSize, maxPages, page + 1);
      }
      forall k | 0 <= k < |r.offsets|
        ensures r.offsets[k] == (page + k) * pageSize && page + k < maxPages
      {
        if k > 0 {
          assert full && r.offsets[k] == rest.offsets[k - 1];
          assert page + 1 + (k - 1) == page + k;
        }
      }
      assert |r.offsets| > 0;
    } else {
      assert Paginate(fetch, pageSize, maxPages, page).offsets == [];
    }
  }

  /** Every requested page but the last came back full, and the last one is
      empty, short or thrown unless the page bound was reached. */
  lemma {:induction false} PaginateStops(fetch: PageFetcher, pageSize: nat, maxPages: nat, page: nat)
    ensures var r := Paginate(fetch, pageSize, maxPages, page);
            && (forall k :: 0 <= k < |r.offsets| - 1 ==> FullPage(fetch(pageSize, r.offsets[k]), pageSize))
            && (0 < |r.offsets| && page + |r.offsets| < maxPages ==>
                  !FullPage(fetch(pageSize, r.offsets[|r.offsets| - 1]), pageSize))
    decreases maxPages - page
  {
    if page < maxPages {
      PaginateStops(fetch, pageSize, maxPages, page + 1);
      PaginateOffsets(fetch, pageSize, maxPages, page + 1);
      var r := Paginate(fetch, pageSize, maxPages, page);
      var rest := Paginate(fetch, pageSize, maxPages, page + 1);
      if FullPage(fetch(pageSize, page * pageSize), pageSize) {
        assert r.offsets[1..] == rest.offsets;
        forall k | 1 <= k < |r.offsets| - 1
          ensures FullPage(fetch(pageSize, r.offsets[k]), pageSize)
        {
          assert r.offsets[k] == rest.offsets[k - 1];
        }
        if 1 < |r.offsets| {
          assert r.offsets[|r.offsets| - 1] == rest.offsets[|rest.offsets| - 1];
        }
      }
    }
  }

  /** The run succeeds iff no requested page threw, and then yields the
      requested batches concatenated in order. */
  lemma {:induction false} PaginateResult(fetch: PageFetcher, pageSize: nat, maxPages: nat, page: nat)
    ensures var r := Paginate(fetch, pageSize, maxPages, page);
            && (r.outcome.Ok? <==> forall k :: 0 <= k < |r.offsets| ==> fetch(pageSize, r.offsets[k]).Ok?)
            && (r.outcome.Ok? ==> r.outcome.value == Batches(fetch, pageSize, r.offsets))
    decreases maxPages - page
  {
    if page < maxPages {
      PaginateResult(fetch, pageSize, maxPages, page + 1);
      var r := Paginate(fetch, pageSize, maxPages, page);
      var rest := Paginate(fetch, pageSize, maxPages, page + 1);
      var b := fetch(pageSize, page * pageSize);
      if b.Ok? && FullPage(b, pageSize) {
        assert r.offsets[1..] == rest.offsets;
        assert (forall k :: 0 <= k < |r.offsets| ==> fetch(pageSize, r.offsets[k]).Ok?) <==>
               (forall k :: 0 <= k < |rest.offsets| ==> fetch(pageSize, rest.offsets[k]).Ok?) by {
          forall k | 1 <= k < |r.offsets| ensures r.offsets[k] == rest.offsets[k - 1] { }
        }
      } else if b.Ok? {
        assert Batches(fetch, pageSize, r.offsets) == b.value + Batches(fetch, pageSize, []);
      }
    }
  }

  /** Prefixes a loop's progress so far to the run of the remaining pages. */
  function Resume(offsets: seq<nat>, all: seq<RawMarket>, rest: PageRun): PageRun {
    PageRun(offsets + rest.offsets, if rest.outcome.Ok? then Ok(all + rest.outcome.value) else Threw)
  }

  /** One step of the paging loop, unfolded. */
  lemma PaginateUnfold(fetch: PageFetcher, pageSize: nat, maxPages: nat, page: nat)
    requires page < maxPages
    ensures var b := fetch(pageSize, page * pageSize);
            Paginate(fetch, pageSize, maxPages, page) ==
              if b.Threw? then PageRun([page * pageSize], Threw)
              else if |b.value| == 0 then PageRun([page * pageSize], Ok([]))
              else if |b.value| < pageSize then PageRun([page * pageSize], Ok(b.value))
              else Resume([page * pageSize], b.value, Paginate(fetch, pageSize, maxPages, page + 1))
  {
  }

  /** Progress can be moved from the remaining run into the prefix. */
  lemma ResumeShift(offsets: seq<nat>, all: seq<RawMarket>, offset: nat, batch: seq<RawMarket>, rest: PageRun)
    ensures Resume(offsets, all, Resume([offset], batch, rest)) == Resume(offsets + [offset], all + batch, rest)
  {
    assert offsets + ([offset] + rest.offsets) == (offsets + [offset]) + rest.offsets;
    if rest.outcome.Ok? {
      assert all + (batch + rest.outcome.value) == (all + batch) + rest.outcome.value;
    }
  }

  /** The `for` loop of `getAllActiveMarkets` / `updateCache` as written:
      push each batch, break on an empty or short one; a throw ends the loop. */
  method FetchAllPages(fetch: PageFetcher, pageSize: nat, maxPages: nat) returns (r: PageRun)
    ensures r == Paginate(fetch, pageSize, maxPages, 0)
  {
    var all: seq<RawMarket> := [];
    var offsets: seq<nat> := [];
    var page := 0;
    var stopped := false;
    ghost var target := Paginate(fetch, pageSize, maxPages, 0);
    assert [] + target.offsets == target.offsets;
    assert target.outcome.Ok? ==> [] + target.outcome.value == target.outcome.value;
    assert Resume([], [], target) == target;
    while page < maxPages && !stopped
      invariant !stopped ==> target == Resume(offsets, all, Paginate(fetch, pageSize, maxPages, page))
      invariant stopped ==> target == PageRun(offsets, Ok(all))
      decreases maxPages - page, if stopped then 0 else 1
    {
      var offset := page * pageSize;
      var batch := fetch(pageSize, offset);
      PaginateUnfold(fetch, pageSize, maxPages, page);
      if batch.Threw? {
        return PageRun(offsets + [offset], Threw);
      }
      if |batch.value| == 0 {
        assert all + [] == all;
        offsets := offsets + [offset];
        stopped := true;
      } else if |batch.value| < pageSize {
        offsets := offsets + [offset];
        all := all + batch.value;
        stopped := true;
      } else {
        ResumeShift(offsets, all, offset, batch.value, Paginate(fetch, pageSize, maxPages, page + 1));
        offsets := offsets + [offset];
        all := all + batch.value;
        page := page + 1;
      }
    }
    if !stopped {
      assert Paginate(fetch, pageSize, maxPages, page) == PageRun([], Ok([]));
      assert offsets + [] == offsets && all + [] == all;
    }
    r := PageRun(offsets, Ok(all));
  }

  /** `all.map(m => ({ id: m.id, question: m.question }))` */
  function Project(ms: seq<RawMarket>): (r: seq<MarketSummary>)
    ensures |r| == |ms|
    ensures forall i :: 0 <= i < |ms| ==> r[i].id == ms[i].id && r[i].question == ms[i].question
  {
    if ms == [] then [] else [MarketSummary(ms[0].id, ms[0].question)] + Project(ms[1..])
  }

  /** `getAllActiveMarkets()`: every market of the fetched pages, in order,
      projected; or a throw when any page request throws. */
  function GetAllActiveMarkets(fetch: PageFetcher): (r: Result<seq<MarketSummary>>)
    ensures r.Ok? <==> Paginate(fetch, PAGE, MAXPG, 0).outcome.Ok?
    ensures r.Ok? ==> |r.value| == |Paginate(fetch, PAGE, MAXPG, 0).outcome.value|
    ensures r.Ok? ==> r.value == Project(Batches(fetch, PAGE, Paginate(fetch, PAGE, MAXPG, 0).offsets))
  {
    PaginateResult(fetch, PAGE, MAXPG, 0);
    var run := Paginate(fetch, PAGE, MAXPG, 0);
    if run.outcome.Ok? then Ok(Project(run.outcome.value)) else Threw
  }

  /** What `marketExists(id)` settles to: whether a listed market has that id. */
  function MarketExistsSettled(fetch: PageFetcher, id: JValue): (r: Result<bool>)
    ensures r.Ok? <==> Paginate(fetch, PAGE, MAXPG, 0).outcome.Ok?
    ensures r.Ok? ==> (r.value <==> exists m :: m in Paginate(fetch, PAGE, MAXPG, 0).outcome.value && Str(m.id) == id)
  {
    match GetAllActiveMarkets(fetch)
    case Threw => Threw
    case Ok(markets) =>
      var found := exists i :: 0 <= i < |markets| && StrictEq(Str(markets[i].id), id);
      ghost var raw := Paginate(fetch, PAGE, MAXPG, 0).outcome.value;
      assert found ==> exists m :: m in raw && Str(m.id) == id by {
        if found {
          var i :| 0 <= i < |markets| && StrictEq(Str(markets[i].id), id);
          assert raw[i] in raw;
        }
      }
      assert (exists m :: m in raw && Str(m.id) == id) ==> found by {
        if exists m :: m in raw && Str(m.id) == id {
          var m :| m in raw && Str(m.id) == id;
          var i :| 0 <= i < |raw| && raw[i] == m;
          assert StrictEq(Str(markets[i].id), id);
        }
      }
      Ok(found)
  }

  /** The value of the expression `marketExists(id)` without `await`: the
      function is `async`, so the call yields a pending Promise object. */
  function MarketExistsCall(id: JValue): (p: JValue)
    ensures p.Obj?
  {
    Obj(0)
  }

  /** Hence `!marketExists(id)` is false for every id, whatever the listing. */
  lemma UnawaitedExistsIsTruthy(id: JValue)
    ensures Truthy(MarketExistsCall(id))
  {
  }
}
