/** The read-only handlers: `getActiveAlerts` (the validity filter over the
    active container) and `getMarketById` together with the server's
    `/api/markets/:id` route (outcome labels zipped with prices). */
module Queries {
  import opened JsValues
  import opened Wrappers
  import opened Alerts
  import opened Markets
  import Seqs

  /** `allActiveAlerts.filter(a => isValidAlert(a) && marketExists(a.marketId))` */
  predicate Listed(a: Doc) {
    IsValidAlert(a) && Truthy(MarketExistsCall(a.marketId))
  }

  /** `getActiveAlerts`: the valid alerts of the container, in order. The
      market-existence conjunct is a Promise and never filters anything. A
      throwing list call escapes the handler. */
  function GetActiveAlerts(listing: Result<seq<Doc>>): (r: Result<seq<Doc>>)
    ensures r.Ok? <==> listing.Ok?
    ensures r.Ok? ==> Seqs.Subseq(r.value, listing.value)
    ensures r.Ok? ==> forall a :: a in r.value <==> a in listing.value && IsValidAlert(a)
  {
    match listing
    case Threw => Threw
    case Ok(all) => Ok(Seqs.Filter(Listed, all))
  }

  /** The filter is exactly the validity filter. */
  lemma ActiveAlertsAreTheValidOnes(all: seq<Doc>)
    ensures GetActiveAlerts(Ok(all)) == Ok(Seqs.Filter(IsValidAlert, all))
  {
    FilterExtensional(Listed, IsValidAlert, all);
  }

  lemma {:induction false} FilterExtensional<T(!new)>(p: T -> bool, q: T -> bool, xs: seq<T>)
    requires forall x :: p(x) == q(x)
    ensures Seqs.Filter(p, xs) == Seqs.Filter(q, xs)
    decreases |xs|
  {
    if xs != [] {
      FilterExtensional(p, q, xs[1..]);
    }
  }

  /** The upstream market response: a network failure, a non-ok status, or
      a market whose `outcomes` and `outcomePrices` are already parsed. */
  datatype Upstream =
    | Unreachable
    | NotOk(status: int)
    | Market(id: JValue, question: JValue, outcomes: seq<JValue>, outcomePrices: seq<JValue>)

  /** An outcome of the detail; `labelText` is the JSON field `label`. */
  datatype OutcomeEntry = OutcomeEntry(id: nat, labelText: JValue, price: JValue)

  datatype Detail = Detail(id: JValue, question: JValue, outcomes: seq<OutcomeEntry>)

  datatype DetailResponse = DetailBody(detail: Detail) | Status(code: int) | Unhandled

  /** `outcomes.map((label, i) => ({ id: i, label, price: outcomePrices[i] }))`
      from index i on; a missing price reads as undefined. */
  function ZipFrom(labels: seq<JValue>, prices: seq<JValue>, i: nat): (r: seq<OutcomeEntry>)
    requires i <= |labels|
    ensures |r| == |labels| - i
    ensures forall k :: 0 <= k < |r| ==> r[k].id == i + k && r[k].labelText == labels[i + k]
    ensures forall k :: 0 <= k < |r| ==> r[k].price == if i + k < |prices| then prices[i + k] else Undefined
    decreases |labels| - i
  {
    if i == |labels| then []
    else [OutcomeEntry(i, labels[i], if i < |prices| then prices[i] else Undefined)] + ZipFrom(labels, prices, i + 1)
  }

  function Zip(labels: seq<JValue>, prices: seq<JValue>): seq<OutcomeEntry> {
    ZipFrom(labels, prices, 0)
  }

  function LabelsOf(es: seq<OutcomeEntry>): seq<JValue> {
    if es == [] then [] else [es[0].labelText] + LabelsOf(es[1..])
  }

  function PricesOf(es: seq<OutcomeEntry>): seq<JValue> {
    if es == [] then [] else [es[0].price] + PricesOf(es[1..])
  }

  /** The zip loses nothing: the labels come back in order, and so do the
      prices when there is one per label. */
  lemma {:induction false} ZipRoundTrip(labels: seq<JValue>, prices: seq<JValue>, i: nat)
    requires i <= |labels|
    ensures LabelsOf(ZipFrom(labels, prices, i)) == labels[i..]
    ensures |prices| == |labels| ==> PricesOf(ZipFrom(labels, prices, i)) == prices[i..]
    decreases |labels| - i
  {
    if i < |labels| {
      ZipRoundTrip(labels, prices, i + 1);
      var z := ZipFrom(labels, prices, i);
      assert z[1..] == ZipFrom(labels, prices, i + 1);
      assert labels[i..] == [labels[i]] + labels[i + 1..];
      if |prices| == |labels| {
        assert prices[i..] == [prices[i]] + prices[i + 1..];
      }
    }
  }

  function DetailOf(id: JValue, question: JValue, labels: seq<JValue>, prices: seq<JValue>): Detail {
    Detail(id, question, Zip(labels, prices))
  }

  /** `getMarketById`: 502 on a non-ok upstream status, the detail
      otherwise; a network failure escapes the handler. */
  function GetMarketById(up: Upstream): (r: DetailResponse)
    ensures up.NotOk? <==> r == Status(502)
    ensures up.Unreachable? <==> r.Unhandled?
    ensures up.Market? ==> r.DetailBody? && r.detail.id == up.id && r.detail.question == up.question &&
                           |r.detail.outcomes| == |up.outcomes|
    ensures up.Market? ==> r.detail.outcomes == Zip(up.outcomes, up.outcomePrices)
  {
    match up
    case Unreachable => Unhandled
    case NotOk(_) => Status(502)
    case Market(id, q, labels, prices) => DetailBody(DetailOf(id, q, labels, prices))
  }

  /** The server's `/api/markets/:id`: the same projection, but a network
      failure is caught and answered with 500. */
  function ServerMarketById(up: Upstream): (r: DetailResponse)
    ensures up.NotOk? <==> r == Status(502)
    ensures up.Unreachable? <==> r == Status(500)
    ensures up.Market? ==> r == GetMarketById(up)
  {
    match up
    case Unreachable => Status(500)
    case NotOk(_) => Status(502)
    case Market(id, q, labels, prices) => DetailBody(DetailOf(id, q, labels, prices))
  }
}
