/** The two HTTP creation handlers of the Functions backend: the active-alert
    creator (full validation, duplicate check over the active container) and
    the older all-alerts creator (a weak payload check, duplicate check over
    every stored alert). Store reads and writes are oracle outcomes; the new
    id (`Date.now()`) is a parameter. */
module Creation {
  import opened JsValues
  import opened Wrappers
  import opened Alerts
  import opened AlertStore
  import opened Markets

  /** The four fields destructured from the request body. */
  datatype Request = Request(marketId: JValue, outcomeIndex: JValue, threshold: JValue, direction: JValue)

  function RequestTuple(req: Request): Tuple {
    Tuple(req.marketId, req.outcomeIndex, req.threshold, req.direction)
  }

  /** The document both handlers write: the request fields under a new id. */
  function NewAlert(id: string, req: Request): Doc {
    Doc(Str(id), req.marketId, req.outcomeIndex, req.threshold, req.direction)
  }

  datatype Body = Text(text: string) | AlertBody(alert: Doc)

  /** An HTTP response, or an exception the handler let escape. */
  datatype Response = Response(status: int, body: Body) | Unhandled

  /** The response together with the container after the call. */
  datatype Creation = Creation(response: Response, store: seq<Doc>)

  /** The validation probe: the request fields under the id "probe". */
  function Probe(req: Request): Doc {
    Doc(Str("probe"), req.marketId, req.outcomeIndex, req.threshold, req.direction)
  }

  function NotFoundText(marketId: JValue): string {
    if marketId.Str? then "Market " + marketId.s + " not found." else "Market not found."
  }

  /** `createActiveAlert`: 400 unless the probe is a valid alert (the unawaited
      market-existence call never vetoes), then 409 on a duplicate tuple in
      the active container, else 201 with the upserted alert. A throwing
      store read or write escapes the handler. */
  function CreateActiveAlert(active: seq<Doc>, req: Request, newId: string,
                             listing: StoreCall, write: StoreCall): (r: Creation)
    ensures r.response.Response? && r.response.status == 400 <==> !IsValidAlert(Probe(req))
    ensures r.response.Response? && r.response.status == 400 ==> r.response.body == Text("Invalid alert payload.")
    ensures r.response.Response? && r.response.status == 409 <==>
              IsValidAlert(Probe(req)) && listing.Done? && HasDuplicate(active, RequestTuple(req))
    ensures r.response.Response? && r.response.status == 201 <==>
              IsValidAlert(Probe(req)) && listing.Done? && !HasDuplicate(active, RequestTuple(req)) && write.Done?
    ensures r.response.Response? ==> r.response.status in {400, 409, 201}
    ensures r.response.Response? && r.response.status == 201 ==>
              r.response.body == AlertBody(NewAlert(newId, req)) &&
              r.store == Upsert(active, KeyOf, NewAlert(newId, req))
    ensures !(r.response.Response? && r.response.status == 201) ==> r.store == active
  {
    var probe := Probe(req);
    if !IsValidAlert(probe) || !Truthy(MarketExistsCall(req.marketId)) then
      Creation(Response(400, Text(if !IsValidAlert(probe) then "Invalid alert payload." else NotFoundText(req.marketId))), active)
    else if listing.Failed? then
      Creation(Unhandled, active)
    else if HasDuplicate(active, RequestTuple(req)) then
      Creation(Response(409, Text("Duplicate alert")), active)
    else if write.Failed? then
      Creation(Unhandled, active)
    else
      var alert := NewAlert(newId, req);
      Creation(Response(201, AlertBody(alert)), Upsert(active, KeyOf, alert))
  }

  /** Validation comes before any store access: an invalid request gets the
      same 400 whatever the container holds and whatever the store would do. */
  lemma ValidationPrecedesStore(req: Request, a1: seq<Doc>, a2: seq<Doc>, id1: string, id2: string,
                                l1: StoreCall, l2: StoreCall, w1: StoreCall, w2: StoreCall)
    requires !IsValidAlert(Probe(req))
    ensures CreateActiveAlert(a1, req, id1, l1, w1).response == CreateActiveAlert(a2, req, id2, l2, w2).response
    ensures CreateActiveAlert(a1, req, id1, l1, w1).store == a1
  {
  }

  /** When the new id is not already stored in that market's partition,
      a successful creation appends exactly the new alert. */
  lemma CreateActiveAppendsOne(active: seq<Doc>, req: Request, newId: string)
    requires forall d :: d in active ==> KeyOf(d) != Key(Str(newId), req.marketId)
    requires IsValidAlert(Probe(req)) && !HasDuplicate(active, RequestTuple(req))
    ensures var r := CreateActiveAlert(active, req, newId, Done, Done);
            r.response == Response(201, AlertBody(NewAlert(newId, req))) &&
            r.store == active + [NewAlert(newId, req)]
  {
  }

  /** Creation keeps the active container free of two alerts on one tuple. */
  lemma {:induction false} CreateActiveKeepsTuplesUnique(active: seq<Doc>, req: Request, newId: string,
                                                         listing: StoreCall, write: StoreCall)
    requires NoDupTuples(active)
    ensures NoDupTuples(CreateActiveAlert(active, req, newId, listing, write).store)
  {
    var r := CreateActiveAlert(active, req, newId, listing, write);
    if r.response.Response? && r.response.status == 201 {
      var alert := NewAlert(newId, req);
      var kept := Delete(active, KeyOf, KeyOf(alert));
      assert r.store == kept + [alert];
      NoDupTuplesSubseq(kept, active);
      assert !HasDuplicate(kept, TupleOf(alert)) by {
        forall i | 0 <= i < |kept| ensures !Matches(kept[i], TupleOf(alert)) {
          assert kept[i] in active;
          var j :| 0 <= j < |active| && active[j] == kept[i];
          assert !Matches(active[j], RequestTuple(req));
        }
      }
      NoDupTuplesAppend(kept, alert);
    }
  }

  /** A value `===` to its own copy read back from the store: JSON carries
      no NaN, and objects come back as new objects. */
  predicate Comparable(v: JValue) {
    !v.NaN? && !v.Obj?
  }

  predicate ComparableRequest(req: Request) {
    Comparable(req.marketId) && Comparable(req.outcomeIndex) &&
    Comparable(req.threshold) && Comparable(req.direction)
  }

  /** The alert just created is found by the duplicate check. */
  lemma CreatedIsDuplicate(active: seq<Doc>, req: Request, newId: string)
    requires ComparableRequest(req)
    ensures HasDuplicate(Upsert(active, KeyOf, NewAlert(newId, req)), RequestTuple(req))
  {
    var s := Upsert(active, KeyOf, NewAlert(newId, req));
    var i :| 0 <= i < |s| && s[i] == NewAlert(newId, req);
    assert Matches(s[i], RequestTuple(req));
  }

  /** Creating the same alert twice: the first call succeeds, the second
      (with any id) is refused as a duplicate and writes nothing. */
  lemma CreateActiveTwice(active: seq<Doc>, req: Request, id1: string, id2: string, write2: StoreCall)
    requires IsValidAlert(Probe(req)) && !HasDuplicate(active, RequestTuple(req))
    ensures var first := CreateActiveAlert(active, req, id1, Done, Done);
            var second := CreateActiveAlert(first.store, req, id2, Done, write2);
            first.response.Response? && first.response.status == 201 &&
            second.response == Response(409, Text("Duplicate alert")) &&
            second.store == first.store
  {
    CreatedIsDuplicate(active, req, id1);
  }

  /** `createAlert`: 400 when `marketId` is falsy or `threshold` is not a
      number, then 409 on a duplicate tuple among all stored alerts, else 201
      with the upserted alert. Range, direction and index are not checked. */
  function CreateAlert(alerts: seq<Doc>, req: Request, newId: string,
                       listing: StoreCall, write: StoreCall): (r: Creation)
    ensures r.response.Response? && r.response.status == 400 <==> !Truthy(req.marketId) || !IsNumber(req.threshold)
    ensures r.response.Response? && r.response.status == 400 ==> r.response.body == Text("Invalid payload")
    ensures r.response.Response? && r.response.status == 409 <==>
              Truthy(req.marketId) && IsNumber(req.threshold) && listing.Done? && HasDuplicate(alerts, RequestTuple(req))
    ensures r.response.Response? && r.response.status == 201 <==>
              Truthy(req.marketId) && IsNumber(req.threshold) && listing.Done? &&
              !HasDuplicate(alerts, RequestTuple(req)) && write.Done?
    ensures r.response.Response? && r.response.status == 201 ==>
              r.response.body == AlertBody(NewAlert(newId, req)) &&
              r.store == Upsert(alerts, KeyOf, NewAlert(newId, req))
    ensures !(r.response.Response? && r.response.status == 201) ==> r.store == alerts
  {
    if !Truthy(req.marketId) || !IsNumber(req.threshold) then
      Creation(Response(400, Text("Invalid payload")), alerts)
    else if listing.Failed? then
      Creation(Unhandled, alerts)
    else if HasDuplicate(alerts, RequestTuple(req)) then
      Creation(Response(409, Text("Duplicate alert")), alerts)
    else if write.Failed? then
      Creation(Unhandled, alerts)
    else
      var alert := NewAlert(newId, req);
      Creation(Response(201, AlertBody(alert)), Upsert(alerts, KeyOf, alert))
  }

  /** The weak check lets through what `isValidAlert` refuses: a threshold of
      5, a missing index and an unknown direction are stored. */
  lemma CreateAlertAcceptsOutOfRange(id: string)
    ensures var req := Request(Str("m"), Undefined, Num(5.0), Str("sideways"));
            var r := CreateAlert([], req, id, Done, Done);
            r.response.Response? && r.response.status == 201 && |r.store| == 1 &&
            !IsValidAlert(r.store[0])
  {
    var req := Request(Str("m"), Undefined, Num(5.0), Str("sideways"));
    var r := CreateAlert([], req, id, Done, Done);
    assert !HasDuplicate([], RequestTuple(req));
    assert r.store == [NewAlert(id, req)];
  }

  /** Creating the same alert twice through `createAlert`: 201, then 409. */
  lemma CreateAlertTwice(alerts: seq<Doc>, req: Request, id1: string, id2: string, write2: StoreCall)
    requires Truthy(req.marketId) && IsNumber(req.threshold) && ComparableRequest(req)
    requires !HasDuplicate(alerts, RequestTuple(req))
    ensures var first := CreateAlert(alerts, req, id1, Done, Done);
            var second := CreateAlert(first.store, req, id2, Done, write2);
            first.response.Response? && first.response.status == 201 &&
            second.response == Response(409, Text("Duplicate alert")) &&
            second.store == first.store
  {
    CreatedIsDuplicate(alerts, req, id1);
  }
}
