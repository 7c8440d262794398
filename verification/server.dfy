/** The stand-alone Express/socket.io server's alert registry: alerts kept in
    a JSON file (`persistedAlerts`) and mirrored in memory with a socket id
    and a `triggered` flag (`alertsInMemory`). A connection re-binds every
    persisted alert to the new socket, the `createAlert` socket event appends
    without validation, and a cron tick fires non-triggered alerts with a
    strict comparison. */
module LegacyServer {
  import opened JsValues
  import opened Wrappers
  import opened Alerts
  import opened Creation
  import Poll

  datatype LiveAlert = LiveAlert(alert: Doc, socketId: string, triggered: bool)

  datatype Registry = Registry(persisted: seq<Doc>, live: seq<LiveAlert>)

  /** What the socket handler emits back to its client. */
  datatype Emit = AlertError(message: string) | AlertCreated(id: string)

  /** `persistedAlerts.map(a => ({ ...a, socketId, triggered: false }))` */
  function Rebind(alerts: seq<Doc>, socketId: string): (r: seq<LiveAlert>)
    ensures |r| == |alerts|
    ensures forall i :: 0 <= i < |alerts| ==> r[i] == LiveAlert(alerts[i], socketId, false)
  {
    if alerts == [] then [] else [LiveAlert(alerts[0], socketId, false)] + Rebind(alerts[1..], socketId)
  }

  /** A new connection replaces the in-memory list: every persisted alert,
      bound to the new socket and armed again. */
  function Connect(reg: Registry, socketId: string): (r: Registry)
    ensures r.persisted == reg.persisted
    ensures forall i :: 0 <= i < |r.live| ==> !r.live[i].triggered && r.live[i].socketId == socketId
    ensures |r.live| == |reg.persisted|
    ensures forall i :: 0 <= i < |r.live| ==> r.live[i].alert == reg.persisted[i]
  {
    Registry(reg.persisted, Rebind(reg.persisted, socketId))
  }

  /** The `createAlert` socket event: an error when the tuple is already
      persisted, otherwise the alert is appended to both lists. */
  function SocketCreate(reg: Registry, req: Request, newId: string, socketId: string): (r: (Registry, Emit))
    ensures HasDuplicate(reg.persisted, RequestTuple(req)) ==>
              r == (reg, AlertError("You already have that alert."))
    ensures !HasDuplicate(reg.persisted, RequestTuple(req)) ==>
              r.1 == AlertCreated(newId) &&
              r.0.persisted == reg.persisted + [NewAlert(newId, req)] &&
              r.0.live == reg.live + [LiveAlert(NewAlert(newId, req), socketId, false)]
  {
    if HasDuplicate(reg.persisted, RequestTuple(req)) then
      (reg, AlertError("You already have that alert."))
    else
      var alert := NewAlert(newId, req);
      (Registry(reg.persisted + [alert], reg.live + [LiveAlert(alert, socketId, false)]), AlertCreated(newId))
  }

  /** No validation happens on this path: a payload `isValidAlert` refuses
      is stored, and the same payload sent again is refused as a duplicate. */
  lemma SocketCreateTwice(reg: Registry, req: Request, id1: string, id2: string, s1: string, s2: string)
    requires ComparableRequest(req) && !HasDuplicate(reg.persisted, RequestTuple(req))
    ensures var (reg1, e1) := SocketCreate(reg, req, id1, s1);
            var (reg2, e2) := SocketCreate(reg1, req, id2, s2);
            e1 == AlertCreated(id1) && e2 == AlertError("You already have that alert.") && reg2 == reg1
  {
    var reg1 := SocketCreate(reg, req, id1, s1).0;
    var last := |reg1.persisted| - 1;
    assert reg1.persisted[last] == NewAlert(id1, req);
    assert Matches(reg1.persisted[last], RequestTuple(req));
  }

  /** The cron tick's hit test, strict at the threshold:
      `direction === "below" ? price < threshold : price > threshold`. */
  predicate StrictHit(a: Doc, price: JValue) {
    if StrictEq(a.direction, Str("below")) then Less(price, a.threshold) else Greater(price, a.threshold)
  }

  /** The two conventions differ exactly at the threshold: a strict hit is an
      inclusive hit, and an inclusive hit that is not strict is a price equal
      to the threshold. */
  lemma ConventionsDiffer(a: Doc, price: JValue)
    ensures StrictHit(a, price) ==> Poll.InclusiveHit(a, price)
    ensures Poll.InclusiveHit(a, price) && !StrictHit(a, price) ==>
              ToNumber(price).Num? && ToNumber(price) == ToNumber(a.threshold)
  {
  }

  /** The worked example: the "below 0.30" alert at price 0.30 completes in
      the poll functions but does not fire in the cron tick. */
  lemma BoundaryExample()
    ensures var a := Doc(Str("1"), Str("M1"), Num(0.0), Num(0.30), Str("below"));
            Poll.InclusiveHit(a, Num(0.30)) && !StrictHit(a, Num(0.30))
  {
  }

  /** `io.to(socketId).emit("alertTriggered", { marketId, outcomeIndex, price })` */
  datatype TriggerEvent = TriggerEvent(socketId: string, marketId: JValue, outcomeIndex: JValue, price: JValue)

  datatype CronResult = CronResult(live: seq<LiveAlert>, events: seq<TriggerEvent>)

  function EventOf(l: LiveAlert, price: JValue): TriggerEvent {
    TriggerEvent(l.socketId, l.alert.marketId, l.alert.outcomeIndex, price)
  }

  /** The alert at position k fires in this tick. */
  predicate Fires(live: seq<LiveAlert>, prices: nat -> Result<JValue>, k: nat)
    requires k < |live|
  {
    !live[k].triggered && prices(k).Ok? && StrictHit(live[k].alert, prices(k).value)
  }

  /** The positions from j on whose alert fires, in increasing order. */
  function FiringPositions(live: seq<LiveAlert>, prices: nat -> Result<JValue>, j: nat): (r: seq<nat>)
    requires j <= |live|
    ensures forall i :: 0 <= i < |r| ==> j <= r[i] < |live| && Fires(live, prices, r[i])
    ensures forall k :: j <= k < |live| && Fires(live, prices, k) ==> k in r
    ensures forall a, b :: 0 <= a < b < |r| ==> r[a] < r[b]
    decreases |live| - j
  {
    if j == |live| then []
    else if Fires(live, prices, j) then [j] + FiringPositions(live, prices, j + 1)
    else FiringPositions(live, prices, j + 1)
  }

  /** Firing depends only on the alerts at or after j. */
  lemma {:induction false} FiringPositionsFrame(live: seq<LiveAlert>, other: seq<LiveAlert>,
                                                prices: nat -> Result<JValue>, j: nat)
    requires j <= |live| == |other|
    requires forall k :: j <= k < |live| ==> other[k] == live[k]
    ensures FiringPositions(other, prices, j) == FiringPositions(live, prices, j)
    decreases |live| - j
  {
    if j < |live| {
      FiringPositionsFrame(live, other, prices, j + 1);
    }
  }

  /** The cron loop from position j over the alerts not yet triggered; a
      throwing price fetch is caught and the loop goes on. */
  function CronFrom(live: seq<LiveAlert>, j: nat, prices: nat -> Result<JValue>): (r: CronResult)
    requires j <= |live|
    ensures |r.live| == |live|
    ensures forall k :: 0 <= k < |live| ==> r.live[k].alert == live[k].alert && r.live[k].socketId == live[k].socketId
    ensures forall k :: 0 <= k < j ==> r.live[k] == live[k]
    ensures forall k :: j <= k < |live| ==> (r.live[k].triggered <==> live[k].triggered || Fires(live, prices, k))
    ensures forall e :: e in r.events ==>
              exists k :: j <= k < |live| && Fires(live, prices, k) && e == EventOf(live[k], prices(k).value)
    decreases |live| - j
  {
    if j == |live| then CronResult(live, [])
    else if live[j].triggered then CronFrom(live, j + 1, prices)
    else match prices(j)
      case Threw => CronFrom(live, j + 1, prices)
      case Ok(price) =>
        if StrictHit(live[j].alert, price) then
          var next := live[j := live[j].(triggered := true)];
          var rest := CronFrom(next, j + 1, prices);
          assert forall k :: j < k < |live| ==> Fires(next, prices, k) == Fires(live, prices, k);
          CronResult(rest.live, [EventOf(live[j], price)] + rest.events)
        else CronFrom(live, j + 1, prices)
  }

  /** The events of a run, matched entry by entry with firing positions. */
  predicate EventsOf(events: seq<TriggerEvent>, live: seq<LiveAlert>, prices: nat -> Result<JValue>, fp: seq<nat>)
    requires forall i :: 0 <= i < |fp| ==> fp[i] < |live| && prices(fp[i]).Ok?
  {
    |events| == |fp| && forall i :: 0 <= i < |fp| ==> events[i] == EventOf(live[fp[i]], prices(fp[i]).value)
  }

  /** The loop emits exactly one event per firing alert, in list order. */
  lemma {:induction false} CronEvents(live: seq<LiveAlert>, j: nat, prices: nat -> Result<JValue>)
    requires j <= |live|
    ensures EventsOf(CronFrom(live, j, prices).events, live, prices, FiringPositions(live, prices, j))
    decreases |live| - j
  {
    if j < |live| {
      if Fires(live, prices, j) {
        CronFiringStep(live, j, prices);
      } else {
        CronSkipUnfold(live, j, prices);
        CronEvents(live, j + 1, prices);
      }
    }
  }

  /** An alert that does not fire adds no event. */
  lemma CronSkipUnfold(live: seq<LiveAlert>, j: nat, prices: nat -> Result<JValue>)
    requires j < |live| && !Fires(live, prices, j)
    ensures CronFrom(live, j, prices).events == CronFrom(live, j + 1, prices).events
    ensures FiringPositions(live, prices, j) == FiringPositions(live, prices, j + 1)
  {
  }

  /** The alert that fires at j is marked and announced first. */
  lemma CronFireUnfold(live: seq<LiveAlert>, j: nat, prices: nat -> Result<JValue>)
    requires j < |live| && Fires(live, prices, j)
    ensures CronFrom(live, j, prices).events ==
              [EventOf(live[j], prices(j).value)] + CronFrom(live[j := live[j].(triggered := true)], j + 1, prices).events
    ensures FiringPositions(live, prices, j) == [j] + FiringPositions(live, prices, j + 1)
  {
  }

  lemma {:induction false} CronFiringStep(live: seq<LiveAlert>, j: nat, prices: nat -> Result<JValue>)
    requires j < |live| && Fires(live, prices, j)
    ensures EventsOf(CronFrom(live, j, prices).events, live, prices, FiringPositions(live, prices, j))
    decreases |live| - j, 0
  {
    var next := live[j := live[j].(triggered := true)];
    CronFireUnfold(live, j, prices);
    FiringPositionsFrame(live, next, prices, j + 1);
    CronEvents(next, j + 1, prices);
    EventsCons(live, next, prices, j, CronFrom(next, j + 1, prices).events, FiringPositions(live, prices, j + 1));
  }

  /** Prepending the event of position j to the events of later positions,
      read in a list that differs from `live` only at j. */
  lemma EventsCons(live: seq<LiveAlert>, next: seq<LiveAlert>, prices: nat -> Result<JValue>, j: nat,
                   rest: seq<TriggerEvent>, fq: seq<nat>)
    requires j < |live| == |next| && prices(j).Ok?
    requires forall k :: j < k < |live| ==> next[k] == live[k]
    requires forall i :: 0 <= i < |fq| ==> j < fq[i] < |live| && prices(fq[i]).Ok?
    requires EventsOf(rest, next, prices, fq)
    ensures EventsOf([EventOf(live[j], prices(j).value)] + rest, live, prices, [j] + fq)
  {
    forall i | 0 <= i < |fq|
      ensures rest[i] == EventOf(live[fq[i]], prices(fq[i]).value)
    {
      assert next[fq[i]] == live[fq[i]];
    }
  }

  /** The cron tick: only non-triggered alerts are priced; a hit sets the
      flag for good and notifies the alert's socket, once per firing alert
      and in list order. */
  function CronTick(reg: Registry, prices: nat -> Result<JValue>): (r: (Registry, seq<TriggerEvent>))
    ensures r.0.persisted == reg.persisted
    ensures |r.0.live| == |reg.live|
    ensures forall k :: 0 <= k < |reg.live| ==> (r.0.live[k].triggered <==> reg.live[k].triggered || Fires(reg.live, prices, k))
    ensures forall k :: 0 <= k < |reg.live| && Fires(reg.live, prices, k) ==> EventOf(reg.live[k], prices(k).value) in r.1
    ensures forall e :: e in r.1 ==>
              exists k :: 0 <= k < |reg.live| && Fires(reg.live, prices, k) && e == EventOf(reg.live[k], prices(k).value)
    ensures var fp := FiringPositions(reg.live, prices, 0);
            |r.1| == |fp| &&
            forall i :: 0 <= i < |fp| ==> r.1[i] == EventOf(reg.live[fp[i]], prices(fp[i]).value)
  {
    CronEvents(reg.live, 0, prices);
    var c := CronFrom(reg.live, 0, prices);
    var fp := FiringPositions(reg.live, prices, 0);
    assert forall k :: 0 <= k < |reg.live| && Fires(reg.live, prices, k) ==>
             exists i :: 0 <= i < |fp| && fp[i] == k;
    (Registry(reg.persisted, c.live), c.events)
  }

  /** Reconnecting re-arms fired alerts: after a connection every persisted
      alert whose price strictly crosses fires again, whatever fired before. */
  lemma ReconnectReArms(reg: Registry, socketId: string, prices: nat -> Result<JValue>, k: nat)
    requires k < |reg.persisted| && prices(k).Ok? && StrictHit(reg.persisted[k], prices(k).value)
    ensures var r := CronTick(Connect(reg, socketId), prices).0;
            r.live[k].triggered && r.live[k].alert == reg.persisted[k]
  {
    var c := Connect(reg, socketId);
    assert c.live[k] == LiveAlert(reg.persisted[k], socketId, false);
    assert Fires(c.live, prices, k);
  }
}
