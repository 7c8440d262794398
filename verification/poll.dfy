/** The timer-triggered poll tick of the Functions backend, in both variants:
    `pollAlerts` (move hit alerts to the completed container) and
    `pollActiveAlerts` (the same, with a Telegram message first). The tick
    walks the active list read at its start; each alert is validated, priced
    and, on an inclusive hit, upserted into the completed container before
    it is deleted from the active one. Every I/O call is an oracle outcome
    supplied per position in the list. */
module Poll {
  import opened JsValues
  import opened Wrappers
  import opened Alerts
  import opened AlertStore
  import opened Markets
  import Seqs

  datatype Variant = PollAlerts | PollActiveAlerts

  /** The Telegram `fetch`: resolved ok, resolved non-ok (only logged), or
      rejected (the exception reaches the per-alert catch). */
  datatype Telegram = Delivered | NotOk | Rejected

  /** What the outside world does for one alert of the tick: the price fetch,
      the Telegram call, the timestamp, and the two store writes. */
  datatype AlertIO = AlertIO(price: Result<JValue>, telegram: Telegram, completedAt: string,
                             upsert: StoreCall, delete: StoreCall)

  /** The calls the handler makes for one alert, in order. */
  datatype Effect =
    | Notify(marketId: JValue, price: JValue)
    | UpsertCompleted(record: Completed)
    | DeleteActive(key: Key)

  /** How one alert's iteration ended. */
  datatype Outcome =
    | SkippedInvalid
    | SkippedUnknownMarket
    | PriceFailed
    | NotHit(price: JValue)
    | NotifyFailed(price: JValue)
    | UpsertFailed(price: JValue)
    | DeleteFailed(price: JValue)
    | Moved(price: JValue)
  {
    /** The price reached the threshold. */
    predicate IsHit() {
      NotifyFailed? || UpsertFailed? || DeleteFailed? || Moved?
    }

    /** The completed record was written. */
    predicate Committed() {
      DeleteFailed? || Moved?
    }
  }

  /** The hit test of both poll functions, inclusive at the threshold:
      `direction === "below" ? price <= threshold : price >= threshold`. */
  predicate InclusiveHit(a: Doc, price: JValue) {
    if StrictEq(a.direction, Str("below")) then LessEq(price, a.threshold) else GreaterEq(price, a.threshold)
  }

  /** For a valid alert and a numeric price the test reads as the direction
      says, the boundary included; a NaN price (an index past the outcome
      list parses to NaN) never hits. */
  lemma InclusiveHitMeaning(a: Doc, price: JValue)
    requires IsValidAlert(a)
    ensures price.Num? ==>
              (InclusiveHit(a, price) <==>
                 (a.direction == Str("below") && price.x <= a.threshold.x) ||
                 (a.direction == Str("above") && price.x >= a.threshold.x))
    ensures price.NaN? ==> !InclusiveHit(a, price)
  {
  }

  /** The worked example: a "below 0.30" alert fires at 0.30 but not at 0.31. */
  lemma InclusiveHitExample()
    ensures var a := Doc(Str("1"), Str("M1"), Num(0.0), Num(0.30), Str("below"));
            InclusiveHit(a, Num(0.30)) && !InclusiveHit(a, Num(0.31))
  {
  }

  /** One iteration of the `for` loop: the two skips, then inside the `try`
      the price fetch, the hit test, and the writes in order. */
  function Classify(v: Variant, a: Doc, io: AlertIO): (o: Outcome)
    ensures o.SkippedInvalid? <==> !IsValidAlert(a)
    ensures !o.SkippedUnknownMarket?
    ensures o.IsHit() <==> IsValidAlert(a) && io.price.Ok? && InclusiveHit(a, io.price.value)
    ensures o.IsHit() || o.NotHit? ==> io.price == Ok(o.price)
    ensures o.NotifyFailed? ==> v == PollActiveAlerts && io.telegram == Rejected
    ensures o.IsHit() ==> (o.NotifyFailed? <==> v == PollActiveAlerts && io.telegram == Rejected)
    ensures o.IsHit() && !o.NotifyFailed? ==> (o.UpsertFailed? <==> io.upsert.Failed?)
    ensures o.Moved? <==> o.IsHit() && !o.NotifyFailed? && io.upsert.Done? && io.delete.Done?
  {
    if !IsValidAlert(a) then SkippedInvalid
    else if !Truthy(MarketExistsCall(a.marketId)) then SkippedUnknownMarket
    else match io.price
      case Threw => PriceFailed
      case Ok(price) =>
        if !InclusiveHit(a, price) then NotHit(price)
        else if v == PollActiveAlerts && io.telegram == Rejected then NotifyFailed(price)
        else if io.upsert.Failed? then UpsertFailed(price)
        else if io.delete.Failed? then DeleteFailed(price)
        else Moved(price)
  }

  /** The completed record: the alert's fields plus completedAt and the
      observed price. */
  function Completion(a: Doc, io: AlertIO, price: JValue): Completed {
    Completed(a, io.completedAt, price)
  }

  /** The store after one iteration. */
  function Apply(st: Stores, a: Doc, io: AlertIO, o: Outcome): Stores {
    match o
    case DeleteFailed(price) =>
      st.(completed := Upsert(st.completed, CompletedKey, Completion(a, io, price)))
    case Moved(price) =>
      Stores(Delete(st.active, KeyOf, KeyOf(a)), Upsert(st.completed, CompletedKey, Completion(a, io, price)))
    case _ => st
  }

  /** The calls attempted in one iteration, in program order. */
  function Effects(v: Variant, a: Doc, io: AlertIO, o: Outcome): seq<Effect> {
    if !o.IsHit() then []
    else
      var notify := if v == PollActiveAlerts then [Notify(a.marketId, o.price)] else [];
      if o.NotifyFailed? then notify
      else if o.UpsertFailed? then notify + [UpsertCompleted(Completion(a, io, o.price))]
      else notify + [UpsertCompleted(Completion(a, io, o.price)), DeleteActive(KeyOf(a))]
  }

  datatype StepResult = StepResult(stores: Stores, outcome: Outcome, effects: seq<Effect>)

  /** One alert's iteration: its outcome, the store after it, its calls. */
  function Step(v: Variant, st: Stores, a: Doc, io: AlertIO): (r: StepResult)
    ensures !r.outcome.Committed() ==> r.stores == st
    ensures r.outcome.Moved? ==>
              Completion(a, io, r.outcome.price) in r.stores.completed &&
              (forall d :: d in r.stores.active <==> d in st.active && KeyOf(d) != KeyOf(a))
    ensures r.outcome.DeleteFailed? ==>
              Completion(a, io, r.outcome.price) in r.stores.completed && r.stores.active == st.active
    ensures r.outcome.Committed() ==>
              forall c :: c in r.stores.completed <==>
                c == Completion(a, io, r.outcome.price) || (c in st.completed && CompletedKey(c) != KeyOf(a))
    ensures r.outcome.Moved? ==>
              r.effects == (if v == PollActiveAlerts then [Notify(a.marketId, r.outcome.price)] else []) +
                           [UpsertCompleted(Completion(a, io, r.outcome.price)), DeleteActive(KeyOf(a))]
    ensures Seqs.Subseq(r.stores.active, st.active)
  {
    var o := Classify(v, a, io);
    Seqs.SubseqRefl(st.active);
    StepResult(Apply(st, a, io, o), o, Effects(v, a, io, o))
  }

  /** A Telegram response that is not ok changes nothing: only a rejected
      call keeps the alert active. */
  lemma TelegramNotOkIsHarmless(v: Variant, st: Stores, a: Doc, io: AlertIO)
    ensures Step(v, st, a, io.(telegram := NotOk)) == Step(v, st, a, io.(telegram := Delivered))
  {
  }

  /** In `pollActiveAlerts` a hit is announced before the completed record is
      written, and a rejected announcement leaves both containers untouched. */
  lemma NotifyFirst(st: Stores, a: Doc, io: AlertIO)
    requires Classify(PollActiveAlerts, a, io).IsHit()
    ensures var r := Step(PollActiveAlerts, st, a, io);
            |r.effects| >= 1 && r.effects[0] == Notify(a.marketId, io.price.value) &&
            (io.telegram == Rejected ==> r.stores == st && r.effects == [Notify(a.marketId, io.price.value)])
  {
  }

  datatype TickResult = TickResult(stores: Stores, outcomes: seq<Outcome>, effects: seq<Effect>)

  /** The loop over the snapshot from position i on. */
  function RunFrom(v: Variant, snap: seq<Doc>, i: nat, st: Stores, io: nat -> AlertIO): TickResult
    decreases |snap| - i
  {
    if i >= |snap| then TickResult(st, [], [])
    else
      var s := Step(v, st, snap[i], io(i));
      var rest := RunFrom(v, snap, i + 1, s.stores, io);
      TickResult(rest.stores, [s.outcome] + rest.outcomes, s.effects + rest.effects)
  }

  /** The whole handler: list the active container, then run the loop over
      that list. A throwing list call ends the tick with nothing done. */
  function Tick(v: Variant, st: Stores, listing: StoreCall, io: nat -> AlertIO): TickResult {
    if listing.Failed? then TickResult(st, [], []) else RunFrom(v, st.active, 0, st, io)
  }

  /** The keys of the snapshot alerts (from position i) whose move completed. */
  ghost function MovedKeys(v: Variant, snap: seq<Doc>, i: nat, io: nat -> AlertIO): set<Key> {
    set j | i <= j < |snap| && Classify(v, snap[j], io(j)).Moved? :: KeyOf(snap[j])
  }

  /** The keys of the snapshot alerts (from position i) whose completed
      record was written. */
  ghost function CommittedKeys(v: Variant, snap: seq<Doc>, i: nat, io: nat -> AlertIO): set<Key> {
    set j | i <= j < |snap| && Classify(v, snap[j], io(j)).Committed() :: KeyOf(snap[j])
  }

  /** Every alert of the snapshot is processed exactly once, in order, and
      its outcome depends only on that alert and its own I/O: a failure on
      one alert never stops or changes the evaluation of the others. */
  lemma {:induction false} RunOutcomes(v: Variant, snap: seq<Doc>, i: nat, st: Stores, io: nat -> AlertIO)
    requires i <= |snap|
    ensures var r := RunFrom(v, snap, i, st, io);
            |r.outcomes| == |snap| - i &&
            forall j :: i <= j < |snap| ==> r.outcomes[j - i] == Classify(v, snap[j], io(j))
    decreases |snap| - i
  {
    if i < |snap| {
      var s := Step(v, st, snap[i], io(i));
      RunOutcomes(v, snap, i + 1, s.stores, io);
      var r := RunFrom(v, snap, i, st, io);
      var rest := RunFrom(v, snap, i + 1, s.stores, io);
      forall j | i + 1 <= j < |snap| ensures r.outcomes[j - i] == Classify(v, snap[j], io(j)) {
        assert r.outcomes[j - i] == rest.outcomes[j - (i + 1)];
      }
    }
  }

  /** After the loop an active document remains iff it was there before and
      no snapshot alert with its key completed its move; the active list only
      ever loses documents. */
  lemma {:induction false} RunActive(v: Variant, snap: seq<Doc>, i: nat, st: Stores, io: nat -> AlertIO)
    ensures var r := RunFrom(v, snap, i, st, io);
            (forall d :: d in r.stores.active <==> d in st.active && KeyOf(d) !in MovedKeys(v, snap, i, io)) &&
            Seqs.Subseq(r.stores.active, st.active)
    decreases |snap| - i
  {
    if i >= |snap| {
      Seqs.SubseqRefl(st.active);
    } else {
      var a := snap[i];
      var s := Step(v, st, a, io(i));
      RunActive(v, snap, i + 1, s.stores, io);
      var r := RunFrom(v, snap, i, st, io);
      assert r.stores == RunFrom(v, snap, i + 1, s.stores, io).stores;
      Seqs.SubseqTrans(r.stores.active, s.stores.active, st.active);
      var o := Classify(v, a, io(i));
      MovedKeysSplit(v, snap, i, io);
      if o.Moved? {
        assert forall d :: d in s.stores.active <==> d in st.active && KeyOf(d) != KeyOf(a);
      } else {
        assert s.stores.active == st.active;
      }
    }
  }

  lemma MovedKeysSplit(v: Variant, snap: seq<Doc>, i: nat, io: nat -> AlertIO)
    requires i < |snap|
    ensures MovedKeys(v, snap, i, io) ==
            MovedKeys(v, snap, i + 1, io) + (if Classify(v, snap[i], io(i)).Moved? then {KeyOf(snap[i])} else {})
  {
  }

  lemma CommittedKeysSplit(v: Variant, snap: seq<Doc>, i: nat, io: nat -> AlertIO)
    requires i < |snap|
    ensures CommittedKeys(v, snap, i, io) ==
            CommittedKeys(v, snap, i + 1, io) + (if Classify(v, snap[i], io(i)).Committed() then {KeyOf(snap[i])} else {})
  {
  }

  /** After the loop the completed container holds exactly the keys it held
      before plus those of the snapshot alerts whose record was written. */
  lemma {:induction false} RunCompleted(v: Variant, snap: seq<Doc>, i: nat, st: Stores, io: nat -> AlertIO)
    ensures var r := RunFrom(v, snap, i, st, io);
            KeySet(r.stores.completed, CompletedKey) == KeySet(st.completed, CompletedKey) + CommittedKeys(v, snap, i, io)
    decreases |snap| - i
  {
    if i < |snap| {
      var s := Step(v, st, snap[i], io(i));
      RunCompleted(v, snap, i + 1, s.stores, io);
      assert RunFrom(v, snap, i, st, io).stores == RunFrom(v, snap, i + 1, s.stores, io).stores;
      CommittedKeysSplit(v, snap, i, io);
      StepCompletedKeys(v, st, snap[i], io(i));
    }
  }

  lemma StepCompletedKeys(v: Variant, st: Stores, a: Doc, io: AlertIO)
    ensures KeySet(Step(v, st, a, io).stores.completed, CompletedKey) ==
            KeySet(st.completed, CompletedKey) + (if Classify(v, a, io).Committed() then {KeyOf(a)} else {})
  {
    var o := Classify(v, a, io);
    if o.Committed() {
      KeysAfterWrites(st.completed, CompletedKey, Completion(a, io, o.price), KeyOf(a));
    }
  }

  /** The tick never loses an alert: every document of the active list is,
      after the tick, still active or has a completed record under its key.
      A failed delete leaves it in both, the safe direction. */
  lemma TickLosesNothing(v: Variant, st: Stores, listing: StoreCall, io: nat -> AlertIO)
    ensures var r := Tick(v, st, listing, io);
            forall d :: d in st.active ==> d in r.stores.active || KeyOf(d) in KeySet(r.stores.completed, CompletedKey)
  {
    if listing.Done? {
      RunActive(v, st.active, 0, st, io);
      RunCompleted(v, st.active, 0, st, io);
      assert MovedKeys(v, st.active, 0, io) <= CommittedKeys(v, st.active, 0, io);
    }
  }

  /** Each alert whose move completed is, after the tick, absent from the
      active container and present in the completed one. */
  lemma TickMovesHits(v: Variant, st: Stores, io: nat -> AlertIO, j: nat)
    requires j < |st.active| && Classify(v, st.active[j], io(j)).Moved?
    ensures var r := Tick(v, st, Done, io);
            (forall d :: d in r.stores.active ==> KeyOf(d) != KeyOf(st.active[j])) &&
            KeyOf(st.active[j]) in KeySet(r.stores.completed, CompletedKey)
  {
    RunActive(v, st.active, 0, st, io);
    RunCompleted(v, st.active, 0, st, io);
    assert KeyOf(st.active[j]) in MovedKeys(v, st.active, 0, io);
    assert KeyOf(st.active[j]) in CommittedKeys(v, st.active, 0, io);
  }

  /** An invalid or missed alert is left exactly where it was. */
  lemma TickKeepsUntriggered(v: Variant, st: Stores, io: nat -> AlertIO, j: nat)
    requires j < |st.active|
    requires forall k :: 0 <= k < |st.active| && KeyOf(st.active[k]) == KeyOf(st.active[j]) ==>
               !Classify(v, st.active[k], io(k)).Moved?
    ensures st.active[j] in Tick(v, st, Done, io).stores.active
  {
    RunActive(v, st.active, 0, st, io);
  }

  /** The tick keeps the active container free of two alerts on one tuple. */
  lemma TickKeepsTuplesUnique(v: Variant, st: Stores, listing: StoreCall, io: nat -> AlertIO)
    requires NoDupTuples(st.active)
    ensures NoDupTuples(Tick(v, st, listing, io).stores.active)
  {
    if listing.Done? {
      RunActive(v, st.active, 0, st, io);
      NoDupTuplesSubseq(Tick(v, st, listing, io).stores.active, st.active);
    }
  }
}
