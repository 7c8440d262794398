/** The React client's alert form and list: digit sanitising of the
    threshold field, the threshold it denotes, the threshold-error rule that
    gates submission, the client-side duplicate check and append, and the
    validity filter applied to loaded alerts. */
module Frontend {
  import opened JsValues
  import opened Wrappers
  import opened Alerts
  import opened Creation
  import opened Queries
  import Seqs

  predicate IsDigit(c: char) {
    '0' <= c <= '9'
  }

  predicate IsDigits(s: string) {
    forall i :: 0 <= i < |s| ==> IsDigit(s[i])
  }

  /** `value.replace(/[^0-9]/g, "").slice(0, 2)` */
  function Sanitize(input: string): (r: string)
    ensures IsDigits(r) && |r| <= 2
    ensures r <= Seqs.Filter(IsDigit, input)
    ensures |r| == if |Seqs.Filter(IsDigit, input)| < 2 then |Seqs.Filter(IsDigit, input)| else 2
  {
    var digits := Seqs.Filter(IsDigit, input);
    digits[..if |digits| < 2 then |digits| else 2]
  }

  /** Sanitising a sanitised value changes nothing. */
  lemma SanitizeIdempotent(input: string)
    ensures Sanitize(Sanitize(input)) == Sanitize(input)
  {
    var s := Sanitize(input);
    assert Seqs.Filter(IsDigit, s) == s;
  }

  function DigitValue(c: char): nat
    requires IsDigit(c)
  {
    c as int - '0' as int
  }

  /** The form's numeric threshold `parseFloat(\`0.${thresholdDigits}\`)`,
      for the digit strings the field holds (its initial "20" or a
      sanitised input). */
  function Threshold(d: string): (r: real)
    requires IsDigits(d)
    ensures 0.0 <= r < 1.0
    decreases |d|
  {
    if d == [] then 0.0 else (DigitValue(d[0]) as real + Threshold(d[1..])) / 10.0
  }

  /** "" is 0, "d" is d/10, "de" is (10d+e)/100; so a field value lies in
      [0, 0.99]. */
  lemma ThresholdOfDigits(d: string)
    requires IsDigits(d) && |d| <= 2
    ensures |d| == 0 ==> Threshold(d) == 0.0
    ensures |d| == 1 ==> Threshold(d) == DigitValue(d[0]) as real / 10.0
    ensures |d| == 2 ==> Threshold(d) == (10 * DigitValue(d[0]) + DigitValue(d[1])) as real / 100.0
    ensures 0.0 <= Threshold(d) <= 0.99
  {
    if |d| == 1 {
      assert d[1..] == [];
      assert Threshold(d[1..]) == 0.0;
    } else if |d| == 2 {
      assert d[1..][1..] == [];
      assert Threshold(d[1..]) == DigitValue(d[1]) as real / 10.0;
    }
  }

  /** The inline error message under the threshold field. */
  datatype ThresholdError = NoError | AboveError | BelowError

  /** The rule: no market detail, no error; for "above" the threshold must
      exceed the displayed price and be at most 0.99; otherwise it must be at
      least 0.01 and below the displayed price. The displayed price is a
      number, NaN when the selected outcome's price did not parse. */
  function CheckThreshold(hasDetail: bool, direction: string, threshold: real, displayedPrice: JValue): (e: ThresholdError)
    ensures !hasDetail ==> e == NoError
    ensures hasDetail && displayedPrice.Num? && direction == "above" ==>
              (e == NoError <==> displayedPrice.x < threshold <= 0.99)
    ensures hasDetail && displayedPrice.Num? && direction != "above" ==>
              (e == NoError <==> 0.01 <= threshold < displayedPrice.x)
    ensures hasDetail && displayedPrice.NaN? ==>
              (e == NoError <==> if direction == "above" then threshold <= 0.99 else threshold >= 0.01)
  {
    var t := Num(threshold);
    if !hasDetail then NoError
    else if direction == "above" then
      if LessEq(t, displayedPrice) || threshold > 0.99 then AboveError else NoError
    else
      if threshold < 0.01 || GreaterEq(t, displayedPrice) then BelowError else NoError
  }

  /** `isSubmitDisabled = Boolean(thresholdError)` */
  predicate SubmitDisabled(e: ThresholdError) {
    e != NoError
  }

  /** With a market selected and a non-negative displayed price, a threshold
      the form lets through passes the backend's range check, so an enabled
      submit with a known direction is not refused for its range. */
  lemma EnabledSubmitPassesValidation(d: string, direction: string, displayedPrice: real,
                                      marketId: string, outcomeIndex: int)
    requires IsDigits(d) && |d| <= 2 && displayedPrice >= 0.0
    requires direction == "above" || direction == "below"
    requires !SubmitDisabled(CheckThreshold(true, direction, Threshold(d), Num(displayedPrice)))
    ensures 0.0 < Threshold(d) < 1.0
    ensures IsValidAlert(Probe(Request(Str(marketId), Num(outcomeIndex as real), Num(Threshold(d)), Str(direction))))
  {
    ThresholdOfDigits(d);
    assert (outcomeIndex as real).Floor == outcomeIndex;
  }

  /** The rule does not guard the range in two cases: without market detail
      nothing is checked, and with a NaN displayed price "above" accepts any
      threshold up to 0.99 (and "below" any from 0.01); an empty field (threshold 0) then goes out, and
      the backend refuses it. */
  lemma UncheckedZeroThreshold(direction: string, displayedPrice: JValue, marketId: string)
    ensures Threshold("") == 0.0
    ensures !SubmitDisabled(CheckThreshold(false, direction, Threshold(""), displayedPrice))
    ensures !SubmitDisabled(CheckThreshold(true, "above", Threshold(""), NaN))
    ensures !IsValidAlert(Probe(Request(Str(marketId), Num(0.0), Num(Threshold("")), Str(direction))))
  {
  }

  /** The form state the submit handler reads. */
  datatype Form = Form(marketId: string, outcomeIndex: int, thresholdDigits: string, direction: string)

  /** An alert as the client lists it. */
  datatype ClientAlert = ClientAlert(alert: Doc, question: JValue, labelText: JValue, triggered: bool)

  /** The POST body built from the form. */
  function Payload(form: Form): Request
    requires IsDigits(form.thresholdDigits)
  {
    Request(Str(form.marketId), Num(form.outcomeIndex as real), Num(Threshold(form.thresholdDigits)), Str(form.direction))
  }

  /** The client-side duplicate check over the listed alerts. */
  predicate ClientDuplicate(list: seq<ClientAlert>, form: Form)
    requires IsDigits(form.thresholdDigits)
  {
    exists i :: 0 <= i < |list| && Matches(list[i].alert, RequestTuple(Payload(form)))
  }

  /** `det.outcomes[i]?.label || ""` */
  function LabelAt(outcomes: seq<OutcomeEntry>, index: JValue): JValue {
    if IsInteger(index) && 0 <= index.x.Floor < |outcomes| && Truthy(outcomes[index.x.Floor].labelText)
    then outcomes[index.x.Floor].labelText
    else Str("")
  }

  /** An alert enriched with its market's question and outcome label. */
  function Enrich(a: Doc, det: Detail): (c: ClientAlert)
    ensures c.alert == a && !c.triggered
  {
    ClientAlert(a, det.question, LabelAt(det.outcomes, a.outcomeIndex), false)
  }

  /** The server's reply to the POST: a failure (network error or a non-ok
      status), or the created alert plus the follow-up detail fetch. */
  datatype Reply = Refused | Accepted(alert: Doc, detail: Result<Detail>)

  datatype SubmitResult = SubmitResult(list: seq<ClientAlert>, status: string, sent: Option<Request>)

  /** `handleSubmit`: a duplicate sends nothing; otherwise the payload is
      posted and, once the created alert and its detail arrive, exactly that
      alert is appended, not yet triggered. */
  function Submit(list: seq<ClientAlert>, form: Form, reply: Reply): (r: SubmitResult)
    requires IsDigits(form.thresholdDigits)
    ensures ClientDuplicate(list, form) ==> r.sent.None? && r.list == list
    ensures !ClientDuplicate(list, form) ==> r.sent == Some(Payload(form))
    ensures r.list == list || (|r.list| == |list| + 1 && r.list[..|list|] == list)
    ensures |r.list| == |list| + 1 <==>
              !ClientDuplicate(list, form) && reply.Accepted? && reply.detail.Ok?
    ensures |r.list| == |list| + 1 ==>
              r.list[|list|] == Enrich(reply.alert, reply.detail.value) && !r.list[|list|].triggered
  {
    if ClientDuplicate(list, form) then
      SubmitResult(list, "You already have that alert.", None)
    else
      var sent := Some(Payload(form));
      match reply
      case Refused => SubmitResult(list, "Failed to create alert.", sent)
      case Accepted(a, Threw) => SubmitResult(list, "Failed to create alert.", sent)
      case Accepted(a, Ok(det)) =>
        var r := list + [Enrich(a, det)];
        assert r[..|list|] == list;
        SubmitResult(r, "Alert created! \U{1F389}", sent)
  }

  /** A listed alert blocks a second submit of the same form. */
  lemma SubmitTwice(list: seq<ClientAlert>, form: Form, a: Doc, det: Detail, reply2: Reply)
    requires IsDigits(form.thresholdDigits) && !ClientDuplicate(list, form)
    requires Matches(a, RequestTuple(Payload(form)))
    ensures var first := Submit(list, form, Accepted(a, Ok(det)));
            var second := Submit(first.list, form, reply2);
            second.sent.None? && second.list == first.list
  {
    var first := Submit(list, form, Accepted(a, Ok(det)));
    assert first.list[|list|].alert == a;
  }

  /** Every raw alert enriched with its own detail. */
  function EnrichAll(raw: seq<Doc>, details: seq<Detail>): (r: seq<ClientAlert>)
    requires |details| == |raw|
    ensures |r| == |raw|
    ensures forall i :: 0 <= i < |raw| ==> r[i] == Enrich(raw[i], details[i])
  {
    if raw == [] then [] else [Enrich(raw[0], details[0])] + EnrichAll(raw[1..], details[1..])
  }

  /** The client-side `isValidAlert`: the same checks, on the listed alert. */
  predicate ClientValid(c: ClientAlert) {
    IsValidAlert(c.alert)
  }

  /** The mount-time load: fetch the active alerts, fetch every alert's market
      detail, and list the valid ones. If any fetch fails the list is left as
      it was. */
  function Load(list: seq<ClientAlert>, raw: Result<seq<Doc>>, details: nat -> Result<Detail>): (r: seq<ClientAlert>)
    ensures raw.Threw? ==> r == list
    ensures raw.Ok? && (exists i :: 0 <= i < |raw.value| && details(i).Threw?) ==> r == list
    ensures raw.Ok? && (forall i :: 0 <= i < |raw.value| ==> details(i).Ok?) ==>
              && (forall c :: c in r ==> ClientValid(c) && !c.triggered)
              && (forall i :: 0 <= i < |raw.value| && IsValidAlert(raw.value[i]) ==>
                    Enrich(raw.value[i], details(i).value) in r)
              && Seqs.Subseq(r, EnrichAll(raw.value, seq(|raw.value|, i requires 0 <= i < |raw.value| => details(i).value)))
  {
    match raw
    case Threw => list
    case Ok(alerts) =>
      if exists i :: 0 <= i < |alerts| && details(i).Threw? then list
      else
        var dets := seq(|alerts|, i requires 0 <= i < |alerts| => details(i).value);
        var enriched := EnrichAll(alerts, dets);
        assert forall i :: 0 <= i < |alerts| ==> enriched[i] in enriched;
        Seqs.Filter(ClientValid, enriched)
  }
}
