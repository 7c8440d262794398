/** Alert documents as the store and the handlers see them, the validity
    predicate `isValidAlert`, and the `(marketId, outcomeIndex, threshold,
    direction)` tuple every creation path deduplicates on. */
module Alerts {
  import opened JsValues
  import opened Wrappers
  import Seqs

  /** An alert document. Every field is an arbitrary JavaScript value: the
      store holds whatever was written, and readers validate. */
  datatype Doc = Doc(
    id: JValue,
    marketId: JValue,
    outcomeIndex: JValue,
    threshold: JValue,
    direction: JValue)

  /** A completed-alert document: the active alert's fields plus the two
      completion fields. */
  datatype Completed = Completed(alert: Doc, completedAt: string, completedPrice: JValue)

  /** Store documents are addressed by id within their marketId partition. */
  datatype Key = Key(id: JValue, marketId: JValue)

  function KeyOf(d: Doc): Key {
    Key(d.id, d.marketId)
  }

  function CompletedKey(c: Completed): Key {
    KeyOf(c.alert)
  }

  /** `isValidAlert`: a conjunction of type checks and the threshold range. */
  predicate IsValidAlert(a: Doc) {
    && a.id.Str?
    && a.marketId.Str?
    && IsInteger(a.outcomeIndex)
    && (a.direction == Str("above") || a.direction == Str("below"))
    && IsNumber(a.threshold)
    && Greater(a.threshold, Num(0.0)) && Less(a.threshold, Num(1.0))
  }

  // A typed view of a valid alert, used to characterise IsValidAlert.

  datatype Direction = Above | Below

  datatype Alert = Alert(
    id: string,
    marketId: string,
    outcomeIndex: int,
    threshold: real,
    direction: Direction)

  function DirectionName(d: Direction): string {
    match d
    case Above => "above"
    case Below => "below"
  }

  function ToDoc(a: Alert): Doc {
    Doc(Str(a.id), Str(a.marketId), Num(a.outcomeIndex as real),
        Num(a.threshold), Str(DirectionName(a.direction)))
  }

  /** Reads a document as a typed alert, refusing exactly what
      `isValidAlert` refuses. */
  function Decode(d: Doc): (r: Option<Alert>)
    ensures r.Some? <==> IsValidAlert(d)
    ensures r.Some? ==> ToDoc(r.value) == d
    ensures r.Some? ==> 0.0 < r.value.threshold < 1.0
  {
    match (d.id, d.marketId, d.outcomeIndex, d.threshold, d.direction)
    case (Str(id), Str(m), Num(i), Num(t), Str(dir)) =>
      if i == i.Floor as real && 0.0 < t < 1.0 && (dir == "above" || dir == "below")
      then Some(Alert(id, m, i.Floor, t, if dir == "above" then Above else Below))
      else None
    case _ => None
  }

  /** Every typed alert with a threshold strictly inside (0, 1) is valid and
      decodes back to itself; no other typed alert is valid. */
  lemma EncodeDecode(a: Alert)
    ensures IsValidAlert(ToDoc(a)) <==> 0.0 < a.threshold < 1.0
    ensures 0.0 < a.threshold < 1.0 ==> Decode(ToDoc(a)) == Some(a)
  {
    var d := ToDoc(a);
    assert (a.outcomeIndex as real).Floor == a.outcomeIndex;
    if 0.0 < a.threshold < 1.0 {
      assert Decode(d).Some?;
      var b := Decode(d).value;
      assert ToDoc(b) == d;
      assert b.direction == a.direction by {
        assert DirectionName(b.direction) == DirectionName(a.direction);
      }
    }
  }

  /** The range is open: thresholds exactly 0 and exactly 1 are refused. */
  lemma ThresholdBoundsExcluded(d: Doc)
    requires d.threshold == Num(0.0) || d.threshold == Num(1.0)
    ensures !IsValidAlert(d)
  {
  }

  /** Only types are checked: an empty market id and a negative index pass. */
  lemma TypeOnlyChecks(id: string, t: real)
    requires 0.0 < t < 1.0
    ensures IsValidAlert(Doc(Str(id), Str(""), Num(-3.0), Num(t), Str("above")))
  {
  }

  /** The tuple a duplicate check compares. */
  datatype Tuple = Tuple(marketId: JValue, outcomeIndex: JValue, threshold: JValue, direction: JValue)

  function TupleOf(d: Doc): Tuple {
    Tuple(d.marketId, d.outcomeIndex, d.threshold, d.direction)
  }

  /** `===` between a stored field and a compared field. The two sides never
      come from the same JSON parse (a listing against a request body, or a
      long-lived in-memory list against a socket payload), so an object on
      either side is a different object from anything on the other. */
  predicate FieldEq(stored: JValue, other: JValue) {
    !stored.Obj? && !other.Obj? && StrictEq(stored, other)
  }

  /** The `.some(...)` callback of the duplicate checks: field-wise `===`. */
  predicate Matches(a: Doc, t: Tuple) {
    && FieldEq(a.marketId, t.marketId)
    && FieldEq(a.outcomeIndex, t.outcomeIndex)
    && FieldEq(a.threshold, t.threshold)
    && FieldEq(a.direction, t.direction)
  }

  /** An object-valued field never matches, even one with the same contents. */
  lemma ObjectFieldsNeverMatch(a: Doc, t: Tuple)
    requires a.outcomeIndex.Obj? || t.outcomeIndex.Obj? || a.threshold.Obj? || t.threshold.Obj?
    ensures !Matches(a, t)
  {
  }

  /** `docs.some(a => Matches(a, t))` */
  predicate HasDuplicate(docs: seq<Doc>, t: Tuple) {
    exists i :: 0 <= i < |docs| && Matches(docs[i], t)
  }

  /** The duplicate test ignores the document's id, and it is symmetric. */
  lemma MatchIgnoresId(a: Doc, b: Doc, id: JValue)
    ensures Matches(a.(id := id), TupleOf(b)) <==> Matches(a, TupleOf(b))
    ensures Matches(a, TupleOf(b)) <==> Matches(b, TupleOf(a))
  {
  }

  /** No two documents share a tuple: at most one alert per condition. */
  predicate NoDupTuples(docs: seq<Doc>)
    decreases |docs|
  {
    docs == [] ||
    ((forall y :: y in docs[1..] ==> !Matches(y, TupleOf(docs[0]))) && NoDupTuples(docs[1..]))
  }

  lemma {:induction false} NoDupTuplesSubseq(xs: seq<Doc>, ys: seq<Doc>)
    requires Seqs.Subseq(xs, ys) && NoDupTuples(ys)
    ensures NoDupTuples(xs)
    decreases |ys|
  {
    if xs != [] {
      if xs[0] == ys[0] && Seqs.Subseq(xs[1..], ys[1..]) {
        Seqs.SubseqMembers(xs[1..], ys[1..]);
        NoDupTuplesSubseq(xs[1..], ys[1..]);
      } else {
        NoDupTuplesSubseq(xs, ys[1..]);
      }
    }
  }

  lemma {:induction false} NoDupTuplesAppend(xs: seq<Doc>, x: Doc)
    requires NoDupTuples(xs) && !HasDuplicate(xs, TupleOf(x))
    ensures NoDupTuples(xs + [x])
    decreases |xs|
  {
    if xs != [] {
      assert (xs + [x])[1..] == xs[1..] + [x];
      assert !Matches(xs[0], TupleOf(x));
      MatchIgnoresId(x, xs[0], x.id);
      assert !HasDuplicate(xs[1..], TupleOf(x)) by {
        forall i | 0 <= i < |xs[1..]|
          ensures !Matches(xs[1..][i], TupleOf(x))
        {
          assert xs[1..][i] == xs[i + 1];
        }
      }
      NoDupTuplesAppend(xs[1..], x);
    } else {
      assert xs + [x] == [x];
    }
  }
}
