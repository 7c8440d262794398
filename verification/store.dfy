/** The document store behind the Functions handlers: an active container
    and a completed container of alert documents, each addressed by
    `(id, marketId)`. Only `upsert` and `delete` by key are modelled; whether
    a call succeeds is decided by the caller's oracle. */
module AlertStore {
  import opened Alerts
  import Seqs

  datatype Stores = Stores(active: seq<Doc>, completed: seq<Completed>)

  /** Removes every document stored under `k`, keeping the others in order. */
  function Delete<T(!new)>(xs: seq<T>, key: T -> Key, k: Key): (r: seq<T>)
    ensures forall x :: x in r <==> x in xs && key(x) != k
    ensures Seqs.Subseq(r, xs)
  {
    Seqs.Filter(x => key(x) != k, xs)
  }

  /** Inserts `x`, replacing whatever was stored under its key. */
  function Upsert<T(!new)>(xs: seq<T>, key: T -> Key, x: T): (r: seq<T>)
    ensures x in r
    ensures forall y :: y in r <==> y == x || (y in xs && key(y) != key(x))
    ensures forall i :: 0 <= i < |r| && key(r[i]) == key(x) ==> r[i] == x
    ensures (forall y :: y in xs ==> key(y) != key(x)) ==> r == xs + [x]
  {
    var kept := Delete(xs, key, key(x));
    assert (forall y :: y in xs ==> key(y) != key(x)) ==> kept == xs by {
      if forall y :: y in xs ==> key(y) != key(x) {
        assert forall i :: 0 <= i < |xs| ==> key(xs[i]) != key(x) by {
          forall i | 0 <= i < |xs| ensures key(xs[i]) != key(x) {
            assert xs[i] in xs;
          }
        }
      }
    }
    var r := kept + [x];
    assert forall i :: 0 <= i < |kept| ==> key(kept[i]) != key(x) by {
      forall i | 0 <= i < |kept| ensures key(kept[i]) != key(x) {
        assert kept[i] in kept;
      }
    }
    r
  }

  /** The keys under which some document is stored. */
  function KeySet<T(==,!new)>(xs: seq<T>, key: T -> Key): (r: set<Key>)
    ensures forall x :: x in xs ==> key(x) in r
    ensures forall k :: k in r ==> exists x :: x in xs && key(x) == k
  {
    set x | x in xs :: key(x)
  }

  /** Upserting never removes a key; deleting removes exactly one. */
  lemma KeysAfterWrites<T(!new)>(xs: seq<T>, key: T -> Key, x: T, k: Key)
    ensures KeySet(Upsert(xs, key, x), key) == KeySet(xs, key) + {key(x)}
    ensures KeySet(Delete(xs, key, k), key) == KeySet(xs, key) - {k}
  {
    var u := Upsert(xs, key, x);
    assert forall j :: j in KeySet(xs, key) + {key(x)} ==> j in KeySet(u, key) by {
      forall j | j in KeySet(xs, key) + {key(x)} ensures j in KeySet(u, key) {
        if j != key(x) {
          var y :| y in xs && key(y) == j;
          assert y in u;
        }
      }
    }
    var d := Delete(xs, key, k);
    assert forall j :: j in KeySet(xs, key) - {k} ==> j in KeySet(d, key) by {
      forall j | j in KeySet(xs, key) - {k} ensures j in KeySet(d, key) {
        var y :| y in xs && key(y) == j;
        assert y in d;
      }
    }
  }
}
