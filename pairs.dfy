/** What Dict::SetItems does to a dictionary's mapping: the flat list of
    items is read as (key, value) pairs, applied first to last. A pair whose
    key cannot be hashed is refused by PyDict_SetItem and the loop goes on
    with the next pair. */
module Pairs {
  import opened ObjectModel

  /** The key of a pair the dictionary accepts. */
  predicate Accepted(types: map<Ptr, Tag>, k: Ptr) {
    k in types && Hashable(types[k])
  }

  /** `m` after the pairs of `items` are stored in order. */
  function PutPairs(types: map<Ptr, Tag>, m: map<Ptr, Ptr>, items: seq<Ptr>): map<Ptr, Ptr>
    decreases |items|
  {
    if |items| < 2 then m
    else
      var n := |items|;
      var before := PutPairs(types, m, items[..n - 2]);
      if Accepted(types, items[n - 2]) then before[items[n - 2] := items[n - 1]] else before
  }

  /** One more pair at the end is one more store. */
  lemma PutPairsSnoc(types: map<Ptr, Tag>, m: map<Ptr, Ptr>, items: seq<Ptr>, k: Ptr, v: Ptr)
    requires |items| % 2 == 0
    ensures PutPairs(types, m, items + [k, v]) ==
      if Accepted(types, k) then PutPairs(types, m, items)[k := v] else PutPairs(types, m, items)
  {
    assert (items + [k, v])[..|items|] == items;
  }

  /** Storing the first `n` pairs and then pair `n`. */
  lemma PutPairsStep(types: map<Ptr, Tag>, m: map<Ptr, Ptr>, items: seq<Ptr>, n: nat)
    requires 2 * n + 1 < |items|
    ensures PutPairs(types, m, items[..2 * n + 2]) ==
      if Accepted(types, items[2 * n]) then PutPairs(types, m, items[..2 * n])[items[2 * n] := items[2 * n + 1]]
      else PutPairs(types, m, items[..2 * n])
  {
    var i := 2 * n;
    assert items[..i + 2] == items[..i] + [items[i], items[i + 1]];
    PutPairsSnoc(types, m, items[..i], items[i], items[i + 1]);
  }

  /** The invariant of the SetItems loop carried over one pair: a map that
      is the store of the first `n` pairs (or `m` untouched, when the target
      is not a dictionary) becomes the store of the first `n + 1`. */
  lemma PutPairsNext(types: map<Ptr, Tag>, m: map<Ptr, Ptr>, items: seq<Ptr>, n: nat, isDict: bool,
                     before: map<Ptr, Ptr>, after: map<Ptr, Ptr>)
    requires 2 * n + 1 < |items|
    requires before == if isDict then PutPairs(types, m, items[..2 * n]) else m
    requires after == if isDict && Accepted(types, items[2 * n]) then before[items[2 * n] := items[2 * n + 1]] else before
    ensures after == if isDict then PutPairs(types, m, items[..2 * (n + 1)]) else m
  {
    PutPairsStep(types, m, items, n);
  }

  /** The keys afterwards: the keys `m` had, and every accepted key that
      appears in a key position. */
  lemma {:induction false} PutPairsKeys(types: map<Ptr, Tag>, m: map<Ptr, Ptr>, items: seq<Ptr>, k: Ptr)
    requires |items| % 2 == 0
    ensures k in PutPairs(types, m, items) <==>
      k in m || (Accepted(types, k) && exists j :: 0 <= j < |items| && j % 2 == 0 && items[j] == k)
    decreases |items|
  {
    if items != [] {
      var n := |items|;
      var front := items[..n - 2];
      PutPairsKeys(types, m, front, k);
      if exists j :: 0 <= j < |items| && j % 2 == 0 && items[j] == k {
        var j :| 0 <= j < |items| && j % 2 == 0 && items[j] == k;
        if j < n - 2 {
          assert front[j] == k;
        }
      }
      if exists j :: 0 <= j < |front| && j % 2 == 0 && front[j] == k {
        var j :| 0 <= j < |front| && j % 2 == 0 && front[j] == k;
        assert items[j] == k;
      }
    }
  }

  /** The value stored for an accepted key is the value of the LAST pair
      that names it. */
  lemma {:induction false} PutPairsLastWins(types: map<Ptr, Tag>, m: map<Ptr, Ptr>, items: seq<Ptr>, j: nat)
    requires |items| % 2 == 0 && j % 2 == 0 && j + 1 < |items| && Accepted(types, items[j])
    requires forall i :: j < i < |items| && i % 2 == 0 ==> items[i] != items[j]
    ensures items[j] in PutPairs(types, m, items)
    ensures PutPairs(types, m, items)[items[j]] == items[j + 1]
    decreases |items|
  {
    var n := |items|;
    if j < n - 2 {
      var front := items[..n - 2];
      PutPairsLastWins(types, m, front, j);
      assert items[n - 2] != items[j];
    }
  }

  /** A key that no accepted pair names keeps whatever `m` had for it. */
  lemma {:induction false} PutPairsUntouched(types: map<Ptr, Tag>, m: map<Ptr, Ptr>, items: seq<Ptr>, k: Ptr)
    requires |items| % 2 == 0
    requires !Accepted(types, k) || forall i :: 0 <= i < |items| && i % 2 == 0 ==> items[i] != k
    ensures k in PutPairs(types, m, items) <==> k in m
    ensures k in m ==> PutPairs(types, m, items)[k] == m[k]
    decreases |items|
  {
    if items != [] {
      var n := |items|;
      var front := items[..n - 2];
      assert items[n - 2] != k || !Accepted(types, k);
      PutPairsUntouched(types, m, front, k);
    }
  }
}
