/** Option and Result, for the source's nil-able values and error returns, and what it means to filter a list. */
module Wrappers {

  datatype Option<+T> = None | Some(value: T)

  datatype Result<+T, +E> = Success(value: T) | Failure(error: E)

  ghost predicate Increasing(at: seq<nat>) {
    forall i, j :: 0 <= i < j < |at| ==> at[i] < at[j]
  }

  /** `at` lists, in order and each once, exactly the places of the elements that have the property. */
  ghost predicate Places<T(!new)>(xs: seq<T>, p: T -> bool, at: seq<nat>) {
    && Increasing(at)
    && forall k: nat :: k in at <==> k < |xs| && p(xs[k])
  }

  lemma PlacesNext<T(!new)>(xs: seq<T>, p: T -> bool, before: seq<nat>, at: seq<nat>)
    requires xs != [] && Places(xs[..|xs| - 1], p, before)
    requires at == if p(xs[|xs| - 1]) then before + [|xs| - 1] else before
    ensures Places(xs, p, at) && forall k :: k in before ==> k < |xs| - 1
  {
    var n := |xs| - 1;
    assert forall i :: 0 <= i < |before| ==> before[i] in before && before[i] < n;
    forall k: nat ensures k in at <==> k < |xs| && p(xs[k]) {
      assert k in before <==> k < n && p(xs[..n][k]);
    }
  }
}
