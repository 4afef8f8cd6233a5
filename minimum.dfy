/**
 * The running-minimum searches the scripts write by hand: start from "infinity", scan left to
 * right and replace the best candidate only on a strictly smaller value, so ties keep the
 * earliest candidate.
 */
module Minimum {
  import opened Wrappers

  /** The index the scan settles on: the first of the smallest values, or None for no values. */
  function FirstMin(ds: seq<real>): (r: Option<nat>)
    ensures r.None? <==> |ds| == 0
    ensures r.Some? ==> IsFirstMin(ds, r.value)
    decreases |ds|
  {
    if |ds| == 0 then None
    else
      var best := FirstMin(ds[..|ds| - 1]);
      if best.None? || ds[|ds| - 1] < ds[best.value] then Some(|ds| - 1) else best
  }

  /** k holds a smallest value and every earlier value is strictly larger. */
  predicate IsFirstMin(ds: seq<real>, k: nat) {
    && k < |ds|
    && (forall j :: 0 <= j < |ds| ==> ds[k] <= ds[j])
    && (forall j :: 0 <= j < k ==> ds[j] > ds[k])
  }

  /** The first minimum is unique, so FirstMin is the only answer a left-to-right scan can give. */
  lemma {:induction false} FirstMinUnique(ds: seq<real>, k: nat)
    requires IsFirstMin(ds, k)
    ensures FirstMin(ds) == Some(k)
  {
  }

  /** Extending the scanned prefix by one value: the loop step of every running-minimum search. */
  lemma {:induction false} FirstMinStep(ds: seq<real>, i: nat)
    requires i < |ds|
    ensures var best := FirstMin(ds[..i]);
      FirstMin(ds[..i + 1]) == if best.None? || ds[i] < ds[best.value] then Some(i) else best
  {
    assert ds[..i + 1][..i] == ds[..i];
  }

  /** The closest-vertex index of the route scripts: the first minimum, or 0 for no vertices. */
  function ClosestIndex(ds: seq<real>): (k: nat)
    ensures |ds| > 0 ==> IsFirstMin(ds, k)
    ensures |ds| == 0 ==> k == 0
  {
    match FirstMin(ds)
    case None => 0
    case Some(k) => k
  }
}
