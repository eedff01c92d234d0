/**
 The module-level `argmax` helper and the `max` of a list of Q-values, as the
 agent uses them. Python's `max` scans left to right and replaces its champion
 only on a strictly larger element, so ties go to the earliest position.
 */
module Maximum {

  /** i is the first position of xs holding a maximal element. */
  ghost predicate IsFirstMax(xs: seq<real>, i: int) {
    && 0 <= i < |xs|
    && (forall j :: 0 <= j < |xs| ==> xs[j] <= xs[i])
    && (forall j :: 0 <= j < i ==> xs[j] < xs[i])
  }

  /** Index of the first maximal element; Python's `max` raises on an empty list. */
  function ArgMax(xs: seq<real>): (i: nat)
    requires |xs| > 0
    ensures IsFirstMax(xs, i)
  {
    Scan(xs, 0, 1)
  }

  /**
   One step of the scan: `best` is the champion among xs[..k]. The champion is
   replaced only when xs[k] is strictly larger.
   */
  function Scan(xs: seq<real>, best: nat, k: nat): (i: nat)
    requires best < k <= |xs|
    requires forall j :: 0 <= j < k ==> xs[j] <= xs[best]
    requires forall j :: 0 <= j < best ==> xs[j] < xs[best]
    ensures IsFirstMax(xs, i)
    decreases |xs| - k
  {
    if k == |xs| then best
    else if xs[k] > xs[best] then Scan(xs, k, k + 1)
    else Scan(xs, best, k + 1)
  }

  /** There is only one first maximum, so ArgMax is pinned down by IsFirstMax. */
  lemma ArgMaxUnique(xs: seq<real>, i: int)
    requires IsFirstMax(xs, i)
    ensures ArgMax(xs) == i
  {
  }

  /** The largest element of a non-empty list. */
  function Max(xs: seq<real>): (m: real)
    requires |xs| > 0
    ensures forall j :: 0 <= j < |xs| ==> xs[j] <= m
    ensures exists j :: 0 <= j < |xs| && xs[j] == m
  {
    xs[ArgMax(xs)]
  }
}
