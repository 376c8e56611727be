/**
  Python's `min(xs, key=k)` and `max(xs, key=k)`: both scan left to right and
  replace the current best only on a strict improvement, so among equal keys
  the EARLIEST element wins. Both engines rely on that tie-break (nearest
  neighbour, nearest deposit, richest role, most lethal territory).
 */
module Extremum {

  /** `k` is the first position of a least key in `xs`. */
  ghost predicate IsFirstMin<T>(xs: seq<T>, key: T -> int, k: nat) {
    && k < |xs|
    && (forall j :: 0 <= j < |xs| ==> key(xs[k]) <= key(xs[j]))
    && (forall j :: 0 <= j < k ==> key(xs[k]) < key(xs[j]))
  }

  /** Index chosen by `min(xs, key=key)`. */
  function MinIndex<T>(xs: seq<T>, key: T -> int): (k: nat)
    requires |xs| > 0
    ensures k < |xs|
    ensures forall j :: 0 <= j < |xs| ==> key(xs[k]) <= key(xs[j])
    ensures forall j :: 0 <= j < k ==> key(xs[k]) < key(xs[j])
    decreases |xs|
  {
    if |xs| == 1 then 0
    else
      var best := MinIndex(xs[..|xs| - 1], key);
      if key(xs[|xs| - 1]) < key(xs[best]) then |xs| - 1 else best
  }

  /** The first least element is unique, so any index with that property is
      the one `min` returns. */
  lemma MinIndexUnique<T>(xs: seq<T>, key: T -> int, k: nat)
    requires IsFirstMin(xs, key, k)
    ensures MinIndex(xs, key) == k
  {
  }

  /** Index chosen by `max(xs, key=key)`: the first greatest key. */
  function MaxIndex<T>(xs: seq<T>, key: T -> int): (k: nat)
    requires |xs| > 0
    ensures k < |xs|
    ensures forall j :: 0 <= j < |xs| ==> key(xs[j]) <= key(xs[k])
    ensures forall j :: 0 <= j < k ==> key(xs[j]) < key(xs[k])
  {
    MinIndex(xs, x => -key(x))
  }
}
