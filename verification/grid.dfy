/**
  Shared vocabulary of the board: optional values, cells, the plane's
  Manhattan distance, toroidal wrapping and the per-axis unit step that both
  simulation engines use to walk toward a target.
 */
module Grid {

  /** Python's `None` / a present value. */
  datatype Option<+T> = None | Some(value: T)

  /** A cell of the board, `(x, y)`. */
  type Pos = (int, int)

  /** A movement delta `(dx, dy)`. */
  type Delta = (int, int)

  function Abs(n: int): nat {
    if n < 0 then -n else n
  }

  /** `|ax - bx| + |ay - by|`: the distance both engines minimise; the
      wrap-around of the board is deliberately ignored, as in the source. */
  function Manhattan(a: Pos, b: Pos): nat {
    Abs(a.0 - b.0) + Abs(a.1 - b.1)
  }

  /** Python's `v % n` for a positive modulus: the representative of `v`
      modulo `n` in `[0, n)`. */
  function Wrap(v: int, n: int): (r: int)
    requires n > 0
    ensures 0 <= r < n
    ensures 0 <= v < n ==> r == v
  {
    v % n
  }

  /** `random.choice(xs)` driven by an oracle value: `pick` is reduced
      modulo the length, so every natural number names an element. */
  function Choose<T>(xs: seq<T>, pick: nat): (r: T)
    requires |xs| > 0
    ensures r in xs
  {
    xs[pick % |xs|]
  }

  /** The oracle can name every element: no choice is unreachable. */
  lemma ChooseCovers<T>(xs: seq<T>, k: nat)
    requires k < |xs|
    ensures Choose(xs, k) == xs[k]
  {
  }

  /** Python's `sum(xs)`. */
  function Sum(xs: seq<int>): int {
    if |xs| == 0 then 0 else Sum(xs[..|xs| - 1]) + xs[|xs| - 1]
  }

  /** One axis of "step toward": 0 when already level with the target,
      otherwise one unit in the direction of the target. */
  function Sign(from: int, to: int): (s: int)
    ensures -1 <= s <= 1
    ensures s == 0 <==> from == to
    ensures s > 0 <==> to > from
    ensures s < 0 <==> to < from
  {
    if from == to then 0 else if to > from then 1 else -1
  }

  /** Taking the step `Sign(from, to)` brings a coordinate one unit closer to
      its target unless it is already there. */
  lemma SignApproaches(from: int, to: int)
    ensures Abs(to - (from + Sign(from, to))) == if from == to then 0 else Abs(to - from) - 1
  {
  }

  /** Taking the opposite step moves one unit further away unless level. */
  lemma SignRecedes(from: int, to: int)
    ensures Abs(to - (from - Sign(from, to))) == if from == to then 0 else Abs(to - from) + 1
  {
  }

  /** A sum of non-negative terms is non-negative. */
  lemma {:induction false} SumNonNegative(xs: seq<int>)
    requires forall m :: 0 <= m < |xs| ==> xs[m] >= 0
    ensures Sum(xs) >= 0
  {
    if |xs| > 0 {
      SumNonNegative(xs[..|xs| - 1]);
    }
  }

  /** A strictly increasing list of indices: a filter's picks in list order. */
  ghost predicate Increasing(xs: seq<nat>) {
    forall a, b :: 0 <= a < b < |xs| ==> xs[a] < xs[b]
  }
}
