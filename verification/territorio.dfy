/**
  Territories: named, typed, inclusive axis-aligned rectangles of the board
  (territorio.py), and the first-match lookup of the territory under a cell
  (`territorio_en_posicion`, utils.py).
 */
module Territories {
  import opened Grid

  /** Type tags that change behaviour elsewhere. */
  const Forest: string := "bosque"
  const City: string := "ciudad"
  const Mountain: string := "montaña"

  datatype Territory = Territory(name: string, kind: string, xMin: int, xMax: int, yMin: int, yMax: int)
  {
    /** `contiene(x, y)`. */
    predicate Contains(x: int, y: int) {
      xMin <= x <= xMax && yMin <= y <= yMax
    }

    /** `rango()`: the lower-left and upper-right corners. */
    function Range(): (r: (Pos, Pos))
      ensures r.0 == (xMin, yMin) && r.1 == (xMax, yMax)
      ensures Contains(r.0.0, r.0.1) <==> xMin <= xMax && yMin <= yMax
      ensures Contains(r.1.0, r.1.1) <==> xMin <= xMax && yMin <= yMax
      ensures forall x, y :: Contains(x, y) <==> r.0.0 <= x <= r.1.0 && r.0.1 <= y <= r.1.1
    {
      ((xMin, yMin), (xMax, yMax))
    }

    /** A well-formed rectangle (non-empty on both axes). */
    predicate WellFormed() {
      xMin <= xMax && yMin <= yMax
    }
  }

  /** Both bounds are inclusive: a point is inside exactly when each
      coordinate lies between the bounds, and a point one step beyond either
      bound of either axis is outside. */
  lemma ContainsInclusive(t: Territory, x: int, y: int)
    ensures t.Contains(x, y) ==> t.Contains(x, t.yMin) && t.Contains(x, t.yMax)
    ensures t.Contains(x, y) ==> t.Contains(t.xMin, y) && t.Contains(t.xMax, y)
    ensures !t.Contains(t.xMin - 1, y) && !t.Contains(t.xMax + 1, y)
    ensures !t.Contains(x, t.yMin - 1) && !t.Contains(x, t.yMax + 1)
  {
  }

  /** An inverted rectangle contains no point at all. */
  lemma InvertedIsEmpty(t: Territory)
    requires !t.WellFormed()
    ensures forall x, y :: !t.Contains(x, y)
  {
  }

  /** A well-formed rectangle contains both of its corners. */
  lemma CornersContained(t: Territory)
    requires t.WellFormed()
    ensures t.Contains(t.xMin, t.yMin) && t.Contains(t.xMax, t.yMax)
  {
  }

  /** Index of the first territory in list order that contains `(x, y)`. */
  function IndexAt(x: int, y: int, ts: seq<Territory>): (r: Option<nat>)
    ensures r.None? <==> forall i :: 0 <= i < |ts| ==> !ts[i].Contains(x, y)
    ensures r.Some? ==> r.value < |ts| && ts[r.value].Contains(x, y)
    ensures r.Some? ==> forall i :: 0 <= i < r.value ==> !ts[i].Contains(x, y)
  {
    if |ts| == 0 then None
    else if ts[0].Contains(x, y) then Some(0)
    else match IndexAt(x, y, ts[1..])
      case None => None
      case Some(i) => Some(i + 1)
  }

  /** `territorio_en_posicion(x, y, ts)`: the first containing territory;
      overlaps are resolved by list order. */
  function TerritoryAt(x: int, y: int, ts: seq<Territory>): (r: Option<Territory>)
    ensures r.None? <==> forall t :: t in ts ==> !t.Contains(x, y)
    ensures r.Some? ==> r.value in ts && r.value.Contains(x, y)
    ensures r.Some? ==> exists k :: 0 <= k < |ts| && ts[k] == r.value && forall i :: 0 <= i < k ==> !ts[i].Contains(x, y)
  {
    match IndexAt(x, y, ts)
    case None => None
    case Some(i) => Some(ts[i])
  }

  /** The lookup is determined by the first containing territory: any
      territory at a position where no earlier one contains the point is the
      answer. */
  lemma TerritoryAtFirstMatch(x: int, y: int, ts: seq<Territory>, k: nat)
    requires k < |ts| && ts[k].Contains(x, y)
    requires forall i :: 0 <= i < k ==> !ts[i].Contains(x, y)
    ensures TerritoryAt(x, y, ts) == Some(ts[k])
  {
  }

  /** Name of the first territory containing `(x, y)`, if any (`terr.nombre
      if terr else None`). */
  function TerritoryName(x: int, y: int, ts: seq<Territory>): (r: Option<string>)
    ensures r.None? <==> TerritoryAt(x, y, ts).None?
    ensures r.Some? ==> r.value == TerritoryAt(x, y, ts).value.name
  {
    match TerritoryAt(x, y, ts)
    case None => None
    case Some(t) => Some(t.name)
  }
}
