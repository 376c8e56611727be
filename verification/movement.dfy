/**
  The movement policy of the main engine (`Persona.decidir_movimiento`,
  persona.py): the role-dispatched choice of one of nine deltas, with its
  spatial queries and the forest override.

  Randomness is an oracle: `MoveDraw.pick` stands for the one
  `random.choice` a decision may make (reduced modulo the list length, so
  every natural number names an element and every element is named), and the
  two booleans stand for `random.random() < 0.4` (hoarder) and
  `random.random() < 0.5` (forest).
 */
module Movement {
  import opened Grid
  import opened Agents
  import opened Territories
  import opened Buckets
  import Extremum

  /** `opciones`, in the source's order. */
  const Options: seq<Delta> := [(0, 0), (1, 0), (-1, 0), (0, 1), (0, -1), (1, 1), (1, -1), (-1, 1), (-1, -1)]

  /** The hoarder's fallback: stay or one orthogonal step. */
  const HoarderOptions: seq<Delta> := [(0, 0), (1, 0), (0, 1), (-1, 0), (0, -1)]

  /** The nine options are exactly the unit steps (stay included). */
  lemma OptionsAreUnitSteps(d: Delta)
    ensures d in Options <==> -1 <= d.0 <= 1 && -1 <= d.1 <= 1
  {
  }

  /** The hoarder's moves are the non-diagonal options. */
  lemma HoarderOptionsNonDiagonal(d: Delta)
    ensures d in HoarderOptions <==> d in Options && (d.0 == 0 || d.1 == 0)
  {
  }

  datatype MoveDraw = MoveDraw(pick: nat, seekCoins: bool, forestStay: bool)

  /** Inner `paso_hacia(obj, huir)`: a random option without a target,
      otherwise the per-axis sign toward the target, negated when fleeing. */
  function StepToward(from: Pos, target: Option<Pos>, flee: bool, pick: nat): (d: Delta)
    ensures d in Options
    ensures target.None? ==> d == Choose(Options, pick)
    ensures target.Some? ==> (d.0 == 0 <==> from.0 == target.value.0) && (d.1 == 0 <==> from.1 == target.value.1)
    ensures target.Some? && !flee ==> (d.0 > 0 <==> target.value.0 > from.0) && (d.1 > 0 <==> target.value.1 > from.1)
    ensures target.Some? && flee ==> (d.0 > 0 <==> target.value.0 < from.0) && (d.1 > 0 <==> target.value.1 < from.1)
  {
    match target
    case None => Choose(Options, pick)
    case Some(t) =>
      var dx := Sign(from.0, t.0);
      var dy := Sign(from.1, t.1);
      if flee then (-dx, -dy) else (dx, dy)
  }

  /** Number of axes on which two cells differ. */
  function Differ(a: Pos, b: Pos): nat {
    (if a.0 == b.0 then 0 else 1) + (if a.1 == b.1 then 0 else 1)
  }

  function Shifted(p: Pos, d: Delta): Pos {
    (p.0 + d.0, p.1 + d.1)
  }

  /** Stepping toward a target shortens the plane distance by one per axis
      on which they differ; fleeing lengthens it by the same amount. */
  lemma StepTowardDistance(from: Pos, t: Pos, flee: bool, pick: nat)
    ensures var d := StepToward(from, Some(t), flee, pick);
      if flee then Manhattan(Shifted(from, d), t) == Manhattan(from, t) + Differ(from, t)
      else Manhattan(Shifted(from, d), t) == Manhattan(from, t) - Differ(from, t)
  {
    SignApproaches(from.0, t.0);
    SignApproaches(from.1, t.1);
    SignRecedes(from.0, t.0);
    SignRecedes(from.1, t.1);
  }

  /** Filters of the nearest-neighbour query. */
  datatype Target = Anyone | NonWarrior | WarriorOnly

  predicate Accepts(f: Target, r: Role) {
    match f
    case Anyone => true
    case NonWarrior => r != Warrior
    case WarriorOnly => r == Warrior
  }

  /** Person `j` is another living person accepted by the filter (`otros`
      excludes the deciding person by identity, here by index). */
  predicate Qualifies(ps: seq<Person>, i: nat, j: nat, f: Target)
    requires j < |ps|
  {
    j != i && IsAlive(ps[j]) && Accepts(f, ps[j].role)
  }

  /** Reference definition of the filter: the indices below `n` of the
      persons `[p for p in otros if filtro(p)]` keeps, in increasing order. */
  function Picked(ps: seq<Person>, i: nat, f: Target, n: nat): (js: seq<nat>)
    requires n <= |ps|
    ensures forall j: nat :: j in js <==> j < n && Qualifies(ps, i, j, f)
    ensures Increasing(js)
  {
    if n == 0 then []
    else
      var prev := Picked(ps, i, f, n - 1);
      assert forall a :: 0 <= a < |prev| ==> prev[a] < n - 1 by {
        forall a | 0 <= a < |prev| ensures prev[a] < n - 1 {
          assert prev[a] in prev;
        }
      }
      prev + (if Qualifies(ps, i, n - 1, f) then [n - 1] else [])
  }

  /** `[p for p in otros if filtro(p)]`: the persons at the picked indices,
      in list order. */
  function Others(ps: seq<Person>, i: nat, f: Target): (os: seq<Person>)
    ensures |os| == |Picked(ps, i, f, |ps|)|
    ensures forall k :: 0 <= k < |os| ==> Picked(ps, i, f, |ps|)[k] < |ps| && os[k] == ps[Picked(ps, i, f, |ps|)[k]]
  {
    var js := Picked(ps, i, f, |ps|);
    assert forall k :: 0 <= k < |js| ==> js[k] in js;
    seq(|js|, k requires 0 <= k < |js| => ps[js[k]])
  }

  /** `j` is at least distance among the persons the filter accepts. */
  ghost predicate IsNearest(ps: seq<Person>, i: nat, j: nat, f: Target)
    requires i < |ps| && j < |ps|
  {
    forall k :: 0 <= k < |ps| && Qualifies(ps, i, k, f) ==>
      Manhattan(ps[j].Position(), ps[i].Position()) <= Manhattan(ps[k].Position(), ps[i].Position())
  }

  /** `j` is the person Python's `min` picks: a nearest qualifying person,
      every qualifying person before it in the list being strictly farther. */
  ghost predicate IsFirstNearest(ps: seq<Person>, i: nat, j: nat, f: Target)
    requires i < |ps|
  {
    && j < |ps| && Qualifies(ps, i, j, f) && IsNearest(ps, i, j, f)
    && forall m :: 0 <= m < j && Qualifies(ps, i, m, f) ==>
      Manhattan(ps[j].Position(), ps[i].Position()) < Manhattan(ps[m].Position(), ps[i].Position())
  }

  /** Inner `vecino_mas_cercano(filtro)`: the position of the first qualifying
      person at least Manhattan distance, or `None` when nobody qualifies. */
  function NearestPerson(ps: seq<Person>, i: nat, f: Target): (r: Option<Pos>)
    requires i < |ps|
    ensures r.None? <==> forall j :: 0 <= j < |ps| ==> !Qualifies(ps, i, j, f)
    ensures r.Some? ==> exists j: nat :: IsFirstNearest(ps, i, j, f) && ps[j].Position() == r.value
  {
    var os := Others(ps, i, f);
    var js := Picked(ps, i, f, |ps|);
    if |os| == 0 then
      None
    else
      var key := (q: Person) => Manhattan(q.Position(), ps[i].Position());
      var k := Extremum.MinIndex(os, key);
      FirstNearestPerson(ps, i, f, k, key);
      Some(os[k].Position())
  }

  /** The person `min` picks from `Others` is the first nearest one. */
  lemma FirstNearestPerson(ps: seq<Person>, i: nat, f: Target, k: nat, key: Person -> int)
    requires i < |ps| && k < |Others(ps, i, f)|
    requires forall q :: key(q) == Manhattan(q.Position(), ps[i].Position())
    requires forall j :: 0 <= j < |Others(ps, i, f)| ==> key(Others(ps, i, f)[k]) <= key(Others(ps, i, f)[j])
    requires forall j :: 0 <= j < k ==> key(Others(ps, i, f)[k]) < key(Others(ps, i, f)[j])
    ensures IsFirstNearest(ps, i, Picked(ps, i, f, |ps|)[k], f)
    ensures ps[Picked(ps, i, f, |ps|)[k]] == Others(ps, i, f)[k]
  {
    var os := Others(ps, i, f);
    var js := Picked(ps, i, f, |ps|);
    assert js[k] in js;
    forall m | 0 <= m < |ps| && Qualifies(ps, i, m, f)
      ensures key(os[k]) <= key(ps[m])
      ensures m < js[k] ==> key(os[k]) < key(ps[m])
    {
      assert m in js;
      var a :| 0 <= a < |js| && js[a] == m;
      assert os[a] == ps[m];
      if m < js[k] {
        assert a < k;
      }
    }
  }

  /** Cell `deps[k].0` is the one Python's `min` picks from `monedas.items()`:
      a nearest deposit cell, every cell before it in dictionary order being
      strictly farther. */
  ghost predicate IsFirstNearestDeposit(deps: Deposits, from: Pos, k: nat) {
    && k < |deps|
    && (forall m :: 0 <= m < |deps| ==> Manhattan(deps[k].0, from) <= Manhattan(deps[m].0, from))
    && (forall m :: 0 <= m < k ==> Manhattan(deps[k].0, from) < Manhattan(deps[m].0, from))
  }

  /** Inner `moneda_mas_cercana()`: the first deposit cell, in dictionary
      order, at least Manhattan distance; `None` for an empty dictionary. */
  function NearestDeposit(deps: Deposits, from: Pos): (r: Option<Pos>)
    ensures r.None? <==> |deps| == 0
    ensures r.Some? ==> r.value in Keys(deps)
    ensures r.Some? ==> forall c :: c in Keys(deps) ==> Manhattan(r.value, from) <= Manhattan(c, from)
    ensures r.Some? ==> exists k: nat :: IsFirstNearestDeposit(deps, from, k) && deps[k].0 == r.value
  {
    var ks := Keys(deps);
    if |ks| == 0 then None
    else
      var k := Extremum.MinIndex(ks, (c: Pos) => Manhattan(c, from));
      assert IsFirstNearestDeposit(deps, from, k);
      Some(ks[k])
  }

  /** The cell a delta leads to on the torus. */
  function Dest(p: Person, d: Delta, w: int, h: int): Pos
    requires w > 0 && h > 0
  {
    (Wrap(p.x + d.0, w), Wrap(p.y + d.1, h))
  }

  /** Reference definition of the explorer's filter: the indices below `n`
      of the options whose destination is not yet visited, increasing. */
  function OpenOptions(p: Person, w: int, h: int, n: nat): (ks: seq<nat>)
    requires w > 0 && h > 0 && n <= |Options|
    ensures forall k: nat :: k in ks <==> k < n && Dest(p, Options[k], w, h) !in p.visited
    ensures Increasing(ks)
  {
    if n == 0 then []
    else
      var prev := OpenOptions(p, w, h, n - 1);
      assert forall a :: 0 <= a < |prev| ==> prev[a] < n - 1 by {
        forall a | 0 <= a < |prev| ensures prev[a] < n - 1 {
          assert prev[a] in prev;
        }
      }
      prev + (if Dest(p, Options[n - 1], w, h) !in p.visited then [n - 1] else [])
  }

  /** The explorer's `candidatos`: the options at the open indices, in
      option order. */
  function Unvisited(p: Person, w: int, h: int): (cs: seq<Delta>)
    requires w > 0 && h > 0
    ensures |cs| == |OpenOptions(p, w, h, |Options|)|
    ensures forall a :: 0 <= a < |cs| ==>
      OpenOptions(p, w, h, |Options|)[a] < |Options| && cs[a] == Options[OpenOptions(p, w, h, |Options|)[a]]
  {
    var ks := OpenOptions(p, w, h, |Options|);
    assert forall a :: 0 <= a < |ks| ==> ks[a] in ks;
    seq(|ks|, a requires 0 <= a < |ks| => Options[ks[a]])
  }

  /** The explorer's candidates are exactly the options leading to an
      unvisited cell. */
  lemma UnvisitedMembers(p: Person, w: int, h: int)
    requires w > 0 && h > 0
    ensures forall d :: d in Unvisited(p, w, h) <==> d in Options && Dest(p, d, w, h) !in p.visited
  {
    var cs := Unvisited(p, w, h);
    var ks := OpenOptions(p, w, h, |Options|);
    forall d | d in Options && Dest(p, d, w, h) !in p.visited
      ensures d in cs
    {
      var k :| 0 <= k < |Options| && Options[k] == d;
      assert k in ks;
      var a :| 0 <= a < |ks| && ks[a] == k;
      assert cs[a] == d;
    }
  }

  /** The role-specific part of `decidir_movimiento` (persona.py, the role
      branches), before the forest override. */
  function RoleMove(ps: seq<Person>, i: nat, deps: Deposits, w: int, h: int, draw: MoveDraw): (d: Delta)
    requires i < |ps| && w > 0 && h > 0
    ensures d in Options
    ensures ps[i].role == Hoarder && !(draw.seekCoins && |deps| > 0) ==> d in HoarderOptions
    ensures ps[i].role == Explorer && (exists e :: e in Options && Dest(ps[i], e, w, h) !in ps[i].visited) ==>
      Dest(ps[i], d, w, h) !in ps[i].visited
  {
    var p := ps[i];
    var pos := p.Position();
    match p.role
    case Warrior =>
      StepToward(pos, NearestPerson(ps, i, Anyone), false, draw.pick)
    case Trader =>
      var tradable := NearestPerson(ps, i, NonWarrior);
      StepToward(pos, if tradable.Some? then tradable else NearestPerson(ps, i, Anyone), false, draw.pick)
    case Collector =>
      var warrior := NearestPerson(ps, i, WarriorOnly);
      if warrior.Some? then StepToward(pos, warrior, true, draw.pick)
      else
        var coin := NearestDeposit(deps, pos);
        if coin.Some? then StepToward(pos, coin, false, draw.pick)
        else Choose(Options, draw.pick)
    case Explorer =>
      UnvisitedMembers(p, w, h);
      var cands := Unvisited(p, w, h);
      if |cands| > 0 then Choose(cands, draw.pick)
      else Choose(Options, draw.pick)
    case Hoarder =>
      var coin := NearestDeposit(deps, pos);
      if draw.seekCoins && coin.Some? then StepToward(pos, coin, false, draw.pick)
      else Choose(HoarderOptions, draw.pick)
  }

  /** The person stands in a territory of type forest (first match wins). */
  predicate InForest(p: Person, ts: seq<Territory>) {
    var t := TerritoryAt(p.x, p.y, ts);
    t.Some? && t.value.kind == Forest
  }

  /** `decidir_movimiento`: the role's delta, overridden to "stay" in a
      forest when the forest draw says so. */
  function Decide(ps: seq<Person>, i: nat, deps: Deposits, ts: seq<Territory>, w: int, h: int, draw: MoveDraw): (d: Delta)
    requires i < |ps| && w > 0 && h > 0
    ensures d in Options
    ensures InForest(ps[i], ts) && draw.forestStay ==> d == (0, 0)
    ensures !(InForest(ps[i], ts) && draw.forestStay) ==> d == RoleMove(ps, i, deps, w, h, draw)
  {
    var d := RoleMove(ps, i, deps, w, h, draw);
    if InForest(ps[i], ts) && draw.forestStay then (0, 0) else d
  }

  /** Delta `d` shortens the plane distance from `from` to `t` by one per
      differing axis. */
  ghost predicate Approaches(from: Pos, d: Delta, t: Pos) {
    Manhattan(Shifted(from, d), t) == Manhattan(from, t) - Differ(from, t)
  }

  /** Delta `d` lengthens the plane distance from `from` to `t` by one per
      differing axis. */
  ghost predicate Recedes(from: Pos, d: Delta, t: Pos) {
    Manhattan(Shifted(from, d), t) == Manhattan(from, t) + Differ(from, t)
  }

  /** Delta `d` approaches (or, fleeing, recedes from) a nearest person
      accepted by filter `f`. */
  ghost predicate HeadsForNearest(ps: seq<Person>, i: nat, f: Target, d: Delta, flee: bool)
    requires i < |ps|
  {
    exists j: nat :: IsFirstNearest(ps, i, j, f) &&
      (if flee then Recedes(ps[i].Position(), d, ps[j].Position()) else Approaches(ps[i].Position(), d, ps[j].Position()))
  }

  /** A warrior with someone alive to chase steps toward a nearest other
      living person. */
  lemma WarriorChases(ps: seq<Person>, i: nat, deps: Deposits, w: int, h: int, draw: MoveDraw)
    requires i < |ps| && w > 0 && h > 0 && ps[i].role == Warrior
    requires exists j :: 0 <= j < |ps| && Qualifies(ps, i, j, Anyone)
    ensures HeadsForNearest(ps, i, Anyone, RoleMove(ps, i, deps, w, h, draw), false)
  {
    var t := NearestPerson(ps, i, Anyone);
    assert RoleMove(ps, i, deps, w, h, draw) == StepToward(ps[i].Position(), t, false, draw.pick);
    var j: nat :| IsFirstNearest(ps, i, j, Anyone) && ps[j].Position() == t.value;
    StepTowardDistance(ps[i].Position(), t.value, false, draw.pick);
  }

  /** A collector that sees any living warrior moves away from a nearest one,
      whatever deposits exist: fleeing has priority over coins. */
  lemma CollectorFlees(ps: seq<Person>, i: nat, deps: Deposits, w: int, h: int, draw: MoveDraw)
    requires i < |ps| && w > 0 && h > 0 && ps[i].role == Collector
    requires exists j :: 0 <= j < |ps| && Qualifies(ps, i, j, WarriorOnly)
    ensures HeadsForNearest(ps, i, WarriorOnly, RoleMove(ps, i, deps, w, h, draw), true)
  {
    var t := NearestPerson(ps, i, WarriorOnly);
    assert RoleMove(ps, i, deps, w, h, draw) == StepToward(ps[i].Position(), t, true, draw.pick);
    var j: nat :| IsFirstNearest(ps, i, j, WarriorOnly) && ps[j].Position() == t.value;
    StepTowardDistance(ps[i].Position(), t.value, true, draw.pick);
  }

  /** A collector with no living warrior in sight heads for a nearest deposit
      when there is one. */
  lemma CollectorSeeksCoins(ps: seq<Person>, i: nat, deps: Deposits, w: int, h: int, draw: MoveDraw)
    requires i < |ps| && w > 0 && h > 0 && ps[i].role == Collector && |deps| > 0
    requires forall j :: 0 <= j < |ps| ==> !Qualifies(ps, i, j, WarriorOnly)
    ensures HeadsForNearestDeposit(deps, ps[i].Position(), RoleMove(ps, i, deps, w, h, draw))
  {
    var c := NearestDeposit(deps, ps[i].Position());
    assert NearestPerson(ps, i, WarriorOnly).None?;
    assert RoleMove(ps, i, deps, w, h, draw) == StepToward(ps[i].Position(), c, false, draw.pick);
    var k: nat :| IsFirstNearestDeposit(deps, ps[i].Position(), k) && deps[k].0 == c.value;
    StepTowardDistance(ps[i].Position(), c.value, false, draw.pick);
  }

  /** Delta `d` approaches the deposit cell `min` picks from `from`. */
  ghost predicate HeadsForNearestDeposit(deps: Deposits, from: Pos, d: Delta) {
    exists k: nat :: IsFirstNearestDeposit(deps, from, k) && Approaches(from, d, deps[k].0)
  }

  /** A trader heads for a nearest living non-warrior when there is one. */
  lemma TraderPrefersNonWarriors(ps: seq<Person>, i: nat, deps: Deposits, w: int, h: int, draw: MoveDraw)
    requires i < |ps| && w > 0 && h > 0 && ps[i].role == Trader
    requires exists j :: 0 <= j < |ps| && Qualifies(ps, i, j, NonWarrior)
    ensures HeadsForNearest(ps, i, NonWarrior, RoleMove(ps, i, deps, w, h, draw), false)
  {
    var t := NearestPerson(ps, i, NonWarrior);
    assert RoleMove(ps, i, deps, w, h, draw) == StepToward(ps[i].Position(), t, false, draw.pick);
    var j: nat :| IsFirstNearest(ps, i, j, NonWarrior) && ps[j].Position() == t.value;
    StepTowardDistance(ps[i].Position(), t.value, false, draw.pick);
  }

  /** Among warriors only, a trader heads for a nearest one. */
  lemma TraderFallsBackToAnyone(ps: seq<Person>, i: nat, deps: Deposits, w: int, h: int, draw: MoveDraw)
    requires i < |ps| && w > 0 && h > 0 && ps[i].role == Trader
    requires forall j :: 0 <= j < |ps| ==> !Qualifies(ps, i, j, NonWarrior)
    requires exists j :: 0 <= j < |ps| && Qualifies(ps, i, j, Anyone)
    ensures HeadsForNearest(ps, i, Anyone, RoleMove(ps, i, deps, w, h, draw), false)
  {
    var t := NearestPerson(ps, i, Anyone);
    assert NearestPerson(ps, i, NonWarrior).None?;
    assert RoleMove(ps, i, deps, w, h, draw) == StepToward(ps[i].Position(), t, false, draw.pick);
    var j: nat :| IsFirstNearest(ps, i, j, Anyone) && ps[j].Position() == t.value;
    StepTowardDistance(ps[i].Position(), t.value, false, draw.pick);
  }

  /** A hoarder whose coin draw succeeds heads for a nearest deposit when
      there is one. */
  lemma HoarderSeeksCoins(ps: seq<Person>, i: nat, deps: Deposits, w: int, h: int, draw: MoveDraw)
    requires i < |ps| && w > 0 && h > 0 && ps[i].role == Hoarder && |deps| > 0 && draw.seekCoins
    ensures HeadsForNearestDeposit(deps, ps[i].Position(), RoleMove(ps, i, deps, w, h, draw))
  {
    var c := NearestDeposit(deps, ps[i].Position());
    var k: nat :| IsFirstNearestDeposit(deps, ps[i].Position(), k) && deps[k].0 == c.value;
    StepTowardDistance(ps[i].Position(), c.value, false, draw.pick);
  }

  /** With no target to aim at, every role falls back to a random option and
      never fails: the warrior when nobody else is alive, the collector when
      there is neither a warrior nor a deposit, the explorer when all nine
      destinations are visited. */
  lemma FallbacksAreRandom(ps: seq<Person>, i: nat, deps: Deposits, w: int, h: int, draw: MoveDraw)
    requires i < |ps| && w > 0 && h > 0
    ensures ps[i].role == Warrior && (forall j :: 0 <= j < |ps| ==> !Qualifies(ps, i, j, Anyone)) ==>
      RoleMove(ps, i, deps, w, h, draw) == Choose(Options, draw.pick)
    ensures ps[i].role == Collector && |deps| == 0 && (forall j :: 0 <= j < |ps| ==> !Qualifies(ps, i, j, WarriorOnly)) ==>
      RoleMove(ps, i, deps, w, h, draw) == Choose(Options, draw.pick)
    ensures ps[i].role == Explorer && (forall e :: e in Options ==> Dest(ps[i], e, w, h) in ps[i].visited) ==>
      RoleMove(ps, i, deps, w, h, draw) == Choose(Options, draw.pick)
  {
    if ps[i].role == Explorer && (forall e :: e in Options ==> Dest(ps[i], e, w, h) in ps[i].visited) {
      var cands := Unvisited(ps[i], w, h);
      if |cands| > 0 {
        assert cands[0] in cands;
      }
    }
  }
}
