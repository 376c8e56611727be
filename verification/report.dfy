/**
  The closing figures of `simular` (simulacion.py): the richest role, the
  longest-lived role, the most combative role and the deadliest territory.
  Each is `max(d, key=d.get)` over a dictionary built in a fixed order, so the
  first entry with the greatest value wins. Mean ages are compared as exact
  rationals (`real`); `MeanAgesSeparated` shows why that agrees with the
  floats.
 */
module Report {
  import opened Grid
  import opened Extremum
  import opened Territories
  import opened Agents
  import opened Statistics
  import opened Simulation
  import opened Setup
  import opened Interaction

  /** Position of a role in `ROLES`, the order in which the per-role
      dictionaries are built and therefore scanned. */
  function Rank(r: Role): (k: nat)
    ensures k < |Roles| && Roles[k] == r
  {
    match r
    case Collector => 0
    case Warrior => 1
    case Trader => 2
    case Explorer => 3
    case Hoarder => 4
  }

  /** `r` is what `max` returns for a dictionary over `ROLES`: its value is
      the greatest, and every role listed before it has a smaller one. */
  ghost predicate IsFirstBest(key: Role -> real, r: Role) {
    && (forall q :: key(q) <= key(r))
    && (forall q :: Rank(q) < Rank(r) ==> key(q) < key(r))
  }

  /** `max` over the first `n` roles of `ROLES`. */
  function FirstBestAmong(key: Role -> real, n: nat): (r: Role)
    requires 0 < n <= |Roles|
    ensures Rank(r) < n
    ensures forall i :: 0 <= i < n ==> key(Roles[i]) <= key(r)
    ensures forall i :: 0 <= i < Rank(r) ==> key(Roles[i]) < key(r)
  {
    if n == 1 then Roles[0]
    else
      var best := FirstBestAmong(key, n - 1);
      if key(best) < key(Roles[n - 1]) then Roles[n - 1] else best
  }

  /** `max(d, key=d.get)` for `d = {rol: key(rol) for rol in ROLES}`. */
  function FirstBest(key: Role -> real): (r: Role)
    ensures IsFirstBest(key, r)
  {
    var r := FirstBestAmong(key, |Roles|);
    assert forall q :: key(q) <= key(r) && (Rank(q) < Rank(r) ==> key(q) < key(r)) by {
      forall q
        ensures key(q) <= key(r) && (Rank(q) < Rank(r) ==> key(q) < key(r))
      {
        assert Roles[Rank(q)] == q;
      }
    }
    r
  }

  /** Only one role can be the first best, so the two conditions pin the
      answer down. */
  lemma FirstBestUnique(key: Role -> real, r: Role)
    requires IsFirstBest(key, r)
    ensures FirstBest(key) == r
  {
  }

  // ---------------------------------------------------------------------
  // Richest and most combative roles
  // ---------------------------------------------------------------------

  /** `rol_mas_rico`: the role whose members, living or dead, hold the most
      coins; ties go to the role listed first. */
  function RichestRole(ps: seq<Person>): (r: Role)
    ensures forall q :: Census(ps, Coins(q)) <= Census(ps, Coins(r))
    ensures forall q :: Rank(q) < Rank(r) ==> Census(ps, Coins(q)) < Census(ps, Coins(r))
  {
    var key := q => Census(ps, Coins(q)) as real;
    var r := FirstBest(key);
    assert forall q :: key(q) == Census(ps, Coins(q)) as real;
    r
  }

  /** `rol_mas_violento`: the role whose members took part in the most
      fights; ties go to the role listed first. */
  function MostCombativeRole(ps: seq<Person>): (r: Role)
    ensures forall q :: Census(ps, Fights(q)) <= Census(ps, Fights(r))
    ensures forall q :: Rank(q) < Rank(r) ==> Census(ps, Fights(q)) < Census(ps, Fights(r))
  {
    var key := q => Census(ps, Fights(q)) as real;
    var r := FirstBest(key);
    assert forall q :: key(q) == Census(ps, Fights(q)) as real;
    r
  }

  /** Any role that is richest and beats every earlier role is the one
      reported. */
  lemma RichestRoleUnique(ps: seq<Person>, r: Role)
    requires forall q :: Census(ps, Coins(q)) <= Census(ps, Coins(r))
    requires forall q :: Rank(q) < Rank(r) ==> Census(ps, Coins(q)) < Census(ps, Coins(r))
    ensures RichestRole(ps) == r
  {
    FirstBestUnique(q => Census(ps, Coins(q)) as real, r);
  }

  lemma MostCombativeRoleUnique(ps: seq<Person>, r: Role)
    requires forall q :: Census(ps, Fights(q)) <= Census(ps, Fights(r))
    requires forall q :: Rank(q) < Rank(r) ==> Census(ps, Fights(q)) < Census(ps, Fights(r))
    ensures MostCombativeRole(ps) == r
  {
    FirstBestUnique(q => Census(ps, Fights(q)) as real, r);
  }

  /** The five per-role coin sums split the coins of the whole population. */
  lemma {:induction false} CoinsSplitByRole(ps: seq<Person>)
    ensures Census(ps, Coins(Collector)) + Census(ps, Coins(Warrior)) + Census(ps, Coins(Trader))
          + Census(ps, Coins(Explorer)) + Census(ps, Coins(Hoarder)) == Census(ps, AllCoins)
  {
    if |ps| > 0 {
      CoinsSplitByRole(ps[..|ps| - 1]);
    }
  }

  /** The richest role holds at least a fifth of all coins. */
  lemma RichestHoldsAFifth(ps: seq<Person>)
    ensures 5 * Census(ps, Coins(RichestRole(ps))) >= Census(ps, AllCoins)
  {
    CoinsSplitByRole(ps);
  }

  // ---------------------------------------------------------------------
  // Longest-lived role
  // ---------------------------------------------------------------------

  /** `edad_media_por_rol[rol]`: the mean age of all members of the role, or
      0 when it has none. */
  function MeanAge(ps: seq<Person>, r: Role): (m: real)
    ensures Census(ps, Members(r)) > 0 ==> m * Census(ps, Members(r)) as real == Census(ps, Ages(r)) as real
    ensures Census(ps, Members(r)) <= 0 ==> m == 0.0
  {
    var n := Census(ps, Members(r));
    if n <= 0 then 0.0 else Census(ps, Ages(r)) as real / n as real
  }

  /** `rol_mas_longevo`: the role of greatest mean age; ties go to the role
      listed first. */
  function LongestLivedRole(ps: seq<Person>): (r: Role)
    ensures forall q :: MeanAge(ps, q) <= MeanAge(ps, r)
    ensures forall q :: Rank(q) < Rank(r) ==> MeanAge(ps, q) < MeanAge(ps, r)
  {
    var key := q => MeanAge(ps, q);
    var r := FirstBest(key);
    assert forall q :: key(q) == MeanAge(ps, q);
    r
  }

  lemma LongestLivedRoleUnique(ps: seq<Person>, r: Role)
    requires forall q :: MeanAge(ps, q) <= MeanAge(ps, r)
    requires forall q :: Rank(q) < Rank(r) ==> MeanAge(ps, q) < MeanAge(ps, r)
    ensures LongestLivedRole(ps) == r
  {
    FirstBestUnique(q => MeanAge(ps, q), r);
  }

  /** Scaling a quotient back by its divisor. */
  lemma QuotientTimesDivisor(x: real, m: real)
    requires m > 0.0
    ensures (x / m) * m == x
  {
  }

  /** Multiplying a difference by a product of two factors. */
  lemma DifferenceTimesProduct(x: real, y: real, m: real, n: real)
    ensures (x - y) * (m * n) == (x * m) * n - (y * n) * m
  {
  }

  /** A product of two factors in (0, 30] lies in (0, 900]. */
  lemma SmallProduct(m: real, n: real)
    requires 0.0 < m <= 30.0 && 0.0 < n <= 30.0
    ensures 0.0 < m * n <= 900.0
  {
    assert m * n <= 30.0 * n;
  }

  /** A positive `g` whose product with some `p` in (0, 900] is an integer
      is at least 1/900. */
  lemma IntegerMultipleGap(g: real, p: real, d: int)
    requires 0.0 < p <= 900.0 && g > 0.0 && g * p == d as real
    ensures g >= 1.0 / 900.0
  {
    assert g * p > 0.0;
    assert d >= 1;
    assert g * p <= g * 900.0;
    assert 900.0 * g >= 1.0;
  }

  /** Two distinct fractions with denominators of at most 30 differ by at
      least 1/900. */
  lemma RatioGap(a: int, m: int, b: int, n: int)
    requires 0 < m <= 30 && 0 < n <= 30
    requires a as real / m as real != b as real / n as real
    ensures a as real / m as real - b as real / n as real >= 1.0 / 900.0 ||
            b as real / n as real - a as real / m as real >= 1.0 / 900.0
  {
    var x, y := a as real / m as real, b as real / n as real;
    var M, N := m as real, n as real;
    QuotientTimesDivisor(a as real, M);
    QuotientTimesDivisor(b as real, N);
    SmallProduct(M, N);
    DifferenceTimesProduct(x, y, M, N);
    DifferenceTimesProduct(y, x, N, M);
    assert M * N == N * M;
    if x > y {
      IntegerMultipleGap(x - y, M * N, a * n - b * m);
    } else {
      IntegerMultipleGap(y - x, M * N, b * m - a * n);
    }
  }

  /** In a population of at most 30 (the engine's), two different mean ages
      differ by at least 1/900. A double rounds a mean age of at most 200
      by less than 200 * 2^-53, so comparing the correctly rounded quotients
      Python computes orders the roles exactly as these rationals do, and
      equal rationals round to equal doubles. */
  lemma MeanAgesSeparated(ps: seq<Person>, q: Role, r: Role)
    requires |ps| <= 30
    requires MeanAge(ps, q) != MeanAge(ps, r)
    ensures MeanAge(ps, q) - MeanAge(ps, r) >= 1.0 / 900.0 || MeanAge(ps, r) - MeanAge(ps, q) >= 1.0 / 900.0
  {
    LivingPlusDead(ps, q);
    LivingPlusDead(ps, r);
    var m := Census(ps, Members(q));
    var n := Census(ps, Members(r));
    var a := if m > 0 then Census(ps, Ages(q)) else 0;
    var b := if n > 0 then Census(ps, Ages(r)) else 0;
    var m' := if m > 0 then m else 1;
    var n' := if n > 0 then n else 1;
    assert MeanAge(ps, q) == a as real / m' as real;
    assert MeanAge(ps, r) == b as real / n' as real;
    RatioGap(a, m', b, n');
  }

  /** Ages are never negative, so a role without members (mean 0) is never
      reported while another role has a positive mean age. */
  lemma {:induction false} AgesNonNegative(ps: seq<Person>, r: Role)
    requires forall i :: 0 <= i < |ps| ==> ps[i].age >= 0
    ensures Census(ps, Ages(r)) >= 0
    ensures MeanAge(ps, r) >= 0.0
  {
    if |ps| > 0 {
      AgesNonNegative(ps[..|ps| - 1], r);
    }
  }

  // ---------------------------------------------------------------------
  // Deadliest territory
  // ---------------------------------------------------------------------

  /** `territorio_mas_letal`: the first tally entry with the most deaths.
      With no entries Python's `max` raises; that case is `None`. */
  function MostLethalTerritory(t: Tally): (r: Option<string>)
    ensures r.None? <==> |t| == 0
    ensures r.Some? ==> exists k :: (0 <= k < |t| && t[k].0 == r.value
      && (forall j :: 0 <= j < |t| ==> t[j].1 <= t[k].1)
      && (forall j :: 0 <= j < k ==> t[j].1 < t[k].1))
  {
    if |t| == 0 then None
    else
      var k := MaxIndex(t, (e: (string, int)) => e.1);
      Some(t[k].0)
  }

  /** Whenever the books are in order and there is a territory, a deadliest
      territory is named, its tally is its death count, and no territory saw
      more deaths than it did. */
  lemma DeadliestOfBooks(s: State, ts: seq<Territory>)
    requires Accounted(s, ts) && |ts| > 0
    ensures var r := MostLethalTerritory(s.deathsByTerritory);
      && r.Some?
      && r.value in TallyKeys(s.deathsByTerritory)
      && (forall i :: 0 <= i < |ts| ==> Census(s.persons, DeadAt(ts, ts[i].name)) <= Census(s.persons, DeadAt(ts, r.value)))
  {
    var t := s.deathsByTerritory;
    assert ts[0].name in TallyKeys(t);
    var r := MostLethalTerritory(t);
    var k :| 0 <= k < |t| && t[k].0 == r.value
      && (forall j :: 0 <= j < |t| ==> t[j].1 <= t[k].1)
      && (forall j :: 0 <= j < k ==> t[j].1 < t[k].1);
    assert TallyKeys(t)[k] == r.value;
    forall i | 0 <= i < |ts|
      ensures Census(s.persons, DeadAt(ts, ts[i].name)) <= Census(s.persons, DeadAt(ts, r.value))
    {
      assert ts[i].name in TallyKeys(t);
      var j :| 0 <= j < |t| && TallyKeys(t)[j] == ts[i].name;
      assert t[j].1 <= t[k].1;
    }
  }

  // ---------------------------------------------------------------------
  // The result dictionary
  // ---------------------------------------------------------------------

  /** The figures `simular` returns besides the raw state. */
  datatype Outcome = Outcome(
    richest: Role,
    longestLived: Role,
    mostCombative: Role,
    deadliest: Option<string>,
    trades: int)

  function Summarize(s: State): (o: Outcome)
    ensures o.deadliest.None? <==> |s.deathsByTerritory| == 0
    ensures o.trades == s.trades
  {
    Outcome(RichestRole(s.persons), LongestLivedRole(s.persons), MostCombativeRole(s.persons),
            MostLethalTerritory(s.deathsByTerritory), s.trades)
  }

  /** After a full run the report always names a deadliest territory, one
      with the greatest number of deaths among the three, and the richest
      role holds at least a fifth of the coins in purses. */
  lemma RunReport(spawn: nat -> Spawn, seeds: nat -> Drop, draws: nat -> TurnDraws)
    ensures var r := Run(spawn, seeds, draws);
      var o := Summarize(r);
      var ts := CreateTerritories();
      && o.deadliest.Some?
      && (forall i :: 0 <= i < |ts| ==> Census(r.persons, DeadAt(ts, ts[i].name)) <= Census(r.persons, DeadAt(ts, o.deadliest.value)))
      && 5 * Census(r.persons, Coins(o.richest)) >= Census(r.persons, AllCoins)
  {
    var r := Run(spawn, seeds, draws);
    RunKeeps(spawn, seeds, draws);
    DeadliestOfBooks(r, CreateTerritories());
    RichestHoldsAFifth(r.persons);
  }
}
