/**
  Per-role bookkeeping of the main engine: the dictionaries keyed by role
  (`{rol: ... for rol in ROLES}`) and the sums over the population that the
  engine takes by role (`sum(p.monedas for p in personas if p.rol == rol)`
  and its relatives).
 */
module Statistics {
  import opened Grid
  import opened Territories
  import opened Agents

  /** A value for each role; `{rol: v for rol in ROLES}`. */
  datatype PerRole<T> = PerRole(collector: T, warrior: T, trader: T, explorer: T, hoarder: T)
  {
    function At(r: Role): T {
      match r
      case Collector => collector
      case Warrior => warrior
      case Trader => trader
      case Explorer => explorer
      case Hoarder => hoarder
    }

    /** `d[rol] = v`: only the entry of `r` changes. */
    function With(r: Role, v: T): (d: PerRole<T>)
      ensures d.At(r) == v
      ensures forall r' :: r' != r ==> d.At(r') == At(r')
    {
      match r
      case Collector => this.(collector := v)
      case Warrior => this.(warrior := v)
      case Trader => this.(trader := v)
      case Explorer => this.(explorer := v)
      case Hoarder => this.(hoarder := v)
    }
  }

  /** The same value for every role. */
  function Uniform<T>(v: T): (d: PerRole<T>)
    ensures forall r :: d.At(r) == v
  {
    PerRole(v, v, v, v, v)
  }

  /** `d[rol] += 1`. */
  function Bump(d: PerRole<int>, r: Role): (e: PerRole<int>)
    ensures e.At(r) == d.At(r) + 1
    ensures forall r' :: r' != r ==> e.At(r') == d.At(r')
  {
    d.With(r, d.At(r) + 1)
  }

  /** What one person contributes to a per-role or global sum. */
  datatype Measure =
    | Dead(role: Role)          // 1 for a dead person of the role
    | Living(role: Role)        // 1 for a living person of the role
    | LivingCoins(role: Role)   // the coins of a living person of the role
    | Coins(role: Role)         // the coins of any person of the role
    | Fights(role: Role)        // the fights of any person of the role
    | Ages(role: Role)          // the age of any person of the role
    | Members(role: Role)       // 1 for any person of the role
    | AllCoins                  // the coins of everybody
    | AllTrades                 // the trade counter of everybody
    | DeadAt(ts: seq<Territory>, name: string)  // 1 for a dead person whose cell lies first in a territory called `name`

  function Weight(m: Measure, p: Person): int {
    match m
    case Dead(r) => if !IsAlive(p) && p.role == r then 1 else 0
    case Living(r) => if IsAlive(p) && p.role == r then 1 else 0
    case LivingCoins(r) => if IsAlive(p) && p.role == r then p.coins else 0
    case Coins(r) => if p.role == r then p.coins else 0
    case Fights(r) => if p.role == r then p.fightsTotal else 0
    case Ages(r) => if p.role == r then p.age else 0
    case Members(r) => if p.role == r then 1 else 0
    case AllCoins => p.coins
    case AllTrades => p.trades
    case DeadAt(ts, name) => if !IsAlive(p) && TerritoryName(p.x, p.y, ts) == Some(name) then 1 else 0
  }

  /** The sum of the measure over the population, in list order. */
  function Census(ps: seq<Person>, m: Measure): int {
    if |ps| == 0 then 0 else Census(ps[..|ps| - 1], m) + Weight(m, ps[|ps| - 1])
  }

  /** Replacing one person changes the sum by the difference of the two
      contributions. */
  lemma {:induction false} CensusUpdate(ps: seq<Person>, i: nat, q: Person, m: Measure)
    requires i < |ps|
    ensures Census(ps[i := q], m) == Census(ps, m) - Weight(m, ps[i]) + Weight(m, q)
    decreases |ps|
  {
    var qs := ps[i := q];
    if i < |ps| - 1 {
      assert qs[..|qs| - 1] == ps[..|ps| - 1][i := q];
      assert qs[|qs| - 1] == ps[|ps| - 1];
      CensusUpdate(ps[..|ps| - 1], i, q, m);
    } else {
      assert qs[..|qs| - 1] == ps[..|ps| - 1];
    }
  }

  /** Populations whose members contribute the same, index by index, have
      the same sum. */
  lemma {:induction false} CensusAgree(ps: seq<Person>, qs: seq<Person>, m: Measure)
    requires |ps| == |qs|
    requires forall i :: 0 <= i < |ps| ==> Weight(m, ps[i]) == Weight(m, qs[i])
    ensures Census(ps, m) == Census(qs, m)
    decreases |ps|
  {
    if |ps| > 0 {
      CensusAgree(ps[..|ps| - 1], qs[..|qs| - 1], m);
    }
  }

  /** The sum over a prefix one longer adds the next person's contribution. */
  lemma CensusSnoc(ps: seq<Person>, n: nat, m: Measure)
    requires 0 < n <= |ps|
    ensures Census(ps[..n], m) == Census(ps[..n - 1], m) + Weight(m, ps[n - 1])
  {
    assert ps[..n][..n - 1] == ps[..n - 1];
  }

  /** A population in which nobody contributes sums to zero. */
  lemma {:induction false} CensusOfNobody(ps: seq<Person>, m: Measure)
    requires forall i :: 0 <= i < |ps| ==> Weight(m, ps[i]) == 0
    ensures Census(ps, m) == 0
    decreases |ps|
  {
    if |ps| > 0 {
      CensusOfNobody(ps[..|ps| - 1], m);
    }
  }

  /** Contributions that are never negative sum to a non-negative total. */
  lemma {:induction false} CensusNonNegative(ps: seq<Person>, m: Measure)
    requires forall i :: 0 <= i < |ps| ==> Weight(m, ps[i]) >= 0
    ensures Census(ps, m) >= 0
    decreases |ps|
  {
    if |ps| > 0 {
      CensusNonNegative(ps[..|ps| - 1], m);
    }
  }

  /** Every member of a role is either alive or dead. */
  lemma {:induction false} LivingPlusDead(ps: seq<Person>, r: Role)
    ensures Census(ps, Living(r)) + Census(ps, Dead(r)) == Census(ps, Members(r))
    ensures 0 <= Census(ps, Living(r)) && 0 <= Census(ps, Dead(r))
    ensures Census(ps, Members(r)) <= |ps|
    decreases |ps|
  {
    if |ps| > 0 {
      LivingPlusDead(ps[..|ps| - 1], r);
    }
  }
}
