/**
  The turn loop of the main engine (`simular`, simulacion.py): a global
  event, territory labels, movement, coin pickup, and pairwise interaction
  per cell, then the per-role statistics. All randomness of a turn is one
  `TurnDraws` value supplied by the caller.
 */
module Simulation {
  import opened Grid
  import opened Buckets
  import opened Territories
  import opened Agents
  import opened Movement
  import opened Interaction
  import opened Statistics
  import opened Setup

  // ---------------------------------------------------------------------
  // Deaths per territory: `{t.nombre: 0 for t in territorios}`
  // ---------------------------------------------------------------------

  /** Territory name to number of deaths, in insertion order. */
  type Tally = seq<(string, int)>

  function TallyKeys(t: Tally): (ks: seq<string>)
    ensures |ks| == |t|
    ensures forall k :: 0 <= k < |t| ==> ks[k] == t[k].0
  {
    if |t| == 0 then [] else TallyKeys(t[..|t| - 1]) + [t[|t| - 1].0]
  }

  /** `t` is the dictionary comprehension over `ts`: every count is zero,
      every territory's name is a key, every key is some territory's name,
      and no key repeats. */
  ghost predicate FreshTally(t: Tally, ts: seq<Territory>) {
    && (forall k :: 0 <= k < |t| ==> t[k].1 == 0)
    && (forall i :: 0 <= i < |ts| ==> ts[i].name in TallyKeys(t))
    && (forall n :: n in TallyKeys(t) ==> exists i :: 0 <= i < |ts| && ts[i].name == n)
    && (forall k, l :: 0 <= k < l < |t| ==> t[k].0 != t[l].0)
  }

  /** The dictionary comprehension: one zero entry per distinct name, in the
      order of first appearance. */
  function NewTally(ts: seq<Territory>): (t: Tally)
    ensures FreshTally(t, ts)
  {
    if |ts| == 0 then []
    else
      var t := NewTally(ts[..|ts| - 1]);
      var n := ts[|ts| - 1].name;
      var u := if n in TallyKeys(t) then t else t + [(n, 0)];
      FreshTallyStep(ts, t, u);
      u
  }

  /** Adding one territory to the comprehension: its name is appended unless
      it is already a key. */
  lemma FreshTallyStep(ts: seq<Territory>, t: Tally, u: Tally)
    requires |ts| > 0 && FreshTally(t, ts[..|ts| - 1])
    requires u == if ts[|ts| - 1].name in TallyKeys(t) then t else t + [(ts[|ts| - 1].name, 0)]
    ensures FreshTally(u, ts)
  {
    var p := ts[..|ts| - 1];
    assert forall i :: 0 <= i < |p| ==> p[i] == ts[i];
    FreshTallyCovers(ts, t, u);
    FreshTallyNamed(ts, t, u);
    if u != t {
      FreshTallyDistinct(t, ts[|ts| - 1].name);
    }
  }

  lemma FreshTallyCovers(ts: seq<Territory>, t: Tally, u: Tally)
    requires |ts| > 0 && forall i :: 0 <= i < |ts| - 1 ==> ts[i].name in TallyKeys(t)
    requires u == if ts[|ts| - 1].name in TallyKeys(t) then t else t + [(ts[|ts| - 1].name, 0)]
    ensures forall i :: 0 <= i < |ts| ==> ts[i].name in TallyKeys(u)
  {
    forall i | 0 <= i < |ts| ensures ts[i].name in TallyKeys(u) {
      if u != t {
        if i < |ts| - 1 {
          var k :| 0 <= k < |t| && TallyKeys(t)[k] == ts[i].name;
          assert TallyKeys(u)[k] == ts[i].name;
        } else {
          assert TallyKeys(u)[|t|] == ts[i].name;
        }
      }
    }
  }

  lemma FreshTallyNamed(ts: seq<Territory>, t: Tally, u: Tally)
    requires |ts| > 0 && forall n :: n in TallyKeys(t) ==> exists i :: 0 <= i < |ts| - 1 && ts[i].name == n
    requires u == if ts[|ts| - 1].name in TallyKeys(t) then t else t + [(ts[|ts| - 1].name, 0)]
    ensures forall n :: n in TallyKeys(u) ==> exists i :: 0 <= i < |ts| && ts[i].name == n
  {
    forall m | m in TallyKeys(u) ensures exists i :: 0 <= i < |ts| && ts[i].name == m {
      var k :| 0 <= k < |u| && TallyKeys(u)[k] == m;
      if k < |t| {
        assert TallyKeys(t)[k] == m;
        var i :| 0 <= i < |ts| - 1 && ts[i].name == m;
      } else {
        assert ts[|ts| - 1].name == m;
      }
    }
  }

  /** Appending a name that is not yet a key keeps the keys distinct and
      the counts zero. */
  lemma FreshTallyDistinct(t: Tally, n: string)
    requires forall k, l :: 0 <= k < l < |t| ==> t[k].0 != t[l].0
    requires forall k :: 0 <= k < |t| ==> t[k].1 == 0
    requires n !in TallyKeys(t)
    ensures var u := t + [(n, 0)];
      && (forall k, l :: 0 <= k < l < |u| ==> u[k].0 != u[l].0)
      && (forall k :: 0 <= k < |u| ==> u[k].1 == 0)
  {
  }

  /** Two tallies with the same keys in the same order. */
  ghost predicate SameKeys(t: Tally, u: Tally) {
    |t| == |u| && forall k :: 0 <= k < |t| ==> u[k].0 == t[k].0
  }

  /** `muertes_en_territorio[nombre] += 1`. */
  function BumpTally(t: Tally, name: string): (u: Tally)
    ensures SameKeys(t, u)
    ensures forall k :: 0 <= k < |t| ==> u[k].1 == t[k].1 + if t[k].0 == name then 1 else 0
  {
    seq(|t|, k requires 0 <= k < |t| => if t[k].0 == name then (name, t[k].1 + 1) else t[k])
  }

  // ---------------------------------------------------------------------
  // State of a run
  // ---------------------------------------------------------------------

  /** Everything `simular` keeps across turns: the persons, the coin
      deposits, `muertes_por_rol`, `muertes_en_territorio`,
      `total_comercios`, `historia_roles` and `historia_riqueza`. */
  datatype State = State(
    persons: seq<Person>,
    deposits: Deposits,
    deathsByRole: PerRole<int>,
    deathsByTerritory: Tally,
    trades: int,
    population: PerRole<seq<int>>,
    wealth: PerRole<seq<int>>)

  /** The books as `simular` opens them: every counter at zero, every
      history empty. */
  function Opening(ps: seq<Person>, deps: Deposits, ts: seq<Territory>): State {
    State(ps, deps, Uniform(0), NewTally(ts), 0, Uniform([]), Uniform([]))
  }

  /** The state before the first turn. */
  function Start(spawn: nat -> Spawn, seeds: nat -> Drop): State {
    var ts := CreateTerritories();
    Opening(CreatePersons(spawn), InitDeposits(seeds, ts), ts)
  }

  // ---------------------------------------------------------------------
  // Grouping by cell: `agrupar_por_posicion`
  // ---------------------------------------------------------------------

  /** Reference definition: indices below `n` of the living persons standing
      on `c`, in list order. */
  function LivingAt(ps: seq<Person>, c: Pos, n: nat): seq<nat>
    requires n <= |ps|
  {
    if n == 0 then []
    else LivingAt(ps, c, n - 1) + (if IsAlive(ps[n - 1]) && ps[n - 1].Position() == c then [n - 1] else [])
  }

  lemma {:induction false} LivingAtSpec(ps: seq<Person>, c: Pos, n: nat)
    requires n <= |ps|
    ensures forall i: nat :: i in LivingAt(ps, c, n) <==> i < n && IsAlive(ps[i]) && ps[i].Position() == c
    ensures Increasing(LivingAt(ps, c, n))
  {
    if n > 0 {
      LivingAtSpec(ps, c, n - 1);
      var L := LivingAt(ps, c, n - 1);
      forall a | 0 <= a < |L|
        ensures L[a] < n - 1
      {
        assert L[a] in L;
      }
    }
  }

  /** The `(cell, index)` pairs the grouping loop appends, for the first `n`
      persons. */
  function LivingEntries(ps: seq<Person>, n: nat): seq<(Pos, nat)>
    requires n <= |ps|
  {
    if n == 0 then []
    else LivingEntries(ps, n - 1) + (if IsAlive(ps[n - 1]) then [(ps[n - 1].Position(), n - 1)] else [])
  }

  /** `agrupar_por_posicion(personas)`, with persons as list indices. */
  function GroupByPosition(ps: seq<Person>): (g: Buckets<Pos, nat>)
    ensures DistinctKeys(g)
  {
    PushAll([], LivingEntries(ps, |ps|))
  }

  lemma {:induction false} LivingEntriesAt(ps: seq<Person>, c: Pos, n: nat)
    requires n <= |ps|
    ensures ValuesAt(LivingEntries(ps, n), c) == LivingAt(ps, c, n)
  {
    if n > 0 {
      LivingEntriesAt(ps, c, n - 1);
      var e := LivingEntries(ps, n - 1);
      if IsAlive(ps[n - 1]) {
        assert (e + [(ps[n - 1].Position(), n - 1)])[..|e|] == e;
      } else {
        assert LivingEntries(ps, n) == e;
        assert LivingAt(ps, c, n) == LivingAt(ps, c, n - 1);
      }
    }
  }

  /** Each cell's group is exactly the living persons on it, in list order;
      a cell is a key exactly when somebody alive stands on it. */
  lemma GroupByPositionSpec(ps: seq<Person>, c: Pos)
    ensures Lookup(GroupByPosition(ps), c) == LivingAt(ps, c, |ps|)
    ensures Get(GroupByPosition(ps), c).Some? <==> |LivingAt(ps, c, |ps|)| > 0
  {
    PushAllLookup([], LivingEntries(ps, |ps|), c);
    LivingEntriesAt(ps, c, |ps|);
  }

  /** Every living person is in the group of its cell, and nobody dead is in
      any group. */
  lemma GroupingCoversTheLiving(ps: seq<Person>, i: nat, c: Pos)
    requires i < |ps|
    ensures i in Lookup(GroupByPosition(ps), c) <==> IsAlive(ps[i]) && ps[i].Position() == c
  {
    GroupByPositionSpec(ps, c);
    LivingAtSpec(ps, c, |ps|);
  }

  /** Each stored group is increasing and holds valid indices. */
  ghost predicate OrderedGroups(g: Buckets<Pos, nat>, n: nat) {
    forall i :: 0 <= i < |g| ==> Increasing(g[i].1) && forall a :: a in g[i].1 ==> a < n
  }

  lemma GroupsAreOrdered(ps: seq<Person>)
    ensures OrderedGroups(GroupByPosition(ps), |ps|)
  {
    var g := GroupByPosition(ps);
    forall i | 0 <= i < |g|
      ensures Increasing(g[i].1) && forall a :: a in g[i].1 ==> a < |ps|
    {
      FindUnique(g, g[i].0, i);
      GroupByPositionSpec(ps, g[i].0);
      LivingAtSpec(ps, g[i].0, |ps|);
    }
  }

  // ---------------------------------------------------------------------
  // Pairs of a cell: `for i ...: for j in range(i + 1, ...)`
  // ---------------------------------------------------------------------

  /** The pairs `(agentes[i], agentes[j])`, `i < j`, in loop order; a cell
      with fewer than two persons yields none. */
  function CellPairs(agents: seq<nat>): (pairs: seq<(nat, nat)>)
    ensures forall k :: 0 <= k < |pairs| ==> pairs[k].0 in agents && pairs[k].1 in agents
    ensures Increasing(agents) ==> forall k :: 0 <= k < |pairs| ==> pairs[k].0 < pairs[k].1
    decreases |agents|
  {
    if |agents| < 2 then []
    else
      var row := seq(|agents| - 1, j requires 0 <= j < |agents| - 1 => (agents[0], agents[j + 1]));
      assert forall k :: 0 <= k < |row| ==> row[k].1 == agents[k + 1];
      row + CellPairs(agents[1..])
  }

  /** Every pair of positions `i < j` is visited. */
  lemma {:induction false} CellPairsComplete(agents: seq<nat>, i: nat, j: nat)
    requires i < j < |agents|
    ensures (agents[i], agents[j]) in CellPairs(agents)
    decreases |agents|
  {
    var row := seq(|agents| - 1, k requires 0 <= k < |agents| - 1 => (agents[0], agents[k + 1]));
    assert CellPairs(agents) == row + CellPairs(agents[1..]);
    if i == 0 {
      assert row[j - 1] == (agents[i], agents[j]);
    } else {
      CellPairsComplete(agents[1..], i - 1, j - 1);
    }
  }

  /** Every pair visited is a pair of positions `i < j`. */
  lemma {:induction false} CellPairsSound(agents: seq<nat>, k: nat)
    requires k < |CellPairs(agents)|
    ensures exists i, j :: 0 <= i < j < |agents| && CellPairs(agents)[k] == (agents[i], agents[j])
    decreases |agents|
  {
    var row := seq(|agents| - 1, l requires 0 <= l < |agents| - 1 => (agents[0], agents[l + 1]));
    assert CellPairs(agents) == row + CellPairs(agents[1..]);
    if k < |row| {
      assert CellPairs(agents)[k] == (agents[0], agents[k + 1]);
    } else {
      CellPairsSound(agents[1..], k - |row|);
      var i, j :| 0 <= i < j < |agents[1..]| && CellPairs(agents[1..])[k - |row|] == (agents[1..][i], agents[1..][j]);
      assert CellPairs(agents)[k] == (agents[i + 1], agents[j + 1]);
    }
  }

  /** All pairs of the turn, cell by cell in dictionary order. */
  function TurnPairs(g: Buckets<Pos, nat>): seq<(nat, nat)> {
    if |g| == 0 then [] else CellPairs(g[0].1) + TurnPairs(g[1..])
  }

  /** Pairs of distinct valid indices, smaller first. */
  ghost predicate ValidPairs(pairs: seq<(nat, nat)>, n: nat) {
    forall k :: 0 <= k < |pairs| ==> pairs[k].0 < pairs[k].1 < n
  }

  lemma {:induction false} TurnPairsValid(g: Buckets<Pos, nat>, n: nat)
    requires OrderedGroups(g, n)
    ensures ValidPairs(TurnPairs(g), n)
    decreases |g|
  {
    if |g| > 0 {
      assert OrderedGroups(g[1..], n) by {
        forall i | 0 <= i < |g[1..]|
          ensures Increasing(g[1..][i].1) && forall a :: a in g[1..][i].1 ==> a < n
        {
          assert g[1..][i] == g[i + 1];
        }
      }
      TurnPairsValid(g[1..], n);
    }
  }

  /** Every pair of the turn comes from the group of one cell. */
  lemma {:induction false} TurnPairsFromCells(g: Buckets<Pos, nat>, k: nat)
    requires k < |TurnPairs(g)|
    ensures exists m :: 0 <= m < |g| && TurnPairs(g)[k] in CellPairs(g[m].1)
    decreases |g|
  {
    var head := CellPairs(g[0].1);
    assert TurnPairs(g) == head + TurnPairs(g[1..]);
    if k < |head| {
      assert TurnPairs(g)[k] == head[k];
    } else {
      TurnPairsFromCells(g[1..], k - |head|);
      var m :| 0 <= m < |g[1..]| && TurnPairs(g[1..])[k - |head|] in CellPairs(g[1..][m].1);
      assert g[1..][m] == g[m + 1];
    }
  }

  /** Every pair of a cell's group is among the pairs of the turn. */
  lemma {:induction false} TurnPairsIncludeCell(g: Buckets<Pos, nat>, m: nat, p: (nat, nat))
    requires m < |g| && p in CellPairs(g[m].1)
    ensures p in TurnPairs(g)
    decreases m
  {
    assert TurnPairs(g) == CellPairs(g[0].1) + TurnPairs(g[1..]);
    if m > 0 {
      assert g[1..][m - 1] == g[m];
      TurnPairsIncludeCell(g[1..], m - 1, p);
    }
  }

  /** Only living persons sharing a cell interact, the smaller index
      first. */
  lemma TurnPairsColocated(ps: seq<Person>, k: nat)
    requires k < |TurnPairs(GroupByPosition(ps))|
    ensures var p := TurnPairs(GroupByPosition(ps))[k];
      && p.0 < p.1 < |ps| && IsAlive(ps[p.0]) && IsAlive(ps[p.1])
      && ps[p.0].Position() == ps[p.1].Position()
  {
    var g := GroupByPosition(ps);
    GroupsAreOrdered(ps);
    TurnPairsValid(g, |ps|);
    var p := TurnPairs(g)[k];
    TurnPairsFromCells(g, k);
    var m :| 0 <= m < |g| && p in CellPairs(g[m].1);
    var cp := CellPairs(g[m].1);
    var l :| 0 <= l < |cp| && cp[l] == p;
    assert p.0 in g[m].1 && p.1 in g[m].1;
    FindUnique(g, g[m].0, m);
    assert Lookup(g, g[m].0) == g[m].1;
    GroupingCoversTheLiving(ps, p.0, g[m].0);
    GroupingCoversTheLiving(ps, p.1, g[m].0);
  }

  /** Conversely, every two living persons sharing a cell interact. */
  lemma TurnPairsCoverColocated(ps: seq<Person>, i: nat, j: nat)
    requires i < j < |ps| && IsAlive(ps[i]) && IsAlive(ps[j])
    requires ps[i].Position() == ps[j].Position()
    ensures (i, j) in TurnPairs(GroupByPosition(ps))
  {
    var g := GroupByPosition(ps);
    var c := ps[i].Position();
    GroupingCoversTheLiving(ps, i, c);
    GroupingCoversTheLiving(ps, j, c);
    GroupByPositionSpec(ps, c);
    LivingAtSpec(ps, c, |ps|);
    var m := Find(g, c).value;
    var L := g[m].1;
    assert L == Lookup(g, c);
    var a :| 0 <= a < |L| && L[a] == i;
    var b :| 0 <= b < |L| && L[b] == j;
    assert a < b;
    CellPairsComplete(L, a, b);
    TurnPairsIncludeCell(g, m, (i, j));
  }

  // ---------------------------------------------------------------------
  // Death ledgers: `muertes_por_rol` and `muertes_en_territorio`
  // ---------------------------------------------------------------------

  /** Book the death of person `i`: one more for its role and, when its cell
      lies in a territory, one more for the first such territory's name. */
  function RecordDeath(s: State, i: nat, ts: seq<Territory>): (r: State)
    requires i < |s.persons|
    ensures r == s.(deathsByRole := r.deathsByRole, deathsByTerritory := r.deathsByTerritory)
    ensures SameKeys(s.deathsByTerritory, r.deathsByTerritory)
  {
    var p := s.persons[i];
    var place := TerritoryName(p.x, p.y, ts);
    s.(deathsByRole := Bump(s.deathsByRole, p.role),
       deathsByTerritory := if place.Some? then BumpTally(s.deathsByTerritory, place.value) else s.deathsByTerritory)
  }

  /** A death moves tally entry `k` by one exactly when the dead person's
      cell lies first in the territory of that entry's name. */
  lemma RecordDeathTally(s: State, i: nat, ts: seq<Territory>, k: nat)
    requires i < |s.persons| && k < |s.deathsByTerritory|
    ensures var t := RecordDeath(s, i, ts).deathsByTerritory;
      var p := s.persons[i];
      |t| == |s.deathsByTerritory| && t[k].0 == s.deathsByTerritory[k].0
      && t[k].1 == s.deathsByTerritory[k].1 + if TerritoryName(p.x, p.y, ts) == Some(s.deathsByTerritory[k].0) then 1 else 0
  {
  }

  /** Book the deaths of the listed persons, in order. */
  function RecordAll(s: State, ds: seq<nat>, ts: seq<Territory>): (r: State)
    requires forall k :: 0 <= k < |ds| ==> ds[k] < |s.persons|
    ensures r == s.(deathsByRole := r.deathsByRole, deathsByTerritory := r.deathsByTerritory)
    ensures SameKeys(s.deathsByTerritory, r.deathsByTerritory)
  {
    if |ds| == 0 then s else RecordDeath(RecordAll(s, ds[..|ds| - 1], ts), ds[|ds| - 1], ts)
  }

  /** The ledgers of `s` agree with the census of `ps`: per role, the number
      of dead members; per tally entry, the number of dead persons whose
      cell lies first in the territory of that name. */
  ghost predicate Ledgers(s: State, ps: seq<Person>, ts: seq<Territory>) {
    && (forall r :: s.deathsByRole.At(r) == Census(ps, Dead(r)))
    && (forall k :: 0 <= k < |s.deathsByTerritory| ==>
          s.deathsByTerritory[k].1 == Census(ps, DeadAt(ts, s.deathsByTerritory[k].0)))
  }

  /** Persons `qs` replace `ps` without anyone changing role and without
      touching the dead. */
  ghost predicate SameRolesDeadKept(ps: seq<Person>, qs: seq<Person>) {
    |ps| == |qs| &&
    forall i :: 0 <= i < |ps| ==> qs[i].role == ps[i].role && (!IsAlive(ps[i]) ==> qs[i] == ps[i])
  }

  /** Booking the newly dead of the first `n` persons is booking those of
      the first `n - 1` and then person `n - 1` if it just died. */
  lemma RecordNewlyDeadStep(s: State, ps: seq<Person>, n: nat, ts: seq<Territory>)
    requires 0 < n <= |ps| == |s.persons|
    ensures var before := RecordAll(s, NewlyDead(ps, s.persons, n - 1), ts);
      RecordAll(s, NewlyDead(ps, s.persons, n), ts)
        == if IsAlive(ps[n - 1]) && !IsAlive(s.persons[n - 1]) then RecordDeath(before, n - 1, ts) else before
  {
    var L := NewlyDead(ps, s.persons, n - 1);
    if IsAlive(ps[n - 1]) && !IsAlive(s.persons[n - 1]) {
      assert NewlyDead(ps, s.persons, n) == L + [n - 1];
      assert (L + [n - 1])[..|L|] == L;
    } else {
      assert NewlyDead(ps, s.persons, n) == L;
    }
  }

  /** Booking the newly dead of the first `n` persons moves a role's death
      counter by exactly the change in that role's dead census over the
      prefix. */
  lemma {:induction false} RecordNewlyDeadByRole(s: State, ps: seq<Person>, n: nat, ts: seq<Territory>, role: Role)
    requires n <= |ps| && SameRolesDeadKept(ps, s.persons)
    ensures RecordAll(s, NewlyDead(ps, s.persons, n), ts).deathsByRole.At(role) + Census(ps[..n], Dead(role))
            == s.deathsByRole.At(role) + Census(s.persons[..n], Dead(role))
  {
    var qs := s.persons;
    if n > 0 {
      RecordNewlyDeadByRole(s, ps, n - 1, ts, role);
      RecordNewlyDeadStep(s, ps, n, ts);
      CensusSnoc(ps, n, Dead(role));
      CensusSnoc(qs, n, Dead(role));
    }
  }

  /** Likewise for tally entry `k`: its count moves by exactly the change in
      the census of the dead booked to its name. */
  lemma {:induction false} RecordNewlyDeadByTerritory(s: State, ps: seq<Person>, n: nat, ts: seq<Territory>, k: nat)
    requires n <= |ps| && SameRolesDeadKept(ps, s.persons) && k < |s.deathsByTerritory|
    ensures var t := RecordAll(s, NewlyDead(ps, s.persons, n), ts).deathsByTerritory;
      var name := s.deathsByTerritory[k].0;
      |t| == |s.deathsByTerritory| && t[k].0 == name
      && t[k].1 + Census(ps[..n], DeadAt(ts, name)) == s.deathsByTerritory[k].1 + Census(s.persons[..n], DeadAt(ts, name))
  {
    var qs := s.persons;
    var name := s.deathsByTerritory[k].0;
    if n > 0 {
      RecordNewlyDeadByTerritory(s, ps, n - 1, ts, k);
      RecordNewlyDeadStep(s, ps, n, ts);
      var s' := RecordAll(s, NewlyDead(ps, qs, n - 1), ts);
      CensusSnoc(ps, n, DeadAt(ts, name));
      CensusSnoc(qs, n, DeadAt(ts, name));
      if IsAlive(ps[n - 1]) && !IsAlive(qs[n - 1]) {
        RecordDeathTally(s', n - 1, ts, k);
        assert s'.persons == qs;
      }
    }
  }

  // ---------------------------------------------------------------------
  // Phase 0: the global event
  // ---------------------------------------------------------------------

  /** Apply the turn's event, if any, and book every person it killed. */
  function EventPhase(s: State, ev: Option<Event>, ts: seq<Territory>, draws: EventDraws): (r: State)
    ensures r == s.(persons := r.persons, deposits := r.deposits,
                    deathsByRole := r.deathsByRole, deathsByTerritory := r.deathsByTerritory)
    ensures |r.persons| == |s.persons|
    ensures SameKeys(s.deathsByTerritory, r.deathsByTerritory)
    ensures ev.None? ==> r == s
  {
    if ev.None? then s
    else
      var o := ApplyEvent(ev.value, s.persons, s.deposits, Width, Height, draws);
      RecordAll(s.(persons := o.persons, deposits := o.deposits), o.deaths, ts)
  }

  // ---------------------------------------------------------------------
  // Phase 1: territory labels
  // ---------------------------------------------------------------------

  /** Every living person is labelled with the first territory containing
      its cell (or none); the dead keep their last label. */
  function LabelPhase(ps: seq<Person>, ts: seq<Territory>): (qs: seq<Person>)
    ensures |qs| == |ps|
    ensures forall i :: 0 <= i < |ps| ==> qs[i] == ps[i].(territory := qs[i].territory)
    ensures forall i :: 0 <= i < |ps| && !IsAlive(ps[i]) ==> qs[i] == ps[i]
  {
    seq(|ps|, i requires 0 <= i < |ps| =>
      if IsAlive(ps[i]) then ps[i].(territory := TerritoryName(ps[i].x, ps[i].y, ts)) else ps[i])
  }

  /** After labelling on the fixed map, a living person is in a territory
      exactly when its cell lies in that territory's square. */
  lemma LabelsMatchTheMap(ps: seq<Person>, i: nat)
    requires i < |ps| && IsAlive(ps[i])
    ensures var q := LabelPhase(ps, CreateTerritories())[i];
      var x, y := ps[i].x, ps[i].y;
      && (InTerritory(q, "Bosque Umbrío") <==> 0 <= x <= 6 && 0 <= y <= 6)
      && (InTerritory(q, "Ciudad Central") <==> 7 <= x <= 12 && 7 <= y <= 12)
      && (InTerritory(q, "Cumbres Rocosas") <==> 13 <= x <= 19 && 13 <= y <= 19)
      && (q.territory.None? <==> !(0 <= x <= 6 && 0 <= y <= 6) && !(7 <= x <= 12 && 7 <= y <= 12)
                                 && !(13 <= x <= 19 && 13 <= y <= 19))
  {
    var ts := CreateTerritories();
    WhereEachKindLies(ps[i].x, ps[i].y);
    assert LabelPhase(ps, ts)[i].territory == TerritoryName(ps[i].x, ps[i].y, ts);
  }

  // ---------------------------------------------------------------------
  // Phase 2: movement
  // ---------------------------------------------------------------------

  /** `q` is `p` moved by one of the nine unit deltas on the torus. */
  ghost predicate Stepped(p: Person, q: Person) {
    exists d :: d in Options && q.x == Wrap(p.x + d.0, Width) && q.y == Wrap(p.y + d.1, Height)
  }

  /** One living person's move: the chosen delta, wrapped, its new cell
      marked visited, one turn older. */
  function Advance(p: Person, d: Delta): (q: Person)
    requires d in Options
    ensures q == p.(x := q.x, y := q.y, visited := q.visited, age := q.age)
    ensures q.age == p.age + 1 && OnBoard(q, Width, Height) && Stepped(p, q)
    ensures q.visited == p.visited + {q.Position()}
  {
    var q := Move(p, d.0, d.1, Width, Height).(age := p.age + 1);
    StepsByOption(p, q, d);
    q
  }

  lemma StepsByOption(p: Person, q: Person, d: Delta)
    requires d in Options && q.x == Wrap(p.x + d.0, Width) && q.y == Wrap(p.y + d.1, Height)
    ensures Stepped(p, q)
  {
  }

  /** The movement loop over the first `n` persons: each living person
      decides against the list as it stands (earlier persons have already
      moved), moves, marks its new cell visited and ages one turn. */
  function MovePhase(ps: seq<Person>, n: nat, deps: Deposits, ts: seq<Territory>, moves: nat -> MoveDraw): (qs: seq<Person>)
    requires n <= |ps|
    ensures |qs| == |ps|
    ensures forall i :: n <= i < |ps| ==> qs[i] == ps[i]
    ensures forall i :: 0 <= i < |ps| && !IsAlive(ps[i]) ==> qs[i] == ps[i]
    ensures forall i :: 0 <= i < |ps| ==> qs[i] == ps[i].(x := qs[i].x, y := qs[i].y, visited := qs[i].visited, age := qs[i].age)
    ensures forall i :: 0 <= i < n && IsAlive(ps[i]) ==>
      && qs[i].age == ps[i].age + 1 && OnBoard(qs[i], Width, Height) && Stepped(ps[i], qs[i])
      && qs[i].visited == ps[i].visited + {qs[i].Position()}
  {
    MoveLoopShape(ps, n, deps, ts, moves);
    Iterate(ps, n, Mover(deps, ts, moves))
  }

  /** One iteration of the movement loop: person `i`, if alive, decides
      against the list as it stands and moves; nobody else changes. */
  function MoveOne(qs: seq<Person>, i: nat, deps: Deposits, ts: seq<Territory>, moves: nat -> MoveDraw): (rs: seq<Person>)
    ensures |rs| == |qs|
    ensures forall j :: 0 <= j < |qs| && j != i ==> rs[j] == qs[j]
    ensures i < |qs| && IsAlive(qs[i]) ==> rs[i] == Advance(qs[i], Decide(qs, i, deps, ts, Width, Height, moves(i)))
    ensures i < |qs| && !IsAlive(qs[i]) ==> rs[i] == qs[i]
  {
    if i < |qs| && IsAlive(qs[i]) then
      qs[i := Advance(qs[i], Decide(qs, i, deps, ts, Width, Height, moves(i)))]
    else qs
  }

  /** The body of the movement loop as a value, so that the loop itself can
      be reasoned about without it. */
  function Mover(deps: Deposits, ts: seq<Territory>, moves: nat -> MoveDraw): (seq<Person>, nat) -> seq<Person> {
    (qs: seq<Person>, i: nat) => MoveOne(qs, i, deps, ts, moves)
  }

  /** The first `n` iterations of a loop over a list whose body is `step`. */
  function Iterate(ps: seq<Person>, n: nat, step: (seq<Person>, nat) -> seq<Person>): seq<Person> {
    if n == 0 then ps else step(Iterate(ps, n - 1, step), n - 1)
  }

  /** A loop body that keeps the length of the list and rewrites at most
      the entry it is given. */
  ghost predicate TouchesOnlyItsOwn(step: (seq<Person>, nat) -> seq<Person>) {
    && (forall qs: seq<Person>, i: nat :: |step(qs, i)| == |qs|)
    && (forall qs: seq<Person>, i: nat, j: nat :: j < |qs| && j != i ==> step(qs, i)[j] == qs[j])
  }

  /** In such a loop, an entry once visited is left alone by the later
      iterations. */
  lemma {:induction false} IterateFrame(ps: seq<Person>, n: nat, step: (seq<Person>, nat) -> seq<Person>, i: nat)
    requires TouchesOnlyItsOwn(step) && i < n <= |ps|
    ensures |Iterate(ps, n, step)| == |Iterate(ps, i + 1, step)| == |ps|
    ensures Iterate(ps, n, step)[i] == Iterate(ps, i + 1, step)[i]
    decreases n
  {
    IterateLength(ps, n, step);
    IterateLength(ps, i + 1, step);
    if n > i + 1 {
      IterateFrame(ps, n - 1, step, i);
    }
  }

  /** Such a loop keeps the length of the list. */
  lemma {:induction false} IterateLength(ps: seq<Person>, n: nat, step: (seq<Person>, nat) -> seq<Person>)
    requires TouchesOnlyItsOwn(step)
    ensures |Iterate(ps, n, step)| == |ps|
    decreases n
  {
    if n > 0 {
      IterateLength(ps, n - 1, step);
    }
  }

  /** `qs` is `ps` after the movement loop has visited the first `n`
      persons: the dead and those not yet reached are as they were, the
      living took one step, marked the new cell visited and aged one turn. */
  ghost predicate MovedSoFar(ps: seq<Person>, qs: seq<Person>, n: nat) {
    && |qs| == |ps|
    && (forall i :: n <= i < |ps| ==> qs[i] == ps[i])
    && (forall i :: 0 <= i < |ps| && !IsAlive(ps[i]) ==> qs[i] == ps[i])
    && (forall i :: 0 <= i < |ps| ==> qs[i] == ps[i].(x := qs[i].x, y := qs[i].y, visited := qs[i].visited, age := qs[i].age))
    && (forall i :: 0 <= i < n && i < |ps| && IsAlive(ps[i]) ==>
          && qs[i].age == ps[i].age + 1 && OnBoard(qs[i], Width, Height) && Stepped(ps[i], qs[i])
          && qs[i].visited == ps[i].visited + {qs[i].Position()})
  }

  /** What the loop does to each person, as `MovedSoFar` describes it. */
  lemma {:induction false} MoveLoopShape(ps: seq<Person>, n: nat, deps: Deposits, ts: seq<Territory>, moves: nat -> MoveDraw)
    requires n <= |ps|
    ensures MovedSoFar(ps, Iterate(ps, n, Mover(deps, ts, moves)), n)
    decreases n
  {
    if n > 0 {
      MoveLoopShape(ps, n - 1, deps, ts, moves);
      IterateMover(ps, n - 1, deps, ts, moves);
      MoveOneExtends(ps, Iterate(ps, n - 1, Mover(deps, ts, moves)), n - 1, deps, ts, moves);
    }
  }

  /** One more iteration of the movement loop is one more `MoveOne`. */
  lemma IterateMover(ps: seq<Person>, n: nat, deps: Deposits, ts: seq<Territory>, moves: nat -> MoveDraw)
    ensures Iterate(ps, n + 1, Mover(deps, ts, moves)) == MoveOne(Iterate(ps, n, Mover(deps, ts, moves)), n, deps, ts, moves)
  {
  }

  /** One more iteration extends the description by one person. */
  lemma MoveOneExtends(ps: seq<Person>, qs: seq<Person>, n: nat, deps: Deposits, ts: seq<Territory>, moves: nat -> MoveDraw)
    requires n < |ps| && MovedSoFar(ps, qs, n)
    ensures MovedSoFar(ps, MoveOne(qs, n, deps, ts, moves), n + 1)
  {
  }

  /** Each living person decides against the list as the loop has left it:
      everybody before it has already moved, nobody after it has. */
  lemma MovePhaseUsesLiveList(ps: seq<Person>, n: nat, deps: Deposits, ts: seq<Territory>, moves: nat -> MoveDraw, i: nat)
    requires i < n <= |ps| && IsAlive(ps[i])
    ensures MovePhase(ps, n, deps, ts, moves)[i]
         == Advance(ps[i], Decide(MovePhase(ps, i, deps, ts, moves), i, deps, ts, Width, Height, moves(i)))
  {
    var step := Mover(deps, ts, moves);
    MoverTouchesOnlyItsOwn(deps, ts, moves);
    IterateFrame(ps, n, step, i);
    var before := Iterate(ps, i, step);
    assert before == MovePhase(ps, i, deps, ts, moves);
    assert Iterate(ps, i + 1, step) == MoveOne(before, i, deps, ts, moves);
  }

  /** The body of the movement loop rewrites only the person it visits. */
  lemma MoverTouchesOnlyItsOwn(deps: Deposits, ts: seq<Territory>, moves: nat -> MoveDraw)
    ensures TouchesOnlyItsOwn(Mover(deps, ts, moves))
  {
  }

  // ---------------------------------------------------------------------
  // Phase 3: coin pickup
  // ---------------------------------------------------------------------

  /** The persons and the deposits as the pickup loop leaves them. */
  datatype Pickup = Pickup(persons: seq<Person>, deposits: Deposits)

  /** The pickup loop over the first `n` persons: each living person empties
      the deposit of its cell. */
  function CollectPhase(ps: seq<Person>, deps: Deposits, n: nat): (r: Pickup)
    requires n <= |ps|
    ensures |r.persons| == |ps|
  {
    if n == 0 then Pickup(ps, deps)
    else CollectAt(CollectPhase(ps, deps, n - 1), n - 1)
  }

  /** One pass of the pickup loop: person `i`, if alive, empties its cell. */
  function CollectAt(prev: Pickup, i: nat): (r: Pickup)
    requires i < |prev.persons|
    ensures |r.persons| == |prev.persons|
  {
    if IsAlive(prev.persons[i]) then
      var c := CollectCoins(prev.persons[i], prev.deposits);
      Pickup(prev.persons[i := c.0], c.1)
    else prev
  }

  /** What the pickup of person `i` does, as far as the loop needs it. */
  lemma CollectCoinsFacts(prev: Pickup, i: nat)
    requires i < |prev.persons|
    ensures var p := prev.persons[i];
      var c := CollectCoins(p, prev.deposits);
      && c.0 == p.(coins := c.0.coins)
      && (Sum(Lookup(prev.deposits, p.Position())) > 0 ==> c.0.coins == p.coins + Sum(Lookup(prev.deposits, p.Position())))
      && (Sum(Lookup(prev.deposits, p.Position())) <= 0 ==> c.0 == p)
      && (forall q :: q != p.Position() ==> Get(c.1, q) == Get(prev.deposits, q))
      && (DistinctKeys(prev.deposits) ==> DistinctKeys(c.1) && Get(c.1, p.Position()).None?)
      && (NoDebt(prev.deposits) ==> NoDebt(c.1) && c.0.coins + Total(c.1) == p.coins + Total(prev.deposits))
  {
    CollectCoinsPerson(prev.persons[i], prev.deposits);
    CollectCoinsDeposits(prev.persons[i], prev.deposits);
  }

  /** One pass touches only person `i`, and only its purse; a dead person
      changes nothing. */
  lemma CollectAtShape(prev: Pickup, i: nat)
    requires i < |prev.persons|
    ensures var r := CollectAt(prev, i);
      && (forall j :: 0 <= j < |prev.persons| && j != i ==> r.persons[j] == prev.persons[j])
      && (!IsAlive(prev.persons[i]) ==> r == prev)
      && r.persons[i] == prev.persons[i].(coins := r.persons[i].coins)
  {
    CollectCoinsFacts(prev, i);
  }

  /** One pass changes the deposits at most on the cell of person `i`,
      keeps cells distinct, and a living person leaves its cell without a
      deposit list. */
  lemma CollectAtEmpties(prev: Pickup, i: nat)
    requires i < |prev.persons|
    ensures var r := CollectAt(prev, i);
      && (forall c :: c != prev.persons[i].Position() ==> Get(r.deposits, c) == Get(prev.deposits, c))
      && (!IsAlive(prev.persons[i]) ==> r.deposits == prev.deposits)
      && (DistinctKeys(prev.deposits) ==> DistinctKeys(r.deposits))
      && (DistinctKeys(prev.deposits) && IsAlive(prev.persons[i]) ==> Get(r.deposits, prev.persons[i].Position()).None?)
  {
    CollectCoinsFacts(prev, i);
  }

  /** One pass keeps the deposits free of debt. */
  lemma CollectAtNoDebt(prev: Pickup, i: nat)
    requires i < |prev.persons| && NoDebt(prev.deposits)
    ensures NoDebt(CollectAt(prev, i).deposits)
  {
    CollectCoinsFacts(prev, i);
  }

  /** One pass lowers nobody's purse. */
  lemma CollectAtGains(prev: Pickup, i: nat)
    requires i < |prev.persons| && NoDebt(prev.deposits)
    ensures var r := CollectAt(prev, i);
      forall j :: 0 <= j < |prev.persons| ==> r.persons[j].coins >= prev.persons[j].coins
  {
    CollectCoinsFacts(prev, i);
    if IsAlive(prev.persons[i]) {
      NoDebtLookup(prev.deposits, prev.persons[i].Position());
    }
  }

  /** The coins in purses plus the coins lying on the board. */
  function Holdings(ps: seq<Person>, deps: Deposits): int {
    Census(ps, AllCoins) + Total(deps)
  }

  /** One pass moves coins from the deposits to a purse without creating or
      losing any. */
  lemma CollectAtConserves(prev: Pickup, i: nat)
    requires i < |prev.persons| && NoDebt(prev.deposits)
    ensures var r := CollectAt(prev, i);
      Holdings(r.persons, r.deposits) == Holdings(prev.persons, prev.deposits)
  {
    if IsAlive(prev.persons[i]) {
      var c := CollectCoins(prev.persons[i], prev.deposits);
      CollectCoinsFacts(prev, i);
      CensusUpdate(prev.persons, i, c.0, AllCoins);
    }
  }

  /** The loop over the first `n` persons leaves the rest and the dead
      untouched and changes nothing but purses. */
  lemma {:induction false} CollectPhaseShape(ps: seq<Person>, deps: Deposits, n: nat)
    requires n <= |ps|
    ensures var r := CollectPhase(ps, deps, n);
      && (forall i :: n <= i < |ps| ==> r.persons[i] == ps[i])
      && (forall i :: 0 <= i < |ps| && !IsAlive(ps[i]) ==> r.persons[i] == ps[i])
      && (forall i :: 0 <= i < |ps| ==> r.persons[i] == ps[i].(coins := r.persons[i].coins))
  {
    if n > 0 {
      CollectPhaseShape(ps, deps, n - 1);
      CollectAtShape(CollectPhase(ps, deps, n - 1), n - 1);
    }
  }

  /** The loop keeps the cells of the deposits distinct. */
  lemma {:induction false} CollectPhaseDistinct(ps: seq<Person>, deps: Deposits, n: nat)
    requires n <= |ps| && DistinctKeys(deps)
    ensures DistinctKeys(CollectPhase(ps, deps, n).deposits)
  {
    if n > 0 {
      CollectPhaseDistinct(ps, deps, n - 1);
      CollectAtEmpties(CollectPhase(ps, deps, n - 1), n - 1);
    }
  }

  // ---------------------------------------------------------------------
  // Invariants of a run
  // ---------------------------------------------------------------------

  /** Tallies with the same keys in the same order list the same names. */
  lemma SameKeysSameNames(t: Tally, u: Tally)
    requires SameKeys(t, u)
    ensures TallyKeys(t) == TallyKeys(u)
  {
    assert forall k :: 0 <= k < |t| ==> TallyKeys(t)[k] == TallyKeys(u)[k];
  }

  /** The bookkeeping of `simular` is faithful: the death ledgers agree with
      the population, every territory name has a tally entry (so the `+= 1`
      never misses), and `total_comercios` counts each trade once although
      both partners record it. */
  ghost predicate Accounted(s: State, ts: seq<Territory>) {
    && Ledgers(s, s.persons, ts)
    && (forall i :: 0 <= i < |ts| ==> ts[i].name in TallyKeys(s.deathsByTerritory))
    && 2 * s.trades == Census(s.persons, AllTrades)
  }

  /** A person the engine can hold: on the board, with a consistent alive
      flag and a balance that never went negative. */
  ghost predicate Healthy(p: Person) {
    OnBoard(p, Width, Height) && FlagDecides(p) && p.coins >= 0
  }

  /** Well-formed state: no two lists for one cell, no negative deposit,
      every person healthy. */
  ghost predicate Sound(s: State) {
    && DistinctKeys(s.deposits) && NoDebt(s.deposits)
    && forall i :: 0 <= i < |s.persons| ==> Healthy(s.persons[i])
  }

  /** All coins ever created and not yet destroyed: those carried, those
      lying on the board, and the two each trade burns. */
  function Wealth(s: State): int {
    Census(s.persons, AllCoins) + Total(s.deposits) + 2 * s.trades
  }

  /** Balances equal index by index give equal coin totals. */
  lemma SameCoins(ps: seq<Person>, qs: seq<Person>)
    requires |ps| == |qs| && forall i :: 0 <= i < |ps| ==> qs[i].coins == ps[i].coins
    ensures Census(ps, AllCoins) == Census(qs, AllCoins)
  {
    CensusAgree(ps, qs, AllCoins);
  }

  /** `q` replaces `p` in a way no ledger can see. */
  ghost predicate LedgerNeutral(p: Person, q: Person) {
    IsAlive(q) == IsAlive(p) && q.role == p.role && (!IsAlive(p) ==> q.x == p.x && q.y == p.y)
  }

  lemma NeutralUpdate(s: State, ps: seq<Person>, i: nat, q: Person, ts: seq<Territory>)
    requires i < |ps| && Ledgers(s, ps, ts) && LedgerNeutral(ps[i], q)
    ensures Ledgers(s, ps[i := q], ts)
  {
    forall r: Role {
      CensusUpdate(ps, i, q, Dead(r));
    }
    forall k | 0 <= k < |s.deathsByTerritory| {
      CensusUpdate(ps, i, q, DeadAt(ts, s.deathsByTerritory[k].0));
    }
  }

  /** Killing a living person in place and booking the death keeps the
      ledgers in step. */
  lemma DeathUpdate(s: State, ps: seq<Person>, i: nat, q: Person, ts: seq<Territory>)
    requires i < |ps| && Ledgers(s, ps, ts)
    requires IsAlive(ps[i]) && !IsAlive(q) && q.role == ps[i].role && q.x == ps[i].x && q.y == ps[i].y
    ensures Ledgers(RecordDeath(s.(persons := ps[i := q]), i, ts), ps[i := q], ts)
  {
    var r := RecordDeath(s.(persons := ps[i := q]), i, ts);
    forall role: Role {
      CensusUpdate(ps, i, q, Dead(role));
    }
    forall k | 0 <= k < |s.deathsByTerritory|
      ensures r.deathsByTerritory[k].1 == Census(ps[i := q], DeadAt(ts, r.deathsByTerritory[k].0))
    {
      RecordDeathTally(s.(persons := ps[i := q]), i, ts, k);
      CensusUpdate(ps, i, q, DeadAt(ts, s.deathsByTerritory[k].0));
    }
  }

  /** Replacing the persons index by index with ledger-neutral ones keeps
      the accounts, provided no trade counter moves. */
  lemma NeutralKeepsAccounts(s: State, qs: seq<Person>, ts: seq<Territory>)
    requires Accounted(s, ts) && |qs| == |s.persons|
    requires forall i :: 0 <= i < |qs| ==> LedgerNeutral(s.persons[i], qs[i]) && qs[i].trades == s.persons[i].trades
    ensures Accounted(s.(persons := qs), ts)
  {
    forall r: Role {
      CensusAgree(s.persons, qs, Dead(r));
    }
    forall k | 0 <= k < |s.deathsByTerritory| {
      CensusAgree(s.persons, qs, DeadAt(ts, s.deathsByTerritory[k].0));
    }
    CensusAgree(s.persons, qs, AllTrades);
  }

  // ---------------------------------------------------------------------
  // What each phase preserves
  // ---------------------------------------------------------------------

  /** Coins the turn's event pours onto the board: the sum of the ten rain
      drops when it rains, nothing otherwise. */
  function RainAmount(ev: Option<Event>, draws: EventDraws): (a: int)
    ensures ev != Some(Rain) ==> a == 0
    ensures ev == Some(Rain) ==> RainDrops <= a <= 5 * RainDrops
  {
    if ev == Some(Rain) then
      RainCellsSum(RainDrops, draws.rain, Width, Height);
      SumValues(RainCells(RainDrops, draws.rain, Width, Height))
    else 0
  }

  /** The event phase keeps the books: every person it killed is booked
      once, under its role and its territory. */
  lemma EventPhaseAccounts(s: State, ev: Option<Event>, ts: seq<Territory>, draws: EventDraws)
    requires Accounted(s, ts)
    ensures Accounted(EventPhase(s, ev, ts, draws), ts)
  {
    if ev.Some? {
      var o := ApplyEvent(ev.value, s.persons, s.deposits, Width, Height, draws);
      var r := EventPhase(s, ev, ts, draws);
      EventPhaseTakesOutcome(s, ev, ts, draws);
      EventPhaseLedgers(s, ev, ts, draws);
      SameKeysSameNames(s.deathsByTerritory, r.deathsByTerritory);
      CensusAgree(s.persons, o.persons, AllTrades);
    }
  }

  /** Booking the newly dead of a whole replacement `s.persons` for `ps`
      turns ledgers that agreed with `ps` into ledgers that agree with
      `s.persons`. */
  lemma BookNewlyDead(s: State, ps: seq<Person>, ts: seq<Territory>)
    requires Ledgers(s, ps, ts) && SameRolesDeadKept(ps, s.persons)
    ensures Ledgers(RecordAll(s, NewlyDead(ps, s.persons, |ps|), ts), s.persons, ts)
  {
    var r := RecordAll(s, NewlyDead(ps, s.persons, |ps|), ts);
    assert ps[..|ps|] == ps && s.persons[..|ps|] == s.persons;
    forall role: Role
      ensures r.deathsByRole.At(role) == Census(s.persons, Dead(role))
    {
      RecordNewlyDeadByRole(s, ps, |ps|, ts, role);
    }
    forall k | 0 <= k < |r.deathsByTerritory|
      ensures r.deathsByTerritory[k].1 == Census(s.persons, DeadAt(ts, r.deathsByTerritory[k].0))
    {
      RecordNewlyDeadByTerritory(s, ps, |ps|, ts, k);
    }
  }

  /** The persons an event kills are booked once, under their roles and
      their territories. */
  lemma EventPhaseLedgers(s: State, ev: Option<Event>, ts: seq<Territory>, draws: EventDraws)
    requires ev.Some? && Ledgers(s, s.persons, ts)
    ensures Ledgers(EventPhase(s, ev, ts, draws), ApplyEvent(ev.value, s.persons, s.deposits, Width, Height, draws).persons, ts)
  {
    var ps := s.persons;
    var o := ApplyEvent(ev.value, ps, s.deposits, Width, Height, draws);
    var s1 := s.(persons := o.persons, deposits := o.deposits);
    assert EventPhase(s, ev, ts, draws) == RecordAll(s1, NewlyDead(ps, o.persons, |ps|), ts);
    assert SameRolesDeadKept(ps, o.persons);
    assert Ledgers(s1, ps, ts);
    BookNewlyDead(s1, ps, ts);
  }

  /** The event phase keeps the state sound, leaves the dead alone, and
      changes the wealth by exactly the rain. */
  lemma EventPhaseSound(s: State, ev: Option<Event>, ts: seq<Territory>, draws: EventDraws)
    requires Sound(s)
    ensures var r := EventPhase(s, ev, ts, draws);
      && Sound(r) && Wealth(r) == Wealth(s) + RainAmount(ev, draws)
      && forall i :: 0 <= i < |s.persons| && !IsAlive(s.persons[i]) ==> r.persons[i] == s.persons[i]
  {
    if ev.Some? {
      var o := ApplyEvent(ev.value, s.persons, s.deposits, Width, Height, draws);
      EventPhaseTakesOutcome(s, ev, ts, draws);
      EventKeepsPersonsHealthy(s, ev.value, draws);
      EventDepositsSound(s.persons, s.deposits, ev, draws);
      CensusAgree(s.persons, o.persons, AllCoins);
    }
  }

  /** With an event, the phase's persons and deposits are the event's, and
      the trade counter does not move. */
  lemma EventPhaseTakesOutcome(s: State, ev: Option<Event>, ts: seq<Territory>, draws: EventDraws)
    requires ev.Some?
    ensures var o := ApplyEvent(ev.value, s.persons, s.deposits, Width, Height, draws);
      var r := EventPhase(s, ev, ts, draws);
      r.persons == o.persons && r.deposits == o.deposits && r.trades == s.trades
  {
  }

  /** An event leaves every healthy person healthy. */
  lemma EventKeepsPersonsHealthy(s: State, e: Event, draws: EventDraws)
    requires forall i :: 0 <= i < |s.persons| ==> Healthy(s.persons[i])
    ensures var o := ApplyEvent(e, s.persons, s.deposits, Width, Height, draws);
      forall i :: 0 <= i < |o.persons| ==> Healthy(o.persons[i])
  {
    var o := ApplyEvent(e, s.persons, s.deposits, Width, Height, draws);
    forall i | 0 <= i < |o.persons| ensures Healthy(o.persons[i]) {
      assert Healthy(s.persons[i]);
    }
  }

  /** An event keeps the deposits sound and adds exactly the rain to
      them. */
  lemma EventDepositsSound(ps: seq<Person>, deps: Deposits, ev: Option<Event>, draws: EventDraws)
    requires ev.Some? && DistinctKeys(deps) && NoDebt(deps)
    ensures var o := ApplyEvent(ev.value, ps, deps, Width, Height, draws);
      DistinctKeys(o.deposits) && NoDebt(o.deposits) && Total(o.deposits) == Total(deps) + RainAmount(ev, draws)
  {
    if ev.value == Rain {
      var cs := RainCells(RainDrops, draws.rain, Width, Height);
      PushAllTotal(deps, cs);
      NoDebtPushAll(deps, cs);
    }
  }

  /** Labelling keeps the books, soundness and wealth. */
  lemma LabelPhaseKeeps(s: State, ts: seq<Territory>)
    requires Accounted(s, ts) && Sound(s)
    ensures var r := s.(persons := LabelPhase(s.persons, ts));
      Accounted(r, ts) && Sound(r) && Wealth(r) == Wealth(s)
  {
    var qs := LabelPhase(s.persons, ts);
    NeutralKeepsAccounts(s, qs, ts);
    CensusAgree(s.persons, qs, AllCoins);
  }

  /** Movement keeps the books, soundness and wealth. */
  lemma MovePhaseKeeps(s: State, ts: seq<Territory>, moves: nat -> MoveDraw)
    requires Accounted(s, ts) && Sound(s)
    ensures var r := s.(persons := MovePhase(s.persons, |s.persons|, s.deposits, ts, moves));
      Accounted(r, ts) && Sound(r) && Wealth(r) == Wealth(s)
  {
    var ps := s.persons;
    var qs := MovePhase(ps, |ps|, s.deposits, ts, moves);
    assert forall i :: 0 <= i < |qs| ==> (LedgerNeutral(ps[i], qs[i]) && qs[i].trades == ps[i].trades
                                        && qs[i].coins == ps[i].coins) by {
      forall i | 0 <= i < |qs|
        ensures LedgerNeutral(ps[i], qs[i]) && qs[i].trades == ps[i].trades && qs[i].coins == ps[i].coins
      {
        assert qs[i] == ps[i].(x := qs[i].x, y := qs[i].y, visited := qs[i].visited, age := qs[i].age);
      }
    }
    assert forall i :: 0 <= i < |qs| ==> Healthy(qs[i]) by {
      forall i | 0 <= i < |qs| ensures Healthy(qs[i]) {
        assert Healthy(ps[i]);
        assert qs[i] == ps[i].(x := qs[i].x, y := qs[i].y, visited := qs[i].visited, age := qs[i].age);
      }
    }
    NeutralKeepsAccounts(s, qs, ts);
    SameCoins(ps, qs);
  }

  /** Pickup keeps the deposits free of debt. */
  lemma {:induction false} CollectPhaseNoDebt(ps: seq<Person>, deps: Deposits, n: nat)
    requires n <= |ps| && NoDebt(deps)
    ensures NoDebt(CollectPhase(ps, deps, n).deposits)
  {
    if n > 0 {
      CollectPhaseNoDebt(ps, deps, n - 1);
      CollectAtNoDebt(CollectPhase(ps, deps, n - 1), n - 1);
    }
  }

  /** Pickup never lowers a balance. */
  lemma {:induction false} CollectPhaseGains(ps: seq<Person>, deps: Deposits, n: nat)
    requires n <= |ps| && NoDebt(deps)
    ensures var r := CollectPhase(ps, deps, n);
      forall i :: 0 <= i < |ps| ==> r.persons[i].coins >= ps[i].coins
  {
    if n > 0 {
      CollectPhaseGains(ps, deps, n - 1);
      CollectPhaseNoDebt(ps, deps, n - 1);
      var prev := CollectPhase(ps, deps, n - 1);
      CollectAtGains(prev, n - 1);
      assert CollectPhase(ps, deps, n) == CollectAt(prev, n - 1);
    }
  }

  /** Pickup conserves coins: what leaves the board is carried. */
  lemma {:induction false} CollectPhaseConserves(ps: seq<Person>, deps: Deposits, n: nat)
    requires n <= |ps| && NoDebt(deps)
    ensures var r := CollectPhase(ps, deps, n);
      Holdings(r.persons, r.deposits) == Holdings(ps, deps)
  {
    if n > 0 {
      CollectPhaseConserves(ps, deps, n - 1);
      CollectStepConserves(ps, deps, n);
    }
  }

  /** The last pass of the loop over the first `n` persons conserves coins. */
  lemma CollectStepConserves(ps: seq<Person>, deps: Deposits, n: nat)
    requires 0 < n <= |ps| && NoDebt(deps)
    ensures var r := CollectPhase(ps, deps, n);
      var prev := CollectPhase(ps, deps, n - 1);
      Holdings(r.persons, r.deposits) == Holdings(prev.persons, prev.deposits)
  {
    var prev := CollectPhase(ps, deps, n - 1);
    CollectPhaseNoDebt(ps, deps, n - 1);
    CollectAtConserves(prev, n - 1);
    assert CollectPhase(ps, deps, n) == CollectAt(prev, n - 1);
  }

  /** After pickup no living person of the first `n` stands on a cell that
      still has a deposit list. */
  lemma {:induction false} CollectPhaseClears(ps: seq<Person>, deps: Deposits, n: nat)
    requires n <= |ps| && DistinctKeys(deps)
    ensures var r := CollectPhase(ps, deps, n);
      forall i :: 0 <= i < n && IsAlive(ps[i]) ==> Get(r.deposits, ps[i].Position()).None?
  {
    if n > 0 {
      CollectPhaseClears(ps, deps, n - 1);
      CollectPhaseShape(ps, deps, n - 1);
      CollectPhaseDistinct(ps, deps, n - 1);
      var prev := CollectPhase(ps, deps, n - 1);
      CollectAtEmpties(prev, n - 1);
      var r := CollectAt(prev, n - 1);
      assert CollectPhase(ps, deps, n) == r;
      assert prev.persons[n - 1] == ps[n - 1];
      ClearsOneMore(ps, n, prev.deposits, r.deposits);
    }
  }

  /** The step of `CollectPhaseClears`: the deposits `after` differ from
      `before` at most on the cell of person `n - 1`, which a living person
      leaves empty. */
  lemma ClearsOneMore(ps: seq<Person>, n: nat, before: Deposits, after: Deposits)
    requires 0 < n <= |ps|
    requires forall i :: 0 <= i < n - 1 && IsAlive(ps[i]) ==> Get(before, ps[i].Position()).None?
    requires forall c :: c != ps[n - 1].Position() ==> Get(after, c) == Get(before, c)
    requires IsAlive(ps[n - 1]) ==> Get(after, ps[n - 1].Position()).None?
    requires !IsAlive(ps[n - 1]) ==> after == before
    ensures forall i :: 0 <= i < n && IsAlive(ps[i]) ==> Get(after, ps[i].Position()).None?
  {
    forall i | 0 <= i < n && IsAlive(ps[i])
      ensures Get(after, ps[i].Position()).None?
    {
      if i < n - 1 && ps[i].Position() != ps[n - 1].Position() {
        assert Get(before, ps[i].Position()).None?;
      }
    }
  }

  /** Pickup keeps the books and soundness, and conserves wealth. */
  lemma CollectPhaseKeeps(s: State)
    requires Sound(s)
    ensures var c := CollectPhase(s.persons, s.deposits, |s.persons|);
      var r := s.(persons := c.persons, deposits := c.deposits);
      Sound(r) && Wealth(r) == Wealth(s) && (forall ts :: Accounted(s, ts) ==> Accounted(r, ts))
  {
    var c := CollectPhase(s.persons, s.deposits, |s.persons|);
    CollectPhaseConserves(s.persons, s.deposits, |s.persons|);
    CollectPhaseNoDebt(s.persons, s.deposits, |s.persons|);
    CollectPhaseGains(s.persons, s.deposits, |s.persons|);
    CollectPhaseShape(s.persons, s.deposits, |s.persons|);
    CollectPhaseDistinct(s.persons, s.deposits, |s.persons|);
    assert forall i :: 0 <= i < |c.persons| ==> Healthy(c.persons[i]) by {
      forall i | 0 <= i < |c.persons| ensures Healthy(c.persons[i]) {
        assert Healthy(s.persons[i]);
        assert c.persons[i] == s.persons[i].(coins := c.persons[i].coins);
      }
    }
    forall ts | Accounted(s, ts)
      ensures Accounted(s.(persons := c.persons, deposits := c.deposits), ts)
    {
      NeutralKeepsAccounts(s, c.persons, ts);
    }
  }

  // ---------------------------------------------------------------------
  // Phase 4: interaction per cell
  // ---------------------------------------------------------------------

  /** The draws of one pair: each side's willingness for the explorer coin
      toss, and who wins a fight. */
  datatype PairDraw = PairDraw(willing1: bool, willing2: bool, aWins: bool)

  /** The aftermath of a fight between `a` and `b`: both updated, and the
      loser booked when the blow killed it. */
  function Fought(s: State, a: nat, b: nat, f: Fight, ts: seq<Territory>): (r: State)
    requires a < b < |s.persons|
    ensures r.deposits == s.deposits && r.population == s.population && r.wealth == s.wealth
    ensures r.persons == s.persons[a := f.a][b := f.b] && r.trades == s.trades
    ensures SameKeys(s.deathsByTerritory, r.deathsByTerritory)
  {
    var s1 := s.(persons := s.persons[a := f.a][b := f.b]);
    if f.winner.None? then s1
    else
      var loser := if f.winner == Some(First) then b else a;
      if IsAlive(s1.persons[loser]) then s1 else RecordDeath(s1, loser, ts)
  }

  /** One pair `(a, b)` of a cell: skipped unless both are alive; a trade is
      tried first and counted once; otherwise, unless there is fog, they
      fight and a loser killed by the blow is booked. */
  function ResolvePair(s: State, a: nat, b: nat, ev: Option<Event>, ts: seq<Territory>, d: PairDraw): (r: State)
    requires a < b < |s.persons|
    ensures r.deposits == s.deposits && r.population == s.population && r.wealth == s.wealth
    ensures |r.persons| == |s.persons|
    ensures forall i :: 0 <= i < |s.persons| && i != a && i != b ==> r.persons[i] == s.persons[i]
    ensures !(IsAlive(s.persons[a]) && IsAlive(s.persons[b])) ==> r == s
    ensures ev == Some(Fog) ==> r == s
    ensures SameKeys(s.deathsByTerritory, r.deathsByTerritory)
    ensures IsAlive(s.persons[a]) && IsAlive(s.persons[b]) ==>
      var t := Trade(s.persons[a], s.persons[b], ev, d.willing1, d.willing2);
      && r.trades == s.trades + (if t.0 then 1 else 0)
      && (t.0 ==> r.persons[a] == t.1 && r.persons[b] == t.2)
      && (!t.0 && ev != Some(Fog) ==>
            var f := Combat(s.persons[a], s.persons[b], d.aWins);
            r.persons[a] == f.a && r.persons[b] == f.b)
  {
    var p := s.persons[a];
    var q := s.persons[b];
    if !(IsAlive(p) && IsAlive(q)) then s
    else
      var t := Trade(p, q, ev, d.willing1, d.willing2);
      if t.0 then s.(persons := s.persons[a := t.1][b := t.2], trades := s.trades + 1)
      else if ev == Some(Fog) then s
      else Fought(s, a, b, Combat(p, q, d.aWins), ts)
  }

  /** A trade keeps the books: one more on the counter, one more on each
      partner's own count. */
  lemma TradeAccounts(s: State, a: nat, b: nat, x: Person, y: Person, ts: seq<Territory>)
    requires a < b < |s.persons| && Accounted(s, ts)
    requires LedgerNeutral(s.persons[a], x) && x.trades == s.persons[a].trades + 1
    requires LedgerNeutral(s.persons[b], y) && y.trades == s.persons[b].trades + 1
    ensures Accounted(s.(persons := s.persons[a := x][b := y], trades := s.trades + 1), ts)
  {
    var ps := s.persons;
    NeutralUpdate(s, ps, a, x, ts);
    NeutralUpdate(s, ps[a := x], b, y, ts);
    CensusUpdate(ps, a, x, AllTrades);
    CensusUpdate(ps[a := x], b, y, AllTrades);
  }

  /** A fight keeps the books: a fatal blow books exactly the loser. */
  lemma FightAccounts(s: State, a: nat, b: nat, aWins: bool, ts: seq<Territory>)
    requires a < b < |s.persons| && Accounted(s, ts)
    requires IsAlive(s.persons[a]) && IsAlive(s.persons[b])
    ensures Accounted(Fought(s, a, b, Combat(s.persons[a], s.persons[b], aWins), ts), ts)
  {
    var ps := s.persons;
    var f := Combat(ps[a], ps[b], aWins);
    var r := Fought(s, a, b, f, ts);
    SameKeysSameNames(s.deathsByTerritory, r.deathsByTerritory);
    assert Census(r.persons, AllTrades) == Census(ps, AllTrades) by {
      CensusUpdate(ps, a, f.a, AllTrades);
      CensusUpdate(ps[a := f.a], b, f.b, AllTrades);
    }
    if f.winner == Some(First) {
      NeutralUpdate(s, ps, a, f.a, ts);
      DeathUpdate(s, ps[a := f.a], b, f.b, ts);
    } else if f.winner == Some(Second) {
      assert ps[a := f.a][b := f.b] == ps[b := f.b][a := f.a];
      NeutralUpdate(s, ps, b, f.b, ts);
      DeathUpdate(s, ps[b := f.b], a, f.a, ts);
    } else {
      NeutralUpdate(s, ps, a, f.a, ts);
      NeutralUpdate(s, ps[a := f.a], b, f.b, ts);
    }
  }

  lemma ResolvePairAccounts(s: State, a: nat, b: nat, ev: Option<Event>, ts: seq<Territory>, d: PairDraw)
    requires a < b < |s.persons| && Accounted(s, ts)
    ensures Accounted(ResolvePair(s, a, b, ev, ts, d), ts)
  {
    var p, q := s.persons[a], s.persons[b];
    if IsAlive(p) && IsAlive(q) {
      var t := Trade(p, q, ev, d.willing1, d.willing2);
      if t.0 {
        TradeAccounts(s, a, b, t.1, t.2, ts);
      } else if ev != Some(Fog) {
        FightAccounts(s, a, b, d.aWins, ts);
      }
    }
  }

  /** A trade keeps the state sound and conserves wealth: the two coins paid
      are the two the counter accounts for. */
  lemma TradeSound(s: State, a: nat, b: nat, ev: Option<Event>, d: PairDraw)
    requires a < b < |s.persons| && Sound(s)
    requires IsAlive(s.persons[a]) && IsAlive(s.persons[b])
    ensures var t := Trade(s.persons[a], s.persons[b], ev, d.willing1, d.willing2);
      var r := s.(persons := s.persons[a := t.1][b := t.2], trades := s.trades + 1);
      t.0 ==> Sound(r) && Wealth(r) == Wealth(s)
  {
    var ps := s.persons;
    var t := Trade(ps[a], ps[b], ev, d.willing1, d.willing2);
    if t.0 {
      assert Healthy(ps[a]) && Healthy(ps[b]);
      CensusUpdate(ps, a, t.1, AllCoins);
      CensusUpdate(ps[a := t.1], b, t.2, AllCoins);
    }
  }

  /** A fight keeps the state sound and moves no coin. */
  lemma FightSound(s: State, a: nat, b: nat, aWins: bool, ts: seq<Territory>)
    requires a < b < |s.persons| && Sound(s)
    ensures var r := Fought(s, a, b, Combat(s.persons[a], s.persons[b], aWins), ts);
      Sound(r) && Wealth(r) == Wealth(s)
  {
    var ps := s.persons;
    var f := Combat(ps[a], ps[b], aWins);
    assert Healthy(ps[a]) && Healthy(ps[b]);
    CensusUpdate(ps, a, f.a, AllCoins);
    CensusUpdate(ps[a := f.a], b, f.b, AllCoins);
  }

  /** A pair keeps the state sound, conserves wealth, and never touches the
      dead. */
  lemma ResolvePairSound(s: State, a: nat, b: nat, ev: Option<Event>, ts: seq<Territory>, d: PairDraw)
    requires a < b < |s.persons| && Sound(s)
    ensures var r := ResolvePair(s, a, b, ev, ts, d);
      && Sound(r) && Wealth(r) == Wealth(s)
      && forall i :: 0 <= i < |s.persons| && !IsAlive(s.persons[i]) ==> r.persons[i] == s.persons[i]
  {
    var p, q := s.persons[a], s.persons[b];
    if IsAlive(p) && IsAlive(q) {
      var t := Trade(p, q, ev, d.willing1, d.willing2);
      if t.0 {
        TradeSound(s, a, b, ev, d);
      } else if ev != Some(Fog) {
        FightSound(s, a, b, d.aWins, ts);
      }
    }
  }

  /** The pairs of the turn, in order. */
  function Resolve(s: State, pairs: seq<(nat, nat)>, ev: Option<Event>, ts: seq<Territory>, draws: (nat, nat) -> PairDraw): (r: State)
    requires ValidPairs(pairs, |s.persons|)
    ensures r.deposits == s.deposits && r.population == s.population && r.wealth == s.wealth
    ensures |r.persons| == |s.persons|
    ensures ev == Some(Fog) ==> r == s
    decreases |pairs|
  {
    if |pairs| == 0 then s
    else
      var init := pairs[..|pairs| - 1];
      assert ValidPairs(init, |s.persons|) by {
        assert forall k :: 0 <= k < |init| ==> init[k] == pairs[k];
      }
      var before := Resolve(s, init, ev, ts, draws);
      var (a, b) := pairs[|pairs| - 1];
      ResolvePair(before, a, b, ev, ts, draws(a, b))
  }

  lemma {:induction false} ResolveKeeps(s: State, pairs: seq<(nat, nat)>, ev: Option<Event>, ts: seq<Territory>, draws: (nat, nat) -> PairDraw)
    requires ValidPairs(pairs, |s.persons|) && Accounted(s, ts) && Sound(s)
    ensures var r := Resolve(s, pairs, ev, ts, draws);
      && Accounted(r, ts) && Sound(r) && Wealth(r) == Wealth(s)
      && forall i :: 0 <= i < |s.persons| && !IsAlive(s.persons[i]) ==> r.persons[i] == s.persons[i]
    decreases |pairs|
  {
    if |pairs| > 0 {
      var init := pairs[..|pairs| - 1];
      assert ValidPairs(init, |s.persons|) by {
        assert forall k :: 0 <= k < |init| ==> init[k] == pairs[k];
      }
      ResolveKeeps(s, init, ev, ts, draws);
      var before := Resolve(s, init, ev, ts, draws);
      var (a, b) := pairs[|pairs| - 1];
      ResolvePairAccounts(before, a, b, ev, ts, draws(a, b));
      ResolvePairSound(before, a, b, ev, ts, draws(a, b));
    }
  }

  /** `celdas = agrupar_por_posicion(personas)` and the pair loops. */
  function InteractPhase(s: State, ev: Option<Event>, ts: seq<Territory>, draws: (nat, nat) -> PairDraw): (r: State)
    ensures r.deposits == s.deposits && r.population == s.population && r.wealth == s.wealth
    ensures |r.persons| == |s.persons|
    ensures ev == Some(Fog) ==> r == s
  {
    var g := GroupByPosition(s.persons);
    GroupsAreOrdered(s.persons);
    TurnPairsValid(g, |s.persons|);
    Resolve(s, TurnPairs(g), ev, ts, draws)
  }

  lemma InteractPhaseKeeps(s: State, ev: Option<Event>, ts: seq<Territory>, draws: (nat, nat) -> PairDraw)
    requires Accounted(s, ts) && Sound(s)
    ensures var r := InteractPhase(s, ev, ts, draws);
      && Accounted(r, ts) && Sound(r) && Wealth(r) == Wealth(s)
      && forall i :: 0 <= i < |s.persons| && !IsAlive(s.persons[i]) ==> r.persons[i] == s.persons[i]
  {
    var g := GroupByPosition(s.persons);
    GroupsAreOrdered(s.persons);
    TurnPairsValid(g, |s.persons|);
    ResolveKeeps(s, TurnPairs(g), ev, ts, draws);
  }

  // ---------------------------------------------------------------------
  // Phase 5: per-role statistics
  // ---------------------------------------------------------------------

  /** Append, for every role, the census `stat(role)` of `ps`. */
  function Append(h: PerRole<seq<int>>, ps: seq<Person>, stat: Role -> Measure): (e: PerRole<seq<int>>)
    ensures forall r :: e.At(r) == h.At(r) + [Census(ps, stat(r))]
  {
    PerRole(h.collector + [Census(ps, stat(Collector))], h.warrior + [Census(ps, stat(Warrior))],
            h.trader + [Census(ps, stat(Trader))], h.explorer + [Census(ps, stat(Explorer))],
            h.hoarder + [Census(ps, stat(Hoarder))])
  }

  /** `historia_roles[rol].append(len(vivos_rol))` and
      `historia_riqueza[rol].append(riqueza_rol)` for every role. */
  function Snapshot(s: State): (r: State)
    ensures r == s.(population := r.population, wealth := r.wealth)
    ensures forall role :: r.population.At(role) == s.population.At(role) + [Census(s.persons, Living(role))]
    ensures forall role :: r.wealth.At(role) == s.wealth.At(role) + [Census(s.persons, LivingCoins(role))]
  {
    s.(population := Append(s.population, s.persons, (role: Role) => Living(role)),
       wealth := Append(s.wealth, s.persons, (role: Role) => LivingCoins(role)))
  }

  /** The entries a snapshot appends are a head count no larger than the
      population and a non-negative sum of balances. */
  lemma SnapshotBounds(s: State, role: Role)
    requires Sound(s)
    ensures 0 <= Census(s.persons, Living(role)) <= |s.persons|
    ensures Census(s.persons, LivingCoins(role)) >= 0
  {
    LivingPlusDead(s.persons, role);
    assert forall i :: 0 <= i < |s.persons| ==> Healthy(s.persons[i]);
    CensusNonNegative(s.persons, LivingCoins(role));
  }

  // ---------------------------------------------------------------------
  // A turn and a run
  // ---------------------------------------------------------------------

  /** All draws of one turn: whether an event fires and which, the event's
      own draws, each person's movement draws (by list index) and each
      pair's draws (by the pair of indices). */
  datatype TurnDraws = TurnDraws(
    eventFires: bool,
    eventPick: nat,
    event: EventDraws,
    moves: nat -> MoveDraw,
    pairs: (nat, nat) -> PairDraw)

  function TurnEvent(d: TurnDraws): Option<Event> {
    GenerateEvent(d.eventFires, d.eventPick)
  }

  /** The state after the event, labels, movement and pickup. */
  function BeforeInteraction(s: State, ts: seq<Territory>, d: TurnDraws): (r: State)
    ensures |r.persons| == |s.persons| && r.population == s.population && r.wealth == s.wealth
  {
    var s1 := EventPhase(s, TurnEvent(d), ts, d.event);
    var s2 := s1.(persons := LabelPhase(s1.persons, ts));
    var s3 := s2.(persons := MovePhase(s2.persons, |s2.persons|, s2.deposits, ts, d.moves));
    var c := CollectPhase(s3.persons, s3.deposits, |s3.persons|);
    s3.(persons := c.persons, deposits := c.deposits)
  }

  /** One iteration of `for turno in range(N_TURNOS)`. */
  function Turn(s: State, ts: seq<Territory>, d: TurnDraws): (r: State)
    ensures |r.persons| == |s.persons|
  {
    Snapshot(InteractPhase(BeforeInteraction(s, ts, d), TurnEvent(d), ts, d.pairs))
  }

  /** Under fog nobody trades or fights: the statistics are taken on the
      state as pickup left it. */
  lemma FogHaltsInteraction(s: State, ts: seq<Territory>, d: TurnDraws)
    requires TurnEvent(d) == Some(Fog)
    ensures Turn(s, ts, d) == Snapshot(BeforeInteraction(s, ts, d))
  {
  }

  lemma BeforeInteractionKeeps(s: State, ts: seq<Territory>, d: TurnDraws)
    requires Accounted(s, ts) && Sound(s)
    ensures var r := BeforeInteraction(s, ts, d);
      && Accounted(r, ts) && Sound(r)
      && Wealth(r) == Wealth(s) + RainAmount(TurnEvent(d), d.event)
      && forall i :: 0 <= i < |s.persons| && !IsAlive(s.persons[i]) ==> r.persons[i] == s.persons[i]
  {
    var s1 := EventPhase(s, TurnEvent(d), ts, d.event);
    EventPhaseAccounts(s, TurnEvent(d), ts, d.event);
    EventPhaseSound(s, TurnEvent(d), ts, d.event);
    var s2 := s1.(persons := LabelPhase(s1.persons, ts));
    LabelPhaseKeeps(s1, ts);
    var s3 := s2.(persons := MovePhase(s2.persons, |s2.persons|, s2.deposits, ts, d.moves));
    MovePhaseKeeps(s2, ts, d.moves);
    CollectPhaseKeeps(s3);
    CollectPhaseShape(s3.persons, s3.deposits, |s3.persons|);
  }

  /** A turn keeps the books and the state sound, changes the wealth by
      exactly the rain, never touches the dead, and appends one entry per
      role to each history: the living head count and their coins. */
  lemma TurnKeeps(s: State, ts: seq<Territory>, d: TurnDraws)
    requires Accounted(s, ts) && Sound(s)
    ensures var r := Turn(s, ts, d);
      && Accounted(r, ts) && Sound(r)
      && Wealth(r) == Wealth(s) + RainAmount(TurnEvent(d), d.event)
      && (forall i :: 0 <= i < |s.persons| && !IsAlive(s.persons[i]) ==> r.persons[i] == s.persons[i])
      && (forall role :: r.population.At(role) == s.population.At(role) + [Census(r.persons, Living(role))])
      && (forall role :: r.wealth.At(role) == s.wealth.At(role) + [Census(r.persons, LivingCoins(role))])
  {
    var b := BeforeInteraction(s, ts, d);
    BeforeInteractionKeeps(s, ts, d);
    InteractPhaseKeeps(b, TurnEvent(d), ts, d.pairs);
  }

  /** `n` turns. */
  function Simulate(s: State, ts: seq<Territory>, draws: nat -> TurnDraws, n: nat): (r: State)
    ensures |r.persons| == |s.persons|
  {
    if n == 0 then s else Turn(Simulate(s, ts, draws, n - 1), ts, draws(n - 1))
  }

  /** All rain that fell in the first `n` turns. */
  function RainTotal(draws: nat -> TurnDraws, n: nat): (a: int)
    ensures 0 <= a <= 5 * RainDrops * n
  {
    if n == 0 then 0 else RainTotal(draws, n - 1) + RainAmount(TurnEvent(draws(n - 1)), draws(n - 1).event)
  }

  /** No turns, no change. */
  lemma SimulateZero(s: State, ts: seq<Territory>, draws: nat -> TurnDraws, n: nat)
    requires n == 0
    ensures Simulate(s, ts, draws, n) == s
  {
  }

  /** The last of `n` turns, seen through `TurnKeeps`. */
  lemma SimulateStep(s: State, ts: seq<Territory>, draws: nat -> TurnDraws, n: nat)
    requires n > 0
    requires Accounted(Simulate(s, ts, draws, n - 1), ts) && Sound(Simulate(s, ts, draws, n - 1))
    ensures var prev := Simulate(s, ts, draws, n - 1);
      var r := Simulate(s, ts, draws, n);
      && Accounted(r, ts) && Sound(r)
      && Wealth(r) == Wealth(prev) + RainAmount(TurnEvent(draws(n - 1)), draws(n - 1).event)
      && forall i :: 0 <= i < |prev.persons| && !IsAlive(prev.persons[i]) ==> r.persons[i] == prev.persons[i]
  {
    TurnKeeps(Simulate(s, ts, draws, n - 1), ts, draws(n - 1));
  }

  /** What `n` turns guarantee, for at least one turn (the induction runs
      from the first turn so that the empty run never needs unfolding). */
  lemma {:induction false} SimulateKeepsFromOne(s: State, ts: seq<Territory>, draws: nat -> TurnDraws, n: nat)
    requires n > 0 && Accounted(s, ts) && Sound(s)
    ensures var r := Simulate(s, ts, draws, n);
      && Accounted(r, ts) && Sound(r)
      && Wealth(r) == Wealth(s) + RainTotal(draws, n)
      && forall i :: 0 <= i < |s.persons| && !IsAlive(s.persons[i]) ==> r.persons[i] == s.persons[i]
  {
    if n > 1 {
      SimulateKeepsFromOne(s, ts, draws, n - 1);
    } else {
      SimulateZero(s, ts, draws, n - 1);
    }
    SimulateStep(s, ts, draws, n);
  }

  /** A run of any number of turns keeps the books and the state sound,
      grows the wealth by exactly the rain that fell, and never touches the
      dead again. */
  lemma SimulateKeeps(s: State, ts: seq<Territory>, draws: nat -> TurnDraws, n: nat)
    requires Accounted(s, ts) && Sound(s)
    ensures var r := Simulate(s, ts, draws, n);
      && Accounted(r, ts) && Sound(r)
      && Wealth(r) == Wealth(s) + RainTotal(draws, n)
      && forall i :: 0 <= i < |s.persons| && !IsAlive(s.persons[i]) ==> r.persons[i] == s.persons[i]
  {
    if n == 0 {
      SimulateZero(s, ts, draws, n);
    } else {
      SimulateKeepsFromOne(s, ts, draws, n);
    }
  }

  /** One turn appends one entry per role to both histories. */
  lemma TurnHistory(s: State, ts: seq<Territory>, d: TurnDraws, role: Role)
    ensures |Turn(s, ts, d).population.At(role)| == |s.population.At(role)| + 1
    ensures |Turn(s, ts, d).wealth.At(role)| == |s.wealth.At(role)| + 1
  {
  }

  lemma {:induction false} SimulateHistoryFromOne(s: State, ts: seq<Territory>, draws: nat -> TurnDraws, n: nat, role: Role)
    requires n > 0
    ensures |Simulate(s, ts, draws, n).population.At(role)| == |s.population.At(role)| + n
    ensures |Simulate(s, ts, draws, n).wealth.At(role)| == |s.wealth.At(role)| + n
  {
    if n > 1 {
      SimulateHistoryFromOne(s, ts, draws, n - 1, role);
    } else {
      SimulateZero(s, ts, draws, n - 1);
    }
    TurnHistory(Simulate(s, ts, draws, n - 1), ts, draws(n - 1), role);
  }

  /** Each turn appends exactly one entry per role to both histories. */
  lemma SimulateHistory(s: State, ts: seq<Territory>, draws: nat -> TurnDraws, n: nat, role: Role)
    ensures |Simulate(s, ts, draws, n).population.At(role)| == |s.population.At(role)| + n
    ensures |Simulate(s, ts, draws, n).wealth.At(role)| == |s.wealth.At(role)| + n
  {
    if n == 0 {
      SimulateZero(s, ts, draws, n);
    } else {
      SimulateHistoryFromOne(s, ts, draws, n, role);
    }
  }

  /** A population of the living with empty purses and no trades has no
      dead, no trades and no coins on any census. */
  lemma FreshPopulation(ps: seq<Person>)
    requires forall i :: 0 <= i < |ps| ==> IsAlive(ps[i]) && ps[i].coins == 0 && ps[i].trades == 0
    ensures forall r :: Census(ps, Dead(r)) == 0
    ensures forall ts, name :: Census(ps, DeadAt(ts, name)) == 0
    ensures Census(ps, AllTrades) == 0 && Census(ps, AllCoins) == 0
  {
    forall r: Role ensures Census(ps, Dead(r)) == 0 {
      CensusOfNobody(ps, Dead(r));
    }
    forall ts: seq<Territory>, name: string ensures Census(ps, DeadAt(ts, name)) == 0 {
      CensusOfNobody(ps, DeadAt(ts, name));
    }
    CensusOfNobody(ps, AllTrades);
    CensusOfNobody(ps, AllCoins);
  }

  /** The books open balanced on a fresh population: nobody dead, every
      tally at zero, no trade; the only coins are those on the board. */
  lemma OpeningKeeps(ps: seq<Person>, deps: Deposits, ts: seq<Territory>)
    requires forall i :: 0 <= i < |ps| ==> Fresh(ps[i])
    requires NoDebt(deps) && DistinctKeys(deps)
    ensures var s := Opening(ps, deps, ts);
      Accounted(s, ts) && Sound(s) && Wealth(s) == Total(deps)
  {
    assert forall i :: 0 <= i < |ps| ==> Healthy(ps[i]) && IsAlive(ps[i]) && ps[i].coins == 0 && ps[i].trades == 0 by {
      forall i | 0 <= i < |ps| ensures Healthy(ps[i]) && IsAlive(ps[i]) && ps[i].coins == 0 && ps[i].trades == 0 {
        assert Fresh(ps[i]);
      }
    }
    FreshPopulation(ps);
  }

  lemma StartKeeps(spawn: nat -> Spawn, seeds: nat -> Drop)
    ensures var s := Start(spawn, seeds);
      Accounted(s, CreateTerritories()) && Sound(s) && Wealth(s) == Total(s.deposits)
  {
    var ts := CreateTerritories();
    InitDepositsNoDebt(seeds, ts);
    OpeningKeeps(CreatePersons(spawn), InitDeposits(seeds, ts), ts);
  }

  /** `simular()` before the final aggregates: two hundred turns from the
      starting world. */
  function Run(spawn: nat -> Spawn, seeds: nat -> Drop, draws: nat -> TurnDraws): State {
    Simulate(Start(spawn, seeds), CreateTerritories(), draws, TurnCount)
  }

  /** What a whole run guarantees: thirty persons, the death ledgers equal to
      the dead in the final population, the trade counter half the sum of the
      personal counts, a sound state, and every coin accounted for. */
  lemma RunKeeps(spawn: nat -> Spawn, seeds: nat -> Drop, draws: nat -> TurnDraws)
    ensures var s := Start(spawn, seeds);
      var r := Run(spawn, seeds, draws);
      && |r.persons| == FounderCount
      && Accounted(r, CreateTerritories()) && Sound(r)
      && Wealth(r) == Total(s.deposits) + RainTotal(draws, TurnCount)
  {
    StartKeeps(spawn, seeds);
    SimulateKeeps(Start(spawn, seeds), CreateTerritories(), draws, TurnCount);
  }

  /** In books that agree with the census a role's death counter lies
      between zero and the number of its members. */
  lemma DeathsBounded(r: State, ts: seq<Territory>)
    requires Accounted(r, ts)
    ensures forall role :: 0 <= r.deathsByRole.At(role) <= Census(r.persons, Members(role))
  {
    forall role: Role ensures 0 <= r.deathsByRole.At(role) <= Census(r.persons, Members(role)) {
      LivingPlusDead(r.persons, role);
    }
  }

  /** From empty histories, `n` turns leave `n` entries in each. */
  lemma HistoriesFromEmpty(s: State, ts: seq<Territory>, draws: nat -> TurnDraws, n: nat)
    requires forall role :: |s.population.At(role)| == 0 && |s.wealth.At(role)| == 0
    ensures var r := Simulate(s, ts, draws, n);
      forall role :: |r.population.At(role)| == n && |r.wealth.At(role)| == n
  {
    forall role: Role
      ensures |Simulate(s, ts, draws, n).population.At(role)| == n
      ensures |Simulate(s, ts, draws, n).wealth.At(role)| == n
    {
      SimulateHistory(s, ts, draws, n, role);
    }
  }

  /** The starting world holds empty histories. */
  lemma StartHistoriesEmpty(spawn: nat -> Spawn, seeds: nat -> Drop)
    ensures var s := Start(spawn, seeds);
      forall role :: |s.population.At(role)| == 0 && |s.wealth.At(role)| == 0
  {
  }

  /** Hence no role loses more members than it has, and every history holds
      one entry per turn. */
  lemma RunLedgers(spawn: nat -> Spawn, seeds: nat -> Drop, draws: nat -> TurnDraws)
    ensures var r := Run(spawn, seeds, draws);
      && (forall role :: 0 <= r.deathsByRole.At(role) <= Census(r.persons, Members(role)))
      && (forall role :: |r.population.At(role)| == TurnCount && |r.wealth.At(role)| == TurnCount)
  {
    var ts := CreateTerritories();
    var s := Start(spawn, seeds);
    StartKeeps(spawn, seeds);
    SimulateKeeps(s, ts, draws, TurnCount);
    DeathsBounded(Simulate(s, ts, draws, TurnCount), ts);
    StartHistoriesEmpty(spawn, seeds);
    HistoriesFromEmpty(s, ts, draws, TurnCount);
  }
}
