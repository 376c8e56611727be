/**
  The starting world of the main engine (simulacion.py): the board size and
  run length, the three fixed territories, the founding population and the
  initial coin deposits. The random draws become oracle numbers.
 */
module Setup {
  import opened Grid
  import opened Buckets
  import opened Territories
  import opened Agents
  import opened Interaction

  /** `GRID_ANCHO`, `GRID_ALTO`, `N_PERSONAS_INICIALES`, `N_TURNOS`, and the
      number of initial deposits. */
  const Width: int := 20
  const Height: int := 20
  const FounderCount: nat := 30
  const TurnCount: nat := 200
  const SeedDepositCount: nat := 50

  /** `crear_territorios()`: forest top left, city in the centre, mountains
      bottom right. */
  function CreateTerritories(): (ts: seq<Territory>)
    ensures |ts| == 3
    ensures forall i :: 0 <= i < |ts| ==> ts[i].WellFormed()
    ensures forall i :: 0 <= i < |ts| ==> 0 <= ts[i].xMin && ts[i].xMax < Width && 0 <= ts[i].yMin && ts[i].yMax < Height
    ensures forall i, j :: 0 <= i < j < |ts| ==> ts[i].name != ts[j].name
  {
    [ Territory("Bosque Umbrío", Forest, 0, 6, 0, 6),
      Territory("Ciudad Central", City, 7, 12, 7, 12),
      Territory("Cumbres Rocosas", Mountain, 13, 19, 13, 19) ]
  }

  /** The three territories do not overlap, so list order never decides a
      lookup, and each kind covers exactly its square of the board. */
  lemma TerritoriesAreDisjoint(x: int, y: int)
    ensures var ts := CreateTerritories();
      forall i, j :: 0 <= i < j < |ts| ==> !(ts[i].Contains(x, y) && ts[j].Contains(x, y))
  {
  }

  lemma WhereEachKindLies(x: int, y: int)
    ensures var t := TerritoryAt(x, y, CreateTerritories());
      && (t.Some? && t.value.kind == Forest <==> 0 <= x <= 6 && 0 <= y <= 6)
      && (t.Some? && t.value.kind == City <==> 7 <= x <= 12 && 7 <= y <= 12)
      && (t.Some? && t.value.kind == Mountain <==> 13 <= x <= 19 && 13 <= y <= 19)
      && (t.None? <==> !(0 <= x <= 6 && 0 <= y <= 6) && !(7 <= x <= 12 && 7 <= y <= 12) && !(13 <= x <= 19 && 13 <= y <= 19))
  {
    var ts := CreateTerritories();
    assert ts[0].kind == Forest && ts[1].kind == City && ts[2].kind == Mountain;
  }

  /** The objects a founder of each role carries. */
  function StartingItems(r: Role): seq<string> {
    match r
    case Trader => ["poción", "mapa"]
    case Explorer => ["poción", "mapa"]
    case Warrior => ["espada"]
    case Collector => ["cesta"]
    case Hoarder => ["caja fuerte"]
  }

  /** The draws for one founder: `randrange(GRID_ANCHO)`,
      `randrange(GRID_ALTO)` and `random.choice(ROLES)`. */
  datatype Spawn = Spawn(x: nat, y: nat, rolePick: nat)

  /** A person as it stands at the start of the run. */
  predicate Fresh(p: Person) {
    && IsAlive(p) && FlagDecides(p) && OnBoard(p, Width, Height)
    && p.energy == 10 && p.coins == 0 && p.age == 0
    && p.fightsWon == 0 && p.fightsTotal == 0 && p.trades == 0
    && p.items == StartingItems(p.role) && p.territory.None?
    && p.visited == {p.Position()}
  }

  /** Founder `i`: a fresh person with the role's objects, its cell marked
      visited. */
  function Founder(i: nat, s: Spawn): (p: Person)
    ensures p.id == i && Fresh(p)
    ensures p.x == s.x % Width && p.y == s.y % Height
  {
    var role := Choose(Roles, s.rolePick);
    var p := NewPerson(i, Wrap(s.x, Width), Wrap(s.y, Height), role).(items := StartingItems(role));
    assert {} + {p.Position()} == {p.Position()};
    MarkVisited(p)
  }

  /** `crear_personas()`: founder `i` gets id `i`; the population is fresh
      and on the board. */
  function CreatePersons(spawn: nat -> Spawn): (ps: seq<Person>)
    ensures |ps| == FounderCount
    ensures forall i :: 0 <= i < |ps| ==> ps[i].id == i && Fresh(ps[i])
    ensures forall i :: 0 <= i < |ps| ==> ps[i].x == spawn(i).x % Width && ps[i].y == spawn(i).y % Height
  {
    var ps := seq(FounderCount, i requires 0 <= i < FounderCount => Founder(i, spawn(i)));
    assert forall i :: 0 <= i < |ps| ==> ps[i] == Founder(i, spawn(i));
    ps
  }

  /** Every role can be drawn for a founder, whatever the other draws are. */
  lemma EveryRoleCanBeFounded(r: Role, s: Spawn)
    ensures exists k: nat :: k < |Roles| && Founder(0, s.(rolePick := k)).role == r
  {
    RolesComplete(r);
    var k :| 0 <= k < |Roles| && Roles[k] == r;
    assert Founder(0, s.(rolePick := k)).role == r;
  }

  /** Value of an initial deposit at `c`: `randint(3, 10)` in a mountain
      territory, `randint(1, 5)` elsewhere. */
  function SeedValue(c: Pos, v: nat, ts: seq<Territory>): (r: int)
    ensures 1 <= r <= 10
  {
    var t := TerritoryAt(c.0, c.1, ts);
    if t.Some? && t.value.kind == Mountain then RandInt(3, 10, v) else RandInt(1, 5, v)
  }

  /** The `(cell, value)` pairs of the first `n` initial deposits. */
  function SeedCells(n: nat, draws: nat -> Drop, ts: seq<Territory>): (cs: seq<(Pos, int)>)
    ensures |cs| == n
    ensures forall i :: 0 <= i < n ==> cs[i].0 == DropCell(draws(i), Width, Height)
    ensures forall i :: 0 <= i < n ==> cs[i].1 == SeedValue(cs[i].0, draws(i).value, ts)
  {
    if n == 0 then []
    else
      var c := DropCell(draws(n - 1), Width, Height);
      SeedCells(n - 1, draws, ts) + [(c, SeedValue(c, draws(n - 1).value, ts))]
  }

  /** `inicializar_monedas(territorios)`: fifty values, each appended to the
      list of its cell. */
  function InitDeposits(draws: nat -> Drop, ts: seq<Territory>): (deps: Deposits)
    ensures Size(deps) == SeedDepositCount
    ensures DistinctKeys(deps)
  {
    PushAll([], SeedCells(SeedDepositCount, draws, ts))
  }

  /** `v` is a value an initial deposit at `c` can take, and `c` is on the
      board: values lie in [3, 10] in mountains and in [1, 5] elsewhere. */
  ghost predicate SeedFits(c: Pos, v: int, ts: seq<Territory>) {
    var t := TerritoryAt(c.0, c.1, ts);
    && (t.Some? && t.value.kind == Mountain ==> 3 <= v <= 10)
    && (!(t.Some? && t.value.kind == Mountain) ==> 1 <= v <= 5)
    && 0 <= c.0 < Width && 0 <= c.1 < Height
  }

  /** Every initial deposit lies on the board, and its values fit its
      cell's territory (so none is negative). */
  lemma InitDepositsValues(draws: nat -> Drop, ts: seq<Territory>, c: Pos)
    ensures var vs := Lookup(InitDeposits(draws, ts), c);
      forall m :: 0 <= m < |vs| ==> SeedFits(c, vs[m], ts)
    ensures Get(InitDeposits(draws, ts), c).Some? ==> 0 <= c.0 < Width && 0 <= c.1 < Height
  {
    var cs := SeedCells(SeedDepositCount, draws, ts);
    PushAllLookup([], cs, c);
    assert Lookup(InitDeposits(draws, ts), c) == ValuesAt(cs, c);
    SeedValuesFit(cs, c, draws, ts);
    if Get(InitDeposits(draws, ts), c).Some? {
      assert SeedFits(c, ValuesAt(cs, c)[0], ts);
    }
  }

  lemma SeedCellFits(cs: seq<(Pos, int)>, c: Pos, v: int, draws: nat -> Drop, ts: seq<Territory>)
    requires cs == SeedCells(SeedDepositCount, draws, ts) && (c, v) in cs
    ensures SeedFits(c, v, ts)
  {
    var i :| 0 <= i < |cs| && cs[i] == (c, v);
    assert c == DropCell(draws(i), Width, Height) && v == SeedValue(c, draws(i).value, ts);
  }

  /** Every value filed under `c` by the initial deposits fits `c`. */
  lemma SeedValuesFit(cs: seq<(Pos, int)>, c: Pos, draws: nat -> Drop, ts: seq<Territory>)
    requires cs == SeedCells(SeedDepositCount, draws, ts)
    ensures forall m :: 0 <= m < |ValuesAt(cs, c)| ==> SeedFits(c, ValuesAt(cs, c)[m], ts)
  {
    forall m | 0 <= m < |ValuesAt(cs, c)|
      ensures SeedFits(c, ValuesAt(cs, c)[m], ts)
    {
      ValuesAtMember(cs, c, m);
      SeedCellFits(cs, c, ValuesAt(cs, c)[m], draws, ts);
    }
  }

  lemma InitDepositsNoDebt(draws: nat -> Drop, ts: seq<Territory>)
    ensures NoDebt(InitDeposits(draws, ts))
  {
    NoDebtPushAll([], SeedCells(SeedDepositCount, draws, ts));
  }
}
