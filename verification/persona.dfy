/**
  The agent of the main engine (`Persona`, persona.py): its record and the
  state transitions the engine applies to it. Every transition is a pure
  function from the old record to the new one.
 */
module Agents {
  import opened Grid

  /** The closed set of roles, in the order of `ROLES`. */
  datatype Role = Collector | Warrior | Trader | Explorer | Hoarder

  /** `ROLES = ["recolector", "guerrero", "comerciante", "explorador", "avaro"]`. */
  const Roles: seq<Role> := [Collector, Warrior, Trader, Explorer, Hoarder]

  lemma RolesComplete(r: Role)
    ensures r in Roles
  {
  }

  datatype Person = Person(
    id: int,
    x: int,
    y: int,
    role: Role,
    energy: int,
    coins: int,
    alive: bool,
    age: int,
    items: seq<string>,
    fightsWon: int,
    fightsTotal: int,
    trades: int,
    territory: Option<string>,
    visited: set<Pos>)
  {
    /** `posicion()`. */
    function Position(): Pos {
      (x, y)
    }
  }

  /** `Persona(id_, x, y, rol)` with the dataclass defaults: 10 energy, no
      coins, alive, age 0, no items, zeroed counters, no territory, nothing
      visited yet. */
  function NewPerson(id: int, x: int, y: int, role: Role): Person {
    Person(id, x, y, role, 10, 0, true, 0, [], 0, 0, 0, None, {})
  }

  /** `esta_en_territorio(nombre)`: the last territory label equals `name`. */
  predicate InTerritory(p: Person, name: string) {
    p.territory == Some(name)
  }

  /** `esta_vivo()`: the alive flag is set and energy is positive. */
  predicate IsAlive(p: Person) {
    p.alive && p.energy > 0
  }

  /** Record invariant of the main engine: a person whose energy is not
      positive has had its alive flag cleared, so the flag alone decides. */
  predicate FlagDecides(p: Person) {
    p.energy <= 0 ==> !p.alive
  }

  /** `recibir_daño(c)`: energy drops by exactly `c`; the flag is cleared once
      energy is not positive and is never set again. */
  function TakeDamage(p: Person, c: int): (q: Person)
    ensures q.energy == p.energy - c
    ensures q.alive ==> p.alive
    ensures IsAlive(q) <==> p.alive && p.energy - c > 0
    ensures FlagDecides(q)
    ensures q == p.(energy := q.energy, alive := q.alive)
  {
    var e := p.energy - c;
    p.(energy := e, alive := if e <= 0 then false else p.alive)
  }

  /** Death is permanent: damage of any non-negative amount never brings a
      dead person back, and a cleared flag stays cleared whatever the amount. */
  lemma DeathIsPermanent(p: Person, c: int)
    ensures !p.alive ==> !TakeDamage(p, c).alive
    ensures !IsAlive(p) && c >= 0 ==> !IsAlive(TakeDamage(p, c))
  {
  }

  /** `ganar_monedas(c)`: only a positive amount is credited. */
  function EarnCoins(p: Person, c: int): (q: Person)
    ensures c > 0 ==> q.coins == p.coins + c
    ensures c <= 0 ==> q == p
    ensures q.coins >= p.coins
    ensures q == p.(coins := q.coins)
  {
    if c > 0 then p.(coins := p.coins + c) else p
  }

  /** `gastar_monedas(c)`: succeeds and debits `c` exactly when the balance
      covers it; otherwise reports failure and changes nothing. */
  function SpendCoins(p: Person, c: int): (r: (bool, Person))
    ensures r.0 <==> c <= p.coins
    ensures r.0 ==> r.1 == p.(coins := p.coins - c)
    ensures !r.0 ==> r.1 == p
    ensures c >= 0 && p.coins >= 0 ==> r.1.coins >= 0
  {
    if c <= p.coins then (true, p.(coins := p.coins - c)) else (false, p)
  }

  /** Earning a positive amount and then spending it again is a round trip
      for a non-negative balance. */
  lemma EarnThenSpend(p: Person, c: int)
    requires c > 0 && p.coins >= 0
    ensures SpendCoins(EarnCoins(p, c), c) == (true, p)
  {
    var q := EarnCoins(p, c);
    assert q.(coins := q.coins - c) == p;
  }

  /** `marcar_celda_visitada()`. */
  function MarkVisited(p: Person): (q: Person)
    ensures q.visited == p.visited + {p.Position()}
    ensures q == p.(visited := q.visited)
  {
    p.(visited := p.visited + {p.Position()})
  }

  /** On-board predicate of the toroidal world. */
  predicate OnBoard(p: Person, w: int, h: int) {
    0 <= p.x < w && 0 <= p.y < h
  }

  /** `mover(dx, dy, w, h)`: add the delta, wrap both axes with Python's `%`
      and mark the new cell visited. `%` by zero raises in Python, hence the
      positive dimensions. */
  function Move(p: Person, dx: int, dy: int, w: int, h: int): (q: Person)
    requires w > 0 && h > 0
    ensures OnBoard(q, w, h)
    ensures q.x == Wrap(p.x + dx, w) && q.y == Wrap(p.y + dy, h)
    ensures q.visited == p.visited + {q.Position()}
    ensures p.visited <= q.visited
    ensures q == p.(x := q.x, y := q.y, visited := q.visited)
  {
    MarkVisited(p.(x := Wrap(p.x + dx, w), y := Wrap(p.y + dy, h)))
  }

  /** On-board persons that step by a unit delta land on a neighbouring cell
      of the torus: the new coordinate is the old one plus the delta, or it
      wrapped across the edge. */
  lemma MoveIsNeighbour(p: Person, dx: int, dy: int, w: int, h: int)
    requires w > 0 && h > 0 && OnBoard(p, w, h)
    requires -1 <= dx <= 1 && -1 <= dy <= 1
    ensures var q := Move(p, dx, dy, w, h);
      (q.x == p.x + dx || (p.x + dx == -1 && q.x == w - 1) || (p.x + dx == w && q.x == 0))
      && (q.y == p.y + dy || (p.y + dy == -1 && q.y == h - 1) || (p.y + dy == h && q.y == 0))
  {
    var q := Move(p, dx, dy, w, h);
    if p.x + dx == -1 {
      assert (-1) % w == w - 1;
    } else if p.x + dx == w {
      assert w % w == 0;
    }
    if p.y + dy == -1 {
      assert (-1) % h == h - 1;
    } else if p.y + dy == h {
      assert h % h == 0;
    }
  }
}
