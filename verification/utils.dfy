/**
  Interaction resolution and global events of the main engine (utils.py):
  coin pickup, one-hit combat, the role-gated item swap, and the five events.
  Each random test is an oracle boolean or number supplied by the caller.
 */
module Interaction {
  import opened Grid
  import opened Agents
  import opened Buckets

  // ---------------------------------------------------------------------
  // Coin pickup
  // ---------------------------------------------------------------------

  /** No stored coin value is negative (the engine only ever stores values in
      [1, 10]). */
  ghost predicate NoDebt(deps: Deposits) {
    forall e, m :: e in deps && 0 <= m < |e.1| ==> e.1[m] >= 0
  }

  /** A cell of debt-free deposits holds a non-negative amount. */
  lemma NoDebtLookup(deps: Deposits, c: Pos)
    ensures NoDebt(deps) ==> Sum(Lookup(deps, c)) >= 0
  {
    if NoDebt(deps) {
      match Find(deps, c)
      case None =>
      case Some(i) =>
        assert deps[i] in deps;
        SumNonNegative(Lookup(deps, c));
    }
  }

  lemma NoDebtPush(b: Deposits, k: Pos, v: int)
    requires NoDebt(b) && v >= 0
    ensures NoDebt(Push(b, k, v))
  {
    var L := Lookup(b, k);
    match Find(b, k)
    case None =>
    case Some(i) => assert b[i] in b;
  }

  lemma {:induction false} NoDebtPushAll(b: Deposits, es: seq<(Pos, int)>)
    requires NoDebt(b) && forall i :: 0 <= i < |es| ==> es[i].1 >= 0
    ensures NoDebt(PushAll(b, es))
    decreases |es|
  {
    if |es| > 0 {
      NoDebtPushAll(b, es[..|es| - 1]);
      NoDebtPush(PushAll(b, es[..|es| - 1]), es[|es| - 1].0, es[|es| - 1].1);
    }
  }

  /** `recoger_monedas(p, monedas)`: if the person's cell holds a deposit,
      the whole list is removed and its sum credited (only a positive sum is
      credited, through `ganar_monedas`). */
  function CollectCoins(p: Person, deps: Deposits): (r: (Person, Deposits))
  {
    var pos := p.Position();
    match Get(deps, pos)
    case None => (p, deps)
    case Some(values) => (EarnCoins(p, Sum(values)), Pop(deps, pos))
  }

  /** The pickup credits the person with the positive sum of its cell and
      changes nothing else about it; without a deposit list nothing
      happens. */
  lemma CollectCoinsPerson(p: Person, deps: Deposits)
    ensures var r := CollectCoins(p, deps);
      && (Get(deps, p.Position()).None? ==> r == (p, deps))
      && (Sum(Lookup(deps, p.Position())) > 0 ==> r.0.coins == p.coins + Sum(Lookup(deps, p.Position())))
      && (Sum(Lookup(deps, p.Position())) <= 0 ==> r.0 == p)
      && r.0 == p.(coins := r.0.coins)
  {
  }

  /** The pickup empties the person's cell and no other, keeps cells
      distinct and the deposits free of debt, and moves coins from the
      board to the purse without creating or losing any. */
  lemma CollectCoinsDeposits(p: Person, deps: Deposits)
    ensures var r := CollectCoins(p, deps);
      && (forall c :: c != p.Position() ==> Get(r.1, c) == Get(deps, c))
      && (DistinctKeys(deps) ==> DistinctKeys(r.1) && Get(r.1, p.Position()).None?)
      && (Sum(Lookup(deps, p.Position())) >= 0 ==> r.0.coins + Total(r.1) == p.coins + Total(deps))
      && (NoDebt(deps) ==> NoDebt(r.1) && r.0.coins + Total(r.1) == p.coins + Total(deps))
  {
    var pos := p.Position();
    PopTotal(deps, pos);
    NoDebtLookup(deps, pos);
  }

  // ---------------------------------------------------------------------
  // Combat
  // ---------------------------------------------------------------------

  datatype Side = First | Second

  /** The two combatants after the fight, and the winner if there is one. */
  datatype Fight = Fight(a: Person, b: Person, winner: Option<Side>)

  /** Damage dealt to the loser of a fight. */
  const Hit: int := 5

  /** `combate(a, b)`. `aWins` stands for `random.random() < a.energia / total`
      (the energy-weighted draw). Both fight counters go up; the loser takes
      one hit; a winner is returned (and credited) only when the loser is dead
      after it. */
  function Combat(a: Person, b: Person, aWins: bool): (f: Fight)
    ensures f.a.fightsTotal == a.fightsTotal + 1 && f.b.fightsTotal == b.fightsTotal + 1
    ensures aWins ==> f.a.energy == a.energy && f.b.energy == b.energy - Hit
    ensures !aWins ==> f.b.energy == b.energy && f.a.energy == a.energy - Hit
    ensures f.winner == Some(First) <==> aWins && !IsAlive(f.b)
    ensures f.winner == Some(Second) <==> !aWins && !IsAlive(f.a)
    ensures f.a.fightsWon == a.fightsWon + (if f.winner == Some(First) then 1 else 0)
    ensures f.b.fightsWon == b.fightsWon + (if f.winner == Some(Second) then 1 else 0)
    ensures aWins ==> f.a.alive == a.alive
    ensures !aWins ==> f.b.alive == b.alive
    ensures f.a == a.(fightsTotal := f.a.fightsTotal, fightsWon := f.a.fightsWon, energy := f.a.energy, alive := f.a.alive)
    ensures f.b == b.(fightsTotal := f.b.fightsTotal, fightsWon := f.b.fightsWon, energy := f.b.energy, alive := f.b.alive)
    ensures FlagDecides(a) ==> FlagDecides(f.a)
    ensures FlagDecides(b) ==> FlagDecides(f.b)
    ensures IsAlive(f.a) ==> IsAlive(a)
    ensures IsAlive(f.b) ==> IsAlive(b)
  {
    var a1 := a.(fightsTotal := a.fightsTotal + 1);
    var b1 := b.(fightsTotal := b.fightsTotal + 1);
    if aWins then
      var b2 := TakeDamage(b1, Hit);
      if !IsAlive(b2) then Fight(a1.(fightsWon := a1.fightsWon + 1), b2, Some(First))
      else Fight(a1, b2, None)
    else
      var a2 := TakeDamage(a1, Hit);
      if !IsAlive(a2) then Fight(a2, b1.(fightsWon := b1.fightsWon + 1), Some(Second))
      else Fight(a2, b1, None)
  }

  /** A fight between two living persons never kills the winner and kills
      the loser exactly when the loser had at most 5 energy. */
  lemma CombatDeaths(a: Person, b: Person, aWins: bool)
    requires IsAlive(a) && IsAlive(b)
    ensures var f := Combat(a, b, aWins);
      && IsAlive(if aWins then f.a else f.b)
      && (IsAlive(if aWins then f.b else f.a) <==> (if aWins then b.energy else a.energy) > Hit)
      && (f.winner.Some? <==> (if aWins then b.energy else a.energy) <= Hit)
  {
  }

  // ---------------------------------------------------------------------
  // Trade
  // ---------------------------------------------------------------------

  /** The global events, in the order `generar_evento` draws them from. */
  datatype Event = Rain | Earthquake | Plague | Fog | Market

  const Events: seq<Event> := [Rain, Earthquake, Plague, Fog, Market]

  /** Inner `quiere_comerciar(p)`. `explorerWilling` stands for
      `random.random() < 0.2`. */
  predicate WantsToTrade(p: Person, explorerWilling: bool) {
    match p.role
    case Trader => true
    case Warrior => false
    case Explorer => explorerWilling
    case Collector => p.coins > 0 && |p.items| > 0
    case Hoarder => false
  }

  function Last(xs: seq<string>): string
    requires |xs| > 0
  {
    xs[|xs| - 1]
  }

  function DropLast(xs: seq<string>): seq<string>
    requires |xs| > 0
  {
    xs[..|xs| - 1]
  }

  /** `intercambiar(p1, p2, territorios, evento)`: under fog, or when either
      side is unwilling, broke, or empty-handed, nothing happens; otherwise
      each pays one coin, the two most recently acquired items change hands,
      and both trade counters go up. */
  function Trade(p1: Person, p2: Person, event: Option<Event>, willing1: bool, willing2: bool): (r: (bool, Person, Person))
    ensures r.0 <==> event != Some(Fog) && WantsToTrade(p1, willing1) && WantsToTrade(p2, willing2)
                     && p1.coins > 0 && p2.coins > 0 && |p1.items| > 0 && |p2.items| > 0
    ensures !r.0 ==> r.1 == p1 && r.2 == p2
    ensures r.0 ==> r.1.coins == p1.coins - 1 && r.2.coins == p2.coins - 1
    ensures r.0 ==> r.1.items == DropLast(p1.items) + [Last(p2.items)] && r.2.items == DropLast(p2.items) + [Last(p1.items)]
    ensures r.0 ==> r.1.trades == p1.trades + 1 && r.2.trades == p2.trades + 1
    ensures r.0 ==> r.1 == p1.(coins := r.1.coins, items := r.1.items, trades := r.1.trades)
    ensures r.0 ==> r.2 == p2.(coins := r.2.coins, items := r.2.items, trades := r.2.trades)
  {
    if event == Some(Fog) then (false, p1, p2)
    else if !(WantsToTrade(p1, willing1) && WantsToTrade(p2, willing2)) then (false, p1, p2)
    else if p1.coins <= 0 || p2.coins <= 0 then (false, p1, p2)
    else if |p1.items| == 0 || |p2.items| == 0 then (false, p1, p2)
    else
      var o1 := Last(p1.items);
      var o2 := Last(p2.items);
      (true,
       p1.(coins := p1.coins - 1, items := DropLast(p1.items) + [o2], trades := p1.trades + 1),
       p2.(coins := p2.coins - 1, items := DropLast(p2.items) + [o1], trades := p2.trades + 1))
  }

  /** Trade moves items between the two persons without creating or losing
      any, keeps both inventory sizes, and keeps balances non-negative. */
  lemma TradeConservesItems(p1: Person, p2: Person, event: Option<Event>, willing1: bool, willing2: bool)
    requires p1.coins >= 0 && p2.coins >= 0
    ensures var r := Trade(p1, p2, event, willing1, willing2);
      && multiset(r.1.items) + multiset(r.2.items) == multiset(p1.items) + multiset(p2.items)
      && |r.1.items| == |p1.items| && |r.2.items| == |p2.items|
      && r.1.coins >= 0 && r.2.coins >= 0
  {
    var r := Trade(p1, p2, event, willing1, willing2);
    if r.0 {
      assert p1.items == DropLast(p1.items) + [Last(p1.items)];
      assert p2.items == DropLast(p2.items) + [Last(p2.items)];
    }
  }

  /** Warriors and hoarders never trade, whoever the partner is. */
  lemma FightersAndHoardersNeverTrade(p1: Person, p2: Person, event: Option<Event>, willing1: bool, willing2: bool)
    requires p1.role in {Warrior, Hoarder} || p2.role in {Warrior, Hoarder}
    ensures Trade(p1, p2, event, willing1, willing2) == (false, p1, p2)
  {
  }

  // ---------------------------------------------------------------------
  // Events
  // ---------------------------------------------------------------------

  /** `generar_evento()`: `fires` stands for `random.random() < 0.05` and
      `pick` for the uniform choice among the five events. */
  function GenerateEvent(fires: bool, pick: nat): (e: Option<Event>)
    ensures e.Some? <==> fires
    ensures e.Some? ==> e.value in Events
  {
    if fires then Some(Choose(Events, pick)) else None
  }

  /** One rain drop: `randrange(ancho)`, `randrange(alto)`, `randint(1, 5)`,
      each as a raw oracle number. */
  datatype Drop = Drop(x: nat, y: nat, value: nat)

  /** The draws an event may consume: rain drop `k` and the plague test of
      person `i`. */
  datatype EventDraws = EventDraws(rain: nat -> Drop, plague: nat -> bool)

  /** Number of drops a rain event places. */
  const RainDrops: nat := 10

  /** `randint(lo, hi)` driven by an oracle number. */
  function RandInt(lo: int, hi: int, v: nat): (r: int)
    requires lo <= hi
    ensures lo <= r <= hi
  {
    lo + v % (hi - lo + 1)
  }

  /** The cell and value of one drop, on a `w` by `h` board. */
  function DropCell(d: Drop, w: int, h: int): Pos
    requires w > 0 && h > 0
  {
    (Wrap(d.x, w), Wrap(d.y, h))
  }

  /** A `(cell, value)` pair a drop may produce: a cell of the board and a
      value in [1, 5]. */
  predicate ValidDrop(e: (Pos, int), w: int, h: int) {
    1 <= e.1 <= 5 && 0 <= e.0.0 < w && 0 <= e.0.1 < h
  }

  /** The `(cell, value)` pairs of the first `n` drops, in drawing order. */
  function RainCells(n: nat, drops: nat -> Drop, w: int, h: int): (cs: seq<(Pos, int)>)
    requires w > 0 && h > 0
    ensures |cs| == n
    ensures forall i :: 0 <= i < n ==> cs[i] == (DropCell(drops(i), w, h), RandInt(1, 5, drops(i).value))
    ensures forall i :: 0 <= i < n ==> ValidDrop(cs[i], w, h)
  {
    if n == 0 then []
    else RainCells(n - 1, drops, w, h) + [(DropCell(drops(n - 1), w, h), RandInt(1, 5, drops(n - 1).value))]
  }

  /** The first `n` drops of a rain, each appended to its cell's list. */
  function RainFall(deps: Deposits, n: nat, drops: nat -> Drop, w: int, h: int): (r: Deposits)
    requires w > 0 && h > 0
    ensures Size(r) == Size(deps) + n
    ensures DistinctKeys(deps) ==> DistinctKeys(r)
  {
    PushAll(deps, RainCells(n, drops, w, h))
  }

  /** Each of the `n` drops adds between one and five coins. */
  lemma RainCellsSum(n: nat, drops: nat -> Drop, w: int, h: int)
    requires w > 0 && h > 0
    ensures n <= SumValues(RainCells(n, drops, w, h)) <= 5 * n
  {
    var cs := RainCells(n, drops, w, h);
    assert forall i :: 0 <= i < |cs| ==> ValidDrop(cs[i], w, h);
    SumValuesBetween(cs);
  }

  /** Rain only appends: each cell's old list is kept as a prefix, every
      appended value lies in [1, 5], and a newly created cell is on the
      board. */
  lemma RainOnlyAppends(deps: Deposits, n: nat, drops: nat -> Drop, w: int, h: int, c: Pos)
    requires w > 0 && h > 0
    ensures var added := ValuesAt(RainCells(n, drops, w, h), c);
      && Lookup(RainFall(deps, n, drops, w, h), c) == Lookup(deps, c) + added
      && (forall m :: 0 <= m < |added| ==> 1 <= added[m] <= 5)
      && (Get(RainFall(deps, n, drops, w, h), c).Some? && Get(deps, c).None? ==> 0 <= c.0 < w && 0 <= c.1 < h)
  {
    var cs := RainCells(n, drops, w, h);
    var added := ValuesAt(cs, c);
    PushAllLookup(deps, cs, c);
    forall m | 0 <= m < |added|
      ensures ValidDrop((c, added[m]), w, h)
    {
      ValuesAtMember(cs, c, m);
    }
    if Get(RainFall(deps, n, drops, w, h), c).Some? && Get(deps, c).None? {
      assert ValidDrop((c, added[0]), w, h);
    }
  }

  /** Indices below `n` of the persons alive in `ps` and dead in `qs`, in
      increasing order. */
  function NewlyDead(ps: seq<Person>, qs: seq<Person>, n: nat): (ds: seq<nat>)
    requires n <= |ps| && n <= |qs|
    ensures forall k :: 0 <= k < |ds| ==> ds[k] < n
  {
    if n == 0 then []
    else NewlyDead(ps, qs, n - 1) + (if IsAlive(ps[n - 1]) && !IsAlive(qs[n - 1]) then [n - 1] else [])
  }

  /** `NewlyDead` is increasing, below `n`, and holds exactly the persons that
      died. */
  lemma {:induction false} NewlyDeadSpec(ps: seq<Person>, qs: seq<Person>, n: nat)
    requires n <= |ps| && n <= |qs|
    ensures forall i: nat :: i in NewlyDead(ps, qs, n) <==> i < n && IsAlive(ps[i]) && !IsAlive(qs[i])
    ensures forall a, b :: 0 <= a < b < |NewlyDead(ps, qs, n)| ==> NewlyDead(ps, qs, n)[a] < NewlyDead(ps, qs, n)[b]
    ensures forall a :: 0 <= a < |NewlyDead(ps, qs, n)| ==> NewlyDead(ps, qs, n)[a] < n
  {
    if n > 0 {
      NewlyDeadSpec(ps, qs, n - 1);
    }
  }

  /** `NewlyDead` below `n` only looks at the first `n` persons. */
  lemma {:induction false} NewlyDeadFrame(ps: seq<Person>, qs: seq<Person>, qs': seq<Person>, n: nat)
    requires n <= |ps| && n <= |qs| && n <= |qs'|
    requires forall i :: 0 <= i < n ==> qs[i] == qs'[i]
    ensures NewlyDead(ps, qs, n) == NewlyDead(ps, qs', n)
  {
    if n > 0 {
      NewlyDeadFrame(ps, qs, qs', n - 1);
    }
  }

  lemma {:induction false} NobodyNewlyDead(ps: seq<Person>, n: nat)
    requires n <= |ps|
    ensures NewlyDead(ps, ps, n) == []
  {
    if n > 0 {
      NobodyNewlyDead(ps, n - 1);
    }
  }

  /** Persons `0 .. n-1` that are alive get `hit`; the deaths reported are
      exactly those persons that were alive and are not afterwards, in list
      order. Dead persons are untouched. */
  function Afflict(ps: seq<Person>, n: nat, hit: (nat, Person) -> Person): (r: (seq<Person>, seq<nat>))
    requires n <= |ps|
    ensures |r.0| == |ps|
    ensures forall i :: 0 <= i < |ps| ==> r.0[i] == if i < n && IsAlive(ps[i]) then hit(i, ps[i]) else ps[i]
    ensures r.1 == NewlyDead(ps, r.0, n)
  {
    if n == 0 then (ps, [])
    else
      var (qs, deaths) := Afflict(ps, n - 1, hit);
      var i := n - 1;
      if IsAlive(ps[i]) then
        var q := hit(i, ps[i]);
        NewlyDeadFrame(ps, qs, qs[i := q], n - 1);
        (qs[i := q], if IsAlive(q) then deaths else deaths + [i])
      else
        (qs, deaths)
  }

  /** The earthquake's blow to one living person. */
  function QuakeHit(i: nat, p: Person): Person {
    TakeDamage(p, 3)
  }

  /** The plague's blow: `recibir_daño(p.energia)` when person `i`'s draw
      (`random.random() < 0.1`) fires. */
  function PlagueHit(plague: nat -> bool, i: nat, p: Person): Person {
    if plague(i) then TakeDamage(p, p.energy) else p
  }

  datatype EventOutcome = EventOutcome(persons: seq<Person>, deposits: Deposits, deaths: seq<nat>)

  /** `aplicar_evento(evento, personas, monedas, ancho, alto)`. Rain injects
      ten deposits; earthquake hits every living person for 3; plague kills
      the living persons whose draw fires; fog and market have no direct
      effect. The returned deaths are exactly the persons alive before and
      dead after, in list order. */
  function ApplyEvent(e: Event, ps: seq<Person>, deps: Deposits, w: int, h: int, draws: EventDraws): (r: EventOutcome)
    requires w > 0 && h > 0
    ensures |r.persons| == |ps|
    ensures r.deaths == NewlyDead(ps, r.persons, |ps|)
    ensures forall i :: 0 <= i < |ps| && !IsAlive(ps[i]) ==> r.persons[i] == ps[i]
    ensures forall i :: 0 <= i < |ps| ==> r.persons[i] == ps[i].(energy := r.persons[i].energy, alive := r.persons[i].alive)
    ensures forall i :: 0 <= i < |ps| ==> r.persons[i].alive ==> ps[i].alive
    ensures e == Earthquake ==> forall i :: 0 <= i < |ps| && IsAlive(ps[i]) ==> r.persons[i].energy == ps[i].energy - 3
    ensures e == Plague ==> forall i :: 0 <= i < |ps| && IsAlive(ps[i]) ==>
      r.persons[i] == if draws.plague(i) then ps[i].(energy := 0, alive := false) else ps[i]
    ensures e != Earthquake && e != Plague ==> r.persons == ps && r.deaths == []
    ensures e != Rain ==> r.deposits == deps
    ensures e == Rain ==> Size(r.deposits) == Size(deps) + RainDrops
    ensures DistinctKeys(deps) ==> DistinctKeys(r.deposits)
    ensures forall i :: 0 <= i < |ps| && FlagDecides(ps[i]) ==> FlagDecides(r.persons[i])
  {
    match e
    case Rain =>
      NobodyNewlyDead(ps, |ps|);
      EventOutcome(ps, RainFall(deps, RainDrops, draws.rain, w, h), [])
    case Earthquake =>
      var (qs, deaths) := Afflict(ps, |ps|, QuakeHit);
      EventOutcome(qs, deps, deaths)
    case Plague =>
      var (qs, deaths) := Afflict(ps, |ps|, (i: nat, p: Person) => PlagueHit(draws.plague, i, p));
      EventOutcome(qs, deps, deaths)
    case Fog =>
      NobodyNewlyDead(ps, |ps|);
      EventOutcome(ps, deps, [])
    case Market =>
      NobodyNewlyDead(ps, |ps|);
      EventOutcome(ps, deps, [])
  }
}
