/**
  The second, smaller engine (EXTRA.py): agents on a small torus that take
  four sub-steps per tick, biased toward the nearest other agent, and that
  meet pairwise when they share a cell. A meeting is three mini-actions
  (cooperate, debate, barter an idea, hand over energy); once two units of
  energy have changed hands a newborn appears on the cell. Every random draw
  comes from the shared `PseudoAzar` generator, driven by the clock oracle.
 */
module Encounters {
  import opened Grid
  import opened Extremum
  import opened PseudoRandom

  // ---------------------------------------------------------------------
  // Movement: `Desplazamiento`
  // ---------------------------------------------------------------------

  /** `OPC`: the eight neighbouring steps and staying put, in this order. */
  const Steps: seq<Delta> := [(-1, 0), (1, 0), (0, -1), (0, 1), (-1, -1), (-1, 1), (1, -1), (1, 1), (0, 0)]

  /** Every unit step, staying put included, is one of the options. */
  lemma StepsAreTheUnitSteps(d: Delta)
    ensures d in Steps <==> -1 <= d.0 <= 1 && -1 <= d.1 <= 1
  {
    if -1 <= d.0 <= 1 && -1 <= d.1 <= 1 {
      assert d == Steps[0] || d == Steps[1] || d == Steps[2] || d == Steps[3] || d == Steps[4]
          || d == Steps[5] || d == Steps[6] || d == Steps[7] || d == Steps[8];
    }
  }

  /** `paso_aleatorio()`: one generator draw picks an option. */
  function RandomStep(e: Env, clock: nat -> nat): (r: (Env, Delta))
    ensures r.1 in Steps
    ensures r.0.readings == e.readings + 1
  {
    var (e1, k) := Index(e, |Steps|, clock);
    (e1, Steps[k])
  }

  /** `paso_hacia(x, y, tx, ty)`: one unit per axis toward the target, 0 on
      an axis where the two agree. */
  function StepToward(x: int, y: int, tx: int, ty: int): (d: Delta)
    ensures d in Steps
    ensures (d.0 == 0 <==> x == tx) && (d.1 == 0 <==> y == ty)
    ensures (d.0 > 0 <==> tx > x) && (d.1 > 0 <==> ty > y)
  {
    var d := (Sign(x, tx), Sign(y, ty));
    StepsAreTheUnitSteps(d);
    d
  }

  /** On the plane, the step toward a target shortens the Manhattan distance
      by one for every axis on which the two differ. */
  lemma StepTowardCloses(x: int, y: int, tx: int, ty: int)
    ensures var d := StepToward(x, y, tx, ty);
      Manhattan((x + d.0, y + d.1), (tx, ty))
        == Manhattan((x, y), (tx, ty)) - (if x == tx then 0 else 1) - (if y == ty then 0 else 1)
  {
    SignApproaches(x, tx);
    SignApproaches(y, ty);
  }

  // ---------------------------------------------------------------------
  // Agents: `Persona`
  // ---------------------------------------------------------------------

  /** An agent with its own board size, as the source stores `ancho` and
      `alto` in every person. */
  datatype Agent = Agent(name: string, x: int, y: int, width: int, height: int, energy: int, ideas: int)
  {
    function Position(): Pos {
      (x, y)
    }

    /** The bound that `step` asserts after moving. */
    predicate OnBoard() {
      0 <= x < width && 0 <= y < height
    }
  }

  /** `b` is `a` at another cell: only the coordinates may differ. */
  predicate Relocated(a: Agent, b: Agent) {
    b.name == a.name && b.width == a.width && b.height == a.height && b.energy == a.energy && b.ideas == a.ideas
  }

  /** `b` is `a` after a meeting: only energy and ideas may differ. */
  predicate SamePlace(a: Agent, b: Agent) {
    b.name == a.name && b.x == a.x && b.y == a.y && b.width == a.width && b.height == a.height
  }

  /** `set_pos(x, y)`: the coordinates taken modulo the board size (Python's
      `%` with a positive modulus). */
  function SetPos(a: Agent, x: int, y: int): (b: Agent)
    requires a.width > 0 && a.height > 0
    ensures b.OnBoard()
    ensures Relocated(a, b)
    ensures 0 <= x < a.width && 0 <= y < a.height ==> b.Position() == (x, y)
  {
    a.(x := Wrap(x, a.width), y := Wrap(y, a.height))
  }

  /** Stepping off one edge re-enters at the opposite one. */
  lemma SetPosWrapsAround(a: Agent, x: int, y: int)
    requires a.width > 0 && a.height > 0
    requires -1 <= x <= a.width && -1 <= y <= a.height
    ensures var b := SetPos(a, x, y);
      && (b.x == if x == -1 then a.width - 1 else if x == a.width then 0 else x)
      && (b.y == if y == -1 then a.height - 1 else if y == a.height then 0 else y)
  {
  }

  /** `Persona(nombre, x, y, rng, ancho, alto, energia, ideas)`. */
  function NewAgent(name: string, x: int, y: int, width: int, height: int, energy: int, ideas: int): (a: Agent)
    requires width > 0 && height > 0
    ensures a.OnBoard()
    ensures a.name == name && a.width == width && a.height == height
    ensures a.energy == energy && a.ideas == ideas
    ensures 0 <= x < width && 0 <= y < height ==> a.Position() == (x, y)
  {
    SetPos(Agent(name, 0, 0, width, height, energy, ideas), x, y)
  }

  /** The agent's own board is a real one. */
  predicate Sized(a: Agent) {
    a.width > 0 && a.height > 0
  }

  /** `set_pos(self.x + dx, self.y + dy)`. */
  function MoveBy(a: Agent, d: Delta): (b: Agent)
    requires Sized(a)
    ensures b.OnBoard() && Sized(b)
    ensures Relocated(a, b)
  {
    SetPos(a, a.x + d.0, a.y + d.1)
  }

  /** `cells[k]` is the cell Python's `min` picks: a nearest one, every cell
      before it being strictly farther. */
  ghost predicate IsFirstNearestCell(cells: seq<Pos>, from: Pos, k: nat) {
    && k < |cells|
    && (forall m :: 0 <= m < |cells| ==> Manhattan(cells[k], from) <= Manhattan(cells[m], from))
    && (forall m :: 0 <= m < k ==> Manhattan(cells[k], from) < Manhattan(cells[m], from))
  }

  /** `min(vecinos, key=manhattan)`: the first nearest of the given cells. */
  function Nearest(cells: seq<Pos>, from: Pos): (c: Pos)
    requires |cells| > 0
    ensures c in cells
    ensures forall k :: 0 <= k < |cells| ==> Manhattan(c, from) <= Manhattan(cells[k], from)
    ensures exists k: nat :: IsFirstNearestCell(cells, from, k) && cells[k] == c
  {
    var key := (p: Pos) => Manhattan(p, from);
    var k := MinIndex(cells, key);
    assert forall j :: 0 <= j < |cells| ==> key(cells[j]) == Manhattan(cells[j], from);
    assert IsFirstNearestCell(cells, from, k);
    cells[k]
  }

  /** One of the four sub-steps of `paso`. With neighbours, one draw decides
      (`rand01() < 0.6`) between a step toward the nearest one and a random
      step, which costs a second draw; with none, a random step. */
  function SubStep(a: Agent, others: seq<Pos>, e: Env, clock: nat -> nat): (r: (Agent, Env))
    requires Sized(a)
    ensures r.0.OnBoard() && Sized(r.0)
    ensures Relocated(a, r.0)
    ensures |others| == 0 ==> r.1.readings == e.readings + 1
    ensures |others| > 0 ==> e.readings + 1 <= r.1.readings <= e.readings + 2
  {
    if |others| > 0 then
      var t := Nearest(others, a.Position());
      var (e1, u) := NextU32(e, clock);
      if Biased(u) then (MoveBy(a, StepToward(a.x, a.y, t.0, t.1)), e1)
      else
        var (e2, d) := RandomStep(e1, clock);
        (MoveBy(a, d), e2)
    else
      var (e1, d) := RandomStep(e, clock);
      (MoveBy(a, d), e1)
  }

  /** When the biased draw comes up, the sub-step heads for the nearest
      neighbour: on the plane it gets one unit closer on each axis where
      they differ. */
  lemma SubStepApproaches(a: Agent, others: seq<Pos>, e: Env, clock: nat -> nat)
    requires Sized(a) && |others| > 0
    requires Biased(NextU32(e, clock).1)
    ensures var t := Nearest(others, a.Position());
      var d := StepToward(a.x, a.y, t.0, t.1);
      && SubStep(a, others, e, clock).0 == MoveBy(a, d)
      && Manhattan((a.x + d.0, a.y + d.1), t) < Manhattan(a.Position(), t) + (if a.Position() == t then 1 else 0)
  {
    var t := Nearest(others, a.Position());
    StepTowardCloses(a.x, a.y, t.0, t.1);
  }

  /** `paso(vecinos)`: `n` sub-steps (the source takes four). */
  function Walk(a: Agent, others: seq<Pos>, n: nat, e: Env, clock: nat -> nat): (r: (Agent, Env))
    requires Sized(a)
    ensures Sized(r.0) && Relocated(a, r.0)
    ensures n > 0 ==> r.0.OnBoard()
    ensures a.OnBoard() ==> r.0.OnBoard()
    ensures |others| == 0 ==> r.1.readings == e.readings + n
    ensures e.readings + n <= r.1.readings <= e.readings + 2 * n
    decreases n
  {
    if n == 0 then (a, e)
    else
      var (b, e1) := SubStep(a, others, e, clock);
      Walk(b, others, n - 1, e1, clock)
  }

  const SubSteps: nat := 4

  // ---------------------------------------------------------------------
  // Meetings: `interactuar`
  // ---------------------------------------------------------------------

  /** Decimal digits of `n`, as `str(n)` writes them. */
  function Decimal(n: nat): (s: string)
    ensures |s| > 0
    ensures forall k :: 0 <= k < |s| ==> '0' <= s[k] <= '9'
    decreases n
  {
    var d := [(('0' as int) + n % 10) as char];
    if n < 10 then d else Decimal(n / 10) + d
  }

  /** `int(s)` for a string of decimal digits. */
  function ReadDecimal(s: string): nat
    requires forall k :: 0 <= k < |s| ==> '0' <= s[k] <= '9'
  {
    if |s| == 0 then 0
    else ReadDecimal(s[..|s| - 1]) * 10 + (s[|s| - 1] as int - '0' as int)
  }

  /** `int(str(n)) == n`: the digits name the number. */
  lemma {:induction false} DecimalRoundTrip(n: nat)
    ensures ReadDecimal(Decimal(n)) == n
    decreases n
  {
    var s := Decimal(n);
    if n >= 10 {
      DecimalRoundTrip(n / 10);
      assert s[..|s| - 1] == Decimal(n / 10);
    }
  }

  /** The name `f"Nuevo{n}"` of the n-th newborn. */
  function NewbornName(n: nat): (s: string)
    ensures |s| > 5 && s[..5] == "Nuevo"
  {
    "Nuevo" + Decimal(n)
  }

  /** Distinct counters give distinct names, so newborns are never named
      alike. */
  lemma NewbornNamesDistinct(m: nat, n: nat)
    requires NewbornName(m) == NewbornName(n)
    ensures m == n
  {
    assert Decimal(m) == NewbornName(m)[5..];
    assert Decimal(n) == NewbornName(n)[5..];
    DecimalRoundTrip(m);
    DecimalRoundTrip(n);
  }

  /** One mini-action on the pair, given the action drawn (`indice(4)`) and,
      for the energy transfer, the clock reading: the two agents after it and
      whether a unit of energy changed hands. */
  function Act(a: Agent, b: Agent, action: nat, tick: nat): (r: (Agent, Agent, bool))
    requires action < 4
    ensures SamePlace(a, r.0)
    ensures SamePlace(b, r.1)
    ensures action == 0 ==> r.0.energy == a.energy + 1 && r.1.energy == b.energy + 1
    ensures action == 1 ==> (r.0.energy == (if a.energy > 0 then a.energy - 1 else a.energy)
                          && r.1.energy == (if b.energy > 0 then b.energy - 1 else b.energy))
    ensures action != 2 ==> r.0.ideas == a.ideas && r.1.ideas == b.ideas
    ensures action != 3 ==> !r.2
    ensures action >= 2 ==> r.0.energy + r.1.energy == a.energy + b.energy
    ensures r.0.ideas + r.1.ideas == a.ideas + b.ideas
    ensures a.energy >= 0 && b.energy >= 0 ==> r.0.energy >= 0 && r.1.energy >= 0
    ensures a.ideas >= 0 && b.ideas >= 0 ==> r.0.ideas >= 0 && r.1.ideas >= 0
    ensures action == 3 ==> (r.2 <==> (tick % 2 == 0 && a.energy > 0) || b.energy > 0)
  {
    if action == 0 then
      (a.(energy := a.energy + 1), b.(energy := b.energy + 1), false)
    else if action == 1 then
      (a.(energy := if a.energy > 0 then a.energy - 1 else a.energy),
       b.(energy := if b.energy > 0 then b.energy - 1 else b.energy), false)
    else if action == 2 then
      if a.ideas > 0 then (a.(ideas := a.ideas - 1), b.(ideas := b.ideas + 1), false)
      else if b.ideas > 0 then (a.(ideas := a.ideas + 1), b.(ideas := b.ideas - 1), false)
      else (a, b, false)
    else
      if tick % 2 == 0 && a.energy > 0 then (a.(energy := a.energy - 1), b.(energy := b.energy + 1), true)
      else if b.energy > 0 then (a.(energy := a.energy + 1), b.(energy := b.energy - 1), true)
      else (a, b, false)
  }

  /** Where a meeting stands between mini-actions: the two agents, the
      generator, the energy units moved so far (`energia_transferida`), the
      newborns (`nuevos`) and the newborn-name counter. */
  datatype Meeting = Meeting(a: Agent, b: Agent, env: Env, moved: nat, born: seq<Agent>, counter: nat)

  /** At most one newborn, and one exactly once two units have moved. */
  predicate Consistent(m: Meeting) {
    |m.born| <= 1 && (|m.born| == 1 <==> m.moved >= 2)
  }

  /** The newborn of a meeting: at `self`'s cell, energy 5, one idea. */
  function Newborn(a: Agent, counter: nat): (c: Agent)
    requires Sized(a) && a.OnBoard()
    ensures c.Position() == a.Position() && c.OnBoard() && Sized(c)
    ensures c.energy == 5 && c.ideas == 1 && c.name == NewbornName(counter)
  {
    NewAgent(NewbornName(counter), a.x, a.y, a.width, a.height, 5, 1)
  }

  /** One turn of the loop in `interactuar`: draw an action, perform it,
      then a birth if two units have moved and nobody has been born yet. */
  function MiniAction(m: Meeting, clock: nat -> nat): (r: Meeting)
    requires Sized(m.a) && m.a.OnBoard() && Consistent(m)
    ensures Consistent(r)
    ensures r.a.Position() == m.a.Position() && r.b.Position() == m.b.Position()
    ensures SamePlace(m.a, r.a)
    ensures SamePlace(m.b, r.b)
    ensures r.a.ideas + r.b.ideas == m.a.ideas + m.b.ideas
    ensures m.a.energy >= 0 && m.b.energy >= 0 ==> r.a.energy >= 0 && r.b.energy >= 0
    ensures m.a.ideas >= 0 && m.b.ideas >= 0 ==> r.a.ideas >= 0 && r.b.ideas >= 0
    ensures m.moved <= r.moved <= m.moved + 1
    ensures |m.born| == 0 && r.moved >= 2 ==> r.born == [Newborn(m.a, m.counter)] && r.counter == m.counter + 1
    ensures !(|m.born| == 0 && r.moved >= 2) ==> r.born == m.born && r.counter == m.counter
  {
    var (e1, action) := Index(m.env, 4, clock);
    var (e2, tick) := if action == 3 then Now(e1, clock) else (e1, 0);
    var (a, b, moved) := Act(m.a, m.b, action, tick);
    var n := m.moved + if moved then 1 else 0;
    if n >= 2 && |m.born| == 0 then
      Meeting(a, b, e2, n, [Newborn(m.a, m.counter)], m.counter + 1)
    else
      Meeting(a, b, e2, n, m.born, m.counter)
  }

  /** `n` mini-actions (the source performs three). */
  function MiniActions(m: Meeting, n: nat, clock: nat -> nat): (r: Meeting)
    requires Sized(m.a) && m.a.OnBoard() && Consistent(m)
    ensures Consistent(r)
    ensures SamePlace(m.a, r.a)
    ensures SamePlace(m.b, r.b)
    ensures r.a.ideas + r.b.ideas == m.a.ideas + m.b.ideas
    ensures m.a.energy >= 0 && m.b.energy >= 0 ==> r.a.energy >= 0 && r.b.energy >= 0
    ensures m.a.ideas >= 0 && m.b.ideas >= 0 ==> r.a.ideas >= 0 && r.b.ideas >= 0
    ensures m.moved <= r.moved <= m.moved + n
    ensures |m.born| == 0 && r.moved >= 2 ==> r.born == [Newborn(m.a, m.counter)] && r.counter == m.counter + 1
    ensures !(|m.born| == 0 && r.moved >= 2) ==> r.born == m.born && r.counter == m.counter
    decreases n
  {
    if n == 0 then m
    else MiniActions(MiniAction(m, clock), n - 1, clock)
  }

  const MiniActionCount: nat := 3

  /** `self.interactuar(otra, nombre_nuevo)`: three mini-actions starting
      with nothing moved and nobody born. */
  function Interact(a: Agent, b: Agent, e: Env, counter: nat, clock: nat -> nat): (r: Meeting)
    requires Sized(a) && a.OnBoard()
    ensures SamePlace(a, r.a)
    ensures SamePlace(b, r.b)
    ensures r.a.ideas + r.b.ideas == a.ideas + b.ideas
    ensures a.energy >= 0 && b.energy >= 0 ==> r.a.energy >= 0 && r.b.energy >= 0
    ensures a.ideas >= 0 && b.ideas >= 0 ==> r.a.ideas >= 0 && r.b.ideas >= 0
    ensures r.moved <= MiniActionCount
    ensures |r.born| <= 1
    ensures |r.born| == 1 <==> r.moved >= 2
    ensures |r.born| == 1 ==> r.born[0] == Newborn(a, counter)
    ensures r.counter == counter + |r.born|
  {
    MiniActions(Meeting(a, b, e, 0, [], counter), MiniActionCount, clock)
  }

  // ---------------------------------------------------------------------
  // The tick: `Simulador.step`
  // ---------------------------------------------------------------------

  /** The simulator between ticks: the agents, the newborn-name counter, the
      generator and the pairs that met in the last tick
      (`_ultima_interacciones`, as index pairs). */
  datatype Sim = Sim(agents: seq<Agent>, counter: nat, env: Env, met: seq<(nat, nat)>)

  /** `Simulador(ancho, alto)`: the generator seeded from the clock and four
      agents on the diagonal. */
  function Initial(width: int, height: int, clock: nat -> nat): (s: Sim)
    requires width > 0 && height > 0
    ensures |s.agents| == 4 && s.counter == 1 && s.met == [] && s.env == Env(clock(0), 1)
    ensures forall i :: 0 <= i < 4 ==> s.agents[i].energy == 10 && s.agents[i].ideas == 1
    ensures Valid(s)
  {
    Sim([NewAgent("Ana", 0, 0, width, height, 10, 1),
         NewAgent("Luis", 1, 1, width, height, 10, 1),
         NewAgent("Iris", 2, 2, width, height, 10, 1),
         NewAgent("Omar", 3, 3, width, height, 10, 1)],
        1, NewEnv(FromClock, clock, 0), [])
  }

  /** On the default 4 by 4 board the four agents start on distinct cells
      of the diagonal. */
  lemma InitialDiagonal(clock: nat -> nat)
    ensures var s := Initial(4, 4, clock);
      forall i :: 0 <= i < 4 ==> s.agents[i].Position() == (i, i)
  {
  }

  /** `posiciones[:idx] + posiciones[idx + 1:]`: every cell but the one at
      `idx`, in order. */
  function AllBut(cells: seq<Pos>, idx: nat): (os: seq<Pos>)
    requires idx < |cells|
    ensures |os| == |cells| - 1
    ensures forall k :: 0 <= k < idx ==> os[k] == cells[k]
    ensures forall k :: idx <= k < |os| ==> os[k] == cells[k + 1]
  {
    cells[..idx] + cells[idx + 1..]
  }

  function Positions(ags: seq<Agent>): (cs: seq<Pos>)
    ensures |cs| == |ags|
    ensures forall i :: 0 <= i < |ags| ==> cs[i] == ags[i].Position()
  {
    seq(|ags|, i requires 0 <= i < |ags| => ags[i].Position())
  }

  /** Every agent of the list has a real board. */
  ghost predicate AllSized(ags: seq<Agent>) {
    forall i :: 0 <= i < |ags| ==> Sized(ags[i])
  }

  /** `ys` is `xs` after the move loop has run from agent `idx` on: the
      agents before `idx` are untouched, those from `idx` on stand on their
      boards, and nobody changed anything but the cell. */
  ghost predicate WalkedFrom(xs: seq<Agent>, ys: seq<Agent>, idx: nat) {
    && |ys| == |xs|
    && (forall i :: 0 <= i < idx && i < |xs| ==> ys[i] == xs[i])
    && (forall i :: idx <= i < |xs| ==> ys[i].OnBoard() && Sized(ys[i]))
    && (forall i :: 0 <= i < |xs| ==> Relocated(xs[i], ys[i]))
  }

  /** Moving agent `idx` and then the rest is a move loop from `idx`. */
  lemma WalkedFromOneMore(xs: seq<Agent>, a: Agent, ys: seq<Agent>, idx: nat)
    requires idx < |xs| && Relocated(xs[idx], a) && a.OnBoard() && Sized(a)
    requires WalkedFrom(xs[idx := a], ys, idx + 1)
    ensures WalkedFrom(xs, ys, idx)
  {
    assert ys[idx] == a;
  }

  /** The move loop of `step` from agent `idx` on: agent `idx` walks toward
      the cells the others occupied before anyone moved. */
  function MoveFrom(ags: seq<Agent>, before: seq<Pos>, idx: nat, e: Env, clock: nat -> nat): (r: (seq<Agent>, Env))
    requires |before| == |ags| && idx <= |ags| && AllSized(ags)
    ensures WalkedFrom(ags, r.0, idx)
    decreases |ags| - idx
  {
    if idx == |ags| then (ags, e)
    else
      var w := Walk(ags[idx], AllBut(before, idx), SubSteps, e, clock);
      var r := MoveFrom(ags[idx := w.0], before, idx + 1, w.1, clock);
      WalkedFromOneMore(ags, w.0, r.0, idx);
      r
  }

  /** The generator agent `i` starts its walk from when the move loop starts
      at agent `idx` with generator `e`: agents `idx` to `i - 1` have each
      walked, in order, from their own pre-move state toward the snapshot. */
  function EnvAt(ags: seq<Agent>, before: seq<Pos>, idx: nat, i: nat, e: Env, clock: nat -> nat): (r: Env)
    requires |before| == |ags| && idx <= i <= |ags| && AllSized(ags)
    ensures r.readings >= e.readings + (i - idx) * SubSteps
    decreases i - idx
  {
    if idx == i then e
    else EnvAt(ags, before, idx + 1, i, Walk(ags[idx], AllBut(before, idx), SubSteps, e, clock).1, clock)
  }

  /** `EnvAt` reads only the agents from `idx` to `i - 1`. */
  lemma {:induction false} EnvAtFrame(xs: seq<Agent>, ys: seq<Agent>, before: seq<Pos>, idx: nat, i: nat, e: Env, clock: nat -> nat)
    requires |before| == |xs| == |ys| && idx <= i <= |xs| && AllSized(xs) && AllSized(ys)
    requires forall k :: idx <= k < i ==> xs[k] == ys[k]
    ensures EnvAt(xs, before, idx, i, e, clock) == EnvAt(ys, before, idx, i, e, clock)
    decreases i - idx
  {
    if idx < i {
      EnvAtFrame(xs, ys, before, idx + 1, i, Walk(xs[idx], AllBut(before, idx), SubSteps, e, clock).1, clock);
    }
  }

  /** The move loop leaves the generator that the last walk produced. */
  lemma {:induction false} MoveFromEnv(ags: seq<Agent>, before: seq<Pos>, idx: nat, e: Env, clock: nat -> nat)
    requires |before| == |ags| && idx <= |ags| && AllSized(ags)
    ensures MoveFrom(ags, before, idx, e, clock).1 == EnvAt(ags, before, idx, |ags|, e, clock)
    decreases |ags| - idx
  {
    if idx < |ags| {
      var w := Walk(ags[idx], AllBut(before, idx), SubSteps, e, clock);
      var next := ags[idx := w.0];
      assert MoveFrom(ags, before, idx, e, clock) == MoveFrom(next, before, idx + 1, w.1, clock);
      assert EnvAt(ags, before, idx, |ags|, e, clock) == EnvAt(ags, before, idx + 1, |ags|, w.1, clock);
      MoveFromEnv(next, before, idx + 1, w.1, clock);
      EnvAtFrame(next, ags, before, idx + 1, |ags|, w.1, clock);
    }
  }

  /** Each agent walks toward the snapshot taken before the loop: agent `i`
      ends exactly where `paso`, given the other agents' pre-move cells,
      takes it from its own pre-move state and from the generator left by
      the walks of the agents before it. */
  lemma {:induction false} MoveUsesSnapshot(ags: seq<Agent>, before: seq<Pos>, idx: nat, e: Env, clock: nat -> nat, i: nat)
    requires |before| == |ags| && idx <= i < |ags| && AllSized(ags)
    ensures MoveFrom(ags, before, idx, e, clock).0[i] ==
      Walk(ags[i], AllBut(before, i), SubSteps, EnvAt(ags, before, idx, i, e, clock), clock).0
    decreases |ags| - idx
  {
    var w := Walk(ags[idx], AllBut(before, idx), SubSteps, e, clock);
    var next := ags[idx := w.0];
    var rest := MoveFrom(next, before, idx + 1, w.1, clock);
    assert MoveFrom(ags, before, idx, e, clock) == rest;
    if idx == i {
      assert rest.0[i] == w.0;
    } else {
      MoveUsesSnapshot(next, before, idx + 1, w.1, clock, i);
      EnvAtFrame(next, ags, before, idx + 1, i, w.1, clock);
      assert next[i] == ags[i];
    }
  }

  /** Index pairs `(i, j)` with `lo <= i < j < n`, in the order of the
      nested loops `for i in range(n): for j in range(i + 1, n)`. */
  function PairsFrom(lo: nat, n: nat): (ps: seq<(nat, nat)>)
    ensures forall k :: 0 <= k < |ps| ==> lo <= ps[k].0 < ps[k].1 < n
    ensures forall i, j :: lo <= i < j < n ==> (i, j) in ps
    ensures forall k, l :: 0 <= k < l < |ps| ==> Before(ps[k], ps[l])
    decreases n - lo
  {
    if lo >= n then []
    else
      var row := seq(n - lo - 1, k requires 0 <= k < n - lo - 1 => (lo, lo + 1 + k));
      var rest := PairsFrom(lo + 1, n);
      assert forall i, j :: lo <= i < j < n ==> (i, j) in row + rest by {
        forall i, j | lo <= i < j < n
          ensures (i, j) in row + rest
        {
          if i == lo {
            assert row[j - lo - 1] == (i, j);
          }
        }
      }
      row + rest
  }

  /** Lexicographic order, the order in which the loops visit pairs. */
  predicate Before(p: (nat, nat), q: (nat, nat)) {
    p.0 < q.0 || (p.0 == q.0 && p.1 < q.1)
  }

  /** What the meeting loop has produced so far. */
  datatype Round = Round(agents: seq<Agent>, env: Env, counter: nat, born: seq<Agent>, met: seq<(nat, nat)>)

  /** An agent on its own board with no negative energy or ideas. */
  predicate Healthy(a: Agent) {
    Sized(a) && a.OnBoard() && a.energy >= 0 && a.ideas >= 0
  }

  /** The ideas held by a list of agents. */
  function Ideas(ags: seq<Agent>): int {
    if |ags| == 0 then 0 else Ideas(ags[..|ags| - 1]) + ags[|ags| - 1].ideas
  }

  /** Replacing one agent changes the total by the difference. */
  lemma {:induction false} IdeasUpdate(ags: seq<Agent>, i: nat, x: Agent)
    requires i < |ags|
    ensures Ideas(ags[i := x]) == Ideas(ags) - ags[i].ideas + x.ideas
    decreases |ags|
  {
    var n := |ags| - 1;
    assert ags[i := x][..n] == if i < n then ags[..n][i := x] else ags[..n];
    if i < n {
      IdeasUpdate(ags[..n], i, x);
    }
  }

  lemma {:induction false} IdeasAppend(xs: seq<Agent>, ys: seq<Agent>)
    ensures Ideas(xs + ys) == Ideas(xs) + Ideas(ys)
    decreases |ys|
  {
    if |ys| > 0 {
      var n := |ys| - 1;
      assert (xs + ys)[..|xs + ys| - 1] == xs + ys[..n];
      IdeasAppend(xs, ys[..n]);
      assert Ideas(xs + ys) == Ideas(xs + ys[..n]) + ys[n].ideas;
      assert Ideas(ys) == Ideas(ys[..n]) + ys[n].ideas;
    } else {
      assert xs + ys == xs;
    }
  }

  /** Agents that each hold one idea hold as many ideas as there are of
      them. */
  lemma {:induction false} IdeasOfNewborns(xs: seq<Agent>)
    requires forall k :: 0 <= k < |xs| ==> xs[k].ideas == 1
    ensures Ideas(xs) == |xs|
    decreases |xs|
  {
    if |xs| > 0 {
      var n := |xs| - 1;
      IdeasOfNewborns(xs[..n]);
      assert Ideas(xs) == Ideas(xs[..n]) + xs[n].ideas;
    }
  }

  /** Every agent of the list is healthy. */
  ghost predicate AllHealthy(ags: seq<Agent>) {
    forall k :: 0 <= k < |ags| ==> Healthy(ags[k])
  }

  /** The lists match agent by agent: same names, same cells, same boards. */
  ghost predicate Aligned(xs: seq<Agent>, ys: seq<Agent>) {
    |xs| == |ys| && forall k :: 0 <= k < |xs| ==> SamePlace(xs[k], ys[k])
  }

  /** Putting two healthy agents in place of two others on the same cells
      keeps the list aligned and healthy, and moves the ideas total by the
      difference. */
  lemma UpdateTwo(xs: seq<Agent>, i: nat, j: nat, a: Agent, b: Agent)
    requires i < j < |xs| && AllHealthy(xs)
    requires SamePlace(xs[i], a) && SamePlace(xs[j], b)
    requires a.energy >= 0 && a.ideas >= 0 && b.energy >= 0 && b.ideas >= 0
    ensures Aligned(xs, xs[i := a][j := b]) && AllHealthy(xs[i := a][j := b])
    ensures Ideas(xs[i := a][j := b]) == Ideas(xs) - xs[i].ideas - xs[j].ideas + a.ideas + b.ideas
  {
    IdeasUpdate(xs, i, a);
    IdeasUpdate(xs[i := a], j, b);
  }

  /** The meeting of agents `i` and `j`, with `i` as `self`: the two are
      updated in place, a newborn is set aside, the pair is recorded. */
  function Meet(r: Round, i: nat, j: nat, clock: nat -> nat): (o: Round)
    requires i < j < |r.agents| && AllHealthy(r.agents)
    ensures Aligned(r.agents, o.agents) && AllHealthy(o.agents)
    ensures Ideas(o.agents) == Ideas(r.agents)
    ensures o.met == r.met + [(i, j)]
    ensures o.born == r.born || (Healthy(r.agents[i]) && o.born == r.born + [Newborn(r.agents[i], r.counter)])
    ensures o.counter == r.counter + |o.born| - |r.born|
    ensures var m := Interact(r.agents[i], r.agents[j], r.env, r.counter, clock);
      && o.agents[i] == m.a && o.agents[j] == m.b && o.env == m.env
      && o.born == r.born + m.born && (|o.born| == |r.born| + 1 <==> m.moved >= 2)
  {
    var a := r.agents[i];
    var b := r.agents[j];
    assert Healthy(a) && Healthy(b);
    var m := Interact(a, b, r.env, r.counter, clock);
    var ags := r.agents[i := m.a][j := m.b];
    UpdateTwo(r.agents, i, j, m.a, m.b);
    assert m.born == [] || m.born == [Newborn(a, r.counter)];
    Round(ags, m.env, m.counter, r.born + m.born, r.met + [(i, j)])
  }

  /** One iteration of the meeting loop: the pair `(i, j)` meets when the
      two share a cell. */
  function MeetPair(r: Round, i: nat, j: nat, clock: nat -> nat): (o: Round)
    requires i < j < |r.agents| && AllHealthy(r.agents)
    ensures Aligned(r.agents, o.agents) && AllHealthy(o.agents)
    ensures Ideas(o.agents) == Ideas(r.agents)
    ensures r.agents[i].Position() != r.agents[j].Position() ==> o == r
    ensures r.agents[i].Position() == r.agents[j].Position() ==> o.met == r.met + [(i, j)]
    ensures o.born == r.born || (Healthy(r.agents[i]) && o.born == r.born + [Newborn(r.agents[i], r.counter)])
    ensures r.met <= o.met && |o.born| - |r.born| <= |o.met| - |r.met|
    ensures o.counter == r.counter + |o.born| - |r.born|
  {
    if r.agents[i].Position() == r.agents[j].Position() then Meet(r, i, j, clock) else r
  }

  /** The pairs given to the meeting loop are index pairs of the list, the
      first below the second. */
  predicate PairsIn(pairs: seq<(nat, nat)>, n: nat) {
    forall k :: 0 <= k < |pairs| ==> pairs[k].0 < pairs[k].1 < n
  }

  /** The meeting loop over `pairs`: a pair on the same cell meets (the
      first of them as `self`), its newborns are set aside, and the pair is
      recorded. */
  function MeetAll(r: Round, pairs: seq<(nat, nat)>, clock: nat -> nat): (o: Round)
    requires PairsIn(pairs, |r.agents|) && AllHealthy(r.agents)
    ensures Aligned(r.agents, o.agents) && AllHealthy(o.agents)
    ensures r.born <= o.born && r.met <= o.met
    ensures |o.born| - |r.born| <= |o.met| - |r.met|
    ensures o.counter == r.counter + |o.born| - |r.born|
    decreases |pairs|
  {
    if |pairs| == 0 then r
    else
      var next := MeetPair(r, pairs[0].0, pairs[0].1, clock);
      var o := MeetAll(next, pairs[1..], clock);
      assert forall i :: 0 <= i < |r.agents| ==> SamePlace(next.agents[i], o.agents[i]);
      o
  }

  /** Meetings only pass ideas between the two agents, so the loop keeps
      the total. */
  lemma {:induction false} MeetAllIdeas(r: Round, pairs: seq<(nat, nat)>, clock: nat -> nat)
    requires PairsIn(pairs, |r.agents|) && AllHealthy(r.agents)
    ensures Ideas(MeetAll(r, pairs, clock).agents) == Ideas(r.agents)
    decreases |pairs|
  {
    if |pairs| > 0 {
      var next := MeetPair(r, pairs[0].0, pairs[0].1, clock);
      MeetAllIdeas(next, pairs[1..], clock);
    }
  }

  /** The newborns added from `r` to `o` are healthy, carry energy 5 and
      one idea, and take the counter's names in order. */
  ghost predicate BirthsNamed(r: Round, o: Round) {
    forall k :: |r.born| <= k < |o.born| ==>
      Healthy(o.born[k]) && o.born[k].energy == 5 && o.born[k].ideas == 1
      && o.born[k].name == NewbornName(r.counter + (k - |r.born|))
  }

  /** The pairs recorded from `r` to `o` are among `pairs` and stood on a
      shared cell in `r`. */
  ghost predicate PairsMet(r: Round, o: Round, pairs: seq<(nat, nat)>)
    requires |o.agents| == |r.agents|
  {
    forall k :: |r.met| <= k < |o.met| ==>
      o.met[k] in pairs && o.met[k].0 < |r.agents| && o.met[k].1 < |r.agents|
      && r.agents[o.met[k].0].Position() == r.agents[o.met[k].1].Position()
  }

  /** One more newborn `c` in front of the later ones: when it is named
      from the counter and the later ones from the counter after it, all
      of them are named in order. */
  lemma BirthsNamedStep(r: Round, next: Round, o: Round, c: Agent)
    requires (next.born == r.born && next.counter == r.counter)
      || (next.born == r.born + [c] && next.counter == r.counter + 1
          && Healthy(c) && c.energy == 5 && c.ideas == 1 && c.name == NewbornName(r.counter))
    requires next.born <= o.born && BirthsNamed(next, o)
    ensures BirthsNamed(r, o)
  {
    if next.born != r.born {
      assert o.born[|r.born|] == next.born[|r.born|] == c;
    }
  }

  /** The newborns of the loop are healthy, carry energy 5 and one idea,
      and take the counter's names in order. */
  lemma {:induction false} MeetAllBirths(r: Round, pairs: seq<(nat, nat)>, clock: nat -> nat)
    requires PairsIn(pairs, |r.agents|) && AllHealthy(r.agents)
    ensures BirthsNamed(r, MeetAll(r, pairs, clock))
    decreases |pairs|
  {
    if |pairs| > 0 {
      var i := pairs[0].0;
      var next := MeetPair(r, i, pairs[0].1, clock);
      MeetAllBirths(next, pairs[1..], clock);
      assert Healthy(r.agents[i]);
      BirthsNamedStep(r, next, MeetAll(next, pairs[1..], clock), Newborn(r.agents[i], r.counter));
    }
  }

  /** One more pair in front of the later ones: when it is the first pair
      given and its agents share a cell, every recorded pair qualifies. */
  lemma PairsMetStep(r: Round, next: Round, o: Round, pairs: seq<(nat, nat)>)
    requires |pairs| > 0 && pairs[0].0 < pairs[0].1 < |r.agents|
    requires Aligned(r.agents, next.agents) && |o.agents| == |next.agents|
    requires next.met == r.met
      || (next.met == r.met + [pairs[0]] && r.agents[pairs[0].0].Position() == r.agents[pairs[0].1].Position())
    requires next.met <= o.met && PairsMet(next, o, pairs[1..])
    ensures PairsMet(r, o, pairs)
  {
    forall k | |r.met| <= k < |o.met|
      ensures o.met[k] in pairs && o.met[k].0 < |r.agents| && o.met[k].1 < |r.agents|
      ensures r.agents[o.met[k].0].Position() == r.agents[o.met[k].1].Position()
    {
      if k < |next.met| {
        assert o.met[k] == next.met[k] == pairs[0];
      } else {
        assert o.met[k] in pairs[1..];
        var p := o.met[k];
        assert SamePlace(r.agents[p.0], next.agents[p.0]) && SamePlace(r.agents[p.1], next.agents[p.1]);
      }
    }
  }

  /** Every pair the loop records is one of the pairs it was given, and its
      two agents stood on the same cell. */
  lemma {:induction false} MeetAllPairs(r: Round, pairs: seq<(nat, nat)>, clock: nat -> nat)
    requires PairsIn(pairs, |r.agents|) && AllHealthy(r.agents)
    ensures PairsMet(r, MeetAll(r, pairs, clock), pairs)
    decreases |pairs|
  {
    if |pairs| > 0 {
      var next := MeetPair(r, pairs[0].0, pairs[0].1, clock);
      MeetAllPairs(next, pairs[1..], clock);
      PairsMetStep(r, next, MeetAll(next, pairs[1..], clock), pairs);
    }
  }

  /** Conversely, every given pair whose agents share a cell when the loop
      starts meets and is recorded: meetings never move anyone, so the pair
      still shares the cell when its turn comes. */
  lemma {:induction false} MeetAllRecordsEvery(r: Round, pairs: seq<(nat, nat)>, clock: nat -> nat, k: nat)
    requires PairsIn(pairs, |r.agents|) && AllHealthy(r.agents) && k < |pairs|
    requires r.agents[pairs[k].0].Position() == r.agents[pairs[k].1].Position()
    ensures pairs[k] in MeetAll(r, pairs, clock).met
    decreases |pairs|
  {
    var next := MeetPair(r, pairs[0].0, pairs[0].1, clock);
    var o := MeetAll(next, pairs[1..], clock);
    assert MeetAll(r, pairs, clock) == o;
    if k == 0 {
      FirstPairRecorded(r, next, o, pairs[0]);
    } else {
      MeetAllRecordsLater(r, next, pairs, k);
      MeetAllRecordsEvery(next, pairs[1..], clock, k - 1);
    }
  }

  /** A co-located first pair is recorded by its own iteration and kept by
      the later ones. */
  lemma FirstPairRecorded(r: Round, next: Round, o: Round, p: (nat, nat))
    requires next.met == r.met + [p] && next.met <= o.met
    ensures p in o.met
  {
    assert o.met[|r.met|] == p;
  }

  /** A later pair still shares its cell after the first iteration. */
  lemma MeetAllRecordsLater(r: Round, next: Round, pairs: seq<(nat, nat)>, k: nat)
    requires PairsIn(pairs, |r.agents|) && 0 < k < |pairs|
    requires Aligned(r.agents, next.agents) && AllHealthy(next.agents)
    requires r.agents[pairs[k].0].Position() == r.agents[pairs[k].1].Position()
    ensures PairsIn(pairs[1..], |next.agents|) && k - 1 < |pairs[1..]|
    ensures next.agents[pairs[1..][k - 1].0].Position() == next.agents[pairs[1..][k - 1].1].Position()
  {
    var p := pairs[k];
    assert pairs[1..][k - 1] == p;
    assert SamePlace(r.agents[p.0], next.agents[p.0]) && SamePlace(r.agents[p.1], next.agents[p.1]);
  }

  /** Every agent has a real board and stands on it, with no negative
      energy or ideas. */
  ghost predicate Valid(s: Sim) {
    AllHealthy(s.agents)
  }

  /** The agents after the move loop of `step`. */
  function Moved(s: Sim, clock: nat -> nat): (r: (seq<Agent>, Env))
    requires Valid(s)
    ensures |r.0| == |s.agents|
    ensures forall i :: 0 <= i < |r.0| ==> Healthy(r.0[i]) && Relocated(s.agents[i], r.0[i])
  {
    MoveFrom(s.agents, Positions(s.agents), 0, s.env, clock)
  }

  /** In a tick, agent `i` walks toward the cells all the other agents had
      when the tick began, with the generator the walks of agents `0` to
      `i - 1` left behind. */
  lemma MovedUsesSnapshot(s: Sim, clock: nat -> nat, i: nat)
    requires Valid(s) && i < |s.agents|
    ensures var before := Positions(s.agents);
      Moved(s, clock).0[i] == Walk(s.agents[i], AllBut(before, i), SubSteps, EnvAt(s.agents, before, 0, i, s.env, clock), clock).0
  {
    MoveUsesSnapshot(s.agents, Positions(s.agents), 0, s.env, clock, i);
  }

  /** The meeting loop of `step`, over every pair of the moved agents. */
  function Meetings(s: Sim, clock: nat -> nat): (o: Round)
    requires Valid(s)
    ensures |o.agents| == |s.agents| && o.born[..0] == [] && o.met[..0] == []
    ensures forall i :: 0 <= i < |s.agents| ==> Healthy(o.agents[i])
    ensures |o.born| <= |o.met| && o.counter == s.counter + |o.born|
  {
    var w := Moved(s, clock);
    MeetAll(Round(w.0, w.1, s.counter, [], []), PairsFrom(0, |w.0|), clock)
  }

  /** `step()`: every agent walks, in list order, toward the pre-move cells
      of the others; the pairs on a shared cell meet in loop order; the
      newborns join at the end of the list. */
  function Step(s: Sim, clock: nat -> nat): (r: Sim)
    requires Valid(s)
    ensures |s.agents| <= |r.agents| <= |s.agents| + |r.met|
    ensures r.counter == s.counter + (|r.agents| - |s.agents|)
  {
    var o := Meetings(s, clock);
    Sim(o.agents + o.born, o.counter, o.env, o.met)
  }

  /** The agents of a tick stay healthy on their boards, so the bound check
      of `step` never fails, and the old agents keep their names and
      places in the list. */
  lemma StepValid(s: Sim, clock: nat -> nat)
    requires Valid(s)
    ensures Valid(Step(s, clock))
    ensures forall i :: 0 <= i < |s.agents| ==> Step(s, clock).agents[i].name == s.agents[i].name
  {
    var w := Moved(s, clock);
    var start := Round(w.0, w.1, s.counter, [], []);
    var o := MeetAll(start, PairsFrom(0, |w.0|), clock);
    MeetAllBirths(start, PairsFrom(0, |w.0|), clock);
    BirthsFromStart(start, o);
    HealthyAppend(o.agents, o.born);
    assert Step(s, clock).agents == o.agents + o.born;
    assert forall i :: 0 <= i < |s.agents| ==> SamePlace(w.0[i], o.agents[i]);
  }


  /** `born` are newborns named from counter value `c` on, in order, each
      with energy 5 and one idea. */
  ghost predicate NewbornsFrom(born: seq<Agent>, c: nat) {
    forall k :: 0 <= k < |born| ==>
      born[k].energy == 5 && born[k].ideas == 1 && born[k].name == NewbornName(c + k)
  }

  /** A loop started with no newborns names them from its starting
      counter on. */
  lemma BirthsFromStart(r: Round, o: Round)
    requires r.born == [] && BirthsNamed(r, o)
    ensures NewbornsFrom(o.born, r.counter) && AllHealthy(o.born)
  {
  }

  /** Two lists of healthy agents make one. */
  lemma HealthyAppend(xs: seq<Agent>, ys: seq<Agent>)
    requires AllHealthy(xs) && AllHealthy(ys)
    ensures AllHealthy(xs + ys)
  {
  }

  /** Newborns appended after a list are found after it. */
  lemma NewbornsAppended(xs: seq<Agent>, born: seq<Agent>, c: nat)
    requires NewbornsFrom(born, c)
    ensures NewbornsFrom((xs + born)[|xs|..], c)
  {
    assert (xs + born)[|xs|..] == born;
  }

  /** The newborns of a tick follow the old agents, named in counter order,
      each with energy 5 and one idea. */
  lemma StepNewborns(s: Sim, clock: nat -> nat)
    requires Valid(s)
    ensures |s.agents| <= |Step(s, clock).agents|
    ensures NewbornsFrom(Step(s, clock).agents[|s.agents|..], s.counter)
  {
    var w := Moved(s, clock);
    var start := Round(w.0, w.1, s.counter, [], []);
    var o := MeetAll(start, PairsFrom(0, |w.0|), clock);
    MeetAllBirths(start, PairsFrom(0, |w.0|), clock);
    BirthsFromStart(start, o);
    NewbornsAppended(o.agents, o.born, s.counter);
    assert Step(s, clock).agents == o.agents + o.born;
  }

  /** Every pair recorded in a tick is two old agents, the first listed
      first, standing on one cell after the tick. */
  lemma StepPairs(s: Sim, clock: nat -> nat)
    requires Valid(s)
    ensures var r := Step(s, clock);
      forall k :: 0 <= k < |r.met| ==> (r.met[k].0 < r.met[k].1 < |s.agents|
        && r.agents[r.met[k].0].Position() == r.agents[r.met[k].1].Position())
  {
    var w := Moved(s, clock);
    var start := Round(w.0, w.1, s.counter, [], []);
    var pairs := PairsFrom(0, |w.0|);
    var o := MeetAll(start, pairs, clock);
    MeetAllPairs(start, pairs, clock);
    var r := Step(s, clock);
    forall k | 0 <= k < |r.met|
      ensures r.met[k].0 < r.met[k].1 < |s.agents|
      ensures r.agents[r.met[k].0].Position() == r.agents[r.met[k].1].Position()
    {
      var (i, j) := o.met[k];
      assert o.met[k] in pairs;
      assert SamePlace(w.0[i], o.agents[i]) && SamePlace(w.0[j], o.agents[j]);
      assert r.agents[i] == o.agents[i] && r.agents[j] == o.agents[j];
    }
  }

  /** Every pair of agents standing on one cell after the move loop meets
      in that tick, so no co-located pair is skipped. */
  lemma StepMeetsEveryPair(s: Sim, clock: nat -> nat, i: nat, j: nat)
    requires Valid(s) && i < j < |s.agents|
    requires Moved(s, clock).0[i].Position() == Moved(s, clock).0[j].Position()
    ensures (i, j) in Step(s, clock).met
  {
    var w := Moved(s, clock);
    var start := Round(w.0, w.1, s.counter, [], []);
    var pairs := PairsFrom(0, |w.0|);
    assert (i, j) in pairs;
    var k :| 0 <= k < |pairs| && pairs[k] == (i, j);
    MeetAllRecordsEvery(start, pairs, clock, k);
    assert Step(s, clock).met == MeetAll(start, pairs, clock).met;
  }

  /** Meetings only move ideas between agents, so a tick adds exactly one
      idea per newborn. */
  lemma StepIdeas(s: Sim, clock: nat -> nat)
    requires Valid(s)
    ensures Ideas(Step(s, clock).agents) == Ideas(s.agents) + (|Step(s, clock).agents| - |s.agents|)
  {
    var w := Moved(s, clock);
    var start := Round(w.0, w.1, s.counter, [], []);
    var o := MeetAll(start, PairsFrom(0, |w.0|), clock);
    MeetAllBirths(start, PairsFrom(0, |w.0|), clock);
    MeetAllIdeas(start, PairsFrom(0, |w.0|), clock);
    BirthsFromStart(start, o);
    IdeasAgree(s.agents, w.0);
    IdeasAppend(o.agents, o.born);
    IdeasOfNewborns(o.born);
    assert Step(s, clock).agents == o.agents + o.born;
  }


  /** Lists that agree on every agent's ideas hold the same total. */
  lemma {:induction false} IdeasAgree(xs: seq<Agent>, ys: seq<Agent>)
    requires |xs| == |ys|
    requires forall i :: 0 <= i < |xs| ==> xs[i].ideas == ys[i].ideas
    ensures Ideas(xs) == Ideas(ys)
    decreases |xs|
  {
    if |xs| > 0 {
      IdeasAgree(xs[..|xs| - 1], ys[..|ys| - 1]);
    }
  }
}
