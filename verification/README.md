# Simulación — a verified model of the engine

This project models, in Dafny, the engine of a grid simulation of persons
with roles (collector, warrior, trader, explorer, hoarder). It also models
the smaller second engine of the repository, the encounter simulator in
`EXTRA.py`.

In the main engine, persons walk on a 20 × 20 torus. Each one chooses its
step by a role policy: chase, flee, seek coins, explore or stay in the
forest. Persons collect the coin deposits lying on their cell. Persons who
share a cell trade, or else fight. Rare global events (rain, earthquake,
plague, fog, market) disturb the world. The engine keeps death tallies by
role and by territory, a per-turn history of population and wealth by role,
and at the end the "richest / longest-lived / most violent role" and the
"deadliest territory".

In the second engine, agents take four sub-steps per tick, biased toward
the nearest other agent. Co-located pairs run three mini-actions, and a
pair that moves two units of energy produces one newborn.

Every random draw is an explicit oracle parameter: a pick index, a boolean
outcome, or a draw number. So are the clock readings of the second
engine's `PseudoAzar` generator. Each piece of the engine is therefore a
total, pure function.

Layout, one module per file:

| file | module | models |
|---|---|---|
| grid.dfy | Grid | positions, Manhattan distance, Python's `%` wrap, `random.choice`, per-axis sign |
| extremum.dfy | Extremum | Python `min(…, key=)` / `max(…, key=)`: the first extremal element |
| buckets.dfy | Buckets | an insertion-ordered `dict` of lists: `setdefault(k, []).append(v)`, `in`, `pop` |
| territorio.dfy | Territories | `Territorio`, `contiene`, `rango`, `territorio_en_posicion` |
| persona.dfy | Agents | `Persona`: liveness, damage, coins, toroidal moves |
| movement.dfy | Movement | `decidir_movimiento` and its inner helpers |
| utils.dfy | Interaction | pickup, combat, trade, event generation and effects |
| statistics.dfy | Statistics | per-role dictionaries and sums over the population |
| setup.dfy | Setup | constants, territories, founders, initial deposits |
| simulacion.dfy | Simulation | the turn loop of `simular`, its books and invariants |
| report.dfy | Report | the final argmax aggregates |
| pseudoazar.dfy | PseudoRandom | `PseudoAzar` |
| extra.dfy | Encounters | `Desplazamiento`, `Persona` and `Simulador` of the second engine |

The design is functional:
- Persons are immutable records kept in a sequence used as a stable index
  arena, so Python's `p is not self` becomes index inequality.
- Deposits and the per-cell grouping are association lists that keep
  Python's dictionary order, because that order decides ties in the
  nearest-deposit search and the order in which cells are resolved.
- A turn is a composition of phase functions, and a run is a fold of turns.

Three behaviours of the code shape the model:
- The movement phase hands the live list of persons to each decision
  (simulacion.py:138-142). A person therefore sees the new positions of
  everyone who moved before it in the same turn.
- The main engine has no births. Births happen only in the second engine,
  when an encounter moves at least two units of energy.
- `PseudoAzar` mixes a fresh clock reading into every draw
  (EXTRA.py:10-12), so even a given seed does not make its stream
  reproducible.

The two invariants carried through a whole run of the main engine are:
- `Simulation.Sound`: no cell holds two deposit lists, no deposit is
  negative, and every person is on the board, has an alive flag agreeing
  with its energy, and has a non-negative balance.
- `Simulation.Accounted`: the death tallies equal the census of the dead,
  by role and by territory, and the trade counter is half the sum of the
  persons' own trade counts.

`Simulation.Wealth` counts the coins carried, the coins lying on the board
and the two coins each trade burns. It changes only by the rain.

## Model

| member | source | states |
|---|---|---|
| Territories.Territory.Range | territorio.py:18-19 | `rango` returns the corners `(x_min, y_min)` and `(x_max, y_max)`, and a point is contained exactly when it lies between them, bounds included |
| Territories.ContainsInclusive | territorio.py:15-16 | `contiene` is inclusive on all four bounds, and the first column or row beyond any bound is outside |
| Territories.InvertedIsEmpty | territorio.py:15-16 | a rectangle with `x_min > x_max` or `y_min > y_max` contains no point at all |
| Territories.CornersContained | territorio.py:15-16 | a well-formed rectangle contains both of its corners |
| Territories.IndexAt | utils.py:164-168 | the index of the first territory, in list order, that contains the point; none exactly when no territory contains it |
| Territories.TerritoryAt | utils.py:164-168 | `territorio_en_posicion` returns a containing territory that no earlier territory in the list precedes, and None exactly when no territory contains the point |
| Territories.TerritoryAtFirstMatch | utils.py:164-168 | when territory `k` is the first to contain the point, the lookup returns exactly territory `k`, so overlaps are resolved by list order |
| Territories.TerritoryName | simulacion.py:134-135 | the territory label is the name of the territory found at the cell, or None when there is none |
| Agents.RolesComplete | persona.py:8 | every role is in `ROLES` |
| Agents.TakeDamage | persona.py:44-47 | `recibir_daño(c)` lowers energy by exactly `c`; the result is alive exactly when it was flagged alive and the new energy is positive; the flag is never set back to true |
| Agents.DeathIsPermanent | persona.py:41-47 | a person whose flag is down stays flagged down after any damage, and a person who is not alive stays not alive after non-negative damage |
| Agents.EarnCoins | persona.py:49-51 | `ganar_monedas(c)` adds `c` when `c > 0` and otherwise changes nothing; the balance never drops |
| Agents.SpendCoins | persona.py:53-57 | `gastar_monedas(c)` succeeds exactly when `c <= monedas`, and then subtracts exactly `c`; on failure nothing changes; a non-negative balance stays non-negative for `c >= 0` |
| Agents.EarnThenSpend | persona.py:49-57 | earning a positive amount and then spending it gives back the original person, the spend succeeding |
| Agents.MarkVisited | persona.py:35-36 | the current cell is added to the visited cells and nothing else changes |
| Agents.Move | persona.py:59-63 | `mover` wraps both coordinates into the board for any integer deltas, adds the new cell to the visited cells, keeps the cells already there, and changes nothing else |
| Agents.MoveIsNeighbour | persona.py:59-63 | a unit move from a cell on the board lands on the neighbouring cell, or wraps to the opposite edge when it crosses one |
| Movement.OptionsAreUnitSteps | persona.py:79-83 | the nine options are exactly the deltas with both components in {-1, 0, 1} |
| Movement.HoarderOptionsNonDiagonal | persona.py:159-161 | the hoarder's five fallback options are exactly the non-diagonal unit deltas |
| Movement.StepToward | persona.py:115-124 | `paso_hacia` is one of the nine options; each axis is 0 exactly when the coordinates agree and otherwise has the sign of target minus current, negated when fleeing; with no target it is a random option |
| Movement.StepTowardDistance | persona.py:115-124 | stepping toward a target shortens the Manhattan distance by the number of differing axes, and fleeing lengthens it by the same amount |
| Movement.Picked | persona.py:85-93 | the indices kept by the filter are exactly those of the other living persons it accepts, strictly increasing |
| Movement.Others | persona.py:85-93 | the candidates are the persons at those indices, one per index, in list order |
| Movement.NearestPerson | persona.py:88-99 | `vecino_mas_cercano` is None exactly when no other living person passes the filter; otherwise it is the position of the person `min` picks: one at minimal Manhattan distance, with every qualifying person before it in the list strictly farther |
| Movement.FirstNearestPerson | persona.py:94-99 | the candidate `min` picks is a qualifying person at least distance, and every qualifying person earlier in the list is strictly farther |
| Movement.NearestDeposit | persona.py:101-109 | `moneda_mas_cercana` is None exactly when there are no deposits; otherwise it is a deposit cell at minimal Manhattan distance, and every cell before it in dictionary order is strictly farther |
| Movement.OpenOptions | persona.py:144-149 | the open option indices are exactly those whose destination has not been visited, strictly increasing |
| Movement.Unvisited | persona.py:144-149 | the explorer's candidates are the options at the open indices, in option order |
| Movement.UnvisitedMembers | persona.py:144-149 | a delta is a candidate exactly when it is an option whose destination has not been visited |
| Movement.RoleMove | persona.py:126-161 | every role's choice is one of the nine options; the hoarder's random fallback is non-diagonal; the explorer picks an unvisited destination whenever one exists |
| Movement.Decide | persona.py:163-174 | in the forest, the stay draw overrides the role's choice with `(0, 0)`; otherwise the role's choice stands; the result is always one of the nine options |
| Movement.WarriorChases | persona.py:127-129 | a warrior with someone to chase steps toward the person `min` picks among the other living persons |
| Movement.CollectorFlees | persona.py:133-137 | a collector with a living warrior in sight steps away from the warrior `min` picks |
| Movement.CollectorSeeksCoins | persona.py:133-141 | a collector with no warrior in sight and some deposit steps toward the deposit cell `min` picks |
| Movement.TraderPrefersNonWarriors | persona.py:130-132 | a trader steps toward the non-warrior `min` picks when there is one |
| Movement.TraderFallsBackToAnyone | persona.py:130-132 | with no non-warrior around, a trader steps toward the person of any role `min` picks |
| Movement.HoarderSeeksCoins | persona.py:154-158 | a hoarder whose coin draw succeeds steps toward the deposit cell `min` picks when there is one |
| Movement.FallbacksAreRandom | persona.py:127-153 | a warrior with nobody to chase, a collector with no warrior and no deposit, and an explorer with every destination visited each pick a random option among all nine |
| Interaction.CollectCoinsPerson | utils.py:14-21 | `recoger_monedas` with no deposit on the cell changes nothing; otherwise the person gains the sum of the cell's values when that sum is positive, and changes nowhere else |
| Interaction.CollectCoinsDeposits | utils.py:14-21 | pickup removes the person's cell from the deposits and leaves every other cell untouched; with non-negative deposits the coins carried plus the coins lying on the board are conserved |
| Interaction.NoDebtPushAll | utils.py:129-132 | appending non-negative values to the deposits keeps every deposit non-negative |
| Interaction.Combat | utils.py:28-51 | both fight counters rise by one; exactly the loser of the draw takes 5 damage and the other's energy is unchanged; a winner is returned exactly when the loser is no longer alive, and then only the winner's win counter rises; nobody comes back to life |
| Interaction.CombatDeaths | utils.py:40-51 | between two living persons the winner of the draw survives, and the loser dies (so a winner is returned) exactly when its energy was at most 5 |
| Interaction.Trade | utils.py:58-102 | `intercambiar` succeeds exactly when there is no fog, both want to trade, and both have coins and objects; then each pays one coin, gives up its last object and receives the other's, and counts one more trade; on failure nobody changes |
| Interaction.TradeConservesItems | utils.py:89-102 | a trade keeps the two inventories' joint multiset and each inventory's length, and no balance goes negative |
| Interaction.FightersAndHoardersNeverTrade | utils.py:64-82 | with a warrior or a hoarder involved, the trade fails and changes nothing |
| Interaction.GenerateEvent | utils.py:109-115 | an event fires exactly when the 5% draw succeeds, and it is one of the five events |
| Interaction.RandInt | utils.py:132 | `randint(lo, hi)` lies in [lo, hi] |
| Interaction.RainCells | utils.py:129-132 | the rain's drops are on the board and carry values in [1, 5] |
| Interaction.RainFall | utils.py:127-132 | rain adds exactly as many values as it has drops, and keeps one list per cell |
| Interaction.RainCellsSum | utils.py:127-132 | the ten drops add between 10 and 50 coins |
| Interaction.RainOnlyAppends | utils.py:127-132 | each cell's list after the rain is its old list followed by the new values for that cell, each in [1, 5]; a newly created cell lies on the board |
| Interaction.NewlyDeadSpec | utils.py:134-147 | the reported victims are exactly the persons alive before and dead after, in list order |
| Interaction.NewlyDeadFrame | utils.py:134-147 | the victims below `n` depend only on the persons below `n` |
| Interaction.NobodyNewlyDead | utils.py:125 | when nobody changes, nobody is reported dead |
| Interaction.Afflict | utils.py:134-147 | a hit is applied to each living person in list order, the dead are untouched, and the victims are those it killed |
| Interaction.ApplyEvent | utils.py:118-157 | an earthquake costs every living person 3 energy; the plague kills exactly the living persons whose draw succeeds; the reported deaths are exactly those alive before and dead after; rain touches only the deposits and adds its ten values; fog and market change nothing; the dead are never touched |
| Statistics.PerRole.With | simulacion.py:105-108 | updating one role's entry leaves every other role's entry unchanged |
| Statistics.Uniform | simulacion.py:105-107 | the per-role dictionaries start with the same value for every role |
| Statistics.Bump | simulacion.py:125 | `muertes_por_rol[rol] += 1` raises that role's count by one and no other |
| Statistics.CensusUpdate | simulacion.py:191-195 | replacing one person changes a population sum by exactly the difference of that person's contributions |
| Statistics.LivingPlusDead | simulacion.py:191-192 | the living and the dead of a role are non-negative counts that add up to the role's members, at most the population |
| Setup.CreateTerritories | simulacion.py:32-43 | three well-formed territories inside the board, with distinct names |
| Setup.TerritoriesAreDisjoint | simulacion.py:39-43 | no cell lies in two of the three territories |
| Setup.WhereEachKindLies | simulacion.py:39-43 | the forest is [0, 6]², the city [7, 12]², the mountains [13, 19]², and every other cell has no territory |
| Setup.Founder | simulacion.py:48-63 | founder `i` has id `i`, sits on its drawn cell, is alive with the starting record, carries its role's objects, and has its cell marked visited |
| Setup.CreatePersons | simulacion.py:46-64 | thirty founders with ids 0 to 29, each fresh, on the board and on its drawn cell |
| Setup.EveryRoleCanBeFounded | simulacion.py:51 | any role can be drawn for a founder |
| Setup.SeedValue | simulacion.py:77-81 | an initial value lies in [1, 10] |
| Setup.SeedCells | simulacion.py:74-82 | the initial drops are the drawn cells, each with its territory's value |
| Setup.InitDeposits | simulacion.py:67-84 | `inicializar_monedas` places fifty values in total, one list per cell |
| Setup.InitDepositsValues | simulacion.py:74-82 | every initial deposit lies on the board, with values in [3, 10] in the mountains and in [1, 5] elsewhere |
| Setup.InitDepositsNoDebt | simulacion.py:67-84 | no initial deposit holds a negative value |
| Simulation.NewTally | simulacion.py:108 | the territory tally starts with one zero entry per distinct territory name, and only those |
| Simulation.BumpTally | simulacion.py:128 | `muertes_en_territorio[nombre] += 1` raises exactly the named entry by one and keeps the keys |
| Simulation.LivingAtSpec | simulacion.py:87-93 | the reference grouping: the persons on a cell are exactly the living persons standing there, in list order |
| Simulation.GroupByPosition | simulacion.py:87-93 | the grouping holds one list per cell |
| Simulation.LivingEntriesAt | simulacion.py:89-92 | the entries the grouping loop appends for a cell are exactly the reference grouping of that cell |
| Simulation.GroupByPositionSpec | simulacion.py:87-93 | `agrupar_por_posicion` gives each cell exactly the reference list, and has a key for a cell exactly when some living person stands there |
| Simulation.GroupingCoversTheLiving | simulacion.py:87-93 | a person is listed under a cell exactly when it is alive and stands there, so every living person is in exactly one list and the dead are in none |
| Simulation.GroupsAreOrdered | simulacion.py:87-93 | every list of the grouping is strictly increasing and within the population |
| Simulation.CellPairs | simulacion.py:164-167 | every pair of a cell is made of two of its persons, the first before the second in list order |
| Simulation.CellPairsComplete | simulacion.py:164-167 | every pair `i < j` of a cell's list is visited |
| Simulation.CellPairsSound | simulacion.py:164-167 | every visited pair is some `i < j` of the cell's list |
| Simulation.TurnPairsValid | simulacion.py:156-167 | all pairs of the turn have two distinct in-range indices, the smaller first |
| Simulation.TurnPairsFromCells | simulacion.py:156-167 | every pair of the turn is a pair of the list of one single cell |
| Simulation.TurnPairsIncludeCell | simulacion.py:156-167 | every pair of a cell's list is among the pairs of the turn |
| Simulation.TurnPairsColocated | simulacion.py:154-169 | every pair of the turn is two living persons standing on the same cell, the smaller index first |
| Simulation.TurnPairsCoverColocated | simulacion.py:154-169 | conversely, every two living persons standing on the same cell form a pair of the turn |
| Simulation.RecordDeath | simulacion.py:124-128 | booking a death changes only the two death tallies, and keeps the territory names |
| Simulation.RecordDeathTally | simulacion.py:126-128 | booking a death raises a territory's entry by one exactly when the victim's cell lies in that territory |
| Simulation.RecordNewlyDeadByRole | simulacion.py:124-125 | booking the event victims raises each role's death count by exactly the number of that role's persons who died |
| Simulation.RecordNewlyDeadByTerritory | simulacion.py:124-128 | booking the event victims raises each territory's entry by exactly the number of persons who died in it |
| Simulation.BookNewlyDead | simulacion.py:124-128 | booking the event victims keeps the death ledgers in agreement with the population |
| Simulation.EventPhase | simulacion.py:113-128 | the event phase changes only the persons, the deposits and the death tallies, and changes nothing when no event fires |
| Simulation.EventPhaseTakesOutcome | simulacion.py:115-122 | after an event, the persons and deposits are those the event left |
| Simulation.EventPhaseLedgers | simulacion.py:115-128 | after an event the death ledgers agree with the new population |
| Simulation.EventPhaseAccounts | simulacion.py:113-128 | the event phase keeps the books |
| Simulation.EventPhaseSound | simulacion.py:113-128 | the event phase keeps the state sound, leaves the dead untouched, and changes wealth by exactly the rain's amount |
| Simulation.EventDepositsSound | utils.py:118-157 | an event keeps one list per cell and no negative deposit, and adds exactly the rain's amount to the coins on the board |
| Simulation.EventKeepsPersonsHealthy | utils.py:118-157 | an event keeps every person on the board, with a consistent alive flag and a non-negative balance |
| Simulation.RainAmount | utils.py:127-132 | only rain adds coins, between 10 and 50 |
| Simulation.LabelPhase | simulacion.py:130-135 | labelling changes only the territory labels, and only of the living |
| Simulation.LabelsMatchTheMap | simulacion.py:130-135 | on the fixed map, a living person is labelled with a territory exactly when its cell lies in that territory's square |
| Simulation.LabelPhaseKeeps | simulacion.py:130-135 | labelling keeps the books, soundness and wealth |
| Simulation.Advance | simulacion.py:144-145 | a move lands on a neighbouring cell of the torus by one of the nine options, marks it visited, and ages the person by one turn |
| Simulation.MovePhase | simulacion.py:137-145 | the movement loop touches only the living; each living person moves by one option, stays on the board, marks its new cell, and ages by exactly one turn; nothing else changes |
| Simulation.MoveOne | simulacion.py:138-145 | one iteration changes only the person it visits: a living one takes the step it decides against the list as it stands, a dead one is skipped |
| Simulation.IterateFrame | simulacion.py:138-145 | in a loop whose body rewrites only the entry it visits, later iterations leave a visited entry as its own iteration left it |
| Simulation.MoverTouchesOnlyItsOwn | simulacion.py:138-145 | the body of the movement loop keeps the list's length and rewrites only the person it visits |
| Simulation.MoveOneExtends | simulacion.py:138-145 | each iteration extends the description of the moved persons by one more person |
| Simulation.MoveLoopShape | simulacion.py:137-145 | after `n` iterations, the dead and the persons not yet reached are unchanged and every living person reached has taken one step, marked its cell and aged one turn |
| Simulation.MovePhaseUsesLiveList | simulacion.py:138-145 | each living person's new state is the step it decides against the list as the loop left it: everybody before it has already moved, nobody after it has |
| Simulation.MovePhaseKeeps | simulacion.py:137-145 | movement keeps the books, soundness and wealth |
| Simulation.CollectAtShape | simulacion.py:148-151 | one pickup step changes only the coins of the current person, and changes nothing for the dead |
| Simulation.CollectAtEmpties | simulacion.py:148-151 | one pickup step touches only the current person's cell, which a living person leaves empty |
| Simulation.CollectAtGains | simulacion.py:148-151 | a pickup step from non-negative deposits never lowers a balance |
| Simulation.CollectAtConserves | simulacion.py:148-151 | a pickup step conserves the coins carried plus the coins lying on the board |
| Simulation.CollectPhaseShape | simulacion.py:147-151 | the pickup loop changes only balances, only of the living, and only of the persons it has reached |
| Simulation.CollectPhaseDistinct | simulacion.py:147-151 | the pickup loop keeps one list per cell |
| Simulation.CollectPhaseNoDebt | simulacion.py:147-151 | the pickup loop keeps every deposit non-negative |
| Simulation.CollectPhaseGains | simulacion.py:147-151 | the pickup loop never lowers a balance |
| Simulation.CollectPhaseConserves | simulacion.py:147-151 | the pickup loop conserves the coins carried plus the coins lying on the board |
| Simulation.CollectPhaseClears | simulacion.py:147-151 | after the loop, no living person it has reached stands on a deposit |
| Simulation.CollectPhaseKeeps | simulacion.py:147-151 | pickup keeps the books, soundness and wealth |
| Simulation.Fought | simulacion.py:179-188 | after a fight only the two fighters change, and the loser is booked when the blow killed it |
| Simulation.ResolvePair | simulacion.py:166-188 | a pair with a dead member is skipped; for two living persons the trade counter rises exactly when the trade succeeds, a successful trade leaves the pair as the trade did and skips the fight, a failed trade without fog is followed by the fight between the two; under fog nothing else happens; only the two persons of the pair change |
| Simulation.TradeAccounts | simulacion.py:172-175 | a trade raises the trade counter by one while both partners count it, so the counter stays half their sum |
| Simulation.FightAccounts | simulacion.py:177-188 | a fight books exactly the loser it killed, under its role and its territory |
| Simulation.ResolvePairAccounts | simulacion.py:166-188 | resolving a pair keeps the books |
| Simulation.TradeSound | simulacion.py:172-175 | a trade keeps soundness and wealth: the two coins paid are the two the counter accounts for |
| Simulation.FightSound | simulacion.py:177-188 | a fight keeps soundness and moves no coin |
| Simulation.ResolvePairSound | simulacion.py:166-188 | resolving a pair keeps soundness and wealth, and never touches the dead |
| Simulation.Resolve | simulacion.py:156-188 | the pair loop changes only the persons and the books, and under fog it changes nothing |
| Simulation.ResolveKeeps | simulacion.py:156-188 | the pair loop keeps the books, soundness and wealth, and never touches the dead |
| Simulation.InteractPhase | simulacion.py:153-188 | the interaction phase changes only the persons and the books, and under fog it changes nothing; which pairs it resolves is stated by `TurnPairsColocated` and `TurnPairsCoverColocated` |
| Simulation.InteractPhaseKeeps | simulacion.py:153-188 | the interaction phase keeps the books, soundness and wealth, and never touches the dead |
| Simulation.Snapshot | simulacion.py:190-195 | each role's histories gain exactly its count of the living and their total coins |
| Simulation.SnapshotBounds | simulacion.py:190-195 | a recorded head count lies between 0 and the population, and a recorded wealth is non-negative |
| Simulation.FogHaltsInteraction | simulacion.py:160-178 | under fog a turn is the phases before interaction followed by the snapshot: no trade and no fight happen |
| Simulation.BeforeInteractionKeeps | simulacion.py:111-151 | event, labels, movement and pickup keep the books and soundness, never touch the dead, and change wealth only by the rain |
| Simulation.TurnKeeps | simulacion.py:111-195 | a turn keeps the books and soundness, never touches the dead, changes wealth only by the rain, and appends the end-of-turn census to each role's histories |
| Simulation.RainTotal | utils.py:127-132 | rain adds at most 50 coins per turn |
| Simulation.SimulateStep | simulacion.py:111-195 | turn `n` keeps the invariants established by the turns before it |
| Simulation.SimulateKeeps | simulacion.py:111-195 | any number of turns keeps the books and soundness, never revives or touches the dead, and changes wealth only by the rain that fell |
| Simulation.SimulateHistory | simulacion.py:190-195 | after `n` turns each role's histories are `n` entries longer |
| Simulation.FreshPopulation | simulacion.py:105-109 | a population alive, penniless and without trades has no dead, no coins and no trades to count |
| Simulation.OpeningKeeps | simulacion.py:99-109 | the opening books of a fresh population agree with it, the state is sound, and its wealth is the coins on the board |
| Simulation.StartKeeps | simulacion.py:99-109 | the starting state keeps the books and is sound |
| Simulation.RunKeeps | simulacion.py:99-195 | after the 200 turns of a run there are still thirty persons, the books agree, the state is sound, and wealth is the initial deposits plus the rain |
| Simulation.DeathsBounded | simulacion.py:125 | each role's death count is between 0 and the number of its members |
| Simulation.HistoriesFromEmpty | simulacion.py:105-195 | histories that start empty have exactly `n` entries after `n` turns |
| Simulation.RunLedgers | simulacion.py:105-195 | after a run each role has between 0 and its member count of deaths, and each history has exactly 200 entries |
| Report.FirstBestAmong | simulacion.py:202 | the first role, in `ROLES` order, with the largest key among the first `n` |
| Report.FirstBest | simulacion.py:202 | `max(…, key=)` over the roles returns the first role with the largest key |
| Report.FirstBestUnique | simulacion.py:202 | the first best role is unique |
| Report.RichestRole | simulacion.py:198-202 | `rol_mas_rico` holds at least as many coins as every role, and strictly more than every earlier role |
| Report.RichestRoleUnique | simulacion.py:198-202 | any role meeting that description is the one returned |
| Report.RichestHoldsAFifth | simulacion.py:198-202 | the richest role holds at least a fifth of all coins |
| Report.MeanAge | simulacion.py:204-212 | a role's mean age is the sum of its members' ages divided by their number, and 0 with no members |
| Report.MeanAgesSeparated | simulacion.py:204-213 | with at most 30 persons, two different mean ages differ by at least 1/900 |
| Report.AgesNonNegative | simulacion.py:204-212 | with non-negative ages, every mean age is non-negative |
| Report.LongestLivedRole | simulacion.py:213 | `rol_mas_longevo` has the largest mean age, and strictly more than every earlier role |
| Report.LongestLivedRoleUnique | simulacion.py:213 | any role meeting that description is the one returned |
| Report.MostCombativeRole | simulacion.py:215-220 | `rol_mas_violento` has the most fights, and strictly more than every earlier role |
| Report.MostCombativeRoleUnique | simulacion.py:215-220 | any role meeting that description is the one returned |
| Report.MostLethalTerritory | simulacion.py:222-224 | the deadliest territory is the first tally entry with the largest count, and none exists only for an empty tally |
| Report.DeadliestOfBooks | simulacion.py:222-224 | with the books kept, the deadliest territory is a territory name, and no territory has more dead persons in its square |
| Report.Summarize | simulacion.py:198-226 | the summary has a deadliest territory exactly when the tally is non-empty, and carries the trade count |
| Report.RunReport | simulacion.py:99-226 | after a run the deadliest territory exists and has at least as many dead as any territory, and the richest role holds at least a fifth of all coins |
| PseudoRandom.Mask | EXTRA.py:12-16 | `& 0xFFFFFFFF` yields a value below 2^32, and leaves a 32-bit value alone |
| PseudoRandom.XorBound | EXTRA.py:12-15 | exclusive or of two `k`-bit numbers is a `k`-bit number |
| PseudoRandom.XorBits | EXTRA.py:12-15 | `Xor` is Python's `^`: bit `k` of the result is set exactly when bit `k` of the two operands differ |
| PseudoRandom.NewEnv | EXTRA.py:6-7 | a missing seed reads the clock once and takes its value; a given seed is used as is |
| PseudoRandom.Mix | EXTRA.py:12-16 | the mixing always ends below 2^32 |
| PseudoRandom.MixStaysNarrow | EXTRA.py:12-15 | from a 32-bit state, every xorshift intermediate stays below 2^32 |
| PseudoRandom.NextU32 | EXTRA.py:9-17 | `next_u32` reads the clock once, returns a value below 2^32 whatever the clock says, and stores it as the new state |
| PseudoRandom.NextU32Narrows | EXTRA.py:9-17 | after the first draw the state is always a 32-bit number |
| PseudoRandom.Index | EXTRA.py:19-20 | `indice(m)` for `m > 0` is one draw reduced into [0, m) |
| PseudoRandom.BiasedIsSixTenths | EXTRA.py:22-23 | the integer test on the low 24 bits agrees with `rand01() < 0.6` |
| PseudoRandom.Now | EXTRA.py:125 | a clock reading outside the generator leaves its state unchanged and is counted |
| Encounters.StepsAreTheUnitSteps | EXTRA.py:29-31 | `OPC` holds exactly the nine unit deltas |
| Encounters.RandomStep | EXTRA.py:36-37 | `paso_aleatorio` returns one of `OPC` and costs one clock reading |
| Encounters.StepToward | EXTRA.py:39-42 | each component is in {-1, 0, 1}, 0 exactly when the coordinates agree, and otherwise has the sign of target minus current |
| Encounters.StepTowardCloses | EXTRA.py:39-42 | a step toward the target shortens the Manhattan distance by one per differing axis |
| Encounters.SetPos | EXTRA.py:57-59 | `set_pos` keeps the agent on the board and changes only its position; a position already on the board is kept |
| Encounters.SetPosWrapsAround | EXTRA.py:57-59 | one step past an edge wraps to the opposite edge |
| Encounters.NewAgent | EXTRA.py:47-55 | a new agent is on the board with the given name, size, energy and ideas |
| Encounters.MoveBy | EXTRA.py:64-70 | a move keeps the agent on the board and changes only its position |
| Encounters.Nearest | EXTRA.py:76 | the target is the neighbour `min` picks: one at minimal Manhattan distance, with every neighbour before it strictly farther |
| Encounters.SubStep | EXTRA.py:74-82 | one sub-step keeps the agent on the board, changes only its position, and reads the clock once or twice |
| Encounters.SubStepApproaches | EXTRA.py:75-78 | when the 60% draw succeeds, the agent steps toward the nearest neighbour and the distance shrinks |
| Encounters.Walk | EXTRA.py:72-82 | `paso` keeps the agent on the board, changes only its position, and reads the clock between 4 and 8 times |
| Encounters.DecimalRoundTrip | EXTRA.py:161 | the decimal rendering of a counter reads back as the same number |
| Encounters.NewbornName | EXTRA.py:158-161 | a newborn's name is `Nuevo` followed by the counter |
| Encounters.NewbornNamesDistinct | EXTRA.py:158-161 | different counters give different names |
| Encounters.Act | EXTRA.py:94-134 | cooperation adds one energy to each; debate removes one from each who has some; the barter and the transfer conserve the pair's ideas and energy; no total ever goes negative; only the transfer can count, and it counts exactly when its clock and energy test lets energy move |
| Encounters.Newborn | EXTRA.py:137-143 | a newborn sits on the first agent's cell with energy 5 and one idea |
| Encounters.MiniAction | EXTRA.py:94-143 | one mini-action keeps positions and the pair's ideas, counts at most one transfer, and produces the meeting's newborn exactly when the transferred count first reaches 2 |
| Encounters.MiniActions | EXTRA.py:94-143 | any number of mini-actions keeps these facts, with at most one newborn |
| Encounters.Interact | EXTRA.py:84-145 | `interactuar` keeps the pair's ideas and non-negative totals, and returns at most one newborn; it returns one exactly when at least 2 units moved, at the first agent's cell, named by the counter |
| Encounters.Initial | EXTRA.py:150-173 | the simulator starts with four agents of energy 10 and one idea, the counter at 1, and one clock reading made |
| Encounters.InitialDiagonal | EXTRA.py:166-171 | on the 4 × 4 board the four agents start on the diagonal |
| Encounters.AllBut | EXTRA.py:180 | `posiciones[:idx] + posiciones[idx + 1:]` drops exactly entry `idx` |
| Encounters.Positions | EXTRA.py:178 | the snapshot holds every agent's position, in order |
| Encounters.MoveFrom | EXTRA.py:179-181 | the movement loop moves each agent from the current one on, and leaves earlier agents alone |
| Encounters.EnvAt | EXTRA.py:178-181 | the generator an agent starts from has read the clock at least four times per earlier walk of the loop |
| Encounters.MoveFromEnv | EXTRA.py:178-181 | the loop leaves the generator the last walk produced |
| Encounters.MoveUsesSnapshot | EXTRA.py:178-181 | agent `i` ends exactly where `paso` takes it from its own pre-move state, toward the positions the others had before anyone moved, with the generator left by the walks of the agents before it |
| Encounters.MovedUsesSnapshot | EXTRA.py:176-181 | in a tick, each agent walks toward the tick's opening positions of the others, with the generator threaded through the earlier walks |
| Encounters.PairsFrom | EXTRA.py:194-195 | the double loop visits every pair `i < j` exactly in lexicographic order |
| Encounters.Meet | EXTRA.py:196-199 | a meeting keeps the agents' names and positions, conserves ideas, records the pair; the two agents, the generator and the newborns are exactly those `interactuar` leaves, so a newborn is added exactly when the mini-actions moved at least twice |
| Encounters.MeetPair | EXTRA.py:196-199 | agents on different cells do not meet; agents on one cell meet and are recorded |
| Encounters.MeetAll | EXTRA.py:194-199 | the encounter loop adds at most one newborn per meeting |
| Encounters.MeetAllIdeas | EXTRA.py:194-199 | the encounter loop conserves the agents' ideas |
| Encounters.MeetAllBirths | EXTRA.py:194-199 | the newborns of the loop are named by consecutive counters, each with energy 5 and one idea |
| Encounters.MeetAllPairs | EXTRA.py:194-199 | every recorded meeting is a pair of agents that shared a cell |
| Encounters.MeetAllRecordsEvery | EXTRA.py:194-199 | conversely, every given pair whose agents share a cell when the loop starts meets and is recorded |
| Encounters.Moved | EXTRA.py:177-185 | after moving every agent is on the board and has changed only its position, the condition `step` asserts |
| Encounters.Meetings | EXTRA.py:191-199 | the encounter loop gives no more newborns than meetings, and advances the counter by the newborns |
| Encounters.Step | EXTRA.py:175-204 | a tick adds at most one agent per meeting, and advances the name counter by the number added |
| Encounters.StepValid | EXTRA.py:175-204 | a tick keeps the simulator well formed and the names of the agents already there |
| Encounters.StepNewborns | EXTRA.py:201-202 | newborns are appended after all meetings, in order, named by consecutive counters |
| Encounters.StepPairs | EXTRA.py:194-199 | every meeting of the tick is between two agents present before the births, on the same cell |
| Encounters.StepMeetsEveryPair | EXTRA.py:194-199 | every pair `i < j` of agents on one cell after the move loop meets in that tick |
| Encounters.StepIdeas | EXTRA.py:175-204 | a tick adds exactly one idea per newborn and otherwise conserves ideas |

## Left out

- Rendering and I/O: the matplotlib charts (simulacion.py:252-346), console printing (simulacion.py:352-366 and the prints of EXTRA.py), the Tkinter window and its `sleep` pacing (EXTRA.py:211-314), and `obtener_interacciones`, which only hands the last pairs to the window.
- The `random` module and the clock: every draw is an oracle parameter and every `time()` reading is the next value of a clock function. Their distributions are not modelled, so "5% per turn", "uniform" or "60%" are not claims of the model.
- The combat's win probability `a.energia / total` (utils.py:37-40) is a float comparison. It becomes the oracle boolean "the first fighter wins".
- The explorer's willingness to trade (`random.random() < 0.2`, utils.py:70) is an oracle boolean.
- `rand01` (EXTRA.py:22-23) returns a float. Only the comparison `rand01() < 0.6` is used, and it is modelled exactly as an integer test on the draw (`PseudoRandom.Biased`).
- Report.MeanAge: computed in exact rational arithmetic, not IEEE doubles, and the doubles themselves are not modelled. Python's `int / int` is correctly rounded, so equal means give equal doubles. `Report.MeanAgesSeparated` shows that different means of the 30 persons differ by at least 1/900. A mean age is at most 200, one per turn, so its rounding error is below 200 × 2^-53. The comparisons of `Report.LongestLivedRole` therefore agree with the source's; this last step is argued here, not proved.
- The mean trades per turn (simulacion.py:226) is a float division of the verified trade counter by 200. It is not modelled.
- PseudoRandom.NewEnv: only absent or non-negative seeds are modelled; Python's `^` and `>>` on a negative seed are left out, and the engine never passes one.
- PseudoRandom.Index: requires a positive modulus; Python raises on zero, and the engine only asks for 9 and 4.
- Report.MostLethalTerritory: returns `None` on an empty tally, where Python's `max` raises `ValueError` (simulacion.py:222-224); `Report.RunReport` proves the tally is never empty after a run, so the case cannot occur.
- The `KeyError` the death tallies could raise for an unknown territory name is not modelled; `Simulation.Accounted` proves every territory name is a key, so it cannot occur.
- The assertion of the bounds in `Simulador.step` (EXTRA.py:184-185) is not a runtime check in the model. `Encounters.Moved` proves that it always holds.
