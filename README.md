# Pokemon battle engine: a verified model

This project models the core of a small turn-based battle engine for two
combatants, written in C++. The core has four parts:

* **Type effectiveness** (`TypeChart`, `type_effectiveness.dfy`). A fixed,
  directional chart maps an (attacking type, defending type) pair to a
  multiplier of 0, 0.5, 1 or 2. A "Normal" attack is always neutral, and any
  pair the chart does not list is neutral. The chart sits in a process-wide
  map that is filled once, on first use.
* **The combatant** (`Combatants`, `combatants.dfy`). A `Pokemon` object has
  fixed stats, hit points clamped to [0, maxHP], a moveset, and at most one
  timed status. Poison takes maxHP/8 on each tick, burn maxHP/16, and
  paralysis nothing. Each tick takes one turn off the duration, and the
  status ends once the duration is at or below zero (a status applied with
  duration 0 ends on its first tick, at duration -1).
* **The move** (`Moves`, `moves.dfy`). A move rolls for accuracy, then asks
  its effect function for a magnitude. The effect function is replaceable;
  by default it is `max(1, attack*power / (defence*2))`. A positive magnitude
  is scaled by type effectiveness and dealt to the defender. A negative one
  heals the attacker. A Status-category move then puts its status on the
  defender.
* **The battle** (`Battles`, `battles.dfy`). The faster combatant acts first,
  and a tie goes to the first-registered one. A turn is wasted on an empty
  moveset or on full paralysis. The attacker's status ticks after it acts.
  Rounds repeat until one combatant faints. If both have fainted, the
  second-registered combatant is declared the winner.

Every class is proved against value-level functions:

* `View` is a snapshot of a combatant's fields.
* `Damaged`, `Healed`, `WithStatus` and `Ticked` say what the `Pokemon`
  methods do to a `View`.
* `Resolve` says what `Move.execute` does.
* `Turn`, `Exchange`, `Round` and `Fight` say what `executeTurn`, one round
  and the whole `start` loop do.

The lemmas state the engine's properties about those functions.

Every `rand()` call becomes an input:

* the accuracy draw and the paralysis draw are arbitrary naturals, and the
  model applies `% 100` as the code does;
* `start` draws a move index for each turn.

The effect function is a function value `(View, View) -> int`. The battle
loop is given a finite sequence of rounds. If that sequence runs out before
anyone faints, `Fight` reports the battle as unfinished (winner `None`), and
`Battle.Start` returns `null`.

In two places the repository's header comments and the code differ. The
model follows the code in both:

* include/Pokemon.h line 106 says `updateStatus` is "called at the end of
  each turn", and include/Battle.h line 57 lists applying status damage as a
  step of every turn. But a fully paralysed turn returns before
  `updateStatus` (src/Battle.cpp lines 31-36 against line 48). A skipped turn
  therefore does not tick, and the paralysis duration does not go down.
  `ParalysisSkipsTurnAndTick` states this.
* include/Pokemon.h line 22 documents `currentHP` with "0 = fainted", but
  `isFainted` is `currentHP <= 0` (include/Pokemon.h line 84).
  `FaintedMeansZero` shows that the two agree under the hit-point invariant.

## Model

| member | source | states |
|---|---|---|
| TypeChart.Multiplier.Value | src/TypeEffectiveness.cpp:23-104 | Every multiplier the chart can hold is one of 0.0, 0.5, 1.0, 2.0 |
| TypeChart.Chart | src/TypeEffectiveness.cpp:23-104 | Defined without ensures: the 60 entries `initializeChart` writes; `ChartIsDirectional`, `Immunities` and `NormalDefenderNotOverridden` state entries of it |
| TypeChart.Effectiveness | src/TypeEffectiveness.cpp:117-135 | A Normal attack gives 1; a listed pair gives its chart entry; an unlisted pair gives 1 |
| TypeChart.Scale | src/Move.cpp:53-54 | `static_cast<int>(d * m)` for d > 0 equals the real floor of d*m, lies in [0, 2d], and is 0 exactly for immunity or half of 1 |
| TypeChart.HalfFloor | src/Move.cpp:54 | Flooring d*0.5 in the reals is integer division of d by 2 |
| TypeChart.NormalAlwaysNeutral | src/TypeEffectiveness.cpp:122 | A Normal attack is neutral (1.0) against every defending type |
| TypeChart.NormalDefenderNotOverridden | src/TypeEffectiveness.cpp:63 | The override is attack-side only: Fighting against Normal is still 2.0 |
| TypeChart.ChartIsDirectional | src/TypeEffectiveness.cpp:23-31 | Water against Fire is 2.0 while Fire against Water is 0.5 |
| TypeChart.Immunities | src/TypeEffectiveness.cpp:51-75 | Electric against Ground and Ground against Flying are 0.0 |
| TypeChart.UnlistedPairNeutral | src/TypeEffectiveness.cpp:125-134 | Any pair not in the chart, unknown type names included, gives 1.0 |
| TypeChart.EffectivenessTable.constructor | src/TypeEffectiveness.cpp:5-6 | The static state starts as an empty map with `initialized` false |
| TypeChart.EffectivenessTable.InitializeChart | src/TypeEffectiveness.cpp:18-108 | The first call fills the map with exactly the chart; later calls change nothing |
| TypeChart.EffectivenessTable.GetEffectiveness | src/TypeEffectiveness.cpp:117-135 | Initialises the chart if needed and returns exactly `Effectiveness` of the pair |
| Combatants.Created | src/Pokemon.cpp:7-10 | A new combatant has full health, no status and duration 0, with the given stats |
| Combatants.Damaged | src/Pokemon.cpp:13-15 | Hit points become max(0, hp - damage); a non-negative damage keeps them in [0, maxHP]; nothing else changes |
| Combatants.Healed | src/Pokemon.cpp:18-20 | Hit points become min(maxHP, hp + amount); a non-negative amount keeps them in [0, maxHP]; nothing else changes |
| Combatants.WithStatus | src/Pokemon.cpp:28-34 | An active status is never replaced; otherwise the new status and duration are set; nothing else changes |
| Combatants.Ticked | src/Pokemon.cpp:37-62 | Defined without ensures; its properties are stated by `TickedFrame`, `TickWithoutStatus`, `TickHitPoints`, `TickDuration`, `LastPoisonTickHurts` and `PoisonRunsItsCourse` |
| Combatants.TickedFrame | src/Pokemon.cpp:37-62 | A tick keeps hit points in range and never raises them, and changes only hit points, status and duration |
| Combatants.TickWithoutStatus | src/Pokemon.cpp:38 | With no active status a tick changes nothing |
| Combatants.TickHitPoints | src/Pokemon.cpp:41-54 | A tick takes exactly its `TickDamage`, clamped at 0: maxHP/8 poisoned, maxHP/16 burned, none otherwise |
| Combatants.TickDuration | src/Pokemon.cpp:57-61 | A tick takes exactly one turn off the duration; the status survives iff the old duration exceeded 1 |
| Combatants.LastPoisonTickHurts | src/Pokemon.cpp:41-61 | A poison with duration 1 still deals its last maxHP/8 and then ends |
| Combatants.PoisonRunsItsCourse | src/Pokemon.cpp:37-62 | A poison of duration n ends after exactly n ticks: after each j < n ticks it is still a poison with n - j turns left, and after n it has ended, having taken n*(maxHP/8) hit points, clamped at 0 |
| Combatants.PoisonStillActive | src/Pokemon.cpp:41-61 | After j ticks of a poison with n > j turns left, the status is still poison with n - j turns left |
| Combatants.ClampedSteps | src/Pokemon.cpp:14 | Two clamped subtractions of k and m*k are one clamped subtraction of (m+1)*k |
| Combatants.Fainted | include/Pokemon.h:84 | Defined without ensures: hit points at or below zero; `FaintedMeansZero` relates it to exactly zero |
| Combatants.HasStatus | include/Pokemon.h:120 | Defined without ensures: a non-empty status name; `WithStatus`, `TickWithoutStatus` and `TickDuration` state how it changes |
| Combatants.Pokemon.IsFainted | include/Pokemon.h:84 | Defined without ensures: `Fainted` of the object's snapshot |
| Combatants.Pokemon.HasStatusEffect | include/Pokemon.h:120 | Defined without ensures: `HasStatus` of the object's snapshot |
| Combatants.FaintedMeansZero | include/Pokemon.h:84 | Under the hit-point invariant, `currentHP <= 0` holds iff hit points are exactly 0 |
| Combatants.Pokemon.constructor | src/Pokemon.cpp:7-10 | The object's fields are `Created` of the arguments, the moveset is empty, and the invariant holds |
| Combatants.Pokemon.TakeDamage | src/Pokemon.cpp:13-15 | The new state is `Damaged` of the old one; non-negative damage keeps the invariant; the moveset is unchanged |
| Combatants.Pokemon.Heal | src/Pokemon.cpp:18-20 | The new state is `Healed` of the old one; a non-negative amount keeps the invariant; the moveset is unchanged |
| Combatants.Pokemon.AddMove | src/Pokemon.cpp:23-25 | The move is appended at the end, earlier moves keep their places, and no other field changes |
| Combatants.Pokemon.ApplyStatusEffect | src/Pokemon.cpp:28-34 | The new state is `WithStatus` of the old one |
| Combatants.Pokemon.UpdateStatus | src/Pokemon.cpp:37-62 | The new state is `Ticked` of the old one, and the invariant is kept |
| Moves.TruncDiv | src/Move.cpp:28 | C++ `/` by a positive divisor truncates toward zero, for negative dividends too |
| Moves.DefaultDamage | src/Move.cpp:17-34 | A zero-power move gives 0; otherwise the result is at least 1, and for a non-negative product it equals max(1, attack*power / (stat*2)), where stat is special defense for a Special move and defense otherwise |
| Moves.DefaultEffect | src/Move.cpp:17-34 | Defined without ensures: the effect a move is constructed with, `DefaultDamage` for its power and category; `NormalMoveExample` resolves a move with it |
| Moves.Hits | src/Move.cpp:40-41 | Defined without ensures: the draw modulo 100 falls below the accuracy; `AccuracyExtremes` and `MissChangesNothing` state its consequences |
| Moves.Inflicts | src/Move.cpp:75 | Defined without ensures: a Status move with a non-empty status name; `StatusOnlyFromStatusMoves` states its effect |
| Moves.Resolve | src/Move.cpp:38-80 | Defined without ensures; its properties are stated by `MissChangesNothing`, `DamageGoesToDefender`, `ImmuneTakesNothing`, `NegativeMagnitudeHeals`, `StatusOnlyFromStatusMoves`, `ResolveKeepsInvariant` and `ZeroMagnitudeTouchesNoHitPoints` |
| Moves.MissChangesNothing | src/Move.cpp:40-44 | A miss returns 0 and leaves both combatants, and their statuses, untouched |
| Moves.AccuracyExtremes | src/Move.cpp:40-41 | An accuracy of 100 or more always hits; an accuracy of 0 or less always misses |
| Moves.DamageGoesToDefender | src/Move.cpp:51-57 | A positive magnitude deals its scaled amount to the defender, clamped at 0, returns that amount, and leaves the attacker as it was |
| Moves.ImmuneTakesNothing | src/Move.cpp:53-57 | Against an immune defender a damaging move deals 0 and returns 0 |
| Moves.NegativeMagnitudeHeals | src/Move.cpp:68-71 | A negative magnitude heals the attacker by its absolute value up to maxHP, leaves the defender's hit points alone, and is returned as it is |
| Moves.ZeroMagnitudeTouchesNoHitPoints | src/Move.cpp:49-79 | A hit whose magnitude is 0 (a zero-power move with the default effect) returns 0, leaves the attacker and the defender's hit points as they were, and changes at most the defender's status |
| Moves.StatusOnlyFromStatusMoves | src/Move.cpp:75-77 | A defender without a status gains one iff the move hits and is a Status move with a status name, whatever the magnitude; an active status is kept; a move that misses or inflicts nothing leaves the defender's status and duration unchanged |
| Moves.ResolveKeepsInvariant | src/Move.cpp:38-80 | `execute` keeps both combatants in range, changes only the attacker's hit points, and changes only the defender's hit points and status |
| Moves.DefaultDamageExample | src/Move.cpp:28-29 | Power 40 with attack 55 against defense 40 gives 27 |
| Moves.NormalMoveExample | src/Move.cpp:38-79 | A Normal move of power 40 and accuracy 100, from attack 55 against defense 40, deals and returns exactly 27 |
| Moves.Values | src/Battle.cpp:44 | Each move's value sits at the same index as the move in the moveset |
| Moves.Move.constructor | src/Move.cpp:9-35 | A new move holds its definition and the default effect for its power and category |
| Moves.Move.SetEffectFunction | src/Move.cpp:83-85 | The effect function is replaced, so every later `Execute` uses the new one |
| Moves.Move.Execute | src/Move.cpp:38-80 | Both combatants' new states and the return value are exactly `Resolve` of the old states and the draw; the invariant is kept; movesets are unchanged |
| Battles.FirstAttacker | src/Battle.cpp:13-20 | pokemon1 goes first iff its speed is at least pokemon2's |
| Battles.TieGoesToPokemon1 | src/Battle.cpp:15-16 | A speed tie always goes to pokemon1 |
| Battles.ClampIndex | src/Battle.cpp:39-41 | An in-range index is kept and any other index becomes 0, so the result is always in range |
| Battles.Immobilized | src/Battle.cpp:31-32 | Defined without ensures: a Paralyzed attacker whose draw modulo 100 is below 50; `ParalysisSkipsTurnAndTick` states its effect |
| Battles.Turn | src/Battle.cpp:23-49 | Defined without ensures; its properties are stated by `EmptyMovesetWastesTurn`, `ParalysisSkipsTurnAndTick`, `OutOfRangeIndexUsesFirstMove`, `ActingTicksOnce` and `TurnKeepsInvariant` |
| Battles.EmptyMovesetWastesTurn | src/Battle.cpp:25-28 | With no moves the turn changes nothing, so the status does not tick |
| Battles.ParalysisSkipsTurnAndTick | src/Battle.cpp:31-36 | A Paralyzed attacker with a draw below 50 does not act, and its status duration stays unchanged |
| Battles.OutOfRangeIndexUsesFirstMove | src/Battle.cpp:39-41 | A turn with an out-of-range index is the turn with index 0 |
| Battles.ActingTicksOnce | src/Battle.cpp:44-48 | When the attacker acts, the move is resolved and then the attacker's status ticks exactly once; the defender's does not tick |
| Battles.TurnKeepsInvariant | src/Battle.cpp:23-49 | A turn keeps both combatants' hit points in [0, maxHP] |
| Battles.MoveDrawAsWritten | src/Battle.cpp:81 | `rand() % size` is undefined exactly for an empty moveset, and is otherwise in range |
| Battles.EmptyMovesetDividesByZero | src/Battle.cpp:81 | A combatant with no moves hits the division by zero in `start` whatever the draw |
| Battles.MoveDraw | src/Battle.cpp:81 | The corrected draw agrees with `rand() % size` whenever there are moves |
| Battles.Selected | src/Battle.cpp:81-82 | The inputs `start` passes to `executeTurn` carry the turn's own draws, and an in-range index whenever the moveset is non-empty |
| Battles.SelectedTurn | src/Battle.cpp:25-28 | With the corrected draw an empty moveset wastes the turn, and a non-empty one uses the drawn move without clamping |
| Battles.Exchange | src/Battle.cpp:81-99 | Defined without ensures; its properties are stated by `FelledSecondDoesNotAct`, `FirstFaintNotCheckedMidRound` and `ExchangeKeepsInvariant` |
| Battles.FelledSecondDoesNotAct | src/Battle.cpp:82-88 | If the first turn fells the second combatant, the round ends and the second does not act |
| Battles.FirstFaintNotCheckedMidRound | src/Battle.cpp:82-93 | Otherwise the second acts, even if the first fainted from its own status tick |
| Battles.ExchangeKeepsInvariant | src/Battle.cpp:75-99 | A round keeps both combatants' hit points in [0, maxHP] |
| Battles.Round | src/Battle.cpp:75-99 | Defined without ensures: `Exchange` in the order `FirstAttacker` gives; `OneSidedBattle` and `FightKeepsInvariant` reason about it |
| Battles.Over | src/Battle.cpp:71 | Defined without ensures: the negation of the loop condition, one combatant fainted; `Fight` ties the winner to it |
| Battles.WinnerOf | src/Battle.cpp:106 | Defined without ensures: pokemon2 if pokemon1 fainted, else pokemon1; `WinnerStandsUnlessBothFell` states its consequences |
| Battles.Fight | src/Battle.cpp:61-110 | The battle has a winner iff a combatant has fainted; the winner follows the winner rule; an unfinished battle ends in the state reached by playing every supplied round (`PlayAll`); a battle that is already over is returned as it is |
| Battles.FightKeepsInvariant | src/Battle.cpp:71-103 | Hit points stay in [0, maxHP] for the whole battle |
| Battles.WinnerStandsUnlessBothFell | src/Battle.cpp:106 | pokemon1 wins only if it stands and pokemon2 has fallen; pokemon2 wins iff pokemon1 has fallen; if both fell, pokemon2 wins |
| Battles.DecidedBattleIgnoresLaterRounds | src/Battle.cpp:71-103 | Once the loop has stopped on a faint, further round inputs change neither the final state nor the winner |
| Battles.UnfinishedBattleNeverStopped | src/Battle.cpp:71-99 | An unfinished battle played every supplied round, and nobody had fainted before the first round or after any of them |
| Battles.PlayAll | src/Battle.cpp:71-103 | Defined without ensures: every supplied round applied in order with no faint check, the reference `Fight` and `UnfinishedBattleNeverStopped` are stated against |
| Battles.PlayAllPrefix | src/Battle.cpp:71-103 | Playing the first j rounds is playing the first round and then the next j - 1 |
| Battles.FirstFaintAfter | src/Battle.cpp:71-99 | Defined without ensures: a faint shows after the first k rounds and after no shorter prefix |
| Battles.FirstFaintShifts | src/Battle.cpp:71-99 | A first faint k rounds after the next round is a first faint k + 1 rounds from the current state |
| Battles.DecidedBattleStopsAtFirstFaint | src/Battle.cpp:71-99 | A decided battle's final state is the state after exactly the rounds up to the first one that leaves a combatant fainted; no round is played after it |
| Battles.OneSidedBattle | src/Battle.cpp:71-106 | If pokemon1 is at least as fast as pokemon2 (so it acts first, ties included) and fells pokemon2 in its first turn, the battle ends there; pokemon1 wins unless its own tick also felled it |
| Battles.Battle.constructor | src/Battle.cpp:8-10 | The battle holds the two combatants in registration order, and is valid when they are distinct with hit points in range |
| Battles.Battle.DetermineFirstAttacker | src/Battle.cpp:13-20 | Returns pokemon1 iff speed1 >= speed2, otherwise pokemon2, and changes nothing |
| Battles.Battle.ExecuteTurn | src/Battle.cpp:23-49 | Both combatants' new states are exactly `Turn` of the old states, the attacker's moveset and the inputs; the invariant is kept |
| Battles.Battle.TakeTurns | src/Battle.cpp:81-99 | The two turns of a round leave exactly the state `Exchange` gives |
| Battles.Battle.PlayRound | src/Battle.cpp:75-99 | One iteration of the loop leaves exactly the state `Round` gives |
| Battles.Battle.Start | src/Battle.cpp:61-110 | The final state is that of `Fight` from the initial state; the returned combatant is the winner `Fight` names, or null iff the rounds ran out |

## Left out

- Console output is not modelled: `displayStatus`, `displayBattleState`, every `std::cout` message and the effectiveness messages (src/Move.cpp:58-67). They change no state.
- `rand()` is not modelled. Each draw it makes is an input: the accuracy draw, the paralysis draw and `start`'s move draw.
- `start`'s loop need not terminate: for example, moves that always miss never end it. The model gives it a finite sequence of round inputs instead, and reports a battle that outlasts them as unfinished.
- Battles.MoveDraw: with an empty moveset it gives index 0 where the code divides by zero (see Findings). The rest of the model uses this corrected draw.
- Fixed-width `int` overflow is not modelled, for example in `attack * basePower` or `currentHP + amount`. All arithmetic is on unbounded integers.
- Combatants.Pokemon.constructor: takes maxHP as a natural, and defense and special defense as positive integers. The source accepts any `int` there, and a zero defence stat would divide by zero in the default damage formula.
- Moves.Move.Execute: requires the attacker and the defender to be different objects. The source does not forbid a combatant targeting itself, but no call in the battle does that. Battles.Battle.ExecuteTurn and Battles.Battle.TakeTurns carry the same requirement.
- Battles.Battle.Start: requires two distinct combatants whose hit points are in range. The `Pokemon` constructor establishes the second condition. No operation called with a non-negative amount breaks it, and the battle makes only such calls. `takeDamage` with a negative amount can raise hit points above maxHP, and `heal` with a negative amount can lower them below 0 (src/Pokemon.cpp:14, 19).
- The chart is stored grouped by attacking type, as a map from attacking type to a map from defending type. The source keys one map by the pair, and the two hold the same entries.
- `Move.execute` calls the pure function `Effectiveness` directly, without going through `EffectivenessTable`. The table's state never affects the value a lookup returns.
- The embedded Python interpreter and the skill scripts are not part of this model, and neither are include/PythonSkillLoader.h and src/main.cpp (wiring, seeding and exception handling). A loaded script is just an arbitrary effect function here.
- The default arguments of `Move`'s constructor (include/Move.h:64-65: category PHYSICAL, no status, duration 0) are not modelled: `Moves.Move.constructor` takes a full `MoveDef`, so a caller writes those values out.
- Accessors (`getName`, `getMoves` and the rest) are not modelled as members; they are read as fields.

## Findings

| source | as written | input that shows it | evidently intended | confidence | as-written member | corrected member |
|---|---|---|---|---|---|---|
| src/Battle.cpp:81-92 | `start` computes `rand() % first.getMoves().size()` before `executeTurn` checks for an empty moveset | a battle in which either combatant has no moves: `size()` is 0, and the modulo divides by zero | the turn reaches `executeTurn`, which reports "has no moves!" and wastes it | high (not executed) | Battles.EmptyMovesetDividesByZero | Battles.SelectedTurn |
