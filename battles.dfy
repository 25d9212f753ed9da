/**
 * The battle driver: turn order by speed, one turn per combatant per
 * round, and the round loop that runs until a combatant faints.
 *
 * The draws the source takes from `rand()` are inputs: for each turn the
 * chosen move index, the paralysis draw and the accuracy draw. The loop is
 * given a finite sequence of rounds; if it runs out before anyone faints
 * the battle is reported as unfinished.
 */
module Battles {
  import opened Combatants
  import opened Moves

  datatype Side = One | Two

  datatype Option<T> = None | Some(value: T)

  /** The inputs of one turn: the selected move index and two `rand()` draws. */
  datatype TurnInput = TurnInput(moveIndex: int, paralysisRoll: nat, accuracyRoll: nat)

  /** The `rand()` draws `start` makes for one turn: the move draw, then those of `executeTurn`. */
  datatype TurnDraws = TurnDraws(moveDraw: nat, paralysisRoll: nat, accuracyRoll: nat)

  /** The draws of one round: first the faster combatant's turn, then the other's. */
  datatype RoundInput = RoundInput(first: TurnDraws, second: TurnDraws)

  /** The acting combatant and its target after a turn. */
  datatype TurnEnd = TurnEnd(attacker: View, defender: View)

  /** Both combatants of the battle, in registration order. */
  datatype Duel = Duel(pokemon1: View, pokemon2: View)

  /** The combatants when the battle stops, and the winner if it finished. */
  datatype Ending = Ending(state: Duel, winner: Option<Side>)

  /** `determineFirstAttacker`: the faster one goes first; a tie goes to pokemon1. */
  function FirstAttacker(speed1: int, speed2: int): (s: Side)
    ensures s == One <==> speed1 >= speed2
  {
    if speed1 >= speed2 then One else Two
  }

  /** A tie in speed always goes to the first-registered combatant. */
  lemma TieGoesToPokemon1(speed: int)
    ensures FirstAttacker(speed, speed) == One
  {
  }

  /** Full paralysis: a Paralyzed attacker whose draw, modulo 100, is below 50. */
  predicate Immobilized(attacker: View, paralysisRoll: nat)
  {
    attacker.status == Paralyzed && paralysisRoll % 100 < 50
  }

  /** The move index actually used: an index outside the moveset becomes 0. */
  function ClampIndex(index: int, size: nat): (i: nat)
    requires size > 0
    ensures i < size
    ensures 0 <= index < size ==> i == index
    ensures !(0 <= index < size) ==> i == 0
  {
    if index < 0 || index >= size then 0 else index
  }

  /**
   * `executeTurn`: an empty moveset or full paralysis wastes the turn, with
   * no status tick; otherwise the selected move is resolved against the
   * defender and then the attacker's status ticks once.
   */
  function Turn(attacker: View, defender: View, moves: seq<MoveValue>, input: TurnInput): (t: TurnEnd)
  {
    if |moves| == 0 || Immobilized(attacker, input.paralysisRoll) then TurnEnd(attacker, defender)
    else
      var move := moves[ClampIndex(input.moveIndex, |moves|)];
      var o := Resolve(move.def, move.effect, attacker, defender, input.accuracyRoll);
      TurnEnd(Ticked(o.attacker), o.defender)
  }

  /** With no moves the turn changes nothing; in particular the status does not tick. */
  lemma EmptyMovesetWastesTurn(attacker: View, defender: View, input: TurnInput)
    ensures Turn(attacker, defender, [], input) == TurnEnd(attacker, defender)
  {
  }

  /**
   * A fully paralysed attacker does not act, and its status does not tick:
   * the duration it had is the duration it keeps.
   */
  lemma ParalysisSkipsTurnAndTick(attacker: View, defender: View, moves: seq<MoveValue>,
                                  input: TurnInput)
    requires attacker.status == Paralyzed && input.paralysisRoll % 100 < 50
    ensures Turn(attacker, defender, moves, input) == TurnEnd(attacker, defender)
    ensures Turn(attacker, defender, moves, input).attacker.statusDuration == attacker.statusDuration
  {
  }

  /** An index outside the moveset selects the first move. */
  lemma OutOfRangeIndexUsesFirstMove(attacker: View, defender: View, moves: seq<MoveValue>,
                                     input: TurnInput)
    requires |moves| > 0 && (input.moveIndex < 0 || input.moveIndex >= |moves|)
    ensures Turn(attacker, defender, moves, input) ==
            Turn(attacker, defender, moves, input.(moveIndex := 0))
  {
  }

  /** When the attacker acts, its status ticks exactly once, after the move, and the defender's does not. */
  lemma ActingTicksOnce(attacker: View, defender: View, moves: seq<MoveValue>, input: TurnInput)
    requires |moves| > 0 && !Immobilized(attacker, input.paralysisRoll)
    ensures var move := moves[ClampIndex(input.moveIndex, |moves|)];
      var o := Resolve(move.def, move.effect, attacker, defender, input.accuracyRoll);
      Turn(attacker, defender, moves, input) == TurnEnd(Ticked(o.attacker), o.defender)
  {
  }

  /** A turn keeps both combatants' hit points within [0, maxHP]. */
  lemma TurnKeepsInvariant(attacker: View, defender: View, moves: seq<MoveValue>, input: TurnInput)
    requires HealthInRange(attacker) && HealthInRange(defender)
    ensures HealthInRange(Turn(attacker, defender, moves, input).attacker)
    ensures HealthInRange(Turn(attacker, defender, moves, input).defender)
  {
    if |moves| > 0 && !Immobilized(attacker, input.paralysisRoll) {
      var move := moves[ClampIndex(input.moveIndex, |moves|)];
      ResolveKeepsInvariant(move.def, move.effect, attacker, defender, input.accuracyRoll);
      TickedFrame(Resolve(move.def, move.effect, attacker, defender, input.accuracyRoll).attacker);
    }
  }

  /**
   * The move index `start` picks, `rand() % size`, as written: with an empty
   * moveset it divides by zero (`None`) before `executeTurn` can report
   * that there are no moves.
   */
  function MoveDrawAsWritten(draw: nat, size: nat): (r: Option<nat>)
    ensures r.None? <==> size == 0
    ensures r.Some? ==> r.value < size
  {
    if size == 0 then None else Some(draw % size)
  }

  /** The empty moveset reaches the division by zero in `start`, whatever the draw. */
  lemma EmptyMovesetDividesByZero(draw: nat)
    ensures MoveDrawAsWritten(draw, 0).None?
  {
  }

  /**
   * The move index as evidently intended: `rand() % size` when there are
   * moves, and any index (here 0) when there are none, so that the turn
   * reaches `executeTurn`, which wastes it.
   */
  function MoveDraw(draw: nat, size: nat): (i: nat)
    ensures size > 0 ==> i < size && MoveDrawAsWritten(draw, size) == Some(i)
  {
    if size == 0 then 0 else draw % size
  }

  /** The inputs `executeTurn` receives from `start` for one turn. */
  function Selected(draws: TurnDraws, size: nat): (input: TurnInput)
    ensures size > 0 ==> 0 <= input.moveIndex < size
    ensures input.paralysisRoll == draws.paralysisRoll && input.accuracyRoll == draws.accuracyRoll
  {
    TurnInput(MoveDraw(draws.moveDraw, size), draws.paralysisRoll, draws.accuracyRoll)
  }

  /**
   * With the corrected draw, a combatant with no moves loses its turn, and
   * one with moves uses the drawn move, never falling back on the clamp.
   */
  lemma SelectedTurn(attacker: View, defender: View, moves: seq<MoveValue>, draws: TurnDraws)
    ensures moves == [] ==> Turn(attacker, defender, moves, Selected(draws, |moves|)) == TurnEnd(attacker, defender)
    ensures |moves| > 0 ==>
      ClampIndex(Selected(draws, |moves|).moveIndex, |moves|) == draws.moveDraw % |moves|
  {
  }

  /**
   * One round, seen from the attacker order: the first acts; if that leaves
   * the second fainted the round ends there; otherwise the second acts,
   * whether or not the first fainted from its own status tick.
   */
  function Exchange(first: View, second: View, firstMoves: seq<MoveValue>,
                    secondMoves: seq<MoveValue>, input: RoundInput): (t: TurnEnd)
  {
    var opening := Turn(first, second, firstMoves, Selected(input.first, |firstMoves|));
    if Fainted(opening.defender) then opening
    else
      var reply := Turn(opening.defender, opening.attacker, secondMoves, Selected(input.second, |secondMoves|));
      TurnEnd(reply.defender, reply.attacker)
  }

  /** If the first turn fells the second combatant, the second does not act. */
  lemma FelledSecondDoesNotAct(first: View, second: View, firstMoves: seq<MoveValue>,
                               secondMoves: seq<MoveValue>, input: RoundInput)
    requires Fainted(Turn(first, second, firstMoves, Selected(input.first, |firstMoves|)).defender)
    ensures Exchange(first, second, firstMoves, secondMoves, input) ==
            Turn(first, second, firstMoves, Selected(input.first, |firstMoves|))
  {
  }

  /**
   * The first combatant fainting from its own status tick does not stop the
   * second from acting: only the second's state is checked between the turns.
   */
  lemma FirstFaintNotCheckedMidRound(first: View, second: View, firstMoves: seq<MoveValue>,
                                     secondMoves: seq<MoveValue>, input: RoundInput)
    requires !Fainted(Turn(first, second, firstMoves, Selected(input.first, |firstMoves|)).defender)
    ensures var opening := Turn(first, second, firstMoves, Selected(input.first, |firstMoves|));
      var reply := Turn(opening.defender, opening.attacker, secondMoves, Selected(input.second, |secondMoves|));
      Exchange(first, second, firstMoves, secondMoves, input) == TurnEnd(reply.defender, reply.attacker)
  {
  }

  /** A round keeps both combatants' hit points within [0, maxHP]. */
  lemma ExchangeKeepsInvariant(first: View, second: View, firstMoves: seq<MoveValue>,
                               secondMoves: seq<MoveValue>, input: RoundInput)
    requires HealthInRange(first) && HealthInRange(second)
    ensures HealthInRange(Exchange(first, second, firstMoves, secondMoves, input).attacker)
    ensures HealthInRange(Exchange(first, second, firstMoves, secondMoves, input).defender)
  {
    var opening := Turn(first, second, firstMoves, Selected(input.first, |firstMoves|));
    TurnKeepsInvariant(first, second, firstMoves, Selected(input.first, |firstMoves|));
    TurnKeepsInvariant(opening.defender, opening.attacker, secondMoves, Selected(input.second, |secondMoves|));
  }

  /** One round of the battle loop, with the speeds deciding who goes first. */
  function Round(duel: Duel, moves1: seq<MoveValue>, moves2: seq<MoveValue>, input: RoundInput): (d: Duel)
  {
    if FirstAttacker(duel.pokemon1.speed, duel.pokemon2.speed) == One then
      var t := Exchange(duel.pokemon1, duel.pokemon2, moves1, moves2, input);
      Duel(t.attacker, t.defender)
    else
      var t := Exchange(duel.pokemon2, duel.pokemon1, moves2, moves1, input);
      Duel(t.defender, t.attacker)
  }

  predicate Over(duel: Duel)
  {
    Fainted(duel.pokemon1) || Fainted(duel.pokemon2)
  }

  /** The winner rule: pokemon2 if pokemon1 has fainted, otherwise pokemon1. */
  function WinnerOf(duel: Duel): Side
  {
    if Fainted(duel.pokemon1) then Two else One
  }

  /** Every supplied round played in order, with no check for a faint in between. */
  function PlayAll(duel: Duel, moves1: seq<MoveValue>, moves2: seq<MoveValue>,
                   rounds: seq<RoundInput>): Duel
    decreases |rounds|
  {
    if rounds == [] then duel
    else PlayAll(Round(duel, moves1, moves2, rounds[0]), moves1, moves2, rounds[1..])
  }

  /**
   * `start`: rounds are played while neither combatant has fainted; the
   * battle ends with the winner rule as soon as one has, or is unfinished
   * when the supplied rounds run out first.
   */
  function Fight(duel: Duel, moves1: seq<MoveValue>, moves2: seq<MoveValue>,
                 rounds: seq<RoundInput>): (e: Ending)
    decreases |rounds|
    ensures e.winner.Some? <==> Over(e.state)
    ensures e.winner.Some? ==> e.winner.value == WinnerOf(e.state)
    ensures e.winner.None? ==> e.state == PlayAll(duel, moves1, moves2, rounds)
    ensures Over(duel) ==> e == Ending(duel, Some(WinnerOf(duel)))
  {
    if Over(duel) then Ending(duel, Some(WinnerOf(duel)))
    else if rounds == [] then Ending(duel, None)
    else Fight(Round(duel, moves1, moves2, rounds[0]), moves1, moves2, rounds[1..])
  }

  /** A battle keeps both combatants' hit points within [0, maxHP] throughout. */
  lemma {:induction false} FightKeepsInvariant(duel: Duel, moves1: seq<MoveValue>,
                                               moves2: seq<MoveValue>, rounds: seq<RoundInput>)
    requires HealthInRange(duel.pokemon1) && HealthInRange(duel.pokemon2)
    ensures var e := Fight(duel, moves1, moves2, rounds);
      HealthInRange(e.state.pokemon1) && HealthInRange(e.state.pokemon2)
    decreases |rounds|
  {
    if !Over(duel) && rounds != [] {
      var p1, p2 := duel.pokemon1, duel.pokemon2;
      if FirstAttacker(p1.speed, p2.speed) == One {
        ExchangeKeepsInvariant(p1, p2, moves1, moves2, rounds[0]);
      } else {
        ExchangeKeepsInvariant(p2, p1, moves2, moves1, rounds[0]);
      }
      FightKeepsInvariant(Round(duel, moves1, moves2, rounds[0]), moves1, moves2, rounds[1..]);
    }
  }

  /**
   * The winner has not fainted, unless both have; when both have, pokemon2
   * is declared the winner.
   */
  lemma WinnerStandsUnlessBothFell(duel: Duel, moves1: seq<MoveValue>, moves2: seq<MoveValue>,
                                   rounds: seq<RoundInput>)
    ensures var e := Fight(duel, moves1, moves2, rounds);
      (e.winner == Some(One) ==> !Fainted(e.state.pokemon1) && Fainted(e.state.pokemon2)) &&
      (e.winner == Some(Two) <==> Fainted(e.state.pokemon1)) &&
      (Fainted(e.state.pokemon1) && Fainted(e.state.pokemon2) ==> e.winner == Some(Two))
  {
  }

  /**
   * A faster (or equally fast) pokemon1 whose first turn fells pokemon2 ends
   * the battle in that round, pokemon2 never acting; pokemon1 wins, unless its
   * own status tick at the end of that turn made it faint too, in which case
   * the winner rule gives the battle to pokemon2.
   */
  lemma OneSidedBattle(duel: Duel, moves1: seq<MoveValue>, moves2: seq<MoveValue>,
                       rounds: seq<RoundInput>)
    requires !Over(duel) && |rounds| > 0
    requires duel.pokemon1.speed >= duel.pokemon2.speed
    requires Fainted(Turn(duel.pokemon1, duel.pokemon2, moves1, Selected(rounds[0].first, |moves1|)).defender)
    ensures var t := Turn(duel.pokemon1, duel.pokemon2, moves1, Selected(rounds[0].first, |moves1|));
      Fight(duel, moves1, moves2, rounds) ==
        Ending(Duel(t.attacker, t.defender), Some(if Fainted(t.attacker) then Two else One))
  {
    var t := Turn(duel.pokemon1, duel.pokemon2, moves1, Selected(rounds[0].first, |moves1|));
    assert Round(duel, moves1, moves2, rounds[0]) == Duel(t.attacker, t.defender);
    FightUnfolds(duel, moves1, moves2, rounds);
  }

  /**
   * A decided battle does not depend on the inputs after the deciding round:
   * supplying more rounds changes neither the outcome nor the final state.
   */
  lemma {:induction false} DecidedBattleIgnoresLaterRounds(duel: Duel, moves1: seq<MoveValue>,
                                                           moves2: seq<MoveValue>,
                                                           rounds: seq<RoundInput>,
                                                           later: seq<RoundInput>)
    requires Fight(duel, moves1, moves2, rounds).winner.Some?
    ensures Fight(duel, moves1, moves2, rounds + later) == Fight(duel, moves1, moves2, rounds)
    decreases |rounds|
  {
    if !Over(duel) {
      assert (rounds + later)[0] == rounds[0];
      assert (rounds + later)[1..] == rounds[1..] + later;
      DecidedBattleIgnoresLaterRounds(Round(duel, moves1, moves2, rounds[0]), moves1, moves2,
                                      rounds[1..], later);
    }
  }

  /**
   * An unfinished battle played every supplied round, and nobody had fainted
   * before the first round or after any of them.
   */
  lemma {:induction false} UnfinishedBattleNeverStopped(duel: Duel, moves1: seq<MoveValue>,
                                                        moves2: seq<MoveValue>,
                                                        rounds: seq<RoundInput>)
    requires Fight(duel, moves1, moves2, rounds).winner.None?
    ensures Fight(duel, moves1, moves2, rounds).state == PlayAll(duel, moves1, moves2, rounds)
    ensures forall k :: 0 <= k <= |rounds| ==> !Over(PlayAll(duel, moves1, moves2, rounds[..k]))
    decreases |rounds|
  {
    assert !Over(duel);
    if rounds != [] {
      var next := Round(duel, moves1, moves2, rounds[0]);
      UnfinishedBattleNeverStopped(next, moves1, moves2, rounds[1..]);
      forall k | 0 <= k <= |rounds|
        ensures !Over(PlayAll(duel, moves1, moves2, rounds[..k]))
      {
        if k > 0 {
          assert rounds[..k][0] == rounds[0];
          assert rounds[..k][1..] == rounds[1..][..k - 1];
        }
      }
    }
  }

  /** Playing the first `j` rounds is playing the first one, then the next `j - 1`. */
  lemma PlayAllPrefix(duel: Duel, moves1: seq<MoveValue>, moves2: seq<MoveValue>,
                      rounds: seq<RoundInput>, j: nat)
    requires 0 < j <= |rounds|
    ensures PlayAll(duel, moves1, moves2, rounds[..j]) ==
            PlayAll(Round(duel, moves1, moves2, rounds[0]), moves1, moves2, rounds[1..][..j - 1])
  {
    assert rounds[..j][0] == rounds[0];
    assert rounds[..j][1..] == rounds[1..][..j - 1];
  }

  /**
   * After the first `k` rounds a combatant has fainted, and after none of the
   * shorter prefixes (the start included) had one.
   */
  predicate FirstFaintAfter(duel: Duel, moves1: seq<MoveValue>, moves2: seq<MoveValue>,
                            rounds: seq<RoundInput>, k: int)
  {
    0 <= k <= |rounds| &&
    Over(PlayAll(duel, moves1, moves2, rounds[..k])) &&
    forall j :: 0 <= j < k ==> !Over(PlayAll(duel, moves1, moves2, rounds[..j]))
  }

  /** A first faint `k` rounds after the next round is a first faint `k + 1` rounds from now. */
  lemma FirstFaintShifts(duel: Duel, moves1: seq<MoveValue>, moves2: seq<MoveValue>,
                         rounds: seq<RoundInput>, k: nat)
    requires !Over(duel) && |rounds| > 0
    requires FirstFaintAfter(Round(duel, moves1, moves2, rounds[0]), moves1, moves2, rounds[1..], k)
    ensures FirstFaintAfter(duel, moves1, moves2, rounds, k + 1)
    ensures PlayAll(duel, moves1, moves2, rounds[..k + 1]) ==
            PlayAll(Round(duel, moves1, moves2, rounds[0]), moves1, moves2, rounds[1..][..k])
  {
    PlayAllPrefix(duel, moves1, moves2, rounds, k + 1);
    forall j | 0 <= j < k + 1
      ensures !Over(PlayAll(duel, moves1, moves2, rounds[..j]))
    {
      if j == 0 {
        assert rounds[..j] == [];
      } else {
        PlayAllPrefix(duel, moves1, moves2, rounds, j);
      }
    }
  }

  /**
   * A decided battle stops at the first round that leaves a combatant
   * fainted: its final state is the state after those rounds and no more.
   */
  lemma {:induction false} DecidedBattleStopsAtFirstFaint(duel: Duel, moves1: seq<MoveValue>,
                                                          moves2: seq<MoveValue>,
                                                          rounds: seq<RoundInput>)
    requires Fight(duel, moves1, moves2, rounds).winner.Some?
    ensures exists k :: FirstFaintAfter(duel, moves1, moves2, rounds, k) &&
                        Fight(duel, moves1, moves2, rounds).state == PlayAll(duel, moves1, moves2, rounds[..k])
    decreases |rounds|
  {
    if Over(duel) {
      assert rounds[..0] == [];
      assert FirstFaintAfter(duel, moves1, moves2, rounds, 0);
    } else {
      var next := Round(duel, moves1, moves2, rounds[0]);
      DecidedBattleStopsAtFirstFaint(next, moves1, moves2, rounds[1..]);
      var k :| FirstFaintAfter(next, moves1, moves2, rounds[1..], k) &&
               Fight(next, moves1, moves2, rounds[1..]).state == PlayAll(next, moves1, moves2, rounds[1..][..k]);
      FirstFaintShifts(duel, moves1, moves2, rounds, k);
      assert Fight(duel, moves1, moves2, rounds).state == PlayAll(duel, moves1, moves2, rounds[..k + 1]);
    }
  }

  /** A battle not yet over plays its next round and continues from there. */
  lemma FightUnfolds(duel: Duel, moves1: seq<MoveValue>, moves2: seq<MoveValue>, rounds: seq<RoundInput>)
    requires !Over(duel) && |rounds| > 0
    ensures Fight(duel, moves1, moves2, rounds) ==
            Fight(Round(duel, moves1, moves2, rounds[0]), moves1, moves2, rounds[1..])
  {
  }

  /** The battle object: the two combatants, in registration order. */
  class Battle {
    const pokemon1: Pokemon<Move>
    const pokemon2: Pokemon<Move>

    /** Two distinct combatants, each with hit points in range. */
    ghost predicate Valid()
      reads pokemon1, pokemon2
    {
      pokemon1 != pokemon2 && pokemon1.Valid() && pokemon2.Valid()
    }

    /** The state of both combatants. */
    function State(): Duel
      reads pokemon1, pokemon2
    {
      Duel(pokemon1.Snapshot(), pokemon2.Snapshot())
    }

    constructor (p1: Pokemon<Move>, p2: Pokemon<Move>)
      ensures pokemon1 == p1 && pokemon2 == p2
      ensures p1 != p2 && p1.Valid() && p2.Valid() ==> Valid()
    {
      pokemon1 := p1;
      pokemon2 := p2;
    }

    /** `determineFirstAttacker`. */
    method DetermineFirstAttacker() returns (first: Pokemon<Move>)
      ensures first == pokemon1 || first == pokemon2
      ensures first == (if FirstAttacker(pokemon1.speed, pokemon2.speed) == One then pokemon1 else pokemon2)
    {
      if pokemon1.speed >= pokemon2.speed {
        return pokemon1;
      }
      return pokemon2;
    }

    /** `executeTurn`, with the turn's move index and draws passed in. */
    method ExecuteTurn(attacker: Pokemon<Move>, defender: Pokemon<Move>, input: TurnInput)
      requires attacker != defender
      modifies attacker, defender
      ensures old(attacker.Valid()) && old(defender.Valid()) ==> attacker.Valid() && defender.Valid()
      ensures TurnEnd(attacker.Snapshot(), defender.Snapshot()) ==
              Turn(old(attacker.Snapshot()), old(defender.Snapshot()), Values(attacker.moves), input)
      ensures attacker.moves == old(attacker.moves) && defender.moves == old(defender.moves)
    {
      if |attacker.moves| == 0 {
        return;
      }
      if attacker.statusEffect == Paralyzed {
        if input.paralysisRoll % 100 < 50 {
          return;
        }
      }
      var moveIndex := input.moveIndex;
      if moveIndex < 0 || moveIndex >= |attacker.moves| {
        moveIndex := 0;
      }
      var move := attacker.moves[moveIndex];
      assert Values(attacker.moves)[moveIndex] == move.Value();
      var _ := move.Execute(attacker, defender, input.accuracyRoll);
      attacker.UpdateStatus();
    }

    /**
     * The two turns of a round in attacker order: the first acts, the round
     * stops if that fells the second, and otherwise the second acts, each
     * with the move index `start` draws for it.
     */
    method TakeTurns(first: Pokemon<Move>, second: Pokemon<Move>, input: RoundInput)
      requires first != second
      modifies first, second
      ensures old(first.Valid()) && old(second.Valid()) ==> first.Valid() && second.Valid()
      ensures TurnEnd(first.Snapshot(), second.Snapshot()) ==
              Exchange(old(first.Snapshot()), old(second.Snapshot()), Values(first.moves), Values(second.moves), input)
      ensures first.moves == old(first.moves) && second.moves == old(second.moves)
    {
      ghost var firstMoves, secondMoves := Values(first.moves), Values(second.moves);
      ghost var start := TurnEnd(first.Snapshot(), second.Snapshot());
      var firstIndex := MoveDraw(input.first.moveDraw, |first.moves|);
      var firstInput := TurnInput(firstIndex, input.first.paralysisRoll, input.first.accuracyRoll);
      assert firstInput == Selected(input.first, |firstMoves|);
      ExecuteTurn(first, second, firstInput);
      if second.IsFainted() {
        FelledSecondDoesNotAct(start.attacker, start.defender, firstMoves, secondMoves, input);
        return;
      }
      FirstFaintNotCheckedMidRound(start.attacker, start.defender, firstMoves, secondMoves, input);
      var secondIndex := MoveDraw(input.second.moveDraw, |second.moves|);
      var secondInput := TurnInput(secondIndex, input.second.paralysisRoll, input.second.accuracyRoll);
      assert secondInput == Selected(input.second, |secondMoves|);
      ExecuteTurn(second, first, secondInput);
    }

    /** The body of the round loop of `start`: the turn order, then the two turns. */
    method PlayRound(input: RoundInput)
      requires Valid()
      modifies pokemon1, pokemon2
      ensures Valid()
      ensures State() == Round(old(State()), Values(pokemon1.moves), Values(pokemon2.moves), input)
      ensures pokemon1.moves == old(pokemon1.moves) && pokemon2.moves == old(pokemon2.moves)
    {
      var first := DetermineFirstAttacker();
      var second := if first == pokemon1 then pokemon2 else pokemon1;
      TakeTurns(first, second, input);
    }

    /**
     * `start`: the round loop, given the inputs of each round. Returns the
     * winner, or null when the rounds run out before either combatant faints.
     * The loop's two `break`s are the early exit of `PlayRound` and the loop
     * condition; each is taken exactly when that condition becomes false.
     */
    method Start(rounds: seq<RoundInput>) returns (winner: Pokemon?<Move>)
      requires Valid()
      modifies pokemon1, pokemon2
      ensures Valid()
      ensures var e := Fight(old(State()), old(Values(pokemon1.moves)), old(Values(pokemon2.moves)), rounds);
        State() == e.state &&
        (winner == null <==> e.winner == None) &&
        (e.winner == Some(One) ==> winner == pokemon1) &&
        (e.winner == Some(Two) ==> winner == pokemon2)
      ensures pokemon1.moves == old(pokemon1.moves) && pokemon2.moves == old(pokemon2.moves)
    {
      ghost var moves1, moves2 := Values(pokemon1.moves), Values(pokemon2.moves);
      ghost var goal := Fight(State(), moves1, moves2, rounds);
      var i := 0;
      while !pokemon1.IsFainted() && !pokemon2.IsFainted() && i < |rounds|
        invariant 0 <= i <= |rounds|
        invariant Valid()
        invariant pokemon1.moves == old(pokemon1.moves) && pokemon2.moves == old(pokemon2.moves)
        invariant Values(pokemon1.moves) == moves1 && Values(pokemon2.moves) == moves2
        invariant Fight(State(), moves1, moves2, rounds[i..]) == goal
        decreases |rounds| - i
      {
        ghost var before := State();
        FightUnfolds(before, moves1, moves2, rounds[i..]);
        assert rounds[i..][0] == rounds[i] && rounds[i..][1..] == rounds[i + 1..];
        PlayRound(rounds[i]);
        i := i + 1;
      }
      assert goal.state == State() && (goal.winner.Some? <==> Over(State()));
      if pokemon1.IsFainted() || pokemon2.IsFainted() {
        winner := if pokemon1.IsFainted() then pokemon2 else pokemon1;
      } else {
        winner := null;
      }
    }
  }
}
