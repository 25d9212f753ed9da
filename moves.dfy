/**
 * A move: an immutable definition plus a replaceable effect function that
 * computes a signed magnitude from the attacker and the defender (positive:
 * damage to the defender, negative: healing of the attacker).
 *
 * `Resolve` says what `execute` does to the two combatants and what it
 * returns; the `Move` class is proved to follow it.
 */
module Moves {
  import opened TypeChart
  import opened Combatants

  datatype Category = Physical | Special | Status

  /** The fields of a move that never change after construction. */
  datatype MoveDef = MoveDef(
    name: string,
    scriptPath: string,
    basePower: int,
    accuracy: int,
    moveType: string,
    category: Category,
    statusEffect: string,
    statusDuration: int)

  /** An effect function: (attacker, defender) to a magnitude before type effectiveness. */
  type Effect = (View, View) -> int

  /** A move's definition together with the effect function it currently holds. */
  datatype MoveValue = MoveValue(def: MoveDef, effect: Effect)

  /** What `execute` leaves behind: both combatants, and the value it returns. */
  datatype Outcome = Outcome(attacker: View, defender: View, result: int)

  /** C++ integer division of `n` by a positive `k`: the quotient truncated toward zero. */
  function TruncDiv(n: int, k: int): (q: int)
    requires k > 0
    ensures n >= 0 ==> q == n / k
    ensures n < 0 ==> q <= 0 && -q * k <= -n < (-q + 1) * k
  {
    if n >= 0 then n / k else -((-n) / k)
  }

  /** The defending stat a move is measured against: special defense for Special moves, defense otherwise. */
  function DefenseStat(category: Category, defender: View): PosInt
  {
    if category == Special then defender.specialDefense else defender.defense
  }

  /**
   * The default effect: no magnitude for a zero-power move; otherwise
   * (attack * power) / (defending stat * 2), truncated, and at least 1.
   */
  function DefaultDamage(basePower: int, category: Category, attacker: View, defender: View): (r: int)
    ensures basePower == 0 ==> r == 0
    ensures basePower != 0 ==> r >= 1
    ensures basePower != 0 && attacker.attack * basePower >= 0 ==>
              r == Max(1, (attacker.attack * basePower) /
                          ((if category == Special then defender.specialDefense else defender.defense) * 2))
  {
    if basePower == 0 then 0
    else Max(1, TruncDiv(attacker.attack * basePower, DefenseStat(category, defender) * 2))
  }

  /** The effect function a move is constructed with. */
  function DefaultEffect(basePower: int, category: Category): Effect
  {
    (attacker: View, defender: View) => DefaultDamage(basePower, category, attacker, defender)
  }

  /** The accuracy check: the draw, taken modulo 100, must fall below the accuracy. */
  predicate Hits(def: MoveDef, accuracyRoll: nat)
  {
    accuracyRoll % 100 < def.accuracy
  }

  /** A move puts its status on the defender when it is a Status move with a status name. */
  predicate Inflicts(def: MoveDef)
  {
    def.statusEffect != NoStatus && def.category == Status
  }

  /**
   * `execute`: a miss returns 0 and touches nothing. On a hit the effect
   * gives a magnitude; a positive one is scaled by effectiveness (move type
   * against the defender's type), truncated and dealt to the defender, and is
   * what is returned; a negative one heals the attacker by its absolute value
   * and is returned as it is. Then a Status move with a status name applies
   * it to the defender, whatever the magnitude was.
   */
  function Resolve(def: MoveDef, effect: Effect, attacker: View, defender: View,
                   accuracyRoll: nat): (o: Outcome)
  {
    if !Hits(def, accuracyRoll) then Outcome(attacker, defender, 0)
    else
      var magnitude := effect(attacker, defender);
      var hpStep :=
        if magnitude > 0 then
          var dealt := Scale(magnitude, Effectiveness(def.moveType, defender.pokeType));
          Outcome(attacker, Damaged(defender, dealt), dealt)
        else if magnitude < 0 then Outcome(Healed(attacker, -magnitude), defender, magnitude)
        else Outcome(attacker, defender, 0);
      if Inflicts(def) then
        hpStep.(defender := WithStatus(hpStep.defender, def.statusEffect, def.statusDuration))
      else hpStep
  }

  /** A miss returns 0 and leaves both combatants as they were. */
  lemma MissChangesNothing(def: MoveDef, effect: Effect, attacker: View, defender: View,
                           accuracyRoll: nat)
    requires !Hits(def, accuracyRoll)
    ensures Resolve(def, effect, attacker, defender, accuracyRoll) == Outcome(attacker, defender, 0)
  {
  }

  /** Accuracy 100 or more never misses; accuracy 0 or less always misses. */
  lemma AccuracyExtremes(def: MoveDef, accuracyRoll: nat)
    ensures def.accuracy >= 100 ==> Hits(def, accuracyRoll)
    ensures def.accuracy <= 0 ==> !Hits(def, accuracyRoll)
  {
  }

  /**
   * A positive magnitude: the defender loses the scaled amount (down to zero),
   * which is what is returned, and the attacker is untouched.
   */
  lemma DamageGoesToDefender(def: MoveDef, effect: Effect, attacker: View, defender: View,
                             accuracyRoll: nat)
    requires Hits(def, accuracyRoll) && effect(attacker, defender) > 0
    ensures var o := Resolve(def, effect, attacker, defender, accuracyRoll);
      var dealt := Scale(effect(attacker, defender), Effectiveness(def.moveType, defender.pokeType));
      o.attacker == attacker && o.result == dealt &&
      o.defender.currentHP == Max(0, defender.currentHP - dealt)
  {
  }

  /** Against an immune defender a damaging move deals nothing and returns 0. */
  lemma ImmuneTakesNothing(def: MoveDef, effect: Effect, attacker: View, defender: View,
                           accuracyRoll: nat)
    requires HealthInRange(defender)
    requires effect(attacker, defender) > 0
    requires Effectiveness(def.moveType, defender.pokeType) == Immune
    ensures var o := Resolve(def, effect, attacker, defender, accuracyRoll);
      o.result == 0 && o.defender.currentHP == defender.currentHP && o.attacker == attacker
  {
  }

  /**
   * A negative magnitude: the attacker heals by its absolute value (up to
   * maxHP), the defender's hit points stay, and the magnitude is returned.
   */
  lemma NegativeMagnitudeHeals(def: MoveDef, effect: Effect, attacker: View, defender: View,
                               accuracyRoll: nat)
    requires Hits(def, accuracyRoll) && effect(attacker, defender) < 0
    ensures var o := Resolve(def, effect, attacker, defender, accuracyRoll);
      var m := effect(attacker, defender);
      o.attacker == Healed(attacker, -m) &&
      o.attacker.currentHP == Min(attacker.maxHP, attacker.currentHP - m) &&
      o.defender.currentHP == defender.currentHP && o.result == m
  {
  }

  /**
   * A hit whose magnitude is 0 (every zero-power move with the default effect)
   * touches no hit points and returns 0; at most the defender's status changes.
   */
  lemma ZeroMagnitudeTouchesNoHitPoints(def: MoveDef, effect: Effect, attacker: View, defender: View,
                                        accuracyRoll: nat)
    requires Hits(def, accuracyRoll) && effect(attacker, defender) == 0
    ensures var o := Resolve(def, effect, attacker, defender, accuracyRoll);
      o.result == 0 && o.attacker == attacker && o.defender.currentHP == defender.currentHP &&
      o.defender == if Inflicts(def) then WithStatus(defender, def.statusEffect, def.statusDuration)
                    else defender
  {
  }

  /**
   * A defender without a status gains one exactly when a Status move with a
   * status name hits, whatever magnitude the effect gave; it is then the
   * move's status for the move's duration. An active status is never replaced,
   * and a move that misses or inflicts nothing leaves status and duration alone.
   */
  lemma StatusOnlyFromStatusMoves(def: MoveDef, effect: Effect, attacker: View, defender: View,
                                  accuracyRoll: nat)
    ensures var o := Resolve(def, effect, attacker, defender, accuracyRoll);
      (!HasStatus(defender) ==>
        (HasStatus(o.defender) <==> Hits(def, accuracyRoll) && Inflicts(def)) &&
        (HasStatus(o.defender) ==>
          o.defender.status == def.statusEffect && o.defender.statusDuration == def.statusDuration)) &&
      (HasStatus(defender) ==>
        o.defender.status == defender.status && o.defender.statusDuration == defender.statusDuration) &&
      (!(Hits(def, accuracyRoll) && Inflicts(def)) ==>
        o.defender.status == defender.status && o.defender.statusDuration == defender.statusDuration)
  {
  }

  /**
   * Resolving a move keeps both combatants' hit points in range, changes only
   * the attacker's hit points, and changes only the defender's hit points and status.
   */
  lemma ResolveKeepsInvariant(def: MoveDef, effect: Effect, attacker: View, defender: View,
                              accuracyRoll: nat)
    requires HealthInRange(attacker) && HealthInRange(defender)
    ensures var o := Resolve(def, effect, attacker, defender, accuracyRoll);
      HealthInRange(o.attacker) && HealthInRange(o.defender) &&
      o.attacker.(currentHP := attacker.currentHP) == attacker &&
      o.defender.(currentHP := defender.currentHP, status := defender.status,
                  statusDuration := defender.statusDuration) == defender
  {
  }

  /** The worked example: power 40 against defense 40 with attack 55 gives 27. */
  lemma DefaultDamageExample(attacker: View, defender: View)
    requires attacker.attack == 55 && defender.defense == 40
    ensures DefaultDamage(40, Physical, attacker, defender) == 27
  {
  }

  /**
   * A Normal move with the default effect, accuracy 100 and power 40, from an
   * attacker with attack 55 on a defender with defense 40 and at least 27 hit
   * points, deals exactly 27, whatever the draw and the defender's type.
   */
  lemma NormalMoveExample(def: MoveDef, attacker: View, defender: View, accuracyRoll: nat)
    requires def.basePower == 40 && def.accuracy == 100 && def.moveType == "Normal"
    requires def.category == Physical
    requires attacker.attack == 55 && defender.defense == 40 && defender.currentHP >= 27
    ensures var o := Resolve(def, DefaultEffect(40, Physical), attacker, defender, accuracyRoll);
      o.result == 27 && o.defender.currentHP == defender.currentHP - 27
  {
    assert DefaultEffect(40, Physical)(attacker, defender) == 27;
  }

  /** The values of a moveset's moves, in moveset order. */
  function Values(moves: seq<Move>): (vs: seq<MoveValue>)
    reads set m | m in moves
    ensures |vs| == |moves|
    ensures forall i :: 0 <= i < |moves| ==> vs[i] == moves[i].Value()
  {
    if moves == [] then [] else [moves[0].Value()] + Values(moves[1..])
  }

  /** A move object: the fixed definition and the current effect function. */
  class Move {
    const def: MoveDef
    var effect: Effect

    /** A new move holds the default effect for its power and category. */
    constructor (def: MoveDef)
      ensures this.def == def
      ensures effect == DefaultEffect(def.basePower, def.category)
    {
      this.def := def;
      effect := DefaultEffect(def.basePower, def.category);
    }

    /** The move as a value. */
    function Value(): MoveValue
      reads this
    {
      MoveValue(def, effect)
    }

    /** `setEffectFunction`: every later `Execute` uses `f`. */
    method SetEffectFunction(f: Effect)
      modifies this
      ensures effect == f
    {
      effect := f;
    }

    /** `execute`, with the accuracy draw (a `rand()` value) passed in. */
    method Execute(attacker: Pokemon<Move>, defender: Pokemon<Move>, accuracyRoll: nat)
      returns (damage: int)
      requires attacker != defender
      modifies attacker, defender
      ensures old(attacker.Valid()) && old(defender.Valid()) ==> attacker.Valid() && defender.Valid()
      ensures Outcome(attacker.Snapshot(), defender.Snapshot(), damage) ==
              Resolve(def, effect, old(attacker.Snapshot()), old(defender.Snapshot()), accuracyRoll)
      ensures attacker.moves == old(attacker.moves) && defender.moves == old(defender.moves)
    {
      if accuracyRoll % 100 >= def.accuracy {
        return 0;
      }
      damage := effect(attacker.Snapshot(), defender.Snapshot());
      if damage > 0 {
        var multiplier := Effectiveness(def.moveType, defender.pokeType);
        damage := Scale(damage, multiplier);
        defender.TakeDamage(damage);
      } else if damage < 0 {
        attacker.Heal(-damage);
      }
      if def.statusEffect != NoStatus && def.category == Status {
        defender.ApplyStatusEffect(def.statusEffect, def.statusDuration);
      }
    }
  }
}
