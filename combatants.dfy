/**
 * A combatant: hit points clamped to [0, maxHP], fixed stats, a moveset and
 * at most one timed status effect.
 *
 * `View` is the value of a combatant's fields at one moment; the functions
 * on it (`Damaged`, `Healed`, `WithStatus`, `Ticked`) say what the class's
 * methods do, and the `Pokemon` class is proved to follow them.
 */
module Combatants {

  /** A strictly positive integer (a defensive stat is a divisor in the damage formula). */
  type PosInt = x: int | x > 0 witness 1

  /** The status names the source gives an effect to; "" means no status. */
  const NoStatus: string := ""
  const Poisoned: string := "Poisoned"
  const Burned: string := "Burned"
  const Paralyzed: string := "Paralyzed"

  /** A snapshot of every field of a combatant except its moveset. */
  datatype View = View(
    name: string,
    pokeType: string,
    maxHP: nat,
    currentHP: int,
    attack: int,
    defense: PosInt,
    specialDefense: PosInt,
    speed: int,
    status: string,
    statusDuration: int)

  /** The hit-point invariant: 0 <= currentHP <= maxHP. */
  predicate HealthInRange(v: View)
  {
    0 <= v.currentHP <= v.maxHP
  }

  /** `isFainted`: hit points at or below zero. */
  predicate Fainted(v: View)
  {
    v.currentHP <= 0
  }

  /** `hasStatusEffect`: the status name is not empty. */
  predicate HasStatus(v: View)
  {
    v.status != NoStatus
  }

  function Max(a: int, b: int): int { if a >= b then a else b }
  function Min(a: int, b: int): int { if a <= b then a else b }

  /** The view of a freshly constructed combatant: full health, no status. */
  function Created(name: string, pokeType: string, hp: nat, atk: int, def: PosInt,
                   spDef: PosInt, spd: int): (v: View)
    ensures HealthInRange(v) && !HasStatus(v) && v.statusDuration == 0
    ensures v.currentHP == v.maxHP == hp
    ensures v.attack == atk && v.defense == def && v.specialDefense == spDef && v.speed == spd
    ensures v.name == name && v.pokeType == pokeType
  {
    View(name, pokeType, hp, hp, atk, def, spDef, spd, NoStatus, 0)
  }

  /** `takeDamage`: hit points drop by `damage`, but never below zero. */
  function Damaged(v: View, damage: int): (r: View)
    ensures r.currentHP >= 0
    ensures r.currentHP == v.currentHP - damage || (r.currentHP == 0 && v.currentHP - damage < 0)
    ensures HealthInRange(v) && damage >= 0 ==> HealthInRange(r) && r.currentHP <= v.currentHP
    ensures r.(currentHP := v.currentHP) == v
  {
    v.(currentHP := Max(0, v.currentHP - damage))
  }

  /** `heal`: hit points rise by `amount`, but never above maxHP. */
  function Healed(v: View, amount: int): (r: View)
    ensures r.currentHP <= v.maxHP
    ensures r.currentHP == v.currentHP + amount || (r.currentHP == v.maxHP && v.currentHP + amount > v.maxHP)
    ensures HealthInRange(v) && amount >= 0 ==> HealthInRange(r) && r.currentHP >= v.currentHP
    ensures r.(currentHP := v.currentHP) == v
  {
    v.(currentHP := Min(v.maxHP, v.currentHP + amount))
  }

  /**
   * `applyStatusEffect`: the new status and duration take effect only when
   * no status is active; an active status is never replaced.
   */
  function WithStatus(v: View, effect: string, duration: int): (r: View)
    ensures HasStatus(v) ==> r == v
    ensures !HasStatus(v) ==> r.status == effect && r.statusDuration == duration
    ensures r.(status := v.status, statusDuration := v.statusDuration) == v
  {
    if HasStatus(v) then v else v.(status := effect, statusDuration := duration)
  }

  /** Hit points a status takes away on each tick: maxHP/8 poisoned, maxHP/16 burned, else none. */
  function TickDamage(v: View): nat
  {
    if v.status == Poisoned then v.maxHP / 8
    else if v.status == Burned then v.maxHP / 16
    else 0
  }

  /**
   * `updateStatus`: with no status, nothing; otherwise the status's hit-point
   * effect (poison and burn only; any other status leaves hit points as they
   * are), then one turn off the duration, and the status is cleared once
   * the duration is at or below zero.
   */
  function Ticked(v: View): (r: View)
  {
    if !HasStatus(v) then v
    else
      var hurt := if v.status == Poisoned || v.status == Burned then Damaged(v, TickDamage(v)) else v;
      var left := hurt.statusDuration - 1;
      hurt.(statusDuration := left, status := if left <= 0 then NoStatus else hurt.status)
  }

  /** A tick leaves every field but hit points and status alone, and keeps hit points in range. */
  lemma TickedFrame(v: View)
    requires HealthInRange(v)
    ensures var r := Ticked(v);
      HealthInRange(r) && r.currentHP <= v.currentHP &&
      r.(currentHP := v.currentHP, status := v.status, statusDuration := v.statusDuration) == v
  {
  }

  /** With no active status a tick changes nothing. */
  lemma TickWithoutStatus(v: View)
    requires !HasStatus(v)
    ensures Ticked(v) == v
  {
  }

  /** A tick takes exactly `TickDamage` hit points, clamped at zero, and nothing for any other status. */
  lemma TickHitPoints(v: View)
    requires HealthInRange(v) && HasStatus(v)
    ensures Ticked(v).currentHP == Max(0, v.currentHP - TickDamage(v))
    ensures v.status == Poisoned ==> Ticked(v).currentHP == Max(0, v.currentHP - v.maxHP / 8)
    ensures v.status == Burned ==> Ticked(v).currentHP == Max(0, v.currentHP - v.maxHP / 16)
    ensures v.status != Poisoned && v.status != Burned ==> Ticked(v).currentHP == v.currentHP
  {
  }

  /**
   * A tick takes exactly one turn off the duration, and the status survives
   * exactly when the remaining duration is still positive.
   */
  lemma TickDuration(v: View)
    requires HasStatus(v)
    ensures Ticked(v).statusDuration == v.statusDuration - 1
    ensures HasStatus(Ticked(v)) <==> v.statusDuration > 1
    ensures HasStatus(Ticked(v)) ==> Ticked(v).status == v.status
  {
  }

  /** A poison with one turn left still hurts on that last tick, and then ends. */
  lemma LastPoisonTickHurts(v: View)
    requires HealthInRange(v) && v.status == Poisoned && v.statusDuration == 1
    ensures Ticked(v).currentHP == Max(0, v.currentHP - v.maxHP / 8)
    ensures !HasStatus(Ticked(v))
  {
  }

  /** `n` consecutive status ticks with nothing in between. */
  function TickedTimes(v: View, n: nat): View
    decreases n
  {
    if n == 0 then v else TickedTimes(Ticked(v), n - 1)
  }

  /**
   * A poison of duration `n` runs out after exactly `n` ticks: it is still
   * active, with `n - j` turns left, after each of the first `n - 1`, and it
   * has taken maxHP/8 hit points on each tick (down to zero and no further).
   */
  lemma {:induction false} PoisonRunsItsCourse(v: View, n: nat)
    requires v.status == Poisoned && v.statusDuration == n && n >= 1
    decreases n
    ensures forall j :: 0 <= j < n ==>
      TickedTimes(v, j).status == Poisoned && TickedTimes(v, j).statusDuration == n - j
    ensures TickedTimes(v, n).currentHP == Max(0, v.currentHP - n * (v.maxHP / 8))
    ensures !HasStatus(TickedTimes(v, n))
  {
    forall j | 0 <= j < n
      ensures TickedTimes(v, j).status == Poisoned && TickedTimes(v, j).statusDuration == n - j
    {
      PoisonStillActive(v, n, j);
    }
    var k := v.maxHP / 8;
    var w := Ticked(v);
    assert w.currentHP == Max(0, v.currentHP - k) && w.maxHP == v.maxHP;
    if n > 1 {
      assert w.status == Poisoned && w.statusDuration == n - 1;
      PoisonRunsItsCourse(w, n - 1);
      assert TickedTimes(v, n) == TickedTimes(w, n - 1);
      ClampedSteps(v.currentHP, k, n - 1);
    } else {
      assert TickedTimes(v, n) == TickedTimes(w, 0) == w;
    }
  }

  /** After `j` ticks of a poison with `n > j` turns left it is still a poison, with `n - j` left. */
  lemma {:induction false} PoisonStillActive(v: View, n: nat, j: nat)
    requires v.status == Poisoned && v.statusDuration == n && j < n
    decreases j
    ensures TickedTimes(v, j).status == Poisoned && TickedTimes(v, j).statusDuration == n - j
  {
    if j > 0 {
      var w := Ticked(v);
      assert w.status == Poisoned && w.statusDuration == n - 1;
      PoisonStillActive(w, n - 1, j - 1);
      assert TickedTimes(v, j) == TickedTimes(w, j - 1);
    }
  }

  /** Taking `k` and then `m` times `k`, each clamped at zero, is taking `m + 1` times `k` once. */
  lemma ClampedSteps(h: int, k: nat, m: nat)
    ensures Max(0, Max(0, h - k) - m * k) == Max(0, h - (m + 1) * k)
  {
    assert (m + 1) * k == m * k + k;
    assert m * k >= 0;
  }

  /** Under the hit-point invariant, "at or below zero" is "exactly zero". */
  lemma FaintedMeansZero(v: View)
    requires HealthInRange(v)
    ensures Fainted(v) <==> v.currentHP == 0
  {
  }

  /**
   * The combatant object. The moveset holds references to moves, which are
   * shared between combatants; `M` is the move type (declared in the module
   * that uses this one, since a move in turn acts on combatants).
   */
  class Pokemon<M> {
    const name: string
    const pokeType: string
    const maxHP: nat
    var currentHP: int
    const attack: int
    const defense: PosInt
    const specialDefense: PosInt
    const speed: int
    var moves: seq<M>
    var statusEffect: string
    var statusDuration: int

    /** The values of the fields, moveset aside. */
    function Snapshot(): View
      reads this
    {
      View(name, pokeType, maxHP, currentHP, attack, defense, specialDefense, speed,
           statusEffect, statusDuration)
    }

    /** The object invariant: hit points within [0, maxHP]. */
    ghost predicate Valid()
      reads this
    {
      HealthInRange(Snapshot())
    }

    /** `isFainted`. */
    predicate IsFainted()
      reads this
    {
      Fainted(Snapshot())
    }

    /** `hasStatusEffect`. */
    predicate HasStatusEffect()
      reads this
    {
      HasStatus(Snapshot())
    }

    /** A new combatant: full health, no status, no moves. */
    constructor (name: string, pokeType: string, hp: nat, atk: int, def: PosInt,
                 spDef: PosInt, spd: int)
      ensures Valid()
      ensures Snapshot() == Created(name, pokeType, hp, atk, def, spDef, spd)
      ensures moves == []
    {
      this.name := name;
      this.pokeType := pokeType;
      maxHP := hp;
      currentHP := hp;
      attack := atk;
      defense := def;
      specialDefense := spDef;
      speed := spd;
      moves := [];
      statusEffect := NoStatus;
      statusDuration := 0;
    }

    /** `takeDamage`: hit points drop by `damage`, clamped at zero. */
    method TakeDamage(damage: int)
      modifies this
      ensures old(Valid()) && damage >= 0 ==> Valid()
      ensures Snapshot() == Damaged(old(Snapshot()), damage)
      ensures moves == old(moves)
    {
      currentHP := Max(0, currentHP - damage);
    }

    /** `heal`: hit points rise by `amount`, clamped at maxHP. */
    method Heal(amount: int)
      modifies this
      ensures old(Valid()) && amount >= 0 ==> Valid()
      ensures Snapshot() == Healed(old(Snapshot()), amount)
      ensures moves == old(moves)
    {
      currentHP := Min(maxHP, currentHP + amount);
    }

    /** `addMove`: the move goes at the end; the moves already there keep their places. */
    method AddMove(move: M)
      modifies this
      ensures moves == old(moves) + [move]
      ensures Snapshot() == old(Snapshot())
    {
      moves := moves + [move];
    }

    /** `applyStatusEffect`: takes effect only when no status is active. */
    method ApplyStatusEffect(effect: string, duration: int)
      modifies this
      ensures Snapshot() == WithStatus(old(Snapshot()), effect, duration)
      ensures moves == old(moves)
    {
      if statusEffect == NoStatus {
        statusEffect := effect;
        statusDuration := duration;
      }
    }

    /** `updateStatus`: one status tick, at the end of the combatant's turn. */
    method UpdateStatus()
      modifies this
      ensures old(Valid()) ==> Valid()
      ensures Snapshot() == Ticked(old(Snapshot()))
      ensures moves == old(moves)
    {
      if statusEffect == NoStatus {
        return;
      }
      if statusEffect == Poisoned {
        TakeDamage(maxHP / 8);
      } else if statusEffect == Burned {
        TakeDamage(maxHP / 16);
      }
      statusDuration := statusDuration - 1;
      if statusDuration <= 0 {
        statusEffect := NoStatus;
      }
    }
  }
}
