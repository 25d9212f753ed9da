/**
 * The type-effectiveness chart: a fixed, directional table from an
 * (attacking type, defending type) pair to a damage multiplier.
 *
 * The source keeps the multiplier as a `double`; it only ever holds one
 * of 0.0, 0.5, 1.0 and 2.0, so it is modelled exactly by `Multiplier`.
 */
module TypeChart {

  /** The four multipliers the chart can hold. */
  datatype Multiplier = Immune | Half | Neutral | Double {

    /** The `double` the source stores for this multiplier. */
    function Value(): (r: real)
      ensures r == 0.0 || r == 0.5 || r == 1.0 || r == 2.0
    {
      match this
      case Immune => 0.0
      case Half => 0.5
      case Neutral => 1.0
      case Double => 2.0
    }
  }

  /**
   * The contents `initializeChart` writes, grouped by attacking type: the
   * pair (a, d) is in the source's map exactly when row `a` lists `d`.
   */
  const Chart: map<string, map<string, Multiplier>> := map[
    "Fire" := map["Water" := Half, "Grass" := Double, "Fire" := Half, "Ice" := Double, "Bug" := Double, "Rock" := Half],
    "Water" := map["Fire" := Double, "Water" := Half, "Grass" := Half, "Ground" := Double, "Rock" := Double],
    "Grass" := map["Water" := Double, "Ground" := Double, "Rock" := Double, "Fire" := Half, "Grass" := Half, "Flying" := Half, "Bug" := Half],
    "Electric" := map["Water" := Double, "Flying" := Double, "Electric" := Half, "Grass" := Half, "Ground" := Immune],
    "Ice" := map["Grass" := Double, "Ground" := Double, "Flying" := Double, "Dragon" := Double, "Fire" := Half, "Water" := Half, "Ice" := Half],
    "Fighting" := map["Normal" := Double, "Ice" := Double, "Rock" := Double, "Flying" := Half, "Psychic" := Half],
    "Ground" := map["Fire" := Double, "Electric" := Double, "Rock" := Double, "Grass" := Half, "Bug" := Half, "Flying" := Immune],
    "Flying" := map["Grass" := Double, "Fighting" := Double, "Bug" := Double, "Electric" := Half, "Rock" := Half],
    "Rock" := map["Fire" := Double, "Ice" := Double, "Flying" := Double, "Bug" := Double, "Fighting" := Half, "Ground" := Half],
    "Bug" := map["Grass" := Double, "Psychic" := Double, "Fire" := Half, "Fighting" := Half, "Flying" := Half],
    "Psychic" := map["Fighting" := Double, "Psychic" := Half],
    "Dragon" := map["Dragon" := Double]
  ]

  /** The source's map holds an entry for the ordered pair (attackType, defenseType). */
  predicate Listed(attackType: string, defenseType: string)
  {
    attackType in Chart && defenseType in Chart[attackType]
  }

  /**
   * `getEffectiveness`: a "Normal" attack is neutral against everything,
   * whatever the chart says; any other pair is looked up, and a pair the
   * chart does not list (unknown type names included) is neutral.
   */
  function Effectiveness(attackType: string, defenseType: string): (m: Multiplier)
    ensures attackType == "Normal" ==> m == Neutral
    ensures attackType != "Normal" && Listed(attackType, defenseType) ==>
              m == Chart[attackType][defenseType]
    ensures !Listed(attackType, defenseType) ==> m == Neutral
  {
    if attackType == "Normal" then Neutral
    else if Listed(attackType, defenseType) then Chart[attackType][defenseType]
    else Neutral
  }

  /**
   * `static_cast<int>(d * m)` for a positive magnitude `d`: the product
   * truncated toward zero, which for a non-negative product is its floor.
   */
  function Scale(d: int, m: Multiplier): (r: int)
    requires d > 0
    ensures r == (d as real * m.Value()).Floor
    ensures 0 <= r <= 2 * d
    ensures r == 0 <==> m == Immune || (m == Half && d == 1)
  {
    match m
    case Immune => 0
    case Half => HalfFloor(d); d / 2
    case Neutral => d
    case Double => 2 * d
  }

  /** Halving a positive integer in the reals and taking the floor is integer division by 2. */
  lemma HalfFloor(d: int)
    requires d > 0
    ensures (d as real * 0.5).Floor == d / 2
  {
    var q, r := d / 2, d % 2;
    assert d == 2 * q + r && 0 <= r < 2;
    assert d as real * 0.5 == q as real + r as real * 0.5;
    assert q as real <= d as real * 0.5 < q as real + 1.0;
  }

  /** A Normal attack is neutral against every defending type. */
  lemma NormalAlwaysNeutral(defenseType: string)
    ensures Effectiveness("Normal", defenseType) == Neutral
    ensures Effectiveness("Normal", defenseType).Value() == 1.0
  {
  }

  /** The override is on the attacking side only: Fighting against Normal is still doubled. */
  lemma NormalDefenderNotOverridden()
    ensures Effectiveness("Fighting", "Normal") == Double
  {
  }

  /** The chart is directional: Water beats Fire, while Fire is halved against Water. */
  lemma ChartIsDirectional()
    ensures Effectiveness("Water", "Fire").Value() == 2.0
    ensures Effectiveness("Fire", "Water").Value() == 0.5
  {
  }

  /** The two immunities of the chart. */
  lemma Immunities()
    ensures Effectiveness("Electric", "Ground").Value() == 0.0
    ensures Effectiveness("Ground", "Flying").Value() == 0.0
  {
  }

  /** Every pair the chart does not list, including unknown type names, is neutral. */
  lemma UnlistedPairNeutral(attackType: string, defenseType: string)
    requires !Listed(attackType, defenseType)
    ensures Effectiveness(attackType, defenseType).Value() == 1.0
  {
  }

  /**
   * The process-wide chart state: the static map and the static
   * `initialized` flag, filled lazily on first use.
   */
  class EffectivenessTable {
    var chart: map<string, map<string, Multiplier>>
    var initialized: bool

    /** The map is empty until it is initialised, and is the full chart afterwards. */
    ghost predicate Valid()
      reads this
    {
      (initialized ==> chart == Chart) && (!initialized ==> chart == map[])
    }

    /** The static state before any call: an empty map, not initialised. */
    constructor ()
      ensures Valid() && !initialized && chart == map[]
    {
      chart := map[];
      initialized := false;
    }

    /**
     * `initializeChart`: writes every entry of the chart, once; a later
     * call finds `initialized` set and changes nothing.
     */
    method InitializeChart()
      requires Valid()
      modifies this
      ensures Valid() && initialized && chart == Chart
      ensures old(initialized) ==> chart == old(chart)
      ensures !old(initialized) ==> old(chart) == map[] && chart == Chart
    {
      if initialized {
        return;
      }
      chart := Chart;
      initialized := true;
    }

    /** `getEffectiveness`: initialise if needed, then look the pair up. */
    method GetEffectiveness(attackType: string, defenseType: string) returns (m: Multiplier)
      requires Valid()
      modifies this
      ensures Valid() && initialized && chart == Chart
      ensures m == Effectiveness(attackType, defenseType)
    {
      InitializeChart();
      if attackType == "Normal" {
        return Neutral;
      }
      if attackType in chart && defenseType in chart[attackType] {
        return chart[attackType][defenseType];
      }
      return Neutral;
    }
  }
}
