/**
 * The relic scoring engine: per-stat scores (with the flat-stat calibration
 * against the percent counterpart), the main-stat and set scores, the
 * aggregate raw score of a relic, and the ten-tier grade ladder.
 *
 * Every score reads the character's active preset through
 * GetCurrentWeightPreset; without one, scores are 0.
 */
module RelicScoring {
  import opened Types
  import opened GameData
  import opened CharacterUtils

  /** The known maximum of a percentage main stat at full enhancement, 64.8. */
  const FullMainStatScore: real := 648.0 / 10.0

  predicate IsFlatStat(name: string) {
    name == "HP" || name == "ATK" || name == "DEF"
  }

  /** The character attribute a flat stat is calibrated against. */
  function BaseStatOf(c: Character, name: string): real
    requires IsFlatStat(name)
  {
    if name == "HP" then c.baseStats.hp else if name == "ATK" then c.baseStats.atk else c.baseStats.def
  }

  /** The flat-stat weight divides by these attributes. */
  predicate FlatBaseStatsPositive(b: BaseStats) {
    b.hp > 0.0 && b.atk > 0.0 && b.def > 0.0
  }

  /** `weights[name] || 0`. */
  function Weight(p: WeightPreset, name: string): real {
    Or(p.weights, name, 0.0)
  }

  /** `NORMALIZATION_FACTORS[name] || 1`. */
  function Normalization(t: Tables, name: string): real {
    Or(t.normalization, name, 1.0)
  }

  lemma QuotientTimesDivisor(x: real, a: real, b: real)
    requires a > 0.0 && b != 0.0
    ensures (x / (a * 2.0 * b)) * (2.0 * a * b) == x
  {
    var d := a * 2.0 * b;
    assert d != 0.0 by {
      if b > 0.0 { assert a * b > 0.0; } else { assert a * b < 0.0; }
    }
    assert 2.0 * a * b == d;
  }

  /**
   * The flat-stat weight under preset `p`: the percent counterpart's weight,
   * scaled by the ratio of the two low-roll references and divided by twice the
   * base attribute; 0 when a reference is missing or zero.
   */
  function FlatStatWeightFor(name: string, p: WeightPreset, baseStat: real, t: Tables): (r: real)
    requires baseStat > 0.0
    ensures var fl := Or(t.flatLowRolls, name, 0.0);
            var pl := Or(t.percentLowRolls, name + "%", 0.0);
            && (fl == 0.0 || pl == 0.0 ==> r == 0.0)
            && (fl != 0.0 && pl != 0.0 ==> r * (2.0 * baseStat * pl) == Weight(p, name + "%") * fl)
  {
    var percentWeight := Weight(p, name + "%");
    var flatStatLowRoll := Or(t.flatLowRolls, name, 0.0);
    var percentStatLowRoll := Or(t.percentLowRolls, name + "%", 0.0);
    if flatStatLowRoll == 0.0 || percentStatLowRoll == 0.0 then 0.0
    else
      QuotientTimesDivisor(percentWeight * flatStatLowRoll, baseStat, percentStatLowRoll);
      percentWeight * flatStatLowRoll / (baseStat * 2.0 * percentStatLowRoll)
  }

  /** calculateFlatStatWeight: the flat-stat weight under the active preset, 0 without one. */
  function CalculateFlatStatWeight(name: string, c: Character, store: AppStore, t: Tables): (r: real)
    requires IsFlatStat(name) && FlatBaseStatsPositive(c.baseStats)
    ensures var preset := GetCurrentWeightPreset(c.id, store);
            && (preset.None? ==> r == 0.0)
            && (preset.Some? ==> r == FlatStatWeightFor(name, preset.value, BaseStatOf(c, name), t))
  {
    var baseStat := BaseStatOf(c, name);
    match GetCurrentWeightPreset(c.id, store)
    case None => 0.0
    case Some(p) => FlatStatWeightFor(name, p, baseStat, t)
  }

  /**
   * calculateFlatStatNormalization: projects a flat roll onto the percent
   * counterpart's scale; neutral (1) when a reference value is missing.
   */
  function CalculateFlatStatNormalization(name: string, t: Tables): (r: real)
    requires IsFlatStat(name)
    ensures var mv := Or(t.mainStatValues, name + "%", 0.0);
            var ph := RangeMax(t.subStatRanges, name + "%");
            var fh := Or(t.flatHighRolls, name, 0.0);
            && (mv == 0.0 || ph == 0.0 || fh == 0.0 ==> r == 1.0)
            && (mv != 0.0 && ph != 0.0 && fh != 0.0 ==> r * mv * fh == FullMainStatScore * ph)
  {
    var percentMainStatValue := Or(t.mainStatValues, name + "%", 0.0);
    var percentHighRollValue := RangeMax(t.subStatRanges, name + "%");
    var flatHighRollValue := Or(t.flatHighRolls, name, 0.0);
    if percentMainStatValue == 0.0 || percentHighRollValue == 0.0 || flatHighRollValue == 0.0 then 1.0
    else (FullMainStatScore / percentMainStatValue) * (percentHighRollValue / flatHighRollValue)
  }

  /**
   * The score of one substat under `p`: weight × normalization × value, with
   * the derived weight and normalization for flat stats.
   */
  function SubstatScoreFor(name: string, value: real, p: WeightPreset, c: Character, t: Tables): real
    requires FlatBaseStatsPositive(c.baseStats)
  {
    var weight := Weight(p, name);
    var normalization := Normalization(t, name);
    if IsFlatStat(name) then
      FlatStatWeightFor(name, p, BaseStatOf(c, name), t) * CalculateFlatStatNormalization(name, t) * value
    else weight * normalization * value
  }

  /**
   * calculateSubstatScore: the substat's score under the active preset, 0
   * without one. For a flat stat, the derived weight is read under the same
   * active preset.
   */
  function CalculateSubstatScore(name: string, value: real, c: Character, store: AppStore, t: Tables): (r: real)
    requires FlatBaseStatsPositive(c.baseStats)
    ensures var preset := GetCurrentWeightPreset(c.id, store);
            && (preset.None? ==> r == 0.0)
            && (preset.Some? ==> r == SubstatScoreFor(name, value, preset.value, c, t))
  {
    match GetCurrentWeightPreset(c.id, store)
    case None => 0.0
    case Some(p) =>
      SubstatScoreFor(name, value, p, c, t)
  }

  /** A substat's score is linear in its value. */
  lemma SubstatScoreLinear(name: string, a: real, b: real, k: real, p: WeightPreset, c: Character, t: Tables)
    requires FlatBaseStatsPositive(c.baseStats)
    ensures SubstatScoreFor(name, a + b, p, c, t) == SubstatScoreFor(name, a, p, c, t) + SubstatScoreFor(name, b, p, c, t)
    ensures SubstatScoreFor(name, k * a, p, c, t) == k * SubstatScoreFor(name, a, p, c, t)
  {
    var wn := if IsFlatStat(name) then FlatStatWeightFor(name, p, BaseStatOf(c, name), t) * CalculateFlatStatNormalization(name, t)
              else Weight(p, name) * Normalization(t, name);
    assert wn * (a + b) == wn * a + wn * b;
    assert wn * (k * a) == k * (wn * a);
  }

  /** The preset lists `name` among the recommended main stats of `slot`. */
  predicate Recommended(p: WeightPreset, slot: RelicType, name: string) {
    slot in p.mainStats && name in p.mainStats[slot]
  }

  /**
   * The main-stat score under `p` of stat `name` on a flexible slot: the full
   * 64.8 for a recommended main stat, else a tenth of 64.8 × weight × normalization.
   */
  function MainstatScoreFor(slot: RelicType, name: string, p: WeightPreset, t: Tables): (r: real)
    ensures Recommended(p, slot, name) ==> r == FullMainStatScore
    ensures !Recommended(p, slot, name) ==> r * 10.0 == FullMainStatScore * Weight(p, name) * Normalization(t, name)
  {
    if slot in p.mainStats && name in p.mainStats[slot] then FullMainStatScore
    else
      var weight := Weight(p, name);
      var normalization := Normalization(t, name);
      FullMainStatScore * (weight * normalization) / 10.0
  }

  /** calculateMainstatScore: 0 on the fixed Head and Hand slots and without an active preset. */
  function CalculateMainstatScore(relic: Relic, c: Character, store: AppStore, t: Tables): (r: real)
    ensures relic.relicType == Head || relic.relicType == Hand ==> r == 0.0
    ensures var preset := GetCurrentWeightPreset(c.id, store);
            && (preset.None? ==> r == 0.0)
            && (relic.relicType != Head && relic.relicType != Hand && preset.Some? ==>
                  r == MainstatScoreFor(relic.relicType, relic.mainStat.name, preset.value, t))
  {
    if relic.relicType == Head || relic.relicType == Hand then 0.0
    else match GetCurrentWeightPreset(c.id, store)
      case None => 0.0
      case Some(p) => MainstatScoreFor(relic.relicType, relic.mainStat.name, p, t)
  }

  /**
   * On a flexible slot a recommended main stat scores at least as much as any
   * other main stat whose weight × normalization is at most 10, and strictly
   * more when it is below 10.
   */
  lemma RecommendedMainStatDominates(slot: RelicType, good: string, other: string, p: WeightPreset, t: Tables)
    requires Recommended(p, slot, good) && !Recommended(p, slot, other)
    requires Weight(p, other) * Normalization(t, other) <= 10.0
    ensures MainstatScoreFor(slot, other, p, t) <= MainstatScoreFor(slot, good, p, t)
    ensures Weight(p, other) * Normalization(t, other) < 10.0 ==>
              MainstatScoreFor(slot, other, p, t) < MainstatScoreFor(slot, good, p, t)
  {
    var wn := Weight(p, other) * Normalization(t, other);
    assert MainstatScoreFor(slot, other, p, t) * 10.0 == FullMainStatScore * wn;
  }

  /** The preferred sets of one family; an absent list reads as empty. */
  function PreferredSets(p: WeightPreset, ornament: bool): seq<string> {
    if ornament then (if p.sets.ornament.Some? then p.sets.ornament.value else [])
    else (if p.sets.relic.Some? then p.sets.relic.value else [])
  }

  /**
   * The set score under `p`: 1 for a preferred set of the set's own family
   * (ornament when the tables list it among ornament sets, relic otherwise),
   * else the 0.6 penalty.
   */
  function SetScoreFor(setName: string, p: WeightPreset, t: Tables): (r: real)
    ensures r == 1.0 || r == 0.6
    ensures r == 1.0 <==> setName in PreferredSets(p, IsOrnamentSet(t, setName))
  {
    var isOrnament := exists i :: 0 <= i < |t.ornamentSets| && t.ornamentSets[i].internalName == setName;
    if isOrnament then
      var recommendedSets := if p.sets.ornament.Some? then p.sets.ornament.value else [];
      if setName in recommendedSets then 1.0 else 0.6
    else
      var recommendedSets := if p.sets.relic.Some? then p.sets.relic.value else [];
      if setName in recommendedSets then 1.0 else 0.6
  }

  /** calculateSetScore: 0 without an active preset. */
  function CalculateSetScore(setName: string, c: Character, store: AppStore, t: Tables): (r: real)
    ensures var preset := GetCurrentWeightPreset(c.id, store);
            && (preset.None? ==> r == 0.0)
            && (preset.Some? ==> r == SetScoreFor(setName, preset.value, t))
  {
    match GetCurrentWeightPreset(c.id, store)
    case None => 0.0
    case Some(p) => SetScoreFor(setName, p, t)
  }

  /** The sum of `f` over a list of stats, taken in list order. */
  function SumOf(s: seq<Stat>, f: Stat -> real): real
    decreases |s|
  {
    if s == [] then 0.0 else SumOf(s[..|s| - 1], f) + f(s[|s| - 1])
  }

  lemma SumOfStep(s: seq<Stat>, i: nat, f: Stat -> real)
    requires i < |s|
    ensures SumOf(s[..i + 1], f) == SumOf(s[..i], f) + f(s[i])
  {
    assert s[..i + 1][..i] == s[..i];
  }

  lemma {:induction false} SumOfRemove(s: seq<Stat>, i: nat, f: Stat -> real)
    requires i < |s|
    ensures SumOf(s, f) == SumOf(s[..i] + s[i + 1..], f) + f(s[i])
    decreases |s|
  {
    var n := |s| - 1;
    if i < n {
      SumOfRemove(s[..n], i, f);
      assert s[..n][..i] + s[..n][i + 1..] == (s[..i] + s[i + 1..])[..n - 1];
      assert (s[..i] + s[i + 1..])[n - 1] == s[n];
    } else {
      assert s[..i] + s[i + 1..] == s[..n];
    }
  }

  /** A sum over a list does not depend on the order of the list. */
  lemma {:induction false} SumOfPermutation(a: seq<Stat>, b: seq<Stat>, f: Stat -> real)
    requires multiset(a) == multiset(b)
    ensures SumOf(a, f) == SumOf(b, f)
    decreases |a|
  {
    if a == [] {
      assert |b| == |multiset(b)| == 0;
    } else {
      var n := |a| - 1;
      var x := a[n];
      assert x in multiset(b);
      var j :| 0 <= j < |b| && b[j] == x;
      var rest := b[..j] + b[j + 1..];
      assert b == b[..j] + [x] + b[j + 1..];
      assert a == a[..n] + [x];
      calc {
        multiset(a[..n]) + multiset{x};
        multiset(a);
        multiset(b);
        multiset(b[..j]) + multiset{x} + multiset(b[j + 1..]);
      }
      assert multiset(rest) == multiset(b[..j]) + multiset(b[j + 1..]);
      assert multiset(a[..n]) == (multiset(a[..n]) + multiset{x}) - multiset{x};
      assert multiset(rest) == (multiset(b[..j]) + multiset{x} + multiset(b[j + 1..])) - multiset{x};
      SumOfPermutation(a[..n], rest, f);
      SumOfRemove(b, j, f);
    }
  }

  /** A substat's score as a function of the stat, under the given character and store. */
  function SubstatScorer(c: Character, store: AppStore, t: Tables): Stat -> real
    requires FlatBaseStatsPositive(c.baseStats)
  {
    (st: Stat) => CalculateSubstatScore(st.name, st.value, c, store, t)
  }

  /** The sum the loop of calculateRelic accumulates, in list order. */
  function SubstatsScore(subs: seq<Stat>, c: Character, store: AppStore, t: Tables): real
    requires FlatBaseStatsPositive(c.baseStats)
  {
    SumOf(subs, SubstatScorer(c, store, t))
  }

  /** How calculateRelic combines its three parts. */
  function Combine(substatScore: real, mainStatScore: real, setScore: real): real {
    (substatScore + mainStatScore) * setScore
  }

  /** The raw score of a relic: (substat scores + main-stat score) × set score. */
  function RawScore(relic: Relic, c: Character, store: AppStore, t: Tables): real
    requires FlatBaseStatsPositive(c.baseStats)
  {
    Combine(SubstatsScore(relic.subStats, c, store, t), CalculateMainstatScore(relic, c, store, t),
            CalculateSetScore(relic.setName, c, store, t))
  }

  /** calculateRelic: the loop sums the substat scores in list order. */
  method CalculateRelic(relic: Relic, c: Character, store: AppStore, t: Tables) returns (r: real)
    requires FlatBaseStatsPositive(c.baseStats)
    ensures r == RawScore(relic, c, store, t)
  {
    ghost var f := SubstatScorer(c, store, t);
    var substatScore := 0.0;
    for i := 0 to |relic.subStats|
      invariant substatScore == SumOf(relic.subStats[..i], f)
    {
      var stat := relic.subStats[i];
      var score := CalculateSubstatScore(stat.name, stat.value, c, store, t);
      SumOfStep(relic.subStats, i, f);
      assert f(stat) == score;
      substatScore := substatScore + score;
    }
    assert relic.subStats[..|relic.subStats|] == relic.subStats;
    var mainStatScore := CalculateMainstatScore(relic, c, store, t);
    var setScore := CalculateSetScore(relic.setName, c, store, t);
    r := Combine(substatScore, mainStatScore, setScore);
  }

  /** Without an active preset every relic scores 0. */
  lemma RawScoreWithoutPreset(relic: Relic, c: Character, store: AppStore, t: Tables)
    requires FlatBaseStatsPositive(c.baseStats)
    requires GetCurrentWeightPreset(c.id, store).None?
    ensures RawScore(relic, c, store, t) == 0.0
  {
  }

  /** Relics that differ only in the order of their substats score the same. */
  lemma RawScoreIgnoresSubstatOrder(x: Relic, y: Relic, c: Character, store: AppStore, t: Tables)
    requires FlatBaseStatsPositive(c.baseStats)
    requires x.relicType == y.relicType && x.setName == y.setName && x.mainStat == y.mainStat
    requires multiset(x.subStats) == multiset(y.subStats)
    ensures RawScore(x, c, store, t) == RawScore(y, c, store, t)
  {
    SumOfPermutation(x.subStats, y.subStats, SubstatScorer(c, store, t));
    var sub := SubstatsScore(x.subStats, c, store, t);
    assert SubstatsScore(y.subStats, c, store, t) == sub;
    var main := CalculateMainstatScore(x, c, store, t);
    assert CalculateMainstatScore(y, c, store, t) == main;
    var setScore := CalculateSetScore(x.setName, c, store, t);
    assert RawScore(x, c, store, t) == Combine(sub, main, setScore);
    assert RawScore(y, c, store, t) == Combine(sub, main, setScore);
  }

  // ---------------------------------------------------------------------------
  // Grade ladder

  const GradeThresholds: seq<real> := [95.0, 80.0, 70.0, 60.0, 50.0, 40.0, 30.0, 20.0, 10.0]
  const GradeTiers: seq<string> := ["WTF", "SSS", "SS", "S", "A", "B", "C", "D", "E"]

  /** The reference ladder: the first tier at or after `k` whose threshold the percentage reaches; 9 (F) when none is. */
  function LadderIndex(percentage: real, k: nat): (i: nat)
    requires k <= |GradeThresholds|
    ensures k <= i <= |GradeThresholds|
    decreases |GradeThresholds| - k
  {
    if k == |GradeThresholds| then k
    else if percentage >= GradeThresholds[k] then k
    else LadderIndex(percentage, k + 1)
  }

  /** The name of tier `i`; index 9 is F. */
  function TierName(i: nat): string
    requires i <= |GradeTiers|
  {
    if i == |GradeTiers| then "F" else GradeTiers[i]
  }

  /** The ladder position of a grade: 9 (F) unless both scores are positive. */
  function GradeIndex(idealScore: real, actualScore: real): nat {
    if idealScore <= 0.0 || actualScore <= 0.0 then |GradeTiers|
    else LadderIndex(actualScore / idealScore * 100.0, 0)
  }

  /** getRelicGrade. */
  function GetRelicGrade(idealScore: real, actualScore: real): (g: string)
    ensures GradeIndex(idealScore, actualScore) <= |GradeTiers|
    ensures g == TierName(GradeIndex(idealScore, actualScore))
  {
    if idealScore <= 0.0 then "F"
    else if actualScore <= 0.0 then "F"
    else
      var percentage := actualScore / idealScore * 100.0;
      if percentage >= 95.0 then "WTF"
      else if percentage >= 80.0 then "SSS"
      else if percentage >= 70.0 then "SS"
      else if percentage >= 60.0 then "S"
      else if percentage >= 50.0 then "A"
      else if percentage >= 40.0 then "B"
      else if percentage >= 30.0 then "C"
      else if percentage >= 20.0 then "D"
      else if percentage >= 10.0 then "E"
      else "F"
  }

  /** A percentage sits at index k exactly when it reaches threshold k and none before it. */
  lemma {:induction false} LadderIndexFirstReached(percentage: real, k: nat, from: nat)
    requires from <= k < |GradeThresholds|
    ensures LadderIndex(percentage, from) == k <==>
              percentage >= GradeThresholds[k] && forall j :: from <= j < k ==> percentage < GradeThresholds[j]
    decreases k - from
  {
    if from < k {
      LadderIndexFirstReached(percentage, k, from + 1);
    }
  }

  lemma {:induction false} LadderIndexMonotone(p1: real, p2: real, k: nat)
    requires p1 <= p2 && k <= |GradeThresholds|
    ensures LadderIndex(p2, k) <= LadderIndex(p1, k)
    decreases |GradeThresholds| - k
  {
    if k < |GradeThresholds| && p2 < GradeThresholds[k] {
      LadderIndexMonotone(p1, p2, k + 1);
    }
  }

  lemma QuotientMonotone(a1: real, a2: real, d: real)
    requires d > 0.0 && a1 <= a2
    ensures a1 / d * 100.0 <= a2 / d * 100.0
  {
    var q1, q2 := a1 / d, a2 / d;
    assert q1 * d == a1 && q2 * d == a2;
    assert (q2 - q1) * d == a2 - a1;
  }

  /** For a fixed positive ideal, a higher actual score never gets a worse (higher-index) grade. */
  lemma GradeMonotone(ideal: real, a1: real, a2: real)
    requires ideal > 0.0 && a1 <= a2
    ensures GradeIndex(ideal, a2) <= GradeIndex(ideal, a1)
  {
    if a1 > 0.0 {
      QuotientMonotone(a1, a2, ideal);
      LadderIndexMonotone(a1 / ideal * 100.0, a2 / ideal * 100.0, 0);
    }
  }

  /** The boundary cases of the ladder. */
  lemma GradeBoundaries()
    ensures GetRelicGrade(100.0, 95.0) == "WTF"
    ensures GetRelicGrade(100.0, 94.999) == "SSS"
    ensures GetRelicGrade(100.0, 0.0) == "F"
    ensures GetRelicGrade(100.0, -5.0) == "F"
    ensures GetRelicGrade(0.0, 50.0) == "F"
  {
  }
}
