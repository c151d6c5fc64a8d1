/**
 * The perfect-relic synthesizer: for a slot and the character's active preset
 * it picks the best main stat, ranks the substats, spreads the upgrade rolls
 * over the top four, and assembles the ideal relic that a real relic is
 * measured against. The public entry point calculateRelicScore lives here too,
 * because it needs the ideal relic.
 */
module PerfectRelic {
  import opened Types
  import opened GameData
  import opened SeqUtil
  import opened CharacterUtils
  import opened RelicScoring

  // ---------------------------------------------------------------------------
  // Main stat

  /** The score findBestMainStat compares: weight × normalization × full main-stat value. */
  function MainCandidateScore(name: string, p: WeightPreset, t: Tables): real {
    Weight(p, name) * Normalization(t, name) * Or(t.mainStatValues, name, 0.0)
  }

  /** MainCandidateScore under `p`, as a function of the stat name. */
  function MainScorer(p: WeightPreset, t: Tables): string -> real {
    (name: string) => MainCandidateScore(name, p, t)
  }

  /**
   * The scan of findBestMainStat from a running best name and highest score:
   * flat stats are skipped, and only a strictly higher score replaces the best.
   */
  function ScanBestMainStat(names: seq<string>, score: string -> real, best: string, highest: real): string
    decreases |names|
  {
    if names == [] then best
    else if IsFlatStat(names[0]) then ScanBestMainStat(names[1..], score, best, highest)
    else if score(names[0]) > highest then ScanBestMainStat(names[1..], score, names[0], score(names[0]))
    else ScanBestMainStat(names[1..], score, best, highest)
  }

  /** `names[k]` is a non-flat stat with the highest score, and the first one with that score. */
  predicate FirstBest(names: seq<string>, score: string -> real, k: nat)
    requires k < |names|
  {
    && !IsFlatStat(names[k])
    && (forall j :: 0 <= j < |names| && !IsFlatStat(names[j]) ==> score(names[j]) <= score(names[k]))
    && (forall j :: 0 <= j < k && !IsFlatStat(names[j]) ==> score(names[j]) < score(names[k]))
  }

  /** Every non-flat name scores at most `bound`. */
  predicate AllAtMost(names: seq<string>, score: string -> real, bound: real) {
    forall j :: 0 <= j < |names| && !IsFlatStat(names[j]) ==> score(names[j]) <= bound
  }

  lemma {:induction false} ScanBestFindsFirstBest(names: seq<string>, score: string -> real, best: string, highest: real)
    ensures var r := ScanBestMainStat(names, score, best, highest);
            || (r == best && AllAtMost(names, score, highest))
            || (exists k :: 0 <= k < |names| && names[k] == r && score(r) > highest && FirstBest(names, score, k))
    decreases |names|
  {
    if names != [] {
      var x := names[0];
      var rest := names[1..];
      assert forall j :: 1 <= j < |names| ==> names[j] == rest[j - 1];
      var r := ScanBestMainStat(names, score, best, highest);
      var took := !IsFlatStat(x) && score(x) > highest;
      var h := if took then score(x) else highest;
      var b := if took then x else best;
      ScanBestFindsFirstBest(rest, score, b, h);
      assert r == ScanBestMainStat(rest, score, b, h);
      if exists k :: 0 <= k < |rest| && rest[k] == r && score(r) > h && FirstBest(rest, score, k) {
        var k :| 0 <= k < |rest| && rest[k] == r && score(r) > h && FirstBest(rest, score, k);
        assert FirstBest(names, score, k + 1);
      } else if took {
        assert FirstBest(names, score, 0);
      }
    }
  }

  /**
   * The best main stat under `p`: fixed on Head and Hand; "" when the slot has
   * no legal main stats; the first recommended one when the preset lists any;
   * else the result of the scan.
   */
  function BestMainStatFor(slot: RelicType, p: WeightPreset, t: Tables): (r: string)
    ensures slot == Head ==> r == "HP"
    ensures slot == Hand ==> r == "ATK"
    ensures slot != Head && slot != Hand && |LegalMainStats(t, slot)| == 0 ==> r == ""
    ensures slot != Head && slot != Hand && |LegalMainStats(t, slot)| > 0 && slot in p.mainStats && |p.mainStats[slot]| > 0 ==>
              r == p.mainStats[slot][0]
  {
    if slot == Head then "HP"
    else if slot == Hand then "ATK"
    else
      var availableMainStats := LegalMainStats(t, slot);
      if |availableMainStats| == 0 then ""
      else if slot in p.mainStats && |p.mainStats[slot]| > 0 then p.mainStats[slot][0]
      else ScanBestMainStat(availableMainStats, MainScorer(p, t), "", -1.0)
  }

  /**
   * Without a recommendation the chosen main stat is the first legal non-flat
   * stat of highest score, or "" when every non-flat legal stat scores at most -1.
   */
  lemma BestMainStatIsFirstArgmax(slot: RelicType, p: WeightPreset, t: Tables)
    requires slot != Head && slot != Hand && |LegalMainStats(t, slot)| > 0
    requires !(slot in p.mainStats && |p.mainStats[slot]| > 0)
    ensures var r := BestMainStatFor(slot, p, t);
            var legal := LegalMainStats(t, slot);
            || (exists k :: 0 <= k < |legal| && legal[k] == r && FirstBest(legal, MainScorer(p, t), k))
            || (r == "" && AllAtMost(legal, MainScorer(p, t), -1.0))
  {
    ScanBestFindsFirstBest(LegalMainStats(t, slot), MainScorer(p, t), "", -1.0);
  }

  /** findBestMainStat: Head and Hand answer before the preset is consulted; otherwise it needs an active preset. */
  function BestMainStat(slot: RelicType, c: Character, store: AppStore, t: Tables): (r: Result<string, LookupError>)
    ensures slot == Head ==> r == Ok("HP")
    ensures slot == Hand ==> r == Ok("ATK")
    ensures r.Err? <==> slot != Head && slot != Hand && GetCurrentWeightPreset(c.id, store).None?
    ensures r.Ok? && GetCurrentWeightPreset(c.id, store).Some? ==>
              r.value == BestMainStatFor(slot, GetCurrentWeightPreset(c.id, store).value, t)
  {
    if slot == Head then Ok("HP")
    else if slot == Hand then Ok("ATK")
    else match GetCurrentWeightPreset(c.id, store)
      case None => Err(InvalidCharacterId)
      case Some(p) => Ok(BestMainStatFor(slot, p, t))
  }

  /** findBestMainStat, with its loop over the legal main stats. */
  method FindBestMainStat(slot: RelicType, c: Character, store: AppStore, t: Tables) returns (r: Result<string, LookupError>)
    ensures r == BestMainStat(slot, c, store, t)
  {
    if slot == Head { return Ok("HP"); }
    if slot == Hand { return Ok("ATK"); }
    var currentWeight := GetCurrentWeightPreset(c.id, store);
    if currentWeight.None? { return Err(InvalidCharacterId); }
    var p := currentWeight.value;
    var availableMainStats := LegalMainStats(t, slot);
    if |availableMainStats| == 0 { return Ok(""); }
    if slot in p.mainStats && |p.mainStats[slot]| > 0 { return Ok(p.mainStats[slot][0]); }
    ghost var scorer := MainScorer(p, t);
    var bestMainStat := "";
    var highestScore := -1.0;
    assert availableMainStats[0..] == availableMainStats;
    for i := 0 to |availableMainStats|
      invariant ScanBestMainStat(availableMainStats[i..], scorer, bestMainStat, highestScore) ==
                ScanBestMainStat(availableMainStats, scorer, "", -1.0)
    {
      var statName := availableMainStats[i];
      assert availableMainStats[i..][1..] == availableMainStats[i + 1..];
      if IsFlatStat(statName) { continue; }
      var score := MainCandidateScore(statName, p, t);
      if score > highestScore {
        highestScore := score;
        bestMainStat := statName;
      }
    }
    return Ok(bestMainStat);
  }

  // ---------------------------------------------------------------------------
  // Substat ranking

  datatype ScoredStat = ScoredStat(name: string, score: real)

  /**
   * The ranking score of a substat candidate: weight × normalization × the
   * highest value the substat can reach; a flat stat is ranked with half its
   * percent counterpart's weight.
   */
  function RankingScore(name: string, p: WeightPreset, t: Tables): real {
    Scaled(RankingWeight(name, p), Normalization(t, name), RangeMax(t.subStatRanges, name))
  }

  /** The weight a substat candidate is ranked by: half its percent counterpart's weight for a flat stat. */
  function RankingWeight(name: string, p: WeightPreset): real {
    if IsFlatStat(name) then Weight(p, name + "%") * 0.5 else Weight(p, name)
  }

  function Scaled(weight: real, normalization: real, value: real): real {
    weight * normalization * value
  }

  /** The substat names with the main stat's name removed, in table order. */
  function AvailableSubstats(names: seq<string>, mainStatName: string): (r: seq<string>)
    ensures forall x :: x in r <==> x in names && x != mainStatName
    decreases |names|
  {
    if names == [] then []
    else if names[0] != mainStatName then [names[0]] + AvailableSubstats(names[1..], mainStatName)
    else AvailableSubstats(names[1..], mainStatName)
  }

  /** The filter keeps the table order and, on a table without repeats, yields no repeats. */
  lemma {:induction false} AvailableSubstatsOrdered(names: seq<string>, mainStatName: string)
    ensures IsSubsequence(AvailableSubstats(names, mainStatName), names)
    ensures Distinct(names) ==> Distinct(AvailableSubstats(names, mainStatName))
    decreases |names|
  {
    if names != [] {
      var rest := AvailableSubstats(names[1..], mainStatName);
      AvailableSubstatsOrdered(names[1..], mainStatName);
      if names[0] != mainStatName {
        var r := [names[0]] + rest;
        assert r[1..] == rest;
        if Distinct(names) {
          assert Distinct(names[1..]);
          SubsequenceMembers(rest, names[1..]);
          forall j | 0 <= j < |names[1..]|
            ensures names[1..][j] != names[0]
          {
            assert names[1..][j] == names[j + 1];
          }
          assert names[0] !in names[1..];
          assert names[0] !in rest;
          assert forall j :: 1 <= j < |r| ==> r[j] == rest[j - 1];
        }
      }
    }
  }

  function RankCandidates(names: seq<string>, p: WeightPreset, t: Tables): (r: seq<ScoredStat>)
    ensures |r| == |names|
    ensures forall k :: 0 <= k < |names| ==> r[k] == ScoredStat(names[k], RankingScore(names[k], p, t))
  {
    seq(|names|, k requires 0 <= k < |names| => ScoredStat(names[k], RankingScore(names[k], p, t)))
  }

  /** Non-increasing score between neighbours. */
  predicate SortedByScoreDesc(s: seq<ScoredStat>) {
    forall i :: 0 <= i < |s| - 1 ==> s[i].score >= s[i + 1].score
  }

  predicate DistinctScoredNames(s: seq<ScoredStat>) {
    forall i, j :: 0 <= i < j < |s| ==> s[i].name != s[j].name
  }

  /** The entries of `s` with score `v`, in their order in `s`. */
  function WithScore(s: seq<ScoredStat>, v: real): seq<ScoredStat>
    decreases |s|
  {
    if s == [] then [] else (if s[0].score == v then [s[0]] else []) + WithScore(s[1..], v)
  }

  /** Inserts `x` into a list after every leading entry whose score is at least its own. */
  function InsertByScore(x: ScoredStat, s: seq<ScoredStat>): (r: seq<ScoredStat>)
    ensures |r| == |s| + 1
    ensures r[0] == x || (s != [] && r[0] == s[0])
    decreases |s|
  {
    if s == [] || x.score > s[0].score then [x] + s
    else [s[0]] + InsertByScore(x, s[1..])
  }

  /**
   * The stable descending sort the comparator `b.score - a.score` asks for,
   * as an insertion sort: each entry goes after the sorted entries that came
   * before it and score at least as much.
   */
  function SortByScore(s: seq<ScoredStat>): (r: seq<ScoredStat>)
    ensures |r| == |s|
    decreases |s|
  {
    if s == [] then [] else InsertByScore(s[|s| - 1], SortByScore(s[..|s| - 1]))
  }

  lemma {:induction false} InsertByScorePermutes(x: ScoredStat, s: seq<ScoredStat>)
    ensures multiset(InsertByScore(x, s)) == multiset(s) + multiset{x}
    decreases |s|
  {
    if s != [] && x.score <= s[0].score {
      InsertByScorePermutes(x, s[1..]);
      assert s == [s[0]] + s[1..];
    }
  }

  lemma {:induction false} InsertByScoreSorted(x: ScoredStat, s: seq<ScoredStat>)
    requires SortedByScoreDesc(s)
    ensures SortedByScoreDesc(InsertByScore(x, s))
    decreases |s|
  {
    if s != [] && x.score <= s[0].score {
      InsertByScoreSorted(x, s[1..]);
      var rest := InsertByScore(x, s[1..]);
      assert rest[0] == x || rest[0] == s[1];
      assert forall i :: 1 <= i < |rest| ==> ([s[0]] + rest)[i] == rest[i - 1];
    }
  }

  /** The sort yields a permutation of its input. */
  lemma {:induction false} SortByScorePermutes(s: seq<ScoredStat>)
    ensures multiset(SortByScore(s)) == multiset(s)
    decreases |s|
  {
    if s != [] {
      var n := |s| - 1;
      var prefix, x := s[..n], s[n];
      assert s == prefix + [x];
      calc {
        multiset(SortByScore(s));
        multiset(InsertByScore(x, SortByScore(prefix)));
        { InsertByScorePermutes(x, SortByScore(prefix)); }
        multiset(SortByScore(prefix)) + multiset{x};
        { SortByScorePermutes(prefix); }
        multiset(prefix) + multiset{x};
        multiset(prefix + [x]);
      }
    }
  }

  /** The sort yields non-increasing scores. */
  lemma {:induction false} SortByScoreSorted(s: seq<ScoredStat>)
    ensures SortedByScoreDesc(SortByScore(s))
    decreases |s|
  {
    if s != [] {
      var n := |s| - 1;
      SortByScoreSorted(s[..n]);
      InsertByScoreSorted(s[n], SortByScore(s[..n]));
    }
  }

  /** Neighbour order gives order between any two positions. */
  lemma {:induction false} SortedPairwise(s: seq<ScoredStat>, i: nat, j: nat)
    requires SortedByScoreDesc(s) && i <= j < |s|
    ensures s[i].score >= s[j].score
    decreases j - i
  {
    if i < j {
      SortedPairwise(s, i + 1, j);
    }
  }

  lemma InMultiset(s: seq<ScoredStat>, t: seq<ScoredStat>, y: ScoredStat)
    requires multiset(s) == multiset(t) && y in s
    ensures y in t
  {
    assert y in multiset(s);
  }

  lemma {:induction false} InsertKeepsNamesDistinct(x: ScoredStat, s: seq<ScoredStat>)
    requires DistinctScoredNames(s)
    requires forall j :: 0 <= j < |s| ==> s[j].name != x.name
    ensures DistinctScoredNames(InsertByScore(x, s))
    decreases |s|
  {
    InsertByScorePermutes(x, s);
    if s != [] && x.score <= s[0].score {
      InsertKeepsNamesDistinct(x, s[1..]);
      var rest := InsertByScore(x, s[1..]);
      InsertByScorePermutes(x, s[1..]);
      assert forall j :: 0 <= j < |rest| ==> rest[j].name != s[0].name by {
        forall j | 0 <= j < |rest| ensures rest[j].name != s[0].name {
          assert rest[j] in multiset(rest);
          if rest[j] != x {
            assert rest[j] in multiset(s[1..]);
            var i :| 0 <= i < |s[1..]| && s[1..][i] == rest[j];
            assert s[i + 1] == rest[j];
          }
        }
      }
      assert forall i :: 1 <= i < |rest| + 1 ==> ([s[0]] + rest)[i] == rest[i - 1];
    } else {
      assert forall i :: 1 <= i < |s| + 1 ==> ([x] + s)[i] == s[i - 1];
    }
  }

  /** Distinct names stay distinct through the sort. */
  lemma {:induction false} SortKeepsNamesDistinct(s: seq<ScoredStat>)
    requires DistinctScoredNames(s)
    ensures DistinctScoredNames(SortByScore(s))
    decreases |s|
  {
    if s != [] {
      var n := |s| - 1;
      SortKeepsNamesDistinct(s[..n]);
      SortByScorePermutes(s[..n]);
      var sorted := SortByScore(s[..n]);
      assert forall j :: 0 <= j < |sorted| ==> sorted[j].name != s[n].name by {
        forall j | 0 <= j < |sorted| ensures sorted[j].name != s[n].name {
          assert sorted[j] in multiset(s[..n]);
          var i :| 0 <= i < n && s[..n][i] == sorted[j];
          assert s[i] == sorted[j];
        }
      }
      InsertKeepsNamesDistinct(s[n], sorted);
    }
  }

  lemma {:induction false} WithScoreAppend(a: seq<ScoredStat>, b: seq<ScoredStat>, v: real)
    ensures WithScore(a + b, v) == WithScore(a, v) + WithScore(b, v)
    decreases |a|
  {
    if a != [] {
      assert (a + b)[1..] == a[1..] + b;
      WithScoreAppend(a[1..], b, v);
    } else {
      assert a + b == b;
    }
  }

  lemma {:induction false} WithScoreAboveHead(s: seq<ScoredStat>, v: real)
    requires SortedByScoreDesc(s) && s != [] && v > s[0].score
    ensures WithScore(s, v) == []
    decreases |s|
  {
    if |s| > 1 {
      WithScoreAboveHead(s[1..], v);
    } else {
      assert s[1..] == [];
    }
  }

  lemma WithScoreCons(h: ScoredStat, rest: seq<ScoredStat>, v: real)
    ensures WithScore([h] + rest, v) == (if h.score == v then [h] else []) + WithScore(rest, v)
  {
    assert ([h] + rest)[0] == h;
    assert ([h] + rest)[1..] == rest;
  }

  lemma {:induction false} InsertByScoreStable(x: ScoredStat, s: seq<ScoredStat>, v: real)
    requires SortedByScoreDesc(s)
    ensures WithScore(InsertByScore(x, s), v) == WithScore(s, v) + (if x.score == v then [x] else [])
    decreases |s|
  {
    var tail := if x.score == v then [x] else [];
    if s == [] {
      WithScoreCons(x, [], v);
      assert [x] + [] == [x];
    } else if x.score > s[0].score {
      WithScoreCons(x, s, v);
      if x.score == v {
        WithScoreAboveHead(s, v);
      }
    } else {
      var rest := InsertByScore(x, s[1..]);
      var head := if s[0].score == v then [s[0]] else [];
      WithScoreCons(s[0], rest, v);
      InsertByScoreStable(x, s[1..], v);
      assert s == [s[0]] + s[1..];
      WithScoreCons(s[0], s[1..], v);
      calc {
        WithScore(InsertByScore(x, s), v);
        WithScore([s[0]] + rest, v);
        head + WithScore(rest, v);
        head + (WithScore(s[1..], v) + tail);
        (head + WithScore(s[1..], v)) + tail;
        WithScore(s, v) + tail;
      }
    }
  }

  /** The sort is stable: for every score, the entries with that score keep their relative order. */
  lemma {:induction false} SortByScoreStable(s: seq<ScoredStat>, v: real)
    ensures WithScore(SortByScore(s), v) == WithScore(s, v)
    decreases |s|
  {
    if s != [] {
      var n := |s| - 1;
      SortByScoreStable(s[..n], v);
      SortByScoreSorted(s[..n]);
      InsertByScoreStable(s[n], SortByScore(s[..n]), v);
      assert s == s[..n] + [s[n]];
      WithScoreAppend(s[..n], [s[n]], v);
      WithScoreCons(s[n], [], v);
      assert [s[n]] + [] == [s[n]];
    }
  }

  // ---------------------------------------------------------------------------
  // Roll allocation

  /** The upgrade rolls a relic of this slot carries: 8 on the ornament slots, 9 elsewhere. */
  function RollBudget(slot: RelicType): nat {
    if slot == Orb || slot == Rope then 8 else 9
  }

  function SumNat(s: seq<nat>): nat
    decreases |s|
  {
    if s == [] then 0 else s[0] + SumNat(s[1..])
  }

  /** Phase one: one roll to each of the first `budget` substats, none to the rest. */
  function Phase1(n: nat, budget: nat): (c: seq<nat>)
    ensures |c| == n
    ensures forall i :: 0 <= i < n ==> c[i] == (if i < budget then 1 else 0)
    ensures SumNat(c) == Min(n, budget)
    decreases n
  {
    if n == 0 then []
    else
      var rest := Phase1(n - 1, if budget > 0 then budget - 1 else 0);
      var c := [if budget > 0 then 1 else 0] + rest;
      assert c[1..] == rest;
      c
  }

  /** The value of a substat that took `count` rolls of `unit` each. */
  function Rolled(count: nat, unit: real): real
    decreases count
  {
    if count == 0 then 0.0 else Rolled(count - 1, unit) + unit
  }

  lemma {:induction false} RolledIsProduct(count: nat, unit: real)
    ensures Rolled(count, unit) == count as real * unit
    decreases count
  {
    if count > 0 {
      RolledIsProduct(count - 1, unit);
      assert (count - 1) as real * unit + unit == count as real * unit;
    }
  }

  lemma RollStep(count: nat, unit: real)
    ensures Rolled(count, unit) + unit == Rolled(count + 1, unit)
  {
  }

  /**
   * Phase two on one substat holding `count` rolls: the further rolls it
   * takes, one at a time, while rolls remain and one more roll keeps its
   * value within the cap.
   */
  function Extra(count: nat, unit: real, cap: real, remaining: nat): (e: nat)
    ensures e <= remaining
    decreases remaining
  {
    if remaining == 0 || Rolled(count + 1, unit) > cap then 0 else 1 + Extra(count + 1, unit, cap, remaining - 1)
  }

  lemma {:induction false} ExtraWithinCap(count: nat, unit: real, cap: real, remaining: nat)
    requires Extra(count, unit, cap, remaining) > 0
    ensures Rolled(count + Extra(count, unit, cap, remaining), unit) <= cap
    decreases remaining
  {
    if Extra(count + 1, unit, cap, remaining - 1) > 0 {
      ExtraWithinCap(count + 1, unit, cap, remaining - 1);
    }
  }

  lemma {:induction false} ExtraStopsAtCap(count: nat, unit: real, cap: real, remaining: nat)
    requires Extra(count, unit, cap, remaining) < remaining
    ensures Rolled(count + Extra(count, unit, cap, remaining) + 1, unit) > cap
    decreases remaining
  {
    if Rolled(count + 1, unit) <= cap {
      ExtraStopsAtCap(count + 1, unit, cap, remaining - 1);
    }
  }

  /**
   * Phase two over the list from position `i` on: each substat in turn takes
   * the rolls Extra gives it, until the list or the rolls run out.
   */
  function TopUpFrom(counts: seq<nat>, units: seq<real>, caps: seq<real>, i: nat, remaining: nat): (r: seq<nat>)
    requires |counts| == |units| == |caps| && i <= |counts|
    ensures |r| == |counts|
    decreases |counts| - i
  {
    if i == |counts| || remaining == 0 then counts
    else
      var e := Extra(counts[i], units[i], caps[i], remaining);
      TopUpFrom(counts[i := counts[i] + e], units, caps, i + 1, remaining - e)
  }

  /** The number of rolls each of the top substats ends with. */
  function RollCounts(units: seq<real>, caps: seq<real>, budget: nat): (r: seq<nat>)
    requires |units| == |caps|
    ensures |r| == |units|
  {
    var n := |units|;
    TopUpFrom(Phase1(n, budget), units, caps, 0, budget - Min(n, budget))
  }

  lemma {:induction false} SumNatUpdate(s: seq<nat>, i: nat, e: nat)
    requires i < |s|
    ensures SumNat(s[i := s[i] + e]) == SumNat(s) + e
    decreases |s|
  {
    if i > 0 {
      SumNatUpdate(s[1..], i - 1, e);
      assert s[i := s[i] + e][1..] == s[1..][i - 1 := s[i] + e];
    }
  }

  lemma {:induction false} TopUpSum(counts: seq<nat>, units: seq<real>, caps: seq<real>, i: nat, remaining: nat)
    requires |counts| == |units| == |caps| && i <= |counts|
    ensures SumNat(TopUpFrom(counts, units, caps, i, remaining)) <= SumNat(counts) + remaining
    decreases |counts| - i
  {
    if i < |counts| && remaining != 0 {
      var e := Extra(counts[i], units[i], caps[i], remaining);
      SumNatUpdate(counts, i, e);
      TopUpSum(counts[i := counts[i] + e], units, caps, i + 1, remaining - e);
    }
  }

  /** Positions before `i` are not touched. */
  lemma {:induction false} TopUpKeeps(counts: seq<nat>, units: seq<real>, caps: seq<real>, i: nat, remaining: nat, j: nat)
    requires |counts| == |units| == |caps| && j < i <= |counts|
    ensures TopUpFrom(counts, units, caps, i, remaining)[j] == counts[j]
    decreases |counts| - i
  {
    if i < |counts| && remaining != 0 {
      var e := Extra(counts[i], units[i], caps[i], remaining);
      TopUpKeeps(counts[i := counts[i] + e], units, caps, i + 1, remaining - e, j);
    }
  }

  lemma {:induction false} TopUpCapAt(counts: seq<nat>, units: seq<real>, caps: seq<real>, i: nat, remaining: nat, j: nat)
    requires |counts| == |units| == |caps| && i <= j < |counts|
    ensures var r := TopUpFrom(counts, units, caps, i, remaining);
            r[j] >= counts[j] && (r[j] > counts[j] ==> Rolled(r[j], units[j]) <= caps[j])
    decreases |counts| - i
  {
    if i < |counts| && remaining != 0 {
      var e := Extra(counts[i], units[i], caps[i], remaining);
      var next := counts[i := counts[i] + e];
      if j == i {
        TopUpKeeps(next, units, caps, i + 1, remaining - e, j);
        if e > 0 {
          ExtraWithinCap(counts[i], units[i], caps[i], remaining);
        }
      } else {
        TopUpCapAt(next, units, caps, i + 1, remaining - e, j);
      }
    }
  }

  lemma {:induction false} TopUpGreedyAt(counts: seq<nat>, units: seq<real>, caps: seq<real>, i: nat, remaining: nat, a: nat, b: nat)
    requires |counts| == |units| == |caps| && i <= a < b < |counts|
    requires TopUpFrom(counts, units, caps, i, remaining)[b] != counts[b]
    ensures Rolled(TopUpFrom(counts, units, caps, i, remaining)[a] + 1, units[a]) > caps[a]
    decreases |counts| - i
  {
    if i < |counts| && remaining != 0 {
      var e := Extra(counts[i], units[i], caps[i], remaining);
      var next := counts[i := counts[i] + e];
      if a == i {
        TopUpKeeps(next, units, caps, i + 1, remaining - e, a);
        assert remaining - e != 0;
        ExtraStopsAtCap(counts[i], units[i], caps[i], remaining);
      } else {
        TopUpGreedyAt(next, units, caps, i + 1, remaining - e, a, b);
      }
    }
  }

  /**
   * The roll allocation: at most `budget` rolls in all; one roll to each of
   * the first `budget` substats and none beyond; a substat that took extra
   * rolls stays within its cap; and a substat only takes extra rolls when
   * no earlier one could take another without exceeding its cap.
   */
  lemma RollAllocation(units: seq<real>, caps: seq<real>, budget: nat)
    requires |units| == |caps|
    ensures var r := RollCounts(units, caps, budget);
            && SumNat(r) <= budget
            && (forall i :: 0 <= i < |r| ==> (i < budget ==> r[i] >= 1) && (i >= budget ==> r[i] == 0))
            && (forall i :: 0 <= i < |r| && r[i] >= 2 ==> Rolled(r[i], units[i]) <= caps[i])
            && (forall i, j :: 0 <= i < j < |r| && r[j] >= 2 ==> Rolled(r[i] + 1, units[i]) > caps[i])
  {
    var n := |units|;
    var c := Phase1(n, budget);
    var rem := budget - Min(n, budget);
    var r := RollCounts(units, caps, budget);
    TopUpSum(c, units, caps, 0, rem);
    forall i | 0 <= i < n
      ensures r[i] >= c[i] && (r[i] > c[i] ==> Rolled(r[i], units[i]) <= caps[i])
    {
      TopUpCapAt(c, units, caps, 0, rem, i);
    }
    forall i, j | 0 <= i < j < n && r[j] >= 2
      ensures Rolled(r[i] + 1, units[i]) > caps[i]
    {
      TopUpGreedyAt(c, units, caps, 0, rem, i, j);
    }
  }

  /** Phase one of findBestSubstats: one roll to each substat while rolls remain. */
  method FirstRolls(units: seq<real>, maxRolls: nat) returns (values: seq<real>, remainingRolls: nat, ghost cnt: seq<nat>)
    ensures cnt == Phase1(|units|, maxRolls)
    ensures remainingRolls == maxRolls - Min(|units|, maxRolls)
    ensures |values| == |units|
    ensures forall k :: 0 <= k < |units| ==> values[k] == Rolled(cnt[k], units[k])
  {
    var n := |units|;
    values := seq(n, _ => 0.0);
    cnt := seq(n, _ => 0);
    remainingRolls := maxRolls;
    var i := 0;
    while i < n
      invariant 0 <= i <= n && i <= maxRolls && remainingRolls == maxRolls - i
      invariant |values| == n && |cnt| == n
      invariant forall k :: 0 <= k < n ==> cnt[k] == (if k < i then 1 else 0)
      invariant forall k :: 0 <= k < n ==> values[k] == Rolled(cnt[k], units[k])
    {
      if remainingRolls == 0 { break; }
      assert Rolled(1, units[i]) == units[i] by { assert Rolled(0, units[i]) == 0.0; }
      values := values[i := units[i]];
      cnt := cnt[i := 1];
      remainingRolls := remainingRolls - 1;
      i := i + 1;
    }
  }

  /** Phase two on one substat holding `count` rolls: the inner loop of findBestSubstats. */
  method ExtraRolls(value: real, unit: real, cap: real, remainingRolls: nat, ghost count: nat)
      returns (newValue: real, newRemaining: nat)
    requires value == Rolled(count, unit)
    ensures newRemaining == remainingRolls - Extra(count, unit, cap, remainingRolls)
    ensures newValue == Rolled(count + Extra(count, unit, cap, remainingRolls), unit)
  {
    newValue, newRemaining := value, remainingRolls;
    ghost var taken: nat := 0;
    while newRemaining > 0
      invariant newRemaining + taken == remainingRolls
      invariant newValue == Rolled(count + taken, unit)
      invariant Extra(count, unit, cap, remainingRolls) == taken + Extra(count + taken, unit, cap, newRemaining)
      decreases newRemaining
    {
      RollStep(count + taken, unit);
      var tryNewValue := newValue + unit;
      if tryNewValue > cap { break; }
      newValue := tryNewValue;
      newRemaining := newRemaining - 1;
      taken := taken + 1;
    }
  }

  /**
   * findBestSubstats' roll allocation over the top substats' roll units and
   * caps: each value is its roll count times its unit.
   */
  method AllocateRolls(units: seq<real>, caps: seq<real>, maxRolls: nat) returns (values: seq<real>)
    requires |units| == |caps|
    ensures |values| == |units|
    ensures forall k :: 0 <= k < |units| ==> values[k] == Rolled(RollCounts(units, caps, maxRolls)[k], units[k])
  {
    var n := |units|;
    ghost var final := RollCounts(units, caps, maxRolls);
    var remainingRolls: nat;
    ghost var cnt: seq<nat>;
    values, remainingRolls, cnt := FirstRolls(units, maxRolls);
    var index := 0;
    while index < n
      invariant 0 <= index <= n && |cnt| == n && |values| == n
      invariant forall k :: 0 <= k < n ==> values[k] == Rolled(cnt[k], units[k])
      invariant TopUpFrom(cnt, units, caps, index, remainingRolls) == final
    {
      if remainingRolls == 0 { break; }
      ghost var e := Extra(cnt[index], units[index], caps[index], remainingRolls);
      var v;
      v, remainingRolls := ExtraRolls(values[index], units[index], caps[index], remainingRolls, cnt[index]);
      values := values[index := v];
      cnt := cnt[index := cnt[index] + e];
      index := index + 1;
    }
  }

  // ---------------------------------------------------------------------------
  // Best substats

  /** The top candidates: at most four, by ranking score, ties kept in table order. */
  function TopCandidates(mainStatName: string, p: WeightPreset, t: Tables): seq<ScoredStat> {
    var ranked := SortByScore(RankCandidates(AvailableSubstats(t.subStats, mainStatName), p, t));
    ranked[..Min(4, |ranked|)]
  }

  /** The value one roll adds to each candidate. */
  function RollUnits(best: seq<ScoredStat>, t: Tables): (u: seq<real>)
    ensures |u| == |best|
    ensures forall k :: 0 <= k < |best| ==> u[k] == RangeMax(t.subStatRolls, best[k].name)
  {
    seq(|best|, k requires 0 <= k < |best| => RangeMax(t.subStatRolls, best[k].name))
  }

  /** The highest value each candidate may reach. */
  function RollCaps(best: seq<ScoredStat>, t: Tables): (u: seq<real>)
    ensures |u| == |best|
    ensures forall k :: 0 <= k < |best| ==> u[k] == RangeMax(t.subStatRanges, best[k].name)
  {
    seq(|best|, k requires 0 <= k < |best| => RangeMax(t.subStatRanges, best[k].name))
  }

  /** The candidates with the values their roll counts give. */
  function AssignRolls(best: seq<ScoredStat>, t: Tables, budget: nat): (r: seq<Stat>)
    ensures |r| == |best|
  {
    var units := RollUnits(best, t);
    var counts := RollCounts(units, RollCaps(best, t), budget);
    seq(|best|, k requires 0 <= k < |best| => Stat(best[k].name, Rolled(counts[k], units[k])))
  }

  /** The substats of the perfect relic under `p`. */
  function BestSubstatsFor(mainStatName: string, slot: RelicType, p: WeightPreset, t: Tables): (r: seq<Stat>)
    ensures |r| == |TopCandidates(mainStatName, p, t)|
  {
    AssignRolls(TopCandidates(mainStatName, p, t), t, RollBudget(slot))
  }

  /** findBestSubstats: it needs an active preset, whatever the slot. */
  function BestSubstats(mainStatName: string, slot: RelicType, c: Character, store: AppStore, t: Tables)
    : (r: Result<seq<Stat>, LookupError>)
    ensures r.Err? <==> GetCurrentWeightPreset(c.id, store).None?
    ensures r.Ok? ==> r.value == BestSubstatsFor(mainStatName, slot, GetCurrentWeightPreset(c.id, store).value, t)
  {
    match GetCurrentWeightPreset(c.id, store)
    case None => Err(InvalidCharacterId)
    case Some(p) => Ok(BestSubstatsFor(mainStatName, slot, p, t))
  }

  /** The facts the sorted candidate list inherits from the ranking. */
  lemma SortedCandidates(avail: seq<string>, p: WeightPreset, t: Tables)
    ensures var sorted := SortByScore(RankCandidates(avail, p, t));
            && SortedByScoreDesc(sorted)
            && (forall k :: 0 <= k < |sorted| ==> sorted[k].name in avail && sorted[k].score == RankingScore(sorted[k].name, p, t))
            && (forall x :: x in avail ==> ScoredStat(x, RankingScore(x, p, t)) in sorted)
            && (Distinct(avail) ==> DistinctScoredNames(sorted))
  {
    var ranked := RankCandidates(avail, p, t);
    var sorted := SortByScore(ranked);
    SortByScoreSorted(ranked);
    SortByScorePermutes(ranked);
    forall k | 0 <= k < |sorted|
      ensures sorted[k].name in avail && sorted[k].score == RankingScore(sorted[k].name, p, t)
    {
      InMultiset(sorted, ranked, sorted[k]);
    }
    forall x | x in avail
      ensures ScoredStat(x, RankingScore(x, p, t)) in sorted
    {
      var i :| 0 <= i < |avail| && avail[i] == x;
      assert ranked[i] == ScoredStat(x, RankingScore(x, p, t));
      InMultiset(ranked, sorted, ranked[i]);
    }
    if Distinct(avail) {
      assert DistinctScoredNames(ranked);
      SortKeepsNamesDistinct(ranked);
    }
  }

  /**
   * The top candidates: as many as four allow, each a substat other than the
   * main stat with its ranking score, in descending order, with no
   * unselected candidate scoring above a selected one, and with distinct
   * names when the substat table lists each name once.
   */
  lemma TopCandidatesRanked(mainStatName: string, p: WeightPreset, t: Tables)
    ensures var avail := AvailableSubstats(t.subStats, mainStatName);
            var best := TopCandidates(mainStatName, p, t);
            && |best| == Min(4, |avail|)
            && (forall k :: 0 <= k < |best| ==>
                  best[k].name in t.subStats && best[k].name != mainStatName &&
                  best[k].score == RankingScore(best[k].name, p, t))
            && (forall i, j :: 0 <= i < j < |best| ==> best[i].score >= best[j].score)
            && (Distinct(t.subStats) ==> DistinctScoredNames(best))
  {
    TopCandidatesPrefix(mainStatName, p, t);
    TopCandidatesMembers(mainStatName, p, t);
    TopCandidatesOrdered(mainStatName, p, t);
    TopCandidatesDistinct(mainStatName, p, t);
  }

  lemma TopCandidatesMembers(mainStatName: string, p: WeightPreset, t: Tables)
    ensures var best := TopCandidates(mainStatName, p, t);
            forall k :: 0 <= k < |best| ==>
              best[k].name in t.subStats && best[k].name != mainStatName &&
              best[k].score == RankingScore(best[k].name, p, t)
  {
    var avail := AvailableSubstats(t.subStats, mainStatName);
    TopCandidatesPrefix(mainStatName, p, t);
    SortedCandidates(avail, p, t);
  }

  lemma TopCandidatesOrdered(mainStatName: string, p: WeightPreset, t: Tables)
    ensures var best := TopCandidates(mainStatName, p, t);
            forall i, j :: 0 <= i < j < |best| ==> best[i].score >= best[j].score
  {
    var avail := AvailableSubstats(t.subStats, mainStatName);
    var sorted := SortByScore(RankCandidates(avail, p, t));
    var best := TopCandidates(mainStatName, p, t);
    TopCandidatesPrefix(mainStatName, p, t);
    SortedCandidates(avail, p, t);
    forall i, j | 0 <= i < j < |best|
      ensures best[i].score >= best[j].score
    {
      SortedPairwise(sorted, i, j);
    }
  }

  lemma TopCandidatesDistinct(mainStatName: string, p: WeightPreset, t: Tables)
    ensures Distinct(t.subStats) ==> DistinctScoredNames(TopCandidates(mainStatName, p, t))
  {
    var avail := AvailableSubstats(t.subStats, mainStatName);
    TopCandidatesPrefix(mainStatName, p, t);
    SortedCandidates(avail, p, t);
    AvailableSubstatsOrdered(t.subStats, mainStatName);
  }

  /** The top candidates are the first min(4, n) of the n sorted candidates. */
  lemma TopCandidatesPrefix(mainStatName: string, p: WeightPreset, t: Tables)
    ensures var avail := AvailableSubstats(t.subStats, mainStatName);
            var sorted := SortByScore(RankCandidates(avail, p, t));
            var best := TopCandidates(mainStatName, p, t);
            && |sorted| == |avail| && |best| == Min(4, |avail|)
            && forall k :: 0 <= k < |best| ==> best[k] == sorted[k]
  {
  }

  /** No substat left out of the top candidates ranks above one kept. */
  lemma TopCandidatesDominate(mainStatName: string, p: WeightPreset, t: Tables, x: string, k: nat)
    requires x in AvailableSubstats(t.subStats, mainStatName)
    requires k < |TopCandidates(mainStatName, p, t)|
    requires forall m :: 0 <= m < |TopCandidates(mainStatName, p, t)| ==> TopCandidates(mainStatName, p, t)[m].name != x
    ensures RankingScore(x, p, t) <= TopCandidates(mainStatName, p, t)[k].score
  {
    var avail := AvailableSubstats(t.subStats, mainStatName);
    var sorted := SortByScore(RankCandidates(avail, p, t));
    var best := TopCandidates(mainStatName, p, t);
    SortedCandidates(avail, p, t);
    var m :| 0 <= m < |sorted| && sorted[m] == ScoredStat(x, RankingScore(x, p, t));
    assert best[k] == sorted[k];
    assert forall i :: 0 <= i < |best| ==> sorted[i] == best[i] && sorted[i].name != x;
    SortedPairwise(sorted, k, m);
  }

  /**
   * The rolls on a list of candidates: each value is its roll count times
   * the substat's roll value (RolledIsProduct); at most the budget in all;
   * one roll at least on each of the first `budget` candidates; a substat
   * with extra rolls stays within its range; and a later substat only gets
   * extra rolls once no earlier one can take another roll without leaving
   * its range.
   */
  lemma AssignRollsFacts(best: seq<ScoredStat>, t: Tables, budget: nat)
    ensures var r := AssignRolls(best, t, budget);
            var counts := RollCounts(RollUnits(best, t), RollCaps(best, t), budget);
            && SumNat(counts) <= budget
            && (forall k :: 0 <= k < |r| ==>
                  && r[k].name == best[k].name
                  && (k < budget ==> counts[k] >= 1)
                  && r[k].value == Rolled(counts[k], RangeMax(t.subStatRolls, r[k].name)))
            && (forall k :: 0 <= k < |r| && counts[k] >= 2 ==> r[k].value <= RangeMax(t.subStatRanges, r[k].name))
            && (forall i, j :: 0 <= i < j < |r| && counts[j] >= 2 ==>
                  r[i].value + RangeMax(t.subStatRolls, r[i].name) > RangeMax(t.subStatRanges, r[i].name))
  {
    var r := AssignRolls(best, t, budget);
    var units := RollUnits(best, t);
    var caps := RollCaps(best, t);
    var counts := RollCounts(units, caps, budget);
    RollAllocation(units, caps, budget);
    forall k | 0 <= k < |r|
      ensures r[k].value + units[k] == Rolled(counts[k] + 1, units[k])
    {
      RollStep(counts[k], units[k]);
    }
  }

  /** The perfect relic has at most four substats, and each takes at least one roll. */
  lemma BestSubstatsRolled(mainStatName: string, slot: RelicType, p: WeightPreset, t: Tables)
    ensures var r := BestSubstatsFor(mainStatName, slot, p, t);
            var best := TopCandidates(mainStatName, p, t);
            var counts := RollCounts(RollUnits(best, t), RollCaps(best, t), RollBudget(slot));
            && |r| <= 4
            && forall k :: 0 <= k < |r| ==> r[k].name == best[k].name && counts[k] >= 1
  {
    var best := TopCandidates(mainStatName, p, t);
    AssignRollsFacts(best, t, RollBudget(slot));
  }

  /** The ranking loop of findBestSubstats. */
  method RankSubstats(availableSubstats: seq<string>, p: WeightPreset, t: Tables) returns (substatScores: seq<ScoredStat>)
    ensures substatScores == RankCandidates(availableSubstats, p, t)
  {
    substatScores := [];
    for i := 0 to |availableSubstats|
      invariant substatScores == RankCandidates(availableSubstats[..i], p, t)
    {
      var statName := availableSubstats[i];
      var weight := Weight(p, statName);
      var normalization := Normalization(t, statName);
      var maxValue := RangeMax(t.subStatRanges, statName);
      if IsFlatStat(statName) {
        weight := Weight(p, statName + "%");
        weight := weight * 0.5;
      }
      assert weight == RankingWeight(statName, p);
      var score := Scaled(weight, normalization, maxValue);
      substatScores := substatScores + [ScoredStat(statName, score)];
      assert availableSubstats[..i + 1] == availableSubstats[..i] + [statName];
    }
    assert availableSubstats[..|availableSubstats|] == availableSubstats;
  }

  /** findBestSubstats: rank, sort, keep the top four, then spread the rolls. */
  method FindBestSubstats(mainStatName: string, slot: RelicType, c: Character, store: AppStore, t: Tables)
      returns (r: Result<seq<Stat>, LookupError>)
    ensures r == BestSubstats(mainStatName, slot, c, store, t)
  {
    var currentWeight := GetCurrentWeightPreset(c.id, store);
    if currentWeight.None? { return Err(InvalidCharacterId); }
    var p := currentWeight.value;
    var availableSubstats := AvailableSubstats(t.subStats, mainStatName);
    var substatScores := RankSubstats(availableSubstats, p, t);
    var sorted := SortByScore(substatScores);
    var bestSubstats := sorted[..Min(4, |sorted|)];
    var maxRolls: nat;
    if slot == Orb || slot == Rope {
      maxRolls := 8;
    } else {
      maxRolls := 9;
    }
    assert bestSubstats == TopCandidates(mainStatName, p, t);
    var values := AllocateRolls(RollUnits(bestSubstats, t), RollCaps(bestSubstats, t), maxRolls);
    var relicRolls := seq(|bestSubstats|, k requires 0 <= k < |bestSubstats| => Stat(bestSubstats[k].name, values[k]));
    assert relicRolls == AssignRolls(bestSubstats, t, maxRolls);
    return Ok(relicRolls);
  }

  // ---------------------------------------------------------------------------
  // Perfect relic

  /** The set of the perfect relic: the first preferred set of the slot's family, or "". */
  function PerfectSetName(slot: RelicType, p: WeightPreset): (r: string)
    ensures |PreferredSets(p, IsOrnamentSlot(slot))| > 0 ==> r == PreferredSets(p, IsOrnamentSlot(slot))[0]
    ensures |PreferredSets(p, IsOrnamentSlot(slot))| == 0 ==> r == ""
  {
    var isOrnament := slot == Orb || slot == Rope;
    if isOrnament then
      (if p.sets.ornament.Some? && |p.sets.ornament.value| > 0 then p.sets.ornament.value[0] else "")
    else
      (if p.sets.relic.Some? && |p.sets.relic.value| > 0 then p.sets.relic.value[0] else "")
  }

  /** The perfect relic of a slot under `p`. */
  function PerfectRelicFor(slot: RelicType, p: WeightPreset, t: Tables, fmt: NumberFormat): Relic {
    var mainStatName := BestMainStatFor(slot, p, t);
    var substats := BestSubstatsFor(mainStatName, slot, p, t);
    var newSet := PerfectSetName(slot, p);
    var mainStat := Stat(mainStatName, GetRelicMainStatValue(mainStatName, t));
    Relic(GenerateRelicId(slot, newSet, mainStat, substats, fmt), slot, newSet, mainStat, substats)
  }

  /** generatePerfectRelic: it needs an active preset first. */
  function PerfectRelic(slot: RelicType, c: Character, store: AppStore, t: Tables, fmt: NumberFormat)
    : (r: Result<Relic, LookupError>)
    ensures r.Err? <==> GetCurrentWeightPreset(c.id, store).None?
    ensures r.Ok? ==> r.value == PerfectRelicFor(slot, GetCurrentWeightPreset(c.id, store).value, t, fmt)
  {
    match GetCurrentWeightPreset(c.id, store)
    case None => Err(InvalidCharacterId)
    case Some(p) => Ok(PerfectRelicFor(slot, p, t, fmt))
  }

  /**
   * The perfect relic is of the slot asked for, carries the best main stat with
   * the full main-stat value, the best substats for that main stat, an id that describes it, a preferred set of the
   * slot's family or none, and at most four substats, none of them the main
   * stat, with distinct names when the substat table lists each name once.
   */
  lemma PerfectRelicShape(slot: RelicType, p: WeightPreset, t: Tables, fmt: NumberFormat)
    ensures var r := PerfectRelicFor(slot, p, t, fmt);
            && r.relicType == slot
            && r.mainStat.name == BestMainStatFor(slot, p, t)
            && r.setName == PerfectSetName(slot, p)
            && r.subStats == BestSubstatsFor(r.mainStat.name, slot, p, t)
            && r.mainStat.value == GetRelicMainStatValue(r.mainStat.name, t)
            && r.id == GenerateRelicId(slot, r.setName, r.mainStat, r.subStats, fmt)
            && (r.setName == "" || r.setName in PreferredSets(p, IsOrnamentSlot(slot)))
            && |r.subStats| <= 4
            && (forall k :: 0 <= k < |r.subStats| ==> r.subStats[k].name in t.subStats && r.subStats[k].name != r.mainStat.name)
            && (Distinct(t.subStats) ==> forall i, j :: 0 <= i < j < |r.subStats| ==> r.subStats[i].name != r.subStats[j].name)
  {
    var mainStatName := BestMainStatFor(slot, p, t);
    TopCandidatesRanked(mainStatName, p, t);
  }

  /** (s + m) × k grows with m when k is positive. */
  lemma CombineGrowsWithMainStat(s: real, good: real, other: real, k: real)
    requires good < other && 0.0 < k
    ensures Combine(s, good, k) < Combine(s, other, k)
  {
    assert (s + other) * k - (s + good) * k == (other - good) * k;
  }

  /** Between relics with the same substats and set, under an active preset, the higher main-stat score gives the higher raw score. */
  lemma RawScoreGrowsWithMainStat(a: Relic, b: Relic, c: Character, store: AppStore, t: Tables)
    requires FlatBaseStatsPositive(c.baseStats)
    requires GetCurrentWeightPreset(c.id, store).Some?
    requires a.subStats == b.subStats && a.setName == b.setName
    requires CalculateMainstatScore(a, c, store, t) < CalculateMainstatScore(b, c, store, t)
    ensures RawScore(a, c, store, t) < RawScore(b, c, store, t)
  {
    var setScore := CalculateSetScore(a.setName, c, store, t);
    assert setScore == SetScoreFor(a.setName, GetCurrentWeightPreset(c.id, store).value, t);
    CombineGrowsWithMainStat(SubstatsScore(a.subStats, c, store, t), CalculateMainstatScore(a, c, store, t),
                             CalculateMainstatScore(b, c, store, t), setScore);
  }

  /**
   * On a flexible slot, replacing a main stat that earns the full score with an
   * unrecommended one of weight × normalization above 10 raises the raw score.
   */
  lemma UnrecommendedMainStatCanScoreMore(relic: Relic, x: string, v: real, p: WeightPreset, c: Character, store: AppStore, t: Tables)
    requires FlatBaseStatsPositive(c.baseStats)
    requires GetCurrentWeightPreset(c.id, store) == Some(p)
    requires relic.relicType != Head && relic.relicType != Hand
    requires MainstatScoreFor(relic.relicType, relic.mainStat.name, p, t) == FullMainStatScore
    requires !Recommended(p, relic.relicType, x) && Weight(p, x) * Normalization(t, x) > 10.0
    ensures RawScore(relic.(mainStat := Stat(x, v)), c, store, t) > RawScore(relic, c, store, t)
  {
    var swapped := relic.(mainStat := Stat(x, v));
    UnrecommendedMainStatAboveFull(relic.relicType, x, p, t);
    RawScoreGrowsWithMainStat(relic, swapped, c, store, t);
  }

  /** An unrecommended main stat of weight × normalization above 10 scores above the full 64.8. */
  lemma UnrecommendedMainStatAboveFull(slot: RelicType, x: string, p: WeightPreset, t: Tables)
    requires !Recommended(p, slot, x) && Weight(p, x) * Normalization(t, x) > 10.0
    ensures MainstatScoreFor(slot, x, p, t) > FullMainStatScore
  {
    var m := MainstatScoreFor(slot, x, p, t);
    var wn := Weight(p, x) * Normalization(t, x);
    assert FullMainStatScore * Weight(p, x) * Normalization(t, x) == FullMainStatScore * wn;
    assert m * 10.0 == 64.8 * wn;
  }

  /**
   * The perfect relic does not bound the raw score from above: on a flexible
   * slot whose preset recommends a main stat, the perfect relic with its main
   * stat swapped for a legal, unrecommended one of weight × normalization
   * above 10 scores strictly more.
   */
  lemma PerfectRelicNotUpperBound(slot: RelicType, x: string, v: real, p: WeightPreset, c: Character, store: AppStore, t: Tables, fmt: NumberFormat)
    requires FlatBaseStatsPositive(c.baseStats)
    requires GetCurrentWeightPreset(c.id, store) == Some(p)
    requires slot != Head && slot != Hand && x in LegalMainStats(t, slot)
    requires slot in p.mainStats && |p.mainStats[slot]| > 0
    requires !Recommended(p, slot, x) && Weight(p, x) * Normalization(t, x) > 10.0
    ensures var perfect := PerfectRelicFor(slot, p, t, fmt);
            RawScore(perfect.(mainStat := Stat(x, v)), c, store, t) > RawScore(perfect, c, store, t)
  {
    PerfectRelicMainStatRecommended(slot, p, t, fmt);
    PerfectRelicShape(slot, p, t, fmt);
    UnrecommendedMainStatCanScoreMore(PerfectRelicFor(slot, p, t, fmt), x, v, p, c, store, t);
  }

  /** On a flexible slot with legal main stats, a preset's first recommended main stat earns the full main-stat score. */
  lemma PerfectRelicMainStatRecommended(slot: RelicType, p: WeightPreset, t: Tables, fmt: NumberFormat)
    requires slot != Head && slot != Hand && |LegalMainStats(t, slot)| > 0
    requires slot in p.mainStats && |p.mainStats[slot]| > 0
    ensures MainstatScoreFor(slot, PerfectRelicFor(slot, p, t, fmt).mainStat.name, p, t) == FullMainStatScore
  {
    assert PerfectRelicFor(slot, p, t, fmt).mainStat.name == p.mainStats[slot][0];
  }

  /** A perfect relic whose set the tables file under the slot's own family earns the full set score. */
  lemma PerfectRelicSetScoreFull(slot: RelicType, p: WeightPreset, t: Tables, fmt: NumberFormat)
    requires PerfectRelicFor(slot, p, t, fmt).setName != ""
    requires IsOrnamentSet(t, PerfectRelicFor(slot, p, t, fmt).setName) == IsOrnamentSlot(slot)
    ensures SetScoreFor(PerfectRelicFor(slot, p, t, fmt).setName, p, t) == 1.0
  {
  }

  /** generatePerfectRelic. */
  method GeneratePerfectRelic(slot: RelicType, c: Character, store: AppStore, t: Tables, fmt: NumberFormat)
      returns (r: Result<Relic, LookupError>)
    ensures r == PerfectRelic(slot, c, store, t, fmt)
  {
    var currentWeight := GetCurrentWeightPreset(c.id, store);
    if currentWeight.None? { return Err(InvalidCharacterId); }
    var p := currentWeight.value;
    var best := FindBestMainStat(slot, c, store, t);
    var mainStatName := best.value;
    var found := FindBestSubstats(mainStatName, slot, c, store, t);
    var substats := found.value;
    var newSet := "";
    var isOrnament := slot == Orb || slot == Rope;
    if isOrnament {
      if p.sets.ornament.Some? && |p.sets.ornament.value| > 0 {
        newSet := p.sets.ornament.value[0];
      }
    } else {
      if p.sets.relic.Some? && |p.sets.relic.value| > 0 {
        newSet := p.sets.relic.value[0];
      }
    }
    var value := GetRelicMainStatValue(mainStatName, t);
    var id := GenerateRelicId(slot, newSet, Stat(mainStatName, value), substats, fmt);
    return Ok(Relic(id, slot, newSet, Stat(mainStatName, value), substats));
  }

  // ---------------------------------------------------------------------------
  // Relic score

  /**
   * The public score of a relic: its percentage of the perfect relic's score
   * and its grade. `score` is None where the ideal score is 0 and the
   * division yields a value that is not a finite number.
   */
  datatype Score = Score(score: Option<real>, grade: string)

  /** `actualScore / idealScore * 100`; None where the division by 0 yields no finite number. */
  function Percentage(actualScore: real, idealScore: real): Option<real> {
    if idealScore == 0.0 then None else Some(actualScore / idealScore * 100.0)
  }

  /** The score of a relic scoring `actualScore` against an ideal score of `idealScore`. */
  function ScoreOf(actualScore: real, idealScore: real): Score {
    Score(Percentage(actualScore, idealScore), GetRelicGrade(idealScore, actualScore))
  }

  /**
   * calculateRelicScore on values: without an active preset an error, else the
   * relic's raw score measured against the raw score of the perfect relic of
   * its slot under that preset.
   */
  function RelicScore(relic: Relic, c: Character, store: AppStore, t: Tables, fmt: NumberFormat)
    : (r: Result<Score, LookupError>)
    requires FlatBaseStatsPositive(c.baseStats)
    ensures r.Err? <==> GetCurrentWeightPreset(c.id, store).None?
    ensures r.Ok? ==>
              var ideal := PerfectRelicFor(relic.relicType, GetCurrentWeightPreset(c.id, store).value, t, fmt);
              r.value == ScoreOf(RawScore(relic, c, store, t), RawScore(ideal, c, store, t))
  {
    match PerfectRelic(relic.relicType, c, store, t, fmt)
    case Err(e) => Err(e)
    case Ok(perfect) => Ok(ScoreOf(RawScore(relic, c, store, t), RawScore(perfect, c, store, t)))
  }

  /**
   * The grade agrees with the percentage: F when the percentage is not a
   * finite number, when it is 0 or less, or when the ideal score is
   * negative; otherwise the first tier whose threshold the percentage reaches.
   */
  lemma ScoreGradeAgree(actualScore: real, idealScore: real)
    ensures var s := ScoreOf(actualScore, idealScore);
            && (s.score.None? ==> s.grade == "F")
            && (s.score.Some? && s.score.value <= 0.0 ==> s.grade == "F")
            && (idealScore < 0.0 ==> s.grade == "F")
            && (s.score.Some? && s.score.value > 0.0 && idealScore > 0.0 ==>
                  s.grade == TierName(LadderIndex(s.score.value, 0)))
  {
    if idealScore > 0.0 && actualScore > 0.0 {
      assert actualScore / idealScore > 0.0;
    }
  }

  /** A positive score against itself is 100 percent and grades WTF. */
  lemma ScoreOfSelf(x: real)
    requires x > 0.0
    ensures ScoreOf(x, x) == Score(Some(100.0), "WTF")
  {
    assert x / x == 1.0;
  }

  /** The perfect relic scores 100 percent of itself and grades WTF, whenever its score is positive. */
  lemma PerfectRelicScoresFull(slot: RelicType, c: Character, store: AppStore, t: Tables, fmt: NumberFormat)
    requires FlatBaseStatsPositive(c.baseStats)
    requires PerfectRelic(slot, c, store, t, fmt).Ok?
    requires RawScore(PerfectRelic(slot, c, store, t, fmt).value, c, store, t) > 0.0
    ensures RelicScore(PerfectRelic(slot, c, store, t, fmt).value, c, store, t, fmt) == Ok(Score(Some(100.0), "WTF"))
  {
    var perfect := PerfectRelic(slot, c, store, t, fmt).value;
    ScoreOfSelf(RawScore(perfect, c, store, t));
  }

  /** calculateRelicScore. */
  method CalculateRelicScore(relic: Relic, c: Character, store: AppStore, t: Tables, fmt: NumberFormat)
      returns (r: Result<Score, LookupError>)
    requires FlatBaseStatsPositive(c.baseStats)
    ensures r == RelicScore(relic, c, store, t, fmt)
  {
    var actualScore := CalculateRelic(relic, c, store, t);
    var perfectRelic := GeneratePerfectRelic(relic.relicType, c, store, t, fmt);
    if perfectRelic.Err? { return Err(perfectRelic.error); }
    var idealScore := CalculateRelic(perfectRelic.value, c, store, t);
    var grade := GetRelicGrade(idealScore, actualScore);
    var score := Percentage(actualScore, idealScore);
    return Ok(Score(score, grade));
  }
}
