/**
 * The static game-data tables the scoring engine reads (relic data and stat
 * constants). Their contents are not part of this model: every operation takes
 * them as a read-only value, and lookups fall back to the same defaults the code
 * uses when an entry is absent.
 */
module GameData {
  import opened Types

  datatype StatRange = StatRange(min: real, max: real)

  /** A relic or ornament set: its internal name and numeric set id. */
  datatype SetEntry = SetEntry(internalName: string, setId: int)

  datatype Tables = Tables(
    mainStatValues: map<string, real>,            // main-stat value at max level
    subStatRanges: map<string, StatRange>,        // the range a substat value may reach
    subStatRolls: map<string, StatRange>,         // the value one upgrade roll adds
    subStats: seq<string>,                        // every substat name
    mainStatsBySlot: map<RelicType, seq<string>>, // legal main stats per slot
    relicSets: seq<SetEntry>,
    ornamentSets: seq<SetEntry>,
    normalization: map<string, real>,
    percentLowRolls: map<string, real>,
    flatHighRolls: map<string, real>,
    flatLowRolls: map<string, real>)

  /**
   * `m[k] || d`: an absent entry and an entry equal to zero (a falsy
   * number) both give the default.
   */
  function Or(m: map<string, real>, k: string, d: real): (r: real)
    ensures k in m && m[k] != 0.0 ==> r == m[k]
    ensures (k !in m || m[k] == 0.0) ==> r == d
  {
    if k in m && m[k] != 0.0 then m[k] else d
  }

  /** `ranges[k]?.max || 0`. */
  function RangeMax(m: map<string, StatRange>, k: string): (r: real)
    ensures r == (if k in m then m[k].max else 0.0)
  {
    if k in m && m[k].max != 0.0 then m[k].max else 0.0
  }

  /** The main stats legal for a slot; an absent entry reads as none. */
  function LegalMainStats(t: Tables, slot: RelicType): seq<string> {
    if slot in t.mainStatsBySlot then t.mainStatsBySlot[slot] else []
  }

  predicate IsOrnamentSet(t: Tables, setName: string) {
    exists i :: 0 <= i < |t.ornamentSets| && t.ornamentSets[i].internalName == setName
  }
}
