/**
 * Character and weight-preset management: character lookup, resolution of the
 * active preset, character creation from the character tables, the four preset
 * editors, and the deterministic relic id.
 */
module CharacterUtils {
  import opened Types
  import opened GameData
  import opened SeqUtil

  datatype LookupError = InvalidCharacterId

  // ---------------------------------------------------------------------------
  // Lookups (Array.prototype.find / findIndex: the first match wins)

  function FindCharacter(chars: seq<Character>, id: string): (r: Option<nat>)
    ensures r.Some? ==> r.value < |chars| && chars[r.value].id == id
    ensures r.Some? ==> forall j :: 0 <= j < r.value ==> chars[j].id != id
    ensures r.None? ==> forall j :: 0 <= j < |chars| ==> chars[j].id != id
    decreases |chars|
  {
    if chars == [] then None
    else if chars[0].id == id then Some(0)
    else match FindCharacter(chars[1..], id)
      case None => None
      case Some(k) => Some(k + 1)
  }

  function FindPreset(presets: seq<WeightPreset>, id: string): (r: Option<nat>)
    ensures r.Some? ==> r.value < |presets| && presets[r.value].id == id
    ensures r.Some? ==> forall j :: 0 <= j < r.value ==> presets[j].id != id
    ensures r.None? ==> forall j :: 0 <= j < |presets| ==> presets[j].id != id
    decreases |presets|
  {
    if presets == [] then None
    else if presets[0].id == id then Some(0)
    else match FindPreset(presets[1..], id)
      case None => None
      case Some(k) => Some(k + 1)
  }

  function HasPresetNamed(presets: seq<WeightPreset>, name: string): (b: bool)
    ensures b <==> exists j :: 0 <= j < |presets| && presets[j].name == name
    decreases |presets|
  {
    presets != [] && (presets[0].name == name || HasPresetNamed(presets[1..], name))
  }

  /** getCharacterByID: the first stored character with the id. */
  function GetCharacterByID(characterId: string, store: AppStore): (r: Option<Character>)
    ensures r.None? <==> forall j :: 0 <= j < |store.characters| ==> store.characters[j].id != characterId
    ensures r.Some? ==> r.value.id == characterId
    ensures r.Some? ==> exists k :: 0 <= k < |store.characters| && store.characters[k] == r.value &&
                                   forall j :: 0 <= j < k ==> store.characters[j].id != characterId
  {
    match FindCharacter(store.characters, characterId)
    case None => None
    case Some(k) => Some(store.characters[k])
  }

  /** The character invariant: the active id names the default preset or a listed one. */
  predicate ActiveResolves(c: Character) {
    c.activePresetId == c.defaultWeights.id ||
    exists i :: 0 <= i < |c.weightPresets| && c.weightPresets[i].id == c.activePresetId
  }

  /** getCurrentWeightFromCharacter: the default preset wins over a listed preset with the same id. */
  function GetCurrentWeightFromCharacter(c: Character): (r: Option<WeightPreset>)
    ensures r.Some? <==> ActiveResolves(c)
    ensures r.Some? ==> r.value.id == c.activePresetId
    ensures c.activePresetId == c.defaultWeights.id ==> r == Some(c.defaultWeights)
    ensures c.activePresetId != c.defaultWeights.id && r.Some? ==>
              exists i :: 0 <= i < |c.weightPresets| && c.weightPresets[i] == r.value &&
                          forall j :: 0 <= j < i ==> c.weightPresets[j].id != c.activePresetId
  {
    if c.activePresetId == c.defaultWeights.id then Some(c.defaultWeights)
    else match FindPreset(c.weightPresets, c.activePresetId)
      case None => None
      case Some(i) => Some(c.weightPresets[i])
  }

  /** getCurrentWeightPreset: resolve the active preset of the stored character with the id. */
  function GetCurrentWeightPreset(characterId: string, store: AppStore): (r: Option<WeightPreset>)
    ensures (forall j :: 0 <= j < |store.characters| ==> store.characters[j].id != characterId) ==> r.None?
    ensures forall k :: 0 <= k < |store.characters| && store.characters[k].id == characterId &&
                        (forall j :: 0 <= j < k ==> store.characters[j].id != characterId) ==>
                        r == GetCurrentWeightFromCharacter(store.characters[k])
  {
    match GetCharacterByID(characterId, store)
    case None => None
    case Some(c) => GetCurrentWeightFromCharacter(c)
  }

  // ---------------------------------------------------------------------------
  // Creation

  /** createNewWeightPreset; the random UUID is supplied by the caller. */
  function CreateNewWeightPreset(id: string, name: string, weights: map<string, real>,
                                 mainStats: map<RelicType, seq<string>>, sets: PresetSets,
                                 isDefault: bool): (r: WeightPreset)
    ensures r.id == id && r.name == name && r.isDefault == isDefault
    ensures r.weights == weights && r.mainStats == mainStats && r.sets == sets
  {
    WeightPreset(id, name, weights, isDefault, mainStats, sets)
  }

  datatype SetLists = SetLists(relic: seq<string>, ornament: seq<string>)
  datatype CharacterDataEntry = CharacterDataEntry(id: string, name: string, weights: map<string, real>,
                                                   mainStats: map<RelicType, seq<string>>, sets: SetLists)
  datatype GameStats = GameStats(hp: real, atk: real, def: real, spd: real, critRate: real, critDmg: real)
  datatype GameCharacterEntry = GameCharacterEntry(rarity: int, path: string, element: string, stats: GameStats)

  /** characterData.json, gameData.json and aliasData.json, keyed by character id. */
  datatype CharacterTables = CharacterTables(characterData: map<string, CharacterDataEntry>,
                                             gameData: map<string, GameCharacterEntry>,
                                             aliasData: map<string, string>)

  /**
   * The function that attaches perfect relics to a preset is not part of this
   * model; it is a parameter that keeps the preset's id, name and default flag.
   */
  ghost predicate KeepsIdentity(gen: WeightPreset -> WeightPreset) {
    forall p :: gen(p).id == p.id && gen(p).name == p.name && gen(p).isDefault == p.isDefault
  }

  function GetCharacterAlias(characterId: string, tables: CharacterTables): (r: Option<string>)
    ensures r.Some? <==> characterId in tables.aliasData
  {
    if characterId in tables.aliasData then Some(tables.aliasData[characterId]) else None
  }

  /** createCharacter; `presetId` stands for the UUID the default preset receives. */
  function CreateCharacter(characterId: string, tables: CharacterTables, presetId: string,
                           gen: WeightPreset -> WeightPreset): (r: Result<Character, LookupError>)
    requires KeepsIdentity(gen)
    ensures r.Err? <==> characterId !in tables.characterData || characterId !in tables.gameData
    ensures r.Ok? ==> var c := r.value;
      && c.weightPresets == [] && c.equippedRelics == map[]
      && c.activePresetId == presetId && c.defaultWeights.id == presetId
      && c.defaultWeights.isDefault && c.defaultWeights.name == "Default"
      && c.id == tables.characterData[characterId].id
      && c.baseStats.hp == tables.gameData[characterId].stats.hp
      && c.baseStats.atk == tables.gameData[characterId].stats.atk
      && c.baseStats.def == tables.gameData[characterId].stats.def
      && ActiveResolves(c)
  {
    if characterId !in tables.characterData || characterId !in tables.gameData then Err(InvalidCharacterId)
    else
      var entry := tables.characterData[characterId];
      var game := tables.gameData[characterId];
      var base := BaseStats(game.stats.hp, game.stats.atk, game.stats.def, game.stats.spd,
                            game.stats.critRate, game.stats.critDmg);
      var defaultWeights := CreateNewWeightPreset(presetId, "Default", entry.weights, entry.mainStats,
                                                  PresetSets(Some(entry.sets.relic), Some(entry.sets.ornament)), true);
      Ok(Character(entry.id, entry.name, GetCharacterAlias(characterId, tables), game.rarity, game.path,
                   game.element, base, gen(defaultWeights), [], defaultWeights.id, map[]))
  }

  // ---------------------------------------------------------------------------
  // Preset editors, on one character value

  /** addWeightPreset's effect on the character: refuse a default preset, ignore a taken name, else append. */
  function PresetAdded(c: Character, preset: WeightPreset, gen: WeightPreset -> WeightPreset): (r: Option<Character>)
    ensures r.None? <==> preset.isDefault
    ensures r.Some? && HasPresetNamed(c.weightPresets, preset.name) ==> r.value == c
    ensures r.Some? && !HasPresetNamed(c.weightPresets, preset.name) ==>
              r.value == c.(weightPresets := c.weightPresets + [gen(preset)])
  {
    if preset.isDefault then None
    else if HasPresetNamed(c.weightPresets, preset.name) then Some(c)
    else Some(c.(weightPresets := c.weightPresets + [gen(preset)]))
  }

  /** filter((preset) => preset.id !== id). */
  function WithoutPreset(presets: seq<WeightPreset>, id: string): (r: seq<WeightPreset>)
    ensures forall i :: 0 <= i < |r| ==> r[i].id != id
    ensures forall i :: 0 <= i < |presets| && presets[i].id != id ==> presets[i] in r
    ensures IsSubsequence(r, presets)
    ensures forall x :: multiset(r)[x] == if x.id == id then 0 else multiset(presets)[x]
    decreases |presets|
  {
    if presets == [] then []
    else
      assert presets == [presets[0]] + presets[1..];
      if presets[0].id == id then WithoutPreset(presets[1..], id)
      else [presets[0]] + WithoutPreset(presets[1..], id)
  }

  /**
   * removeWeightPreset's effect: drop every preset with the id, and fall back to
   * the default when the active one was removed. The source's guard
   * `updatedPresets === character.weightPresets` compares a freshly filtered
   * array by reference, so it never holds and a found character is always returned.
   */
  function PresetRemoved(c: Character, id: string): (r: Character)
    ensures forall i :: 0 <= i < |r.weightPresets| ==> r.weightPresets[i].id != id
    ensures forall i :: 0 <= i < |c.weightPresets| && c.weightPresets[i].id != id ==> c.weightPresets[i] in r.weightPresets
    ensures IsSubsequence(r.weightPresets, c.weightPresets)
    ensures forall x :: multiset(r.weightPresets)[x] == if x.id == id then 0 else multiset(c.weightPresets)[x]
    ensures r.defaultWeights == c.defaultWeights
    ensures r.activePresetId == (if c.activePresetId == id then c.defaultWeights.id else c.activePresetId)
    ensures r == c.(weightPresets := r.weightPresets, activePresetId := r.activePresetId)
  {
    c.(weightPresets := WithoutPreset(c.weightPresets, id),
       activePresetId := if c.activePresetId == id then c.defaultWeights.id else c.activePresetId)
  }

  /** setActivePreset's effect: only an id that resolves may become active. */
  function ActivePresetSet(c: Character, id: string): (r: Option<Character>)
    ensures r.None? <==> id != c.defaultWeights.id && forall i :: 0 <= i < |c.weightPresets| ==> c.weightPresets[i].id != id
    ensures r.Some? ==> r.value == c.(activePresetId := id) && ActiveResolves(r.value)
  {
    var isDefault := id == c.defaultWeights.id;
    if FindPreset(c.weightPresets, id).None? && !isDefault then None
    else Some(c.(activePresetId := if isDefault then c.defaultWeights.id else id))
  }

  /** updateWeightPreset's effect: overwrite the first preset with the same id. */
  function PresetUpdated(c: Character, preset: WeightPreset, gen: WeightPreset -> WeightPreset): (r: Option<Character>)
    ensures r.None? <==> forall i :: 0 <= i < |c.weightPresets| ==> c.weightPresets[i].id != preset.id
    ensures r.Some? ==>
              exists k :: 0 <= k < |c.weightPresets| && c.weightPresets[k].id == preset.id &&
                          (forall j :: 0 <= j < k ==> c.weightPresets[j].id != preset.id) &&
                          r.value == c.(weightPresets := c.weightPresets[k := gen(preset)])
  {
    match FindPreset(c.weightPresets, preset.id)
    case None => None
    case Some(k) => Some(c.(weightPresets := c.weightPresets[k := gen(preset)]))
  }

  lemma AddKeepsActiveResolved(c: Character, preset: WeightPreset, gen: WeightPreset -> WeightPreset)
    requires ActiveResolves(c)
    ensures PresetAdded(c, preset, gen).Some? ==> ActiveResolves(PresetAdded(c, preset, gen).value)
  {
    var r := PresetAdded(c, preset, gen);
    if r.Some? && !HasPresetNamed(c.weightPresets, preset.name) && c.activePresetId != c.defaultWeights.id {
      var i :| 0 <= i < |c.weightPresets| && c.weightPresets[i].id == c.activePresetId;
      assert r.value.weightPresets[i] == c.weightPresets[i];
    }
  }

  lemma RemoveKeepsActiveResolved(c: Character, id: string)
    requires ActiveResolves(c)
    ensures ActiveResolves(PresetRemoved(c, id))
  {
    var r := PresetRemoved(c, id);
    if c.activePresetId != id && c.activePresetId != c.defaultWeights.id {
      var i :| 0 <= i < |c.weightPresets| && c.weightPresets[i].id == c.activePresetId;
      assert c.weightPresets[i] in r.weightPresets;
      var k :| 0 <= k < |r.weightPresets| && r.weightPresets[k] == c.weightPresets[i];
    }
  }

  lemma UpdateKeepsActiveResolved(c: Character, preset: WeightPreset, gen: WeightPreset -> WeightPreset)
    requires ActiveResolves(c) && KeepsIdentity(gen)
    ensures PresetUpdated(c, preset, gen).Some? ==> ActiveResolves(PresetUpdated(c, preset, gen).value)
  {
    var r := PresetUpdated(c, preset, gen);
    if r.Some? && c.activePresetId != c.defaultWeights.id {
      var i :| 0 <= i < |c.weightPresets| && c.weightPresets[i].id == c.activePresetId;
      var k :| 0 <= k < |c.weightPresets| && c.weightPresets[k].id == preset.id &&
               r.value == c.(weightPresets := c.weightPresets[k := gen(preset)]);
      assert gen(preset).id == preset.id;
      assert r.value.weightPresets[i].id == c.activePresetId;
    }
  }

  /**
   * The live store object. The editors find the character by id and change it
   * in place, so the stored character and the returned one are the same value.
   */
  class StoreHandle {
    var store: AppStore

    constructor (initial: AppStore)
      ensures store == initial
    {
      store := initial;
    }

    /** Store `edited` (when present) over the character at index k. */
    static function Written(s: AppStore, k: nat, edited: Option<Character>): AppStore
      requires k < |s.characters|
    {
      if edited.Some? then s.(characters := s.characters[k := edited.value]) else s
    }

    method AddWeightPreset(characterId: string, preset: WeightPreset, gen: WeightPreset -> WeightPreset)
      returns (r: Option<Character>)
      modifies this
      ensures FindCharacter(old(store).characters, characterId).None? ==> r.None? && store == old(store)
      ensures FindCharacter(old(store).characters, characterId).Some? ==>
                var k := FindCharacter(old(store).characters, characterId).value;
                r == PresetAdded(old(store).characters[k], preset, gen) &&
                store == Written(old(store), k, r) &&
                (r.Some? ==> store.characters[k] == r.value)
    {
      var found := FindCharacter(store.characters, characterId);
      if found.None? {
        return None;
      }
      var k := found.value;
      r := PresetAdded(store.characters[k], preset, gen);
      store := Written(store, k, r);
    }

    method RemoveWeightPreset(characterId: string, presetId: string) returns (r: Option<Character>)
      modifies this
      ensures FindCharacter(old(store).characters, characterId).None? ==> r.None? && store == old(store)
      ensures FindCharacter(old(store).characters, characterId).Some? ==>
                var k := FindCharacter(old(store).characters, characterId).value;
                r == Some(PresetRemoved(old(store).characters[k], presetId)) &&
                store == Written(old(store), k, r) && store.characters[k] == r.value
    {
      var found := FindCharacter(store.characters, characterId);
      if found.None? {
        return None;
      }
      var k := found.value;
      r := Some(PresetRemoved(store.characters[k], presetId));
      store := Written(store, k, r);
    }

    method SetActivePreset(characterId: string, presetId: string) returns (r: Option<Character>)
      modifies this
      ensures FindCharacter(old(store).characters, characterId).None? ==> r.None? && store == old(store)
      ensures FindCharacter(old(store).characters, characterId).Some? ==>
                var k := FindCharacter(old(store).characters, characterId).value;
                r == ActivePresetSet(old(store).characters[k], presetId) &&
                store == Written(old(store), k, r) &&
                (r.Some? ==> store.characters[k] == r.value)
    {
      var found := FindCharacter(store.characters, characterId);
      if found.None? {
        return None;
      }
      var k := found.value;
      r := ActivePresetSet(store.characters[k], presetId);
      store := Written(store, k, r);
    }

    method UpdateWeightPreset(characterId: string, preset: WeightPreset, gen: WeightPreset -> WeightPreset)
      returns (r: Option<Character>)
      modifies this
      ensures FindCharacter(old(store).characters, characterId).None? ==> r.None? && store == old(store)
      ensures FindCharacter(old(store).characters, characterId).Some? ==>
                var k := FindCharacter(old(store).characters, characterId).value;
                r == PresetUpdated(old(store).characters[k], preset, gen) &&
                store == Written(old(store), k, r) &&
                (r.Some? ==> store.characters[k] == r.value)
    {
      var found := FindCharacter(store.characters, characterId);
      if found.None? {
        return None;
      }
      var k := found.value;
      r := PresetUpdated(store.characters[k], preset, gen);
      store := Written(store, k, r);
    }
  }

  // ---------------------------------------------------------------------------
  // Deterministic relic id

  /**
   * The order `localeCompare` sorts names by, taken here as the lexicographic
   * order of character codes.
   */
  predicate StrLess(a: string, b: string)
    decreases |a|
  {
    |b| > 0 && (|a| == 0 || a[0] < b[0] || (a[0] == b[0] && StrLess(a[1..], b[1..])))
  }

  lemma {:induction false} StrLessIrreflexive(a: string)
    ensures !StrLess(a, a)
    decreases |a|
  {
    if |a| > 0 {
      StrLessIrreflexive(a[1..]);
    }
  }

  lemma {:induction false} StrLessTransitive(a: string, b: string, c: string)
    requires StrLess(a, b) && StrLess(b, c)
    ensures StrLess(a, c)
    decreases |a|
  {
    if |a| > 0 && a[0] == b[0] && b[0] == c[0] {
      StrLessTransitive(a[1..], b[1..], c[1..]);
    }
  }

  lemma {:induction false} StrLessAsymmetric(a: string, b: string)
    requires StrLess(a, b)
    ensures !StrLess(b, a)
    decreases |a|
  {
    if |a| > 0 && a[0] == b[0] {
      StrLessAsymmetric(a[1..], b[1..]);
    }
  }

  lemma {:induction false} StrLessTotal(a: string, b: string)
    ensures a == b || StrLess(a, b) || StrLess(b, a)
    decreases |a|
  {
    if |a| > 0 && |b| > 0 && a[0] == b[0] {
      StrLessTotal(a[1..], b[1..]);
      if a[1..] == b[1..] {
        assert a == [a[0]] + a[1..] && b == [b[0]] + b[1..];
      }
    }
  }

  /** Non-decreasing by name. */
  predicate SortedByName(s: seq<Stat>) {
    forall i, j :: 0 <= i < j < |s| ==> !StrLess(s[j].name, s[i].name)
  }

  /** A stat no greater than every element may go in front of a sorted list. */
  lemma PrependLeast(h: Stat, s: seq<Stat>)
    requires SortedByName(s)
    requires forall j :: 0 <= j < |s| ==> !StrLess(s[j].name, h.name)
    ensures SortedByName([h] + s)
  {
    assert forall j :: 1 <= j < |[h] + s| ==> ([h] + s)[j] == s[j - 1];
  }

  /** A stat whose name precedes the head of a sorted list precedes all of it. */
  lemma PrecedesSorted(x: Stat, s: seq<Stat>)
    requires SortedByName(s) && s != [] && StrLess(x.name, s[0].name)
    ensures forall j :: 0 <= j < |s| ==> !StrLess(s[j].name, x.name)
  {
    forall j | 0 <= j < |s| ensures !StrLess(s[j].name, x.name) {
      var y := s[j].name;
      StrLessTotal(s[0].name, y);
      if s[0].name != y {
        StrLessTransitive(x.name, s[0].name, y);
      }
      StrLessAsymmetric(x.name, y);
    }
  }

  /** Insert after every element whose name is not greater (keeps equal names in arrival order). */
  function InsertByName(x: Stat, s: seq<Stat>): (r: seq<Stat>)
    requires SortedByName(s)
    ensures multiset(r) == multiset(s) + multiset{x}
    ensures SortedByName(r)
    decreases |s|
  {
    if s == [] then [x]
    else if StrLess(x.name, s[0].name) then
      PrecedesSorted(x, s);
      PrependLeast(x, s);
      [x] + s
    else
      var t := InsertByName(x, s[1..]);
      assert s == [s[0]] + s[1..];
      forall j | 0 <= j < |t| ensures !StrLess(t[j].name, s[0].name) {
        assert t[j] in multiset(t);
        assert t[j] == x || t[j] in s[1..];
      }
      PrependLeast(s[0], t);
      [s[0]] + t
  }

  /** The stable sort `[...subStats].sort((a, b) => a.name.localeCompare(b.name))`. */
  function SortByName(s: seq<Stat>): (r: seq<Stat>)
    ensures multiset(r) == multiset(s)
    ensures SortedByName(r)
    decreases |s|
  {
    if s == [] then []
    else
      assert s == s[..|s| - 1] + [s[|s| - 1]];
      InsertByName(s[|s| - 1], SortByName(s[..|s| - 1]))
  }

  predicate DistinctNames(s: seq<Stat>) {
    forall i, j :: 0 <= i < j < |s| ==> s[i].name != s[j].name
  }

  /** Within the multiset, a name identifies the stat. */
  ghost predicate NamesIdentify(m: multiset<Stat>) {
    forall x, y :: x in m && y in m && x.name == y.name ==> x == y
  }

  lemma DistinctNamesIdentify(s: seq<Stat>)
    requires DistinctNames(s)
    ensures NamesIdentify(multiset(s))
  {
    forall x, y | x in multiset(s) && y in multiset(s) && x.name == y.name ensures x == y {
      var i :| 0 <= i < |s| && s[i] == x;
      var j :| 0 <= j < |s| && s[j] == y;
      assert !(i < j) && !(j < i);
    }
  }

  /** The head of a name-sorted sequence is no greater than any of its elements. */
  lemma SortedHeadIsLeast(a: seq<Stat>, x: Stat)
    requires SortedByName(a) && x in multiset(a)
    ensures !StrLess(x.name, a[0].name)
  {
    var i :| 0 <= i < |a| && a[i] == x;
    if i > 0 {
      assert !StrLess(a[i].name, a[0].name);
    } else {
      StrLessIrreflexive(x.name);
    }
  }

  lemma SortedByNameTail(a: seq<Stat>)
    requires SortedByName(a) && a != []
    ensures SortedByName(a[1..])
  {
    forall i, j | 0 <= i < j < |a| - 1 ensures !StrLess(a[1..][j].name, a[1..][i].name) {
      assert a[1..][j] == a[j + 1] && a[1..][i] == a[i + 1];
    }
  }

  lemma MultisetTail(a: seq<Stat>)
    requires a != []
    ensures multiset(a) == multiset{a[0]} + multiset(a[1..])
  {
    assert a == [a[0]] + a[1..];
  }

  lemma NamesIdentifySub(m: multiset<Stat>, sub: multiset<Stat>)
    requires NamesIdentify(m) && sub <= m
    ensures NamesIdentify(sub)
  {
    forall x, y | x in sub && y in sub && x.name == y.name ensures x == y {
      assert x in m && y in m;
    }
  }

  lemma SameHeadSameTail(a: seq<Stat>, b: seq<Stat>)
    requires a != [] && b != [] && a[0] == b[0] && a[1..] == b[1..]
    ensures a == b
  {
    assert a == [a[0]] + a[1..];
    assert b == [b[0]] + b[1..];
  }

  /** Two name-sorted sequences with the same elements, where names identify elements, are equal. */
  lemma {:induction false} SortedByNameUnique(a: seq<Stat>, b: seq<Stat>)
    requires SortedByName(a) && SortedByName(b)
    requires multiset(a) == multiset(b)
    requires NamesIdentify(multiset(a))
    ensures a == b
    decreases |a|
  {
    if a == [] {
      assert |b| == |multiset(b)| == 0;
    } else {
      assert |b| == |multiset(b)| == |multiset(a)| == |a|;
      MultisetTail(a);
      MultisetTail(b);
      SortedHeadIsLeast(a, b[0]);
      SortedHeadIsLeast(b, a[0]);
      StrLessTotal(a[0].name, b[0].name);
      assert a[0] in multiset(a) && b[0] in multiset(a);
      assert a[0] == b[0];
      SortedByNameTail(a);
      SortedByNameTail(b);
      NamesIdentifySub(multiset(a), multiset(a[1..]));
      assert multiset(a[1..]) == multiset(b[1..]);
      SortedByNameUnique(a[1..], b[1..]);
      SameHeadSameTail(a, b);
    }
  }

  function StatText(s: Stat, fmt: NumberFormat): string {
    s.name + ":" + fmt(s.value)
  }

  /** `.map(stat => `${stat.name}:${stat.value}`).join('-')`. */
  function JoinStats(s: seq<Stat>, fmt: NumberFormat): string
    decreases |s|
  {
    if s == [] then ""
    else if |s| == 1 then StatText(s[0], fmt)
    else StatText(s[0], fmt) + "-" + JoinStats(s[1..], fmt)
  }

  /** generateRelicId (defined identically in characterUtils and in the relic-entry form). */
  function GenerateRelicId(t: RelicType, setName: string, mainStat: Stat, subStats: seq<Stat>,
                           fmt: NumberFormat): string
  {
    RelicTypeName(t) + "-" + setName + "-" + StatText(mainStat, fmt) + "-" + JoinStats(SortByName(subStats), fmt)
  }

  /** Substat lists that are permutations of each other, with distinct names, give the same id. */
  lemma RelicIdIgnoresSubstatOrder(t: RelicType, setName: string, mainStat: Stat,
                                   a: seq<Stat>, b: seq<Stat>, fmt: NumberFormat)
    requires multiset(a) == multiset(b) && DistinctNames(a)
    ensures GenerateRelicId(t, setName, mainStat, a, fmt) == GenerateRelicId(t, setName, mainStat, b, fmt)
  {
    DistinctNamesIdentify(a);
    SortedByNameUnique(SortByName(a), SortByName(b));
  }

  /** getRelicMainStatValue: the main-stat table value, 0 when absent. */
  function GetRelicMainStatValue(name: string, t: Tables): (r: real)
    ensures r == (if name in t.mainStatValues then t.mainStatValues[name] else 0.0)
  {
    Or(t.mainStatValues, name, 0.0)
  }
}
