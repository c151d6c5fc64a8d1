/**
 * The application's records: characters, relics, weight presets and the store
 * that holds them. Numbers are exact reals; strings are sequences of characters.
 */
module Types {

  datatype Option<T> = None | Some(value: T)

  datatype Result<T, E> = Ok(value: T) | Err(error: E)

  /** The six equipment slots. Head and Hand have a fixed main stat; Orb and Rope are ornaments. */
  datatype RelicType = Hand | Head | Chest | Feet | Orb | Rope

  /** The slot's name as it appears in relic ids and in the game-data tables. */
  function RelicTypeName(t: RelicType): string {
    match t
    case Hand => "Hand"
    case Head => "Head"
    case Chest => "Chest"
    case Feet => "Feet"
    case Orb => "Orb"
    case Rope => "Rope"
  }

  predicate IsOrnamentSlot(t: RelicType) {
    t == Orb || t == Rope
  }

  datatype Stat = Stat(name: string, value: real)

  datatype Relic = Relic(id: string, relicType: RelicType, setName: string, mainStat: Stat, subStats: seq<Stat>)

  datatype BaseStats = BaseStats(hp: real, atk: real, def: real, spd: real, critRate: real, critDmg: real)

  /** Preferred relic and ornament sets; either list may be absent. */
  datatype PresetSets = PresetSets(relic: Option<seq<string>>, ornament: Option<seq<string>>)

  /** A named scoring configuration. `mainStats` has entries only for Chest, Feet, Orb and Rope. */
  datatype WeightPreset = WeightPreset(
    id: string,
    name: string,
    weights: map<string, real>,
    isDefault: bool,
    mainStats: map<RelicType, seq<string>>,
    sets: PresetSets)

  datatype Character = Character(
    id: string,
    name: string,
    alias: Option<string>,
    rarity: int,
    path: string,
    element: string,
    baseStats: BaseStats,
    defaultWeights: WeightPreset,
    weightPresets: seq<WeightPreset>,
    activePresetId: string,
    equippedRelics: map<RelicType, string>)

  datatype AppStore = AppStore(characters: seq<Character>, relics: seq<Relic>)

  /** How the runtime prints a number inside a template string. */
  type NumberFormat = real -> string
}
