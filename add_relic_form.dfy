/**
 * The manual relic-entry form: the submit handler's ordered validation
 * chain, the list of substats offered to one substat slot, and the reaction
 * to choosing a main stat.
 */
module AddRelicForm {
  import opened Types
  import opened GameData
  import opened SeqUtil
  import opened CharacterUtils
  import opened StoreOps
  import opened JsText

  /** The form's fields (the relic-type, set, main-stat and substat cells). */
  datatype Form = Form(relicType: RelicType, setName: string, mainStat: Stat, subStats: seq<Stat>)

  /** Why handleAddRelic refused to add, one value per alert, in the order checked. */
  datatype FormError =
    | MainStatMissing     // blank main-stat name or value <= 0
    | SubStatsMissing     // fewer than 4 filled substats
    | SubStatOutOfRange   // a filled substat outside its table range
    | DuplicateStats      // a name repeated among the main stat and filled substats
    | IllegalMainStat     // main stat not legal for the slot
    | DuplicateRelic      // a relic with the same id is already stored

  /** `{ name: '', value: 0 }`. */
  const InitialStat: Stat := Stat("", 0.0)

  // ---------------------------------------------------------------------------
  // Submit

  /** A substat the handler counts: a non-blank name and a positive value. */
  predicate Filled(s: Stat) {
    !IsBlank(s.name) && s.value > 0.0
  }

  /** `subStats.filter(stat => stat.name.trim() && stat.value > 0)`. */
  function ValidSubStats(subStats: seq<Stat>): seq<Stat>
    decreases |subStats|
  {
    if subStats == [] then []
    else if Filled(subStats[0]) then [subStats[0]] + ValidSubStats(subStats[1..])
    else ValidSubStats(subStats[1..])
  }

  /** The filter keeps, in order, exactly the filled substats. */
  lemma {:induction false} ValidSubStatsFacts(subStats: seq<Stat>)
    ensures IsSubsequence(ValidSubStats(subStats), subStats)
    ensures forall x :: x in ValidSubStats(subStats) <==> x in subStats && Filled(x)
    ensures forall x :: multiset(ValidSubStats(subStats))[x] == if Filled(x) then multiset(subStats)[x] else 0
    decreases |subStats|
  {
    if subStats != [] {
      var rest := ValidSubStats(subStats[1..]);
      ValidSubStatsFacts(subStats[1..]);
      assert subStats == [subStats[0]] + subStats[1..];
      if Filled(subStats[0]) {
        assert ([subStats[0]] + rest)[1..] == rest;
      }
    }
  }

  /** `range && (stat.value < range.min || stat.value > range.max)`. */
  predicate OutOfRange(s: Stat, t: Tables) {
    s.name in t.subStatRanges && (s.value < t.subStatRanges[s.name].min || s.value > t.subStatRanges[s.name].max)
  }

  predicate HasInvalidValues(subStats: seq<Stat>, t: Tables) {
    exists i :: 0 <= i < |subStats| && Filled(subStats[i]) && OutOfRange(subStats[i], t)
  }

  function StatNames(s: seq<Stat>): (r: seq<string>)
    ensures |r| == |s| && forall i :: 0 <= i < |s| ==> r[i] == s[i].name
  {
    seq(|s|, i requires 0 <= i < |s| => s[i].name)
  }

  /** The main stat's name followed by the filled substats' names. */
  function AllStatNames(form: Form): seq<string> {
    [form.mainStat.name] + StatNames(ValidSubStats(form.subStats))
  }

  predicate MainStatMissingIn(form: Form) {
    IsBlank(form.mainStat.name) || form.mainStat.value <= 0.0
  }

  /** The id the handler gives the relic: over the filled substats only. */
  function FormRelicId(form: Form, fmt: NumberFormat): string {
    GenerateRelicId(form.relicType, form.setName, form.mainStat, ValidSubStats(form.subStats), fmt)
  }

  /** handleAddRelic's checks, in order, and the relic it builds when all pass. */
  function HandleAddRelic(form: Form, store: AppStore, t: Tables, fmt: NumberFormat): Result<Relic, FormError> {
    if MainStatMissingIn(form) then Err(MainStatMissing)
    else
      var valid := ValidSubStats(form.subStats);
      if |valid| < 4 then Err(SubStatsMissing)
      else if HasInvalidValues(form.subStats, t) then Err(SubStatOutOfRange)
      else if !Distinct(AllStatNames(form)) then Err(DuplicateStats)
      else if form.mainStat.name !in LegalMainStats(t, form.relicType) then Err(IllegalMainStat)
      else
        var id := FormRelicId(form, fmt);
        if HasRelicId(store.relics, id) then Err(DuplicateRelic)
        else Ok(Relic(id, form.relicType, form.setName, form.mainStat, valid))
  }

  /** Each rejection happens exactly when its check is the first to fail. */
  lemma HandleAddRelicRejectionOrder(form: Form, store: AppStore, t: Tables, fmt: NumberFormat)
    ensures var r, valid := HandleAddRelic(form, store, t, fmt), ValidSubStats(form.subStats);
            && (r == Err(MainStatMissing) <==> MainStatMissingIn(form))
            && (r == Err(SubStatsMissing) <==> !MainStatMissingIn(form) && |valid| < 4)
            && (r == Err(SubStatOutOfRange) <==>
                  !MainStatMissingIn(form) && |valid| >= 4 && HasInvalidValues(form.subStats, t))
            && (r == Err(DuplicateStats) <==>
                  !MainStatMissingIn(form) && |valid| >= 4 && !HasInvalidValues(form.subStats, t) &&
                  !Distinct(AllStatNames(form)))
            && (r == Err(IllegalMainStat) <==>
                  !MainStatMissingIn(form) && |valid| >= 4 && !HasInvalidValues(form.subStats, t) &&
                  Distinct(AllStatNames(form)) && form.mainStat.name !in LegalMainStats(t, form.relicType))
            && (r == Err(DuplicateRelic) <==>
                  !MainStatMissingIn(form) && |valid| >= 4 && !HasInvalidValues(form.subStats, t) &&
                  Distinct(AllStatNames(form)) && form.mainStat.name in LegalMainStats(t, form.relicType) &&
                  HasRelicId(store.relics, FormRelicId(form, fmt)))
  {
  }

  /** An acceptance means every check passed, and the relic is built from the form. */
  lemma AcceptedChecks(form: Form, store: AppStore, t: Tables, fmt: NumberFormat)
    requires HandleAddRelic(form, store, t, fmt).Ok?
    ensures !MainStatMissingIn(form) && |ValidSubStats(form.subStats)| >= 4
    ensures !HasInvalidValues(form.subStats, t) && Distinct(AllStatNames(form))
    ensures form.mainStat.name in LegalMainStats(t, form.relicType)
    ensures !HasRelicId(store.relics, FormRelicId(form, fmt))
    ensures HandleAddRelic(form, store, t, fmt).value ==
            Relic(FormRelicId(form, fmt), form.relicType, form.setName, form.mainStat, ValidSubStats(form.subStats))
  {
  }

  /** When every check passes the relic built from the form is accepted. */
  lemma ChecksPassAccepted(form: Form, store: AppStore, t: Tables, fmt: NumberFormat)
    requires !MainStatMissingIn(form) && |ValidSubStats(form.subStats)| >= 4
    requires !HasInvalidValues(form.subStats, t) && Distinct(AllStatNames(form))
    requires form.mainStat.name in LegalMainStats(t, form.relicType)
    requires !HasRelicId(store.relics, FormRelicId(form, fmt))
    ensures HandleAddRelic(form, store, t, fmt) ==
            Ok(Relic(FormRelicId(form, fmt), form.relicType, form.setName, form.mainStat, ValidSubStats(form.subStats)))
  {
  }

  /**
   * An accepted relic has a filled main stat legal for its slot, at least four
   * filled in-range substats taken in form order, no repeated stat name, and
   * the deterministic id of its own fields, which no stored relic has.
   */
  lemma AcceptedRelicValid(form: Form, store: AppStore, t: Tables, fmt: NumberFormat)
    requires HandleAddRelic(form, store, t, fmt).Ok?
    ensures var relic := HandleAddRelic(form, store, t, fmt).value;
            && relic.id == GenerateRelicId(relic.relicType, relic.setName, relic.mainStat, relic.subStats, fmt)
            && relic.relicType == form.relicType && relic.setName == form.setName && relic.mainStat == form.mainStat
            && relic.subStats == ValidSubStats(form.subStats)
            && IsSubsequence(relic.subStats, form.subStats)
            && |relic.subStats| >= 4
            && Filled(relic.mainStat) && relic.mainStat.name in LegalMainStats(t, relic.relicType)
            && (forall i :: 0 <= i < |relic.subStats| ==> Filled(relic.subStats[i]) && !OutOfRange(relic.subStats[i], t))
            && (forall i :: 0 <= i < |relic.subStats| ==> relic.subStats[i].name != relic.mainStat.name)
            && DistinctNames(relic.subStats)
            && !HasRelicId(store.relics, relic.id)
  {
    AcceptedChecks(form, store, t, fmt);
    var valid := ValidSubStats(form.subStats);
    ValidSubStatsFacts(form.subStats);
    NamesApart(form);
    forall i | 0 <= i < |valid| ensures Filled(valid[i]) && !OutOfRange(valid[i], t) {
      assert valid[i] in form.subStats;
    }
  }

  /** Distinct stat names: no filled substat repeats the main stat or another filled substat. */
  lemma NamesApart(form: Form)
    requires Distinct(AllStatNames(form))
    ensures var valid := ValidSubStats(form.subStats);
            && (forall i :: 0 <= i < |valid| ==> valid[i].name != form.mainStat.name)
            && DistinctNames(valid)
  {
    var valid := ValidSubStats(form.subStats);
    var names := AllStatNames(form);
    assert names[0] == form.mainStat.name;
    forall i | 0 <= i < |valid| ensures valid[i].name != form.mainStat.name {
      assert names[i + 1] == valid[i].name;
    }
    forall i, j | 0 <= i < j < |valid| ensures valid[i].name != valid[j].name {
      assert names[i + 1] == valid[i].name && names[j + 1] == valid[j].name;
    }
  }

  /** The form after a successful add: cleared stats and the family's first set. */
  function ResetForm(form: Form, t: Tables): Form
    requires if IsOrnamentSlot(form.relicType) then |t.ornamentSets| > 0 else |t.relicSets| > 0
  {
    var setName := if IsOrnamentSlot(form.relicType) then t.ornamentSets[0].internalName else t.relicSets[0].internalName;
    Form(form.relicType, setName, InitialStat, [InitialStat, InitialStat, InitialStat, InitialStat])
  }

  /** The whole click: a rejection changes nothing; an acceptance adds the relic and resets the form. */
  function SubmitRelic(form: Form, store: AppStore, t: Tables, fmt: NumberFormat): (Form, AppStore)
    requires if IsOrnamentSlot(form.relicType) then |t.ornamentSets| > 0 else |t.relicSets| > 0
  {
    match HandleAddRelic(form, store, t, fmt)
    case Err(_) => (form, store)
    case Ok(relic) => (ResetForm(form, t), AddRelic(store, relic))
  }

  /**
   * After a click the store and the form either are unchanged (rejection), or
   * the store has the accepted relic appended at the end, with the characters
   * untouched, and the form keeps its slot, clears the main stat and the four
   * substats, and selects the first set of the slot's family.
   */
  lemma SubmitRelicEffect(form: Form, store: AppStore, t: Tables, fmt: NumberFormat)
    requires if IsOrnamentSlot(form.relicType) then |t.ornamentSets| > 0 else |t.relicSets| > 0
    ensures var (form', store') := SubmitRelic(form, store, t, fmt);
            match HandleAddRelic(form, store, t, fmt)
            case Err(_) => form' == form && store' == store
            case Ok(relic) =>
              && store'.relics == store.relics + [relic] && store'.characters == store.characters
              && form'.relicType == form.relicType
              && form'.mainStat == InitialStat
              && form'.subStats == [InitialStat, InitialStat, InitialStat, InitialStat]
              && form'.setName == (if IsOrnamentSlot(form.relicType) then t.ornamentSets[0].internalName
                                   else t.relicSets[0].internalName)
  {
    var r := HandleAddRelic(form, store, t, fmt);
    if r.Ok? {
      AcceptedRelicValid(form, store, t, fmt);
    }
  }

  /** The substat values of the two submit scenarios exercised for a Hand relic with main stat ATK. */
  function SampleSubStats(speed: real): seq<Stat> {
    [Stat("HP", 100.0), Stat("DEF", 50.0), Stat("Crit Rate%", 10.0), Stat("Speed", speed)]
  }

  /** Every sample substat is filled when the Speed value is positive. */
  lemma SampleFilled(speed: real)
    requires speed > 0.0
    ensures ValidSubStats(SampleSubStats(speed)) == SampleSubStats(speed)
  {
    var subs := SampleSubStats(speed);
    forall i | 0 <= i < 4 ensures Filled(subs[i]) {
      assert !IsSpace(subs[i].name[0]);
    }
    AllFilledKept(subs);
  }

  lemma SampleMainFilled(atk: real)
    requires atk > 0.0
    ensures Filled(Stat("ATK", atk))
  {
    assert !IsSpace("ATK"[0]);
  }

  /** Speed 20 against a Speed range topping out at 15 is an out-of-range rejection, and nothing is added. */
  lemma SpeedTwentyRejected(store: AppStore, atk: real, setName: string, t: Tables, fmt: NumberFormat)
    requires atk > 0.0 && |t.relicSets| > 0
    requires "Speed" in t.subStatRanges && t.subStatRanges["Speed"].max == 15.0
    ensures var form := Form(Hand, setName, Stat("ATK", atk), SampleSubStats(20.0));
            && HandleAddRelic(form, store, t, fmt) == Err(SubStatOutOfRange)
            && SubmitRelic(form, store, t, fmt).1 == store
  {
    var form := Form(Hand, setName, Stat("ATK", atk), SampleSubStats(20.0));
    SampleMainFilled(atk);
    SampleFilled(20.0);
    assert Filled(form.subStats[3]) && OutOfRange(form.subStats[3], t);
  }

  /**
   * The valid scenario, with every sample value inside its range (or its
   * range absent), ATK legal for Hand and no relic stored, is accepted: the
   * added relic is a Hand relic with main stat ATK and the four sample
   * substats in form order (HP 100 first), and it becomes the only stored relic.
   */
  lemma SampleRelicAccepted(store: AppStore, atk: real, setName: string, t: Tables, fmt: NumberFormat)
    requires atk > 0.0 && |t.relicSets| > 0 && store.relics == []
    requires forall i :: 0 <= i < 4 ==> !OutOfRange(SampleSubStats(5.0)[i], t)
    requires "ATK" in LegalMainStats(t, Hand)
    ensures var form := Form(Hand, setName, Stat("ATK", atk), SampleSubStats(5.0));
            var relic := Relic(FormRelicId(form, fmt), Hand, setName, Stat("ATK", atk), SampleSubStats(5.0));
            && HandleAddRelic(form, store, t, fmt) == Ok(relic)
            && SubmitRelic(form, store, t, fmt).1.relics == [relic]
  {
    var form := Form(Hand, setName, Stat("ATK", atk), SampleSubStats(5.0));
    SampleMainFilled(atk);
    SampleFilled(5.0);
    SampleNamesDistinct(form);
    SampleInRange(t);
    ChecksPassAccepted(form, store, t, fmt);
  }

  lemma SampleInRange(t: Tables)
    requires forall i :: 0 <= i < 4 ==> !OutOfRange(SampleSubStats(5.0)[i], t)
    ensures !HasInvalidValues(SampleSubStats(5.0), t)
  {
  }

  lemma SampleNamesDistinct(form: Form)
    requires form.mainStat.name == "ATK" && form.subStats == SampleSubStats(5.0)
    ensures Distinct(AllStatNames(form))
  {
    SampleFilled(5.0);
    var names := AllStatNames(form);
    assert names == ["ATK", "HP", "DEF", "Crit Rate%", "Speed"];
    forall i, j | 0 <= i < j < |names| ensures names[i] != names[j] {
      assert names[i][0] != names[j][0] || |names[i]| != |names[j]|;
    }
  }

  lemma {:induction false} AllFilledKept(subStats: seq<Stat>)
    requires forall i :: 0 <= i < |subStats| ==> Filled(subStats[i])
    ensures ValidSubStats(subStats) == subStats
    decreases |subStats|
  {
    if subStats != [] {
      AllFilledKept(subStats[1..]);
    }
  }

  // ---------------------------------------------------------------------------
  // Substat choices

  /** `all.filter(stat => !used.includes(stat))`. */
  function Unused(all: seq<string>, used: seq<string>): (r: seq<string>)
    ensures IsSubsequence(r, all)
    ensures forall x :: x in r <==> x in all && x !in used
    ensures forall x :: multiset(r)[x] == if x in used then 0 else multiset(all)[x]
    decreases |all|
  {
    if all == [] then []
    else
      var rest := Unused(all[1..], used);
      assert all == [all[0]] + all[1..];
      if all[0] !in used then
        assert ([all[0]] + rest)[1..] == rest;
        [all[0]] + rest
      else rest
  }

  /**
   * getAvailableSubStats: the substat names offered to the slot at
   * currentIndex, i.e. all substats except the main stat and the non-empty
   * names chosen in the other slots, in table order.
   */
  method GetAvailableSubStats(currentIndex: int, mainStat: Stat, subStats: seq<Stat>, allSubStats: seq<string>)
    returns (available: seq<string>)
    ensures IsSubsequence(available, allSubStats)
    ensures forall x :: x in available <==>
              && x in allSubStats
              && x != mainStat.name
              && forall i :: 0 <= i < |subStats| && i != currentIndex && subStats[i].name != "" ==> subStats[i].name != x
  {
    var usedStats := [mainStat.name];
    for index := 0 to |subStats|
      invariant forall x :: x in usedStats <==>
                  x == mainStat.name ||
                  exists j :: 0 <= j < index && j != currentIndex && subStats[j].name != "" && subStats[j].name == x
    {
      if index != currentIndex && subStats[index].name != "" {
        usedStats := usedStats + [subStats[index].name];
      }
    }
    available := Unused(allSubStats, usedStats);
  }

  // ---------------------------------------------------------------------------
  // Main-stat choice

  /** The Stat field a change event names. */
  datatype StatField = NameField | ValueField

  /** `prev.map(stat => stat.name === value ? { ...initialStatState } : stat)`. */
  function ClearNamed(subStats: seq<Stat>, name: string): seq<Stat> {
    seq(|subStats|, i requires 0 <= i < |subStats| => if subStats[i].name == name then InitialStat else subStats[i])
  }

  /**
   * handleMainStatChange: choosing a main-stat name clears the substats with
   * that name and takes the main value from the table; any other field is
   * ignored.
   */
  function HandleMainStatChange(form: Form, field: StatField, value: string, t: Tables): Form {
    if field == NameField then
      form.(subStats := ClearNamed(form.subStats, value), mainStat := Stat(value, GetRelicMainStatValue(value, t)))
    else form
  }

  /**
   * A name change keeps the substat count, clears exactly the substats
   * carrying the new name and keeps the rest, sets the main value to the
   * table value (0 if absent) and leaves slot and set alone; afterwards no
   * filled substat clashes with the main stat.
   */
  lemma MainStatChangeClears(form: Form, value: string, t: Tables)
    ensures var f := HandleMainStatChange(form, NameField, value, t);
            && f.relicType == form.relicType && f.setName == form.setName
            && f.mainStat == Stat(value, if value in t.mainStatValues then t.mainStatValues[value] else 0.0)
            && |f.subStats| == |form.subStats|
            && (forall i :: 0 <= i < |form.subStats| ==>
                  f.subStats[i] == if form.subStats[i].name == value then InitialStat else form.subStats[i])
            && forall s :: s in ValidSubStats(f.subStats) ==> s.name != value
  {
    var f := HandleMainStatChange(form, NameField, value, t);
    ValidSubStatsFacts(f.subStats);
    forall s | s in ValidSubStats(f.subStats) ensures s.name != value {
      var i :| 0 <= i < |f.subStats| && f.subStats[i] == s;
      assert InitialStat.value == 0.0;
    }
  }

  /** A change of the value field leaves the form as it was. */
  lemma MainStatValueChangeIgnored(form: Form, value: string, t: Tables)
    ensures HandleMainStatChange(form, ValueField, value, t) == form
  {
  }
}
