/**
 * Conversion of an exported relic list into the application's relics: slot
 * names, numeric set ids and substat keys are mapped to the application's
 * vocabulary, and each converted relic gets its deterministic id.
 */
module ImportRelic {
  import opened Types
  import opened GameData
  import opened CharacterUtils
  import opened JsText

  // ---------------------------------------------------------------------------
  // Slot names

  /** The export format's name for each slot. */
  function ExportSlotName(t: RelicType): string {
    match t
    case Head => "Head"
    case Hand => "Hands"
    case Chest => "Body"
    case Feet => "Feet"
    case Orb => "Planar Sphere"
    case Rope => "Link Rope"
  }

  /** mapSlotToRelicType: a known export name gives its slot; anything else gives Head. */
  function MapSlotToRelicType(slot: string): (r: RelicType)
    ensures (exists t :: ExportSlotName(t) == slot) ==> ExportSlotName(r) == slot
    ensures (forall t :: ExportSlotName(t) != slot) ==> r == Head
  {
    if slot == "Hands" then Hand
    else if slot == "Body" then Chest
    else if slot == "Feet" then Feet
    else if slot == "Planar Sphere" then Orb
    else if slot == "Link Rope" then Rope
    else Head
  }

  /** Mapping the export name of a slot gives the slot back. */
  lemma MapSlotRoundTrip(t: RelicType)
    ensures MapSlotToRelicType(ExportSlotName(t)) == t
  {
  }

  // ---------------------------------------------------------------------------
  // parseInt(s, 10)

  predicate IsDigit(c: char) {
    '0' <= c <= '9'
  }

  function DigitValue(c: char): nat
    requires IsDigit(c)
  {
    c as int - '0' as int
  }

  /** The longest prefix made of decimal digits. */
  function DigitPrefix(s: string): (r: string)
    ensures |r| <= |s| && r == s[..|r|]
    ensures forall i :: 0 <= i < |r| ==> IsDigit(r[i])
    ensures |r| < |s| ==> !IsDigit(s[|r|])
    decreases |s|
  {
    if s != [] && IsDigit(s[0]) then [s[0]] + DigitPrefix(s[1..]) else []
  }

  /** The value of a digit string, most significant digit first. */
  function DigitsValue(ds: string): nat
    requires forall i :: 0 <= i < |ds| ==> IsDigit(ds[i])
    decreases |ds|
  {
    if ds == [] then 0 else DigitsValue(ds[..|ds| - 1]) * 10 + DigitValue(ds[|ds| - 1])
  }

  /**
   * parseInt(s, 10): leading white space, an optional sign, then the longest
   * run of digits; no digit at all is NaN, modelled as None.
   */
  function ParseInt(s: string): Option<int> {
    var u := TrimStart(s);
    if u != [] && u[0] == '-' then
      match ParseDigits(u[1..])
      case None => None
      case Some(v) => Some(-v)
    else if u != [] && u[0] == '+' then ParseDigits(u[1..])
    else ParseDigits(u)
  }

  /** The value of the leading digits; None when there are none. */
  function ParseDigits(body: string): Option<int> {
    var ds := DigitPrefix(body);
    if ds == [] then None else Some(DigitsValue(ds))
  }

  function DigitChar(d: nat): (c: char)
    requires d < 10
    ensures IsDigit(c) && DigitValue(c) == d
  {
    ('0' as int + d) as char
  }

  /** The decimal text of a natural number, as String(n) prints it. */
  function NatToDecimal(n: nat): (r: string)
    ensures r != [] && forall i :: 0 <= i < |r| ==> IsDigit(r[i])
    decreases n
  {
    if n < 10 then [DigitChar(n)] else NatToDecimal(n / 10) + [DigitChar(n % 10)]
  }

  function IntToDecimal(n: int): string {
    if n < 0 then "-" + NatToDecimal(-n) else NatToDecimal(n)
  }

  lemma {:induction false} DecimalValue(n: nat)
    ensures DigitsValue(NatToDecimal(n)) == n
    decreases n
  {
    if n >= 10 {
      var ds := NatToDecimal(n);
      DecimalValue(n / 10);
      assert ds[..|ds| - 1] == NatToDecimal(n / 10);
      assert (n / 10) * 10 + n % 10 == n;
    }
  }

  lemma {:induction false} DigitPrefixOfDigits(ds: string, rest: string)
    requires forall i :: 0 <= i < |ds| ==> IsDigit(ds[i])
    requires rest == [] || !IsDigit(rest[0])
    ensures DigitPrefix(ds + rest) == ds
    decreases |ds|
  {
    if ds != [] {
      assert (ds + rest)[1..] == ds[1..] + rest;
      DigitPrefixOfDigits(ds[1..], rest);
      assert ds == [ds[0]] + ds[1..];
    }
  }

  lemma ParseDigitsDecimal(m: nat, rest: string)
    requires rest == [] || !IsDigit(rest[0])
    ensures ParseDigits(NatToDecimal(m) + rest) == Some(m)
  {
    DecimalValue(m);
    DigitPrefixOfDigits(NatToDecimal(m), rest);
  }

  lemma TrimStartNoSpace(s: string)
    requires s != [] && (s[0] == '-' || IsDigit(s[0]))
    ensures TrimStart(s) == s
  {
  }

  lemma ParseIntNonNegative(m: nat, rest: string)
    requires rest == [] || !IsDigit(rest[0])
    ensures ParseInt(NatToDecimal(m) + rest) == Some(m)
  {
    ParseDigitsDecimal(m, rest);
    TrimStartNoSpace(NatToDecimal(m) + rest);
  }

  lemma ParseIntMinus(body: string)
    ensures ParseDigits(body).Some? ==> ParseInt("-" + body) == Some(-ParseDigits(body).value)
  {
    var s := "-" + body;
    assert s[0] == '-' && s[1..] == body;
    TrimStartNoSpace(s);
  }

  lemma ParseIntNegative(m: nat, rest: string)
    requires rest == [] || !IsDigit(rest[0])
    ensures ParseInt("-" + (NatToDecimal(m) + rest)) == Some(-(m as int))
  {
    ParseDigitsDecimal(m, rest);
    ParseIntMinus(NatToDecimal(m) + rest);
  }

  /** parseInt reads back the decimal text of any integer, whatever non-digit text follows it. */
  lemma ParseIntDecimal(n: int, rest: string)
    requires rest == [] || !IsDigit(rest[0])
    ensures ParseInt(IntToDecimal(n) + rest) == Some(n)
  {
    if n < 0 {
      ParseIntNegative(-n, rest);
      assert IntToDecimal(n) + rest == "-" + (NatToDecimal(-n) + rest);
    } else {
      ParseIntNonNegative(n, rest);
    }
  }

  // ---------------------------------------------------------------------------
  // Set ids

  /** The first set entry carrying the numeric id. */
  function FindSet(sets: seq<SetEntry>, id: int): (r: Option<nat>)
    ensures r.Some? ==> r.value < |sets| && sets[r.value].setId == id
    ensures r.Some? ==> forall j :: 0 <= j < r.value ==> sets[j].setId != id
    ensures r.None? ==> forall j :: 0 <= j < |sets| ==> sets[j].setId != id
    decreases |sets|
  {
    if sets == [] then None
    else if sets[0].setId == id then Some(0)
    else match FindSet(sets[1..], id)
      case None => None
      case Some(k) => Some(k + 1)
  }

  const UnknownSet: string := "relic_unknown"

  /**
   * mapSetIdToInternalName: the first relic set with the parsed id, else the
   * first ornament set with it, else "relic_unknown" (also when the id does
   * not parse).
   */
  function MapSetIdToInternalName(setId: string, t: Tables): (r: string)
    ensures ParseInt(setId).None? ==> r == UnknownSet
    ensures ParseInt(setId).Some? ==>
              var n := ParseInt(setId).value;
              if exists i :: 0 <= i < |t.relicSets| && t.relicSets[i].setId == n then
                exists i :: 0 <= i < |t.relicSets| && t.relicSets[i].setId == n && r == t.relicSets[i].internalName &&
                  forall j :: 0 <= j < i ==> t.relicSets[j].setId != n
              else if exists i :: 0 <= i < |t.ornamentSets| && t.ornamentSets[i].setId == n then
                exists i :: 0 <= i < |t.ornamentSets| && t.ornamentSets[i].setId == n && r == t.ornamentSets[i].internalName &&
                  forall j :: 0 <= j < i ==> t.ornamentSets[j].setId != n
              else r == UnknownSet
  {
    match ParseInt(setId)
    case None => UnknownSet
    case Some(n) =>
      match FindSet(t.relicSets, n)
      case Some(i) => t.relicSets[i].internalName
      case None =>
        match FindSet(t.ornamentSets, n)
        case Some(i) => t.ornamentSets[i].internalName
        case None => UnknownSet
  }

  // ---------------------------------------------------------------------------
  // Substat keys

  /** `key.replace(/_+$/, '')`. */
  function StripTrailingUnderscores(s: string): (r: string)
    ensures |r| <= |s| && r == s[..|r|]
    ensures r == [] || r[|r| - 1] != '_'
    ensures forall i :: |r| <= i < |s| ==> s[i] == '_'
    decreases |s|
  {
    if s != [] && s[|s| - 1] == '_' then StripTrailingUnderscores(s[..|s| - 1]) else s
  }

  /** The export's substat names that differ from the application's, plus the identical ones. */
  const SubstatKeyMap: map<string, string> := map[
    "HP" := "HP",
    "ATK" := "ATK",
    "DEF" := "DEF",
    "SPD" := "SPD",
    "CRIT Rate" := "Crit Rate%",
    "CRIT DMG" := "Crit DMG%",
    "Effect Hit Rate" := "Effect Hit Rate%",
    "Effect RES" := "Effect RES%",
    "Break Effect" := "Break Effect%"]

  /** cleanSubstatKey: strip trailing underscores, then map the known names. */
  function CleanSubstatKey(key: string): string {
    var cleaned := StripTrailingUnderscores(key);
    if cleaned in SubstatKeyMap then SubstatKeyMap[cleaned] else cleaned
  }

  /** A cleaned key never ends in an underscore and cleaning it again changes nothing. */
  lemma CleanSubstatKeyIdempotent(key: string)
    ensures var c := CleanSubstatKey(key);
            && (c == [] || c[|c| - 1] != '_')
            && CleanSubstatKey(c) == c
  {
    var cleaned := StripTrailingUnderscores(key);
    if cleaned in SubstatKeyMap {
      var v := SubstatKeyMap[cleaned];
      assert v == "HP" || v == "ATK" || v == "DEF" || v == "SPD" || v == "Crit Rate%" || v == "Crit DMG%" ||
             v == "Effect Hit Rate%" || v == "Effect RES%" || v == "Break Effect%";
      assert v[|v| - 1] != '_';
      assert StripTrailingUnderscores(v) == v;
    } else {
      assert StripTrailingUnderscores(cleaned) == cleaned;
    }
  }

  // ---------------------------------------------------------------------------
  // Conversion

  /** One exported substat; a key that is not a string makes the conversion throw. */
  datatype ImportSubstat = ImportSubstat(key: Option<string>, value: real)

  /**
   * One exported relic. An entry without a substats array (including a
   * non-object entry) makes the conversion throw.
   */
  datatype ImportItem = ImportItem(slot: string, setId: string, mainstat: string,
                                   substats: Option<seq<ImportSubstat>>)

  predicate Converts(item: ImportItem) {
    item.substats.Some? && forall k :: 0 <= k < |item.substats.value| ==> item.substats.value[k].key.Some?
  }

  function ConvertSubstats(ss: seq<ImportSubstat>): (r: seq<Stat>)
    requires forall k :: 0 <= k < |ss| ==> ss[k].key.Some?
    ensures |r| == |ss|
    ensures forall k :: 0 <= k < |ss| ==> r[k] == Stat(CleanSubstatKey(ss[k].key.value), ss[k].value)
  {
    seq(|ss|, k requires 0 <= k < |ss| => Stat(CleanSubstatKey(ss[k].key.value), ss[k].value))
  }

  /** The body of the import loop's try block; None where it throws. */
  function ConvertRelic(item: ImportItem, t: Tables, fmt: NumberFormat): Option<Relic> {
    if !Converts(item) then None
    else
      var relicType := MapSlotToRelicType(item.slot);
      var setName := MapSetIdToInternalName(item.setId, t);
      var mainStat := Stat(item.mainstat, GetRelicMainStatValue(item.mainstat, t));
      var subStats := ConvertSubstats(item.substats.value);
      Some(Relic(GenerateRelicId(relicType, setName, mainStat, subStats, fmt), relicType, setName, mainStat, subStats))
  }

  /**
   * A converted relic's id is generateRelicId of its own fields, its main
   * value is the table value (0 if absent), and it has one cleaned substat
   * per exported substat, none of whose names ends in '_'.
   */
  lemma ConvertedRelicWellFormed(item: ImportItem, t: Tables, fmt: NumberFormat)
    ensures ConvertRelic(item, t, fmt).Some? <==> Converts(item)
    ensures ConvertRelic(item, t, fmt).Some? ==>
              var r := ConvertRelic(item, t, fmt).value;
              && r.id == GenerateRelicId(r.relicType, r.setName, r.mainStat, r.subStats, fmt)
              && r.relicType == MapSlotToRelicType(item.slot)
              && r.mainStat.name == item.mainstat
              && r.mainStat.value == (if item.mainstat in t.mainStatValues then t.mainStatValues[item.mainstat] else 0.0)
              && |r.subStats| == |item.substats.value|
              && forall k :: 0 <= k < |r.subStats| ==>
                   && r.subStats[k].value == item.substats.value[k].value
                   && (r.subStats[k].name == [] || r.subStats[k].name[|r.subStats[k].name| - 1] != '_')
  {
    if Converts(item) {
      var r := ConvertRelic(item, t, fmt).value;
      var ss := item.substats.value;
      forall k | 0 <= k < |r.subStats|
        ensures r.subStats[k].name == [] || r.subStats[k].name[|r.subStats[k].name| - 1] != '_'
      {
        CleanSubstatKeyIdempotent(ss[k].key.value);
      }
    }
  }

  /** The present values, in order. */
  function Somes<T>(xs: seq<Option<T>>): seq<T>
    decreases |xs|
  {
    if xs == [] then []
    else Somes(xs[..|xs| - 1]) + (if xs[|xs| - 1].Some? then [xs[|xs| - 1].value] else [])
  }

  /** The positions of the present values, in order. */
  function SomePositions<T>(xs: seq<Option<T>>): seq<nat>
    decreases |xs|
  {
    if xs == [] then []
    else SomePositions(xs[..|xs| - 1]) + (if xs[|xs| - 1].Some? then [|xs| - 1] else [])
  }

  lemma {:induction false} SomePositionsBounded<T>(xs: seq<Option<T>>)
    ensures |Somes(xs)| == |SomePositions(xs)| <= |xs|
    ensures forall k :: 0 <= k < |SomePositions(xs)| ==> SomePositions(xs)[k] < |xs|
    decreases |xs|
  {
    if xs != [] {
      SomePositionsBounded(xs[..|xs| - 1]);
    }
  }

  lemma {:induction false} SomesAt<T>(xs: seq<Option<T>>)
    ensures |Somes(xs)| == |SomePositions(xs)|
    ensures forall k :: 0 <= k < |SomePositions(xs)| ==>
              SomePositions(xs)[k] < |xs| && xs[SomePositions(xs)[k]] == Some(Somes(xs)[k])
    decreases |xs|
  {
    SomePositionsBounded(xs);
    if xs != [] {
      var init := xs[..|xs| - 1];
      SomesAt(init);
      SomePositionsBounded(init);
      var out0, pos0 := Somes(init), SomePositions(init);
      forall k | 0 <= k < |pos0|
        ensures SomePositions(xs)[k] == pos0[k] && Somes(xs)[k] == out0[k] && xs[pos0[k]] == init[pos0[k]]
      {
      }
    }
  }

  lemma {:induction false} SomePositionsIncrease<T>(xs: seq<Option<T>>)
    ensures forall k, m :: 0 <= k < m < |SomePositions(xs)| ==> SomePositions(xs)[k] < SomePositions(xs)[m]
    decreases |xs|
  {
    if xs != [] {
      var init := xs[..|xs| - 1];
      SomePositionsIncrease(init);
      SomePositionsBounded(init);
    }
  }

  lemma {:induction false} SomePositionsComplete<T>(xs: seq<Option<T>>)
    ensures forall i :: 0 <= i < |xs| && xs[i].Some? ==> i in SomePositions(xs)
    decreases |xs|
  {
    if xs != [] {
      var init := xs[..|xs| - 1];
      SomePositionsComplete(init);
      forall i | 0 <= i < |init| ensures init[i] == xs[i] {
      }
    }
  }

  /**
   * Each kept value sits at its listed position; the positions increase and
   * list every present value, so no more values are kept than there are entries.
   */
  lemma SomesCorrespond<T>(xs: seq<Option<T>>)
    ensures var out, pos := Somes(xs), SomePositions(xs);
            && |out| == |pos| <= |xs|
            && (forall k :: 0 <= k < |pos| ==> pos[k] < |xs| && xs[pos[k]] == Some(out[k]))
            && (forall k, m :: 0 <= k < m < |pos| ==> pos[k] < pos[m])
            && (forall i :: 0 <= i < |xs| && xs[i].Some? ==> i in pos)
  {
    SomePositionsBounded(xs);
    SomesAt(xs);
    SomePositionsIncrease(xs);
    SomePositionsComplete(xs);
  }

  /** The outcome of the try block for every entry. */
  function ConvertAll(items: seq<ImportItem>, t: Tables, fmt: NumberFormat): (r: seq<Option<Relic>>)
    ensures |r| == |items| && forall i :: 0 <= i < |items| ==> r[i] == ConvertRelic(items[i], t, fmt)
  {
    seq(|items|, i requires 0 <= i < |items| => ConvertRelic(items[i], t, fmt))
  }

  /**
   * The imported relics are, in input order, the conversions of the entries
   * that do not throw: each is the conversion of an entry at an increasing
   * position, every converting entry is represented, and there are at most
   * as many relics as entries.
   */
  lemma ImportedCorrespond(items: seq<ImportItem>, t: Tables, fmt: NumberFormat)
    ensures var out, pos := Somes(ConvertAll(items, t, fmt)), SomePositions(ConvertAll(items, t, fmt));
            && |out| == |pos| <= |items|
            && (forall k :: 0 <= k < |pos| ==> pos[k] < |items| && ConvertRelic(items[pos[k]], t, fmt) == Some(out[k]))
            && (forall k, m :: 0 <= k < m < |pos| ==> pos[k] < pos[m])
            && (forall i :: 0 <= i < |items| && Converts(items[i]) ==> i in pos)
  {
    SomesCorrespond(ConvertAll(items, t, fmt));
    forall i | 0 <= i < |items| && Converts(items[i])
      ensures ConvertAll(items, t, fmt)[i].Some?
    {
      ConvertedRelicWellFormed(items[i], t, fmt);
    }
  }

  /**
   * importRelicsFromJson: with no relics array the result is empty; otherwise
   * each entry is converted in turn and the entries that throw are skipped.
   */
  method ImportRelicsFromJson(relics: Option<seq<ImportItem>>, t: Tables, fmt: NumberFormat)
    returns (importedRelics: seq<Relic>)
    ensures relics.None? ==> importedRelics == []
    ensures relics.Some? ==> importedRelics == Somes(ConvertAll(relics.value, t, fmt))
  {
    importedRelics := [];
    if relics.None? {
      return;
    }
    var items := relics.value;
    ghost var outcomes := ConvertAll(items, t, fmt);
    var i := 0;
    while i < |items|
      invariant 0 <= i <= |items|
      invariant importedRelics == Somes(outcomes[..i])
    {
      var item := items[i];
      assert outcomes[..i + 1][..i] == outcomes[..i];
      if item.substats.Some? {
        var ss := item.substats.value;
        if forall k :: 0 <= k < |ss| ==> ss[k].key.Some? {
          var relicType := MapSlotToRelicType(item.slot);
          var setName := MapSetIdToInternalName(item.setId, t);
          var mainStat := Stat(item.mainstat, GetRelicMainStatValue(item.mainstat, t));
          var subStats := ConvertSubstats(ss);
          var id := GenerateRelicId(relicType, setName, mainStat, subStats, fmt);
          importedRelics := importedRelics + [Relic(id, relicType, setName, mainStat, subStats)];
        }
      }
      i := i + 1;
    }
    assert outcomes[..i] == outcomes;
  }
}
