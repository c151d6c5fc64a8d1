/**
 * The store's update operations: each builds a new AppStore from the old one
 * (characters and relics are replaced, never edited in place), so each is a
 * function from store to store.
 */
module StoreOps {
  import opened Types
  import opened SeqUtil
  import opened CharacterUtils

  // ---------------------------------------------------------------------------
  // Shared list transformers

  /** `cs.map(c => c.id === id ? f(c) : c)`. */
  function UpdateWhere(cs: seq<Character>, id: string, f: Character -> Character): seq<Character>
    decreases |cs|
  {
    if cs == [] then [] else [if cs[0].id == id then f(cs[0]) else cs[0]] + UpdateWhere(cs[1..], id, f)
  }

  lemma {:induction false} UpdateWherePointwise(cs: seq<Character>, id: string, f: Character -> Character)
    ensures |UpdateWhere(cs, id, f)| == |cs|
    ensures forall i :: 0 <= i < |cs| ==> UpdateWhere(cs, id, f)[i] == if cs[i].id == id then f(cs[i]) else cs[i]
    decreases |cs|
  {
    if cs != [] {
      UpdateWherePointwise(cs[1..], id, f);
    }
  }

  /** The first stored character with the id, as getCharacterByID finds it. */
  function Lookup(cs: seq<Character>, id: string): Option<Character> {
    match FindCharacter(cs, id)
    case None => None
    case Some(k) => Some(cs[k])
  }

  lemma LookupIsGetCharacterByID(store: AppStore, id: string)
    ensures GetCharacterByID(id, store) == Lookup(store.characters, id)
  {
  }

  /** Lists with the same ids position by position give the same lookup index. */
  lemma {:induction false} FindSameIds(a: seq<Character>, b: seq<Character>, id: string)
    requires |a| == |b| && forall i :: 0 <= i < |a| ==> a[i].id == b[i].id
    ensures FindCharacter(a, id) == FindCharacter(b, id)
    decreases |a|
  {
    if a != [] && a[0].id != id {
      FindSameIds(a[1..], b[1..], id);
    }
  }

  lemma {:induction false} FindAppend(cs: seq<Character>, c: Character, id: string)
    ensures FindCharacter(cs + [c], id) ==
            if FindCharacter(cs, id).Some? then FindCharacter(cs, id)
            else if c.id == id then Some(|cs|) else None
    decreases |cs|
  {
    if cs != [] {
      assert (cs + [c])[1..] == cs[1..] + [c];
      FindAppend(cs[1..], c, id);
    }
  }

  /** `cs.filter(c => c.id !== id)`. */
  function RemoveCharacter(cs: seq<Character>, id: string): seq<Character>
    decreases |cs|
  {
    if cs == [] then []
    else if cs[0].id != id then [cs[0]] + RemoveCharacter(cs[1..], id)
    else RemoveCharacter(cs[1..], id)
  }

  /** The filter keeps every copy of a character with another id and no copy of one with the id. */
  lemma {:induction false} RemoveCharacterCounts(cs: seq<Character>, id: string)
    ensures forall x :: multiset(RemoveCharacter(cs, id))[x] == if x.id == id then 0 else multiset(cs)[x]
    decreases |cs|
  {
    if cs != [] {
      RemoveCharacterCounts(cs[1..], id);
      assert cs == [cs[0]] + cs[1..];
    }
  }

  /** The filter keeps, in order and with their multiplicity, exactly the characters with another id. */
  lemma {:induction false} RemoveCharacterFacts(cs: seq<Character>, id: string)
    ensures IsSubsequence(RemoveCharacter(cs, id), cs)
    ensures forall x :: x in RemoveCharacter(cs, id) <==> x in cs && x.id != id
    ensures forall x :: multiset(RemoveCharacter(cs, id))[x] == if x.id == id then 0 else multiset(cs)[x]
    decreases |cs|
  {
    RemoveCharacterCounts(cs, id);
    if cs != [] {
      var rest := RemoveCharacter(cs[1..], id);
      RemoveCharacterFacts(cs[1..], id);
      assert cs == [cs[0]] + cs[1..];
      if cs[0].id != id {
        assert ([cs[0]] + rest)[1..] == rest;
      }
    }
  }

  /** Lookup looks at the head, then the tail. */
  lemma LookupCons(cs: seq<Character>, id: string)
    requires cs != []
    ensures Lookup(cs, id) == if cs[0].id == id then Some(cs[0]) else Lookup(cs[1..], id)
  {
    if cs[0].id != id {
      var k := FindCharacter(cs[1..], id);
      if k.Some? {
        assert cs[k.value + 1] == cs[1..][k.value];
      }
    }
  }

  /** After the filter the id is not found and every other id finds what it found before. */
  lemma {:induction false} LookupRemove(cs: seq<Character>, id: string, other: string)
    ensures Lookup(RemoveCharacter(cs, id), other) == if other == id then None else Lookup(cs, other)
    decreases |cs|
  {
    if cs != [] {
      var rest := RemoveCharacter(cs[1..], id);
      LookupRemove(cs[1..], id, other);
      LookupCons(cs, other);
      if cs[0].id != id {
        assert ([cs[0]] + rest)[1..] == rest;
        LookupCons([cs[0]] + rest, other);
      }
    }
  }

  /** `relics.filter(r => r.id !== id)`. */
  function RemoveRelic(relics: seq<Relic>, id: string): seq<Relic>
    decreases |relics|
  {
    if relics == [] then []
    else if relics[0].id != id then [relics[0]] + RemoveRelic(relics[1..], id)
    else RemoveRelic(relics[1..], id)
  }

  predicate HasRelicId(relics: seq<Relic>, id: string) {
    exists i :: 0 <= i < |relics| && relics[i].id == id
  }

  /** The filter keeps every copy of a relic with another id and no copy of one with the id. */
  lemma {:induction false} RemoveRelicCounts(relics: seq<Relic>, id: string)
    ensures forall x :: multiset(RemoveRelic(relics, id))[x] == if x.id == id then 0 else multiset(relics)[x]
    decreases |relics|
  {
    if relics != [] {
      RemoveRelicCounts(relics[1..], id);
      assert relics == [relics[0]] + relics[1..];
    }
  }

  /** The filter keeps, in order and with their multiplicity, exactly the relics with another id. */
  lemma {:induction false} RemoveRelicFacts(relics: seq<Relic>, id: string)
    ensures IsSubsequence(RemoveRelic(relics, id), relics)
    ensures forall x :: x in RemoveRelic(relics, id) <==> x in relics && x.id != id
    ensures forall x :: multiset(RemoveRelic(relics, id))[x] == if x.id == id then 0 else multiset(relics)[x]
    ensures !HasRelicId(relics, id) ==> RemoveRelic(relics, id) == relics
    decreases |relics|
  {
    RemoveRelicCounts(relics, id);
    if relics != [] {
      var rest := RemoveRelic(relics[1..], id);
      RemoveRelicFacts(relics[1..], id);
      assert relics == [relics[0]] + relics[1..];
      if relics[0].id != id {
        assert ([relics[0]] + rest)[1..] == rest;
      }
      if !HasRelicId(relics, id) {
        assert !HasRelicId(relics[1..], id) by {
          forall i | 0 <= i < |relics[1..]| ensures relics[1..][i].id != id {
            assert relics[1..][i] == relics[i + 1];
          }
        }
      }
    }
  }

  /** `relics.map(r => r.id === relic.id ? relic : r)`. */
  function ReplaceRelic(relics: seq<Relic>, relic: Relic): seq<Relic>
    decreases |relics|
  {
    if relics == [] then []
    else [if relics[0].id == relic.id then relic else relics[0]] + ReplaceRelic(relics[1..], relic)
  }

  // ---------------------------------------------------------------------------
  // Characters

  /** addCharacter: appends without checking for a stored id. */
  function AddCharacter(store: AppStore, character: Character): AppStore {
    store.(characters := store.characters + [character])
  }

  /**
   * After addCharacter a lookup still finds the earlier character with that
   * id if there is one (no dedup), else the new one; other lookups and the
   * relics are unchanged.
   */
  lemma AddCharacterLookup(store: AppStore, character: Character, id: string)
    ensures var r := AddCharacter(store, character);
            && r.relics == store.relics
            && GetCharacterByID(id, r) ==
               if GetCharacterByID(id, store).Some? then GetCharacterByID(id, store)
               else if character.id == id then Some(character) else None
  {
    FindAppend(store.characters, character, id);
    var k := FindCharacter(store.characters, id);
    if k.Some? {
      assert (store.characters + [character])[k.value] == store.characters[k.value];
    }
  }

  /** updateCharacter: every character with the id is replaced by the new one. */
  function UpdateCharacter(store: AppStore, character: Character): AppStore {
    store.(characters := UpdateWhere(store.characters, character.id, _ => character))
  }

  /**
   * updateCharacter keeps the list length, replaces exactly the entries with
   * the character's id, and then the lookup of that id gives the new
   * character when one was stored; other lookups and the relics are unchanged.
   */
  lemma UpdateCharacterFacts(store: AppStore, character: Character, id: string)
    ensures var r := UpdateCharacter(store, character);
            && r.relics == store.relics
            && |r.characters| == |store.characters|
            && (forall i :: 0 <= i < |store.characters| ==>
                  r.characters[i] == if store.characters[i].id == character.id then character else store.characters[i])
            && GetCharacterByID(id, r) ==
               if id == character.id && GetCharacterByID(id, store).Some? then Some(character)
               else GetCharacterByID(id, store)
  {
    var cs := store.characters;
    var r := UpdateCharacter(store, character);
    UpdateWherePointwise(cs, character.id, _ => character);
    FindSameIds(r.characters, cs, id);
  }

  /** Updating twice with the same character is updating once. */
  lemma UpdateCharacterIdempotent(store: AppStore, character: Character)
    ensures UpdateCharacter(UpdateCharacter(store, character), character) == UpdateCharacter(store, character)
  {
    var once := UpdateCharacter(store, character);
    UpdateWherePointwise(store.characters, character.id, _ => character);
    UpdateWherePointwise(once.characters, character.id, _ => character);
  }

  /** deleteCharacter: removes every character with the id; relics are left alone. */
  function DeleteCharacter(store: AppStore, characterId: string): AppStore {
    store.(characters := RemoveCharacter(store.characters, characterId))
  }

  /**
   * After deleteCharacter exactly the characters with another id remain, in
   * their order and multiplicity, and the relics are untouched.
   */
  lemma DeleteCharacterFacts(store: AppStore, characterId: string)
    ensures var r := DeleteCharacter(store, characterId);
            && r.relics == store.relics
            && IsSubsequence(r.characters, store.characters)
            && (forall x :: x in r.characters <==> x in store.characters && x.id != characterId)
            && (forall x :: multiset(r.characters)[x] == if x.id == characterId then 0 else multiset(store.characters)[x])
  {
    RemoveCharacterFacts(store.characters, characterId);
  }

  /** After deleteCharacter its id is not found and every other lookup is unchanged. */
  lemma DeleteCharacterLookup(store: AppStore, characterId: string, other: string)
    ensures GetCharacterByID(other, DeleteCharacter(store, characterId)) ==
            if other == characterId then None else GetCharacterByID(other, store)
  {
    LookupRemove(store.characters, characterId, other);
  }

  // ---------------------------------------------------------------------------
  // Relics

  /** addRelic: appends only when no stored relic has the id. */
  function AddRelic(store: AppStore, relic: Relic): AppStore {
    if HasRelicId(store.relics, relic.id) then store
    else store.(relics := store.relics + [relic])
  }

  /**
   * After addRelic a relic with the id is stored: the store is unchanged when
   * one already was, and otherwise the relic is appended behind the old
   * relics; the characters are unchanged.
   */
  lemma AddRelicFacts(store: AppStore, relic: Relic)
    ensures var r := AddRelic(store, relic);
            && r.characters == store.characters
            && HasRelicId(r.relics, relic.id)
            && (HasRelicId(store.relics, relic.id) ==> r == store)
            && (!HasRelicId(store.relics, relic.id) ==> r.relics == store.relics + [relic])
  {
    if !HasRelicId(store.relics, relic.id) {
      assert AddRelic(store, relic).relics[|store.relics|] == relic;
    }
  }

  lemma AddRelicIdempotent(store: AppStore, relic: Relic)
    ensures AddRelic(AddRelic(store, relic), relic) == AddRelic(store, relic)
  {
    AddRelicFacts(store, relic);
  }

  /** Adding one relic to an empty relic list leaves exactly one. */
  lemma AddRelicToEmpty(characters: seq<Character>, relic: Relic)
    ensures AddRelic(AppStore(characters, []), relic).relics == [relic]
  {
  }

  /** The batch relics whose id is not already stored, in batch order. */
  function NewRelics(stored: seq<Relic>, batch: seq<Relic>): seq<Relic>
    decreases |batch|
  {
    if batch == [] then []
    else if !HasRelicId(stored, batch[0].id) then [batch[0]] + NewRelics(stored, batch[1..])
    else NewRelics(stored, batch[1..])
  }

  /** The batch filter keeps every copy of a batch relic whose id is not stored, and no copy of the others. */
  lemma {:induction false} NewRelicsCounts(stored: seq<Relic>, batch: seq<Relic>)
    ensures forall x :: multiset(NewRelics(stored, batch))[x] == if HasRelicId(stored, x.id) then 0 else multiset(batch)[x]
    decreases |batch|
  {
    if batch != [] {
      NewRelicsCounts(stored, batch[1..]);
      assert batch == [batch[0]] + batch[1..];
    }
  }

  /**
   * The batch filter keeps, in batch order and with their multiplicity (so
   * duplicates within the batch survive), exactly the relics whose id is not stored.
   */
  lemma {:induction false} NewRelicsFacts(stored: seq<Relic>, batch: seq<Relic>)
    ensures IsSubsequence(NewRelics(stored, batch), batch)
    ensures forall x :: x in NewRelics(stored, batch) <==> x in batch && !HasRelicId(stored, x.id)
    ensures forall x :: multiset(NewRelics(stored, batch))[x] == if HasRelicId(stored, x.id) then 0 else multiset(batch)[x]
    decreases |batch|
  {
    NewRelicsCounts(stored, batch);
    if batch != [] {
      var rest := NewRelics(stored, batch[1..]);
      NewRelicsFacts(stored, batch[1..]);
      assert batch == [batch[0]] + batch[1..];
      if !HasRelicId(stored, batch[0].id) {
        assert ([batch[0]] + rest)[1..] == rest;
      }
    }
  }

  /** addRelics: appends the batch's new relics, if there are any. */
  function AddRelics(store: AppStore, relics: seq<Relic>): AppStore {
    var newRelics := NewRelics(store.relics, relics);
    if |newRelics| > 0 then store.(relics := store.relics + newRelics) else store
  }

  /**
   * addRelics appends, in batch order, exactly the batch relics whose id is
   * not already stored (duplicates within the batch included); the
   * characters are unchanged.
   */
  lemma AddRelicsFacts(store: AppStore, relics: seq<Relic>)
    ensures var r := AddRelics(store, relics);
            && r.characters == store.characters
            && r.relics == store.relics + NewRelics(store.relics, relics)
            && IsSubsequence(NewRelics(store.relics, relics), relics)
            && (forall x :: x in NewRelics(store.relics, relics) <==> x in relics && !HasRelicId(store.relics, x.id))
            && (forall x :: multiset(NewRelics(store.relics, relics))[x] ==
                             if HasRelicId(store.relics, x.id) then 0 else multiset(relics)[x])
  {
    NewRelicsFacts(store.relics, relics);
    if |NewRelics(store.relics, relics)| == 0 {
      assert store.relics + [] == store.relics;
    }
  }

  /** A batch of one relic is addRelic. */
  lemma AddRelicsSingle(store: AppStore, relic: Relic)
    ensures AddRelics(store, [relic]) == AddRelic(store, relic)
  {
    assert [relic][1..] == [];
    assert NewRelics(store.relics, []) == [];
    assert NewRelics(store.relics, [relic]) == if HasRelicId(store.relics, relic.id) then [] else [relic];
  }

  /** Two copies of a new relic in one batch are both kept. */
  lemma AddRelicsKeepsBatchDuplicates(store: AppStore, relic: Relic)
    requires !HasRelicId(store.relics, relic.id)
    ensures AddRelics(store, [relic, relic]).relics == store.relics + [relic, relic]
  {
    assert [relic, relic][1..] == [relic];
    assert [relic][1..] == [];
    assert NewRelics(store.relics, []) == [];
    assert NewRelics(store.relics, [relic]) == [relic];
    assert NewRelics(store.relics, [relic, relic]) == [relic, relic];
  }

  /** updateRelic: every relic with the id is replaced by the new one. */
  function UpdateRelic(store: AppStore, relic: Relic): AppStore {
    store.(relics := ReplaceRelic(store.relics, relic))
  }

  lemma {:induction false} ReplaceRelicPointwise(relics: seq<Relic>, relic: Relic)
    ensures |ReplaceRelic(relics, relic)| == |relics|
    ensures forall i :: 0 <= i < |relics| ==> ReplaceRelic(relics, relic)[i] == if relics[i].id == relic.id then relic else relics[i]
    decreases |relics|
  {
    if relics != [] {
      ReplaceRelicPointwise(relics[1..], relic);
    }
  }

  /**
   * updateRelic keeps the length and every position's id, replaces exactly
   * the entries with the relic's id, and leaves the characters unchanged.
   */
  lemma UpdateRelicFacts(store: AppStore, relic: Relic)
    ensures var r := UpdateRelic(store, relic);
            && r.characters == store.characters
            && |r.relics| == |store.relics|
            && forall i :: 0 <= i < |store.relics| ==>
                 && r.relics[i].id == store.relics[i].id
                 && r.relics[i] == if store.relics[i].id == relic.id then relic else store.relics[i]
  {
    ReplaceRelicPointwise(store.relics, relic);
  }

  /** The slot map without the entries naming the relic. */
  function WithoutRelic(equipped: map<RelicType, string>, relicId: string): (m: map<RelicType, string>)
    ensures forall slot :: slot in m <==> slot in equipped && equipped[slot] != relicId
    ensures forall slot :: slot in m ==> m[slot] == equipped[slot]
  {
    map slot | slot in equipped && equipped[slot] != relicId :: equipped[slot]
  }

  /** Every character with its slots naming the relic cleared. */
  function ClearRelic(cs: seq<Character>, relicId: string): (r: seq<Character>)
    ensures |r| == |cs|
    ensures forall i :: 0 <= i < |cs| ==> r[i] == cs[i].(equippedRelics := WithoutRelic(cs[i].equippedRelics, relicId))
  {
    seq(|cs|, i requires 0 <= i < |cs| => cs[i].(equippedRelics := WithoutRelic(cs[i].equippedRelics, relicId)))
  }

  /** deleteRelic: unequips the relic from every character, then removes it. */
  function DeleteRelic(store: AppStore, relicId: string): AppStore {
    AppStore(ClearRelic(store.characters, relicId), RemoveRelic(store.relics, relicId))
  }

  /**
   * After deleteRelic no relic has the id and no character's slot names it;
   * the other relics keep their order and multiplicity; every other slot mapping and every
   * other character field is unchanged.
   */
  lemma DeleteRelicFacts(store: AppStore, relicId: string)
    ensures var r := DeleteRelic(store, relicId);
            && !HasRelicId(r.relics, relicId)
            && IsSubsequence(r.relics, store.relics)
            && (forall x :: x in r.relics <==> x in store.relics && x.id != relicId)
            && (forall x :: multiset(r.relics)[x] == if x.id == relicId then 0 else multiset(store.relics)[x])
            && |r.characters| == |store.characters|
            && forall i :: 0 <= i < |store.characters| ==>
                 && r.characters[i] == store.characters[i].(equippedRelics := r.characters[i].equippedRelics)
                 && (forall slot :: slot in r.characters[i].equippedRelics <==>
                       slot in store.characters[i].equippedRelics && store.characters[i].equippedRelics[slot] != relicId)
                 && (forall slot :: slot in r.characters[i].equippedRelics ==>
                       r.characters[i].equippedRelics[slot] == store.characters[i].equippedRelics[slot])
  {
    var r := DeleteRelic(store, relicId);
    RemoveRelicFacts(store.relics, relicId);
    forall i | 0 <= i < |r.relics| ensures r.relics[i].id != relicId {
      assert r.relics[i] in r.relics;
    }
  }

  /** Deleting a relic just added, which no character had equipped, restores the store. */
  lemma DeleteUndoesAdd(store: AppStore, relic: Relic)
    requires !HasRelicId(store.relics, relic.id)
    requires forall i, slot :: 0 <= i < |store.characters| && slot in store.characters[i].equippedRelics ==>
               store.characters[i].equippedRelics[slot] != relic.id
    ensures DeleteRelic(AddRelic(store, relic), relic.id) == store
  {
    var added := AddRelic(store, relic);
    var r := DeleteRelic(added, relic.id);
    RemoveRelicFacts(store.relics, relic.id);
    assert RemoveRelic(store.relics + [relic], relic.id) == store.relics by {
      RemoveAppend(store.relics, relic, relic.id);
    }
    forall i | 0 <= i < |store.characters|
      ensures r.characters[i] == store.characters[i]
    {
      assert WithoutRelic(store.characters[i].equippedRelics, relic.id) == store.characters[i].equippedRelics;
    }
  }

  lemma {:induction false} RemoveAppend(relics: seq<Relic>, x: Relic, id: string)
    ensures RemoveRelic(relics + [x], id) == RemoveRelic(relics, id) + (if x.id != id then [x] else [])
    decreases |relics|
  {
    if relics == [] {
      assert [] + [x] == [x];
    } else {
      assert (relics + [x])[1..] == relics[1..] + [x];
      RemoveAppend(relics[1..], x, id);
    }
  }

  // ---------------------------------------------------------------------------
  // Equipping

  function Equipped(c: Character, relicId: string, slot: RelicType): Character {
    c.(equippedRelics := c.equippedRelics[slot := relicId])
  }

  function Unequipped(c: Character, slot: RelicType): Character {
    c.(equippedRelics := c.equippedRelics - {slot})
  }

  /** equipRelic: the target character's slot now names the relic. */
  function EquipRelic(store: AppStore, characterId: string, relicId: string, slot: RelicType): AppStore {
    store.(characters := UpdateWhere(store.characters, characterId,
                                     (c: Character) => Equipped(c, relicId, slot)))
  }

  /** unequipRelic: the target character's slot is cleared. */
  function UnequipRelic(store: AppStore, characterId: string, slot: RelicType): AppStore {
    store.(characters := UpdateWhere(store.characters, characterId,
                                     (c: Character) => Unequipped(c, slot)))
  }

  /**
   * equipRelic sets only the slot of the characters with the id; every other
   * slot, every other character and the relics are unchanged.
   */
  lemma EquipRelicFacts(store: AppStore, characterId: string, relicId: string, slot: RelicType)
    ensures var r := EquipRelic(store, characterId, relicId, slot);
            && r.relics == store.relics
            && |r.characters| == |store.characters|
            && forall i :: 0 <= i < |store.characters| ==>
                 var before, after := store.characters[i], r.characters[i];
                 if before.id == characterId then
                   && after == before.(equippedRelics := after.equippedRelics)
                   && slot in after.equippedRelics && after.equippedRelics[slot] == relicId
                   && (forall s :: s != slot ==> (s in after.equippedRelics <==> s in before.equippedRelics))
                   && (forall s :: s != slot && s in before.equippedRelics ==> after.equippedRelics[s] == before.equippedRelics[s])
                 else after == before
  {
    UpdateWherePointwise(store.characters, characterId, (c: Character) => Equipped(c, relicId, slot));
  }

  /**
   * unequipRelic removes only that slot of the characters with the id; every
   * other slot, every other character and the relics are unchanged.
   */
  lemma UnequipRelicFacts(store: AppStore, characterId: string, slot: RelicType)
    ensures var r := UnequipRelic(store, characterId, slot);
            && r.relics == store.relics
            && |r.characters| == |store.characters|
            && forall i :: 0 <= i < |store.characters| ==>
                 var before, after := store.characters[i], r.characters[i];
                 if before.id == characterId then
                   && after == before.(equippedRelics := after.equippedRelics)
                   && slot !in after.equippedRelics
                   && (forall s :: s != slot ==> (s in after.equippedRelics <==> s in before.equippedRelics))
                   && (forall s :: s != slot && s in before.equippedRelics ==> after.equippedRelics[s] == before.equippedRelics[s])
                 else after == before
  {
    UpdateWherePointwise(store.characters, characterId, (c: Character) => Unequipped(c, slot));
  }

  /** Unequipping a slot right after equipping it is the same as only unequipping it. */
  lemma UnequipUndoesEquip(store: AppStore, characterId: string, relicId: string, slot: RelicType)
    ensures UnequipRelic(EquipRelic(store, characterId, relicId, slot), characterId, slot) ==
            UnequipRelic(store, characterId, slot)
  {
    UnequipAfterEquip(store.characters, characterId, relicId, slot);
  }

  lemma {:induction false} UnequipAfterEquip(cs: seq<Character>, characterId: string, relicId: string, slot: RelicType)
    ensures UpdateWhere(UpdateWhere(cs, characterId, (c: Character) => Equipped(c, relicId, slot)),
                        characterId, (c: Character) => Unequipped(c, slot)) ==
            UpdateWhere(cs, characterId, (c: Character) => Unequipped(c, slot))
    decreases |cs|
  {
    if cs != [] {
      var c := cs[0];
      UnequipAfterEquip(cs[1..], characterId, relicId, slot);
      assert c.equippedRelics[slot := relicId] - {slot} == c.equippedRelics - {slot};
      var once := UpdateWhere(cs, characterId, (c: Character) => Equipped(c, relicId, slot));
      assert once[1..] == UpdateWhere(cs[1..], characterId, (c: Character) => Equipped(c, relicId, slot));
      assert once[0].id == c.id;
    }
  }

  // ---------------------------------------------------------------------------
  // Referential integrity

  /** Every equipped slot names a stored relic. */
  predicate EquipsResolve(store: AppStore) {
    forall i, slot :: 0 <= i < |store.characters| && slot in store.characters[i].equippedRelics ==>
      HasRelicId(store.relics, store.characters[i].equippedRelics[slot])
  }

  /** deleteRelic clears the slots naming the deleted relic, so equipped slots keep resolving. */
  lemma DeleteRelicKeepsEquipsResolve(store: AppStore, relicId: string)
    requires EquipsResolve(store)
    ensures EquipsResolve(DeleteRelic(store, relicId))
  {
    var r := DeleteRelic(store, relicId);
    RemoveRelicFacts(store.relics, relicId);
    forall i, slot | 0 <= i < |r.characters| && slot in r.characters[i].equippedRelics
      ensures HasRelicId(r.relics, r.characters[i].equippedRelics[slot])
    {
      var id := r.characters[i].equippedRelics[slot];
      var k :| 0 <= k < |store.relics| && store.relics[k].id == id;
      assert store.relics[k] in r.relics;
      var j :| 0 <= j < |r.relics| && r.relics[j] == store.relics[k];
    }
  }

  /** Equipping a stored relic, or unequipping, keeps equipped slots resolving. */
  lemma EquipKeepsEquipsResolve(store: AppStore, characterId: string, relicId: string, slot: RelicType)
    requires EquipsResolve(store)
    ensures HasRelicId(store.relics, relicId) ==> EquipsResolve(EquipRelic(store, characterId, relicId, slot))
    ensures EquipsResolve(UnequipRelic(store, characterId, slot))
  {
    EquipRelicFacts(store, characterId, relicId, slot);
    UnequipRelicFacts(store, characterId, slot);
  }

  /** Adding relics keeps equipped slots resolving. */
  lemma AddRelicsKeepEquipsResolve(store: AppStore, relic: Relic, relics: seq<Relic>)
    requires EquipsResolve(store)
    ensures EquipsResolve(AddRelic(store, relic))
    ensures EquipsResolve(AddRelics(store, relics))
  {
    AddRelicsFacts(store, relics);
    var a := AddRelic(store, relic);
    var b := AddRelics(store, relics);
    forall i, slot | 0 <= i < |store.characters| && slot in store.characters[i].equippedRelics
      ensures HasRelicId(a.relics, store.characters[i].equippedRelics[slot])
      ensures HasRelicId(b.relics, store.characters[i].equippedRelics[slot])
    {
      var k :| 0 <= k < |store.relics| && store.relics[k].id == store.characters[i].equippedRelics[slot];
      assert a.relics[k] == store.relics[k];
      assert b.relics[k] == store.relics[k];
    }
  }
}
