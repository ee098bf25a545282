/**
 * EqdpCache: the EQDP overlay of one collection. It keeps one slot per
 * EQDP file the game has (CharacterUtilityData.EqdpIndices), each slot
 * holding an expanded file created the first time a manipulation targets
 * it, and the list of active manipulations.
 *
 * EqdpManipulation, ExpandedEqdpFile, CharacterUtilityData and
 * CharacterUtility are not part of this model's source. A manipulation is
 * taken as its identifier (set id, equipment slot, gender, race) plus the
 * entry it writes; equality is on the identifier. A file is an expanded
 * table keyed by set id and equipment slot over the game's table for one
 * GenderRace and accessory flag. The lookup tables are passed in as an
 * `EqdpData` value.
 */
module EqdpCaches {
  import opened Wrappers
  import opened GameData
  import opened MetaTables

  /** The position of one entry inside an EQDP file: the set id and the equipment slot whose bits it holds. */
  datatype EqdpKey = EqdpKey(setId: u16, slot: u8)

  /** An EQDP entry, taken as an opaque value. */
  datatype EqdpEntry = EqdpEntry(bits: int)

  /** What EqdpManipulation.Equals compares: everything but the entry. */
  datatype EqdpIdentifier = EqdpIdentifier(setId: u16, slot: u8, gender: Gender, race: ModelRace)

  datatype EqdpManipulation = EqdpManipulation(identifier: EqdpIdentifier, entry: EqdpEntry)
  {
    function Key(): EqdpKey { EqdpKey(identifier.setId, identifier.slot) }

    /** A manipulation with the same identifier and another entry (the `new EqdpManipulation(def, ...)` of RevertMod). */
    function Copy(e: EqdpEntry): (m: EqdpManipulation)
      ensures m.identifier == identifier && m.entry == e
    {
      EqdpManipulation(identifier, e)
    }
  }

  /**
   * The game-side tables EqdpCache depends on:
   * Names.CombinedRace (`races`), CharacterUtilityData.EqdpIndices
   * (`indices`), CharacterUtilityData.EqdpIdx (`eqdpIdx`),
   * EquipSlot.IsAccessory (`isAccessory`), the InternalIndex an
   * ExpandedEqdpFile records for its MetaIndex (`internalIndex`),
   * CharacterUtility.RelevantIndices (`relevant`) and the unmodified game
   * files behind ExpandedEqdpFile.GetDefault (`game`).
   */
  datatype EqdpData = EqdpData(
    races: RaceTable,
    indices: seq<int>,
    eqdpIdx: (GenderRace, bool) -> int,
    isAccessory: u8 -> bool,
    internalIndex: int -> int,
    relevant: int -> int,
    game: (GenderRace, bool) -> GameTable<EqdpKey, EqdpEntry>)
  {
    function GenderRaceOf(m: EqdpManipulation): GenderRace
    {
      races.CombinedRace(m.identifier.gender, m.identifier.race)
    }

    function AccessoryOf(m: EqdpManipulation): bool
    {
      isAccessory(m.identifier.slot)
    }

    /** EqdpManipulation.FileIndex: the MetaIndex of the file for the manipulation's GenderRace and slot kind. */
    function FileIndex(m: EqdpManipulation): int
    {
      eqdpIdx(GenderRaceOf(m), AccessoryOf(m))
    }

    /** ExpandedEqdpFile.GetDefault: the game's entry for the manipulation's key. */
    function Default(m: EqdpManipulation): EqdpEntry
    {
      game(GenderRaceOf(m), AccessoryOf(m)).Default(m.Key())
    }

    /** RelevantIndices maps every file's InternalIndex back to the MetaIndex it was made for. */
    ghost predicate RelevantRoundTrips()
    {
      forall x :: relevant(internalIndex(x)) == x
    }
  }

  /** An ExpandedEqdpFile: the GenderRace and accessory flag it was created for, and its entries. */
  datatype ExpandedEqdpFile = ExpandedEqdpFile(genderRace: GenderRace, accessory: bool, table: ExpandedTable<EqdpKey, EqdpEntry>)

  /** `new ExpandedEqdpFile(genderRace, accessory)`: a fresh copy of the game's file. */
  function NewFile(data: EqdpData, genderRace: GenderRace, accessory: bool): (f: ExpandedEqdpFile)
    ensures f.genderRace == genderRace && f.accessory == accessory && f.table.game == data.game(genderRace, accessory)
    ensures forall k :: f.table.Read(k) == data.game(genderRace, accessory).Default(k)
  {
    ExpandedEqdpFile(genderRace, accessory, Expand(data.game(genderRace, accessory)))
  }

  /** ExpandedEqdpFile.Index: the InternalIndex of the file's MetaIndex. */
  function FileInternalIndex(data: EqdpData, f: ExpandedEqdpFile): int
  {
    data.internalIndex(data.eqdpIdx(f.genderRace, f.accessory))
  }

  /** EqdpManipulation.Apply: writes the entry at the manipulation's key and reports whether the file changed. */
  function ApplyTo(m: EqdpManipulation, f: ExpandedEqdpFile): (r: (ExpandedEqdpFile, bool))
    ensures r.0.genderRace == f.genderRace && r.0.accessory == f.accessory && r.0.table.game == f.table.game
    ensures r.0.table.Read(m.Key()) == m.entry
    ensures forall k :: k != m.Key() ==> r.0.table.Read(k) == f.table.Read(k)
    ensures r.1 <==> f.table.Read(m.Key()) != m.entry
  {
    var (t, changed) := f.table.Write(m.Key(), m.entry);
    (ExpandedEqdpFile(f.genderRace, f.accessory, t), changed)
  }

  /** Array.IndexOf: the first position holding x, or -1. */
  function IndexOf(s: seq<int>, x: int): (i: int)
    ensures -1 <= i < |s|
    ensures i >= 0 ==> s[i] == x && forall j :: 0 <= j < i ==> s[j] != x
    ensures i < 0 <==> x !in s
  {
    if |s| == 0 then -1
    else if s[0] == x then 0
    else
      var k := IndexOf(s[1..], x);
      assert k < 0 ==> forall j :: 1 <= j < |s| ==> s[j] == s[1..][j - 1];
      if k < 0 then -1 else k + 1
  }

  /** The slot a manipulation's file lives in, or -1 when its MetaIndex is not among EqdpIndices. */
  function SlotOf(data: EqdpData, m: EqdpManipulation): (i: int)
    ensures -1 <= i < |data.indices|
    ensures i >= 0 ==> data.indices[i] == data.FileIndex(m)
    ensures i < 0 <==> data.FileIndex(m) !in data.indices
  {
    IndexOf(data.indices, data.FileIndex(m))
  }

  /** List.IndexOf with EqdpManipulation.Equals: the first position of an equal manipulation, or -1. */
  function FindEqual(list: seq<EqdpManipulation>, m: EqdpManipulation): (i: int)
    ensures -1 <= i < |list|
    ensures i >= 0 ==> list[i].identifier == m.identifier
    ensures i >= 0 ==> forall j :: 0 <= j < i ==> list[j].identifier != m.identifier
    ensures i < 0 ==> forall j :: 0 <= j < |list| ==> list[j].identifier != m.identifier
  {
    if |list| == 0 then -1
    else if list[0].identifier == m.identifier then 0
    else
      var k := FindEqual(list[1..], m);
      if k < 0 then -1 else k + 1
  }

  /** AddOrReplace: an equal manipulation is overwritten in place, otherwise the new one is appended. */
  function AddOrReplace(list: seq<EqdpManipulation>, m: EqdpManipulation): seq<EqdpManipulation>
  {
    var i := FindEqual(list, m);
    if i < 0 then list + [m] else list[i := m]
  }

  /** List.Remove with EqdpManipulation.Equals: drops the first equal manipulation and reports whether there was one. */
  function Remove(list: seq<EqdpManipulation>, m: EqdpManipulation): (r: (seq<EqdpManipulation>, bool))
  {
    var i := FindEqual(list, m);
    if i < 0 then (list, false) else (list[..i] + list[i + 1..], true)
  }

  /** No two manipulations of the list are equal. */
  ghost predicate Distinct(list: seq<EqdpManipulation>)
  {
    forall i, j :: 0 <= i < j < |list| ==> list[i].identifier != list[j].identifier
  }

  /** The file in slot i is the one for EqdpIndices[i], over the game's table for its GenderRace and accessory flag. */
  ghost predicate SlotFits(data: EqdpData, i: int, f: ExpandedEqdpFile)
    requires 0 <= i < |data.indices|
  {
    data.eqdpIdx(f.genderRace, f.accessory) == data.indices[i] && f.table.game == data.game(f.genderRace, f.accessory)
  }

  /** Every listed manipulation whose MetaIndex has a slot finds a file there. */
  ghost predicate ListServed(data: EqdpData, list: seq<EqdpManipulation>, slots: seq<Option<ExpandedEqdpFile>>)
    requires |slots| == |data.indices|
  {
    forall j :: 0 <= j < |list| && SlotOf(data, list[j]) >= 0 ==> slots[SlotOf(data, list[j])].Some?
  }

  /** The cache invariant: the slot array has its fixed length, the list has no duplicates, files sit in their slots. */
  ghost predicate Inv(data: EqdpData, list: seq<EqdpManipulation>, slots: seq<Option<ExpandedEqdpFile>>)
  {
    && |slots| == |data.indices|
    && Distinct(list)
    && ListServed(data, list, slots)
    && (forall i :: 0 <= i < |slots| && slots[i].Some? ==> SlotFits(data, i, slots[i].value))
  }

  /** The outcome of one operation: the new list, the new slots and the returned value. */
  datatype Step<R> = Step(list: seq<EqdpManipulation>, slots: seq<Option<ExpandedEqdpFile>>, result: R)

  /**
   * ApplyMod, on values. The list is updated first; a MetaIndex that is not
   * among EqdpIndices then indexes the array at -1 and throws.
   */
  function ApplySpec(data: EqdpData, list: seq<EqdpManipulation>, slots: seq<Option<ExpandedEqdpFile>>, m: EqdpManipulation): (r: Step<Completion<bool>>)
    requires |slots| == |data.indices|
    ensures |r.slots| == |slots|
  {
    var list2 := AddOrReplace(list, m);
    var i := SlotOf(data, m);
    if i < 0 then Step(list2, slots, Thrown)
    else
      var file := if slots[i].Some? then slots[i].value else NewFile(data, data.GenderRaceOf(m), data.AccessoryOf(m));
      var (written, changed) := ApplyTo(m, file);
      Step(list2, slots[i := Some(written)], Returned(changed))
  }

  /**
   * RevertMod, on values. A missing slot throws (index -1), and so would an
   * empty slot (the null file), which the invariant rules out.
   */
  function RevertSpec(data: EqdpData, list: seq<EqdpManipulation>, slots: seq<Option<ExpandedEqdpFile>>, m: EqdpManipulation): (r: Step<Completion<bool>>)
    requires |slots| == |data.indices|
    ensures |r.slots| == |slots|
  {
    var (list2, removed) := Remove(list, m);
    if !removed then Step(list, slots, Returned(false))
    else
      var i := SlotOf(data, m);
      if i < 0 || slots[i].None? then Step(list2, slots, Thrown)
      else
        var (written, changed) := ApplyTo(m.Copy(data.Default(m)), slots[i].value);
        Step(list2, slots[i := Some(written)], Returned(changed))
  }

  /** The set ids of the listed manipulations whose file index is `index`. */
  function SetIdsFor(data: EqdpData, list: seq<EqdpManipulation>, index: int): set<u16>
  {
    set j | 0 <= j < |list| && data.FileIndex(list[j]) == index :: list[j].identifier.setId
  }

  /** ExpandedEqdpFile.Reset(setIds) as Reset calls it for one file. */
  function ResetFile(data: EqdpData, list: seq<EqdpManipulation>, f: ExpandedEqdpFile): (g: ExpandedEqdpFile)
    ensures g.genderRace == f.genderRace && g.accessory == f.accessory && g.table.game == f.table.game
  {
    var ids := SetIdsFor(data, list, data.relevant(FileInternalIndex(data, f)));
    ExpandedEqdpFile(f.genderRace, f.accessory, f.table.ResetWhere((k: EqdpKey) => k.setId in ids))
  }

  function ResetSlot(data: EqdpData, list: seq<EqdpManipulation>, slot: Option<ExpandedEqdpFile>): Option<ExpandedEqdpFile>
  {
    if slot.Some? then Some(ResetFile(data, list, slot.value)) else None
  }

  /** Reset, on values: every live file is reset, the list is cleared. */
  function ResetSlots(data: EqdpData, list: seq<EqdpManipulation>, slots: seq<Option<ExpandedEqdpFile>>): (r: seq<Option<ExpandedEqdpFile>>)
    ensures |r| == |slots|
  {
    seq(|slots|, i requires 0 <= i < |slots| => ResetSlot(data, list, slots[i]))
  }

  /** AddOrReplace leaves the new manipulation in the list, keeps every unequal one and adds nothing else. */
  lemma AddOrReplaceContents(list: seq<EqdpManipulation>, m: EqdpManipulation)
    ensures var r := AddOrReplace(list, m);
            && m in r
            && |r| == |list| + (if exists j :: 0 <= j < |list| && list[j].identifier == m.identifier then 0 else 1)
            && (forall x :: x in list && x.identifier != m.identifier ==> x in r)
            && (forall y :: y in r ==> y == m || y in list)
  {
    var i := FindEqual(list, m);
    var r := AddOrReplace(list, m);
    if i < 0 {
      assert r[|list|] == m;
    } else {
      assert r[i] == m;
      forall x | x in list && x.identifier != m.identifier ensures x in r {
        var k :| 0 <= k < |list| && list[k] == x;
        assert r[k] == x;
      }
    }
  }

  /** AddOrReplace never puts a second equal manipulation in a list without one. */
  lemma AddOrReplaceKeepsDistinct(list: seq<EqdpManipulation>, m: EqdpManipulation)
    requires Distinct(list)
    ensures Distinct(AddOrReplace(list, m))
  {
    var i := FindEqual(list, m);
    var r := AddOrReplace(list, m);
    forall a, b | 0 <= a < b < |r| ensures r[a].identifier != r[b].identifier {
      if i < 0 {
        if b == |list| {
          assert r[a] == list[a];
        } else {
          assert r[a] == list[a] && r[b] == list[b];
        }
      } else {
        if a != i && b != i {
          assert r[a] == list[a] && r[b] == list[b];
        } else {
          assert r[a].identifier == list[a].identifier && r[b].identifier == list[b].identifier;
        }
      }
    }
  }

  /** Remove drops exactly the one equal manipulation of a list without duplicates, and reports false when there is none. */
  lemma RemoveContents(list: seq<EqdpManipulation>, m: EqdpManipulation)
    requires Distinct(list)
    ensures var (r, removed) := Remove(list, m);
            && (removed <==> exists j :: 0 <= j < |list| && list[j].identifier == m.identifier)
            && (!removed ==> r == list)
            && (removed ==> |r| == |list| - 1)
            && (forall j :: 0 <= j < |r| ==> r[j].identifier != m.identifier)
            && (forall x :: x in list && x.identifier != m.identifier <==> x in r)
            && Distinct(r)
  {
    var i := FindEqual(list, m);
    var (r, removed) := Remove(list, m);
    if i >= 0 {
      assert forall j :: 0 <= j < |r| ==> r[j] == if j < i then list[j] else list[j + 1];
      forall x | x in list && x.identifier != m.identifier ensures x in r {
        var k :| 0 <= k < |list| && list[k] == x;
        if k < i { assert r[k] == x; } else { assert r[k - 1] == x; }
      }
    }
  }

  /** ApplyMod keeps the invariant, including when it throws. */
  lemma ApplyKeepsInv(data: EqdpData, list: seq<EqdpManipulation>, slots: seq<Option<ExpandedEqdpFile>>, m: EqdpManipulation)
    requires Inv(data, list, slots)
    ensures var r := ApplySpec(data, list, slots, m); Inv(data, r.list, r.slots)
  {
    var r := ApplySpec(data, list, slots, m);
    AddOrReplaceKeepsDistinct(list, m);
    AddOrReplaceContents(list, m);
    var i := SlotOf(data, m);
    forall j | 0 <= j < |r.list| && SlotOf(data, r.list[j]) >= 0 ensures r.slots[SlotOf(data, r.list[j])].Some? {
      var y := r.list[j];
      assert y in r.list;
      if y != m {
        var k :| 0 <= k < |list| && list[k] == y;
      }
    }
  }

  /**
   * ApplyMod never holds two equal manipulations. When the manipulation's
   * MetaIndex has a slot, the slot's file (the one already there, or a new
   * one for the manipulation's GenderRace) holds the manipulation's entry,
   * the result says whether it changed, and no other slot changes;
   * otherwise the call throws after the list update.
   */
  lemma ApplyWritesSlot(data: EqdpData, list: seq<EqdpManipulation>, slots: seq<Option<ExpandedEqdpFile>>, m: EqdpManipulation)
    requires Inv(data, list, slots)
    ensures var r := ApplySpec(data, list, slots, m);
            var i := SlotOf(data, m);
            && Distinct(r.list) && m in r.list
            && (i < 0 <==> r.result == Thrown)
            && (i < 0 ==> r.slots == slots)
            && (i >= 0 ==>
                  && r.slots[i].Some?
                  && r.slots[i].value.table.Read(m.Key()) == m.entry
                  && (slots[i].Some? ==>
                        && r.slots[i].value.genderRace == slots[i].value.genderRace
                        && r.slots[i].value.accessory == slots[i].value.accessory
                        && (forall k :: k != m.Key() ==> r.slots[i].value.table.Read(k) == slots[i].value.table.Read(k))
                        && r.result == Returned(slots[i].value.table.Read(m.Key()) != m.entry))
                  && (slots[i].None? ==>
                        && r.slots[i].value.genderRace == data.GenderRaceOf(m)
                        && r.slots[i].value.accessory == data.AccessoryOf(m)
                        && r.result == Returned(data.Default(m) != m.entry))
                  && (forall j :: 0 <= j < |slots| && j != i ==> r.slots[j] == slots[j]))
  {
    AddOrReplaceKeepsDistinct(list, m);
    AddOrReplaceContents(list, m);
  }

  /** RevertMod keeps the invariant, including when it throws. */
  lemma RevertKeepsInv(data: EqdpData, list: seq<EqdpManipulation>, slots: seq<Option<ExpandedEqdpFile>>, m: EqdpManipulation)
    requires Inv(data, list, slots)
    ensures var r := RevertSpec(data, list, slots, m); Inv(data, r.list, r.slots)
  {
    var r := RevertSpec(data, list, slots, m);
    RemoveContents(list, m);
    forall j | 0 <= j < |r.list| && SlotOf(data, r.list[j]) >= 0 ensures r.slots[SlotOf(data, r.list[j])].Some? {
      var y := r.list[j];
      assert y in r.list;
      var k :| 0 <= k < |list| && list[k] == y;
    }
  }

  /**
   * RevertMod of a manipulation that is not listed returns false and changes
   * nothing. Otherwise it removes it, and, when its MetaIndex has a slot,
   * never finds that slot empty: the same file gets the game's entry back
   * at the manipulation's key, and the slot is never emptied.
   */
  lemma RevertWritesDefault(data: EqdpData, list: seq<EqdpManipulation>, slots: seq<Option<ExpandedEqdpFile>>, m: EqdpManipulation)
    requires Inv(data, list, slots)
    ensures var r := RevertSpec(data, list, slots, m);
            var i := SlotOf(data, m);
            var listed := exists j :: 0 <= j < |list| && list[j].identifier == m.identifier;
            && (!listed ==> r == Step(list, slots, Returned(false)))
            && (listed ==> |r.list| == |list| - 1 && forall j :: 0 <= j < |r.list| ==> r.list[j].identifier != m.identifier)
            && (listed && i < 0 ==> r.result == Thrown && r.slots == slots)
            && (listed && i >= 0 ==>
                  && slots[i].Some? && r.slots[i].Some?
                  && r.slots[i].value.genderRace == slots[i].value.genderRace
                  && r.slots[i].value.accessory == slots[i].value.accessory
                  && r.slots[i].value.table.Read(m.Key()) == data.Default(m)
                  && (forall k :: k != m.Key() ==> r.slots[i].value.table.Read(k) == slots[i].value.table.Read(k))
                  && r.result == Returned(slots[i].value.table.Read(m.Key()) != data.Default(m))
                  && (forall j :: 0 <= j < |slots| && j != i ==> r.slots[j] == slots[j]))
  {
    RemoveContents(list, m);
    var i := SlotOf(data, m);
    var k := FindEqual(list, m);
    if k >= 0 && i >= 0 {
      assert SlotOf(data, list[k]) == i;
    }
  }

  /** Applying a manipulation that is not listed and reverting it leaves the list as before and the game's entry at its key. */
  lemma RevertUndoesApply(data: EqdpData, list: seq<EqdpManipulation>, slots: seq<Option<ExpandedEqdpFile>>, m: EqdpManipulation)
    requires Inv(data, list, slots)
    requires forall j :: 0 <= j < |list| ==> list[j].identifier != m.identifier
    requires SlotOf(data, m) >= 0
    ensures var a := ApplySpec(data, list, slots, m);
            var r := RevertSpec(data, a.list, a.slots, m);
            var i := SlotOf(data, m);
            && r.list == list
            && r.slots[i].Some?
            && r.slots[i].value.table.Read(m.Key()) == data.Default(m)
            && (forall j :: 0 <= j < |slots| && j != i ==> r.slots[j] == slots[j])
  {
    var a := ApplySpec(data, list, slots, m);
    ApplyKeepsInv(data, list, slots, m);
    RemoveAppended(list, m);
    assert a.list == list + [m];
    RevertWritesDefault(data, a.list, a.slots, m);
  }

  /** Removing the manipulation just appended to a list without an equal one gives the list back. */
  lemma RemoveAppended(list: seq<EqdpManipulation>, m: EqdpManipulation)
    requires forall j :: 0 <= j < |list| ==> list[j].identifier != m.identifier
    ensures AddOrReplace(list, m) == list + [m]
    ensures Remove(list + [m], m) == (list, true)
  {
    var l := list + [m];
    assert l[|list|] == m;
    assert forall j :: 0 <= j < |list| ==> l[j] == list[j];
    assert FindEqual(l, m) == |list|;
    assert l[..|list|] + l[|list| + 1..] == list;
  }

  /**
   * Reset keeps every slot's file, or its absence, and restores in each file
   * exactly the entries of the set ids of the listed manipulations whose
   * file index is the file's relevant index.
   */
  lemma ResetRestoresListed(data: EqdpData, list: seq<EqdpManipulation>, slots: seq<Option<ExpandedEqdpFile>>)
    requires Inv(data, list, slots)
    ensures Inv(data, [], ResetSlots(data, list, slots))
    ensures var r := ResetSlots(data, list, slots);
            forall i :: 0 <= i < |slots| ==>
              && (r[i].Some? <==> slots[i].Some?)
              && (slots[i].Some? ==>
                    var ids := SetIdsFor(data, list, data.relevant(FileInternalIndex(data, slots[i].value)));
                    && r[i].value.genderRace == slots[i].value.genderRace
                    && r[i].value.accessory == slots[i].value.accessory
                    && forall k :: r[i].value.table.Read(k) ==
                                   if k.setId in ids then slots[i].value.table.game.Default(k) else slots[i].value.table.Read(k))
  {
  }

  /**
   * When RelevantIndices undoes the InternalIndex, Reset restores, in slot i,
   * the game's entries for every set id that a listed manipulation of
   * EqdpIndices[i] touched.
   */
  lemma ResetRestoresManipulated(data: EqdpData, list: seq<EqdpManipulation>, slots: seq<Option<ExpandedEqdpFile>>, j: int, k: EqdpKey)
    requires Inv(data, list, slots) && data.RelevantRoundTrips()
    requires 0 <= j < |list| && SlotOf(data, list[j]) >= 0 && k.setId == list[j].identifier.setId
    ensures var i := SlotOf(data, list[j]);
            var r := ResetSlots(data, list, slots);
            r[i].Some? && r[i].value.table.Read(k) == slots[i].value.table.game.Default(k)
  {
    var i := SlotOf(data, list[j]);
    var f := slots[i].value;
    assert SlotFits(data, i, f);
    assert data.relevant(FileInternalIndex(data, f)) == data.FileIndex(list[j]);
    assert list[j].identifier.setId in SetIdsFor(data, list, data.FileIndex(list[j]));
  }

  /** Dispose, on values: every slot empty, the array keeping its length. */
  function DisposeSlots(slots: seq<Option<ExpandedEqdpFile>>): (r: seq<Option<ExpandedEqdpFile>>)
    ensures |r| == |slots| && forall i :: 0 <= i < |r| ==> r[i].None?
  {
    seq(|slots|, i => None)
  }

  /** A disposed cache satisfies the invariant: there is nothing left to serve. */
  lemma DisposeKeepsInv(data: EqdpData, slots: seq<Option<ExpandedEqdpFile>>)
    requires |slots| == |data.indices|
    ensures Inv(data, [], DisposeSlots(slots))
  {
  }

  /** The slot TemporarilySetEqdpFile and ExpandedEqdpFile look at: none when EqdpIdx gives -1 or a MetaIndex without a slot. */
  function TemporarySlot(data: EqdpData, genderRace: GenderRace, accessory: bool): Option<int>
  {
    var idx := data.eqdpIdx(genderRace, accessory);
    if idx == -1 then None
    else
      var i := IndexOf(data.indices, idx);
      if i != -1 then Some(i) else None
  }

  /** TemporarilySetEqdpFile gives up exactly when EqdpIdx is -1 or not among EqdpIndices; otherwise it targets the slot of that MetaIndex. */
  lemma TemporarySlotIsIndex(data: EqdpData, genderRace: GenderRace, accessory: bool)
    ensures var idx := data.eqdpIdx(genderRace, accessory);
            var r := TemporarySlot(data, genderRace, accessory);
            && (r.None? <==> idx == -1 || idx !in data.indices)
            && (r.Some? ==> 0 <= r.value < |data.indices| && data.indices[r.value] == idx)
  {
  }

  /** ExpandedEqdpFile(race, accessory): the slot's file; a MetaIndex without a slot indexes the array at -1 and throws. */
  function FileFor(data: EqdpData, slots: seq<Option<ExpandedEqdpFile>>, genderRace: GenderRace, accessory: bool): (r: Completion<Option<ExpandedEqdpFile>>)
    requires |slots| == |data.indices|
    ensures r.Thrown? <==> data.eqdpIdx(genderRace, accessory) !in data.indices
  {
    var i := IndexOf(data.indices, data.eqdpIdx(genderRace, accessory));
    if i < 0 then Thrown else Returned(slots[i])
  }

  /** After ApplyMod, ExpandedEqdpFile for the manipulation's GenderRace and slot kind finds the file holding its entry. */
  lemma FileForAfterApply(data: EqdpData, list: seq<EqdpManipulation>, slots: seq<Option<ExpandedEqdpFile>>, m: EqdpManipulation)
    requires Inv(data, list, slots)
    requires data.FileIndex(m) in data.indices
    ensures var a := ApplySpec(data, list, slots, m);
            var r := FileFor(data, a.slots, data.GenderRaceOf(m), data.AccessoryOf(m));
            r.Returned? && r.value.Some? && r.value.value.table.Read(m.Key()) == m.entry
  {
    ApplyWritesSlot(data, list, slots, m);
  }

  /** What CollectionCacheManager.SetFile and TemporarilySetFile act on: the file the game reads for each MetaIndex. */
  class MetaFiles {
    var published: map<int, Option<ExpandedEqdpFile>>

    constructor ()
      ensures published == map[]
    {
      published := map[];
    }

    /** SetFile: the file (or the game's own, for none) is published under the MetaIndex. */
    method SetFile(file: Option<ExpandedEqdpFile>, index: int)
      modifies this
      ensures published == old(published)[index := file]
    {
      published := published[index := file];
    }

    /** TemporarilySetFile: publishes the file and hands back what to restore. */
    method TemporarilySetFile(file: Option<ExpandedEqdpFile>, index: int) returns (r: MetaReverter)
      modifies this
      ensures published == old(published)[index := file]
      ensures r == MetaReverter(index, if index in old(published) then old(published)[index] else None)
    {
      r := MetaReverter(index, if index in published then published[index] else None);
      published := published[index := file];
    }
  }

  /** MetaList.MetaReverter: the MetaIndex and the file it held before. */
  datatype MetaReverter = MetaReverter(index: int, previous: Option<ExpandedEqdpFile>)

  /** SetFiles on values: slot i is published under EqdpIndices[i], for i below n, in order. */
  function Published(before: map<int, Option<ExpandedEqdpFile>>, indices: seq<int>, slots: seq<Option<ExpandedEqdpFile>>, n: nat): map<int, Option<ExpandedEqdpFile>>
    requires n <= |indices| == |slots|
  {
    if n == 0 then before else Published(before, indices, slots, n - 1)[indices[n - 1] := slots[n - 1]]
  }

  /**
   * With EqdpIndices free of duplicates, SetFiles publishes every slot under
   * its MetaIndex and leaves every other MetaIndex as it was.
   */
  lemma {:induction false} PublishedSlots(before: map<int, Option<ExpandedEqdpFile>>, indices: seq<int>, slots: seq<Option<ExpandedEqdpFile>>, n: nat)
    requires n <= |indices| == |slots|
    requires forall a, b :: 0 <= a < b < |indices| ==> indices[a] != indices[b]
    ensures var p := Published(before, indices, slots, n);
            && (forall i :: 0 <= i < n ==> indices[i] in p && p[indices[i]] == slots[i])
            && (forall x :: x !in indices[..n] ==> (x in p <==> x in before) && (x in before ==> p[x] == before[x]))
  {
    if n > 0 {
      PublishedSlots(before, indices, slots, n - 1);
      assert indices[..n] == indices[..n - 1] + [indices[n - 1]];
    }
  }

  class EqdpCache {
    const data: EqdpData
    /** _eqdpFiles: one slot per entry of EqdpIndices. */
    const files: array<Option<ExpandedEqdpFile>>
    var manipulations: seq<EqdpManipulation>

    ghost predicate Valid()
      reads this, files
    {
      Inv(data, manipulations, files[..])
    }

    constructor (data: EqdpData)
      ensures Valid() && this.data == data && manipulations == []
      ensures files.Length == |data.indices| && forall i :: 0 <= i < files.Length ==> files[i].None?
      ensures fresh(files)
    {
      this.data := data;
      files := new Option<ExpandedEqdpFile>[|data.indices|](_ => None);
      manipulations := [];
    }

    method SetFiles(manager: MetaFiles)
      requires Valid()
      modifies manager
      ensures manager.published == Published(old(manager.published), data.indices, files[..], files.Length)
    {
      for i := 0 to files.Length
        invariant manager.published == Published(old(manager.published), data.indices, files[..], i)
      {
        manager.SetFile(files[i], data.indices[i]);
      }
    }

    method TemporarilySetEqdpFile(manager: MetaFiles, genderRace: GenderRace, accessory: bool) returns (r: Option<MetaReverter>)
      requires Valid()
      modifies manager
      ensures var t := TemporarySlot(data, genderRace, accessory);
              && (t.None? ==> r.None? && manager.published == old(manager.published))
              && (t.Some? ==>
                    && r.Some? && r.value.index == data.indices[t.value]
                    && manager.published == old(manager.published)[data.indices[t.value] := files[t.value]])
    {
      var idx := data.eqdpIdx(genderRace, accessory);
      if idx == -1 {
        return None;
      }
      var i := IndexOf(data.indices, idx);
      if i == -1 {
        return None;
      }
      var reverter := manager.TemporarilySetFile(files[i], idx);
      return Some(reverter);
    }

    method Reset()
      requires Valid()
      modifies this, files
      ensures Valid()
      ensures files[..] == ResetSlots(data, old(manipulations), old(files[..])) && manipulations == []
    {
      ResetRestoresListed(data, manipulations, files[..]);
      for i := 0 to files.Length
        invariant manipulations == old(manipulations)
        invariant forall j :: 0 <= j < i ==> files[j] == ResetSlot(data, manipulations, old(files[j]))
        invariant forall j :: i <= j < files.Length ==> files[j] == old(files[j])
      {
        if files[i].Some? {
          files[i] := Some(ResetFile(data, manipulations, files[i].value));
        }
      }
      manipulations := [];
    }

    method ApplyMod(m: EqdpManipulation) returns (r: Completion<bool>)
      requires Valid()
      modifies this, files
      ensures Valid()
      ensures var s := ApplySpec(data, old(manipulations), old(files[..]), m);
              manipulations == s.list && files[..] == s.slots && r == s.result
    {
      ApplyKeepsInv(data, manipulations, files[..], m);
      manipulations := AddOrReplace(manipulations, m);
      var i := IndexOf(data.indices, data.FileIndex(m));
      if i < 0 {
        // _eqdpFiles[-1] throws.
        return Thrown;
      }
      if files[i].None? {
        files[i] := Some(NewFile(data, data.GenderRaceOf(m), data.AccessoryOf(m)));
      }
      var (written, changed) := ApplyTo(m, files[i].value);
      files[i] := Some(written);
      return Returned(changed);
    }

    method RevertMod(m: EqdpManipulation) returns (r: Completion<bool>)
      requires Valid()
      modifies this, files
      ensures Valid()
      ensures var s := RevertSpec(data, old(manipulations), old(files[..]), m);
              manipulations == s.list && files[..] == s.slots && r == s.result
    {
      RevertKeepsInv(data, manipulations, files[..], m);
      var (rest, removed) := Remove(manipulations, m);
      if !removed {
        return Returned(false);
      }
      manipulations := rest;
      var def := data.Default(m);
      var i := IndexOf(data.indices, data.FileIndex(m));
      if i < 0 || files[i].None? {
        // _eqdpFiles[-1], or Apply on a null file, throws.
        return Thrown;
      }
      var (written, changed) := ApplyTo(m.Copy(def), files[i].value);
      files[i] := Some(written);
      return Returned(changed);
    }

    /** EqdpFile(race, accessory). */
    function EqdpFile(genderRace: GenderRace, accessory: bool): (r: Completion<Option<ExpandedEqdpFile>>)
      requires Valid()
      reads this, files
      ensures r == FileFor(data, files[..], genderRace, accessory)
    {
      var i := IndexOf(data.indices, data.eqdpIdx(genderRace, accessory));
      if i < 0 then Thrown else Returned(files[i])
    }

    method Dispose()
      requires Valid()
      modifies this, files
      ensures Valid()
      ensures files[..] == DisposeSlots(old(files[..])) && manipulations == []
    {
      for i := 0 to files.Length
        invariant forall j :: 0 <= j < i ==> files[j].None?
      {
        files[i] := None;
      }
      manipulations := [];
      DisposeKeepsInv(data, files[..]);
    }
  }
}
