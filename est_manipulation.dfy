/**
 * EstManipulation.cs: one EST manipulation, an identifier plus the entry to
 * write. Equality, hashing and ordering look at the identifier's parts only.
 */
module EstManipulations {
  import opened Wrappers
  import opened GameData
  import Est

  datatype EstManipulation = EstManipulation(identifier: Est.EstIdentifier, entry: Est.EstEntry)

  /** The JsonConstructor: the gender and race are combined into the identifier's GenderRace. */
  function Create(codes: GameCodes, gender: Gender, race: ModelRace, slot: u8, setId: Est.PrimaryId, entry: Est.EstEntry): (m: EstManipulation)
    ensures m.entry == entry && m.identifier.slot == slot && m.identifier.setId == setId
    ensures codes.races.Consistent() && (gender, race) in codes.races.combined ==> Gender(codes, m) == gender && Race(codes, m) == race
  {
    EstManipulation(Est.EstIdentifier(setId, slot, codes.races.CombinedRace(gender, race)), entry)
  }

  function Gender(codes: GameCodes, m: EstManipulation): Gender
  {
    Est.Gender(codes, m.identifier)
  }

  function Race(codes: GameCodes, m: EstManipulation): ModelRace
  {
    Est.Race(codes, m.identifier)
  }

  /** Copy: the same gender, race, slot and set id with a new entry. */
  function Copy(codes: GameCodes, m: EstManipulation, entry: Est.EstEntry): EstManipulation
  {
    Create(codes, Gender(codes, m), Race(codes, m), m.identifier.slot, m.identifier.setId, entry)
  }

  /** Equals: gender, race, set id and slot agree; the entry is ignored. */
  predicate Equals(codes: GameCodes, a: EstManipulation, b: EstManipulation)
  {
    && Gender(codes, a) == Gender(codes, b)
    && Race(codes, a) == Race(codes, b)
    && a.identifier.setId == b.identifier.setId
    && a.identifier.slot == b.identifier.slot
  }

  /** The values GetHashCode combines. */
  function HashKey(codes: GameCodes, m: EstManipulation): (Gender, ModelRace, Est.PrimaryId, u8)
  {
    (Gender(codes, m), Race(codes, m), m.identifier.setId, m.identifier.slot)
  }

  /** Equal manipulations hash alike, and the hashed values are exactly what Equals compares. */
  lemma HashAgreesWithEquals(codes: GameCodes, a: EstManipulation, b: EstManipulation)
    ensures Equals(codes, a, b) <==> HashKey(codes, a) == HashKey(codes, b)
  {
  }

  /** Changing the entry never changes equality. */
  lemma EqualsIgnoresEntry(codes: GameCodes, m: EstManipulation, e: Est.EstEntry)
    ensures Equals(codes, m, EstManipulation(m.identifier, e))
  {
  }

  /**
   * Copy(e) is equal to the original and carries e; for a manipulation whose
   * gender-race is defined and known, it also keeps the identifier.
   */
  lemma CopyIsEqualWithNewEntry(codes: GameCodes, m: EstManipulation, e: Est.EstEntry)
    requires codes.races.Consistent()
    ensures Copy(codes, m, e).entry == e
    ensures Equals(codes, Copy(codes, m, e), m)
    ensures m.identifier.genderRace in codes.races.split ==> Copy(codes, m, e).identifier == m.identifier
  {
    var gr := m.identifier.genderRace;
    CombineAfterSplit(codes.races, gr);
    var c := Copy(codes, m, e).identifier.genderRace;
    if gr !in codes.races.split {
      assert c == UnknownGenderRace;
      assert UnknownGenderRace !in codes.races.split;
    }
  }

  /** CompareTo: lexicographic on (Race, Gender, Slot, SetId). */
  function CompareTo(codes: GameCodes, a: EstManipulation, b: EstManipulation): int
  {
    var r := Est.CompareCodes(Race(codes, a), Race(codes, b));
    if r != 0 then r
    else
      var g := Est.CompareCodes(Gender(codes, a), Gender(codes, b));
      if g != 0 then g
      else
        var s := Est.CompareCodes(a.identifier.slot, b.identifier.slot);
        if s != 0 then s else Est.CompareCodes(a.identifier.setId, b.identifier.setId)
  }

  /** The key tuple CompareTo orders by. */
  function SortKey(codes: GameCodes, m: EstManipulation): (ModelRace, Gender, u8, Est.PrimaryId)
  {
    (Race(codes, m), Gender(codes, m), m.identifier.slot, m.identifier.setId)
  }

  predicate KeyLess(a: (ModelRace, Gender, u8, Est.PrimaryId), b: (ModelRace, Gender, u8, Est.PrimaryId))
  {
    || a.0 < b.0
    || (a.0 == b.0 && a.1 < b.1)
    || (a.0 == b.0 && a.1 == b.1 && a.2 < b.2)
    || (a.0 == b.0 && a.1 == b.1 && a.2 == b.2 && a.3 < b.3)
  }

  /** CompareTo orders lexicographically and is zero exactly when Equals holds. */
  lemma CompareToAgreesWithEquals(codes: GameCodes, a: EstManipulation, b: EstManipulation)
    ensures CompareTo(codes, a, b) == 0 <==> Equals(codes, a, b)
    ensures CompareTo(codes, a, b) < 0 <==> KeyLess(SortKey(codes, a), SortKey(codes, b))
    ensures CompareTo(codes, a, b) == -CompareTo(codes, b, a)
  {
  }

  lemma CompareToTransitive(codes: GameCodes, a: EstManipulation, b: EstManipulation, c: EstManipulation)
    requires CompareTo(codes, a, b) < 0 && CompareTo(codes, b, c) < 0
    ensures CompareTo(codes, a, c) < 0
  {
    CompareToAgreesWithEquals(codes, a, b);
    CompareToAgreesWithEquals(codes, b, c);
    CompareToAgreesWithEquals(codes, a, c);
  }

  /** FileIndex: the slot read as a MetaIndex. */
  function FileIndex(m: EstManipulation): (index: int)
    ensures index == Est.FileIndex(m.identifier)
  {
    m.identifier.slot
  }

  /** Validate: the slot is a defined EstType and the combined race is not Unknown. */
  function Validate(codes: GameCodes, m: EstManipulation): (ok: bool)
    ensures ok <==> codes.IsEstType(m.identifier.slot) && codes.races.CombinedRace(Gender(codes, m), Race(codes, m)) != UnknownGenderRace
  {
    if !codes.IsEstType(m.identifier.slot) then false
    else if codes.races.CombinedRace(Gender(codes, m), Race(codes, m)) == UnknownGenderRace then false
    else true
  }

  /** On consistent game data the manipulation's check and its identifier's check agree. */
  lemma ValidateAgreesWithIdentifier(codes: GameCodes, m: EstManipulation)
    requires codes.races.Consistent()
    ensures Validate(codes, m) <==> Est.Validate(codes, m.identifier)
  {
    CombineAfterSplit(codes.races, m.identifier.genderRace);
  }

  /** The answers EstFile.SetEntry can give; OtherChange stands for a value outside the declared members. */
  datatype EstEntryChange = Unchanged | Changed | Added | Removed | OtherChange(code: int)

  /** The arguments Apply hands to EstFile.SetEntry. */
  function SetEntryArguments(codes: GameCodes, m: EstManipulation): (GenderRace, Est.PrimaryId, Est.EstEntry)
  {
    (codes.races.CombinedRace(Gender(codes, m), Race(codes, m)), m.identifier.setId, m.entry)
  }

  /** Apply: maps the file's answer to "did anything change"; an undeclared answer throws. */
  function Apply(codes: GameCodes, m: EstManipulation, setEntry: (GenderRace, Est.PrimaryId, Est.EstEntry) -> EstEntryChange): (r: Completion<bool>)
    ensures r.Thrown? <==> setEntry(SetEntryArguments(codes, m).0, m.identifier.setId, m.entry).OtherChange?
    ensures r == Returned(false) <==> setEntry(SetEntryArguments(codes, m).0, m.identifier.setId, m.entry) == Unchanged
  {
    var (gr, setId, entry) := SetEntryArguments(codes, m);
    match setEntry(gr, setId, entry)
    case Unchanged => Returned(false)
    case Changed => Returned(true)
    case Added => Returned(true)
    case Removed => Returned(true)
    case OtherChange(_) => Thrown
  }

  /** ToName: the file-name fragment of each EstType; anything else is "unk". */
  function ToName(codes: GameCodes, slot: u8): (name: string)
    requires codes.EstTypesDistinct()
    ensures slot == codes.hairEst ==> name == "hair"
    ensures slot == codes.faceEst ==> name == "face"
    ensures slot == codes.bodyEst ==> name == "top"
    ensures slot == codes.headEst ==> name == "met"
    ensures name == "unk" <==> !codes.IsEstType(slot)
  {
    if slot == codes.hairEst then "hair"
    else if slot == codes.faceEst then "face"
    else if slot == codes.bodyEst then "top"
    else if slot == codes.headEst then "met"
    else "unk"
  }
}
