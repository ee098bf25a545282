/**
 * Est.cs: the identifier of one EST (extra skeleton table) entry, its
 * validation, ordering, file index and JSON form, and the EstEntry value.
 */
module Est {
  import opened Wrappers
  import opened GameData
  import Text

  /** PrimaryId wraps a ushort set id. */
  type PrimaryId = u16

  /**
   * EstIdentifier(SetId, Slot, GenderRace). Slot holds the raw byte of the
   * EstType enumeration, which need not be one of its declared members.
   */
  datatype EstIdentifier = EstIdentifier(setId: PrimaryId, slot: u8, genderRace: GenderRace)

  /** The EST entry value (a ushort). */
  datatype EstEntry = EstEntry(value: u16)

  /** EstEntry.Zero. */
  const Zero := EstEntry(0)

  /** EstEntry.AsId: the entry's value read as a set id. */
  function AsId(e: EstEntry): (id: PrimaryId)
    ensures id == e.value
  {
    e.value
  }

  function Gender(codes: GameCodes, id: EstIdentifier): Gender
  {
    codes.races.Split(id.genderRace).0
  }

  function Race(codes: GameCodes, id: EstIdentifier): ModelRace
  {
    codes.races.Split(id.genderRace).1
  }

  /** FileIndex: the slot's code read as a MetaIndex (each EstType member is declared as its MetaIndex). */
  function FileIndex(id: EstIdentifier): (index: int)
    ensures 0 <= index < 0x100
  {
    id.slot
  }

  /** The four members of EstType are the four EST MetaIndex values, and FileIndex selects the one of the slot. */
  lemma FileIndexOfValidIdentifier(codes: GameCodes, id: EstIdentifier)
    requires Validate(codes, id)
    ensures FileIndex(id) in {codes.hairEst, codes.faceEst, codes.bodyEst, codes.headEst}
  {
  }

  /** Validate: the slot is a declared EstType and the gender-race is a declared, known GenderRace; the set id is not checked. */
  function Validate(codes: GameCodes, id: EstIdentifier): (ok: bool)
    ensures ok <==> codes.IsEstType(id.slot) && id.genderRace != UnknownGenderRace && id.genderRace in codes.races.defined
  {
    if !codes.IsEstType(id.slot) then false
    else if id.genderRace == UnknownGenderRace || id.genderRace !in codes.races.defined then false
    else true
  }

  /**
   * CompareTo between two byte or ushort values, or enumerations over them:
   * .NET returns the difference of the two values, so only its sign is the
   * order.
   */
  function CompareCodes(a: int, b: int): (c: int)
    ensures c == 0 <==> a == b
    ensures c < 0 <==> a < b
  {
    a - b
  }

  /** CompareTo: lexicographic on (GenderRace, SetId, Slot). */
  function CompareTo(a: EstIdentifier, b: EstIdentifier): int
  {
    var gr := CompareCodes(a.genderRace, b.genderRace);
    if gr != 0 then gr
    else
      var id := CompareCodes(a.setId, b.setId);
      if id != 0 then id else CompareCodes(a.slot, b.slot)
  }

  /** The lexicographic order on (GenderRace, SetId, Slot). */
  predicate LexLess(a: EstIdentifier, b: EstIdentifier)
  {
    || a.genderRace < b.genderRace
    || (a.genderRace == b.genderRace && a.setId < b.setId)
    || (a.genderRace == b.genderRace && a.setId == b.setId && a.slot < b.slot)
  }

  lemma CompareToIsLexicographic(a: EstIdentifier, b: EstIdentifier)
    ensures CompareTo(a, b) < 0 <==> LexLess(a, b)
    ensures CompareTo(a, b) == 0 <==> a == b
    ensures CompareTo(a, b) > 0 <==> LexLess(b, a)
  {
  }

  lemma CompareToAntisymmetric(a: EstIdentifier, b: EstIdentifier)
    ensures CompareTo(a, b) == -CompareTo(b, a)
  {
  }

  lemma CompareToTransitive(a: EstIdentifier, b: EstIdentifier, c: EstIdentifier)
    requires CompareTo(a, b) < 0 && CompareTo(b, c) < 0
    ensures CompareTo(a, c) < 0
  {
    CompareToIsLexicographic(a, b);
    CompareToIsLexicographic(b, c);
    CompareToIsLexicographic(a, c);
  }

  // JSON form. A JObject is modelled by its properties, each holding the
  // text of a JSON string. Gender, Race and Slot are written by Enum.ToString
  // (a member's name, or the decimal text of an undeclared value) and read
  // back by name or by number; SetId is written and read as decimal text.

  class JObject {
    var properties: map<string, string>

    constructor (properties: map<string, string>)
      ensures this.properties == properties
    {
      this.properties := properties;
    }
  }

  /** The properties AddToJson leaves in an object that held `props`. */
  function WithIdentifier(codes: GameCodes, id: EstIdentifier, props: map<string, string>): map<string, string>
  {
    var (gender, race) := codes.races.Split(id.genderRace);
    props["Gender" := codes.genderNames.ToString(gender)]
         ["Race" := codes.raceNames.ToString(race)]
         ["SetId" := NoNames.ToString(id.setId)]
         ["Slot" := codes.slotNames.ToString(id.slot)]
  }

  /** AddToJson: writes Gender, Race, SetId and Slot into the given object and returns it. */
  method AddToJson(codes: GameCodes, id: EstIdentifier, jObj: JObject) returns (r: JObject)
    modifies jObj
    ensures r == jObj
    ensures jObj.properties == WithIdentifier(codes, id, old(jObj.properties))
  {
    var (gender, race) := codes.races.Split(id.genderRace);
    jObj.properties := jObj.properties["Gender" := codes.genderNames.ToString(gender)];
    jObj.properties := jObj.properties["Race" := codes.raceNames.ToString(race)];
    jObj.properties := jObj.properties["SetId" := NoNames.ToString(id.setId)];
    jObj.properties := jObj.properties["Slot" := codes.slotNames.ToString(id.slot)];
    r := jObj;
  }

  /** One property read by ToObject<T>(): absent, a value below `bound`, or text that does not convert (which throws). */
  datatype FieldRead = Missing | Parsed(value: nat) | Malformed

  function ReadField(props: map<string, string>, key: string, bound: nat, names: EnumNames): (r: FieldRead)
    ensures r.Parsed? ==> r.value < bound
    ensures key !in props <==> r.Missing?
    ensures key in props && props[key] in names.values && names.values[props[key]] < bound ==>
              r == Parsed(names.values[props[key]])
  {
    if key !in props then Missing
    else match names.Parse(props[key])
      case Some(v) => if v < bound then Parsed(v) else Malformed
      case None => Malformed
  }

  /** The names FromJson reads each property with. */
  function FieldNames(codes: GameCodes, key: string): EnumNames
  {
    if key == "Gender" then codes.genderNames
    else if key == "Race" then codes.raceNames
    else if key == "Slot" then codes.slotNames
    else NoNames
  }

  /** The range of each property's type: SetId is a ushort, the others are byte enumerations. */
  function FieldBound(key: string): nat
  {
    if key == "SetId" then 0x1_0000 else 0x100
  }

  /** One of the four properties, read as FromJson reads it. */
  function ReadKey(codes: GameCodes, props: map<string, string>, key: string): FieldRead
  {
    ReadField(props, key, FieldBound(key), FieldNames(codes, key))
  }

  /** A read property, or the given default when it is absent (the `?? default` of FromJson). */
  function FieldOr(f: FieldRead, default: nat): nat
    requires !f.Malformed?
  {
    if f.Parsed? then f.value else default
  }

  /**
   * FromJson: reads the four properties (absent ones default to Unknown, 0
   * and 0), combines gender and race, and returns the identifier if it
   * validates and null otherwise. A property that does not convert throws.
   */
  function FromJson(codes: GameCodes, props: map<string, string>): (r: Completion<Option<EstIdentifier>>)
    ensures r.Returned? && r.value.Some? ==> Validate(codes, r.value.value)
    ensures r.Thrown? <==> exists key :: key in ["Gender", "Race", "SetId", "Slot"] && ReadKey(codes, props, key).Malformed?
  {
    var gender := ReadKey(codes, props, "Gender");
    var race := ReadKey(codes, props, "Race");
    var setId := ReadKey(codes, props, "SetId");
    var slot := ReadKey(codes, props, "Slot");
    if gender.Malformed? || race.Malformed? || setId.Malformed? || slot.Malformed? then
      assert exists key :: key in ["Gender", "Race", "SetId", "Slot"] && ReadKey(codes, props, key).Malformed? by {
        if gender.Malformed? { assert "Gender" in ["Gender", "Race", "SetId", "Slot"]; }
        else if race.Malformed? { assert "Race" in ["Gender", "Race", "SetId", "Slot"]; }
        else if setId.Malformed? { assert "SetId" in ["Gender", "Race", "SetId", "Slot"]; }
        else { assert "Slot" in ["Gender", "Race", "SetId", "Slot"]; }
      }
      Thrown
    else
      var ret := EstIdentifier(FieldOr(setId, 0), FieldOr(slot, 0),
                               codes.races.CombinedRace(FieldOr(gender, UnknownGender), FieldOr(race, UnknownRace)));
      Returned(if Validate(codes, ret) then Some(ret) else None)
  }

  /** An object without any of the four properties reads as an Unknown gender-race, which does not validate. */
  lemma FromEmptyJsonIsNull(codes: GameCodes)
    requires codes.Consistent()
    ensures FromJson(codes, map[]) == Returned(None)
  {
  }

  /** An object holding the members' names, as AddToJson writes them, is read back. */
  lemma FromJsonReadsNames(codes: GameCodes, gender: Gender, race: ModelRace, setId: PrimaryId, slot: u8)
    requires codes.Consistent()
    requires gender in codes.genderNames.names && race in codes.raceNames.names && slot in codes.slotNames.names
    requires (gender, race) in codes.races.combined && codes.IsEstType(slot)
    ensures var props := map["Gender" := codes.genderNames.names[gender], "Race" := codes.raceNames.names[race],
                             "SetId" := Text.DecimalString(setId), "Slot" := codes.slotNames.names[slot]];
            FromJson(codes, props) == Returned(Some(EstIdentifier(setId, slot, codes.races.CombinedRace(gender, race))))
  {
    var props := map["Gender" := codes.genderNames.names[gender], "Race" := codes.raceNames.names[race],
                     "SetId" := Text.DecimalString(setId), "Slot" := codes.slotNames.names[slot]];
    Text.ParseDecimalString(setId);
    assert ReadKey(codes, props, "Gender") == Parsed(gender);
    assert ReadKey(codes, props, "Race") == Parsed(race);
    assert ReadKey(codes, props, "SetId") == Parsed(setId);
    assert ReadKey(codes, props, "Slot") == Parsed(slot);
    SplitAfterCombine(codes.races, gender, race);
  }

  /** Every valid identifier survives the trip through AddToJson and FromJson. */
  lemma FromJsonAfterAddToJson(codes: GameCodes, id: EstIdentifier, props: map<string, string>)
    requires codes.Consistent()
    requires Validate(codes, id)
    ensures FromJson(codes, WithIdentifier(codes, id, props)) == Returned(Some(id))
  {
    var (gender, race) := codes.races.Split(id.genderRace);
    var obj := WithIdentifier(codes, id, props);
    ParseToString(codes.genderNames, gender);
    ParseToString(codes.raceNames, race);
    ParseToString(NoNames, id.setId);
    ParseToString(codes.slotNames, id.slot);
    assert ReadKey(codes, obj, "Gender") == Parsed(gender);
    assert ReadKey(codes, obj, "Race") == Parsed(race);
    assert ReadKey(codes, obj, "SetId") == Parsed(id.setId);
    assert ReadKey(codes, obj, "Slot") == Parsed(id.slot);
    assert id.genderRace in codes.races.split;
    CombineAfterSplit(codes.races, id.genderRace);
  }
}
