/**
 * The game's identifier taxonomy, as far as the overlay caches depend on it.
 * The enumerations Gender, ModelRace and GenderRace, the conversions
 * Names.CombinedRace and GenderRace.Split, and the MetaIndex values behind
 * EstType live outside this repository. They are kept here as numeric codes
 * together with the tables that relate them, passed to the model as a value,
 * so that nothing about them is invented.
 */
module GameData {
  import opened Wrappers
  import Text

  type u8 = x: int | 0 <= x < 0x100
  type u16 = x: int | 0 <= x < 0x1_0000
  type u32 = x: int | 0 <= x < 0x1_0000_0000

  /** Codes of the enumerations Gender (byte), ModelRace (byte) and GenderRace (ushort). */
  type Gender = u8
  type ModelRace = u8
  type GenderRace = u16

  /** The Unknown member of each enumeration is its zero value. */
  const UnknownGender: Gender := 0
  const UnknownRace: ModelRace := 0
  const UnknownGenderRace: GenderRace := 0

  /**
   * Names.CombinedRace as the table `combined` (pairs it does not list give
   * Unknown), GenderRace.Split as the table `split` (codes it does not list
   * give (Unknown, Unknown)), and the defined members of GenderRace.
   */
  datatype RaceTable = RaceTable(
    combined: map<(Gender, ModelRace), GenderRace>,
    split: map<GenderRace, (Gender, ModelRace)>,
    defined: set<GenderRace>)
  {
    function CombinedRace(gender: Gender, race: ModelRace): GenderRace
    {
      if (gender, race) in combined then combined[(gender, race)] else UnknownGenderRace
    }

    function Split(genderRace: GenderRace): (Gender, ModelRace)
    {
      if genderRace in split then split[genderRace] else (UnknownGender, UnknownRace)
    }

    /**
     * What the game data guarantees: Split and CombinedRace are inverse to
     * each other on every defined, non-Unknown GenderRace, and the Unknown
     * pair combines to Unknown.
     */
    ghost predicate Consistent()
    {
      && UnknownGenderRace in defined
      && split.Keys == defined - {UnknownGenderRace}
      && (UnknownGender, UnknownRace) !in combined
      && (forall gr :: gr in split ==> split[gr] in combined && combined[split[gr]] == gr)
      && (forall p :: p in combined ==> combined[p] in split && split[combined[p]] == p)
    }
  }

  /**
   * The member names of one enumeration, in both directions. Enum.ToString
   * writes the name of a declared value and the decimal text of any other;
   * Newtonsoft's ToObject<T> reads a JSON string into an enumeration by an
   * exact member name or, failing that, as decimal text.
   */
  datatype EnumNames = EnumNames(names: map<nat, string>, values: map<string, nat>)
  {
    /** Names and values correspond one to one, and no name reads as a number. */
    ghost predicate WellFormed()
    {
      && (forall v :: v in names ==> names[v] in values && values[names[v]] == v)
      && (forall s :: s in values ==> values[s] in names && names[values[s]] == s)
      && (forall s :: s in values ==> Text.ParseDecimal(s).None?)
    }

    /** Enum.ToString. */
    function ToString(v: nat): (s: string)
      ensures v in names ==> s == names[v]
      ensures v !in names ==> Text.ParseDecimal(s) == Some(v)
    {
      Text.ParseDecimalString(v);
      if v in names then names[v] else Text.DecimalString(v)
    }

    /** A member name, or else decimal text; anything else does not convert. */
    function Parse(s: string): (r: Option<nat>)
      ensures s in values ==> r == Some(values[s])
      ensures s !in values ==> r == Text.ParseDecimal(s)
    {
      if s in values then Some(values[s]) else Text.ParseDecimal(s)
    }
  }

  /** A type without member names (a plain integer): only decimal text converts. */
  const NoNames := EnumNames(map[], map[])

  /** Reading back what ToString wrote gives the value, whether or not it is a declared member. */
  lemma ParseToString(t: EnumNames, v: nat)
    requires t.WellFormed()
    ensures t.Parse(t.ToString(v)) == Some(v)
  {
    if v !in t.names {
      var s := Text.DecimalString(v);
      Text.ParseDecimalString(v);
      assert s !in t.values;
    }
  }

  /**
   * The game codes the EST model depends on: the race table, the MetaIndex
   * values that the members Hair, Face, Body and Head of EstType are declared
   * with, and the member names of Gender, ModelRace and EstType.
   */
  datatype GameCodes = GameCodes(races: RaceTable, hairEst: u8, faceEst: u8, bodyEst: u8, headEst: u8,
                                 genderNames: EnumNames, raceNames: EnumNames, slotNames: EnumNames)
  {
    ghost predicate Consistent()
    {
      && races.Consistent()
      && EstTypesDistinct()
      && genderNames.WellFormed() && raceNames.WellFormed() && slotNames.WellFormed()
    }

    /** The four EstType members are declared with four different MetaIndex values. */
    predicate EstTypesDistinct()
    {
      |{hairEst, faceEst, bodyEst, headEst}| == 4
    }

    /** Enum.IsDefined for an EstType value. */
    predicate IsEstType(slot: u8)
    {
      slot == hairEst || slot == faceEst || slot == bodyEst || slot == headEst
    }
  }

  /** Under a consistent table, CombinedRace undoes Split for every code. */
  lemma CombineAfterSplit(t: RaceTable, gr: GenderRace)
    requires t.Consistent()
    ensures var (g, r) := t.Split(gr); t.CombinedRace(g, r) == if gr in t.split then gr else UnknownGenderRace
  {
  }

  /** Under a consistent table, Split undoes CombinedRace. */
  lemma SplitAfterCombine(t: RaceTable, g: Gender, r: ModelRace)
    requires t.Consistent()
    ensures (g, r) in t.combined ==> t.Split(t.CombinedRace(g, r)) == (g, r)
    ensures (g, r) !in t.combined ==> t.Split(t.CombinedRace(g, r)) == (UnknownGender, UnknownRace)
  {
  }
}
