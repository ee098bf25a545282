/**
 * ChangedItemDrawer: the category flags of changed items, the parsing of a
 * category filter typed by the user, the filter toggles of the category
 * header, and the mappings from equipment slots, objects and flags to
 * categories and API icons. A value of the ChangedItemIcon flags enum is
 * modelled as the set of categories whose bits it has; Value gives back
 * the number. Drawing and icon loading are not modelled.
 */
module ChangedItems {
  import opened Wrappers
  import opened Text

  /** The single flags of ChangedItemIcon. */
  datatype Category =
    | Head | Body | Hands | Legs | Feet | Ears | Neck | Wrists | Finger
    | Monster | Demihuman | Customization | Action | Mainhand | Offhand | Unknown | Emote

  /** The bit of each category in ChangedItemIcon. */
  function Bit(c: Category): nat
  {
    match c
    case Head => 0x00_0001
    case Body => 0x00_0002
    case Hands => 0x00_0004
    case Legs => 0x00_0008
    case Feet => 0x00_0010
    case Ears => 0x00_0020
    case Neck => 0x00_0040
    case Wrists => 0x00_0080
    case Finger => 0x00_0100
    case Monster => 0x00_0200
    case Demihuman => 0x00_0400
    case Customization => 0x00_0800
    case Action => 0x00_1000
    case Mainhand => 0x00_2000
    case Offhand => 0x00_4000
    case Unknown => 0x00_8000
    case Emote => 0x01_0000
  }

  /** A ChangedItemIcon value: the categories whose bits are set. */
  type IconFlags = set<Category>

  /** The display order of the categories. */
  const Order: seq<Category> := [
    Head, Body, Hands, Legs, Feet, Ears, Neck, Wrists, Finger,
    Mainhand, Offhand, Customization, Action, Emote, Monster, Demihuman, Unknown]

  const AllFlags: IconFlags := {
    Head, Body, Hands, Legs, Feet, Ears, Neck, Wrists, Finger,
    Monster, Demihuman, Customization, Action, Mainhand, Offhand, Unknown, Emote}

  const DefaultFlags: IconFlags := AllFlags - {Offhand}

  /** The number of a flag set: the sum of its categories' bits, taken in Order. */
  function Value(flags: IconFlags): nat
  {
    SumBits(Order, flags, |Order|)
  }

  /** The sum of the bits of the first k categories of `order` that are in `flags`. */
  function SumBits(order: seq<Category>, flags: IconFlags, k: nat): nat
    requires k <= |order|
  {
    if k == 0 then 0
    else SumBits(order, flags, k - 1) + (if order[k - 1] in flags then Bit(order[k - 1]) else 0)
  }

  predicate Distinct(order: seq<Category>)
  {
    forall i, j :: 0 <= i < j < |order| ==> order[i] != order[j]
  }

  /** Order lists the 17 categories once each, and AllFlags holds exactly them. */
  lemma OrderIsFlagSet()
    ensures |Order| == 17
    ensures forall i, j :: 0 <= i < j < |Order| ==> Order[i] != Order[j]
    ensures forall c: Category :: c in AllFlags && c in Order
  {
    forall i, j | 0 <= i < j < |Order| ensures Order[i] != Order[j] {
      assert Bit(Order[i]) < Bit(Order[j]) || Bit(Order[i]) > Bit(Order[j]) by {
        BitsDistinct(Order[i], Order[j]);
      }
    }
    forall c: Category ensures c in AllFlags && c in Order {
      var i := match c
        case Head => 0 case Body => 1 case Hands => 2 case Legs => 3 case Feet => 4 case Ears => 5
        case Neck => 6 case Wrists => 7 case Finger => 8 case Mainhand => 9 case Offhand => 10
        case Customization => 11 case Action => 12 case Emote => 13 case Monster => 14
        case Demihuman => 15 case Unknown => 16;
      assert Order[i] == c;
    }
  }

  /** Different categories have different bits. */
  lemma BitsDistinct(c: Category, d: Category)
    ensures c != d ==> Bit(c) != Bit(d)
  {
  }

  /** AllFlags, all the categories, is 0x01FFFF. */
  lemma AllFlagsValue()
    ensures Value(AllFlags) == 0x01_FFFF
  {
    assert SumBits(Order, AllFlags, 3) == 0x7;
    assert SumBits(Order, AllFlags, 6) == 0x3F;
    assert SumBits(Order, AllFlags, 9) == 0x1FF;
    assert SumBits(Order, AllFlags, 12) == 0x69FF;
    assert SumBits(Order, AllFlags, 15) == 0x1_7BFF;
    assert SumBits(Order, AllFlags, 17) == 0x1_FFFF;
  }

  /** Taking a category out of a set takes its bit out of the number. */
  lemma {:induction false} ValueWithout(order: seq<Category>, flags: IconFlags, c: Category, k: nat)
    requires Distinct(order) && k <= |order| && c in flags
    ensures SumBits(order, flags - {c}, k) == SumBits(order, flags, k) - (if c in order[..k] then Bit(c) else 0)
  {
    if k > 0 {
      ValueWithout(order, flags, c, k - 1);
      var prefix := order[..k - 1];
      assert order[..k] == prefix + [order[k - 1]];
      if order[k - 1] == c {
        assert c !in prefix by {
          forall i | 0 <= i < |prefix| ensures prefix[i] != c {
            assert order[i] != order[k - 1];
          }
        }
      }
    }
  }

  /** DefaultFlags, all the categories but Offhand, is 0x01BFFF. */
  lemma DefaultFlagsValue()
    ensures Value(DefaultFlags) == 0x01_BFFF
  {
    AllFlagsValue();
    OrderIsFlagSet();
    ValueWithout(Order, AllFlags, Offhand, |Order|);
    assert Order[..|Order|][10] == Offhand;
  }

  /** int.TryParse: an optional sign and a run of decimal digits, within the range of a 32-bit int. */
  function ParseInt(s: string): (r: Option<int>)
    ensures r.Some? ==> -0x8000_0000 <= r.value < 0x8000_0000
  {
    var negative := |s| > 0 && s[0] == '-';
    var digits := if |s| > 0 && (s[0] == '-' || s[0] == '+') then s[1..] else s;
    match ParseDecimal(digits)
    case None => None
    case Some(n) =>
      var v: int := if negative then -(n as int) else n;
      if -0x8000_0000 <= v < 0x8000_0000 then Some(v) else None
  }

  /**
   * TryParseIndex: a number typed by the user picks a category by its
   * 1-based position in Order, 0 also picking the first; anything else
   * fails with no flag.
   */
  function TryParseIndex(input: string): (r: (bool, IconFlags))
    ensures r.0 <==> ParseInt(input).Some? && 0 <= ParseInt(input).value <= |Order|
    ensures r.0 ==> r.1 == {Order[if ParseInt(input).value == 0 then 0 else ParseInt(input).value - 1]}
    ensures !r.0 ==> r.1 == {}
  {
    match ParseInt(input)
    case Some(idx) =>
      if idx == 0 then (true, {Order[0]})
      else if 0 <= idx - 1 < |Order| then (true, {Order[idx - 1]})
      else (false, {})
    case None => (false, {})
  }

  /** The decimal text of n picks the n-th category for n in 1..17, and "0" the first. */
  lemma TryParseIndexOfPosition(n: nat)
    requires n <= |Order|
    ensures TryParseIndex(DecimalString(n)) == (true, {Order[if n == 0 then 0 else n - 1]})
  {
    ParseDecimalString(n);
    var s := DecimalString(n);
    assert s[0] != '-' && s[0] != '+' by {
      assert IsDigit(s[0]);
    }
  }

  /** The categories among the first k whose lower-case name contains the input. */
  function Matching(lowerNames: seq<string>, lowerInput: string, k: nat): IconFlags
    requires k <= |Order| && |lowerNames| == |Order|
  {
    set i | 0 <= i < k && Contains(lowerNames[i], lowerInput) :: Order[i]
  }

  /**
   * TryParsePartial: the index form first; otherwise the union of the
   * categories whose lower-case name contains the input, which succeeds iff
   * some category matched. `lowerNames` is LowerNames, in Order's order.
   */
  method TryParsePartial(lowerNames: seq<string>, lowerInput: string) returns (ok: bool, slot: IconFlags)
    requires |lowerNames| == |Order|
    ensures TryParseIndex(lowerInput).0 ==> ok && slot == TryParseIndex(lowerInput).1
    ensures !TryParseIndex(lowerInput).0 ==>
              && (forall j :: 0 <= j < |Order| ==> (Order[j] in slot <==> Contains(lowerNames[j], lowerInput)))
              && (ok <==> slot != {})
              && (ok <==> exists j :: 0 <= j < |Order| && Contains(lowerNames[j], lowerInput))
  {
    var (parsed, index) := TryParseIndex(lowerInput);
    if parsed {
      return true, index;
    }
    slot := {};
    var i := 0;
    while i < |Order|
      invariant 0 <= i <= |Order|
      invariant slot == Matching(lowerNames, lowerInput, i)
    {
      if Contains(lowerNames[i], lowerInput) {
        slot := slot + {Order[i]};
      }
      i := i + 1;
    }
    MatchingMembers(lowerNames, lowerInput);
    ok := slot != {};
  }

  /** Category j is in the full match exactly when its name contains the input. */
  lemma MatchingMembers(lowerNames: seq<string>, lowerInput: string)
    requires |lowerNames| == |Order|
    ensures forall j :: 0 <= j < |Order| ==> (Order[j] in Matching(lowerNames, lowerInput, |Order|) <==> Contains(lowerNames[j], lowerInput))
    ensures Matching(lowerNames, lowerInput, |Order|) != {} <==> exists j :: 0 <= j < |Order| && Contains(lowerNames[j], lowerInput)
  {
    OrderIsFlagSet();
    var m := Matching(lowerNames, lowerInput, |Order|);
    forall j | 0 <= j < |Order| ensures Order[j] in m <==> Contains(lowerNames[j], lowerInput) {
      if Order[j] in m {
        var i :| 0 <= i < |Order| && Contains(lowerNames[i], lowerInput) && Order[i] == Order[j];
        assert i == j;
      }
    }
    if m != {} {
      var c :| c in m;
      var i :| 0 <= i < |Order| && Contains(lowerNames[i], lowerInput) && Order[i] == c;
    }
  }

  /** What the user did with one category icon of the header: a left click, and "Enable Only This". */
  datatype IconEvents = IconEvents(leftClicked: bool, enableOnlyThis: bool)

  /** DrawIcon: a left click flips the category's flag, then "Enable Only This" keeps only it. */
  function DrawIcon(flag: Category, filter: IconFlags, events: IconEvents): (r: (bool, IconFlags))
  {
    var clicked := if events.leftClicked then (if flag in filter then filter - {flag} else filter + {flag}) else filter;
    (events.leftClicked || events.enableOnlyThis, if events.enableOnlyThis then {flag} else clicked)
  }

  /**
   * A click on a category's icon flips exactly that category's flag and
   * reports a change; no event changes nothing; "Enable Only This" leaves
   * that flag alone.
   */
  lemma ClickFlipsOneFlag(flag: Category, filter: IconFlags, onlyThis: bool)
    ensures var (changed, after) := DrawIcon(flag, filter, IconEvents(true, false));
            && changed
            && (flag in after <==> flag !in filter)
            && forall c :: c != flag ==> (c in after <==> c in filter)
    ensures DrawIcon(flag, filter, IconEvents(false, false)) == (false, filter)
    ensures DrawIcon(flag, filter, IconEvents(onlyThis, true)) == (true, {flag})
  {
  }

  /** Two clicks on the same icon give the filter back. */
  lemma ClickTwiceRestores(flag: Category, filter: IconFlags)
    ensures DrawIcon(flag, DrawIcon(flag, filter, IconEvents(true, false)).1, IconEvents(true, false)).1 == filter
  {
    if flag in filter {
      assert filter - {flag} + {flag} == filter;
    } else {
      assert filter + {flag} - {flag} == filter;
    }
  }

  /** The all-button: AllFlags becomes no flag, any other value AllFlags. */
  function AllButton(filter: IconFlags): (r: IconFlags)
    ensures filter == AllFlags <==> r == {}
    ensures r == {} || r == AllFlags
  {
    if filter == AllFlags then {} else AllFlags
  }

  /** The filter after the icons of the first k categories were handled, and whether any of them changed it. */
  function IconsUpTo(filter: IconFlags, events: seq<IconEvents>, k: nat): (r: (bool, IconFlags))
    requires k <= |events| == |Order|
  {
    if k == 0 then (false, filter)
    else
      var (changed, f) := IconsUpTo(filter, events, k - 1);
      var (drawn, g) := DrawIcon(Order[k - 1], f, events[k - 1]);
      (changed || drawn, g)
  }

  /** The icons report a change exactly when some icon was clicked or had "Enable Only This" chosen. */
  lemma {:induction false} IconsUpToChanged(filter: IconFlags, events: seq<IconEvents>, k: nat)
    requires k <= |events| == |Order|
    ensures IconsUpTo(filter, events, k).0 <==> exists i :: 0 <= i < k && (events[i].leftClicked || events[i].enableOnlyThis)
  {
    if k > 0 {
      IconsUpToChanged(filter, events, k - 1);
    }
  }

  /** Without any event the icons leave the filter as it was. */
  lemma {:induction false} QuietIconsKeepFilter(filter: IconFlags, events: seq<IconEvents>, k: nat)
    requires k <= |events| == |Order|
    requires forall i :: 0 <= i < k ==> !events[i].leftClicked && !events[i].enableOnlyThis
    ensures IconsUpTo(filter, events, k) == (false, filter)
  {
    if k > 0 {
      QuietIconsKeepFilter(filter, events, k - 1);
    }
  }

  /**
   * DrawTypeFilter(ref typeFilter): the category icons in Order, then the
   * all-button; the result says whether anything was clicked. `events`
   * holds what the user did with each icon, in Order's order.
   */
  method DrawTypeFilter(typeFilter: IconFlags, events: seq<IconEvents>, allClicked: bool) returns (changed: bool, filter: IconFlags)
    requires |events| == |Order|
    ensures changed <==> allClicked || exists i :: 0 <= i < |Order| && (events[i].leftClicked || events[i].enableOnlyThis)
    ensures !allClicked ==> filter == IconsUpTo(typeFilter, events, |Order|).1
    ensures allClicked ==> filter == AllButton(IconsUpTo(typeFilter, events, |Order|).1)
    ensures !changed ==> filter == typeFilter
  {
    changed, filter := false, typeFilter;
    for i := 0 to |Order|
      invariant (changed, filter) == IconsUpTo(typeFilter, events, i)
    {
      var (drawn, next) := DrawIcon(Order[i], filter, events[i]);
      changed, filter := changed || drawn, next;
    }
    IconsUpToChanged(typeFilter, events, |Order|);
    if !changed {
      QuietIconsKeepFilter(typeFilter, events, |Order|);
    }
    if allClicked {
      filter := AllButton(filter);
      changed := true;
    }
  }

  /** The part of the configuration DrawTypeFilter() reads and writes. */
  class Configuration {
    var hideChangedItemFilters: bool
    var changedItemFilter: IconFlags

    constructor (hidden: bool)
      ensures hideChangedItemFilters == hidden && changedItemFilter == DefaultFlags
    {
      hideChangedItemFilters := hidden;
      changedItemFilter := DefaultFlags;
    }
  }

  /**
   * DrawTypeFilter(): nothing when the filters are hidden; otherwise the
   * configured filter goes through the header and is stored back when
   * something was clicked (saving is not modelled).
   */
  method DrawConfiguredTypeFilter(config: Configuration, events: seq<IconEvents>, allClicked: bool)
    requires |events| == |Order|
    modifies config
    ensures config.hideChangedItemFilters == old(config.hideChangedItemFilters)
    ensures old(config.hideChangedItemFilters) ==> config.changedItemFilter == old(config.changedItemFilter)
    ensures !old(config.hideChangedItemFilters) ==>
              var icons := IconsUpTo(old(config.changedItemFilter), events, |Order|).1;
              config.changedItemFilter == (if allClicked then AllButton(icons) else icons)
  {
    if config.hideChangedItemFilters {
      return;
    }
    var changed, filter := DrawTypeFilter(config.changedItemFilter, events, allClicked);
    if changed {
      config.changedItemFilter := filter;
    }
  }

  /** EquipSlot, with the slots GetCategoryIcon tells apart; the others are kept by their code. */
  datatype EquipSlot = MainHandSlot | OffHandSlot | HeadSlot | BodySlot | HandsSlot | LegsSlot | FeetSlot
                     | EarsSlot | NeckSlot | WristsSlot | RFingerSlot | OtherSlot(code: int)

  /** GetCategoryIcon(EquipSlot). */
  function SlotIcon(slot: EquipSlot): (r: Category)
    ensures r == Unknown <==> slot.OtherSlot?
  {
    match slot
    case MainHandSlot => Mainhand
    case OffHandSlot => Offhand
    case HeadSlot => Head
    case BodySlot => Body
    case HandsSlot => Hands
    case LegsSlot => Legs
    case FeetSlot => Feet
    case EarsSlot => Ears
    case NeckSlot => Neck
    case WristsSlot => Wrists
    case RFingerSlot => Finger
    case OtherSlot(_) => Unknown
  }

  /** The eleven listed slots get eleven different categories, none of them a non-equipment one. */
  lemma SlotIconInjective(a: EquipSlot, b: EquipSlot)
    requires !a.OtherSlot? && !b.OtherSlot?
    ensures a != b ==> SlotIcon(a) != SlotIcon(b)
    ensures SlotIcon(a) !in {Monster, Demihuman, Customization, Action, Emote, Unknown}
  {
  }

  /** CharacterBase.ModelType, as far as GetCategoryIcon tells it apart. */
  datatype ModelType = DemiHumanModel | MonsterModel | OtherModel(code: int)

  /**
   * The data of a changed item: an EquipItem (with the slot its type maps
   * to), a ModelChara, or anything else (a counter, null).
   */
  datatype ChangedObject = EquipItemData(slot: EquipSlot) | ModelCharaData(modelType: ModelType) | OtherData

  /** GetCategoryIcon(name, obj). */
  function CategoryIcon(name: string, obj: ChangedObject): (r: Category)
    ensures obj.EquipItemData? ==> r == SlotIcon(obj.slot)
    ensures obj.ModelCharaData? ==>
              && (r == Demihuman <==> obj.modelType.DemiHumanModel?)
              && (r == Monster <==> obj.modelType.MonsterModel?)
              && (r == Unknown <==> obj.modelType.OtherModel?)
    ensures obj.OtherData? ==>
              && (StartsWith(name, "Action: ") ==> r == Action)
              && (!StartsWith(name, "Action: ") && StartsWith(name, "Emote: ") ==> r == Emote)
              && (!StartsWith(name, "Action: ") && !StartsWith(name, "Emote: ") && StartsWith(name, "Customization: ") ==> r == Customization)
              && (r == Unknown <==> !StartsWith(name, "Action: ") && !StartsWith(name, "Emote: ") && !StartsWith(name, "Customization: "))
  {
    match obj
    case EquipItemData(slot) => SlotIcon(slot)
    case ModelCharaData(m) =>
      (match m
       case DemiHumanModel => Demihuman
       case MonsterModel => Monster
       case OtherModel(_) => Unknown)
    case OtherData =>
      if StartsWith(name, "Action: ") then Action
      else if StartsWith(name, "Emote: ") then Emote
      else if StartsWith(name, "Customization: ") then Customization
      else Unknown
  }

  /**
   * For an object that is neither an item nor a model, each prefix decides
   * its category both ways: the three prefixes exclude each other, so the
   * order in which GetCategoryIcon tests them never matters.
   */
  lemma PrefixDecidesCategory(name: string)
    ensures CategoryIcon(name, OtherData) == Action <==> StartsWith(name, "Action: ")
    ensures CategoryIcon(name, OtherData) == Emote <==> StartsWith(name, "Emote: ")
    ensures CategoryIcon(name, OtherData) == Customization <==> StartsWith(name, "Customization: ")
  {
    if StartsWith(name, "Action: ") {
      assert name[0] == 'A';
    }
    if StartsWith(name, "Emote: ") {
      assert name[0] == 'E';
    }
  }

  /** Penumbra.Api.Enums.ChangedItemIcon. */
  datatype ApiChangedItemIcon =
    | ApiNone | ApiHead | ApiBody | ApiHands | ApiLegs | ApiFeet | ApiEars | ApiNeck | ApiWrists | ApiFinger
    | ApiMonster | ApiDemihuman | ApiCustomization | ApiAction | ApiEmote | ApiMainhand | ApiOffhand | ApiUnknown

  /** The API icon of each single category. */
  function ApiIconOf(c: Category): ApiChangedItemIcon
  {
    match c
    case Head => ApiHead
    case Body => ApiBody
    case Hands => ApiHands
    case Legs => ApiLegs
    case Feet => ApiFeet
    case Ears => ApiEars
    case Neck => ApiNeck
    case Wrists => ApiWrists
    case Finger => ApiFinger
    case Monster => ApiMonster
    case Demihuman => ApiDemihuman
    case Customization => ApiCustomization
    case Action => ApiAction
    case Emote => ApiEmote
    case Mainhand => ApiMainhand
    case Offhand => ApiOffhand
    case Unknown => ApiUnknown
  }

  /** ToApiIcon: a single category maps to its API icon, anything else to None. */
  function ToApiIcon(icon: IconFlags): (r: ApiChangedItemIcon)
    ensures r != ApiNone <==> |icon| == 1
    ensures forall c :: icon == {c} ==> r == ApiIconOf(c)
  {
    if |icon| == 1 then
      var c :| c in icon;
      assert icon == {c} by {
        assert |icon - {c}| == 0;
        assert icon - {c} == {};
      }
      ApiIconOf(c)
    else ApiNone
  }

  /** Different categories get different API icons. */
  lemma ApiIconOfInjective(c: Category, d: Category)
    ensures c != d ==> ApiIconOf(c) != ApiIconOf(d)
    ensures ApiIconOf(c) != ApiNone
  {
  }

  /** ToDescription; `slotName` is EquipSlot.ToName of the slot a body-part category stands for. */
  function ToDescription(icon: Category, slotName: EquipSlot -> string): string
  {
    match icon
    case Head => slotName(HeadSlot)
    case Body => slotName(BodySlot)
    case Hands => slotName(HandsSlot)
    case Legs => slotName(LegsSlot)
    case Feet => slotName(FeetSlot)
    case Ears => slotName(EarsSlot)
    case Neck => slotName(NeckSlot)
    case Wrists => slotName(WristsSlot)
    case Finger => "Ring"
    case Monster => "Monster"
    case Demihuman => "Demi-Human"
    case Customization => "Customization"
    case Action => "Action"
    case Emote => "Emote"
    case Mainhand => "Weapon (Mainhand)"
    case Offhand => "Weapon (Offhand)"
    case Unknown => "Other"
  }

  /** LowerNames: the lower-cased descriptions, in Order's order. */
  function LowerNames(slotName: EquipSlot -> string): (r: seq<string>)
    ensures |r| == |Order|
    ensures forall i :: 0 <= i < |Order| ==> r[i] == ToLower(ToDescription(Order[i], slotName))
  {
    seq(|Order|, i requires 0 <= i < |Order| => ToLower(ToDescription(Order[i], slotName)))
  }

  /** An occurrence of an occurrence is an occurrence: `part` occurs in `s` when it occurs in something that occurs in `s`. */
  lemma OccursInOccurrence(s: string, middle: string, part: string, k1: int, k2: int)
    requires OccursAt(middle, part, k1) && OccursAt(s, middle, k2)
    ensures OccursAt(s, part, k1 + k2)
  {
    forall i | 0 <= i < |part| ensures s[k1 + k2 + i] == part[i] {
      assert part[i] == middle[k1 + i];
      assert middle[k1 + i] == s[k2 + k1 + i];
    }
    assert s[k1 + k2..k1 + k2 + |part|] == part;
  }

  /**
   * Typing more narrows the filter: when the shorter input occurs in the
   * longer one, every category the longer input matches is matched by the
   * shorter one too.
   */
  lemma MatchingNarrows(lowerNames: seq<string>, shorter: string, longer: string)
    requires |lowerNames| == |Order|
    requires Contains(longer, shorter)
    ensures Matching(lowerNames, longer, |Order|) <= Matching(lowerNames, shorter, |Order|)
  {
    MatchingMembers(lowerNames, longer);
    MatchingMembers(lowerNames, shorter);
    forall j | 0 <= j < |Order| && Contains(lowerNames[j], longer) ensures Contains(lowerNames[j], shorter) {
      var k1 :| OccursAt(longer, shorter, k1);
      var k2 :| OccursAt(lowerNames[j], longer, k2);
      OccursInOccurrence(lowerNames[j], longer, shorter, k1, k2);
    }
    forall c | c in Matching(lowerNames, longer, |Order|) ensures c in Matching(lowerNames, shorter, |Order|) {
      var j :| 0 <= j < |Order| && Contains(lowerNames[j], longer) && Order[j] == c;
    }
  }

  /** Typing a category's whole description, in any case, matches that category. */
  lemma FullNameSelects(slotName: EquipSlot -> string, description: string, j: int)
    requires 0 <= j < |Order| && ToLower(description) == ToLower(ToDescription(Order[j], slotName))
    ensures Order[j] in Matching(LowerNames(slotName), ToLower(description), |Order|)
  {
    var names := LowerNames(slotName);
    assert OccursAt(names[j], ToLower(description), 0);
    MatchingMembers(names, ToLower(description));
  }
}
