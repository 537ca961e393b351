/** The salinity part of the dive-information tab: the threshold maps between a
    salinity (in g/10 l, so 10300 is sea water) and the water-type combo box,
    the "overwritten by the user" indicator, and the effective salinity. */
module TabDiveInformation {
  import opened Base

  /** Salinity constants of the dive record (FRESHWATER_SALINITY, EN13319_SALINITY,
      SEAWATER_SALINITY) and the literal used for brackish water. */
  const FreshwaterSalinity: int := 10000
  const BrackishSalinity: int := 10100
  const En13319Salinity: int := 10200
  const SeawaterSalinity: int := 10300

  /** Combo-box positions: FRESHWATER, SALTYWATER, EN13319WATER, SEAWATER and "use dc". */
  const FreshIndex: nat := 0
  const SaltyIndex: nat := 1
  const En13319Index: nat := 2
  const SeaIndex: nat := 3
  const UseDcIndex: nat := 4

  /** The model string of a dive computer that marks a manually entered dive. */
  const ManualDiveModel: string := "manually added dive"

  /** `updateSalinityComboIndex`: the combo position for a salinity. */
  function SalinityComboIndex(salinity: int): (idx: nat)
    ensures idx <= SeaIndex
    ensures idx == FreshIndex <==> salinity < 10050
    ensures idx == SeaIndex <==> salinity >= 10210
  {
    if salinity < 10050 then FreshIndex
    else if salinity < 10190 then SaltyIndex
    else if salinity < 10210 then En13319Index
    else SeaIndex
  }

  /** A higher salinity never selects a fresher water type. */
  lemma ComboIndexMonotone(s1: int, s2: int)
    requires s1 <= s2
    ensures SalinityComboIndex(s1) <= SalinityComboIndex(s2)
  {
  }

  /** The texts of the four water types, in combo order. */
  const WaterTypeNames: seq<string> := ["Fresh", "Salty", "EN13319", "Salt"]

  /** The read-only label shown when salinity cannot be edited (`updateData`). */
  function WaterTypeLabel(salinity: int): (name: string)
    ensures name in WaterTypeNames
  {
    if salinity < 10050 then "Fresh"
    else if salinity < 10190 then "Salty"
    else if salinity < 10210 then "EN13319"
    else "Salt"
  }

  /** The label and the combo box classify every salinity alike. */
  lemma LabelAgreesWithComboIndex(salinity: int)
    ensures WaterTypeLabel(salinity) == WaterTypeNames[SalinityComboIndex(salinity)]
  {
  }

  /** The switch in `on_waterTypeCombo_activated`: the salinity chosen by a
      combo position; "use dc" and every other position give 0. */
  function ComboSalinity(index: int): (salinity: int)
    ensures salinity == 0 <==> !(0 <= index <= SeaIndex)
    ensures salinity != 0 ==> FreshwaterSalinity <= salinity <= SeawaterSalinity
  {
    if index == 0 then FreshwaterSalinity
    else if index == 1 then BrackishSalinity
    else if index == 2 then En13319Salinity
    else if index == 3 then SeawaterSalinity
    else 0
  }

  /** Choosing a water type and reading the combo position back from the
      stored salinity gives the same position, for each of the four types. */
  lemma ComboRoundTrip(index: int)
    requires 0 <= index <= SeaIndex
    ensures SalinityComboIndex(ComboSalinity(index)) == index
  {
  }

  /** The salinity held by "use dc" is not a water type of its own: it reads back as fresh. */
  lemma UseDcReadsBackFresh()
    ensures SalinityComboIndex(ComboSalinity(UseDcIndex)) == FreshIndex
  {
  }

  /** `checkDcSalinityOverWritten`: the exclamation icon is shown for a user value that
      differs from the computer's, unless both are at least 10250 (libdivecomputer
      records sea water as 10250 where this program uses 10300). */
  predicate SalinityOverwritten(dcSalinity: int, userSalinity: int)
  {
    dcSalinity != 0 && userSalinity != 0 && userSalinity != dcSalinity
      && (dcSalinity < 10250 || userSalinity < 10250)
  }

  lemma OverwrittenSymmetric(dcSalinity: int, userSalinity: int)
    ensures SalinityOverwritten(dcSalinity, userSalinity) == SalinityOverwritten(userSalinity, dcSalinity)
  {
  }

  /** Two sea-water readings never raise the indicator, however they differ;
      a missing value on either side never does either. */
  lemma OverwrittenNeedsBothAndOneBelowSea(dcSalinity: int, userSalinity: int)
    ensures SalinityOverwritten(dcSalinity, userSalinity) ==>
      dcSalinity != 0 && userSalinity != 0 && dcSalinity != userSalinity
    ensures dcSalinity >= 10250 && userSalinity >= 10250 ==> !SalinityOverwritten(dcSalinity, userSalinity)
  {
  }

  /** The salinity the tab displays: the user's value if set, else the dive's. */
  function EffectiveSalinity(userSalinity: int, diveSalinity: int): (salinity: int)
    ensures userSalinity != 0 ==> salinity == userSalinity
    ensures userSalinity == 0 ==> salinity == diveSalinity
    ensures salinity == 0 <==> userSalinity == 0 && diveSalinity == 0
  {
    if userSalinity != 0 then userSalinity else diveSalinity
  }

  /** Lines 233-234: a manual dive without a user salinity is taken to be in sea water. */
  function DefaultedUserSalinity(manual: bool, userSalinity: int): (salinity: int)
    ensures salinity != 0 <==> userSalinity != 0 || manual
    ensures userSalinity != 0 ==> salinity == userSalinity
  {
    if manual && userSalinity == 0 then SeawaterSalinity else userSalinity
  }

  /** What `updateData` leaves on screen for salinity. `updateWaterTypeWidget` shows either
      the combo box (at `index`) or the read-only label (with `text`, empty once cleared);
      `value` is the salinity text, None once cleared; `indicator` is the new state of the
      overwrite icon, None when it is left as it was. */
  datatype SalinityView =
    | ComboView(index: nat, indicator: Option<bool>, value: Option<int>)
    | LabelView(text: string, indicator: Option<bool>, value: Option<int>)

  /** The salinity fields of `updateData`, after the sea-water default has been applied. */
  function SalinityViewOf(editDefault: bool, manual: bool, userSalinity: int, diveSalinity: int, dcSalinity: int): (v: SalinityView)
    ensures v.ComboView? <==> editDefault || manual
    ensures v.ComboView? ==> v.index == SalinityComboIndex(EffectiveSalinity(userSalinity, diveSalinity))
    ensures v.LabelView? ==> (v.text == "" <==> EffectiveSalinity(userSalinity, diveSalinity) == 0)
    ensures v.LabelView? && v.text != "" ==>
      v.text == WaterTypeNames[SalinityComboIndex(EffectiveSalinity(userSalinity, diveSalinity))]
    ensures v.value.None? <==> EffectiveSalinity(userSalinity, diveSalinity) == 0
    ensures v.value.Some? ==> v.value.value == EffectiveSalinity(userSalinity, diveSalinity)
    ensures v.indicator.Some? <==> EffectiveSalinity(userSalinity, diveSalinity) != 0
    ensures v.indicator.Some? ==> v.indicator.value == SalinityOverwritten(dcSalinity, userSalinity)
  {
    var s := EffectiveSalinity(userSalinity, diveSalinity);
    if s == 0 then
      if editDefault || manual then ComboView(FreshIndex, None, None) else LabelView("", None, None)
    else if editDefault || manual then
      ComboView(SalinityComboIndex(s), Some(SalinityOverwritten(dcSalinity, userSalinity)), Some(s))
    else
      LabelView(WaterTypeLabel(s), Some(SalinityOverwritten(dcSalinity, userSalinity)), Some(s))
  }

  /** With salinity editing on and no salinity known, the combo box stays visible and is
      reset to its first entry, fresh water; the salinity text is cleared and the
      indicator keeps its state. */
  lemma UnknownSalinityShowsFresh(manual: bool, userSalinity: int, diveSalinity: int, dcSalinity: int)
    requires userSalinity == 0 && diveSalinity == 0
    ensures SalinityViewOf(true, manual, userSalinity, diveSalinity, dcSalinity) == ComboView(FreshIndex, None, None)
  {
  }

  /** A manual dive always shows a salinity, in the combo box, with the indicator recomputed. */
  lemma ManualDiveShowsCombo(editDefault: bool, userSalinity: int, diveSalinity: int, dcSalinity: int)
    ensures var v := SalinityViewOf(editDefault, true, DefaultedUserSalinity(true, userSalinity), diveSalinity, dcSalinity);
      v.ComboView? && v.value.Some? && v.indicator.Some?
  {
  }

  /** `divesEdited`: the count shown in the multi-dive warning, if it is shown. */
  function MultiDiveWarning(edited: int): (shown: Option<int>)
    ensures shown.Some? <==> edited > 1
    ensures shown.Some? ==> shown.value == edited
  {
    if edited <= 1 then None else Some(edited)
  }

  /** The salinity-related fields of the current dive. */
  class Dive {
    var userSalinity: int
    var salinity: int
    var dcSalinity: int
    var dcModel: string

    constructor (userSalinity: int, salinity: int, dcSalinity: int, dcModel: string)
      ensures this.userSalinity == userSalinity && this.salinity == salinity
      ensures this.dcSalinity == dcSalinity && this.dcModel == dcModel
    {
      this.userSalinity := userSalinity;
      this.salinity := salinity;
      this.dcSalinity := dcSalinity;
      this.dcModel := dcModel;
    }

    /** The salinity part of `updateData`: stores the sea-water default of a
        manual dive (the one write to the dive) and returns what is displayed. */
    method UpdateData(editDefault: bool) returns (view: SalinityView)
      modifies this`userSalinity
      ensures userSalinity == DefaultedUserSalinity(dcModel == ManualDiveModel, old(userSalinity))
      ensures view == SalinityViewOf(editDefault, dcModel == ManualDiveModel, userSalinity, salinity, dcSalinity)
    {
      var manual := dcModel == ManualDiveModel;
      if manual && userSalinity == 0 {
        userSalinity := SeawaterSalinity;
      }
      var value: int;
      if userSalinity != 0 {
        value := userSalinity;
      } else {
        value := salinity;
      }
      if value != 0 {
        var overwritten := SalinityOverwritten(dcSalinity, userSalinity);
        if editDefault || manual {
          view := ComboView(SalinityComboIndex(value), Some(overwritten), Some(value));
        } else {
          view := LabelView(WaterTypeLabel(value), Some(overwritten), Some(value));
        }
      } else if editDefault || manual {
        view := ComboView(FreshIndex, None, None);
      } else {
        view := LabelView("", None, None);
      }
    }

    /** The salinity part of `divesChanged` for the current dive: the combo position
        is refreshed from the effective salinity, and the indicator only when the
        salinity field itself changed. */
    method DivesChanged(salinityChanged: bool) returns (index: nat, value: int, indicator: Option<bool>)
      ensures value == EffectiveSalinity(userSalinity, salinity)
      ensures index == SalinityComboIndex(value)
      ensures indicator.Some? <==> salinityChanged
      ensures indicator.Some? ==> indicator.value == SalinityOverwritten(dcSalinity, userSalinity)
    {
      indicator := if salinityChanged then Some(SalinityOverwritten(dcSalinity, userSalinity)) else None;
      if userSalinity != 0 {
        value := userSalinity;
      } else {
        value := salinity;
      }
      index := SalinityComboIndex(value);
    }
  }
}
