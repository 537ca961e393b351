/** A profile event item: which events are hidden, which icon an event gets,
    what its tooltip says, and when the item is shown. Events are abstract
    records; the gas mix of a gas change and the isobaric-counterdiffusion
    calculation come from outside and are parameters. */
module DiveEventItem {
  import opened Base
  import opened Gas

  /** The event types the item distinguishes (SAMPLE_EVENT_BOOKMARK, SAMPLE_EVENT_PO2,
      SAMPLE_EVENT_CEILING); every other type is `OtherKind`. */
  datatype EventKind = Bookmark | PO2Event | CeilingEvent | OtherKind

  /** `severity` is the severity field decoded from the event flags; `begin` and
      `end` are the SAMPLE_FLAGS_BEGIN / SAMPLE_FLAGS_END bits; `isGasChange`
      is what `event_is_gaschange` says of the event. */
  datatype Event = Event(
    name: string, kind: EventKind, time: int, value: int, severity: nat,
    begin: bool, end: bool, gasIndex: int, isGasChange: bool)

  /** The external gas tests: `gasmix_is_air` and `isobaric_counterdiffusion`
      (its result flag and the helium and nitrogen deltas it fills in). */
  datatype GasTests = GasTests(isAir: GasMix -> bool, icd: (GasMix, GasMix) -> IcdResult)

  /** An entry of the event-name list with its "plot this event" switch. */
  datatype EventSelection = EventSelection(name: string, plot: bool)

  /** What `shouldBeHidden` reads besides the event: the time of the computer's first
      sample (None when it has no sample array), its duration and the name list. */
  datatype HideContext = HideContext(firstSampleTime: Option<int>, dcDuration: int, namelist: seq<EventSelection>)

  /** Rule 1: the initial-gas report of some computers. */
  predicate InitialGasChange(e: Event, ctx: HideContext)
  {
    e.name == "gaschange"
      && (e.time == 0 || (ctx.firstSampleTime.Some? && e.time == ctx.firstSampleTime.value))
  }

  /** Rule 2: a "surface" event at the very start or the very end of the dive. */
  predicate SurfaceAtEdge(e: Event, ctx: HideContext)
  {
    e.name == "surface" && (e.time <= 30 || e.time + 30 >= ctx.dcDuration)
  }

  /** Rule 3: the user switched this event name off. */
  predicate SwitchedOff(e: Event, namelist: seq<EventSelection>)
  {
    exists i :: 0 <= i < |namelist| && namelist[i].name == e.name && !namelist[i].plot
  }

  /** `shouldBeHidden`: the three hiding rules, with a linear search of the name list. */
  method ShouldBeHidden(e: Event, ctx: HideContext) returns (hidden: bool)
    ensures hidden <==> InitialGasChange(e, ctx) || SurfaceAtEdge(e, ctx) || SwitchedOff(e, ctx.namelist)
  {
    if e.name == "gaschange" && (e.time == 0 || (ctx.firstSampleTime.Some? && e.time == ctx.firstSampleTime.value)) {
      return true;
    }
    if e.name == "surface" {
      var time := e.time;
      if time <= 30 || time + 30 >= ctx.dcDuration {
        return true;
      }
    }
    var i := 0;
    while i < |ctx.namelist|
      invariant 0 <= i <= |ctx.namelist|
      invariant forall k :: 0 <= k < i ==> !(ctx.namelist[k].name == e.name && !ctx.namelist[k].plot)
    {
      if e.name == ctx.namelist[i].name && !ctx.namelist[i].plot {
        return true;
      }
      i := i + 1;
    }
    return false;
  }

  /** ASCII case folding, as `strcasecmp` does in the C locale. */
  function AsciiLower(c: char): (l: char)
    ensures 'A' <= c <= 'Z' ==> 'a' <= l <= 'z'
    ensures !('A' <= c <= 'Z') ==> l == c
  {
    if 'A' <= c <= 'Z' then (c as int - 'A' as int + 'a' as int) as char else c
  }

  /** `same_string_caseinsensitive`. */
  predicate SameIgnoringCase(a: string, b: string)
  {
    |a| == |b| && forall i :: 0 <= i < |a| ==> AsciiLower(a[i]) == AsciiLower(b[i])
  }

  predicate NamedIn(name: string, names: seq<string>)
  {
    exists i :: 0 <= i < |names| && SameIgnoringCase(name, names[i])
  }

  /** Names that get the violation icon (libdivecomputer's and the Uemis downloader's). */
  const ViolationNames: seq<string> := ["violation", "Safety stop violation", "pO₂ ascend alarm",
    "RGT alert", "Dive time alert", "Low battery alert", "Speed alarm"]

  /** Names that get the information icon. */
  const InfoNames: seq<string> := ["non stop time", "safety stop", "safety stop (voluntary)",
    "Tank change suggested", "Marker"]

  datatype GasIconKind = TrimixIcon | AirIcon | OxygenIcon | EanIcon

  /** The pixmaps `setupPixmap` chooses from; the transparent one keeps the tooltip
      of an event that should not clutter the profile. */
  datatype Icon = WarningIcon | BookmarkIcon | GasIcon(gas: GasIconKind, icd: bool)
                | TransparentIcon | InfoIcon | ViolationIcon

  /** The gas-change icon family: helium first, then air, then pure oxygen, else nitrox. */
  function GasIconKindOf(mix: GasMix, isAir: GasMix -> bool): (k: GasIconKind)
    ensures k == TrimixIcon <==> mix.he != 0
    ensures k == AirIcon <==> mix.he == 0 && isAir(mix)
    ensures k == OxygenIcon <==> mix.he == 0 && !isAir(mix) && mix.o2 == 1000
  {
    if mix.he != 0 then TrimixIcon
    else if isAir(mix) then AirIcon
    else if mix.o2 == 1000 then OxygenIcon
    else EanIcon
  }

  /** Events a dive computer marks as uninteresting: severity 1 (when the flags carry
      a severity), a heading in every sample, or the initial setpoint report. */
  predicate Unobtrusive(e: Event, severityFlags: bool)
  {
    (severityFlags && e.severity == 1) || SameIgnoringCase(e.name, "heading")
      || (SameIgnoringCase(e.name, "SP change") && e.time == 0)
  }

  /** The decision chain of `setupPixmap`. `mix` is the gas the event switches to,
      `lastMix` the gas in use before it; `severityFlags` says whether the build
      decodes a severity from the event flags. */
  function EventIcon(e: Event, lastMix: GasMix, mix: GasMix, g: GasTests, severityFlags: bool): (icon: Icon)
    ensures e.name == "" ==> icon == WarningIcon
    ensures e.name != "" && e.kind == Bookmark ==> icon == BookmarkIcon
    ensures icon.GasIcon? <==> e.name != "" && e.kind != Bookmark && e.isGasChange
    ensures icon.GasIcon? ==> icon.gas == GasIconKindOf(mix, g.isAir) && icon.icd == g.icd(lastMix, mix).violated
    ensures icon == TransparentIcon <==> e.name != "" && e.kind != Bookmark && !e.isGasChange && Unobtrusive(e, severityFlags)
  {
    if e.name == "" then WarningIcon
    else if e.kind == Bookmark then BookmarkIcon
    else if e.isGasChange then GasIcon(GasIconKindOf(mix, g.isAir), g.icd(lastMix, mix).violated)
    else if Unobtrusive(e, severityFlags) then TransparentIcon
    else if severityFlags && e.severity == 2 then InfoIcon
    else if severityFlags && e.severity == 3 then WarningIcon
    else if severityFlags && e.severity == 4 then ViolationIcon
    else if NamedIn(e.name, ViolationNames) then ViolationIcon
    else if NamedIn(e.name, InfoNames) then InfoIcon
    else WarningIcon
  }

  /** A named event that no rule recognises is drawn with the warning icon. */
  lemma UnknownEventGetsWarning(e: Event, lastMix: GasMix, mix: GasMix, g: GasTests, severityFlags: bool)
    requires e.name != "" && e.kind != Bookmark && !e.isGasChange
    requires !Unobtrusive(e, severityFlags)
    requires !(severityFlags && 2 <= e.severity <= 4)
    requires forall i :: 0 <= i < |ViolationNames| ==> !SameIgnoringCase(e.name, ViolationNames[i])
    requires forall i :: 0 <= i < |InfoNames| ==> !SameIgnoringCase(e.name, InfoNames[i])
    ensures EventIcon(e, lastMix, mix, g, severityFlags) == WarningIcon
  {
  }

  /** Names are matched regardless of ASCII case: "SPEED ALARM" is a violation. */
  lemma ShoutedAlarmIsViolation(g: GasTests, m: GasMix)
    ensures EventIcon(Event("SPEED ALARM", OtherKind, 60, 0, 0, false, false, -1, false), m, m, g, false) == ViolationIcon
  {
    assert SameIgnoringCase("SPEED ALARM", ViolationNames[6]);
  }

  /** The ICD line of a gas-change tooltip: the deltas, whether the limit is exceeded
      (the ">" comparator) and the limit on the nitrogen increase, in permille. */
  datatype IcdNote = IcdNote(dHe: int, dN2: int, exceeded: bool, maxDN2: int)

  /** `lrint(-dHe / 5.0)`: one fifth of the helium drop rounded to the nearest
      integer (a fifth is never exactly half-way). */
  function RoundedMaxDeltaN2(dHe: int): (m: int)
    requires dHe < 0
    ensures -2 <= 5 * m + dHe <= 2
    ensures m >= 0
  {
    (-dHe + 2) / 5
  }

  /** The text after the event name in the tooltip. */
  datatype TooltipDetail =
    | GasDetail(mix: GasMix, cylinder: Option<int>, icd: Option<IcdNote>)
    | SetpointDetail(mbar: int)
    | CeilingDetail(meters: int)
    | ValueDetail(value: int)
    | ManualSwitchToOC
    | BeginDetail
    | EndDetail
    | NoDetail

  /** `setupToolTipString`. */
  function TooltipFor(e: Event, lastMix: GasMix, mix: GasMix, g: GasTests): (d: TooltipDetail)
    ensures d.GasDetail? <==> e.isGasChange
    ensures d.GasDetail? ==> d.mix == mix
    ensures d.GasDetail? ==> (d.cylinder.Some? <==> e.gasIndex >= 0)
    ensures d.GasDetail? && d.cylinder.Some? ==> d.cylinder.value == e.gasIndex + 1
    ensures d.GasDetail? ==> (d.icd.Some? <==> g.icd(lastMix, mix).dHe < 0)
    ensures d.GasDetail? && d.icd.Some? ==> d.icd.value.exceeded == g.icd(lastMix, mix).violated
    ensures d.GasDetail? && d.icd.Some? ==> d.icd.value.dHe == g.icd(lastMix, mix).dHe && d.icd.value.dN2 == g.icd(lastMix, mix).dN2
    ensures !e.isGasChange && e.value != 0 ==> d.SetpointDetail? || d.CeilingDetail? || d.ValueDetail?
    ensures !e.isGasChange && e.value == 0 ==> d.ManualSwitchToOC? || d.BeginDetail? || d.EndDetail? || d.NoDetail?
  {
    if e.isGasChange then
      var r := g.icd(lastMix, mix);
      var cyl := if e.gasIndex >= 0 then Some(e.gasIndex + 1) else None;
      var note := if r.dHe < 0 then Some(IcdNote(r.dHe, r.dN2, r.violated, RoundedMaxDeltaN2(r.dHe))) else None;
      GasDetail(mix, cyl, note)
    else if e.value != 0 then
      if e.kind == PO2Event && e.name == "SP change" then SetpointDetail(e.value)
      else if e.kind == CeilingEvent && e.name == "planned waypoint above ceiling" then CeilingDetail(e.value)
      else ValueDetail(e.value)
    else if e.kind == PO2Event && e.name == "SP change" then ManualSwitchToOC
    else if e.begin then BeginDetail
    else if e.end then EndDetail
    else NoDetail
  }

  /** The decimal text of a non-negative number, most significant digit first. */
  function Digits(n: nat): (t: string)
    ensures |t| >= 1
    ensures forall i :: 0 <= i < |t| ==> '0' <= t[i] <= '9'
    decreases n
  {
    if n < 10 then [('0' as int + n) as char]
    else Digits(n / 10) + [('0' as int + n % 10) as char]
  }

  /** How an `int` held in a model cell is displayed: its decimal text, with a minus
      sign when negative. */
  function DecimalText(n: int): (t: string)
    ensures |t| >= 1
    ensures n < 0 <==> t[0] == '-'
  {
    if n < 0 then "-" + Digits(-n) else Digits(n)
  }

  /** The test of `QAbstractItemModel::match` with its default flags (MatchStartsWith |
      MatchWrap): a cell matches when its displayed text starts with the text of the
      value looked for. */
  predicate MatchesTime(time: int, cell: int)
  {
    DecimalText(time) <= DecimalText(cell)
  }

  /** `match` over the time column finds some row. */
  predicate TimeMatched(time: int, times: seq<int>)
  {
    exists row :: 0 <= row < |times| && MatchesTime(time, times[row])
  }

  /** A row holding exactly the event's time always matches. */
  lemma ExactTimeMatches(time: int, times: seq<int>, row: nat)
    requires row < |times| && times[row] == time
    ensures TimeMatched(time, times)
  {
  }

  /** The match is by text prefix, not by value: an event at 6 s finds the row at 60 s
      although no row holds 6 s, and an event at 60 s does not find the row at 6 s. */
  lemma PrefixMatchIsNotEquality()
    ensures TimeMatched(6, [0, 60]) && !(exists row :: 0 <= row < 2 && [0, 60][row] == 6)
    ensures !TimeMatched(60, [0, 6])
  {
    assert DecimalText(6) == "6";
    assert DecimalText(60) == "60";
    assert MatchesTime(6, [0, 60][1]);
    assert DecimalText(0) == "0";
  }

  /** A negative time only matches negative cells, and a non-negative one only
      non-negative cells. */
  lemma MatchKeepsSign(time: int, cell: int)
    requires MatchesTime(time, cell)
    ensures time < 0 <==> cell < 0
  {
    assert DecimalText(time)[0] == DecimalText(cell)[0];
  }

  /** The caller's `lastgasmix`, which the tooltip code overwrites. */
  class GasMixSlot {
    var mix: GasMix
    constructor (mix: GasMix)
      ensures this.mix == mix
    {
      this.mix := mix;
    }
  }

  /** The item's state: which of the axes and the data model are attached, its event,
      icon, tooltip and visibility. Positions and animation are not modelled. */
  class EventItem {
    var hasVAxis: bool
    var hasHAxis: bool
    var hasModel: bool
    var event: Option<Event>
    var icon: Icon
    var tooltip: TooltipDetail
    var visible: bool

    constructor ()
      ensures !hasVAxis && !hasHAxis && !hasModel && event.None? && visible
    {
      hasVAxis, hasHAxis, hasModel := false, false, false;
      event := None;
      icon := WarningIcon;
      tooltip := NoDetail;
      visible := true;
    }

    /** The visibility `recalculatePos` leaves behind once everything is attached:
        shown iff the data model matches the event's time and no hiding rule applies. */
    ghost predicate ShownAfterRecalc(e: Event, ctx: HideContext, times: seq<int>)
    {
      TimeMatched(e.time, times)
        && !(InitialGasChange(e, ctx) || SurfaceAtEdge(e, ctx) || SwitchedOff(e, ctx.namelist))
    }

    /** `recalculatePos`; `times` is the time column of the plot data model. */
    method RecalculatePos(ctx: HideContext, times: seq<int>)
      modifies this`visible
      ensures !(hasVAxis && hasHAxis && hasModel && event.Some?) ==> visible == old(visible)
      ensures hasVAxis && hasHAxis && hasModel && event.Some? ==> visible == ShownAfterRecalc(event.value, ctx, times)
    {
      if !hasVAxis || !hasHAxis || event.None? || !hasModel {
        return;
      }
      var e := event.value;
      var row := 0;
      while row < |times| && !MatchesTime(e.time, times[row])
        invariant 0 <= row <= |times|
        invariant forall k :: 0 <= k < row ==> !MatchesTime(e.time, times[k])
      {
        row := row + 1;
      }
      if row == |times| {
        visible := false;
        return;
      }
      var hidden := ShouldBeHidden(e, ctx);
      if !visible && !hidden {
        visible := true;
      }
      hidden := ShouldBeHidden(e, ctx);
      if visible && hidden {
        visible := false;
      }
    }

    /** `setEvent`: a null event is ignored; otherwise the icon is chosen against the
        previous gas, the tooltip is built (which records the new gas in `last`) and
        the position is recalculated. */
    method SetEvent(ev: Option<Event>, last: GasMixSlot, mix: GasMix, g: GasTests, severityFlags: bool,
                    ctx: HideContext, times: seq<int>)
      modifies this, last
      ensures ev.None? ==> unchanged(this) && unchanged(last)
      ensures ev.Some? ==> event == ev
      ensures ev.Some? ==> icon == EventIcon(ev.value, old(last.mix), mix, g, severityFlags)
      ensures ev.Some? ==> tooltip == TooltipFor(ev.value, old(last.mix), mix, g)
      ensures ev.Some? ==> last.mix == (if ev.value.isGasChange then mix else old(last.mix))
      ensures ev.Some? ==> hasVAxis == old(hasVAxis) && hasHAxis == old(hasHAxis) && hasModel == old(hasModel)
      ensures ev.Some? && hasVAxis && hasHAxis && hasModel ==> visible == ShownAfterRecalc(ev.value, ctx, times)
      ensures ev.Some? && !(hasVAxis && hasHAxis && hasModel) ==> visible == old(visible)
    {
      if ev.None? {
        return;
      }
      event := ev;
      icon := EventIcon(ev.value, last.mix, mix, g, severityFlags);
      tooltip := TooltipFor(ev.value, last.mix, mix, g);
      if ev.value.isGasChange {
        last.mix := mix;
      }
      RecalculatePos(ctx, times);
    }

    method SetHorizontalAxis(ctx: HideContext, times: seq<int>)
      modifies this`hasHAxis, this`visible
      ensures hasHAxis
      ensures hasVAxis && hasModel && event.Some? ==> visible == ShownAfterRecalc(event.value, ctx, times)
      ensures !(hasVAxis && hasModel && event.Some?) ==> visible == old(visible)
    {
      hasHAxis := true;
      RecalculatePos(ctx, times);
    }

    method SetVerticalAxis(ctx: HideContext, times: seq<int>)
      modifies this`hasVAxis, this`visible
      ensures hasVAxis
      ensures hasHAxis && hasModel && event.Some? ==> visible == ShownAfterRecalc(event.value, ctx, times)
      ensures !(hasHAxis && hasModel && event.Some?) ==> visible == old(visible)
    {
      hasVAxis := true;
      RecalculatePos(ctx, times);
    }

    method SetModel(ctx: HideContext, times: seq<int>)
      modifies this`hasModel, this`visible
      ensures hasModel
      ensures hasVAxis && hasHAxis && event.Some? ==> visible == ShownAfterRecalc(event.value, ctx, times)
      ensures !(hasVAxis && hasHAxis && event.Some?) ==> visible == old(visible)
    {
      hasModel := true;
      RecalculatePos(ctx, times);
    }
  }
}
