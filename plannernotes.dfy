/** The dive-plan notes around the waypoint walk: the rounded runtime of a plan, the
    early exits and the surface-interval banner, the per-cylinder gas warnings and the
    minimum-gas reserve, the ICD section, and the pO2 warnings. The notes are built as
    a structured record instead of HTML. */
module PlannerNotes {
  import opened Base
  import opened Gas
  import opened PlannerWalk

  /** The dive computer's mode (`enum divemode_t`). */
  datatype DiveMode = OC | CCR | PSCR | Freedive

  /** The decompression model the planner is set to (`decoMode()`). */
  datatype DecoMode = Buehlmann | Recreational | Vpmb

  /** What a cylinder is used for (`enum cylinderuse`). */
  datatype CylinderUse = OcGas | Diluent | Oxygen | NotUsed

  /** A cylinder of the planned dive: size (ml), start and end pressure (mbar), gas, use,
      and the gas the plan uses from it in all and on the ascent (ml). */
  datatype Cylinder = Cylinder(sizeMl: int, startMbar: int, endMbar: int, gas: GasMix, use: CylinderUse,
                               gasUsedMl: int, decoGasUsedMl: int)

  /** The plan points and the surface interval before the dive (seconds). */
  datatype DivePlan = DivePlan(wps: seq<Waypoint>, surfaceInterval: int)

  /** The planner preferences the notes read: verbatim, "display transitions" and
      "display variations", the deco model, and the pO2 limits (mbar) for entered and
      for computed segments. */
  datatype Prefs = Prefs(verbatim: bool, transitions: bool, variations: bool, deco: DecoMode,
                         bottomPo2: int, decoPo2: int)

  /** The functions of the notes whose bodies are not part of this model, or which
      compute in floating point: `gasmix_distance` (as "the distance is non-zero"),
      `isobaric_counterdiffusion`, `cylinder_none`, the compressibility test for the
      ascent reserve, the minimum-gas pressure for a cylinder at the bottom depth (with
      the SAC preferences inside), the sign of the minimum-gas margin, and the oxygen
      partial pressure of a gas at a plan point's depth. */
  datatype Physics = Physics(
    differ: (GasMix, GasMix) -> bool,
    icd: (GasMix, GasMix) -> IcdResult,
    isNone: Cylinder -> bool,
    shortOfReserve: Cylinder -> bool,
    minGasMbar: (Cylinder, int) -> int,
    marginPositive: (Cylinder, int) -> bool,
    po2: (Waypoint, GasMix) -> real)

  // ------------------------------------------------------------------
  // Runtime

  /** The latest time of any plan point, or 0 for an empty plan. */
  function MaxTime(wps: seq<Waypoint>): (m: int)
    ensures m >= 0
    ensures forall k :: 0 <= k < |wps| ==> wps[k].time <= m
    ensures m == 0 || exists k :: 0 <= k < |wps| && wps[k].time == m
  {
    if wps == [] then 0
    else
      var m := MaxTime(wps[..|wps| - 1]);
      if wps[|wps| - 1].time > m then wps[|wps| - 1].time else m
  }

  /** `diveplan_duration`: the running maximum of the plan times, in minutes rounded to
      the nearest minute. */
  method DiveplanDuration(wps: seq<Waypoint>) returns (minutes: int)
    ensures minutes == CDiv(MaxTime(wps) + 30, 60)
    ensures wps == [] ==> minutes == 0
  {
    var duration := 0;
    var k := 0;
    while k < |wps|
      invariant 0 <= k <= |wps|
      invariant duration == MaxTime(wps[..k])
    {
      assert wps[..k + 1][..k] == wps[..k];
      if wps[k].time > duration {
        duration := wps[k].time;
      }
      k := k + 1;
    }
    assert wps[..k] == wps;
    minutes := CDiv(duration + 30, 60);
  }

  /** The runtime is the latest plan time rounded to the nearest minute (halves up). */
  lemma DurationRoundsToNearestMinute(wps: seq<Waypoint>)
    ensures var m := CDiv(MaxTime(wps) + 30, 60);
      m * 60 - 30 <= MaxTime(wps) < m * 60 + 30
  {
    CDivBounds(MaxTime(wps) + 30, 60);
  }

  // ------------------------------------------------------------------
  // Banner and early exits

  /** The header of the notes: overlapping dives for a negative surface interval, no
      interval from 48 hours on, and otherwise the interval as hours and minutes. */
  datatype Banner = Overlapping | LongLayoff | Interval(hours: int, minutes: int)

  /** The banner for a surface interval: `FRACTION(interval / 60, 60)` splits the whole
      minutes into hours and minutes; on these non-negative values C's `/` and `%` are
      the truncating quotient and the rest. */
  function BannerOf(interval: int): (b: Banner)
    ensures b == Overlapping <==> interval < 0
    ensures b == LongLayoff <==> interval >= 48 * 60 * 60
  {
    if interval < 0 then Overlapping
    else if interval >= 48 * 60 * 60 then LongLayoff
    else
      var mins := CDiv(interval, 60);
      var h := CDiv(mins, 60);
      Interval(h, mins - h * 60)
  }

  /** A shown interval is below 48 hours, its minutes are below 60, and it is the
      interval truncated to whole minutes. */
  lemma BannerShowsInterval(interval: int)
    requires BannerOf(interval).Interval?
    ensures var b := BannerOf(interval);
      && 0 <= b.hours < 48 && 0 <= b.minutes < 60
      && (b.hours * 60 + b.minutes) * 60 <= interval < (b.hours * 60 + b.minutes) * 60 + 60
  {
    var mins := CDiv(interval, 60);
    CDivBounds(interval, 60);
    CDivBounds(mins, 60);
  }

  /** The warning of a cylinder entry: none, more gas used than available, too little for the ascent with a buddy sharing, or a minimum gas above the start pressure. */
  datatype CylWarning = NoWarning | MoreThanAvailable | NoSharingReserve | MinGasAboveStart

  /** A cylinder's entry: whether pressures are shown (the size is known), its warning,
      the minimum-gas pressure computed for it (mbar), and the minimum-gas line, shown
      green or red by the sign of the margin. */
  datatype CylNote = CylNote(index: nat, pressures: bool, warning: CylWarning,
                             required: Option<int>, margin: Option<bool>)

  /** The ICD section of a trimix dive: its entries and whether the warning follows it. */
  datatype IcdSection = IcdSection(entries: seq<IcdEntry>, warning: bool)

  /** A pO2 warning at a plan point, with the partial pressure it reports. */
  datatype Po2Warning = HighPo2(wp: nat, po2: real) | LowPo2(wp: nat, po2: real)

  /** The notes a plan gets: the abort warning alone, the overlapping-dives header alone
      (after the disclaimer, if shown), or the full plan. */
  datatype Notes =
    | Aborted
    | OverlappingHeader(disclaimer: bool)
    | Plan(disclaimer: bool, banner: Banner, runtimeMin: int, variations: bool, walk: WalkState,
           cylinders: seq<CylNote>, icd: Option<IcdSection>, po2: seq<Po2Warning>)

  /** What happens to the dive's notes: nothing, or they are replaced. */
  datatype NotesUpdate = Untouched | Written(notes: Notes)

  // ------------------------------------------------------------------
  // Cylinders

  /** The minimum gas is computed for the cylinder of the last bottom point, in OC mode,
      unless the planner is in recreational mode. */
  predicate MinGasApplies(idx: nat, bottom: Option<Waypoint>, mode: DiveMode, deco: DecoMode)
  {
    bottom.Some? && idx == bottom.value.cylinder && mode == OC && deco != Recreational
  }

  /** One cylinder's entry. With no size nothing pressure-based is computed. An end
      pressure below 10 bar is more gas than available; otherwise too little gas for
      the ascent is the sharing-reserve warning; only when neither fired is the minimum
      gas computed, and it is shown when the start pressure exceeds it, else the
      "exceeding start pressure" warning replaces it. */
  function CylinderNote(c: Cylinder, idx: nat, bottom: Option<Waypoint>, mode: DiveMode, deco: DecoMode,
                        ph: Physics): (n: CylNote)
    ensures n.index == idx
  {
    if c.sizeMl == 0 then CylNote(idx, false, NoWarning, None, None)
    else if c.endMbar < 10000 then CylNote(idx, true, MoreThanAvailable, None, None)
    else if ph.shortOfReserve(c) then CylNote(idx, true, NoSharingReserve, None, None)
    else if MinGasApplies(idx, bottom, mode, deco) then
      var req := ph.minGasMbar(c, bottom.value.depth);
      if c.startMbar > req then CylNote(idx, true, NoWarning, Some(req), Some(ph.marginPositive(c, req)))
      else CylNote(idx, true, MinGasAboveStart, Some(req), None)
    else CylNote(idx, true, NoWarning, None, None)
  }

  /** The decisions of one cylinder's entry: each warning under exactly its condition,
      the minimum gas exactly when no earlier warning fired and it applies, and then
      either the minimum-gas line or the start-pressure warning, never both. */
  lemma CylinderDecisions(c: Cylinder, idx: nat, bottom: Option<Waypoint>, mode: DiveMode, deco: DecoMode,
                          ph: Physics)
    ensures var n := CylinderNote(c, idx, bottom, mode, deco, ph);
      && (n.pressures <==> c.sizeMl != 0)
      && (n.warning == MoreThanAvailable <==> c.sizeMl != 0 && c.endMbar < 10000)
      && (n.warning == NoSharingReserve <==> c.sizeMl != 0 && c.endMbar >= 10000 && ph.shortOfReserve(c))
      && (n.required.Some? <==>
            c.sizeMl != 0 && c.endMbar >= 10000 && !ph.shortOfReserve(c) && MinGasApplies(idx, bottom, mode, deco))
      && (n.required.Some? ==>
            && n.required.value == ph.minGasMbar(c, bottom.value.depth)
            && (n.margin.Some? <==> c.startMbar > n.required.value)
            && (n.warning == MinGasAboveStart <==> c.startMbar <= n.required.value))
      && (n.warning == MinGasAboveStart ==> n.required.Some?)
      && (n.margin.Some? ==> n.warning == NoWarning && n.required.Some?)
  {
  }

  /** The entries of the cylinders from `k` on: one per cylinder, stopping at the first
      empty one. */
  function CylinderNotesFrom(cyls: seq<Cylinder>, k: nat, bottom: Option<Waypoint>, mode: DiveMode,
                             deco: DecoMode, ph: Physics): (r: seq<CylNote>)
    requires k <= |cyls|
    ensures k + |r| <= |cyls|
    decreases |cyls| - k
  {
    if k == |cyls| || ph.isNone(cyls[k]) then []
    else [CylinderNote(cyls[k], k, bottom, mode, deco, ph)] + CylinderNotesFrom(cyls, k + 1, bottom, mode, deco, ph)
  }

  /** The loop reports every cylinder in order and stops exactly at the first empty one
      (or at the last cylinder). */
  lemma {:induction false} CylinderNotesStopAtFirstEmpty(cyls: seq<Cylinder>, k: nat, bottom: Option<Waypoint>,
                                                         mode: DiveMode, deco: DecoMode, ph: Physics)
    requires k <= |cyls|
    ensures forall i :: k <= i < k + |CylinderNotesFrom(cyls, k, bottom, mode, deco, ph)| ==>
      && !ph.isNone(cyls[i])
      && CylinderNotesFrom(cyls, k, bottom, mode, deco, ph)[i - k] == CylinderNote(cyls[i], i, bottom, mode, deco, ph)
    ensures var n := |CylinderNotesFrom(cyls, k, bottom, mode, deco, ph)|;
      k + n == |cyls| || ph.isNone(cyls[k + n])
    decreases |cyls| - k
  {
    if k < |cyls| && !ph.isNone(cyls[k]) {
      CylinderNotesStopAtFirstEmpty(cyls, k + 1, bottom, mode, deco, ph);
      var r := CylinderNotesFrom(cyls, k, bottom, mode, deco, ph);
      var rest := CylinderNotesFrom(cyls, k + 1, bottom, mode, deco, ph);
      assert r == [CylinderNote(cyls[k], k, bottom, mode, deco, ph)] + rest;
      forall i | k < i < k + |r|
        ensures !ph.isNone(cyls[i]) && r[i - k] == CylinderNote(cyls[i], i, bottom, mode, deco, ph)
      {
        assert r[i - k] == rest[i - (k + 1)];
      }
    }
  }

  /** The minimum gas the loop leaves in the last bottom point: the last one computed. */
  function LastRequired(notes: seq<CylNote>): Option<int>
  {
    LastRequiredBefore(notes, |notes|)
  }

  /** The minimum gas of the last of the first `n` entries that computed one. */
  function LastRequiredBefore(notes: seq<CylNote>, n: nat): Option<int>
    requires n <= |notes|
  {
    if n == 0 then None
    else if notes[n - 1].required.Some? then notes[n - 1].required
    else LastRequiredBefore(notes, n - 1)
  }

  /** The minimum gas left behind is one that some entry computed, and there is none
      exactly when no entry computed one. */
  lemma {:induction false} LastRequiredComputed(notes: seq<CylNote>, n: nat)
    requires n <= |notes|
    ensures LastRequiredBefore(notes, n).Some? ==> exists j :: 0 <= j < n && notes[j].required == LastRequiredBefore(notes, n)
    ensures LastRequiredBefore(notes, n).None? <==> forall j :: 0 <= j < n ==> notes[j].required.None?
  {
    if n > 0 && notes[n - 1].required.None? {
      LastRequiredComputed(notes, n - 1);
    }
  }

  /** Appending entries does not change what the first `n` leave behind. */
  lemma {:induction false} LastRequiredPrefix(notes: seq<CylNote>, more: seq<CylNote>, n: nat)
    requires n <= |notes|
    ensures LastRequiredBefore(notes + more, n) == LastRequiredBefore(notes, n)
  {
    if n > 0 {
      LastRequiredPrefix(notes, more, n - 1);
    }
  }

  /** The loop over the cylinders: an entry per cylinder until the first empty one, and
      the minimum gas written into the last bottom point. */
  method GasConsumption(cyls: seq<Cylinder>, bottom: Option<Waypoint>, mode: DiveMode, deco: DecoMode,
                        ph: Physics) returns (notes: seq<CylNote>, minimumGas: Option<int>)
    ensures notes == CylinderNotesFrom(cyls, 0, bottom, mode, deco, ph)
    ensures minimumGas == LastRequired(notes)
  {
    notes := [];
    minimumGas := None;
    var gasidx := 0;
    while gasidx < |cyls|
      invariant 0 <= gasidx <= |cyls|
      invariant CylinderNotesFrom(cyls, 0, bottom, mode, deco, ph)
                == notes + CylinderNotesFrom(cyls, gasidx, bottom, mode, deco, ph)
      invariant minimumGas == LastRequired(notes)
    {
      var cyl := cyls[gasidx];
      if ph.isNone(cyl) {
        break;
      }
      var n := CylinderNote(cyl, gasidx, bottom, mode, deco, ph);
      CylinderLoopStep(cyls, gasidx, bottom, mode, deco, ph, notes);
      LastRequiredSnoc(notes, n);
      if n.required.Some? {
        minimumGas := n.required;
      }
      notes := notes + [n];
      gasidx := gasidx + 1;
    }
  }

  /** One step of the cylinder loop: a cylinder that is not empty contributes its entry. */
  lemma CylinderNotesStep(cyls: seq<Cylinder>, k: nat, bottom: Option<Waypoint>, mode: DiveMode,
                          deco: DecoMode, ph: Physics)
    requires k < |cyls| && !ph.isNone(cyls[k])
    ensures CylinderNotesFrom(cyls, k, bottom, mode, deco, ph)
            == [CylinderNote(cyls[k], k, bottom, mode, deco, ph)] + CylinderNotesFrom(cyls, k + 1, bottom, mode, deco, ph)
  {
  }

  /** The loop invariant survives appending the entry of a cylinder that is not empty. */
  lemma CylinderLoopStep(cyls: seq<Cylinder>, k: nat, bottom: Option<Waypoint>, mode: DiveMode,
                         deco: DecoMode, ph: Physics, notes: seq<CylNote>)
    requires k < |cyls| && !ph.isNone(cyls[k])
    requires CylinderNotesFrom(cyls, 0, bottom, mode, deco, ph) == notes + CylinderNotesFrom(cyls, k, bottom, mode, deco, ph)
    ensures CylinderNotesFrom(cyls, 0, bottom, mode, deco, ph)
            == (notes + [CylinderNote(cyls[k], k, bottom, mode, deco, ph)]) + CylinderNotesFrom(cyls, k + 1, bottom, mode, deco, ph)
  {
    CylinderNotesStep(cyls, k, bottom, mode, deco, ph);
    var n := CylinderNote(cyls[k], k, bottom, mode, deco, ph);
    var rest := CylinderNotesFrom(cyls, k + 1, bottom, mode, deco, ph);
    assert notes + ([n] + rest) == (notes + [n]) + rest;
  }

  /** An entry with a minimum gas replaces the one remembered so far. */
  lemma LastRequiredSnoc(notes: seq<CylNote>, n: CylNote)
    ensures LastRequired(notes + [n]) == if n.required.Some? then n.required else LastRequired(notes)
  {
    LastRequiredPrefix(notes, [n], |notes|);
  }

  /** Only the cylinder of the last bottom point gets a minimum gas, so at most one entry
      carries one and the value written back is that entry's. */
  lemma {:induction false} AtMostOneMinimumGas(cyls: seq<Cylinder>, bottom: Option<Waypoint>, mode: DiveMode,
                                               deco: DecoMode, ph: Physics)
    ensures var notes := CylinderNotesFrom(cyls, 0, bottom, mode, deco, ph);
      && (forall i, j ::
            (0 <= i < |notes| && 0 <= j < |notes| && notes[i].required.Some? && notes[j].required.Some?) ==> i == j)
      && (forall j :: 0 <= j < |notes| && notes[j].required.Some? ==>
            bottom.Some? && j == bottom.value.cylinder && LastRequired(notes) == notes[j].required)
  {
    var notes := CylinderNotesFrom(cyls, 0, bottom, mode, deco, ph);
    CylinderNotesStopAtFirstEmpty(cyls, 0, bottom, mode, deco, ph);
    LastRequiredComputed(notes, |notes|);
    forall j | 0 <= j < |notes| && notes[j].required.Some?
      ensures bottom.Some? && j == bottom.value.cylinder && LastRequired(notes) == notes[j].required
    {
      CylinderDecisions(cyls[j], j, bottom, mode, deco, ph);
      var r := LastRequired(notes);
      assert r.Some?;
      var i :| 0 <= i < |notes| && notes[i].required == r;
      CylinderDecisions(cyls[i], i, bottom, mode, deco, ph);
    }
  }

  // ------------------------------------------------------------------
  // pO2 warnings

  /** The pO2 limit of a plan point: the bottom limit for entered points, the deco limit
      for computed ones (mbar). */
  function Po2Limit(dp: Waypoint, pr: Prefs): int
  {
    if dp.entered then pr.bottomPo2 else pr.decoPo2
  }

  /** The warning for one plan point, if any: above the limit is high, below 0.16 bar
      is low; zero-time points are not looked at. */
  function Po2At(wps: seq<Waypoint>, cyls: seq<Cylinder>, i: nat, pr: Prefs, ph: Physics): (w: Option<Po2Warning>)
    requires i < |wps| && wps[i].cylinder < |cyls|
    ensures w.Some? ==> w.value.wp == i && wps[i].time != 0
  {
    var dp := wps[i];
    if dp.time == 0 then None
    else
      var p := ph.po2(dp, cyls[dp.cylinder].gas);
      if p > Po2Limit(dp, pr) as real / 1000.0 then Some(HighPo2(i, p))
      else if p < 0.16 then Some(LowPo2(i, p))
      else None
  }

  /** The decisions for one plan point: a high warning exactly when its pO2 is strictly
      above its limit, a low one exactly when it is not and is below 0.16 bar, each
      reporting that pO2. */
  lemma Po2AtDecides(wps: seq<Waypoint>, cyls: seq<Cylinder>, i: nat, pr: Prefs, ph: Physics)
    requires i < |wps| && wps[i].cylinder < |cyls|
    ensures var w := Po2At(wps, cyls, i, pr, ph); var p := ph.po2(wps[i], cyls[wps[i].cylinder].gas);
      && (w.Some? && w.value.HighPo2? <==> wps[i].time != 0 && p > Po2Limit(wps[i], pr) as real / 1000.0)
      && (w.Some? && w.value.LowPo2? <==>
            wps[i].time != 0 && p <= Po2Limit(wps[i], pr) as real / 1000.0 && p < 0.16)
      && (w.Some? ==> w.value.po2 == p)
  {
  }

  /** Every plan point names one of the cylinders. */
  predicate PlanFits(wps: seq<Waypoint>, cyls: seq<Cylinder>)
  {
    forall k :: 0 <= k < |wps| ==> wps[k].cylinder < |cyls|
  }

  /** The warnings of the plan points from `k` on, in plan order. */
  function Po2WarningsFrom(wps: seq<Waypoint>, cyls: seq<Cylinder>, k: nat, pr: Prefs, ph: Physics): (r: seq<Po2Warning>)
    requires PlanFits(wps, cyls) && k <= |wps|
    ensures |r| <= |wps| - k
    decreases |wps| - k
  {
    if k == |wps| then []
    else
      var w := Po2At(wps, cyls, k, pr, ph);
      var rest := Po2WarningsFrom(wps, cyls, k + 1, pr, ph);
      if w.Some? then [w.value] + rest else rest
  }

  /** The warnings from `k` on are sound (each is the warning of its point), complete
      (every point from `k` on that gets a warning has it listed) and in plan order. */
  lemma Po2WarningsListed(wps: seq<Waypoint>, cyls: seq<Cylinder>, k: nat, pr: Prefs, ph: Physics)
    requires PlanFits(wps, cyls) && k <= |wps|
    ensures forall j :: 0 <= j < |Po2WarningsFrom(wps, cyls, k, pr, ph)| ==>
      && k <= Po2WarningsFrom(wps, cyls, k, pr, ph)[j].wp < |wps|
      && Po2At(wps, cyls, Po2WarningsFrom(wps, cyls, k, pr, ph)[j].wp, pr, ph) == Some(Po2WarningsFrom(wps, cyls, k, pr, ph)[j])
    ensures forall i :: k <= i < |wps| && Po2At(wps, cyls, i, pr, ph).Some? ==>
      Po2At(wps, cyls, i, pr, ph).value in Po2WarningsFrom(wps, cyls, k, pr, ph)
    ensures forall a, b :: 0 <= a < b < |Po2WarningsFrom(wps, cyls, k, pr, ph)| ==>
      Po2WarningsFrom(wps, cyls, k, pr, ph)[a].wp < Po2WarningsFrom(wps, cyls, k, pr, ph)[b].wp
  {
    Po2WarningsSound(wps, cyls, k, pr, ph);
    Po2WarningsComplete(wps, cyls, k, pr, ph);
    Po2WarningsOrdered(wps, cyls, k, pr, ph);
  }

  lemma {:induction false} Po2WarningsSound(wps: seq<Waypoint>, cyls: seq<Cylinder>, k: nat, pr: Prefs, ph: Physics)
    requires PlanFits(wps, cyls) && k <= |wps|
    ensures forall j :: 0 <= j < |Po2WarningsFrom(wps, cyls, k, pr, ph)| ==>
      && k <= Po2WarningsFrom(wps, cyls, k, pr, ph)[j].wp < |wps|
      && Po2At(wps, cyls, Po2WarningsFrom(wps, cyls, k, pr, ph)[j].wp, pr, ph) == Some(Po2WarningsFrom(wps, cyls, k, pr, ph)[j])
    decreases |wps| - k
  {
    if k < |wps| {
      Po2WarningsSound(wps, cyls, k + 1, pr, ph);
      var w := Po2At(wps, cyls, k, pr, ph);
      var rest := Po2WarningsFrom(wps, cyls, k + 1, pr, ph);
      var r := Po2WarningsFrom(wps, cyls, k, pr, ph);
      if w.Some? {
        assert r == [w.value] + rest;
        forall j | 0 <= j < |r|
          ensures k <= r[j].wp < |wps| && Po2At(wps, cyls, r[j].wp, pr, ph) == Some(r[j])
        {
          if j > 0 {
            assert r[j] == rest[j - 1];
          }
        }
      } else {
        assert r == rest;
      }
    }
  }

  lemma {:induction false} Po2WarningsComplete(wps: seq<Waypoint>, cyls: seq<Cylinder>, k: nat, pr: Prefs, ph: Physics)
    requires PlanFits(wps, cyls) && k <= |wps|
    ensures forall i :: k <= i < |wps| && Po2At(wps, cyls, i, pr, ph).Some? ==>
      Po2At(wps, cyls, i, pr, ph).value in Po2WarningsFrom(wps, cyls, k, pr, ph)
    decreases |wps| - k
  {
    if k < |wps| {
      Po2WarningsComplete(wps, cyls, k + 1, pr, ph);
      var w := Po2At(wps, cyls, k, pr, ph);
      var rest := Po2WarningsFrom(wps, cyls, k + 1, pr, ph);
      var r := Po2WarningsFrom(wps, cyls, k, pr, ph);
      if w.Some? {
        assert r == [w.value] + rest;
      } else {
        assert r == rest;
      }
    }
  }

  lemma {:induction false} Po2WarningsOrdered(wps: seq<Waypoint>, cyls: seq<Cylinder>, k: nat, pr: Prefs, ph: Physics)
    requires PlanFits(wps, cyls) && k <= |wps|
    ensures forall a, b :: 0 <= a < b < |Po2WarningsFrom(wps, cyls, k, pr, ph)| ==>
      Po2WarningsFrom(wps, cyls, k, pr, ph)[a].wp < Po2WarningsFrom(wps, cyls, k, pr, ph)[b].wp
    decreases |wps| - k
  {
    if k < |wps| {
      Po2WarningsOrdered(wps, cyls, k + 1, pr, ph);
      Po2WarningsSound(wps, cyls, k + 1, pr, ph);
      var w := Po2At(wps, cyls, k, pr, ph);
      var rest := Po2WarningsFrom(wps, cyls, k + 1, pr, ph);
      var r := Po2WarningsFrom(wps, cyls, k, pr, ph);
      if w.Some? {
        assert r == [w.value] + rest;
        forall a, b | 0 <= a < b < |r| ensures r[a].wp < r[b].wp {
          assert r[b] == rest[b - 1];
          if a > 0 {
            assert r[a] == rest[a - 1];
          }
        }
      } else {
        assert r == rest;
      }
    }
  }

  /** The pO2 pass over the plan; it is skipped for closed-circuit dives. */
  method Po2Check(wps: seq<Waypoint>, cyls: seq<Cylinder>, mode: DiveMode, pr: Prefs, ph: Physics)
    returns (warnings: seq<Po2Warning>)
    requires PlanFits(wps, cyls)
    ensures warnings == if mode == CCR then [] else Po2WarningsFrom(wps, cyls, 0, pr, ph)
  {
    warnings := [];
    if mode == CCR {
      return;
    }
    var k := 0;
    while k < |wps|
      invariant 0 <= k <= |wps|
      invariant Po2WarningsFrom(wps, cyls, 0, pr, ph) == warnings + Po2WarningsFrom(wps, cyls, k, pr, ph)
    {
      var w := Po2At(wps, cyls, k, pr, ph);
      if w.Some? {
        warnings := warnings + [w.value];
      }
      k := k + 1;
    }
  }

  /** The high-pO2 test is strict: a point exactly at its limit gets no high warning. */
  lemma Po2AtLimitIsNotHigh(wps: seq<Waypoint>, cyls: seq<Cylinder>, i: nat, pr: Prefs, ph: Physics)
    requires i < |wps| && wps[i].cylinder < |cyls|
    requires ph.po2(wps[i], cyls[wps[i].cylinder].gas) == Po2Limit(wps[i], pr) as real / 1000.0
    ensures !(Po2At(wps, cyls, i, pr, ph).Some? && Po2At(wps, cyls, i, pr, ph).value.HighPo2?)
  {
    Po2AtDecides(wps, cyls, i, pr, ph);
  }

  // ------------------------------------------------------------------
  // The notes

  /** The dive has an open-circuit cylinder with helium: the ICD table is started. */
  predicate IsTrimix(cyls: seq<Cylinder>)
  {
    exists k :: 0 <= k < |cyls| && cyls[k].use == OcGas && cyls[k].gas.he > 0
  }

  /** The gases of the cylinders, in cylinder order. */
  function GasesOf(cyls: seq<Cylinder>): (g: seq<GasMix>)
    ensures |g| == |cyls| && forall k :: 0 <= k < |cyls| ==> g[k] == cyls[k].gas
  {
    seq(|cyls|, k requires 0 <= k < |cyls| => cyls[k].gas)
  }

  /** What the waypoint walk works on. */
  function WalkEnv(plan: DivePlan, cyls: seq<Cylinder>, pr: Prefs, ph: Physics): (e: Env)
    requires PlanFits(plan.wps, cyls)
    ensures ValidEnv(e) && e.wps == plan.wps && !e.verbatim == !pr.verbatim
  {
    Env(plan.wps, GasesOf(cyls), pr.verbatim, pr.transitions, ph.differ, ph.icd)
  }

  /** The plan point the walk remembers as the last bottom point, if any. */
  function LastBottomPoint(e: Env): Option<Waypoint>
    requires ValidEnv(e) && |e.wps| > 0
  {
    var st := Walk(e, 0, Init());
    LastBottomInRange(e);
    if st.lastbottom.Some? then Some(e.wps[st.lastbottom.value]) else None
  }

  /** The notes of a plan that is neither empty, aborted nor overlapping, and the minimum
      gas written into the last bottom point, if any. */
  function FullPlan(plan: DivePlan, cyls: seq<Cylinder>, mode: DiveMode, pr: Prefs, ph: Physics,
                    showDisclaimer: bool): (Notes, Option<int>)
    requires PlanFits(plan.wps, cyls) && plan.wps != []
  {
    var e := WalkEnv(plan, cyls, pr, ph);
    var st := Walk(e, 0, Init());
    var notes := CylinderNotesFrom(cyls, 0, LastBottomPoint(e), mode, pr.deco, ph);
    var icd := if IsTrimix(cyls) then Some(IcdSection(st.icds, st.icdwarning)) else None;
    var po2 := if mode == CCR then [] else Po2WarningsFrom(plan.wps, cyls, 0, pr, ph);
    (Plan(showDisclaimer, BannerOf(plan.surfaceInterval), CDiv(MaxTime(plan.wps) + 30, 60),
          pr.variations && pr.deco != Recreational, st, notes, icd, po2),
     LastRequired(notes))
  }

  /** `add_plan_to_notes`: the new notes, and the minimum gas written into the last
      bottom point, if any. */
  function PlanNotes(plan: DivePlan, cyls: seq<Cylinder>, mode: DiveMode, pr: Prefs, ph: Physics,
                     showDisclaimer: bool, error: bool): (r: (NotesUpdate, Option<int>))
    requires PlanFits(plan.wps, cyls)
  {
    if plan.wps == [] then (Untouched, None)
    else if error then (Written(Aborted), None)
    else if plan.surfaceInterval < 0 then (Written(OverlappingHeader(showDisclaimer)), None)
    else
      var f := FullPlan(plan, cyls, mode, pr, ph, showDisclaimer);
      (Written(f.0), f.1)
  }

  /** The notes generator: the early exits, then the full plan. */
  method AddPlanToNotes(plan: DivePlan, cyls: seq<Cylinder>, mode: DiveMode, pr: Prefs, ph: Physics,
                        showDisclaimer: bool, error: bool) returns (update: NotesUpdate, minimumGas: Option<int>)
    requires PlanFits(plan.wps, cyls)
    ensures (update, minimumGas) == PlanNotes(plan, cyls, mode, pr, ph, showDisclaimer, error)
  {
    if plan.wps == [] {
      return Untouched, None;
    }
    if error {
      return Written(Aborted), None;
    }
    if plan.surfaceInterval < 0 {
      return Written(OverlappingHeader(showDisclaimer)), None;
    }
    var full;
    full, minimumGas := WritePlan(plan, cyls, mode, pr, ph, showDisclaimer);
    update := Written(full);
  }

  /** The bottom point the walk remembered, looked up in the plan. */
  method BottomPointOf(e: Env, st: WalkState) returns (bottom: Option<Waypoint>)
    requires ValidEnv(e) && |e.wps| > 0 && st == Walk(e, 0, Init())
    ensures bottom == LastBottomPoint(e)
  {
    LastBottomInRange(e);
    bottom := None;
    if st.lastbottom.Some? {
      bottom := Some(e.wps[st.lastbottom.value]);
    }
  }

  /** The full plan, step by step: the banner and runtime, the waypoint walk, the
      cylinder loop, the ICD section and the pO2 pass. */
  method WritePlan(plan: DivePlan, cyls: seq<Cylinder>, mode: DiveMode, pr: Prefs, ph: Physics,
                   showDisclaimer: bool) returns (full: Notes, minimumGas: Option<int>)
    requires PlanFits(plan.wps, cyls) && plan.wps != []
    ensures (full, minimumGas) == FullPlan(plan, cyls, mode, pr, ph, showDisclaimer)
  {
    var banner := BannerOf(plan.surfaceInterval);
    var runtime := DiveplanDuration(plan.wps);
    var e := WalkEnv(plan, cyls, pr, ph);
    var st := WalkPlan(e);
    var bottom := BottomPointOf(e, st);
    var notes;
    notes, minimumGas := GasConsumption(cyls, bottom, mode, pr.deco, ph);
    var icd: Option<IcdSection> := None;
    if IsTrimix(cyls) {
      icd := Some(IcdSection(st.icds, st.icdwarning));
    }
    var po2 := Po2Check(plan.wps, cyls, mode, pr, ph);
    full := Plan(showDisclaimer, banner, runtime, pr.variations && pr.deco != Recreational,
                 st, notes, icd, po2);
  }

  // ------------------------------------------------------------------
  // Properties of the notes

  /** The early exits: no plan points leave the notes alone; an aborted calculation
      writes the abort warning alone; a negative surface interval writes the
      overlapping-dives header alone. None of them computes a minimum gas. */
  lemma EarlyExits(plan: DivePlan, cyls: seq<Cylinder>, mode: DiveMode, pr: Prefs, ph: Physics,
                   showDisclaimer: bool, error: bool)
    requires PlanFits(plan.wps, cyls)
    ensures var r := PlanNotes(plan, cyls, mode, pr, ph, showDisclaimer, error);
      && (plan.wps == [] <==> r.0 == Untouched)
      && (r.0 == Written(Aborted) <==> plan.wps != [] && error)
      && (r.0.Written? && r.0.notes.OverlappingHeader? <==> plan.wps != [] && !error && plan.surfaceInterval < 0)
      && (r.0.Written? && r.0.notes.Plan? <==> plan.wps != [] && !error && plan.surfaceInterval >= 0)
      && (!(r.0.Written? && r.0.notes.Plan?) ==> r.1.None?)
  {
  }

  /** A full plan's header: the banner drops the interval from 48 hours on, the runtime
      is the rounded latest plan time, and the ICD section appears exactly for a dive
      with an open-circuit helium cylinder, with its warning set exactly when some
      recorded gas change was reported as a violation. */
  lemma FullPlanSections(plan: DivePlan, cyls: seq<Cylinder>, mode: DiveMode, pr: Prefs, ph: Physics,
                         showDisclaimer: bool)
    requires PlanFits(plan.wps, cyls) && plan.wps != [] && plan.surfaceInterval >= 0
    ensures var n := PlanNotes(plan, cyls, mode, pr, ph, showDisclaimer, false).0.notes;
      && n.Plan?
      && (n.banner == LongLayoff <==> plan.surfaceInterval >= 48 * 60 * 60)
      && n.runtimeMin == CDiv(MaxTime(plan.wps) + 30, 60)
      && (n.icd.Some? <==> IsTrimix(cyls))
      && (n.icd.Some? ==> (n.icd.value.warning <==>
            exists k :: 0 <= k < |n.icd.value.entries| && n.icd.value.entries[k].result.violated))
      && (n.icd.Some? ==> forall k :: 0 <= k < |n.icd.value.entries| ==> n.icd.value.entries[k].from.he > 0)
  {
    WalkFacts(WalkEnv(plan, cyls, pr, ph));
  }

  /** A minimum gas among the cylinder entries belongs to the bottom point's cylinder,
      in OC, non-recreational mode, and that entry lies before the first empty cylinder. */
  lemma MinimumGasOfBottomCylinder(cyls: seq<Cylinder>, bottom: Option<Waypoint>, mode: DiveMode,
                                   deco: DecoMode, ph: Physics)
    ensures var notes := CylinderNotesFrom(cyls, 0, bottom, mode, deco, ph);
      LastRequired(notes).Some? ==>
        && mode == OC && deco != Recreational && bottom.Some?
        && bottom.value.cylinder < |notes| && notes[bottom.value.cylinder].required == LastRequired(notes)
  {
    var notes := CylinderNotesFrom(cyls, 0, bottom, mode, deco, ph);
    AtMostOneMinimumGas(cyls, bottom, mode, deco, ph);
    if LastRequired(notes).Some? {
      CylinderNotesStopAtFirstEmpty(cyls, 0, bottom, mode, deco, ph);
      LastRequiredComputed(notes, |notes|);
      var j :| 0 <= j < |notes| && notes[j].required == LastRequired(notes);
      CylinderDecisions(cyls[j], j, bottom, mode, deco, ph);
    }
  }

  /** The minimum gas of a full plan is computed for the last bottom point's cylinder
      only, and only when that cylinder comes before the first empty one. */
  lemma MinimumGasOnlyForBottomCylinder(plan: DivePlan, cyls: seq<Cylinder>, mode: DiveMode, pr: Prefs,
                                        ph: Physics, showDisclaimer: bool)
    requires PlanFits(plan.wps, cyls) && plan.wps != [] && plan.surfaceInterval >= 0
    ensures var r := PlanNotes(plan, cyls, mode, pr, ph, showDisclaimer, false);
      var st := r.0.notes.walk;
      r.1.Some? ==>
        && mode == OC && pr.deco != Recreational && st.lastbottom.Some?
        && st.lastbottom.value < |plan.wps|
        && var c := plan.wps[st.lastbottom.value].cylinder;
           c < |r.0.notes.cylinders| && r.0.notes.cylinders[c].required == r.1
  {
    var e := WalkEnv(plan, cyls, pr, ph);
    var st := Walk(e, 0, Init());
    WalkFacts(e);
    var bottom := LastBottomPoint(e);
    MinimumGasOfBottomCylinder(cyls, bottom, mode, pr.deco, ph);
    var r := PlanNotes(plan, cyls, mode, pr, ph, showDisclaimer, false);
    assert r.0.notes.walk == st;
    assert r.0.notes.cylinders == CylinderNotesFrom(cyls, 0, bottom, mode, pr.deco, ph);
    assert r.1 == LastRequired(r.0.notes.cylinders);
  }
}
