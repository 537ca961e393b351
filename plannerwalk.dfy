/** The waypoint walk of the dive-plan notes: the time-ordered list of plan points is
    reduced to the rows the notes report, either as a table (one row per reported
    segment, with a symbol, depth, duration, runtime and at most one gas label) or,
    in verbatim mode, as "Transition", "Stay" and "Switch gas" sentences. Along the
    way the isobaric-counterdiffusion (ICD) checks of trimix gas changes are recorded
    and the last bottom point is remembered for the minimum-gas calculation. */
module PlannerWalk {
  import opened Base
  import opened Gas

  /** A plan point (`struct divedatapoint`): depth in mm, time in seconds, cylinder
      index, setpoint in mbar (0 on open circuit) and whether the user entered it. */
  datatype Waypoint = Waypoint(depth: int, time: int, cylinder: nat, setpoint: int, entered: bool)

  /** The segment symbol of a table row. */
  datatype Symbol = Ascent | Descent | EnteredStay | DecoStop

  /** The gas cell of a table row: the gas of the next segment, the gas of this one, or
      nothing; `sp` is the setpoint printed with it on a closed-circuit segment. */
  datatype GasLabel = NoLabel | NextGas(gas: GasMix, sp: Option<int>) | CurrentGas(gas: GasMix, sp: Option<int>)

  /** A reported row; `wp` is the index of the plan point it reports. Table rows carry
      minutes as printed; the verbatim sentences carry seconds. */
  datatype Row =
    | TableRow(wp: nat, symbol: Symbol, depth: int, durationMin: int, runtimeMin: int, gasLabel: GasLabel)
    | Transition(wp: nat, depth: int, durationS: int, runtimeS: int, gas: GasMix, sp: Option<int>)
    | Stay(wp: nat, depth: int, durationS: int, runtimeS: int, gas: GasMix, sp: Option<int>)
    | Switch(wp: nat, gas: GasMix, sp: Option<int>)

  /** One ICD table entry: when and where, the gas change, and what
      `isobaric_counterdiffusion` reported for it. */
  datatype IcdEntry = IcdEntry(timeS: int, depth: int, from: GasMix, to: GasMix, result: IcdResult)

  /** What the walk works on: the plan points, each cylinder's gas, the verbatim and
      "display transitions" preferences, and the two C helpers whose bodies are not
      part of this model: `gasmix_distance` (as "the distance is non-zero") and
      `isobaric_counterdiffusion`. */
  datatype Env = Env(wps: seq<Waypoint>, gases: seq<GasMix>, verbatim: bool, transitions: bool,
                     differ: (GasMix, GasMix) -> bool, icd: (GasMix, GasMix) -> IcdResult)

  /** Every plan point names one of the dive's cylinders. */
  predicate ValidEnv(e: Env)
  {
    forall k :: 0 <= k < |e.wps| ==> e.wps[k].cylinder < |e.gases|
  }

  /** The variables the walk carries from one plan point to the next. */
  datatype WalkState = WalkState(
    lastdepth: int, lasttime: int, lastsetpoint: int, newdepth: int, lastprintdepth: int,
    lastprintsetpoint: int, lastprintgasmix: GasMix, lastentered: bool, icdwarning: bool,
    lastbottom: Option<nat>, rows: seq<Row>, icds: seq<IcdEntry>)

  /** The values the variables are declared with. */
  function Init(): WalkState
  {
    WalkState(0, 0, -1, 0, 0, -1, NoGasPrinted, true, false, None, [], [])
  }

  /** `dp->next`: the following plan point, whatever its time. */
  function Raw(e: Env, i: nat): (r: Option<nat>)
    ensures r.Some? ==> r.value == i + 1 && r.value < |e.wps|
    ensures r.None? <==> i + 1 >= |e.wps|
  {
    if i + 1 < |e.wps| then Some(i + 1) else None
  }

  /** The look-ahead: the first plan point from `j` on whose time is not 0. */
  function NextReal(wps: seq<Waypoint>, j: nat): (r: Option<nat>)
    ensures r.Some? ==> j <= r.value < |wps| && wps[r.value].time != 0
    ensures forall k :: j <= k < |wps| && (r.None? || k < r.value) ==> wps[k].time == 0
    decreases |wps| - j
  {
    if j >= |wps| then None
    else if wps[j].time != 0 then Some(j)
    else NextReal(wps, j + 1)
  }

  /** What one iteration computes before deciding anything: this point's gas, the next
      real point and its gas (`{}` when there is none), whether the gas or setpoint
      changes after this point and whether it changed since the last printed one,
      and whether this point ends an ascent. */
  datatype Look = Look(gas: GasMix, nx: Option<nat>, newgas: GasMix, after: bool, before: bool, ascent: bool)

  function LookAt(e: Env, i: nat, st: WalkState): (l: Look)
    requires ValidEnv(e) && i < |e.wps|
    ensures l.nx == NextReal(e.wps, i + 1)
    ensures l.after ==> l.nx.Some?
  {
    var dp := e.wps[i];
    var gas := e.gases[dp.cylinder];
    var nx := NextReal(e.wps, i + 1);
    var newgas := if nx.Some? then e.gases[e.wps[nx.value].cylinder] else GasMix(0, 0);
    var after := nx.Some? && (e.differ(gas, newgas) || dp.setpoint != e.wps[nx.value].setpoint);
    var before := e.differ(st.lastprintgasmix, gas) || st.lastprintsetpoint != dp.setpoint;
    Look(gas, nx, newgas, after, before, dp.depth < st.lastdepth)
  }

  /** The facts about a `Look` the row builders rely on. */
  predicate Looked(e: Env, i: nat, l: Look)
  {
    l.nx == NextReal(e.wps, i + 1) && (l.after ==> l.nx.Some?)
  }

  /** How an iteration ends: a zero-time point is passed over, a point "devoid of
      anything useful" or one too close to the last reported time is skipped, and
      every other point is reported. */
  datatype StepKind = ZeroTime | Dull | TooShort | Reported

  function Classify(e: Env, i: nat, st: WalkState): (k: StepKind)
    requires ValidEnv(e) && i < |e.wps|
    ensures k == ZeroTime <==> e.wps[i].time == 0
    ensures k == Dull ==> !e.wps[i].entered && e.wps[i].depth != st.lastdepth
    ensures k == TooShort ==> e.wps[i].time - st.lasttime < 10 && e.wps[i].depth == st.lastdepth
  {
    var dp := e.wps[i];
    if dp.time == 0 then ZeroTime
    else
      var l := LookAt(e, i, st);
      if !dp.entered && l.nx.Some? && dp.depth != st.lastdepth && e.wps[l.nx.value].depth != dp.depth
         && !l.before && !l.after then Dull
      else if (dp.time - st.lasttime < 10 && st.lastdepth == dp.depth)
              && !(l.after && i + 1 < |e.wps| && dp.depth != e.wps[i + 1].depth) then TooShort
      else Reported
  }

  /** The last-bottom-point test as written, `dp->entered && !nextdp->entered`: `None`
      where it reads through a null `nextdp`. */
  function BottomGuardAsWritten(e: Env, i: nat): (b: Option<bool>)
    requires i < |e.wps|
    ensures b.None? <==> e.wps[i].entered && NextReal(e.wps, i + 1).None?
    ensures b == Some(true) ==> e.wps[i].entered
  {
    var nx := NextReal(e.wps, i + 1);
    if !e.wps[i].entered then Some(false)
    else if nx.None? then None
    else Some(!e.wps[nx.value].entered)
  }

  /** The test with the missing null check added: an entered point whose next real
      point is not entered, or which has no next real point, ends the bottom phase. */
  function BottomGuard(e: Env, i: nat): (b: bool)
    requires i < |e.wps|
    ensures BottomGuardAsWritten(e, i).Some? ==> b == BottomGuardAsWritten(e, i).value
    ensures b <==> e.wps[i].entered && (NextReal(e.wps, i + 1).None? || !e.wps[NextReal(e.wps, i + 1).value].entered)
  {
    var nx := NextReal(e.wps, i + 1);
    e.wps[i].entered && (nx.None? || !e.wps[nx.value].entered)
  }

  /** The row-printing condition of the table, as written, disjunct by disjunct. */
  predicate TableEmits(e: Env, i: nat, st: WalkState, l: Look)
    requires i < |e.wps| && Looked(e, i, l)
  {
    var dp := e.wps[i];
    var nxDiffers := l.nx.Some? && dp.depth != e.wps[l.nx.value].depth;
    || e.transitions || dp.entered || i + 1 >= |e.wps|
    || nxDiffers
    || (!l.ascent && l.before && nxDiffers)
    || (l.after && st.lastentered) || (l.after && !l.ascent)
    || (l.ascent && l.after && nxDiffers)
    || (st.lastentered && !dp.entered)
  }

  /** The condition reduces to six cases: the depth-change disjunct makes the two
      other disjuncts that mention it redundant. */
  lemma TableEmitsReduced(e: Env, i: nat, st: WalkState, l: Look)
    requires i < |e.wps| && Looked(e, i, l)
    ensures TableEmits(e, i, st, l) <==>
      || e.transitions || e.wps[i].entered || i + 1 >= |e.wps|
      || (l.nx.Some? && e.wps[i].depth != e.wps[l.nx.value].depth)
      || (l.after && (st.lastentered || !l.ascent))
      || (st.lastentered && !e.wps[i].entered)
  {
  }

  /** The segment symbol, tested in order: ascent, descent, entered stay, deco stop. */
  function SymbolOf(depth: int, lastdepth: int, entered: bool): (s: Symbol)
    ensures s == Ascent <==> depth < lastdepth
    ensures s == Descent <==> depth > lastdepth
    ensures s == EnteredStay <==> depth == lastdepth && entered
    ensures s == DecoStop <==> depth == lastdepth && !entered
  {
    if depth < lastdepth then Ascent
    else if depth > lastdepth then Descent
    else if entered then EnteredStay
    else DecoStop
  }

  /** Records an ICD entry; a reported violation sets the warning. */
  function AddIcd(st: WalkState, x: IcdEntry): WalkState
  {
    st.(icds := st.icds + [x], icdwarning := st.icdwarning || x.result.violated)
  }

  /** What a printed table row hands on: the row, the gas and setpoint that are now the
      last printed ones, and the ICD entry the gas change records, if any. */
  datatype Printed = Printed(row: Row, gas: GasMix, setpoint: int, icd: Option<IcdEntry>)

  /** The next gas is named at the end of an ascent or an entered segment that a gas
      change follows, when the next real point changes depth or is entered. */
  predicate NamesNextGas(e: Env, i: nat, l: Look)
    requires i < |e.wps| && Looked(e, i, l)
  {
    var dp := e.wps[i];
    (l.ascent || dp.entered) && l.after && i + 1 < |e.wps| && l.nx.Some?
    && (dp.depth != e.wps[l.nx.value].depth || e.wps[l.nx.value].entered)
  }

  /** The row a reported table point prints: its symbol, depth, duration and runtime in
      minutes rounded as `(t + 30) / 60`, and its gas cell. */
  function TablePrinted(e: Env, i: nat, st: WalkState, l: Look): (p: Printed)
    requires i < |e.wps| && Looked(e, i, l)
    ensures p.row.TableRow? && p.row.wp == i
    ensures p.row.durationMin == CDiv(e.wps[i].time - st.lasttime + 30, 60)
    ensures p.row.runtimeMin == CDiv(e.wps[i].time + 30, 60)
    ensures p.icd.Some? ==> p.icd.value.from == st.lastprintgasmix && st.lastprintgasmix.he > 0
    ensures p.row.gasLabel.NextGas? <==> NamesNextGas(e, i, l)
    ensures p.row.gasLabel.CurrentGas? <==> !NamesNextGas(e, i, l) && l.before
    ensures p.row.gasLabel.NoLabel? ==> p.gas == st.lastprintgasmix && p.setpoint == st.lastprintsetpoint
    ensures !p.row.gasLabel.NoLabel? ==> p.gas == p.row.gasLabel.gas
    ensures p.row.gasLabel.NextGas? ==> l.nx.Some? && p.setpoint == e.wps[l.nx.value].setpoint
    ensures p.row.gasLabel.CurrentGas? ==> p.setpoint == e.wps[i].setpoint
  {
    var dp := e.wps[i];
    var sym := SymbolOf(dp.depth, st.lastdepth, dp.entered);
    var dur := CDiv(dp.time - st.lasttime + 30, 60);
    var run := CDiv(dp.time + 30, 60);
    var from := st.lastprintgasmix;
    if NamesNextGas(e, i, l) then
      var nxp := e.wps[l.nx.value];
      Printed(TableRow(i, sym, dp.depth, dur, run, NextGas(l.newgas, if dp.setpoint != 0 then Some(nxp.setpoint) else None)),
              l.newgas, nxp.setpoint,
              if dp.setpoint == 0 && l.ascent && from.he > 0
              then Some(IcdEntry(dp.time, dp.depth, from, l.newgas, e.icd(from, l.newgas))) else None)
    else if l.before then
      Printed(TableRow(i, sym, dp.depth, dur, run, CurrentGas(l.gas, if dp.setpoint != 0 then Some(dp.setpoint) else None)),
              l.gas, dp.setpoint,
              if dp.setpoint == 0 && from.he > 0
              then Some(IcdEntry(st.lasttime, dp.depth, from, l.gas, e.icd(from, l.gas))) else None)
    else
      Printed(TableRow(i, sym, dp.depth, dur, run, NoLabel), from, st.lastprintsetpoint, None)
  }

  /** Prints a table row: `newdepth` and `lasttime` move to the point, the printed gas
      becomes the last printed one, and the ICD entry is recorded. */
  function Record(st: WalkState, dp: Waypoint, p: Printed): WalkState
  {
    var s := st.(rows := st.rows + [p.row], newdepth := dp.depth, lasttime := dp.time,
                 lastprintgasmix := p.gas, lastprintsetpoint := p.setpoint);
    if p.icd.Some? then AddIcd(s, p.icd.value) else s
  }

  /** The table branch of one reported point. */
  function TableStep(e: Env, i: nat, st: WalkState, l: Look): WalkState
    requires i < |e.wps| && Looked(e, i, l)
  {
    if TableEmits(e, i, st, l) then Record(st, e.wps[i], TablePrinted(e, i, st, l)) else st
  }

  /** The verbatim sentence of one reported point: a transition when the depth differs
      from the last printed one, a stay when the depth is about to change or the gas
      changes after it. */
  function VerbatimMove(e: Env, i: nat, st: WalkState, l: Look): WalkState
    requires i < |e.wps| && Looked(e, i, l)
  {
    var dp := e.wps[i];
    var sp := if dp.setpoint != 0 then Some(dp.setpoint) else None;
    if dp.depth != st.lastprintdepth then
      var shown := e.transitions || dp.entered || i + 1 >= |e.wps|
                   || (l.after && i + 1 < |e.wps| && dp.depth != e.wps[l.nx.value].depth);
      var rows := if shown then st.rows + [Transition(i, dp.depth, dp.time - st.lasttime, dp.time, l.gas, sp)] else st.rows;
      st.(rows := rows, newdepth := dp.depth, lasttime := dp.time)
    else if (l.nx.Some? && dp.depth != e.wps[l.nx.value].depth) || l.after then
      st.(rows := st.rows + [Stay(i, dp.depth, dp.time - st.lasttime, dp.time, l.gas, sp)],
          newdepth := dp.depth, lasttime := dp.time)
    else st
  }

  /** The verbatim gas switch after a point that a gas change follows: the sentence
      (not before the first reported point), its ICD entry on an open-circuit ascent
      from a helium gas, and the new gas as the last printed one. */
  function VerbatimSwitch(e: Env, i: nat, st: WalkState, l: Look): WalkState
    requires i < |e.wps| && Looked(e, i, l) && l.after
  {
    var dp := e.wps[i];
    var nxp := e.wps[l.nx.value];
    var from := st.lastprintgasmix;
    var st1 :=
      if st.lastsetpoint < 0 then st
      else if nxp.setpoint != 0 then st.(rows := st.rows + [Switch(i, l.newgas, Some(nxp.setpoint))])
      else
        var s := st.(rows := st.rows + [Switch(i, l.newgas, None)]);
        if l.ascent && from.he > 0 then AddIcd(s, IcdEntry(dp.time, dp.depth, from, l.newgas, e.icd(from, l.newgas))) else s;
    st1.(lastprintgasmix := l.newgas)
  }

  /** The verbatim branch of one reported point. */
  function VerbatimStep(e: Env, i: nat, st: WalkState, l: Look): WalkState
    requires i < |e.wps| && Looked(e, i, l)
  {
    var st1 := VerbatimMove(e, i, st, l);
    if l.after then VerbatimSwitch(e, i, st1, l) else st1
  }

  /** The end of a reported iteration. */
  function Finish(e: Env, i: nat, st: WalkState): WalkState
    requires i < |e.wps|
  {
    var dp := e.wps[i];
    st.(lastprintdepth := st.newdepth, lastdepth := dp.depth, lastsetpoint := dp.setpoint, lastentered := dp.entered)
  }

  /** The last-bottom-point assignment of a reported point. */
  function MarkBottom(e: Env, i: nat, st: WalkState): WalkState
    requires i < |e.wps|
  {
    if BottomGuard(e, i) then st.(lastbottom := Some(i)) else st
  }

  /** A reported point: the bottom test, the verbatim or table branch, and the end of
      the iteration. */
  function Report(e: Env, i: nat, st: WalkState, l: Look): WalkState
    requires i < |e.wps| && Looked(e, i, l)
  {
    var st1 := MarkBottom(e, i, st);
    Finish(e, i, if e.verbatim then VerbatimStep(e, i, st1, l) else TableStep(e, i, st1, l))
  }

  /** One iteration of the do/while: the new state and where `dp` goes next. A zero-time
      point continues at the raw successor, every other point at the look-ahead. */
  function Step(e: Env, i: nat, st: WalkState): (r: (WalkState, Option<nat>))
    requires ValidEnv(e) && i < |e.wps|
    ensures r.1.Some? ==> i < r.1.value < |e.wps|
  {
    var k := Classify(e, i, st);
    if k == ZeroTime then (st, Raw(e, i))
    else if k != Reported then (st, NextReal(e.wps, i + 1))
    else
      var l := LookAt(e, i, st);
      (Report(e, i, st, l), l.nx)
  }

  /** The walk from plan point `i` on. */
  function Walk(e: Env, i: nat, st: WalkState): WalkState
    requires ValidEnv(e) && i < |e.wps|
    decreases |e.wps| - i
  {
    var r := Step(e, i, st);
    if r.1.None? then r.0 else Walk(e, r.1.value, r.0)
  }

  // ------------------------------------------------------------------
  // The loop

  /** `while (nextdp && nextdp->time == 0) nextdp = nextdp->next;` from `dp->next`. */
  method LookAhead(wps: seq<Waypoint>, i: nat) returns (nextdp: Option<nat>)
    ensures nextdp == NextReal(wps, i + 1)
  {
    nextdp := if i + 1 < |wps| then Some(i + 1) else None;
    while nextdp.Some? && wps[nextdp.value].time == 0
      invariant nextdp.Some? ==> nextdp.value < |wps|
      invariant NextReal(wps, i + 1) == if nextdp.Some? then NextReal(wps, nextdp.value) else None
      decreases if nextdp.Some? then |wps| - nextdp.value else 0
    {
      nextdp := if nextdp.value + 1 < |wps| then Some(nextdp.value + 1) else None;
    }
  }

  /** The end of a reported iteration of the loop. */
  method ReportPoint(e: Env, i: nat, st: WalkState, l: Look) returns (st': WalkState)
    requires i < |e.wps| && Looked(e, i, l)
    ensures st' == Report(e, i, st, l)
  {
    var dp := e.wps[i];
    st' := st;
    if dp.entered && (l.nx.None? || !e.wps[l.nx.value].entered) {
      st' := st'.(lastbottom := Some(i));
    }
    assert st' == MarkBottom(e, i, st);
    if e.verbatim {
      st' := VerbatimStep(e, i, st', l);
    } else {
      st' := TableStep(e, i, st', l);
    }
    st' := st'.(lastprintdepth := st'.newdepth, lastdepth := dp.depth, lastsetpoint := dp.setpoint, lastentered := dp.entered);
  }

  /** One pass through the body of the do/while at plan point `i`; each `continue`
      returns early. */
  method WalkStep(e: Env, i: nat, st: WalkState) returns (st': WalkState, nextdp: Option<nat>)
    requires ValidEnv(e) && i < |e.wps|
    ensures (st', nextdp) == Step(e, i, st)
  {
    var dp := e.wps[i];
    var isascent := dp.depth < st.lastdepth;
    st' := st;
    nextdp := Raw(e, i);
    if dp.time == 0 {
      return;
    }
    var gasmix := e.gases[dp.cylinder];
    nextdp := LookAhead(e.wps, i);
    var newgasmix := GasMix(0, 0);
    if nextdp.Some? {
      newgasmix := e.gases[e.wps[nextdp.value].cylinder];
    }
    var gaschangeAfter := nextdp.Some? && (e.differ(gasmix, newgasmix) || dp.setpoint != e.wps[nextdp.value].setpoint);
    var gaschangeBefore := e.differ(st.lastprintgasmix, gasmix) || st.lastprintsetpoint != dp.setpoint;
    var l := Look(gasmix, nextdp, newgasmix, gaschangeAfter, gaschangeBefore, isascent);
    assert l == LookAt(e, i, st);
    if !dp.entered && nextdp.Some? && dp.depth != st.lastdepth && e.wps[nextdp.value].depth != dp.depth
       && !gaschangeBefore && !gaschangeAfter {
      return;
    }
    if (dp.time - st.lasttime < 10 && st.lastdepth == dp.depth)
       && !(gaschangeAfter && i + 1 < |e.wps| && dp.depth != e.wps[i + 1].depth) {
      return;
    }
    assert Classify(e, i, st) == Reported;
    st' := ReportPoint(e, i, st, l);
  }

  /** The do/while of `add_plan_to_notes` over a non-empty plan. */
  method WalkPlan(e: Env) returns (st: WalkState)
    requires ValidEnv(e) && |e.wps| > 0
    ensures st == Walk(e, 0, Init())
  {
    st := Init();
    var cur: Option<nat> := Some(0);
    while cur.Some?
      invariant cur.Some? ==> cur.value < |e.wps|
      invariant (if cur.Some? then Walk(e, cur.value, st) else st) == Walk(e, 0, Init())
      decreases if cur.Some? then |e.wps| - cur.value + 1 else 0
    {
      st, cur := WalkStep(e, cur.value, st);
    }
  }

  // ------------------------------------------------------------------
  // Properties of one iteration

  /** A point that is passed over or skipped reports nothing and changes no variable;
      a zero-time point moves on to the raw successor, a skipped one to the look-ahead. */
  lemma SkippedPointsChangeNothing(e: Env, i: nat, st: WalkState)
    requires ValidEnv(e) && i < |e.wps|
    ensures Classify(e, i, st) != Reported ==> Step(e, i, st).0 == st
    ensures Classify(e, i, st) == ZeroTime <==> e.wps[i].time == 0
    ensures Classify(e, i, st) == ZeroTime ==> Step(e, i, st).1 == Raw(e, i)
    ensures Classify(e, i, st) != ZeroTime ==> Step(e, i, st).1 == NextReal(e.wps, i + 1)
  {
  }

  /** The table branch of a reported point, with the bottom test and the end of the
      iteration around it: when the row is printed it is the one `TablePrinted` builds,
      `lasttime` moves to the point and the printed gas becomes the last printed one;
      otherwise none of these changes. */
  lemma TableReport(e: Env, i: nat, st: WalkState, l: Look)
    requires i < |e.wps| && Looked(e, i, l) && !e.verbatim
    ensures var r := Report(e, i, st, l); var p := TablePrinted(e, i, st, l);
      if TableEmits(e, i, st, l) then
        && r.rows == st.rows + [p.row] && r.lasttime == e.wps[i].time
        && r.lastprintgasmix == p.gas && r.lastprintsetpoint == p.setpoint
      else
        && r.rows == st.rows && r.lasttime == st.lasttime
        && r.lastprintgasmix == st.lastprintgasmix && r.lastprintsetpoint == st.lastprintsetpoint
  {
    var st1 := MarkBottom(e, i, st);
    assert TableEmits(e, i, st1, l) == TableEmits(e, i, st, l);
    assert TablePrinted(e, i, st1, l) == TablePrinted(e, i, st, l);
  }

  /** In the table, a reported point adds at most one row; `lasttime` becomes the
      point's time exactly when it adds one, and otherwise stays. */
  lemma TableRowAdvancesTime(e: Env, i: nat, st: WalkState)
    requires ValidEnv(e) && i < |e.wps| && !e.verbatim
    ensures var r := Step(e, i, st).0;
      && r.rows[..|st.rows|] == st.rows
      && |st.rows| <= |r.rows| <= |st.rows| + 1
      && r.lasttime == if |r.rows| > |st.rows| then e.wps[i].time else st.lasttime
  {
    if Classify(e, i, st) == Reported {
      var l := LookAt(e, i, st);
      TableReport(e, i, st, l);
      if TableEmits(e, i, st, l) {
        assert (st.rows + [TablePrinted(e, i, st, l).row])[..|st.rows|] == st.rows;
      }
    }
  }

  /** A row the table adds at a plan point is the one `TablePrinted` builds there, and
      the gas and setpoint it hands on become the last printed ones. */
  lemma TableStepPrints(e: Env, i: nat, st: WalkState)
    requires ValidEnv(e) && i < |e.wps| && !e.verbatim
    ensures var r := Step(e, i, st).0; var p := TablePrinted(e, i, st, LookAt(e, i, st));
      |r.rows| > |st.rows| ==>
        && Classify(e, i, st) == Reported && TableEmits(e, i, st, LookAt(e, i, st))
        && r.rows[|r.rows| - 1] == p.row
        && r.lastprintgasmix == p.gas && r.lastprintsetpoint == p.setpoint
  {
    if Classify(e, i, st) == Reported {
      TableReport(e, i, st, LookAt(e, i, st));
    }
  }

  // ------------------------------------------------------------------
  // Invariants of the whole walk

  /** What holds of the walk's state at every point: each row reports a real
      (non-zero-time) plan point; every ICD entry changes away from a gas with helium;
      the ICD warning is set exactly
      when some recorded check reported a violation; and the remembered bottom point
      is entered and followed by no entered real point. */
  ghost predicate WalkInv(e: Env, st: WalkState)
  {
    && (forall k :: 0 <= k < |st.rows| ==> st.rows[k].wp < |e.wps| && e.wps[st.rows[k].wp].time != 0)
    && (forall k :: 0 <= k < |st.icds| ==> st.icds[k].from.he > 0)
    && (st.icdwarning <==> exists k :: 0 <= k < |st.icds| && st.icds[k].result.violated)
    && (st.lastbottom.Some? ==> st.lastbottom.value < |e.wps| && BottomGuard(e, st.lastbottom.value))
  }

  lemma AddIcdKeeps(e: Env, st: WalkState, x: IcdEntry)
    requires WalkInv(e, st) && x.from.he > 0
    ensures WalkInv(e, AddIcd(st, x))
  {
    var r := AddIcd(st, x);
    if r.icdwarning && !st.icdwarning {
      assert r.icds[|st.icds|].result.violated;
    }
    if st.icdwarning {
      var k :| 0 <= k < |st.icds| && st.icds[k].result.violated;
      assert r.icds[k] == st.icds[k];
    }
    if exists k :: 0 <= k < |r.icds| && r.icds[k].result.violated {
      var k :| 0 <= k < |r.icds| && r.icds[k].result.violated;
      if k < |st.icds| {
        assert st.icds[k] == r.icds[k];
      }
    }
  }

  /** Appending a row that reports a real plan point keeps the invariant. */
  lemma AddRowKeeps(e: Env, st: WalkState, row: Row)
    requires WalkInv(e, st) && row.wp < |e.wps| && e.wps[row.wp].time != 0
    ensures WalkInv(e, st.(rows := st.rows + [row]))
  {
  }

  lemma RecordKeeps(e: Env, i: nat, st: WalkState, p: Printed)
    requires i < |e.wps| && e.wps[i].time != 0 && WalkInv(e, st)
    requires p.row.wp == i && (p.icd.Some? ==> p.icd.value.from.he > 0)
    ensures WalkInv(e, Record(st, e.wps[i], p))
  {
    AddRowKeeps(e, st, p.row);
    var s := st.(rows := st.rows + [p.row], newdepth := e.wps[i].depth, lasttime := e.wps[i].time,
                 lastprintgasmix := p.gas, lastprintsetpoint := p.setpoint);
    assert WalkInv(e, s);
    if p.icd.Some? {
      AddIcdKeeps(e, s, p.icd.value);
    }
  }

  lemma TableStepKeeps(e: Env, i: nat, st: WalkState, l: Look)
    requires i < |e.wps| && Looked(e, i, l) && e.wps[i].time != 0
    requires WalkInv(e, st)
    ensures WalkInv(e, TableStep(e, i, st, l))
  {
    if TableEmits(e, i, st, l) {
      RecordKeeps(e, i, st, TablePrinted(e, i, st, l));
    }
  }

  lemma VerbatimMoveKeeps(e: Env, i: nat, st: WalkState, l: Look)
    requires i < |e.wps| && Looked(e, i, l) && e.wps[i].time != 0
    requires WalkInv(e, st)
    ensures WalkInv(e, VerbatimMove(e, i, st, l))
  {
    var dp := e.wps[i];
    var sp := if dp.setpoint != 0 then Some(dp.setpoint) else None;
    AddRowKeeps(e, st, Transition(i, dp.depth, dp.time - st.lasttime, dp.time, l.gas, sp));
    AddRowKeeps(e, st, Stay(i, dp.depth, dp.time - st.lasttime, dp.time, l.gas, sp));
  }

  lemma VerbatimSwitchKeeps(e: Env, i: nat, st: WalkState, l: Look)
    requires i < |e.wps| && Looked(e, i, l) && l.after && e.wps[i].time != 0
    requires WalkInv(e, st)
    ensures WalkInv(e, VerbatimSwitch(e, i, st, l))
  {
    var dp := e.wps[i];
    var nxp := e.wps[l.nx.value];
    if st.lastsetpoint >= 0 {
      if nxp.setpoint != 0 {
        AddRowKeeps(e, st, Switch(i, l.newgas, Some(nxp.setpoint)));
      } else {
        var s := st.(rows := st.rows + [Switch(i, l.newgas, None)]);
        AddRowKeeps(e, st, Switch(i, l.newgas, None));
        if l.ascent && st.lastprintgasmix.he > 0 {
          AddIcdKeeps(e, s, IcdEntry(dp.time, dp.depth, st.lastprintgasmix, l.newgas, e.icd(st.lastprintgasmix, l.newgas)));
        }
      }
    }
  }

  lemma VerbatimStepKeeps(e: Env, i: nat, st: WalkState, l: Look)
    requires i < |e.wps| && Looked(e, i, l) && e.wps[i].time != 0
    requires WalkInv(e, st)
    ensures WalkInv(e, VerbatimStep(e, i, st, l))
  {
    VerbatimMoveKeeps(e, i, st, l);
    if l.after {
      VerbatimSwitchKeeps(e, i, VerbatimMove(e, i, st, l), l);
    }
  }

  lemma StepKeeps(e: Env, i: nat, st: WalkState)
    requires ValidEnv(e) && i < |e.wps| && WalkInv(e, st)
    ensures WalkInv(e, Step(e, i, st).0)
  {
    if Classify(e, i, st) == Reported {
      var l := LookAt(e, i, st);
      var st1 := MarkBottom(e, i, st);
      assert WalkInv(e, st1);
      var st2 := if e.verbatim then VerbatimStep(e, i, st1, l) else TableStep(e, i, st1, l);
      if e.verbatim {
        VerbatimStepKeeps(e, i, st1, l);
      } else {
        TableStepKeeps(e, i, st1, l);
      }
      assert Report(e, i, st, l) == Finish(e, i, st2);
    }
  }

  lemma {:induction false} WalkKeeps(e: Env, i: nat, st: WalkState)
    requires ValidEnv(e) && i < |e.wps| && WalkInv(e, st)
    ensures WalkInv(e, Walk(e, i, st))
    decreases |e.wps| - i
  {
    var r := Step(e, i, st);
    StepKeeps(e, i, st);
    if r.1.Some? {
      WalkKeeps(e, r.1.value, r.0);
    }
  }

  /** For any plan: no row reports a zero-time point, ICD entries are recorded only
      when the last printed gas holds helium, the ICD warning is set iff some check
      reported a violation, and the remembered bottom point ends the bottom phase. */
  lemma WalkFacts(e: Env)
    requires ValidEnv(e) && |e.wps| > 0
    ensures WalkInv(e, Walk(e, 0, Init()))
  {
    WalkKeeps(e, 0, Init());
  }

  /** The remembered bottom point is a plan point. */
  lemma LastBottomInRange(e: Env)
    requires ValidEnv(e) && |e.wps| > 0
    ensures Walk(e, 0, Init()).lastbottom.Some? ==> Walk(e, 0, Init()).lastbottom.value < |e.wps|
  {
    WalkFacts(e);
  }

  // ------------------------------------------------------------------
  // Durations and runtimes of the table

  /** Non-negative, non-decreasing plan times. */
  predicate TimesOrdered(wps: seq<Waypoint>)
  {
    && (forall k :: 0 <= k < |wps| ==> wps[k].time >= 0)
    && (forall a, b :: 0 <= a < b < |wps| ==> wps[a].time <= wps[b].time)
  }

  /** Table rows with non-negative durations and non-decreasing runtimes. */
  predicate RowsTimed(rows: seq<Row>)
  {
    && (forall k :: 0 <= k < |rows| ==> rows[k].TableRow? && rows[k].durationMin >= 0)
    && (forall k :: 0 < k < |rows| ==> rows[k - 1].runtimeMin <= rows[k].runtimeMin)
  }

  ghost predicate TimesInv(e: Env, i: nat, st: WalkState)
  {
    && RowsTimed(st.rows)
    && (forall j :: i <= j < |e.wps| ==> st.lasttime <= e.wps[j].time)
    && (|st.rows| > 0 ==> forall j :: i <= j < |e.wps| ==> st.rows[|st.rows| - 1].runtimeMin <= CDiv(e.wps[j].time + 30, 60))
  }

  /** A timed row sequence stays timed when a row with a non-negative duration and a
      runtime no smaller than the last one is appended. */
  lemma RowsTimedSnoc(rows: seq<Row>, row: Row)
    requires RowsTimed(rows) && row.TableRow? && row.durationMin >= 0
    requires |rows| > 0 ==> rows[|rows| - 1].runtimeMin <= row.runtimeMin
    ensures RowsTimed(rows + [row])
  {
  }

  lemma TimesReport(e: Env, i: nat, st: WalkState, l: Look)
    requires i < |e.wps| && Looked(e, i, l) && !e.verbatim && TimesOrdered(e.wps)
    requires TimesInv(e, i, st)
    ensures TimesInv(e, i + 1, Report(e, i, st, l))
  {
    var r := Report(e, i, st, l);
    var t := e.wps[i].time;
    TableReport(e, i, st, l);
    if TableEmits(e, i, st, l) {
      var row := TablePrinted(e, i, st, l).row;
      CDivMonotone(0, t - st.lasttime + 30, 60);
      RowsTimedSnoc(st.rows, row);
      forall j | i < j < |e.wps| ensures row.runtimeMin <= CDiv(e.wps[j].time + 30, 60) {
        CDivMonotone(t + 30, e.wps[j].time + 30, 60);
      }
    }
  }

  lemma TimesStep(e: Env, i: nat, st: WalkState)
    requires ValidEnv(e) && i < |e.wps| && !e.verbatim && TimesOrdered(e.wps)
    requires TimesInv(e, i, st)
    ensures var r := Step(e, i, st); r.1.Some? ==> TimesInv(e, r.1.value, r.0)
    ensures RowsTimed(Step(e, i, st).0.rows)
  {
    if Classify(e, i, st) == Reported {
      TimesReport(e, i, st, LookAt(e, i, st));
    }
  }

  lemma {:induction false} TimesWalk(e: Env, i: nat, st: WalkState)
    requires ValidEnv(e) && i < |e.wps| && !e.verbatim && TimesOrdered(e.wps)
    requires TimesInv(e, i, st)
    ensures RowsTimed(Walk(e, i, st).rows)
    decreases |e.wps| - i
  {
    var r := Step(e, i, st);
    TimesStep(e, i, st);
    if r.1.Some? {
      TimesWalk(e, r.1.value, r.0);
    }
  }

  /** With non-negative, non-decreasing plan times, every table row's duration is at
      least 0 and the printed runtimes never decrease. */
  lemma TableTimesOrdered(e: Env)
    requires ValidEnv(e) && |e.wps| > 0 && !e.verbatim && TimesOrdered(e.wps)
    ensures RowsTimed(Walk(e, 0, Init()).rows)
  {
    TimesWalk(e, 0, Init());
  }

  // ------------------------------------------------------------------
  // The unchecked look-ahead at the last-bottom-point test

  /** A plan of one entered point reaches the last-bottom-point test with no next real
      point, where the test as written reads through a null pointer; the corrected test
      takes that point as the last bottom point. */
  lemma SingleEnteredPointReachesNullTest(e: Env)
    requires e.wps == [Waypoint(10000, 600, 0, 0, true)] && ValidEnv(e)
    ensures Classify(e, 0, Init()) == Reported
    ensures BottomGuardAsWritten(e, 0).None?
    ensures Walk(e, 0, Init()).lastbottom == Some(0)
  {
    assert NextReal(e.wps, 1).None?;
  }
}
