/** The dive filter's bookkeeping: per-dive "hidden by filter" and "selected" flags,
    the global count of shown dives, the lists of dives whose visibility changed,
    and the reference-counted dive-site mode with its sorted site list. Dive
    sites are numbered, 0 standing for "no site". */
module DiveFilter {
  import opened Base
  import opened Sorting

  /** The filter-relevant fields of one dive of the dive table. */
  datatype FilterDive = FilterDive(hidden: bool, selected: bool, invalid: bool, site: nat)

  /** `FilterData`: whether the full-text query is active (`fullText.doit()`) and
      the constraint list (constraints are identified by number). */
  datatype FilterData = FilterData(fullTextActive: bool, constraints: seq<nat>)

  /** The external matchers, for the dive with a given table index:
      `fulltext_dive_matches` (and the full-text result's `dive_matches`)
      and `filter_constraint_match_dive`. */
  datatype Matcher = Matcher(textMatch: nat -> bool, constraintMatch: (nat, nat) -> bool)

  /** A dive after `setFilterStatus(d, status)`: hidden iff not shown, and deselected when hidden. */
  function Refiltered(d: FilterDive, status: bool): (r: FilterDive)
    ensures r.hidden != status && r.invalid == d.invalid && r.site == d.site
    ensures r.selected <==> d.selected && status
  {
    d.(hidden := !status, selected := d.selected && status)
  }

  /** The dives that became shown and those that became hidden, in table order of processing. */
  datatype ShownChange = ShownChange(newShown: seq<nat>, newHidden: seq<nat>)

  /** `FilterData::validFilter`. */
  predicate ValidFilter(f: FilterData)
  {
    f.fullTextActive || |f.constraints| > 0
  }

  /** `DiveFilter::showDive` for dive `j`. */
  predicate ShowDive(j: nat, d: FilterDive, f: FilterData, m: Matcher, displayInvalid: bool)
  {
    if d.invalid && !displayInvalid then false
    else if !ValidFilter(f) then true
    else forall k :: 0 <= k < |f.constraints| ==> m.constraintMatch(f.constraints[k], j)
  }

  /** Adding a constraint never shows a dive that was hidden. */
  lemma MoreConstraintsShowFewer(j: nat, d: FilterDive, f: FilterData, c: nat, m: Matcher, displayInvalid: bool)
    ensures ShowDive(j, d, f.(constraints := f.constraints + [c]), m, displayInvalid) ==> ShowDive(j, d, f, m, displayInvalid)
  {
    var g := f.(constraints := f.constraints + [c]);
    if ShowDive(j, d, g, m, displayInvalid) && ValidFilter(f) && !(d.invalid && !displayInvalid) {
      forall k | 0 <= k < |f.constraints| ensures m.constraintMatch(f.constraints[k], j) {
        assert g.constraints[k] == f.constraints[k];
      }
    }
  }

  /** The number of dives not hidden by the filter. */
  function CountShown(s: seq<FilterDive>): (n: nat)
    ensures n <= |s|
  {
    if s == [] then 0 else CountShown(s[..|s| - 1]) + (if s[|s| - 1].hidden then 0 else 1)
  }

  function ShownBit(d: FilterDive): int { if d.hidden then 0 else 1 }

  /** Replacing one dive changes the count by the difference of its shown bits. */
  lemma {:induction false} CountShownUpdate(s: seq<FilterDive>, i: nat, d: FilterDive)
    requires i < |s|
    ensures CountShown(s[i := d]) == CountShown(s) - ShownBit(s[i]) + ShownBit(d)
  {
    var t := s[i := d];
    if i == |s| - 1 {
      assert t[..|t| - 1] == s[..|s| - 1];
    } else {
      assert t[..|t| - 1] == s[..|s| - 1][i := d];
      CountShownUpdate(s[..|s| - 1], i, d);
    }
  }

  /** Removing dive `i` from the table lowers the count by one iff it was shown. */
  lemma {:induction false} CountShownRemove(s: seq<FilterDive>, i: nat)
    requires i < |s|
    ensures CountShown(s[..i] + s[i + 1..]) == CountShown(s) - ShownBit(s[i])
  {
    var t := s[..i] + s[i + 1..];
    if i == |s| - 1 {
      assert t == s[..|s| - 1];
    } else {
      var u := s[..|s| - 1];
      assert t[..|t| - 1] == u[..i] + u[i + 1..];
      assert t[|t| - 1] == s[|s| - 1];
      CountShownRemove(u, i);
    }
  }

  /** A table with nothing hidden shows every dive. */
  lemma {:induction false} CountShownAllVisible(s: seq<FilterDive>)
    requires forall k :: 0 <= k < |s| ==> !s[k].hidden
    ensures CountShown(s) == |s|
  {
    if s != [] {
      CountShownAllVisible(s[..|s| - 1]);
    }
  }

  function NatLe(a: nat, b: nat): bool { a <= b }

  lemma NatLeIsTotalPreorder()
    ensures IsTotalPreorder(NatLe)
  {
  }

  class Filter {
    /** The dive table and the global `shown_dives` counter. */
    var dives: seq<FilterDive>
    var shownDives: int
    var diveSiteRefCount: int
    var diveSites: seq<nat>
    var filterData: FilterData

    /** The counting invariant the counter is meant to keep. */
    ghost predicate Valid()
      reads this
    {
      shownDives == CountShown(dives)
    }

    /** The counter starts at 0 whatever the table holds, so the filter starts out
        consistent exactly when no dive of the table is shown (as at start-up, with an
        empty table); a loaded table is counted by `UnhideAll`, `Reset` or `UpdateAll`. */
    constructor (dives: seq<FilterDive>, filterData: FilterData)
      ensures this.dives == dives && this.filterData == filterData
      ensures shownDives == 0 && diveSiteRefCount == 0 && diveSites == []
      ensures Valid() <==> CountShown(dives) == 0
      ensures dives == [] ==> Valid()
    {
      this.dives := dives;
      this.filterData := filterData;
      shownDives := 0;
      diveSiteRefCount := 0;
      diveSites := [];
    }

    /** `diveSiteMode`. */
    predicate DiveSiteMode()
      reads this`diveSiteRefCount
    {
      diveSiteRefCount > 0
    }

    /** The status a dive gets: dive-site mode looks only at the site, full-text
        mode needs a text match and `showDive`, the normal mode `showDive` alone. */
    predicate NewStatus(j: nat, d: FilterDive, m: Matcher, displayInvalid: bool)
      reads this`diveSiteRefCount, this`diveSites, this`filterData
    {
      if DiveSiteMode() then d.site in diveSites
      else if filterData.fullTextActive then m.textMatch(j) && ShowDive(j, d, filterData, m, displayInvalid)
      else ShowDive(j, d, filterData, m, displayInvalid)
    }

    /** `setFilterStatus`: nothing happens for a null dive; otherwise the hidden flag
        becomes !shown, a hidden dive is deselected, and the counter moves by the
        change in visibility. */
    method SetFilterStatus(i: Option<nat>, shown: bool) returns (changed: bool)
      requires i.Some? ==> i.value < |dives|
      modifies this`dives, this`shownDives
      ensures i.None? ==> !changed && dives == old(dives) && shownDives == old(shownDives)
      ensures i.Some? ==> changed == (old(dives[i.value].hidden) == shown)
      ensures i.Some? ==> dives == old(dives[i.value := Refiltered(dives[i.value], shown)])
      ensures i.Some? ==> shownDives == old(shownDives) + (if changed then (if shown then 1 else -1) else 0)
      ensures shownDives - CountShown(dives) == old(shownDives - CountShown(dives))
    {
      if i.None? {
        return false;
      }
      var j := i.value;
      var d := dives[j];
      var oldShown := !d.hidden;
      CountShownUpdate(dives, j, Refiltered(d, shown));
      dives := dives[j := Refiltered(d, shown)];
      changed := oldShown != shown;
      if changed {
        shownDives := shownDives + (if shown then 1 else 0) - (if oldShown then 1 else 0);
      }
    }

    /** `updateDiveStatus`: a dive whose visibility changed is appended to the list
        matching its new status. */
    method UpdateDiveStatus(j: nat, newStatus: bool, change: ShownChange) returns (res: ShownChange)
      requires j < |dives|
      modifies this`dives, this`shownDives
      ensures dives == old(dives[j := Refiltered(dives[j], newStatus)])
      ensures shownDives - CountShown(dives) == old(shownDives - CountShown(dives))
      ensures res.newShown == change.newShown + (if old(dives[j].hidden) && newStatus then [j] else [])
      ensures res.newHidden == change.newHidden + (if !old(dives[j].hidden) && !newStatus then [j] else [])
    {
      var changed := SetFilterStatus(Some(j), newStatus);
      res := change;
      if changed {
        if newStatus {
          res := res.(newShown := res.newShown + [j]);
        } else {
          res := res.(newHidden := res.newHidden + [j]);
        }
      }
    }

    /** After processing the table indices `done`, starting from the table `d0`: each
        processed dive of `table` has its new status, the others are untouched, and the
        change lists hold exactly the processed dives whose visibility flipped. */
    ghost predicate Processed(table: seq<FilterDive>, done: seq<nat>, d0: seq<FilterDive>, res: ShownChange,
                              m: Matcher, displayInvalid: bool)
      reads this`diveSiteRefCount, this`diveSites, this`filterData
    {
      && |table| == |d0|
      && (forall j :: 0 <= j < |table| ==>
            table[j] == if j in done then Refiltered(d0[j], NewStatus(j, d0[j], m, displayInvalid)) else d0[j])
      && (forall j: nat :: j in res.newShown <==>
            (j in done && j < |d0| && d0[j].hidden && NewStatus(j, d0[j], m, displayInvalid)))
      && (forall j: nat :: j in res.newHidden <==>
            (j in done && j < |d0| && !d0[j].hidden && !NewStatus(j, d0[j], m, displayInvalid)))
    }

    /** Refiltering one more dive extends what has been processed by that dive. */
    lemma ProcessedSnoc(table: seq<FilterDive>, done: seq<nat>, j: nat, d0: seq<FilterDive>, res: ShownChange,
                        m: Matcher, displayInvalid: bool)
      requires Processed(table, done, d0, res, m, displayInvalid) && j < |d0|
      ensures var st := NewStatus(j, d0[j], m, displayInvalid);
        Processed(table[j := Refiltered(table[j], st)], done + [j], d0,
                  ShownChange(res.newShown + (if table[j].hidden && st then [j] else []),
                              res.newHidden + (if !table[j].hidden && !st then [j] else [])),
                  m, displayInvalid)
    {
      var st := NewStatus(j, d0[j], m, displayInvalid);
      var t := table[j := Refiltered(table[j], st)];
      var done' := done + [j];
      var sh := res.newShown + (if table[j].hidden && st then [j] else []);
      var hd := res.newHidden + (if !table[j].hidden && !st then [j] else []);
      assert j in done ==> table[j].hidden == !st;
      assert !(j in done) ==> table[j] == d0[j];
      forall i | 0 <= i < |t|
        ensures t[i] == if i in done' then Refiltered(d0[i], NewStatus(i, d0[i], m, displayInvalid)) else d0[i]
      {
        assert i in done' <==> i in done || i == j;
      }
      forall i: nat ensures i in sh <==> (i in done' && i < |d0| && d0[i].hidden && NewStatus(i, d0[i], m, displayInvalid)) {
        assert i in done' <==> i in done || i == j;
      }
      forall i: nat ensures i in hd <==> (i in done' && i < |d0| && !d0[i].hidden && !NewStatus(i, d0[i], m, displayInvalid)) {
        assert i in done' <==> i in done || i == j;
      }
    }

    /** One turn of the loops of `update` and `updateAll`: refilter the dive `ids[n]`. */
    method UpdateStep(j: nat, ghost ids: seq<nat>, ghost n: nat, m: Matcher, displayInvalid: bool, res: ShownChange,
                      ghost d0: seq<FilterDive>)
      returns (res': ShownChange)
      requires n < |ids| && ids[n] == j && forall k :: 0 <= k < |ids| ==> ids[k] < |d0|
      requires Processed(dives, ids[..n], d0, res, m, displayInvalid)
      modifies this`dives, this`shownDives
      ensures Processed(dives, ids[..n + 1], d0, res', m, displayInvalid)
      ensures shownDives - CountShown(dives) == old(shownDives - CountShown(dives))
    {
      assert ids[..n + 1] == ids[..n] + [j];
      ProcessedSnoc(dives, ids[..n], j, d0, res, m, displayInvalid);
      var status := NewStatus(j, dives[j], m, displayInvalid);
      assert status == NewStatus(j, d0[j], m, displayInvalid);
      res' := UpdateDiveStatus(j, status, res);
    }

    /** `DiveFilter::update` over the given table indices. */
    method Update(ids: seq<nat>, m: Matcher, displayInvalid: bool) returns (res: ShownChange)
      requires forall k :: 0 <= k < |ids| ==> ids[k] < |dives|
      modifies this`dives, this`shownDives
      ensures |dives| == old(|dives|)
      ensures shownDives - CountShown(dives) == old(shownDives - CountShown(dives))
      ensures forall j :: 0 <= j < |dives| ==>
        (dives[j] == if j in ids then Refiltered(old(dives[j]), NewStatus(j, old(dives[j]), m, displayInvalid)) else old(dives[j]))
      ensures forall j: nat :: j in res.newShown <==>
        (j in ids && j < |dives| && old(dives[j].hidden) && NewStatus(j, old(dives[j]), m, displayInvalid))
      ensures forall j: nat :: j in res.newHidden <==>
        (j in ids && j < |dives| && !old(dives[j].hidden) && !NewStatus(j, old(dives[j]), m, displayInvalid))
    {
      res := ShownChange([], []);
      ghost var d0 := dives;
      var n := 0;
      while n < |ids|
        invariant 0 <= n <= |ids|
        invariant shownDives - CountShown(dives) == old(shownDives - CountShown(dives))
        invariant Processed(dives, ids[..n], d0, res, m, displayInvalid)
      {
        res := UpdateStep(ids[n], ids, n, m, displayInvalid, res, d0);
        n := n + 1;
      }
      assert ids[..n] == ids;
    }

    /** The loop of `updateAll`, without the reset of the counter at its start. */
    method UpdateEveryDive(m: Matcher, displayInvalid: bool) returns (res: ShownChange)
      modifies this`dives, this`shownDives
      ensures |dives| == old(|dives|)
      ensures shownDives - CountShown(dives) == old(shownDives - CountShown(dives))
      ensures forall j :: 0 <= j < |dives| ==> dives[j] == Refiltered(old(dives[j]), NewStatus(j, old(dives[j]), m, displayInvalid))
      ensures forall j: nat :: j in res.newShown <==>
        (j < |dives| && old(dives[j].hidden) && NewStatus(j, old(dives[j]), m, displayInvalid))
      ensures forall j: nat :: j in res.newHidden <==>
        (j < |dives| && !old(dives[j].hidden) && !NewStatus(j, old(dives[j]), m, displayInvalid))
    {
      res := ShownChange([], []);
      ghost var d0 := dives;
      ghost var all: seq<nat> := seq(|dives|, i => i);
      assert forall j: nat :: j in all <==> j < |d0| by {
        forall j: nat | j < |d0| ensures j in all {
          assert all[j] == j;
        }
      }
      var n := 0;
      while n < |dives|
        invariant 0 <= n <= |dives| == |d0|
        invariant shownDives - CountShown(dives) == old(shownDives - CountShown(dives))
        invariant Processed(dives, all[..n], d0, res, m, displayInvalid)
      {
        assert all[n] == n;
        res := UpdateStep(n, all, n, m, displayInvalid, res, d0);
        n := n + 1;
      }
      assert all[..n] == all;
    }

    /** `updateAll` as written: the counter is set to 0 first and then only moved by
        the per-dive changes, so it ends as the number of shown dives minus the
        number shown before. */
    method UpdateAllAsWritten(m: Matcher, displayInvalid: bool) returns (res: ShownChange)
      modifies this`dives, this`shownDives
      ensures |dives| == old(|dives|)
      ensures shownDives == CountShown(dives) - old(CountShown(dives))
      ensures forall j :: 0 <= j < |dives| ==> dives[j].hidden == !NewStatus(j, old(dives[j]), m, displayInvalid)
    {
      shownDives := 0;
      res := UpdateEveryDive(m, displayInvalid);
    }

    /** `updateAll` with the counter left as it is: the counting invariant is kept. */
    method UpdateAll(m: Matcher, displayInvalid: bool) returns (res: ShownChange)
      modifies this`dives, this`shownDives
      ensures old(Valid()) ==> Valid()
      ensures |dives| == old(|dives|)
      ensures forall j :: 0 <= j < |dives| ==> dives[j].hidden == !NewStatus(j, old(dives[j]), m, displayInvalid)
      ensures forall j: nat :: j in res.newShown <==>
        (j < |dives| && old(dives[j].hidden) && NewStatus(j, old(dives[j]), m, displayInvalid))
      ensures forall j: nat :: j in res.newHidden <==>
        (j < |dives| && !old(dives[j].hidden) && !NewStatus(j, old(dives[j]), m, displayInvalid))
    {
      res := UpdateEveryDive(m, displayInvalid);
    }

    /** Clears every hidden flag and sets the counter to the table size. */
    method UnhideAll()
      modifies this`dives, this`shownDives
      ensures Valid() && shownDives == |dives| == old(|dives|)
      ensures forall j :: 0 <= j < |dives| ==> dives[j] == old(dives[j]).(hidden := false)
    {
      shownDives := |dives|;
      var n := 0;
      ghost var d0 := dives;
      while n < |dives|
        invariant 0 <= n <= |dives| == |d0|
        invariant shownDives == |d0|
        invariant forall j :: 0 <= j < n ==> dives[j] == d0[j].(hidden := false)
        invariant forall j :: n <= j < |dives| ==> dives[j] == d0[j]
      {
        dives := dives[n := dives[n].(hidden := false)];
        n := n + 1;
      }
      CountShownAllVisible(dives);
    }

    /** `reset` as written: everything is unhidden with the counter at the table size,
        then `updateAll` zeroes it, so it ends at (shown dives) minus (table size). */
    method ResetAsWritten(m: Matcher, displayInvalid: bool)
      modifies this`dives, this`shownDives
      ensures |dives| == old(|dives|)
      ensures shownDives == CountShown(dives) - |dives|
      ensures forall j :: 0 <= j < |dives| ==> dives[j].hidden == !NewStatus(j, old(dives[j]), m, displayInvalid)
    {
      UnhideAll();
      var _ := UpdateAllAsWritten(m, displayInvalid);
    }

    /** `reset` with the corrected `updateAll`: the counter is right afterwards,
        whatever it held before. */
    method Reset(m: Matcher, displayInvalid: bool)
      modifies this`dives, this`shownDives
      ensures Valid()
      ensures |dives| == old(|dives|)
      ensures forall j :: 0 <= j < |dives| ==> dives[j].hidden == !NewStatus(j, old(dives[j]), m, displayInvalid)
    {
      UnhideAll();
      var _ := UpdateAll(m, displayInvalid);
    }

    /** `diveRemoved`: called before dive `i` leaves the table. */
    method DiveRemoved(i: nat)
      requires i < |dives|
      modifies this`shownDives
      ensures shownDives == old(shownDives) - (if dives[i].hidden then 0 else 1)
      ensures old(Valid()) ==> shownDives == CountShown(dives[..i] + dives[i + 1..])
    {
      if !dives[i].hidden {
        shownDives := shownDives - 1;
      }
      CountShownRemove(dives, i);
    }

    /** `setFilterDiveSite`: stores the sorted sites; `changed` is false, and nothing
        is stored or signalled, when they equal the current ones. */
    method SetFilterDiveSite(ds: seq<nat>) returns (changed: bool)
      modifies this`diveSites
      ensures diveSites == Sort(ds, NatLe)
      ensures changed == (Sort(ds, NatLe) != old(diveSites))
    {
      var sorted := Sort(ds, NatLe);
      if sorted == diveSites {
        return false;
      }
      diveSites := sorted;
      return true;
    }

    /** `startFilterDiveSites`: the first start stores the sorted sites; later ones
        go through `setFilterDiveSite`. Either way the sorted input is stored. */
    method StartFilterDiveSites(ds: seq<nat>) returns (changed: bool)
      modifies this`diveSiteRefCount, this`diveSites
      ensures diveSiteRefCount == old(diveSiteRefCount) + 1
      ensures diveSites == Sort(ds, NatLe)
      ensures old(diveSiteRefCount) + 1 <= 1 ==> changed
      ensures old(diveSiteRefCount) + 1 > 1 ==> changed == (Sort(ds, NatLe) != old(diveSites))
    {
      diveSiteRefCount := diveSiteRefCount + 1;
      if diveSiteRefCount > 1 {
        changed := SetFilterDiveSite(ds);
      } else {
        diveSites := Sort(ds, NatLe);
        changed := true;
      }
    }

    /** `stopFilterDiveSites`: the site list is cleared once the count is no longer positive. */
    method StopFilterDiveSites()
      modifies this`diveSiteRefCount, this`diveSites
      ensures diveSiteRefCount == old(diveSiteRefCount) - 1
      ensures DiveSiteMode() ==> diveSites == old(diveSites)
      ensures !DiveSiteMode() ==> diveSites == []
    {
      diveSiteRefCount := diveSiteRefCount - 1;
      if diveSiteRefCount > 0 {
        return;
      }
      diveSites := [];
    }
  }

  /** The stored site list is always sorted and holds exactly the given sites. */
  lemma StoredSitesSortedPermutation(ds: seq<nat>)
    ensures SortedBy(Sort(ds, NatLe), NatLe)
    ensures multiset(Sort(ds, NatLe)) == multiset(ds)
  {
    NatLeIsTotalPreorder();
    SortSorted(ds, NatLe);
  }

  /** Switching the full-text query on never shows a dive the constraints alone would hide. */
  lemma FullTextNarrows(j: nat, d: FilterDive, f: FilterData, m: Matcher, displayInvalid: bool)
    ensures (m.textMatch(j) && ShowDive(j, d, f.(fullTextActive := true), m, displayInvalid))
      ==> ShowDive(j, d, f.(fullTextActive := false), m, displayInvalid)
  {
  }

  /** Three dives, all shown; a constraint then hides the last one. `reset` as written
      leaves the counter at -1 while two dives are shown. */
  method ResetCounterExample() returns (counter: int, shown: nat)
    ensures counter == -1 && shown == 2
  {
    var d := FilterDive(false, false, false, 1);
    var f := new Filter([d, d, d], FilterData(false, [0]));
    var m := Matcher(j => true, (c, j) => j != 2);
    assert !f.NewStatus(2, d, m, true) by {
      assert f.filterData.constraints[0] == 0;
    }
    f.ResetAsWritten(m, true);
    var after := f.dives;
    assert !after[0].hidden && !after[1].hidden && after[2].hidden;
    assert after[..2][..1][..0] == [];
    assert CountShown(after[..2][..1]) == 1;
    assert CountShown(after[..2]) == 2;
    counter, shown := f.shownDives, CountShown(after);
  }
}
