# Subsurface planner notes, statistics binning, dive filter, salinity and event markers

This project is a Dafny model of five parts of the Subsurface dive log program.

- **Planner notes** (`core/plannernotes.c`). Builds the notes of a planned dive:
  - the early exits;
  - the surface-interval banner;
  - the runtime, rounded to whole minutes;
  - the waypoint walk, which prints the dive table (or the verbatim sentences) and collects the isobaric counterdiffusion (ICD) entries;
  - the last bottom point;
  - the per-cylinder gas lines with their warnings and minimum gas;
  - the ICD section;
  - the pO2 warnings.

  The walk is a specification function (`PlannerWalk.Walk`) together with an imperative loop over C's state variables (`PlannerWalk.WalkPlan`), proved equal. The same holds for the whole generator (`PlannerNotes.PlanNotes` / `PlannerNotes.AddPlanToNotes`), the cylinder loop and the pO2 loop.
- **Statistics types** (`stats/statstypes.cpp`). Covers:
  - the bin keys and their order;
  - the sorted bin vectors that `increment_count_bin` and `add_dive_to_value_bin` update through a lower-bound search;
  - every binner's `to_bin_value` and `inc`;
  - `bins_between` and the filling of empty bins;
  - the simple and string binners' `count_dives` and `bin_dives`;
  - `getBinner`, `idxToOperation`, `operationName` and `supportedOperationNames`;
  - `values` and `quartiles`.
- **Dive filter** (`core/divefilter.cpp`). The filter is a class over the dive table. It has:
  - the global `shown_dives` counter;
  - the dive-site reference count and the sorted dive-site list;
  - `update`, `reset`, `updateAll`, `diveRemoved`, `showDive` and the dive-site mode.
- **Salinity display** (`desktop-widgets/tab-widgets/TabDiveInformation.cpp`). Covers:
  - the water-type combo index and label;
  - the salinity each combo entry stands for;
  - the user-overwrite indicator;
  - the manual-dive default;
  - what `updateData` and `divesChanged` show.
- **Event markers** (`profile-widget/diveeventitem.cpp`). Covers:
  - which icon an event gets;
  - the tooltip details, including the ICD figures of a gas change;
  - `shouldBeHidden`;
  - the visibility that `recalculatePos` leaves after an event, axis or model is set.

Foreign computations are parameters of the model, given as function-typed fields of `Env`, `Physics`, `Matcher` and `GasTests`. These are the gas laws, `gasmix_distance`, `isobaric_counterdiffusion`, `gasmix_is_air`, `cylinder_none`, the full-text and constraint matchers, and the pO2 at a depth. Integer division in C truncates towards zero; this is `Base.CDiv`.

## Model

| member | source | states |
|---|---|---|
| Base.CDivBounds | core/plannernotes.c:28-30 | C's truncating `/`: for a non-negative dividend the quotient is the floor; for a negative one it is the negated quotient of the negation |
| Base.CDivMonotone | core/plannernotes.c:28-30 | truncating division by a positive divisor is monotone |
| Gas.IcdExceededMeansAboveMax | core/plannernotes.c:57-60 | the ICD colour test `5*dN2 > -dHe` holds exactly when dN2 exceeds the maximum ΔN2 of -dHe/5 |
| PlannerNotes.MaxTime | core/plannernotes.c:21-31 | the latest time over the plan points: an upper bound of every point's time, attained by one of them or 0 |
| PlannerNotes.DiveplanDuration | core/plannernotes.c:21-31 | the loop returns the latest time plus 30 s, truncated to minutes, and 0 for an empty plan |
| PlannerNotes.DurationRoundsToNearestMinute | core/plannernotes.c:21-31 | the runtime in minutes is within half a minute of the latest plan time |
| PlannerNotes.BannerOf | core/plannernotes.c:116-145 | the header is the overlapping-dives one exactly for a negative interval, and has no interval exactly from 48 hours on |
| PlannerNotes.BannerShowsInterval | core/plannernotes.c:127-145 | a shown interval has hours below 48 and minutes below 60, and is the interval truncated to whole minutes |
| PlannerNotes.CylinderNote | core/plannernotes.c:452-536 | one cylinder's entry, carrying its own index |
| PlannerNotes.CylinderDecisions | core/plannernotes.c:458-517 | pressures are shown iff the size is known; "more than available" iff the end pressure is below 10 bar; the sharing-reserve warning iff that did not fire and the reserve is short; the minimum gas iff neither fired and the cylinder is the last bottom point's in OC, non-recreational mode; then either the minimum-gas line (start above it) or the start-pressure warning, never both |
| PlannerNotes.CylinderNotesStopAtFirstEmpty | core/plannernotes.c:447-455 | the loop reports each cylinder in order, none of them empty, and stops exactly at the first empty cylinder or at the end |
| PlannerNotes.LastRequiredComputed | core/plannernotes.c:481-490 | the minimum gas left in the last bottom point is one that some entry computed, and none exactly when no entry computed one |
| PlannerNotes.LastRequiredSnoc | core/plannernotes.c:481-490 | an entry that computes a minimum gas overwrites the remembered one; any other entry leaves it |
| PlannerNotes.LastRequiredPrefix | core/plannernotes.c:481-490 | what later entries compute does not change the minimum gas remembered after the earlier ones |
| PlannerNotes.CylinderNotesStep | core/plannernotes.c:447-455 | a cylinder that is not empty contributes its own entry, followed by the entries of the cylinders after it |
| PlannerNotes.CylinderLoopStep | core/plannernotes.c:447-455 | appending one non-empty cylinder's entry keeps the entries collected so far a prefix of the specified ones |
| PlannerNotes.GasConsumption | core/plannernotes.c:447-537 | the imperative cylinder loop yields exactly the specified entries and the last computed minimum gas |
| PlannerNotes.AtMostOneMinimumGas | core/plannernotes.c:481-497 | at most one entry computes a minimum gas; it is the last bottom point's cylinder and its value is the one written back |
| PlannerNotes.Po2At | core/plannernotes.c:555-590 | a warning names its own plan point, and points with zero time get none |
| PlannerNotes.Po2AtDecides | core/plannernotes.c:555-590 | a plan point with non-zero time gets a high warning iff its pO2 is strictly above its limit (the bottom limit for entered points, the deco limit otherwise), and a low warning iff it is not high and below 0.16 bar; either reports that pO2 |
| PlannerNotes.Po2WarningsListed | core/plannernotes.c:555-592 | the warnings are sound (each is its point's warning), complete (every warned point is in the list) and in plan order |
| PlannerNotes.Po2WarningsSound | core/plannernotes.c:555-592 | every listed warning is its own point's warning, for a point from the start index on |
| PlannerNotes.Po2WarningsComplete | core/plannernotes.c:555-592 | every point from the start index on that gets a warning has it listed |
| PlannerNotes.Po2WarningsOrdered | core/plannernotes.c:555-592 | the warnings are in strictly increasing plan order |
| PlannerNotes.Po2Check | core/plannernotes.c:552-592 | the imperative pass yields the specified warnings, and none for closed-circuit dives |
| PlannerNotes.Po2AtLimitIsNotHigh | core/plannernotes.c:561 | a pO2 exactly at the limit is not reported as high |
| PlannerNotes.GasesOf | core/plannernotes.c:197-203 | the walk's gases are the cylinders' gases, in order |
| PlannerNotes.WalkEnv | core/plannernotes.c:187-205 | the walk reads the plan's own points, the verbatim preference and the cylinders' gases |
| PlannerNotes.AddPlanToNotes | core/plannernotes.c:65-600 | the imperative generator equals the specification `PlanNotes`: the notes and the minimum gas |
| PlannerNotes.PlanNotes | core/plannernotes.c:65-600 | no plan points leave the notes untouched; an error writes the abort warning; a negative surface interval the overlapping header; otherwise the full plan; `EarlyExits`, `FullPlanSections` and `MinimumGasOnlyForBottomCylinder` state its properties |
| PlannerNotes.FullPlan | core/plannernotes.c:127-600 | the sections of a full plan: banner, runtime, walk, cylinder entries for the last bottom point, ICD section for trimix, pO2 warnings unless CCR, and the last minimum gas |
| PlannerNotes.WritePlan | core/plannernotes.c:127-600 | the imperative full-plan generator equals the specification `FullPlan` |
| PlannerNotes.BottomPointOf | core/plannernotes.c:481-490 | the bottom point handed to the cylinder loop is the plan point the walk remembered |
| PlannerNotes.EarlyExits | core/plannernotes.c:104-126 | no plan points leave the notes untouched; an error writes only the abort warning; a negative surface interval writes only the overlapping-dives header; none of these computes a minimum gas |
| PlannerNotes.FullPlanSections | core/plannernotes.c:116-152 | a full plan's banner drops the interval exactly from 48 h on; the runtime is the rounded latest time; the ICD section appears iff an OC cylinder has helium (lines 167-186, 540-549); its warning is set iff a recorded check was a violation; every entry switches away from a gas with helium |
| PlannerNotes.MinimumGasOfBottomCylinder | core/plannernotes.c:481-497 | a minimum gas among the cylinder entries only arises in OC, non-recreational mode with a bottom point, and it is the entry of that point's cylinder |
| PlannerNotes.MinimumGasOnlyForBottomCylinder | core/plannernotes.c:481-490 | a minimum gas is only ever computed in OC, non-recreational mode, for the last bottom point's cylinder, and it is that cylinder's entry's value |
| PlannerWalk.Raw | core/plannernotes.c:194 | `dp->next`: the following point, or none after the last |
| PlannerWalk.NextReal | core/plannernotes.c:194-201 | the look-ahead skips exactly the zero-time points: the next point with non-zero time, or none if all remaining are zero-time |
| PlannerWalk.LookAt | core/plannernotes.c:194-215 | the looked-up next point is the next real one, and a gas change after requires one |
| PlannerWalk.Classify | core/plannernotes.c:195-215 | how an iteration ends: passed over iff the point has zero time; a dull point is not entered and changes depth; a too-short point is within 10 s of the last time at the same depth; every other point is reported |
| PlannerWalk.BottomGuard | core/plannernotes.c:218-219 | a point is the last bottom point iff it is entered and the next real point is missing or not entered; it agrees with the as-written test wherever that test does not read through null |
| PlannerWalk.BottomGuardAsWritten | core/plannernotes.c:218 | the test as written: it reads through a null `nextdp` exactly when the point is entered and has no next real point, and otherwise says the point is entered with a next real point that is not |
| PlannerWalk.TableEmitsReduced | core/plannernotes.c:287-292 | the table prints a row iff transitions are displayed, or the point is entered, or it is the last point, or the next real point is at another depth, or a gas change follows and the previous point was entered or this is not an ascent, or the previous point was entered and this one is not; the two other disjuncts that test the next depth are redundant |
| PlannerWalk.TableEmits | core/plannernotes.c:287-292 | the row condition as written, disjunct by disjunct; `TableEmitsReduced` reduces it |
| PlannerWalk.TableStep | core/plannernotes.c:287-361 | a table iteration records the row `TablePrinted` builds exactly when `TableEmits` holds; `TableReport` and `TableStepPrints` state it |
| PlannerWalk.VerbatimMove | core/plannernotes.c:222-269 | the verbatim move sentence: a transition when the depth differs from the last printed one, a stay when the next real point changes depth or a gas change follows; `VerbatimMoveKeeps` is its invariant |
| PlannerWalk.VerbatimSwitch | core/plannernotes.c:363-382 | the verbatim gas switch after a point that a gas change follows, with its ICD entry on an open-circuit ascent from a helium gas; `VerbatimSwitchKeeps` is its invariant |
| PlannerWalk.Report | core/plannernotes.c:218-387 | a reported point: the bottom test, the verbatim or table branch and the end of the iteration; `ReportPoint` computes it step by step |
| PlannerWalk.Walk | core/plannernotes.c:187-388 | the do/while over the plan points, iteration by iteration; `WalkFacts`, `TableTimesOrdered` and `WalkPlan` are about it |
| PlannerWalk.SymbolOf | core/plannernotes.c:294-301 | the row symbol: ascent iff shallower, descent iff deeper, and at the same depth the entered or deco-stop symbol |
| PlannerWalk.TablePrinted | core/plannernotes.c:287-361 | the row's duration and runtime are truncated-rounded minutes; an ICD entry is added only when switching away from a helium gas; the gas label names the next gas exactly under the gas-change-after condition, else the current gas after a change before, else none; the gas and setpoint handed on follow the label |
| PlannerWalk.Step | core/plannernotes.c:187-388 | one iteration of the do/while moves forward to a later point or stops |
| PlannerWalk.LookAhead | core/plannernotes.c:194-201 | the skipping loop finds the next real point |
| PlannerWalk.ReportPoint | core/plannernotes.c:218-387 | the reporting part of an iteration equals the specification `Report` |
| PlannerWalk.WalkStep | core/plannernotes.c:187-388 | one imperative iteration equals the specification `Step` |
| PlannerWalk.WalkPlan | core/plannernotes.c:187-388 | the imperative walk over the points equals the specification `Walk` |
| PlannerWalk.SkippedPointsChangeNothing | core/plannernotes.c:192-215 | zero-time points are exactly the ones skipped with the raw next; dull and too-short points are skipped; a skipped point leaves every state variable unchanged |
| PlannerWalk.TableReport | core/plannernotes.c:270-361 | in table mode a printed row is the one built by `TablePrinted`; lasttime moves to the point and the printed gas and setpoint become the last printed ones; without a row none of these changes |
| PlannerWalk.TableRowAdvancesTime | core/plannernotes.c:270-361 | an iteration keeps the earlier rows and adds at most one; lasttime becomes the point's time exactly when it adds one |
| PlannerWalk.TableStepPrints | core/plannernotes.c:270-361 | a row added by an iteration comes from a reported point whose row condition holds, and is the row `TablePrinted` builds |
| PlannerWalk.AddIcdKeeps | core/plannernotes.c:327-331 | recording an ICD entry away from a helium gas keeps the walk invariant, with the warning following the violations |
| PlannerWalk.RecordKeeps | core/plannernotes.c:287-361 | recording a printed row keeps the walk invariant |
| PlannerWalk.TableStepKeeps | core/plannernotes.c:270-361 | a table iteration keeps the walk invariant |
| PlannerWalk.VerbatimMoveKeeps | core/plannernotes.c:222-269 | the verbatim move sentence keeps the walk invariant |
| PlannerWalk.VerbatimSwitchKeeps | core/plannernotes.c:363-382 | the verbatim gas-switch sentence keeps the walk invariant |
| PlannerWalk.VerbatimStepKeeps | core/plannernotes.c:222-382 | a verbatim iteration keeps the walk invariant |
| PlannerWalk.StepKeeps | core/plannernotes.c:187-388 | every iteration keeps the walk invariant |
| PlannerWalk.WalkKeeps | core/plannernotes.c:187-388 | the rest of the walk keeps the walk invariant |
| PlannerWalk.WalkFacts | core/plannernotes.c:187-388 | after the walk, every row reports a real point; every ICD entry leaves a helium gas; the ICD warning is set iff some entry was a violation; the last bottom point is entered and followed by no entered real point |
| PlannerWalk.LastBottomInRange | core/plannernotes.c:217-219 | the remembered last bottom point is a point of the plan |
| PlannerWalk.RowsTimedSnoc | core/plannernotes.c:305-314 | appending a row with a non-negative duration and a runtime no smaller than the last keeps the rows timed |
| PlannerWalk.TimesReport | core/plannernotes.c:270-361 | in table mode, with ordered plan times, a reported point keeps durations non-negative and runtimes non-decreasing |
| PlannerWalk.TimesStep | core/plannernotes.c:187-388 | an iteration keeps durations non-negative and runtimes non-decreasing |
| PlannerWalk.TimesWalk | core/plannernotes.c:187-388 | the rest of the walk keeps the rows timed |
| PlannerWalk.TableTimesOrdered | core/plannernotes.c:305-314 | for plan times that never decrease, the table's durations are non-negative and its runtimes non-decreasing |
| PlannerWalk.SingleEnteredPointReachesNullTest | core/plannernotes.c:218 | a plan of one entered point is reported, the as-written bottom test reads through a null next point there, and the corrected walk makes it the last bottom point |
| Sorting.Insert | stats/statstypes.cpp:231-243 | inserting into a sorted sequence adds exactly the new element |
| Sorting.InsertSorted | stats/statstypes.cpp:231-243 | insertion keeps a sequence sorted under a total preorder |
| Sorting.Sort | stats/statstypes.cpp:231-243 | sorting is a permutation |
| Sorting.SortSorted | stats/statstypes.cpp:231-243 | sorting yields a sorted sequence |
| Sorting.RealLeIsTotalPreorder | stats/statstypes.cpp:241 | `<=` on reals, which `std::sort` orders the values by, is a total preorder |
| StatsBins.StrLessIrreflexive | stats/statstypes.cpp:384-390 | the string order is irreflexive |
| StatsBins.StrLessTransitive | stats/statstypes.cpp:384-390 | the string order is transitive |
| StatsBins.StrLessTotal | stats/statstypes.cpp:384-390 | any two distinct strings are ordered |
| StatsBins.KeyLessIrreflexive | stats/statstypes.cpp:384-390 | the key order is irreflexive |
| StatsBins.KeyLessTransitive | stats/statstypes.cpp:384-390 | the key order is transitive |
| StatsBins.KeyLessTotal | stats/statstypes.cpp:384-390 | any two distinct keys are ordered, so the lower-bound search is well defined |
| StatsBins.LookupFound | stats/statstypes.cpp:397-420 | in an ascending vector a key finds its own entry |
| StatsBins.LookupNone | stats/statstypes.cpp:397-420 | a key is found iff some entry has it |
| StatsBins.LookupAfterSet | stats/statstypes.cpp:400-403 | updating an entry's value in place keeps the vector ascending and changes only that key's value |
| StatsBins.InsertAscending | stats/statstypes.cpp:397-420 | inserting at the lower bound keeps the vector ascending |
| StatsBins.LookupAfterInsert | stats/statstypes.cpp:397-420 | inserting a new key adds exactly that key's entry |
| StatsBins.PairLowerBound | stats/statstypes.cpp:384-390 | the index found splits the vector into keys below the value and keys not below it |
| StatsBins.SumAfterSet | stats/statstypes.cpp:415-418 | changing one count changes the total by the difference |
| StatsBins.SumAfterInsert | stats/statstypes.cpp:419 | inserting a count adds it to the total |
| StatsBins.CountBins.IncrementCountBin | stats/statstypes.cpp:412-420 | the vector stays ascending; the key's count becomes one more, or 1 if new; all other keys keep theirs; the total grows by one |
| StatsBins.DiveBins.AddDiveToValueBin | stats/statstypes.cpp:397-405 | the vector stays ascending; the dive is appended to the key's list, or the key gets a new one-dive list; all other keys keep theirs |
| StatsBins.Quarter | stats/statstypes.cpp:678-688 | the quarter of month m (counted from 0) is m/3+1 |
| StatsBins.ToBinValue | stats/statstypes.cpp:649-651 | every `to_bin_value` yields a key of its binner's shape; SAC bins of a non-positive SAC are invalid (lines 870-874, 907-911); a location bin is invalid iff the site is null (1021-1023); date bins are never invalid; a dive mode in range is its own bin and any other mode becomes OC (955-958) |
| StatsBins.Inc | stats/statstypes.cpp:521-526 | `inc` yields a key of the same shape that is strictly greater |
| StatsBins.IncIsSuccessor | stats/statstypes.cpp:690-695 | `inc` moves to the very next quarter or month across year ends (lines 717-722), and to the next integer for integer bins |
| StatsBins.QuarterOfMonth | stats/statstypes.cpp:678-716 | a dive's quarter bin is its month bin divided by three |
| StatsBins.RangeUpperIsNextLower | stats/statstypes.cpp:535-547 | a range bin's upper bound, `(value+1)*bin_size`, is the next bin's lower bound |
| StatsBins.MeterBinHoldsDepth | stats/statstypes.cpp:749-751 | a dive's metre bin range contains its maximum depth in whole metres |
| StatsBins.MinuteBinHoldsDuration | stats/statstypes.cpp:810-812 | a dive's minute bin range contains its duration in whole minutes |
| StatsBins.MetricSacBinHoldsSac | stats/statstypes.cpp:870-874 | a positive SAC in whole litres per minute lies in its bin's range `[value*bin_size, (value+1)*bin_size)` |
| StatsBins.ImperialSacBinHoldsSac | stats/statstypes.cpp:907-911 | a positive SAC in hundredths of a cubic foot per minute lies in its bin's range `[value*bin_size, (value+1)*bin_size)` |
| StatsBins.BetweenKeyBounded | stats/statstypes.cpp:551-563 | each key `bins_between` supplies for a gap lies strictly between the gap's neighbours |
| StatsBins.BetweenKeysAscending | stats/statstypes.cpp:551-563 | the keys supplied for one gap are strictly ascending |
| StatsBins.HourBinHoldsDuration | stats/statstypes.cpp:825-827 | a dive's hour bin covers its duration |
| StatsBins.OrdinalMonotone | stats/statstypes.cpp:551-563 | keys of a continuous binner are numbered consistently with their order |
| StatsBins.BetweenIsSuccessorChain | stats/statstypes.cpp:551-563 | the bins between two bins are the chain of successors of the first that lie strictly below the second |
| StatsBins.BetweenAscending | stats/statstypes.cpp:551-563 | the bins between are strictly ascending |
| StatsBins.BetweenBounded | stats/statstypes.cpp:551-563 | every bin between lies strictly between the two bins |
| StatsBins.BinsBetween | stats/statstypes.cpp:551-563 | the imperative loop yields exactly the specified bins between |
| StatsBins.ToStringList | stats/statstypes.cpp:974-999 | the suit binner yields the one suit, and the buddy binner one string per buddy and divemaster |
| StatsBins.StringTags | stats/statstypes.cpp:591-594 | the string bins a dive goes into skip the empty (invalid) strings |
| StatsBins.DiveTags | stats/statstypes.cpp:430-433 | a dive goes into valid bins of its binner's shape, and into at most one for a simple binner |
| StatsBins.Tagged | stats/statstypes.cpp:423-449 | the (bin, dive) pairs of all dives are valid bins of the binner's shape naming existing dives |
| StatsBins.TaggedSnoc | stats/statstypes.cpp:428-434 | the pairs of one more dive are the old pairs followed by that dive's |
| StatsBins.DivesForSnoc | stats/statstypes.cpp:397-405 | a bin's dive list grows by the dive exactly when the new pair names that bin |
| StatsBins.DivesForNonEmpty | stats/statstypes.cpp:397-405 | a bin holds dives iff some pair names it |
| StatsBins.CountStep | stats/statstypes.cpp:459-462 | one `increment_count_bin` turns the counts of a tagging into those of the tagging plus one pair |
| StatsBins.DiveStep | stats/statstypes.cpp:430-433 | one `add_dive_to_value_bin` turns the dive lists of a tagging into those of the tagging plus one pair |
| StatsBins.CountTag | stats/statstypes.cpp:459-462 | counting one more pair in place keeps the counts exact |
| StatsBins.ListTag | stats/statstypes.cpp:430-433 | adding one more pair in place keeps the dive lists exact |
| StatsBins.CountedEntries | stats/statstypes.cpp:452-478 | every counted bin is valid, of the binner's shape, and has a count of at least 1 |
| StatsBins.ListedEntries | stats/statstypes.cpp:423-449 | every listed bin is valid, of the binner's shape, and non-empty |
| StatsBins.StripWithGaps | stats/statstypes.cpp:436-447 | removing the empty bins from the filled vector gives back the unfilled one |
| StatsBins.WithGapsDiscrete | stats/statstypes.cpp:436-447 | for discrete binners, filling adds nothing |
| StatsBins.WithGapsAscending | stats/statstypes.cpp:436-447 | the filled vector stays ascending |
| StatsBins.FillGaps | stats/statstypes.cpp:436-447 | the imperative loop yields the filled vector when `fill_empty` is set, and the vector unchanged otherwise |
| StatsBins.FillingFacts | stats/statstypes.cpp:436-447 | the result is ascending, and dropping its empty bins gives the bins found |
| StatsBins.CollectCounts | stats/statstypes.cpp:455-463 | the loop over the dives yields the exact count per bin |
| StatsBins.SimpleCountDives | stats/statstypes.cpp:452-478 | `count_dives` of a simple binner: ascending bins, with the exact count per bin and empty bins only as filled gaps |
| StatsBins.CollectDiveLists | stats/statstypes.cpp:426-434 | the loop over the dives yields each bin's dives in input order |
| StatsBins.SimpleBinDives | stats/statstypes.cpp:423-449 | `bin_dives` of a simple binner: ascending bins holding exactly their dives, and empty bins only as filled gaps |
| StatsBins.CountStrings | stats/statstypes.cpp:613-619 | counting a dive's strings adds exactly its valid strings |
| StatsBins.AddStrings | stats/statstypes.cpp:590-596 | adding a dive's strings adds it exactly to its valid strings' bins |
| StatsBins.StringCountDives | stats/statstypes.cpp:607-627 | `count_dives` of a string binner: exact counts, no invalid bin, every count at least 1 |
| StatsBins.StringBinDives | stats/statstypes.cpp:584-604 | `bin_dives` of a string binner: exact dive lists, no invalid bin, none empty |
| StatsBins.DiveIsInItsBin | stats/statstypes.cpp:423-449 | a dive with a valid bin value is in that bin's list |
| StatsBins.DivesForPrefix | stats/statstypes.cpp:423-449 | the dives binned so far are among the dives binned at the end |
| StatsTypes.GetBinner | stats/statstypes.cpp:155-161 | none for a type without binners, the indexed binner if the index is in range, and the first binner otherwise |
| StatsTypes.IdxToOperation | stats/statstypes.cpp:186-194 | the indexed operation if in range, the first supported one otherwise, and the median when none is supported |
| StatsTypes.OperationName | stats/statstypes.cpp:196-201 | the name is empty exactly for an index outside the name table, and is the table entry otherwise |
| StatsTypes.OperationNamesDistinct | stats/statstypes.cpp:196-201 | every operation has a non-empty name, and different operations have different names |
| StatsTypes.SupportedOperationNames | stats/statstypes.cpp:176-184 | one non-empty name per supported operation, in order |
| StatsTypes.ValidValuesMembers | stats/statstypes.cpp:231-243 | the values are exactly the valid values of the dives |
| StatsTypes.ValidValues | stats/statstypes.cpp:231-240 | the valid values of the dives in dive order, no more of them than dives; `ValidValuesMembers` states which they are |
| StatsTypes.Values | stats/statstypes.cpp:231-243 | `values` returns the dives' valid values sorted (`Sort` of them), as a permutation |
| StatsTypes.QuartilesOf | stats/statstypes.cpp:269-286 | all zero for no values; otherwise the minimum is the first value and the maximum the last |
| StatsTypes.QuartilesInterpolate | stats/statstypes.cpp:245-286 | each of the four index cases picks Q1, Q2, Q3 as linear interpolation at a quarter, a half and three quarters of the sorted values |
| StatsTypes.InterpolateBetween | stats/statstypes.cpp:250-261 | an interpolated value lies between its neighbouring values |
| StatsTypes.InterpolateMonotone | stats/statstypes.cpp:250-261 | interpolation is monotone in the position |
| StatsTypes.QuartilesOrdered | stats/statstypes.cpp:269-286 | for sorted values min <= Q1 <= Q2 <= Q3 <= max |
| StatsTypes.QuartilesMedian | stats/statstypes.cpp:269-286 | Q2 is the median |
| StatsTypes.DiveQuartiles | stats/statstypes.cpp:263-266 | the quartiles are `QuartilesOf` the sorted valid values; all zero without values; the minimum and maximum are valid values and the least and greatest of them; min <= Q1 <= Q2 <= Q3 <= max |
| DiveFilter.Refiltered | core/divefilter.cpp:19-32 | the new status hides the dive iff not shown; a hidden dive is deselected; nothing else changes |
| DiveFilter.MoreConstraintsShowFewer | core/divefilter.cpp:130-140 | an added constraint never shows a dive that was hidden (`validFilter` at lines 51-54) |
| DiveFilter.FullTextNarrows | core/divefilter.cpp:56-72 | a dive shown with the full-text filter active matches the text and is shown without it |
| DiveFilter.CountShown | core/divefilter.cpp:16 | the number of shown dives is at most the table size |
| DiveFilter.CountShownUpdate | core/divefilter.cpp:19-32 | changing one dive changes the shown count by the change of its bit |
| DiveFilter.CountShownRemove | core/divefilter.cpp:124-128 | removing a dive lowers the shown count by its bit |
| DiveFilter.CountShownAllVisible | core/divefilter.cpp:74-82 | with every dive unhidden, all are shown |
| DiveFilter.NatLeIsTotalPreorder | core/divefilter.cpp:166-179 | the site order used for sorting is a total preorder |
| DiveFilter.StoredSitesSortedPermutation | core/divefilter.cpp:166-179 | the stored dive sites are the given ones, sorted |
| DiveFilter.ValidFilter | core/divefilter.cpp:51-54 | `validFilter`: the full-text query is active or some constraint is set |
| DiveFilter.ShowDive | core/divefilter.cpp:130-140 | an invalid dive is hidden unless invalid dives are displayed; with no valid filter every other dive is shown; otherwise a dive is shown iff it matches every constraint; `MoreConstraintsShowFewer` and `FullTextNarrows` are its properties |
| DiveFilter.Filter.constructor | core/divefilter.cpp:16 | the counter starts at 0 with no dive-site mode and no sites, so the filter is consistent exactly when no dive of the table is shown, for instance an empty table |
| DiveFilter.Filter.NewStatus | core/divefilter.cpp:61-67 | the three modes: dive-site mode looks only at the dive's site, full-text mode needs a text match and `showDive`, the normal mode `showDive` alone |
| DiveFilter.Filter.SetFilterStatus | core/divefilter.cpp:19-32 | no dive: no change; otherwise the dive is refiltered, the result says whether its status changed, and the counter moves by one in the matching direction; the gap between counter and shown count is kept |
| DiveFilter.Filter.UpdateDiveStatus | core/divefilter.cpp:34-42 | the dive is refiltered and lands in the new-shown or new-hidden list iff its status flipped that way; the counter gap is kept |
| DiveFilter.Filter.Update | core/divefilter.cpp:56-72 | each listed dive gets its new status, the others are untouched; the change lists hold exactly the flipped dives; the counter gap is kept |
| DiveFilter.Filter.UpdateEveryDive | core/divefilter.cpp:92-110 | every dive gets its new status; the change lists hold exactly the flipped dives; the counter gap is kept |
| DiveFilter.Filter.UpdateAllAsWritten | core/divefilter.cpp:84-112 | as written, the counter ends as the new shown count minus the old one |
| DiveFilter.Filter.UpdateAll | core/divefilter.cpp:84-112 | corrected: the counter stays equal to the shown count; every dive gets its new status; the change lists hold exactly the flipped dives |
| DiveFilter.Filter.UnhideAll | core/divefilter.cpp:77-81 | every dive is unhidden and the counter equals the table size |
| DiveFilter.Filter.ResetAsWritten | core/divefilter.cpp:74-82 | as written, the counter ends as the shown count minus the table size |
| DiveFilter.Filter.Reset | core/divefilter.cpp:74-82 | corrected: every dive gets its new status and the counter equals the shown count |
| DiveFilter.Filter.DiveRemoved | core/divefilter.cpp:124-128 | the counter drops by one for a shown dive, and then equals the shown count of the table without it |
| DiveFilter.Filter.SetFilterDiveSite | core/divefilter.cpp:166-179 | the stored sites become the given ones sorted; the result says whether they differ from before |
| DiveFilter.Filter.StartFilterDiveSites | core/divefilter.cpp:143-155 | the reference count grows by one; entering dive-site mode always reports a change, a nested start only when the sorted sites differ |
| DiveFilter.Filter.StopFilterDiveSites | core/divefilter.cpp:157-164 | the reference count drops by one; leaving dive-site mode clears the sites, otherwise they stay |
| DiveFilter.ResetCounterExample | core/divefilter.cpp:74-82 | runs `reset` as written on three shown dives with a constraint that hides the third: the counter ends at -1 while two dives are shown |
| TabDiveInformation.SalinityComboIndex | desktop-widgets/tab-widgets/TabDiveInformation.cpp:183-193 | fresh water iff below 10050, sea water iff from 10210 on, and always one of the four water types |
| TabDiveInformation.ComboIndexMonotone | desktop-widgets/tab-widgets/TabDiveInformation.cpp:183-193 | a higher salinity never gives a lower water type |
| TabDiveInformation.WaterTypeLabel | desktop-widgets/tab-widgets/TabDiveInformation.cpp:243-250 | the label is one of the water-type names |
| TabDiveInformation.LabelAgreesWithComboIndex | desktop-widgets/tab-widgets/TabDiveInformation.cpp:243-250 | the label shown for a salinity names the same water type as the combo index for it |
| TabDiveInformation.ComboSalinity | desktop-widgets/tab-widgets/TabDiveInformation.cpp:272-289 | the combo entries for water types give a salinity between fresh and sea water; the "use dc" entry gives 0 |
| TabDiveInformation.ComboRoundTrip | desktop-widgets/tab-widgets/TabDiveInformation.cpp:183-193 | choosing a water type and reading back its salinity selects the same entry (lines 272-289) |
| TabDiveInformation.UseDcReadsBackFresh | desktop-widgets/tab-widgets/TabDiveInformation.cpp:272-289 | the stored 0 of "use dc" reads back as fresh water |
| TabDiveInformation.OverwrittenSymmetric | desktop-widgets/tab-widgets/TabDiveInformation.cpp:196-205 | the overwrite indicator does not depend on which value is the dive computer's |
| TabDiveInformation.OverwrittenNeedsBothAndOneBelowSea | desktop-widgets/tab-widgets/TabDiveInformation.cpp:196-205 | the indicator needs two different non-zero values, one of them below 10250; two values from 10250 on never show it |
| TabDiveInformation.SalinityOverwritten | desktop-widgets/tab-widgets/TabDiveInformation.cpp:196-205 | the indicator condition as written: both values set, different, and not both at least 10250; its properties are `OverwrittenSymmetric` and `OverwrittenNeedsBothAndOneBelowSea` |
| TabDiveInformation.EffectiveSalinity | desktop-widgets/tab-widgets/TabDiveInformation.cpp:235-238 | the user salinity if set, the dive salinity otherwise; none only when both are unset |
| TabDiveInformation.DefaultedUserSalinity | desktop-widgets/tab-widgets/TabDiveInformation.cpp:233-234 | a set user salinity stays; a manual dive without one gets one |
| TabDiveInformation.SalinityViewOf | desktop-widgets/tab-widgets/TabDiveInformation.cpp:239-258 | the combo box is shown iff salinity editing is on or the dive is manual (lines 111-121), otherwise the label; the combo index is that of the effective salinity, fresh water (index 0) when none is known; the label names the water type and is cleared when none is known; the salinity text is cleared iff none is known; the overwrite indicator is recomputed iff a salinity is known and is left alone otherwise |
| TabDiveInformation.ManualDiveShowsCombo | desktop-widgets/tab-widgets/TabDiveInformation.cpp:233-241 | a manual dive always shows the combo box with a salinity and a recomputed indicator |
| TabDiveInformation.UnknownSalinityShowsFresh | desktop-widgets/tab-widgets/TabDiveInformation.cpp:254-257 | with salinity editing on and no salinity known, the combo box stays visible at fresh water, the salinity text is cleared and the indicator keeps its state |
| TabDiveInformation.MultiDiveWarning | desktop-widgets/tab-widgets/TabDiveInformation.cpp:96-104 | the warning shows exactly when more than one dive was edited, with that number |
| TabDiveInformation.Dive.UpdateData | desktop-widgets/tab-widgets/TabDiveInformation.cpp:217-258 | the user salinity is defaulted for a manual dive, and the view (combo or label, with the reset to fresh water when no salinity is known) is `SalinityViewOf` the new state |
| TabDiveInformation.Dive.DivesChanged | desktop-widgets/tab-widgets/TabDiveInformation.cpp:325-332 | the combo shows the effective salinity; the indicator is recomputed exactly when the salinity field changed |
| DiveEventItem.ShouldBeHidden | profile-widget/diveeventitem.cpp:217-248 | hidden iff an initial gas change, a surface event within 30 s of either end, or an event switched off in the name list |
| DiveEventItem.AsciiLower | profile-widget/diveeventitem.cpp:119-151 | case folding maps upper-case letters to lower case and leaves the rest alone |
| DiveEventItem.GasIconKindOf | profile-widget/diveeventitem.cpp:92-112 | the trimix icon iff the gas has helium; air iff no helium and air; oxygen iff neither and pure oxygen |
| DiveEventItem.EventIcon | profile-widget/diveeventitem.cpp:84-157 | nameless events get the warning icon; bookmarks the bookmark; gas changes the gas icon of their mix, flagged iff ICD is violated; the transparent icon iff unobtrusive |
| DiveEventItem.UnknownEventGetsWarning | profile-widget/diveeventitem.cpp:153-157 | an event of no known name or severity gets the warning icon |
| DiveEventItem.ShoutedAlarmIsViolation | profile-widget/diveeventitem.cpp:139-146 | event names match regardless of case: "SPEED ALARM" gets the violation icon |
| DiveEventItem.RoundedMaxDeltaN2 | profile-widget/diveeventitem.cpp:185 | `lrint(-dHe / 5.0)` is non-negative and within 2/5 of -dHe/5 |
| DiveEventItem.TooltipFor | profile-widget/diveeventitem.cpp:162-206 | gas changes show their mix, the cylinder number (index + 1) iff an index is known, and the ICD figures iff dHe is negative, flagged iff violated; other events show value details iff they have a value |
| DiveEventItem.Digits | profile-widget/diveeventitem.cpp:255 | the displayed text of a number is a non-empty string of decimal digits |
| DiveEventItem.DecimalText | profile-widget/diveeventitem.cpp:255 | the displayed text of an `int` starts with a minus sign exactly when it is negative |
| DiveEventItem.ExactTimeMatches | profile-widget/diveeventitem.cpp:255 | a time cell equal to the event's time always matches |
| DiveEventItem.PrefixMatchIsNotEquality | profile-widget/diveeventitem.cpp:255 | `match` compares text prefixes: an event at 6 s matches the cell 60 though no cell holds 6, and an event at 60 s does not match the cell 6 |
| DiveEventItem.MatchKeepsSign | profile-widget/diveeventitem.cpp:255 | a match never pairs a negative time with a non-negative cell or the reverse |
| DiveEventItem.EventItem.RecalculatePos | profile-widget/diveeventitem.cpp:250-272 | without axes, model or event nothing changes; otherwise the item ends hidden if no time cell matches the event's time (a text-prefix match, as `match` does by default) or a hiding rule applies, and shown otherwise |
| DiveEventItem.EventItem.SetEvent | profile-widget/diveeventitem.cpp:53-63 | no event: nothing changes; otherwise the icon, the tooltip and the last gas are those of the event, and visibility is recalculated with the prefix match |
| DiveEventItem.EventItem.SetHorizontalAxis | profile-widget/diveeventitem.cpp:29-33 | the axis is set and visibility recalculated with the prefix match |
| DiveEventItem.EventItem.SetVerticalAxis | profile-widget/diveeventitem.cpp:41-46 | the axis is set and visibility recalculated with the prefix match |
| DiveEventItem.EventItem.SetModel | profile-widget/diveeventitem.cpp:35-39 | the model is set and visibility recalculated with the prefix match |

## Left out

- The HTML text of the notes, the tooltips and the labels is not modelled: formatting, translation, units and colours. The model keeps the decisions behind them. These are which rows, warnings and sections appear, with which numbers and which colour choice.
- Floating-point physics is not modelled: gas laws, depth-to-pressure, `fill_pressures`, `isothermal_pressure`, SAC and minimum-gas volumes, and `ml_to_cuft`. Each is an uninterpreted parameter: `Physics.po2`, `Physics.minGasMbar`, `Physics.shortOfReserve`, `Physics.marginPositive`, `Env.differ` and `Env.icd`.
- Inside `add_plan_to_notes`, the deco-model and altitude lines are not modelled, nor the volume lines of each cylinder. `update_cylinder_related_info` and the CNS/OTU lines are left out too. They only format values computed elsewhere.
- `MAX_CYLINDERS` is the length of the cylinder sequence. The fixed-size buffers (`sz_buffer`, `sz_icdbuf`) and their truncation are not modelled.
- The `first_sample &&` test in `shouldBeHidden` is modelled as an optional first-sample time, None for a computer without samples.
- `FeetBinner` and `ImperialSACBinner` read the depth in feet and the SAC in hundredths of a cubic foot. These are rounded in floating point outside the model and passed as `feetRounded` and `sacCuftHundredths`.
- The buddy list is split and trimmed outside the model.
- `StatsType` averages, sums, time-weighted averages and scatter data are not modelled.
- The `format`/`formatLowerBound` strings are not modelled. Only the bounds they print are: `StatsBins.RangeLower` and `StatsBins.RangeUpperIsNextLower`.
- `DiveFilter.Filter.UpdateAll`, `DiveFilter.Filter.Update` and `DiveFilter.Filter.Reset` do not model the `divesSelected`/`filterFinished` signals. They do not model the re-selection of the current dive either.
- The full-text search is a precomputed match per dive (`Matcher.textMatch`). The filter-constraint match is a parameter too.
- The string order of `QString::operator<` is modelled as lexicographic order by character. This is the same order on UTF-16 code units for characters of the Basic Multilingual Plane.
- Animations, pixmap sizes and Qt signal connections of the event item are not modelled, nor the screen position (`posAtValue`). Only visibility is modelled.
- StatsTypes.QuartilesOf: the interpolation is computed over exact `real` numbers, where the C++ code uses `double`; rounding of the weighted means is not modelled.
- StatsBins.ToBinValue: quarter and month keys (`PairKey`) are unbounded integers, where `year_quarter` and `year_month` are pairs of `unsigned short` (stats/statstypes.cpp:28-29); wrap-around of the year is not modelled.
- DiveFilter.Filter.SetFilterDiveSite: dive sites are numbers ordered as numbers; the C++ code sorts and compares `dive_site` pointers, whose order is the allocation order.
- PlannerNotes.DiveplanDuration: `(duration + 30) / 60` is computed without 32-bit `int` overflow, and so are `(value + 1) * bin_size` in `StatsBins.RangeLower` and the other binner arithmetic; plan times and bin values near `INT_MAX` are not modelled.
- `PlannerWalk.WalkPlan` requires a non-empty plan. `add_plan_to_notes` returns before the walk when there is none.
- `PlannerNotes.PlanFits` requires every plan point's cylinder index to name a cylinder. The C code indexes `dive->cylinder` with it unchecked.

## Findings

| source | as written | input that shows it | evidently intended | confidence | as-written member | corrected member |
|---|---|---|---|---|---|---|
| core/plannernotes.c:218 | `if (dp->entered && !nextdp->entered)` dereferences `nextdp` without a null check | a plan of one entered point with non-zero time: its next real point is null, and the test reads through it | a last entered point with no next real point is the last bottom point | not executed | PlannerWalk.SingleEnteredPointReachesNullTest | PlannerWalk.BottomGuard |
| core/divefilter.cpp:86 | `updateAll` sets `shown_dives = 0` and then adds the ±1 changes of `setFilterStatus` | three shown dives, then a filter that hides one: after `reset` the counter is -1 while two dives are shown | the counter keeps counting the shown dives | not executed | DiveFilter.Filter.ResetAsWritten | DiveFilter.Filter.Reset |
