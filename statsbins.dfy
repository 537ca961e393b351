/** Statistics binning: bin keys and their order, the sorted unique-key bin vectors
    updated by lower-bound insertion, the key functions of the binners, the
    successor functions and the filling of gaps between bins. */
module StatsBins {
  import opened Base

  /** A bin key. Integer bins (`IntBin`), (year, quarter) and (year, month) pairs,
      strings, and dive sites (numbered; 0 is the null site). */
  datatype Key = IntKey(i: int) | PairKey(year: int, part: int) | StrKey(s: string) | SiteKey(site: nat)

  /** Lexicographic order on strings, by character. */
  predicate StrLess(s: string, t: string)
    decreases |s|
  {
    if |s| == 0 then |t| > 0
    else |t| > 0 && (s[0] < t[0] || (s[0] == t[0] && StrLess(s[1..], t[1..])))
  }

  function Rank(k: Key): nat
  {
    match k
    case IntKey(_) => 0
    case PairKey(_, _) => 1
    case StrKey(_) => 2
    case SiteKey(_) => 3
  }

  /** `operator<` of the key types: integers, `std::pair` (lexicographic), strings,
      site pointers. Keys of different shapes never meet in one vector; they are
      ordered by shape so that the order is total. */
  predicate KeyLess(a: Key, b: Key)
  {
    match (a, b)
    case (IntKey(x), IntKey(y)) => x < y
    case (PairKey(y1, p1), PairKey(y2, p2)) => y1 < y2 || (y1 == y2 && p1 < p2)
    case (StrKey(s), StrKey(t)) => StrLess(s, t)
    case (SiteKey(x), SiteKey(y)) => x < y
    case _ => Rank(a) < Rank(b)
  }

  lemma {:induction false} StrLessIrreflexive(s: string)
    ensures !StrLess(s, s)
  {
    if |s| > 0 {
      StrLessIrreflexive(s[1..]);
    }
  }

  lemma {:induction false} StrLessTransitive(s: string, t: string, u: string)
    requires StrLess(s, t) && StrLess(t, u)
    ensures StrLess(s, u)
    decreases |s|
  {
    if |s| > 0 && s[0] == t[0] && t[0] == u[0] {
      StrLessTransitive(s[1..], t[1..], u[1..]);
    }
  }

  lemma {:induction false} StrLessTotal(s: string, t: string)
    ensures s == t || StrLess(s, t) || StrLess(t, s)
    decreases |s|
  {
    if |s| > 0 && |t| > 0 && s[0] == t[0] {
      StrLessTotal(s[1..], t[1..]);
      if s[1..] == t[1..] {
        assert s == [s[0]] + s[1..] && t == [t[0]] + t[1..];
      }
    }
  }

  lemma KeyLessIrreflexive(a: Key)
    ensures !KeyLess(a, a)
  {
    if a.StrKey? {
      StrLessIrreflexive(a.s);
    }
  }

  lemma KeyLessTransitive(a: Key, b: Key, c: Key)
    requires KeyLess(a, b) && KeyLess(b, c)
    ensures KeyLess(a, c)
  {
    if a.StrKey? && b.StrKey? && c.StrKey? {
      StrLessTransitive(a.s, b.s, c.s);
    }
  }

  lemma KeyLessTotal(a: Key, b: Key)
    ensures a == b || KeyLess(a, b) || KeyLess(b, a)
  {
    if a.StrKey? && b.StrKey? {
      StrLessTotal(a.s, b.s);
    }
  }

  /** An entry of a bin vector: a key and its count or its dive list. */
  datatype Pair<V> = Pair(key: Key, value: V)

  /** Keys strictly ascending, hence unique. */
  predicate Ascending<V>(s: seq<Pair<V>>)
  {
    forall i, j :: 0 <= i < j < |s| ==> KeyLess(s[i].key, s[j].key)
  }

  /** The value stored under a key, if any. */
  function Lookup<V>(s: seq<Pair<V>>, k: Key): (r: Option<V>)
  {
    if |s| == 0 then None
    else if s[0].key == k then Some(s[0].value)
    else Lookup(s[1..], k)
  }

  lemma {:induction false} LookupFound<V>(s: seq<Pair<V>>, j: nat)
    requires Ascending(s) && j < |s|
    ensures Lookup(s, s[j].key) == Some(s[j].value)
  {
    if j > 0 {
      KeyLessIrreflexive(s[j].key);
      assert KeyLess(s[0].key, s[j].key);
      LookupFound(s[1..], j - 1);
    }
  }

  lemma {:induction false} LookupNone<V>(s: seq<Pair<V>>, k: Key)
    ensures Lookup(s, k).None? <==> forall j :: 0 <= j < |s| ==> s[j].key != k
  {
    if s != [] {
      LookupNone(s[1..], k);
      if s[0].key != k {
        assert forall j :: 1 <= j < |s| ==> s[j] == s[1..][j - 1];
      }
    }
  }

  /** Overwriting the value at an existing position changes the lookup of that key only. */
  lemma {:induction false} LookupAfterSet<V>(s: seq<Pair<V>>, i: nat, v: V)
    requires Ascending(s) && i < |s|
    ensures Ascending(s[i := Pair(s[i].key, v)])
    ensures forall k :: Lookup(s[i := Pair(s[i].key, v)], k) == if k == s[i].key then Some(v) else Lookup(s, k)
  {
    var t := s[i := Pair(s[i].key, v)];
    assert forall j :: 0 <= j < |t| ==> t[j].key == s[j].key;
    if i > 0 {
      var u := s[1..][i - 1 := Pair(s[i].key, v)];
      assert t[1..] == u;
      assert t[0] == s[0];
      LookupAfterSet(s[1..], i - 1, v);
      KeyLessIrreflexive(s[i].key);
      assert KeyLess(s[0].key, s[i].key);
      forall k ensures Lookup(t, k) == if k == s[i].key then Some(v) else Lookup(s, k) {
        if s[0].key != k {
          assert Lookup(t, k) == Lookup(u, k);
          assert Lookup(s, k) == Lookup(s[1..], k);
        }
      }
    } else {
      assert t[1..] == s[1..];
      forall k ensures Lookup(t, k) == if k == s[i].key then Some(v) else Lookup(s, k) {
        if s[0].key != k {
          assert Lookup(t, k) == Lookup(t[1..], k);
        }
      }
    }
  }

  /** Inserting a key above everything before position `i` and below everything
      from it keeps the keys ascending. */
  lemma InsertAscending<V>(s: seq<Pair<V>>, i: nat, p: Pair<V>)
    requires Ascending(s) && i <= |s|
    requires forall j :: 0 <= j < i ==> KeyLess(s[j].key, p.key)
    requires forall j :: i <= j < |s| ==> KeyLess(p.key, s[j].key)
    ensures Ascending(s[..i] + [p] + s[i..])
  {
    var t := s[..i] + [p] + s[i..];
    forall a, b | 0 <= a < b < |t| ensures KeyLess(t[a].key, t[b].key) {
      if b < i {
        assert t[a] == s[a] && t[b] == s[b];
      } else if b == i {
        assert t[a] == s[a];
      } else if a == i {
        assert t[b] == s[b - 1];
      } else if a < i {
        assert t[a] == s[a] && t[b] == s[b - 1];
      } else {
        assert t[a] == s[a - 1] && t[b] == s[b - 1];
      }
    }
  }

  /** Inserting a key that is not present changes the lookup of that key only. */
  lemma {:induction false} LookupAfterInsert<V>(s: seq<Pair<V>>, i: nat, p: Pair<V>)
    requires i <= |s|
    requires forall j :: 0 <= j < |s| ==> s[j].key != p.key
    ensures forall k :: Lookup(s[..i] + [p] + s[i..], k) == if k == p.key then Some(p.value) else Lookup(s, k)
  {
    var t := s[..i] + [p] + s[i..];
    if i > 0 {
      var u := s[1..][..i - 1] + [p] + s[1..][i - 1..];
      assert s[..i] == [s[0]] + s[1..][..i - 1];
      assert s[i..] == s[1..][i - 1..];
      assert t == [s[0]] + u;
      LookupAfterInsert(s[1..], i - 1, p);
      forall k ensures Lookup(t, k) == if k == p.key then Some(p.value) else Lookup(s, k) {
        if s[0].key != k {
          assert t[1..] == u;
          assert Lookup(t, k) == Lookup(u, k);
          assert Lookup(s, k) == Lookup(s[1..], k);
        }
      }
    } else {
      assert t == [p] + s;
      assert t[1..] == s;
    }
  }

  /** `pair_lower_bound`: binary search for the first entry whose key is not below `k`. */
  method PairLowerBound<V>(v: seq<Pair<V>>, k: Key) returns (i: nat)
    requires Ascending(v)
    ensures i <= |v|
    ensures forall j :: 0 <= j < i ==> KeyLess(v[j].key, k)
    ensures forall j :: i <= j < |v| ==> !KeyLess(v[j].key, k)
  {
    var lo, hi := 0, |v|;
    while lo < hi
      invariant 0 <= lo <= hi <= |v|
      invariant forall j :: 0 <= j < lo ==> KeyLess(v[j].key, k)
      invariant forall j :: hi <= j < |v| ==> !KeyLess(v[j].key, k)
    {
      var mid := lo + (hi - lo) / 2;
      if KeyLess(v[mid].key, k) {
        forall j | 0 <= j <= mid ensures KeyLess(v[j].key, k) {
          if j < mid {
            KeyLessTransitive(v[j].key, v[mid].key, k);
          }
        }
        lo := mid + 1;
      } else {
        forall j | mid <= j < |v| ensures !KeyLess(v[j].key, k) {
          if j > mid && KeyLess(v[j].key, k) {
            KeyLessTransitive(v[mid].key, v[j].key, k);
          }
        }
        hi := mid;
      }
    }
    i := lo;
  }

  /** The sum of the counts of a count vector. */
  function SumCounts(s: seq<Pair<int>>): int
  {
    if |s| == 0 then 0 else s[0].value + SumCounts(s[1..])
  }

  lemma {:induction false} SumAfterSet(s: seq<Pair<int>>, i: nat, c: int)
    requires i < |s|
    ensures SumCounts(s[i := Pair(s[i].key, c)]) == SumCounts(s) - s[i].value + c
  {
    if i > 0 {
      assert s[i := Pair(s[i].key, c)][1..] == s[1..][i - 1 := Pair(s[i].key, c)];
      SumAfterSet(s[1..], i - 1, c);
    }
  }

  lemma {:induction false} SumAfterInsert(s: seq<Pair<int>>, i: nat, p: Pair<int>)
    requires i <= |s|
    ensures SumCounts(s[..i] + [p] + s[i..]) == SumCounts(s) + p.value
  {
    if i > 0 {
      assert (s[..i] + [p] + s[i..])[1..] == s[1..][..i - 1] + [p] + s[1..][i - 1..];
      SumAfterInsert(s[1..], i - 1, p);
    } else {
      assert s[..i] + [p] + s[i..] == [p] + s;
    }
  }

  /** A vector of (value, count) pairs with ascending keys. */
  class CountBins {
    var entries: seq<Pair<int>>

    constructor ()
      ensures entries == []
    {
      entries := [];
    }

    /** `increment_count_bin`: an existing key's count goes up by one; a new key is
        inserted at its lower-bound position with count 1; nothing else changes. */
    method IncrementCountBin(k: Key)
      requires Ascending(entries)
      modifies this
      ensures Ascending(entries)
      ensures Lookup(entries, k) == Some(match old(Lookup(entries, k)) case None => 1 case Some(c) => c + 1)
      ensures forall k' :: k' != k ==> Lookup(entries, k') == old(Lookup(entries, k'))
      ensures SumCounts(entries) == old(SumCounts(entries)) + 1
    {
      var it := PairLowerBound(entries, k);
      if it < |entries| && entries[it].key == k {
        LookupFound(entries, it);
        LookupAfterSet(entries, it, entries[it].value + 1);
        SumAfterSet(entries, it, entries[it].value + 1);
        entries := entries[it := Pair(k, entries[it].value + 1)];
      } else {
        forall j | it <= j < |entries| ensures KeyLess(k, entries[j].key) {
          KeyLessTotal(k, entries[j].key);
          if j > it {
            assert KeyLess(entries[it].key, entries[j].key);
          }
        }
        forall j | 0 <= j < |entries| ensures entries[j].key != k {
          KeyLessIrreflexive(k);
        }
        LookupNone(entries, k);
        InsertAscending(entries, it, Pair(k, 1));
        LookupAfterInsert(entries, it, Pair(k, 1));
        SumAfterInsert(entries, it, Pair(k, 1));
        entries := entries[..it] + [Pair(k, 1)] + entries[it..];
      }
    }
  }

  /** A vector of (value, dive list) pairs with ascending keys; dives are numbered. */
  class DiveBins {
    var entries: seq<Pair<seq<nat>>>

    constructor ()
      ensures entries == []
    {
      entries := [];
    }

    /** `add_dive_to_value_bin`: an existing key gets the dive appended to its list;
        a new key is inserted at its lower-bound position with the list [d]. */
    method AddDiveToValueBin(k: Key, d: nat)
      requires Ascending(entries)
      modifies this
      ensures Ascending(entries)
      ensures Lookup(entries, k) == Some(match old(Lookup(entries, k)) case None => [d] case Some(l) => l + [d])
      ensures forall k' :: k' != k ==> Lookup(entries, k') == old(Lookup(entries, k'))
    {
      var it := PairLowerBound(entries, k);
      if it < |entries| && entries[it].key == k {
        LookupFound(entries, it);
        LookupAfterSet(entries, it, entries[it].value + [d]);
        entries := entries[it := Pair(k, entries[it].value + [d])];
      } else {
        forall j | it <= j < |entries| ensures KeyLess(k, entries[j].key) {
          KeyLessTotal(k, entries[j].key);
          if j > it {
            assert KeyLess(entries[it].key, entries[j].key);
          }
        }
        forall j | 0 <= j < |entries| ensures entries[j].key != k {
          KeyLessIrreflexive(k);
        }
        LookupNone(entries, k);
        InsertAscending(entries, it, Pair(k, [d]));
        LookupAfterInsert(entries, it, Pair(k, [d]));
        entries := entries[..it] + [Pair(k, [d])] + entries[it..];
      }
    }
  }

  // ------------------------------------------------------------------
  // Binners and their key functions

  type Month = m: int | 0 <= m <= 11
  type BinSize = n: int | n > 0 witness 1

  /** The fields of a dive the binners read. `feetRounded` is the maximum depth in
      feet rounded to an integer and `sacCuftHundredths` the SAC in hundredths of a
      cubic foot, both computed in floating point outside this model; `buddies` and
      `divemasters` are the comma-separated lists already split and trimmed. */
  datatype StatsDive = StatsDive(
    year: int, month: Month, maxDepthMm: int, feetRounded: int, durationS: int,
    sacMl: int, sacCuftHundredths: int, diveMode: int, site: nat,
    buddies: seq<string>, divemasters: seq<string>, suit: string)

  /** The binner objects: date by year, quarter or month; depth in metre or foot
      steps; duration in minute steps or hours; SAC in litre or cubic-foot steps
      (the imperial step is stored in hundredths); dive mode; location; and the
      two string binners, buddies and suit. */
  datatype Binner =
    | YearBinner | QuarterBinner | MonthBinner
    | MeterBinner(size: BinSize) | FeetBinner(size: BinSize)
    | MinuteBinner(size: BinSize) | HourBinner
    | MetricSacBinner(size: BinSize) | ImperialSacBinner(size: BinSize)
    | DiveModeBinner | LocationBinner
    | BuddyBinner | SuitBinner

  predicate IsStringBinner(b: Binner) { b.BuddyBinner? || b.SuitBinner? }

  /** The binners derived from `SimpleContinuousBinner`; the others are discrete. */
  predicate IsContinuous(b: Binner)
  {
    !(b.DiveModeBinner? || b.LocationBinner? || IsStringBinner(b))
  }

  /** `NUM_DIVEMODE` and `OC`. */
  const NumDiveModes: int := 4
  const OC: int := 0

  /** `is_invalid_value`: INT_MAX, the empty string and the null site; date pairs are never invalid. */
  predicate IsInvalid(k: Key)
  {
    k == IntKey(IntMax) || k == StrKey("") || k == SiteKey(0)
  }

  /** The keys a binner produces: the key shape, and the range of a quarter or month. */
  predicate Fits(b: Binner, k: Key)
  {
    if IsStringBinner(b) then k.StrKey?
    else if b.LocationBinner? then k.SiteKey?
    else if b.QuarterBinner? then k.PairKey? && 1 <= k.part <= 4
    else if b.MonthBinner? then k.PairKey? && 0 <= k.part <= 11
    else k.IntKey?
  }

  /** The quarter of a month counted from 0. */
  function Quarter(month: Month): (q: int)
    ensures q == month / 3 + 1
  {
    if month <= 2 then 1 else if month <= 5 then 2 else if month <= 8 then 3 else 4
  }

  /** `to_bin_value` of the simple binners (C integer division throughout). */
  function ToBinValue(b: Binner, d: StatsDive): (k: Key)
    requires !IsStringBinner(b)
    ensures Fits(b, k)
    ensures (b.MetricSacBinner? || b.ImperialSacBinner?) && d.sacMl <= 0 ==> IsInvalid(k)
    ensures b.LocationBinner? ==> (IsInvalid(k) <==> d.site == 0)
    ensures b.QuarterBinner? || b.MonthBinner? ==> !IsInvalid(k)
    ensures b.DiveModeBinner? ==> 0 <= k.i < NumDiveModes
    ensures b.DiveModeBinner? && 0 <= d.diveMode < NumDiveModes ==> k.i == d.diveMode
    ensures b.DiveModeBinner? && !(0 <= d.diveMode < NumDiveModes) ==> k.i == OC
  {
    match b
    case YearBinner => IntKey(d.year)
    case QuarterBinner => PairKey(d.year, Quarter(d.month))
    case MonthBinner => PairKey(d.year, d.month)
    case MeterBinner(size) => IntKey(CDiv(CDiv(d.maxDepthMm, 1000), size))
    case FeetBinner(size) => IntKey(CDiv(d.feetRounded, size))
    case MinuteBinner(size) => IntKey(CDiv(CDiv(d.durationS, 60), size))
    case HourBinner => IntKey(CDiv(d.durationS, 3600))
    case MetricSacBinner(size) => if d.sacMl <= 0 then IntKey(IntMax) else IntKey(CDiv(CDiv(d.sacMl, 1000), size))
    case ImperialSacBinner(size) => if d.sacMl <= 0 then IntKey(IntMax) else IntKey(CDiv(d.sacCuftHundredths, size))
    case DiveModeBinner => IntKey(if 0 <= d.diveMode < NumDiveModes then d.diveMode else OC)
    case LocationBinner => SiteKey(d.site)
  }

  /** The `inc` functions: the next bin. Integer bins count up; a quarter after the
      fourth and a month after the twelfth roll over into the next year. */
  function Inc(b: Binner, k: Key): (r: Key)
    requires IsContinuous(b) && Fits(b, k)
    ensures Fits(b, r) && KeyLess(k, r)
  {
    if b.QuarterBinner? then
      (if k.part + 1 > 4 then PairKey(k.year + 1, 1) else PairKey(k.year, k.part + 1))
    else if b.MonthBinner? then
      (if k.part + 1 > 11 then PairKey(k.year + 1, 0) else PairKey(k.year, k.part + 1))
    else IntKey(k.i + 1)
  }

  /** Quarters and months numbered consecutively across years. */
  function QuarterIndex(k: Key): int requires k.PairKey? { 4 * k.year + (k.part - 1) }
  function MonthIndex(k: Key): int requires k.PairKey? { 12 * k.year + k.part }

  /** `inc` is the successor in that numbering, so no quarter or month is skipped. */
  lemma IncIsSuccessor(b: Binner, k: Key)
    requires IsContinuous(b) && Fits(b, k)
    ensures b.QuarterBinner? ==> QuarterIndex(Inc(b, k)) == QuarterIndex(k) + 1
    ensures b.MonthBinner? ==> MonthIndex(Inc(b, k)) == MonthIndex(k) + 1
    ensures !b.QuarterBinner? && !b.MonthBinner? ==> Inc(b, k).i == k.i + 1
  {
  }

  /** The quarter bin of a dive is its month bin divided by three. */
  lemma QuarterOfMonth(d: StatsDive)
    ensures QuarterIndex(ToBinValue(QuarterBinner, d)) == MonthIndex(ToBinValue(MonthBinner, d)) / 3
  {
    var m: int := d.month;
    assert m / 3 == Quarter(d.month) - 1;
    assert 12 * d.year + m == 3 * (4 * d.year + m / 3) + m % 3;
  }

  /** The lower bound of an integer-range bin (`IntRangeBinner::formatLowerBound`). */
  function RangeLower(size: BinSize, k: Key): int
    requires k.IntKey?
  {
    k.i * size
  }

  /** The upper bound of a range bin is the lower bound of the next bin, (value + 1) * size. */
  lemma RangeUpperIsNextLower(b: Binner, k: Key)
    requires b.MeterBinner? || b.FeetBinner? || b.MinuteBinner? || b.MetricSacBinner?
    requires k.IntKey?
    ensures RangeLower(b.size, Inc(b, k)) == (k.i + 1) * b.size == RangeLower(b.size, k) + b.size
  {
  }

  /** A dive's depth in whole metres lies in the range of its metre bin. */
  lemma MeterBinHoldsDepth(size: BinSize, d: StatsDive)
    requires d.maxDepthMm >= 0
    ensures RangeLower(size, ToBinValue(MeterBinner(size), d)) <= CDiv(d.maxDepthMm, 1000)
    ensures CDiv(d.maxDepthMm, 1000) < RangeLower(size, Inc(MeterBinner(size), ToBinValue(MeterBinner(size), d)))
  {
    CDivBounds(CDiv(d.maxDepthMm, 1000), size);
  }

  /** A dive's duration in whole minutes lies in the range of its minute bin. */
  lemma MinuteBinHoldsDuration(size: BinSize, d: StatsDive)
    requires d.durationS >= 0
    ensures RangeLower(size, ToBinValue(MinuteBinner(size), d)) <= CDiv(d.durationS, 60)
    ensures CDiv(d.durationS, 60) < RangeLower(size, Inc(MinuteBinner(size), ToBinValue(MinuteBinner(size), d)))
  {
    CDivBounds(CDiv(d.durationS, 60), size);
  }

  /** A positive SAC in whole litres per minute lies in the range of its metric SAC bin. */
  lemma MetricSacBinHoldsSac(size: BinSize, d: StatsDive)
    requires d.sacMl > 0
    ensures ToBinValue(MetricSacBinner(size), d).IntKey?
    ensures RangeLower(size, ToBinValue(MetricSacBinner(size), d)) <= CDiv(d.sacMl, 1000)
    ensures CDiv(d.sacMl, 1000) < RangeLower(size, Inc(MetricSacBinner(size), ToBinValue(MetricSacBinner(size), d)))
  {
    CDivBounds(CDiv(d.sacMl, 1000), size);
  }

  /** A positive SAC in hundredths of a cubic foot per minute lies in the range
      [value * bin_size, (value + 1) * bin_size) of its imperial SAC bin. */
  lemma ImperialSacBinHoldsSac(size: BinSize, d: StatsDive)
    requires d.sacMl > 0 && d.sacCuftHundredths >= 0
    ensures ToBinValue(ImperialSacBinner(size), d).i * size <= d.sacCuftHundredths
    ensures d.sacCuftHundredths < (ToBinValue(ImperialSacBinner(size), d).i + 1) * size
  {
    CDivBounds(d.sacCuftHundredths, size);
  }

  /** A dive's duration lies in the hour of its hour bin. */
  lemma HourBinHoldsDuration(d: StatsDive)
    requires d.durationS >= 0
    ensures ToBinValue(HourBinner, d).i * 3600 <= d.durationS < (ToBinValue(HourBinner, d).i + 1) * 3600
  {
    CDivBounds(d.durationS, 3600);
  }

  /** A position along the successor chain, used to bound it. */
  function Ordinal(k: Key): int
  {
    match k
    case IntKey(i) => i
    case PairKey(y, p) => 12 * y + p
    case _ => 0
  }

  lemma OrdinalMonotone(b: Binner, k1: Key, k2: Key)
    requires IsContinuous(b) && Fits(b, k1) && Fits(b, k2) && KeyLess(k1, k2)
    ensures Ordinal(k1) < Ordinal(k2)
  {
  }

  /** The successors of `act` below `k2`, starting with `act` itself. */
  function Run(b: Binner, act: Key, k2: Key): seq<Key>
    requires IsContinuous(b) && Fits(b, act) && Fits(b, k2)
    decreases Ordinal(k2) - Ordinal(act)
  {
    if KeyLess(act, k2) then
      OrdinalMonotone(b, act, k2);
      OrdinalMonotone(b, act, Inc(b, act));
      [act] + Run(b, Inc(b, act), k2)
    else []
  }

  /** What `bins_between(b1, b2)` returns: the successors of `k1` strictly below `k2`
      for a continuous binner, nothing for a discrete one. */
  function Between(b: Binner, k1: Key, k2: Key): seq<Key>
  {
    if IsContinuous(b) && Fits(b, k1) && Fits(b, k2) then Run(b, Inc(b, k1), k2) else []
  }

  lemma {:induction false} RunChain(b: Binner, act: Key, k2: Key)
    requires IsContinuous(b) && Fits(b, act) && Fits(b, k2)
    ensures var r := Run(b, act, k2);
      && (forall i :: 0 <= i < |r| ==> Fits(b, r[i]) && KeyLess(r[i], k2))
      && (r != [] <==> KeyLess(act, k2))
      && (r != [] ==> r[0] == act && !KeyLess(Inc(b, r[|r| - 1]), k2))
      && (forall i :: 0 <= i < |r| ==> KeyLess(act, r[i]) || act == r[i])
      && (forall i :: 0 <= i < |r| - 1 ==> r[i + 1] == Inc(b, r[i]))
    decreases Ordinal(k2) - Ordinal(act)
  {
    if KeyLess(act, k2) {
      OrdinalMonotone(b, act, k2);
      OrdinalMonotone(b, act, Inc(b, act));
      var n := Inc(b, act);
      RunChain(b, n, k2);
      var r := Run(b, act, k2);
      var t := Run(b, n, k2);
      assert r == [act] + t;
      forall i | 0 <= i < |r| ensures KeyLess(act, r[i]) || act == r[i] {
        if i > 0 {
          assert r[i] == t[i - 1];
          if r[i] != n {
            KeyLessTransitive(act, n, r[i]);
          }
        }
      }
    }
  }

  /** `bins_between` returns exactly the successors of the first bin strictly below
      the second, in ascending order; nothing when the first successor is not below. */
  lemma BetweenIsSuccessorChain(b: Binner, k1: Key, k2: Key)
    requires IsContinuous(b) && Fits(b, k1) && Fits(b, k2)
    ensures var r := Between(b, k1, k2);
      && (forall i :: 0 <= i < |r| ==> Fits(b, r[i]))
      && (r == [] <==> !KeyLess(Inc(b, k1), k2))
      && (r != [] ==> r[0] == Inc(b, k1) && !KeyLess(Inc(b, r[|r| - 1]), k2))
      && (forall i :: 0 <= i < |r| - 1 ==> r[i + 1] == Inc(b, r[i]))
      && (forall i :: 0 <= i < |r| ==> KeyLess(k1, r[i]) && KeyLess(r[i], k2))
  {
    var n := Inc(b, k1);
    RunChain(b, n, k2);
    var r := Between(b, k1, k2);
    forall i | 0 <= i < |r| ensures KeyLess(k1, r[i]) {
      if r[i] != n {
        KeyLessTransitive(k1, n, r[i]);
      }
    }
  }

  /** The successor chain is ascending. */
  lemma BetweenAscending(b: Binner, k1: Key, k2: Key)
    ensures forall i, j :: 0 <= i < j < |Between(b, k1, k2)| ==> KeyLess(Between(b, k1, k2)[i], Between(b, k1, k2)[j])
  {
    if IsContinuous(b) && Fits(b, k1) && Fits(b, k2) {
      var r := Between(b, k1, k2);
      BetweenIsSuccessorChain(b, k1, k2);
      RunChain(b, Inc(b, k1), k2);
      forall i, j | 0 <= i < j < |r| ensures KeyLess(r[i], r[j]) {
        AscendingStep(b, r, i, j);
      }
    }
  }

  lemma {:induction false} AscendingStep(b: Binner, r: seq<Key>, i: nat, j: nat)
    requires IsContinuous(b)
    requires forall m :: 0 <= m < |r| ==> Fits(b, r[m])
    requires forall m :: 0 <= m < |r| - 1 ==> r[m + 1] == Inc(b, r[m])
    requires i < j < |r|
    ensures KeyLess(r[i], r[j])
    decreases j - i
  {
    if j > i + 1 {
      AscendingStep(b, r, i, j - 1);
      assert r[j] == Inc(b, r[j - 1]);
      KeyLessTransitive(r[i], r[j - 1], r[j]);
    }
  }

  /** `bins_between` of the continuous binners, and the empty default of the discrete ones. */
  method BinsBetween(b: Binner, k1: Key, k2: Key) returns (res: seq<Key>)
    requires Fits(b, k1) && Fits(b, k2)
    ensures res == Between(b, k1, k2)
  {
    if !IsContinuous(b) {
      return [];
    }
    res := [];
    var act := Inc(b, k1);
    while KeyLess(act, k2)
      invariant Fits(b, act)
      invariant res + Run(b, act, k2) == Run(b, Inc(b, k1), k2)
      decreases Ordinal(k2) - Ordinal(act)
    {
      OrdinalMonotone(b, act, k2);
      OrdinalMonotone(b, act, Inc(b, act));
      ConcatAssoc(res, [act], Run(b, Inc(b, act), k2));
      res := res + [act];
      act := Inc(b, act);
    }
    assert res + [] == res;
  }

  // ------------------------------------------------------------------
  // What a binning produces

  /** `to_string_list` of the string binners: the buddies followed by the dive
      guides, or the suit alone. */
  function ToStringList(b: Binner, d: StatsDive): (l: seq<string>)
    requires IsStringBinner(b)
    ensures b.SuitBinner? ==> l == [d.suit]
    ensures b.BuddyBinner? ==> |l| == |d.buddies| + |d.divemasters|
  {
    if b.BuddyBinner? then d.buddies + d.divemasters else [d.suit]
  }

  /** The (key, dive) pairs for the strings of one dive, skipping empty strings. */
  function StringTags(l: seq<string>, d: nat): (t: seq<(Key, nat)>)
    ensures forall i :: 0 <= i < |t| ==> t[i].0.StrKey? && !IsInvalid(t[i].0) && t[i].1 == d
    ensures |t| <= |l|
  {
    if |l| == 0 then []
    else StringTags(l[..|l| - 1], d) + (if l[|l| - 1] == "" then [] else [(StrKey(l[|l| - 1]), d)])
  }

  /** The (key, dive) pairs one dive contributes: the valid keys it is binned under. */
  function DiveTags(b: Binner, dv: StatsDive, d: nat): (t: seq<(Key, nat)>)
    ensures forall i :: 0 <= i < |t| ==> Fits(b, t[i].0) && !IsInvalid(t[i].0) && t[i].1 == d
    ensures !IsStringBinner(b) ==> |t| <= 1
  {
    if IsStringBinner(b) then StringTags(ToStringList(b, dv), d)
    else if IsInvalid(ToBinValue(b, dv)) then []
    else [(ToBinValue(b, dv), d)]
  }

  /** Every (key, dive index) pair of a dive list, in dive order. */
  function Tagged(b: Binner, dives: seq<StatsDive>): (t: seq<(Key, nat)>)
    ensures forall i :: 0 <= i < |t| ==> Fits(b, t[i].0) && !IsInvalid(t[i].0) && t[i].1 < |dives|
    ensures !IsStringBinner(b) ==> |t| <= |dives|
  {
    if |dives| == 0 then []
    else Tagged(b, dives[..|dives| - 1]) + DiveTags(b, dives[|dives| - 1], |dives| - 1)
  }

  lemma TaggedSnoc(b: Binner, dives: seq<StatsDive>, n: nat)
    requires n < |dives|
    ensures Tagged(b, dives[..n + 1]) == Tagged(b, dives[..n]) + DiveTags(b, dives[n], n)
  {
    assert dives[..n + 1][..n] == dives[..n];
  }

  /** A dive of a simple binner adds its key to the tagging, unless the key is invalid. */
  lemma SimpleTagStep(b: Binner, dives: seq<StatsDive>, n: nat)
    requires !IsStringBinner(b) && n < |dives|
    ensures var v := ToBinValue(b, dives[n]);
      Tagged(b, dives[..n + 1]) == if IsInvalid(v) then Tagged(b, dives[..n]) else Tagged(b, dives[..n]) + [(v, n)]
  {
    TaggedSnoc(b, dives, n);
    if IsInvalid(ToBinValue(b, dives[n])) {
      assert Tagged(b, dives[..n]) + [] == Tagged(b, dives[..n]);
    }
  }

  /** The dives, in order, that carry key `k`. */
  function DivesFor(t: seq<(Key, nat)>, k: Key): seq<nat>
  {
    if |t| == 0 then []
    else DivesFor(t[..|t| - 1], k) + (if t[|t| - 1].0 == k then [t[|t| - 1].1] else [])
  }

  lemma DivesForSnoc(t: seq<(Key, nat)>, p: (Key, nat), k: Key)
    ensures DivesFor(t + [p], k) == DivesFor(t, k) + (if p.0 == k then [p.1] else [])
  {
    assert (t + [p])[..|t|] == t;
  }

  lemma {:induction false} DivesForNonEmpty(t: seq<(Key, nat)>, k: Key)
    ensures DivesFor(t, k) != [] <==> exists i :: 0 <= i < |t| && t[i].0 == k
  {
    if t != [] {
      var u := t[..|t| - 1];
      DivesForNonEmpty(u, k);
      if exists i :: 0 <= i < |u| && u[i].0 == k {
        var i :| 0 <= i < |u| && u[i].0 == k;
        assert t[i].0 == k;
      }
      if exists i :: 0 <= i < |t| && t[i].0 == k {
        var i :| 0 <= i < |t| && t[i].0 == k;
        if i < |u| {
          assert u[i].0 == k;
        }
      }
    }
  }

  /** The count vector of a tagging: ascending, one entry per key that occurs,
      holding the number of its occurrences, and counts adding up to the total. */
  ghost predicate CountsAre(v: seq<Pair<int>>, t: seq<(Key, nat)>)
  {
    && Ascending(v)
    && SumCounts(v) == |t|
    && forall k :: Lookup(v, k) == (if |DivesFor(t, k)| == 0 then None else Some(|DivesFor(t, k)|))
  }

  /** The dive-list vector of a tagging: ascending, one entry per key that occurs,
      holding its dives in input order. */
  ghost predicate DiveListsAre(v: seq<Pair<seq<nat>>>, t: seq<(Key, nat)>)
  {
    && Ascending(v)
    && forall k :: Lookup(v, k) == (if |DivesFor(t, k)| == 0 then None else Some(DivesFor(t, k)))
  }

  /** One `increment_count_bin` extends the tagging by one pair. */
  lemma CountStep(v0: seq<Pair<int>>, v1: seq<Pair<int>>, t: seq<(Key, nat)>, k0: Key, d: nat)
    requires CountsAre(v0, t)
    requires Ascending(v1) && SumCounts(v1) == SumCounts(v0) + 1
    requires Lookup(v1, k0) == Some(match Lookup(v0, k0) case None => 1 case Some(c) => c + 1)
    requires forall k :: k != k0 ==> Lookup(v1, k) == Lookup(v0, k)
    ensures CountsAre(v1, t + [(k0, d)])
  {
    forall k ensures Lookup(v1, k) == (if |DivesFor(t + [(k0, d)], k)| == 0 then None else Some(|DivesFor(t + [(k0, d)], k)|)) {
      DivesForSnoc(t, (k0, d), k);
    }
  }

  /** One `add_dive_to_value_bin` extends the tagging by one pair. */
  lemma DiveStep(v0: seq<Pair<seq<nat>>>, v1: seq<Pair<seq<nat>>>, t: seq<(Key, nat)>, k0: Key, d: nat)
    requires DiveListsAre(v0, t)
    requires Ascending(v1)
    requires Lookup(v1, k0) == Some(match Lookup(v0, k0) case None => [d] case Some(l) => l + [d])
    requires forall k :: k != k0 ==> Lookup(v1, k) == Lookup(v0, k)
    ensures DiveListsAre(v1, t + [(k0, d)])
  {
    forall k ensures Lookup(v1, k) == (if |DivesFor(t + [(k0, d)], k)| == 0 then None else Some(DivesFor(t + [(k0, d)], k))) {
      DivesForSnoc(t, (k0, d), k);
      if k == k0 {
        assert DivesFor(t + [(k0, d)], k) == DivesFor(t, k) + [d];
        if |DivesFor(t, k)| == 0 {
          assert DivesFor(t, k) + [d] == [d];
        }
      } else {
        assert DivesFor(t + [(k0, d)], k) == DivesFor(t, k);
      }
    }
  }

  /** `increment_count_bin` for the (key, dive) pair `(k, d)`. */
  method CountTag(bins: CountBins, k: Key, d: nat, ghost t: seq<(Key, nat)>)
    requires CountsAre(bins.entries, t)
    modifies bins
    ensures CountsAre(bins.entries, t + [(k, d)])
  {
    ghost var v0 := bins.entries;
    bins.IncrementCountBin(k);
    CountStep(v0, bins.entries, t, k, d);
  }

  /** `add_dive_to_value_bin` for the (key, dive) pair `(k, d)`. */
  method ListTag(bins: DiveBins, k: Key, d: nat, ghost t: seq<(Key, nat)>)
    requires DiveListsAre(bins.entries, t)
    modifies bins
    ensures DiveListsAre(bins.entries, t + [(k, d)])
  {
    ghost var v0 := bins.entries;
    bins.AddDiveToValueBin(k, d);
    DiveStep(v0, bins.entries, t, k, d);
  }

  /** The entries of a count vector are valid keys of the binner with positive counts. */
  lemma CountedEntries(b: Binner, v: seq<Pair<int>>, t: seq<(Key, nat)>)
    requires CountsAre(v, t)
    requires forall i :: 0 <= i < |t| ==> Fits(b, t[i].0) && !IsInvalid(t[i].0)
    ensures forall i :: 0 <= i < |v| ==> Fits(b, v[i].key) && !IsInvalid(v[i].key) && v[i].value >= 1
  {
    forall i | 0 <= i < |v| ensures Fits(b, v[i].key) && !IsInvalid(v[i].key) && v[i].value >= 1 {
      LookupFound(v, i);
      DivesForNonEmpty(t, v[i].key);
    }
  }

  /** The entries of a dive-list vector are valid keys of the binner with non-empty lists. */
  lemma ListedEntries(b: Binner, v: seq<Pair<seq<nat>>>, t: seq<(Key, nat)>)
    requires DiveListsAre(v, t)
    requires forall i :: 0 <= i < |t| ==> Fits(b, t[i].0) && !IsInvalid(t[i].0)
    ensures forall i :: 0 <= i < |v| ==> Fits(b, v[i].key) && !IsInvalid(v[i].key) && v[i].value != []
  {
    forall i | 0 <= i < |v| ensures Fits(b, v[i].key) && !IsInvalid(v[i].key) && v[i].value != [] {
      LookupFound(v, i);
      DivesForNonEmpty(t, v[i].key);
    }
  }

  // ------------------------------------------------------------------
  // Filling the gaps between bins

  lemma FullSlice<T>(s: seq<T>)
    ensures s[..|s|] == s
  {
  }

  lemma ConcatAssoc<T>(a: seq<T>, b: seq<T>, c: seq<T>)
    ensures (a + b) + c == a + (b + c)
  {
  }

  lemma SplitLast<T>(s: seq<T>)
    requires s != []
    ensures s[..|s| - 1] + [s[|s| - 1]] == s
  {
  }

  /** Empty bins for a list of keys. */
  function Empties<V>(ks: seq<Key>, zero: V): (r: seq<Pair<V>>)
    ensures |r| == |ks|
  {
    if |ks| == 0 then [] else Empties(ks[..|ks| - 1], zero) + [Pair(ks[|ks| - 1], zero)]
  }

  lemma {:induction false} EmptiesKeys<V>(ks: seq<Key>, zero: V)
    ensures forall i :: 0 <= i < |ks| ==> Empties(ks, zero)[i] == Pair(ks[i], zero)
  {
    if ks != [] {
      EmptiesKeys(ks[..|ks| - 1], zero);
    }
  }

  /** Each bin `pairs[i]` preceded by empty bins with the keys `gaps[i]`. */
  function Fill<V>(pairs: seq<Pair<V>>, gaps: seq<seq<Key>>, zero: V): (r: seq<Pair<V>>)
    requires |gaps| == |pairs|
    ensures |r| >= |pairs|
    ensures |pairs| > 0 ==> r[|r| - 1] == pairs[|pairs| - 1]
  {
    if |pairs| == 0 then []
    else
      var n := |pairs|;
      Fill(pairs[..n - 1], gaps[..n - 1], zero) + Empties(gaps[n - 1], zero) + [pairs[n - 1]]
  }

  lemma FillSnoc<V>(pairs: seq<Pair<V>>, gaps: seq<seq<Key>>, zero: V, i: nat)
    requires |gaps| == |pairs| && i < |pairs|
    ensures Fill(pairs[..i + 1], gaps[..i + 1], zero) == Fill(pairs[..i], gaps[..i], zero) + Empties(gaps[i], zero) + [pairs[i]]
  {
    assert pairs[..i + 1][..i] == pairs[..i];
    assert gaps[..i + 1][..i] == gaps[..i];
  }

  /** The keys `bins_between` supplies before each bin: none before the first. */
  function GapKeys<V>(b: Binner, pairs: seq<Pair<V>>): (g: seq<seq<Key>>)
    ensures |g| == |pairs|
  {
    seq(|pairs|, i requires 0 <= i < |pairs| => if i == 0 then [] else Between(b, pairs[i - 1].key, pairs[i].key))
  }

  /** The final loop of `bin_dives` and `count_dives` with `fill_empty`: after each
      bin except the first, the empty bins between its predecessor and itself. */
  function WithGaps<V>(b: Binner, pairs: seq<Pair<V>>, zero: V): seq<Pair<V>>
  {
    Fill(pairs, GapKeys(b, pairs), zero)
  }

  /** The bins whose value is not the empty value. */
  function Strip<V(==)>(s: seq<Pair<V>>, zero: V): seq<Pair<V>>
  {
    if |s| == 0 then []
    else Strip(s[..|s| - 1], zero) + (if s[|s| - 1].value == zero then [] else [s[|s| - 1]])
  }

  lemma {:induction false} StripConcat<V>(a: seq<Pair<V>>, c: seq<Pair<V>>, zero: V)
    ensures Strip(a + c, zero) == Strip(a, zero) + Strip(c, zero)
  {
    if c != [] {
      var c' := c[..|c| - 1];
      var x := c[|c| - 1];
      StripConcat(a, c', zero);
      assert (a + c)[..|a + c| - 1] == a + c';
      assert (a + c)[|a + c| - 1] == x;
      assert Strip(a + c, zero) == Strip(a + c', zero) + (if x.value == zero then [] else [x]);
      assert Strip(c, zero) == Strip(c', zero) + (if x.value == zero then [] else [x]);
    } else {
      assert a + c == a;
    }
  }

  lemma {:induction false} StripKeepsNonEmpty<V>(s: seq<Pair<V>>, zero: V)
    requires forall i :: 0 <= i < |s| ==> s[i].value != zero
    ensures Strip(s, zero) == s
  {
    if s != [] {
      StripKeepsNonEmpty(s[..|s| - 1], zero);
      SplitLast(s);
    }
  }

  lemma {:induction false} StripEmpties<V>(ks: seq<Key>, zero: V)
    ensures Strip(Empties(ks, zero), zero) == []
  {
    if ks != [] {
      var ks' := ks[..|ks| - 1];
      StripEmpties(ks', zero);
      assert Empties(ks, zero)[..|ks| - 1] == Empties(ks', zero);
    }
  }

  lemma StripGapThenBin<V>(a: seq<Pair<V>>, ks: seq<Key>, x: Pair<V>, zero: V)
    requires x.value != zero
    ensures Strip(a + Empties(ks, zero) + [x], zero) == Strip(a, zero) + [x]
  {
    var e := Empties(ks, zero);
    StripConcat(a + e, [x], zero);
    StripConcat(a, e, zero);
    StripEmpties(ks, zero);
    assert [x][..0] == [];
  }

  lemma {:induction false} StripFill<V>(pairs: seq<Pair<V>>, gaps: seq<seq<Key>>, zero: V)
    requires |gaps| == |pairs|
    requires forall i :: 0 <= i < |pairs| ==> pairs[i].value != zero
    ensures Strip(Fill(pairs, gaps, zero), zero) == pairs
  {
    var n := |pairs|;
    if n > 0 {
      StripFill(pairs[..n - 1], gaps[..n - 1], zero);
      StripGapThenBin(Fill(pairs[..n - 1], gaps[..n - 1], zero), gaps[n - 1], pairs[n - 1], zero);
      SplitLast(pairs);
    }
  }

  /** Removing the empty bins from the filled vector gives back the bins that were filled. */
  lemma StripWithGaps<V>(b: Binner, pairs: seq<Pair<V>>, zero: V)
    requires forall i :: 0 <= i < |pairs| ==> pairs[i].value != zero
    ensures Strip(WithGaps(b, pairs, zero), zero) == pairs
  {
    StripFill(pairs, GapKeys(b, pairs), zero);
  }

  lemma {:induction false} FillNoGaps<V>(pairs: seq<Pair<V>>, gaps: seq<seq<Key>>, zero: V)
    requires |gaps| == |pairs|
    requires forall i :: 0 <= i < |gaps| ==> |gaps[i]| == 0
    ensures Fill(pairs, gaps, zero) == pairs
  {
    var n := |pairs|;
    if n > 0 {
      FillNoGaps(pairs[..n - 1], gaps[..n - 1], zero);
      assert Empties(gaps[n - 1], zero) == [];
      SplitLast(pairs);
    }
  }

  /** A discrete binner has no bins in between, so filling changes nothing. */
  lemma WithGapsDiscrete<V>(b: Binner, pairs: seq<Pair<V>>, zero: V)
    requires !IsContinuous(b)
    ensures WithGaps(b, pairs, zero) == pairs
  {
    FillNoGaps(pairs, GapKeys(b, pairs), zero);
  }

  /** Two ascending vectors, the first ending below the start of the second, join into one. */
  lemma AscendingConcat<V>(a: seq<Pair<V>>, c: seq<Pair<V>>)
    requires Ascending(a) && Ascending(c)
    requires a != [] && c != [] ==> KeyLess(a[|a| - 1].key, c[0].key)
    ensures Ascending(a + c)
  {
    var w := a + c;
    forall i, j | 0 <= i < j < |w| ensures KeyLess(w[i].key, w[j].key) {
      if i < |a| && j >= |a| {
        var l := a[|a| - 1].key;
        var f := c[0].key;
        var kj := c[j - |a|].key;
        if j - |a| > 0 {
          assert KeyLess(f, kj);
          KeyLessTransitive(l, f, kj);
        }
        if i < |a| - 1 {
          assert KeyLess(a[i].key, l);
          KeyLessTransitive(a[i].key, l, kj);
        }
      }
    }
  }

  /** The keys in front of each bin ascend and lie strictly between it and its predecessor. */
  ghost predicate GapsBetween<V>(pairs: seq<Pair<V>>, gaps: seq<seq<Key>>)
    requires |gaps| == |pairs|
  {
    && (|gaps| > 0 ==> |gaps[0]| == 0)
    && (forall i, j :: 0 < i < |pairs| && 0 <= j < |gaps[i]| ==>
          KeyLess(pairs[i - 1].key, gaps[i][j]) && KeyLess(gaps[i][j], pairs[i].key))
    && (forall i, j, j' :: 0 <= i < |gaps| && 0 <= j < j' < |gaps[i]| ==> KeyLess(gaps[i][j], gaps[i][j']))
  }

  lemma {:induction false} FillAscending<V>(pairs: seq<Pair<V>>, gaps: seq<seq<Key>>, zero: V)
    requires |gaps| == |pairs|
    requires Ascending(pairs) && GapsBetween(pairs, gaps)
    ensures Ascending(Fill(pairs, gaps, zero))
  {
    var n := |pairs|;
    if n > 0 {
      var init := pairs[..n - 1];
      var x := pairs[n - 1];
      var ks := gaps[n - 1];
      assert GapsBetween(init, gaps[..n - 1]);
      FillAscending(init, gaps[..n - 1], zero);
      var f := Fill(init, gaps[..n - 1], zero);
      var e := Empties(ks, zero);
      EmptiesKeys(ks, zero);
      assert Ascending(e);
      if n > 1 {
        assert f[|f| - 1].key == pairs[n - 2].key;
        if ks != [] {
          assert KeyLess(f[|f| - 1].key, e[0].key);
        }
      }
      AscendingConcat(f, e);
      if ks != [] {
        assert (f + e)[|f + e| - 1].key == ks[|ks| - 1];
      } else if n > 1 {
        assert (f + e)[|f + e| - 1].key == pairs[n - 2].key;
      }
      AscendingConcat(f + e, [x]);
    }
  }

  /** Whatever the binner, `bins_between` stays strictly between its two bounds. */
  lemma BetweenBounded(b: Binner, k1: Key, k2: Key)
    ensures forall j :: 0 <= j < |Between(b, k1, k2)| ==> KeyLess(k1, Between(b, k1, k2)[j]) && KeyLess(Between(b, k1, k2)[j], k2)
  {
    if IsContinuous(b) && Fits(b, k1) && Fits(b, k2) {
      BetweenIsSuccessorChain(b, k1, k2);
    }
  }

  /** The keys `bins_between` supplies lie between the neighbouring bins, ascending. */
  lemma GapKeysBetween<V>(b: Binner, pairs: seq<Pair<V>>)
    ensures GapsBetween(pairs, GapKeys(b, pairs))
  {
    var g := GapKeys(b, pairs);
    forall i, j | 0 < i < |pairs| && 0 <= j < |g[i]|
      ensures KeyLess(pairs[i - 1].key, g[i][j]) && KeyLess(g[i][j], pairs[i].key)
    {
      BetweenKeyBounded(b, pairs[i - 1].key, pairs[i].key, g[i], j);
    }
    forall i, j, j' | 0 <= i < |g| && 0 <= j < j' < |g[i]| ensures KeyLess(g[i][j], g[i][j']) {
      if i > 0 {
        BetweenKeysAscending(b, pairs[i - 1].key, pairs[i].key, g[i], j, j');
      }
    }
  }

  lemma BetweenKeyBounded(b: Binner, k1: Key, k2: Key, gap: seq<Key>, j: nat)
    requires gap == Between(b, k1, k2) && j < |gap|
    ensures KeyLess(k1, gap[j]) && KeyLess(gap[j], k2)
  {
    BetweenBounded(b, k1, k2);
  }

  lemma BetweenKeysAscending(b: Binner, k1: Key, k2: Key, gap: seq<Key>, j: nat, j': nat)
    requires gap == Between(b, k1, k2) && j < j' < |gap|
    ensures KeyLess(gap[j], gap[j'])
  {
    BetweenAscending(b, k1, k2);
  }

  /** Filling keeps the vector ascending. */
  lemma WithGapsAscending<V>(b: Binner, pairs: seq<Pair<V>>, zero: V)
    requires Ascending(pairs)
    ensures Ascending(WithGaps(b, pairs, zero))
  {
    GapKeysBetween(b, pairs);
    FillAscending(pairs, GapKeys(b, pairs), zero);
  }

  /** The inner loop of the fill: one empty bin per key between two filled ones. */
  method AppendEmptyBins<V>(res: seq<Pair<V>>, gap: seq<Key>, zero: V) returns (r: seq<Pair<V>>)
    ensures r == res + Empties(gap, zero)
  {
    r := res;
    for j := 0 to |gap|
      invariant |r| == |res| + j
      invariant r[..|res|] == res
      invariant forall m :: 0 <= m < j ==> r[|res| + m] == Pair(gap[m], zero)
    {
      r := r + [Pair(gap[j], zero)];
    }
    EmptiesKeys(gap, zero);
  }

  /** One turn of the fill loop: the empty bins in front of `pairs[i]`, then the bin. */
  method FillStep<V>(b: Binner, pairs: seq<Pair<V>>, zero: V, i: nat, res: seq<Pair<V>>) returns (r: seq<Pair<V>>)
    requires i < |pairs|
    requires forall j :: 0 <= j < |pairs| ==> Fits(b, pairs[j].key)
    requires res == Fill(pairs[..i], GapKeys(b, pairs)[..i], zero)
    ensures r == Fill(pairs[..i + 1], GapKeys(b, pairs)[..i + 1], zero)
  {
    ghost var gaps := GapKeys(b, pairs);
    FillSnoc(pairs, gaps, zero, i);
    r := res;
    if |r| > 0 {
      assert i > 0 && r[|r| - 1] == pairs[..i][i - 1];
      var gap := BinsBetween(b, r[|r| - 1].key, pairs[i].key);
      assert gap == gaps[i];
      r := AppendEmptyBins(r, gap, zero);
    } else {
      assert i == 0 && Empties(gaps[i], zero) == [];
      assert r + Empties(gaps[i], zero) == r;
    }
    r := r + [pairs[i]];
  }

  /** The final loop of the simple binners' `bin_dives` and `count_dives`. */
  method FillGaps<V>(b: Binner, pairs: seq<Pair<V>>, zero: V, fillEmpty: bool) returns (res: seq<Pair<V>>)
    requires forall i :: 0 <= i < |pairs| ==> Fits(b, pairs[i].key)
    ensures res == if fillEmpty then WithGaps(b, pairs, zero) else pairs
  {
    ghost var gaps := GapKeys(b, pairs);
    res := [];
    for i := 0 to |pairs|
      invariant fillEmpty ==> res == Fill(pairs[..i], gaps[..i], zero)
      invariant !fillEmpty ==> res == pairs[..i]
    {
      if fillEmpty {
        res := FillStep(b, pairs, zero, i, res);
      } else {
        assert pairs[..i + 1] == pairs[..i] + [pairs[i]];
        res := res + [pairs[i]];
      }
    }
    FullSlice(pairs);
    FullSlice(gaps);
  }

  /** What the fill loop leaves: still ascending, and its non-empty bins are the input. */
  lemma FillingFacts<V>(b: Binner, v: seq<Pair<V>>, zero: V, fillEmpty: bool, res: seq<Pair<V>>)
    requires Ascending(v)
    requires forall i :: 0 <= i < |v| ==> v[i].value != zero
    requires res == if fillEmpty then WithGaps(b, v, zero) else v
    ensures Ascending(res) && Strip(res, zero) == v
  {
    if fillEmpty {
      StripWithGaps(b, v, zero);
      WithGapsAscending(b, v, zero);
    } else {
      StripKeepsNonEmpty(v, zero);
    }
  }

  // ------------------------------------------------------------------
  // count_dives and bin_dives

  /** The first loop of `SimpleBinner::count_dives`: the value bins of the valid keys. */
  method CollectCounts(b: Binner, dives: seq<StatsDive>) returns (entries: seq<Pair<int>>)
    requires !IsStringBinner(b)
    ensures CountsAre(entries, Tagged(b, dives))
  {
    var bins := new CountBins();
    for n := 0 to |dives|
      invariant CountsAre(bins.entries, Tagged(b, dives[..n]))
    {
      SimpleTagStep(b, dives, n);
      var value := ToBinValue(b, dives[n]);
      if IsInvalid(value) {
        continue;
      }
      CountTag(bins, value, n, Tagged(b, dives[..n]));
    }
    assert dives[..|dives|] == dives;
    entries := bins.entries;
  }

  /** `SimpleBinner::count_dives`: the non-empty bins count exactly the dives with
      each valid key, in ascending key order; with `fillEmpty` the bins in between
      are present with count 0, otherwise no bin is empty. */
  method SimpleCountDives(b: Binner, dives: seq<StatsDive>, fillEmpty: bool) returns (res: seq<Pair<int>>)
    requires !IsStringBinner(b)
    ensures Ascending(res)
    ensures CountsAre(Strip(res, 0), Tagged(b, dives))
    ensures fillEmpty ==> res == WithGaps(b, Strip(res, 0), 0)
    ensures !fillEmpty ==> res == Strip(res, 0)
  {
    var valueBins := CollectCounts(b, dives);
    CountedEntries(b, valueBins, Tagged(b, dives));
    res := FillGaps(b, valueBins, 0, fillEmpty);
    FillingFacts(b, valueBins, 0, fillEmpty, res);
  }


  /** The first loop of `SimpleBinner::bin_dives`: the value bins of the valid keys. */
  method CollectDiveLists(b: Binner, dives: seq<StatsDive>) returns (entries: seq<Pair<seq<nat>>>)
    requires !IsStringBinner(b)
    ensures DiveListsAre(entries, Tagged(b, dives))
  {
    var bins := new DiveBins();
    for n := 0 to |dives|
      invariant DiveListsAre(bins.entries, Tagged(b, dives[..n]))
    {
      SimpleTagStep(b, dives, n);
      var value := ToBinValue(b, dives[n]);
      if IsInvalid(value) {
        continue;
      }
      ListTag(bins, value, n, Tagged(b, dives[..n]));
    }
    assert dives[..|dives|] == dives;
    entries := bins.entries;
  }

  /** `SimpleBinner::bin_dives`: the non-empty bins hold exactly the dives with each
      valid key, in input order, in ascending key order; with `fillEmpty` the bins in
      between are present and empty, otherwise no bin is empty. */
  method SimpleBinDives(b: Binner, dives: seq<StatsDive>, fillEmpty: bool) returns (res: seq<Pair<seq<nat>>>)
    requires !IsStringBinner(b)
    ensures Ascending(res)
    ensures DiveListsAre(Strip(res, []), Tagged(b, dives))
    ensures fillEmpty ==> res == WithGaps(b, Strip(res, []), [])
    ensures !fillEmpty ==> res == Strip(res, [])
  {
    var valueBins := CollectDiveLists(b, dives);
    ListedEntries(b, valueBins, Tagged(b, dives));
    res := FillGaps(b, valueBins, [], fillEmpty);
    FillingFacts(b, valueBins, [], fillEmpty, res);
  }


  /** The inner loop of the string binners' `count_dives`: the non-empty strings of one dive. */
  method CountStrings(bins: CountBins, strs: seq<string>, n: nat, ghost t: seq<(Key, nat)>)
    requires CountsAre(bins.entries, t)
    modifies bins
    ensures CountsAre(bins.entries, t + StringTags(strs, n))
  {
    assert t + StringTags(strs[..0], n) == t by {
      assert strs[..0] == [];
    }
    for m := 0 to |strs|
      invariant CountsAre(bins.entries, t + StringTags(strs[..m], n))
    {
      assert strs[..m + 1][..m] == strs[..m];
      if strs[m] == "" {
        assert StringTags(strs[..m + 1], n) == StringTags(strs[..m], n) + [];
        assert StringTags(strs[..m], n) + [] == StringTags(strs[..m], n);
        continue;
      }
      ghost var v0 := bins.entries;
      bins.IncrementCountBin(StrKey(strs[m]));
      CountStep(v0, bins.entries, t + StringTags(strs[..m], n), StrKey(strs[m]), n);
      assert t + StringTags(strs[..m], n) + [(StrKey(strs[m]), n)] == t + StringTags(strs[..m + 1], n);
    }
    assert strs[..|strs|] == strs;
  }

  /** The inner loop of the string binners' `bin_dives`: the non-empty strings of one dive. */
  method AddStrings(bins: DiveBins, strs: seq<string>, n: nat, ghost t: seq<(Key, nat)>)
    requires DiveListsAre(bins.entries, t)
    modifies bins
    ensures DiveListsAre(bins.entries, t + StringTags(strs, n))
  {
    assert t + StringTags(strs[..0], n) == t by {
      assert strs[..0] == [];
    }
    for m := 0 to |strs|
      invariant DiveListsAre(bins.entries, t + StringTags(strs[..m], n))
    {
      assert strs[..m + 1][..m] == strs[..m];
      if strs[m] == "" {
        assert StringTags(strs[..m + 1], n) == StringTags(strs[..m], n) + [];
        assert StringTags(strs[..m], n) + [] == StringTags(strs[..m], n);
        continue;
      }
      ghost var v0 := bins.entries;
      bins.AddDiveToValueBin(StrKey(strs[m]), n);
      DiveStep(v0, bins.entries, t + StringTags(strs[..m], n), StrKey(strs[m]), n);
      assert t + StringTags(strs[..m], n) + [(StrKey(strs[m]), n)] == t + StringTags(strs[..m + 1], n);
    }
    assert strs[..|strs|] == strs;
  }

  /** `StringBinner::count_dives`: one bin per non-empty string, counting its
      occurrences over all dives; `fill_empty` is ignored. */
  method StringCountDives(b: Binner, dives: seq<StatsDive>) returns (res: seq<Pair<int>>)
    requires IsStringBinner(b)
    ensures CountsAre(res, Tagged(b, dives))
    ensures forall i :: 0 <= i < |res| ==> !IsInvalid(res[i].key) && res[i].value >= 1
  {
    var bins := new CountBins();
    for n := 0 to |dives|
      invariant CountsAre(bins.entries, Tagged(b, dives[..n]))
    {
      CountStrings(bins, ToStringList(b, dives[n]), n, Tagged(b, dives[..n]));
      TaggedSnoc(b, dives, n);
    }
    assert dives[..|dives|] == dives;
    res := bins.entries;
    CountedEntries(b, res, Tagged(b, dives));
  }

  /** `StringBinner::bin_dives`: one bin per non-empty string, holding the dives
      that carry it in input order; `fill_empty` is ignored. */
  method StringBinDives(b: Binner, dives: seq<StatsDive>) returns (res: seq<Pair<seq<nat>>>)
    requires IsStringBinner(b)
    ensures DiveListsAre(res, Tagged(b, dives))
    ensures forall i :: 0 <= i < |res| ==> !IsInvalid(res[i].key) && res[i].value != []
  {
    var bins := new DiveBins();
    for n := 0 to |dives|
      invariant DiveListsAre(bins.entries, Tagged(b, dives[..n]))
    {
      AddStrings(bins, ToStringList(b, dives[n]), n, Tagged(b, dives[..n]));
      TaggedSnoc(b, dives, n);
    }
    assert dives[..|dives|] == dives;
    res := bins.entries;
    ListedEntries(b, res, Tagged(b, dives));
  }

  /** A dive with a valid key is counted in the bin of that key, for the simple binners. */
  lemma DiveIsInItsBin(b: Binner, dives: seq<StatsDive>, n: nat)
    requires !IsStringBinner(b) && n < |dives|
    requires !IsInvalid(ToBinValue(b, dives[n]))
    ensures n in DivesFor(Tagged(b, dives), ToBinValue(b, dives[n]))
  {
    var k := ToBinValue(b, dives[n]);
    var t := Tagged(b, dives[..n]);
    TaggedSnoc(b, dives, n);
    assert Tagged(b, dives[..n + 1]) == t + [(k, n)];
    DivesForSnoc(t, (k, n), k);
    assert n in multiset(DivesFor(Tagged(b, dives[..n + 1]), k));
    DivesForPrefix(b, dives, n + 1);
    assert multiset(DivesFor(Tagged(b, dives[..n + 1]), k)) <= multiset(DivesFor(Tagged(b, dives), k));
  }

  lemma {:induction false} DivesForPrefix(b: Binner, dives: seq<StatsDive>, n: nat)
    requires n <= |dives|
    ensures forall k :: multiset(DivesFor(Tagged(b, dives[..n]), k)) <= multiset(DivesFor(Tagged(b, dives), k))
    decreases |dives| - n
  {
    if n < |dives| {
      DivesForPrefix(b, dives, n + 1);
      TaggedSnoc(b, dives, n);
      forall k ensures multiset(DivesFor(Tagged(b, dives[..n]), k)) <= multiset(DivesFor(Tagged(b, dives[..n + 1]), k)) {
        DivesForAppend(Tagged(b, dives[..n]), DiveTags(b, dives[n], n), k);
      }
    } else {
      FullSlice(dives);
    }
  }

  lemma {:induction false} DivesForAppend(t: seq<(Key, nat)>, u: seq<(Key, nat)>, k: Key)
    ensures DivesFor(t + u, k) == DivesFor(t, k) + DivesFor(u, k)
  {
    if u == [] {
      assert t + u == t;
    } else {
      var u' := u[..|u| - 1];
      DivesForAppend(t, u', k);
      assert (t + u)[..|t + u| - 1] == t + u';
      assert (t + u)[|t + u| - 1] == u[|u| - 1];
    }
  }
}
