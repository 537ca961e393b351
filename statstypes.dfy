/** The per-type helpers of the statistics module: picking a binner or an operation
    by combo-box index, the operation names, the sorted value list of a set of dives
    and its quartiles. */
module StatsTypes {
  import opened Base
  import opened Sorting

  /** `StatsType::getBinner`: no binner when the type has none, otherwise the binner at
      `idx`, falling back to the first one when `idx` is out of range. */
  function GetBinner<B>(binners: seq<B>, idx: int): (r: Option<B>)
    ensures r.None? <==> |binners| == 0
    ensures r.Some? ==> r.value in binners
    ensures 0 <= idx < |binners| ==> r == Some(binners[idx])
    ensures |binners| > 0 && !(0 <= idx < |binners|) ==> r == Some(binners[0])
  {
    if |binners| == 0 then None
    else if 0 <= idx < |binners| then Some(binners[idx])
    else Some(binners[0])
  }

  /** `StatsOperation`, in the order of the name table. */
  datatype Operation = Median | Average | TimeWeightedAverage | Sum

  /** The enum's integer value. */
  function OperationIndex(op: Operation): (i: int)
    ensures 0 <= i < 4
  {
    match op
    case Median => 0
    case Average => 1
    case TimeWeightedAverage => 2
    case Sum => 3
  }

  /** `StatsType::idxToOperation`: the supported operation at `idx`, the first one when
      `idx` is out of range, and `Median` when the type supports none. */
  function IdxToOperation(ops: seq<Operation>, idx: int): (r: Operation)
    ensures |ops| == 0 ==> r == Median
    ensures |ops| > 0 ==> r in ops
    ensures 0 <= idx < |ops| ==> r == ops[idx]
    ensures |ops| > 0 && !(0 <= idx < |ops|) ==> r == ops[0]
  {
    if |ops| == 0 then Median
    else if idx < 0 || idx >= |ops| then ops[0]
    else ops[idx]
  }

  const OperationNames: seq<string> := ["Median", "Average", "Time-weighted Avg.", "Sum"]

  /** `StatsType::operationName` on the integer value of an operation: the entry of the
      name table, or the empty string for a value outside it. */
  function OperationName(idx: int): (r: string)
    ensures r == "" <==> !(0 <= idx < |OperationNames|)
    ensures 0 <= idx < |OperationNames| ==> r == OperationNames[idx]
  {
    if idx < 0 || idx >= |OperationNames| then "" else OperationNames[idx]
  }

  /** Every operation has a name, and no two operations share one. */
  lemma OperationNamesDistinct(a: Operation, b: Operation)
    ensures OperationName(OperationIndex(a)) != ""
    ensures OperationName(OperationIndex(a)) == OperationName(OperationIndex(b)) <==> a == b
  {
    if a != b {
      assert OperationIndex(a) != OperationIndex(b);
      assert OperationNames[0] != OperationNames[1] && OperationNames[0] != OperationNames[2];
      assert OperationNames[0] != OperationNames[3] && OperationNames[1] != OperationNames[2];
      assert OperationNames[1] != OperationNames[3] && OperationNames[2] != OperationNames[3];
    }
  }

  /** `StatsType::supportedOperationNames`: the name of each supported operation, in order. */
  method SupportedOperationNames(ops: seq<Operation>) returns (res: seq<string>)
    ensures |res| == |ops|
    ensures forall i :: 0 <= i < |ops| ==> res[i] == OperationName(OperationIndex(ops[i]))
    ensures forall i :: 0 <= i < |ops| ==> res[i] != ""
  {
    res := [];
    for i := 0 to |ops|
      invariant |res| == i
      invariant forall j :: 0 <= j < i ==> res[j] == OperationName(OperationIndex(ops[j]))
    {
      res := res + [OperationName(OperationIndex(ops[i]))];
    }
  }

  // ------------------------------------------------------------------
  // Values and quartiles

  /** The valid values of a dive list, in dive order; `toFloat` gives `None` where the
      type has no value for a dive. */
  function ValidValues<D>(dives: seq<D>, toFloat: D -> Option<real>): (vs: seq<real>)
    ensures |vs| <= |dives|
  {
    if |dives| == 0 then []
    else
      var last := toFloat(dives[|dives| - 1]);
      ValidValues(dives[..|dives| - 1], toFloat) + (if last.Some? then [last.value] else [])
  }

  /** A value is in the list exactly when some dive has it. */
  lemma {:induction false} ValidValuesMembers<D>(dives: seq<D>, toFloat: D -> Option<real>, x: real)
    ensures x in ValidValues(dives, toFloat) <==> exists i :: 0 <= i < |dives| && toFloat(dives[i]) == Some(x)
  {
    if |dives| > 0 {
      var n := |dives|;
      var init := dives[..n - 1];
      ValidValuesMembers(init, toFloat, x);
      if exists i :: 0 <= i < n - 1 && toFloat(init[i]) == Some(x) {
        var i :| 0 <= i < n - 1 && toFloat(init[i]) == Some(x);
        assert toFloat(dives[i]) == Some(x);
      }
      if exists i :: 0 <= i < n && toFloat(dives[i]) == Some(x) {
        var i :| 0 <= i < n && toFloat(dives[i]) == Some(x);
        if i < n - 1 {
          assert toFloat(init[i]) == Some(x);
        }
      }
    }
  }

  /** `StatsType::values`: the valid values of the dives, sorted. */
  method Values<D>(dives: seq<D>, toFloat: D -> Option<real>) returns (res: seq<real>)
    ensures res == Sort(ValidValues(dives, toFloat), RealLe)
    ensures SortedBy(res, RealLe)
    ensures multiset(res) == multiset(ValidValues(dives, toFloat))
  {
    var vec := [];
    for i := 0 to |dives|
      invariant vec == ValidValues(dives[..i], toFloat)
    {
      assert dives[..i + 1][..i] == dives[..i];
      var v := toFloat(dives[i]);
      if v.None? {
        assert vec + [] == vec;
        continue;
      }
      vec := vec + [v.value];
    }
    assert dives[..|dives|] == dives;
    res := Sort(vec, RealLe);
    RealLeIsTotalPreorder();
    SortSorted(vec, RealLe);
  }

  datatype Quartiles = Quartiles(min: real, q1: real, q2: real, q3: real, max: real)

  function Q1(a: real, b: real): real { (3.0 * a + b) / 4.0 }
  function Q2(a: real, b: real): real { (a + b) / 2.0 }
  function Q3(a: real, b: real): real { (a + 3.0 * b) / 4.0 }

  /** `StatsType::quartiles` on a value vector. Every index it reads is in range for
      every length, which this function's lack of a precondition records. */
  function QuartilesOf(vec: seq<real>): (q: Quartiles)
    ensures |vec| == 0 ==> q == Quartiles(0.0, 0.0, 0.0, 0.0, 0.0)
    ensures |vec| > 0 ==> q.min == vec[0] && q.max == vec[|vec| - 1]
  {
    var s := |vec|;
    if s == 0 then Quartiles(0.0, 0.0, 0.0, 0.0, 0.0)
    else if s % 4 == 0 then
      Quartiles(vec[0], Q3(vec[s / 4 - 1], vec[s / 4]), Q2(vec[s / 2 - 1], vec[s / 2]),
                Q1(vec[s - s / 4 - 1], vec[s - s / 4]), vec[s - 1])
    else if s % 4 == 1 then
      Quartiles(vec[0], vec[s / 4], vec[s / 2], vec[s - s / 4 - 1], vec[s - 1])
    else if s % 4 == 2 then
      Quartiles(vec[0], Q1(vec[s / 4], vec[s / 4 + 1]), Q2(vec[s / 2 - 1], vec[s / 2]),
                Q3(vec[s - s / 4 - 2], vec[s - s / 4 - 1]), vec[s - 1])
    else
      Quartiles(vec[0], Q2(vec[s / 4], vec[s / 4 + 1]), vec[s / 2],
                Q2(vec[s - s / 4 - 2], vec[s - s / 4 - 1]), vec[s - 1])
  }

  /** The reference definition: the value at position `p4 / 4` of the vector (counted in
      quarter steps), interpolated linearly between two neighbouring elements. */
  function Interpolate(vec: seq<real>, p4: nat): real
    requires |vec| > 0 && p4 <= 4 * (|vec| - 1)
  {
    var i := p4 / 4;
    var f := p4 % 4;
    if f == 0 then vec[i]
    else if f == 1 then Q1(vec[i], vec[i + 1])
    else if f == 2 then Q2(vec[i], vec[i + 1])
    else Q3(vec[i], vec[i + 1])
  }

  lemma DivMod4(x: nat, q: nat, r: nat)
    requires x == 4 * q + r && r < 4
    ensures x / 4 == q && x % 4 == r
  {
  }

  lemma DivMod2(x: nat, q: nat, r: nat)
    requires x == 2 * q + r && r < 2
    ensures x / 2 == q && x % 2 == r
  {
  }

  /** The quartiles are the interpolated values at the positions 0, (s-1)/4, (s-1)/2,
      3(s-1)/4 and s-1 of a vector of length s. */
  lemma QuartilesInterpolate(vec: seq<real>)
    requires |vec| > 0
    ensures var q := QuartilesOf(vec); var m := |vec| - 1;
      && q.min == Interpolate(vec, 0)
      && q.q1 == Interpolate(vec, m)
      && q.q2 == Interpolate(vec, 2 * m)
      && q.q3 == Interpolate(vec, 3 * m)
      && q.max == Interpolate(vec, 4 * m)
  {
    var s := |vec|;
    var k := s / 4;
    var m := s - 1;
    DivMod4(s, k, s % 4);
    if s % 4 == 0 {
      DivMod2(s, 2 * k, 0);
      DivMod4(m, k - 1, 3);
      DivMod4(2 * m, 2 * k - 1, 2);
      DivMod4(3 * m, 3 * k - 1, 1);
    } else if s % 4 == 1 {
      DivMod2(s, 2 * k, 1);
      DivMod4(m, k, 0);
      DivMod4(2 * m, 2 * k, 0);
      DivMod4(3 * m, 3 * k, 0);
    } else if s % 4 == 2 {
      DivMod2(s, 2 * k + 1, 0);
      DivMod4(m, k, 1);
      DivMod4(2 * m, 2 * k, 2);
      DivMod4(3 * m, 3 * k, 3);
    } else {
      DivMod2(s, 2 * k + 1, 1);
      DivMod4(m, k, 2);
      DivMod4(2 * m, 2 * k + 1, 0);
      DivMod4(3 * m, 3 * k + 1, 2);
    }
    DivMod4(4 * m, m, 0);
  }

  /** The interpolated value lies between its two neighbouring elements. */
  lemma InterpolateBetween(vec: seq<real>, p4: nat)
    requires |vec| > 0 && p4 <= 4 * (|vec| - 1)
    requires SortedBy(vec, RealLe)
    ensures vec[p4 / 4] <= Interpolate(vec, p4)
    ensures p4 % 4 != 0 ==> Interpolate(vec, p4) <= vec[p4 / 4 + 1]
    ensures p4 % 4 == 0 ==> Interpolate(vec, p4) == vec[p4 / 4]
  {
    if p4 % 4 != 0 {
      assert RealLe(vec[p4 / 4], vec[p4 / 4 + 1]);
    }
  }

  /** On a sorted vector, interpolation is monotone in the position. */
  lemma InterpolateMonotone(vec: seq<real>, p: nat, p': nat)
    requires |vec| > 0 && p <= p' <= 4 * (|vec| - 1)
    requires SortedBy(vec, RealLe)
    ensures Interpolate(vec, p) <= Interpolate(vec, p')
  {
    var i, i' := p / 4, p' / 4;
    InterpolateBetween(vec, p);
    InterpolateBetween(vec, p');
    if i == i' {
      assert p % 4 <= p' % 4;
      if p % 4 != 0 {
        assert RealLe(vec[i], vec[i + 1]);
      }
    } else {
      assert i < i';
      if p % 4 != 0 {
        if i + 1 < i' {
          assert RealLe(vec[i + 1], vec[i']);
        }
      } else {
        assert RealLe(vec[i], vec[i']);
      }
    }
  }

  /** On a sorted vector the five values are ordered. */
  lemma QuartilesOrdered(vec: seq<real>)
    requires SortedBy(vec, RealLe)
    ensures var q := QuartilesOf(vec); q.min <= q.q1 <= q.q2 <= q.q3 <= q.max
  {
    if |vec| > 0 {
      var m := |vec| - 1;
      QuartilesInterpolate(vec);
      InterpolateMonotone(vec, 0, m);
      InterpolateMonotone(vec, m, 2 * m);
      InterpolateMonotone(vec, 2 * m, 3 * m);
      InterpolateMonotone(vec, 3 * m, 4 * m);
    }
  }

  /** The middle value: the middle element, or the mean of the two middle elements. */
  function MedianOf(vec: seq<real>): real
    requires |vec| > 0
  {
    var s := |vec|;
    if s % 2 == 1 then vec[s / 2] else (vec[s / 2 - 1] + vec[s / 2]) / 2.0
  }

  /** The second quartile is the median. */
  lemma QuartilesMedian(vec: seq<real>)
    requires |vec| > 0
    ensures QuartilesOf(vec).q2 == MedianOf(vec)
  {
    var s := |vec|;
    assert s == 4 * (s / 4) + s % 4;
    assert s % 2 == (s % 4) % 2;
  }

  /** `StatsType::quartiles` on a dive list: the quartiles of its sorted valid values, so
      they are ordered, and the minimum and maximum are the least and greatest value. */
  method DiveQuartiles<D>(dives: seq<D>, toFloat: D -> Option<real>) returns (q: Quartiles)
    ensures q == QuartilesOf(Sort(ValidValues(dives, toFloat), RealLe))
    ensures var vs := ValidValues(dives, toFloat);
      && (|vs| == 0 ==> q == Quartiles(0.0, 0.0, 0.0, 0.0, 0.0))
      && (|vs| > 0 ==> q.min in vs && q.max in vs)
      && (forall v :: v in vs ==> q.min <= v <= q.max)
    ensures q.min <= q.q1 <= q.q2 <= q.q3 <= q.max
  {
    var vec := Values(dives, toFloat);
    q := QuartilesOf(vec);
    QuartilesOrdered(vec);
    ghost var vs := ValidValues(dives, toFloat);
    assert |vec| == |multiset(vec)| == |multiset(vs)| == |vs|;
    if |vec| > 0 {
      assert vec[0] in multiset(vs);
      assert vec[|vec| - 1] in multiset(vs);
    }
    forall v | v in vs
      ensures q.min <= v <= q.max
    {
      assert v in multiset(vec);
      var i :| 0 <= i < |vec| && vec[i] == v;
      if 0 < i {
        assert RealLe(vec[0], vec[i]);
      }
      if i < |vec| - 1 {
        assert RealLe(vec[i], vec[|vec| - 1]);
      }
    }
  }
}
