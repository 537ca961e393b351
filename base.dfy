/** Small helpers shared by the models: an Option type and C's integer division. */
module Base {

  datatype Option<+T> = None | Some(value: T)

  /** C (and C++) `/` on `int`: the quotient is truncated toward zero. Only
      positive divisors occur in the modelled code. Written as repeated
      subtraction. */
  function CDiv(a: int, b: int): (q: int)
    requires b > 0
    ensures a >= 0 ==> q >= 0
    ensures a <= 0 ==> q <= 0
    decreases if a >= 0 then a else 1 - a
  {
    if a < 0 then -CDiv(-a, b)
    else if a < b then 0
    else CDiv(a - b, b) + 1
  }

  /** Truncation: for a non-negative dividend the quotient is the largest `q` with
      `q * b <= a`; a negative dividend gives the negated quotient of its magnitude. */
  lemma {:induction false} CDivBounds(a: int, b: int)
    requires b > 0
    ensures a >= 0 ==> CDiv(a, b) * b <= a < CDiv(a, b) * b + b
    ensures a < 0 ==> CDiv(a, b) == -CDiv(-a, b)
    decreases if a >= 0 then a else 1 - a
  {
    if a >= b {
      CDivBounds(a - b, b);
      var q := CDiv(a - b, b);
      assert (q + 1) * b == q * b + b;
    }
  }

  /** Truncating division is monotone in the dividend. */
  lemma {:induction false} CDivMonotone(a: int, b: int, m: int)
    requires m > 0 && a <= b
    ensures CDiv(a, m) <= CDiv(b, m)
    decreases if a < 0 then 1 else 0, if a >= 0 then a else 0
  {
    if a < 0 && b < 0 {
      CDivMonotone(-b, -a, m);
    } else if a >= m {
      CDivMonotone(a - m, b - m, m);
    }
  }

  /** `std::numeric_limits<int>::max()`, the invalid integer bin value. */
  const IntMax: int := 0x7fff_ffff
}

/** Gas mixes and the result record of the isobaric-counterdiffusion check. */
module Gas {

  /** A breathing gas as oxygen and helium fractions in permille; nitrogen is the rest. */
  datatype GasMix = GasMix(o2: int, he: int)

  /** The "no gas printed yet" value the notes generator starts from: {{ -1 }, { -1 }}. */
  const NoGasPrinted: GasMix := GasMix(-1, -1)

  /** What `isobaric_counterdiffusion` reports: whether it considers the change a
      violation, and the helium and nitrogen deltas (permille) it wrote into `icd_data`.
      Its body is not part of this model, so every caller receives it as a parameter. */
  datatype IcdResult = IcdResult(violated: bool, dHe: int, dN2: int)

  /** The violation test the report colours by: five times the nitrogen increase
      exceeds the helium decrease. */
  predicate IcdExceeded(dHe: int, dN2: int)
  {
    5 * dN2 > -dHe
  }

  /** The largest nitrogen increase, in permille, that the rule allows for a given helium delta. */
  function MaxDeltaN2(dHe: int): real
  {
    (-dHe) as real / 5.0
  }

  /** The violation test is the same as "the nitrogen increase is above the allowed maximum". */
  lemma IcdExceededMeansAboveMax(dHe: int, dN2: int)
    ensures IcdExceeded(dHe, dN2) <==> dN2 as real > MaxDeltaN2(dHe)
  {
  }
}
