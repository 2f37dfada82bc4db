/**
 * How the live debt depends on the stored debt: scaled by the quotient of two factors, dropped
 * when it is not above 1% of the stored debt, and otherwise kept up to one part in 10000.
 */
module LiveDebt {
  import opened Outcome
  import opened Bits
  import opened DebtFactor
  import opened LivePosition

  /** The debt a walk that ends open and unsaturated leaves, given its two factors. */
  function Kept(stored: u64, numerator: u64, denominator: u64): Result<nat> {
    var scaled :- Scaled(stored, numerator, denominator);
    Ok(AfterHaircut(scaled, stored))
  }

  /** It is the debt of the walk. */
  lemma WalkKeeps(lookup: Lookup, start: u32, factor: u64, stored: u64)
    requires Walk(start, factor, stored, lookup).Ok?
    ensures lookup(start).Ok? && WalkFrom(lookup, start, lookup(start).value, factor, 0).Ok?
    ensures var end := WalkFrom(lookup, start, lookup(start).value, factor, 0).value;
            end.branch.status != BRANCH_CLOSED && end.factor != MAX_DEBT_FACTOR ==>
              Kept(stored, end.branch.debtFactor, end.factor) == Ok(Walk(start, factor, stored, lookup).value.debtRaw)
  {
  }

  /** The same in plain numbers, for a ratio of `n` to `d`. */
  function Cut(s: nat, n: nat, d: nat): nat
    requires d > 0
  {
    AfterHaircut(MulDiv(s, n, d), s)
  }

  /** At most 1%, or at least 1.5%. */
  predicate OutsideBand(n: nat, d: nat) {
    100 * n <= d || 200 * n >= 3 * d
  }

  lemma BelowOnePercent(s: nat, n: nat, d: nat)
    requires d > 0 && 100 * n <= d
    ensures MulDiv(s, n, d) <= s / 100
  {
    MulMono(100 * n, d, s);
    DivNext(s * n, d);
    MulCancelHundred(MulDiv(s, n, d), s, n, d);
  }

  lemma MulCancelHundred(a: nat, s: nat, n: nat, d: nat)
    requires d > 0 && a * d <= s * n && 100 * n * s <= d * s
    ensures 100 * a <= s
  {
    MulAssoc(100, a, d);
    MulAssoc(100, n, s);
    MulCancel(100 * a, s, d);
  }

  lemma AboveBand(t: nat, n: nat, d: nat)
    requires d > 0 && 200 * n >= 3 * d
    ensures 3 * t < 200 * (MulDiv(t, n, d) + 1)
  {
    var b := MulDiv(t, n, d) + 1;
    DivNext(t * n, d);
    MulMono(3 * d, 200 * n, t);
    assert 3 * t * d < 200 * b * d by {
      MulAssoc(200, b, d);
      MulAssoc(200, n, t);
      MulAssoc(3, d, t);
      MulAssoc(3, t, d);
    }
    if 200 * b <= 3 * t {
      MulMono(200 * b, 3 * t, d);
      assert false;
    }
  }

  /** Outside the band more stored debt never leaves less. */
  lemma CutMonotone(s: nat, t: nat, n: nat, d: nat)
    requires d > 0 && s <= t && OutsideBand(n, d)
    ensures Cut(s, n, d) <= Cut(t, n, d)
  {
    MulMono(s, t, n);
    DivMono(s * n, t * n, d);
    if 100 * n <= d {
      BelowOnePercent(s, n, d);
    } else {
      AboveBand(t, n, d);
    }
  }

  /** A point where the whole hundreds of the stored debt catch up with the scaled amount. */
  lemma Catches(k: nat, n: nat, d: nat)
    requires d > 0 && d < 100 * n && k > 0
    requires n <= k * (100 * n - d) < d
    ensures MulDiv(100 * k - 1, n, d) == k && MulDiv(100 * k, n, d) == k
  {
    var e := 100 * n - d;
    assert 100 * k * n == k * d + k * e by {
      assert k * (100 * n) == k * (d + e);
    }
    assert (100 * k - 1) * n == 100 * k * n - n;
    DivUnique(100 * k * n, d, k);
    DivUnique((100 * k - 1) * n, d, k);
  }

  lemma CatchPoint(n: nat, e: nat) returns (k: nat)
    requires e > 0
    ensures 2 <= k <= n + 2 && n <= k * e && (k == 2 || k * e < n + e)
  {
    var c := n / e;
    DivNext(n, e);
    k := if n <= 2 * e then 2 else if c * e == n then c else c + 1;
    if c >= 1 {
      MulMono(1, e, c);
    }
    assert (c + 1) * e == c * e + e;
  }

  /** Inside the band one unit more of stored debt, at some hundred, leaves nothing. */
  lemma CutDrops(n: nat, d: nat) returns (s: nat)
    requires d > 0 && !OutsideBand(n, d)
    ensures s + 1 <= 100 * (n + 2) && MulDiv(s + 1, n, d) <= n + 2 && MulDiv(s, n, d) <= n + 2
    ensures Cut(s + 1, n, d) < Cut(s, n, d)
  {
    var e := 100 * n - d;
    var k := CatchPoint(n, e);
    Catches(k, n, d);
    s := 100 * k - 1;
  }

  // ---------------------------------------------------------------- on packed factors

  lemma KeptIsCut(stored: u64, numerator: u64, denominator: u64)
    requires Exponent(numerator) <= Exponent(denominator) && Coefficient(denominator) > 0
    ensures Value(denominator) > 0
    ensures var scaled := MulDiv(stored, Value(numerator), Value(denominator));
            Kept(stored, numerator, denominator)
            == if scaled < 0x1_0000_0000_0000_0000 then Ok(Cut(stored, Value(numerator), Value(denominator)))
               else Err(DebtFactorOverflow)
  {
    ScaledIsFloor(stored, numerator, denominator);
  }

  /** More stored debt, both amounts scalable, and less of it left. */
  ghost predicate Falls(s: u64, t: u64, numerator: u64, denominator: u64) {
    var before, after := Kept(s, numerator, denominator), Kept(t, numerator, denominator);
    s <= t && before.Ok? && after.Ok? && after.value < before.value
  }

  lemma NoFall(s: u64, t: u64, numerator: u64, denominator: u64)
    requires Exponent(numerator) <= Exponent(denominator) && Coefficient(denominator) > 0
    requires OutsideBand(Value(numerator), Value(denominator))
    ensures !Falls(s, t, numerator, denominator)
  {
    KeptIsCut(s, numerator, denominator);
    KeptIsCut(t, numerator, denominator);
    if s <= t {
      CutMonotone(s, t, Value(numerator), Value(denominator));
    }
  }

  /** The ratio of two packed factors is that of two numbers below 2^49 and its shift by the exponent gap. */
  lemma Reduced(numerator: u64, denominator: u64) returns (n: nat, d: nat, g: nat)
    requires Exponent(numerator) <= Exponent(denominator) && Coefficient(denominator) > 0
    ensures d > 0 && g > 0 && n < COEFFICIENT_LIMIT
    ensures Value(numerator) == n * g && Value(denominator) == d * g
  {
    var gap := Exponent(denominator) - Exponent(numerator);
    n, g := Coefficient(numerator), Pow2(Exponent(numerator));
    d := Coefficient(denominator) * Pow2(gap);
    Pow2Add(gap, Exponent(numerator));
    MulAssoc(Coefficient(denominator), Pow2(gap), g);
    MulMono(1, Coefficient(denominator), Pow2(gap));
  }

  lemma BandScales(n: nat, d: nat, g: nat)
    requires g > 0
    ensures OutsideBand(n * g, d * g) <==> OutsideBand(n, d)
  {
    MulAssoc(100, n, g);
    MulAssoc(200, n, g);
    MulAssoc(3, d, g);
    if 100 * (n * g) <= d * g {
      MulCancel(100 * n, d, g);
    }
    if 200 * (n * g) >= 3 * (d * g) {
      MulCancel(3 * d, 200 * n, g);
    }
    if 100 * n <= d {
      MulMono(100 * n, d, g);
    }
    if 200 * n >= 3 * d {
      MulMono(3 * d, 200 * n, g);
    }
  }

  lemma CutScales(s: nat, n: nat, d: nat, g: nat)
    requires d > 0 && g > 0
    ensures d * g > 0 && MulDiv(s, n * g, d * g) == MulDiv(s, n, d)
  {
    MulStrict(0, d, g);
    MulAssoc(s, n, g);
    DivCancel(s * n, d, g);
  }

  lemma SomeFall(numerator: u64, denominator: u64) returns (s: u64, t: u64)
    requires Exponent(numerator) <= Exponent(denominator) && Coefficient(denominator) > 0
    requires !OutsideBand(Value(numerator), Value(denominator))
    ensures Falls(s, t, numerator, denominator)
  {
    var n, d, g := Reduced(numerator, denominator);
    BandScales(n, d, g);
    s := CutDrops(n, d);
    t := s + 1;
    CutScales(s, n, d, g);
    CutScales(t, n, d, g);
    KeptIsCut(s, numerator, denominator);
    KeptIsCut(t, numerator, denominator);
  }

  /**
   * The live debt is monotone in the stored debt exactly when the ratio of the two factors is at
   * most 1% (and then nothing is ever left) or at least 1.5%. Between the two, one unit more of
   * stored debt can wipe out what is left.
   */
  lemma LiveDebtMonotoneIff(numerator: u64, denominator: u64)
    requires Exponent(numerator) <= Exponent(denominator) && Coefficient(denominator) > 0
    ensures (forall s: u64, t: u64 :: !Falls(s, t, numerator, denominator))
            <==> OutsideBand(Value(numerator), Value(denominator))
  {
    if OutsideBand(Value(numerator), Value(denominator)) {
      forall s: u64, t: u64
        ensures !Falls(s, t, numerator, denominator)
      {
        NoFall(s, t, numerator, denominator);
      }
    } else {
      var s, t := SomeFall(numerator, denominator);
    }
  }

  /** Two normalised factors, about 1.01% apart: 199 stored leave 1, 200 leave nothing. */
  lemma TwoHundredLeavesLess()
    ensures var n, d := 19_392_000_000 * ONE + 16_344, 30_000_000_000 * ONE + 16_350;
            Normalised(n) && Normalised(d) && Kept(199, n, d) == Ok(1) && Kept(200, n, d) == Ok(0)
  {
    assert Pow2(6) == 64 by { Pow2Small(); }
  }
}
