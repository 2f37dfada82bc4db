/**
 * Packed debt factors: 35 bits of coefficient over 15 bits of exponent in a `u64`, meaning
 * `coefficient * 2^(exponent - 16384)`.
 */
module DebtFactor {
  import opened Outcome
  import opened Bits

  const EXPONENT_BITS: nat := 15
  const COEFFICIENT_BITS: nat := 35
  const EXPONENT_MAX: nat := 0x7fff
  const EXPONENT_BIAS: nat := 16384
  const MAX_DEBT_FACTOR: nat := 0x3_ffff_ffff_ffff
  const ONE: nat := 0x8000 // one unit of coefficient
  const COEFFICIENT_LIMIT: nat := 0x2_0000_0000_0000 // coefficient bits of any `u64`

  function Coefficient(f: u64): nat {
    f / ONE
  }

  function Exponent(f: u64): nat {
    f % ONE
  }

  /** The value a factor stands for, times 2^16384 so that it is a natural number. */
  ghost function Value(f: u64): nat {
    Coefficient(f) * Pow2(Exponent(f))
  }

  /** 1.0 on the scale of `Value`. */
  ghost const UNIT: nat := Pow2(EXPONENT_BIAS)

  /** Fits the 50 bits a factor is written in. */
  predicate WellFormed(f: u64) {
    f <= MAX_DEBT_FACTOR
  }

  /** What the vault writes: the top coefficient bit is set. */
  predicate Normalised(f: u64) {
    0x4_0000_0000 <= Coefficient(f) < 0x8_0000_0000
  }

  // ---------------------------------------------------------------- multiplication

  /** Product of two factors, with the program's shifts, masks and width cuts. */
  function MulDebtFactors(a: u64, b: u64): Result<u64> {
    ShiftAndMask(a);
    ShiftAndMask(b);
    MulParts(Shr(a, EXPONENT_BITS), And(a, EXPONENT_MAX), Shr(b, EXPONENT_BITS), And(b, EXPONENT_MAX))
  }

  function MulParts(ca: u64, ea: u64, cb: u64, eb: u64): Result<u64>
    requires ca < COEFFICIENT_LIMIT && ea <= EXPONENT_MAX && cb < COEFFICIENT_LIMIT && eb <= EXPONENT_MAX
  {
    CoefficientProduct(ca, cb);
    Repack(ca * cb, ea + eb)
  }

  function Repack(product: u128, exponents: u64): Result<u64>
    requires exponents <= 2 * EXPONENT_MAX
  {
    var shift := if product > 0x1f_ffff_ffff_ffff_ffff then COEFFICIENT_BITS else COEFFICIENT_BITS - 1;
    var exponent: u64 := exponents + shift;
    if exponent < EXPONENT_BIAS then Err(DebtFactorUnderflow)
    else if exponent - EXPONENT_BIAS > EXPONENT_MAX then Ok(MAX_DEBT_FACTOR)
    else Ok(Pack(Shr(product, shift) % 0x1_0000_0000_0000_0000, exponent - EXPONENT_BIAS))
  }

  /** `(coefficient << 15) | exponent` on 64 bits. */
  function Pack(coefficient: u64, exponent: nat): (packed: u64)
    requires exponent <= EXPONENT_MAX
    ensures packed == coefficient % COEFFICIENT_LIMIT * ONE + exponent
  {
    PackedParts(coefficient, exponent);
    Or(Shl(coefficient, EXPONENT_BITS, 64), exponent)
  }

  /** Whether the coefficient product takes all 70 bits. */
  predicate Wide(product: nat) {
    product >= 0x20_0000_0000_0000_0000
  }

  /** A coefficient product shifted back down by 35 or 34 bits. */
  function Lowered(product: nat): nat {
    if Wide(product) then product / 0x8_0000_0000 else product / 0x4_0000_0000
  }

  function LoweredBy(product: nat): nat {
    if Wide(product) then COEFFICIENT_BITS else COEFFICIENT_BITS - 1
  }

  /** The coefficient and unchecked exponent of a product. */
  function ProductCoefficient(a: u64, b: u64): nat {
    Lowered(Coefficient(a) * Coefficient(b))
  }

  function ProductExponent(a: u64, b: u64): int {
    Exponent(a) + Exponent(b) + LoweredBy(Coefficient(a) * Coefficient(b)) - EXPONENT_BIAS
  }

  /** The same product in plain arithmetic. */
  function Product(a: u64, b: u64): Result<u64> {
    PackChecked(ProductCoefficient(a, b), ProductExponent(a, b))
  }

  function PackChecked(coefficient: nat, exponent: int): Result<u64> {
    if exponent < 0 then Err(DebtFactorUnderflow)
    else if exponent > EXPONENT_MAX then Ok(MAX_DEBT_FACTOR)
    else Ok(coefficient % COEFFICIENT_LIMIT * ONE + exponent)
  }

  lemma ShiftAndMask(f: u64)
    ensures Shr(f, EXPONENT_BITS) == Coefficient(f) < COEFFICIENT_LIMIT
    ensures And(f, EXPONENT_MAX) == Exponent(f)
  {
    Pow2To48();
    AndMask(f, 15);
  }

  lemma CoefficientProduct(c: nat, d: nat)
    requires c < COEFFICIENT_LIMIT && d < COEFFICIENT_LIMIT
    ensures c * d < 0x4_0000_0000_0000_0000_0000_0000
    ensures Lowered(c * d) < 0x8000_0000_0000_0000
  {
    MulMono(c, COEFFICIENT_LIMIT, d);
    MulMono(d, COEFFICIENT_LIMIT, COEFFICIENT_LIMIT);
  }

  lemma LoweredIsShift(product: nat)
    ensures Shr(product, LoweredBy(product)) == Lowered(product)
  {
    Pow2To48();
  }

  /** Packing drops whatever of the coefficient does not fit above the exponent. */
  lemma PackedParts(c: u64, e: nat)
    requires e <= EXPONENT_MAX
    ensures Or(Shl(c, EXPONENT_BITS, 64), e) == c % 0x2_0000_0000_0000 * ONE + e
    ensures c % 0x2_0000_0000_0000 * ONE + e < 0x1_0000_0000_0000_0000
  {
    Pow2To48();
    Pow2Wide();
    var k := c % 0x2_0000_0000_0000;
    assert Shl(c, EXPONENT_BITS, 64) == k * Pow2(15);
    OrDisjoint(e, k, 15);
    OrCommutes(e, k * Pow2(15));
  }

  lemma {:induction false} OrCommutes(x: nat, y: nat)
    ensures Or(x, y) == Or(y, x)
    decreases x + y
  {
    if x != 0 && y != 0 {
      OrCommutes(x / 2, y / 2);
    }
  }

  lemma RepackExact(product: u128, exponents: u64)
    requires exponents <= 2 * EXPONENT_MAX && Lowered(product) < 0x8000_0000_0000_0000
    ensures Repack(product, exponents)
         == PackChecked(Lowered(product), exponents + LoweredBy(product) - EXPONENT_BIAS)
  {
    var shift := LoweredBy(product);
    LoweredIsShift(product);
    DivModOf(0, Lowered(product), 0x1_0000_0000_0000_0000);
    if 0 <= exponents + shift - EXPONENT_BIAS <= EXPONENT_MAX {
      PackedParts(Lowered(product), exponents + shift - EXPONENT_BIAS);
    }
  }

  /** The bit-level product is the plain one, for every pair of `u64`s. */
  lemma MulDebtFactorsExact(a: u64, b: u64)
    ensures MulDebtFactors(a, b) == Product(a, b)
  {
    ShiftAndMask(a);
    ShiftAndMask(b);
    CoefficientProduct(Coefficient(a), Coefficient(b));
    RepackExact(Coefficient(a) * Coefficient(b), Exponent(a) + Exponent(b));
  }

  /** Two 35-bit coefficients give a 35-bit coefficient, normalised if they are. */
  lemma LoweredRange(c: nat, d: nat)
    requires c < 0x8_0000_0000 && d < 0x8_0000_0000
    ensures Lowered(c * d) < 0x8_0000_0000
    ensures c >= 0x4_0000_0000 && d >= 0x4_0000_0000 ==> Lowered(c * d) >= 0x4_0000_0000
  {
    MulMono(c, 0x7_ffff_ffff, d);
    MulMono(d, 0x7_ffff_ffff, 0x7_ffff_ffff);
    if c >= 0x4_0000_0000 && d >= 0x4_0000_0000 {
      MulMono(0x4_0000_0000, c, d);
      MulMono(0x4_0000_0000, d, 0x4_0000_0000);
    }
  }

  lemma Unpacks(c: nat, e: nat)
    requires c < 0x8_0000_0000 && e <= EXPONENT_MAX
    ensures PackChecked(c, e) == Ok(c * ONE + e) && c * ONE + e <= MAX_DEBT_FACTOR
    ensures Coefficient(c * ONE + e) == c && Exponent(c * ONE + e) == e
  {
    DivModOf(c, e, ONE);
  }

  /** Coefficients of well-formed factors never spill into other bits, and stay normalised. */
  lemma ProductClosed(a: u64, b: u64)
    requires WellFormed(a) && WellFormed(b) && Product(a, b).Ok?
    ensures WellFormed(Product(a, b).value)
    ensures Normalised(a) && Normalised(b) ==> Normalised(Product(a, b).value)
    ensures Product(a, b).value != MAX_DEBT_FACTOR ==>
              Coefficient(Product(a, b).value) == ProductCoefficient(a, b)
              && Exponent(Product(a, b).value) == ProductExponent(a, b)
  {
    LoweredRange(Coefficient(a), Coefficient(b));
    if 0 <= ProductExponent(a, b) <= EXPONENT_MAX {
      Unpacks(ProductCoefficient(a, b), ProductExponent(a, b));
    }
  }

  /** Packing gives the all-ones pattern in two ways: past the range, or with every bit set. */
  lemma AllOnesIff(c: nat, e: nat)
    requires e <= EXPONENT_MAX
    ensures c % COEFFICIENT_LIMIT * ONE + e == MAX_DEBT_FACTOR <==> c % COEFFICIENT_LIMIT == 0x7_ffff_ffff && e == EXPONENT_MAX
  {
  }

  /**
   * When a product of any two 64-bit values is the all-ones pattern that reads as "nothing left":
   * when its exponent is past the range, and also when an in-range product happens to have every
   * bit set.
   */
  lemma SaturatesIff(a: u64, b: u64)
    requires Product(a, b).Ok?
    ensures Product(a, b).value == MAX_DEBT_FACTOR <==>
              ProductExponent(a, b) > EXPONENT_MAX
              || (ProductExponent(a, b) == EXPONENT_MAX && ProductCoefficient(a, b) % COEFFICIENT_LIMIT == 0x7_ffff_ffff)
  {
    if 0 <= ProductExponent(a, b) <= EXPONENT_MAX {
      AllOnesIff(ProductCoefficient(a, b), ProductExponent(a, b));
    }
  }

  /** 1.0 as a packed factor: coefficient 2^34, exponent 16350. */
  const NEUTRAL: u64 := 0x2_0000_0000_3FDE

  /** It stands for one, and multiplying by it changes nothing. */
  lemma NeutralIsOne(f: u64)
    ensures Coefficient(NEUTRAL) == 0x4_0000_0000 && Exponent(NEUTRAL) == 16_350 && Value(NEUTRAL) == UNIT
    ensures Normalised(f) ==> Product(f, NEUTRAL) == Ok(f)
  {
    assert Coefficient(NEUTRAL) == 0x4_0000_0000 && Exponent(NEUTRAL) == 16_350;
    ShiftedUnit(34, Exponent(NEUTRAL));
    assert Pow2(34) == 0x4_0000_0000 by { Pow2To48(); }
    if Normalised(f) {
      DivUnique(Coefficient(f) * 0x4_0000_0000, 0x4_0000_0000, Coefficient(f));
      Unpacks(Coefficient(f), Exponent(f));
    }
  }

  lemma ShiftedUnit(a: nat, b: nat)
    requires a + b == EXPONENT_BIAS
    ensures Pow2(a) * Pow2(b) == UNIT
  {
    Pow2Add(a, b);
  }

  /** The same coefficient with exponent 16384 stands for 2^34. */
  lemma BiasIsNotOne()
    ensures Value(0x4_0000_0000 * ONE + EXPONENT_BIAS) == 0x4_0000_0000 * UNIT
  {
    var f: u64 := 0x4_0000_0000 * ONE + EXPONENT_BIAS;
    assert Coefficient(f) == 0x4_0000_0000 && Exponent(f) == EXPONENT_BIAS;
  }

  /**
   * Normalised factors whose exact, representable product is that pattern: coefficients 2^34 and
   * 2^35 - 1, and any exponents with this sum, 16351 and 32766 for one.
   */
  lemma UnsaturatedAllOnes(ea: nat, eb: nat)
    requires ea <= EXPONENT_MAX && eb <= EXPONENT_MAX && ea + eb == 49_117
    ensures var a, b := 0x4_0000_0000 * ONE + ea, 0x7_ffff_ffff * ONE + eb;
            && Normalised(a) && Normalised(b) && Product(a, b) == Ok(MAX_DEBT_FACTOR)
            && ProductExponent(a, b) == EXPONENT_MAX
            && Value(a) * Value(b) == Value(Product(a, b).value) * UNIT
  {
    var a, b := 0x4_0000_0000 * ONE + ea, 0x7_ffff_ffff * ONE + eb;
    var r := Product(a, b).value;
    assert Coefficient(a) == 0x4_0000_0000 && Exponent(a) == ea;
    assert Coefficient(b) == 0x7_ffff_ffff && Exponent(b) == eb;
    assert Coefficient(r) == 0x7_ffff_ffff && Exponent(r) + EXPONENT_BIAS == 34 + (ea + eb);
    assert Pow2(34) == 0x4_0000_0000 by { Pow2To48(); }
    ExactProduct(a, b, r, 34);
  }

  /** A product whose lowering drops no bits is exact. */
  lemma ExactProduct(a: u64, b: u64, r: u64, s: nat)
    requires Coefficient(a) * Coefficient(b) == Coefficient(r) * Pow2(s)
    requires Exponent(r) + EXPONENT_BIAS == s + (Exponent(a) + Exponent(b))
    ensures Value(a) * Value(b) == Value(r) * UNIT
  {
    var ea, eb := Exponent(a), Exponent(b);
    Regroup(Coefficient(a), Pow2(ea), Coefficient(b), Pow2(eb));
    Pow2Add(ea, eb);
    Pow2Add(s, ea + eb);
    Pow2Add(Exponent(r), EXPONENT_BIAS);
    Reassociate(Coefficient(r), Pow2(Exponent(r)), UNIT, Pow2(s), Pow2(ea + eb));
  }

  /**
   * One product loses less than one part in 2^34: exact / (1 + 2^-34) < result <= exact.
   * The upper half needs no normalisation.
   */
  lemma ProductError(a: u64, b: u64)
    requires WellFormed(a) && WellFormed(b)
    requires Product(a, b).Ok? && Product(a, b).value != MAX_DEBT_FACTOR
    ensures Value(Product(a, b).value) * UNIT <= Value(a) * Value(b)
    ensures Normalised(a) && Normalised(b) ==>
              Value(a) * Value(b) * 0x4_0000_0000 < Value(Product(a, b).value) * UNIT * 0x4_0000_0001
  {
    var r := Product(a, b).value;
    var ca, cb, ea, eb := Coefficient(a), Coefficient(b), Exponent(a), Exponent(b);
    ProductClosed(a, b);
    ErrorOfLowering(ca * cb);
    var s, scale := LoweredBy(ca * cb), Pow2(ea + eb);
    var q := Lowered(ca * cb);
    Pow2Add(ea, eb);
    Regroup(ca, Pow2(ea), cb, Pow2(eb));
    Pow2Add(Exponent(r), EXPONENT_BIAS);
    Pow2Add(s, ea + eb);
    assert Exponent(r) + EXPONENT_BIAS == s + (ea + eb);
    Reassociate(q, Pow2(Exponent(r)), UNIT, Pow2(s), scale);
    MulMono(q * Pow2(s), ca * cb, scale);
    if Normalised(a) && Normalised(b) {
      StrictScale(ca * cb, q * Pow2(s), scale);
    }
  }

  /** What shifting a coefficient product down loses. */
  lemma ErrorOfLowering(p: nat)
    ensures Lowered(p) * Pow2(LoweredBy(p)) <= p
    ensures Lowered(p) >= 0x4_0000_0000 ==>
              p * 0x4_0000_0000 < Lowered(p) * Pow2(LoweredBy(p)) * 0x4_0000_0001
  {
    Pow2To48();
  }

  lemma Reassociate(q: nat, x: nat, y: nat, z: nat, w: nat)
    requires x * y == z * w
    ensures q * x * y == q * z * w
  {
    assert q * x * y == q * (x * y);
    assert q * z * w == q * (z * w);
  }

  lemma Regroup(a: nat, x: nat, b: nat, y: nat)
    ensures a * x * (b * y) == a * b * (x * y)
  {
  }

  lemma StrictScale(p: nat, q: nat, scale: nat)
    requires p * 0x4_0000_0000 < q * 0x4_0000_0001 && scale > 0
    ensures p * scale * 0x4_0000_0000 < q * scale * 0x4_0000_0001
  {
    MulMono(p * 0x4_0000_0000 + 1, q * 0x4_0000_0001, scale);
    assert (p * 0x4_0000_0000 + 1) * scale == p * scale * 0x4_0000_0000 + scale;
    assert q * 0x4_0000_0001 * scale == q * scale * 0x4_0000_0001;
  }

  // ---------------------------------------------------------------- amount * num / den

  function BitLength(x: nat): nat {
    if x == 0 then 0 else 1 + BitLength(x / 2)
  }

  /** `u128::leading_zeros`. */
  function LeadingZeros(x: u128): int {
    128 - BitLength(x)
  }

  /** `amount * numerator / denominator`, with the program's early returns and its aborting shift. */
  function MulDivDebtFactors(amount: u64, numerator: u64, denominator: u64): Result<u64> {
    ShiftAndMask(numerator);
    ShiftAndMask(denominator);
    if numerator == 0 || denominator == 0 then Ok(0)
    else if And(denominator, EXPONENT_MAX) < And(numerator, EXPONENT_MAX) then Err(DebtFactorUnderflow)
    else
      var gap := And(denominator, EXPONENT_MAX) - And(numerator, EXPONENT_MAX);
      Divide(Top(amount, Shr(numerator, EXPONENT_BITS)), Shr(denominator, EXPONENT_BITS), gap)
  }

  /** `amount * coefficient`, which never overflows 128 bits. */
  function Top(amount: u64, c: nat): (top: u128)
    requires c < COEFFICIENT_LIMIT
    ensures top < 0x2_0000_0000_0000_0000_0000_0000_0000
  {
    MulMono(amount, 0x1_0000_0000_0000_0000, c);
    amount * c
  }

  /** `top / (bottom << gap)` on 128 bits; a shift by 128 aborts. */
  function Divide(top: u128, bottom: u128, gap: nat): Result<u64> {
    if gap > LeadingZeros(bottom) then Ok(0)
    else if gap >= 128 then Err(Panic)
    else
      var shifted := Shl(bottom, gap, 128);
      if shifted == 0 then Ok(0) else ToU64(top / shifted, DebtFactorOverflow)
  }

  /** The same division in plain arithmetic. */
  function Scaled(amount: u64, numerator: u64, denominator: u64): Result<u64> {
    if numerator == 0 || denominator == 0 then Ok(0)
    else if Exponent(denominator) < Exponent(numerator) then Err(DebtFactorUnderflow)
    else Quotient(Top(amount, Coefficient(numerator)), Coefficient(denominator),
                  Exponent(denominator) - Exponent(numerator))
  }

  function Quotient(top: nat, bottom: nat, gap: nat): Result<u64> {
    if bottom == 0 then (if gap == 128 then Err(Panic) else Ok(0))
    else
      MulMono(1, bottom, Pow2(gap));
      ToU64(top / (bottom * Pow2(gap)), DebtFactorOverflow)
  }

  lemma {:induction false} BitLengthBounds(x: nat)
    requires x > 0
    ensures BitLength(x) > 0 && Pow2(BitLength(x) - 1) <= x < Pow2(BitLength(x))
  {
    if x > 1 {
      BitLengthBounds(x / 2);
    }
  }

  /** A nonzero value survives a shift by at most its leading zeros, and outgrows 128 bits past that. */
  lemma LeadingZerosDecide(x: u128, gap: nat)
    requires x > 0
    ensures 0 <= LeadingZeros(x) < 128
    ensures gap <= LeadingZeros(x) <==> x * Pow2(gap) < Pow2(128)
  {
    var len := BitLength(x);
    BitLengthBounds(x);
    if len > 128 {
      Pow2Mono(128, len - 1);
      Pow2Wide();
      assert false;
    }
    if gap <= 128 - len {
      Pow2Add(len, gap);
      Pow2Mono(len + gap, 128);
      MulStrict(x, Pow2(len), Pow2(gap));
    } else {
      Pow2Add(len - 1, gap);
      Pow2Mono(128, len - 1 + gap);
      MulMono(Pow2(len - 1), x, Pow2(gap));
    }
  }

  /** The leading-zeros early return is exact: the two forms agree on every input. */
  lemma MulDivDebtFactorsExact(amount: u64, numerator: u64, denominator: u64)
    ensures MulDivDebtFactors(amount, numerator, denominator) == Scaled(amount, numerator, denominator)
  {
    ShiftAndMask(numerator);
    ShiftAndMask(denominator);
    var gap := Exponent(denominator) - Exponent(numerator);
    if numerator != 0 && denominator != 0 && gap >= 0 {
      DivideExact(Top(amount, Coefficient(numerator)), Coefficient(denominator), gap);
    }
  }

  lemma DivideExact(top: u128, bottom: u128, gap: nat)
    ensures Divide(top, bottom, gap) == Quotient(top, bottom, gap)
  {
    Pow2Wide();
    if bottom == 0 {
      DivModOf(0, 0, Pow2(128));
    } else {
      LeadingZerosDecide(bottom, gap);
      var shifted := bottom * Pow2(gap);
      MulMono(1, bottom, Pow2(gap));
      if gap <= LeadingZeros(bottom) {
        DivModOf(0, shifted, Pow2(128));
        assert Shl(bottom, gap, 128) == shifted;
      } else {
        DivUnique(top, shifted, 0);
      }
    }
  }

  /**
   * With a usable denominator the result is the floor of amount * value(num) / value(den), and
   * the call fails exactly when that floor does not fit 64 bits.
   */
  lemma ScaledIsFloor(amount: u64, numerator: u64, denominator: u64)
    requires Exponent(numerator) <= Exponent(denominator) && Coefficient(denominator) > 0
    ensures Value(denominator) > 0
    ensures Scaled(amount, numerator, denominator)
         == ToU64(MulDiv(amount, Value(numerator), Value(denominator)), DebtFactorOverflow)
  {
    var cn, cd := Coefficient(numerator), Coefficient(denominator);
    var en, ed := Exponent(numerator), Exponent(denominator);
    Pow2Add(ed - en, en);
    CancelCommon(amount, cn, cd, Pow2(ed - en), Pow2(en), Pow2(ed));
    if numerator == 0 {
      ZeroOver(amount, Value(denominator));
    }
  }

  lemma ZeroOver(amount: nat, d: nat)
    requires d > 0
    ensures MulDiv(amount, 0, d) == 0
  {
    DivUnique(0, d, 0);
  }

  lemma CancelCommon(amount: nat, cn: nat, cd: nat, g: nat, k: nat, h: nat)
    requires cd > 0 && g > 0 && k > 0 && h == g * k
    ensures cd * g > 0 && cd * h > 0
    ensures amount * cn / (cd * g) == MulDiv(amount, cn * k, cd * h)
  {
    MulMono(1, cd, g);
    MulMono(1, cd * g, k);
    assert cd * h == cd * g * k;
    assert amount * (cn * k) == amount * cn * k;
    DivCancel(amount * cn, cd * g, k);
  }

  /**
   * The one abort of the division, exactly: a denominator that is not zero but has a zero
   * coefficient, at an exponent gap of 128. Its 128 leading zeros let the full-width shift through.
   */
  lemma ScaledAbortsIff(amount: u64, numerator: u64, denominator: u64)
    ensures Scaled(amount, numerator, denominator) == Err(Panic) <==>
              numerator != 0 && denominator != 0
              && Coefficient(denominator) == 0 && Exponent(denominator) == Exponent(numerator) + 128
  {
  }

  /** Scaling by a ratio of at most one succeeds and does not increase the amount. */
  lemma ScaledAtMostAmount(amount: u64, numerator: u64, denominator: u64)
    requires Exponent(numerator) <= Exponent(denominator) && Coefficient(denominator) > 0
    requires Value(numerator) <= Value(denominator)
    ensures Scaled(amount, numerator, denominator).Ok? && Scaled(amount, numerator, denominator).value <= amount
  {
    ScaledIsFloor(amount, numerator, denominator);
    MulMono(Value(numerator), Value(denominator), amount);
    DivMono(amount * Value(numerator), amount * Value(denominator), Value(denominator));
    DivUnique(amount * Value(denominator), Value(denominator), amount);
  }

  /** A product fails exactly when its exponent, biased twice, falls below the bias. */
  lemma ProductFailsIff(a: u64, b: u64)
    ensures var shift := if a / 0x8000 * (b / 0x8000) >= 0x20_0000_0000_0000_0000 then 35 else 34;
            && (Product(a, b).Err? <==> a % 0x8000 + b % 0x8000 + shift < 16_384)
            && (Product(a, b).Err? ==> Product(a, b).error == DebtFactorUnderflow)
  {
  }

  /** Everything the division does short of dividing. */
  lemma ScaledEarlyAnswers(amount: u64, numerator: u64, denominator: u64)
    ensures numerator == 0 || denominator == 0 ==> Scaled(amount, numerator, denominator) == Ok(0)
    ensures Scaled(amount, numerator, denominator) == Err(DebtFactorUnderflow) <==>
              numerator != 0 && denominator != 0 && denominator % 0x8000 < numerator % 0x8000
    ensures denominator / 0x8000 == 0 && Exponent(numerator) <= Exponent(denominator)
            && Exponent(denominator) - Exponent(numerator) != 128 ==>
              Scaled(amount, numerator, denominator) == Ok(0)
  {
  }
}
