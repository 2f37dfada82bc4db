/** Tick ratios from the bit-by-bit power table, and the two debt formulas built on them. */
module TickMath {
  import opened Outcome
  import opened Bits
  import opened WideMul

  const MIN_TICK := -16383
  const MAX_TICK := 16383
  const INIT_TICK := -0x8000_0000
  const TICK_PDA_OFFSET := MAX_TICK

  const ZERO_TICK_SCALED_RATIO: nat := 0x1_0000_0000_0000
  const TICK_SPACING: nat := 10_015
  const FOUR_DECIMALS: nat := 10_000
  const X30: nat := 0x3fff_ffff

  const FACTOR00 := 18446744073709551616
  const FACTOR01 := 18419115400608638658
  const FACTOR02 := 18391528108445969703
  const FACTOR03 := 18336477419114433396
  const FACTOR04 := 18226869890870665593
  const FACTOR05 := 18009616477100071088
  const FACTOR06 := 17582847377087825313
  const FACTOR07 := 16759408633341240198
  const FACTOR08 := 15226414841393184936
  const FACTOR09 := 12568272644527235157
  const FACTOR10 := 8563108841104354677
  const FACTOR11 := 3975055583337633975
  const FACTOR12 := 856577552520149366
  const FACTOR13 := 39775317560084773
  const FACTOR14 := 85764505686420
  const FACTOR15 := 398745188

  /** The power table by bit number, bit 0 first. */
  const TABLE: seq<nat> := [
    FACTOR01, FACTOR02, FACTOR03, FACTOR04, FACTOR05, FACTOR06, FACTOR07, FACTOR08,
    FACTOR09, FACTOR10, FACTOR11, FACTOR12, FACTOR13, FACTOR14, FACTOR15
  ]

  // ---------------------------------------------------------------- the factor of a tick

  /** Floor product in 64.64 fixed point. */
  function Scale(f: nat, c: nat): nat {
    f * c / WORD
  }

  /** Fold a table over the bits of `m`, lowest first, starting at entry `j`. */
  function Fold(table: seq<nat>, f: nat, m: nat, j: nat): nat
    requires j <= |table|
    decreases |table| - j, m // `m` keeps the verifier from unrolling the whole table
  {
    if j == |table| then f
    else Fold(table, if m % 2 == 1 then Scale(f, table[j]) else f, m / 2, j + 1)
  }

  function Magnitude(tick: int): nat {
    if tick < 0 then -tick else tick
  }

  /** The factor of a magnitude. */
  function FactorOf(n: nat): nat {
    Fold(TABLE, FACTOR00, n, 0)
  }

  function CeilShift16(f: nat): nat {
    f / 0x1_0000 + (if f % 0x1_0000 != 0 then 1 else 0)
  }

  /** The ratio of a tick, free of any machine-width concern. */
  function Ratio(tick: int): nat {
    var factor := FactorOf(Magnitude(tick));
    if tick <= 0 then factor / 0x1_0000
    else CeilShift16(if factor == 0 then 0 else U128_MAX / factor)
  }

  // The monotonicity argument holds for any table whose entries sit slightly more than 0.14%
  // below the product of all entries before them. `ones[j]` is that product: the smallest
  // factor that `j` bits can give.

  ghost predicate Spaced(table: seq<nat>, ones: seq<nat>) {
    && |table| == 15 && |ones| == 15
    && ones[0] == WORD && 300_000_000 <= ones[14]
    && forall j :: 0 <= j < 14 ==> SpacedAt(ones[j], table[j], ones[j + 1], 140_000 - j)
  }

  ghost predicate SpacedAt(before: nat, entry: nat, after: nat, k: nat) {
    && after == Scale(before, entry)
    && 100_000_000 * (before - entry) >= (k - 1) * entry
    && 300_000_000 <= after <= entry < before <= WORD
  }

  ghost const ONES: seq<nat> := [
    18446744073709551616, 18419115400608638658, 18363982135243105045, 18254210195706971590,
    18036630901815721194, 17609221648153457050, 16784547746291252056, 15249254463655274710,
    12587125053494026006, 8575953504366011206, 3981018166712640424, 857862418848929589,
    39834980536424899, 85893152444949, 399343305
  ]

  lemma TableIsSpaced()
    ensures Spaced(TABLE, ONES)
    ensures forall j :: 0 <= j < 15 ==> TABLE[j] < WORD
  {
    assert SpacedAt(18446744073709551616, 18419115400608638658, 18419115400608638658, 140000);
    assert SpacedAt(18419115400608638658, 18391528108445969703, 18363982135243105045, 139999);
    assert SpacedAt(18363982135243105045, 18336477419114433396, 18254210195706971590, 139998);
    assert SpacedAt(18254210195706971590, 18226869890870665593, 18036630901815721194, 139997);
    assert SpacedAt(18036630901815721194, 18009616477100071088, 17609221648153457050, 139996);
    assert SpacedAt(17609221648153457050, 17582847377087825313, 16784547746291252056, 139995);
    assert SpacedAt(16784547746291252056, 16759408633341240198, 15249254463655274710, 139994);
    assert SpacedAt(15249254463655274710, 15226414841393184936, 12587125053494026006, 139993);
    assert SpacedAt(12587125053494026006, 12568272644527235157, 8575953504366011206, 139992);
    assert SpacedAt(8575953504366011206, 8563108841104354677, 3981018166712640424, 139991);
    assert SpacedAt(3981018166712640424, 3975055583337633975, 857862418848929589, 139990);
    assert SpacedAt(857862418848929589, 856577552520149366, 39834980536424899, 139989);
    assert SpacedAt(39834980536424899, 39775317560084773, 85893152444949, 139988);
    assert SpacedAt(85893152444949, 85764505686420, 399343305, 139987);
  }

  lemma ScaleMono(f: nat, g: nat, c: nat)
    requires f <= g
    ensures Scale(f, c) <= Scale(g, c)
  {
    MulMono(f, g, c);
    DivMono(f * c, g * c, WORD);
  }

  lemma ScaleShrinks(f: nat, c: nat)
    requires c < WORD
    ensures Scale(f, c) <= f
  {
    MulMono(c, WORD, f);
    DivMono(f * c, f * WORD, WORD);
    DivUnique(f * WORD, WORD, f);
  }

  /**
   * A relative gap between two factors survives one more table entry: flooring costs at most
   * one unit, and one unit is below 1e-8 of any factor that can still occur.
   */
  lemma GapStep(x: nat, y: nat, c: nat, k: nat)
    requires y < x && 1 < k && 100_000_000 * (x - y) >= k * y
    requires Scale(y, c) >= 100_000_000
    ensures Scale(y, c) < Scale(x, c)
    ensures 100_000_000 * (Scale(x, c) - Scale(y, c)) >= (k - 1) * Scale(y, c)
  {
    var u, v := Scale(x, c), Scale(y, c);
    DivBounds(x * c, WORD);
    DivBounds(y * c, WORD);
    assert (100_000_000 * (x - y) - k * y) * c >= 0;
    assert k * (y * c) >= k * (v * WORD) by { MulMono(v * WORD, y * c, k); }
    assert 100_000_000 * (x * c) - 100_000_000 * (y * c) >= k * (y * c);
    assert k * (v * WORD) == k * v * WORD;
    assert 100_000_000 * (u - v) * WORD + 100_000_000 * WORD > k * v * WORD;
    assert 100_000_000 * (u - v) + 100_000_000 > k * v;
    assert (k - 1) * v == k * v - v;
    MulMono(1, k - 1, v);
  }

  /** The end points of two folds, at least 0.139986% apart and nowhere near zero. */
  ghost predicate Apart(u: nat, v: nat) {
    300_000_000 <= v < u <= WORD && 100_000_000 * (u - v) >= 139_986 * v
  }

  /** Two folds that start a gap apart and consume the same bits end a gap apart. */
  lemma {:induction false} GapFold(table: seq<nat>, ones: seq<nat>, x: nat, y: nat, m: nat, j: nat)
    requires Spaced(table, ones) && j <= 14 && m < Pow2(14 - j)
    requires ones[j] <= y < x <= WORD && 100_000_000 * (x - y) >= (140_000 - j) * y
    ensures Apart(Fold(table, x, m, j), Fold(table, y, m, j))
    decreases 14 - j
  {
    if j == 14 {
      assert m == 0;
      assert Fold(table, x, 0, 14) == Fold(table, x, 0, 15);
    } else {
      var c := table[j];
      assert SpacedAt(ones[j], c, ones[j + 1], 140_000 - j);
      if m % 2 == 1 {
        ScaleMono(ones[j], y, c);
        ScaleShrinks(x, c);
        GapStep(x, y, c, 140_000 - j);
        GapFold(table, ones, Scale(x, c), Scale(y, c), m / 2, j + 1);
      } else {
        MulMono(140_000 - (j + 1), 140_000 - j, y);
        GapFold(table, ones, x, y, m / 2, j + 1);
      }
    }
  }

  /**
   * Adding one to the bits: a run of trailing ones turns into zeros and the next bit is set.
   * Where the carry lands the two folds are one table entry apart, and stay apart above it.
   */
  lemma {:induction false} CarryFold(table: seq<nat>, ones: seq<nat>, m: nat, j: nat)
    requires Spaced(table, ones) && j < 14 && m + 1 < Pow2(14 - j)
    ensures Apart(Fold(table, ones[j], m, j), Fold(table, WORD, m + 1, j))
    decreases 14 - j
  {
    var c, h := table[j], m / 2;
    assert SpacedAt(ones[j], c, ones[j + 1], 140_000 - j);
    if m % 2 == 0 {
      assert Scale(WORD, c) == c by { DivUnique(WORD * c, WORD, c); }
      GapFold(table, ones, ones[j], c, h, j + 1);
    } else {
      assert (m + 1) / 2 == h + 1;
      assert j < 13 by { Pow2Small(); }
      CarryFold(table, ones, h, j + 1);
    }
  }

  /** Neighbouring magnitudes: the factor drops by a real fraction and never gets small. */
  lemma FactorDrops(n: nat)
    requires n < 16383
    ensures Apart(FactorOf(n), FactorOf(n + 1))
  {
    TableIsSpaced();
    assert 16384 == Pow2(14) by {
      Pow2Small();
      Pow2Add(7, 7);
    }
    CarryFold(TABLE, ONES, n, 0);
  }

  lemma FactorRange(n: nat)
    requires n <= 16383
    ensures 300_000_000 <= FactorOf(n) <= WORD
  {
    FactorDrops(if n < 16383 then n else n - 1);
  }

  // ---------------------------------------------------------------- how even the steps are

  // One tick is meant to be 0.15%. The same carry argument, two-sided: where the carry lands a table
  // entry is 1/1.0015 of the product before it almost exactly, and each later floor adds at most one
  // unit, which only the last entry makes noticeable.

  /** `x / y` is 1.0015 up to `k` parts in 10^12. */
  ghost predicate Even(x: nat, y: nat, k: nat) {
    -(k * y) <= 100_000_000 * (10_015 * y - 10_000 * x) <= k * y
  }

  /** What flooring may cost at each entry: nothing to speak of, except at the last. */
  function Slack(j: nat): nat {
    if j <= 13 then 1 + j else 2_700
  }

  ghost predicate EvenTable(table: seq<nat>, ones: seq<nat>) {
    && |table| == 15 && |ones| == 15 && ones[0] == WORD
    && forall j :: 0 <= j < 14 ==> EvenAt(ones[j], table[j], ones[j + 1], if j < 13 then 2_000_000_000_000 else 390_000_000)
  }

  ghost predicate EvenAt(before: nat, entry: nat, after: nat, least: nat) {
    after == Scale(before, entry) && Even(before, entry, 1) && least <= after <= entry <= before
  }

  lemma TableIsEven()
    ensures EvenTable(TABLE, ONES)
  {
    assert EvenAt(18446744073709551616, 18419115400608638658, 18419115400608638658, 2_000_000_000_000);
    assert EvenAt(18419115400608638658, 18391528108445969703, 18363982135243105045, 2_000_000_000_000);
    assert EvenAt(18363982135243105045, 18336477419114433396, 18254210195706971590, 2_000_000_000_000);
    assert EvenAt(18254210195706971590, 18226869890870665593, 18036630901815721194, 2_000_000_000_000);
    assert EvenAt(18036630901815721194, 18009616477100071088, 17609221648153457050, 2_000_000_000_000);
    assert EvenAt(17609221648153457050, 17582847377087825313, 16784547746291252056, 2_000_000_000_000);
    assert EvenAt(16784547746291252056, 16759408633341240198, 15249254463655274710, 2_000_000_000_000);
    assert EvenAt(15249254463655274710, 15226414841393184936, 12587125053494026006, 2_000_000_000_000);
    assert EvenAt(12587125053494026006, 12568272644527235157, 8575953504366011206, 2_000_000_000_000);
    assert EvenAt(8575953504366011206, 8563108841104354677, 3981018166712640424, 2_000_000_000_000);
    assert EvenAt(3981018166712640424, 3975055583337633975, 857862418848929589, 2_000_000_000_000);
    assert EvenAt(857862418848929589, 856577552520149366, 39834980536424899, 2_000_000_000_000);
    assert EvenAt(39834980536424899, 39775317560084773, 85893152444949, 2_000_000_000_000);
    assert EvenAt(85893152444949, 85764505686420, 399343305, 390_000_000);
  }

  lemma EvenTimes(x: nat, y: nat, c: nat, k: nat)
    requires Even(x, y, k)
    ensures Even(x * c, y * c, k)
  {
    var gap := 100_000_000 * (10_015 * y - 10_000 * x);
    ScaleBetween(-(k * y), gap, k * y, c);
    MulAssoc(k, y, c);
    assert gap * c == 100_000_000 * (10_015 * (y * c) - 10_000 * (x * c));
    assert -(k * y) * c == -(k * y * c);
  }

  lemma EvenFloor(p: nat, q: nat, k: nat, next: nat)
    requires Even(p, q, k) && k <= next
    requires k + 1_001_500_000_000 <= (next - k) * (q / WORD)
    ensures Even(p / WORD, q / WORD, next)
  {
    var u, v, r, s := p / WORD, q / WORD, p % WORD, q % WORD;
    assert k * q == k * v * WORD + k * s by { SplitProduct(k, v, s); }
    MulMono(s, WORD, k);
    EvenCut(10_015 * v - 10_000 * u, k * v, k, r, s, k * s);
    assert (next - k) * v == next * v - k * v;
  }

  lemma SplitProduct(k: nat, v: nat, s: nat)
    ensures k * (v * WORD + s) == k * v * WORD + k * s
  {
    MulAssoc(k, v, WORD);
  }

  /** Evenness survives one more table entry at the price of one unit of either factor. */
  lemma EvenStep(x: nat, y: nat, c: nat, k: nat, next: nat)
    requires Even(x, y, k) && k <= next
    requires k + 1_001_500_000_000 <= (next - k) * Scale(y, c)
    ensures Even(Scale(x, c), Scale(y, c), next)
  {
    EvenTimes(x, y, c, k);
    EvenFloor(x * c, y * c, k, next);
  }

  lemma ScaleBetween(low: int, x: int, high: int, c: nat)
    requires low <= x <= high
    ensures low * c <= x * c <= high * c
  {
  }

  /** Dropping the floor remainders of an even pair. */
  lemma EvenCut(gap: int, kv: nat, k: nat, r: nat, s: nat, ks: nat)
    requires r < WORD && s < WORD && ks <= k * WORD
    requires -(kv * WORD + ks) <= 100_000_000 * (gap * WORD + 10_015 * s - 10_000 * r) <= kv * WORD + ks
    ensures -(kv + k + 1_001_500_000_000) <= 100_000_000 * gap <= kv + k + 1_001_500_000_000
  {
  }

  lemma {:induction false} EvenFold(table: seq<nat>, ones: seq<nat>, x: nat, y: nat, m: nat, j: nat)
    requires EvenTable(table, ones) && j <= 14 && m < Pow2(14 - j)
    requires ones[j] <= y && Even(x, y, Slack(j))
    ensures Even(Fold(table, x, m, j), Fold(table, y, m, j), 2_700)
    decreases 14 - j
  {
    if j == 14 {
      assert m == 0;
      assert Fold(table, x, 0, 14) == Fold(table, x, 0, 15);
    } else {
      var c := table[j];
      assert EvenAt(ones[j], c, ones[j + 1], if j < 13 then 2_000_000_000_000 else 390_000_000);
      if m % 2 == 1 {
        ScaleMono(ones[j], y, c);
        MulMono(1, Slack(j + 1) - Slack(j), Scale(y, c));
        EvenStep(x, y, c, Slack(j), Slack(j + 1));
        EvenFold(table, ones, Scale(x, c), Scale(y, c), m / 2, j + 1);
      } else {
        MulMono(Slack(j), Slack(j + 1), y);
        EvenFold(table, ones, x, y, m / 2, j + 1);
      }
    }
  }

  lemma {:induction false} EvenCarry(table: seq<nat>, ones: seq<nat>, m: nat, j: nat)
    requires EvenTable(table, ones) && j < 14 && m + 1 < Pow2(14 - j)
    ensures Even(Fold(table, ones[j], m, j), Fold(table, WORD, m + 1, j), 2_700)
    decreases 14 - j
  {
    var c, h := table[j], m / 2;
    assert EvenAt(ones[j], c, ones[j + 1], if j < 13 then 2_000_000_000_000 else 390_000_000);
    if m % 2 == 0 {
      assert Scale(WORD, c) == c by { DivUnique(WORD * c, WORD, c); }
      MulMono(1, Slack(j + 1), c);
      EvenFold(table, ones, ones[j], c, h, j + 1);
    } else {
      assert (m + 1) / 2 == h + 1;
      assert j < 13 by { Pow2Small(); }
      EvenCarry(table, ones, h, j + 1);
    }
  }

  /** Neighbouring magnitudes are 0.15% apart, up to 2700 parts in 10^12, over the whole range. */
  lemma NeighboursAreEven(n: nat)
    requires n < 16383
    ensures Even(FactorOf(n), FactorOf(n + 1), 2_700)
  {
    TableIsEven();
    assert 16384 == Pow2(14) by {
      Pow2Small();
      Pow2Add(7, 7);
    }
    EvenCarry(TABLE, ONES, n, 0);
  }

  // ---------------------------------------------------------------- the ratio of a tick

  lemma {:induction false} FoldZero(table: seq<nat>, f: nat, j: nat)
    requires j <= |table|
    ensures Fold(table, f, 0, j) == f
    decreases |table| - j
  {
    if j < |table| {
      FoldZero(table, f, j + 1);
    }
  }

  /** Reciprocals of factors that are apart differ by at least one rounding unit. */
  lemma ReciprocalGap(u: nat, v: nat)
    requires Apart(u, v)
    ensures U128_MAX / u + 0x1_0000 <= U128_MAX / v
  {
    var r := U128_MAX / u;
    DivGe(U128_MAX, u, WORD - 1);
    MulMono(u, WORD, WORD - 1);
    DivBounds(U128_MAX, u);
    assert r * (u - v) >= 0x1_0000 * v by {
      MulMono(0x1_0000 * 100_000_000, r, u - v);
    }
    assert r * v == r * u - r * (u - v);
    assert (r + 0x1_0000) * v <= U128_MAX;
    DivGe(U128_MAX, v, r + 0x1_0000);
  }

  lemma RatioAtZero()
    ensures Ratio(0) == ZERO_TICK_SCALED_RATIO == CeilShift16(U128_MAX / FactorOf(0))
  {
    FoldZero(TABLE, FACTOR00, 0);
  }

  /** One tick up is strictly more debt per unit of collateral. */
  lemma RatioStep(tick: int)
    requires MIN_TICK <= tick < MAX_TICK
    ensures Ratio(tick) < Ratio(tick + 1)
  {
    if tick < 0 {
      FactorDrops(-tick - 1);
    } else {
      RatioAtZero();
      FactorDrops(tick);
      ReciprocalGap(FactorOf(tick), FactorOf(tick + 1));
    }
  }

  /** The ratio is strictly increasing over the whole tick range. */
  lemma {:induction false} RatioStrictlyIncreasing(low: int, high: int)
    requires MIN_TICK <= low < high <= MAX_TICK
    ensures Ratio(low) < Ratio(high)
    decreases high - low
  {
    RatioStep(high - 1);
    if low < high - 1 {
      RatioStrictlyIncreasing(low, high - 1);
    }
  }

  /** `a / b` is 1.0015 up to 2700 parts in 10^12 and a little over two units. */
  ghost predicate Near(a: nat, b: nat) {
    var slack := 2_700 * b + 2_100_000_000_000;
    -slack <= 100_000_000 * (10_000 * a - 10_015 * b) <= slack
  }

  /** If `q * v <= p * u` and `a * u <= b * v`, then `a * q <= b * p`. */
  lemma CrossMultiply(a: nat, b: nat, q: nat, p: nat, u: nat, v: nat)
    requires q * v <= p * u && a * u <= b * v && v > 0
    ensures a * q <= b * p
  {
    MulMono(q * v, p * u, a);
    MulMono(a * u, b * v, p);
    MulAssoc(a, q, v);
    MulAssoc(b, p, v);
    Swap(a, p, u);
    Swap(b, p, v);
    MulCancel(a * q, b * p, v);
  }

  lemma Swap(a: nat, p: nat, u: nat)
    ensures p * u * a == a * u * p && p * u * a == a * p * u
  {
    MulAssoc(p, u, a);
    MulAssoc(a, p, u);
  }

  lemma EvenBounds(u: nat, v: nat)
    requires Even(u, v, 2_700)
    ensures 1_000_000_000_000 * u <= 1_001_500_002_700 * v
    ensures 1_001_499_997_300 * v <= 1_000_000_000_000 * u
  {
  }

  /** Quotients `p` and `q` of one number by an even pair are as even, up to one unit each. */
  lemma Reciprocals(u: nat, v: nat, m: nat, p: nat, q: nat)
    requires u > 0 && v > 0 && Even(u, v, 2_700)
    requires p * u <= m < (p + 1) * u && q * v <= m < (q + 1) * v
    ensures 1_000_000_000_000 * q <= 1_001_500_002_700 * (p + 1)
    ensures 1_001_499_997_300 * p <= 1_000_000_000_000 * (q + 1)
  {
    EvenBounds(u, v);
    CrossMultiply(1_000_000_000_000, 1_001_500_002_700, q, p + 1, u, v);
    CrossMultiply(1_001_499_997_300, 1_000_000_000_000, p, q + 1, v, u);
  }

  /** Neighbouring ratios are 0.15% apart over the whole tick range, through floors and reciprocals. */
  lemma NeighbouringRatios(tick: int)
    requires MIN_TICK < tick <= MAX_TICK
    ensures Near(Ratio(tick), Ratio(tick - 1))
  {
    if tick <= 0 {
      NeighboursAreEven(-tick);
    } else {
      RatioAtZero();
      NeighboursAreEven(tick - 1);
      var u, v := FactorOf(tick - 1), FactorOf(tick);
      FactorRange(tick - 1);
      FactorRange(tick);
      DivNext(U128_MAX, u);
      DivNext(U128_MAX, v);
      Reciprocals(u, v, U128_MAX, U128_MAX / u, U128_MAX / v);
      RoundedNear(U128_MAX / v, U128_MAX / u);
      assert Ratio(tick) == CeilShift16(U128_MAX / v) && Ratio(tick - 1) == CeilShift16(U128_MAX / u);
    }
  }

  lemma RoundedNear(q: nat, p: nat)
    requires 1_000_000_000_000 * q <= 1_001_500_002_700 * (p + 1)
    requires 1_001_499_997_300 * p <= 1_000_000_000_000 * (q + 1)
    ensures Near(CeilShift16(q), CeilShift16(p))
  {
  }

  const RATIO_LIMIT: nat := 0x10_0000_0000_0000_0000_0000 // 2^84

  /** Ratios are positive and fit 84 bits. */
  lemma RatioRange(tick: int)
    requires MIN_TICK <= tick <= MAX_TICK
    ensures 4_000 < Ratio(tick) < RATIO_LIMIT
  {
    FactorRange(Magnitude(tick));
    if tick > 0 {
      var f := FactorOf(tick);
      DivAntitone(U128_MAX, 300_000_000, f);
      DivAntitone(U128_MAX, f, WORD);
    }
  }

  /** `n0 * n1 >> 64`. On table factors nothing is cut off. */
  method MulShift64(n0: u128, n1: u128) returns (r: u128)
    ensures n0 <= WORD && n1 < WORD ==> r == Scale(n0, n1)
  {
    r := MulShr(n0, n1, 64);
    Pow2Wide();
    if n0 <= WORD && n1 < WORD {
      MulMono(n1, WORD, n0);
      MulMono(n0, WORD, WORD);
      Pow2Add(128, 64);
      MulShrExact(n0, n1, 64);
    }
  }

  lemma HalvesOf(n: nat, d: nat)
    requires d > 0
    ensures n / d / 2 == n / (2 * d)
  {
    var e, q := n / d, n / d / 2;
    DivBounds(n, d);
    assert e * d == 2 * q * d + e % 2 * d;
    assert q * (2 * d) == 2 * q * d;
    assert e % 2 * d <= d by { MulMono(e % 2, 1, d); }
    DivUnique(n, 2 * d, q);
  }

  /** `factor` is what the fold has reached after the bits below `mask == 2^j`. */
  ghost predicate Reached(n: nat, factor: nat, mask: nat, j: nat)
    requires mask > 0 && j <= 15
  {
    factor <= WORD && Fold(TABLE, factor, n / mask, j) == FactorOf(n)
  }

  /** One `if` of the bit cascade is one step of the fold. */
  lemma FoldBit(n: nat, before: nat, mask: nat, entry: nat, j: nat)
    requires j < 15 && mask == Pow2(j) && entry == TABLE[j] && Reached(n, before, mask, j)
    ensures entry < WORD
    ensures Reached(n, if And(n, mask) != 0 then Scale(before, entry) else before, 2 * mask, j + 1)
  {
    AndBit(n, j);
    TableIsSpaced();
    HalvesOf(n, mask);
    ScaleShrinks(before, entry);
  }

  function RatioAtTick(tick: int): Result<nat> {
    if MIN_TICK <= tick <= MAX_TICK then Ok(Ratio(tick)) else Err(TickOutOfRange)
  }

  lemma MasksArePowers()
    ensures Pow2(0) == 1 && Pow2(1) == 2 && Pow2(2) == 4 && Pow2(3) == 8 && Pow2(4) == 16
    ensures Pow2(5) == 32 && Pow2(6) == 64 && Pow2(7) == 128 && Pow2(8) == 256 && Pow2(9) == 512
    ensures Pow2(10) == 1024 && Pow2(11) == 2048 && Pow2(12) == 4096 && Pow2(13) == 8192
    ensures Pow2(14) == 16384
  {
  }

  // The fifteen `if`s of the cascade, five at a time.

  method BitsUpTo16(absTick: nat) returns (factor: u128)
    ensures Reached(absTick, factor, 32, 5)
  {
    MasksArePowers();
    FoldBit(absTick, FACTOR00, 1, FACTOR01, 0);
    factor := if And(absTick, 1) != 0 then FACTOR01 else FACTOR00;
    FoldBit(absTick, factor, 2, FACTOR02, 1);
    if And(absTick, 2) != 0 {
      factor := MulShift64(factor, FACTOR02);
    }
    FoldBit(absTick, factor, 4, FACTOR03, 2);
    if And(absTick, 4) != 0 {
      factor := MulShift64(factor, FACTOR03);
    }
    FoldBit(absTick, factor, 8, FACTOR04, 3);
    if And(absTick, 8) != 0 {
      factor := MulShift64(factor, FACTOR04);
    }
    FoldBit(absTick, factor, 16, FACTOR05, 4);
    if And(absTick, 16) != 0 {
      factor := MulShift64(factor, FACTOR05);
    }
  }

  method BitsUpTo512(absTick: nat, start: u128) returns (factor: u128)
    requires Reached(absTick, start, 32, 5)
    ensures Reached(absTick, factor, 1024, 10)
  {
    MasksArePowers();
    factor := start;
    FoldBit(absTick, factor, 32, FACTOR06, 5);
    if And(absTick, 32) != 0 {
      factor := MulShift64(factor, FACTOR06);
    }
    FoldBit(absTick, factor, 64, FACTOR07, 6);
    if And(absTick, 64) != 0 {
      factor := MulShift64(factor, FACTOR07);
    }
    FoldBit(absTick, factor, 128, FACTOR08, 7);
    if And(absTick, 128) != 0 {
      factor := MulShift64(factor, FACTOR08);
    }
    FoldBit(absTick, factor, 256, FACTOR09, 8);
    if And(absTick, 256) != 0 {
      factor := MulShift64(factor, FACTOR09);
    }
    FoldBit(absTick, factor, 512, FACTOR10, 9);
    if And(absTick, 512) != 0 {
      factor := MulShift64(factor, FACTOR10);
    }
  }

  method BitsUpTo16384(absTick: nat, start: u128) returns (factor: u128)
    requires Reached(absTick, start, 1024, 10)
    ensures Reached(absTick, factor, 32768, 15)
  {
    MasksArePowers();
    factor := start;
    FoldBit(absTick, factor, 1024, FACTOR11, 10);
    if And(absTick, 1024) != 0 {
      factor := MulShift64(factor, FACTOR11);
    }
    FoldBit(absTick, factor, 2048, FACTOR12, 11);
    if And(absTick, 2048) != 0 {
      factor := MulShift64(factor, FACTOR12);
    }
    FoldBit(absTick, factor, 4096, FACTOR13, 12);
    if And(absTick, 4096) != 0 {
      factor := MulShift64(factor, FACTOR13);
    }
    FoldBit(absTick, factor, 8192, FACTOR14, 13);
    if And(absTick, 8192) != 0 {
      factor := MulShift64(factor, FACTOR14);
    }
    FoldBit(absTick, factor, 16384, FACTOR15, 14);
    if And(absTick, 16384) != 0 {
      factor := MulShift64(factor, FACTOR15);
    }
  }

  /** The program's bit cascade computes exactly `Ratio`, with no overflow on the way. */
  method GetRatioAtTick(tick: i32) returns (r: Result<nat>)
    ensures r == RatioAtTick(tick)
  {
    if !(tick >= MIN_TICK && tick <= MAX_TICK) {
      return Err(TickOutOfRange);
    }
    var absTick := Magnitude(tick);
    var factor := BitsUpTo16(absTick);
    factor := BitsUpTo512(absTick, factor);
    factor := BitsUpTo16384(absTick, factor);
    FactorRange(absTick);
    var precision := 0;
    if tick > 0 {
      factor := U128_MAX / factor;
      if factor % 65536 != 0 {
        precision := 1;
      }
    }
    ShiftBy16(factor);
    return Ok(Shr(factor, 16) + precision);
  }

  lemma ShiftBy16(x: nat)
    ensures Shr(x, 16) == x / 0x1_0000
  {
    Pow2To48();
  }

  // ---------------------------------------------------------------- debt at a tick

  function NormalizeTick(tick: i32): i32 {
    if tick == INIT_TICK then MIN_TICK else tick
  }

  /** The seed value of a Tick address. `t + TICK_PDA_OFFSET` is a checked `i32` addition. */
  function TickPdaSeed(tick: i32): Result<u32> {
    var t := NormalizeTick(tick) + TICK_PDA_OFFSET;
    if t >= 0x8000_0000 then Err(Panic) else Ok(if t < 0 then t + 0x1_0000_0000 else t)
  }

  /** `ratio * col >> 48`, as the program computes it. */
  function DebtRawAtTick(tick: i32, col: u64): Result<u64> {
    var t := NormalizeTick(tick);
    if t <= MIN_TICK then Ok(0)
    else
      var ratio :- RatioAtTick(t);
      RatioRange(t);
      ToU64(MulShr(ratio, col, 48), TickOutOfRange)
  }

  /** `(ratio * (col + 1) >> 48) + 1` with a saturating final addition, as the program computes it. */
  function LiquidationDebtRawAtTick(tick: i32, col: u64): Result<u64> {
    var t := NormalizeTick(tick);
    if t <= MIN_TICK then Ok(0)
    else
      var ratio :- RatioAtTick(t);
      RatioRange(t);
      ToU64(SaturatingIncrement(MulShr(ratio, col + 1, 48)), TickOutOfRange)
  }

  function SaturatingIncrement(x: u128): u128 {
    if x == U128_MAX then x else x + 1
  }

  /** Debt of `units` of collateral at an in-range tick, in plain arithmetic. */
  function DebtOf(tick: int, units: nat): nat {
    Ratio(tick) * units / ZERO_TICK_SCALED_RATIO
  }

  function ShownDebt(tick: i32, col: u64): Result<u64> {
    var t := NormalizeTick(tick);
    if t <= MIN_TICK then Ok(0)
    else if t > MAX_TICK then Err(TickOutOfRange)
    else ToU64(DebtOf(t, col), TickOutOfRange)
  }

  function LiquidationDebt(tick: i32, col: u64): Result<u64> {
    var t := NormalizeTick(tick);
    if t <= MIN_TICK then Ok(0)
    else if t > MAX_TICK then Err(TickOutOfRange)
    else ToU64(DebtOf(t, col + 1) + 1, TickOutOfRange)
  }

  /** On any in-range tick and up to 2^64 units, the 256-bit product and shift are exact. */
  lemma MulShrIsDebtOf(tick: int, units: u128)
    requires MIN_TICK <= tick <= MAX_TICK && units <= WORD
    ensures Ratio(tick) <= U128_MAX
    ensures MulShr(Ratio(tick), units, 48) == DebtOf(tick, units) < U128_MAX
  {
    RatioRange(tick);
    var p := Ratio(tick) * units;
    assert p <= RATIO_LIMIT * WORD by {
      MulMono(Ratio(tick), RATIO_LIMIT, units);
      MulMono(units, WORD, RATIO_LIMIT);
    }
    assert p < Pow2(176) by {
      Pow2To48();
      Pow2Wide();
      Pow2Add(128, 48);
    }
    MulShrExact(Ratio(tick), units, 48);
    Pow2To48();
    DivMono(p, RATIO_LIMIT * WORD, ZERO_TICK_SCALED_RATIO);
  }

  /** The machine-width shown debt is the plain one, errors included. */
  lemma DebtFormulaExact(tick: i32, col: u64)
    ensures DebtRawAtTick(tick, col) == ShownDebt(tick, col)
  {
    var t := NormalizeTick(tick);
    if MIN_TICK < t <= MAX_TICK {
      MulShrIsDebtOf(t, col);
      assert RatioAtTick(t) == Ok(Ratio(t));
    }
  }

  /** The machine-width liquidation debt is the plain one; its saturating addition never saturates. */
  lemma LiquidationFormulaExact(tick: i32, col: u64)
    ensures LiquidationDebtRawAtTick(tick, col) == LiquidationDebt(tick, col)
  {
    var t := NormalizeTick(tick);
    if MIN_TICK < t <= MAX_TICK {
      assert RatioAtTick(t) == Ok(Ratio(t));
      MulShrIsDebtOf(t, col + 1);
      var debt := MulShr(Ratio(t), col + 1, 48);
      assert SaturatingIncrement(debt) == DebtOf(t, col + 1) + 1;
      assert LiquidationDebtRawAtTick(tick, col) == ToU64(SaturatingIncrement(debt), TickOutOfRange);
    }
  }

  lemma DebtOfMonotone(low: int, high: int, c: nat, d: nat)
    requires MIN_TICK <= low <= high <= MAX_TICK && c <= d
    ensures DebtOf(low, c) <= DebtOf(high, d)
  {
    if low < high {
      RatioStrictlyIncreasing(low, high);
    }
    MulMono(Ratio(low), Ratio(high), c);
    MulMono(c, d, Ratio(high));
    DivMono(Ratio(low) * c, Ratio(high) * d, ZERO_TICK_SCALED_RATIO);
  }

  /**
   * Debt never decreases when the tick or the collateral goes up, and success at the larger
   * pair implies success at the smaller one, for every `i32` tick and `u64` amount.
   */
  lemma DebtMonotone(low: i32, high: i32, c: u64, d: u64)
    requires NormalizeTick(low) <= NormalizeTick(high) && c <= d
    ensures ShownDebt(high, d).Ok? ==>
              ShownDebt(low, c).Ok? && ShownDebt(low, c).value <= ShownDebt(high, d).value
    ensures LiquidationDebt(high, d).Ok? ==>
              LiquidationDebt(low, c).Ok? && LiquidationDebt(low, c).value <= LiquidationDebt(high, d).value
  {
    var s, t := NormalizeTick(low), NormalizeTick(high);
    if MIN_TICK < s && t <= MAX_TICK {
      DebtOfMonotone(s, t, c, d);
      DebtOfMonotone(s, t, c + 1, d + 1);
    }
  }

  /** Above the bottom tick a liquidation walk starts at least one unit above the shown debt. */
  lemma LiquidationStartsHigher(tick: i32, col: u64)
    requires NormalizeTick(tick) > MIN_TICK && LiquidationDebt(tick, col).Ok?
    ensures ShownDebt(tick, col).Ok? && ShownDebt(tick, col).value + 1 <= LiquidationDebt(tick, col).value
  {
    DebtOfMonotone(NormalizeTick(tick), NormalizeTick(tick), col, col + 1);
  }

  // ---------------------------------------------------------------- the formulas by their bounds

  /** Ratios are rounded down up to tick 0 and up above it, each from the factor of the magnitude. */
  lemma RatioIsRounded(tick: int)
    requires MIN_TICK <= tick <= MAX_TICK
    ensures FactorOf(Magnitude(tick)) > 0
    ensures tick <= 0 ==> Ratio(tick) * 0x1_0000 <= FactorOf(-tick) < (Ratio(tick) + 1) * 0x1_0000
    ensures tick > 0 ==> (Ratio(tick) - 1) * 0x1_0000 < U128_MAX / FactorOf(tick) <= Ratio(tick) * 0x1_0000
  {
    FactorRange(Magnitude(tick));
  }

  /** The sentinel tick stands for the bottom one, every other tick for itself. */
  lemma TickIsNormalized(tick: i32)
    ensures NormalizeTick(tick) == if tick == -0x8000_0000 then -16_383 else tick
  {
  }

  lemma FloorBounds(a: nat, b: nat, d: nat)
    requires d > 0
    ensures a * b / d * d <= a * b < (a * b / d + 1) * d
  {
    DivNext(a * b, d);
  }

  /**
   * Both debts by their bounds: the shown debt is ratio times collateral over 2^48 rounded down,
   * the liquidation debt takes one unit of collateral more and is the next whole number above.
   */
  lemma DebtsAreRounded(tick: i32, col: u64)
    ensures NormalizeTick(tick) <= -16_383 ==> ShownDebt(tick, col) == Ok(0) == LiquidationDebt(tick, col)
    ensures NormalizeTick(tick) > 16_383 ==> ShownDebt(tick, col) == Err(TickOutOfRange) == LiquidationDebt(tick, col)
    ensures -16_383 < NormalizeTick(tick) <= 16_383 ==>
              var ratio, shown, start := Ratio(NormalizeTick(tick)), ShownDebt(tick, col), LiquidationDebt(tick, col);
              && (shown.Ok? ==> shown.value * 0x1_0000_0000_0000 <= ratio * col < (shown.value + 1) * 0x1_0000_0000_0000)
              && (shown.Err? ==> shown.error == TickOutOfRange
                                 && ratio * col >= 0x1_0000_0000_0000_0000 * 0x1_0000_0000_0000)
              && (start.Ok? ==> (start.value - 1) * 0x1_0000_0000_0000 <= ratio * (col + 1) < start.value * 0x1_0000_0000_0000)
              && (start.Err? ==> start.error == TickOutOfRange
                                 && ratio * (col + 1) >= (0x1_0000_0000_0000_0000 - 1) * 0x1_0000_0000_0000)
  {
    var t := NormalizeTick(tick);
    if MIN_TICK < t <= MAX_TICK {
      FloorBounds(Ratio(t), col, ZERO_TICK_SCALED_RATIO);
      FloorBounds(Ratio(t), col + 1, ZERO_TICK_SCALED_RATIO);
    }
  }
}
