/**
 * The live-position engine: follow merged branches while compounding the connection factor,
 * scale the stored debt, and read collateral back at the branch's lowest point.
 */
module LivePosition {
  import opened Outcome
  import opened Bits
  import opened DebtFactor
  import opened TickMath
  import opened JupiterAccounts
  import WideMul

  const BRANCH_MERGED := 2
  const BRANCH_CLOSED := 3
  const MAX_BRANCH_HOPS := 32

  datatype Branch = Branch(
    status: u8,
    minimaTick: i32,
    minimaTickPartials: u32,
    debtFactor: u64,
    connectedBranchId: u32
  )

  datatype LivePosition = LivePosition(tick: i32, colRaw: u64, debtRaw: u64, branchId: u32)

  /** Decoding of a branch by id; any failure is the lookup's own error. */
  type Lookup = u32 -> Result<Branch>

  datatype LiquidationRecord = LiquidationRecord(isFullyLiquidated: bool, branchId: u32, connectionFactor: u64)

  /**
   * The record of one position id: in the Tick while it still holds that id, else in slot
   * `(id + 2) % 3` of the flushed account; a missing account reads as not liquidated.
   */
  function RecordOf(positionTickId: u32, tick: JupiterTick, flushed: Option<JupiterTickIdLiquidation>): LiquidationRecord
    requires flushed.Some? ==> |flushed.value.slots| == 3
  {
    if tick.totalIds == positionTickId then
      LiquidationRecord(tick.isFullyLiquidated == 1, tick.liquidationBranchId, tick.debtFactor)
    else if flushed.None? then LiquidationRecord(false, 0, 0)
    else
      var slot := flushed.value.slots[(positionTickId + 2) % 3];
      LiquidationRecord(slot.isFullyLiquidated == 1, slot.liquidationBranchId, slot.debtFactor)
  }

  // ---------------------------------------------------------------- collateral at the minimum

  function CheckedMul(a: nat, b: nat): Result<nat> {
    if a * b <= WideMul.U128_MAX then Ok(a * b) else Err(DebtFactorOverflow)
  }

  /** `collateral_at_branch_minima`: interpolate between two tick ratios and divide the debt by it. */
  function CollateralAtBranchMinima(minimaTick: i32, partials: u32, debtRaw: u64): Result<u64> {
    var ratio :- RatioAtTick(minimaTick);
    var raised :- CheckedMul(ratio, FOUR_DECIMALS);
    var below := raised / TICK_SPACING;
    if ratio < below then Err(Panic)
    else
      var part :- CheckedMul(ratio - below, partials);
      var interpolated := below + part / X30;
      if interpolated == 0 then Err(TickOutOfRange)
      else
        var debt :- CheckedMul(debtRaw, ZERO_TICK_SCALED_RATIO);
        ToU64(debt / interpolated, DebtFactorOverflow)
  }

  function RatioBelow(tick: int): nat {
    Ratio(tick) * FOUR_DECIMALS / TICK_SPACING
  }

  /**
   * Dividing by 1.0015 is one tick down: what the program takes for the ratio below is the ratio
   * of the tick below, up to one part in 3 * 10^8 and four units, over the whole tick range.
   */
  lemma RatioBelowIsTickBelow(tick: int)
    requires MIN_TICK < tick <= MAX_TICK
    ensures var slack := Ratio(tick - 1) + 4 * 300_000_000;
            -slack <= 300_000_000 * (RatioBelow(tick) - Ratio(tick - 1)) <= slack
  {
    NeighbouringRatios(tick);
  }

  /** The interpolated ratio in plain arithmetic. */
  function RatioBetween(tick: int, partials: nat): int {
    RatioBelow(tick) + (Ratio(tick) - RatioBelow(tick)) * partials / X30
  }

  lemma StepRange(span: nat, partials: nat, one: nat)
    requires one > 0
    ensures span * partials / one >= 0
    ensures partials <= one ==> span * partials / one <= span
    ensures partials == one ==> span * partials / one == span
  {
    DivUnique(span * one, one, span);
    if partials <= one {
      MulMono(partials, one, span);
      DivMono(span * partials, span * one, one);
    }
  }

  lemma RatioBetweenRange(tick: int, partials: nat)
    requires MIN_TICK <= tick <= MAX_TICK
    ensures 0 < RatioBelow(tick) <= Ratio(tick)
    ensures RatioBelow(tick) <= RatioBetween(tick, partials)
    ensures partials <= X30 ==> RatioBetween(tick, partials) <= Ratio(tick)
    ensures partials == X30 ==> RatioBetween(tick, partials) == Ratio(tick)
  {
    RatioRange(tick);
    StepRange(Ratio(tick) - RatioBelow(tick), partials, X30);
  }

  /**
   * For every in-range tick, every `u32` of partials and every `u64` debt no checked operation
   * fails: the only reachable error is the final 64-bit conversion.
   */
  lemma CollateralExact(tick: i32, partials: u32, debtRaw: u64)
    requires MIN_TICK <= tick <= MAX_TICK
    ensures RatioBetween(tick, partials) > 0
    ensures CollateralAtBranchMinima(tick, partials, debtRaw)
         == ToU64(MulDiv(debtRaw, ZERO_TICK_SCALED_RATIO, RatioBetween(tick, partials)), DebtFactorOverflow)
  {
    RatioRange(tick);
    RatioBetweenRange(tick, partials);
    var span := Ratio(tick) - RatioBelow(tick);
    assert span * partials <= RATIO_LIMIT * 0x1_0000_0000 by {
      MulMono(span, RATIO_LIMIT, partials);
      MulMono(partials, 0x1_0000_0000, RATIO_LIMIT);
    }
  }

  /** The interpolation rounds down, both the ratio below and the step from it. */
  lemma InterpolationIsFloor(tick: int, partials: nat)
    requires MIN_TICK <= tick <= MAX_TICK
    ensures RatioBelow(tick) * 10_015 <= Ratio(tick) * 10_000 < (RatioBelow(tick) + 1) * 10_015
    ensures var step := RatioBetween(tick, partials) - RatioBelow(tick);
            step * 0x3fff_ffff <= (Ratio(tick) - RatioBelow(tick)) * partials < (step + 1) * 0x3fff_ffff
  {
    RatioBetweenRange(tick, partials);
    FloorBounds(Ratio(tick) - RatioBelow(tick), partials, X30);
  }

  /** And so does the division of the debt by it. */
  lemma CollateralIsFloor(tick: i32, partials: u32, debtRaw: u64)
    ensures tick < -16_383 || tick > 16_383 ==>
              CollateralAtBranchMinima(tick, partials, debtRaw) == Err(TickOutOfRange)
    ensures MIN_TICK <= tick <= MAX_TICK && CollateralAtBranchMinima(tick, partials, debtRaw).Ok? ==>
              var col, ratio := CollateralAtBranchMinima(tick, partials, debtRaw).value, RatioBetween(tick, partials);
              col * ratio <= debtRaw * 0x1_0000_0000_0000 < (col + 1) * ratio
  {
    if MIN_TICK <= tick <= MAX_TICK {
      CollateralExact(tick, partials, debtRaw);
      DivNext(debtRaw * ZERO_TICK_SCALED_RATIO, RatioBetween(tick, partials));
    }
  }

  /** Collateral falls (weakly) as the branch goes deeper into a tick and rises with the debt. */
  lemma CollateralMonotone(tick: i32, p: u32, q: u32, debt: u64, more: u64)
    requires MIN_TICK <= tick <= MAX_TICK && p <= q && debt <= more
    requires CollateralAtBranchMinima(tick, p, more).Ok?
    ensures CollateralAtBranchMinima(tick, q, debt).Ok?
    ensures CollateralAtBranchMinima(tick, q, debt).value <= CollateralAtBranchMinima(tick, p, more).value
  {
    CollateralExact(tick, p, more);
    CollateralExact(tick, q, debt);
    RatioBetweenRange(tick, p);
    var span := Ratio(tick) - RatioBelow(tick);
    MulMono(p, q, span);
    DivMono(span * p, span * q, X30);
    DivMono(debt * ZERO_TICK_SCALED_RATIO, more * ZERO_TICK_SCALED_RATIO, RatioBetween(tick, q));
    DivAntitone(more * ZERO_TICK_SCALED_RATIO, RatioBetween(tick, p), RatioBetween(tick, q));
  }

  // ---------------------------------------------------------------- near-inverse of the debt

  lemma ReadBackBounds(ratio: nat, units: nat, one: nat)
    requires ratio > 0 && one > 0
    ensures MulDiv(ratio * units / one, one, ratio) <= units
    ensures MulDiv(ratio * units / one + 1, one, ratio) >= units
  {
    var debt := ratio * units / one;
    DivBounds(ratio * units, one);
    DivMono(debt * one, units * ratio, ratio);
    DivUnique(units * ratio, ratio, units);
    assert (debt + 1) * one == debt * one + one;
    DivGe((debt + 1) * one, ratio, units);
  }

  /** Reading collateral back from the shown debt never gives more than went in. */
  lemma ShownDebtReadsBackAtMost(tick: i32, col: u64)
    requires MIN_TICK < NormalizeTick(tick) && ShownDebt(tick, col).Ok?
    ensures var back := CollateralAtBranchMinima(NormalizeTick(tick), X30, ShownDebt(tick, col).value);
            back.Ok? && back.value <= col
  {
    var t := NormalizeTick(tick);
    RatioRange(t);
    ReadBackBounds(Ratio(t), col, ZERO_TICK_SCALED_RATIO);
    RatioBetweenRange(t, X30);
    CollateralExact(t, X30, ShownDebt(tick, col).value);
  }

  /** Reading it back from the liquidation debt gives at least one unit more. */
  lemma LiquidationDebtReadsBackMore(tick: i32, col: u64)
    requires MIN_TICK < NormalizeTick(tick) && LiquidationDebt(tick, col).Ok?
    ensures var back := CollateralAtBranchMinima(NormalizeTick(tick), X30, LiquidationDebt(tick, col).value);
            back.Ok? ==> back.value >= col + 1
  {
    var t := NormalizeTick(tick);
    RatioRange(t);
    ReadBackBounds(Ratio(t), col + 1, ZERO_TICK_SCALED_RATIO);
    RatioBetweenRange(t, X30);
    CollateralExact(t, X30, LiquidationDebt(tick, col).value);
  }

  /** Debt recomputed from read-back collateral never exceeds the debt it came from. */
  lemma RecomputedDebtAtMost(tick: i32, debt: u64)
    requires MIN_TICK < tick <= MAX_TICK
    requires CollateralAtBranchMinima(tick, X30, debt).Ok?
    ensures var again := ShownDebt(tick, CollateralAtBranchMinima(tick, X30, debt).value);
            again.Ok? && again.value <= debt
  {
    RatioRange(tick);
    RatioBetweenRange(tick, X30);
    CollateralExact(tick, X30, debt);
    FloorBack(debt, ZERO_TICK_SCALED_RATIO, Ratio(tick));
  }

  lemma FloorBack(debt: nat, one: nat, ratio: nat)
    requires one > 0 && ratio > 0
    ensures ratio * MulDiv(debt, one, ratio) / one <= debt
  {
    DivBounds(debt * one, ratio);
    DivMono(ratio * MulDiv(debt, one, ratio), debt * one, one);
    DivUnique(debt * one, one, debt);
  }

  // ---------------------------------------------------------------- the walk

  /** Where the chain of merged branches ends, and the connection factor compounded on the way. */
  datatype WalkEnd = WalkEnd(id: u32, branch: Branch, factor: u64)

  /** The chain as a recursion: one merged branch, one hop. At most 32 hops on any map, cyclic or not. */
  function WalkFrom(lookup: Lookup, id: u32, branch: Branch, factor: u64, hops: nat): Result<WalkEnd>
    requires hops <= MAX_BRANCH_HOPS
    decreases MAX_BRANCH_HOPS - hops, id // `id` keeps the verifier from unrolling all hops
  {
    if branch.status != BRANCH_MERGED then Ok(WalkEnd(id, branch, factor))
    else
      var compounded :- Product(factor, branch.debtFactor);
      if compounded == MAX_DEBT_FACTOR then Ok(WalkEnd(id, branch, compounded))
      else
        var next :- lookup(branch.connectedBranchId);
        if hops == MAX_BRANCH_HOPS then Err(BranchChainTooLong)
        else WalkFrom(lookup, branch.connectedBranchId, next, compounded, hops + 1)
  }

  function NothingLeft(id: u32): LivePosition {
    LivePosition(MIN_TICK, 0, 0, id)
  }

  /** Debt kept after the 1% floor and the 0.01% buffer. */
  function AfterHaircut(scaled: nat, stored: nat): nat {
    if scaled > stored / 100 then scaled * 9_999 / 10_000 else 0
  }

  function Settle(end: WalkEnd, stored: u64): Result<LivePosition> {
    if end.branch.status == BRANCH_CLOSED || end.factor == MAX_DEBT_FACTOR then Ok(NothingLeft(end.id))
    else
      var scaled :- Scaled(stored, end.branch.debtFactor, end.factor);
      var debtRaw := AfterHaircut(scaled, stored);
      if debtRaw == 0 then Ok(NothingLeft(end.id))
      else
        var colRaw :- CollateralAtBranchMinima(end.branch.minimaTick, end.branch.minimaTickPartials, debtRaw);
        Ok(LivePosition(end.branch.minimaTick, colRaw, debtRaw, end.id))
  }

  function Walk(start: u32, factor: u64, stored: u64, lookup: Lookup): Result<LivePosition> {
    var first :- lookup(start);
    var end :- WalkFrom(lookup, start, first, factor, 0);
    Settle(end, stored)
  }

  /** The program's loop over mutable branch, factor and hop count is the recursion above. */
  method WalkBranches(start: u32, startFactor: u64, storedDebtRaw: u64, branchById: Lookup)
    returns (r: Result<LivePosition>)
    ensures r == Walk(start, startFactor, storedDebtRaw, branchById)
  {
    var branchId := start;
    var branch :- branchById(branchId);
    var connectionFactor := startFactor;
    ghost var whole := WalkFrom(branchById, start, branch, startFactor, 0);

    var hops := 0;
    while branch.status == BRANCH_MERGED
      invariant hops <= MAX_BRANCH_HOPS
      invariant WalkFrom(branchById, branchId, branch, connectionFactor, hops) == whole
      decreases MAX_BRANCH_HOPS - hops
    {
      MulDebtFactorsExact(connectionFactor, branch.debtFactor);
      ghost var before := connectionFactor;
      connectionFactor :- MulDebtFactors(connectionFactor, branch.debtFactor);
      if connectionFactor == MAX_DEBT_FACTOR {
        assert whole == Ok(WalkEnd(branchId, branch, connectionFactor));
        return Ok(NothingLeft(branchId));
      }
      branchId := branch.connectedBranchId;
      branch :- branchById(branchId);
      hops := hops + 1;
      if !(hops <= MAX_BRANCH_HOPS) {
        return Err(BranchChainTooLong);
      }
    }
    assert whole == Ok(WalkEnd(branchId, branch, connectionFactor));

    if branch.status == BRANCH_CLOSED || connectionFactor == MAX_DEBT_FACTOR {
      return Ok(NothingLeft(branchId));
    }
    MulDivDebtFactorsExact(storedDebtRaw, branch.debtFactor, connectionFactor);
    var scaled :- MulDivDebtFactors(storedDebtRaw, branch.debtFactor, connectionFactor);
    var debtRaw := if scaled > storedDebtRaw / 100 then scaled * 9_999 / 10_000 else 0;
    if debtRaw == 0 {
      return Ok(NothingLeft(branchId));
    }
    var colRaw :- CollateralAtBranchMinima(branch.minimaTick, branch.minimaTickPartials, debtRaw);
    return Ok(LivePosition(branch.minimaTick, colRaw, debtRaw, branchId));
  }

  // ---------------------------------------------------------------- chains

  /** `p` follows merged branches: every branch but the last is merged into its successor. */
  ghost predicate IsChain(lookup: Lookup, p: seq<u32>) {
    && |p| > 0
    && (forall i :: 0 <= i < |p| ==> lookup(p[i]).Ok?)
    && forall i :: 0 <= i < |p| - 1 ==> Links(lookup, p[i], p[i + 1])
  }

  ghost predicate Links(lookup: Lookup, id: u32, next: u32) {
    && lookup(id).Ok?
    && lookup(id).value.status == BRANCH_MERGED
    && lookup(id).value.connectedBranchId == next
  }

  /** Links are deterministic: equal ids have equal successors. */
  lemma {:induction false} ChainShift(lookup: Lookup, p: seq<u32>, i: nat, j: nat, k: nat)
    requires IsChain(lookup, p) && i < j && j + k < |p| && p[i] == p[j]
    ensures p[i + k] == p[j + k]
    decreases k
  {
    if k > 0 {
      ChainShift(lookup, p, i, j, k - 1);
      assert Links(lookup, p[i + k - 1], p[i + k - 1 + 1]);
      assert Links(lookup, p[j + k - 1], p[j + k - 1 + 1]);
    }
  }

  /** A chain that ends at a branch that is not merged never repeats an id. */
  lemma ChainDistinct(lookup: Lookup, p: seq<u32>)
    requires IsChain(lookup, p) && lookup(p[|p| - 1]).value.status != BRANCH_MERGED
    ensures forall i, j :: 0 <= i < j < |p| ==> p[i] != p[j]
  {
    forall i, j | 0 <= i < j < |p|
      ensures p[i] != p[j]
    {
      if p[i] == p[j] {
        var k := |p| - 1 - j;
        assert Links(lookup, p[i + k], p[i + k + 1]);
        ChainShift(lookup, p, i, j, k);
        assert false;
      }
    }
  }

  /** Two chains from the same branch agree as far as both go. */
  lemma {:induction false} ChainsAgree(lookup: Lookup, p: seq<u32>, q: seq<u32>, k: nat)
    requires IsChain(lookup, p) && IsChain(lookup, q) && p[0] == q[0] && k < |p| && k < |q|
    ensures p[k] == q[k]
    decreases k
  {
    if k > 0 {
      ChainsAgree(lookup, p, q, k - 1);
      assert Links(lookup, p[k - 1], p[k - 1 + 1]);
      assert Links(lookup, q[k - 1], q[k - 1 + 1]);
    }
  }

  // ---------------------------------------------------------------- compounding error

  function Power(base: nat, n: nat): nat {
    if n == 0 then 1 else base * Power(base, n - 1)
  }

  /** Product of the values of every hop of a chain, last branch excluded. */
  ghost function HopValues(lookup: Lookup, p: seq<u32>): nat
    requires IsChain(lookup, p)
    decreases |p|
  {
    if |p| == 1 then 1
    else
      ChainTail(lookup, p);
      Value(lookup(p[0]).value.debtFactor) * HopValues(lookup, p[1..])
  }

  lemma ChainTail(lookup: Lookup, p: seq<u32>)
    requires IsChain(lookup, p) && |p| > 1
    ensures IsChain(lookup, p[1..])
  {
    forall i | 0 <= i < |p[1..]| - 1
      ensures Links(lookup, p[1..][i], p[1..][i + 1])
    {
      assert Links(lookup, p[i + 1], p[i + 1 + 1]);
    }
  }

  lemma ChainCons(lookup: Lookup, id: u32, p: seq<u32>)
    requires IsChain(lookup, p) && Links(lookup, id, p[0])
    ensures IsChain(lookup, [id] + p) && ([id] + p)[1..] == p
  {
    var q := [id] + p;
    forall i | 0 <= i < |q| - 1
      ensures Links(lookup, q[i], q[i + 1])
    {
      if i > 0 {
        assert Links(lookup, p[i - 1], p[i - 1 + 1]);
      }
    }
  }

  const K: nat := 0x4_0000_0000 // 2^34

  /** `end` is `exact / unit^n` up to one part in 2^34 per hop, never above it. */
  ghost predicate Compounded(end: nat, exact: nat, unit: nat, n: nat) {
    && end * Power(unit, n) <= exact
    && exact * Power(K, n) <= end * Power(unit, n) * Power(K + 1, n)
  }

  /** One more hop in front of a compounded tail. */
  lemma CompoundOneMore(end: nat, mid: nat, tail: nat, head: nat, unit: nat, n: nat)
    requires Compounded(end, mid * tail, unit, n)
    requires mid * unit <= head && head * K <= mid * unit * (K + 1)
    ensures Compounded(end, head * tail, unit, n + 1)
  {
    CompoundBelow(end, mid, tail, head, unit, Power(unit, n));
    CompoundAbove(end, mid, tail, head, unit, Power(unit, n), Power(K, n), Power(K + 1, n), K);
  }

  lemma CompoundBelow(end: nat, mid: nat, tail: nat, head: nat, unit: nat, un: nat)
    requires end * un <= mid * tail && mid * unit <= head
    ensures end * (unit * un) <= head * tail
  {
    calc {
      end * (unit * un);
      end * un * unit;
    <= { MulMono(end * un, mid * tail, unit); }
      mid * tail * unit;
      mid * unit * tail;
    <= { MulMono(mid * unit, head, tail); }
      head * tail;
    }
  }

  lemma CompoundAbove(end: nat, mid: nat, tail: nat, head: nat, unit: nat, un: nat, kn: nat, ln: nat, k: nat)
    requires mid * tail * kn <= end * un * ln && head * k <= mid * unit * (k + 1)
    ensures head * tail * (k * kn) <= end * (unit * un) * ((k + 1) * ln)
  {
    calc {
      head * tail * (k * kn);
      { FourFactors(head, tail, k, kn); }
      head * k * (tail * kn);
    <= { MulMono(head * k, mid * unit * (k + 1), tail * kn); }
      mid * unit * (k + 1) * (tail * kn);
      { Shuffle(mid, unit, k + 1, tail, kn); }
      mid * tail * kn * (unit * (k + 1));
    <= { MulMono(mid * tail * kn, end * un * ln, unit * (k + 1)); }
      end * un * ln * (unit * (k + 1));
      { Shuffle(end, unit, k + 1, un, ln); }
      end * (unit * un) * ((k + 1) * ln);
    }
  }

  lemma FourFactors(a: nat, b: nat, c: nat, d: nat)
    ensures a * b * (c * d) == a * c * (b * d)
  {
  }

  lemma CompoundHop(end: nat, mid: nat, tail: nat, factor: nat, hop: nat, unit: nat, n: nat)
    requires Compounded(end, mid * tail, unit, n)
    requires mid * unit <= factor * hop && factor * hop * K <= mid * unit * (K + 1)
    ensures Compounded(end, factor * (hop * tail), unit, n + 1)
  {
    CompoundOneMore(end, mid, tail, factor * hop, unit, n);
    assert factor * hop * tail == factor * (hop * tail);
  }

  lemma Shuffle(a: nat, b: nat, c: nat, d: nat, e: nat)
    ensures a * b * c * (d * e) == a * d * e * (b * c)
    ensures a * d * e * (b * c) == a * (b * d) * (c * e)
  {
    assert a * b * c * (d * e) == a * (b * c) * (d * e);
    assert a * d * e == a * (d * e);
    assert (b * d) * (c * e) == b * c * (d * e);
  }

  /** Every merged branch carries a factor the vault could have written. */
  ghost predicate VaultWritten(lookup: Lookup) {
    forall id: u32 :: lookup(id).Ok? && lookup(id).value.status == BRANCH_MERGED ==>
                        Normalised(lookup(id).value.debtFactor)
  }

  /** The connection factor `end` at the far end of a chain entered with `factor`. */
  ghost predicate CompoundedAlong(lookup: Lookup, p: seq<u32>, factor: u64, end: u64)
    requires IsChain(lookup, p)
  {
    Normalised(end) && Compounded(Value(end), Times(Value(factor), HopValues(lookup, p)), UNIT, |p| - 1)
  }

  lemma CompoundedHop(lookup: Lookup, id: u32, p: seq<u32>, factor: u64, end: u64)
    requires IsChain(lookup, p) && Links(lookup, id, p[0]) && IsChain(lookup, [id] + p)
    requires Normalised(factor) && Normalised(lookup(id).value.debtFactor)
    requires Product(factor, lookup(id).value.debtFactor).Ok?
    requires Product(factor, lookup(id).value.debtFactor).value != MAX_DEBT_FACTOR
    requires CompoundedAlong(lookup, p, Product(factor, lookup(id).value.debtFactor).value, end)
    ensures CompoundedAlong(lookup, [id] + p, factor, end)
  {
    var hop := lookup(id).value.debtFactor;
    var mid := Product(factor, hop).value;
    ProductError(factor, hop);
    CompoundHop(Value(end), Value(mid), HopValues(lookup, p), Value(factor), Value(hop), UNIT, |p| - 1);
    ChainCons(lookup, id, p);
  }

  /** A walk that ends at a branch that is not merged visited a chain, and compounded along it. */
  lemma {:induction false} WalkTrace(lookup: Lookup, id: u32, branch: Branch, factor: u64, hops: nat)
    returns (p: seq<u32>)
    requires hops <= MAX_BRANCH_HOPS && lookup(id) == Ok(branch)
    requires WalkFrom(lookup, id, branch, factor, hops).Ok?
    requires WalkFrom(lookup, id, branch, factor, hops).value.branch.status != BRANCH_MERGED
    ensures var end := WalkFrom(lookup, id, branch, factor, hops).value;
            && IsChain(lookup, p) && p[0] == id && p[|p| - 1] == end.id && |p| <= MAX_BRANCH_HOPS + 1 - hops
            && lookup(end.id) == Ok(end.branch)
            && (VaultWritten(lookup) && Normalised(factor) ==> CompoundedAlong(lookup, p, factor, end.factor))
    decreases MAX_BRANCH_HOPS - hops
  {
    if branch.status != BRANCH_MERGED {
      p := [id];
      assert Power(UNIT, 0) == 1 && Power(K, 0) == 1 && Power(K + 1, 0) == 1;
    } else {
      var mid := Product(factor, branch.debtFactor).value;
      var nextId := branch.connectedBranchId;
      var rest := WalkTrace(lookup, nextId, lookup(nextId).value, mid, hops + 1);
      ChainCons(lookup, id, rest);
      p := [id] + rest;
      if VaultWritten(lookup) && Normalised(factor) {
        ProductClosed(factor, branch.debtFactor);
        CompoundedHop(lookup, id, rest, factor, WalkFrom(lookup, id, branch, factor, hops).value.factor);
      }
    }
  }

  /**
   * A live result with debt comes from a chain of at most 33 distinct branches that ends at a
   * branch neither merged nor closed; its debt is the haircut of a scaled amount, and its tick and
   * collateral are read at that branch's lowest point, for that debt.
   */
  lemma LiveWalk(lookup: Lookup, start: u32, factor: u64, stored: u64)
    returns (p: seq<u32>, end: WalkEnd, scaled: u64)
    requires Walk(start, factor, stored, lookup).Ok? && Walk(start, factor, stored, lookup).value.debtRaw > 0
    ensures var live := Walk(start, factor, stored, lookup).value;
            && IsChain(lookup, p) && |p| <= MAX_BRANCH_HOPS + 1
            && p[0] == start && p[|p| - 1] == live.branchId == end.id
            && lookup(end.id) == Ok(end.branch)
            && end.branch.status != BRANCH_MERGED && end.branch.status != BRANCH_CLOSED
            && end.factor != MAX_DEBT_FACTOR
            && Scaled(stored, end.branch.debtFactor, end.factor) == Ok(scaled)
            && scaled > stored / 100 && live.debtRaw == scaled * 9_999 / 10_000
            && live.tick == end.branch.minimaTick
            && CollateralAtBranchMinima(live.tick, end.branch.minimaTickPartials, live.debtRaw) == Ok(live.colRaw)
            && (VaultWritten(lookup) && Normalised(factor) ==> CompoundedAlong(lookup, p, factor, end.factor))
    ensures forall i, j :: 0 <= i < j < |p| ==> p[i] != p[j]
  {
    var first := lookup(start).value;
    end := WalkFrom(lookup, start, first, factor, 0).value;
    MergedEndIsSaturated(lookup, start, first, factor, 0);
    p := WalkTrace(lookup, start, first, factor, 0);
    scaled := Scaled(stored, end.branch.debtFactor, end.factor).value;
    ChainDistinct(lookup, p);
  }

  /** The walk stops on a merged branch only when the factor has saturated. */
  lemma {:induction false} MergedEndIsSaturated(lookup: Lookup, id: u32, branch: Branch, factor: u64, hops: nat)
    requires hops <= MAX_BRANCH_HOPS && WalkFrom(lookup, id, branch, factor, hops).Ok?
    ensures var end := WalkFrom(lookup, id, branch, factor, hops).value;
            end.branch.status == BRANCH_MERGED ==> end.factor == MAX_DEBT_FACTOR
    decreases MAX_BRANCH_HOPS - hops
  {
    if branch.status == BRANCH_MERGED && Product(factor, branch.debtFactor).value != MAX_DEBT_FACTOR {
      var next := branch.connectedBranchId;
      MergedEndIsSaturated(lookup, next, lookup(next).value, Product(factor, branch.debtFactor).value, hops + 1);
    }
  }

  /**
   * A walk that succeeds leaves debt exactly when it ends, unsaturated, at a branch that is
   * neither merged nor closed with more than 1% of the stored debt and at least two units;
   * otherwise nothing is left, collateral included.
   */
  lemma LiveIff(lookup: Lookup, start: u32, factor: u64, stored: u64)
    requires Walk(start, factor, stored, lookup).Ok?
    ensures lookup(start).Ok? && WalkFrom(lookup, start, lookup(start).value, factor, 0).Ok?
    ensures var live := Walk(start, factor, stored, lookup).value;
            var end := WalkFrom(lookup, start, lookup(start).value, factor, 0).value;
            && live.branchId == end.id
            && (live.debtRaw == 0 ==> live == LivePosition(-16_383, 0, 0, end.id))
            && (live.debtRaw > 0 <==>
                  && end.factor != MAX_DEBT_FACTOR
                  && end.branch.status != 2 && end.branch.status != 3
                  && var scaled := Scaled(stored, end.branch.debtFactor, end.factor);
                     scaled.Ok? && scaled.value > stored / 100 && scaled.value >= 2)
  {
    MergedEndIsSaturated(lookup, start, lookup(start).value, factor, 0);
  }

  // ---------------------------------------------------------------- the walk along a given chain

  /** The connection factor at the far end of a chain: one product for every branch but the last. */
  ghost function FactorAlong(lookup: Lookup, p: seq<u32>, factor: u64): Result<u64>
    requires IsChain(lookup, p)
    decreases |p|
  {
    if |p| == 1 then Ok(factor)
    else
      ChainTail(lookup, p);
      var compounded :- Product(factor, lookup(p[0]).value.debtFactor);
      if compounded == MAX_DEBT_FACTOR then Err(DebtFactorOverflow) else FactorAlong(lookup, p[1..], compounded)
  }

  /** While nothing saturates or underflows the walk goes down the chain, one hop a branch. */
  lemma {:induction false} WalkAlong(lookup: Lookup, p: seq<u32>, factor: u64, hops: nat)
    requires IsChain(lookup, p) && FactorAlong(lookup, p, factor).Ok? && hops + |p| - 1 <= MAX_BRANCH_HOPS
    ensures WalkFrom(lookup, p[0], lookup(p[0]).value, factor, hops)
         == WalkFrom(lookup, p[|p| - 1], lookup(p[|p| - 1]).value, FactorAlong(lookup, p, factor).value, hops + |p| - 1)
    decreases |p|
  {
    if |p| > 1 {
      ChainTail(lookup, p);
      assert Links(lookup, p[0], p[0 + 1]);
      WalkAlong(lookup, p[1..], Product(factor, lookup(p[0]).value.debtFactor).value, hops + 1);
      assert p[1..][|p[1..]| - 1] == p[|p| - 1];
    }
  }

  /** A chain of at most 33 branches that ends at one not merged is walked to its end. */
  lemma ChainIsWalked(lookup: Lookup, p: seq<u32>, factor: u64)
    requires IsChain(lookup, p) && FactorAlong(lookup, p, factor).Ok? && |p| <= 33
    requires lookup(p[|p| - 1]).value.status != 2
    ensures WalkFrom(lookup, p[0], lookup(p[0]).value, factor, 0)
         == Ok(WalkEnd(p[|p| - 1], lookup(p[|p| - 1]).value, FactorAlong(lookup, p, factor).value))
  {
    WalkAlong(lookup, p, factor, 0);
  }

  /** A chain of 34 branches is refused as too long. */
  lemma LongerChainIsRefused(lookup: Lookup, p: seq<u32>, factor: u64, stored: u64)
    requires IsChain(lookup, p) && FactorAlong(lookup, p, factor).Ok? && |p| == 34
    ensures Walk(p[0], factor, stored, lookup) == Err(BranchChainTooLong)
  {
    var q := p[..33];
    ChainPrefix(lookup, p, 33, factor);
    WalkAlong(lookup, q, factor, 0);
    LastHop(lookup, p, factor);
  }

  lemma {:induction false} ChainPrefix(lookup: Lookup, p: seq<u32>, n: nat, factor: u64)
    requires IsChain(lookup, p) && 1 <= n <= |p| && FactorAlong(lookup, p, factor).Ok?
    ensures IsChain(lookup, p[..n]) && FactorAlong(lookup, p[..n], factor).Ok?
    decreases n
  {
    forall i | 0 <= i < n - 1
      ensures Links(lookup, p[..n][i], p[..n][i + 1])
    {
      assert Links(lookup, p[i], p[i + 1]);
    }
    if n > 1 {
      ChainTail(lookup, p);
      ChainPrefix(lookup, p[1..], n - 1, Product(factor, lookup(p[0]).value.debtFactor).value);
      assert p[1..][..n - 1] == p[..n][1..];
    }
  }

  /** The 33rd branch of a longer chain is merged, and its product is as clear as the others. */
  lemma LastHop(lookup: Lookup, p: seq<u32>, factor: u64)
    requires IsChain(lookup, p) && |p| == 34 && FactorAlong(lookup, p, factor).Ok?
    requires IsChain(lookup, p[..33]) && FactorAlong(lookup, p[..33], factor).Ok?
    ensures Links(lookup, p[32], p[33])
    ensures var product := Product(FactorAlong(lookup, p[..33], factor).value, lookup(p[32]).value.debtFactor);
            product.Ok? && product.value != MAX_DEBT_FACTOR
  {
    assert Links(lookup, p[32], p[32 + 1]);
    FactorSnoc(lookup, p, factor);
  }

  lemma {:induction false} FactorSnoc(lookup: Lookup, p: seq<u32>, factor: u64)
    requires IsChain(lookup, p) && |p| > 1 && FactorAlong(lookup, p, factor).Ok?
    requires IsChain(lookup, p[..|p| - 1]) && FactorAlong(lookup, p[..|p| - 1], factor).Ok?
    ensures var product := Product(FactorAlong(lookup, p[..|p| - 1], factor).value, lookup(p[|p| - 2]).value.debtFactor);
            product == FactorAlong(lookup, p, factor) && product.value != MAX_DEBT_FACTOR
    decreases |p|
  {
    if |p| > 2 {
      var q := p[..|p| - 1];
      ChainTail(lookup, p);
      ChainTail(lookup, q);
      assert p[1..][..|p| - 2] == q[1..];
      FactorSnoc(lookup, p[1..], Product(factor, lookup(p[0]).value.debtFactor).value);
    }
  }

  /** A branch lookup that reports its errors instead of aborting. */
  ghost predicate NeverAborts(lookup: Lookup) {
    forall id: u32 :: lookup(id) != Err(Panic)
  }

  lemma {:induction false} WalkFromNeverAborts(lookup: Lookup, id: u32, branch: Branch, factor: u64, hops: nat)
    requires hops <= MAX_BRANCH_HOPS && NeverAborts(lookup)
    ensures WalkFrom(lookup, id, branch, factor, hops) != Err(Panic)
    decreases MAX_BRANCH_HOPS - hops
  {
    var compounded := Product(factor, branch.debtFactor);
    var next := branch.connectedBranchId;
    if branch.status == BRANCH_MERGED && compounded.Ok? && compounded.value != MAX_DEBT_FACTOR
       && lookup(next).Ok? && hops < MAX_BRANCH_HOPS {
      WalkFromNeverAborts(lookup, next, lookup(next).value, compounded.value, hops + 1);
    }
  }

  lemma CollateralNeverAborts(tick: i32, partials: u32, debtRaw: u64)
    ensures CollateralAtBranchMinima(tick, partials, debtRaw) != Err(Panic)
  {
    if MIN_TICK <= tick <= MAX_TICK {
      CollateralExact(tick, partials, debtRaw);
    }
  }

  /** The factor pair that makes the scaling of a walk's end abort. */
  predicate AbortingPair(numerator: u64, denominator: u64) {
    && numerator != 0 && denominator != 0
    && Coefficient(denominator) == 0 && Exponent(denominator) == Exponent(numerator) + 128
  }

  /**
   * A walk aborts exactly when it ends at a branch that is not closed, with an unsaturated factor
   * whose coefficient is zero and whose exponent is 128 above the branch's. No other operation of
   * the walk can abort, on any map and any factors.
   */
  lemma WalkAbortsIff(lookup: Lookup, start: u32, factor: u64, stored: u64)
    requires NeverAborts(lookup)
    ensures Walk(start, factor, stored, lookup) == Err(Panic) <==>
              && lookup(start).Ok?
              && var end := WalkFrom(lookup, start, lookup(start).value, factor, 0);
                 && end.Ok? && end.value.branch.status != BRANCH_CLOSED && end.value.factor != MAX_DEBT_FACTOR
                 && AbortingPair(end.value.branch.debtFactor, end.value.factor)
  {
    if lookup(start).Ok? {
      WalkFromNeverAborts(lookup, start, lookup(start).value, factor, 0);
      if WalkFrom(lookup, start, lookup(start).value, factor, 0).Ok? {
        SettleAbortsIff(WalkFrom(lookup, start, lookup(start).value, factor, 0).value, stored);
      }
    }
  }

  lemma SettleAbortsIff(end: WalkEnd, stored: u64)
    ensures Settle(end, stored) == Err(Panic) <==>
              end.branch.status != BRANCH_CLOSED && end.factor != MAX_DEBT_FACTOR
              && AbortingPair(end.branch.debtFactor, end.factor)
  {
    ScaledAbortsIff(stored, end.branch.debtFactor, end.factor);
    var scaled := Scaled(stored, end.branch.debtFactor, end.factor);
    if scaled.Ok? {
      CollateralNeverAborts(end.branch.minimaTick, end.branch.minimaTickPartials, AfterHaircut(scaled.value, stored));
    }
  }

  /** A record factor of 128, zero coefficient, at an open branch whose factor has exponent zero. */
  lemma WalkCanAbort(stored: u64)
    ensures Walk(1, 128, stored, _ => Ok(Branch(1, 0, 0, 0x8000, 0))) == Err(Panic)
  {
    var lookup: Lookup := _ => Ok(Branch(1, 0, 0, 0x8000, 0));
    WalkAbortsIff(lookup, 1, 128, stored);
    assert Walk(1, 128, stored, lookup) == Err(Panic);
  }

  /** Factors as the vault writes them never abort a walk. */
  lemma VaultFactorsNeverAbort(lookup: Lookup, start: u32, factor: u64, stored: u64)
    requires NeverAborts(lookup) && VaultWritten(lookup) && Normalised(factor)
    ensures Walk(start, factor, stored, lookup) != Err(Panic)
  {
    WalkAbortsIff(lookup, start, factor, stored);
    if Walk(start, factor, stored, lookup) == Err(Panic) {
      MergedEndIsSaturated(lookup, start, lookup(start).value, factor, 0);
      var _ := WalkTrace(lookup, start, lookup(start).value, factor, 0);
      assert false;
    }
  }

  /**
   * What an unsaturated all-ones product does to a position: merged with these factors, in range
   * and exact, it reads as nothing left whatever the branch it was merged into still holds.
   */
  lemma UnsaturatedAllOnesLosesThePosition(lookup: Lookup, start: u32, ea: nat, eb: nat, stored: u64)
    requires ea <= EXPONENT_MAX && eb <= EXPONENT_MAX && ea + eb == 49_117
    requires lookup(start).Ok? && lookup(start).value.status == BRANCH_MERGED
    requires lookup(start).value.debtFactor == 0x7_ffff_ffff * ONE + eb
    ensures Walk(start, 0x4_0000_0000 * ONE + ea, stored, lookup) == Ok(NothingLeft(start))
  {
    UnsaturatedAllOnes(ea, eb);
  }

  /** A chain that comes back to a branch it has visited can never yield a live debt. */
  lemma CyclicChainIsNeverLive(lookup: Lookup, q: seq<u32>, i: nat, j: nat, factor: u64, stored: u64)
    requires IsChain(lookup, q) && i < j < |q| && q[i] == q[j]
    requires Walk(q[0], factor, stored, lookup).Ok?
    ensures Walk(q[0], factor, stored, lookup).value.debtRaw == 0
  {
    if Walk(q[0], factor, stored, lookup).value.debtRaw > 0 {
      var p, end, scaled := LiveWalk(lookup, q[0], factor, stored);
      if |p| <= j {
        assert Links(lookup, q[|p| - 1], q[|p| - 1 + 1]);
        ChainsAgree(lookup, p, q, |p| - 1);
      } else {
        ChainsAgree(lookup, p, q, i);
        ChainsAgree(lookup, p, q, j);
      }
      assert false;
    }
  }

  /**
   * Error bound of a whole chain of n hops with vault-written factors, for every walk that ends at
   * a branch that is not merged. The exact scaled debt is
   *     exact = stored * value(branch) / (value(start factor) * product of the hop values)
   * as a rational. The amount before the haircut satisfies
   *     exact - 1 < scaled <= exact * (1 + 2^-34)^n,
   * stated without division by `WithinError`.
   */
  lemma ChainErrorBound(lookup: Lookup, start: u32, factor: u64, stored: u64, end: WalkEnd, scaled: u64)
    returns (p: seq<u32>)
    requires VaultWritten(lookup) && Normalised(factor)
    requires lookup(start).Ok? && WalkFrom(lookup, start, lookup(start).value, factor, 0) == Ok(end)
    requires end.branch.status != BRANCH_MERGED && Scaled(stored, end.branch.debtFactor, end.factor) == Ok(scaled)
    ensures IsChain(lookup, p) && p[0] == start && p[|p| - 1] == end.id && lookup(end.id) == Ok(end.branch)
    ensures |p| <= MAX_BRANCH_HOPS + 1
    ensures WithinError(scaled, Times(stored, Value(end.branch.debtFactor)),
                        Times(Value(factor), HopValues(lookup, p)), |p| - 1)
  {
    p := WalkTrace(lookup, start, lookup(start).value, factor, 0);
    ScaledIsFloor(stored, end.branch.debtFactor, end.factor);
    BoundThrough(Times(stored, Value(end.branch.debtFactor)), Value(end.factor), scaled,
                 Times(Value(factor), HopValues(lookup, p)), |p| - 1);
  }

  /** With exact = num * UNIT^n / den:  exact - 1 < scaled <= exact * (1 + 2^-34)^n. */
  ghost predicate WithinError(scaled: nat, num: nat, den: nat, n: nat) {
    && num * Power(UNIT, n) < (scaled + 1) * den
    && scaled * den * Power(K, n) <= num * Power(UNIT, n) * Power(K + 1, n)
  }

  lemma BoundThrough(num: nat, end: nat, scaled: nat, den: nat, n: nat)
    requires end > 0 && scaled == num / end && Compounded(end, den, UNIT, n)
    ensures WithinError(scaled, num, den, n)
  {
    DivBounds(num, end);
    PowerPositive(UNIT, n);
    BelowBound(num, end, scaled, den, Power(UNIT, n));
    AboveBound(num, end, scaled, den, Power(UNIT, n), Power(K, n), Power(K + 1, n));
  }

  lemma BelowBound(num: nat, end: nat, scaled: nat, den: nat, un: nat)
    requires num < scaled * end + end && end * un <= den && un > 0
    ensures num * un < (scaled + 1) * den
  {
    MulMono(num + 1, (scaled + 1) * end, un);
    assert (num + 1) * un == num * un + un;
    assert (scaled + 1) * end * un == (scaled + 1) * (end * un);
    MulMono(end * un, den, scaled + 1);
  }

  lemma AboveBound(num: nat, end: nat, scaled: nat, den: nat, un: nat, kn: nat, ln: nat)
    requires scaled * end <= num && den * kn <= end * un * ln
    ensures scaled * den * kn <= num * un * ln
  {
    assert scaled * den * kn == scaled * (den * kn);
    MulMono(den * kn, end * un * ln, scaled);
    assert scaled * (end * un * ln) == scaled * end * (un * ln);
    MulMono(scaled * end, num, un * ln);
    assert num * (un * ln) == num * un * ln;
  }

  lemma {:induction false} PowerPositive(base: nat, n: nat)
    requires base > 0
    ensures Power(base, n) > 0
  {
    if n > 0 {
      PowerPositive(base, n - 1);
      MulMono(1, base, Power(base, n - 1));
    }
  }
}
