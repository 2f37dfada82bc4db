/**
 * Concrete inputs on which the client's prediction falls short: a chain of 33 branches, which the
 * program walks to its end and the client cuts after 32, and a liquidation flag byte that is
 * neither 0 nor 1.
 */
module LongChains {
  import opened Outcome
  import opened Bytes
  import opened TickMath
  import opened DebtFactor
  import opened JupiterAccounts
  import opened LivePosition
  import opened PositionSnapshots
  import opened GetJupiterPosition
  import opened ClientAccounts

  const LAST: u32 := 32

  /** Branch `id` of the chain: merged into the next one, the last one closed. */
  function StatusOf(id: u32): u8 {
    if id == LAST then BRANCH_CLOSED else BRANCH_MERGED
  }

  function BranchBytes(id: u32): Bytes
    requires id <= LAST
  {
    BRANCH_DISC + Zeros(2) + ToLE(id, 4) + [StatusOf(id)] + Zeros(16) + ToLE(NEUTRAL, 8) + ToLE(id + 1, 4) + Zeros(4)
  }

  /** A tick whose current position id is 0, liquidated into branch 0 with a neutral factor. */
  function TickBytes(flag: u8): Bytes {
    TICK_DISC + Zeros(6) + [1] + Zeros(12) + [flag] + Zeros(4) + ToLE(NEUTRAL, 8)
  }

  /** A position of vault 0 with NFT 0 and nothing supplied. */
  function PositionBytes(tick: i32, tickId: u32): Bytes {
    POSITION_DISC + Zeros(39) + ToLE(FromI32(tick), 4) + ToLE(tickId, 4) + Zeros(16)
  }

  const TICK_KEY := TickAddress(0, TICK_PDA_OFFSET)

  function LongLedger(vaultsProgram: Pubkey, flag: u8): Ledger {
    (map id: u32 | id <= LAST :: BranchAddress(0, id) := Account(vaultsProgram, BranchBytes(id)))
    [TICK_KEY := Account(vaultsProgram, TickBytes(flag))]
  }

  /** A call on that ledger at a given time, for the position in `data`. */
  function LongRequest(vaultsProgram: Pubkey, flag: u8, clock: i64, data: Bytes): Request {
    Request(vaultsProgram, 0, 0, Zeros(32), data, AccountInfo(TICK_KEY, vaultsProgram, TickBytes(flag)),
            VAULT_STATE_DISC + Zeros(107), VAULT_CONFIG_DISC + Zeros(210), None, clock)
  }

  // ---------------------------------------------------------------- what the accounts decode to

  lemma {:induction false} ZeroReads(n: nat)
    ensures FromLE(Zeros(n)) == 0
  {
    if n > 0 {
      ZeroReads(n - 1);
      assert Zeros(n)[1..] == Zeros(n - 1);
    }
  }

  lemma BranchFieldsAt(a: Bytes, b: Bytes, c: Bytes, d: Bytes, e: Bytes, f: Bytes, g: Bytes, h: Bytes)
    requires |a| == 8 && |b| == 2 && |c| == 4 && |d| == 1 && |e| == 16 && |f| == 8 && |g| == 4 && |h| == 4
    ensures var data := a + b + c + d + e + f + g + h;
            && |data| == 47 && data[..8] == a && data[8..10] == b && data[10..14] == c && data[14] == d[0]
            && data[31..39] == f && data[39..43] == g
  {
  }

  lemma BranchRead(id: u32)
    requires id <= LAST
    ensures var data := BranchBytes(id);
            && |data| == 47 && HasDisc(data, BRANCH_DISC)
            && U16At(data, 8) == 0 && U32At(data, 10) == id && data[14] == StatusOf(id)
            && U64At(data, 31) == NEUTRAL && U32At(data, 39) == id + 1
  {
    Spans();
    ZeroReads(2);
    FromToLE(id, 4);
    FromToLE(NEUTRAL, 8);
    FromToLE(id + 1, 4);
    BranchFieldsAt(BRANCH_DISC, Zeros(2), ToLE(id, 4), [StatusOf(id)], Zeros(16), ToLE(NEUTRAL, 8), ToLE(id + 1, 4),
                   Zeros(4));
  }

  lemma TickFieldsAt(a: Bytes, b: Bytes, c: Bytes, d: Bytes, e: Bytes, f: Bytes, g: Bytes)
    requires |a| == 8 && |b| == 6 && |c| == 1 && |d| == 12 && |e| == 1 && |f| == 4 && |g| == 8
    ensures var data := a + b + c + d + e + f + g;
            && |data| == 40 && data[..8] == a && data[8..10] == b[..2] && data[10..14] == b[2..]
            && data[14] == c[0] && data[15..19] == d[..4] && data[19..27] == d[4..] && data[27] == e[0]
            && data[28..32] == f && data[32..40] == g
  {
  }

  lemma TickRead(flag: u8)
    ensures TickLayout(TickBytes(flag)) == Ok(JupiterTick(0, 0, 1, 0, 0, flag, 0, NEUTRAL))
  {
    Spans();
    ZeroReads(2);
    ZeroReads(4);
    ZeroReads(8);
    FromToLE(NEUTRAL, 8);
    TickFieldsAt(TICK_DISC, Zeros(6), [1], Zeros(12), [flag], Zeros(4), ToLE(NEUTRAL, 8));
    assert Zeros(6)[..2] == Zeros(2) && Zeros(6)[2..] == Zeros(4);
    assert Zeros(12)[..4] == Zeros(4) && Zeros(12)[4..] == Zeros(8);
  }

  function PositionAt(tick: i32, tickId: u32): JupiterPosition {
    JupiterPosition(0, 0, Zeros(32), 0, tick, tickId, 0, 0)
  }

  const POSITION := PositionAt(0, 0)

  lemma PositionFieldsAt(a: Bytes, b: Bytes, c: Bytes, d: Bytes, e: Bytes)
    requires |a| == 8 && |b| == 39 && |c| == 4 && |d| == 4 && |e| == 16
    ensures var data := a + b + c + d + e;
            && |data| == 71 && data[..8] == a && data[8..10] == b[..2] && data[10..14] == b[2..6]
            && data[14..46] == b[6..38] && data[46] == b[38] && data[47..51] == c && data[51..55] == d
            && data[55..63] == e[..8] && data[63..71] == e[8..]
  {
  }

  lemma ZeroParts()
    ensures Zeros(39)[..2] == Zeros(2) && Zeros(39)[2..6] == Zeros(4) && Zeros(39)[6..38] == Zeros(32)
    ensures Zeros(16)[..8] == Zeros(8) && Zeros(16)[8..] == Zeros(8)
  {
  }

  lemma PositionRead(tick: i32, tickId: u32)
    ensures PositionLayout(PositionBytes(tick, tickId)) == Ok(PositionAt(tick, tickId))
  {
    Spans();
    ZeroReads(2);
    ZeroReads(4);
    ZeroReads(8);
    ZeroParts();
    FromToLE(FromI32(tick), 4);
    FromToLE(tickId, 4);
    PositionFieldsAt(POSITION_DISC, Zeros(39), ToLE(FromI32(tick), 4), ToLE(tickId, 4), Zeros(16));
  }

  // ---------------------------------------------------------------- the walk

  /** The branches of the ledger are exactly the chain. */
  ghost predicate HoldsChain(ledger: Ledger, vaultsProgram: Pubkey) {
    && (forall id: u32 :: id <= LAST ==> HoldsBranch(ledger, vaultsProgram, id))
    && forall vaultId: u16, id: u32 :: BranchAddress(vaultId, id) in ledger ==> vaultId == 0 && id <= LAST
  }

  ghost predicate HoldsBranch(ledger: Ledger, vaultsProgram: Pubkey, id: u32)
    requires id <= LAST
  {
    BranchAddress(0, id) in ledger && ledger[BranchAddress(0, id)] == Account(vaultsProgram, BranchBytes(id))
  }

  lemma LedgerHoldsChain(vaultsProgram: Pubkey, flag: u8)
    ensures HoldsChain(LongLedger(vaultsProgram, flag), vaultsProgram)
  {
  }

  ghost predicate IsLongChain(lookup: Lookup) {
    forall id: u32 :: id <= LAST ==> IsLink(lookup, id)
  }

  ghost predicate IsLink(lookup: Lookup, id: u32) {
    && lookup(id).Ok? && lookup(id).value.status == StatusOf(id)
    && lookup(id).value.debtFactor == NEUTRAL && lookup(id).value.connectedBranchId == id + 1
  }

  lemma LinkStep(lookup: Lookup, id: u32)
    requires IsLink(lookup, id) && IsLink(lookup, id + 1) && id < LAST
    ensures WalkFrom(lookup, id, lookup(id).value, NEUTRAL, id)
         == WalkFrom(lookup, id + 1, lookup(id + 1).value, NEUTRAL, id + 1)
    ensures Visited(lookup, lookup(id).value, NEUTRAL, id)
         == {id + 1} + Visited(lookup, lookup(id + 1).value, NEUTRAL, id + 1)
  {
    NeutralIsOne(NEUTRAL);
  }

  lemma {:induction false} WalksToTheEnd(lookup: Lookup, id: u32)
    requires IsLongChain(lookup) && id <= LAST
    ensures IsLink(lookup, id)
    ensures forall j: u32 :: id < j <= LAST ==> j in Visited(lookup, lookup(id).value, NEUTRAL, id)
    ensures lookup(LAST).Ok?
    ensures WalkFrom(lookup, id, lookup(id).value, NEUTRAL, id) == Ok(WalkEnd(LAST, lookup(LAST).value, NEUTRAL))
    decreases LAST - id
  {
    assert IsLink(lookup, id) && IsLink(lookup, LAST);
    if id < LAST {
      assert IsLink(lookup, id + 1);
      LinkStep(lookup, id);
      WalksToTheEnd(lookup, id + 1);
    }
  }

  lemma LooksUp(ledger: Ledger, vaultsProgram: Pubkey, id: u32)
    requires HoldsChain(ledger, vaultsProgram) && id <= LAST
    ensures IsLink(LedgerLookup(ledger, vaultsProgram, 0), id)
    ensures BranchAddress(0, id) in ledger && DecodeJupiterBranchFields(ledger[BranchAddress(0, id)].data).Ok?
  {
    assert HoldsBranch(ledger, vaultsProgram, id);
    BranchRead(id);
  }

  lemma LedgerIsLongChain(ledger: Ledger, vaultsProgram: Pubkey)
    requires HoldsChain(ledger, vaultsProgram)
    ensures IsLongChain(LedgerLookup(ledger, vaultsProgram, 0))
  {
    forall id: u32 | id <= LAST
      ensures IsLink(LedgerLookup(ledger, vaultsProgram, 0), id)
    {
      LooksUp(ledger, vaultsProgram, id);
    }
  }

  lemma VisitsEverything(lookup: Lookup)
    requires IsLongChain(lookup)
    ensures forall j: u32 :: j <= LAST ==> j in WalkVisits(lookup, 0, NEUTRAL)
  {
    WalksToTheEnd(lookup, 0);
  }

  lemma ClosesAtTheEnd(lookup: Lookup, stored: u64)
    requires IsLongChain(lookup)
    ensures Walk(0, NEUTRAL, stored, lookup) == Ok(NothingLeft(LAST))
  {
    WalksToTheEnd(lookup, 0);
    assert IsLink(lookup, LAST);
  }

  const CHAIN: seq<u32> := seq(33, k requires 0 <= k < 33 => k)

  lemma CountChain(touched: set<u32>)
    requires forall j: u32 :: j <= LAST ==> j in touched
    ensures |touched| > CLIENT_HOPS
  {
    DistinctCount(CHAIN);
    SubsetCount(Elements(CHAIN), touched);
  }

  lemma TouchesEverything(ledger: Ledger, vaultsProgram: Pubkey)
    requires HoldsChain(ledger, vaultsProgram)
    ensures |Touched(ledger, vaultsProgram, 0, 0, NEUTRAL)| > CLIENT_HOPS
  {
    LedgerIsLongChain(ledger, vaultsProgram);
    VisitsEverything(LedgerLookup(ledger, vaultsProgram, 0));
    forall j: u32 | j <= LAST
      ensures Present(ledger, 0, j)
    {
      assert HoldsBranch(ledger, vaultsProgram, j);
    }
    CountChain(Touched(ledger, vaultsProgram, 0, 0, NEUTRAL));
  }

  lemma {:induction false} CollectsWithoutError(ledger: Ledger, vaultsProgram: Pubkey, next: u32, ids: seq<u32>, left: nat)
    requires HoldsChain(ledger, vaultsProgram)
    ensures CollectIds(ledger, 0, next, ids, left).Ok?
    decreases left
  {
    if left > 0 && next !in ids && BranchAddress(0, next) in ledger {
      LooksUp(ledger, vaultsProgram, next);
      var decoded := DecodeJupiterBranchFields(ledger[BranchAddress(0, next)].data).value;
      if decoded.status == BRANCH_MERGED {
        CollectsWithoutError(ledger, vaultsProgram, decoded.connectedBranchId, ids + [next], left - 1);
      }
    }
  }

  // ---------------------------------------------------------------- the snapshot

  lemma SmallDebts()
    ensures ShownDebt(0, 0).Ok? && LiquidationDebt(0, 0).Ok?
  {
    RatioRange(0);
  }

  function TickOf(flag: u8): JupiterTick {
    JupiterTick(0, 0, 1, 0, 0, flag, 0, NEUTRAL)
  }

  lemma PricesAndTokensRead()
    ensures VaultStateLayout(VAULT_STATE_DISC + Zeros(107)).Ok?
    ensures VaultConfigLayout(VAULT_CONFIG_DISC + Zeros(210)).Ok?
  {
    assert HasDisc(VAULT_STATE_DISC + Zeros(107), VAULT_STATE_DISC);
    assert HasDisc(VAULT_CONFIG_DISC + Zeros(210), VAULT_CONFIG_DISC);
  }

  /** For any position of tick 0 the call gets past the fixed accounts. */
  lemma RequestDecodes(vaultsProgram: Pubkey, flag: u8, clock: i64, data: Bytes, tickId: u32)
    requires PositionLayout(data) == Ok(PositionAt(0, tickId))
    ensures var accounts := DecodeAccounts(LongRequest(vaultsProgram, flag, clock, data));
            accounts.Ok? && accounts.value.position == PositionAt(0, tickId) && accounts.value.tick == TickOf(flag)
  {
    TickRead(flag);
    PricesAndTokensRead();
  }

  /** What the client collects for the position: the capped chain, or nothing when it reads the flag as set. */
  lemma ClientCollects(vaultsProgram: Pubkey, flag: u8) returns (collected: Collected)
    ensures Collect(LongLedger(vaultsProgram, flag), 0, PositionView(POSITION)) == Ok(collected)
    ensures collected.tickIdLiquidation == None
  {
    var ledger := LongLedger(vaultsProgram, flag);
    TickRead(flag);
    DecodersAgree(TickBytes(flag));
    LedgerHoldsChain(vaultsProgram, flag);
    CollectsWithoutError(ledger, vaultsProgram, 0, [], CLIENT_HOPS);
    var view := TickView(TickOf(flag));
    assert ledger[TICK_KEY].data == TickBytes(flag) && DecodeJupiterTickFields(TickBytes(flag)) == Ok(view);
    assert ClientStart(ledger, 0, PositionView(POSITION), view) == Ok(Start(None, flag != 0, 0));
    collected := Collect(ledger, 0, PositionView(POSITION)).value;
  }

  /** Every branch account of the ledger. */
  function AllBranches(vaultsProgram: Pubkey): seq<AccountInfo> {
    seq(33, k requires 0 <= k < 33 => AccountInfo(BranchAddress(0, k), vaultsProgram, BranchBytes(k)))
  }

  lemma AllBranchesAreAll(vaultsProgram: Pubkey, flag: u8)
    ensures Faithful(AllBranches(vaultsProgram), LongLedger(vaultsProgram, flag))
    ensures Complete(AllBranches(vaultsProgram), LongLedger(vaultsProgram, flag))
  {
    var all := AllBranches(vaultsProgram);
    var ledger := LongLedger(vaultsProgram, flag);
    LedgerHoldsChain(vaultsProgram, flag);
    forall i | 0 <= i < |all|
      ensures IsLedgerAccount(all[i], ledger)
    {
      assert HoldsBranch(ledger, vaultsProgram, i);
    }
    forall vaultId: u16, id: u32 | BranchAddress(vaultId, id) in ledger
      ensures Carries(all, BranchAddress(vaultId, id))
    {
      assert all[id].key == BranchAddress(vaultId, id);
    }
  }

  lemma WholeSnapshotSucceeds(vaultsProgram: Pubkey, flag: u8, clock: i64, data: Bytes)
    requires flag != 1 && PositionLayout(data) == Ok(POSITION)
    ensures var whole := SnapshotOf(LongRequest(vaultsProgram, flag, clock, data), AllBranches(vaultsProgram));
            whole.Ok? && whole.value.branchId == LAST && whole.value.snapshotTime == clock
  {
    var ledger := LongLedger(vaultsProgram, flag);
    var all := AllBranches(vaultsProgram);
    RequestDecodes(vaultsProgram, flag, clock, data, 0);
    SmallDebts();
    AllBranchesAreAll(vaultsProgram, flag);
    LedgerHoldsChain(vaultsProgram, flag);
    LedgerIsLongChain(ledger, vaultsProgram);
    var stored := LiquidationDebt(0, 0).value;
    CompleteBranchLookup(all, ledger, vaultsProgram, 0, 0, NEUTRAL, stored);
    ClosesAtTheEnd(LedgerLookup(ledger, vaultsProgram, 0), stored);
  }

  lemma NotCovered(vaultsProgram: Pubkey, flag: u8, clock: i64, data: Bytes)
    requires flag != 1
    ensures !Covered(LongRequest(vaultsProgram, flag, clock, data), LongLedger(vaultsProgram, flag), POSITION, TickOf(flag))
  {
    SmallDebts();
    LedgerHoldsChain(vaultsProgram, flag);
    TouchesEverything(LongLedger(vaultsProgram, flag), vaultsProgram);
  }

  lemma ClientMisses(vaultsProgram: Pubkey, flag: u8, clock: i64, data: Bytes, collected: Collected)
    requires flag != 1 && PositionLayout(data) == Ok(POSITION)
    requires Collect(LongLedger(vaultsProgram, flag), 0, PositionView(POSITION)) == Ok(collected)
    requires collected.tickIdLiquidation == None
    ensures forall k :: k in collected.branches ==> k in LongLedger(vaultsProgram, flag)
    ensures SnapshotOf(LongRequest(vaultsProgram, flag, clock, data),
                       AccountsAt(LongLedger(vaultsProgram, flag), collected.branches))
         == Err(MissingBranchAccount)
  {
    var request := LongRequest(vaultsProgram, flag, clock, data);
    DecodersAgree(data);
    AllBranchesAreAll(vaultsProgram, flag);
    RequestDecodes(vaultsProgram, flag, clock, data, 0);
    SmallDebts();
    NotCovered(vaultsProgram, flag, clock, data);
    assert IsLedgerAccount(request.tick, LongLedger(vaultsProgram, flag));
    RequestSuffices(request, LongLedger(vaultsProgram, flag), PositionView(POSITION), collected, AllBranches(vaultsProgram));
  }

  /**
   * One position, a whole ledger, and for the flag bytes 0 and 2 to 255 a snapshot that succeeds
   * over the ledger but reports a branch missing over what the client collects. With flag 0 the
   * cause is the 33rd branch, with the others the reading of the flag.
   */
  lemma SnapshotsDiffer(vaultsProgram: Pubkey, flag: u8, clock: i64) returns (request: Request, collected: Collected)
    requires flag != 1
    ensures request == LongRequest(vaultsProgram, flag, clock, PositionBytes(0, 0))
    ensures Collect(LongLedger(vaultsProgram, flag), 0, PositionView(POSITION)) == Ok(collected)
    ensures forall k :: k in collected.branches ==> k in LongLedger(vaultsProgram, flag)
    ensures SnapshotOf(request, AllBranches(vaultsProgram)).Ok?
    ensures SnapshotOf(request, AccountsAt(LongLedger(vaultsProgram, flag), collected.branches)) == Err(MissingBranchAccount)
  {
    var data := PositionBytes(0, 0);
    PositionRead(0, 0);
    request := LongRequest(vaultsProgram, flag, clock, data);
    collected := ClientCollects(vaultsProgram, flag);
    ClientMisses(vaultsProgram, flag, clock, data, collected);
    WholeSnapshotSucceeds(vaultsProgram, flag, clock, data);
  }

  // ---------------------------------------------------------------- inputs that abort

  lemma HighTickAborts(vaultsProgram: Pubkey, data: Bytes, tick: i32)
    requires PositionLayout(data) == Ok(PositionAt(tick, 0)) && tick > 0x7fff_c000
    ensures SnapshotOf(LongRequest(vaultsProgram, 0, 0, data), []) == Err(Panic)
  {
    SnapshotAbortsIff(LongRequest(vaultsProgram, 0, 0, data), []);
  }

  /** The largest tick a position account can hold: the seed of its tick account overflows. */
  lemma SeedCanAbort(vaultsProgram: Pubkey)
    ensures SnapshotOf(LongRequest(vaultsProgram, 0, 0, PositionBytes(0x7fff_ffff, 0)), []) == Err(Panic)
  {
    PositionRead(0x7fff_ffff, 0);
    HighTickAborts(vaultsProgram, PositionBytes(0x7fff_ffff, 0), 0x7fff_ffff);
  }

  lemma LastIdAborts(request: Request, a: Accounts)
    requires DecodeAccounts(request) == Ok(a) && request.tickIdLiquidation.Some?
    requires a.position.tickId >= 0xffff_fffe && IsLiquidated(a.position, a.tick) && StoredDebt(a.position).Ok?
    ensures SnapshotOf(request, []) == Err(Panic)
  {
    SnapshotAbortsIff(request, []);
  }

  lemma FlushedChangesNoDecoding(request: Request, flushed: AccountInfo)
    ensures DecodeAccounts(request.(tickIdLiquidation := Some(flushed))) == DecodeAccounts(request)
  {
  }

  /** The last position id but one, with any account passed as the flushed one: its group number overflows. */
  lemma GroupCanAbort(vaultsProgram: Pubkey, flushed: AccountInfo)
    ensures SnapshotOf(LongRequest(vaultsProgram, 0, 0, PositionBytes(0, 0xffff_fffe)).(tickIdLiquidation := Some(flushed)), [])
         == Err(Panic)
  {
    var data := PositionBytes(0, 0xffff_fffe);
    var request := LongRequest(vaultsProgram, 0, 0, data);
    PositionRead(0, 0xffff_fffe);
    RequestDecodes(vaultsProgram, 0, 0, data, 0xffff_fffe);
    SmallDebts();
    FlushedChangesNoDecoding(request, flushed);
    LastIdAborts(request.(tickIdLiquidation := Some(flushed)), DecodeAccounts(request).value);
  }

  /**
   * Walked over the whole ledger the chain ends, closed, at its 33rd branch; over what the client
   * collects the same walk reports a branch missing.
   */
  lemma ThirtyThreeBranchesAreNotCovered(ledger: Ledger, vaultsProgram: Pubkey, stored: u64)
    requires HoldsChain(ledger, vaultsProgram)
    ensures var lookup := LedgerLookup(ledger, vaultsProgram, 0);
            var collected := CollectIds(ledger, 0, 0, [], CLIENT_HOPS);
            && collected.Ok?
            && Walk(0, NEUTRAL, stored, lookup) == Ok(NothingLeft(LAST))
            && Walk(0, NEUTRAL, stored, Restricted(lookup, collected.value)) == Err(MissingBranchAccount)
  {
    LedgerIsLongChain(ledger, vaultsProgram);
    CollectsWithoutError(ledger, vaultsProgram, 0, [], CLIENT_HOPS);
    WalkCoverage(ledger, vaultsProgram, 0, 0, NEUTRAL, stored);
    TouchesEverything(ledger, vaultsProgram);
    ClosesAtTheEnd(LedgerLookup(ledger, vaultsProgram, 0), stored);
  }
}
