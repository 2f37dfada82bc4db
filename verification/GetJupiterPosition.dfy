/** The shared snapshot computation: position, tick, liquidation record and branch walk. */
module GetJupiterPosition {
  import opened Outcome
  import opened Bytes
  import opened TickMath
  import opened DebtFactor
  import opened JupiterAccounts
  import opened LivePosition
  import opened PositionSnapshots

  /** An address derived from seeds, as an injective function of them. */
  datatype Address =
    | BranchAddress(vaultId: u16, branchId: u32)
    | TickAddress(vaultId: u16, seed: u32)
    | TickIdLiquidationAddress(vaultId: u16, seed: u32, group: u32)
    | OtherAddress(id: nat)

  datatype AccountInfo = AccountInfo(key: Address, owner: Pubkey, data: Bytes)

  /** One account holds three position ids, so the last seed is the group. `tick_id + 2` is checked. */
  function LiquidationAddressOf(vaultId: u16, tick: i32, tickId: u32): Result<Address> {
    var seed :- TickPdaSeed(tick);
    if tickId + 2 >= 0x1_0000_0000 then Err(Panic)
    else Ok(TickIdLiquidationAddress(vaultId, seed, (tickId + 2) / 3))
  }

  /** `remaining_accounts.iter().find(..)`. */
  function FindAccount(accounts: seq<AccountInfo>, key: Address): Option<AccountInfo> {
    if accounts == [] then None
    else if accounts[0].key == key then Some(accounts[0])
    else FindAccount(accounts[1..], key)
  }

  /** A found account must be the vault program's, decode, and carry the id it was looked up by. */
  function BranchFrom(account: Option<AccountInfo>, vaultsProgram: Pubkey, vaultId: u16, branchId: u32): Result<Branch> {
    if account.None? then Err(MissingBranchAccount)
    else if account.value.owner != vaultsProgram then Err(InvalidJupiterAccount)
    else
      var decoded :- BranchLayout(account.value.data);
      if decoded.vaultId == vaultId && decoded.branchId == branchId then
        Ok(Branch(decoded.status, decoded.minimaTick, decoded.minimaTickPartials, decoded.debtFactor,
                  decoded.connectedBranchId))
      else Err(InvalidJupiterAccount)
  }

  function BranchLookup(remaining: seq<AccountInfo>, vaultsProgram: Pubkey, vaultId: u16): Lookup {
    (branchId: u32) =>
      BranchFrom(FindAccount(remaining, BranchAddress(vaultId, branchId)), vaultsProgram, vaultId, branchId)
  }

  /** Everything one call receives besides the two ids and the branch accounts. */
  datatype Request = Request(
    vaultsProgram: Pubkey,
    vaultId: u16,
    nftId: u32,
    positionKey: Pubkey,
    positionData: Bytes,
    tick: AccountInfo,
    vaultState: Bytes,
    vaultConfig: Bytes,
    tickIdLiquidation: Option<AccountInfo>,
    clock: i64
  )

  predicate IsLiquidated(position: JupiterPosition, tick: JupiterTick) {
    position.isSupplyOnlyPosition == 0 && (tick.isLiquidated != 0 || tick.totalIds > position.tickId)
  }

  /** The flushed record, if an account was passed: it must sit at the derived address. */
  function FlushedRecord(request: Request, position: JupiterPosition): Result<Option<JupiterTickIdLiquidation>> {
    if request.tickIdLiquidation.None? then Ok(None)
    else
      var expected :- LiquidationAddressOf(request.vaultId, NormalizeTick(position.tick), position.tickId);
      if request.tickIdLiquidation.value.key != expected then Err(TickPdaMismatch)
      else
        var decoded :- TickIdLiquidationLayout(request.tickIdLiquidation.value.data);
        Ok(Some(decoded))
  }

  function FoundRecord(request: Request, position: JupiterPosition, tick: JupiterTick): Result<LiquidationRecord> {
    var flushed :- FlushedRecord(request, position);
    if tick.totalIds != position.tickId && flushed.None? then Err(MissingLiquidationRecord)
    else Ok(RecordOf(position.tickId, tick, flushed))
  }

  datatype Resolution = Resolution(live: LivePosition, dustDebt: u64, isFullyLiquidated: bool)

  /** What is left of a position, given its stored debt and a branch lookup. */
  function Resolve(request: Request, position: JupiterPosition, tick: JupiterTick, storedDebt: u64, lookup: Lookup)
    : Result<Resolution>
  {
    if !IsLiquidated(position, tick) then
      Ok(Resolution(LivePosition(NormalizeTick(position.tick), position.supplyAmount, storedDebt, 0),
                    position.dustDebtAmount, false))
    else
      var record :- FoundRecord(request, position, tick);
      if record.isFullyLiquidated then Ok(Resolution(NothingLeft(record.branchId), 0, true))
      else
        var startDebt :- LiquidationDebt(position.tick, position.supplyAmount);
        var live :- Walk(record.branchId, record.connectionFactor, startDebt, lookup);
        Ok(Resolution(live, position.dustDebtAmount, live.colRaw == 0 && live.debtRaw == 0))
  }

  datatype Accounts = Accounts(
    position: JupiterPosition,
    tick: JupiterTick,
    prices: JupiterVaultStatePrices,
    tokens: JupiterVaultTokens
  )

  /** Decoding and cross-checking of the fixed accounts. */
  function DecodeAccounts(request: Request): Result<Accounts> {
    var position :- PositionLayout(request.positionData);
    var _ :- Require(position.vaultId == request.vaultId && position.nftId == request.nftId, PositionIdMismatch);
    var seed :- TickPdaSeed(position.tick);
    var _ :- Require(request.tick.key == TickAddress(request.vaultId, seed), TickPdaMismatch);
    var tick :- TickLayout(request.tick.data);
    var _ :- Require(tick.vaultId == request.vaultId && tick.tick == NormalizeTick(position.tick), TickPdaMismatch);
    var prices :- VaultStateLayout(request.vaultState);
    var tokens :- VaultConfigLayout(request.vaultConfig);
    Ok(Accounts(position, tick, prices, tokens))
  }

  function StoredDebt(position: JupiterPosition): Result<u64> {
    if position.isSupplyOnlyPosition != 0 then Ok(0) else ShownDebt(position.tick, position.supplyAmount)
  }

  function Assemble(request: Request, a: Accounts, storedDebt: u64, r: Resolution): PositionSnapshot {
    PositionSnapshot(
      request.positionKey, request.vaultId, request.nftId, a.position.positionMint,
      a.tokens.supplyToken, a.tokens.borrowToken,
      r.live.colRaw, r.live.debtRaw, r.dustDebt,
      if r.live.debtRaw >= r.dustDebt then r.live.debtRaw - r.dustDebt else 0,
      r.live.tick, a.position.tickId, a.position.supplyAmount, storedDebt, NormalizeTick(a.position.tick),
      a.position.isSupplyOnlyPosition != 0, IsLiquidated(a.position, a.tick), r.isFullyLiquidated,
      r.live.branchId, a.prices.vaultSupplyExchangePrice, a.prices.vaultBorrowExchangePrice, request.clock)
  }

  function SnapshotWith(request: Request, lookup: Lookup): Result<PositionSnapshot> {
    var accounts :- DecodeAccounts(request);
    var storedDebt :- StoredDebt(accounts.position);
    var resolution :- Resolve(request, accounts.position, accounts.tick, storedDebt, lookup);
    Ok(Assemble(request, accounts, storedDebt, resolution))
  }

  function SnapshotOf(request: Request, remaining: seq<AccountInfo>): Result<PositionSnapshot> {
    SnapshotWith(request, BranchLookup(remaining, request.vaultsProgram, request.vaultId))
  }

  method ShownDebtRaw(tick: i32, col: u64) returns (r: Result<u64>)
    ensures r == ShownDebt(tick, col)
  {
    DebtFormulaExact(tick, col);
    r := DebtRawAtTick(tick, col);
  }

  method StartingDebtRaw(tick: i32, col: u64) returns (r: Result<u64>)
    ensures r == LiquidationDebt(tick, col)
  {
    LiquidationFormulaExact(tick, col);
    r := LiquidationDebtRawAtTick(tick, col);
  }

  method DecodeRequest(request: Request) returns (r: Result<Accounts>)
    ensures r == DecodeAccounts(request)
  {
    var position :- DecodePosition(request.positionData);
    if !(position.vaultId == request.vaultId && position.nftId == request.nftId) {
      return Err(PositionIdMismatch);
    }
    var seed :- TickPdaSeed(position.tick);
    if request.tick.key != TickAddress(request.vaultId, seed) {
      return Err(TickPdaMismatch);
    }
    var tick :- DecodeTick(request.tick.data);
    if !(tick.vaultId == request.vaultId && tick.tick == NormalizeTick(position.tick)) {
      return Err(TickPdaMismatch);
    }
    var prices :- DecodeVaultStatePrices(request.vaultState);
    var tokens :- DecodeVaultTokens(request.vaultConfig);
    return Ok(Accounts(position, tick, prices, tokens));
  }

  method DecodeFlushed(request: Request, position: JupiterPosition)
    returns (r: Result<Option<JupiterTickIdLiquidation>>)
    ensures r == FlushedRecord(request, position)
  {
    if request.tickIdLiquidation.None? {
      return Ok(None);
    }
    var account := request.tickIdLiquidation.value;
    var expected :- LiquidationAddressOf(request.vaultId, NormalizeTick(position.tick), position.tickId);
    if account.key != expected {
      return Err(TickPdaMismatch);
    }
    var decoded :- DecodeTickIdLiquidation(account.data);
    return Ok(Some(decoded));
  }

  /** The middle of the program's computation: live amounts, dust and flag, reassigned step by step. */
  method ResolvePosition(request: Request, position: JupiterPosition, tick: JupiterTick, storedDebtRaw: u64,
                         remaining: seq<AccountInfo>)
    returns (r: Result<Resolution>)
    ensures r == Resolve(request, position, tick, storedDebtRaw,
                         BranchLookup(remaining, request.vaultsProgram, request.vaultId))
  {
    var isSupplyOnly := position.isSupplyOnlyPosition != 0;
    var isLiquidated := !isSupplyOnly && (tick.isLiquidated != 0 || tick.totalIds > position.tickId);
    var dustDebt := position.dustDebtAmount;
    var live := LivePosition(NormalizeTick(position.tick), position.supplyAmount, storedDebtRaw, 0);
    var isFullyLiquidated := false;

    if isLiquidated {
      var flushed :- DecodeFlushed(request, position);
      if !(tick.totalIds == position.tickId || flushed.Some?) {
        return Err(MissingLiquidationRecord);
      }
      var record := RecordOf(position.tickId, tick, flushed);
      if record.isFullyLiquidated {
        live := LivePosition(MIN_TICK, 0, 0, record.branchId);
        dustDebt := 0;
        isFullyLiquidated := true;
      } else {
        var startDebt :- StartingDebtRaw(position.tick, position.supplyAmount);
        live :- WalkBranches(record.branchId, record.connectionFactor, startDebt,
                             BranchLookup(remaining, request.vaultsProgram, request.vaultId));
      }
    }

    if live.colRaw == 0 && live.debtRaw == 0 && isLiquidated {
      isFullyLiquidated := true;
    }
    return Ok(Resolution(live, dustDebt, isFullyLiquidated));
  }

  method ComputePositionSnapshot(request: Request, remaining: seq<AccountInfo>) returns (r: Result<PositionSnapshot>)
    ensures r == SnapshotOf(request, remaining)
  {
    var accounts :- DecodeRequest(request);
    var position := accounts.position;
    var storedDebtRaw: u64 := 0;
    if position.isSupplyOnlyPosition == 0 {
      storedDebtRaw :- ShownDebtRaw(position.tick, position.supplyAmount);
    }
    assert StoredDebt(position) == Ok(storedDebtRaw);
    var resolved :- ResolvePosition(request, position, accounts.tick, storedDebtRaw, remaining);
    return Ok(Assemble(request, accounts, storedDebtRaw, resolved));
  }

  // ---------------------------------------------------------------- what a snapshot means

  /** A walk that ends without debt ends without collateral. */
  lemma NoDebtNoCollateral(start: u32, factor: u64, stored: u64, lookup: Lookup)
    requires Walk(start, factor, stored, lookup).Ok?
    ensures var live := Walk(start, factor, stored, lookup).value; live.debtRaw == 0 ==> live.colRaw == 0
  {
  }

  /**
   * For every request and every lookup on which the snapshot succeeds: fully liquidated means
   * liquidated with no live debt (and then no collateral); not liquidated means the live numbers
   * are the stored ones; supply-only means no debt; dust is dropped only when the record itself
   * says fully liquidated; net debt is the debt above the dust.
   */
  lemma SnapshotFlags(request: Request, lookup: Lookup)
    requires SnapshotWith(request, lookup).Ok?
    ensures var s := SnapshotWith(request, lookup).value;
            var position, tick := DecodeAccounts(request).value.position, DecodeAccounts(request).value.tick;
            && (s.isFullyLiquidated <==> s.isLiquidated && s.debtRaw == 0)
            && (s.isFullyLiquidated ==> s.colRaw == 0 && s.netDebt == 0)
            && (!s.isLiquidated ==>
                  s.colRaw == s.storedColRaw && s.debtRaw == s.storedDebtRaw && s.tick == s.storedTick
                  && s.branchId == 0)
            && (s.isSupplyOnly ==> !s.isLiquidated && s.debtRaw == 0 && s.storedDebtRaw == 0)
            && s.netDebt == (if s.debtRaw > s.dustDebt then s.debtRaw - s.dustDebt else 0)
            && s.dustDebt == (if s.isLiquidated && FoundRecord(request, position, tick).value.isFullyLiquidated
                              then 0 else position.dustDebtAmount)
  {
    var a := DecodeAccounts(request).value;
    if IsLiquidated(a.position, a.tick) {
      var record := FoundRecord(request, a.position, a.tick).value;
      if !record.isFullyLiquidated {
        var startDebt := LiquidationDebt(a.position.tick, a.position.supplyAmount).value;
        NoDebtNoCollateral(record.branchId, record.connectionFactor, startDebt, lookup);
      }
    }
  }

  // ---------------------------------------------------------------- when the computation aborts

  lemma BranchLookupNeverAborts(remaining: seq<AccountInfo>, vaultsProgram: Pubkey, vaultId: u16)
    ensures NeverAborts(BranchLookup(remaining, vaultsProgram, vaultId))
  {
  }

  /** The tick seed is computed with a checked addition. */
  predicate SeedAborts(tick: i32) {
    NormalizeTick(tick) + TICK_PDA_OFFSET >= 0x8000_0000
  }

  lemma SeedAbortsIff(tick: i32)
    ensures TickPdaSeed(tick) == Err(Panic) <==> SeedAborts(tick)
    ensures TickPdaSeed(tick).Ok? <==> !SeedAborts(tick)
    ensures NormalizeTick(NormalizeTick(tick)) == NormalizeTick(tick)
  {
  }

  /** Once past the fixed accounts, finding the record aborts only on the group number of a last id. */
  lemma RecordAbortsIff(request: Request, position: JupiterPosition, tick: JupiterTick)
    requires !SeedAborts(position.tick)
    ensures FoundRecord(request, position, tick) == Err(Panic) <==>
              request.tickIdLiquidation.Some? && position.tickId + 2 >= 0x1_0000_0000
  {
    SeedAbortsIff(position.tick);
  }

  lemma ResolveAbortsIff(request: Request, position: JupiterPosition, tick: JupiterTick, storedDebt: u64, lookup: Lookup)
    requires !SeedAborts(position.tick) && NeverAborts(lookup)
    ensures Resolve(request, position, tick, storedDebt, lookup) == Err(Panic) <==>
              IsLiquidated(position, tick)
              && ((request.tickIdLiquidation.Some? && position.tickId + 2 >= 0x1_0000_0000)
                  || WalkIsReachedAndAborts(request, position, tick, lookup))
  {
    RecordAbortsIff(request, position, tick);
    if FoundRecord(request, position, tick).Ok? {
      var record := FoundRecord(request, position, tick).value;
      var startDebt := LiquidationDebt(position.tick, position.supplyAmount);
      if !record.isFullyLiquidated && startDebt.Ok? {
        WalkAbortsIff(lookup, record.branchId, record.connectionFactor, startDebt.value);
      }
    }
  }

  /** The record is found and says there is something left, and the walk from it ends on an aborting pair. */
  ghost predicate WalkIsReachedAndAborts(request: Request, position: JupiterPosition, tick: JupiterTick, lookup: Lookup) {
    && FoundRecord(request, position, tick).Ok?
    && LiquidationDebt(position.tick, position.supplyAmount).Ok?
    && var record := FoundRecord(request, position, tick).value;
       && !record.isFullyLiquidated && lookup(record.branchId).Ok?
       && var end := WalkFrom(lookup, record.branchId, lookup(record.branchId).value, record.connectionFactor, 0);
          && end.Ok? && end.value.branch.status != BRANCH_CLOSED && end.value.factor != MAX_DEBT_FACTOR
          && AbortingPair(end.value.branch.debtFactor, end.value.factor)
  }

  lemma DecodingAbortsIff(request: Request)
    ensures DecodeAccounts(request) == Err(Panic) <==>
              && PositionLayout(request.positionData).Ok?
              && var p := PositionLayout(request.positionData).value;
                 p.vaultId == request.vaultId && p.nftId == request.nftId && SeedAborts(p.tick)
    ensures DecodeAccounts(request).Ok? ==> !SeedAborts(DecodeAccounts(request).value.position.tick)
  {
    if PositionLayout(request.positionData).Ok? {
      SeedAbortsIff(PositionLayout(request.positionData).value.tick);
    }
  }

  /**
   * The snapshot aborts in exactly three ways: the seed of an impossible tick, the group number
   * of one of the last two position ids when a flushed account is passed, or the scaling at the
   * end of the walk. Every other checked operation is safe on every input.
   */
  lemma SnapshotAbortsIff(request: Request, remaining: seq<AccountInfo>)
    ensures var lookup := BranchLookup(remaining, request.vaultsProgram, request.vaultId);
            var position := PositionLayout(request.positionData);
            var accounts := DecodeAccounts(request);
            SnapshotOf(request, remaining) == Err(Panic) <==>
              || (position.Ok? && position.value.vaultId == request.vaultId && position.value.nftId == request.nftId
                  && SeedAborts(position.value.tick))
              || (accounts.Ok? && StoredDebt(accounts.value.position).Ok?
                  && IsLiquidated(accounts.value.position, accounts.value.tick)
                  && ((request.tickIdLiquidation.Some? && accounts.value.position.tickId + 2 >= 0x1_0000_0000)
                      || WalkIsReachedAndAborts(request, accounts.value.position, accounts.value.tick, lookup)))
  {
    DecodingAbortsIff(request);
    if DecodeAccounts(request).Ok? {
      var a := DecodeAccounts(request).value;
      if StoredDebt(a.position).Ok? {
        BranchLookupNeverAborts(remaining, request.vaultsProgram, request.vaultId);
        ResolveAbortsIff(request, a.position, a.tick, StoredDebt(a.position).value,
                         BranchLookup(remaining, request.vaultsProgram, request.vaultId));
      }
    }
  }

  /** With factors as the vault writes them only the two address computations are left. */
  lemma VaultFactorsLeaveAddresses(request: Request, remaining: seq<AccountInfo>)
    requires VaultWritten(BranchLookup(remaining, request.vaultsProgram, request.vaultId))
    requires DecodeAccounts(request).Ok? ==>
               var a := DecodeAccounts(request).value;
               FoundRecord(request, a.position, a.tick).Ok? ==>
                 Normalised(FoundRecord(request, a.position, a.tick).value.connectionFactor)
    requires SnapshotOf(request, remaining) == Err(Panic)
    ensures PositionLayout(request.positionData).Ok?
    ensures var p := PositionLayout(request.positionData).value;
            SeedAborts(p.tick) || (request.tickIdLiquidation.Some? && p.tickId + 2 >= 0x1_0000_0000)
  {
    SnapshotAbortsIff(request, remaining);
    var lookup := BranchLookup(remaining, request.vaultsProgram, request.vaultId);
    BranchLookupNeverAborts(remaining, request.vaultsProgram, request.vaultId);
    if DecodeAccounts(request).Ok? {
      var a := DecodeAccounts(request).value;
      if WalkIsReachedAndAborts(request, a.position, a.tick, lookup) {
        var record := FoundRecord(request, a.position, a.tick).value;
        WalkAbortsIff(lookup, record.branchId, record.connectionFactor, 0);
        VaultFactorsNeverAbort(lookup, record.branchId, record.connectionFactor, 0);
      }
    }
  }
}
