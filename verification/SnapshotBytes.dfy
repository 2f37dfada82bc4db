/**
 * The snapshot in terms of the bytes of the accounts it is computed from: where every field comes
 * from, when a position counts as liquidated, which record is used, and what is refused.
 */
module SnapshotBytes {
  import opened Outcome
  import opened Bytes
  import opened TickMath
  import opened DebtFactor
  import opened JupiterAccounts
  import opened LivePosition
  import opened PositionSnapshots
  import opened GetJupiterPosition

  // ---------------------------------------------------------------- what the decoders accept

  /** Each account is told by its eight-byte tag and its least length. */
  lemma LayoutsAccept(data: Bytes)
    ensures PositionLayout(data).Ok? <==> |data| >= 71 && data[..8] == [170, 188, 143, 228, 122, 64, 247, 208]
    ensures TickLayout(data).Ok? <==> |data| >= 40 && data[..8] == [176, 94, 67, 247, 133, 173, 7, 115]
    ensures BranchLayout(data).Ok? <==> |data| >= 47 && data[..8] == [14, 63, 100, 50, 25, 8, 29, 5]
    ensures TickIdLiquidationLayout(data).Ok? <==> |data| >= 57 && data[..8] == [41, 28, 190, 197, 68, 213, 31, 181]
    ensures VaultStateLayout(data).Ok? <==> |data| >= 115 && data[..8] == [228, 196, 82, 165, 98, 210, 235, 152]
    ensures VaultConfigLayout(data).Ok? <==> |data| >= 218 && data[..8] == [99, 86, 43, 216, 184, 102, 119, 77]
  {
  }

  /** A tick with the sentinel replaced by the bottom. */
  function Normal(tick: i32): i32 {
    if tick == -0x8000_0000 then -16_383 else tick
  }

  // ---------------------------------------------------------------- the fixed accounts

  /** What the fixed accounts of a call that gets past them hold. */
  lemma FixedAccounts(request: Request)
    requires DecodeAccounts(request).Ok?
    ensures var pd, td := request.positionData, request.tick.data;
            && |pd| >= 71 && |td| >= 40 && |request.vaultState| >= 115 && |request.vaultConfig| >= 218
            && U16At(pd, 8) == request.vaultId && U32At(pd, 10) == request.nftId
            && 0 <= (Normal(I32At(pd, 47)) + 16_383) % 0x1_0000_0000 < 0x1_0000_0000
            && request.tick.key == TickAddress(request.vaultId, (Normal(I32At(pd, 47)) + 16_383) % 0x1_0000_0000)
            && U16At(td, 8) == request.vaultId && I32At(td, 10) == Normal(I32At(pd, 47))
    ensures var a := DecodeAccounts(request).value;
            && PositionLayout(request.positionData) == Ok(a.position) && TickLayout(request.tick.data) == Ok(a.tick)
            && VaultStateLayout(request.vaultState) == Ok(a.prices) && VaultConfigLayout(request.vaultConfig) == Ok(a.tokens)
  {
  }

  /** A call is refused over its fixed accounts in this order. */
  lemma FixedAccountsRefused(request: Request)
    ensures var position, tick := PositionLayout(request.positionData), TickLayout(request.tick.data);
            DecodeAccounts(request).Err? ==>
              DecodeAccounts(request).error
              == if position.Err? then InvalidJupiterAccount
                 else if position.value.vaultId != request.vaultId || position.value.nftId != request.nftId
                 then PositionIdMismatch
                 else if Normal(position.value.tick) + 16_383 >= 0x8000_0000 then Panic
                 else if request.tick.key != TickAddress(request.vaultId, (Normal(position.value.tick) + 16_383) % 0x1_0000_0000)
                 then TickPdaMismatch
                 else if tick.Err? then InvalidJupiterAccount
                 else if tick.value.vaultId != request.vaultId || tick.value.tick != Normal(position.value.tick)
                 then TickPdaMismatch
                 else InvalidJupiterAccount
  {
  }

  /** Every field that does not depend on a liquidation, by its offset in the accounts. */
  lemma SnapshotFields(request: Request, remaining: seq<AccountInfo>)
    requires SnapshotOf(request, remaining).Ok?
    ensures |request.positionData| >= 71 && |request.vaultState| >= 115 && |request.vaultConfig| >= 218
    ensures var s, pd := SnapshotOf(request, remaining).value, request.positionData;
            && s.position == request.positionKey
            && s.vaultId == request.vaultId == U16At(pd, 8) && s.nftId == request.nftId == U32At(pd, 10)
            && s.positionMint == pd[14..46]
            && s.supplyToken == request.vaultConfig[154..186] && s.borrowToken == request.vaultConfig[186..218]
            && s.isSupplyOnly == (pd[46] != 0) && s.storedTick == Normal(I32At(pd, 47))
            && s.tickId == U32At(pd, 51) && s.storedColRaw == U64At(pd, 55)
            && (if pd[46] != 0 then s.storedDebtRaw == 0
                else ShownDebt(I32At(pd, 47), U64At(pd, 55)) == Ok(s.storedDebtRaw))
            && s.vaultSupplyExchangePrice == U64At(request.vaultState, 99)
            && s.vaultBorrowExchangePrice == U64At(request.vaultState, 107)
            && s.snapshotTime == request.clock
  {
    FixedAccounts(request);
  }

  // ---------------------------------------------------------------- liquidated or not

  /**
   * A position counts as liquidated exactly when it borrows at all, and its tick is flagged or has
   * already given out later position ids.
   */
  lemma LiquidatedIff(request: Request, remaining: seq<AccountInfo>)
    requires SnapshotOf(request, remaining).Ok?
    ensures |request.positionData| >= 71 && |request.tick.data| >= 40
    ensures SnapshotOf(request, remaining).value.isLiquidated <==>
              && request.positionData[46] == 0
              && (request.tick.data[14] != 0 || U32At(request.tick.data, 15) > U32At(request.positionData, 51))
  {
    FixedAccounts(request);
  }

  // ---------------------------------------------------------------- the record

  /** The bytes of the record: in the tick while it still holds the id, else in the flushed account. */
  function RecordBytes(request: Request): Option<(Bytes, nat)> {
    var pd, td := request.positionData, request.tick.data;
    if |pd| < 71 || |td| < 40 then None
    else if U32At(td, 15) == U32At(pd, 51) then Some((td, 27))
    else if request.tickIdLiquidation.None? || |request.tickIdLiquidation.value.data| < 57 then None
    else Some((request.tickIdLiquidation.value.data, 18 + 13 * ((U32At(pd, 51) + 2) % 3)))
  }

  /** A record read from the thirteen bytes at `o`: flag, branch id, connection factor; only flag 1 is full. */
  ghost predicate IsRecordAt(record: LiquidationRecord, data: Bytes, o: nat) {
    && o + 13 <= |data| && record.isFullyLiquidated == (data[o] == 1)
    && record.branchId == U32At(data, o + 1) && record.connectionFactor == U64At(data, o + 5)
  }

  lemma RecordInTick(data: Bytes, tick: JupiterTick, tickId: u32, flushed: Option<JupiterTickIdLiquidation>)
    requires TickLayout(data) == Ok(tick) && tick.totalIds == tickId
    requires flushed.Some? ==> |flushed.value.slots| == 3
    ensures |data| >= 40 && IsRecordAt(RecordOf(tickId, tick, flushed), data, 27)
  {
  }

  lemma RecordInSlot(data: Bytes, tick: JupiterTick, tickId: u32, flushed: JupiterTickIdLiquidation)
    requires TickIdLiquidationLayout(data) == Ok(flushed) && tick.totalIds != tickId
    ensures |data| >= 57 && IsRecordAt(RecordOf(tickId, tick, Some(flushed)), data, 18 + 13 * ((tickId + 2) % 3))
  {
    var k := (tickId + 2) % 3;
    assert flushed.slots[k] == SlotLayout(data, k);
  }

  /** The record of a call, byte for byte. */
  lemma RecordAnswers(request: Request)
    requires DecodeAccounts(request).Ok?
    requires FoundRecord(request, DecodeAccounts(request).value.position, DecodeAccounts(request).value.tick).Ok?
    ensures RecordBytes(request).Some?
    ensures var a := DecodeAccounts(request).value;
            IsRecordAt(FoundRecord(request, a.position, a.tick).value, RecordBytes(request).value.0,
                       RecordBytes(request).value.1)
  {
    var a := DecodeAccounts(request).value;
    PlaceOfRecord(request);
    RecordAt(request, a.position, a.tick, RecordBytes(request).value.0, RecordBytes(request).value.1);
  }

  lemma RecordAt(request: Request, position: JupiterPosition, tick: JupiterTick, data: Bytes, o: nat)
    requires FoundRecord(request, position, tick).Ok?
    requires if tick.totalIds == position.tickId then TickLayout(data) == Ok(tick) && o == 27
             else FlushedRecord(request, position).Ok? && FlushedRecord(request, position).value.Some?
                  && TickIdLiquidationLayout(data) == Ok(FlushedRecord(request, position).value.value)
                  && o == 18 + 13 * ((position.tickId + 2) % 3)
    ensures IsRecordAt(FoundRecord(request, position, tick).value, data, o)
  {
    var flushed := FlushedRecord(request, position).value;
    if tick.totalIds == position.tickId {
      RecordInTick(data, tick, position.tickId, flushed);
    } else {
      RecordInSlot(data, tick, position.tickId, flushed.value);
    }
  }

  lemma PlaceOfRecord(request: Request)
    requires DecodeAccounts(request).Ok?
    requires FoundRecord(request, DecodeAccounts(request).value.position, DecodeAccounts(request).value.tick).Ok?
    ensures var a := DecodeAccounts(request).value;
            if a.tick.totalIds == a.position.tickId then
              TickLayout(request.tick.data) == Ok(a.tick) && RecordBytes(request) == Some((request.tick.data, 27))
            else
              && request.tickIdLiquidation.Some? && FlushedRecord(request, a.position).Ok?
              && FlushedRecord(request, a.position).value.Some?
              && TickIdLiquidationLayout(request.tickIdLiquidation.value.data)
                 == Ok(FlushedRecord(request, a.position).value.value)
              && RecordBytes(request)
                 == Some((request.tickIdLiquidation.value.data, 18 + 13 * ((a.position.tickId + 2) % 3)))
  {
    FixedAccounts(request);
  }

  /** A flushed account has to sit at the address of the position's tick and group of three, whenever it is passed. */
  lemma FlushedAddress(request: Request)
    requires DecodeAccounts(request).Ok? && request.tickIdLiquidation.Some?
    ensures |request.positionData| >= 71
    ensures var a := DecodeAccounts(request).value;
            var tickId := U32At(request.positionData, 51);
            var key := TickIdLiquidationAddress(request.vaultId,
                         (Normal(I32At(request.positionData, 47)) + 16_383) % 0x1_0000_0000, (tickId + 2) / 3);
            FlushedRecord(request, a.position)
            == if tickId > 0xffff_fffd then Err(Panic)
               else if request.tickIdLiquidation.value.key != key then Err(TickPdaMismatch)
               else if TickIdLiquidationLayout(request.tickIdLiquidation.value.data).Err? then Err(InvalidJupiterAccount)
               else Ok(Some(TickIdLiquidationLayout(request.tickIdLiquidation.value.data).value))
  {
    FixedAccounts(request);
  }

  /** A liquidated position whose tick has moved on needs the flushed account. */
  lemma FlushedNeeded(request: Request, remaining: seq<AccountInfo>)
    requires DecodeAccounts(request).Ok? && request.tickIdLiquidation.None?
    requires StoredDebt(DecodeAccounts(request).value.position).Ok?
    requires IsLiquidated(DecodeAccounts(request).value.position, DecodeAccounts(request).value.tick)
    ensures |request.positionData| >= 71 && |request.tick.data| >= 40
    ensures U32At(request.tick.data, 15) != U32At(request.positionData, 51) ==>
              SnapshotOf(request, remaining) == Err(MissingLiquidationRecord)
  {
    FixedAccounts(request);
  }

  /**
   * What is left of a liquidated position: nothing, and no dust, when the record's flag is 1; else
   * the walk from the record's branch with its factor and the liquidation debt of the stored amounts.
   */
  lemma SnapshotOfLiquidated(request: Request, remaining: seq<AccountInfo>)
    requires SnapshotOf(request, remaining).Ok? && SnapshotOf(request, remaining).value.isLiquidated
    ensures |request.positionData| >= 71
    ensures RecordBytes(request).Some? && RecordBytes(request).value.1 + 13 <= |RecordBytes(request).value.0|
    ensures var s, pd := SnapshotOf(request, remaining).value, request.positionData;
            var data, o := RecordBytes(request).value.0, RecordBytes(request).value.1;
            if data[o] == 1 then
              && s.colRaw == 0 && s.debtRaw == 0 && s.tick == -16_383 && s.branchId == U32At(data, o + 1)
              && s.dustDebt == 0 && s.isFullyLiquidated
            else
              && LiquidationDebt(I32At(pd, 47), U64At(pd, 55)).Ok? && s.dustDebt == U64At(pd, 63)
              && Walk(U32At(data, o + 1), U64At(data, o + 5), LiquidationDebt(I32At(pd, 47), U64At(pd, 55)).value,
                      BranchLookup(remaining, request.vaultsProgram, request.vaultId))
                 == Ok(LivePosition(s.tick, s.colRaw, s.debtRaw, s.branchId))
  {
    FixedAccounts(request);
    RecordAnswers(request);
  }

  // ---------------------------------------------------------------- the branches

  /** Where a branch account's fields are. */
  function BranchIn(data: Bytes): Branch
    requires |data| >= 47
  {
    Branch(data[14], I32At(data, 15), U32At(data, 19), U64At(data, 31), U32At(data, 39))
  }

  /** The first account passed for an address. */
  ghost predicate FirstFor(remaining: seq<AccountInfo>, key: Address, i: nat) {
    i < |remaining| && remaining[i].key == key && forall j :: 0 <= j < i ==> remaining[j].key != key
  }

  lemma {:induction false} FindsFirst(remaining: seq<AccountInfo>, key: Address, i: nat)
    requires FirstFor(remaining, key, i)
    ensures FindAccount(remaining, key) == Some(remaining[i])
    decreases i
  {
    if i > 0 {
      assert forall j :: 0 <= j < i - 1 ==> remaining[1..][j] == remaining[j + 1];
      FindsFirst(remaining[1..], key, i - 1);
    }
  }

  lemma {:induction false} FindsNone(remaining: seq<AccountInfo>, key: Address)
    requires forall j :: 0 <= j < |remaining| ==> remaining[j].key != key
    ensures FindAccount(remaining, key) == None
    decreases |remaining|
  {
    if remaining != [] {
      assert forall j :: 0 <= j < |remaining| - 1 ==> remaining[1..][j] == remaining[j + 1];
      FindsNone(remaining[1..], key);
    }
  }

  /**
   * A branch is read from the first account passed at its address, which must belong to the vault
   * program, carry the branch tag, and repeat the vault and branch it was looked up by.
   */
  lemma BranchAnswers(remaining: seq<AccountInfo>, vaultsProgram: Pubkey, vaultId: u16, id: u32, i: nat)
    requires FirstFor(remaining, BranchAddress(vaultId, id), i)
    ensures var account := remaining[i]; var data := account.data;
            BranchLookup(remaining, vaultsProgram, vaultId)(id)
            == if account.owner == vaultsProgram && |data| >= 47 && data[..8] == [14, 63, 100, 50, 25, 8, 29, 5]
                  && U16At(data, 8) == vaultId && U32At(data, 10) == id
               then Ok(BranchIn(data)) else Err(InvalidJupiterAccount)
  {
    FindsFirst(remaining, BranchAddress(vaultId, id), i);
    LayoutsAccept(remaining[i].data);
  }

  lemma AbsentBranchIsMissing(remaining: seq<AccountInfo>, vaultsProgram: Pubkey, vaultId: u16, id: u32)
    requires forall j :: 0 <= j < |remaining| ==> remaining[j].key != BranchAddress(vaultId, id)
    ensures BranchLookup(remaining, vaultsProgram, vaultId)(id) == Err(MissingBranchAccount)
  {
    FindsNone(remaining, BranchAddress(vaultId, id));
  }
}
