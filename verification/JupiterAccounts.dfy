/**
 * The Jupiter account layouts: the program's cursor-based decoders, the client's fixed-offset
 * decoders, and the addresses both derive.
 */
module JupiterAccounts {
  import opened Outcome
  import opened Bytes
  import opened TickMath

  const POSITION_DISC: Bytes := [170, 188, 143, 228, 122, 64, 247, 208]
  const TICK_DISC: Bytes := [176, 94, 67, 247, 133, 173, 7, 115]
  const VAULT_STATE_DISC: Bytes := [228, 196, 82, 165, 98, 210, 235, 152]
  const VAULT_CONFIG_DISC: Bytes := [99, 86, 43, 216, 184, 102, 119, 77]
  const BRANCH_DISC: Bytes := [14, 63, 100, 50, 25, 8, 29, 5]
  const TICK_ID_LIQUIDATION_DISC: Bytes := [41, 28, 190, 197, 68, 213, 31, 181]

  datatype JupiterPosition = JupiterPosition(
    vaultId: u16,
    nftId: u32,
    positionMint: Pubkey,
    isSupplyOnlyPosition: u8,
    tick: i32,
    tickId: u32,
    supplyAmount: u64,
    dustDebtAmount: u64
  )

  datatype JupiterTick = JupiterTick(
    vaultId: u16,
    tick: i32,
    isLiquidated: u8,
    totalIds: u32,
    rawDebt: u64,
    isFullyLiquidated: u8,
    liquidationBranchId: u32,
    debtFactor: u64
  )

  datatype JupiterBranch = JupiterBranch(
    vaultId: u16,
    branchId: u32,
    status: u8,
    minimaTick: i32,
    minimaTickPartials: u32,
    debtLiquidity: u64,
    debtFactor: u64,
    connectedBranchId: u32,
    connectedMinimaTick: i32
  )

  datatype TickIdLiquidationSlot = TickIdLiquidationSlot(
    isFullyLiquidated: u8,
    liquidationBranchId: u32,
    debtFactor: u64
  )

  datatype JupiterTickIdLiquidation = JupiterTickIdLiquidation(
    vaultId: u16,
    tick: i32,
    tickMap: u32,
    slots: seq<TickIdLiquidationSlot>
  )

  datatype JupiterVaultStatePrices = JupiterVaultStatePrices(
    vaultSupplyExchangePrice: u64,
    vaultBorrowExchangePrice: u64
  )

  datatype JupiterVaultTokens = JupiterVaultTokens(supplyToken: Pubkey, borrowToken: Pubkey)

  // ---------------------------------------------------------------- layouts by offset

  predicate HasDisc(data: Bytes, disc: Bytes) {
    8 <= |data| && data[..8] == disc
  }

  function PositionLayout(data: Bytes): Result<JupiterPosition> {
    if !HasDisc(data, POSITION_DISC) || |data| < 71 then Err(InvalidJupiterAccount)
    else
      Ok(JupiterPosition(U16At(data, 8), U32At(data, 10), data[14..46], data[46], I32At(data, 47),
                         U32At(data, 51), U64At(data, 55), U64At(data, 63)))
  }

  function TickLayout(data: Bytes): Result<JupiterTick> {
    if !HasDisc(data, TICK_DISC) || |data| < 40 then Err(InvalidJupiterAccount)
    else
      Ok(JupiterTick(U16At(data, 8), I32At(data, 10), data[14], U32At(data, 15), U64At(data, 19),
                     data[27], U32At(data, 28), U64At(data, 32)))
  }

  function BranchLayout(data: Bytes): Result<JupiterBranch> {
    if !HasDisc(data, BRANCH_DISC) || |data| < 47 then Err(InvalidJupiterAccount)
    else
      Ok(JupiterBranch(U16At(data, 8), U32At(data, 10), data[14], I32At(data, 15), U32At(data, 19),
                       U64At(data, 23), U64At(data, 31), U32At(data, 39), I32At(data, 43)))
  }

  function SlotLayout(data: Bytes, k: nat): TickIdLiquidationSlot
    requires 18 + 13 * k + 13 <= |data|
  {
    var o := 18 + 13 * k;
    TickIdLiquidationSlot(data[o], U32At(data, o + 1), U64At(data, o + 5))
  }

  function TickIdLiquidationLayout(data: Bytes): Result<JupiterTickIdLiquidation> {
    if !HasDisc(data, TICK_ID_LIQUIDATION_DISC) || |data| < 57 then Err(InvalidJupiterAccount)
    else
      Ok(JupiterTickIdLiquidation(U16At(data, 8), I32At(data, 10), U32At(data, 14),
                                  [SlotLayout(data, 0), SlotLayout(data, 1), SlotLayout(data, 2)]))
  }

  function VaultStateLayout(data: Bytes): Result<JupiterVaultStatePrices> {
    if !HasDisc(data, VAULT_STATE_DISC) || |data| < 115 then Err(InvalidJupiterAccount)
    else Ok(JupiterVaultStatePrices(U64At(data, 99), U64At(data, 107)))
  }

  function VaultConfigLayout(data: Bytes): Result<JupiterVaultTokens> {
    if !HasDisc(data, VAULT_CONFIG_DISC) || |data| < 218 then Err(InvalidJupiterAccount)
    else Ok(JupiterVaultTokens(data[154..186], data[186..218]))
  }

  // ---------------------------------------------------------------- the program's cursor

  class ByteReader {
    const data: Bytes
    var i: nat

    constructor (data: Bytes)
      requires 8 <= |data|
      ensures this.data == data && i == 8
    {
      this.data := data;
      i := 8;
    }

    static method AfterDisc(data: Bytes, disc: Bytes) returns (r: Result<ByteReader>)
      ensures HasDisc(data, disc) ==> r.Ok? && fresh(r.value) && r.value.data == data && r.value.i == 8
      ensures !HasDisc(data, disc) ==> r == Err(InvalidJupiterAccount)
    {
      if |data| < 8 || data[..8] != disc {
        return Err(InvalidJupiterAccount);
      }
      var reader := new ByteReader(data);
      return Ok(reader);
    }

    /** Whether `n` more bytes are there, given where the cursor was. */
    static predicate Fits(data: Bytes, at: nat, n: nat) {
      at + n <= |data|
    }

    method Take(n: nat) returns (r: Result<Bytes>)
      modifies this`i
      ensures if Fits(data, old(i), n) then r == Ok(data[old(i)..old(i) + n]) && i == old(i) + n
              else r == Err(InvalidJupiterAccount) && i == old(i)
    {
      if i + n > |data| {
        return Err(InvalidJupiterAccount);
      }
      var s := data[i..i + n];
      i := i + n;
      return Ok(s);
    }

    method U8() returns (r: Result<u8>)
      modifies this`i
      ensures if Fits(data, old(i), 1) then r == Ok(data[old(i)]) && i == old(i) + 1
              else r == Err(InvalidJupiterAccount) && i == old(i)
    {
      var s :- Take(1);
      return Ok(s[0]);
    }

    method U16() returns (r: Result<u16>)
      modifies this`i
      ensures if Fits(data, old(i), 2) then r == Ok(U16At(data, old(i))) && i == old(i) + 2
              else r == Err(InvalidJupiterAccount) && i == old(i)
    {
      ghost var at := i;
      var s :- Take(2);
      assert FromLE(s) == U16At(data, at);
      return Ok(FromLE(s));
    }

    method U32() returns (r: Result<u32>)
      modifies this`i
      ensures if Fits(data, old(i), 4) then r == Ok(U32At(data, old(i))) && i == old(i) + 4
              else r == Err(InvalidJupiterAccount) && i == old(i)
    {
      ghost var at := i;
      var s :- Take(4);
      assert FromLE(s) == U32At(data, at);
      return Ok(FromLE(s));
    }

    method I32() returns (r: Result<i32>)
      modifies this`i
      ensures if Fits(data, old(i), 4) then r == Ok(I32At(data, old(i))) && i == old(i) + 4
              else r == Err(InvalidJupiterAccount) && i == old(i)
    {
      var x :- U32();
      return Ok(ToI32(x));
    }

    method U64() returns (r: Result<u64>)
      modifies this`i
      ensures if Fits(data, old(i), 8) then r == Ok(U64At(data, old(i))) && i == old(i) + 8
              else r == Err(InvalidJupiterAccount) && i == old(i)
    {
      ghost var at := i;
      var s :- Take(8);
      assert FromLE(s) == U64At(data, at);
      return Ok(FromLE(s));
    }
  }

  method DecodePosition(data: Bytes) returns (r: Result<JupiterPosition>)
    ensures r == PositionLayout(data)
  {
    var reader :- ByteReader.AfterDisc(data, POSITION_DISC);
    var vaultId :- reader.U16();
    var nftId :- reader.U32();
    var positionMint :- reader.Take(32);
    var isSupplyOnlyPosition :- reader.U8();
    var tick :- reader.I32();
    var tickId :- reader.U32();
    var supplyAmount :- reader.U64();
    var dustDebtAmount :- reader.U64();
    return Ok(JupiterPosition(vaultId, nftId, positionMint, isSupplyOnlyPosition, tick, tickId,
                              supplyAmount, dustDebtAmount));
  }

  method DecodeTick(data: Bytes) returns (r: Result<JupiterTick>)
    ensures r == TickLayout(data)
  {
    var reader :- ByteReader.AfterDisc(data, TICK_DISC);
    var vaultId :- reader.U16();
    var tick :- reader.I32();
    var isLiquidated :- reader.U8();
    var totalIds :- reader.U32();
    var rawDebt :- reader.U64();
    var isFullyLiquidated :- reader.U8();
    var liquidationBranchId :- reader.U32();
    var debtFactor :- reader.U64();
    return Ok(JupiterTick(vaultId, tick, isLiquidated, totalIds, rawDebt, isFullyLiquidated,
                          liquidationBranchId, debtFactor));
  }

  method DecodeBranch(data: Bytes) returns (r: Result<JupiterBranch>)
    ensures r == BranchLayout(data)
  {
    var reader :- ByteReader.AfterDisc(data, BRANCH_DISC);
    var vaultId :- reader.U16();
    var branchId :- reader.U32();
    var status :- reader.U8();
    var minimaTick :- reader.I32();
    var minimaTickPartials :- reader.U32();
    var debtLiquidity :- reader.U64();
    var debtFactor :- reader.U64();
    var connectedBranchId :- reader.U32();
    var connectedMinimaTick :- reader.I32();
    return Ok(JupiterBranch(vaultId, branchId, status, minimaTick, minimaTickPartials, debtLiquidity,
                            debtFactor, connectedBranchId, connectedMinimaTick));
  }

  /** Three slots in a loop over a fixed array. */
  method DecodeTickIdLiquidation(data: Bytes) returns (r: Result<JupiterTickIdLiquidation>)
    ensures r == TickIdLiquidationLayout(data)
  {
    var reader :- ByteReader.AfterDisc(data, TICK_ID_LIQUIDATION_DISC);
    var vaultId :- reader.U16();
    var tick :- reader.I32();
    var tickMap :- reader.U32();
    var slots := new TickIdLiquidationSlot[3](_ => TickIdLiquidationSlot(0, 0, 0));
    for k := 0 to 3
      invariant reader.data == data && reader.i == 18 + 13 * k && reader.i <= |data|
      invariant fresh(reader) && fresh(slots)
      invariant forall j :: 0 <= j < k ==> slots[j] == SlotLayout(data, j)
    {
      var isFullyLiquidated :- reader.U8();
      var liquidationBranchId :- reader.U32();
      var debtFactor :- reader.U64();
      slots[k] := TickIdLiquidationSlot(isFullyLiquidated, liquidationBranchId, debtFactor);
    }
    assert slots[..] == [SlotLayout(data, 0), SlotLayout(data, 1), SlotLayout(data, 2)];
    return Ok(JupiterTickIdLiquidation(vaultId, tick, tickMap, slots[..]));
  }

  method DecodeVaultStatePrices(data: Bytes) returns (r: Result<JupiterVaultStatePrices>)
    ensures r == VaultStateLayout(data)
  {
    var reader :- ByteReader.AfterDisc(data, VAULT_STATE_DISC);
    var _ :- reader.U16(); // vault_id
    var _ :- reader.U8(); // branch_liquidated
    var _ :- reader.I32(); // topmost_tick
    var _ :- reader.U32(); // current_branch_id
    var _ :- reader.U32(); // total_branch_id
    var _ :- reader.U64(); // total_supply
    var _ :- reader.U64(); // total_borrow
    var _ :- reader.U32(); // total_positions
    var _ :- reader.Take(16); // absorbed_debt_amount
    var _ :- reader.Take(16); // absorbed_col_amount
    var _ :- reader.U64(); // absorbed_dust_debt
    var _ :- reader.U64(); // liquidity_supply_exchange_price
    var _ :- reader.U64(); // liquidity_borrow_exchange_price
    var supplyPrice :- reader.U64();
    var borrowPrice :- reader.U64();
    return Ok(JupiterVaultStatePrices(supplyPrice, borrowPrice));
  }

  /** The risk parameters of a VaultConfig, read past one by one. */
  method SkipRiskParameters(reader: ByteReader) returns (r: Result<()>)
    modifies reader`i
    ensures if ByteReader.Fits(reader.data, old(reader.i), 18) then r == Ok(()) && reader.i == old(reader.i) + 18
            else r == Err(InvalidJupiterAccount)
  {
    var _ :- reader.U16(); // vault_id
    var _ :- reader.Take(2); // supply_rate_magnifier
    var _ :- reader.Take(2); // borrow_rate_magnifier
    var _ :- reader.U16(); // collateral_factor
    var _ :- reader.U16(); // liquidation_threshold
    var _ :- reader.U16(); // liquidation_max_limit
    var _ :- reader.U16(); // withdraw_gap
    var _ :- reader.U16(); // liquidation_penalty
    var _ :- reader.U8(); // borrow_fee
    var _ :- reader.U8(); // vault_type
    return Ok(());
  }

  method DecodeVaultTokens(data: Bytes) returns (r: Result<JupiterVaultTokens>)
    ensures r == VaultConfigLayout(data)
  {
    var reader :- ByteReader.AfterDisc(data, VAULT_CONFIG_DISC);
    var _ :- SkipRiskParameters(reader);
    var _ :- reader.Take(32); // oracle
    var _ :- reader.Take(32); // rebalancer
    var _ :- reader.Take(32); // liquidity_program
    var _ :- reader.Take(32); // oracle_program
    var supplyToken :- reader.Take(32);
    var borrowToken :- reader.Take(32);
    return Ok(JupiterVaultTokens(supplyToken, borrowToken));
  }

  // ---------------------------------------------------------------- the client's decoders

  datatype PositionFields = PositionFields(
    vaultId: u16, nftId: u32, tick: i32, tickId: u32, supplyAmount: u64, dustDebtAmount: u64, isSupplyOnly: bool)

  datatype TickFields = TickFields(
    tick: i32, isLiquidated: bool, totalIds: u32, isFullyLiquidated: bool, liquidationBranchId: u32, debtFactor: u64)

  datatype BranchFields = BranchFields(
    branchId: u32, status: u8, minimaTick: i32, minimaTickPartials: u32, debtFactor: u64, connectedBranchId: u32)

  datatype SlotFields = SlotFields(isFullyLiquidated: bool, liquidationBranchId: u32, debtFactor: u64)

  function DecodeJupiterPositionFields(data: Bytes): Result<PositionFields> {
    if |data| < 71 then Err(ClientThrow)
    else
      Ok(PositionFields(U16At(data, 8), U32At(data, 10), I32At(data, 47), U32At(data, 51),
                        U64At(data, 55), U64At(data, 63), data[46] != 0))
  }

  function DecodeJupiterTickFields(data: Bytes): Result<TickFields> {
    if |data| < 40 then Err(ClientThrow)
    else
      Ok(TickFields(I32At(data, 10), data[14] != 0, U32At(data, 15), data[27] != 0,
                    U32At(data, 28), U64At(data, 32)))
  }

  function DecodeJupiterBranchFields(data: Bytes): Result<BranchFields> {
    if |data| < 43 then Err(ClientThrow)
    else
      Ok(BranchFields(U32At(data, 10), data[14], I32At(data, 15), U32At(data, 19),
                      U64At(data, 31), U32At(data, 39)))
  }

  function ClientSlots(data: Bytes): Result<seq<SlotFields>> {
    if |data| < 57 then Err(ClientThrow)
    else Ok(seq(3, k requires 0 <= k < 3 => SlotView(SlotLayout(data, k))))
  }

  function SlotView(slot: TickIdLiquidationSlot): SlotFields {
    SlotFields(slot.isFullyLiquidated != 0, slot.liquidationBranchId, slot.debtFactor)
  }

  /** The client's slot loop: push a slot, advance the offset. */
  method DecodeJupiterTickIdLiquidation(data: Bytes) returns (r: Result<seq<SlotFields>>)
    ensures r == ClientSlots(data)
  {
    if |data| < 57 {
      return Err(ClientThrow);
    }
    var slots := [];
    var offset := 18;
    for i := 0 to 3
      invariant offset == 18 + 13 * i && |slots| == i
      invariant forall j :: 0 <= j < i ==> slots[j] == SlotView(SlotLayout(data, j))
    {
      slots := slots + [SlotFields(data[offset] != 0, U32At(data, offset + 1), U64At(data, offset + 5))];
      offset := offset + 13;
    }
    assert slots == ClientSlots(data).value;
    return Ok(slots);
  }

  function LiquidationSlotIndex(tickId: u32): nat {
    (tickId + 2) % 3
  }

  /**
   * Both decoders read the same fields out of every buffer the program accepts, and the client
   * never throws on one.
   */
  lemma DecodersAgree(data: Bytes)
    ensures PositionLayout(data).Ok? ==>
              var p := PositionLayout(data).value;
              DecodeJupiterPositionFields(data)
              == Ok(PositionFields(p.vaultId, p.nftId, p.tick, p.tickId, p.supplyAmount, p.dustDebtAmount,
                                   p.isSupplyOnlyPosition != 0))
    ensures TickLayout(data).Ok? ==>
              var t := TickLayout(data).value;
              DecodeJupiterTickFields(data)
              == Ok(TickFields(t.tick, t.isLiquidated != 0, t.totalIds, t.isFullyLiquidated != 0,
                               t.liquidationBranchId, t.debtFactor))
    ensures BranchLayout(data).Ok? ==>
              var b := BranchLayout(data).value;
              DecodeJupiterBranchFields(data)
              == Ok(BranchFields(b.branchId, b.status, b.minimaTick, b.minimaTickPartials, b.debtFactor,
                                 b.connectedBranchId))
    ensures TickIdLiquidationLayout(data).Ok? ==>
              ClientSlots(data).Ok? && |ClientSlots(data).value| == 3
              && forall k :: 0 <= k < 3 ==>
                   ClientSlots(data).value[k] == SlotView(TickIdLiquidationLayout(data).value.slots[k])
  {
  }
}
