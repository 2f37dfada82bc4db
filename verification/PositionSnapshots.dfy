/**
 * The position snapshot and its wire form: 225 big-endian bytes, framed for LayerZero by a
 * 32-byte length header. Chainlink carries the 225 bytes alone.
 */
module PositionSnapshots {
  import opened Outcome
  import opened Bytes
  import opened MsgCodec

  const BODY_LEN := 225

  datatype PositionSnapshot = PositionSnapshot(
    position: Pubkey,
    vaultId: u16,
    nftId: u32,
    positionMint: Pubkey,
    supplyToken: Pubkey,
    borrowToken: Pubkey,
    colRaw: u64,
    debtRaw: u64,
    dustDebt: u64,
    netDebt: u64,
    tick: i32,
    tickId: u32,
    storedColRaw: u64,
    storedDebtRaw: u64,
    storedTick: i32,
    isSupplyOnly: bool,
    isLiquidated: bool,
    isFullyLiquidated: bool,
    branchId: u32,
    vaultSupplyExchangePrice: u64,
    vaultBorrowExchangePrice: u64,
    snapshotTime: i64
  )

  function FlagByte(b: bool): u8 {
    if b then 1 else 0
  }

  // The fields in wire order: numbers 0, 3, 4 and 5 are keys, the others unsigned integers.

  predicate IsKey(k: nat) {
    k == 0 || k == 3 || k == 4 || k == 5
  }

  function KeyField(s: PositionSnapshot, k: nat): Pubkey
    requires IsKey(k)
  {
    if k == 0 then s.position
    else if k == 3 then s.positionMint
    else if k == 4 then s.supplyToken
    else s.borrowToken
  }

  function NumberField(s: PositionSnapshot, k: nat): u64 {
    if k == 1 then s.vaultId
    else if k == 2 then s.nftId
    else if k == 6 then s.colRaw
    else if k == 7 then s.debtRaw
    else if k == 8 then s.dustDebt
    else if k == 9 then s.netDebt
    else if k == 10 then FromI32(s.tick)
    else if k == 11 then s.tickId
    else if k == 12 then s.storedColRaw
    else if k == 13 then s.storedDebtRaw
    else if k == 14 then FromI32(s.storedTick)
    else if k == 15 then FlagByte(s.isSupplyOnly)
    else if k == 16 then FlagByte(s.isLiquidated)
    else if k == 17 then FlagByte(s.isFullyLiquidated)
    else if k == 18 then s.branchId
    else if k == 19 then s.vaultSupplyExchangePrice
    else if k == 20 then s.vaultBorrowExchangePrice
    else FromI64(s.snapshotTime)
  }

  function Width(k: nat): nat {
    if IsKey(k) then 32
    else if k == 1 then 2
    else if k in {2, 10, 11, 14, 18} then 4
    else if k in {15, 16, 17} then 1
    else 8
  }

  function Piece(s: PositionSnapshot, k: nat): (piece: Bytes)
    requires k < 22
    ensures |piece| == Width(k)
  {
    if IsKey(k) then KeyField(s, k) else ToBE(NumberField(s, k), Width(k))
  }

  /** The first `k` pieces, one after the other. */
  function Join(s: PositionSnapshot, k: nat): Bytes
    requires k <= 22
  {
    if k == 0 then [] else Join(s, k - 1) + Piece(s, k - 1)
  }

  function EncodedBody(s: PositionSnapshot): Bytes {
    Join(s, 22)
  }

  function Encoded(s: PositionSnapshot): Bytes {
    Framed(EncodedBody(s))
  }

  /** Where each field starts: the widths of the fields before it, added up. */
  function Offset(k: nat): nat
    requires k <= 22
  {
    if k == 0 then 0
    else if k == 1 then 32
    else if k == 2 then 34
    else if k == 3 then 38
    else if k == 4 then 70
    else if k == 5 then 102
    else if k == 6 then 134
    else if k == 7 then 142
    else if k == 8 then 150
    else if k == 9 then 158
    else if k == 10 then 166
    else if k == 11 then 170
    else if k == 12 then 174
    else if k == 13 then 182
    else if k == 14 then 190
    else if k == 15 then 194
    else if k == 16 then 195
    else if k == 17 then 196
    else if k == 18 then 197
    else if k == 19 then 201
    else if k == 20 then 209
    else if k == 21 then 217
    else 225
  }

  lemma OffsetStep(k: nat)
    requires k < 22
    ensures Offset(k + 1) == Offset(k) + Width(k)
  {
  }

  lemma {:induction false} JoinLength(s: PositionSnapshot, k: nat)
    requires k <= 22
    ensures |Join(s, k)| == Offset(k)
  {
    if k > 0 {
      JoinLength(s, k - 1);
      OffsetStep(k - 1);
    }
  }

  lemma SliceOfSum(a: Bytes, b: Bytes, low: nat, high: nat)
    requires low <= high
    ensures high <= |a| ==> (a + b)[low..high] == a[low..high]
    ensures low == |a| && high == |a| + |b| ==> (a + b)[low..high] == b
  {
  }

  /** Appending keeps what was appended before where it was. */
  lemma {:induction false} PieceAt(s: PositionSnapshot, k: nat, n: nat, low: nat, high: nat)
    requires k < n <= 22 && low == |Join(s, k)| && high == low + |Piece(s, k)|
    ensures high <= |Join(s, n)| && Join(s, n)[low..high] == Piece(s, k)
    decreases n
  {
    SliceOfSum(Join(s, n - 1), Piece(s, n - 1), low, high);
    if n > k + 1 {
      PieceAt(s, k, n - 1, low, high);
    }
  }

  lemma FlagPieces(s: PositionSnapshot)
    ensures Piece(s, 15) == [FlagByte(s.isSupplyOnly)] && Piece(s, 16) == [FlagByte(s.isLiquidated)]
    ensures Piece(s, 17) == [FlagByte(s.isFullyLiquidated)]
  {
  }

  /** `body.extend_from_slice(piece)`, where `piece` is field `k`. */
  method Extend(ghost s: PositionSnapshot, ghost k: nat, body: Bytes, piece: Bytes) returns (longer: Bytes)
    requires k < 22 && piece == Piece(s, k) && body == Join(s, k)
    ensures longer == Join(s, k + 1)
  {
    longer := body + piece;
  }

  // The program's encoder appends field by field: keys and ids, then amounts, then the rest.

  method AppendKeys(s: PositionSnapshot) returns (body: Bytes)
    ensures body == Join(s, 6)
  {
    body := [];
    body := Extend(s, 0, body, s.position);
    body := Extend(s, 1, body, ToBE(s.vaultId, 2));
    body := Extend(s, 2, body, ToBE(s.nftId, 4));
    body := Extend(s, 3, body, s.positionMint);
    body := Extend(s, 4, body, s.supplyToken);
    body := Extend(s, 5, body, s.borrowToken);
  }

  method AppendAmounts(s: PositionSnapshot, start: Bytes) returns (body: Bytes)
    requires start == Join(s, 6)
    ensures body == Join(s, 15)
  {
    body := start;
    body := Extend(s, 6, body, ToBE(s.colRaw, 8));
    body := Extend(s, 7, body, ToBE(s.debtRaw, 8));
    body := Extend(s, 8, body, ToBE(s.dustDebt, 8));
    body := Extend(s, 9, body, ToBE(s.netDebt, 8));
    body := AppendTicks(s, body);
  }

  method AppendTicks(s: PositionSnapshot, start: Bytes) returns (body: Bytes)
    requires start == Join(s, 10)
    ensures body == Join(s, 15)
  {
    body := start;
    body := Extend(s, 10, body, ToBE(FromI32(s.tick), 4));
    body := Extend(s, 11, body, ToBE(s.tickId, 4));
    body := Extend(s, 12, body, ToBE(s.storedColRaw, 8));
    body := Extend(s, 13, body, ToBE(s.storedDebtRaw, 8));
    body := Extend(s, 14, body, ToBE(FromI32(s.storedTick), 4));
  }

  method AppendRest(s: PositionSnapshot, start: Bytes) returns (body: Bytes)
    requires start == Join(s, 15)
    ensures body == Join(s, 22)
  {
    FlagPieces(s);
    body := start;
    body := Extend(s, 15, body, [FlagByte(s.isSupplyOnly)]);
    body := Extend(s, 16, body, [FlagByte(s.isLiquidated)]);
    body := Extend(s, 17, body, [FlagByte(s.isFullyLiquidated)]);
    body := Extend(s, 18, body, ToBE(s.branchId, 4));
    body := Extend(s, 19, body, ToBE(s.vaultSupplyExchangePrice, 8));
    body := Extend(s, 20, body, ToBE(s.vaultBorrowExchangePrice, 8));
    body := Extend(s, 21, body, ToBE(FromI64(s.snapshotTime), 8));
  }

  method EncodeBody(s: PositionSnapshot) returns (body: Bytes)
    ensures body == EncodedBody(s)
  {
    body := AppendKeys(s);
    body := AppendAmounts(s, body);
    body := AppendRest(s, body);
  }

  method Encode(s: PositionSnapshot) returns (message: Bytes)
    ensures message == Encoded(s)
  {
    var body := EncodeBody(s);
    message := WrapLzPayload(body);
  }

  function DecodeBody(body: Bytes): PositionSnapshot
    requires |body| == BODY_LEN
  {
    PositionSnapshot(
      body[0..32],
      BE16(body[32..34]),
      BE32(body[34..38]),
      body[38..70],
      body[70..102],
      body[102..134],
      BE64(body[134..142]),
      BE64(body[142..150]),
      BE64(body[150..158]),
      BE64(body[158..166]),
      ToI32(BE32(body[166..170])),
      BE32(body[170..174]),
      BE64(body[174..182]),
      BE64(body[182..190]),
      ToI32(BE32(body[190..194])),
      body[194] != 0,
      body[195] != 0,
      body[196] != 0,
      BE32(body[197..201]),
      BE64(body[201..209]),
      BE64(body[209..217]),
      ToI64(BE64(body[217..225]))
    )
  }

  function Decode(buf: Bytes): Result<PositionSnapshot> {
    var body :- UnwrapLzPayload(buf);
    if |body| != BODY_LEN then Err(BodyTooShort) else Ok(DecodeBody(body))
  }

  // ---------------------------------------------------------------- round trip

  /** The number read back from a fixed-offset slice. */
  function NumberAt(body: Bytes, k: nat): nat
    requires |body| == BODY_LEN && k < 22
  {
    OffsetRange(k);
    FromBE(body[Offset(k)..Offset(k + 1)])
  }

  lemma OffsetRange(k: nat)
    requires k < 22
    ensures Offset(k) + Width(k) == Offset(k + 1) <= BODY_LEN
  {
  }

  lemma NumberFieldFits(s: PositionSnapshot, k: nat)
    requires k < 22 && !IsKey(k)
    ensures NumberField(s, k) < Span(Width(k))
  {
    Spans();
  }

  /** Every fixed-offset read of the body gives the field that was written there. */
  lemma FieldReadsBack(s: PositionSnapshot, k: nat)
    requires k < 22
    ensures |EncodedBody(s)| == BODY_LEN
    ensures Offset(k) <= Offset(k + 1) <= BODY_LEN
    ensures IsKey(k) ==> EncodedBody(s)[Offset(k)..Offset(k + 1)] == KeyField(s, k)
    ensures !IsKey(k) ==> FromBE(EncodedBody(s)[Offset(k)..Offset(k + 1)]) == NumberField(s, k)
  {
    JoinLength(s, k);
    JoinLength(s, 22);
    OffsetRange(k);
    PieceAt(s, k, 22, Offset(k), Offset(k + 1));
    if !IsKey(k) {
      NumberFieldFits(s, k);
      FromToBE(NumberField(s, k), Width(k));
    }
  }

  /** The wire layout, field by field: keys and ids. */
  lemma LayoutOfKeys(s: PositionSnapshot)
    ensures var body := EncodedBody(s);
            && |body| == 225
            && body[0..32] == s.position && FromBE(body[32..34]) == s.vaultId && FromBE(body[34..38]) == s.nftId
            && body[38..70] == s.positionMint && body[70..102] == s.supplyToken && body[102..134] == s.borrowToken
  {
    FieldReadsBack(s, 0);
    FieldReadsBack(s, 1);
    FieldReadsBack(s, 2);
    FieldReadsBack(s, 3);
    FieldReadsBack(s, 4);
    FieldReadsBack(s, 5);
  }

  /** The wire layout, field by field: amounts and ticks. */
  lemma LayoutOfAmounts(s: PositionSnapshot)
    ensures var body := EncodedBody(s);
            && |body| == 225
            && FromBE(body[134..142]) == s.colRaw && FromBE(body[142..150]) == s.debtRaw
            && FromBE(body[150..158]) == s.dustDebt && FromBE(body[158..166]) == s.netDebt
            && FromBE(body[166..170]) == FromI32(s.tick) && FromBE(body[170..174]) == s.tickId
            && FromBE(body[174..182]) == s.storedColRaw && FromBE(body[182..190]) == s.storedDebtRaw
            && FromBE(body[190..194]) == FromI32(s.storedTick)
  {
    FieldReadsBack(s, 6);
    FieldReadsBack(s, 7);
    FieldReadsBack(s, 8);
    FieldReadsBack(s, 9);
    FieldReadsBack(s, 10);
    FieldReadsBack(s, 11);
    FieldReadsBack(s, 12);
    FieldReadsBack(s, 13);
    FieldReadsBack(s, 14);
  }

  /** The wire layout, field by field: flags, branch, prices and time. */
  lemma LayoutOfRest(s: PositionSnapshot)
    ensures var body := EncodedBody(s);
            && |body| == 225
            && body[194] == (if s.isSupplyOnly then 1 else 0) && body[195] == (if s.isLiquidated then 1 else 0)
            && body[196] == (if s.isFullyLiquidated then 1 else 0) && FromBE(body[197..201]) == s.branchId
            && FromBE(body[201..209]) == s.vaultSupplyExchangePrice
            && FromBE(body[209..217]) == s.vaultBorrowExchangePrice
            && FromBE(body[217..225]) == FromI64(s.snapshotTime)
  {
    FieldReadsBack(s, 15);
    FieldReadsBack(s, 16);
    FieldReadsBack(s, 17);
    OneByte(EncodedBody(s), 194);
    OneByte(EncodedBody(s), 195);
    OneByte(EncodedBody(s), 196);
    FieldReadsBack(s, 18);
    FieldReadsBack(s, 19);
    FieldReadsBack(s, 20);
    FieldReadsBack(s, 21);
  }

  lemma DecodesKeys(s: PositionSnapshot)
    ensures |EncodedBody(s)| == BODY_LEN
    ensures var d := DecodeBody(EncodedBody(s));
            d.position == s.position && d.vaultId == s.vaultId && d.nftId == s.nftId
            && d.positionMint == s.positionMint && d.supplyToken == s.supplyToken && d.borrowToken == s.borrowToken
  {
    FieldReadsBack(s, 0);
    FieldReadsBack(s, 1);
    FieldReadsBack(s, 2);
    FieldReadsBack(s, 3);
    FieldReadsBack(s, 4);
    FieldReadsBack(s, 5);
  }

  lemma DecodesAmounts(s: PositionSnapshot)
    ensures |EncodedBody(s)| == BODY_LEN
    ensures var d := DecodeBody(EncodedBody(s));
            d.colRaw == s.colRaw && d.debtRaw == s.debtRaw && d.dustDebt == s.dustDebt && d.netDebt == s.netDebt
            && d.tick == s.tick && d.tickId == s.tickId && d.storedColRaw == s.storedColRaw
            && d.storedDebtRaw == s.storedDebtRaw && d.storedTick == s.storedTick
  {
    FieldReadsBack(s, 6);
    FieldReadsBack(s, 7);
    FieldReadsBack(s, 8);
    FieldReadsBack(s, 9);
    FieldReadsBack(s, 10);
    FieldReadsBack(s, 11);
    FieldReadsBack(s, 12);
    FieldReadsBack(s, 13);
    FieldReadsBack(s, 14);
  }

  lemma OneByte(body: Bytes, i: nat)
    requires i < |body|
    ensures FromBE(body[i..i + 1]) == body[i]
  {
    assert body[i..i + 1] == [body[i]];
    assert FromBE([]) == 0;
    assert [body[i]][..0] == [];
  }

  lemma DecodesRest(s: PositionSnapshot)
    ensures |EncodedBody(s)| == BODY_LEN
    ensures EncodedBody(s)[194] == FlagByte(s.isSupplyOnly) && EncodedBody(s)[195] == FlagByte(s.isLiquidated)
    ensures EncodedBody(s)[196] == FlagByte(s.isFullyLiquidated)
    ensures var d := DecodeBody(EncodedBody(s));
            d.isSupplyOnly == s.isSupplyOnly && d.isLiquidated == s.isLiquidated
            && d.isFullyLiquidated == s.isFullyLiquidated && d.branchId == s.branchId
            && d.vaultSupplyExchangePrice == s.vaultSupplyExchangePrice
            && d.vaultBorrowExchangePrice == s.vaultBorrowExchangePrice && d.snapshotTime == s.snapshotTime
  {
    FieldReadsBack(s, 15);
    FieldReadsBack(s, 16);
    FieldReadsBack(s, 17);
    OneByte(EncodedBody(s), 194);
    OneByte(EncodedBody(s), 195);
    OneByte(EncodedBody(s), 196);
    FieldReadsBack(s, 18);
    FieldReadsBack(s, 19);
    FieldReadsBack(s, 20);
    FieldReadsBack(s, 21);
  }

  lemma DecodeEncodedBody(s: PositionSnapshot)
    ensures |EncodedBody(s)| == BODY_LEN && DecodeBody(EncodedBody(s)) == s
  {
    DecodesKeys(s);
    DecodesAmounts(s);
    DecodesRest(s);
  }

  /**
   * Every snapshot survives the trip whatever bytes follow it, its body is 225 bytes, and the
   * LayerZero message unwraps to exactly the bytes Chainlink carries.
   */
  lemma RoundTrip(s: PositionSnapshot, suffix: Bytes)
    ensures Decode(Encoded(s) + suffix) == Ok(s)
    ensures |EncodedBody(s)| == BODY_LEN && UnwrapLzPayload(Encoded(s)) == Ok(EncodedBody(s))
  {
    DecodeEncodedBody(s);
    UnwrapFramed(EncodedBody(s), suffix);
    UnwrapFramed(EncodedBody(s), []);
    assert Encoded(s) + [] == Encoded(s);
  }

  /** The three flag bytes are 0 or 1. */
  predicate CanonicalFlags(body: Bytes)
    requires |body| == BODY_LEN
  {
    body[194] <= 1 && body[195] <= 1 && body[196] <= 1
  }

  lemma NumberOfDecoded(body: Bytes, k: nat)
    requires |body| == BODY_LEN && CanonicalFlags(body) && k < 22 && !IsKey(k)
    ensures NumberField(DecodeBody(body), k) == NumberAt(body, k)
  {
    OneByte(body, 194);
    OneByte(body, 195);
    OneByte(body, 196);
  }

  ghost predicate PieceMatches(s: PositionSnapshot, body: Bytes, k: nat)
    requires k < 22 && |body| == BODY_LEN
  {
    OffsetRange(k);
    Piece(s, k) == body[Offset(k)..Offset(k + 1)]
  }

  lemma PieceOfDecoded(body: Bytes, k: nat)
    requires |body| == BODY_LEN && CanonicalFlags(body) && k < 22
    ensures PieceMatches(DecodeBody(body), body, k)
  {
    OffsetRange(k);
    if !IsKey(k) {
      NumberOfDecoded(body, k);
      ToFromBE(body[Offset(k)..Offset(k + 1)]);
    }
  }

  lemma {:induction false} JoinOfMatching(s: PositionSnapshot, body: Bytes, k: nat)
    requires |body| == BODY_LEN && k <= 22
    requires forall j :: 0 <= j < 22 ==> PieceMatches(s, body, j)
    ensures Offset(k) <= BODY_LEN && Join(s, k) == body[..Offset(k)]
  {
    if k > 0 {
      var j := k - 1;
      JoinOfMatching(s, body, j);
      OffsetRange(j);
      assert PieceMatches(s, body, j);
      assert body[..Offset(j)] + body[Offset(j)..Offset(k)] == body[..Offset(k)];
    }
  }

  lemma EncodedBodyOfDecoded(body: Bytes)
    requires |body| == BODY_LEN && CanonicalFlags(body)
    ensures EncodedBody(DecodeBody(body)) == body
  {
    forall j | 0 <= j < 22
      ensures PieceMatches(DecodeBody(body), body, j)
    {
      PieceOfDecoded(body, j);
    }
    JoinOfMatching(DecodeBody(body), body, 22);
    assert body[..225] == body;
  }

  /**
   * Bytes that decode re-encode to themselves exactly when the 28 unread header bytes are zero
   * and the flags are canonical.
   */
  lemma ReencodeIffCanonical(buf: Bytes)
    requires Decode(buf).Ok?
    ensures var body := UnwrapLzPayload(buf).value;
            257 <= |buf|
            && (Encoded(Decode(buf).value) == buf[..257] <==> buf[..28] == Zeros(28) && CanonicalFlags(body))
  {
    var body := UnwrapLzPayload(buf).value;
    var s := DecodeBody(body);
    FramedUnwrap(buf);
    DecodesRest(s);
    assert body == buf[32..257];
    if CanonicalFlags(body) {
      EncodedBodyOfDecoded(body);
    }
    if Encoded(s) == buf[..257] {
      assert Encoded(s)[32..] == buf[..257][32..] == body;
      assert Encoded(s)[32..] == EncodedBody(s);
    }
  }

  /** A message decodes exactly when it declares a body of 225 bytes and has them. */
  lemma DecodesIff(buf: Bytes)
    ensures Decode(buf).Ok? <==> |buf| >= 257 && FromBE(buf[28..32]) == 225
  {
    UnwrapRefuses(buf);
  }

  // ---------------------------------------------------------------- the client's in-place encoder

  /** The 32-byte header in front of a snapshot body. */
  function Header(): Bytes {
    Zeros(28) + ToBE(BODY_LEN, 4)
  }

  /** One write of the client: field `k` at its hard-coded offset, everything before it done. */
  method Put(out: array<u8>, s: PositionSnapshot, ghost k: nat, at: nat, bytes: Bytes)
    requires k < 22 && at == 32 + Offset(k) && bytes == Piece(s, k)
    requires out.Length == 257 && out[..at] == Header() + Join(s, k)
    modifies out
    ensures 32 + Offset(k + 1) <= 257 && out[..32 + Offset(k + 1)] == Header() + Join(s, k + 1)
  {
    OffsetRange(k);
    WriteAt(out, at, bytes);
  }

  // The client's writes, in order, at the offsets it hard-codes.

  method WriteKeys(out: array<u8>, s: PositionSnapshot)
    requires out.Length == 257 && out[..32] == Header() + Join(s, 0)
    modifies out
    ensures out[..166] == Header() + Join(s, 6)
  {
    Put(out, s, 0, 32, s.position);
    Put(out, s, 1, 64, ToBE(s.vaultId, 2));
    Put(out, s, 2, 66, ToBE(s.nftId, 4));
    Put(out, s, 3, 70, s.positionMint);
    Put(out, s, 4, 102, s.supplyToken);
    Put(out, s, 5, 134, s.borrowToken);
  }

  method WriteAmounts(out: array<u8>, s: PositionSnapshot)
    requires out.Length == 257 && out[..166] == Header() + Join(s, 6)
    modifies out
    ensures out[..226] == Header() + Join(s, 15)
  {
    Put(out, s, 6, 166, ToBE(s.colRaw, 8));
    Put(out, s, 7, 174, ToBE(s.debtRaw, 8));
    Put(out, s, 8, 182, ToBE(s.dustDebt, 8));
    Put(out, s, 9, 190, ToBE(s.netDebt, 8));
    Put(out, s, 10, 198, ToBE(FromI32(s.tick), 4));
    Put(out, s, 11, 202, ToBE(s.tickId, 4));
    Put(out, s, 12, 206, ToBE(s.storedColRaw, 8));
    Put(out, s, 13, 214, ToBE(s.storedDebtRaw, 8));
    Put(out, s, 14, 222, ToBE(FromI32(s.storedTick), 4));
  }

  method WriteRest(out: array<u8>, s: PositionSnapshot)
    requires out.Length == 257 && out[..226] == Header() + Join(s, 15)
    modifies out
    ensures out[..257] == Header() + Join(s, 22)
  {
    FlagPieces(s);
    Put(out, s, 15, 226, [FlagByte(s.isSupplyOnly)]);
    Put(out, s, 16, 227, [FlagByte(s.isLiquidated)]);
    Put(out, s, 17, 228, [FlagByte(s.isFullyLiquidated)]);
    Put(out, s, 18, 229, ToBE(s.branchId, 4));
    Put(out, s, 19, 233, ToBE(s.vaultSupplyExchangePrice, 8));
    Put(out, s, 20, 241, ToBE(s.vaultBorrowExchangePrice, 8));
    Put(out, s, 21, 249, ToBE(FromI64(s.snapshotTime), 8));
  }

  /** Writing each field at its fixed offset gives the same 257 bytes the program sends. */
  method EncodePositionSnapshot(s: PositionSnapshot) returns (out: array<u8>)
    ensures fresh(out) && out[..] == Encoded(s)
  {
    out := new u8[32 + BODY_LEN](_ => 0);
    assert out[..28] == Zeros(28);
    WriteAt(out, 28, ToBE(BODY_LEN, 4));
    WriteKeys(out, s);
    WriteAmounts(out, s);
    WriteRest(out, s);
    JoinLength(s, 22);
    assert out[..] == out[..257];
  }
}
