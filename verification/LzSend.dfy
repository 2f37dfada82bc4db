/**
 * The client's half of a LayerZero bridge transaction: the issuer's `send`, built to sit right
 * after the program's release and to pass its guard.
 */
module LzSend {
  import opened Outcome
  import opened Bytes
  import opened OftSend
  import opened BridgeRoutes
  import opened ReleaseGuard

  datatype LzIssuer =
    | StandardOft(escrow: Key)
    | Usdt0(escrow: Key)
    | Usdai(store: Key, pauseConfig: Key, feeConfig: Key, defaultRateLimit: Key, rateLimit: Key, feeDeposit: Key)

  datatype LzTokenProfile = LzTokenProfile(
    mint: Key,
    issuerProgram: Key,
    tokenProgram: Key,
    dstEid: u32,
    issuer: LzIssuer,
    minUnderBps: nat,
    options: Bytes,
    nativeFeeCapLamports: int
  )

  /** Where each issuer's send lists the sender's token account. */
  function TokenSourceIndex(token: LzTokenProfile): nat {
    match token.issuer
    case StandardOft(_) => 3
    case Usdt0(_) => 4
    case Usdai(_, _, _, _, _, _) => 9
  }

  // ---------------------------------------------------------------- the data

  predicate FitsU64(x: int) {
    0 <= x < 0x1_0000_0000_0000_0000
  }

  /** The arguments the buffer writers take without throwing. */
  predicate Writable(amountLd: int, minAmountLd: int, options: Bytes, nativeFee: int) {
    FitsU64(amountLd) && FitsU64(minAmountLd) && FitsU64(nativeFee) && |options| < 0x1_0000_0000
  }

  /**
   * The client writes the send's arguments into a zeroed buffer at an advancing offset, and ends
   * up with exactly the bytes the program's own builder appends.
   */
  method OftSendBuffer(dstEid: u32, to: Pubkey, amountLd: int, minAmountLd: int, options: Bytes, nativeFee: int)
    returns (r: Result<array<u8>>)
    ensures Writable(amountLd, minAmountLd, options, nativeFee) ==>
              && r.Ok? && fresh(r.value)
              && r.value[..] == SendBytes(OftSendParams(dstEid, to, amountLd, minAmountLd, options, None, nativeFee, 0))
    ensures !Writable(amountLd, minAmountLd, options, nativeFee) ==> r == Err(ClientThrow)
  {
    if !Writable(amountLd, minAmountLd, options, nativeFee) {
      return Err(ClientThrow);
    }
    var p := OftSendParams(dstEid, to, amountLd, minAmountLd, options, None, nativeFee, 0);
    var data := new u8[8 + 4 + 32 + 8 + 8 + 4 + |options| + 1 + 8 + 8](_ => 0);
    var o := WriteHead(data, p);
    assert data[..o] == OFT_SEND_DISCRIMINATOR + BorshHead(p);
    o := WriteTail(data, o, p);
    SendLength(p);
    assert data[..o] == data[..];
    return Ok(data);
  }

  method WriteHead(data: array<u8>, p: OftSendParams) returns (o: nat)
    requires data.Length >= 60
    modifies data
    ensures o == 60 && data[..o] == OFT_SEND_DISCRIMINATOR + BorshHead(p)
  {
    o := 0;
    WriteAt(data, o, OFT_SEND_DISCRIMINATOR);
    o := o + 8;
    WriteAt(data, o, ToLE(p.dstEid, 4));
    o := o + 4;
    WriteAt(data, o, p.to);
    o := o + 32;
    WriteAt(data, o, ToLE(p.amountLd, 8));
    o := o + 8;
    WriteAt(data, o, ToLE(p.minAmountLd, 8));
    o := o + 8;
    assert data[..o] == OFT_SEND_DISCRIMINATOR + BorshHead(p);
  }

  method WriteTail(data: array<u8>, start: nat, p: OftSendParams) returns (o: nat)
    requires start + 21 + |p.options| == data.Length && p.composeMsg == None && p.lzTokenFee == 0
    modifies data
    ensures o == data.Length && data[..o] == old(data[..start]) + BorshTail(p)
  {
    o := WriteOptions(data, start, p);
    o := WriteFees(data, o, p);
    AppendAll(old(data[..start]), ToLE(|p.options|, 4), p.options, [0], ToLE(p.nativeFee, 8), ToLE(0, 8));
  }

  method WriteOptions(data: array<u8>, start: nat, p: OftSendParams) returns (o: nat)
    requires start + 4 + |p.options| <= data.Length
    modifies data
    ensures o == start + 4 + |p.options| && data[..o] == old(data[..start]) + ToLE(|p.options|, 4) + p.options
  {
    o := start;
    WriteAt(data, o, ToLE(|p.options|, 4));
    o := o + 4;
    WriteAt(data, o, p.options);
    o := o + |p.options|;
  }

  method WriteFees(data: array<u8>, start: nat, p: OftSendParams) returns (o: nat)
    requires start + 17 == data.Length
    modifies data
    ensures o == data.Length && data[..o] == old(data[..start]) + [0] + ToLE(p.nativeFee, 8) + ToLE(0, 8)
  {
    o := start;
    WriteAt(data, o, [0]); // compose_msg = None
    o := o + 1;
    WriteAt(data, o, ToLE(p.nativeFee, 8));
    o := o + 8;
    WriteAt(data, o, ToLE(0, 8)); // lz_token_fee
    o := o + 8;
  }

  lemma AppendAll(start: Bytes, a: Bytes, b: Bytes, c: Bytes, d: Bytes, e: Bytes)
    ensures start + a + b + c + d + e == start + (a + b + c + d + e)
  {
  }

  /** Integer division as the client's big integers do it, towards zero. */
  function Truncated(a: int, b: int): int
    requires b > 0
  {
    if a >= 0 then a / b else -((-a) / b)
  }

  function LzMinAmount(amount: int, minUnderBps: nat): int {
    amount - Truncated(amount * minUnderBps, 10_000)
  }

  // ---------------------------------------------------------------- the accounts

  function WritableMeta(key: Key): AccountMeta {
    AccountMeta(key, false, true)
  }

  function ReadonlyMeta(key: Key): AccountMeta {
    AccountMeta(key, false, false)
  }

  function EventAuthority(program: Key): Key {
    Derived(program, [Text("__event_authority")])
  }

  function IssuerAccounts(token: LzTokenProfile, signer: Key, tokenSource: Key): seq<AccountMeta> {
    var program := token.issuerProgram;
    var eid := Raw(ToBE(token.dstEid, 4));
    var first := [AccountMeta(signer, true, true)];
    var last := [ReadonlyMeta(token.tokenProgram), ReadonlyMeta(EventAuthority(program)), ReadonlyMeta(program)];
    match token.issuer
    case StandardOft(escrow) =>
      var store := Derived(program, [Text("OFT"), OfKey(escrow)]);
      var peer := Derived(program, [Text("Peer"), OfKey(store), eid]);
      first + [WritableMeta(peer), WritableMeta(store), WritableMeta(tokenSource), WritableMeta(escrow),
               WritableMeta(token.mint)] + last
    case Usdt0(escrow) =>
      var store := Derived(program, [Text("OFT")]);
      var peer := Derived(program, [Text("Peer"), eid]);
      var credits := Derived(program, [Text("Credits")]);
      first + [ReadonlyMeta(peer), WritableMeta(store), WritableMeta(credits), WritableMeta(tokenSource),
               WritableMeta(escrow), ReadonlyMeta(token.mint)] + last
    case Usdai(store, pauseConfig, feeConfig, defaultRateLimit, rateLimit, feeDeposit) =>
      var peer := Derived(program, [Text("Peer"), OfKey(store), eid]);
      var enforcedOptions := Derived(program, [Text("EnforcedOptions"), OfKey(store), eid, Raw([0, 1])]);
      var exemption := Derived(program, [Text("RateLimitExemption"), OfKey(store), OfKey(signer)]);
      var escrow := Derived(program, [Text("Escrow"), OfKey(store)]);
      first + [ReadonlyMeta(store), ReadonlyMeta(peer), ReadonlyMeta(enforcedOptions), ReadonlyMeta(pauseConfig),
               ReadonlyMeta(feeConfig), WritableMeta(defaultRateLimit), WritableMeta(rateLimit), ReadonlyMeta(exemption)]
      + [WritableMeta(tokenSource), WritableMeta(escrow), WritableMeta(feeDeposit), WritableMeta(token.mint)] + last
  }

  /** Whatever accounts LayerZero appends, the sender's token account is at the route's index. */
  lemma TokenSourceAtIndex(token: LzTokenProfile, signer: Key, tokenSource: Key, layerZero: seq<AccountMeta>)
    ensures var metas := IssuerAccounts(token, signer, tokenSource) + layerZero;
            TokenSourceIndex(token) < |metas| && metas[TokenSourceIndex(token)].pubkey == tokenSource
  {
  }

  /** The standard program's nine accounts: the store hangs off the escrow, the peer off the store. */
  lemma StandardOftAccounts(token: LzTokenProfile, escrow: Key, signer: Key, tokenSource: Key)
    requires token.issuer == StandardOft(escrow)
    ensures var p := token.issuerProgram;
            var store := Derived(p, [Text("OFT"), OfKey(escrow)]);
            IssuerAccounts(token, signer, tokenSource) == [
              AccountMeta(signer, true, true),
              AccountMeta(Derived(p, [Text("Peer"), OfKey(store), Raw(ToBE(token.dstEid, 4))]), false, true),
              AccountMeta(store, false, true),
              AccountMeta(tokenSource, false, true),
              AccountMeta(escrow, false, true),
              AccountMeta(token.mint, false, true),
              AccountMeta(token.tokenProgram, false, false),
              AccountMeta(Derived(p, [Text("__event_authority")]), false, false),
              AccountMeta(p, false, false)]
  {
  }

  /** Tether's ten: fixed addresses, a read-only peer and mint, and its credits. */
  lemma Usdt0Accounts(token: LzTokenProfile, escrow: Key, signer: Key, tokenSource: Key)
    requires token.issuer == Usdt0(escrow)
    ensures var p := token.issuerProgram;
            IssuerAccounts(token, signer, tokenSource) == [
              AccountMeta(signer, true, true),
              AccountMeta(Derived(p, [Text("Peer"), Raw(ToBE(token.dstEid, 4))]), false, false),
              AccountMeta(Derived(p, [Text("OFT")]), false, true),
              AccountMeta(Derived(p, [Text("Credits")]), false, true),
              AccountMeta(tokenSource, false, true),
              AccountMeta(escrow, false, true),
              AccountMeta(token.mint, false, false),
              AccountMeta(token.tokenProgram, false, false),
              AccountMeta(Derived(p, [Text("__event_authority")]), false, false),
              AccountMeta(p, false, false)]
  {
  }

  /** USD.AI's sixteen, per store. */
  lemma UsdaiAccounts(token: LzTokenProfile, signer: Key, tokenSource: Key)
    requires token.issuer.Usdai?
    ensures var p, i := token.issuerProgram, token.issuer;
            var eid := Raw(ToBE(token.dstEid, 4));
            var metas := IssuerAccounts(token, signer, tokenSource);
            && |metas| == 16
            && metas[..8] == [
              AccountMeta(signer, true, true),
              AccountMeta(i.store, false, false),
              AccountMeta(Derived(p, [Text("Peer"), OfKey(i.store), eid]), false, false),
              AccountMeta(Derived(p, [Text("EnforcedOptions"), OfKey(i.store), eid, Raw([0, 1])]), false, false),
              AccountMeta(i.pauseConfig, false, false),
              AccountMeta(i.feeConfig, false, false),
              AccountMeta(i.defaultRateLimit, false, true),
              AccountMeta(i.rateLimit, false, true)]
            && metas[8..] == [
              AccountMeta(Derived(p, [Text("RateLimitExemption"), OfKey(i.store), OfKey(signer)]), false, false),
              AccountMeta(tokenSource, false, true),
              AccountMeta(Derived(p, [Text("Escrow"), OfKey(i.store)]), false, true),
              AccountMeta(i.feeDeposit, false, true),
              AccountMeta(token.mint, false, true),
              AccountMeta(token.tokenProgram, false, false),
              AccountMeta(Derived(p, [Text("__event_authority")]), false, false),
              AccountMeta(p, false, false)]
  {
  }

  // ---------------------------------------------------------------- the instruction

  /** The instruction the client builds, given the accounts LayerZero's own library returned. */
  function BuiltSend(token: LzTokenProfile, signer: Key, tokenSource: Key, receiver: Pubkey, amount: int,
                     nativeFee: Option<int>, layerZero: seq<AccountMeta>): Result<Instruction>
  {
    var minimum := LzMinAmount(amount, token.minUnderBps);
    var fee := if nativeFee.Some? then nativeFee.value else token.nativeFeeCapLamports;
    if !Writable(amount, minimum, token.options, fee) then Err(ClientThrow)
    else
      Ok(Instruction(token.issuerProgram, IssuerAccounts(token, signer, tokenSource) + layerZero,
                     SendBytes(OftSendParams(token.dstEid, receiver, amount, minimum, token.options, None, fee, 0))))
  }

  method BuildIssuerSend(token: LzTokenProfile, signer: Key, tokenSource: Key, receiver: Pubkey, amount: int,
                         nativeFee: Option<int>, layerZero: seq<AccountMeta>) returns (r: Result<Instruction>)
    ensures r == BuiltSend(token, signer, tokenSource, receiver, amount, nativeFee, layerZero)
  {
    var keys := IssuerAccounts(token, signer, tokenSource) + layerZero;
    var fee := if nativeFee.Some? then nativeFee.value else token.nativeFeeCapLamports;
    var data :- OftSendBuffer(token.dstEid, receiver, amount, LzMinAmount(amount, token.minUnderBps), token.options, fee);
    return Ok(Instruction(token.issuerProgram, keys, data[..]));
  }

  /** What a built send says, field by field; without a quoted fee the profile's cap is promised. */
  lemma BuiltSendLayout(token: LzTokenProfile, signer: Key, tokenSource: Key, receiver: Pubkey, amount: int,
                        nativeFee: Option<int>, layerZero: seq<AccountMeta>)
    requires BuiltSend(token, signer, tokenSource, receiver, amount, nativeFee, layerZero).Ok?
    ensures var ix := BuiltSend(token, signer, tokenSource, receiver, amount, nativeFee, layerZero).value;
            var data, n := ix.data, |token.options|;
            && ix.programId == token.issuerProgram
            && ix.accounts == IssuerAccounts(token, signer, tokenSource) + layerZero
            && |data| == 81 + n && U32At(data, 8) == token.dstEid && data[12..44] == receiver
            && U64At(data, 44) == amount && U64At(data, 52) == amount - amount * token.minUnderBps / 10_000
            && data[64..64 + n] == token.options && data[64 + n] == 0
            && U64At(data, 65 + n) == (if nativeFee.Some? then nativeFee.value else token.nativeFeeCapLamports)
            && U64At(data, 73 + n) == 0
  {
    var minimum := LzMinAmount(amount, token.minUnderBps);
    var fee := if nativeFee.Some? then nativeFee.value else token.nativeFeeCapLamports;
    var p := OftSendParams(token.dstEid, receiver, amount, minimum, token.options, None, fee, 0);
    MinimumIsUnderByHeadroom(amount, token.minUnderBps);
    SendLayout(p);
    PlainSendLayout(p);
  }

  /** The client throws exactly when an amount, the minimum or the fee does not fit 64 bits. */
  lemma BuiltSendThrowsIff(token: LzTokenProfile, signer: Key, tokenSource: Key, receiver: Pubkey, amount: u64,
                           nativeFee: Option<int>, layerZero: seq<AccountMeta>)
    requires |token.options| < 0x1_0000_0000
    ensures var fee := if nativeFee.Some? then nativeFee.value else token.nativeFeeCapLamports;
            BuiltSend(token, signer, tokenSource, receiver, amount, nativeFee, layerZero) == Err(ClientThrow) <==>
              amount * token.minUnderBps / 10_000 > amount || fee < 0 || fee >= 0x1_0000_0000_0000_0000
  {
    MinimumIsUnderByHeadroom(amount, token.minUnderBps);
    HeadroomIsNatural(amount, token.minUnderBps);
  }

  lemma HeadroomIsNatural(amount: u64, minUnderBps: nat)
    ensures Headroom(amount, minUnderBps) == amount * minUnderBps / 10_000 >= 0
  {
  }

  // ---------------------------------------------------------------- the guard accepts it

  /** The route was written for this token profile. */
  predicate RouteFor(route: RouteTerms, token: LzTokenProfile) {
    && route.providerProgram == token.issuerProgram
    && route.domainOrSelector == token.dstEid
    && route.gasLimit == TokenSourceIndex(token)
    && route.mint == token.mint
  }

  /** The send the client builds for a call of its own passes the call's guard. */
  ghost predicate ClientSendPasses(c: LzCall, token: LzTokenProfile, fee: u64, layerZero: seq<AccountMeta>) {
    var built := BuiltSend(token, Plain(c.authority), c.AuthorityAta(), c.route.receiver, c.amount, Some(fee), layerZero);
    built.Ok? && CheckSend(c, built.value).Ok?
  }

  predicate AllowedOptions(options: Bytes) {
    options == [] || options == BARE_HEADER
  }

  /** What the client subtracts from an amount, rounded down. */
  function Headroom(amount: u64, minUnderBps: nat): nat {
    amount * minUnderBps / 10_000
  }

  lemma MinimumIsUnderByHeadroom(amount: u64, minUnderBps: nat)
    ensures LzMinAmount(amount, minUnderBps) == amount - Headroom(amount, minUnderBps)
  {
  }

  /** The program's check of a send with given minimum and options, all else as the route says. */
  lemma MinimumDecides(c: LzCall, p: OftSendParams)
    requires p.dstEid == c.route.domainOrSelector && p.to == c.route.receiver && p.amountLd == c.amount
    requires p.composeMsg == None
    ensures Accepted(c.route, c.amount, SendBytes(p)) <==>
              AllowedOptions(p.options) && p.minAmountLd >= c.amount - c.amount / 200
  {
    DecodesIffEncodes(SendBytes(p), p);
  }

  /** One amount: the headroom must not exceed half a percent, both rounded down. */
  lemma OneAmountPasses(c: LzCall, token: LzTokenProfile, fee: u64, layerZero: seq<AccountMeta>)
    requires RouteFor(c.route, token)
    ensures ClientSendPasses(c, token, fee, layerZero) <==>
              AllowedOptions(token.options) && Within(c.amount, token.minUnderBps)
  {
    var minimum := LzMinAmount(c.amount, token.minUnderBps);
    MinimumIsUnderByHeadroom(c.amount, token.minUnderBps);
    TokenSourceAtIndex(token, Plain(c.authority), c.AuthorityAta(), layerZero);
    if Writable(c.amount, minimum, token.options, fee) {
      var p := OftSendParams(token.dstEid, c.route.receiver, c.amount, minimum, token.options, None, fee, 0);
      MinimumDecides(c, p);
    }
  }

  lemma HeadroomIff(minUnderBps: nat)
    ensures minUnderBps <= 50 <==> forall amount: u64 :: Within(amount, minUnderBps)
  {
    if minUnderBps <= 50 {
      forall amount: u64
        ensures Within(amount, minUnderBps)
      {
        HeadroomWithin(amount, minUnderBps);
      }
    } else {
      assert !Within(10_000, minUnderBps);
    }
  }

  predicate Within(amount: u64, minUnderBps: nat) {
    Headroom(amount, minUnderBps) <= amount / 200
  }

  lemma HeadroomWithin(amount: u64, minUnderBps: nat)
    requires minUnderBps <= 50
    ensures Within(amount, minUnderBps)
  {
    assert amount * minUnderBps <= amount * 50;
    assert amount * 50 / 10_000 == amount / 200;
  }

  /**
   * Whatever the amount, a profile's sends pass the program's guard: this holds exactly when the
   * profile keeps the two limits its own type documents, at most 50 basis points of headroom and
   * no options beyond the bare header.
   */
  lemma EveryAmountPassesIff(c: LzCall, token: LzTokenProfile, fee: u64, layerZero: seq<AccountMeta>)
    requires RouteFor(c.route, token)
    ensures (forall amount: u64 :: ClientSendPasses(c.(amount := amount), token, fee, layerZero))
            <==> token.minUnderBps <= 50 && AllowedOptions(token.options)
  {
    forall amount: u64
      ensures ClientSendPasses(c.(amount := amount), token, fee, layerZero)
              <==> AllowedOptions(token.options) && Within(amount, token.minUnderBps)
    {
      OneAmountPasses(c.(amount := amount), token, fee, layerZero);
    }
    HeadroomIff(token.minUnderBps);
    assert ClientSendPasses(c.(amount := 0), token, fee, layerZero) ==> AllowedOptions(token.options);
    if token.minUnderBps > 50 {
      assert !Within(10_000, token.minUnderBps);
      assert !ClientSendPasses(c.(amount := 10_000), token, fee, layerZero);
    }
  }

  /** One basis point too many: a send of 10000 units promises 9949, and the program wants 9950. */
  lemma FiftyOneBasisPointsRefused(c: LzCall, token: LzTokenProfile, fee: u64, layerZero: seq<AccountMeta>)
    requires RouteFor(c.route, token) && token.minUnderBps == 51 && c.amount == 10_000
    ensures LzMinAmount(c.amount, token.minUnderBps) == 9_949 && !ClientSendPasses(c, token, fee, layerZero)
  {
    OneAmountPasses(c, token, fee, layerZero);
  }

  predicate AllForeign(part: Transaction) {
    forall k :: 0 <= k < |part| ==> part[k].programId != LENDMIRROR
  }

  lemma OthersAreForeign(before: Transaction, ours: Instruction, send: Instruction, after: Transaction)
    requires AllForeign(before) && AllForeign(after) && send.programId != LENDMIRROR
    ensures OnlyOurs(before + [ours, send] + after, |before|)
  {
    var tx := before + [ours, send] + after;
    forall k | 0 <= k < |tx|
      ensures k == |before| || tx[k].programId != LENDMIRROR
    {
      if k >= |before| + 2 {
        assert tx[k] == after[k - |before| - 2];
      }
    }
  }

  /** A pair whose send passes, with any other programs' instructions around it, passes the guard. */
  lemma PairPasses(c: LzCall, before: Transaction, ours: Instruction, send: Instruction, after: Transaction)
    requires AllForeign(before) && AllForeign(after) && ours.programId == LENDMIRROR
    requires send.programId != LENDMIRROR && CheckSend(c, send).Ok?
    ensures CheckTransaction(c, before + [ours, send] + after, |before|).Ok?
  {
    OthersAreForeign(before, ours, send, after);
    var tx := before + [ours, send] + after;
    assert tx[|before|] == ours && tx[|before| + 1] == send;
  }

  lemma BooksAllow(c: LzCall, b: Balances)
    requires Balance(b, c.WrapperAta()) >= c.amount
    requires Balance(b, c.AuthorityAta()) + c.amount < 0x1_0000_0000_0000_0000
    ensures Transfer(b, c.WrapperAta(), c.AuthorityAta(), c.amount).Ok?
  {
    assert c.WrapperAta().seeds[0] != c.AuthorityAta().seeds[0];
  }

  /**
   * The client's whole transaction releases: our instruction and the built send, with any other
   * programs' instructions before and after, for every caller, cap, amount and balance that allow it.
   */
  lemma ClientTransactionReleases(c: LzCall, token: LzTokenProfile, fee: u64, layerZero: seq<AccountMeta>,
                                  before: Transaction, ours: Instruction, after: Transaction, b: Balances)
    requires RouteFor(c.route, token) && token.issuerProgram != LENDMIRROR
    requires token.minUnderBps <= 50 && AllowedOptions(token.options)
    requires CheckAccounts(c).Ok? && ours.programId == LENDMIRROR
    requires AllForeign(before) && AllForeign(after)
    requires Balance(b, c.WrapperAta()) >= c.amount
    requires Balance(b, c.AuthorityAta()) + c.amount < 0x1_0000_0000_0000_0000
    ensures var built := BuiltSend(token, Plain(c.authority), c.AuthorityAta(), c.route.receiver, c.amount, Some(fee), layerZero);
            built.Ok? && Released(c, before + [ours, built.value] + after, |before|, b).Ok?
  {
    HeadroomWithin(c.amount, token.minUnderBps);
    OneAmountPasses(c, token, fee, layerZero);
    var send := BuiltSend(token, Plain(c.authority), c.AuthorityAta(), c.route.receiver, c.amount, Some(fee), layerZero).value;
    PairPasses(c, before, ours, send, after);
    BooksAllow(c, b);
  }
}
