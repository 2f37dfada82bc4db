/**
 * The LayerZero release: one instruction of a transaction inspects the transaction it is in
 * before it moves tokens out of a wrapper.
 */
module ReleaseGuard {
  import opened Outcome
  import opened Bytes
  import opened OftSend
  import opened BridgeRoutes

  datatype AccountMeta = AccountMeta(pubkey: Key, isSigner: bool, isWritable: bool)

  datatype Instruction = Instruction(programId: Key, accounts: seq<AccountMeta>, data: Bytes)

  type Transaction = seq<Instruction>

  /** What the data of a call of this program's release starts with. */
  const BRIDGE_TOKENS_LZ_DISCRIMINATOR: Bytes := [232, 37, 117, 54, 145, 210, 62, 106]

  predicate IsReleaseCall(ix: Instruction) {
    && ix.programId == LENDMIRROR && 8 <= |ix.data|
    && ix.data[..8] == BRIDGE_TOKENS_LZ_DISCRIMINATOR
  }

  type Balances = map<Key, u64>

  const LEVEL_DEPOSIT_PAYBACK: u8 := 1
  const LEVEL_WITHDRAW_BORROW: u8 := 2

  /** The accounts and parameters of one call, as the account checks see them. */
  datatype LzCall = LzCall(
    authority: Pubkey,
    senders: seq<Pubkey>,
    ondemand: Option<seq<Pubkey>>,
    wrapper: Key,
    wrapperOwner: Pubkey,
    wrapperLevel: u8,
    route: RouteTerms,
    mint: Key,
    tokenProgram: Key,
    amount: u64
  ) {
    /** Where the wrapper's tokens sit. */
    function WrapperAta(): Key {
      TokenAccountOf(WrapperAuthority(wrapper), tokenProgram, mint)
    }

    /** The caller's own token account. */
    function AuthorityAta(): Key {
      TokenAccountOf(Plain(authority), tokenProgram, mint)
    }

    predicate MayCall() {
      authority == wrapperOwner || authority in senders || (ondemand.Some? && authority in ondemand.value)
    }
  }

  /** The account constraints, in the order of the accounts. */
  function CheckAccounts(c: LzCall): Result<()> {
    var _ :- Require(c.MayCall(), Unauthorized);
    var _ :- Require(c.wrapperLevel == LEVEL_DEPOSIT_PAYBACK || c.wrapperLevel == LEVEL_WITHDRAW_BORROW, LevelDenied);
    var _ :- Require(c.route.provider == PROVIDER_LZ_OFT, WrongProvider);
    var _ :- Require(c.route.enabled, RouteDisabled);
    var _ :- Require(c.amount <= c.route.maxAmountPerTx, AmountTooLarge);
    var _ :- Require(c.amount > 0, AmountTooLarge);
    Require(c.mint == c.route.mint, InvalidBridgeAccount)
  }

  /** The two bytes of an options header with nothing after it. */
  const BARE_HEADER: Blob := [0, 3]

  function CheckLzSend(route: RouteTerms, amount: u64, send: OftSendParams): Result<()> {
    Require(&& send.dstEid == route.domainOrSelector
            && send.to == route.receiver
            && send.amountLd == amount
            && send.minAmountLd >= amount - amount / 200
            && (send.options == [] || send.options == BARE_HEADER)
            && send.composeMsg == None,
            MissingBridgeSend)
  }

  /** No instruction of the transaction but the one at `current` is the program's own. */
  predicate OnlyOurs(tx: Transaction, current: nat) {
    forall k :: 0 <= k < |tx| ==> k == current || tx[k].programId != LENDMIRROR
  }

  /** The next instruction is the send that the route fixes. */
  function CheckSend(c: LzCall, send: Instruction): Result<()> {
    var _ :- Require(send.programId == c.route.providerProgram, MissingBridgeSend);
    match DecodeOftSend(send.data)
    case None => Err(MissingBridgeSend)
    case Some(params) =>
      var _ :- CheckLzSend(c.route, c.amount, params);
      Require(c.route.gasLimit < |send.accounts| && send.accounts[c.route.gasLimit].pubkey == c.AuthorityAta(),
              MissingBridgeSend)
  }

  function CheckTransaction(c: LzCall, tx: Transaction, current: nat): Result<()>
    requires current < |tx|
  {
    var _ :- Require(tx[current].programId == LENDMIRROR, MissingBridgeSend);
    var _ :- Require(OnlyOurs(tx, current), MissingBridgeSend);
    if current + 1 >= |tx| then Err(MissingBridgeSend) else CheckSend(c, tx[current + 1])
  }

  function Balance(b: Balances, k: Key): u64 {
    if k in b then b[k] else 0
  }

  /** A checked token transfer. */
  function Transfer(b: Balances, source: Key, target: Key, amount: u64): Result<Balances> {
    if Balance(b, source) < amount then Err(InsufficientFunds)
    else
      var debited := b[source := Balance(b, source) - amount];
      if Balance(debited, target) + amount >= 0x1_0000_0000_0000_0000 then Err(Panic)
      else Ok(debited[target := Balance(debited, target) + amount])
  }

  /** The balances after a release, or why there is none. */
  function Released(c: LzCall, tx: Transaction, current: nat, b: Balances): Result<Balances>
    requires current < |tx|
  {
    var _ :- CheckAccounts(c);
    var _ :- CheckTransaction(c, tx, current);
    Transfer(b, c.WrapperAta(), c.AuthorityAta(), c.amount)
  }

  /** The token program's books. */
  class Bank {
    var balances: Balances

    constructor (balances: Balances)
      ensures this.balances == balances
    {
      this.balances := balances;
    }

    method TransferChecked(source: Key, target: Key, amount: u64) returns (r: Result<()>)
      modifies this
      ensures var moved := Transfer(old(balances), source, target, amount);
              if moved.Ok? then r == Ok(()) && balances == moved.value
              else r == Err(moved.error) && balances == old(balances)
    {
      if Balance(balances, source) < amount {
        return Err(InsufficientFunds);
      }
      var debited := balances[source := Balance(balances, source) - amount];
      if Balance(debited, target) + amount >= 0x1_0000_0000_0000_0000 {
        return Err(Panic);
      }
      balances := debited[target := Balance(debited, target) + amount];
      return Ok(());
    }
  }

  method CheckOnlyOurs(tx: Transaction, current: nat) returns (ok: bool)
    ensures ok == OnlyOurs(tx, current)
  {
    var index := 0;
    while index < |tx|
      invariant 0 <= index <= |tx|
      invariant forall k :: 0 <= k < index ==> k == current || tx[k].programId != LENDMIRROR
    {
      if !(index == current || tx[index].programId != LENDMIRROR) {
        return false;
      }
      index := index + 1;
    }
    return true;
  }

  method BridgeTokensLz(bank: Bank, c: LzCall, tx: Transaction, current: nat) returns (r: Result<()>)
    requires current < |tx|
    modifies bank
    ensures var released := Released(c, tx, current, old(bank.balances));
            if released.Ok? then r == Ok(()) && bank.balances == released.value
            else r == Err(released.error) && bank.balances == old(bank.balances)
  {
    var _ :- CheckAccounts(c);
    if tx[current].programId != LENDMIRROR {
      return Err(MissingBridgeSend);
    }
    var onlyOurs := CheckOnlyOurs(tx, current);
    if !onlyOurs {
      return Err(MissingBridgeSend);
    }
    if current + 1 >= |tx| {
      return Err(MissingBridgeSend);
    }
    var send := tx[current + 1];
    if send.programId != c.route.providerProgram {
      return Err(MissingBridgeSend);
    }
    var decoded := DecodeOftSend(send.data);
    if decoded.None? {
      return Err(MissingBridgeSend);
    }
    var _ :- CheckLzSend(c.route, c.amount, decoded.value);
    if c.route.gasLimit >= |send.accounts| {
      return Err(MissingBridgeSend);
    }
    if send.accounts[c.route.gasLimit].pubkey != c.AuthorityAta() {
      return Err(MissingBridgeSend);
    }
    r := bank.TransferChecked(c.WrapperAta(), c.AuthorityAta(), c.amount);
  }

  // ---------------------------------------------------------------- what the guard accepts

  /** Data that decodes and passes the check for this route and amount. */
  predicate Accepted(route: RouteTerms, amount: u64, data: Bytes) {
    var send := DecodeOftSend(data);
    send.Some? && CheckLzSend(route, amount, send.value).Ok?
  }

  /** The one send of this route and amount, up to the minimum, the empty options header and the fees. */
  function Pinned(route: RouteTerms, amount: u64, minimum: u64, header: bool, nativeFee: u64, lzTokenFee: u64): OftSendParams
    requires route.domainOrSelector < 0x1_0000_0000
  {
    OftSendParams(route.domainOrSelector, route.receiver, amount, minimum, if header then BARE_HEADER else [], None,
                  nativeFee, lzTokenFee)
  }

  lemma SendLength(p: OftSendParams)
    requires p.composeMsg == None
    ensures |SendBytes(p)| == 81 + |p.options|
  {
  }

  /**
   * Accepted bytes are 81 or 83 long and fully determined by the route, the amount, the minimum
   * and the two fees; and every such minimum and pair of fees is accepted.
   */
  lemma AcceptedBytes(route: RouteTerms, amount: u64, data: Bytes)
    ensures Accepted(route, amount, data) ==>
              var send := DecodeOftSend(data).value;
              && |data| in {81, 83} && route.domainOrSelector < 0x1_0000_0000
              && data == SendBytes(Pinned(route, amount, send.minAmountLd, |data| == 83, send.nativeFee, send.lzTokenFee))
    ensures forall minimum: u64, header: bool, nativeFee: u64, lzTokenFee: u64 ::
              route.domainOrSelector < 0x1_0000_0000
              && data == SendBytes(Pinned(route, amount, minimum, header, nativeFee, lzTokenFee)) ==>
                (Accepted(route, amount, data) <==> minimum >= amount - amount / 200)
  {
    if Accepted(route, amount, data) {
      var send := DecodeOftSend(data).value;
      DecodesIffEncodes(data, send);
      SendLength(send);
      assert send == Pinned(route, amount, send.minAmountLd, |data| == 83, send.nativeFee, send.lzTokenFee);
    }
    forall minimum: u64, header: bool, nativeFee: u64, lzTokenFee: u64 |
      route.domainOrSelector < 0x1_0000_0000
      && data == SendBytes(Pinned(route, amount, minimum, header, nativeFee, lzTokenFee))
      ensures Accepted(route, amount, data) <==> minimum >= amount - amount / 200
    {
      DecodesIffEncodes(data, Pinned(route, amount, minimum, header, nativeFee, lzTokenFee));
    }
  }

  /** An accepted send that is not 81 bytes long: the empty options header makes it 83. */
  lemma EightyThreeBytesAccepted(route: RouteTerms, amount: u64)
    requires route.domainOrSelector < 0x1_0000_0000
    ensures var data := SendBytes(Pinned(route, amount, amount, true, 0, 0));
            |data| == 83 && Accepted(route, amount, data)
  {
    SendLength(Pinned(route, amount, amount, true, 0, 0));
    AcceptedBytes(route, amount, SendBytes(Pinned(route, amount, amount, true, 0, 0)));
  }

  /**
   * The accepted data by its bytes: length, discriminator, destination, receiver, amount, minimum,
   * empty options or the bare header, and no compose message. The two fees are free.
   */
  predicate LooksAccepted(route: RouteTerms, amount: u64, data: Bytes) {
    && |data| in {81, 83} && data[..8] == [102, 251, 20, 187, 65, 75, 12, 69]
    && U32At(data, 8) == route.domainOrSelector && data[12..44] == route.receiver
    && U64At(data, 44) == amount && U64At(data, 52) >= amount - amount / 200
    && U32At(data, 60) == |data| - 81 && (|data| == 83 ==> data[64..66] == [0, 3]) && data[|data| - 17] == 0
  }

  lemma AcceptedLooks(route: RouteTerms, amount: u64, data: Bytes)
    requires Accepted(route, amount, data)
    ensures LooksAccepted(route, amount, data)
  {
    var send := DecodeOftSend(data).value;
    DecodesIffEncodes(data, send);
    SendLayout(send);
    PlainSendLayout(send);
  }

  /** The send whose fields are read off the bytes at their offsets. */
  function ReadOff(data: Bytes): OftSendParams
    requires |data| in {81, 83}
  {
    OftSendParams(U32At(data, 8), data[12..44], U64At(data, 44), U64At(data, 52), data[64..|data| - 17], None,
                  U64At(data, |data| - 16), U64At(data, |data| - 8))
  }

  lemma ReadOffHead(data: Bytes)
    requires |data| in {81, 83}
    ensures BorshHead(ReadOff(data)) == data[8..60]
  {
    ToFromLE(data[8..12]);
    ToFromLE(data[44..52]);
    ToFromLE(data[52..60]);
    JoinHead(data);
  }

  lemma ReadOffTail(data: Bytes)
    requires |data| in {81, 83} && U32At(data, 60) == |data| - 81 && data[|data| - 17] == 0
    ensures BorshTail(ReadOff(data)) == data[60..]
  {
    var n := |data|;
    ToFromLE(data[60..64]);
    ToFromLE(data[n - 16..n - 8]);
    ToFromLE(data[n - 8..n]);
    assert data[n - 17..n - 16] == [0];
    JoinTail(data);
  }

  lemma ReadOffEncodes(data: Bytes)
    requires |data| in {81, 83} && data[..8] == [102, 251, 20, 187, 65, 75, 12, 69]
    requires U32At(data, 60) == |data| - 81 && data[|data| - 17] == 0
    ensures data == SendBytes(ReadOff(data))
  {
    ReadOffHead(data);
    ReadOffTail(data);
    assert data == data[..8] + data[8..60] + data[60..];
  }

  lemma JoinHead(data: Bytes)
    requires |data| >= 60
    ensures data[8..12] + data[12..44] + data[44..52] + data[52..60] == data[8..60]
  {
  }

  lemma JoinTail(data: Bytes)
    requires |data| >= 81
    ensures var n := |data|;
            data[60..64] + data[64..n - 17] + data[n - 17..n - 16] + data[n - 16..n - 8] + data[n - 8..n] == data[60..]
  {
  }

  /** The guard's reading of the send, as an if-and-only-if over the bytes alone. */
  lemma AcceptedIffLooks(route: RouteTerms, amount: u64, data: Bytes)
    ensures Accepted(route, amount, data) <==> LooksAccepted(route, amount, data)
  {
    if Accepted(route, amount, data) {
      AcceptedLooks(route, amount, data);
    }
    if LooksAccepted(route, amount, data) {
      ReadOffEncodes(data);
      DecodesIffEncodes(data, ReadOff(data));
      assert |data| == 83 ==> data[64..|data| - 17] == data[64..66];
    }
  }

  ghost predicate Servable(route: RouteTerms, amount: u64) {
    exists data: Bytes :: Accepted(route, amount, data)
  }

  /**
   * The width check of the route setter is exactly what makes a LayerZero route usable: some send
   * is accepted for an amount if and only if the stored domain fits in 32 bits.
   */
  lemma ServableIffDomainFits(route: RouteTerms, amount: u64)
    ensures Servable(route, amount) <==> route.domainOrSelector < 0x1_0000_0000
  {
    if route.domainOrSelector < 0x1_0000_0000 {
      var data := SendBytes(Pinned(route, amount, amount, false, 0, 0));
      AcceptedBytes(route, amount, data);
      assert Accepted(route, amount, data);
    }
  }

  /** What a release that went through says about its transaction and about the books. */
  lemma ReleaseFacts(c: LzCall, tx: Transaction, i: nat, b: Balances)
    requires i < |tx| && Released(c, tx, i, b).Ok?
    ensures tx[i].programId == LENDMIRROR && OnlyOurs(tx, i) && i + 1 < |tx|
    ensures CheckAccounts(c).Ok? && CheckSend(c, tx[i + 1]).Ok?
    ensures var after := Released(c, tx, i, b).value;
            && Balance(b, c.WrapperAta()) == Balance(after, c.WrapperAta()) + c.amount
            && Balance(after, c.AuthorityAta()) == Balance(b, c.AuthorityAta()) + c.amount
            && forall k :: k != c.WrapperAta() && k != c.AuthorityAta() ==> Balance(after, k) == Balance(b, k)
  {
    assert c.WrapperAta().seeds[0] != c.AuthorityAta().seeds[0];
  }

  // ---------------------------------------------------------------- who, what and when, spelled out

  /** The two token accounts of a call. */
  lemma CallAccounts(c: LzCall)
    ensures c.WrapperAta() == Derived(Program("AssociatedToken"), [
                OfKey(Derived(Program("LendMirror"), [Text("LendMirrorWrapperAuthV1"), OfKey(c.wrapper)])),
                OfKey(c.tokenProgram), OfKey(c.mint)])
    ensures c.AuthorityAta() == Derived(Program("AssociatedToken"), [
                OfKey(Plain(c.authority)), OfKey(c.tokenProgram), OfKey(c.mint)])
  {
  }

  /**
   * The account checks refuse in this order: a caller who is neither the wrapper's owner, nor a
   * sender of the Store, nor on the wrapper's own list; a level other than 1 and 2; another
   * provider's route; a route that is off; an amount over the cap or zero; another token.
   */
  lemma AccountChecks(c: LzCall)
    ensures CheckAccounts(c)
         == if !(c.authority == c.wrapperOwner || c.authority in c.senders
                 || (c.ondemand.Some? && c.authority in c.ondemand.value)) then Err(Unauthorized)
            else if c.wrapperLevel != 1 && c.wrapperLevel != 2 then Err(LevelDenied)
            else if c.route.provider != 3 then Err(WrongProvider)
            else if !c.route.enabled then Err(RouteDisabled)
            else if c.amount > c.route.maxAmountPerTx || c.amount == 0 then Err(AmountTooLarge)
            else if c.mint != c.route.mint then Err(InvalidBridgeAccount)
            else Ok(())
  {
  }

  /** When a release goes through, exactly: every condition on caller, route, transaction, send and books. */
  lemma ReleasedIff(c: LzCall, tx: Transaction, i: nat, b: Balances)
    requires i < |tx|
    ensures Released(c, tx, i, b).Ok? <==>
              && (c.authority == c.wrapperOwner || c.authority in c.senders
                  || (c.ondemand.Some? && c.authority in c.ondemand.value))
              && (c.wrapperLevel == 1 || c.wrapperLevel == 2)
              && c.route.provider == 3 && c.route.enabled && 0 < c.amount <= c.route.maxAmountPerTx
              && c.mint == c.route.mint
              && tx[i].programId == Program("LendMirror")
              && (forall k :: 0 <= k < |tx| && tx[k].programId == Program("LendMirror") ==> k == i)
              && i + 1 < |tx| && tx[i + 1].programId == c.route.providerProgram
              && LooksAccepted(c.route, c.amount, tx[i + 1].data)
              && c.route.gasLimit < |tx[i + 1].accounts|
              && tx[i + 1].accounts[c.route.gasLimit].pubkey == c.AuthorityAta()
              && Balance(b, c.WrapperAta()) >= c.amount
              && Balance(b, c.AuthorityAta()) + c.amount < 0x1_0000_0000_0000_0000
  {
    AccountChecks(c);
    if i + 1 < |tx| {
      AcceptedIffLooks(c.route, c.amount, tx[i + 1].data);
    }
    assert c.WrapperAta().seeds[0] != c.AuthorityAta().seeds[0];
  }
}
