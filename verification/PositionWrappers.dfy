/**
 * The per-position wrapper account: refreshing its snapshot, sending it once, and custody of the
 * position NFT, as single instructions and over every run of them.
 */
module PositionWrappers {
  import opened Outcome
  import opened Bytes
  import opened MsgCodec
  import opened PositionSnapshots
  import opened GetJupiterPosition
  import opened BridgeRoutes
  import opened ReleaseGuard

  const LEVEL_MAX: u8 := 4
  const CCIP_DATA_LIMIT := 256
  const U64_MAX: u64 := 0xFFFF_FFFF_FFFF_FFFF

  datatype WrapperState = WrapperState(
    owner: Key,
    vaultId: u16,
    nftId: u32,
    snapshot: Option<PositionSnapshot>,
    level: u8,
    custody: bool,
    positionMint: Key,
    lastSentSnapshotTime: i64,
    sendCount: u64
  )

  function WrapperKey(vaultId: u16, nftId: u32): Key {
    Derived(LENDMIRROR, [Text("LendMirrorPositionWrapperV1"), Raw(ToLE(vaultId, 2)), Raw(ToLE(nftId, 4))])
  }

  function AuthorityOf(w: WrapperState): Key {
    WrapperAuthority(WrapperKey(w.vaultId, w.nftId))
  }

  /** The one mint whose single token stands for this position. */
  function PositionMint(vaultsProgram: Key, vaultId: u16, nftId: u32): Key {
    Derived(vaultsProgram, [Text("position_mint"), Raw(ToLE(vaultId, 2)), Raw(ToLE(nftId, 4))])
  }

  /** Who the admin and the owner have allowed, as an instruction finds it. */
  datatype Access = Access(admin: Key, snapshotters: seq<Key>, senders: seq<Key>, ondemand: Option<seq<Key>>) {
    predicate OnDemand(key: Key) {
      ondemand.Some? && key in ondemand.value
    }
  }

  const NATIVE_MINT := Program("So11111111111111111111111111111111111111112")

  datatype CcipRoute = CcipRoute(router: Key, feeQuoter: Key, rmnRemote: Key)

  /** The Chainlink accounts that are compared with the admin's route before anything is sent. */
  datatype CcipAccounts = CcipAccounts(
    route: CcipRoute,
    configOwner: Key,
    feeTokenMint: Key,
    feeTokenUser: Key,
    feeQuoter: Key,
    rmnRemote: Key,
    payerIsEmpty: bool
  ) {
    predicate MatchRoute() {
      && configOwner == route.router && feeTokenMint == NATIVE_MINT && feeTokenUser == DEFAULT_KEY
      && feeQuoter == route.feeQuoter && rmnRemote == route.rmnRemote && payerIsEmpty
    }
  }

  /** The wrapper, where the position NFT is, and what has gone to the two messengers. */
  datatype View = View(
    vaultsProgram: Key, // the Store's, written once
    wrapper: WrapperState,
    nftHolder: Key,
    lzMessages: seq<Bytes>,
    ccipBodies: seq<Bytes>
  ) {
    function NftMint(): Key {
      PositionMint(vaultsProgram, wrapper.vaultId, wrapper.nftId)
    }
  }

  /** Instructions on one wrapper; `MoveNft` is any transfer of the NFT between wallets. */
  datatype Op =
    | Refresh(access: Access, authority: Key, request: Request, remaining: seq<AccountInfo>)
    | Send(access: Access, authority: Key, ccip: CcipAccounts, legsSucceed: bool)
    | SetLevel(access: Access, authority: Key, level: u8)
    | Deposit(authority: Key)
    | Release(access: Access, authority: Key)
    | Bridge(access: Access, authority: Key, route: RouteTerms, amount: u64, target: Key, providerSucceeds: bool)
    | MoveNft(target: Key)

  /** Only this program signs for addresses derived from it, and it never signs as a caller. */
  predicate CanSign(key: Key) {
    !(key.Derived? && key.program == LENDMIRROR)
  }

  // ---------------------------------------------------------------- one instruction

  function Refreshed(w: WrapperState, access: Access, authority: Key, request: Request, remaining: seq<AccountInfo>)
    : Result<WrapperState>
  {
    var _ :- Require(authority == w.owner || authority in access.snapshotters || access.OnDemand(authority), Unauthorized);
    var snapshot :- SnapshotOf(request.(vaultId := w.vaultId, nftId := w.nftId), remaining);
    Ok(w.(snapshot := Some(snapshot)))
  }

  function Recorded(w: WrapperState, time: i64): WrapperState {
    w.(lastSentSnapshotTime := time, sendCount := if w.sendCount == U64_MAX then U64_MAX else w.sendCount + 1)
  }

  function Sent(v: View, access: Access, authority: Key, ccip: CcipAccounts, legsSucceed: bool): Result<View> {
    var w := v.wrapper;
    var _ :- Require(authority in access.senders || access.OnDemand(authority), Unauthorized);
    if w.snapshot.None? then Err(NoPositionSnapshot)
    else
      var s := w.snapshot.value;
      var _ :- Require(s.snapshotTime > w.lastSentSnapshotTime, SnapshotAlreadySent);
      var _ :- Require(ccip.MatchRoute(), InvalidCcipAccount);
      var _ :- Require(legsSucceed, SendFailed);
      Ok(v.(wrapper := Recorded(w, s.snapshotTime),
            lzMessages := v.lzMessages + [Encoded(s)], ccipBodies := v.ccipBodies + [EncodedBody(s)]))
  }

  function Leveled(w: WrapperState, access: Access, authority: Key, level: u8): Result<WrapperState> {
    var _ :- Require(authority == access.admin, Unauthorized);
    var _ :- Require(level <= LEVEL_MAX, InvalidLevel);
    Ok(w.(level := level))
  }

  function Deposited(v: View, authority: Key): Result<View> {
    var w := v.wrapper;
    var _ :- Require(CanSign(authority), Unauthorized);
    var _ :- Require(!w.custody, AlreadyInCustody);
    var _ :- Require(v.nftHolder == authority, InvalidTokenAccount);
    Ok(v.(nftHolder := AuthorityOf(w),
          wrapper := w.(custody := true, positionMint := v.NftMint(), owner := authority)))
  }

  function Returned(v: View, access: Access, authority: Key): Result<View> {
    var w := v.wrapper;
    var _ :- Require(authority == access.admin, Unauthorized);
    var _ :- Require(w.custody, NoCustody);
    var _ :- Require(v.nftHolder == AuthorityOf(w), InsufficientFunds);
    Ok(v.(nftHolder := w.owner, wrapper := w.(custody := false)))
  }

  /**
   * Any of the program's bridges: an allowed caller on a level 1 or 2 wrapper has the authority
   * pay `amount` of the route's token, and the provider takes it to `target`. Which provider, and
   * what it checks, is in `providerSucceeds`. Only a route for the NFT's own mint concerns the NFT.
   */
  function Bridged(v: View, access: Access, authority: Key, route: RouteTerms, amount: u64, target: Key,
                   providerSucceeds: bool): Result<View>
  {
    var w := v.wrapper;
    var _ :- BridgeChecks(w, access, authority, route, amount);
    var takesNft := route.mint == v.NftMint() && amount > 0;
    var _ :- Require(takesNft ==> v.nftHolder == AuthorityOf(w) && amount == 1, InsufficientFunds);
    var _ :- Require(providerSucceeds, SendFailed);
    Ok(if takesNft then v.(nftHolder := target) else v)
  }

  /** The account checks that the bridges share, in order. */
  function BridgeChecks(w: WrapperState, access: Access, authority: Key, route: RouteTerms, amount: u64): Result<()> {
    var _ :- Require(authority == w.owner || authority in access.senders || access.OnDemand(authority), Unauthorized);
    var _ :- Require(w.level == LEVEL_DEPOSIT_PAYBACK || w.level == LEVEL_WITHDRAW_BORROW, LevelDenied);
    var _ :- Require(route.enabled, RouteDisabled);
    Require(amount <= route.maxAmountPerTx, AmountTooLarge)
  }

  /** A wallet may give its NFT to anyone; the wrapper's authority never signs for such a transfer. */
  function Moved(v: View, target: Key): Result<View> {
    var _ :- Require(v.nftHolder != AuthorityOf(v.wrapper), Unauthorized);
    Ok(v.(nftHolder := target))
  }

  function Step(v: View, op: Op): Result<View> {
    match op
    case Refresh(access, authority, request, remaining) =>
      var w :- Refreshed(v.wrapper, access, authority, request, remaining);
      Ok(v.(wrapper := w))
    case Send(access, authority, ccip, legsSucceed) => Sent(v, access, authority, ccip, legsSucceed)
    case SetLevel(access, authority, level) =>
      var w :- Leveled(v.wrapper, access, authority, level);
      Ok(v.(wrapper := w))
    case Deposit(authority) => Deposited(v, authority)
    case Release(access, authority) => Returned(v, access, authority)
    case Bridge(access, authority, route, amount, target, providerSucceeds) =>
      Bridged(v, access, authority, route, amount, target, providerSucceeds)
    case MoveNft(target) => Moved(v, target)
  }

  /** A result and a new state are those of a step: all of its effect, or an error and none. */
  ghost predicate Performed(before: View, op: Op, r: Result<()>, after: View) {
    match Step(before, op)
    case Ok(v) => r == Ok(()) && after == v
    case Err(e) => r == Err(e) && after == before
  }

  // ---------------------------------------------------------------- the accounts

  /** What the wrapper's instructions change outside the program: the token program and the messengers. */
  class Outside {
    const vaultsProgram: Key
    var nftHolder: Key
    var lzMessages: seq<Bytes>
    var ccipBodies: seq<Bytes>

    constructor (vaultsProgram: Key, nftHolder: Key)
      ensures this.vaultsProgram == vaultsProgram && this.nftHolder == nftHolder
      ensures lzMessages == [] && ccipBodies == []
    {
      this.vaultsProgram, this.nftHolder := vaultsProgram, nftHolder;
      lzMessages, ccipBodies := [], [];
    }
  }

  class PositionWrapper {
    var owner: Key
    var vaultId: u16
    var nftId: u32
    var snapshot: Option<PositionSnapshot>
    var level: u8
    var custody: bool
    var positionMint: Key
    var lastSentSnapshotTime: i64
    var sendCount: u64

    /** `wrap_position`: mirror only, nothing sent, no custody. */
    constructor (authority: Key, vaultId: u16, nftId: u32)
      ensures State() == WrapperState(authority, vaultId, nftId, None, 0, false, DEFAULT_KEY, 0, 0)
    {
      owner := authority;
      this.vaultId, this.nftId := vaultId, nftId;
      snapshot := None;
      level, custody, positionMint := 0, false, DEFAULT_KEY;
      lastSentSnapshotTime, sendCount := 0, 0;
    }

    function State(): WrapperState
      reads this
    {
      WrapperState(owner, vaultId, nftId, snapshot, level, custody, positionMint, lastSentSnapshotTime, sendCount)
    }

    ghost function ViewWith(outside: Outside): View
      reads this, outside
    {
      View(outside.vaultsProgram, State(), outside.nftHolder, outside.lzMessages, outside.ccipBodies)
    }

    predicate CanSend(snapshotTime: i64)
      reads this
    {
      snapshotTime > lastSentSnapshotTime
    }

    method RecordSend(snapshotTime: i64)
      modifies this
      ensures State() == Recorded(old(State()), snapshotTime)
    {
      lastSentSnapshotTime := snapshotTime;
      sendCount := if sendCount == U64_MAX then U64_MAX else sendCount + 1;
    }

    method RefreshWrapper(outside: Outside, access: Access, authority: Key, request: Request, remaining: seq<AccountInfo>)
      returns (r: Result<()>)
      modifies this
      ensures Performed(old(ViewWith(outside)), Refresh(access, authority, request, remaining), r, ViewWith(outside))
    {
      if !(authority == owner || authority in access.snapshotters || access.OnDemand(authority)) {
        return Err(Unauthorized);
      }
      var computed :- ComputePositionSnapshot(request.(vaultId := vaultId, nftId := nftId), remaining);
      snapshot := Some(computed);
      return Ok(());
    }

    /** Both messages are built from one snapshot; the guard records only a send that happened. */
    method SendPositionSnapshot(outside: Outside, access: Access, authority: Key, ccip: CcipAccounts, legsSucceed: bool)
      returns (r: Result<()>)
      modifies this, outside
      ensures Performed(old(ViewWith(outside)), Send(access, authority, ccip, legsSucceed), r, ViewWith(outside))
    {
      if !(authority in access.senders || access.OnDemand(authority)) {
        return Err(Unauthorized);
      }
      if snapshot.None? {
        return Err(NoPositionSnapshot);
      }
      var current := snapshot.value;
      if !CanSend(current.snapshotTime) {
        return Err(SnapshotAlreadySent);
      }
      if !ccip.MatchRoute() {
        return Err(InvalidCcipAccount);
      }
      var lzMessage := Encode(current);
      var body := EncodeBody(current);
      JoinLength(current, 22);
      assert |body| <= CCIP_DATA_LIMIT;
      if !legsSucceed {
        return Err(SendFailed);
      }
      outside.lzMessages := outside.lzMessages + [lzMessage];
      outside.ccipBodies := outside.ccipBodies + [body];
      RecordSend(current.snapshotTime);
      return Ok(());
    }

    method SetWrapperLevel(outside: Outside, access: Access, authority: Key, newLevel: u8) returns (r: Result<()>)
      modifies this
      ensures Performed(old(ViewWith(outside)), SetLevel(access, authority, newLevel), r, ViewWith(outside))
    {
      if authority != access.admin {
        return Err(Unauthorized);
      }
      if newLevel > LEVEL_MAX {
        return Err(InvalidLevel);
      }
      level := newLevel;
      return Ok(());
    }

    method DepositPositionNft(outside: Outside, authority: Key) returns (r: Result<()>)
      modifies this, outside
      ensures Performed(old(ViewWith(outside)), Deposit(authority), r, ViewWith(outside))
    {
      if !CanSign(authority) {
        return Err(Unauthorized);
      }
      if custody {
        return Err(AlreadyInCustody);
      }
      if outside.nftHolder != authority {
        return Err(InvalidTokenAccount);
      }
      outside.nftHolder := WrapperAuthority(WrapperKey(vaultId, nftId));
      custody := true;
      positionMint := PositionMint(outside.vaultsProgram, vaultId, nftId);
      owner := authority;
      return Ok(());
    }

    method ReleasePositionNft(outside: Outside, access: Access, authority: Key) returns (r: Result<()>)
      modifies this, outside
      ensures Performed(old(ViewWith(outside)), Release(access, authority), r, ViewWith(outside))
    {
      if authority != access.admin {
        return Err(Unauthorized);
      }
      if !custody {
        return Err(NoCustody);
      }
      if outside.nftHolder != WrapperAuthority(WrapperKey(vaultId, nftId)) {
        return Err(InsufficientFunds);
      }
      outside.nftHolder := owner;
      custody := false;
      return Ok(());
    }

    /** A bridge pays from the authority's account for the route's token; the wrapper itself is not written. */
    method BridgeTokens(outside: Outside, access: Access, authority: Key, route: RouteTerms, amount: u64, target: Key,
                        providerSucceeds: bool)
      returns (r: Result<()>)
      modifies outside
      ensures Performed(old(ViewWith(outside)), Bridge(access, authority, route, amount, target, providerSucceeds), r,
                        ViewWith(outside))
    {
      var _ :- BridgeChecks(State(), access, authority, route, amount);
      var takesNft := route.mint == PositionMint(outside.vaultsProgram, vaultId, nftId) && amount > 0;
      if takesNft && !(outside.nftHolder == WrapperAuthority(WrapperKey(vaultId, nftId)) && amount == 1) {
        return Err(InsufficientFunds);
      }
      if !providerSucceeds {
        return Err(SendFailed);
      }
      if takesNft {
        outside.nftHolder := target;
      }
      return Ok(());
    }
  }

  // ---------------------------------------------------------------- runs

  /** What happened so far: snapshots stored, snapshots sent, and the wallets NFTs came from and went to. */
  datatype History = History(
    stored: seq<PositionSnapshot>,
    sent: seq<PositionSnapshot>,
    depositors: seq<Key>,
    returnedTo: seq<Key>
  )

  datatype Moment = Moment(view: View, history: History)

  /** The history after a step that succeeded. */
  ghost function Noted(h: History, before: View, op: Op, after: View): History {
    match op
    case Refresh(_, _, _, _) =>
      if after.wrapper.snapshot.Some? then h.(stored := h.stored + [after.wrapper.snapshot.value]) else h
    case Send(_, _, _, _) =>
      if before.wrapper.snapshot.Some? then h.(sent := h.sent + [before.wrapper.snapshot.value]) else h
    case Deposit(authority) => h.(depositors := h.depositors + [authority])
    case Release(_, _) => h.(returnedTo := h.returnedTo + [after.nftHolder])
    case SetLevel(_, _, _) => h
    case Bridge(_, _, _, _, _, _) => h
    case MoveNft(_) => h
  }

  /** One attempt: an instruction that fails changes nothing. */
  ghost function Next(w: Moment, op: Op): Moment {
    match Step(w.view, op)
    case Ok(v) => Moment(v, Noted(w.history, w.view, op, v))
    case Err(_) => w
  }

  ghost function Run(w: Moment, ops: seq<Op>): Moment
    decreases |ops|
  {
    if ops == [] then w else Next(Run(w, ops[..|ops| - 1]), ops[|ops| - 1])
  }

  /** A wrapper as `wrap_position` leaves it, the NFT at a wallet. */
  ghost predicate Initial(w: Moment) {
    && (exists owner: Key, vaultId: u16, nftId: u32 ::
          w.view.wrapper == WrapperState(owner, vaultId, nftId, None, 0, false, DEFAULT_KEY, 0, 0))
    && w.view.lzMessages == [] && w.view.ccipBodies == []
    && w.history == History([], [], [], [])
  }

  /** What the messengers got is the encoding of what was sent. */
  ghost predicate Matched(v: View, sent: seq<PositionSnapshot>) {
    && |v.lzMessages| == |v.ccipBodies| == |sent|
    && forall i :: 0 <= i < |sent| ==> v.lzMessages[i] == Encoded(sent[i]) && v.ccipBodies[i] == EncodedBody(sent[i])
  }

  /** Sent times are positive and strictly increase up to `last`. */
  ghost predicate Ordered(sent: seq<PositionSnapshot>, last: i64) {
    && (forall i, j :: 0 <= i < j < |sent| ==> sent[i].snapshotTime < sent[j].snapshotTime)
    && (forall i :: 0 <= i < |sent| ==> 0 < sent[i].snapshotTime <= last)
    && last == if sent == [] then 0 else sent[|sent| - 1].snapshotTime
  }

  ghost predicate Guarded(v: View, h: History) {
    && Matched(v, h.sent) && Ordered(h.sent, v.wrapper.lastSentSnapshotTime)
    && v.wrapper.sendCount == (if |h.sent| < U64_MAX then |h.sent| else U64_MAX)
    && forall i :: 0 <= i < |h.sent| ==> h.sent[i] in h.stored
  }

  ghost predicate Identified(v: View, h: History) {
    && (forall i :: 0 <= i < |h.stored| ==> h.stored[i].vaultId == v.wrapper.vaultId && h.stored[i].nftId == v.wrapper.nftId)
    && v.wrapper.snapshot == (if h.stored == [] then None else Some(h.stored[|h.stored| - 1]))
  }

  ghost predicate Custodial(v: View, h: History) {
    && |h.depositors| == |h.returnedTo| + (if v.wrapper.custody then 1 else 0)
    && h.returnedTo == h.depositors[..|h.returnedTo|]
    && (v.wrapper.custody ==> v.wrapper.owner == h.depositors[|h.depositors| - 1])
    && v.wrapper.level <= LEVEL_MAX
  }

  ghost predicate Invariant(w: Moment) {
    Guarded(w.view, w.history) && Identified(w.view, w.history) && Custodial(w.view, w.history)
  }

  /** A snapshot carries the ids it was asked for. */
  lemma SnapshotIdentity(request: Request, remaining: seq<AccountInfo>)
    requires SnapshotOf(request, remaining).Ok?
    ensures var s := SnapshotOf(request, remaining).value;
            s.vaultId == request.vaultId && s.nftId == request.nftId && s.snapshotTime == request.clock
  {
  }

  lemma StoringKeeps(v: View, h: History, s: PositionSnapshot)
    requires Invariant(Moment(v, h)) && s.vaultId == v.wrapper.vaultId && s.nftId == v.wrapper.nftId
    ensures Invariant(Moment(v.(wrapper := v.wrapper.(snapshot := Some(s))), h.(stored := h.stored + [s])))
  {
  }

  lemma RefreshKeeps(w: Moment, access: Access, authority: Key, request: Request, remaining: seq<AccountInfo>)
    requires Invariant(w) && Refreshed(w.view.wrapper, access, authority, request, remaining).Ok?
    ensures Invariant(Next(w, Refresh(access, authority, request, remaining)))
  {
    var own := request.(vaultId := w.view.wrapper.vaultId, nftId := w.view.wrapper.nftId);
    SnapshotIdentity(own, remaining);
    StoringKeeps(w.view, w.history, SnapshotOf(own, remaining).value);
  }

  lemma MatchedGrows(v: View, u: View, sent: seq<PositionSnapshot>, s: PositionSnapshot)
    requires Matched(v, sent)
    requires u.lzMessages == v.lzMessages + [Encoded(s)] && u.ccipBodies == v.ccipBodies + [EncodedBody(s)]
    ensures Matched(u, sent + [s])
  {
  }

  lemma OrderedGrows(sent: seq<PositionSnapshot>, last: i64, s: PositionSnapshot)
    requires Ordered(sent, last) && s.snapshotTime > last
    ensures Ordered(sent + [s], s.snapshotTime)
  {
  }

  lemma SendingKeeps(v: View, h: History, s: PositionSnapshot)
    requires Guarded(v, h) && s in h.stored && s.snapshotTime > v.wrapper.lastSentSnapshotTime
    ensures Guarded(View(v.vaultsProgram, Recorded(v.wrapper, s.snapshotTime), v.nftHolder, v.lzMessages + [Encoded(s)],
                         v.ccipBodies + [EncodedBody(s)]),
                    h.(sent := h.sent + [s]))
  {
    var u := View(v.vaultsProgram, Recorded(v.wrapper, s.snapshotTime), v.nftHolder, v.lzMessages + [Encoded(s)],
                  v.ccipBodies + [EncodedBody(s)]);
    MatchedGrows(v, u, h.sent, s);
    OrderedGrows(h.sent, v.wrapper.lastSentSnapshotTime, s);
  }

  lemma SendKeeps(w: Moment, access: Access, authority: Key, ccip: CcipAccounts, legsSucceed: bool)
    requires Invariant(w) && Sent(w.view, access, authority, ccip, legsSucceed).Ok?
    ensures Invariant(Next(w, Send(access, authority, ccip, legsSucceed)))
  {
    var h, s := w.history, w.view.wrapper.snapshot.value;
    assert s == h.stored[|h.stored| - 1];
    SendingKeeps(w.view, h, s);
  }

  lemma DepositKeeps(v: View, h: History, authority: Key)
    requires Custodial(v, h) && Deposited(v, authority).Ok?
    ensures Custodial(Deposited(v, authority).value, h.(depositors := h.depositors + [authority]))
  {
  }

  lemma ReleaseKeeps(v: View, h: History, access: Access, authority: Key)
    requires Custodial(v, h) && Returned(v, access, authority).Ok?
    ensures var after := Returned(v, access, authority).value;
            Custodial(after, h.(returnedTo := h.returnedTo + [after.nftHolder]))
  {
    assert h.depositors[..|h.returnedTo| + 1] == h.depositors[..|h.returnedTo|] + [h.depositors[|h.returnedTo|]];
  }

  /** The part of a state that the send guard is about. */
  ghost predicate SameSendSide(v: View, u: View) {
    && u.lzMessages == v.lzMessages && u.ccipBodies == v.ccipBodies
    && u.wrapper.sendCount == v.wrapper.sendCount
    && u.wrapper.lastSentSnapshotTime == v.wrapper.lastSentSnapshotTime
    && u.wrapper.snapshot == v.wrapper.snapshot
    && u.wrapper.vaultId == v.wrapper.vaultId && u.wrapper.nftId == v.wrapper.nftId
  }

  lemma SendSideKept(v: View, h: History, u: View, g: History)
    requires Guarded(v, h) && Identified(v, h) && SameSendSide(v, u) && g.stored == h.stored && g.sent == h.sent
    ensures Guarded(u, g) && Identified(u, g)
  {
  }

  lemma DepositPreserves(w: Moment, authority: Key)
    requires Invariant(w) && Deposited(w.view, authority).Ok?
    ensures Invariant(Next(w, Deposit(authority)))
  {
    var u := Deposited(w.view, authority).value;
    var g := w.history.(depositors := w.history.depositors + [authority]);
    DepositKeeps(w.view, w.history, authority);
    SendSideKept(w.view, w.history, u, g);
    assert Next(w, Deposit(authority)) == Moment(u, g);
  }

  lemma ReleasePreserves(w: Moment, access: Access, authority: Key)
    requires Invariant(w) && Returned(w.view, access, authority).Ok?
    ensures Invariant(Next(w, Release(access, authority)))
  {
    var u := Returned(w.view, access, authority).value;
    var g := w.history.(returnedTo := w.history.returnedTo + [u.nftHolder]);
    ReleaseKeeps(w.view, w.history, access, authority);
    SendSideKept(w.view, w.history, u, g);
    assert Next(w, Release(access, authority)) == Moment(u, g);
  }

  lemma LevelPreserves(w: Moment, access: Access, authority: Key, level: u8)
    requires Invariant(w) && Leveled(w.view.wrapper, access, authority, level).Ok?
    ensures Invariant(Next(w, SetLevel(access, authority, level)))
  {
    var u := w.view.(wrapper := w.view.wrapper.(level := level));
    SendSideKept(w.view, w.history, u, w.history);
    assert Next(w, SetLevel(access, authority, level)) == Moment(u, w.history);
  }

  /** A transfer or a bridge can change who holds the NFT, and nothing else. */
  lemma MovePreserves(w: Moment, op: Op)
    requires Invariant(w) && (op.MoveNft? || op.Bridge?) && Step(w.view, op).Ok?
    ensures Invariant(Next(w, op))
  {
    var u := Step(w.view, op).value;
    assert u == w.view.(nftHolder := u.nftHolder);
    SendSideKept(w.view, w.history, u, w.history);
    assert Next(w, op) == Moment(u, w.history);
  }

  lemma NextKeeps(w: Moment, op: Op)
    requires Invariant(w)
    ensures Invariant(Next(w, op))
  {
    if Step(w.view, op).Ok? {
      match op
      case Refresh(access, authority, request, remaining) => RefreshKeeps(w, access, authority, request, remaining);
      case Send(access, authority, ccip, legsSucceed) => SendKeeps(w, access, authority, ccip, legsSucceed);
      case SetLevel(access, authority, level) => LevelPreserves(w, access, authority, level);
      case Deposit(authority) => DepositPreserves(w, authority);
      case Release(access, authority) => ReleasePreserves(w, access, authority);
      case MoveNft(_) => MovePreserves(w, op);
      case Bridge(_, _, _, _, _, _) => MovePreserves(w, op);
    }
  }

  lemma {:induction false} RunKeeps(w: Moment, ops: seq<Op>)
    requires Initial(w)
    ensures Invariant(Run(w, ops))
    decreases |ops|
  {
    if ops != [] {
      RunKeeps(w, ops[..|ops| - 1]);
      NextKeeps(Run(w, ops[..|ops| - 1]), ops[|ops| - 1]);
    }
  }

  /** What reached the two messengers is `s`: the same bytes on both, and they decode to it. */
  ghost predicate Delivers(lzMessage: Bytes, ccipBody: Bytes, s: PositionSnapshot) {
    UnwrapLzPayload(lzMessage) == Ok(ccipBody) && Decode(lzMessage) == Ok(s)
  }

  lemma SentDelivers(s: PositionSnapshot)
    ensures Delivers(Encoded(s), EncodedBody(s), s)
  {
    RoundTrip(s, []);
    assert Encoded(s) + [] == Encoded(s);
  }

  /**
   * Over every run, whatever the clock, the callers and the failures: the i-th LayerZero message
   * and the i-th Chainlink body carry the same bytes, decode to a snapshot this wrapper stored for
   * this very position, and a later message always decodes to a strictly later time. So nothing is
   * sent twice, and the counter is the number of messages until it saturates.
   */
  lemma SendsOverEveryRun(w: Moment, ops: seq<Op>)
    returns (sent: seq<PositionSnapshot>)
    requires Initial(w)
    ensures var v := Run(w, ops).view;
            && |v.lzMessages| == |v.ccipBodies| == |sent|
            && v.wrapper.sendCount == (if |sent| < U64_MAX then |sent| else U64_MAX)
            && forall i :: 0 <= i < |sent| ==> Delivers(v.lzMessages[i], v.ccipBodies[i], sent[i])
    ensures forall i :: 0 <= i < |sent| ==>
              && sent[i] in Run(w, ops).history.stored
              && sent[i].vaultId == Run(w, ops).view.wrapper.vaultId
              && sent[i].nftId == Run(w, ops).view.wrapper.nftId
    ensures forall i, j :: 0 <= i < j < |sent| ==> sent[i].snapshotTime < sent[j].snapshotTime
  {
    RunKeeps(w, ops);
    var end := Run(w, ops);
    sent := end.history.sent;
    forall i | 0 <= i < |sent|
      ensures Delivers(end.view.lzMessages[i], end.view.ccipBodies[i], sent[i])
    {
      SentDelivers(sent[i]);
    }
  }

  /** Over every run the k-th release gave the NFT back to the wallet that made the k-th deposit. */
  lemma {:induction false} ReleasesMatchDeposits(w: Moment, ops: seq<Op>)
    requires Initial(w)
    ensures var end := Run(w, ops);
            && |end.history.returnedTo| <= |end.history.depositors| <= |end.history.returnedTo| + 1
            && forall k :: 0 <= k < |end.history.returnedTo| ==> end.history.returnedTo[k] == end.history.depositors[k]
  {
    RunKeeps(w, ops);
  }

  // ---------------------------------------------------------------- when custody means holding

  /** In custody the NFT is at the wrapper's authority. */
  ghost predicate Held(v: View) {
    v.wrapper.custody ==> v.nftHolder == AuthorityOf(v.wrapper)
  }

  /** A route that can pay out the token of mint `mint`. */
  predicate Drains(route: RouteTerms, mint: Key) {
    route.enabled && route.maxAmountPerTx > 0 && route.mint == mint
  }

  /** No bridge in the run is on a route that can pay out `mint`. */
  ghost predicate Harmless(ops: seq<Op>, mint: Key) {
    forall k :: 0 <= k < |ops| ==> ops[k].Bridge? ==> !Drains(ops[k].route, mint)
  }

  lemma NextHeld(w: Moment, op: Op)
    requires Held(w.view) && (op.Bridge? ==> !Drains(op.route, w.view.NftMint()))
    ensures Held(Next(w, op).view)
  {
    if op.Refresh? && Step(w.view, op).Ok? {
      assert Next(w, op).view.nftHolder == w.view.nftHolder;
    }
  }

  lemma {:induction false} MintStays(w: Moment, ops: seq<Op>)
    ensures Run(w, ops).view.NftMint() == w.view.NftMint()
    ensures AuthorityOf(Run(w, ops).view.wrapper) == AuthorityOf(w.view.wrapper)
    decreases |ops|
  {
    if ops != [] {
      MintStays(w, ops[..|ops| - 1]);
    }
  }

  lemma {:induction false} HarmlessRunHolds(w: Moment, ops: seq<Op>)
    requires Initial(w) && Harmless(ops, w.view.NftMint())
    ensures Held(Run(w, ops).view)
    decreases |ops|
  {
    if ops != [] {
      var init := ops[..|ops| - 1];
      assert forall k :: 0 <= k < |init| ==> init[k] == ops[k];
      HarmlessRunHolds(w, init);
      MintStays(w, init);
      NextHeld(Run(w, init), ops[|ops| - 1]);
    }
  }

  ghost predicate OnRoutes(ops: seq<Op>, routes: set<RouteTerms>) {
    forall k :: 0 <= k < |ops| ==> ops[k].Bridge? ==> ops[k].route in routes
  }

  /** Deposit, level 1, and the depositor bridges the NFT away on a route for its mint. */
  lemma DrainingRun(w: Moment, route: RouteTerms) returns (ops: seq<Op>)
    requires Initial(w) && CanSign(w.view.nftHolder) && Drains(route, w.view.NftMint())
    ensures OnRoutes(ops, {route}) && !Held(Run(w, ops).view)
  {
    var holder := w.view.nftHolder;
    var access := Access(holder, [], [], None);
    var deposit, raise := Deposit(holder), SetLevel(access, holder, LEVEL_DEPOSIT_PAYBACK);
    var bridge := Bridge(access, holder, route, 1, holder, true);
    ops := [deposit, raise, bridge];
    RunThree(w, deposit, raise, bridge);
  }

  lemma RunThree(w: Moment, a: Op, b: Op, c: Op)
    ensures Run(w, [a, b, c]) == Next(Next(Next(w, a), b), c)
  {
    assert [a, b, c][..2] == [a, b] && [a, b][..1] == [a] && [a][..0] == [];
    assert Run(w, [a]) == Next(Run(w, []), a);
    assert Run(w, [a, b]) == Next(Run(w, [a]), b);
  }

  /**
   * Custody means that the authority holds the NFT, over every run on a set of routes, exactly
   * when none of those routes is switched on for the position's own mint with a cap above zero.
   */
  lemma CustodyHeldIff(w: Moment, routes: set<RouteTerms>)
    requires Initial(w) && CanSign(w.view.nftHolder)
    ensures (forall ops :: OnRoutes(ops, routes) ==> Held(Run(w, ops).view))
            <==> forall route :: route in routes ==> !Drains(route, w.view.NftMint())
  {
    if route :| route in routes && Drains(route, w.view.NftMint()) {
      var ops := DrainingRun(w, route);
      assert OnRoutes(ops, routes);
    } else {
      forall ops | OnRoutes(ops, routes)
        ensures Held(Run(w, ops).view)
      {
        HarmlessRunHolds(w, ops);
      }
    }
  }

  /**
   * In custody, only the admin can give the NFT back, to the last depositor; and when no bridge was
   * on a route for it, the admin always can.
   */
  lemma {:induction false} AdminCanAlwaysRelease(w: Moment, ops: seq<Op>, access: Access, authority: Key)
    requires Initial(w) && Run(w, ops).view.wrapper.custody
    ensures var end := Run(w, ops); var after := Step(end.view, Release(access, authority));
            && (after.Ok? <==> authority == access.admin && end.view.nftHolder == AuthorityOf(end.view.wrapper))
            && (Harmless(ops, w.view.NftMint()) ==> (after.Ok? <==> authority == access.admin))
            && |end.history.depositors| > 0
            && (after.Ok? ==> after.value.nftHolder == end.history.depositors[|end.history.depositors| - 1])
  {
    RunKeeps(w, ops);
    if Harmless(ops, w.view.NftMint()) {
      HarmlessRunHolds(w, ops);
    }
  }

  /**
   * A refresh makes the wrapper sendable exactly when its clock is past the last snapshot sent: a
   * refresh in the same second as that snapshot does not.
   */
  lemma RefreshRearmsIff(v: View, access: Access, authority: Key, request: Request, remaining: seq<AccountInfo>,
                         sender: Key, ccip: CcipAccounts)
    requires Step(v, Refresh(access, authority, request, remaining)).Ok? && sender in access.senders
    requires ccip.MatchRoute()
    ensures var after := Step(v, Refresh(access, authority, request, remaining)).value;
            Step(after, Send(access, sender, ccip, true)).Ok? <==> request.clock > v.wrapper.lastSentSnapshotTime
  {
    SnapshotIdentity(request.(vaultId := v.wrapper.vaultId, nftId := v.wrapper.nftId), remaining);
  }

  /** Right after a send, and after any steps but a refresh, no sender gets the wrapper to send again. */
  lemma NoSecondSend(v: View, access: Access, authority: Key, ccip: CcipAccounts, between: seq<Op>, h: History, again: Op)
    requires Step(v, Send(access, authority, ccip, true)).Ok? && again.Send?
    requires forall k :: 0 <= k < |between| ==> !between[k].Refresh?
    ensures Step(Run(Moment(Step(v, Send(access, authority, ccip, true)).value, h), between).view, again).Err?
  {
    var after := Step(v, Send(access, authority, ccip, true)).value;
    SendSpends(v, access, authority, ccip);
    SpentStays(Moment(after, h), between);
    SpentRefuses(Run(Moment(after, h), between).view, again);
  }

  lemma SendSpends(v: View, access: Access, authority: Key, ccip: CcipAccounts)
    requires Step(v, Send(access, authority, ccip, true)).Ok?
    ensures Spent(Step(v, Send(access, authority, ccip, true)).value.wrapper)
  {
  }

  lemma SpentRefuses(v: View, op: Op)
    requires Spent(v.wrapper) && op.Send?
    ensures Step(v, op).Err?
  {
  }

  ghost predicate Spent(w: WrapperState) {
    w.snapshot.Some? && w.snapshot.value.snapshotTime <= w.lastSentSnapshotTime
  }

  lemma {:induction false} SpentStays(w: Moment, ops: seq<Op>)
    requires Spent(w.view.wrapper) && forall k :: 0 <= k < |ops| ==> !ops[k].Refresh?
    ensures Spent(Run(w, ops).view.wrapper)
    decreases |ops|
  {
    if ops != [] {
      var init := ops[..|ops| - 1];
      assert forall k :: 0 <= k < |init| ==> !ops[k].Refresh?;
      SpentStays(w, init);
    }
  }
}
