/**
 * Who may do what to a wrapper, and everything each instruction changes, written out: the checks in
 * order with their errors, and the whole state afterwards.
 */
module WrapperRules {
  import opened Outcome
  import opened Bytes
  import opened PositionSnapshots
  import opened GetJupiterPosition
  import opened BridgeRoutes
  import opened PositionWrappers

  predicate Listed(list: Option<seq<Key>>, key: Key) {
    list.Some? && key in list.value
  }

  /** The owner, a snapshotter or a listed caller may refresh; only the snapshot changes. */
  lemma RefreshRule(v: View, access: Access, authority: Key, request: Request, remaining: seq<AccountInfo>)
    ensures var w := v.wrapper;
            var read := SnapshotOf(request.(vaultId := w.vaultId, nftId := w.nftId), remaining);
            Step(v, Refresh(access, authority, request, remaining))
            == if authority != w.owner && authority !in access.snapshotters && !Listed(access.ondemand, authority)
               then Err(Unauthorized)
               else if read.Err? then Err(read.error)
               else Ok(View(v.vaultsProgram,
                            WrapperState(w.owner, w.vaultId, w.nftId, Some(read.value), w.level, w.custody,
                                         w.positionMint, w.lastSentSnapshotTime, w.sendCount),
                            v.nftHolder, v.lzMessages, v.ccipBodies))
  {
  }

  /**
   * A sender or a listed caller may send, not the owner as such: there must be a snapshot, newer
   * than the last one sent, Chainlink accounts that match the route, and both legs must succeed.
   */
  lemma SendRule(v: View, access: Access, authority: Key, ccip: CcipAccounts, legsSucceed: bool)
    ensures var w := v.wrapper;
            Step(v, Send(access, authority, ccip, legsSucceed))
            == if authority !in access.senders && !Listed(access.ondemand, authority) then Err(Unauthorized)
               else if w.snapshot == None then Err(NoPositionSnapshot)
               else if w.snapshot.value.snapshotTime <= w.lastSentSnapshotTime then Err(SnapshotAlreadySent)
               else if ccip.configOwner != ccip.route.router
                       || ccip.feeTokenMint != Program("So11111111111111111111111111111111111111112")
                       || ccip.feeTokenUser != Plain(Zeros(32)) || ccip.feeQuoter != ccip.route.feeQuoter
                       || ccip.rmnRemote != ccip.route.rmnRemote || !ccip.payerIsEmpty then Err(InvalidCcipAccount)
               else if !legsSucceed then Err(SendFailed)
               else
                 var s := w.snapshot.value;
                 Ok(View(v.vaultsProgram,
                         WrapperState(w.owner, w.vaultId, w.nftId, w.snapshot, w.level, w.custody, w.positionMint,
                                      s.snapshotTime,
                                      if w.sendCount == 0xffff_ffff_ffff_ffff then w.sendCount else w.sendCount + 1),
                         v.nftHolder, v.lzMessages + [Encoded(s)], v.ccipBodies + [EncodedBody(s)]))
  {
  }

  /** Only the admin sets the level, and only to 0 to 4. */
  lemma LevelRule(v: View, access: Access, authority: Key, level: u8)
    ensures var w := v.wrapper;
            Step(v, SetLevel(access, authority, level))
            == if authority != access.admin then Err(Unauthorized)
               else if level > 4 then Err(InvalidLevel)
               else Ok(View(v.vaultsProgram,
                            WrapperState(w.owner, w.vaultId, w.nftId, w.snapshot, level, w.custody, w.positionMint,
                                         w.lastSentSnapshotTime, w.sendCount),
                            v.nftHolder, v.lzMessages, v.ccipBodies))
  {
  }

  /** Whoever holds the NFT may deposit it while it is not in custody, and becomes the owner. */
  lemma DepositRule(v: View, authority: Key)
    ensures var w := v.wrapper;
            Step(v, Deposit(authority))
            == if authority.Derived? && authority.program == Program("LendMirror") then Err(Unauthorized)
               else if w.custody then Err(AlreadyInCustody)
               else if v.nftHolder != authority then Err(InvalidTokenAccount)
               else Ok(View(v.vaultsProgram,
                            WrapperState(authority, w.vaultId, w.nftId, w.snapshot, w.level, true,
                                         PositionMint(v.vaultsProgram, w.vaultId, w.nftId),
                                         w.lastSentSnapshotTime, w.sendCount),
                            WrapperAuthority(WrapperKey(w.vaultId, w.nftId)), v.lzMessages, v.ccipBodies))
  {
  }

  /** Only the admin releases, only from custody, and only to the owner. */
  lemma ReleaseRule(v: View, access: Access, authority: Key)
    ensures var w := v.wrapper;
            Step(v, Release(access, authority))
            == if authority != access.admin then Err(Unauthorized)
               else if !w.custody then Err(NoCustody)
               else if v.nftHolder != WrapperAuthority(WrapperKey(w.vaultId, w.nftId)) then Err(InsufficientFunds)
               else Ok(View(v.vaultsProgram,
                            WrapperState(w.owner, w.vaultId, w.nftId, w.snapshot, w.level, false, w.positionMint,
                                         w.lastSentSnapshotTime, w.sendCount),
                            w.owner, v.lzMessages, v.ccipBodies))
  {
  }

  /** The owner, a sender or a listed caller may bridge, on level 1 or 2, on a route that is on, under its cap. */
  lemma BridgeRule(v: View, access: Access, authority: Key, route: RouteTerms, amount: u64, target: Key,
                   providerSucceeds: bool)
    ensures var w := v.wrapper;
            var forNft := amount > 0 && route.mint == PositionMint(v.vaultsProgram, w.vaultId, w.nftId);
            Step(v, Bridge(access, authority, route, amount, target, providerSucceeds))
            == if authority != w.owner && authority !in access.senders && !Listed(access.ondemand, authority)
               then Err(Unauthorized)
               else if w.level != 1 && w.level != 2 then Err(LevelDenied)
               else if !route.enabled then Err(RouteDisabled)
               else if amount > route.maxAmountPerTx then Err(AmountTooLarge)
               else if forNft && (amount > 1 || v.nftHolder != WrapperAuthority(WrapperKey(w.vaultId, w.nftId)))
               then Err(InsufficientFunds)
               else if !providerSucceeds then Err(SendFailed)
               else Ok(View(v.vaultsProgram, w, if forNft then target else v.nftHolder, v.lzMessages, v.ccipBodies))
  {
  }

  /** A stranger, who is on no list, owns nothing and holds nothing, is refused whatever the instruction. */
  lemma StrangerIsRefused(v: View, op: Op)
    requires !op.MoveNft?
    requires op.authority != v.wrapper.owner && op.authority != v.nftHolder
    requires op.Deposit? || (op.authority != op.access.admin && op.authority !in op.access.snapshotters
                             && op.authority !in op.access.senders && !Listed(op.access.ondemand, op.authority))
    ensures Step(v, op).Err? && (!op.Deposit? ==> Step(v, op) == Err(Unauthorized))
  {
    match op
    case Refresh(access, authority, request, remaining) => RefreshRule(v, access, authority, request, remaining);
    case Deposit(authority) => DepositRule(v, authority);
    case _ =>
  }

  /** The seeds behind a wrapper, its authority and its position's mint. */
  lemma DerivedAddresses(vaultsProgram: Key, vaultId: u16, nftId: u32)
    ensures WrapperKey(vaultId, nftId)
         == Derived(Program("LendMirror"), [Text("LendMirrorPositionWrapperV1"), Raw(ToLE(vaultId, 2)), Raw(ToLE(nftId, 4))])
    ensures WrapperAuthority(WrapperKey(vaultId, nftId))
         == Derived(Program("LendMirror"), [Text("LendMirrorWrapperAuthV1"), OfKey(WrapperKey(vaultId, nftId))])
    ensures PositionMint(vaultsProgram, vaultId, nftId)
         == Derived(vaultsProgram, [Text("position_mint"), Raw(ToLE(vaultId, 2)), Raw(ToLE(nftId, 4))])
  {
  }

  /** Two wrappers never share an address, an authority or a position's mint. */
  lemma OneWrapperPerPosition(vaultsProgram: Key, v: u16, n: u32, w: u16, m: u32)
    requires v != w || n != m
    ensures WrapperKey(v, n) != WrapperKey(w, m)
    ensures WrapperAuthority(WrapperKey(v, n)) != WrapperAuthority(WrapperKey(w, m))
    ensures PositionMint(vaultsProgram, v, n) != PositionMint(vaultsProgram, w, m)
  {
    Spans();
    FromToLE(v, 2);
    FromToLE(w, 2);
    FromToLE(n, 4);
    FromToLE(m, 4);
    assert v != w ==> Raw(ToLE(v, 2)) != Raw(ToLE(w, 2));
    assert n != m ==> Raw(ToLE(n, 4)) != Raw(ToLE(m, 4));
    assert WrapperKey(v, n).seeds[1] != WrapperKey(w, m).seeds[1] || WrapperKey(v, n).seeds[2] != WrapperKey(w, m).seeds[2];
  }
}
