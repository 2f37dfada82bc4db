/** A run in which a refresh does not re-arm the send guard: it falls in the second of the snapshot sent before. */
module SameSecond {
  import opened Outcome
  import opened Bytes
  import opened BridgeRoutes
  import opened GetJupiterPosition
  import opened PositionSnapshots
  import opened PositionWrappers
  import LongChains

  /** A wrapper of position 0 in vault 0 just made by `owner`. */
  function Wrapped(vaultsProgram: Key, owner: Key): Moment {
    Moment(View(vaultsProgram, WrapperState(owner, 0, 0, None, 0, false, DEFAULT_KEY, 0, 0), owner, [], []),
           History([], [], [], []))
  }

  function OwnAccess(owner: Key): Access {
    Access(owner, [owner], [owner], None)
  }

  lemma RefreshTakes(w: Moment, owner: Key, request: Request, remaining: seq<AccountInfo>, s: PositionSnapshot)
    requires w.view.wrapper.owner == owner && w.view.wrapper.vaultId == 0 && w.view.wrapper.nftId == 0
    requires request.vaultId == 0 && request.nftId == 0 && SnapshotOf(request, remaining) == Ok(s)
    ensures Next(w, Refresh(OwnAccess(owner), owner, request, remaining))
         == Moment(w.view.(wrapper := w.view.wrapper.(snapshot := Some(s))), w.history.(stored := w.history.stored + [s]))
  {
    assert request.(vaultId := 0, nftId := 0) == request;
  }

  lemma SendTakes(w: Moment, owner: Key, ccip: CcipAccounts, s: PositionSnapshot)
    requires w.view.wrapper.snapshot == Some(s) && s.snapshotTime > w.view.wrapper.lastSentSnapshotTime
    requires ccip.MatchRoute()
    ensures var after := Next(w, Send(OwnAccess(owner), owner, ccip, true));
            && after.view.wrapper == Recorded(w.view.wrapper, s.snapshotTime)
            && after.history == w.history.(sent := w.history.sent + [s])
  {
  }

  lemma SecondSendRefused(owner: Key, ccip: CcipAccounts, w: Moment, request: Request, remaining: seq<AccountInfo>,
                          s: PositionSnapshot)
    requires w.view.wrapper.owner == owner && w.view.wrapper.vaultId == 0 && w.view.wrapper.nftId == 0
    requires w.view.wrapper.lastSentSnapshotTime < s.snapshotTime && ccip.MatchRoute()
    requires request.vaultId == 0 && request.nftId == 0 && SnapshotOf(request, remaining) == Ok(s)
    ensures var refresh := Refresh(OwnAccess(owner), owner, request, remaining);
            var send := Send(OwnAccess(owner), owner, ccip, true);
            var end := Next(Next(Next(w, refresh), send), refresh);
            && Step(end.view, send) == Err(SnapshotAlreadySent)
            && end.history.stored == w.history.stored + [s] + [s] && end.history.sent == w.history.sent + [s]
  {
    var refresh := Refresh(OwnAccess(owner), owner, request, remaining);
    var send := Send(OwnAccess(owner), owner, ccip, true);
    RefreshTakes(w, owner, request, remaining, s);
    var first := Next(w, refresh);
    SendTakes(first, owner, ccip, s);
    RefreshTakes(Next(first, send), owner, request, remaining, s);
  }

  lemma RefusedInRun(vaultsProgram: Key, owner: Key, ccip: CcipAccounts, request: Request, remaining: seq<AccountInfo>,
                     s: PositionSnapshot)
    requires s.snapshotTime > 0 && ccip.MatchRoute()
    requires request.vaultId == 0 && request.nftId == 0 && SnapshotOf(request, remaining) == Ok(s)
    ensures var refresh := Refresh(OwnAccess(owner), owner, request, remaining);
            var send := Send(OwnAccess(owner), owner, ccip, true);
            var end := Run(Wrapped(vaultsProgram, owner), [refresh, send, refresh]);
            && |end.history.stored| == 2 && |end.history.sent| == 1
            && Step(end.view, send) == Err(SnapshotAlreadySent)
  {
    var refresh := Refresh(OwnAccess(owner), owner, request, remaining);
    var send := Send(OwnAccess(owner), owner, ccip, true);
    var start := Wrapped(vaultsProgram, owner);
    RunThree(start, refresh, send, refresh);
    SecondSendRefused(owner, ccip, start, request, remaining, s);
  }

  /**
   * Wrapped, refreshed at time `t`, sent, and refreshed again at `t`: both refreshes and the send
   * succeed, and the next send is refused as already sent.
   */
  lemma SameSecondRefreshIsNotSendable(vaultsProgram: Pubkey, owner: Key, ccip: CcipAccounts, t: i64)
    returns (refresh: Op, send: Op)
    requires t > 0 && ccip.MatchRoute()
    ensures refresh.Refresh? && refresh.request.clock == t && send.Send?
    ensures Initial(Wrapped(Plain(vaultsProgram), owner))
    ensures var end := Run(Wrapped(Plain(vaultsProgram), owner), [refresh, send, refresh]);
            && |end.history.stored| == 2 && |end.history.sent| == 1
            && Step(end.view, send) == Err(SnapshotAlreadySent)
  {
    var request, remaining := OneRequest(vaultsProgram, t);
    refresh := Refresh(OwnAccess(owner), owner, request, remaining);
    send := Send(OwnAccess(owner), owner, ccip, true);
    RefusedInRun(Plain(vaultsProgram), owner, ccip, request, remaining, SnapshotOf(request, remaining).value);
  }

  /** A request that succeeds at any time. */
  lemma OneRequest(vaultsProgram: Pubkey, t: i64) returns (request: Request, remaining: seq<AccountInfo>)
    ensures request.clock == t && request.vaultId == 0 && request.nftId == 0
    ensures SnapshotOf(request, remaining).Ok? && SnapshotOf(request, remaining).value.snapshotTime == t
  {
    var data := LongChains.PositionBytes(0, 0);
    LongChains.PositionRead(0, 0);
    request := LongChains.LongRequest(vaultsProgram, 0, t, data);
    remaining := LongChains.AllBranches(vaultsProgram);
    LongChains.WholeSnapshotSucceeds(vaultsProgram, 0, t, data);
  }
}
