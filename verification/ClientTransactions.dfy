/** The client's transaction as a whole: that it commits, and what it changes. */
module ClientTransactions {
  import opened Outcome
  import opened OftSend
  import opened BridgeRoutes
  import opened ReleaseGuard
  import opened Transactions
  import opened LzSend

  ghost function AfterRelease(c: LzCall, k: nat, released: Balances, w: World): World {
    World(released, w.releases + [Release(c, k)], w.sends, w.moves)
  }

  ghost function AfterSend(c: LzCall, program: Key, w: World): World
    requires Balance(w.balances, c.AuthorityAta()) >= c.amount && c.route.domainOrSelector < 0x1_0000_0000
  {
    World(w.balances[c.AuthorityAta() := Balance(w.balances, c.AuthorityAta()) - c.amount], w.releases,
          w.sends + [Delivery(program, c.AuthorityAta(), c.route.domainOrSelector, c.route.receiver, c.amount)], w.moves)
  }

  /** An issuer that does its part takes the world after a release to `AfterSend`. */
  lemma SendRuns(issuers: Issuers, c: LzCall, tx: Transaction, i: nat, w: World)
    requires i < |tx| && tx[i].programId != LENDMIRROR && CheckSend(c, tx[i]).Ok?
    requires tx[i].programId in issuers && issuers[tx[i].programId] == c.route.gasLimit
    requires Balance(w.balances, c.AuthorityAta()) >= c.amount && c.route.domainOrSelector < 0x1_0000_0000
    ensures Runs(issuers, tx, i, [w, AfterSend(c, tx[i].programId, w)])
  {
    assert !IsWrapperAccount(c.AuthorityAta());
    OneActRuns(issuers, tx, i, [w, AfterSend(c, tx[i].programId, w)]);
  }

  lemma ReleaseRuns(issuers: Issuers, c: LzCall, tx: Transaction, i: nat, w: World)
    requires i < |tx| && Released(c, tx, i, w.balances).Ok? && IsReleaseCall(tx[i])
    ensures Runs(issuers, tx, i, [w, AfterRelease(c, i, Released(c, tx, i, w.balances).value, w)])
  {
    var v := AfterRelease(c, i, Released(c, tx, i, w.balances).value, w);
    assert ReleaseStep(c, tx, i, w, v);
    ReleaseFacts(c, tx, i, w.balances);
    OneActRuns(issuers, tx, i, [w, v]);
  }

  /** Another program that debits a wrapper account through one of this program's other instructions. */
  lemma DebitRuns(issuers: Issuers, tx: Transaction, i: nat, w: World, v: World, m: Movement)
    requires i < |tx| && tx[i].programId != LENDMIRROR && !IsIssuerSend(issuers, tx[i]) && MovementStep(m, w, v)
    ensures Runs(issuers, tx, i, [w, v])
  {
    assert FreeAct(w, v);
    OneActRuns(issuers, tx, i, [w, v]);
  }

  lemma OneActRuns(issuers: Issuers, tx: Transaction, i: nat, worlds: seq<World>)
    requires i < |tx| && |worlds| == 2 && Act(issuers, tx, i, worlds[0], worlds[1])
    ensures Runs(issuers, tx, i, worlds)
  {
    forall j | 0 <= j < |worlds| - 1
      ensures Act(issuers, tx, i, worlds[j], worlds[j + 1])
    {
      assert j == 0;
    }
  }

  /** Programs that need not touch a token: not this one, and no issuer's send. */
  ghost predicate MayIdle(issuers: Issuers, part: Transaction) {
    forall k :: 0 <= k < |part| ==> part[k].programId != LENDMIRROR && !IsIssuerSend(issuers, part[k])
  }

  ghost function Idle(n: nat, w: World): (run: seq<seq<World>>)
    ensures |run| == n && forall i :: 0 <= i < n ==> run[i] == [w]
  {
    seq(n, _ => [w])
  }

  /** A run of a whole transaction from the first world of its first instruction. */
  ghost predicate Reaches(run: seq<seq<World>>, start: World, end: World) {
    && (forall i :: 0 <= i < |run| ==> |run[i]| > 0)
    && (forall i :: 0 <= i < |run| - 1 ==> Follows(run[i], run[i + 1]))
    && (if run == [] then start == end else run[0][0] == start && run[|run| - 1][|run[|run| - 1]| - 1] == end)
  }

  lemma ReachesJoin(a: seq<seq<World>>, b: seq<seq<World>>, u: World, w: World, v: World)
    requires Reaches(a, u, w) && Reaches(b, w, v)
    ensures Reaches(a + b, u, v)
  {
    var run := a + b;
    forall i | 0 <= i < |run| - 1
      ensures Follows(run[i], run[i + 1])
    {
      if i < |a| - 1 {
        assert Follows(a[i], a[i + 1]);
      } else if i >= |a| {
        assert Follows(b[i - |a|], b[i - |a| + 1]);
      }
    }
  }

  lemma IdleReaches(n: nat, w: World)
    ensures Reaches(Idle(n, w), w, w)
  {
  }

  lemma ReachesAt(issuers: Issuers, tx: Transaction, run: seq<seq<World>>, start: World, end: World)
    requires Reaches(run, start, end) && Blank(start) && 0 < |tx| == |run|
    requires forall i :: 0 <= i < |tx| ==> Runs(issuers, tx, i, run[i])
    ensures Committed(issuers, tx, run)
    ensures At(issuers, tx, run, 0) == start && At(issuers, tx, run, |tx|) == end
  {
  }

  /** A pair in the middle of idle programs, after a prefix that has run from `start` to `u`. */
  lemma PairInContext(issuers: Issuers, tx: Transaction, pre: seq<seq<World>>, start: World, u: World, w: World, v: World)
    returns (run: seq<seq<World>>)
    requires |pre| + 2 <= |tx| && Reaches(pre, start, u) && Blank(start)
    requires forall i :: 0 <= i < |pre| ==> Runs(issuers, tx, i, pre[i])
    requires Runs(issuers, tx, |pre|, [u, w]) && Runs(issuers, tx, |pre| + 1, [w, v])
    requires MayIdle(issuers, tx[|pre| + 2..])
    ensures Committed(issuers, tx, run)
    ensures At(issuers, tx, run, 0) == start && At(issuers, tx, run, |tx|) == v
  {
    var rest := |tx| - |pre| - 2;
    var pair := [[u, w], [w, v]];
    assert Reaches(pair, u, v);
    IdleReaches(rest, v);
    ReachesJoin(pair, Idle(rest, v), u, v, v);
    ReachesJoin(pre, pair + Idle(rest, v), start, u, v);
    run := pre + (pair + Idle(rest, v));
    forall i | 0 <= i < |tx|
      ensures Runs(issuers, tx, i, run[i])
    {
      if i >= |pre| + 2 {
        assert run[i] == [v];
        assert tx[|pre| + 2..][i - |pre| - 2] == tx[i];
      }
    }
    ReachesAt(issuers, tx, run, start, v);
  }

  /** What a release and the send after it do to the two accounts, given that the release goes through. */
  lemma PairFacts(c: LzCall, tx: Transaction, k: nat, b: Balances)
    requires k + 1 < |tx| && Released(c, tx, k, b).Ok?
    ensures CheckSend(c, tx[k + 1]).Ok? && c.route.domainOrSelector < 0x1_0000_0000
    ensures var released := Released(c, tx, k, b).value;
            && Balance(released, c.AuthorityAta()) == Balance(b, c.AuthorityAta()) + c.amount
            && Balance(released, c.WrapperAta()) == Balance(b, c.WrapperAta()) - c.amount
    ensures c.AuthorityAta() != c.WrapperAta()
  {
    ReleaseFacts(c, tx, k, b);
    assert c.WrapperAta().seeds[0] != c.AuthorityAta().seeds[0];
  }

  /** What is true at the end of a transaction that began in `start` and released once, at `k`. */
  ghost predicate ReleasedOnce(c: LzCall, k: nat, start: World, end: World) {
    && end.releases == [Release(c, k)]
    && c.route.domainOrSelector < 0x1_0000_0000
    && end.sends == [Delivery(c.route.providerProgram, c.AuthorityAta(), c.route.domainOrSelector, c.route.receiver,
                              c.amount)]
    && Balance(end.balances, c.AuthorityAta()) == Balance(start.balances, c.AuthorityAta())
  }

  /** The pair at position `k` of a transaction, after a prefix that leaves the caller's account alone. */
  lemma PairCommits(issuers: Issuers, c: LzCall, tx: Transaction, pre: seq<seq<World>>, start: World, u: World)
    returns (run: seq<seq<World>>)
    requires |pre| + 2 <= |tx| && Reaches(pre, start, u) && Blank(start)
    requires u.releases == [] && u.sends == []
    requires Balance(u.balances, c.AuthorityAta()) == Balance(start.balances, c.AuthorityAta())
    requires forall i :: 0 <= i < |pre| ==> Runs(issuers, tx, i, pre[i])
    requires MayIdle(issuers, tx[|pre| + 2..])
    requires Released(c, tx, |pre|, u.balances).Ok? && IsReleaseCall(tx[|pre|])
    requires c.route.providerProgram in issuers && issuers[c.route.providerProgram] == c.route.gasLimit
    ensures Committed(issuers, tx, run) && At(issuers, tx, run, 0) == start
    ensures var end := At(issuers, tx, run, |tx|);
            && ReleasedOnce(c, |pre|, start, end) && end.moves == u.moves
            && Balance(end.balances, c.WrapperAta()) == Balance(u.balances, c.WrapperAta()) - c.amount
  {
    var k := |pre|;
    ReleaseFacts(c, tx, k, u.balances);
    PairFacts(c, tx, k, u.balances);
    var w := AfterRelease(c, k, Released(c, tx, k, u.balances).value, u);
    ReleaseRuns(issuers, c, tx, k, u);
    SendRuns(issuers, c, tx, k + 1, w);
    run := PairInContext(issuers, tx, pre, start, u, w, AfterSend(c, tx[k + 1].programId, w));
  }

  /**
   * The client's transaction commits when the issuer does its part: our instruction and the built
   * send, with other programs' instructions before and after. The wrapper is down by the amount,
   * the caller is where it was, and the route's receiver is sent the amount once.
   */
  lemma ClientTransactionCommits(issuers: Issuers, c: LzCall, token: LzTokenProfile, fee: u64,
                                 layerZero: seq<AccountMeta>, before: Transaction, ours: Instruction,
                                 after: Transaction, start: World)
    returns (send: Instruction, run: seq<seq<World>>)
    requires RouteFor(c.route, token) && token.issuerProgram != LENDMIRROR && Blank(start)
    requires token.issuerProgram in issuers && issuers[token.issuerProgram] == TokenSourceIndex(token)
    requires token.minUnderBps <= 50 && AllowedOptions(token.options)
    requires CheckAccounts(c).Ok? && IsReleaseCall(ours)
    requires MayIdle(issuers, before) && MayIdle(issuers, after)
    requires Balance(start.balances, c.WrapperAta()) >= c.amount
    requires Balance(start.balances, c.AuthorityAta()) + c.amount < 0x1_0000_0000_0000_0000
    ensures BuiltSend(token, Plain(c.authority), c.AuthorityAta(), c.route.receiver, c.amount, Some(fee), layerZero) == Ok(send)
    ensures var tx := before + [ours, send] + after;
            && Committed(issuers, tx, run) && At(issuers, tx, run, 0) == start
            && var end := At(issuers, tx, run, |tx|);
               && ReleasedOnce(c, |before|, start, end) && end.moves == []
               && Balance(end.balances, c.WrapperAta()) == Balance(start.balances, c.WrapperAta()) - c.amount
  {
    ClientTransactionReleases(c, token, fee, layerZero, before, ours, after, start.balances);
    send := BuiltSend(token, Plain(c.authority), c.AuthorityAta(), c.route.receiver, c.amount, Some(fee), layerZero).value;
    var tx := before + [ours, send] + after;
    SplitAround(before, [ours, send], after);
    IdleRuns(issuers, before, [ours, send] + after, start);
    IdleReaches(|before|, start);
    run := PairCommits(issuers, c, tx, Idle(|before|, start), start, start);
  }

  lemma SplitAround(before: Transaction, pair: Transaction, after: Transaction)
    ensures var tx := before + pair + after;
            tx == before + (pair + after) && tx[|before| + |pair|..] == after
  {
  }

  lemma IdleRuns(issuers: Issuers, before: Transaction, rest: Transaction, w: World)
    requires MayIdle(issuers, before)
    ensures forall i :: 0 <= i < |before| ==> Runs(issuers, before + rest, i, Idle(|before|, w)[i])
  {
  }

  /**
   * A release does not bound what its transaction takes out of the wrapper. Another program may
   * first debit the same account through one of this program's other instructions: the guard
   * looks at the top level only, and the transaction commits, down by both amounts.
   */
  lemma InnerDebitCommits(issuers: Issuers, c: LzCall, token: LzTokenProfile, fee: u64, layerZero: seq<AccountMeta>,
                          other: Instruction, ours: Instruction, start: World, extra: u64)
    returns (send: Instruction, run: seq<seq<World>>)
    requires RouteFor(c.route, token) && token.issuerProgram != LENDMIRROR && Blank(start)
    requires token.issuerProgram in issuers && issuers[token.issuerProgram] == TokenSourceIndex(token)
    requires token.minUnderBps <= 50 && AllowedOptions(token.options)
    requires CheckAccounts(c).Ok? && IsReleaseCall(ours)
    requires MayIdle(issuers, [other]) && extra > 0
    requires Balance(start.balances, c.WrapperAta()) >= c.amount + extra
    requires Balance(start.balances, c.AuthorityAta()) + c.amount < 0x1_0000_0000_0000_0000
    ensures var tx := [other, ours, send];
            && Committed(issuers, tx, run) && At(issuers, tx, run, 0) == start
            && var end := At(issuers, tx, run, 3);
               && ReleasedOnce(c, 1, start, end) && Debited(end.moves, c.WrapperAta()) == extra
               && Balance(end.balances, c.WrapperAta()) == Balance(start.balances, c.WrapperAta()) - c.amount - extra
  {
    var m := Debit(c.WrapperAta(), extra);
    var u := AfterDebit(c.WrapperAta(), extra, start);
    DebitStep(c, extra, start);
    ClientTransactionReleases(c, token, fee, layerZero, [other], ours, [], u.balances);
    send := BuiltSend(token, Plain(c.authority), c.AuthorityAta(), c.route.receiver, c.amount, Some(fee), layerZero).value;
    var tx := [other, ours, send];
    assert [other] + [ours, send] + [] == tx && [other][0] == other;
    DebitRuns(issuers, tx, 0, start, u, m);
    run := PairCommits(issuers, c, tx, [[start, u]], start, u);
  }

  /** A wrapper account debited by a movement, as the first thing in a transaction. */
  ghost function AfterDebit(account: Key, amount: u64, start: World): World
    requires Balance(start.balances, account) >= amount
  {
    World(start.balances[account := Balance(start.balances, account) - amount], [], [], [Debit(account, amount)])
  }

  lemma DebitStep(c: LzCall, amount: u64, start: World)
    requires Blank(start) && Balance(start.balances, c.WrapperAta()) >= amount
    ensures var u := AfterDebit(c.WrapperAta(), amount, start);
            && MovementStep(Debit(c.WrapperAta(), amount), start, u)
            && Balance(u.balances, c.AuthorityAta()) == Balance(start.balances, c.AuthorityAta())
            && Debited(u.moves, c.WrapperAta()) == amount
  {
    assert IsWrapperAccount(c.WrapperAta());
    assert c.WrapperAta().seeds[0] != c.AuthorityAta().seeds[0];
    assert [Debit(c.WrapperAta(), amount)][..0] == [];
  }
}
