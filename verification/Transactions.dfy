/**
 * Transactions that commit: every instruction in order, other programs unconstrained except that
 * they cannot sign for a wrapper's authority. They may call this program's instructions, the
 * release included, from inside their own.
 */
module Transactions {
  import opened Outcome
  import opened Bytes
  import opened OftSend
  import opened BridgeRoutes
  import opened ReleaseGuard

  datatype Release = Release(call: LzCall, at: nat)

  datatype Delivery = Delivery(program: Key, source: Key, dstEid: u32, to: Pubkey, amount: u64)

  /**
   * Tokens that left or reached a wrapper's account other than by a release: the program's other
   * bridges and position operations debit it, and anyone may pay into it.
   */
  datatype Movement = Debit(account: Key, amount: u64) | Credit(account: Key, amount: u64)

  /** What a transaction changes, and a record of its releases, issuer sends and other movements. */
  datatype World = World(balances: Balances, releases: seq<Release>, sends: seq<Delivery>, moves: seq<Movement>)

  /** Issuer programs, each with the position of the sender's token account in its send. */
  type Issuers = map<Key, nat>

  // ---------------------------------------------------------------- actions

  ghost predicate ReleaseStep(c: LzCall, tx: Transaction, i: nat, w: World, v: World)
    requires i < |tx|
  {
    && Released(c, tx, i, w.balances) == Ok(v.balances)
    && v == World(v.balances, w.releases + [Release(c, i)], w.sends, w.moves)
  }

  /** A token account that only a wrapper's authority can sign for. */
  predicate IsWrapperAccount(k: Key) {
    && k.Derived? && k.program == ASSOCIATED_TOKEN && |k.seeds| == 3
    && k.seeds[0].OfKey? && k.seeds[0].key.Derived? && k.seeds[0].key.program == LENDMIRROR
  }

  ghost predicate WrappersKept(w: World, v: World) {
    forall k :: IsWrapperAccount(k) ==> Balance(v.balances, k) == Balance(w.balances, k)
  }

  /** Anything at all to accounts that are not a wrapper's, and any further sends. */
  ghost predicate ForeignStep(w: World, v: World) {
    WrappersKept(w, v) && v.releases == w.releases && v.moves == w.moves && w.sends <= v.sends
  }

  /** One wrapper account debited through another of the program's instructions, or paid into. */
  ghost predicate MovementStep(m: Movement, w: World, v: World) {
    && IsWrapperAccount(m.account)
    && v == World(v.balances, w.releases, w.sends, w.moves + [m])
    && (forall k :: IsWrapperAccount(k) && k != m.account ==> Balance(v.balances, k) == Balance(w.balances, k))
    && match m
       case Debit(a, amount) => Balance(w.balances, a) == Balance(v.balances, a) + amount
       case Credit(a, amount) => Balance(v.balances, a) == Balance(w.balances, a) + amount
  }

  ghost predicate FreeAct(w: World, v: World) {
    ForeignStep(w, v) || exists m: Movement :: MovementStep(m, w, v)
  }

  predicate IsIssuerSend(issuers: Issuers, ix: Instruction) {
    ix.programId in issuers && ix.programId != LENDMIRROR && DecodeOftSend(ix.data).Some?
  }

  /** What an issuer's send is assumed to do: debit the account at its position, and deliver. */
  ghost predicate IssuerStep(issuers: Issuers, ix: Instruction, w: World, v: World)
    requires IsIssuerSend(issuers, ix)
  {
    var send := DecodeOftSend(ix.data).value;
    var position := issuers[ix.programId];
    && position < |ix.accounts|
    && WrappersKept(w, v)
    && var source := ix.accounts[position].pubkey;
       && Balance(w.balances, source) == Balance(v.balances, source) + send.amountLd
       && v == World(v.balances, w.releases,
                     w.sends + [Delivery(ix.programId, source, send.dstEid, send.to, send.amountLd)], w.moves)
  }

  /**
   * One action inside instruction `i`. This program's release is that and nothing else; another
   * program may call it, or anything, from inside; an issuer's send does its part; and this
   * program's other instructions and other programs are free.
   */
  ghost predicate Act(issuers: Issuers, tx: Transaction, i: nat, w: World, v: World)
    requires i < |tx|
  {
    || ((IsReleaseCall(tx[i]) || tx[i].programId != LENDMIRROR) && exists c: LzCall :: ReleaseStep(c, tx, i, w, v))
    || (!IsReleaseCall(tx[i])
        && if IsIssuerSend(issuers, tx[i]) then IssuerStep(issuers, tx[i], w, v) else FreeAct(w, v))
  }

  /**
   * The worlds instruction `i` goes through. An issuer's send is one action, and so is a release
   * of this program; the others perform any number.
   */
  ghost predicate Runs(issuers: Issuers, tx: Transaction, i: nat, worlds: seq<World>)
    requires i < |tx|
  {
    && |worlds| > 0
    && (forall j :: 0 <= j < |worlds| - 1 ==> Act(issuers, tx, i, worlds[j], worlds[j + 1]))
    && (IsIssuerSend(issuers, tx[i]) || IsReleaseCall(tx[i]) ==> |worlds| == 2)
  }

  ghost predicate Follows(a: seq<World>, b: seq<World>) {
    |a| > 0 && |b| > 0 && a[|a| - 1] == b[0]
  }

  /** Every instruction in order, each starting where the one before it ended. All or nothing. */
  ghost predicate Committed(issuers: Issuers, tx: Transaction, run: seq<seq<World>>) {
    && 0 < |tx| == |run|
    && (forall i :: 0 <= i < |tx| ==> Runs(issuers, tx, i, run[i]))
    && (forall i :: 0 <= i < |tx| - 1 ==> Follows(run[i], run[i + 1]))
    && |run[0]| > 0 && Blank(run[0][0])
  }

  /** Nothing recorded yet. */
  predicate Blank(w: World) {
    w.releases == [] && w.sends == [] && w.moves == []
  }

  /** The world before instruction `n`; at the end, the world after the last. */
  ghost function At(issuers: Issuers, tx: Transaction, run: seq<seq<World>>, n: nat): World
    requires Committed(issuers, tx, run) && n <= |tx|
  {
    assert n < |tx| ==> Runs(issuers, tx, n, run[n]);
    assert Runs(issuers, tx, |tx| - 1, run[|tx| - 1]);
    if n < |tx| then run[n][0] else run[n - 1][|run[n - 1]| - 1]
  }

  lemma AtNext(issuers: Issuers, tx: Transaction, run: seq<seq<World>>, n: nat)
    requires Committed(issuers, tx, run) && n < |tx|
    ensures Runs(issuers, tx, n, run[n])
    ensures At(issuers, tx, run, n) == run[n][0]
    ensures At(issuers, tx, run, n + 1) == run[n][|run[n]| - 1]
  {
    assert Runs(issuers, tx, n, run[n]);
    if n + 1 < |tx| {
      assert Follows(run[n], run[n + 1]);
    }
  }

  /** The record only ever grows. */
  ghost predicate Grown(w: World, v: World) {
    w.releases <= v.releases && w.moves <= v.moves
  }

  lemma ActGrows(issuers: Issuers, tx: Transaction, i: nat, w: World, v: World)
    requires i < |tx| && Act(issuers, tx, i, w, v)
    ensures Grown(w, v)
  {
  }

  lemma {:induction false} RunsGrow(issuers: Issuers, tx: Transaction, i: nat, worlds: seq<World>, j: nat, k: nat)
    requires i < |tx| && Runs(issuers, tx, i, worlds) && j <= k < |worlds|
    ensures Grown(worlds[j], worlds[k])
    decreases k
  {
    if j < k {
      RunsGrow(issuers, tx, i, worlds, j, k - 1);
      var w, v := worlds[k - 1], worlds[k - 1 + 1];
      ActGrows(issuers, tx, i, w, v);
    }
  }

  lemma {:induction false} RecordGrows(issuers: Issuers, tx: Transaction, run: seq<seq<World>>, m: nat, n: nat)
    requires Committed(issuers, tx, run) && m <= n <= |tx|
    ensures Grown(At(issuers, tx, run, m), At(issuers, tx, run, n))
    decreases n
  {
    if m < n {
      RecordGrows(issuers, tx, run, m, n - 1);
      AtNext(issuers, tx, run, n - 1);
      RunsGrow(issuers, tx, n - 1, run[n - 1], 0, |run[n - 1]| - 1);
    }
  }

  // ---------------------------------------------------------------- the books of one account

  /** What the movements took out of an account. */
  function Debited(moves: seq<Movement>, a: Key): nat {
    if moves == [] then 0
    else
      var m := moves[|moves| - 1];
      Debited(moves[..|moves| - 1], a) + (if m.Debit? && m.account == a then m.amount else 0)
  }

  /** What the movements paid into an account. */
  function Credited(moves: seq<Movement>, a: Key): nat {
    if moves == [] then 0
    else
      var m := moves[|moves| - 1];
      Credited(moves[..|moves| - 1], a) + (if m.Credit? && m.account == a then m.amount else 0)
  }

  /** What the releases took out of an account. */
  function ReleasedFrom(releases: seq<Release>, a: Key): nat {
    if releases == [] then 0
    else
      var c := releases[|releases| - 1].call;
      ReleasedFrom(releases[..|releases| - 1], a) + (if c.WrapperAta() == a then c.amount else 0)
  }

  /** The balance with everything recorded put back. */
  ghost function Books(w: World, a: Key): int {
    Balance(w.balances, a) + ReleasedFrom(w.releases, a) + Debited(w.moves, a) - Credited(w.moves, a)
  }

  lemma ReleaseKeepsBooks(c: LzCall, tx: Transaction, i: nat, w: World, v: World, a: Key)
    requires i < |tx| && ReleaseStep(c, tx, i, w, v) && IsWrapperAccount(a)
    ensures Books(v, a) == Books(w, a)
  {
    ReleaseFacts(c, tx, i, w.balances);
    assert v.releases[..|v.releases| - 1] == w.releases;
  }

  lemma MovementKeepsBooks(m: Movement, w: World, v: World, a: Key)
    requires MovementStep(m, w, v) && IsWrapperAccount(a)
    ensures Books(v, a) == Books(w, a)
  {
    assert v.moves[..|v.moves| - 1] == w.moves;
  }

  lemma ActKeepsBooks(issuers: Issuers, tx: Transaction, i: nat, w: World, v: World, a: Key)
    requires i < |tx| && Act(issuers, tx, i, w, v) && IsWrapperAccount(a)
    ensures Books(v, a) == Books(w, a)
  {
    if c: LzCall :| ReleaseStep(c, tx, i, w, v) {
      ReleaseKeepsBooks(c, tx, i, w, v, a);
    } else if m: Movement :| MovementStep(m, w, v) {
      MovementKeepsBooks(m, w, v, a);
    }
  }

  lemma {:induction false} RunsKeepsBooks(issuers: Issuers, tx: Transaction, i: nat, worlds: seq<World>, j: nat, a: Key)
    requires i < |tx| && Runs(issuers, tx, i, worlds) && j < |worlds| && IsWrapperAccount(a)
    ensures Books(worlds[j], a) == Books(worlds[0], a)
    decreases j
  {
    if j > 0 {
      RunsKeepsBooks(issuers, tx, i, worlds, j - 1, a);
      var w, v := worlds[j - 1], worlds[j - 1 + 1];
      ActKeepsBooks(issuers, tx, i, w, v, a);
    }
  }

  lemma {:induction false} BooksUpTo(issuers: Issuers, tx: Transaction, run: seq<seq<World>>, n: nat, a: Key)
    requires Committed(issuers, tx, run) && n <= |tx| && IsWrapperAccount(a)
    ensures Books(At(issuers, tx, run, n), a) == Books(At(issuers, tx, run, 0), a)
    decreases n
  {
    if n > 0 {
      BooksUpTo(issuers, tx, run, n - 1, a);
      AtNext(issuers, tx, run, n - 1);
      RunsKeepsBooks(issuers, tx, n - 1, run[n - 1], |run[n - 1]| - 1, a);
    }
  }

  /**
   * Every committed transaction, whatever is in it, balances on every wrapper account: what was
   * there and what was paid in is what is left, what was released and what the program's other
   * instructions took out.
   */
  lemma BooksBalance(issuers: Issuers, tx: Transaction, run: seq<seq<World>>, a: Key)
    requires Committed(issuers, tx, run) && IsWrapperAccount(a)
    ensures var start, end := At(issuers, tx, run, 0), At(issuers, tx, run, |tx|);
            Balance(start.balances, a) + Credited(end.moves, a)
            == Balance(end.balances, a) + ReleasedFrom(end.releases, a) + Debited(end.moves, a)
  {
    BooksUpTo(issuers, tx, run, |tx|, a);
  }

  // ---------------------------------------------------------------- one release

  /** No call from inside another program releases. */
  lemma NoReleaseInside(tx: Transaction, i: nat, w: World, v: World)
    requires i < |tx| && tx[i].programId != LENDMIRROR
    ensures forall c: LzCall :: !ReleaseStep(c, tx, i, w, v)
  {
    forall c: LzCall
      ensures !ReleaseStep(c, tx, i, w, v)
    {
      if ReleaseStep(c, tx, i, w, v) {
        ReleaseFacts(c, tx, i, w.balances);
        assert false;
      }
    }
  }

  /** Only this program's own release, at the top level, adds to the record of releases. */
  lemma {:induction false} OthersRelease(issuers: Issuers, tx: Transaction, i: nat, worlds: seq<World>, j: nat)
    requires i < |tx| && Runs(issuers, tx, i, worlds) && j < |worlds|
    requires !IsReleaseCall(tx[i])
    ensures worlds[j].releases == worlds[0].releases
    decreases j
  {
    if j > 0 {
      OthersRelease(issuers, tx, i, worlds, j - 1);
      var w, v := worlds[j - 1], worlds[j - 1 + 1];
      assert Act(issuers, tx, i, w, v);
      if tx[i].programId != LENDMIRROR {
        NoReleaseInside(tx, i, w, v);
      }
    }
  }

  /** An instruction that changes the record of releases is a single release of this program. */
  lemma ReleaseIsOneAct(issuers: Issuers, tx: Transaction, i: nat, worlds: seq<World>) returns (c: LzCall)
    requires i < |tx| && Runs(issuers, tx, i, worlds) && worlds[|worlds| - 1].releases != worlds[0].releases
    ensures IsReleaseCall(tx[i]) && |worlds| == 2 && ReleaseStep(c, tx, i, worlds[0], worlds[1])
  {
    if !IsReleaseCall(tx[i]) {
      OthersRelease(issuers, tx, i, worlds, |worlds| - 1);
      assert false;
    }
    c := ReleaseOf(issuers, tx, i, worlds);
  }

  lemma ReleaseOf(issuers: Issuers, tx: Transaction, i: nat, worlds: seq<World>) returns (c: LzCall)
    requires i < |tx| && Runs(issuers, tx, i, worlds) && IsReleaseCall(tx[i])
    ensures |worlds| == 2 && ReleaseStep(c, tx, i, worlds[0], worlds[1])
  {
    assert Act(issuers, tx, i, worlds[0], worlds[0 + 1]);
    c :| ReleaseStep(c, tx, i, worlds[0], worlds[1]);
  }

  lemma {:induction false} NoReleaseBetween(issuers: Issuers, tx: Transaction, run: seq<seq<World>>, m: nat, n: nat)
    requires Committed(issuers, tx, run) && m <= n <= |tx|
    requires forall i :: m <= i < n ==> !IsReleaseCall(tx[i])
    ensures At(issuers, tx, run, n).releases == At(issuers, tx, run, m).releases
    decreases n - m
  {
    if m < n {
      NoReleaseBetween(issuers, tx, run, m, n - 1);
      AtNext(issuers, tx, run, n - 1);
      OthersRelease(issuers, tx, n - 1, run[n - 1], |run[n - 1]| - 1);
    }
  }

  /** If the record of releases is not empty at instruction `n`, some instruction before it released. */
  lemma {:induction false} FindRelease(issuers: Issuers, tx: Transaction, run: seq<seq<World>>, n: nat)
    returns (k: nat, c: LzCall)
    requires Committed(issuers, tx, run) && n <= |tx|
    requires At(issuers, tx, run, n).releases != []
    ensures k < n && IsReleaseCall(tx[k])
    ensures ReleaseStep(c, tx, k, At(issuers, tx, run, k), At(issuers, tx, run, k + 1))
    decreases n
  {
    AtNext(issuers, tx, run, n - 1);
    if At(issuers, tx, run, n).releases == At(issuers, tx, run, n - 1).releases {
      k, c := FindRelease(issuers, tx, run, n - 1);
    } else {
      k := n - 1;
      c := ReleaseIsOneAct(issuers, tx, k, run[k]);
    }
  }

  /** An accepted release followed by the issuer's send: the issuer pulls what was released. */
  lemma PairOfSteps(issuers: Issuers, tx: Transaction, k: nat, c: LzCall, u: World, w: World, v: World)
    requires k + 1 < |tx| && ReleaseStep(c, tx, k, u, w)
    requires c.route.providerProgram in issuers && issuers[c.route.providerProgram] == c.route.gasLimit
    requires IsIssuerSend(issuers, tx[k + 1]) && IssuerStep(issuers, tx[k + 1], w, v)
    ensures c.route.domainOrSelector < 0x1_0000_0000
    ensures v.sends == u.sends + [Delivery(c.route.providerProgram, c.AuthorityAta(), c.route.domainOrSelector,
                                           c.route.receiver, c.amount)]
    ensures Balance(v.balances, c.AuthorityAta()) == Balance(u.balances, c.AuthorityAta())
  {
    ReleaseFacts(c, tx, k, u.balances);
  }

  /** The issuer right after the release pulls what was released, and nothing stays with the caller. */
  lemma SendTakesAll(issuers: Issuers, tx: Transaction, run: seq<seq<World>>, k: nat, c: LzCall)
    requires Committed(issuers, tx, run) && k + 1 < |tx|
    requires ReleaseStep(c, tx, k, At(issuers, tx, run, k), At(issuers, tx, run, k + 1))
    requires c.route.providerProgram in issuers && issuers[c.route.providerProgram] == c.route.gasLimit
    ensures c.route.domainOrSelector < 0x1_0000_0000
    ensures var before, after := At(issuers, tx, run, k), At(issuers, tx, run, k + 2);
            && after.sends == before.sends + [Delivery(c.route.providerProgram, c.AuthorityAta(),
                                                       c.route.domainOrSelector, c.route.receiver, c.amount)]
            && Balance(after.balances, c.AuthorityAta()) == Balance(before.balances, c.AuthorityAta())
  {
    var u := At(issuers, tx, run, k);
    ReleaseFacts(c, tx, k, u.balances);
    AtNext(issuers, tx, run, k + 1);
    assert IsIssuerSend(issuers, tx[k + 1]);
    var w, v := run[k + 1][0], run[k + 1][0 + 1];
    assert Act(issuers, tx, k + 1, w, v);
    NoReleaseInside(tx, k + 1, w, v);
    PairOfSteps(issuers, tx, k, c, u, w, v);
  }

  /**
   * Conservation over every transaction that commits with a release in it: exactly one instruction
   * at the top level is the program's, it released exactly once, an allowed caller asked for at
   * most the cap, and the next instruction sends exactly the released amount to the route's
   * receiver, with nothing left at the caller. Every wrapper account balances: besides the one
   * release it lost only what the program's other instructions, called from inside other
   * programs, took out.
   */
  lemma Conservation(issuers: Issuers, tx: Transaction, run: seq<seq<World>>)
    returns (k: nat, c: LzCall)
    requires Committed(issuers, tx, run) && At(issuers, tx, run, |tx|).releases != []
    ensures k + 1 < |tx| && OnlyOurs(tx, k) && IsReleaseCall(tx[k])
    ensures c.authority == c.wrapperOwner || c.authority in c.senders
            || (c.ondemand.Some? && c.authority in c.ondemand.value)
    ensures 1 <= c.wrapperLevel <= 2 && 0 < c.amount <= c.route.maxAmountPerTx
    ensures c.route.enabled && c.route.provider == PROVIDER_LZ_OFT && c.mint == c.route.mint
    ensures At(issuers, tx, run, |tx|).releases == [Release(c, k)]
    ensures Balance(At(issuers, tx, run, k).balances, c.WrapperAta())
         == Balance(At(issuers, tx, run, k + 1).balances, c.WrapperAta()) + c.amount
    ensures var start, end := At(issuers, tx, run, 0), At(issuers, tx, run, |tx|);
            forall a :: IsWrapperAccount(a) ==>
              Balance(start.balances, a) + Credited(end.moves, a)
              == Balance(end.balances, a) + (if a == c.WrapperAta() then c.amount else 0) + Debited(end.moves, a)
    ensures c.route.providerProgram in issuers && issuers[c.route.providerProgram] == c.route.gasLimit ==>
              var before, after := At(issuers, tx, run, k), At(issuers, tx, run, k + 2);
              && c.route.domainOrSelector < 0x1_0000_0000
              && after.sends == before.sends + [Delivery(c.route.providerProgram, c.AuthorityAta(),
                                                         c.route.domainOrSelector, c.route.receiver, c.amount)]
              && Balance(after.balances, c.AuthorityAta()) == Balance(before.balances, c.AuthorityAta())
  {
    k, c := OnlyRelease(issuers, tx, run);
    var end := At(issuers, tx, run, |tx|);
    assert end.releases[..0] == [];
    forall a | IsWrapperAccount(a)
      ensures Balance(At(issuers, tx, run, 0).balances, a) + Credited(end.moves, a)
           == Balance(end.balances, a) + (if a == c.WrapperAta() then c.amount else 0) + Debited(end.moves, a)
    {
      BooksBalance(issuers, tx, run, a);
      assert ReleasedFrom(end.releases, a) == if a == c.WrapperAta() then c.amount else 0;
    }
    if c.route.providerProgram in issuers && issuers[c.route.providerProgram] == c.route.gasLimit {
      SendTakesAll(issuers, tx, run, k, c);
    }
  }

  lemma OnlyRelease(issuers: Issuers, tx: Transaction, run: seq<seq<World>>)
    returns (k: nat, c: LzCall)
    requires Committed(issuers, tx, run) && At(issuers, tx, run, |tx|).releases != []
    ensures k + 1 < |tx| && OnlyOurs(tx, k) && IsReleaseCall(tx[k]) && CheckAccounts(c).Ok?
    ensures ReleaseStep(c, tx, k, At(issuers, tx, run, k), At(issuers, tx, run, k + 1))
    ensures At(issuers, tx, run, |tx|).releases == [Release(c, k)]
    ensures Balance(At(issuers, tx, run, k).balances, c.WrapperAta())
         == Balance(At(issuers, tx, run, k + 1).balances, c.WrapperAta()) + c.amount
  {
    k, c := FindRelease(issuers, tx, run, |tx|);
    ReleaseFacts(c, tx, k, At(issuers, tx, run, k).balances);
    NoReleaseBetween(issuers, tx, run, 0, k);
    NoReleaseBetween(issuers, tx, run, k + 1, |tx|);
  }

  /** Nothing but this program and issuers' sends. */
  predicate OnlySends(issuers: Issuers, tx: Transaction) {
    forall i :: 0 <= i < |tx| ==> tx[i].programId == LENDMIRROR || IsIssuerSend(issuers, tx[i])
  }

  /** Instruction `i` records no movement. */
  ghost predicate MovesNothing(issuers: Issuers, tx: Transaction, run: seq<seq<World>>, i: nat)
    requires Committed(issuers, tx, run) && i < |tx|
  {
    At(issuers, tx, run, i + 1).moves == At(issuers, tx, run, i).moves
  }

  lemma {:induction false} NoMoves(issuers: Issuers, tx: Transaction, run: seq<seq<World>>, n: nat)
    requires Committed(issuers, tx, run) && n <= |tx|
    requires forall i :: 0 <= i < |tx| ==> MovesNothing(issuers, tx, run, i)
    ensures At(issuers, tx, run, n).moves == []
    decreases n
  {
    if n > 0 {
      NoMoves(issuers, tx, run, n - 1);
      assert MovesNothing(issuers, tx, run, n - 1);
    }
  }

  lemma SendMovesNothing(issuers: Issuers, tx: Transaction, i: nat, worlds: seq<World>)
    requires i < |tx| && Runs(issuers, tx, i, worlds) && IsIssuerSend(issuers, tx[i])
    ensures |worlds| == 2 && worlds[1].moves == worlds[0].moves
  {
    var w, v := worlds[0], worlds[0 + 1];
    assert Act(issuers, tx, i, w, v);
    NoReleaseInside(tx, i, w, v);
  }

  /**
   * With no program in the transaction but this one and issuers, a release is the only thing any
   * wrapper account loses, to the unit.
   */
  lemma SendsOnlyLoseTheRelease(issuers: Issuers, tx: Transaction, run: seq<seq<World>>)
    returns (k: nat, c: LzCall)
    requires Committed(issuers, tx, run) && At(issuers, tx, run, |tx|).releases != [] && OnlySends(issuers, tx)
    ensures At(issuers, tx, run, |tx|).releases == [Release(c, k)]
    ensures var start, end := At(issuers, tx, run, 0), At(issuers, tx, run, |tx|);
            forall a :: IsWrapperAccount(a) ==>
              Balance(start.balances, a) == Balance(end.balances, a) + (if a == c.WrapperAta() then c.amount else 0)
  {
    k, c := OnlyRelease(issuers, tx, run);
    forall i | 0 <= i < |tx|
      ensures MovesNothing(issuers, tx, run, i)
    {
      if i != k {
        AtNext(issuers, tx, run, i);
        SendMovesNothing(issuers, tx, i, run[i]);
      }
    }
    NoMoves(issuers, tx, run, |tx|);
    var _, _ := Conservation(issuers, tx, run);
  }

  // ---------------------------------------------------------------- routes the admin has written

  /** The release was made on terms that the admin's instruction has stored. */
  ghost predicate OnStoredRoute(r: Release) {
    exists history: seq<RouteTerms> :: r.call.route == Stored(history)
  }

  lemma SourcePinned(c: LzCall, send: Instruction)
    requires CheckSend(c, send).Ok?
    ensures c.route.gasLimit < |send.accounts| && send.accounts[c.route.gasLimit].pubkey == c.AuthorityAta()
  {
  }

  lemma StoredRouteIsUsable(c: LzCall, k: nat)
    requires OnStoredRoute(Release(c, k)) && CheckAccounts(c).Ok?
    ensures 0 < c.route.gasLimit < 64 && IsEvmReceiver(c.route.receiver)
  {
    var history: seq<RouteTerms> :| c.route == Stored(history);
    StoredIsUsable(history);
  }

  /**
   * On a stored route a release pins a position that is not the signer's, and its delivery goes to
   * a nonzero twenty-byte address, right-aligned.
   */
  lemma StoredRouteDelivers(issuers: Issuers, tx: Transaction, run: seq<seq<World>>)
    returns (k: nat, c: LzCall)
    requires Committed(issuers, tx, run) && At(issuers, tx, run, |tx|).releases != []
    requires forall r :: r in At(issuers, tx, run, |tx|).releases ==> OnStoredRoute(r)
    ensures At(issuers, tx, run, |tx|).releases == [Release(c, k)] && k + 1 < |tx|
    ensures 0 < c.route.gasLimit < 64 && c.route.gasLimit < |tx[k + 1].accounts|
    ensures tx[k + 1].accounts[c.route.gasLimit].pubkey == c.AuthorityAta()
    ensures c.route.providerProgram in issuers && issuers[c.route.providerProgram] == c.route.gasLimit ==>
              var sends := At(issuers, tx, run, k + 2).sends;
              && |sends| > 0 && sends[|sends| - 1].amount == c.amount
              && IsEvmReceiver(sends[|sends| - 1].to)
  {
    k, c := OnlyRelease(issuers, tx, run);
    StoredRouteIsUsable(c, k);
    ReleaseFacts(c, tx, k, At(issuers, tx, run, k).balances);
    SourcePinned(c, tx[k + 1]);
    if c.route.providerProgram in issuers && issuers[c.route.providerProgram] == c.route.gasLimit {
      SendTakesAll(issuers, tx, run, k, c);
    }
  }
}
