/**
 * Whether a release bounds what its transaction takes from wrappers can be read off the
 * instruction list: it does exactly when the list holds nothing but this program and issuers'
 * sends. Any other program leaves room for a debit.
 */
module InnerDebits {
  import opened Outcome
  import opened OftSend
  import opened BridgeRoutes
  import opened ReleaseGuard
  import opened Transactions

  /** No wrapper account lost more than was released from it. */
  ghost predicate LosesOnlyReleases(issuers: Issuers, tx: Transaction, run: seq<seq<World>>)
    requires Committed(issuers, tx, run)
  {
    var start, end := At(issuers, tx, run, 0), At(issuers, tx, run, |tx|);
    forall a :: IsWrapperAccount(a) ==>
      Balance(start.balances, a) - Balance(end.balances, a) <= ReleasedFrom(end.releases, a)
  }

  // ---------------------------------------------------------------- an account nothing mentions

  /** The wrapper accounts a record mentions. */
  function Mentioned(w: World): seq<Key> {
    seq(|w.releases|, i requires 0 <= i < |w.releases| => w.releases[i].call.WrapperAta())
    + seq(|w.moves|, i requires 0 <= i < |w.moves| => w.moves[i].account)
  }

  /** A wrapper account for each number: its mint has a name of that length. */
  function Numbered(n: nat): Key {
    TokenAccountOf(WrapperAuthority(LENDMIRROR), LENDMIRROR, Program(seq(n, _ => 'm')))
  }

  function NumberOf(k: Key): nat {
    if k.Derived? && |k.seeds| == 3 && k.seeds[2].OfKey? && k.seeds[2].key.Program? then |k.seeds[2].key.name| else 0
  }

  function Highest(keys: seq<Key>): (n: nat)
    ensures forall k :: k in keys ==> NumberOf(k) <= n
  {
    if keys == [] then 0
    else
      var rest := Highest(keys[1..]);
      if NumberOf(keys[0]) > rest then NumberOf(keys[0]) else rest
  }

  ghost predicate Avoids(w: World, a: Key) {
    && (forall i :: 0 <= i < |w.releases| ==> w.releases[i].call.WrapperAta() != a)
    && forall i :: 0 <= i < |w.moves| ==> w.moves[i].account != a
  }

  lemma UnmentionedAccount(w: World) returns (a: Key)
    ensures IsWrapperAccount(a) && Avoids(w, a)
  {
    var keys := Mentioned(w);
    var n := Highest(keys) + 1;
    a := Numbered(n);
    assert NumberOf(a) == n;
    forall i | 0 <= i < |w.releases|
      ensures w.releases[i].call.WrapperAta() != a
    {
      assert keys[i] == w.releases[i].call.WrapperAta();
    }
    forall i | 0 <= i < |w.moves|
      ensures w.moves[i].account != a
    {
      assert keys[|w.releases| + i] == w.moves[i].account;
    }
  }

  lemma AvoidsEarlier(w: World, v: World, a: Key)
    requires Grown(w, v) && Avoids(v, a)
    ensures Avoids(w, a)
  {
    forall i | 0 <= i < |w.releases|
      ensures w.releases[i].call.WrapperAta() != a
    {
      assert w.releases[i] == v.releases[i];
    }
    forall i | 0 <= i < |w.moves|
      ensures w.moves[i].account != a
    {
      assert w.moves[i] == v.moves[i];
    }
  }

  lemma {:induction false} NothingReleasedFrom(releases: seq<Release>, a: Key)
    requires forall i :: 0 <= i < |releases| ==> releases[i].call.WrapperAta() != a
    ensures ReleasedFrom(releases, a) == 0
    decreases |releases|
  {
    if releases != [] {
      NothingReleasedFrom(releases[..|releases| - 1], a);
    }
  }

  // ---------------------------------------------------------------- the same world, but for one account

  /** Account `a` set to `x`, and `extra` inserted in the movements after the first `n`. */
  ghost function Patched(w: World, a: Key, x: u64, n: nat, extra: seq<Movement>): World {
    World(w.balances[a := x], w.releases, w.sends,
          if n <= |w.moves| then w.moves[..n] + extra + w.moves[n..] else w.moves)
  }

  lemma TransferElsewhere(b: Balances, source: Key, target: Key, amount: u64, a: Key, x: u64)
    requires a != source && a != target && Transfer(b, source, target, amount).Ok?
    ensures Transfer(b[a := x], source, target, amount) == Ok(Transfer(b, source, target, amount).value[a := x])
  {
    var debited: Balances := b[source := Balance(b, source) - amount];
    assert b[a := x][source := Balance(b, source) - amount] == debited[a := x];
    var y: u64 := Balance(debited, target) + amount;
    assert debited[a := x][target := y] == debited[target := y][a := x];
  }

  lemma ReleaseSurvives(c: LzCall, tx: Transaction, i: nat, w: World, v: World, a: Key, x: u64, n: nat,
                        extra: seq<Movement>)
    requires i < |tx| && ReleaseStep(c, tx, i, w, v) && IsWrapperAccount(a) && Avoids(v, a)
    ensures ReleaseStep(c, tx, i, Patched(w, a, x, n, extra), Patched(v, a, x, n, extra))
  {
    assert v.releases[|w.releases|].call == c;
    assert !IsWrapperAccount(c.AuthorityAta());
    TransferElsewhere(w.balances, c.WrapperAta(), c.AuthorityAta(), c.amount, a, x);
  }

  lemma MovementSurvives(m: Movement, w: World, v: World, a: Key, x: u64, n: nat, extra: seq<Movement>)
    requires MovementStep(m, w, v) && IsWrapperAccount(a) && Avoids(v, a) && n <= |w.moves|
    ensures MovementStep(m, Patched(w, a, x, n, extra), Patched(v, a, x, n, extra))
  {
    assert v.moves[|w.moves|] == m;
    InsertBefore(w.moves, m, n, extra);
  }

  lemma InsertBefore(moves: seq<Movement>, m: Movement, n: nat, extra: seq<Movement>)
    requires n <= |moves|
    ensures (moves + [m])[..n] + extra + (moves + [m])[n..] == moves[..n] + extra + moves[n..] + [m]
  {
    assert (moves + [m])[..n] == moves[..n] && (moves + [m])[n..] == moves[n..] + [m];
  }

  lemma FreeSurvives(w: World, v: World, a: Key, x: u64, n: nat, extra: seq<Movement>)
    requires FreeAct(w, v) && IsWrapperAccount(a) && Avoids(v, a) && n <= |w.moves|
    ensures FreeAct(Patched(w, a, x, n, extra), Patched(v, a, x, n, extra))
  {
    var wp, vp := Patched(w, a, x, n, extra), Patched(v, a, x, n, extra);
    if ForeignStep(w, v) {
      assert ForeignStep(wp, vp);
    } else {
      var m: Movement :| MovementStep(m, w, v);
      MovementSurvives(m, w, v, a, x, n, extra);
    }
  }

  lemma IssuerSurvives(issuers: Issuers, ix: Instruction, w: World, v: World, a: Key, x: u64, n: nat,
                       extra: seq<Movement>)
    requires IsIssuerSend(issuers, ix) && IssuerStep(issuers, ix, w, v) && IsWrapperAccount(a)
    ensures IssuerStep(issuers, ix, Patched(w, a, x, n, extra), Patched(v, a, x, n, extra))
  {
  }

  /** What an instruction did it can do with `a` at any other balance, if it never touched `a`. */
  lemma ActSurvives(issuers: Issuers, tx: Transaction, i: nat, w: World, v: World, a: Key, x: u64, n: nat,
                    extra: seq<Movement>)
    requires i < |tx| && Act(issuers, tx, i, w, v) && IsWrapperAccount(a) && Avoids(v, a) && n <= |w.moves|
    ensures Act(issuers, tx, i, Patched(w, a, x, n, extra), Patched(v, a, x, n, extra))
  {
    var wp, vp := Patched(w, a, x, n, extra), Patched(v, a, x, n, extra);
    if (IsReleaseCall(tx[i]) || tx[i].programId != LENDMIRROR) && exists c: LzCall :: ReleaseStep(c, tx, i, w, v) {
      var c: LzCall :| ReleaseStep(c, tx, i, w, v);
      ReleaseSurvives(c, tx, i, w, v, a, x, n, extra);
      assert ReleaseStep(c, tx, i, wp, vp);
    } else if IsIssuerSend(issuers, tx[i]) {
      IssuerSurvives(issuers, tx[i], w, v, a, x, n, extra);
    } else {
      FreeSurvives(w, v, a, x, n, extra);
    }
  }

  ghost function PatchedAll(worlds: seq<World>, a: Key, x: u64, n: nat, extra: seq<Movement>): (patched: seq<World>)
    ensures |patched| == |worlds|
    ensures forall j :: 0 <= j < |worlds| ==> patched[j] == Patched(worlds[j], a, x, n, extra)
  {
    seq(|worlds|, j requires 0 <= j < |worlds| => Patched(worlds[j], a, x, n, extra))
  }

  lemma RunsSurvive(issuers: Issuers, tx: Transaction, i: nat, worlds: seq<World>, a: Key, x: u64, n: nat,
                    extra: seq<Movement>)
    requires i < |tx| && Runs(issuers, tx, i, worlds) && IsWrapperAccount(a)
    requires forall j :: 0 <= j < |worlds| ==> Avoids(worlds[j], a) && n <= |worlds[j].moves|
    ensures Runs(issuers, tx, i, PatchedAll(worlds, a, x, n, extra))
  {
    var patched := PatchedAll(worlds, a, x, n, extra);
    forall j | 0 <= j < |patched| - 1
      ensures Act(issuers, tx, i, patched[j], patched[j + 1])
    {
      ActSurvives(issuers, tx, i, worlds[j], worlds[j + 1], a, x, n, extra);
    }
  }

  // ---------------------------------------------------------------- a run with one debit more

  /** A program that may call another of this program's instructions: not this one, no issuer's send. */
  predicate MayDebit(issuers: Issuers, ix: Instruction) {
    ix.programId != LENDMIRROR && !IsIssuerSend(issuers, ix)
  }

  /** Instruction `o` first debits `a`, then does what it did. */
  lemma DebitFirst(issuers: Issuers, tx: Transaction, o: nat, worlds: seq<World>, a: Key)
    requires o < |tx| && Runs(issuers, tx, o, worlds) && MayDebit(issuers, tx[o]) && IsWrapperAccount(a)
    requires forall j :: 0 <= j < |worlds| ==> Avoids(worlds[j], a) && |worlds[0].moves| <= |worlds[j].moves|
    ensures Runs(issuers, tx, o, [Patched(worlds[0], a, 1, 0, [])]
                                 + PatchedAll(worlds, a, 0, |worlds[0].moves|, [Debit(a, 1)]))
  {
    var n := |worlds[0].moves|;
    var before, after := Patched(worlds[0], a, 1, 0, []), PatchedAll(worlds, a, 0, n, [Debit(a, 1)]);
    RunsSurvive(issuers, tx, o, worlds, a, 0, n, [Debit(a, 1)]);
    assert MovementStep(Debit(a, 1), before, after[0]);
    assert FreeAct(before, after[0]);
    var longer := [before] + after;
    forall j | 0 <= j < |longer| - 1
      ensures Act(issuers, tx, o, longer[j], longer[j + 1])
    {
      if j > 0 {
        assert Act(issuers, tx, o, after[j - 1], after[j - 1 + 1]);
      }
    }
  }

  ghost function Before(w: World, a: Key): World {
    Patched(w, a, 1, 0, [])
  }

  ghost function After(w: World, a: Key, n: nat): World {
    Patched(w, a, 0, n, [Debit(a, 1)])
  }

  /** The worlds of instruction `i` when instruction `o` debits `a` first. */
  ghost function Segment(worlds: seq<World>, i: nat, o: nat, n: nat, a: Key): (segment: seq<World>)
    requires |worlds| > 0
    ensures |segment| > 0
    ensures segment[0] == if i <= o then Before(worlds[0], a) else After(worlds[0], a, n)
    ensures segment[|segment| - 1]
         == if i < o then Before(worlds[|worlds| - 1], a) else After(worlds[|worlds| - 1], a, n)
  {
    if i < o then PatchedAll(worlds, a, 1, 0, [])
    else if i == o then [Before(worlds[0], a)] + PatchedAll(worlds, a, 0, n, [Debit(a, 1)])
    else PatchedAll(worlds, a, 0, n, [Debit(a, 1)])
  }

  ghost predicate NoneEmpty(run: seq<seq<World>>) {
    forall i :: 0 <= i < |run| ==> |run[i]| > 0
  }

  /** The run with `a` at one before instruction `o`, debited by it, and at zero from then on. */
  ghost function Worse(run: seq<seq<World>>, o: nat, a: Key): (worse: seq<seq<World>>)
    requires o < |run| && NoneEmpty(run)
    ensures |worse| == |run|
    ensures forall i :: 0 <= i < |run| ==> worse[i] == Segment(run[i], i, o, |run[o][0].moves|, a)
  {
    seq(|run|, i requires 0 <= i < |run| => Segment(run[i], i, o, |run[o][0].moves|, a))
  }

  lemma CommittedNoneEmpty(issuers: Issuers, tx: Transaction, run: seq<seq<World>>)
    requires Committed(issuers, tx, run)
    ensures NoneEmpty(run)
  {
    forall i | 0 <= i < |run|
      ensures |run[i]| > 0
    {
      assert Runs(issuers, tx, i, run[i]);
    }
  }

  /** Where the record of a world stands in its run. */
  lemma RecordOfWorld(issuers: Issuers, tx: Transaction, run: seq<seq<World>>, i: nat, j: nat)
    requires Committed(issuers, tx, run) && i < |tx| && j < |run[i]|
    ensures Grown(At(issuers, tx, run, i), run[i][j]) && Grown(run[i][j], At(issuers, tx, run, |tx|))
  {
    AtNext(issuers, tx, run, i);
    RunsGrow(issuers, tx, i, run[i], 0, j);
    RunsGrow(issuers, tx, i, run[i], j, |run[i]| - 1);
    RecordGrows(issuers, tx, run, i + 1, |tx|);
  }

  lemma RecordAfter(issuers: Issuers, tx: Transaction, run: seq<seq<World>>, o: nat, i: nat, j: nat)
    requires Committed(issuers, tx, run) && o <= i < |tx| && j < |run[i]|
    ensures |run[o]| > 0 && |run[o][0].moves| <= |run[i][j].moves|
  {
    AtNext(issuers, tx, run, o);
    RecordGrows(issuers, tx, run, o, i);
    RecordOfWorld(issuers, tx, run, i, j);
  }

  lemma WorseRuns(issuers: Issuers, tx: Transaction, run: seq<seq<World>>, o: nat, a: Key, i: nat)
    requires Committed(issuers, tx, run) && o < |tx| && i < |tx| && MayDebit(issuers, tx[o])
    requires IsWrapperAccount(a) && Avoids(At(issuers, tx, run, |tx|), a)
    requires NoneEmpty(run)
    ensures Runs(issuers, tx, i, Segment(run[i], i, o, |run[o][0].moves|, a))
  {
    AtNext(issuers, tx, run, o);
    AtNext(issuers, tx, run, i);
    forall j | 0 <= j < |run[i]|
      ensures Avoids(run[i][j], a) && (o <= i ==> |run[o][0].moves| <= |run[i][j].moves|)
    {
      RecordOfWorld(issuers, tx, run, i, j);
      AvoidsEarlier(run[i][j], At(issuers, tx, run, |tx|), a);
      if o <= i {
        RecordAfter(issuers, tx, run, o, i, j);
      }
    }
    if i < o {
      RunsSurvive(issuers, tx, i, run[i], a, 1, 0, []);
    } else if i == o {
      DebitFirst(issuers, tx, o, run[o], a);
    } else {
      RunsSurvive(issuers, tx, i, run[i], a, 0, |run[o][0].moves|, [Debit(a, 1)]);
    }
  }

  lemma WorseCommits(issuers: Issuers, tx: Transaction, run: seq<seq<World>>, o: nat, a: Key)
    requires Committed(issuers, tx, run) && o < |tx| && MayDebit(issuers, tx[o]) && NoneEmpty(run)
    requires IsWrapperAccount(a) && Avoids(At(issuers, tx, run, |tx|), a)
    ensures Committed(issuers, tx, Worse(run, o, a))
  {
    var worse := Worse(run, o, a);
    forall i | 0 <= i < |tx|
      ensures Runs(issuers, tx, i, worse[i])
    {
      WorseRuns(issuers, tx, run, o, a, i);
    }
    forall i | 0 <= i < |tx| - 1
      ensures Follows(worse[i], worse[i + 1])
    {
      assert Follows(run[i], run[i + 1]);
    }
  }

  lemma WorseEnds(issuers: Issuers, tx: Transaction, run: seq<seq<World>>, o: nat, a: Key)
    requires Committed(issuers, tx, run) && o < |tx| && NoneEmpty(run) && Committed(issuers, tx, Worse(run, o, a))
    ensures At(issuers, tx, Worse(run, o, a), 0) == Before(At(issuers, tx, run, 0), a)
    ensures At(issuers, tx, Worse(run, o, a), |tx|) == After(At(issuers, tx, run, |tx|), a, |run[o][0].moves|)
  {
    AtNext(issuers, tx, run, |tx| - 1);
    AtNext(issuers, tx, Worse(run, o, a), |tx| - 1);
  }

  /**
   * Wherever a transaction that commits has any other program in it, the same transaction can also
   * commit with the same releases and some wrapper account down that nothing was released from.
   */
  lemma OtherProgramsCanDebit(issuers: Issuers, tx: Transaction, run: seq<seq<World>>, o: nat)
    returns (worse: seq<seq<World>>, a: Key)
    requires Committed(issuers, tx, run) && o < |tx| && MayDebit(issuers, tx[o])
    ensures Committed(issuers, tx, worse) && IsWrapperAccount(a)
    ensures At(issuers, tx, worse, |tx|).releases == At(issuers, tx, run, |tx|).releases
    ensures Balance(At(issuers, tx, worse, 0).balances, a) == 1 && Balance(At(issuers, tx, worse, |tx|).balances, a) == 0
    ensures ReleasedFrom(At(issuers, tx, worse, |tx|).releases, a) == 0
  {
    a := UnmentionedAccount(At(issuers, tx, run, |tx|));
    CommittedNoneEmpty(issuers, tx, run);
    WorseCommits(issuers, tx, run, o, a);
    worse := Worse(run, o, a);
    WorseEnds(issuers, tx, run, o, a);
    NothingReleasedFrom(At(issuers, tx, run, |tx|).releases, a);
  }

  // ---------------------------------------------------------------- the theorem on the list

  /** A transaction of this program and issuers' sends that released once releases in every run. */
  lemma EveryRunReleases(issuers: Issuers, tx: Transaction, run: seq<seq<World>>, other: seq<seq<World>>)
    requires Committed(issuers, tx, run) && At(issuers, tx, run, |tx|).releases != []
    requires Committed(issuers, tx, other)
    ensures At(issuers, tx, other, |tx|).releases != []
  {
    var k, c := OnlyRelease(issuers, tx, run);
    AtNext(issuers, tx, other, k);
    var d := ReleaseOf(issuers, tx, k, other[k]);
    RecordGrows(issuers, tx, other, k + 1, |tx|);
  }

  lemma SendsLoseOnlyReleases(issuers: Issuers, tx: Transaction, run: seq<seq<World>>)
    requires Committed(issuers, tx, run) && OnlySends(issuers, tx) && At(issuers, tx, run, |tx|).releases != []
    ensures LosesOnlyReleases(issuers, tx, run)
  {
    var k, c := SendsOnlyLoseTheRelease(issuers, tx, run);
    var end := At(issuers, tx, run, |tx|);
    assert end.releases[..0] == [];
    forall a | IsWrapperAccount(a)
      ensures ReleasedFrom(end.releases, a) == if a == c.WrapperAta() then c.amount else 0
    {
    }
  }

  /**
   * When a release bounds what its transaction takes, exactly. For a transaction that can release:
   * every run of it that commits keeps every wrapper account's loss within what was released from
   * it, if and only if its instructions are this program's and issuers' sends and nothing else.
   */
  lemma ReleaseBoundsLossIff(issuers: Issuers, tx: Transaction, run: seq<seq<World>>)
    requires Committed(issuers, tx, run) && At(issuers, tx, run, |tx|).releases != []
    ensures (forall other :: Committed(issuers, tx, other) ==> LosesOnlyReleases(issuers, tx, other))
            <==> OnlySends(issuers, tx)
  {
    if OnlySends(issuers, tx) {
      forall other | Committed(issuers, tx, other)
        ensures LosesOnlyReleases(issuers, tx, other)
      {
        EveryRunReleases(issuers, tx, run, other);
        SendsLoseOnlyReleases(issuers, tx, other);
      }
    } else {
      var o :| 0 <= o < |tx| && !(tx[o].programId == LENDMIRROR || IsIssuerSend(issuers, tx[o]));
      var worse, a := OtherProgramsCanDebit(issuers, tx, run, o);
      assert !LosesOnlyReleases(issuers, tx, worse);
    }
  }
}
