/**
 * The client's prediction of the accounts the walk will read, and when it is enough: the
 * snapshot over only those accounts against the snapshot over the whole ledger.
 */
module ClientAccounts {
  import opened Outcome
  import opened Bytes
  import opened TickMath
  import opened DebtFactor
  import opened JupiterAccounts
  import opened LivePosition
  import opened PositionSnapshots
  import opened GetJupiterPosition

  datatype Account = Account(owner: Pubkey, data: Bytes)

  type Ledger = map<Address, Account>

  datatype Collected = Collected(tickIdLiquidation: Option<Address>, branches: seq<Address>)

  const CLIENT_HOPS := 32

  // ---------------------------------------------------------------- the client

  /** `u32Le(normalizeTick(tick) + OFFSET)`: the client wraps where the program aborts. */
  function ClientTickSeed(tick: i32): u32 {
    (NormalizeTick(tick) + TICK_PDA_OFFSET) % 0x1_0000_0000
  }

  function ClientLiquidationAddress(vaultId: u16, tick: i32, tickId: u32): Address {
    TickIdLiquidationAddress(vaultId, ClientTickSeed(NormalizeTick(tick)), (tickId + 2) / 3)
  }

  function AddressesOf(vaultId: u16, ids: seq<u32>): seq<Address> {
    seq(|ids|, k requires 0 <= k < |ids| => BranchAddress(vaultId, ids[k]))
  }

  /** The branch loop as a recursion over `left` remaining rounds. */
  function CollectIds(ledger: Ledger, vaultId: u16, next: u32, ids: seq<u32>, left: nat): Result<seq<u32>>
    decreases left, ids // `ids` keeps the verifier from unrolling all 32 rounds
  {
    if left == 0 || next in ids || BranchAddress(vaultId, next) !in ledger then Ok(ids)
    else
      var decoded :- DecodeJupiterBranchFields(ledger[BranchAddress(vaultId, next)].data);
      if decoded.status != BRANCH_MERGED then Ok(ids + [next])
      else CollectIds(ledger, vaultId, decoded.connectedBranchId, ids + [next], left - 1)
  }

  /** Which flag, branch and flushed account the client reads for a liquidated position. */
  datatype Start = Start(tickIdLiquidation: Option<Address>, isFullyLiquidated: bool, branchId: u32)

  function ClientStart(ledger: Ledger, vaultId: u16, position: PositionFields, tick: TickFields): Result<Start> {
    var liq := ClientLiquidationAddress(vaultId, position.tick, position.tickId);
    if tick.totalIds == position.tickId || liq !in ledger then
      Ok(Start(None, tick.isFullyLiquidated, tick.liquidationBranchId))
    else
      var slots :- ClientSlots(ledger[liq].data);
      var slot := slots[LiquidationSlotIndex(position.tickId)];
      Ok(Start(Some(liq), slot.isFullyLiquidated, slot.liquidationBranchId))
  }

  function Collect(ledger: Ledger, vaultId: u16, position: PositionFields): Result<Collected> {
    var tickKey := TickAddress(vaultId, ClientTickSeed(position.tick));
    if position.isSupplyOnly || tickKey !in ledger then Ok(Collected(None, []))
    else
      var tick :- DecodeJupiterTickFields(ledger[tickKey].data);
      if !(tick.isLiquidated || tick.totalIds > position.tickId) then Ok(Collected(None, []))
      else
        var start :- ClientStart(ledger, vaultId, position, tick);
        if start.isFullyLiquidated then Ok(Collected(start.tickIdLiquidation, []))
        else
          var ids :- CollectIds(ledger, vaultId, start.branchId, [], CLIENT_HOPS);
          Ok(Collected(start.tickIdLiquidation, AddressesOf(vaultId, ids)))
  }

  /** The client's code: early returns, a flushed-record lookup, then the push loop. */
  method CollectLivePositionAccounts(ledger: Ledger, vaultId: u16, position: PositionFields)
    returns (r: Result<Collected>)
    ensures r == Collect(ledger, vaultId, position)
  {
    var branches: seq<Address> := [];
    if position.isSupplyOnly {
      return Ok(Collected(None, branches));
    }
    var tickPda := TickAddress(vaultId, ClientTickSeed(position.tick));
    if tickPda !in ledger {
      return Ok(Collected(None, branches));
    }
    var tick :- DecodeJupiterTickFields(ledger[tickPda].data);
    var isLiquidated := tick.isLiquidated || tick.totalIds > position.tickId;
    if !isLiquidated {
      return Ok(Collected(None, branches));
    }

    var tickIdLiquidation: Option<Address> := None;
    var isFullyLiquidated := tick.isFullyLiquidated;
    var branchId := tick.liquidationBranchId;
    if tick.totalIds != position.tickId {
      var liq := ClientLiquidationAddress(vaultId, position.tick, position.tickId);
      if liq in ledger {
        tickIdLiquidation := Some(liq);
        var slots :- DecodeJupiterTickIdLiquidation(ledger[liq].data);
        var slot := slots[LiquidationSlotIndex(position.tickId)];
        isFullyLiquidated := slot.isFullyLiquidated;
        branchId := slot.liquidationBranchId;
      }
    }
    assert ClientStart(ledger, vaultId, position, tick) == Ok(Start(tickIdLiquidation, isFullyLiquidated, branchId));
    if isFullyLiquidated {
      return Ok(Collected(tickIdLiquidation, branches));
    }

    var next := branchId;
    ghost var ids: seq<u32> := [];
    ghost var whole := CollectIds(ledger, vaultId, branchId, [], CLIENT_HOPS);
    var hop := 0;
    while hop < 32
      invariant 0 <= hop <= 32 && branches == AddressesOf(vaultId, ids)
      invariant CollectIds(ledger, vaultId, next, ids, CLIENT_HOPS - hop) == whole
    {
      var branchPda := BranchAddress(vaultId, next);
      AddressMembership(vaultId, ids, next);
      if branchPda in branches {
        return Ok(Collected(tickIdLiquidation, branches));
      }
      if branchPda !in ledger {
        return Ok(Collected(tickIdLiquidation, branches));
      }
      branches := branches + [branchPda];
      var decoded :- DecodeJupiterBranchFields(ledger[branchPda].data);
      assert branches == AddressesOf(vaultId, ids + [next]);
      if decoded.status != BRANCH_MERGED {
        return Ok(Collected(tickIdLiquidation, branches));
      }
      ids := ids + [next];
      next := decoded.connectedBranchId;
      hop := hop + 1;
    }
    return Ok(Collected(tickIdLiquidation, branches));
  }

  lemma AddressMembership(vaultId: u16, ids: seq<u32>, id: u32)
    ensures BranchAddress(vaultId, id) in AddressesOf(vaultId, ids) <==> id in ids
  {
    if id in ids {
      var k :| 0 <= k < |ids| && ids[k] == id;
      assert AddressesOf(vaultId, ids)[k] == BranchAddress(vaultId, id);
    }
  }

  // ---------------------------------------------------------------- account lists and lookups

  /** The accounts behind a list of addresses, as a transaction would carry them. */
  function AccountsAt(ledger: Ledger, keys: seq<Address>): seq<AccountInfo>
    requires forall k :: k in keys ==> k in ledger
  {
    seq(|keys|, i requires 0 <= i < |keys| => AccountInfo(keys[i], ledger[keys[i]].owner, ledger[keys[i]].data))
  }

  /** Every entry is what the ledger holds at its address. */
  ghost predicate Faithful(accounts: seq<AccountInfo>, ledger: Ledger) {
    forall i :: 0 <= i < |accounts| ==> IsLedgerAccount(accounts[i], ledger)
  }

  ghost predicate IsLedgerAccount(account: AccountInfo, ledger: Ledger) {
    account.key in ledger && account.owner == ledger[account.key].owner && account.data == ledger[account.key].data
  }

  ghost predicate Carries(accounts: seq<AccountInfo>, key: Address) {
    exists i :: 0 <= i < |accounts| && accounts[i].key == key
  }

  /** Every branch account of the ledger is on the list. */
  ghost predicate Complete(accounts: seq<AccountInfo>, ledger: Ledger) {
    forall vaultId: u16, id: u32 :: BranchAddress(vaultId, id) in ledger ==> Carries(accounts, BranchAddress(vaultId, id))
  }

  lemma {:induction false} FindFaithful(accounts: seq<AccountInfo>, ledger: Ledger, key: Address)
    requires Faithful(accounts, ledger)
    ensures Carries(accounts, key) ==>
              key in ledger && FindAccount(accounts, key) == Some(AccountInfo(key, ledger[key].owner, ledger[key].data))
    ensures !Carries(accounts, key) ==> FindAccount(accounts, key) == None
  {
    if accounts != [] {
      assert IsLedgerAccount(accounts[0], ledger);
      var rest := accounts[1..];
      forall i | 0 <= i < |rest|
        ensures IsLedgerAccount(rest[i], ledger)
      {
        assert IsLedgerAccount(accounts[i + 1], ledger);
      }
      FindFaithful(rest, ledger, key);
      if accounts[0].key == key {
        assert Carries(accounts, key);
      } else if Carries(accounts, key) {
        var i :| 0 <= i < |accounts| && accounts[i].key == key;
        assert rest[i - 1].key == key;
        assert Carries(rest, key);
      } else {
        forall i | 0 <= i < |rest|
          ensures rest[i].key != key
        {
          assert accounts[i + 1].key == rest[i].key;
        }
      }
    }
  }

  /** Branch lookup straight from the ledger. */
  function LedgerLookup(ledger: Ledger, vaultsProgram: Pubkey, vaultId: u16): Lookup {
    (id: u32) => FromLedger(ledger, vaultsProgram, vaultId, id)
  }

  function FromLedger(ledger: Ledger, vaultsProgram: Pubkey, vaultId: u16, id: u32): Result<Branch> {
    var key := BranchAddress(vaultId, id);
    BranchFrom(if key in ledger then Some(AccountInfo(key, ledger[key].owner, ledger[key].data)) else None,
               vaultsProgram, vaultId, id)
  }

  /** A complete list of accounts looks branches up exactly like the ledger. */
  lemma CompleteLookup(accounts: seq<AccountInfo>, ledger: Ledger, vaultsProgram: Pubkey, vaultId: u16, id: u32)
    requires Faithful(accounts, ledger) && Complete(accounts, ledger)
    ensures BranchLookup(accounts, vaultsProgram, vaultId)(id) == LedgerLookup(ledger, vaultsProgram, vaultId)(id)
  {
    FindFaithful(accounts, ledger, BranchAddress(vaultId, id));
  }

  /** The collected accounts look up a branch like the ledger if it was collected, else report it missing. */
  lemma CollectedLookup(ledger: Ledger, vaultsProgram: Pubkey, vaultId: u16, ids: seq<u32>, id: u32)
    requires forall k :: k in AddressesOf(vaultId, ids) ==> k in ledger
    ensures var accounts := AccountsAt(ledger, AddressesOf(vaultId, ids));
            BranchLookup(accounts, vaultsProgram, vaultId)(id)
            == if id in ids then LedgerLookup(ledger, vaultsProgram, vaultId)(id) else Err(MissingBranchAccount)
  {
    var keys := AddressesOf(vaultId, ids);
    var accounts := AccountsAt(ledger, keys);
    var key := BranchAddress(vaultId, id);
    AddressMembership(vaultId, ids, id);
    assert Faithful(accounts, ledger);
    FindFaithful(accounts, ledger, key);
    if key in keys {
      var i :| 0 <= i < |keys| && keys[i] == key;
      assert accounts[i].key == key;
      assert Carries(accounts, key);
    } else {
      forall i | 0 <= i < |accounts|
        ensures accounts[i].key != key
      {
        assert accounts[i].key == keys[i];
      }
    }
  }

  // ---------------------------------------------------------------- what a walk visits

  /** The ids a walk looks up after it has reached `branch`. */
  ghost function Visited(lookup: Lookup, branch: Branch, factor: u64, hops: nat): set<u32>
    requires hops <= MAX_BRANCH_HOPS
    decreases MAX_BRANCH_HOPS - hops, branch // `branch` keeps the verifier from unrolling all hops
  {
    var compounded := Product(factor, branch.debtFactor);
    var next := branch.connectedBranchId;
    if branch.status != BRANCH_MERGED || compounded.Err? || compounded.value == MAX_DEBT_FACTOR then {}
    else if lookup(next).Err? || hops == MAX_BRANCH_HOPS then {next}
    else {next} + Visited(lookup, lookup(next).value, compounded.value, hops + 1)
  }

  ghost function WalkVisits(lookup: Lookup, start: u32, factor: u64): set<u32> {
    if lookup(start).Err? then {start} else {start} + Visited(lookup, lookup(start).value, factor, 0)
  }

  /** Lookups that agree on what one walk visits give the same walk. */
  lemma {:induction false} SameWalkFrom(a: Lookup, b: Lookup, id: u32, branch: Branch, factor: u64, hops: nat)
    requires hops <= MAX_BRANCH_HOPS
    requires forall v :: v in Visited(a, branch, factor, hops) ==> a(v) == b(v)
    ensures WalkFrom(a, id, branch, factor, hops) == WalkFrom(b, id, branch, factor, hops)
    decreases MAX_BRANCH_HOPS - hops
  {
    var compounded := Product(factor, branch.debtFactor);
    var next := branch.connectedBranchId;
    if branch.status == BRANCH_MERGED && compounded.Ok? && compounded.value != MAX_DEBT_FACTOR {
      assert next in Visited(a, branch, factor, hops);
      if a(next).Ok? && hops < MAX_BRANCH_HOPS {
        SameWalkFrom(a, b, next, a(next).value, compounded.value, hops + 1);
      }
    }
  }

  lemma SameWalk(a: Lookup, b: Lookup, start: u32, factor: u64, stored: u64)
    requires forall v :: v in WalkVisits(a, start, factor) ==> a(v) == b(v)
    ensures Walk(start, factor, stored, a) == Walk(start, factor, stored, b)
  {
    assert start in WalkVisits(a, start, factor);
    if a(start).Ok? {
      SameWalkFrom(a, b, start, a(start).value, factor, 0);
    }
  }

  // ---------------------------------------------------------------- what the client collects

  /** Where the client goes after a branch: its connected id, if the account reads as merged. */
  function RawNext(ledger: Ledger, vaultId: u16, id: u32): Option<u32> {
    var key := BranchAddress(vaultId, id);
    if key !in ledger || DecodeJupiterBranchFields(ledger[key].data).Err? then None
    else
      var decoded := DecodeJupiterBranchFields(ledger[key].data).value;
      if decoded.status == BRANCH_MERGED then Some(decoded.connectedBranchId) else None
  }

  predicate Present(ledger: Ledger, vaultId: u16, id: u32) {
    BranchAddress(vaultId, id) in ledger
  }

  /** The program's lookup and the client's reading of the same account point the same way. */
  lemma LookupAgreesWithClient(ledger: Ledger, vaultsProgram: Pubkey, vaultId: u16, id: u32)
    ensures var found := LedgerLookup(ledger, vaultsProgram, vaultId)(id);
            && (found == Err(MissingBranchAccount) <==> !Present(ledger, vaultId, id))
            && (found.Ok? && found.value.status == BRANCH_MERGED ==>
                  RawNext(ledger, vaultId, id) == Some(found.value.connectedBranchId))
  {
    if Present(ledger, vaultId, id) {
      DecodersAgree(ledger[BranchAddress(vaultId, id)].data);
    }
  }

  /** Distinct present ids, each the client's next step after the one before. */
  ghost predicate IsPath(ledger: Ledger, vaultId: u16, start: u32, ids: seq<u32>) {
    && (forall i, j :: 0 <= i < j < |ids| ==> ids[i] != ids[j])
    && (forall k :: 0 <= k < |ids| ==> Present(ledger, vaultId, ids[k]))
    && (ids != [] ==> ids[0] == start)
    && forall k :: 0 < k < |ids| ==> RawNext(ledger, vaultId, ids[k - 1]) == Some(ids[k])
  }

  /** Nothing past the last collected branch is both new and present. */
  ghost predicate IsClosed(ledger: Ledger, vaultId: u16, ids: seq<u32>) {
    ids != [] && var z := RawNext(ledger, vaultId, ids[|ids| - 1]);
    z.Some? && z.value !in ids ==> !Present(ledger, vaultId, z.value)
  }

  lemma PathExtends(ledger: Ledger, vaultId: u16, start: u32, ids: seq<u32>, next: u32)
    requires IsPath(ledger, vaultId, start, ids) && next !in ids && Present(ledger, vaultId, next)
    requires if ids == [] then next == start else RawNext(ledger, vaultId, ids[|ids| - 1]) == Some(next)
    ensures IsPath(ledger, vaultId, start, ids + [next])
  {
    var longer := ids + [next];
    forall k | 0 < k < |longer|
      ensures RawNext(ledger, vaultId, longer[k - 1]) == Some(longer[k])
    {
      if k < |ids| {
        assert RawNext(ledger, vaultId, ids[k - 1]) == Some(ids[k]);
      }
    }
  }

  /** The client's loop collects a path, and stops short of 32 branches only when it is closed. */
  lemma {:induction false} CollectFacts(ledger: Ledger, vaultId: u16, start: u32, next: u32, ids: seq<u32>, left: nat)
    requires IsPath(ledger, vaultId, start, ids) && |ids| + left == CLIENT_HOPS
    requires if ids == [] then next == start else RawNext(ledger, vaultId, ids[|ids| - 1]) == Some(next)
    requires CollectIds(ledger, vaultId, next, ids, left).Ok?
    ensures var c := CollectIds(ledger, vaultId, next, ids, left).value;
            && IsPath(ledger, vaultId, start, c) && |c| <= CLIENT_HOPS
            && (c == [] ==> !Present(ledger, vaultId, start))
            && (c != [] && !IsClosed(ledger, vaultId, c) ==> |c| == CLIENT_HOPS)
    decreases left
  {
    if left > 0 && next !in ids && Present(ledger, vaultId, next) {
      PathExtends(ledger, vaultId, start, ids, next);
      var decoded := DecodeJupiterBranchFields(ledger[BranchAddress(vaultId, next)].data).value;
      if decoded.status == BRANCH_MERGED {
        CollectFacts(ledger, vaultId, start, decoded.connectedBranchId, ids + [next], left - 1);
      }
    }
  }

  /** From a branch of `c` a merge leads back into `c`, or to a branch that is not there. */
  ghost predicate ClosedUnder(lookup: Lookup, c: seq<u32>) {
    forall id: u32 :: id in c && lookup(id).Ok? && lookup(id).value.status == BRANCH_MERGED ==>
                        Inside(lookup, c, lookup(id).value.connectedBranchId)
  }

  ghost predicate Inside(lookup: Lookup, c: seq<u32>, id: u32) {
    id in c || lookup(id) == Err(MissingBranchAccount)
  }

  lemma ClosedCollection(ledger: Ledger, vaultsProgram: Pubkey, vaultId: u16, start: u32, c: seq<u32>)
    requires IsPath(ledger, vaultId, start, c) && IsClosed(ledger, vaultId, c)
    ensures ClosedUnder(LedgerLookup(ledger, vaultsProgram, vaultId), c)
  {
    var lookup := LedgerLookup(ledger, vaultsProgram, vaultId);
    forall id: u32 | id in c && lookup(id).Ok? && lookup(id).value.status == BRANCH_MERGED
      ensures Inside(lookup, c, lookup(id).value.connectedBranchId)
    {
      var k :| 0 <= k < |c| && c[k] == id;
      ClosedNext(ledger, vaultsProgram, vaultId, start, c, k);
    }
  }

  lemma ClosedNext(ledger: Ledger, vaultsProgram: Pubkey, vaultId: u16, start: u32, c: seq<u32>, k: nat)
    requires IsPath(ledger, vaultId, start, c) && IsClosed(ledger, vaultId, c) && k < |c|
    requires LedgerLookup(ledger, vaultsProgram, vaultId)(c[k]).Ok?
    requires LedgerLookup(ledger, vaultsProgram, vaultId)(c[k]).value.status == BRANCH_MERGED
    ensures Inside(LedgerLookup(ledger, vaultsProgram, vaultId), c,
                   LedgerLookup(ledger, vaultsProgram, vaultId)(c[k]).value.connectedBranchId)
  {
    LookupAgreesWithClient(ledger, vaultsProgram, vaultId, c[k]);
    assert k + 1 < |c| ==> RawNext(ledger, vaultId, c[k + 1 - 1]) == Some(c[k + 1]);
  }

  /** Inside a closed collection a walk only visits collected or absent branches. */
  lemma {:induction false} ClosedVisits(lookup: Lookup, c: seq<u32>, id: u32, factor: u64, hops: nat)
    requires ClosedUnder(lookup, c) && id in c && lookup(id).Ok? && hops <= MAX_BRANCH_HOPS
    ensures forall v :: v in Visited(lookup, lookup(id).value, factor, hops) ==> Inside(lookup, c, v)
    decreases MAX_BRANCH_HOPS - hops
  {
    var branch := lookup(id).value;
    var compounded := Product(factor, branch.debtFactor);
    var next := branch.connectedBranchId;
    if branch.status == BRANCH_MERGED && compounded.Ok? && compounded.value != MAX_DEBT_FACTOR {
      assert Inside(lookup, c, next);
      if next in c && lookup(next).Ok? && hops < MAX_BRANCH_HOPS {
        ClosedVisits(lookup, c, next, compounded.value, hops + 1);
      }
    }
  }

  /** A lookup that only knows some ids. */
  function Restricted(lookup: Lookup, ids: seq<u32>): Lookup {
    (id: u32) => if id in ids then lookup(id) else Err(MissingBranchAccount)
  }

  /** The capped collection of 32 branches whose next branch `z` is present but was not collected. */
  ghost predicate IsCut(ledger: Ledger, vaultId: u16, c: seq<u32>, z: u32) {
    |c| == CLIENT_HOPS && RawNext(ledger, vaultId, c[31]) == Some(z) && z !in c && Present(ledger, vaultId, z)
  }

  /**
   * Along a cut collection the walk either stays inside it, or passes all of it and visits `z`,
   * where the restricted walk reports the branch missing.
   */
  lemma {:induction false} CutVisits(ledger: Ledger, vaultsProgram: Pubkey, vaultId: u16, start: u32, c: seq<u32>,
                                     z: u32, k: nat, factor: u64)
    requires IsPath(ledger, vaultId, start, c) && IsCut(ledger, vaultId, c, z) && k < 32
    requires LedgerLookup(ledger, vaultsProgram, vaultId)(c[k]).Ok?
    ensures var lookup := LedgerLookup(ledger, vaultsProgram, vaultId);
            var branch := lookup(c[k]).value;
            var visited := Visited(lookup, branch, factor, k);
            || (forall v :: v in visited ==> v in c)
            || (z in visited && (forall j :: k < j < 32 ==> c[j] in visited)
                && WalkFrom(Restricted(lookup, c), c[k], branch, factor, k) == Err(MissingBranchAccount))
    decreases 32 - k
  {
    var lookup := LedgerLookup(ledger, vaultsProgram, vaultId);
    var branch := lookup(c[k]).value;
    var compounded := Product(factor, branch.debtFactor);
    var next := branch.connectedBranchId;
    LookupAgreesWithClient(ledger, vaultsProgram, vaultId, c[k]);
    if branch.status == BRANCH_MERGED && compounded.Ok? && compounded.value != MAX_DEBT_FACTOR {
      if k == 31 {
        assert next == z;
      } else {
        assert RawNext(ledger, vaultId, c[k + 1 - 1]) == Some(c[k + 1]);
        assert next == c[k + 1];
        if lookup(next).Ok? {
          CutVisits(ledger, vaultsProgram, vaultId, start, c, z, k + 1, compounded.value);
        }
      }
    }
  }

  // ---------------------------------------------------------------- coverage of one walk

  ghost function Elements(c: seq<u32>): set<u32> {
    set x: u32 | x in c
  }

  lemma {:induction false} DistinctCount(c: seq<u32>)
    requires forall i, j :: 0 <= i < j < |c| ==> c[i] != c[j]
    ensures |Elements(c)| == |c|
  {
    if c != [] {
      var rest := c[1..];
      DistinctCount(rest);
      assert c[0] !in rest;
      assert Elements(c) == {c[0]} + Elements(rest);
    }
  }

  lemma SubsetCount(a: set<u32>, b: set<u32>)
    requires a <= b
    ensures |a| <= |b|
  {
    assert b == a + (b - a);
  }

  /** The branches a walk over the whole ledger finds. */
  ghost function Touched(ledger: Ledger, vaultsProgram: Pubkey, vaultId: u16, start: u32, factor: u64): set<u32> {
    set v | v in WalkVisits(LedgerLookup(ledger, vaultsProgram, vaultId), start, factor) && Present(ledger, vaultId, v)
  }

  /** A walk that only visits collected or absent branches is the same over the collected ones. */
  lemma InsideCoverage(ledger: Ledger, vaultsProgram: Pubkey, vaultId: u16, start: u32, c: seq<u32>, factor: u64,
                       stored: u64)
    requires IsPath(ledger, vaultId, start, c) && |c| <= CLIENT_HOPS
    requires forall v :: v in WalkVisits(LedgerLookup(ledger, vaultsProgram, vaultId), start, factor) ==>
                           Inside(LedgerLookup(ledger, vaultsProgram, vaultId), c, v)
    ensures |Touched(ledger, vaultsProgram, vaultId, start, factor)| <= CLIENT_HOPS
    ensures var lookup := LedgerLookup(ledger, vaultsProgram, vaultId);
            Walk(start, factor, stored, lookup) == Walk(start, factor, stored, Restricted(lookup, c))
  {
    var lookup := LedgerLookup(ledger, vaultsProgram, vaultId);
    forall v | v in WalkVisits(lookup, start, factor)
      ensures lookup(v) == Restricted(lookup, c)(v)
      ensures Present(ledger, vaultId, v) ==> v in c
    {
      LookupAgreesWithClient(ledger, vaultsProgram, vaultId, v);
    }
    SameWalk(lookup, Restricted(lookup, c), start, factor, stored);
    DistinctCount(c);
    SubsetCount(Touched(ledger, vaultsProgram, vaultId, start, factor), Elements(c));
  }

  /** A walk that leaves a cut collection touches at least 33 branches. */
  lemma OutsideCoverage(ledger: Ledger, vaultsProgram: Pubkey, vaultId: u16, start: u32, c: seq<u32>, z: u32,
                        factor: u64)
    requires IsPath(ledger, vaultId, start, c) && IsCut(ledger, vaultId, c, z)
    requires forall v :: v in c || v == z ==> v in WalkVisits(LedgerLookup(ledger, vaultsProgram, vaultId), start, factor)
    ensures |Touched(ledger, vaultsProgram, vaultId, start, factor)| > CLIENT_HOPS
  {
    var all := Elements(c) + {z};
    DistinctCount(c);
    assert z !in Elements(c);
    SubsetCount(all, Touched(ledger, vaultsProgram, vaultId, start, factor));
  }

  /**
   * The walk over the collected branches is the walk over the ledger when that touches at most
   * 32 branches, and reports a missing branch when it touches more.
   */
  lemma WalkCoverage(ledger: Ledger, vaultsProgram: Pubkey, vaultId: u16, start: u32, factor: u64, stored: u64)
    requires CollectIds(ledger, vaultId, start, [], CLIENT_HOPS).Ok?
    ensures var lookup := LedgerLookup(ledger, vaultsProgram, vaultId);
            var c := CollectIds(ledger, vaultId, start, [], CLIENT_HOPS).value;
            Walk(start, factor, stored, Restricted(lookup, c))
            == if |Touched(ledger, vaultsProgram, vaultId, start, factor)| <= CLIENT_HOPS
               then Walk(start, factor, stored, lookup) else Err(MissingBranchAccount)
  {
    var lookup := LedgerLookup(ledger, vaultsProgram, vaultId);
    var c := CollectIds(ledger, vaultId, start, [], CLIENT_HOPS).value;
    CollectFacts(ledger, vaultId, start, start, [], CLIENT_HOPS);
    LookupAgreesWithClient(ledger, vaultsProgram, vaultId, start);
    if c == [] || lookup(start).Err? {
      InsideCoverage(ledger, vaultsProgram, vaultId, start, c, factor, stored);
    } else if IsClosed(ledger, vaultId, c) {
      ClosedCollection(ledger, vaultsProgram, vaultId, start, c);
      ClosedVisits(lookup, c, start, factor, 0);
      InsideCoverage(ledger, vaultsProgram, vaultId, start, c, factor, stored);
    } else {
      var z := RawNext(ledger, vaultId, c[31]).value;
      CutVisits(ledger, vaultsProgram, vaultId, start, c, z, 0, factor);
      var visited := Visited(lookup, lookup(start).value, factor, 0);
      if forall v :: v in visited ==> v in c {
        InsideCoverage(ledger, vaultsProgram, vaultId, start, c, factor, stored);
      } else {
        OutsideCoverage(ledger, vaultsProgram, vaultId, start, c, z, factor);
      }
    }
  }

  // ---------------------------------------------------------------- when the two walks agree

  lemma {:induction false} WalkFromMissingIff(lookup: Lookup, id: u32, branch: Branch, factor: u64, hops: nat)
    requires hops <= MAX_BRANCH_HOPS
    ensures WalkFrom(lookup, id, branch, factor, hops) == Err(MissingBranchAccount) <==>
              exists v :: v in Visited(lookup, branch, factor, hops) && lookup(v) == Err(MissingBranchAccount)
    decreases MAX_BRANCH_HOPS - hops
  {
    var compounded := Product(factor, branch.debtFactor);
    var next := branch.connectedBranchId;
    if branch.status == BRANCH_MERGED && compounded.Ok? && compounded.value != MAX_DEBT_FACTOR {
      assert next in Visited(lookup, branch, factor, hops);
      if lookup(next).Ok? && hops < MAX_BRANCH_HOPS {
        WalkFromMissingIff(lookup, next, lookup(next).value, compounded.value, hops + 1);
      }
    }
  }

  lemma SettleNeverMisses(end: WalkEnd, stored: u64)
    ensures Settle(end, stored) != Err(MissingBranchAccount)
  {
  }

  /** A walk reports a missing branch exactly when it visits one. */
  lemma WalkMissingIff(lookup: Lookup, start: u32, factor: u64, stored: u64)
    ensures Walk(start, factor, stored, lookup) == Err(MissingBranchAccount) <==>
              exists v :: v in WalkVisits(lookup, start, factor) && lookup(v) == Err(MissingBranchAccount)
  {
    assert start in WalkVisits(lookup, start, factor);
    if lookup(start).Ok? {
      WalkFromMissingIff(lookup, start, lookup(start).value, factor, 0);
      var end := WalkFrom(lookup, start, lookup(start).value, factor, 0);
      if end.Ok? {
        SettleNeverMisses(end.value, stored);
      }
    }
  }

  /** The walk over the whole ledger comes to a branch that is not in it. */
  ghost predicate RunsIntoAbsent(ledger: Ledger, vaultsProgram: Pubkey, vaultId: u16, start: u32, factor: u64) {
    exists v :: v in WalkVisits(LedgerLookup(ledger, vaultsProgram, vaultId), start, factor) && !Present(ledger, vaultId, v)
  }

  lemma LedgerWalkMissingIff(ledger: Ledger, vaultsProgram: Pubkey, vaultId: u16, start: u32, factor: u64, stored: u64)
    ensures Walk(start, factor, stored, LedgerLookup(ledger, vaultsProgram, vaultId)) == Err(MissingBranchAccount)
            <==> RunsIntoAbsent(ledger, vaultsProgram, vaultId, start, factor)
  {
    var lookup := LedgerLookup(ledger, vaultsProgram, vaultId);
    WalkMissingIff(lookup, start, factor, stored);
    forall v: u32
      ensures lookup(v) == Err(MissingBranchAccount) <==> !Present(ledger, vaultId, v)
    {
      LookupAgreesWithClient(ledger, vaultsProgram, vaultId, v);
    }
  }

  /**
   * The walks over the collected branches and over the ledger agree exactly when the ledger's
   * touches at most 32 branches, or itself runs into an absent one.
   */
  lemma WalksAgreeIff(ledger: Ledger, vaultsProgram: Pubkey, vaultId: u16, start: u32, factor: u64, stored: u64)
    requires CollectIds(ledger, vaultId, start, [], CLIENT_HOPS).Ok?
    ensures var lookup := LedgerLookup(ledger, vaultsProgram, vaultId);
            var c := CollectIds(ledger, vaultId, start, [], CLIENT_HOPS).value;
            Walk(start, factor, stored, Restricted(lookup, c)) == Walk(start, factor, stored, lookup) <==>
              || |Touched(ledger, vaultsProgram, vaultId, start, factor)| <= CLIENT_HOPS
              || RunsIntoAbsent(ledger, vaultsProgram, vaultId, start, factor)
  {
    WalkCoverage(ledger, vaultsProgram, vaultId, start, factor, stored);
    LedgerWalkMissingIff(ledger, vaultsProgram, vaultId, start, factor, stored);
  }

  // ---------------------------------------------------------------- coverage of a snapshot

  /** The request as the client sends it: the flushed account it found, or none. */
  function ClientRequest(request: Request, ledger: Ledger, collected: Collected): Request {
    match collected.tickIdLiquidation
    case None => request.(tickIdLiquidation := None)
    case Some(key) =>
      request.(tickIdLiquidation :=
        if key in ledger then Some(AccountInfo(key, ledger[key].owner, ledger[key].data)) else None)
  }

  /** The raw flag byte of the record the program reads. */
  function RecordFlag(request: Request, position: JupiterPosition, tick: JupiterTick): u8 {
    if tick.totalIds == position.tickId then tick.isFullyLiquidated
    else
      var flushed := FlushedRecord(request, position);
      if flushed.Err? || flushed.value.None? then 0
      else flushed.value.value.slots[(position.tickId + 2) % 3].isFullyLiquidated
  }

  /** Whatever a call passes besides the branch accounts comes from the ledger. */
  ghost predicate FromThisLedger(request: Request, ledger: Ledger) {
    IsLedgerAccount(request.tick, ledger)
  }

  /**
   * What a caller can check beforehand: a liquidated position's record flag is 0 or 1, and, when
   * the branches will be walked, the walk touches at most 32 of them.
   */
  ghost predicate Covered(request: Request, ledger: Ledger, position: JupiterPosition, tick: JupiterTick) {
    IsLiquidated(position, tick) && FoundRecord(request, position, tick).Ok?
    && LiquidationDebt(position.tick, position.supplyAmount).Ok? ==>
      var record := FoundRecord(request, position, tick).value;
      || RecordFlag(request, position, tick) == 1
      || (RecordFlag(request, position, tick) == 0
          && |Touched(ledger, request.vaultsProgram, request.vaultId, record.branchId, record.connectionFactor)|
             <= CLIENT_HOPS)
  }

  /** The client's view of a decoded position and tick. */
  function PositionView(p: JupiterPosition): PositionFields {
    PositionFields(p.vaultId, p.nftId, p.tick, p.tickId, p.supplyAmount, p.dustDebtAmount, p.isSupplyOnlyPosition != 0)
  }

  function TickView(t: JupiterTick): TickFields {
    TickFields(t.tick, t.isLiquidated != 0, t.totalIds, t.isFullyLiquidated != 0, t.liquidationBranchId, t.debtFactor)
  }

  /** The client and the program derive the same tick address, and read the same tick there. */
  lemma ClientTick(request: Request, ledger: Ledger, a: Accounts)
    requires DecodeAccounts(request) == Ok(a) && FromThisLedger(request, ledger)
    ensures DecodeJupiterPositionFields(request.positionData) == Ok(PositionView(a.position))
    ensures var key := TickAddress(request.vaultId, ClientTickSeed(a.position.tick));
            key in ledger && DecodeJupiterTickFields(ledger[key].data) == Ok(TickView(a.tick))
  {
    SameTickAddress(request);
    assert IsLedgerAccount(request.tick, ledger);
    DecodersAgree(request.positionData);
    DecodersAgree(request.tick.data);
  }

  lemma SameTickAddress(request: Request)
    requires DecodeAccounts(request).Ok?
    ensures request.tick.key == TickAddress(request.vaultId, ClientTickSeed(DecodeAccounts(request).value.position.tick))
  {
  }

  /** The flushed account sits where the client looks for it, and both read the same slot in it. */
  lemma FlushedAgrees(request: Request, position: JupiterPosition, ledger: Ledger)
    requires FlushedRecord(request, position).Ok? && FlushedRecord(request, position).value.Some?
    requires IsLedgerAccount(request.tickIdLiquidation.value, ledger)
    ensures var key := ClientLiquidationAddress(request.vaultId, position.tick, position.tickId);
            var slots := FlushedRecord(request, position).value.value.slots;
            var k := (position.tickId + 2) % 3;
            && |slots| == 3 && key in ledger && ClientSlots(ledger[key].data).Ok?
            && |ClientSlots(ledger[key].data).value| == 3
            && ClientSlots(ledger[key].data).value[k] == SlotView(slots[k])
  {
    DecodersAgree(request.tickIdLiquidation.value.data);
    assert request.tickIdLiquidation.value.key == ClientLiquidationAddress(request.vaultId, position.tick, position.tickId);
  }

  /** A start taken from a record: its branch, and whether its flag byte is set. */
  predicate StartsAt(start: Start, record: LiquidationRecord, flag: u8) {
    && record.isFullyLiquidated == (flag == 1)
    && start.isFullyLiquidated == (flag != 0) && start.branchId == record.branchId
  }

  lemma FlushedStart(request: Request, ledger: Ledger, position: JupiterPosition, tick: JupiterTick, start: Start)
    requires ClientStart(ledger, request.vaultId, PositionView(position), TickView(tick)) == Ok(start)
    requires request.tickIdLiquidation.Some? && IsLedgerAccount(request.tickIdLiquidation.value, ledger)
    requires FoundRecord(request, position, tick).Ok? && tick.totalIds != position.tickId
    ensures StartsAt(start, FoundRecord(request, position, tick).value, RecordFlag(request, position, tick))
  {
    FlushedAgrees(request, position, ledger);
    var slots := FlushedRecord(request, position).value.value.slots;
    StartAtSlot(ledger, request.vaultId, position, tick, slots[(position.tickId + 2) % 3], start);
  }

  lemma StartAtSlot(ledger: Ledger, vaultId: u16, position: JupiterPosition, tick: JupiterTick,
                    slot: TickIdLiquidationSlot, start: Start)
    requires ClientStart(ledger, vaultId, PositionView(position), TickView(tick)) == Ok(start)
    requires tick.totalIds != position.tickId
    requires var key := ClientLiquidationAddress(vaultId, position.tick, position.tickId);
             && key in ledger && ClientSlots(ledger[key].data).Ok? && |ClientSlots(ledger[key].data).value| == 3
             && ClientSlots(ledger[key].data).value[(position.tickId + 2) % 3] == SlotView(slot)
    ensures start.isFullyLiquidated == (slot.isFullyLiquidated != 0) && start.branchId == slot.liquidationBranchId
  {
  }

  /** Where the client starts on a liquidated position whose record the program finds. */
  lemma StartIsRecord(request: Request, ledger: Ledger, position: JupiterPosition, tick: JupiterTick, start: Start)
    requires ClientStart(ledger, request.vaultId, PositionView(position), TickView(tick)) == Ok(start)
    requires request.tickIdLiquidation.Some? ==> IsLedgerAccount(request.tickIdLiquidation.value, ledger)
    requires FoundRecord(request, position, tick).Ok?
    ensures StartsAt(start, FoundRecord(request, position, tick).value, RecordFlag(request, position, tick))
  {
    if tick.totalIds != position.tickId {
      FlushedStart(request, ledger, position, tick, start);
    }
  }

  /** On a liquidated position the client's result is its start and the branches it pushes. */
  lemma CollectFromStart(ledger: Ledger, vaultId: u16, position: PositionFields, tick: TickFields, collected: Collected)
    returns (start: Start)
    requires !position.isSupplyOnly && (tick.isLiquidated || tick.totalIds > position.tickId)
    requires TickAddress(vaultId, ClientTickSeed(position.tick)) in ledger
    requires DecodeJupiterTickFields(ledger[TickAddress(vaultId, ClientTickSeed(position.tick))].data) == Ok(tick)
    requires Collect(ledger, vaultId, position) == Ok(collected)
    ensures ClientStart(ledger, vaultId, position, tick) == Ok(start)
    ensures collected.tickIdLiquidation == start.tickIdLiquidation
    ensures start.tickIdLiquidation.Some? ==> start.tickIdLiquidation.value in ledger
    ensures start.isFullyLiquidated ==> collected.branches == []
    ensures !start.isFullyLiquidated ==>
              var ids := CollectIds(ledger, vaultId, start.branchId, [], CLIENT_HOPS);
              ids.Ok? && collected.branches == AddressesOf(vaultId, ids.value)
  {
    start := ClientStart(ledger, vaultId, position, tick).value;
  }

  /** The client reads the record the program finds. */
  lemma ClientStartIsRecord(request: Request, ledger: Ledger, collected: Collected, a: Accounts, fields: PositionFields)
    requires DecodeAccounts(request) == Ok(a) && FromThisLedger(request, ledger)
    requires DecodeJupiterPositionFields(request.positionData) == Ok(fields)
    requires Collect(ledger, request.vaultId, fields) == Ok(collected)
    requires request == ClientRequest(request, ledger, collected)
    requires IsLiquidated(a.position, a.tick) && FoundRecord(request, a.position, a.tick).Ok?
    ensures var record := FoundRecord(request, a.position, a.tick).value;
            var flag := RecordFlag(request, a.position, a.tick);
            && record.isFullyLiquidated == (flag == 1)
            && (flag != 0 ==> collected.branches == [])
            && (flag == 0 ==>
                  var ids := CollectIds(ledger, request.vaultId, record.branchId, [], CLIENT_HOPS);
                  ids.Ok? && collected.branches == AddressesOf(request.vaultId, ids.value))
  {
    ClientTick(request, ledger, a);
    var start := CollectFromStart(ledger, request.vaultId, fields, TickView(a.tick), collected);
    StartIsRecord(request, ledger, a.position, a.tick, start);
  }

  /** Looking branches up in the accounts the client collected. */
  lemma CollectedBranchLookup(ledger: Ledger, vaultsProgram: Pubkey, vaultId: u16, ids: seq<u32>, start: u32,
                              factor: u64, stored: u64)
    requires forall k :: 0 <= k < |ids| ==> Present(ledger, vaultId, ids[k])
    ensures forall k :: k in AddressesOf(vaultId, ids) ==> k in ledger
    ensures Walk(start, factor, stored, BranchLookup(AccountsAt(ledger, AddressesOf(vaultId, ids)), vaultsProgram, vaultId))
         == Walk(start, factor, stored, Restricted(LedgerLookup(ledger, vaultsProgram, vaultId), ids))
  {
    var mine := BranchLookup(AccountsAt(ledger, AddressesOf(vaultId, ids)), vaultsProgram, vaultId);
    forall v: u32
      ensures mine(v) == Restricted(LedgerLookup(ledger, vaultsProgram, vaultId), ids)(v)
    {
      CollectedLookup(ledger, vaultsProgram, vaultId, ids, v);
    }
    SameWalk(mine, Restricted(LedgerLookup(ledger, vaultsProgram, vaultId), ids), start, factor, stored);
  }

  lemma CompleteBranchLookup(accounts: seq<AccountInfo>, ledger: Ledger, vaultsProgram: Pubkey, vaultId: u16,
                             start: u32, factor: u64, stored: u64)
    requires Faithful(accounts, ledger) && Complete(accounts, ledger)
    ensures Walk(start, factor, stored, BranchLookup(accounts, vaultsProgram, vaultId))
         == Walk(start, factor, stored, LedgerLookup(ledger, vaultsProgram, vaultId))
  {
    var all := BranchLookup(accounts, vaultsProgram, vaultId);
    forall v: u32
      ensures all(v) == LedgerLookup(ledger, vaultsProgram, vaultId)(v)
    {
      CompleteLookup(accounts, ledger, vaultsProgram, vaultId, v);
    }
    SameWalk(all, LedgerLookup(ledger, vaultsProgram, vaultId), start, factor, stored);
  }

  /** The addresses the client returns are in the ledger. */
  lemma CollectedPresent(ledger: Ledger, vaultId: u16, fields: PositionFields)
    requires Collect(ledger, vaultId, fields).Ok?
    ensures forall k :: k in Collect(ledger, vaultId, fields).value.branches ==> k in ledger
  {
    var collected := Collect(ledger, vaultId, fields).value;
    if collected.branches != [] {
      var tick := DecodeJupiterTickFields(ledger[TickAddress(vaultId, ClientTickSeed(fields.tick))].data).value;
      var start := ClientStart(ledger, vaultId, fields, tick).value;
      CollectFacts(ledger, vaultId, start.branchId, start.branchId, [], CLIENT_HOPS);
    }
  }

  /** How the walk from the found record fares over the two account lists. */
  lemma RecordWalks(request: Request, ledger: Ledger, collected: Collected, all: seq<AccountInfo>, a: Accounts,
                    fields: PositionFields, stored: u64)
    requires DecodeAccounts(request) == Ok(a) && FromThisLedger(request, ledger)
    requires DecodeJupiterPositionFields(request.positionData) == Ok(fields)
    requires Collect(ledger, request.vaultId, fields) == Ok(collected)
    requires request == ClientRequest(request, ledger, collected)
    requires IsLiquidated(a.position, a.tick) && FoundRecord(request, a.position, a.tick).Ok?
    requires Faithful(all, ledger) && Complete(all, ledger)
    requires forall k :: k in collected.branches ==> k in ledger
    requires RecordFlag(request, a.position, a.tick) != 1
    ensures var record := FoundRecord(request, a.position, a.tick).value;
            var mine := Walk(record.branchId, record.connectionFactor, stored,
                             BranchLookup(AccountsAt(ledger, collected.branches), request.vaultsProgram, request.vaultId));
            var whole := Walk(record.branchId, record.connectionFactor, stored,
                              BranchLookup(all, request.vaultsProgram, request.vaultId));
            mine == if RecordFlag(request, a.position, a.tick) == 0
                       && |Touched(ledger, request.vaultsProgram, request.vaultId, record.branchId,
                                   record.connectionFactor)| <= CLIENT_HOPS
                    then whole else Err(MissingBranchAccount)
  {
    var record := FoundRecord(request, a.position, a.tick).value;
    ClientStartIsRecord(request, ledger, collected, a, fields);
    CompleteBranchLookup(all, ledger, request.vaultsProgram, request.vaultId, record.branchId, record.connectionFactor, stored);
    if RecordFlag(request, a.position, a.tick) == 0 {
      var ids := CollectIds(ledger, request.vaultId, record.branchId, [], CLIENT_HOPS).value;
      CollectFacts(ledger, request.vaultId, record.branchId, record.branchId, [], CLIENT_HOPS);
      CollectedBranchLookup(ledger, request.vaultsProgram, request.vaultId, ids, record.branchId,
                            record.connectionFactor, stored);
      WalkCoverage(ledger, request.vaultsProgram, request.vaultId, record.branchId, record.connectionFactor, stored);
    } else {
      assert AccountsAt(ledger, collected.branches) == [];
    }
  }

  /** How what is left of the position fares over the two account lists. */
  lemma ClientResolves(request: Request, ledger: Ledger, fields: PositionFields, collected: Collected,
                       all: seq<AccountInfo>, a: Accounts, storedDebt: u64)
    requires FromThisLedger(request, ledger) && Faithful(all, ledger) && Complete(all, ledger)
    requires DecodeAccounts(request) == Ok(a)
    requires DecodeJupiterPositionFields(request.positionData) == Ok(fields)
    requires Collect(ledger, request.vaultId, fields) == Ok(collected)
    requires request == ClientRequest(request, ledger, collected)
    requires forall k :: k in collected.branches ==> k in ledger
    ensures var lookup := BranchLookup(AccountsAt(ledger, collected.branches), request.vaultsProgram, request.vaultId);
            var mine := Resolve(request, a.position, a.tick, storedDebt, lookup);
            var whole := Resolve(request, a.position, a.tick, storedDebt,
                                 BranchLookup(all, request.vaultsProgram, request.vaultId));
            mine == if Covered(request, ledger, a.position, a.tick) then whole else Err(MissingBranchAccount)
  {
    var started := LiquidationDebt(a.position.tick, a.position.supplyAmount);
    if IsLiquidated(a.position, a.tick) && FoundRecord(request, a.position, a.tick).Ok? && started.Ok? {
      ClientStartIsRecord(request, ledger, collected, a, fields);
      if RecordFlag(request, a.position, a.tick) != 1 {
        RecordWalks(request, ledger, collected, all, a, fields, started.value);
      }
    }
  }

  /**
   * For one request, the snapshot over the branches the client collected, exactly: it is the snapshot over the
   * whole ledger, value or error, whenever the request is covered or the walk is not reached; and
   * a missing branch otherwise. The whole list may hold anything else besides the ledger's branches.
   */
  lemma RequestSuffices(request: Request, ledger: Ledger, fields: PositionFields, collected: Collected,
                       all: seq<AccountInfo>)
    requires FromThisLedger(request, ledger) && Faithful(all, ledger) && Complete(all, ledger)
    requires DecodeJupiterPositionFields(request.positionData) == Ok(fields)
    requires Collect(ledger, request.vaultId, fields) == Ok(collected)
    requires request == ClientRequest(request, ledger, collected)
    ensures forall k :: k in collected.branches ==> k in ledger
    ensures var mine := SnapshotOf(request, AccountsAt(ledger, collected.branches));
            var whole := SnapshotOf(request, all);
            var accounts := DecodeAccounts(request);
            mine == if accounts.Err? || StoredDebt(accounts.value.position).Err?
                       || Covered(request, ledger, accounts.value.position, accounts.value.tick)
                    then whole else Err(MissingBranchAccount)
  {
    CollectedPresent(ledger, request.vaultId, fields);
    if DecodeAccounts(request).Ok? {
      var a := DecodeAccounts(request).value;
      if StoredDebt(a.position).Ok? {
        ClientResolves(request, ledger, fields, collected, all, a, StoredDebt(a.position).value);
      }
    }
  }

  /** The walk from the found record, over the whole ledger, comes to a branch that is not in it. */
  ghost predicate RecordRunsIntoAbsent(request: Request, ledger: Ledger, position: JupiterPosition, tick: JupiterTick) {
    && FoundRecord(request, position, tick).Ok?
    && var record := FoundRecord(request, position, tick).value;
       RunsIntoAbsent(ledger, request.vaultsProgram, request.vaultId, record.branchId, record.connectionFactor)
  }

  lemma WholeMissesIff(request: Request, ledger: Ledger, all: seq<AccountInfo>, a: Accounts, storedDebt: u64)
    requires Faithful(all, ledger) && Complete(all, ledger)
    requires IsLiquidated(a.position, a.tick) && FoundRecord(request, a.position, a.tick).Ok?
    requires !FoundRecord(request, a.position, a.tick).value.isFullyLiquidated
    requires LiquidationDebt(a.position.tick, a.position.supplyAmount).Ok?
    ensures Resolve(request, a.position, a.tick, storedDebt,
                    BranchLookup(all, request.vaultsProgram, request.vaultId)) == Err(MissingBranchAccount)
            <==> RecordRunsIntoAbsent(request, ledger, a.position, a.tick)
  {
    var record := FoundRecord(request, a.position, a.tick).value;
    var stored := LiquidationDebt(a.position.tick, a.position.supplyAmount).value;
    CompleteBranchLookup(all, ledger, request.vaultsProgram, request.vaultId, record.branchId, record.connectionFactor, stored);
    LedgerWalkMissingIff(ledger, request.vaultsProgram, request.vaultId, record.branchId, record.connectionFactor, stored);
  }

  /**
   * For one request, when the collected branches are enough, exactly. The snapshots agree, value or
   * error, if and only if one of these holds: the fixed accounts fail first, the request is covered,
   * or the walk over the whole ledger itself runs into an absent branch.
   */
  lemma RequestAgreesIff(request: Request, ledger: Ledger, fields: PositionFields, collected: Collected,
                        all: seq<AccountInfo>)
    requires FromThisLedger(request, ledger) && Faithful(all, ledger) && Complete(all, ledger)
    requires DecodeJupiterPositionFields(request.positionData) == Ok(fields)
    requires Collect(ledger, request.vaultId, fields) == Ok(collected)
    requires request == ClientRequest(request, ledger, collected)
    ensures forall k :: k in collected.branches ==> k in ledger
    ensures var accounts := DecodeAccounts(request);
            SnapshotOf(request, AccountsAt(ledger, collected.branches)) == SnapshotOf(request, all) <==>
              || accounts.Err? || StoredDebt(accounts.value.position).Err?
              || Covered(request, ledger, accounts.value.position, accounts.value.tick)
              || RecordRunsIntoAbsent(request, ledger, accounts.value.position, accounts.value.tick)
  {
    RequestSuffices(request, ledger, fields, collected, all);
    if DecodeAccounts(request).Ok? {
      var a := DecodeAccounts(request).value;
      if StoredDebt(a.position).Ok? && !Covered(request, ledger, a.position, a.tick) {
        ClientStartIsRecord(request, ledger, collected, a, fields);
        WholeMissesIff(request, ledger, all, a, StoredDebt(a.position).value);
      }
    }
  }

  // ---------------------------------------------------------------- against the ledger's own flushed account

  /** Where a position's flushed record is kept: its tick's seed and the group of three its id is in. */
  function FlushedKey(vaultId: u16, position: PositionFields): Address {
    TickIdLiquidationAddress(vaultId, ((if position.tick == -0x8000_0000 then -16_383 else position.tick) + 16_383)
                                      % 0x1_0000_0000,
                             (position.tickId + 2) / 3)
  }

  /** The call with the ledger's flushed account in it whenever there is one, whatever the client chose. */
  function LedgerRequest(request: Request, ledger: Ledger, position: PositionFields): Request {
    var key := FlushedKey(request.vaultId, position);
    request.(tickIdLiquidation :=
      if key in ledger then Some(AccountInfo(key, ledger[key].owner, ledger[key].data)) else None)
  }

  /** A start is read from the record at `o` of `data`. */
  ghost predicate ReadsRecord(start: Start, data: Bytes, o: nat)
    requires o + 5 <= |data|
  {
    start.isFullyLiquidated == (data[o] != 0) && start.branchId == U32At(data, o + 1)
  }

  /** Which record the client starts from: the flushed slot if it is needed and there, else the tick's. */
  lemma StartAnswers(ledger: Ledger, vaultId: u16, position: PositionFields, data: Bytes, start: Start)
    requires |data| >= 40
    requires ClientStart(ledger, vaultId, position, DecodeJupiterTickFields(data).value) == Ok(start)
    ensures var key := FlushedKey(vaultId, position);
            && start.tickIdLiquidation
               == (if U32At(data, 15) != position.tickId && key in ledger then Some(key) else None)
            && (start.tickIdLiquidation.None? ==> ReadsRecord(start, data, 27))
            && (start.tickIdLiquidation.Some? ==>
                  && |ledger[key].data| >= 57
                  && ReadsRecord(start, ledger[key].data, 18 + 13 * ((position.tickId + 2) % 3)))
  {
    assert FlushedKey(vaultId, position) == ClientLiquidationAddress(vaultId, position.tick, position.tickId);
  }

  /** What the client returns, byte by byte: which flushed account, and from which branch it collects. */
  lemma CollectAnswers(ledger: Ledger, vaultId: u16, position: PositionFields, collected: Collected)
    requires Collect(ledger, vaultId, position) == Ok(collected)
    ensures var tickKey := TickAddress(vaultId, ((if position.tick == -0x8000_0000 then -16_383 else position.tick)
                                                 + 16_383) % 0x1_0000_0000);
            var key := FlushedKey(vaultId, position);
            if position.isSupplyOnly || tickKey !in ledger then collected == Collected(None, [])
            else
              var data := ledger[tickKey].data;
              && |data| >= 40
              && if data[14] == 0 && U32At(data, 15) <= position.tickId then collected == Collected(None, [])
                 else
                   && collected.tickIdLiquidation
                      == (if U32At(data, 15) != position.tickId && key in ledger then Some(key) else None)
                   && (collected.tickIdLiquidation.None? ==> CollectsFrom(ledger, vaultId, data, 27, collected.branches))
                   && (collected.tickIdLiquidation.Some? ==>
                         |ledger[key].data| >= 57
                         && CollectsFrom(ledger, vaultId, ledger[key].data, 18 + 13 * ((position.tickId + 2) % 3),
                                         collected.branches))
  {
    var tickKey := TickAddress(vaultId, ClientTickSeed(position.tick));
    if !position.isSupplyOnly && tickKey in ledger {
      var data := ledger[tickKey].data;
      var tick := DecodeJupiterTickFields(data).value;
      if tick.isLiquidated || tick.totalIds > position.tickId {
        var start := CollectFromStart(ledger, vaultId, position, tick, collected);
        StartAnswers(ledger, vaultId, position, data, start);
      }
    }
  }

  /** The record at `o`: flag byte, then branch id. Nothing is collected when the flag is set. */
  ghost predicate CollectsFrom(ledger: Ledger, vaultId: u16, data: Bytes, o: nat, branches: seq<Address>)
    requires o + 5 <= |data|
  {
    if data[o] != 0 then branches == []
    else
      var ids := CollectIds(ledger, vaultId, U32At(data, o + 1), [], 32);
      ids.Ok? && branches == AddressesOf(vaultId, ids.value)
  }

  /** A flushed account that is not needed, because the tick still holds the record, but cannot be read. */
  ghost predicate UnreadableSpare(request: Request) {
    && DecodeAccounts(request).Ok?
    && var a := DecodeAccounts(request).value;
       && StoredDebt(a.position).Ok? && IsLiquidated(a.position, a.tick)
       && a.tick.totalIds == a.position.tickId && FlushedRecord(request, a.position).Err?
  }

  /** The same call with another flushed account gets past the fixed accounts alike. */
  lemma DecodingIgnoresFlushed(request: Request, flushed: Option<AccountInfo>)
    ensures DecodeAccounts(request.(tickIdLiquidation := flushed)) == DecodeAccounts(request)
  {
  }

  lemma SpareIsIgnored(request: Request, flushed: Option<AccountInfo>, a: Accounts, stored: u64, lookup: Lookup)
    requires IsLiquidated(a.position, a.tick) && a.tick.totalIds == a.position.tickId
    requires FlushedRecord(request, a.position).Ok?
    ensures Resolve(request, a.position, a.tick, stored, lookup)
         == Resolve(request.(tickIdLiquidation := None), a.position, a.tick, stored, lookup)
  {
  }

  /** The client passes the ledger's flushed account exactly when the record is there. */
  lemma ClientPassesFlushed(request: Request, ledger: Ledger, a: Accounts, collected: Collected)
    requires DecodeAccounts(request) == Ok(a) && FromThisLedger(request, ledger)
    requires Collect(ledger, request.vaultId, PositionView(a.position)) == Ok(collected)
    requires IsLiquidated(a.position, a.tick)
    ensures ClientRequest(request, ledger, collected)
         == if a.tick.totalIds == a.position.tickId then request.(tickIdLiquidation := None)
            else LedgerRequest(request, ledger, PositionView(a.position))
  {
    ClientTick(request, ledger, a);
    var start := CollectFromStart(ledger, request.vaultId, PositionView(a.position), TickView(a.tick), collected);
    assert FlushedKey(request.vaultId, PositionView(a.position))
        == ClientLiquidationAddress(request.vaultId, a.position.tick, a.position.tickId);
  }

  lemma SameResolution(request: Request, ledger: Ledger, a: Accounts, collected: Collected, stored: u64, lookup: Lookup)
    requires DecodeAccounts(request) == Ok(a) && FromThisLedger(request, ledger)
    requires Collect(ledger, request.vaultId, PositionView(a.position)) == Ok(collected)
    requires StoredDebt(a.position).Ok?
    requires !UnreadableSpare(LedgerRequest(request, ledger, PositionView(a.position)))
    ensures Resolve(ClientRequest(request, ledger, collected), a.position, a.tick, stored, lookup)
         == Resolve(LedgerRequest(request, ledger, PositionView(a.position)), a.position, a.tick, stored, lookup)
  {
    var full := LedgerRequest(request, ledger, PositionView(a.position));
    DecodingIgnoresFlushed(request, full.tickIdLiquidation);
    if IsLiquidated(a.position, a.tick) {
      ClientPassesFlushed(request, ledger, a, collected);
      if a.tick.totalIds == a.position.tickId {
        SpareIsIgnored(full, full.tickIdLiquidation, a, stored, lookup);
        assert full.(tickIdLiquidation := None) == request.(tickIdLiquidation := None);
      }
    }
  }

  /** Over the same branches, the client's choice of flushed account and the ledger's give one snapshot. */
  lemma SameSnapshot(request: Request, ledger: Ledger, fields: PositionFields, collected: Collected, remaining: seq<AccountInfo>)
    requires FromThisLedger(request, ledger)
    requires DecodeJupiterPositionFields(request.positionData) == Ok(fields)
    requires Collect(ledger, request.vaultId, fields) == Ok(collected)
    requires !UnreadableSpare(LedgerRequest(request, ledger, fields))
    ensures SnapshotOf(ClientRequest(request, ledger, collected), remaining)
         == SnapshotOf(LedgerRequest(request, ledger, fields), remaining)
  {
    var mine, full := ClientRequest(request, ledger, collected), LedgerRequest(request, ledger, fields);
    DecodingIgnoresFlushed(request, mine.tickIdLiquidation);
    DecodingIgnoresFlushed(request, full.tickIdLiquidation);
    if DecodeAccounts(request).Ok? {
      var a := DecodeAccounts(request).value;
      ClientTick(request, ledger, a);
      if StoredDebt(a.position).Ok? {
        SameResolution(request, ledger, a, collected, StoredDebt(a.position).value,
                       BranchLookup(remaining, request.vaultsProgram, request.vaultId));
      }
    }
  }

  lemma SpareFails(request: Request, remaining: seq<AccountInfo>)
    requires UnreadableSpare(request)
    ensures SnapshotOf(request, remaining) == Err(FlushedRecord(request, DecodeAccounts(request).value.position).error)
  {
  }

  /** The client's request, and what makes its branches enough. */
  ghost predicate EnoughBranches(request: Request, ledger: Ledger) {
    || DecodeAccounts(request).Err? || StoredDebt(DecodeAccounts(request).value.position).Err?
    || Covered(request, ledger, DecodeAccounts(request).value.position, DecodeAccounts(request).value.tick)
  }

  /**
   * The snapshot over the accounts the client chose, the flushed record and the branches, exactly,
   * against the snapshot over the whole ledger with the ledger's own flushed account: the same,
   * value or error, when the branches are enough, and a missing branch otherwise. The one exception
   * is a flushed account that is not needed and cannot be read: passing it fails the call.
   */
  lemma ClientSuffices(request: Request, ledger: Ledger, fields: PositionFields, collected: Collected,
                       all: seq<AccountInfo>)
    requires FromThisLedger(request, ledger) && Faithful(all, ledger) && Complete(all, ledger)
    requires DecodeJupiterPositionFields(request.positionData) == Ok(fields)
    requires Collect(ledger, request.vaultId, fields) == Ok(collected)
    ensures forall k :: k in collected.branches ==> k in ledger
    ensures var sent, full := ClientRequest(request, ledger, collected), LedgerRequest(request, ledger, fields);
            var mine, whole := SnapshotOf(sent, AccountsAt(ledger, collected.branches)), SnapshotOf(full, all);
            && (!UnreadableSpare(full) ==>
                  mine == if EnoughBranches(sent, ledger) then whole else Err(MissingBranchAccount))
            && (UnreadableSpare(full) ==>
                  whole == Err(FlushedRecord(full, DecodeAccounts(full).value.position).error))
  {
    var sent, full := ClientRequest(request, ledger, collected), LedgerRequest(request, ledger, fields);
    RequestSuffices(sent, ledger, fields, collected, all);
    if UnreadableSpare(full) {
      SpareFails(full, all);
    } else {
      SameSnapshot(request, ledger, fields, collected, all);
    }
  }

  /**
   * When the client's accounts are enough, exactly: the fixed accounts fail first, the request is
   * covered, or the walk over the whole ledger itself runs into an absent branch.
   */
  lemma ClientAgreesIff(request: Request, ledger: Ledger, fields: PositionFields, collected: Collected,
                        all: seq<AccountInfo>)
    requires FromThisLedger(request, ledger) && Faithful(all, ledger) && Complete(all, ledger)
    requires DecodeJupiterPositionFields(request.positionData) == Ok(fields)
    requires Collect(ledger, request.vaultId, fields) == Ok(collected)
    ensures forall k :: k in collected.branches ==> k in ledger
    ensures var sent, full := ClientRequest(request, ledger, collected), LedgerRequest(request, ledger, fields);
            var mine, whole := SnapshotOf(sent, AccountsAt(ledger, collected.branches)), SnapshotOf(full, all);
            !UnreadableSpare(full) ==>
              (mine == whole <==>
                 || EnoughBranches(sent, ledger)
                 || RecordRunsIntoAbsent(sent, ledger, DecodeAccounts(sent).value.position, DecodeAccounts(sent).value.tick))
  {
    var sent, full := ClientRequest(request, ledger, collected), LedgerRequest(request, ledger, fields);
    RequestAgreesIff(sent, ledger, fields, collected, all);
    if !UnreadableSpare(full) {
      SameSnapshot(request, ledger, fields, collected, all);
    }
  }

  /**
   * The client reads any nonzero flag byte as fully liquidated, the program only 1. Whether the
   * record is in the Tick or in a flushed slot, they agree exactly on the bytes 0 and 1.
   */
  lemma FlagReadingsAgreeIff(request: Request, ledger: Ledger, position: JupiterPosition, tick: JupiterTick, start: Start)
    requires ClientStart(ledger, request.vaultId, PositionView(position), TickView(tick)) == Ok(start)
    requires request.tickIdLiquidation.Some? ==> IsLedgerAccount(request.tickIdLiquidation.value, ledger)
    requires FoundRecord(request, position, tick).Ok?
    ensures start.isFullyLiquidated == FoundRecord(request, position, tick).value.isFullyLiquidated
            <==> RecordFlag(request, position, tick) <= 1
  {
    StartIsRecord(request, ledger, position, tick, start);
  }
}
