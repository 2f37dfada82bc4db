# LendMirror: a verified model of its core

LendMirror is a Solana program that mirrors a Jupiter Lend position to an EVM chain. This project
models four linked parts of the program and of its TypeScript client, and proves what each part
promises on all inputs.

**Live-position engine** (`Bits`, `WideMul`, `TickMath`, `DebtFactor`, `LivePosition`, `LiveDebt`,
`GetJupiterPosition`, `SnapshotBytes`). After a liquidation a position's stored numbers are stale.
The program recomputes them from packed factors (35-bit coefficient, 15-bit exponent), a chain of merged
branches and a tick-to-ratio table. Every checked operation of the source is an obligation here:
machine-width functions written with the source's shifts, masks and width cuts are proved equal to
plain arithmetic, errors and aborts included. On the plain form: strict monotonicity and even steps
of the ratio over the whole tick range, an error bound for a whole chain, what a cyclic chain can
never do, and when the live debt is monotone in the stored one.

**Client and program agree on the accounts** (`JupiterAccounts`, `ClientAccounts`, `LongChains`).
The client predicts which branch accounts the walk will read. The result of the program over the
client's prediction is characterised exactly against its result over the whole ledger.

**LayerZero release guard** (`BridgeRoutes`, `OftSend`, `ReleaseGuard`, `LzSend`, `Transactions`,
`InnerDebits`, `ClientTransactions`). One instruction releases tokens after inspecting the transaction it is in. A
transaction is a list of instructions, a run gives each instruction the worlds it goes through, and
only runs of the whole list commit. Other programs may do anything except sign for a wrapper's
authority. They may call this program's instructions from inside their own: the release, which the
guard then refuses, and the others, whose debits of wrapper accounts the guard does not see. Those
debits are recorded, and every wrapper account balances against the record.

**Codecs and the wrapper** (`Bytes`, `MsgCodec`, `PositionSnapshots`, `PositionWrappers`,
`WrapperRules`, `SameSecond`). The 225-byte snapshot, its LayerZero frame, the send-once guard and the custody of the position NFT,
over every run of instructions with any clock, callers and failures.

`Outcome` holds the result types and the integer widths. Code the source writes as a loop, a
mutable buffer or an object with updated fields is a method or class here, proved equal to a
specification function; the properties are lemmas about that function. What each operation answers
is also written down once more without that function: snapshots and records by the byte offsets of
the accounts they come from, wire forms by offset, roundings by their bounds, guards by the plain
conditions they stand for. The ratio cascade of
fifteen bit tests is cut into three methods, and field-by-field encoders into a few, only so that
each is quick to verify. A Rust abort (overflow checks are on in release builds) is the error
`Panic`, a client exception is `ClientThrow`.

## What the proofs found

- The client collects at most 32 branches, the program can use 33, and the client reads any nonzero
  fully-liquidated byte as true where the program reads only 1 (`FlagReadingsAgreeIff`). The two
  snapshots, with the client's accounts and with the whole ledger and its own flushed account, agree
  exactly when the request is covered (flag 1, or flag 0 and at most 32 branches
  found), or the walk over the whole ledger itself runs into an absent branch, or an earlier step
  fails (`ClientAgreesIff`, `WalksAgreeIff`). A flushed account that is not needed and cannot be read
  is the exception: only passing it fails (`ClientSuffices`). `SnapshotsDiffer` is a whole request and ledger where
  they do not, for the 33rd branch and for every other flag byte.
- A release bounds what its own instruction takes from a wrapper, not what its transaction takes.
  The guard refuses a second instruction of the program at the top level only
  (`programs/lendmirror/src/instructions/bridge_tokens.rs:690-693`), so another program may call one
  of the others. For a transaction that can release, every run that commits keeps every wrapper
  account's loss within what was released from it if and only if its instructions are the program's
  and issuers' sends and nothing else (`ReleaseBoundsLossIff`). `InnerDebitCommits` is a committed
  transaction where the loss is larger; `BooksBalance` gives it exactly.
- While a wrapper has custody its authority holds the NFT
  (`programs/lendmirror/src/instructions/custody.rs:8-9`), on a set of routes, exactly when none of
  them is switched on for the position's own mint with a cap above zero (`CustodyHeldIff`). The route
  setter accepts such a route, and in `DrainingRun` the depositor bridges the NFT out on it.
- The live debt is not monotone in the stored debt. It is exactly when the ratio of the two factors
  is at most 1% or at least 1.5% (`LiveDebtMonotoneIff`); `TwoHundredLeavesLess` has 199 stored units
  leave one and 200 leave none.
- `MAX_DEBT_FACTOR` is documented as "ran past the range"
  (`programs/lendmirror/src/live_position.rs:44-46`). An exact, representable product can also have
  that bit pattern, and the walk then reports nothing left (`SaturatesIff`, `UnsaturatedAllOnes`,
  `UnsaturatedAllOnesLosesThePosition`).
- `mul_div_debt_factors` aborts on one family of inputs: a nonzero denominator with a zero
  coefficient at an exponent gap of exactly 128, where 128 leading zeros let a full-width shift
  through (`ScaledAbortsIff`). A walk aborts exactly when it ends on such a pair (`WalkAbortsIff`,
  `WalkCanAbort`), which factors as the vault writes them never are (`VaultFactorsNeverAbort`).
  `SnapshotAbortsIff` gives every way the whole computation can abort: that one, the seed of a tick
  near the top of 32 bits (`SeedCanAbort`), and the group number of one of the last two position ids
  (`GroupCanAbort`).
- A comment says a valid send is always exactly 81 bytes
  (`programs/lendmirror/src/bridges.rs:114-116`). The guard also accepts 83
  (`AcceptedBytes`, `EightyThreeBytesAccepted`).
- A comment says a refreshed snapshot is newer than anything sent before
  (`programs/lendmirror/src/instructions/refresh_wrapper.rs:126-127`). That holds exactly when the
  clock has moved past the last sent second (`RefreshRearmsIff`); in
  `SameSecondRefreshIsNotSendable` it has not, and the send is refused.
- 1.0 as a normalised packed factor is coefficient 2^34 with exponent 16350 (`NeutralIsOne`). With
  "an exponent of 16384" (`programs/lendmirror/src/live_position.rs:38`) the same coefficient stands
  for 2^34 (`BiasIsNotOne`).

## Assumptions

- A derived address is an injective function of the program and the seeds it comes from.
- The issuer's send debits the token account at its fixed position by `amount_ld`, delivers to its
  parameters and touches no wrapper account (`IssuerStep`).
- Nobody but the program signs for addresses derived from it. Another program takes tokens out of a
  wrapper account only by calling one of the program's instructions, and such a debit is recorded
  with its amount (`MovementStep`); what those instructions do with the tokens is not restricted.
- `VaultWritten` (merged branches carry normalised factors) is a hypothesis of the error bound and
  of the two results that vault factors never abort; every other result takes arbitrary factors.
- Jupiter never moves a position NFT, no position operation pays it out, and nobody but the program
  can move it out of an authority's account.
- The clock, the outcome of the two message legs and the allow lists are parameters.

## Model

| member | source | states |
|---|---|---|
| `WideMul.MulU128` | programs/lendmirror/src/tick_math.rs:139-156 | for all 128-bit operands the two words are the exact 256-bit product, and no intermediate overflows 128 bits |
| `WideMul.MulShr` | programs/lendmirror/src/tick_math.rs:158-169 | for every shift the result is the floor of the product over 2^shift, modulo 2^128 |
| `WideMul.MulShrExact` | programs/lendmirror/src/tick_math.rs:158-169 | the modulus does not bite when the product fits 128 + shift bits |
| `TickMath.MulShift64` | programs/lendmirror/src/tick_math.rs:135-137 | one scaling step of the ratio table is exact |
| `TickMath.GetRatioAtTick` | programs/lendmirror/src/tick_math.rs:51-108 | the mutable cascade of bit factors, the reciprocal and the rounding bit compute the specified ratio, or refuse a tick out of range |
| `TickMath.FactorDrops` | programs/lendmirror/src/tick_math.rs:20-92 | one more unit of distance from tick 0 always lowers the truncated factor by a fixed relative gap, through every carry |
| `TickMath.RatioStrictlyIncreasing` | programs/lendmirror/src/tick_math.rs:51-108 | the ratio is strictly increasing over the whole tick range, through floors and the reciprocal |
| `TickMath.RatioRange` | programs/lendmirror/src/tick_math.rs:51-108 | every ratio is above 4000 and below 2^84 |
| `TickMath.RatioIsRounded` | programs/lendmirror/src/tick_math.rs:94-107 | the ratio is the factor over 2^16 rounded down up to tick 0, and its reciprocal rounded up above |
| `TickMath.NeighboursAreEven` | programs/lendmirror/src/tick_math.rs:20-92 | neighbouring factors are 0.15% apart up to 2700 parts in 10^12, both ways, over the whole range |
| `TickMath.NeighbouringRatios` | programs/lendmirror/src/tick_math.rs:51-108 | so are neighbouring ratios, through floors and reciprocals, up to two units |
| `TickMath.MulShrIsDebtOf` | programs/lendmirror/src/tick_math.rs:112-133 | at the shift by 48 the cut to 128 bits never bites, for every ratio and amount the debt functions use |
| `TickMath.DebtFormulaExact` | programs/lendmirror/src/tick_math.rs:112-120 | the shown debt is the floor of ratio times collateral over 2^48, or out of range, for every tick and amount |
| `TickMath.LiquidationFormulaExact` | programs/lendmirror/src/tick_math.rs:125-133 | the same for the starting debt of a walk, with one added unit; its saturating addition never saturates |
| `TickMath.DebtMonotone` | programs/lendmirror/src/tick_math.rs:112-133 | both debts are monotone jointly in tick and collateral, and success is inherited downwards |
| `TickMath.DebtsAreRounded` | programs/lendmirror/src/tick_math.rs:112-133 | both debts by their bounds, the bottom tick's zero, and exactly when they are out of range |
| `TickMath.TickIsNormalized` | programs/lendmirror/src/tick_math.rs:37-43 | the sentinel tick stands for the bottom one, every other for itself |
| `TickMath.LiquidationStartsHigher` | programs/lendmirror/src/tick_math.rs:125-133 | above the bottom tick a walk starts at least one unit above the shown debt |
| `DebtFactor.MulDebtFactorsExact` | programs/lendmirror/src/live_position.rs:118-133 | the shifted, masked and re-packed product is the plain one for every pair of 64-bit values |
| `DebtFactor.ProductClosed` | programs/lendmirror/src/live_position.rs:118-133 | well-formed factors never spill out of 35 bits, and normalised ones stay normalised |
| `DebtFactor.ProductFailsIff` | programs/lendmirror/src/live_position.rs:119-130 | a product fails exactly when its exponent falls below the bias |
| `DebtFactor.ProductError` | programs/lendmirror/src/live_position.rs:118-133 | exact / (1 + 2^-34) < result <= exact |
| `DebtFactor.NeutralIsOne` | programs/lendmirror/src/live_position.rs:32-38 | coefficient 2^34 with exponent 16350 stands for 1.0, and multiplying a normalised factor by it changes nothing |
| `DebtFactor.BiasIsNotOne` | programs/lendmirror/src/live_position.rs:37-38 | with exponent 16384 the same coefficient stands for 2^34 |
| `DebtFactor.SaturatesIff` | programs/lendmirror/src/live_position.rs:126-133 | exactly when a product of any two 64-bit values reads as "nothing left" |
| `DebtFactor.UnsaturatedAllOnes` | programs/lendmirror/src/live_position.rs:44-46 | in-range, exact products that carry the saturation pattern |
| `DebtFactor.MulDivDebtFactorsExact` | programs/lendmirror/src/live_position.rs:140-163 | the leading-zeros early return and the 128-bit shift are exact, errors and the one abort included |
| `DebtFactor.ScaledIsFloor` | programs/lendmirror/src/live_position.rs:140-163 | the result is the floor of amount times the quotient of the values, and fails exactly when that exceeds 64 bits |
| `DebtFactor.ScaledEarlyAnswers` | programs/lendmirror/src/live_position.rs:140-160 | zero factors give zero, a smaller denominator exponent underflows, a zero coefficient gives zero |
| `DebtFactor.ScaledAbortsIff` | programs/lendmirror/src/live_position.rs:145-160 | the division aborts exactly on a nonzero denominator with zero coefficient at an exponent gap of 128 |
| `DebtFactor.ScaledAtMostAmount` | programs/lendmirror/src/live_position.rs:140-163 | a ratio of at most one succeeds and does not increase the amount |
| `LivePosition.RatioBelowIsTickBelow` | programs/lendmirror/src/live_position.rs:228-230 | dividing the ratio by 1.0015 gives the ratio one tick down, up to one part in 3 * 10^8 and four units |
| `LivePosition.RatioBetweenRange` | programs/lendmirror/src/live_position.rs:228-232 | the interpolated ratio is positive and between the ratio below and the ratio |
| `LivePosition.CollateralExact` | programs/lendmirror/src/live_position.rs:225-237 | for in-range ticks no checked multiplication fails and the only reachable error is the last conversion |
| `LivePosition.InterpolationIsFloor` | programs/lendmirror/src/live_position.rs:228-232 | the ratio below and the interpolated step are the exact quotients rounded down, for every partials |
| `LivePosition.CollateralIsFloor` | programs/lendmirror/src/live_position.rs:228-236 | collateral is debt times 2^48 over the interpolated ratio rounded down; a tick out of range is refused |
| `LivePosition.CollateralMonotone` | programs/lendmirror/src/live_position.rs:225-237 | collateral does not increase with partials nor decrease with debt |
| `LivePosition.ShownDebtReadsBackAtMost` | programs/lendmirror/src/live_position.rs:225-237 | reading collateral back from the shown debt gives at most what went in |
| `LivePosition.LiquidationDebtReadsBackMore` | programs/lendmirror/src/live_position.rs:225-237 | reading it back from the liquidation debt gives at least one unit more |
| `LivePosition.RecomputedDebtAtMost` | programs/lendmirror/src/live_position.rs:225-237 | debt recomputed from read-back collateral never exceeds the debt it came from |
| `LivePosition.WalkBranches` | programs/lendmirror/src/live_position.rs:169-218 | the loop refines a recursive fold and terminates on every branch map |
| `LivePosition.LiveIff` | programs/lendmirror/src/live_position.rs:196-217 | a successful walk leaves debt exactly when it ends unsaturated at a branch neither merged nor closed with more than 1% and at least two units |
| `LivePosition.ChainIsWalked` | programs/lendmirror/src/live_position.rs:182-190 | a chain of at most 33 branches is walked to its end with the product of its factors |
| `LivePosition.LongerChainIsRefused` | programs/lendmirror/src/live_position.rs:189-190 | a chain of 34 branches is too long |
| `LivePosition.LiveWalk` | programs/lendmirror/src/live_position.rs:181-217 | a live result visited at most 33 pairwise distinct branches; its debt is the haircut of the scaled amount, its tick and collateral are read at the last branch's minimum for that debt |
| `LiveDebt.WalkKeeps` | programs/lendmirror/src/live_position.rs:202-209 | the debt of a walk that ends open and unsaturated is the kept amount of its two factors |
| `LiveDebt.LiveDebtMonotoneIff` | programs/lendmirror/src/live_position.rs:202-209 | the kept amount is monotone in the stored debt exactly when the factors' ratio is at most 1% or at least 1.5% |
| `LiveDebt.TwoHundredLeavesLess` | programs/lendmirror/src/live_position.rs:204-207 | normalised factors for which 199 stored units leave one and 200 leave none |
| `LivePosition.MergedEndIsSaturated` | programs/lendmirror/src/live_position.rs:182-190 | a walk stops at a merged branch only when the factor saturated |
| `LivePosition.CyclicChainIsNeverLive` | programs/lendmirror/src/live_position.rs:27-30 | a chain that returns to a visited branch can never yield debt |
| `LivePosition.WalkAbortsIff` | programs/lendmirror/src/live_position.rs:169-218 | a walk aborts exactly when it ends, not closed and unsaturated, on that pair of factors |
| `LivePosition.WalkCanAbort` | programs/lendmirror/src/live_position.rs:145-160 | a concrete walk that aborts |
| `LivePosition.VaultFactorsNeverAbort` | programs/lendmirror/src/live_position.rs:118-218 | normalised factors never abort a walk |
| `LivePosition.UnsaturatedAllOnesLosesThePosition` | programs/lendmirror/src/live_position.rs:182-200 | a walk whose in-range product has the saturation pattern reports nothing left |
| `LivePosition.ChainErrorBound` | programs/lendmirror/src/live_position.rs:118-204 | over a chain of n hops the scaled debt is above exact - 1 and at most exact * (1 + 2^-34)^n |
| `GetJupiterPosition.ResolvePosition` | programs/lendmirror/src/instructions/get_jupiter_position.rs:148-221 | the reassigned live amounts, dust and flag, with the flushed-record and branch lookups, errors in order |
| `GetJupiterPosition.ComputePositionSnapshot` | programs/lendmirror/src/instructions/get_jupiter_position.rs:107-249 | the whole computation refines its specification |
| `GetJupiterPosition.SnapshotFlags` | programs/lendmirror/src/instructions/get_jupiter_position.rs:138-249 | fully liquidated iff liquidated with no debt (and then no collateral), stored numbers when not liquidated, no debt when supply-only, dust dropped only on the record's word, net debt above dust |
| `SnapshotBytes.LiquidatedIff` | programs/lendmirror/src/instructions/get_jupiter_position.rs:138-141 | when a position counts as liquidated, by the bytes of the position and its tick |
| `SnapshotBytes.SnapshotFields` | programs/lendmirror/src/instructions/get_jupiter_position.rs:225-248 | every field that does not depend on a liquidation, by its offset in the accounts |
| `SnapshotBytes.SnapshotOfLiquidated` | programs/lendmirror/src/instructions/get_jupiter_position.rs:155-221 | what a liquidated position is reported as: nothing and no dust on flag 1, else the walk from the record's branch and factor |
| `SnapshotBytes.RecordAnswers` | programs/lendmirror/src/live_position.rs:81-110 | flag, branch and connection factor of the record byte for byte, in the tick or in slot (id + 2) mod 3 |
| `SnapshotBytes.FlushedAddress` | programs/lendmirror/src/instructions/get_jupiter_position.rs:157-170 | a flushed account must sit at its tick's and group's address and decode, or is refused with this error |
| `SnapshotBytes.FlushedNeeded` | programs/lendmirror/src/instructions/get_jupiter_position.rs:171-174 | without it a position whose tick has moved on is refused |
| `SnapshotBytes.FixedAccounts` | programs/lendmirror/src/instructions/get_jupiter_position.rs:118-136 | what the fixed accounts of a call that gets past them hold |
| `SnapshotBytes.FixedAccountsRefused` | programs/lendmirror/src/instructions/get_jupiter_position.rs:118-136 | which error any other call gets |
| `SnapshotBytes.BranchAnswers` | programs/lendmirror/src/instructions/get_jupiter_position.rs:191-215 | a branch is read from the first account at its address, of the vault program, with tag, vault and id repeated |
| `SnapshotBytes.AbsentBranchIsMissing` | programs/lendmirror/src/instructions/get_jupiter_position.rs:193-196 | no account at a branch's address is a missing branch |
| `SnapshotBytes.LayoutsAccept` | programs/lendmirror/src/state/jupiter_position.rs:11-16 | the tag and the least length each account is accepted by |
| `GetJupiterPosition.SnapshotAbortsIff` | programs/lendmirror/src/instructions/get_jupiter_position.rs:107-249 | the snapshot aborts in exactly three ways: an impossible tick's seed, the group number of a last id, the scaling at the walk's end |
| `GetJupiterPosition.VaultFactorsLeaveAddresses` | programs/lendmirror/src/state/jupiter_position.rs:277-293 | with vault-written factors only the two address computations can abort |
| `JupiterAccounts.DecodePosition` | programs/lendmirror/src/state/jupiter_position.rs:209-221 | the cursor reads the fixed layout, or refuses a short or foreign buffer |
| `JupiterAccounts.DecodeTick` | programs/lendmirror/src/state/jupiter_position.rs:223-235 | the same for a tick |
| `JupiterAccounts.DecodeBranch` | programs/lendmirror/src/state/jupiter_position.rs:237-250 | the same for a branch |
| `JupiterAccounts.DecodeTickIdLiquidation` | programs/lendmirror/src/state/jupiter_position.rs:252-264 | the same for the loop over three slots |
| `JupiterAccounts.DecodeVaultStatePrices` | programs/lendmirror/src/state/jupiter_position.rs:295-313 | skipping field by field lands on the two prices |
| `JupiterAccounts.DecodeVaultTokens` | programs/lendmirror/src/state/jupiter_position.rs:315-334 | skipping field by field lands on the two tokens |
| `JupiterAccounts.ByteReader.Take` | programs/lendmirror/src/state/jupiter_position.rs:348-353 | advances by what it returns, or stays put |
| `JupiterAccounts.DecodeJupiterTickIdLiquidation` | lib/client/jupiter.ts:124-141 | the client's slot loop reads three slots at their offsets |
| `JupiterAccounts.DecodersAgree` | lib/client/jupiter.ts:49-141 | the client's decoders agree with the program's on every buffer the program accepts |
| `ClientAccounts.CollectLivePositionAccounts` | lib/client/lendmirror.ts:128-190 | the early returns, the flushed lookup and the push loop collect what the specification says |
| `ClientAccounts.CollectFacts` | lib/client/lendmirror.ts:168-188 | the loop collects distinct branches that follow each other, and stops short of 32 only where nothing new is left |
| `ClientAccounts.CollectAnswers` | lib/client/lendmirror.ts:134-167 | what the client returns byte by byte: nothing, or the flushed account exactly when it is needed and there, and the branches from the record in it |
| `ClientAccounts.WalkCoverage` | lib/client/lendmirror.ts:168-188 | the walk over the collected branches is the walk over the ledger if that touches at most 32, and a missing branch otherwise |
| `ClientAccounts.ClientStartIsRecord` | lib/client/lendmirror.ts:149-166 | the client starts at the record the program finds |
| `ClientAccounts.ClientSuffices` | lib/client/lendmirror.ts:128-190 | the snapshot over the accounts the client chose, exactly, against the snapshot over the whole ledger with the ledger's own flushed account |
| `ClientAccounts.WalksAgreeIff` | lib/client/lendmirror.ts:168-188 | the two walks agree exactly when at most 32 branches are found or the ledger's walk runs into an absent one |
| `ClientAccounts.ClientAgreesIff` | lib/client/lendmirror.ts:128-190 | when the client's accounts are enough, if and only if, over every ledger |
| `ClientAccounts.FlagReadingsAgreeIff` | programs/lendmirror/src/live_position.rs:81-110 | the two readings of the record's flag byte, in the Tick or in a flushed slot, agree exactly on 0 and 1 |
| `LongChains.ThirtyThreeBranchesAreNotCovered` | lib/client/lendmirror.ts:168-188 | a concrete chain that the program walks and the client cuts |
| `LongChains.SnapshotsDiffer` | lib/client/lendmirror.ts:128-190 | a whole request and ledger on which the program's snapshot succeeds but not over the client's accounts, for 33 branches and for flag bytes above 1 |
| `LongChains.SeedCanAbort` | programs/lendmirror/src/tick_math.rs:45-48 | a request whose tick seed overflows |
| `LongChains.GroupCanAbort` | programs/lendmirror/src/state/jupiter_position.rs:277-293 | a request whose group number overflows |
| `MsgCodec.WrapLzPayload` | programs/lendmirror/src/msg_codec.rs:30-36 | the header and the payload, appended |
| `MsgCodec.UnwrapFramed` | programs/lendmirror/src/msg_codec.rs:20-47 | unwrapping a framed payload gives it back whatever follows |
| `MsgCodec.FrameLayout` | programs/lendmirror/src/msg_codec.rs:30-36 | 28 zeros, the length big endian, the payload |
| `MsgCodec.UnwrapRefuses` | programs/lendmirror/src/msg_codec.rs:20-47 | which buffers do not unwrap, and with which error |
| `MsgCodec.FramedUnwrap` | programs/lendmirror/src/msg_codec.rs:20-47 | what unwraps re-frames to itself exactly when the unread header bytes are zero |
| `PositionSnapshots.EncodeBody` | programs/lendmirror/src/state/jupiter_position.rs:141-166 | the appended fields are the specified body |
| `PositionSnapshots.RoundTrip` | programs/lendmirror/src/state/jupiter_position.rs:141-206 | every snapshot decodes from its encoding followed by anything, the body is 225 bytes, and the LayerZero message unwraps to the Chainlink bytes |
| `PositionSnapshots.LayoutOfKeys` | programs/lendmirror/src/state/jupiter_position.rs:141-166 | keys and ids by their offset in the body |
| `PositionSnapshots.LayoutOfAmounts` | programs/lendmirror/src/state/jupiter_position.rs:141-166 | amounts and ticks by their offset, big endian |
| `PositionSnapshots.LayoutOfRest` | programs/lendmirror/src/state/jupiter_position.rs:141-166 | flags, branch, prices and time by their offset |
| `PositionSnapshots.DecodesIff` | programs/lendmirror/src/state/jupiter_position.rs:174-181 | a message decodes exactly when it declares 225 bytes and has them |
| `PositionSnapshots.ReencodeIffCanonical` | programs/lendmirror/src/state/jupiter_position.rs:174-206 | bytes that decode re-encode to themselves exactly when the header is zero and the flags are 0 or 1 |
| `PositionSnapshots.EncodePositionSnapshot` | lib/client/lendmirror.ts:94-125 | the client's in-place writes at fixed offsets give the program's 257 bytes |
| `BridgeRoutes.BridgeRoute.SetTerms` | programs/lendmirror/src/instructions/bridge_tokens.rs:103-139 | writes all terms or, on an error, nothing |
| `BridgeRoutes.TermsUsable` | programs/lendmirror/src/instructions/bridge_tokens.rs:104-124 | terms that pass name a real 20-byte receiver, and nothing in them truncates |
| `BridgeRoutes.TermsChecks` | programs/lendmirror/src/instructions/bridge_tokens.rs:104-124 | what the setter accepts, exactly, and which error anything else gets |
| `BridgeRoutes.StoredIsUsable` | programs/lendmirror/src/instructions/bridge_tokens.rs:103-139 | after any sequence of admin calls, a route that is switched on is usable |
| `OftSend.OftSendData` | programs/lendmirror/src/bridges.rs:88-110 | the builder appends the encoding of its arguments, no compose message, no LayerZero token fee |
| `OftSend.DecodesIffEncodes` | programs/lendmirror/src/bridges.rs:117-122 | data decodes to parameters exactly when it is their encoding |
| `OftSend.SendLayout` | programs/lendmirror/src/bridges.rs:64-82 | discriminator, destination, receiver, amount and minimum by their offset |
| `OftSend.PlainSendLayout` | programs/lendmirror/src/bridges.rs:64-110 | options, compose tag and fees by their offset in a send without compose message |
| `OftSend.SendBytesInjective` | programs/lendmirror/src/bridges.rs:64-110 | different parameters have different bytes |
| `ReleaseGuard.BridgeTokensLz` | programs/lendmirror/src/instructions/bridge_tokens.rs:628-726 | the account checks, the index loop over the transaction, the checks of the next instruction and the transfer, errors in order |
| `ReleaseGuard.AccountChecks` | programs/lendmirror/src/instructions/bridge_tokens.rs:609-644 | who may release, on which level, route, amount and token, and the error each refusal gets |
| `ReleaseGuard.ReleasedIff` | programs/lendmirror/src/instructions/bridge_tokens.rs:609-726 | when a release goes through, if and only if: caller, level, route, transaction, send bytes, source account and books |
| `ReleaseGuard.AcceptedIffLooks` | programs/lendmirror/src/instructions/bridge_tokens.rs:699-747 | accepted send data as an if-and-only-if over its bytes |
| `ReleaseGuard.CallAccounts` | programs/lendmirror/src/instructions/bridge_tokens.rs:648-664 | the wrapper's and the caller's token accounts |
| `ReleaseGuard.AcceptedBytes` | programs/lendmirror/src/instructions/bridge_tokens.rs:736-747 | accepted bytes are 81 or 83 long and fixed by route, amount, minimum and the two fees, and each minimum within half a percent is accepted |
| `ReleaseGuard.EightyThreeBytesAccepted` | programs/lendmirror/src/instructions/bridge_tokens.rs:741-744 | on any route that can be served, an accepted send of 83 bytes |
| `ReleaseGuard.ServableIffDomainFits` | programs/lendmirror/src/instructions/bridge_tokens.rs:121-124 | some send is accepted on a route exactly when its domain fits 32 bits |
| `Transactions.NoReleaseInside` | programs/lendmirror/src/instructions/bridge_tokens.rs:684-687 | no call from inside another program releases |
| `Transactions.SendTakesAll` | programs/lendmirror/src/instructions/bridge_tokens.rs:695-707 | the send right after a release takes it all from the caller and to the route's receiver |
| `Transactions.BooksBalance` | programs/lendmirror/src/instructions/bridge_tokens.rs:676-727 | in every committed transaction each wrapper account balances: what was there and was paid in is what is left, was released, and was taken by the program's other instructions |
| `InnerDebits.ReleaseBoundsLossIff` | programs/lendmirror/src/instructions/bridge_tokens.rs:684-693 | for a transaction that can release, every committed run keeps each wrapper account's loss within its releases if and only if the instruction list holds only this program and issuers' sends |
| `InnerDebits.OtherProgramsCanDebit` | programs/lendmirror/src/instructions/bridge_tokens.rs:688-693 | wherever another program stands in the list, the same transaction can commit with the same releases and a further wrapper account down |
| `Transactions.Conservation` | programs/lendmirror/src/instructions/bridge_tokens.rs:676-747 | in every committed transaction that releases: one top-level program instruction, one release, at most the cap, exactly the amount sent to the receiver, the caller nets zero, and every wrapper account's loss is that release and recorded inner debits |
| `Transactions.SendsOnlyLoseTheRelease` | programs/lendmirror/src/instructions/bridge_tokens.rs:577-589 | with no program but this one and issuers in the transaction, the release is the whole loss, to the unit |
| `Transactions.StoredRouteDelivers` | programs/lendmirror/src/instructions/bridge_tokens.rs:111-124 | on a route the admin stored, a release pins a position that is not the signer's and delivers to a nonzero right-aligned 20-byte address |
| `LzSend.OftSendBuffer` | lib/client/lzSend.ts:46-78 | the client's in-place writes give the program builder's bytes, or throw |
| `LzSend.TokenSourceAtIndex` | lib/client/lzSend.ts:108-200 | for each issuer the sender's token account is at the documented index |
| `LzSend.StandardOftAccounts` | lib/client/lzSend.ts:122-142 | the nine accounts in order with their seeds and flags |
| `LzSend.Usdt0Accounts` | lib/client/lzSend.ts:144-166 | the ten accounts in order with their seeds and flags |
| `LzSend.UsdaiAccounts` | lib/client/lzSend.ts:168-199 | the sixteen accounts in order with their seeds and flags |
| `LzSend.BuildIssuerSend` | lib/client/lzSend.ts:248-270 | the built instruction, given the accounts LayerZero's library returns |
| `LzSend.BuiltSendLayout` | lib/client/lzSend.ts:258-270 | program, accounts and every field of the data by its offset, the fee cap when no fee was quoted |
| `LzSend.BuiltSendThrowsIff` | lib/client/lzSend.ts:56-76 | exactly when the client throws |
| `LzSend.OneAmountPasses` | lib/client/lzSend.ts:80-83 | a built send passes the guard exactly when its headroom is at most half a percent, both rounded down, and its options are empty |
| `LzSend.EveryAmountPassesIff` | config/types.ts:84-87 | all amounts pass exactly when the profile keeps 50 basis points and empty options |
| `LzSend.FiftyOneBasisPointsRefused` | config/types.ts:84-85 | a concrete send refused at 51 basis points |
| `LzSend.ClientTransactionReleases` | tasks/solana/bridge.ts:243-277 | the client's transaction, among any other instructions, is released |
| `ClientTransactions.ClientTransactionCommits` | tasks/solana/bridge.ts:243-299 | with the issuer doing its part the client's pair commits among other programs' instructions: the wrapper is down by the amount, the caller nets zero, the receiver is sent it once |
| `ClientTransactions.InnerDebitCommits` | programs/lendmirror/src/instructions/bridge_tokens.rs:688-693 | a committed transaction in which an inner call debits the released wrapper's account a second time |
| `PositionWrappers.PositionWrapper.RecordSend` | programs/lendmirror/src/state/wrapper.rs:95-98 | the time and the saturating counter |
| `PositionWrappers.PositionWrapper.RefreshWrapper` | programs/lendmirror/src/instructions/refresh_wrapper.rs:41-130 | stores the computed snapshot of this position, or changes nothing |
| `PositionWrappers.PositionWrapper.SendPositionSnapshot` | programs/lendmirror/src/instructions/send_position_snapshot.rs:163-204 | guard, Chainlink account checks, two encodings, record; nothing on an error |
| `PositionWrappers.PositionWrapper.SetWrapperLevel` | programs/lendmirror/src/instructions/custody.rs:55-59 | only the admin, only levels 0 to 4 |
| `PositionWrappers.PositionWrapper.DepositPositionNft` | programs/lendmirror/src/instructions/custody.rs:85-161 | the holder's NFT moves to the authority and the holder becomes owner |
| `PositionWrappers.PositionWrapper.ReleasePositionNft` | programs/lendmirror/src/instructions/custody.rs:168-241 | the admin returns it to the owner |
| `PositionWrappers.PositionWrapper.BridgeTokens` | programs/lendmirror/src/instructions/bridge_tokens.rs:147-268 | the shared bridge checks, then the authority's account for the route's token pays; nothing on an error |
| `PositionWrappers.RunKeeps` | programs/lendmirror/src/state/wrapper.rs:9-13 | the invariant behind the run properties holds after every run |
| `WrapperRules.RefreshRule` | programs/lendmirror/src/instructions/refresh_wrapper.rs:41-130 | who may refresh, and the whole state afterwards |
| `WrapperRules.SendRule` | programs/lendmirror/src/instructions/send_position_snapshot.rs:63-204 | who may send, every check in order with its error, and the whole state afterwards |
| `WrapperRules.LevelRule` | programs/lendmirror/src/instructions/custody.rs:35-59 | only the admin, only 0 to 4, nothing else changed |
| `WrapperRules.DepositRule` | programs/lendmirror/src/instructions/custody.rs:69-161 | who may deposit, and the whole state afterwards |
| `WrapperRules.ReleaseRule` | programs/lendmirror/src/instructions/custody.rs:166-241 | only the admin, only from custody, only to the owner |
| `WrapperRules.BridgeRule` | programs/lendmirror/src/instructions/bridge_tokens.rs:147-268 | who may bridge, on which level and route, and what leaves |
| `WrapperRules.StrangerIsRefused` | programs/lendmirror/src/instructions/send_position_snapshot.rs:8-10 | someone on no list who owns and holds nothing is refused by every instruction |
| `WrapperRules.OneWrapperPerPosition` | programs/lendmirror/src/state/wrapper.rs:10-11 | different positions have different wrappers, authorities and mints |
| `WrapperRules.DerivedAddresses` | programs/lendmirror/src/state/wrapper.rs:47-53 | the seeds behind a wrapper, its authority and its position's mint |
| `PositionWrappers.SendsOverEveryRun` | programs/lendmirror/src/instructions/send_position_snapshot.rs:163-189 | over every run both messengers carry the same bytes, they decode to snapshots stored for this position, sent times strictly increase, and the counter counts them |
| `PositionWrappers.ReleasesMatchDeposits` | programs/lendmirror/src/instructions/custody.rs:10-12 | over every run the k-th release went to the k-th depositor |
| `PositionWrappers.CustodyHeldIff` | programs/lendmirror/src/instructions/custody.rs:7-9 | custody means the authority holds the NFT over every run on a set of routes exactly when none of them can pay out the position's mint |
| `PositionWrappers.DrainingRun` | programs/lendmirror/src/instructions/bridge_tokens.rs:147-268 | a run that leaves custody recorded and the NFT gone, for any route that can pay out its mint |
| `PositionWrappers.AdminCanAlwaysRelease` | programs/lendmirror/src/instructions/custody.rs:164-241 | in custody only the admin releases, to the last depositor, and without a bridge on the NFT's own mint always can |
| `PositionWrappers.RefreshRearmsIff` | programs/lendmirror/src/state/wrapper.rs:85-92 | a refresh makes the wrapper sendable exactly when its clock is past the last sent time |
| `PositionWrappers.NoSecondSend` | programs/lendmirror/src/state/wrapper.rs:12-12 | after a send no further send succeeds before a refresh |
| `SameSecond.SameSecondRefreshIsNotSendable` | programs/lendmirror/src/instructions/refresh_wrapper.rs:126-128 | a run of wrap, refresh, send and refresh in one second after which a send is refused |

## Left out

- The calls into Jupiter, Circle, Chainlink, the LayerZero endpoint and the SPL token programs: a transfer is a balance update, a message leg succeeds or fails by parameter, the issuer's send is an assumed contract.
- Anchor's account plumbing, rent, bumps and reserved bytes; address derivation is injective by construction instead of hashing.
- What the program's other bridge and position instructions check and pay: in a release transaction only the wrapper debits of such a call are recorded.
- What the CCTP and CCIP bridges do beyond the account checks they share and the payment, their account lists and `send_ccip.rs`: straight-line byte building.
- `operate_position.rs`, the level policy `level_allows`, allow-list, peer and CCIP route setters: single-branch checks.
- `GetJupiterPosition::apply`, which stores the computed snapshot in two accounts: it would only add two assignments.
- LayerZero's own accounts in a send (`layerZeroAccounts`) are a parameter; Hardhat commands, lookup tables and generated client code are not part of this model.
- The Arbitrum contracts are not part of this model: nothing is claimed about what the receiver stores.
- `crates/jup-tick-parity`: a host-side copy of the snapshot logic.
- GetJupiterPosition.ComputePositionSnapshot: the fixed accounts (position, vault state, vault config) are taken as given, because their addresses and owners are checked by account constraints before the computation.
- ClientAccounts.ClientSuffices: says nothing for ledgers on which the client throws on a truncated account, because it then sends no transaction.
- LzSend.ClientTransactionReleases: assumes the caller already has a token account or that it is created by the release, because account creation is not modelled.
