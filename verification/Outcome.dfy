/** The value-or-error results every other module returns, and the integer widths of the program. */
module Outcome {

  // The variants of the program's own error enum and of its framing errors that the model
  // can reach. `Panic` is the abort of a checked arithmetic operation (release builds keep
  // overflow checks on), `ClientThrow` is an exception in the client.
  datatype Error =
    | InvalidJupiterAccount
    | PositionIdMismatch
    | TickPdaMismatch
    | TickOutOfRange
    | Unauthorized
    | NoPositionSnapshot
    | DebtFactorUnderflow
    | DebtFactorOverflow
    | BranchChainTooLong
    | MissingBranchAccount
    | MissingLiquidationRecord
    | SnapshotAlreadySent
    | InvalidCcipAccount
    | SendFailed
    | LevelDenied
    | InvalidLevel
    | NoCustody
    | AlreadyInCustody
    | InvalidTokenAccount
    | RouteDisabled
    | AmountTooLarge
    | WrongProvider
    | InvalidBridgeAccount
    | MissingBridgeSend
    | InsufficientFunds
    | InvalidLength
    | BodyTooShort
    | Panic
    | ClientThrow

  datatype Option<+T> = None | Some(value: T)

  datatype Result<+T> = Ok(value: T) | Err(error: Error) {
    predicate IsFailure() {
      Err?
    }

    function PropagateFailure<U>(): Result<U>
      requires Err?
    {
      Err(error)
    }

    function Extract(): T
      requires Ok?
    {
      value
    }
  }

  type u8 = x: int | 0 <= x < 0x100
  type u16 = x: int | 0 <= x < 0x1_0000
  type u32 = x: int | 0 <= x < 0x1_0000_0000
  type u64 = x: int | 0 <= x < 0x1_0000_0000_0000_0000
  type u128 = x: int | 0 <= x < 0x1_0000_0000_0000_0000_0000_0000_0000_0000
  type i32 = x: int | -0x8000_0000 <= x < 0x8000_0000
  type i64 = x: int | -0x8000_0000_0000_0000 <= x < 0x8000_0000_0000_0000

  /** `require!`: continue, or stop with `error`. */
  function Require(condition: bool, error: Error): Result<()> {
    if condition then Ok(()) else Err(error)
  }

  /** `u64::try_from`. */
  function ToU64(x: nat, error: Error): Result<u64> {
    if x < 0x1_0000_0000_0000_0000 then Ok(x) else Err(error)
  }
}
