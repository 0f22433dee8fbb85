/** The protocol's fixed strings and numbers: message types, error codes,
    bet types, the lock-key prefix and the starting balance. */
module Constants {

  // Client -> server message types.
  const MsgTypePlay: string := "play"
  const MsgTypeEndPlay: string := "end_play"
  const MsgTypeGetBalance: string := "get_balance"

  // Server -> client message types.
  const MsgTypePlayResult: string := "play_result"
  const MsgTypeBalanceUpdate: string := "balance_update"
  const MsgTypePlayEnded: string := "play_ended"
  const MsgTypeError: string := "error"

  /** The error codes a client can receive in an `error` message. */
  datatype ErrorCode =
    | BadRequest
    | InternalError
    | ActivePlayExists
    | InvalidBet
    | BetTooHigh
    | InvalidBetType
    | InsufficientFunds
    | WalletNotFound
    | UnknownType
    | FailedLockRelease

  /** The code as it appears on the wire. */
  function CodeName(c: ErrorCode): string {
    match c
    case BadRequest => "BAD_REQUEST"
    case InternalError => "INTERNAL_ERROR"
    case ActivePlayExists => "ACTIVE_PLAY_EXISTS"
    case InvalidBet => "INVALID_BET"
    case BetTooHigh => "BET_TOO_HIGH"
    case InvalidBetType => "INVALID_BET_TYPE"
    case InsufficientFunds => "INSUFFICIENT_FUNDS"
    case WalletNotFound => "WALLET_NOT_FOUND"
    case UnknownType => "UNKNOWN_TYPE"
    case FailedLockRelease => "FAILED_LOCK_RELEASE"
  }

  // The two bets: the sum of the dice is below seven, or above seven.
  const BetTypeLt7: string := "lt7"
  const BetTypeGt7: string := "gt7"

  const OutcomeWin: string := "win"
  const OutcomeLose: string := "lose"

  /** Prefix of the lock-store key that marks a client's play as in progress. */
  const RedisKeyPrefixActivePlay: string := "active_play:"

  const DefaultCurrency: string := "PTS"
  const DefaultInitialBalance: int := 500
}
