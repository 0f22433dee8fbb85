/** The per-message handlers of the connection: `play`, `get_balance` and
    `end_play`. Each is a step on the shared state (the wallets table, the set
    of lock keys held in the lock store, and the messages sent so far on this
    connection). Every answer from the lock store, the database or the game
    service is a field of an `Oracle`. */
module Handler {
  import opened GoInt
  import opened Constants
  import Wallet
  import Game

  datatype Option<T> = None | Some(value: T)

  /** An inbound payload, classified by what the JSON decoder makes of it.
      A field missing from the JSON reads as its zero value ("" or 0). */
  datatype Payload =
    | Garbled                                                    // decodes as no payload struct
    | IdOnly(clientId: string)                                   // decodes as {clientId} only: a bet field has the wrong type
    | Full(clientId: string, betAmount: Int64, betType: string)  // decodes as the play payload (and so as {clientId})

  datatype PlayPayload = PlayPayload(clientId: string, betAmount: Int64, betType: string)

  /** Decoding into the play payload struct. */
  function DecodePlay(p: Payload): Option<PlayPayload> {
    match p
    case Full(id, amount, betType) => Some(PlayPayload(id, amount, betType))
    case _ => None
  }

  /** Decoding into the get_balance / end_play payload struct: only the client id. */
  function DecodeClientId(p: Payload): Option<string> {
    match p
    case Garbled => None
    case IdOnly(id) => Some(id)
    case Full(id, _, _) => Some(id)
  }

  datatype ServerMessage =
    | PlayResult(clientId: string, die1: int, die2: int, outcome: Game.Verdict, betAmount: Int64, winnings: Int64)
    | BalanceUpdate(clientId: string, balance: Int64)
    | PlayEnded(clientId: string, finalBalance: Int64)
    | ErrorMessage(code: ErrorCode, message: Text)

  /** The state one handler call acts on. */
  datatype World = World(wallets: Wallet.Wallets, locks: set<string>, out: seq<ServerMessage>)

  /** Every external answer one inbound message may meet. */
  datatype Oracle = Oracle(
    lockStoreOk: bool,    // SETNX reached the lock store and answered
    ensureOk: bool,       // the wallet INSERT succeeded
    debit: Wallet.Tx,     // the debit transaction's answers
    gameFails: bool,      // the game service reported an error
    die1: Game.Die,       // the dice the game service rolls
    die2: Game.Die,
    refund: Wallet.Tx,    // the compensating credit's answers
    credit: Wallet.Tx,    // the winnings credit's answers
    readOk: bool,         // a balance SELECT answered
    releaseOk: bool)      // DEL of the lock key answered

  function Send(w: World, m: ServerMessage): World {
    w.(out := w.out + [m])
  }

  function SendError(w: World, code: ErrorCode, message: Text): World {
    Send(w, ErrorMessage(code, message))
  }

  /** The human-readable part of an error message, one per place the
      server sends an error; `Wording` gives the text on the wire. */
  datatype Text =
    | TextBadPlayPayload
    | TextIdMismatch
    | TextLockCheckFailed
    | TextActivePlay
    | TextWalletNotPrepared
    | TextInsufficientFunds
    | TextDebitFailed
    | TextGameFailed
    | TextCreditFailed
    | TextRoundBalanceFailed
    | TextLockReleaseFailed
    | TextBadGetBalancePayload
    | TextBalanceFailed
    | TextBadEndPlayPayload
    | TextFinalBalanceFailed
    | TextBetNotPositive
    | TextBetTooHigh
    | TextBadBetType
    | TextBadPlayRequest
    | TextBadEnvelope
    | TextUnknownType

  function Wording(t: Text): string {
    match t
    case TextBadPlayPayload => "Invalid play payload format"
    case TextIdMismatch => "Client ID mismatch or missing"
    case TextLockCheckFailed => "Failed to check play status."
    case TextActivePlay => "Previous play still processing."
    case TextWalletNotPrepared => "Could not prepare wallet."
    case TextInsufficientFunds => "You do not have enough balance for this bet."
    case TextDebitFailed => "Failed to process bet debit."
    case TextGameFailed => "Failed during game logic."
    case TextCreditFailed => "Failed to credit winnings."
    case TextRoundBalanceFailed => "Failed to retrieve balance state."
    case TextLockReleaseFailed => "Lock release failed, state may be inconsistent."
    case TextBadGetBalancePayload => "Invalid get_balance payload format"
    case TextBalanceFailed => "Failed to retrieve balance."
    case TextBadEndPlayPayload => "Invalid end_play payload format"
    case TextFinalBalanceFailed => "Failed to retrieve final balance."
    case TextBetNotPositive => "Bet amount must be greater than zero."
    case TextBetTooHigh => "Bet amount exceeds maximum limit."
    case TextBadBetType => "Invalid bet type specified (must be 'lt7' or 'gt7')."
    case TextBadPlayRequest => "Invalid play request."
    case TextBadEnvelope => "Invalid message format"
    case TextUnknownType => "Unknown message type received."
  }

  /** The messages a step added: `r` extends `w`'s outbound sequence. */
  function Emitted(w: World, r: World): seq<ServerMessage>
    requires |w.out| <= |r.out|
  {
    r.out[|w.out|..]
  }

  // ---------------------------------------------------------------- validation

  datatype ValidationError =
    | ErrBetAmount     // amount not positive
    | ErrBetTooHigh    // amount above the configured maximum
    | ErrBetType       // neither "lt7" nor "gt7"
    | Unclassified     // any other error value

  /** The three checks on a play payload, in order; the first that fails is reported. */
  function ValidatePlayPayload(p: PlayPayload, maxBet: Int64): (r: Option<ValidationError>)
    ensures r == None <==> 0 < p.betAmount <= maxBet && Game.KnownBetType(p.betType)
    ensures r == Some(ErrBetAmount) <==> p.betAmount <= 0
    ensures r == Some(ErrBetTooHigh) <==> 0 < p.betAmount && maxBet < p.betAmount
    ensures r == Some(ErrBetType) <==> 0 < p.betAmount <= maxBet && !Game.KnownBetType(p.betType)
    ensures r != Some(Unclassified)
  {
    if p.betAmount <= 0 then Some(ErrBetAmount)
    else if p.betAmount > maxBet then Some(ErrBetTooHigh)
    else if p.betType != BetTypeLt7 && p.betType != BetTypeGt7 then Some(ErrBetType)
    else None
  }

  datatype CodedError = CodedError(code: ErrorCode, message: Text)

  /** The client-facing code and text for a validation error. */
  function ValidationErrorToCode(e: ValidationError): (r: CodedError)
    ensures r.code == BadRequest <==> e == Unclassified
    ensures e == ErrBetAmount ==> r.code == InvalidBet
    ensures e == ErrBetTooHigh ==> r.code == BetTooHigh
    ensures e == ErrBetType ==> r.code == InvalidBetType
  {
    match e
    case ErrBetAmount => CodedError(InvalidBet, TextBetNotPositive)
    case ErrBetTooHigh => CodedError(BetTooHigh, TextBetTooHigh)
    case ErrBetType => CodedError(InvalidBetType, TextBadBetType)
    case Unclassified => CodedError(BadRequest, TextBadPlayRequest)
  }

  /** A validated play never meets the game service's own bet-type error. */
  lemma ValidPlayResolves(p: PlayPayload, maxBet: Int64, die1: Game.Die, die2: Game.Die)
    requires ValidatePlayPayload(p, maxBet) == None
    ensures Game.PlayRound(p.betType, p.betAmount, die1, die2).Ok?
  {
  }

  /** The client id carried by a message of a known type whose payload decodes. */
  function ExtractClientID(msgType: string, payload: Payload): (r: Option<string>)
    ensures r.Some? ==> msgType == MsgTypePlay || msgType == MsgTypeGetBalance || msgType == MsgTypeEndPlay
    ensures msgType == MsgTypePlay ==>
              r == (if DecodePlay(payload).Some? then Some(DecodePlay(payload).value.clientId) else None)
    ensures msgType == MsgTypeGetBalance || msgType == MsgTypeEndPlay ==> r == DecodeClientId(payload)
  {
    if msgType == MsgTypePlay then
      match DecodePlay(payload)
      case Some(p) => Some(p.clientId)
      case None => None
    else if msgType == MsgTypeGetBalance || msgType == MsgTypeEndPlay then
      DecodeClientId(payload)
    else None
  }

  /** The handlers' identity check: no id bound to the connection, or the
      payload names another client. */
  predicate IdMismatch(bound: string, payloadId: string) {
    bound == "" || payloadId != bound
  }

  // ---------------------------------------------------------------- locking

  /** The lock-store key that marks a play in progress for a client. */
  function ActivePlayKey(clientId: string): (k: string)
    ensures |k| == |RedisKeyPrefixActivePlay| + |clientId|
    ensures k[..|RedisKeyPrefixActivePlay|] == RedisKeyPrefixActivePlay
    ensures k[|RedisKeyPrefixActivePlay|..] == clientId
  {
    RedisKeyPrefixActivePlay + clientId
  }

  /** Distinct clients never contend for the same lock key. */
  lemma ActivePlayKeyInjective(a: string, b: string)
    requires ActivePlayKey(a) == ActivePlayKey(b)
    ensures a == b
  {
    assert a == ActivePlayKey(a)[|RedisKeyPrefixActivePlay|..];
  }

  /** The deferred release: DEL the key; a failed DEL leaves the key in place
      and tells the client. */
  function ReleaseLock(w: World, key: string, releaseOk: bool): (r: World)
    ensures r.wallets == w.wallets
    ensures releaseOk ==> r.locks == w.locks - {key} && r.out == w.out
    ensures !releaseOk ==> r.locks == w.locks
    ensures !releaseOk ==> r.out == w.out + [ErrorMessage(FailedLockRelease, TextLockReleaseFailed)]
  {
    if releaseOk then w.(locks := w.locks - {key})
    else SendError(w, FailedLockRelease, TextLockReleaseFailed)
  }

  // ---------------------------------------------------------------- play

  /** Whether a play passes every check before the lock is taken: the payload
      decodes, the id matches, the bet is valid, and the lock is acquired. */
  predicate Admitted(w: World, payload: Payload, clientID: string, maxBet: Int64, o: Oracle) {
    && DecodePlay(payload).Some?
    && !IdMismatch(clientID, DecodePlay(payload).value.clientId)
    && ValidatePlayPayload(DecodePlay(payload).value, maxBet) == None
    && o.lockStoreOk
    && ActivePlayKey(clientID) !in w.locks
  }

  /** The rejection a play meets before the lock is held, if any. */
  function PlayGate(w: World, payload: Payload, clientID: string, maxBet: Int64, o: Oracle): (r: Option<CodedError>)
    ensures r.None? <==> Admitted(w, payload, clientID, maxBet, o)
    ensures DecodePlay(payload).None? ==> r == Some(CodedError(BadRequest, TextBadPlayPayload))
    ensures DecodePlay(payload).Some? && IdMismatch(clientID, DecodePlay(payload).value.clientId) ==>
              r == Some(CodedError(BadRequest, TextIdMismatch))
    ensures DecodePlay(payload).Some? && !IdMismatch(clientID, DecodePlay(payload).value.clientId)
            && ValidatePlayPayload(DecodePlay(payload).value, maxBet).Some? ==>
              r == Some(ValidationErrorToCode(ValidatePlayPayload(DecodePlay(payload).value, maxBet).value))
    ensures DecodePlay(payload).Some? && !IdMismatch(clientID, DecodePlay(payload).value.clientId)
            && ValidatePlayPayload(DecodePlay(payload).value, maxBet).None? ==>
              (!o.lockStoreOk ==> r.Some? && r.value.code == InternalError)
              && (o.lockStoreOk && ActivePlayKey(clientID) in w.locks ==> r.Some? && r.value.code == ActivePlayExists)
  {
    match DecodePlay(payload)
    case None => Some(CodedError(BadRequest, TextBadPlayPayload))
    case Some(p) =>
      if IdMismatch(clientID, p.clientId) then Some(CodedError(BadRequest, TextIdMismatch))
      else match ValidatePlayPayload(p, maxBet)
        case Some(e) => Some(ValidationErrorToCode(e))
        case None =>
          if !o.lockStoreOk then Some(CodedError(InternalError, TextLockCheckFailed))
          else if ActivePlayKey(clientID) in w.locks then
            Some(CodedError(ActivePlayExists, TextActivePlay))
          else None
  }

  /** The game service's answer: the resolver's result, unless the service fails. */
  function ResolveRound(p: PlayPayload, o: Oracle): (r: Option<Game.GameResult>)
    ensures r.Some? ==> !o.gameFails && Game.PlayRound(p.betType, p.betAmount, o.die1, o.die2) == Game.Ok(r.value)
    ensures r.None? ==> o.gameFails || Game.PlayRound(p.betType, p.betAmount, o.die1, o.die2).Err?
  {
    if o.gameFails then None
    else match Game.PlayRound(p.betType, p.betAmount, o.die1, o.die2)
      case Ok(g) => Some(g)
      case Err(_) => None
  }

  /** Some message is a play_result. */
  predicate HasResult(e: seq<ServerMessage>) {
    exists j :: 0 <= j < |e| && e[j].PlayResult?
  }

  /** Every balance_update directly follows a play_result and carries a known
      (non-negative) balance. */
  ghost predicate BalanceAfterResult(e: seq<ServerMessage>) {
    && (|e| > 0 ==> !e[0].BalanceUpdate?)
    && (forall i, j :: 0 <= i < j < |e| && j == i + 1 && e[j].BalanceUpdate? ==> e[i].PlayResult?)
    && (forall j :: 0 <= j < |e| && e[j].BalanceUpdate? ==> e[j].balance >= 0)
  }

  /** Every message is an error. */
  predicate OnlyErrors(e: seq<ServerMessage>) {
    forall j :: 0 <= j < |e| ==> e[j].ErrorMessage?
  }

  /** Every error message carries one of the `allowed` codes. */
  predicate CodesIn(e: seq<ServerMessage>, allowed: set<ErrorCode>) {
    forall j :: 0 <= j < |e| && e[j].ErrorMessage? ==> e[j].code in allowed
  }

  lemma CodesInAppend(a: seq<ServerMessage>, b: seq<ServerMessage>, allowed: set<ErrorCode>)
    requires CodesIn(a, allowed) && CodesIn(b, allowed)
    ensures CodesIn(a + b, allowed)
  {
    forall j | 0 <= j < |a + b| && (a + b)[j].ErrorMessage?
      ensures (a + b)[j].code in allowed
    {
      if j >= |a| {
        assert (a + b)[j] == b[j - |a|];
      }
    }
  }

  /** Errors before a reply, or after it, keep every balance_update right
      behind its play_result. */
  lemma ErrorsAroundReply(before: seq<ServerMessage>, reply: seq<ServerMessage>, after: seq<ServerMessage>)
    requires OnlyErrors(before) && OnlyErrors(after) && BalanceAfterResult(reply)
    ensures BalanceAfterResult(before + reply + after)
  {
    var e := before + reply + after;
    forall j | 0 <= j < |e| && e[j].BalanceUpdate?
      ensures |before| <= j < |before| + |reply| && e[j] == reply[j - |before|]
    {
    }
    forall i, j | 0 <= i < j < |e| && j == i + 1 && e[j].BalanceUpdate?
      ensures e[i].PlayResult?
    {
      assert e[j] == reply[j - |before|];
      assert e[i] == reply[i - |before|];
    }
  }

  /** What one stage of a play leaves behind: the table and the messages it sent. */
  datatype Reply = Reply(wallets: Wallet.Wallets, msgs: seq<ServerMessage>)

  /** The reply to a resolved round: the result, then the balance when it is known (>= 0). */
  function Report(clientID: string, p: PlayPayload, g: Game.GameResult, finalBalance: Int64): (r: seq<ServerMessage>)
    ensures |r| >= 1 && r[0] == PlayResult(clientID, g.die1, g.die2, g.outcome, p.betAmount, g.winnings)
    ensures |r| == 2 <==> finalBalance >= 0
    ensures |r| == 2 ==> r[1] == BalanceUpdate(clientID, finalBalance)
    ensures |r| <= 2 && BalanceAfterResult(r)
  {
    [PlayResult(clientID, g.die1, g.die2, g.outcome, p.betAmount, g.winnings)]
      + (if finalBalance >= 0 then [BalanceUpdate(clientID, finalBalance)] else [])
  }

  /** What a failed balance read hands back: zero. */
  function BalanceOrZero(r: Wallet.Result<Int64>): Int64 {
    if r.Ok? then r.value else 0
  }

  /** After a resolved round: credit stake plus winnings on a win, otherwise
      read the balance; then report. */
  function Settle(wallets: Wallet.Wallets, p: PlayPayload, clientID: string, g: Game.GameResult, o: Oracle): (r: Reply)
    ensures Wallet.SameExcept(wallets, r.wallets, clientID)
    ensures Wallet.NonNegative(wallets) ==> Wallet.NonNegative(r.wallets)
    ensures g.winnings <= 0 ==> r.wallets == wallets
    ensures PlayResult(clientID, g.die1, g.die2, g.outcome, p.betAmount, g.winnings) in r.msgs
    ensures BalanceAfterResult(r.msgs)
    ensures CodesIn(r.msgs, {InternalError})
  {
    if g.winnings > 0 then
      var credit := Wallet.UpdateBalance(wallets, clientID, Add64(p.betAmount, g.winnings), o.credit);
      match credit.result
      case Ok(balance) => Reply(credit.wallets, Report(clientID, p, g, balance))
      case Err(_) =>
        // The debit stands; the follow-up read's error is ignored, so a failed
        // read reports a balance of 0.
        var shown := BalanceOrZero(Wallet.GetBalance(wallets, clientID, o.readOk));
        ErrorsAroundReply([ErrorMessage(InternalError, TextCreditFailed)], Report(clientID, p, g, shown), []);
        Reply(wallets, [ErrorMessage(InternalError, TextCreditFailed)] + Report(clientID, p, g, shown))
    else
      match Wallet.GetBalance(wallets, clientID, o.readOk)
      case Ok(balance) => Reply(wallets, Report(clientID, p, g, balance))
      case Err(_) =>
        ErrorsAroundReply([ErrorMessage(InternalError, TextRoundBalanceFailed)], Report(clientID, p, g, -1), []);
        Reply(wallets, [ErrorMessage(InternalError, TextRoundBalanceFailed)] + Report(clientID, p, g, -1))
  }

  /** The table once the play's wallet is ensured (read only when the INSERT succeeds). */
  function EnsuredWallets(wallets: Wallet.Wallets, clientID: string): Wallet.Wallets {
    Wallet.EnsureWalletExists(wallets, clientID, true).wallets
  }

  /** The debit transaction a play runs once its wallet is ensured. */
  function Debit(wallets: Wallet.Wallets, p: PlayPayload, clientID: string, o: Oracle): Wallet.Effect<Int64>
    requires p.betAmount > 0
  {
    Wallet.UpdateBalance(EnsuredWallets(wallets, clientID), clientID, -p.betAmount, o.debit)
  }

  /** After a committed debit: resolve the round, then settle it, or
      compensate a game failure by crediting the stake back. */
  function AfterDebit(wallets: Wallet.Wallets, p: PlayPayload, clientID: string, o: Oracle): (r: Reply)
    ensures Wallet.SameExcept(wallets, r.wallets, clientID)
    ensures Wallet.NonNegative(wallets) ==> Wallet.NonNegative(r.wallets)
    ensures BalanceAfterResult(r.msgs) && |r.msgs| >= 1
    ensures CodesIn(r.msgs, {InternalError})
    ensures ResolveRound(p, o).None? ==>
              && r.msgs == [ErrorMessage(InternalError, TextGameFailed)]
              && r.wallets == Wallet.UpdateBalance(wallets, clientID, p.betAmount, o.refund).wallets
    ensures ResolveRound(p, o).Some? ==>
              var g := ResolveRound(p, o).value;
              PlayResult(clientID, g.die1, g.die2, g.outcome, p.betAmount, g.winnings) in r.msgs
  {
    match ResolveRound(p, o)
    case None =>
      // The error is sent first; a failed refund is only logged.
      Reply(Wallet.UpdateBalance(wallets, clientID, p.betAmount, o.refund).wallets,
            [ErrorMessage(InternalError, TextGameFailed)])
    case Some(g) => Settle(wallets, p, clientID, g, o)
  }

  /** The body of a play while its lock is held: ensure the wallet, debit the
      stake, then resolve. */
  function PlayLocked(wallets: Wallet.Wallets, p: PlayPayload, clientID: string, o: Oracle): (r: Reply)
    requires p.betAmount > 0
    ensures Wallet.SameExcept(wallets, r.wallets, clientID)
    ensures Wallet.NonNegative(wallets) ==> Wallet.NonNegative(r.wallets)
    ensures BalanceAfterResult(r.msgs) && |r.msgs| >= 1
    ensures CodesIn(r.msgs, {InternalError, InsufficientFunds})
    // No committed debit: one error, no result, and at most the new wallet row.
    ensures !o.ensureOk ==>
              r.wallets == wallets && r.msgs == [ErrorMessage(InternalError, TextWalletNotPrepared)]
    ensures o.ensureOk && Debit(wallets, p, clientID, o).result.Err? ==>
              r.wallets == EnsuredWallets(wallets, clientID) && |r.msgs| == 1 && r.msgs[0].ErrorMessage?
    ensures o.ensureOk && Debit(wallets, p, clientID, o).result == Wallet.Err(Wallet.InsufficientFunds) ==>
              r.msgs == [ErrorMessage(InsufficientFunds, TextInsufficientFunds)]
    ensures o.ensureOk && Debit(wallets, p, clientID, o).result.Err? && Debit(wallets, p, clientID, o).result.error != Wallet.InsufficientFunds ==>
              r.msgs == [ErrorMessage(InternalError, TextDebitFailed)]
    // A committed debit hands over to the resolver.
    ensures o.ensureOk && Debit(wallets, p, clientID, o).result.Ok? ==>
              r == AfterDebit(Debit(wallets, p, clientID, o).wallets, p, clientID, o)
  {
    if !o.ensureOk then
      // EnsureWalletExists failed and changed nothing.
      Reply(wallets, [ErrorMessage(InternalError, TextWalletNotPrepared)])
    else
      var debit := Debit(wallets, p, clientID, o);
      if debit.result.Ok? then AfterDebit(debit.wallets, p, clientID, o)
      else if debit.result.error == Wallet.InsufficientFunds then
        Reply(debit.wallets, [ErrorMessage(InsufficientFunds, TextInsufficientFunds)])
      else Reply(debit.wallets, [ErrorMessage(InternalError, TextDebitFailed)])
  }

  /** The error codes a play can send. */
  const PlayCodes: set<ErrorCode> :=
    {BadRequest, InvalidBet, BetTooHigh, InvalidBetType, InternalError, ActivePlayExists,
     InsufficientFunds, FailedLockRelease}

  /** Take the lock, run the body, then the deferred release, which runs
      after the body's messages are sent. */
  function WithLock(w: World, p: PlayPayload, clientID: string, o: Oracle): (r: World)
    requires p.betAmount > 0 && ActivePlayKey(clientID) !in w.locks
    ensures var body := PlayLocked(w.wallets, p, clientID, o);
            && r.wallets == body.wallets
            && r.out == w.out + body.msgs
               + (if o.releaseOk then [] else [ErrorMessage(FailedLockRelease, TextLockReleaseFailed)])
    // The key is released on every path, unless the DEL itself fails.
    ensures r.locks == (if o.releaseOk then w.locks else w.locks + {ActivePlayKey(clientID)})
    ensures BalanceAfterResult(Emitted(w, r))
    ensures CodesIn(Emitted(w, r), PlayCodes)
  {
    var key := ActivePlayKey(clientID);
    var body := PlayLocked(w.wallets, p, clientID, o);
    var held := World(body.wallets, w.locks + {key}, w.out + body.msgs);
    var r := ReleaseLock(held, key, o.releaseOk);
    var tail := if o.releaseOk then [] else [ErrorMessage(FailedLockRelease, TextLockReleaseFailed)];
    assert r.out == w.out + body.msgs + tail;
    assert Emitted(w, r) == body.msgs + tail;
    ErrorsAroundReply([], body.msgs, tail);
    assert [] + body.msgs + tail == body.msgs + tail;
    CodesInAppend(body.msgs, tail, PlayCodes);
    r
  }

  /** handlePlay: the checks before the lock, then the locked play. */
  function HandlePlay(w: World, payload: Payload, clientID: string, maxBet: Int64, o: Oracle): (r: World)
    ensures w.out <= r.out && |r.out| > |w.out|
    ensures Wallet.SameExcept(w.wallets, r.wallets, clientID)
    ensures Wallet.NonNegative(w.wallets) ==> Wallet.NonNegative(r.wallets)
    ensures r.locks - {ActivePlayKey(clientID)} == w.locks - {ActivePlayKey(clientID)}
    ensures BalanceAfterResult(Emitted(w, r))
    ensures CodesIn(Emitted(w, r), PlayCodes)
    // Rejected before the lock: one error message and nothing else changes.
    ensures !Admitted(w, payload, clientID, maxBet, o) ==>
              && r.wallets == w.wallets && r.locks == w.locks
              && r.out == w.out + [ErrorMessage(PlayGate(w, payload, clientID, maxBet, o).value.code,
                                                PlayGate(w, payload, clientID, maxBet, o).value.message)]
    // Admitted: the lock is held for the body and released afterwards.
    ensures Admitted(w, payload, clientID, maxBet, o) ==>
              r == WithLock(w, DecodePlay(payload).value, clientID, o)
  {
    match PlayGate(w, payload, clientID, maxBet, o)
    case Some(e) =>
      assert Emitted(w, SendError(w, e.code, e.message)) == [ErrorMessage(e.code, e.message)];
      SendError(w, e.code, e.message)
    case None => WithLock(w, DecodePlay(payload).value, clientID, o)
  }

  // ---------------------------------------------------------------- play properties

  /** The conditions under which a well-formed, valid play from `clientID`
      passes every check and takes the lock. */
  predicate ValidPlay(w: World, clientID: string, amount: Int64, betType: string, maxBet: Int64, o: Oracle) {
    && clientID != ""
    && ValidatePlayPayload(PlayPayload(clientID, amount, betType), maxBet) == None
    && o.lockStoreOk
    && ActivePlayKey(clientID) !in w.locks
  }

  /** While another play of the same client holds the lock, a new play is
      refused with ACTIVE_PLAY_EXISTS and changes nothing. */
  lemma ConcurrentPlayRejected(w: World, clientID: string, amount: Int64, betType: string, maxBet: Int64, o: Oracle)
    requires clientID != "" && ValidatePlayPayload(PlayPayload(clientID, amount, betType), maxBet) == None
    requires o.lockStoreOk && ActivePlayKey(clientID) in w.locks
    ensures var r := HandlePlay(w, Full(clientID, amount, betType), clientID, maxBet, o);
            r.wallets == w.wallets && r.locks == w.locks
            && r.out == w.out + [ErrorMessage(ActivePlayExists, TextActivePlay)]
  {
  }

  /** A stake above the balance is refused with INSUFFICIENT_FUNDS: the
      balance is untouched, no round is played, and the lock is released. */
  lemma InsufficientFundsPlay(w: World, clientID: string, amount: Int64, betType: string, maxBet: Int64, o: Oracle)
    requires ValidPlay(w, clientID, amount, betType, maxBet, o)
    requires o.ensureOk && o.debit.beginOk && o.debit.selectOk && o.releaseOk
    requires clientID in w.wallets && 0 <= w.wallets[clientID] < amount
    ensures var r := HandlePlay(w, Full(clientID, amount, betType), clientID, maxBet, o);
            && r.wallets == w.wallets && r.locks == w.locks
            && Emitted(w, r) == [ErrorMessage(InsufficientFunds, TextInsufficientFunds)]
            && !HasResult(Emitted(w, r))
  {
    var p := PlayPayload(clientID, amount, betType);
    assert EnsuredWallets(w.wallets, clientID) == w.wallets;
    assert Add64(w.wallets[clientID], -amount) == w.wallets[clientID] - amount;
    assert Debit(w.wallets, p, clientID, o).result == Wallet.Err(Wallet.InsufficientFunds);
    var r := HandlePlay(w, Full(clientID, amount, betType), clientID, maxBet, o);
    assert r.out == w.out + [ErrorMessage(InsufficientFunds, TextInsufficientFunds)];
    assert Emitted(w, r) == [ErrorMessage(InsufficientFunds, TextInsufficientFunds)];
  }

  /** Settling a resolved round with a healthy credit and read: a win moves
      the balance up by stake plus winnings, a loss leaves it. */
  lemma SettleHealthy(wallets: Wallet.Wallets, p: PlayPayload, clientID: string, g: Game.GameResult, o: Oracle,
                      final: Int64)
    requires Wallet.Healthy(o.credit) && o.readOk
    requires clientID in wallets && wallets[clientID] >= 0 && p.betAmount > 0
    requires g.outcome == Game.Win ==> g.winnings == p.betAmount
    requires g.outcome == Game.Lose ==> g.winnings == 0
    requires final == if g.outcome == Game.Win then wallets[clientID] + 2 * p.betAmount else wallets[clientID]
    ensures Settle(wallets, p, clientID, g, o) == Reply(wallets[clientID := final], Report(clientID, p, g, final))
  {
    if g.outcome == Game.Win {
      assert Add64(p.betAmount, g.winnings) == 2 * p.betAmount;
      assert Add64(wallets[clientID], 2 * p.betAmount) == final;
    } else {
      assert wallets[clientID := final] == wallets;
    }
  }

  /** The locked body of a play on which every storage call answers: the
      stake leaves the ensured balance `b`, and the round settles at b - A on
      a loss and at b + A on a win. */
  lemma PlayLockedHealthy(wallets: Wallet.Wallets, p: PlayPayload, clientID: string, maxBet: Int64, o: Oracle,
                          g: Game.GameResult, final: Int64)
    requires ValidatePlayPayload(p, maxBet) == None
    requires o.ensureOk && Wallet.Healthy(o.debit) && !o.gameFails && Wallet.Healthy(o.credit) && o.readOk
    requires Game.PlayRound(p.betType, p.betAmount, o.die1, o.die2) == Game.Ok(g)
    requires var b := EnsuredWallets(wallets, clientID)[clientID];
             && p.betAmount <= b
             && final == if g.outcome == Game.Win then b + p.betAmount else b - p.betAmount
    ensures PlayLocked(wallets, p, clientID, o)
              == Reply(EnsuredWallets(wallets, clientID)[clientID := final], Report(clientID, p, g, final))
  {
    var w0 := EnsuredWallets(wallets, clientID);
    var w1 := w0[clientID := w0[clientID] - p.betAmount];
    DebitCommits(wallets, p, clientID, o);
    assert Debit(wallets, p, clientID, o).result.Ok?;
    assert Debit(wallets, p, clientID, o).wallets == w1;
    assert PlayLocked(wallets, p, clientID, o) == AfterDebit(w1, p, clientID, o);
    AfterDebitSettles(w1, p, clientID, o, g);
    SettleHealthy(w1, p, clientID, g, o, final);
    assert Settle(w1, p, clientID, g, o) == Reply(w1[clientID := final], Report(clientID, p, g, final));
    assert w1[clientID := final] == w0[clientID := final];
  }

  /** A healthy debit of a stake the ensured balance covers commits b - A. */
  lemma DebitCommits(wallets: Wallet.Wallets, p: PlayPayload, clientID: string, o: Oracle)
    requires p.betAmount > 0 && Wallet.Healthy(o.debit)
    requires p.betAmount <= EnsuredWallets(wallets, clientID)[clientID]
    ensures var w0 := EnsuredWallets(wallets, clientID);
            Debit(wallets, p, clientID, o)
              == Wallet.Effect(Wallet.Ok(w0[clientID] - p.betAmount), w0[clientID := w0[clientID] - p.betAmount])
  {
    var w0 := EnsuredWallets(wallets, clientID);
    assert Add64(w0[clientID], -p.betAmount) == w0[clientID] - p.betAmount;
  }

  /** With the game service answering, a committed debit goes on to settle
      the round the dice decide. */
  lemma AfterDebitSettles(wallets: Wallet.Wallets, p: PlayPayload, clientID: string, o: Oracle, g: Game.GameResult)
    requires !o.gameFails && Game.PlayRound(p.betType, p.betAmount, o.die1, o.die2) == Game.Ok(g)
    ensures AfterDebit(wallets, p, clientID, o) == Settle(wallets, p, clientID, g, o)
  {
    assert ResolveRound(p, o) == Some(g);
  }

  /** The locked play on which every storage call and the release answer:
      the settled table, the lock released, the result and balance sent. */
  lemma WithLockHealthy(w: World, p: PlayPayload, clientID: string, maxBet: Int64, o: Oracle)
      returns (g: Game.GameResult, final: Int64)
    requires ValidatePlayPayload(p, maxBet) == None && ActivePlayKey(clientID) !in w.locks
    requires o.ensureOk && Wallet.Healthy(o.debit) && !o.gameFails && Wallet.Healthy(o.credit) && o.readOk
    requires o.releaseOk
    requires p.betAmount <= EnsuredWallets(w.wallets, clientID)[clientID]
    requires EnsuredWallets(w.wallets, clientID)[clientID] + p.betAmount <= MaxInt64
    ensures Game.PlayRound(p.betType, p.betAmount, o.die1, o.die2) == Game.Ok(g)
    ensures g.outcome == Game.Win ==> final == EnsuredWallets(w.wallets, clientID)[clientID] + p.betAmount
    ensures g.outcome != Game.Win ==> final == EnsuredWallets(w.wallets, clientID)[clientID] - p.betAmount
    ensures WithLock(w, p, clientID, o)
              == World(EnsuredWallets(w.wallets, clientID)[clientID := final], w.locks,
                       w.out + Report(clientID, p, g, final))
  {
    ValidPlayResolves(p, maxBet, o.die1, o.die2);
    g := Game.PlayRound(p.betType, p.betAmount, o.die1, o.die2).round;
    var b := EnsuredWallets(w.wallets, clientID)[clientID];
    final := if g.outcome == Game.Win then b + p.betAmount else b - p.betAmount;
    PlayLockedHealthy(w.wallets, p, clientID, maxBet, o, g, final);
  }

  /** Conservation: with every storage call answering, a client whose
      balance is `b` once the wallet exists ends a lost round at b - A and a
      won round at b - A + (A + A) = b + A, and hears the result followed by
      that balance. */
  lemma Conservation(w: World, clientID: string, amount: Int64, betType: string, maxBet: Int64, o: Oracle)
    requires ValidPlay(w, clientID, amount, betType, maxBet, o)
    requires o.ensureOk && Wallet.Healthy(o.debit) && !o.gameFails
    requires Wallet.Healthy(o.credit) && o.readOk && o.releaseOk
    requires var b := EnsuredWallets(w.wallets, clientID)[clientID];
             amount <= b && b + amount <= MaxInt64
    ensures Game.PlayRound(betType, amount, o.die1, o.die2).Ok?
    ensures var b := EnsuredWallets(w.wallets, clientID)[clientID];
            var g := Game.PlayRound(betType, amount, o.die1, o.die2).round;
            var final := if g.outcome == Game.Win then b + amount else b - amount;
            var r := HandlePlay(w, Full(clientID, amount, betType), clientID, maxBet, o);
            && r.wallets == EnsuredWallets(w.wallets, clientID)[clientID := final]
            && r.locks == w.locks
            && Emitted(w, r) == [PlayResult(clientID, o.die1, o.die2, g.outcome, amount, g.winnings),
                                 BalanceUpdate(clientID, final)]
  {
    var p := PlayPayload(clientID, amount, betType);
    assert Admitted(w, Full(clientID, amount, betType), clientID, maxBet, o);
    var g, final := WithLockHealthy(w, p, clientID, maxBet, o);
    var r := HandlePlay(w, Full(clientID, amount, betType), clientID, maxBet, o);
    assert r == WithLock(w, p, clientID, o);
    assert Emitted(w, r) == Report(clientID, p, g, final);
  }

  /** Compensation: when the game service fails after the debit committed,
      the client hears INTERNAL_ERROR, no round is reported, and a successful
      refund puts the balance back where it was before the bet. */
  lemma GameFailureRefunds(w: World, clientID: string, amount: Int64, betType: string, maxBet: Int64, o: Oracle)
    requires ValidPlay(w, clientID, amount, betType, maxBet, o)
    requires Wallet.NonNegative(w.wallets)
    requires o.ensureOk && Wallet.Healthy(o.debit) && o.gameFails && Wallet.Healthy(o.refund) && o.releaseOk
    requires amount <= EnsuredWallets(w.wallets, clientID)[clientID]
    ensures var r := HandlePlay(w, Full(clientID, amount, betType), clientID, maxBet, o);
            && r.wallets == EnsuredWallets(w.wallets, clientID)
            && r.locks == w.locks
            && Emitted(w, r) == [ErrorMessage(InternalError, TextGameFailed)]
            && !HasResult(Emitted(w, r))
  {
    var p := PlayPayload(clientID, amount, betType);
    var w0 := EnsuredWallets(w.wallets, clientID);
    assert Add64(w0[clientID], -amount) == w0[clientID] - amount;
    assert Debit(w.wallets, p, clientID, o).result.Ok?;
    Wallet.DebitThenRefund(w0, clientID, amount, o.debit, o.refund);
    var r := HandlePlay(w, Full(clientID, amount, betType), clientID, maxBet, o);
    assert r.out == w.out + [ErrorMessage(InternalError, TextGameFailed)];
    assert Emitted(w, r) == [ErrorMessage(InternalError, TextGameFailed)];
  }

  /** A failed credit of winnings leaves the debit in place; when the
      follow-up read fails too, its error is ignored and the client is told
      a balance of 0 after the win is reported. */
  lemma CreditFailureKeepsDebit(w: World, clientID: string, amount: Int64, betType: string, maxBet: Int64, o: Oracle)
    requires ValidPlay(w, clientID, amount, betType, maxBet, o)
    requires o.ensureOk && Wallet.Healthy(o.debit) && !o.gameFails && o.releaseOk
    requires Game.Predicts(betType, o.die1 + o.die2)
    requires !Wallet.Healthy(o.credit) && !o.readOk
    requires amount <= EnsuredWallets(w.wallets, clientID)[clientID]
    ensures var b := EnsuredWallets(w.wallets, clientID)[clientID];
            var r := HandlePlay(w, Full(clientID, amount, betType), clientID, maxBet, o);
            && r.wallets == EnsuredWallets(w.wallets, clientID)[clientID := b - amount]
            && Emitted(w, r) == [ErrorMessage(InternalError, TextCreditFailed),
                                 PlayResult(clientID, o.die1, o.die2, Game.Win, amount, amount),
                                 BalanceUpdate(clientID, 0)]
  {
    var p := PlayPayload(clientID, amount, betType);
    var w0 := EnsuredWallets(w.wallets, clientID);
    assert Add64(w0[clientID], -amount) == w0[clientID] - amount;
    var debit := Debit(w.wallets, p, clientID, o);
    assert debit.result.Ok? && debit.wallets == w0[clientID := w0[clientID] - amount];
    Game.PlayRoundFollowsRule(betType, amount, o.die1, o.die2);
    var g := Game.PlayRound(betType, amount, o.die1, o.die2).round;
    assert ResolveRound(p, o) == Some(g);
    var msgs := [ErrorMessage(InternalError, TextCreditFailed),
                 PlayResult(clientID, o.die1, o.die2, Game.Win, amount, amount),
                 BalanceUpdate(clientID, 0)];
    assert Settle(debit.wallets, p, clientID, g, o) == Reply(debit.wallets, msgs);
    var r := HandlePlay(w, Full(clientID, amount, betType), clientID, maxBet, o);
    assert r.out == w.out + msgs;
  }

  /** A failed credit of winnings whose follow-up read answers: the debit
      stands, and the client hears the error, the win, then b - A. */
  lemma CreditFailureReadAnswers(w: World, clientID: string, amount: Int64, betType: string, maxBet: Int64, o: Oracle)
    requires ValidPlay(w, clientID, amount, betType, maxBet, o)
    requires o.ensureOk && Wallet.Healthy(o.debit) && !o.gameFails && o.releaseOk
    requires Game.Predicts(betType, o.die1 + o.die2)
    requires !Wallet.Healthy(o.credit) && o.readOk
    requires amount <= EnsuredWallets(w.wallets, clientID)[clientID]
    ensures var b := EnsuredWallets(w.wallets, clientID)[clientID];
            var r := HandlePlay(w, Full(clientID, amount, betType), clientID, maxBet, o);
            && r.wallets == EnsuredWallets(w.wallets, clientID)[clientID := b - amount]
            && Emitted(w, r) == [ErrorMessage(InternalError, TextCreditFailed),
                                 PlayResult(clientID, o.die1, o.die2, Game.Win, amount, amount),
                                 BalanceUpdate(clientID, b - amount)]
  {
    var p := PlayPayload(clientID, amount, betType);
    var w0 := EnsuredWallets(w.wallets, clientID);
    assert Add64(w0[clientID], -amount) == w0[clientID] - amount;
    var debit := Debit(w.wallets, p, clientID, o);
    assert debit.result.Ok? && debit.wallets == w0[clientID := w0[clientID] - amount];
    Game.PlayRoundFollowsRule(betType, amount, o.die1, o.die2);
    var g := Game.PlayRound(betType, amount, o.die1, o.die2).round;
    assert ResolveRound(p, o) == Some(g);
    var msgs := [ErrorMessage(InternalError, TextCreditFailed),
                 PlayResult(clientID, o.die1, o.die2, Game.Win, amount, amount),
                 BalanceUpdate(clientID, w0[clientID] - amount)];
    assert Settle(debit.wallets, p, clientID, g, o) == Reply(debit.wallets, msgs);
    var r := HandlePlay(w, Full(clientID, amount, betType), clientID, maxBet, o);
    assert r.out == w.out + msgs;
  }

  /** A lost round whose balance read fails: the debit stands, the client
      hears INTERNAL_ERROR and then the loss, and no balance_update follows. */
  lemma LossReadFails(w: World, clientID: string, amount: Int64, betType: string, maxBet: Int64, o: Oracle)
    requires ValidPlay(w, clientID, amount, betType, maxBet, o)
    requires o.ensureOk && Wallet.Healthy(o.debit) && !o.gameFails && o.releaseOk
    requires !Game.Predicts(betType, o.die1 + o.die2)
    requires !o.readOk
    requires amount <= EnsuredWallets(w.wallets, clientID)[clientID]
    ensures var b := EnsuredWallets(w.wallets, clientID)[clientID];
            var r := HandlePlay(w, Full(clientID, amount, betType), clientID, maxBet, o);
            && r.wallets == EnsuredWallets(w.wallets, clientID)[clientID := b - amount]
            && Emitted(w, r) == [ErrorMessage(InternalError, TextRoundBalanceFailed),
                                 PlayResult(clientID, o.die1, o.die2, Game.Lose, amount, 0)]
  {
    var p := PlayPayload(clientID, amount, betType);
    var w0 := EnsuredWallets(w.wallets, clientID);
    assert Add64(w0[clientID], -amount) == w0[clientID] - amount;
    var debit := Debit(w.wallets, p, clientID, o);
    assert debit.result.Ok? && debit.wallets == w0[clientID := w0[clientID] - amount];
    Game.PlayRoundFollowsRule(betType, amount, o.die1, o.die2);
    var g := Game.PlayRound(betType, amount, o.die1, o.die2).round;
    assert ResolveRound(p, o) == Some(g);
    var msgs := [ErrorMessage(InternalError, TextRoundBalanceFailed),
                 PlayResult(clientID, o.die1, o.die2, Game.Lose, amount, 0)];
    assert Settle(debit.wallets, p, clientID, g, o) == Reply(debit.wallets, msgs);
    var r := HandlePlay(w, Full(clientID, amount, betType), clientID, maxBet, o);
    assert r.out == w.out + msgs;
  }

  // ---------------------------------------------------------------- get_balance

  /** handleGetBalance: create the wallet if needed, then report its balance. */
  function HandleGetBalance(w: World, payload: Payload, clientID: string, o: Oracle): (r: World)
    ensures r.locks == w.locks
    ensures |r.out| == |w.out| + 1 && w.out <= r.out
    // A good payload whose INSERT or read fails is an internal error, not a bad request.
    ensures DecodeClientId(payload).Some? && !IdMismatch(clientID, DecodeClientId(payload).value) && !o.ensureOk ==>
              r.wallets == w.wallets && r.out[|w.out|] == ErrorMessage(InternalError, TextWalletNotPrepared)
    ensures DecodeClientId(payload).Some? && !IdMismatch(clientID, DecodeClientId(payload).value)
            && o.ensureOk && !o.readOk ==>
              r.out[|w.out|] == ErrorMessage(InternalError, TextBalanceFailed)
    // A successful INSERT commits on its own: the row it creates stays even when the read then fails.
    ensures DecodeClientId(payload).Some? && !IdMismatch(clientID, DecodeClientId(payload).value) && o.ensureOk ==>
              r.wallets == (if clientID in w.wallets then w.wallets else w.wallets[clientID := DefaultInitialBalance])
    ensures CodesIn(Emitted(w, r), {BadRequest, InternalError})
    ensures Wallet.SameExcept(w.wallets, r.wallets, clientID)
    ensures Wallet.NonNegative(w.wallets) ==> Wallet.NonNegative(r.wallets)
    ensures DecodeClientId(payload).None? || IdMismatch(clientID, DecodeClientId(payload).value) ==>
              r.wallets == w.wallets && r.out[|w.out|].ErrorMessage? && r.out[|w.out|].code == BadRequest
    ensures r.out[|w.out|].BalanceUpdate? <==>
              DecodeClientId(payload).Some? && !IdMismatch(clientID, DecodeClientId(payload).value)
              && o.ensureOk && o.readOk
    ensures r.out[|w.out|].BalanceUpdate? ==>
              clientID in r.wallets && r.out[|w.out|] == BalanceUpdate(clientID, r.wallets[clientID])
              && (clientID !in w.wallets ==> r.wallets[clientID] == DefaultInitialBalance)
              && (clientID in w.wallets ==> r.wallets == w.wallets)
  {
    match DecodeClientId(payload)
    case None => SendError(w, BadRequest, TextBadGetBalancePayload)
    case Some(payloadId) =>
      if IdMismatch(clientID, payloadId) then SendError(w, BadRequest, TextIdMismatch)
      else
        var ensured := Wallet.EnsureWalletExists(w.wallets, clientID, o.ensureOk);
        if ensured.result.Err? then SendError(w, InternalError, TextWalletNotPrepared)
        else
          var w1 := w.(wallets := ensured.wallets);
          match Wallet.GetBalance(w1.wallets, clientID, o.readOk)
          case Err(_) => SendError(w1, InternalError, TextBalanceFailed)
          case Ok(balance) => Send(w1, BalanceUpdate(clientID, balance))
  }

  // ---------------------------------------------------------------- end_play

  /** Whether an end_play payload fails the handler's check: it does not
      decode, or it names another client than the bound one. */
  predicate EndPlayRefused(payload: Payload, clientID: string) {
    DecodeClientId(payload).None? || IdMismatch(clientID, DecodeClientId(payload).value)
  }

  /** The first half of handleEndPlay: report a bad payload or a mismatched
      id, and carry on either way. */
  function EndPlayCheck(w: World, payload: Payload, clientID: string): (r: World)
    ensures r.wallets == w.wallets && r.locks == w.locks && w.out <= r.out
    ensures !EndPlayRefused(payload, clientID) ==> r == w
    ensures EndPlayRefused(payload, clientID) ==>
              |r.out| == |w.out| + 1 && r.out[|w.out|].ErrorMessage?
              && r.out == w.out + [ErrorMessage(BadRequest, r.out[|w.out|].message)]
  {
    match DecodeClientId(payload)
    case None => SendError(w, BadRequest, TextBadEndPlayPayload)
    case Some(payloadId) =>
      if IdMismatch(clientID, payloadId) then SendError(w, BadRequest, TextIdMismatch)
      else w
  }

  /** The second half: read the balance without creating the wallet, and
      always send play_ended, with -1 after a failed read. */
  function EndPlayRead(w: World, clientID: string, o: Oracle): (r: World)
    ensures r.wallets == w.wallets && r.locks == w.locks
    ensures o.readOk && clientID in w.wallets ==> r.out == w.out + [PlayEnded(clientID, w.wallets[clientID])]
    ensures !(o.readOk && clientID in w.wallets) ==>
              r.out == w.out + [ErrorMessage(InternalError, TextFinalBalanceFailed), PlayEnded(clientID, -1)]
  {
    match Wallet.GetBalance(w.wallets, clientID, o.readOk)
    case Ok(balance) => Send(w, PlayEnded(clientID, balance))
    case Err(_) => Send(SendError(w, InternalError, TextFinalBalanceFailed), PlayEnded(clientID, -1))
  }

  /** handleEndPlay: the check, which never stops the handler, then the read. */
  function HandleEndPlay(w: World, payload: Payload, clientID: string, o: Oracle): (r: World)
    ensures r.wallets == w.wallets && r.locks == w.locks && w.out <= r.out
    ensures |r.out| == |w.out| + 1
                       + (if EndPlayRefused(payload, clientID) then 1 else 0)
                       + (if o.readOk && clientID in w.wallets then 0 else 1)
    ensures r.out[|r.out| - 1] ==
              PlayEnded(clientID, if o.readOk && clientID in w.wallets then w.wallets[clientID] else -1)
    // Before play_ended: only errors, one for a bad payload or id, one for a failed read.
    ensures OnlyErrors(r.out[|w.out|..|r.out| - 1])
    ensures CodesIn(Emitted(w, r), {BadRequest, InternalError})
    ensures EndPlayRefused(payload, clientID) ==> r.out[|w.out|].ErrorMessage? && r.out[|w.out|].code == BadRequest
    ensures !EndPlayRefused(payload, clientID) ==> CodesIn(Emitted(w, r), {InternalError})
    ensures !(o.readOk && clientID in w.wallets) ==>
              r.out[|r.out| - 2] == ErrorMessage(InternalError, TextFinalBalanceFailed)
    ensures o.readOk && clientID in w.wallets ==> CodesIn(Emitted(w, r), {BadRequest})
  {
    var w1 := EndPlayCheck(w, payload, clientID);
    var r := EndPlayRead(w1, clientID, o);
    var refused := EndPlayRefused(payload, clientID);
    var known := o.readOk && clientID in w.wallets;
    var bad := if refused then ErrorMessage(BadRequest, w1.out[|w.out|].message) else ErrorMessage(BadRequest, TextIdMismatch);
    var ended := PlayEnded(clientID, if known then w.wallets[clientID] else -1);
    assert r.out == w.out + (if refused then [bad] else [])
                    + (if known then [] else [ErrorMessage(InternalError, TextFinalBalanceFailed)]) + [ended];
    EndPlayShape(w, r, refused, known, bad, ended);
    r
  }

  /** The shape of what end_play sends: an optional BAD_REQUEST, an optional
      INTERNAL_ERROR, then play_ended. */
  lemma EndPlayShape(w: World, r: World, refused: bool, known: bool, bad: ServerMessage, ended: ServerMessage)
    requires bad.ErrorMessage? && bad.code == BadRequest && ended.PlayEnded?
    requires r.out == w.out + (if refused then [bad] else [])
                      + (if known then [] else [ErrorMessage(InternalError, TextFinalBalanceFailed)]) + [ended]
    ensures w.out <= r.out
    ensures |r.out| == |w.out| + 1 + (if refused then 1 else 0) + (if known then 0 else 1)
    ensures r.out[|r.out| - 1] == ended
    ensures OnlyErrors(r.out[|w.out|..|r.out| - 1])
    ensures CodesIn(Emitted(w, r), {BadRequest, InternalError})
    ensures refused ==> r.out[|w.out|].ErrorMessage? && r.out[|w.out|].code == BadRequest
    ensures !refused ==> CodesIn(Emitted(w, r), {InternalError})
    ensures !known ==> r.out[|r.out| - 2] == ErrorMessage(InternalError, TextFinalBalanceFailed)
    ensures known ==> CodesIn(Emitted(w, r), {BadRequest})
  {
    var failed := ErrorMessage(InternalError, TextFinalBalanceFailed);
    var e := (if refused then [bad] else []) + (if known then [] else [failed]) + [ended];
    assert r.out == w.out + e;
    assert Emitted(w, r) == e;
    assert r.out[|w.out|..|r.out| - 1] == e[..|e| - 1];
  }

}
