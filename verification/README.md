# Dice game backend: ledger, round resolver and WebSocket protocol, in Dafny

This project models the core of a Go dice-game server.

- **Clients and connections.** Each client talks to the server over one WebSocket connection.
- **Messages.** A client sends `play`, `get_balance` and `end_play` messages and receives:
  - `play_result`, `balance_update` and `play_ended` messages;
  - `error` messages that carry a code.
- **Wallets.** Balances live in a `wallets` table, one row per client id. The first `get_balance` that passes the id check, or the first play admitted past the lock, creates the client's row with a balance of 500, provided its wallet INSERT succeeds. The row stays even if a later step of that request fails. `end_play` never creates a row, and neither does a request that is refused.
- **Locks.** A play runs under a per-client lock key, `active_play:<id>`, held in a lock store.
- **Rounds.** Two dice decide a round. A bet on `lt7` wins when the sum is below seven; a bet on `gt7` wins when it is above seven. Seven loses for both. A win pays 1:1.

The model is functional:

- `Handler.World` is the state one message acts on. It holds the wallets table, the set of lock keys held, and the messages sent so far on the connection.
- The per-message handlers are pure functions from one `World` to the next.
- `Handler.Oracle` carries every answer the outside world gives while one message is handled:
  - whether the lock store, the wallet INSERT and each balance read answer;
  - the faults of each balance transaction;
  - whether the game service fails;
  - the dice.

  So every path through the Go code, including every failure path, is the value of one function on one input.
- `Session.Run` is the connection loop over a sequence of already-decoded frames. The Go loop's read error is the end of that sequence.

Modules follow the Go packages:

- `GoInt` covers `int64` and Go's wrapping `+`.
- `Constants` covers `internal/constants`.
- `Wallet` covers `internal/wallet`.
- `Game` covers `internal/game`.
- `Handler` and `Session` cover `internal/handler`.
- `Scenarios` holds worked examples of the protocol, replayed through the model.

The Go behaviours below are modelled as written, not as one might expect them to work:

- **The session id is rebound from every message.** Each message whose payload decodes to a non-empty client id rebinds the connection's id before the handler's id check runs. So a payload naming another client takes the session over. Only an empty payload id is refused (`Session.IdCheckFailsIffEmpty`).
- **`end_play` carries on after a bad payload.** It reports a bad payload or a mismatched id and then continues anyway. It reads the balance without creating the wallet, so an unknown client gets `play_ended` with `-1`.
- **A failed credit keeps the debit.** When the credit of winnings fails, the debit stays committed. The follow-up read's error is discarded, so a failed read shows the client a balance of 0.
- **A failed refund is only logged.** When a refund after a game failure fails, nothing else happens; the debit stands.
- **The lock is released last.** The release is deferred, so it runs after the round's messages are sent. A failed `DEL` adds `FAILED_LOCK_RELEASE` at the end and leaves the key held.
- **`WALLET_NOT_FOUND` is never sent.** It is declared but no path sends it (`Session.NeverWalletNotFound`).

## Model

| member | source | states |
|---|---|---|
| GoInt.Add64 | dice_game_backend/internal/wallet/service.go:88 | Go's `int64` addition: the exact sum when it fits; otherwise the sum wrapped modulo 2^64, which is negative on overflow and non-negative on underflow |
| Wallet.EnsureWalletExists | dice_game_backend/internal/wallet/service.go:32-45 | succeeds iff the INSERT runs; creates the row with 500 only when the client has none; never touches another row; keeps every balance non-negative |
| Wallet.GetBalance | dice_game_backend/internal/wallet/service.go:47-62 | returns the row's balance iff the query answers and the row exists; not-found iff the query answers and there is no row; a storage error otherwise |
| Wallet.UpdateBalance | dice_game_backend/internal/wallet/service.go:66-119 | commits iff every transaction step answers, the row exists and the new balance is non-negative. A commit changes only that client's row, to the returned balance. Every failure, including insufficient funds (exactly when the new balance would be negative), leaves the table unchanged |
| Wallet.UpdateThenRead | dice_game_backend/internal/wallet/service.go:88-118 | a committed change of `delta` moves the balance by exactly `delta`, and a later read sees the new value |
| Wallet.EnsureIdempotent | dice_game_backend/internal/wallet/service.go:33-38 | ensuring a wallet twice leaves the same table as ensuring it once (ON CONFLICT DO NOTHING) |
| Wallet.FreshWalletBalance | dice_game_backend/internal/wallet/service.go:32-45 | a client without a row reads the starting balance of 500 once the wallet is ensured |
| Wallet.DebitThenRefund | dice_game_backend/internal/handler/handler.go:208-229 | a committed debit of A followed by a committed credit of A restores the table exactly |
| Wallet.ReplayNonNegative | dice_game_backend/internal/wallet/service.go:88-92 | no sequence of ledger calls, whatever the deltas and storage answers, commits a negative balance |
| Wallet.ReplayOtherClients | dice_game_backend/internal/wallet/service.go:94-98 | ledger calls that never name a client leave that client's row (presence and balance) as it was |
| Game.PlayRound | dice_game_backend/internal/game/service.go:19-62 | fails iff the bet type is neither `lt7` nor `gt7`; otherwise reports the dice and their sum. A sum of 7 loses with 0. Below 7, the round wins iff the bet is `lt7`; above 7, iff it is `gt7`. A win pays the stake and a loss pays 0 |
| Game.PlayRoundFollowsRule | dice_game_backend/internal/game/service.go:32-49 | the resolver agrees with the reference rule `Predicts`: a known bet wins exactly when its prediction about the sum holds, and the winnings are the stake exactly then |
| Game.MirrorDice | dice_game_backend/internal/game/service.go:32-49 | turning both dice over (d to 7 - d) swaps the outcomes of the two bets: a roll wins for `lt7` exactly when its mirror wins for `gt7` |
| Game.WinningsBounded | dice_game_backend/internal/game/service.go:30-49 | winnings lie between 0 and the stake |
| Handler.ValidatePlayPayload | dice_game_backend/internal/handler/handler.go:437-448 | passes iff 0 < amount <= max and the type is known. Otherwise it reports the first failing check in order: amount, then maximum, then type. Each error holds exactly when the checks before it pass and its own fails |
| Handler.ValidationErrorToCode | dice_game_backend/internal/handler/handler.go:458-469 | INVALID_BET, BET_TOO_HIGH and INVALID_BET_TYPE for the three validation errors; BAD_REQUEST exactly for any other error |
| Handler.ValidPlayResolves | dice_game_backend/internal/game/service.go:20-23 | a validated play never meets the game service's own bet-type error |
| Handler.ExtractClientID | dice_game_backend/internal/handler/handler.go:472-491 | an id only for `play`, `get_balance` and `end_play`: for `play`, the id when the payload decodes as a play payload; for the other two, the id when it decodes as `{clientId}` |
| Handler.ActivePlayKey | dice_game_backend/internal/handler/handler.go:176 | the key is the `active_play:` prefix followed by the client id, and the id can be read back from it |
| Handler.ActivePlayKeyInjective | dice_game_backend/internal/handler/handler.go:176 | distinct clients never share a lock key |
| Handler.ReleaseLock | dice_game_backend/internal/handler/handler.go:380-400 | a `DEL` that answers frees the key and sends nothing; one that fails keeps the key and sends FAILED_LOCK_RELEASE; wallets untouched |
| Handler.PlayGate | dice_game_backend/internal/handler/handler.go:148-187 | lets a play through iff it decodes, the id matches, the bet is valid and SETNX answers and wins. Otherwise it returns the first rejection in source order: BAD_REQUEST for an undecodable payload, BAD_REQUEST for an id mismatch, the validation code, INTERNAL_ERROR for an unreachable lock store, ACTIVE_PLAY_EXISTS for a held lock |
| Handler.ResolveRound | dice_game_backend/internal/handler/handler.go:220-221 | the round is resolved exactly when the game service does not fail and the resolver accepts the bet type |
| Handler.Report | dice_game_backend/internal/handler/handler.go:266-285 | `play_result` first, then `balance_update` exactly when the final balance is known (>= 0) |
| Handler.Settle | dice_game_backend/internal/handler/handler.go:233-264 | settling changes no other client's row and keeps balances non-negative; a round without winnings changes no row; the result is always reported, any balance_update follows it, and the only error code is INTERNAL_ERROR |
| Handler.AfterDebit | dice_game_backend/internal/handler/handler.go:220-231 | a game failure sends exactly INTERNAL_ERROR, reports no round, and leaves the table the refund leaves; a resolved round is reported |
| Handler.PlayLocked | dice_game_backend/internal/handler/handler.go:199-217 | a failed INSERT sends one INTERNAL_ERROR and changes nothing. A refused debit sends one error: INSUFFICIENT_FUNDS for insufficient funds, INTERNAL_ERROR otherwise. It leaves at most the new wallet row. A committed debit hands over to the resolver |
| Handler.WithLock | dice_game_backend/internal/handler/handler.go:189-197 | the lock is held for the body and released after it on every path; a failed `DEL` keeps the key and adds FAILED_LOCK_RELEASE after the body's messages |
| Handler.HandlePlay | dice_game_backend/internal/handler/handler.go:148-286 | always sends something and only appends. It changes only the playing client's row and lock key and never makes a balance negative. A rejection before the lock sends exactly the gate's error and changes nothing else. Every balance_update follows a play_result, and every error code is one a play can send |
| Handler.ConcurrentPlayRejected | dice_game_backend/internal/handler/handler.go:183-187 | a play while the client's lock is held gets ACTIVE_PLAY_EXISTS and changes nothing |
| Handler.InsufficientFundsPlay | dice_game_backend/internal/handler/handler.go:208-217 | a stake above the balance gets exactly INSUFFICIENT_FUNDS, no round is played, the balance is unchanged and the lock is released |
| Handler.SettleHealthy | dice_game_backend/internal/handler/handler.go:236-262 | with the credit and read answering, a win credits stake plus winnings and a loss leaves the balance; either way the round and the balance are reported |
| Handler.DebitCommits | dice_game_backend/internal/handler/handler.go:208 | a healthy debit of a covered stake commits b - A |
| Handler.AfterDebitSettles | dice_game_backend/internal/handler/handler.go:220-236 | with the game service answering, a committed debit goes on to settle the round the dice decide |
| Handler.PlayLockedHealthy | dice_game_backend/internal/handler/handler.go:199-264 | with every storage call answering, the locked body ends at b - A on a loss and b + A on a win and reports that balance |
| Handler.WithLockHealthy | dice_game_backend/internal/handler/handler.go:189-285 | the same for the whole locked play: the lock comes back free and the result and balance are sent |
| Handler.Conservation | dice_game_backend/internal/handler/handler.go:208-285 | a valid play on which every call answers moves the ensured balance by exactly the stake, up on a win and down on a loss. Only that row changes and the lock is released. The client hears the result and then that balance |
| Handler.GameFailureRefunds | dice_game_backend/internal/handler/handler.go:220-231 | when the game fails after the debit, the client hears only INTERNAL_ERROR, no round is reported, and a successful refund restores the ensured balance |
| Handler.CreditFailureReadAnswers | dice_game_backend/internal/handler/handler.go:243-249 | a failed credit of winnings whose follow-up read answers keeps the debit (b - A). The client hears INTERNAL_ERROR, then the win, then a balance_update of b - A |
| Handler.LossReadFails | dice_game_backend/internal/handler/handler.go:253-260 | a lost round whose balance read fails keeps the debit (b - A). The client hears INTERNAL_ERROR, then the loss, and no balance_update |
| Handler.CreditFailureKeepsDebit | dice_game_backend/internal/handler/handler.go:243-249 | a failed credit of winnings keeps the debit (b - A). The client hears INTERNAL_ERROR, then the win, then a balance of 0 when the follow-up read also fails |
| Handler.HandleGetBalance | dice_game_backend/internal/handler/handler.go:288-323 | sends exactly one message. A bad payload or id gets BAD_REQUEST and changes nothing. With a good payload and id, a failed INSERT gets INTERNAL_ERROR and changes nothing, and a failed read gets INTERNAL_ERROR. A successful INSERT leaves the row in place, holding 500 if it is new, even when the read then fails. A balance_update is sent iff the payload and id are good and the INSERT and read answer; it carries the row's balance, which is 500 for a new client |
| Handler.EndPlayCheck | dice_game_backend/internal/handler/handler.go:326-333 | a payload that does not decode, or an id mismatch, adds exactly one BAD_REQUEST; otherwise nothing is sent; either way the handler carries on |
| Handler.EndPlayRead | dice_game_backend/internal/handler/handler.go:340-358 | reads without creating the wallet: play_ended with the balance when the read answers and the row exists, otherwise INTERNAL_ERROR and then play_ended with -1 |
| Handler.HandleEndPlay | dice_game_backend/internal/handler/handler.go:325-359 | never touches the wallets or locks and always ends with play_ended (the balance, or -1). Before it come only errors: a BAD_REQUEST exactly when the payload does not decode or the id mismatches, and an INTERNAL_ERROR exactly when the balance cannot be read |
| Session.Rebind | dice_game_backend/internal/handler/handler.go:122-125 | the session id changes only to a non-empty id extracted from a play, get_balance or end_play message, and always does when one is there |
| Session.IdCheckFailsIffEmpty | dice_game_backend/internal/handler/handler.go:122-160 | after rebinding from the same message, the handlers' id check fails exactly when the payload's id is empty |
| Session.Step | dice_game_backend/internal/handler/handler.go:103-141 | dispatch on the message type. `play`, `get_balance` and `end_play` run their own handlers under the rebound id. Non-text frames are skipped; a malformed envelope gets BAD_REQUEST; an unknown type gets UNKNOWN_TYPE. Only end_play closes the loop. Messages are only appended, balances stay non-negative, and only the bound client's row and lock may change |
| Session.Run | dice_game_backend/internal/handler/handler.go:103-142 | the loop only appends to what it has sent, never commits a negative balance, and does nothing once stopped |
| Session.HandleClient | dice_game_backend/internal/handler/handler.go:95-145 | a whole connection keeps balances non-negative, sends only the codes of the handlers and the loop (never WALLET_NOT_FOUND), and, when every release answers, leaves the lock store as it found it |
| Session.StoppedIgnoresRest | dice_game_backend/internal/handler/handler.go:134-137 | once the loop has stopped, later frames change nothing |
| Session.EndPlayIsLast | dice_game_backend/internal/handler/handler.go:134-137 | end_play is the last message a connection processes |
| Session.FirstPlay | dice_game_backend/internal/handler/handler.go:99-131 | a fresh connection whose first frame is a play binds the payload's id, runs that play, and handles the remaining frames from there under that id |
| Session.RunSnoc | dice_game_backend/internal/handler/handler.go:103-142 | for every frame sequence, one more frame is handled exactly when the loop is still open after the earlier ones; a stopped loop ignores it |
| Session.RunReleasesLocks | dice_game_backend/internal/handler/handler.go:189-197 | when every release answers, a session leaves the lock store as it found it |
| Session.NeverWalletNotFound | dice_game_backend/internal/constants/constants.go:23 | every error a session sends carries a code other than WALLET_NOT_FOUND |
| Scenarios.FreshClientGetsStartingBalance | dice_game_backend/internal/handler/handler.go:306-322 | a first get_balance creates the wallet and reports 500 |
| Scenarios.AliceStakesFifty | dice_game_backend/internal/handler/handler.go:199-285 | balance 500, 50 on `lt7`, any dice: the locked play ends at 550 or 450 and reports it |
| Scenarios.WinBelowSeven | dice_game_backend/internal/game/service.go:35-38 | balance 500, 50 on `lt7`, a roll below seven: a win paying 50, balance 550, lock free |
| Scenarios.LossAboveSeven | dice_game_backend/internal/game/service.go:42-48 | balance 500, 50 on `lt7`, a roll above seven: a loss, balance 450 |
| Scenarios.StakeAboveBalance | dice_game_backend/internal/handler/handler.go:208-211 | balance 10, bet 50: INSUFFICIENT_FUNDS, balance stays 10, lock free |
| Scenarios.SecondPlayWhileFirstInFlight | dice_game_backend/internal/handler/handler.go:183-187 | a play while the lock is held: ACTIVE_PLAY_EXISTS and nothing else |
| Scenarios.EndPlayClosesConnection | dice_game_backend/internal/handler/handler.go:134-137 | end_play reports the balance and the get_balance after it is never read |
| Scenarios.PayloadIdTakesSessionOver | dice_game_backend/internal/handler/handler.go:122-125 | a get_balance naming "bob" on alice's connection is served for bob |
| Scenarios.EmptyPayloadIdRefused | dice_game_backend/internal/handler/handler.go:295-299 | a get_balance with an empty id is refused with the id-mismatch error |
| Scenarios.EndPlayOfUnknownClient | dice_game_backend/internal/handler/handler.go:325-345 | end_play with an undecodable payload from an unknown client: BAD_REQUEST, INTERNAL_ERROR, then play_ended with -1, and no wallet created |

## Left out

- JSON decoding: a payload is one of three decoded shapes (`Garbled`, `IdOnly`, `Full`). The byte-level codec and its zero-value defaults for missing fields are not modelled.
- WebSocket I/O: frames arrive already decoded. Write errors, which the code only logs, are taken to succeed. A read error ends the frame sequence, and closing the connection is not modelled.
- Timeouts and cancellation of every storage call are folded into that call's failure answer in `Oracle`.
- The lock's 15-second expiry in the lock store is not modelled: a key whose `DEL` failed stays held.
- Concurrency between connections and the database row lock (`FOR UPDATE`): each message is handled atomically on the shared state.
- The PRNG: the dice are a parameter of the event.
- Logging has no observable effect and is left out.
- Configuration: the maximum bet is a parameter; the server's default is 250.
- The currency column and the timestamps of the wallets table are not modelled.
- Error message texts are modelled as the `Text` constructors; `Handler.Wording` gives the wire strings. Message types are constructors of `ServerMessage`.
- Handler.Conservation: requires b + A to fit in `int64`. Beyond that, Go's addition wraps and `UpdateBalance` refuses the credit. `Wallet.UpdateBalance` models that path, but no lemma states it.
- Handler.Settle: the contract states invariants, not values. The exact values per branch are stated at the level of a whole play: `Handler.Conservation` when credit and read answer, `Handler.CreditFailureKeepsDebit` and `Handler.CreditFailureReadAnswers` when the credit fails, and `Handler.LossReadFails` when the read after a loss fails.
