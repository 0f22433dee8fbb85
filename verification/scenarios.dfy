/** Concrete sessions: the protocol's worked examples, and the quirks of the
    id check and of end_play, replayed through the connection loop. */
module Scenarios {
  import opened Constants
  import Wallet
  import Game
  import opened Handler
  import opened Session

  const Committed: Wallet.Tx := Wallet.Tx(true, true, true, 1, true)

  /** Every external call answers normally and the dice show `d1` and `d2`. */
  function Calm(d1: Game.Die, d2: Game.Die): Oracle {
    Oracle(true, true, Committed, false, d1, d2, Committed, Committed, true, true)
  }

  const MaxBet: GoInt.Int64 := 250

  /** A first get_balance creates the wallet and reports the starting balance. */
  lemma FreshClientGetsStartingBalance()
    ensures var c := HandleClient(map[], {}, [Event(Message(MsgTypeGetBalance, IdOnly("alice")), Calm(1, 1))], MaxBet);
            c.world.out == [BalanceUpdate("alice", 500)] && c.world.wallets == map["alice" := 500]
  {
    var c0 := Conn(World(map[], {}, []), "", true);
    var e := Event(Message(MsgTypeGetBalance, IdOnly("alice")), Calm(1, 1));
    RunOne(c0, e, MaxBet);
    assert Rebind("", MsgTypeGetBalance, IdOnly("alice")) == "alice";
    var w1 := HandleGetBalance(c0.world, IdOnly("alice"), "alice", Calm(1, 1));
    assert w1 == World(map["alice" := 500], {}, [BalanceUpdate("alice", 500)]);
  }

  /** The round behind the two worked examples, with the lock held: alice,
      balance 500, stakes 50 on "lt7"; the table ends at 550 or 450. */
  lemma AliceStakesFifty(d1: Game.Die, d2: Game.Die) returns (g: Game.GameResult, final: GoInt.Int64)
    ensures Game.PlayRound(BetTypeLt7, 50, d1, d2) == Game.Ok(g)
    ensures final == if g.outcome == Game.Win then 550 else 450
    ensures WithLock(World(map["alice" := 500], {}, []), PlayPayload("alice", 50, BetTypeLt7), "alice", Calm(d1, d2))
         == World(map["alice" := final], {}, Report("alice", PlayPayload("alice", 50, BetTypeLt7), g, final))
  {
    var w0 := World(map["alice" := 500], {}, []);
    assert EnsuredWallets(w0.wallets, "alice") == map["alice" := 500];
    g, final := WithLockHealthy(w0, PlayPayload("alice", 50, BetTypeLt7), "alice", MaxBet, Calm(d1, d2));
    assert map["alice" := 500]["alice" := final] == map["alice" := final];
  }

  /** Balance 500, 50 on "lt7", any roll below seven (1 and 3, say): a win
      paid 1:1, balance 550, and the lock released. */
  lemma WinBelowSeven(d1: Game.Die, d2: Game.Die)
    requires d1 + d2 < 7
    ensures HandlePlay(World(map["alice" := 500], {}, []), Full("alice", 50, BetTypeLt7), "alice", MaxBet, Calm(d1, d2))
         == World(map["alice" := 550], {}, [PlayResult("alice", d1, d2, Game.Win, 50, 50), BalanceUpdate("alice", 550)])
  {
    var g, final := AliceStakesFifty(d1, d2);
    assert Admitted(World(map["alice" := 500], {}, []), Full("alice", 50, BetTypeLt7), "alice", MaxBet, Calm(d1, d2));
  }

  /** Balance 500, 50 on "lt7", any roll above seven (4 and 5, say): a loss,
      balance 450. */
  lemma LossAboveSeven(d1: Game.Die, d2: Game.Die)
    requires d1 + d2 > 7
    ensures HandlePlay(World(map["alice" := 500], {}, []), Full("alice", 50, BetTypeLt7), "alice", MaxBet, Calm(d1, d2))
         == World(map["alice" := 450], {}, [PlayResult("alice", d1, d2, Game.Lose, 50, 0), BalanceUpdate("alice", 450)])
  {
    var g, final := AliceStakesFifty(d1, d2);
    assert Admitted(World(map["alice" := 500], {}, []), Full("alice", 50, BetTypeLt7), "alice", MaxBet, Calm(d1, d2));
  }

  /** Balance 10, a bet of 50: INSUFFICIENT_FUNDS and the balance stays 10. */
  lemma StakeAboveBalance()
    ensures var c := HandleClient(map["alice" := 10], {},
                                  [Event(Message(MsgTypePlay, Full("alice", 50, BetTypeGt7)), Calm(6, 6))], MaxBet);
            && c.world.out == [ErrorMessage(InsufficientFunds, TextInsufficientFunds)]
            && c.world.wallets == map["alice" := 10]
            && c.world.locks == {}
  {
    var c0 := Conn(World(map["alice" := 10], {}, []), "", true);
    var p := PlayPayload("alice", 50, BetTypeGt7);
    RunOne(c0, Event(Message(MsgTypePlay, Full("alice", 50, BetTypeGt7)), Calm(6, 6)), MaxBet);
    assert Rebind("", MsgTypePlay, Full("alice", 50, BetTypeGt7)) == "alice";
    assert Admitted(c0.world, Full("alice", 50, BetTypeGt7), "alice", MaxBet, Calm(6, 6));
    assert GoInt.Add64(10, -50) == -40;
    assert Debit(c0.world.wallets, p, "alice", Calm(6, 6)).result == Wallet.Err(Wallet.InsufficientFunds);
    assert PlayLocked(c0.world.wallets, p, "alice", Calm(6, 6))
        == Reply(map["alice" := 10], [ErrorMessage(InsufficientFunds, TextInsufficientFunds)]);
  }

  /** A play while another connection of the same client holds the lock. */
  lemma SecondPlayWhileFirstInFlight()
    ensures var c := HandleClient(map["alice" := 500], {ActivePlayKey("alice")},
                                  [Event(Message(MsgTypePlay, Full("alice", 50, BetTypeLt7)), Calm(1, 3))], MaxBet);
            && c.world.out == [ErrorMessage(ActivePlayExists, TextActivePlay)]
            && c.world.wallets == map["alice" := 500]
  {
    var c0 := Conn(World(map["alice" := 500], {ActivePlayKey("alice")}, []), "", true);
    RunOne(c0, Event(Message(MsgTypePlay, Full("alice", 50, BetTypeLt7)), Calm(1, 3)), MaxBet);
    assert Rebind("", MsgTypePlay, Full("alice", 50, BetTypeLt7)) == "alice";
    assert PlayGate(c0.world, Full("alice", 50, BetTypeLt7), "alice", MaxBet, Calm(1, 3))
        == Some(CodedError(ActivePlayExists, TextActivePlay));
  }

  /** end_play reports the balance and closes: the get_balance after it is
      never read. */
  lemma EndPlayClosesConnection()
    ensures var c := HandleClient(map["alice" := 500], {},
                                  [Event(Message(MsgTypeEndPlay, IdOnly("alice")), Calm(1, 1)),
                                   Event(Message(MsgTypeGetBalance, IdOnly("alice")), Calm(1, 1))], MaxBet);
            c.world.out == [PlayEnded("alice", 500)] && !c.open
  {
    var c0 := Conn(World(map["alice" := 500], {}, []), "", true);
    var e1 := Event(Message(MsgTypeEndPlay, IdOnly("alice")), Calm(1, 1));
    var e2 := Event(Message(MsgTypeGetBalance, IdOnly("alice")), Calm(1, 1));
    EndPlayIsLast(c0, IdOnly("alice"), Calm(1, 1), [e2], MaxBet);
    assert [e1] + [e2] == [e1, e2];
    assert Rebind("", MsgTypeEndPlay, IdOnly("alice")) == "alice";
    assert MsgTypeEndPlay != MsgTypePlay && MsgTypeEndPlay != MsgTypeGetBalance;
  }

  /** A payload naming another client is not a mismatch: the session id is
      rebound to "bob" first, and bob's wallet is created and reported. */
  lemma PayloadIdTakesSessionOver()
    ensures var c := HandleClient(map["alice" := 500], {},
                                  [Event(Message(MsgTypeGetBalance, IdOnly("alice")), Calm(1, 1)),
                                   Event(Message(MsgTypeGetBalance, IdOnly("bob")), Calm(1, 1))], MaxBet);
            && c.world.out == [BalanceUpdate("alice", 500), BalanceUpdate("bob", 500)]
            && c.clientId == "bob"
  {
    var c0 := Conn(World(map["alice" := 500], {}, []), "", true);
    var e1 := Event(Message(MsgTypeGetBalance, IdOnly("alice")), Calm(1, 1));
    var e2 := Event(Message(MsgTypeGetBalance, IdOnly("bob")), Calm(1, 1));
    RunTwo(c0, e1, e2, MaxBet);
    assert Rebind("", MsgTypeGetBalance, IdOnly("alice")) == "alice";
    var c1 := Conn(World(map["alice" := 500], {}, [BalanceUpdate("alice", 500)]), "alice", true);
    assert Step(c0, e1, MaxBet) == c1;
    RunOne(c1, e2, MaxBet);
    assert Rebind("alice", MsgTypeGetBalance, IdOnly("bob")) == "bob";
    assert HandleGetBalance(c1.world, IdOnly("bob"), "bob", Calm(1, 1)).out
        == [BalanceUpdate("alice", 500), BalanceUpdate("bob", 500)];
  }

  /** Only an empty payload id is refused. */
  lemma EmptyPayloadIdRefused()
    ensures var c := HandleClient(map["alice" := 500], {},
                                  [Event(Message(MsgTypeGetBalance, IdOnly("alice")), Calm(1, 1)),
                                   Event(Message(MsgTypeGetBalance, IdOnly("")), Calm(1, 1))], MaxBet);
            c.world.out == [BalanceUpdate("alice", 500), ErrorMessage(BadRequest, TextIdMismatch)]
  {
    var c0 := Conn(World(map["alice" := 500], {}, []), "", true);
    var e1 := Event(Message(MsgTypeGetBalance, IdOnly("alice")), Calm(1, 1));
    var e2 := Event(Message(MsgTypeGetBalance, IdOnly("")), Calm(1, 1));
    RunTwo(c0, e1, e2, MaxBet);
    assert Rebind("", MsgTypeGetBalance, IdOnly("alice")) == "alice";
    var c1 := Conn(World(map["alice" := 500], {}, [BalanceUpdate("alice", 500)]), "alice", true);
    assert Step(c0, e1, MaxBet) == c1;
    RunOne(c1, e2, MaxBet);
    assert Rebind("alice", MsgTypeGetBalance, IdOnly("")) == "alice";
  }

  /** end_play from a client never seen before, with an undecodable payload:
      the bad payload is reported, processing carries on, the wallet is not
      created, and play_ended reports -1. */
  lemma EndPlayOfUnknownClient()
    ensures var c := HandleClient(map[], {}, [Event(Message(MsgTypeEndPlay, Garbled), Calm(1, 1))], MaxBet);
            && c.world.out == [ErrorMessage(BadRequest, TextBadEndPlayPayload),
                               ErrorMessage(InternalError, TextFinalBalanceFailed),
                               PlayEnded("", -1)]
            && c.world.wallets == map[]
  {
    var c0 := Conn(World(map[], {}, []), "", true);
    RunOne(c0, Event(Message(MsgTypeEndPlay, Garbled), Calm(1, 1)), MaxBet);
    assert Rebind("", MsgTypeEndPlay, Garbled) == "";
    assert MsgTypeEndPlay != MsgTypePlay && MsgTypeEndPlay != MsgTypeGetBalance;
  }
}
