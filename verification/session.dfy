/** The connection loop: read a frame, rebind the session's client id from
    it, dispatch on the message type, and stop after `end_play`. Frames arrive
    already decoded; a read error is the end of the frame sequence. */
module Session {
  import opened GoInt
  import opened Constants
  import Wallet
  import opened Handler

  /** One frame read from the connection. */
  datatype Frame =
    | NonText                                   // a binary or control frame: skipped
    | Malformed                                 // text that is not a {type, payload} envelope
    | Message(msgType: string, payload: Payload)

  /** A frame together with the external answers its handling meets. */
  datatype Event = Event(frame: Frame, env: Oracle)

  /** The connection: the shared state, the client id bound to the
      connection, and whether the loop still reads. */
  datatype Conn = Conn(world: World, clientId: string, open: bool)

  /** The error codes the loop itself adds to those of the handlers. */
  const SessionCodes: set<ErrorCode> := PlayCodes + {UnknownType}

  /** The session id after a message: replaced by the message's client id
      when one can be extracted and is non-empty, kept otherwise. */
  function Rebind(current: string, msgType: string, payload: Payload): (r: string)
    ensures r != current ==> r != "" && ExtractClientID(msgType, payload) == Some(r)
    ensures ExtractClientID(msgType, payload).Some? && ExtractClientID(msgType, payload).value != "" ==>
              r == ExtractClientID(msgType, payload).value
    ensures r != current ==> msgType == MsgTypePlay || msgType == MsgTypeGetBalance || msgType == MsgTypeEndPlay
  {
    match ExtractClientID(msgType, payload)
    case Some(id) => if id != "" then id else current
    case None => current
  }

  /** The handlers' id check, once the id has been rebound from the same
      message, fails exactly when the payload's clientId is empty: a payload
      naming another client is not a mismatch, it takes the session over. */
  lemma IdCheckFailsIffEmpty(current: string, msgType: string, payload: Payload)
    requires ExtractClientID(msgType, payload).Some?
    ensures var bound := Rebind(current, msgType, payload);
            (IdMismatch(bound, ExtractClientID(msgType, payload).value) <==> ExtractClientID(msgType, payload).value == "")
  {
  }

  /** One iteration of the loop. */
  function Step(c: Conn, e: Event, maxBet: Int64): (r: Conn)
    ensures r.open <==> c.open && !(e.frame.Message? && e.frame.msgType == MsgTypeEndPlay)
    ensures c.world.out <= r.world.out
    ensures CodesIn(Emitted(c.world, r.world), SessionCodes)
    ensures Wallet.NonNegative(c.world.wallets) ==> Wallet.NonNegative(r.world.wallets)
    ensures Wallet.SameExcept(c.world.wallets, r.world.wallets, r.clientId)
    ensures e.env.releaseOk ==> r.world.locks == c.world.locks
    ensures r.world.locks - {ActivePlayKey(r.clientId)} == c.world.locks - {ActivePlayKey(r.clientId)}
    ensures r.clientId == (if e.frame.Message? then Rebind(c.clientId, e.frame.msgType, e.frame.payload) else c.clientId)
    ensures e.frame.NonText? ==> r == c
    ensures e.frame.Malformed? ==>
              r == c.(world := SendError(c.world, BadRequest, TextBadEnvelope))
    ensures e.frame.Message? && e.frame.msgType !in {MsgTypePlay, MsgTypeGetBalance, MsgTypeEndPlay} ==>
              r == c.(world := SendError(c.world, UnknownType, TextUnknownType))
    // Each known type runs its own handler under the rebound id.
    ensures e.frame.Message? && e.frame.msgType == MsgTypePlay ==>
              r.world == HandlePlay(c.world, e.frame.payload, r.clientId, maxBet, e.env)
    ensures e.frame.Message? && e.frame.msgType == MsgTypeGetBalance ==>
              r.world == HandleGetBalance(c.world, e.frame.payload, r.clientId, e.env)
    ensures e.frame.Message? && e.frame.msgType == MsgTypeEndPlay ==>
              r.world == HandleEndPlay(c.world, e.frame.payload, r.clientId, e.env)
  {
    match e.frame
    case NonText => c
    case Malformed => c.(world := SendError(c.world, BadRequest, TextBadEnvelope))
    case Message(msgType, payload) =>
      var id := Rebind(c.clientId, msgType, payload);
      if msgType == MsgTypePlay then
        Conn(HandlePlay(c.world, payload, id, maxBet, e.env), id, c.open)
      else if msgType == MsgTypeGetBalance then
        Conn(HandleGetBalance(c.world, payload, id, e.env), id, c.open)
      else if msgType == MsgTypeEndPlay then
        Conn(HandleEndPlay(c.world, payload, id, e.env), id, false)
      else
        Conn(SendError(c.world, UnknownType, TextUnknownType), id, c.open)
  }

  /** The loop over the frames, stopping at the end of input or after end_play. */
  function Run(c: Conn, events: seq<Event>, maxBet: Int64): (r: Conn)
    // The loop only appends to what it has sent, and never commits a negative balance.
    ensures c.world.out <= r.world.out
    ensures Wallet.NonNegative(c.world.wallets) ==> Wallet.NonNegative(r.world.wallets)
    ensures !c.open ==> r == c
    decreases |events|
  {
    if !c.open || |events| == 0 then c
    else Run(Step(c, events[0], maxBet), events[1..], maxBet)
  }

  /** HandleClient: a fresh connection has no bound client id. */
  function HandleClient(wallets: Wallet.Wallets, locks: set<string>, events: seq<Event>, maxBet: Int64): (r: Conn)
    ensures Wallet.NonNegative(wallets) ==> Wallet.NonNegative(r.world.wallets)
    ensures CodesIn(r.world.out, SessionCodes) && WalletNotFound !in SessionCodes
    ensures (forall i :: 0 <= i < |events| ==> events[i].env.releaseOk) ==> r.world.locks == locks
  {
    var c0 := Conn(World(wallets, locks, []), "", true);
    NeverWalletNotFound(c0, events, maxBet);
    assert Emitted(c0.world, Run(c0, events, maxBet).world) == Run(c0, events, maxBet).world.out;
    if forall i :: 0 <= i < |events| ==> events[i].env.releaseOk then
      RunReleasesLocks(c0, events, maxBet);
      Run(c0, events, maxBet)
    else Run(c0, events, maxBet)
  }

  /** Unfolding the loop over one and over two frames. */
  lemma RunOne(c: Conn, e: Event, maxBet: Int64)
    requires c.open
    ensures Run(c, [e], maxBet) == Step(c, e, maxBet)
  {
    assert [e][1..] == [];
  }

  lemma RunTwo(c: Conn, e1: Event, e2: Event, maxBet: Int64)
    requires c.open
    ensures Run(c, [e1, e2], maxBet) == Run(Step(c, e1, maxBet), [e2], maxBet)
  {
    assert [e1, e2][1..] == [e2];
  }

  /** Once the loop has stopped, later frames are never processed. */
  lemma {:induction false} StoppedIgnoresRest(c: Conn, events: seq<Event>, later: seq<Event>, maxBet: Int64)
    requires !Run(c, events, maxBet).open
    ensures Run(c, events + later, maxBet) == Run(c, events, maxBet)
    decreases |events|
  {
    if c.open && |events| > 0 {
      assert (events + later)[0] == events[0];
      assert (events + later)[1..] == events[1..] + later;
      StoppedIgnoresRest(Step(c, events[0], maxBet), events[1..], later, maxBet);
    }
  }

  /** end_play is the last message a connection processes. */
  lemma EndPlayIsLast(c: Conn, payload: Payload, env: Oracle, later: seq<Event>, maxBet: Int64)
    requires c.open
    ensures var first := Event(Message(MsgTypeEndPlay, payload), env);
            Run(c, [first] + later, maxBet) == Step(c, first, maxBet)
            && !Step(c, first, maxBet).open
  {
    var first := Event(Message(MsgTypeEndPlay, payload), env);
    assert ([first] + later)[1..] == later;
  }

  /** A fresh session whose first frame is a play binds the payload's id,
      runs that play, and carries on with the remaining frames under that id. */
  lemma FirstPlay(wallets: Wallet.Wallets, locks: set<string>, payload: Payload, o: Oracle, later: seq<Event>, maxBet: Int64)
    requires payload.Full? && payload.clientId != ""
    ensures HandleClient(wallets, locks, [Event(Message(MsgTypePlay, payload), o)] + later, maxBet)
         == Run(Conn(HandlePlay(World(wallets, locks, []), payload, payload.clientId, maxBet, o), payload.clientId, true), later, maxBet)
  {
    var first := Event(Message(MsgTypePlay, payload), o);
    assert ([first] + later)[0] == first;
    assert ([first] + later)[1..] == later;
    assert Rebind("", MsgTypePlay, payload) == payload.clientId;
  }

  /** One more frame: an open loop goes on to handle it, a stopped one ignores it. */
  lemma {:induction false} RunSnoc(c: Conn, events: seq<Event>, e: Event, maxBet: Int64)
    ensures var s := Run(c, events, maxBet);
            Run(c, events + [e], maxBet) == if s.open then Step(s, e, maxBet) else s
    decreases |events|
  {
    if |events| == 0 {
      assert events + [e] == [e];
      if c.open {
        assert [e][1..] == [];
      }
    } else if c.open {
      assert (events + [e])[0] == events[0];
      assert (events + [e])[1..] == events[1..] + [e];
      RunSnoc(Step(c, events[0], maxBet), events[1..], e, maxBet);
    }
  }

  /** When every lock release answers, a session leaves the lock store
      holding exactly the keys it held before: no play leaves its lock behind. */
  lemma {:induction false} RunReleasesLocks(c: Conn, events: seq<Event>, maxBet: Int64)
    requires forall i :: 0 <= i < |events| ==> events[i].env.releaseOk
    ensures Run(c, events, maxBet).world.locks == c.world.locks
    decreases |events|
  {
    if c.open && |events| > 0 {
      RunReleasesLocks(Step(c, events[0], maxBet), events[1..], maxBet);
    }
  }

  /** The messages of consecutive stretches of the loop add up. */
  lemma EmittedChain(a: World, b: World, z: World)
    requires a.out <= b.out <= z.out
    ensures Emitted(a, z) == Emitted(a, b) + Emitted(b, z)
  {
  }

  /** WALLET_NOT_FOUND is declared but never sent: every error a session
      sends carries another code. */
  lemma {:induction false} NeverWalletNotFound(c: Conn, events: seq<Event>, maxBet: Int64)
    ensures CodesIn(Emitted(c.world, Run(c, events, maxBet).world), SessionCodes)
    ensures WalletNotFound !in SessionCodes
    decreases |events|
  {
    if c.open && |events| > 0 {
      var s := Step(c, events[0], maxBet);
      NeverWalletNotFound(s, events[1..], maxBet);
      var z := Run(s, events[1..], maxBet);
      EmittedChain(c.world, s.world, z.world);
      CodesInAppend(Emitted(c.world, s.world), Emitted(s.world, z.world), SessionCodes);
    } else {
      assert Emitted(c.world, c.world) == [];
    }
  }
}
