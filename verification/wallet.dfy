/** The wallets table and the three ledger operations over it. Each storage
    round trip whose answer the code cannot predict (the INSERT, a SELECT, the
    steps of the balance transaction) becomes a parameter that says whether it
    succeeded. */
module Wallet {
  import opened GoInt
  import Constants

  /** The wallets table: the balance of each client id that has a row. */
  type Wallets = map<string, Int64>

  /** The table invariant: no committed balance is negative. */
  predicate NonNegative(w: Wallets) {
    forall id :: id in w ==> w[id] >= 0
  }

  /** `w` and `w'` have the same rows, with the same balances, for every
      client id other than `id`. */
  ghost predicate SameExcept(w: Wallets, w': Wallets, id: string) {
    forall k :: k != id ==> (k in w <==> k in w') && (k in w ==> w[k] == w'[k])
  }

  datatype Error =
    | WalletNotFound     // no row for the client
    | InsufficientFunds  // the change would make the balance negative
    | UpdateFailed       // the UPDATE touched a number of rows other than one
    | StoreError         // any other storage failure (connection, timeout, commit)

  datatype Result<T> = Ok(value: T) | Err(error: Error)

  /** What a ledger call returns together with the table it leaves behind. */
  datatype Effect<T> = Effect(result: Result<T>, wallets: Wallets)

  /** The answers the database gives inside one UpdateBalance transaction. */
  datatype Tx = Tx(beginOk: bool, selectOk: bool, execOk: bool, rowsAffected: int, commitOk: bool)

  /** A transaction in which every step answers normally. */
  predicate Healthy(tx: Tx) {
    tx.beginOk && tx.selectOk && tx.execOk && tx.rowsAffected == 1 && tx.commitOk
  }

  /** INSERT ... ON CONFLICT DO NOTHING: create the row with the starting
      balance when the client has none. */
  function EnsureWalletExists(w: Wallets, id: string, execOk: bool): (r: Effect<()>)
    ensures r.result.Ok? <==> execOk
    ensures execOk ==> id in r.wallets && r.wallets.Keys == w.Keys + {id}
    ensures id in w || !execOk ==> r.wallets == w
    ensures execOk && id !in w ==> r.wallets[id] == Constants.DefaultInitialBalance
    ensures SameExcept(w, r.wallets, id)
    ensures NonNegative(w) ==> NonNegative(r.wallets)
  {
    if !execOk then Effect(Err(StoreError), w)
    else if id in w then Effect(Ok(()), w)
    else Effect(Ok(()), w[id := Constants.DefaultInitialBalance])
  }

  /** SELECT balance: the balance of an existing row; not-found when there is
      no row; a storage error when the query itself fails. */
  function GetBalance(w: Wallets, id: string, queryOk: bool): (r: Result<Int64>)
    ensures r.Ok? <==> queryOk && id in w
    ensures r.Ok? ==> r.value == w[id]
    ensures r == Err(WalletNotFound) <==> queryOk && id !in w
    ensures r.Err? ==> r.error == WalletNotFound || r.error == StoreError
  {
    if !queryOk then Err(StoreError)
    else if id !in w then Err(WalletNotFound)
    else Ok(w[id])
  }

  /** The balance transaction: lock the row, refuse a change that would make
      the balance negative, write, commit. Every failure rolls back, so only a
      fully successful call changes the table. */
  function UpdateBalance(w: Wallets, id: string, delta: Int64, tx: Tx): (r: Effect<Int64>)
    ensures r.result.Ok? <==> Healthy(tx) && id in w && Add64(w[id], delta) >= 0
    ensures r.result.Ok? ==> r.result.value >= 0 && r.result.value == Add64(w[id], delta)
    ensures r.result.Ok? ==> r.wallets == w[id := r.result.value]
    ensures r.result.Err? ==> r.wallets == w
    ensures r.result == Err(WalletNotFound) <==> tx.beginOk && tx.selectOk && id !in w
    ensures r.result == Err(InsufficientFunds) <==>
              tx.beginOk && tx.selectOk && id in w && Add64(w[id], delta) < 0
    ensures r.result == Err(UpdateFailed) ==> tx.rowsAffected != 1
    ensures r.wallets.Keys == w.Keys
    ensures SameExcept(w, r.wallets, id)
    ensures NonNegative(w) ==> NonNegative(r.wallets)
  {
    if !tx.beginOk || !tx.selectOk then Effect(Err(StoreError), w)
    else if id !in w then Effect(Err(WalletNotFound), w)
    else
      var next := Add64(w[id], delta);
      if next < 0 then Effect(Err(InsufficientFunds), w)
      else if !tx.execOk then Effect(Err(StoreError), w)
      else if tx.rowsAffected != 1 then Effect(Err(UpdateFailed), w)
      else if !tx.commitOk then Effect(Err(StoreError), w)
      else Effect(Ok(next), w[id := next])
  }

  /** A successful update that stays inside the int64 range moves the balance
      by exactly `delta`, and a later read sees the new balance. */
  lemma UpdateThenRead(w: Wallets, id: string, delta: Int64, tx: Tx)
    requires Healthy(tx) && id in w
    requires 0 <= w[id] + delta <= MaxInt64
    ensures UpdateBalance(w, id, delta, tx).result == Ok(w[id] + delta)
    ensures GetBalance(UpdateBalance(w, id, delta, tx).wallets, id, true) == Ok(w[id] + delta)
  {
  }

  /** Creating a wallet twice is the same as creating it once. */
  lemma EnsureIdempotent(w: Wallets, id: string)
    ensures var once := EnsureWalletExists(w, id, true).wallets;
            EnsureWalletExists(once, id, true).wallets == once
  {
  }

  /** A client seen for the first time reads the starting balance. */
  lemma FreshWalletBalance(w: Wallets, id: string)
    requires id !in w
    ensures GetBalance(EnsureWalletExists(w, id, true).wallets, id, true) == Ok(Constants.DefaultInitialBalance)
  {
  }

  /** A committed debit of `a` followed by a committed credit of `a` leaves the
      table exactly as it was: the refund is a true compensation. */
  lemma DebitThenRefund(w: Wallets, id: string, a: Int64, debit: Tx, refund: Tx)
    requires NonNegative(w) && a > 0 && Healthy(refund)
    requires UpdateBalance(w, id, -a, debit).result.Ok?
    ensures var after := UpdateBalance(w, id, -a, debit).wallets;
            UpdateBalance(after, id, a, refund).wallets == w
  {
    var after := UpdateBalance(w, id, -a, debit).wallets;
    assert after[id] == w[id] - a;
    assert Add64(after[id], a) == w[id];
    assert after[id := w[id]] == w;
  }

  /** One call to the ledger, with the storage answers it meets. */
  datatype Op =
    | Ensure(id: string, execOk: bool)
    | Update(id: string, delta: Int64, tx: Tx)

  /** The table after a sequence of ledger calls, failed ones included. */
  function Replay(w: Wallets, ops: seq<Op>): Wallets
    decreases |ops|
  {
    if |ops| == 0 then w
    else
      var next := match ops[0]
        case Ensure(id, ok) => EnsureWalletExists(w, id, ok).wallets
        case Update(id, d, tx) => UpdateBalance(w, id, d, tx).wallets;
      Replay(next, ops[1..])
  }

  /** No sequence of ledger calls, whatever their deltas and whatever the
      storage answers, ever commits a negative balance. */
  lemma {:induction false} ReplayNonNegative(w: Wallets, ops: seq<Op>)
    requires NonNegative(w)
    ensures NonNegative(Replay(w, ops))
    decreases |ops|
  {
    if |ops| > 0 {
      var next := match ops[0]
        case Ensure(id, ok) => EnsureWalletExists(w, id, ok).wallets
        case Update(id, d, tx) => UpdateBalance(w, id, d, tx).wallets;
      ReplayNonNegative(next, ops[1..]);
    }
  }

  /** A sequence of ledger calls that never names `id` leaves its row alone. */
  lemma {:induction false} ReplayOtherClients(w: Wallets, ops: seq<Op>, id: string)
    requires forall i :: 0 <= i < |ops| ==> ops[i].id != id
    ensures id in Replay(w, ops) <==> id in w
    ensures id in w ==> Replay(w, ops)[id] == w[id]
    decreases |ops|
  {
    if |ops| > 0 {
      var next := match ops[0]
        case Ensure(k, ok) => EnsureWalletExists(w, k, ok).wallets
        case Update(k, d, tx) => UpdateBalance(w, k, d, tx).wallets;
      assert SameExcept(w, next, ops[0].id);
      ReplayOtherClients(next, ops[1..], id);
    }
  }
}
