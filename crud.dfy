/** What one call of `transfer`, `replenish` or `create_account_with_wallet`
    does to the stored tables, as a function of the tables before the call.
    Each call is one atomic unit of work: it either fails before changing
    anything, or applies all of its changes. */
module Crud {
  import opened Wallets
  import opened Ledger

  /** The failures the engine reports, with the fields it reports them with. */
  datatype CrudError =
    | WalletNotFound(walletId: Uuid, currency: Currency)
    | MaxAmountExceeded(walletId: Uuid, maxAmount: int, currentAmount: int)
    | InsufficientFunds(walletId: Uuid, amount: int, currency: Currency)

  datatype Result<+T> = Ok(value: T) | Err(error: CrudError)

  /** The request of a transfer. */
  datatype TransferMoneyIn = TransferMoneyIn(
    fromWalletId: Uuid, fromCurrency: Currency,
    toWalletId: Uuid, toCurrency: Currency,
    amount: int)

  /** The reply of a successful transfer: both wallets after the move. */
  datatype TransferMoneyOut = TransferMoneyOut(
    fromWalletId: Uuid, fromAmount: int, fromCurrency: Currency,
    toWalletId: Uuid, toAmount: int, toCurrency: Currency)

  /** The request of a replenish, and its reply (with the new balance). */
  datatype ReplenishWalletInfo = ReplenishWalletInfo(walletId: Uuid, amount: int, currency: Currency)

  /** The stored tables: accounts, wallets, and the ledger of transactions in
      insertion order (the last one is the most recent). */
  datatype Books = Books(accounts: map<Uuid, Account>, wallets: map<Uuid, Wallet>, transactions: seq<Transaction>)

  /** The tables are consistent: balances within bounds, every wallet owned by
      an account, every recorded transaction well formed and posting only to
      existing wallets. */
  ghost predicate Consistent(b: Books, maxAmount: int)
  {
    && 0 <= maxAmount
    && WithinBounds(b.wallets, maxAmount)
    && OwnedBy(b.wallets, b.accounts)
    && (forall k :: 0 <= k < |b.transactions| ==> WellFormed(b.transactions[k]))
    && (forall k :: 0 <= k < |b.transactions| ==> PostsWithin(b.transactions[k], b.wallets.Keys))
  }

  /** The ledger explains every balance: each wallet holds its opening balance
      plus the net of every posting recorded against it. */
  ghost predicate Explains(b: Books, opening: map<Uuid, int>)
  {
    && opening.Keys == b.wallets.Keys
    && forall id :: id in b.wallets ==> b.wallets[id].amount == opening[id] + NetPosted(b.transactions, id)
  }

  /** The conditions under which a transfer goes through. */
  predicate TransferAllowed(wallets: map<Uuid, Wallet>, maxAmount: int, req: TransferMoneyIn)
  {
    && Holds(wallets, req.fromWalletId, req.fromCurrency)
    && Holds(wallets, req.toWalletId, req.toCurrency)
    && wallets[req.fromWalletId].amount - req.amount >= 0
    && wallets[req.toWalletId].amount + req.amount <= maxAmount
  }

  /** `transfer`: look up the source, then the destination, then check that
      the source can pay and that the destination can receive; on success debit
      the source, credit the destination and record one transfer. */
  function Transfer(b: Books, maxAmount: int, req: TransferMoneyIn): (out: (Result<TransferMoneyOut>, Books))
    requires req.fromWalletId != req.toWalletId
    ensures out.0.Ok? <==> TransferAllowed(b.wallets, maxAmount, req)
    ensures out.0.Err? ==> out.1 == b
    ensures out.0.Ok? ==>
      var from, to := req.fromWalletId, req.toWalletId;
      && out.1.accounts == b.accounts
      && out.1.wallets.Keys == b.wallets.Keys
      && out.1.wallets[from] == b.wallets[from].(amount := b.wallets[from].amount - req.amount)
      && out.1.wallets[to] == b.wallets[to].(amount := b.wallets[to].amount + req.amount)
      && (forall id :: id in b.wallets && id != from && id != to ==> out.1.wallets[id] == b.wallets[id])
      && out.0.value == TransferMoneyOut(from, out.1.wallets[from].amount, req.fromCurrency,
                                         to, out.1.wallets[to].amount, req.toCurrency)
      && out.1.transactions == b.transactions + [Transaction(Ledger.Transfer, [
           Posting(from, req.fromCurrency, -req.amount), Posting(to, req.toCurrency, req.amount)])]
  {
    var from, to := req.fromWalletId, req.toWalletId;
    match Find(b.wallets, from, req.fromCurrency)
    case None => (Err(WalletNotFound(from, req.fromCurrency)), b)
    case Some(source) =>
      match Find(b.wallets, to, req.toCurrency)
      case None => (Err(WalletNotFound(to, req.toCurrency)), b)
      case Some(dest) =>
        if source.amount - req.amount < 0 then
          (Err(InsufficientFunds(from, req.amount, req.fromCurrency)), b)
        else if dest.amount + req.amount > maxAmount then
          (Err(MaxAmountExceeded(to, maxAmount, dest.amount)), b)
        else
          var wallets := ApplyDelta(ApplyDelta(b.wallets, from, -req.amount), to, req.amount);
          var t := TransferTransaction(from, req.fromCurrency, to, req.toCurrency, req.amount);
          (Ok(TransferMoneyOut(from, wallets[from].amount, req.fromCurrency, to, wallets[to].amount, req.toCurrency)),
           Books(b.accounts, wallets, b.transactions + [t]))
  }

  /** `replenish`: look up the wallet, check that it can receive the amount;
      on success credit it and record one replenish. */
  function Replenish(b: Books, maxAmount: int, req: ReplenishWalletInfo): (out: (Result<ReplenishWalletInfo>, Books))
    ensures out.0.Ok? <==> Holds(b.wallets, req.walletId, req.currency) && b.wallets[req.walletId].amount + req.amount <= maxAmount
    ensures out.0.Err? ==> out.1 == b
    ensures out.0.Ok? ==>
      var id := req.walletId;
      && out.1.accounts == b.accounts
      && out.1.wallets == b.wallets[id := b.wallets[id].(amount := b.wallets[id].amount + req.amount)]
      && out.0.value == ReplenishWalletInfo(id, out.1.wallets[id].amount, out.1.wallets[id].currency)
      && out.0.value.currency == req.currency
      && out.1.transactions == b.transactions + [Transaction(Ledger.Replenish, [Posting(id, req.currency, req.amount)])]
  {
    var id := req.walletId;
    match Find(b.wallets, id, req.currency)
    case None => (Err(WalletNotFound(id, req.currency)), b)
    case Some(wallet) =>
      if wallet.amount + req.amount > maxAmount then
        (Err(MaxAmountExceeded(id, maxAmount, wallet.amount)), b)
      else
        var wallets := ApplyDelta(b.wallets, id, req.amount);
        (Ok(ReplenishWalletInfo(id, wallets[id].amount, req.currency)),
         Books(b.accounts, wallets, b.transactions + [ReplenishTransaction(id, req.currency, req.amount)]))
  }

  /** `create_account_with_wallet`: a new account with the given name and one
      empty USD wallet owned by it; the ids are the freshly generated UUIDs. */
  function CreateAccountWithWallet(b: Books, name: string, accountId: Uuid, walletId: Uuid): (b': Books)
    requires accountId !in b.accounts && walletId !in b.wallets
    ensures b'.accounts == b.accounts[accountId := Account(name)]
    ensures b'.wallets.Keys == b.wallets.Keys + {walletId}
    ensures b'.wallets[walletId] == Wallet(accountId, USD, 0)
    ensures forall id :: id in b.wallets ==> b'.wallets[id] == b.wallets[id]
    ensures b'.transactions == b.transactions
  {
    Books(b.accounts[accountId := Account(name)], b.wallets[walletId := Wallet(accountId, USD, 0)], b.transactions)
  }

  // ---------------------------------------------------------------------------
  // Which error a failing transfer or replenish reports

  /** The checks of a transfer come in a fixed order: a missing source is
      reported even when the destination is missing too; a missing destination
      only once the source is found; then a source that cannot pay, even when
      the destination also could not receive; and only then a destination
      that would go over the maximum. */
  lemma TransferErrorPrecedence(b: Books, maxAmount: int, req: TransferMoneyIn)
    requires req.fromWalletId != req.toWalletId
    ensures var r := Transfer(b, maxAmount, req).0;
      var from, to := req.fromWalletId, req.toWalletId;
      && (!Holds(b.wallets, from, req.fromCurrency) ==>
            r == Err(WalletNotFound(from, req.fromCurrency)))
      && (Holds(b.wallets, from, req.fromCurrency) && !Holds(b.wallets, to, req.toCurrency) ==>
            r == Err(WalletNotFound(to, req.toCurrency)))
      && (Holds(b.wallets, from, req.fromCurrency) && Holds(b.wallets, to, req.toCurrency)
          && b.wallets[from].amount < req.amount ==>
            r == Err(InsufficientFunds(from, req.amount, req.fromCurrency)))
      && (Holds(b.wallets, from, req.fromCurrency) && Holds(b.wallets, to, req.toCurrency)
          && b.wallets[from].amount >= req.amount && b.wallets[to].amount + req.amount > maxAmount ==>
            r == Err(MaxAmountExceeded(to, maxAmount, b.wallets[to].amount)))
  {
  }

  /** A replenish reports a missing (wallet, currency) pair first, and a
      balance that would go over the maximum second. */
  lemma ReplenishErrors(b: Books, maxAmount: int, req: ReplenishWalletInfo)
    ensures var r := Replenish(b, maxAmount, req).0;
      var id := req.walletId;
      && (!Holds(b.wallets, id, req.currency) ==> r == Err(WalletNotFound(id, req.currency)))
      && (Holds(b.wallets, id, req.currency) && b.wallets[id].amount + req.amount > maxAmount ==>
            r == Err(MaxAmountExceeded(id, maxAmount, b.wallets[id].amount)))
  {
  }

  /** A failed operation is a fixed point: retried against the unchanged
      tables it fails again with the identical error and changes nothing. */
  lemma FailureIsRepeatable(b: Books, maxAmount: int, transfer: TransferMoneyIn, replenish: ReplenishWalletInfo)
    requires transfer.fromWalletId != transfer.toWalletId
    ensures var out := Transfer(b, maxAmount, transfer);
      out.0.Err? ==> Transfer(out.1, maxAmount, transfer) == out
    ensures var out := Replenish(b, maxAmount, replenish);
      out.0.Err? ==> Replenish(out.1, maxAmount, replenish) == out
  {
  }

  // ---------------------------------------------------------------------------
  // Invariants the operations preserve

  /** A transfer of a positive amount keeps the tables consistent: no balance
      leaves [0, maxAmount], and the recorded transfer is a balanced pair. */
  lemma TransferKeepsConsistent(b: Books, maxAmount: int, req: TransferMoneyIn)
    requires Consistent(b, maxAmount)
    requires req.fromWalletId != req.toWalletId && req.amount > 0
    ensures Consistent(Transfer(b, maxAmount, req).1, maxAmount)
  {
    var out := Transfer(b, maxAmount, req);
    if out.0.Ok? {
      var t := out.1.transactions[|b.transactions|];
      assert WellFormed(t);
      assert PostsWithin(t, out.1.wallets.Keys);
    }
  }

  /** A replenish of a positive amount keeps the tables consistent. */
  lemma ReplenishKeepsConsistent(b: Books, maxAmount: int, req: ReplenishWalletInfo)
    requires Consistent(b, maxAmount)
    requires req.amount > 0
    ensures Consistent(Replenish(b, maxAmount, req).1, maxAmount)
  {
    var out := Replenish(b, maxAmount, req);
    if out.0.Ok? {
      var t := out.1.transactions[|b.transactions|];
      assert WellFormed(t);
      assert PostsWithin(t, out.1.wallets.Keys);
    }
  }

  /** Creating an account with an empty wallet keeps the tables consistent. */
  lemma CreateKeepsConsistent(b: Books, maxAmount: int, name: string, accountId: Uuid, walletId: Uuid)
    requires Consistent(b, maxAmount)
    requires accountId !in b.accounts && walletId !in b.wallets
    ensures Consistent(CreateAccountWithWallet(b, name, accountId, walletId), maxAmount)
  {
    var b' := CreateAccountWithWallet(b, name, accountId, walletId);
    forall k | 0 <= k < |b'.transactions|
      ensures PostsWithin(b'.transactions[k], b'.wallets.Keys)
    {
      assert PostsWithin(b.transactions[k], b.wallets.Keys);
    }
  }

  /** After a transfer the ledger still explains every balance: the two
      postings account exactly for the debit and the credit. */
  lemma {:induction false} TransferKeepsLedgerExplained(b: Books, maxAmount: int, req: TransferMoneyIn, opening: map<Uuid, int>)
    requires Explains(b, opening)
    requires req.fromWalletId != req.toWalletId
    ensures Explains(Transfer(b, maxAmount, req).1, opening)
  {
    var out := Transfer(b, maxAmount, req);
    if out.0.Ok? {
      var t := TransferTransaction(req.fromWalletId, req.fromCurrency, req.toWalletId, req.toCurrency, req.amount);
      assert out.1.transactions == b.transactions + [t];
      forall id | id in out.1.wallets
        ensures out.1.wallets[id].amount == opening[id] + NetPosted(out.1.transactions, id)
      {
        NetPostedAppend(b.transactions, t, id);
      }
    }
  }

  /** After a replenish the ledger still explains every balance: the single
      posting accounts exactly for the credit. */
  lemma {:induction false} ReplenishKeepsLedgerExplained(b: Books, maxAmount: int, req: ReplenishWalletInfo, opening: map<Uuid, int>)
    requires Explains(b, opening)
    ensures Explains(Replenish(b, maxAmount, req).1, opening)
  {
    var out := Replenish(b, maxAmount, req);
    if out.0.Ok? {
      var t := ReplenishTransaction(req.walletId, req.currency, req.amount);
      assert out.1.transactions == b.transactions + [t];
      forall id | id in out.1.wallets
        ensures out.1.wallets[id].amount == opening[id] + NetPosted(out.1.transactions, id)
      {
        NetPostedAppend(b.transactions, t, id);
      }
    }
  }

  /** A new wallet opens at zero and nothing in the ledger names it yet, so
      the ledger still explains every balance. */
  lemma {:induction false} CreateKeepsLedgerExplained(b: Books, maxAmount: int, name: string, accountId: Uuid, walletId: Uuid, opening: map<Uuid, int>)
    requires Consistent(b, maxAmount) && Explains(b, opening)
    requires accountId !in b.accounts && walletId !in b.wallets
    ensures Explains(CreateAccountWithWallet(b, name, accountId, walletId), opening[walletId := 0])
  {
    NetPostedUntouched(b.transactions, b.wallets.Keys, walletId);
  }

  // ---------------------------------------------------------------------------
  // Properties of sequences of operations

  /** A transfer reads nothing but its own two wallets: on tables that agree
      on those two it gives the same reply. */
  lemma TransferReadsOnlyItsWallets(b: Books, c: Books, maxAmount: int, req: TransferMoneyIn)
    requires req.fromWalletId != req.toWalletId
    requires forall id :: id == req.fromWalletId || id == req.toWalletId ==>
      (id in b.wallets <==> id in c.wallets) && (id in b.wallets ==> b.wallets[id] == c.wallets[id])
    ensures Transfer(b, maxAmount, req).0 == Transfer(c, maxAmount, req).0
  {
    assert Find(b.wallets, req.fromWalletId, req.fromCurrency) == Find(c.wallets, req.fromWalletId, req.fromCurrency);
    assert Find(b.wallets, req.toWalletId, req.toCurrency) == Find(c.wallets, req.toWalletId, req.toCurrency);
  }

  /** The records a transfer appends: its transfer record when it succeeds,
      nothing when it fails. */
  function Recorded(r: Result<TransferMoneyOut>, req: TransferMoneyIn): seq<Transaction>
  {
    if r.Ok? then [TransferTransaction(req.fromWalletId, req.fromCurrency, req.toWalletId, req.toCurrency, req.amount)] else []
  }

  /** Two transfers over four distinct wallets do not interfere: each gets the
      same reply whichever runs first, and the wallets end up the same. In
      either order the accounts are untouched and the ledger is the old ledger
      followed by the records of the two transfers in the order they ran, so
      both orders record the same transactions. */
  lemma DisjointTransfersCommute(b: Books, maxAmount: int, r1: TransferMoneyIn, r2: TransferMoneyIn)
    requires r1.fromWalletId != r1.toWalletId && r2.fromWalletId != r2.toWalletId
    requires r1.fromWalletId != r2.fromWalletId && r1.fromWalletId != r2.toWalletId
    requires r1.toWalletId != r2.fromWalletId && r1.toWalletId != r2.toWalletId
    ensures
      var (x1, b1) := Transfer(b, maxAmount, r1);
      var (x2, b12) := Transfer(b1, maxAmount, r2);
      var (y2, b2) := Transfer(b, maxAmount, r2);
      var (y1, b21) := Transfer(b2, maxAmount, r1);
      && x1 == y1 && x2 == y2
      && b12.wallets == b21.wallets
      && b12.accounts == b.accounts && b21.accounts == b.accounts
      && b12.transactions == b.transactions + Recorded(x1, r1) + Recorded(x2, r2)
      && b21.transactions == b.transactions + Recorded(y2, r2) + Recorded(y1, r1)
      && multiset(b12.transactions) == multiset(b21.transactions)
  {
    var (x1, b1) := Transfer(b, maxAmount, r1);
    var (y2, b2) := Transfer(b, maxAmount, r2);
    TransferReadsOnlyItsWallets(b, b1, maxAmount, r2);
    TransferReadsOnlyItsWallets(b, b2, maxAmount, r1);
    var (x2, b12) := Transfer(b1, maxAmount, r2);
    var (y1, b21) := Transfer(b2, maxAmount, r1);
    assert b12.wallets.Keys == b21.wallets.Keys;
    forall id | id in b12.wallets ensures b12.wallets[id] == b21.wallets[id] {
      if id == r1.fromWalletId || id == r1.toWalletId {
        assert b12.wallets[id] == b1.wallets[id];
        assert b2.wallets[id] == b.wallets[id];
      } else if id == r2.fromWalletId || id == r2.toWalletId {
        assert b21.wallets[id] == b2.wallets[id];
        assert b1.wallets[id] == b.wallets[id];
      }
    }
    assert b12.transactions == b.transactions + Recorded(x1, r1) + Recorded(x2, r2);
    assert b21.transactions == b.transactions + Recorded(y2, r2) + Recorded(y1, r1);
  }

  /** Runs a list of transfers one after the other, collecting the replies. */
  function TransferAll(b: Books, maxAmount: int, reqs: seq<TransferMoneyIn>): (out: (seq<Result<TransferMoneyOut>>, Books))
    requires forall k :: 0 <= k < |reqs| ==> reqs[k].fromWalletId != reqs[k].toWalletId
    ensures |out.0| == |reqs|
    decreases |reqs|
  {
    if reqs == [] then ([], b)
    else
      var (r, b1) := Transfer(b, maxAmount, reqs[0]);
      var (rs, b2) := TransferAll(b1, maxAmount, reqs[1..]);
      ([r] + rs, b2)
  }

  /** The transfers of `amount` from one source to each of `dests` in turn. */
  function Payouts(from: Uuid, currency: Currency, dests: seq<Uuid>, amount: int): (reqs: seq<TransferMoneyIn>)
    ensures |reqs| == |dests|
    ensures forall k :: 0 <= k < |dests| ==> reqs[k] == TransferMoneyIn(from, currency, dests[k], currency, amount)
  {
    if dests == [] then [] else [TransferMoneyIn(from, currency, dests[0], currency, amount)] + Payouts(from, currency, dests[1..], amount)
  }

  /** The preconditions of a payout run: the source holds exactly n times
      `amount`, the n destinations are distinct, differ from the source, and
      can each receive `amount`. */
  ghost predicate PayoutReady(b: Books, maxAmount: int, from: Uuid, currency: Currency, dests: seq<Uuid>, amount: int)
  {
    && Holds(b.wallets, from, currency) && b.wallets[from].amount == |dests| * amount
    && (forall k :: 0 <= k < |dests| ==> dests[k] != from)
    && (forall i, j :: 0 <= i < j < |dests| ==> dests[i] != dests[j])
    && (forall k :: 0 <= k < |dests| ==>
          Holds(b.wallets, dests[k], currency) && b.wallets[dests[k]].amount + amount <= maxAmount)
  }

  /** The first payout succeeds and leaves the rest of the run ready. */
  lemma PayoutStep(b: Books, maxAmount: int, from: Uuid, currency: Currency, dests: seq<Uuid>, amount: int)
    requires amount > 0 && dests != []
    requires PayoutReady(b, maxAmount, from, currency, dests, amount)
    ensures var (r, b1) := Transfer(b, maxAmount, TransferMoneyIn(from, currency, dests[0], currency, amount));
      && r.Ok?
      && PayoutReady(b1, maxAmount, from, currency, dests[1..], amount)
      && b1.wallets.Keys == b.wallets.Keys
      && b1.wallets[dests[0]].amount == b.wallets[dests[0]].amount + amount
      && (forall id :: id in b.wallets && id != from && id != dests[0] ==> b1.wallets[id] == b.wallets[id])
      && |b1.transactions| == |b.transactions| + 1
  {
    var (r, b1) := Transfer(b, maxAmount, TransferMoneyIn(from, currency, dests[0], currency, amount));
    assert b1.wallets[from].amount == |dests[1..]| * amount;
    forall k | 0 <= k < |dests[1..]|
      ensures Holds(b1.wallets, dests[1..][k], currency)
      ensures b1.wallets[dests[1..][k]] == b.wallets[dests[1..][k]]
    {
      assert dests[1..][k] == dests[k + 1] != dests[0];
    }
  }

  /** A source holding exactly n times `amount`, paying `amount` to each of n
      distinct destinations that can all receive it: every transfer succeeds,
      the source ends at zero, each destination gains `amount`, and no other
      wallet changes (there is no lost update). */
  lemma {:induction false} PayoutsDrainSource(b: Books, maxAmount: int, from: Uuid, currency: Currency, dests: seq<Uuid>, amount: int)
    requires amount > 0
    requires PayoutReady(b, maxAmount, from, currency, dests, amount)
    ensures var (rs, b') := TransferAll(b, maxAmount, Payouts(from, currency, dests, amount));
      && (forall k :: 0 <= k < |rs| ==> rs[k].Ok?)
      && b'.wallets.Keys == b.wallets.Keys
      && b'.wallets[from].amount == 0
      && (forall k :: 0 <= k < |dests| ==>
            dests[k] in b'.wallets && b'.wallets[dests[k]].amount == b.wallets[dests[k]].amount + amount)
      && (forall id :: id in b.wallets && id != from && id !in dests ==> b'.wallets[id] == b.wallets[id])
      && |b'.transactions| == |b.transactions| + |dests|
    decreases |dests|
  {
    var reqs := Payouts(from, currency, dests, amount);
    if dests != [] {
      assert reqs[0] == TransferMoneyIn(from, currency, dests[0], currency, amount);
      PayoutStep(b, maxAmount, from, currency, dests, amount);
      var first := Transfer(b, maxAmount, reqs[0]);
      var b1 := first.1;
      assert reqs[1..] == Payouts(from, currency, dests[1..], amount);
      PayoutsDrainSource(b1, maxAmount, from, currency, dests[1..], amount);
      var rest := TransferAll(b1, maxAmount, reqs[1..]);
      var b2 := rest.1;
      assert TransferAll(b, maxAmount, reqs) == ([first.0] + rest.0, b2);
      assert dests[0] !in dests[1..];
    }
  }
}
