/** The engine as it runs: one object holding the stored tables, whose
    operations read and update them in place, step by step, inside one atomic
    unit of work each. */
module Engine {
  import opened Wallets
  import opened Ledger
  import opened Crud

  class WalletLedger {
    /** The configured ceiling on every balance. */
    const maxAmount: int
    var accounts: map<Uuid, Account>
    var wallets: map<Uuid, Wallet>
    /** The append-only `transaction` table with its postings. */
    var transactions: seq<Transaction>
    /** Each wallet's balance when it entered the table. */
    ghost var opening: map<Uuid, int>

    ghost function State(): Books
      reads this
    {
      Books(accounts, wallets, transactions)
    }

    /** The object invariant: the tables are consistent and the ledger
        explains every balance from its opening value. */
    ghost predicate Valid()
      reads this
    {
      Consistent(State(), maxAmount) && Explains(State(), opening)
    }

    /** Starts from tables filled by the provisioning side: accounts and
        wallets already within bounds, and an empty ledger. */
    constructor (maxAmount: int, accounts: map<Uuid, Account>, wallets: map<Uuid, Wallet>)
      requires 0 <= maxAmount
      requires WithinBounds(wallets, maxAmount) && OwnedBy(wallets, accounts)
      ensures Valid()
      ensures this.maxAmount == maxAmount && this.accounts == accounts
      ensures this.wallets == wallets && this.transactions == []
    {
      this.maxAmount := maxAmount;
      this.accounts := accounts;
      this.wallets := wallets;
      this.transactions := [];
      opening := map id | id in wallets :: wallets[id].amount;
    }

    /** `transfer`: lock and read the source, then the destination; check the
        source can pay, then that the destination can receive; then apply both
        deltas and append the transfer record. A failure returns before any
        table is touched. */
    method Transfer(req: TransferMoneyIn) returns (r: Result<TransferMoneyOut>)
      requires Valid()
      requires req.fromWalletId != req.toWalletId && req.amount > 0
      modifies this
      ensures Valid() && opening == old(opening)
      ensures (r, State()) == Crud.Transfer(old(State()), maxAmount, req)
    {
      var from, to := req.fromWalletId, req.toWalletId;
      var source := Find(wallets, from, req.fromCurrency);
      if source.None? {
        return Err(WalletNotFound(from, req.fromCurrency));
      }
      var dest := Find(wallets, to, req.toCurrency);
      if dest.None? {
        return Err(WalletNotFound(to, req.toCurrency));
      }
      if source.value.amount - req.amount < 0 {
        return Err(InsufficientFunds(from, req.amount, req.fromCurrency));
      }
      if dest.value.amount + req.amount > maxAmount {
        return Err(MaxAmountExceeded(to, maxAmount, dest.value.amount));
      }
      ghost var before := State();
      ghost var after := Crud.Transfer(before, maxAmount, req);
      TransferKeepsConsistent(before, maxAmount, req);
      TransferKeepsLedgerExplained(before, maxAmount, req, opening);
      wallets := ApplyDelta(wallets, from, -req.amount);
      wallets := ApplyDelta(wallets, to, req.amount);
      transactions := transactions + [TransferTransaction(from, req.fromCurrency, to, req.toCurrency, req.amount)];
      r := Ok(TransferMoneyOut(from, wallets[from].amount, req.fromCurrency, to, wallets[to].amount, req.toCurrency));
      assert State() == after.1 && r == after.0;
    }

    /** `replenish`: lock and read the wallet, check it can receive the
        amount, credit it and append the replenish record. */
    method Replenish(req: ReplenishWalletInfo) returns (r: Result<ReplenishWalletInfo>)
      requires Valid()
      requires req.amount > 0
      modifies this
      ensures Valid() && opening == old(opening)
      ensures (r, State()) == Crud.Replenish(old(State()), maxAmount, req)
    {
      var id := req.walletId;
      var wallet := Find(wallets, id, req.currency);
      if wallet.None? {
        return Err(WalletNotFound(id, req.currency));
      }
      if wallet.value.amount + req.amount > maxAmount {
        return Err(MaxAmountExceeded(id, maxAmount, wallet.value.amount));
      }
      ghost var before := State();
      ReplenishKeepsConsistent(before, maxAmount, req);
      ReplenishKeepsLedgerExplained(before, maxAmount, req, opening);
      wallets := ApplyDelta(wallets, id, req.amount);
      transactions := transactions + [ReplenishTransaction(id, req.currency, req.amount)];
      r := Ok(ReplenishWalletInfo(id, wallets[id].amount, req.currency));
    }

    /** `create_account_with_wallet`: insert the account, then its empty USD
        wallet; the two ids are the values the UUID generator handed out. */
    method CreateAccountWithWallet(name: string, accountId: Uuid, walletId: Uuid)
      requires Valid()
      requires accountId !in accounts && walletId !in wallets
      modifies this
      ensures Valid() && opening == old(opening)[walletId := 0]
      ensures State() == Crud.CreateAccountWithWallet(old(State()), name, accountId, walletId)
    {
      ghost var before := State();
      CreateKeepsConsistent(before, maxAmount, name, accountId, walletId);
      CreateKeepsLedgerExplained(before, maxAmount, name, accountId, walletId, opening);
      accounts := accounts[accountId := Account(name)];
      wallets := wallets[walletId := Wallet(accountId, USD, 0)];
      opening := opening[walletId := 0];
    }
  }
}
