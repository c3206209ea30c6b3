/** The concrete situations of the unit tests, stated over the model. Amounts
    are in cents: 9999999.12 is 999999912, 789.98 is 78998, 12.12 is 1212. */
module Scenarios {
  import opened Wallets
  import Ledger
  import opened Crud

  /** A successful transfer of 789.98 USD from a wallet holding 9999999.12 to
      one holding 12.12: both new balances come back in the reply, are stored,
      and the newest transaction is a transfer whose postings are the debit on
      the source followed by the credit on the destination. */
  lemma TransferScenario(accounts: map<Uuid, Account>, ts: seq<Ledger.Transaction>, maxAmount: int,
                         fromAccount: Uuid, fromId: Uuid, toAccount: Uuid, toId: Uuid)
    requires fromId != toId && maxAmount >= 80210
    ensures var b := Books(accounts, map[fromId := Wallet(fromAccount, USD, 999999912), toId := Wallet(toAccount, USD, 1212)], ts);
      var (r, b') := Transfer(b, maxAmount, TransferMoneyIn(fromId, USD, toId, USD, 78998));
      && r == Ok(TransferMoneyOut(fromId, 999920914, USD, toId, 80210, USD))
      && b'.wallets[fromId].amount == 999920914
      && b'.wallets[toId].amount == 80210
      && b'.transactions[|b'.transactions| - 1]
           == Ledger.Transaction(Ledger.Transfer, [Ledger.Posting(fromId, USD, -78998), Ledger.Posting(toId, USD, 78998)])
  {
  }

  /** The failing transfers of 1 USD (100 cents), in the order the test runs
      them: with no wallets the source is reported; with only the source
      present the destination is reported; with the destination at the
      maximum the maximum is reported with the destination's balance; and
      once the source is emptied, insufficient funds is reported although the
      destination is still at the maximum. Every failure leaves the tables as
      they were. */
  lemma TransferExceptionsScenario(accounts: map<Uuid, Account>, ts: seq<Ledger.Transaction>, maxAmount: int,
                                   fromAccount: Uuid, fromId: Uuid, toAccount: Uuid, toId: Uuid)
    requires fromId != toId
    ensures var req := TransferMoneyIn(fromId, USD, toId, USD, 100);
      var b0 := Books(accounts, map[], ts);
      var b1 := Books(accounts, map[fromId := Wallet(fromAccount, USD, 999999912)], ts);
      var b2 := Books(accounts, b1.wallets[toId := Wallet(toAccount, USD, maxAmount)], ts);
      var b3 := Books(accounts, b2.wallets[fromId := Wallet(fromAccount, USD, 0)], ts);
      && Transfer(b0, maxAmount, req) == (Err(WalletNotFound(fromId, USD)), b0)
      && Transfer(b1, maxAmount, req) == (Err(WalletNotFound(toId, USD)), b1)
      && Transfer(b2, maxAmount, req) == (Err(MaxAmountExceeded(toId, maxAmount, maxAmount)), b2)
      && Transfer(b3, maxAmount, req) == (Err(InsufficientFunds(fromId, 100, USD)), b3)
  {
  }

  /** A successful replenish of 789.98 USD on a wallet holding 9999999.12:
      the reply and the stored balance are 10000789.10 in USD, and the newest
      transaction is a replenish with the one posting of 789.98 USD. */
  lemma ReplenishScenario(accounts: map<Uuid, Account>, ts: seq<Ledger.Transaction>, maxAmount: int,
                          account: Uuid, walletId: Uuid)
    requires maxAmount >= 1000078910
    ensures var b := Books(accounts, map[walletId := Wallet(account, USD, 999999912)], ts);
      var (r, b') := Replenish(b, maxAmount, ReplenishWalletInfo(walletId, 78998, USD));
      && r == Ok(ReplenishWalletInfo(walletId, 1000078910, USD))
      && b'.wallets[walletId] == Wallet(account, USD, 1000078910)
      && b'.transactions[|b'.transactions| - 1] == Ledger.Transaction(Ledger.Replenish, [Ledger.Posting(walletId, USD, 78998)])
  {
  }

  /** The failing replenishes of 1 USD: with no wallet, the (wallet, currency)
      pair is reported; with the wallet at the maximum, the maximum is reported
      with the current balance, and the balance does not change. */
  lemma ReplenishExceptionsScenario(accounts: map<Uuid, Account>, ts: seq<Ledger.Transaction>, maxAmount: int,
                                    account: Uuid, walletId: Uuid)
    ensures var req := ReplenishWalletInfo(walletId, 100, USD);
      var b0 := Books(accounts, map[], ts);
      var b1 := Books(accounts, map[walletId := Wallet(account, USD, maxAmount)], ts);
      && Replenish(b0, maxAmount, req) == (Err(WalletNotFound(walletId, USD)), b0)
      && Replenish(b1, maxAmount, req) == (Err(MaxAmountExceeded(walletId, maxAmount, maxAmount)), b1)
  {
  }

  /** With the UUID generator fixed to one value, the new account and its
      wallet share that id; the wallet is in USD with a zero balance and
      belongs to the account, which carries the given name. */
  lemma CreateAccountScenario(b: Books, id: Uuid)
    requires id !in b.accounts && id !in b.wallets
    ensures var b' := CreateAccountWithWallet(b, "testname", id, id);
      && b'.wallets[id] == Wallet(id, USD, 0)
      && b'.accounts[b'.wallets[id].accountId] == Account("testname")
  {
  }
}
