/** The wallet table and the account table, and the two repository operations
    the engine performs on wallets: a read by (wallet id, currency) and an
    unconditional balance delta. Money is an exact integer number of minor
    units (cents); there is no floating point anywhere. */
module Wallets {

  /** A UUID primary key, modelled by its integer value. */
  type Uuid = nat

  /** A currency code as stored in the `currency` column. */
  type Currency = string

  const USD: Currency := "USD"

  datatype Option<+T> = None | Some(value: T)

  /** A row of the `account` table (the creation timestamp is not modelled). */
  datatype Account = Account(name: string)

  /** A row of the `wallet` table: owner, currency and exact balance. */
  datatype Wallet = Wallet(accountId: Uuid, currency: Currency, amount: int)

  /** A wallet is found only when both its id and its currency match. */
  predicate Holds(wallets: map<Uuid, Wallet>, id: Uuid, currency: Currency)
  {
    id in wallets && wallets[id].currency == currency
  }

  /** The locked point read of the engine: `None` is the not-found case. */
  function Find(wallets: map<Uuid, Wallet>, id: Uuid, currency: Currency): (r: Option<Wallet>)
    ensures r.Some? <==> Holds(wallets, id, currency)
    ensures r.Some? ==> id in wallets && r.value == wallets[id]
  {
    if id in wallets && wallets[id].currency == currency then Some(wallets[id]) else None
  }

  /** Adds a signed delta to one wallet's balance, unconditionally: the caller
      has validated the resulting balance. Owner, currency and every other
      wallet are left as they were. */
  function ApplyDelta(wallets: map<Uuid, Wallet>, id: Uuid, delta: int): (r: map<Uuid, Wallet>)
    requires id in wallets
    ensures r.Keys == wallets.Keys
    ensures r[id].amount == wallets[id].amount + delta
    ensures r[id].accountId == wallets[id].accountId && r[id].currency == wallets[id].currency
    ensures forall other :: other in wallets && other != id ==> r[other] == wallets[other]
  {
    wallets[id := wallets[id].(amount := wallets[id].amount + delta)]
  }

  /** Every balance lies between zero and the configured maximum. */
  ghost predicate WithinBounds(wallets: map<Uuid, Wallet>, maxAmount: int)
  {
    forall id :: id in wallets ==> 0 <= wallets[id].amount <= maxAmount
  }

  /** Every wallet belongs to an existing account. */
  ghost predicate OwnedBy(wallets: map<Uuid, Wallet>, accounts: map<Uuid, Account>)
  {
    forall id :: id in wallets ==> wallets[id].accountId in accounts
  }
}
