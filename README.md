# Wallet ledger engine of simplepayments

This project models the ledger engine of `simplepayments` in Dafny.
The engine's own text, `app/crud.py`, is not available, so the behaviour modelled here comes from the assertions of its unit tests, `app/tests/unittests/test_crud.py`.

The stored state has three parts:

- an `account` table;
- a `wallet` table, where each wallet has an owner account, a currency code and an exact balance;
- an append-only ledger of `transaction` rows, each with its `posting` rows.

Money is an integer number of cents. The tests only use amounts with two decimals.

The engine offers three operations:

- `transfer(from_wallet_id, from_currency, to_wallet_id, to_currency, amount)` checks four things, in this order:
  1. the source (id, currency) pair exists;
  2. the destination pair exists;
  3. the source can pay the amount;
  4. the destination stays at or below `max_amount`.

  On success it debits the source and credits the destination. It records one `transfer` transaction with the postings (−amount, source) then (+amount, destination). It returns both new balances.
- `replenish(wallet_id, amount, currency)` checks that the pair exists, then that the balance stays at or below `max_amount`. On success it credits the wallet and records one `replenish` transaction with a single +amount posting.
- `create_account_with_wallet(name)` inserts an account and one empty USD wallet owned by it.

Each call either fails with a tagged error (`WalletNotFound`, `MaxAmountExceeded`, `InsufficientFunds`) and changes nothing, or applies all of its changes.

Layout:

- `wallets.dfy` (module `Wallets`): the wallet rows, the lookup by (id, currency), and the balance delta.
- `ledger.dfy` (module `Ledger`): transactions, postings, their sums, and the double-entry lemmas.
- `crud.dfy` (module `Crud`): each operation as a function from the tables before the call to its reply and the tables after. This module also holds the invariants the operations keep and the properties of sequences of operations.
- `engine.dfy` (module `Engine`): class `WalletLedger`. It holds the tables as fields and updates them in place, step by step. Each method is proved equal to the matching `Crud` function and keeps the object invariant.
- `scenarios.dfy` (module `Scenarios`): the concrete situations of the tests, with their numbers.

Two lemmas, `Crud.DisjointTransfersCommute` and `Crud.PayoutsDrainSource`, state, for operations run one after another, two properties concurrent callers rely on: disjoint transfers do not interfere, and no update is lost. Their rows cite the transfer test they build on.

The tests fix two points of the transfer check order. A missing source is reported before a missing destination (test_crud.py:202-206). Insufficient funds is reported before max amount exceeded (test_crud.py:259-267): there the source is empty, the destination is at the maximum, and insufficient funds is expected. Where the destination lookup falls relative to the sufficiency check is left open by the tests; the model looks up both wallets first.

## Model

| member | source | states |
|---|---|---|
| Wallets.ApplyDelta | app/tests/unittests/test_crud.py:150-164 | the balance delta adds the signed amount to one wallet; its owner and currency are kept, and no other wallet and no wallet id changes |
| Ledger.TransferTransaction | app/tests/unittests/test_crud.py:155-170 | a transfer record is of kind transfer with exactly two postings; they sum to zero; the source's net is −amount, the destination's net is +amount, and every other wallet's net is zero |
| Ledger.ReplenishTransaction | app/tests/unittests/test_crud.py:309-320 | a replenish record is of kind replenish with exactly one posting; its sum and the wallet's net are +amount, and every other wallet's net is zero |
| Ledger.WellFormedTransferBalances | app/tests/unittests/test_crud.py:166-170 | any well-formed transfer (a debit followed by the equal credit) has postings summing to zero |
| Ledger.TransferBalancedPerCurrency | app/tests/unittests/test_crud.py:166-170 | a transfer between two wallets of one currency sums to zero in every currency |
| Ledger.NetPostedAppend | app/tests/unittests/test_crud.py:155-158 | appending a transaction to the ledger changes each wallet's ledger net by exactly that transaction's net for the wallet |
| Ledger.NetPostedUntouched | app/tests/unittests/test_crud.py:155-158 | a wallet that no posting names has a ledger net of zero |
| Ledger.TotalPostedIsInjected | app/tests/unittests/test_crud.py:155-170 | double entry over the whole ledger: when every transaction is well formed, all postings together equal the money that replenish postings brought in |
| Ledger.InjectedNonNegative | app/tests/unittests/test_crud.py:309-320 | in a well-formed ledger, the total brought in by replenishes is never negative |
| Crud.Transfer | app/tests/unittests/test_crud.py:148-170 | success exactly when both (id, currency) pairs exist (a wallet is found only when its id exists and its stored currency equals the requested one), the source can pay and the destination can receive; on failure the tables are unchanged; on success the source drops by the amount, the destination gains it, nothing else changes, the reply carries both new balances with their ids and currencies, and exactly one transfer record (−amount on source, then +amount on destination) is appended |
| Crud.Replenish | app/tests/unittests/test_crud.py:304-320 | success exactly when the (id, currency) pair exists (id present and stored currency equal to the requested one) and balance + amount stays within the maximum; on failure the tables are unchanged; on success the wallet gains the amount with its currency kept, the reply is (id, new balance, currency), and exactly one replenish record with the single +amount posting is appended |
| Crud.CreateAccountWithWallet | app/tests/unittests/test_crud.py:25-43 | adds the named account and one wallet owned by it, in USD with balance 0; existing wallets and the ledger are untouched |
| Crud.TransferErrorPrecedence | app/tests/unittests/test_crud.py:194-267 | a missing source is reported even if the destination is missing too; a missing destination only once the source exists (the model's choice of looking up the destination before checking the source's funds is not pinned by the tests); insufficient funds (source id, amount, currency) before max amount; max amount carries the destination id, the maximum and the destination's current balance |
| Crud.ReplenishErrors | app/tests/unittests/test_crud.py:339-369 | a missing (id, currency) pair is reported with that pair; a balance that would exceed the maximum is reported with the id, the maximum and the current balance |
| Crud.FailureIsRepeatable | app/tests/unittests/test_crud.py:239-267 | a failed transfer or replenish, retried on the unchanged tables, fails again with the identical error and still changes nothing |
| Crud.TransferKeepsConsistent | app/tests/unittests/test_crud.py:239-267 | a transfer of a positive amount keeps every balance within [0, max_amount], every wallet owned by an account, and every record well formed and posting only to existing wallets |
| Crud.ReplenishKeepsConsistent | app/tests/unittests/test_crud.py:361-375 | a replenish of a positive amount keeps the same consistency conditions |
| Crud.CreateKeepsConsistent | app/tests/unittests/test_crud.py:25-43 | creating an account with its empty wallet keeps the same consistency conditions |
| Crud.TransferKeepsLedgerExplained | app/tests/unittests/test_crud.py:150-170 | after a transfer, every balance still equals its opening balance plus the net of its postings in the ledger |
| Crud.ReplenishKeepsLedgerExplained | app/tests/unittests/test_crud.py:304-320 | after a replenish, every balance still equals its opening balance plus the net of its postings |
| Crud.CreateKeepsLedgerExplained | app/tests/unittests/test_crud.py:38-43 | a new wallet opens at zero with no postings, so the ledger still explains every balance |
| Crud.TransferReadsOnlyItsWallets | app/tests/unittests/test_crud.py:148-153 | a transfer's reply depends only on its own two wallets |
| Crud.DisjointTransfersCommute | app/tests/unittests/test_crud.py:148-170 | two transfers over four distinct wallets get the same replies in either order and leave the same wallets; in either order the accounts are untouched and the ledger is the old ledger followed by each successful transfer's record in the order they ran |
| Crud.PayoutsDrainSource | app/tests/unittests/test_crud.py:148-164 | n transfers of `a` in a row, from a source holding n·a to n distinct destinations with room, all succeed; the source ends at 0, each destination gains `a`, no other wallet changes, and n records are appended |
| Engine.WalletLedger.constructor | app/tests/unittests/test_crud.py:123-145 | the engine starts from provisioned accounts and wallets within bounds, with an empty ledger, and its invariant holds |
| Engine.WalletLedger.Transfer | app/tests/unittests/test_crud.py:148-170 | the in-place transfer (two lookups, two checks, two deltas, one append) returns the reply and leaves the tables that Crud.Transfer gives for the old tables; it keeps the object invariant |
| Engine.WalletLedger.Replenish | app/tests/unittests/test_crud.py:304-320 | the in-place replenish returns the reply and leaves the tables that Crud.Replenish gives for the old tables; it keeps the object invariant |
| Engine.WalletLedger.CreateAccountWithWallet | app/tests/unittests/test_crud.py:25-43 | the in-place inserts leave the tables that Crud.CreateAccountWithWallet gives; they keep the object invariant, and the new wallet opens at 0 |
| Scenarios.TransferScenario | app/tests/unittests/test_crud.py:90-170 | 9999999.12 and 12.12, transfer 789.98: the reply and the stored balances are 9999209.14 and 802.10; the newest record is a transfer with (−789.98, source), (+789.98, destination) |
| Scenarios.TransferExceptionsScenario | app/tests/unittests/test_crud.py:175-267 | the four failing transfers of 1 USD, in test order, report: source not found, destination not found, max amount (destination, max, max), then insufficient funds (source, 1, USD); each leaves the tables unchanged |
| Scenarios.ReplenishScenario | app/tests/unittests/test_crud.py:272-320 | 9999999.12 replenished by 789.98: the reply and the stored wallet are 10000789.10 USD; the newest record is a replenish of 789.98 USD on that wallet |
| Scenarios.ReplenishExceptionsScenario | app/tests/unittests/test_crud.py:325-375 | a replenish of 1 USD reports not found with no wallet, and max amount (wallet, max, max) with the wallet at the maximum, leaving it unchanged |
| Scenarios.CreateAccountScenario | app/tests/unittests/test_crud.py:13-45 | with the UUID generator fixed, the wallet id equals the account id; the wallet is USD with balance 0 and belongs to the named account |

## Left out

- Database plumbing is not modelled: connect and disconnect, SQL text, `fetch_one`, `fetch_all`, `execute`, and async/await. Each operation is one atomic step on the tables.
- Row-level locking, lock order and concurrent callers are not modelled, because the model is a single-threaded sequence of atomic operations. `Crud.DisjointTransfersCommute` and `Crud.PayoutsDrainSource` state the serialized meaning of two concurrent properties.
- UUID generation is not modelled. The new ids are parameters of `CreateAccountWithWallet`, which requires them to be fresh, as `uuid4` values are.
- Timestamps (`created_at`) and account creation times are not modelled. The account name is kept.
- Error message texts are not modelled. Errors are tagged values with the same fields. The "transfer to" and "replenish to" wording of the two max-amount messages is not kept apart.
- `get_account_with_wallet` is not modelled: it is a join-and-project read with no logic.
- Python `Decimal` is modelled as an integer count of cents.
- A transfer from a wallet to itself is not modelled. It is excluded by a precondition, because the tests never exercise it.
- Engine.WalletLedger.Transfer: requires a positive amount. The model assumes callers pass positive amounts; what happens to a zero or negative amount is not visible, so there is no `InvalidRequest` error.
- Engine.WalletLedger.Replenish: requires a positive amount, for the same reason.
- Crud.TransferKeepsConsistent: assumes a positive amount, because a non-positive amount could push a balance out of [0, max_amount].
- Crud.ReplenishKeepsConsistent: assumes a positive amount, for the same reason.
- Crud.TransferErrorPrecedence: the tests leave open whether the destination lookup comes before or after the source-sufficiency check (a missing destination is only ever tested with a funded source, test_crud.py:225-229). The model looks up both wallets first, so a source at 0 with a missing destination reports `WalletNotFound` for the destination.
- Transfers between wallets of different currencies are not rejected, because no visible check rejects them. Each posting carries its own wallet's currency. The amounts still sum to zero, but the per-currency zero sum (`Ledger.TransferBalancedPerCurrency`) is proved only when the currencies match.
- The `Currency` enumeration is not modelled beyond its `USD` member. Other currencies are arbitrary codes.
- The test fixtures' direct SQL writes are not engine operations: the inserted wallets and the `UPDATE wallet SET amount = 0` of line 259. The engine object starts from provisioned tables. Those writes appear only as different starting tables in `Scenarios`.
- Boundary cases the tests do not pin: a debit to exactly 0 succeeds, and so does a credit to exactly `max_amount`.
