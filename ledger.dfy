/** The append-only ledger: the `transaction` table and the `posting` rows
    attached to each transaction, with the sums that relate the ledger to the
    wallet balances. */
module Ledger {
  import opened Wallets

  datatype TransactionType = Transfer | Replenish

  /** One signed line item: one wallet's side of a money movement. */
  datatype Posting = Posting(walletId: Uuid, currency: Currency, amount: int)

  /** One money-movement event and its postings, in insertion order. */
  datatype Transaction = Transaction(kind: TransactionType, postings: seq<Posting>)

  /** The record of a transfer: a debit on the source, then a credit of the
      same magnitude on the destination. */
  function TransferTransaction(fromId: Uuid, fromCurrency: Currency, toId: Uuid, toCurrency: Currency, amount: int): (t: Transaction)
    ensures t.kind == Transfer && |t.postings| == 2
    ensures Sum(t.postings) == 0
    ensures NetOf(t.postings, fromId) == if fromId == toId then 0 else -amount
    ensures NetOf(t.postings, toId) == if fromId == toId then 0 else amount
    ensures forall id :: id != fromId && id != toId ==> NetOf(t.postings, id) == 0
  {
    var debit, credit := Posting(fromId, fromCurrency, -amount), Posting(toId, toCurrency, amount);
    PairSums(debit, credit);
    Transaction(Transfer, [debit, credit])
  }

  /** The record of a replenish: a single posting that brings money in from
      outside the ledger, deliberately not balanced by a second posting. */
  function ReplenishTransaction(id: Uuid, currency: Currency, amount: int): (t: Transaction)
    ensures t.kind == Replenish && |t.postings| == 1
    ensures Sum(t.postings) == amount
    ensures NetOf(t.postings, id) == amount
    ensures forall other :: other != id ==> NetOf(t.postings, other) == 0
  {
    var ps := [Posting(id, currency, amount)];
    assert ps[1..] == [];
    Transaction(Replenish, ps)
  }

  /** The sums of a two-posting list, spelled out. */
  lemma PairSums(p: Posting, q: Posting)
    ensures Sum([p, q]) == p.amount + q.amount
    ensures forall c :: SumIn([p, q], c) == (if p.currency == c then p.amount else 0) + (if q.currency == c then q.amount else 0)
    ensures forall id :: NetOf([p, q], id) == (if p.walletId == id then p.amount else 0) + (if q.walletId == id then q.amount else 0)
  {
    var ps := [p, q];
    assert ps[1..] == [q];
    assert [q][1..] == [];
    assert Sum([q]) == q.amount;
    assert Sum(ps) == p.amount + Sum([q]);
    forall c ensures SumIn(ps, c) == (if p.currency == c then p.amount else 0) + (if q.currency == c then q.amount else 0) {
      assert SumIn([q], c) == (if q.currency == c then q.amount else 0);
    }
    forall id ensures NetOf(ps, id) == (if p.walletId == id then p.amount else 0) + (if q.walletId == id then q.amount else 0) {
      assert NetOf([q], id) == (if q.walletId == id then q.amount else 0);
    }
  }

  /** The signed sum of a list of postings. */
  function Sum(ps: seq<Posting>): int
  {
    if ps == [] then 0 else ps[0].amount + Sum(ps[1..])
  }

  /** The signed sum of the postings in one currency. */
  function SumIn(ps: seq<Posting>, currency: Currency): int
  {
    if ps == [] then 0
    else (if ps[0].currency == currency then ps[0].amount else 0) + SumIn(ps[1..], currency)
  }

  /** The net change a list of postings makes to one wallet. */
  function NetOf(ps: seq<Posting>, id: Uuid): int
  {
    if ps == [] then 0
    else (if ps[0].walletId == id then ps[0].amount else 0) + NetOf(ps[1..], id)
  }

  /** The net change the whole ledger has made to one wallet. */
  function NetPosted(ts: seq<Transaction>, id: Uuid): int
  {
    if ts == [] then 0 else NetOf(ts[0].postings, id) + NetPosted(ts[1..], id)
  }

  /** The signed sum of every posting in the ledger. */
  function TotalPosted(ts: seq<Transaction>): int
  {
    if ts == [] then 0 else Sum(ts[0].postings) + TotalPosted(ts[1..])
  }

  /** The money brought in from outside: the sum of the replenish postings. */
  function Injected(ts: seq<Transaction>): int
  {
    if ts == [] then 0
    else (if ts[0].kind == Replenish then Sum(ts[0].postings) else 0) + Injected(ts[1..])
  }

  /** The shape every recorded transaction has: a transfer is a balanced pair
      (a debit, then the equal credit), a replenish is one positive posting. */
  ghost predicate WellFormed(t: Transaction)
  {
    match t.kind
    case Transfer =>
      |t.postings| == 2 && t.postings[0].amount < 0 && t.postings[1].amount == -t.postings[0].amount
    case Replenish =>
      |t.postings| == 1 && t.postings[0].amount > 0
  }

  /** Every posting of `t` names a wallet in `ids`. */
  ghost predicate PostsWithin(t: Transaction, ids: set<Uuid>)
  {
    forall i :: 0 <= i < |t.postings| ==> t.postings[i].walletId in ids
  }

  /** A well-formed transfer is balanced: its postings sum to zero. */
  lemma WellFormedTransferBalances(t: Transaction)
    requires WellFormed(t) && t.kind == Transfer
    ensures Sum(t.postings) == 0
  {
    var ps := t.postings;
    assert ps[1..][1..] == [];
    assert Sum(ps[1..]) == ps[1].amount;
  }

  /** A transfer between two wallets of the same currency is balanced in that
      currency, and posts nothing in any other currency. */
  lemma {:induction false} TransferBalancedPerCurrency(fromId: Uuid, toId: Uuid, currency: Currency, amount: int, other: Currency)
    ensures SumIn(TransferTransaction(fromId, currency, toId, currency, amount).postings, other) == 0
  {
    var t := TransferTransaction(fromId, currency, toId, currency, amount);
    PairSums(t.postings[0], t.postings[1]);
    assert t.postings == [t.postings[0], t.postings[1]];
  }

  /** Appending a transaction changes a wallet's net by that transaction's net. */
  lemma {:induction false} NetPostedAppend(ts: seq<Transaction>, t: Transaction, id: Uuid)
    ensures NetPosted(ts + [t], id) == NetPosted(ts, id) + NetOf(t.postings, id)
  {
    if ts == [] {
      assert [t][1..] == [];
    } else {
      assert (ts + [t])[1..] == ts[1..] + [t];
      NetPostedAppend(ts[1..], t, id);
    }
  }

  /** A wallet that no posting names has a net of zero. */
  lemma {:induction false} NetOfUntouched(ps: seq<Posting>, id: Uuid)
    requires forall i :: 0 <= i < |ps| ==> ps[i].walletId != id
    ensures NetOf(ps, id) == 0
  {
    if ps != [] {
      NetOfUntouched(ps[1..], id);
    }
  }

  /** A wallet outside every transaction's postings has a ledger net of zero. */
  lemma {:induction false} NetPostedUntouched(ts: seq<Transaction>, ids: set<Uuid>, id: Uuid)
    requires forall k :: 0 <= k < |ts| ==> PostsWithin(ts[k], ids)
    requires id !in ids
    ensures NetPosted(ts, id) == 0
  {
    if ts != [] {
      NetOfUntouched(ts[0].postings, id);
      NetPostedUntouched(ts[1..], ids, id);
    }
  }

  /** Double entry over the whole ledger: when every transaction is well
      formed, all postings together sum to exactly the money that replenishes
      brought in, so transfers create and destroy nothing. */
  lemma {:induction false} TotalPostedIsInjected(ts: seq<Transaction>)
    requires forall k :: 0 <= k < |ts| ==> WellFormed(ts[k])
    ensures TotalPosted(ts) == Injected(ts)
  {
    if ts != [] {
      if ts[0].kind == Transfer {
        WellFormedTransferBalances(ts[0]);
      }
      TotalPostedIsInjected(ts[1..]);
    }
  }

  /** Money only enters: the replenished total is never negative. */
  lemma {:induction false} InjectedNonNegative(ts: seq<Transaction>)
    requires forall k :: 0 <= k < |ts| ==> WellFormed(ts[k])
    ensures Injected(ts) >= 0
  {
    if ts != [] {
      assert WellFormed(ts[0]);
      if ts[0].kind == Replenish {
        assert ts[0].postings[1..] == [];
        assert Sum(ts[0].postings) == ts[0].postings[0].amount;
      }
      InjectedNonNegative(ts[1..]);
    }
  }
}
