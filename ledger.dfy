/**
 Specification of the wallet's balance transfer, `POST /users/transaction`.

 The account store is a map from an account's email to its record. A transfer
 request names the authenticated sender (by its key), the receiver's email and
 an amount; the handler validates the request and then writes back two copies
 of records that it read before changing anything: first the sender's, then the
 receiver's. `Outcome` gives the handler's answer and `Settled` the store it
 leaves behind.
 */
module Ledger {

  type Email = string

  datatype Option<T> = None | Some(value: T)

  /** One user record; only `balance` is touched by a transfer. */
  datatype Account = Account(username: string, passwordHash: string, tokens: seq<string>, balance: int)

  /** The handler's three answers: the two 400 rejections and success. */
  datatype TransferResult = InvalidTransaction | InsufficientBalance | Ok

  type Store = map<Email, Account>

  /** Every field of `a` other than the balance equals that of `b`. */
  predicate SameExceptBalance(a: Account, b: Account)
  {
    a.username == b.username && a.passwordHash == b.passwordHash && a.tokens == b.tokens
  }

  /** The record found for `email`, as a lookup by email returns it. */
  function Find(m: Store, email: Email): (found: Option<Account>)
    ensures found.Some? <==> email in m
    ensures found.Some? ==> found.value == m[email]
  {
    if email in m then Some(m[email]) else None
  }

  /**
   The handler's answer. The receiver and amount are checked first, the
   sender's balance second; nothing compares the receiver with the sender.
   */
  function Outcome(m: Store, sender: Email, receiver: Email, amount: int): (r: TransferResult)
    requires sender in m
    ensures r == InvalidTransaction <==> receiver !in m || amount <= 0
    ensures r == InsufficientBalance <==> receiver in m && 0 < amount && m[sender].balance < amount
    ensures r == Ok ==> receiver in m && 0 < amount <= m[sender].balance
  {
    if Find(m, receiver).None? || amount <= 0 then InvalidTransaction
    else if m[sender].balance < amount then InsufficientBalance
    else Ok
  }

  /** Saving a record: the stored record under `key` becomes `record`. */
  function Write(m: Store, key: Email, record: Account): (m': Store)
    ensures m'.Keys == m.Keys + {key}
    ensures key in m' && m'[key] == record
    ensures forall k :: k in m && k != key ==> k in m' && m'[k] == m[k]
  {
    m[key := record]
  }

  /**
   The store after the handler: unchanged on a rejection; otherwise the
   sender's copy (debited) is written, then the receiver's copy (credited),
   both copies having been read from the store before either write.
   */
  function Settled(m: Store, sender: Email, receiver: Email, amount: int): (m': Store)
    requires sender in m
    ensures m'.Keys == m.Keys
    ensures Outcome(m, sender, receiver, amount) != Ok ==> m' == m
    ensures forall k :: k in m && k != sender && k != receiver ==> m'[k] == m[k]
    ensures forall k :: k in m ==> SameExceptBalance(m'[k], m[k])
    ensures Outcome(m, sender, receiver, amount) == Ok && sender != receiver ==>
              m'[sender].balance == m[sender].balance - amount &&
              m'[receiver].balance == m[receiver].balance + amount &&
              m'[sender].balance >= 0
    ensures Outcome(m, sender, receiver, amount) == Ok && sender == receiver ==>
              m'[sender].balance == m[sender].balance + amount
  {
    if Outcome(m, sender, receiver, amount) != Ok then m
    else
      var senderCopy := m[sender];
      var receiverCopy := Find(m, receiver).value;
      var m1 := Write(m, sender, senderCopy.(balance := senderCopy.balance - amount));
      Write(m1, receiver, receiverCopy.(balance := receiverCopy.balance + amount))
  }

  /** Every stored balance is non-negative. */
  ghost predicate NonNegative(m: Store)
  {
    forall k :: k in m ==> m[k].balance >= 0
  }

  /** The sum of all stored balances: the money held by the wallet. */
  ghost function Total(m: Store): int
    decreases |m|
  {
    if m == map[] then 0
    else
      var k :| k in m;
      m[k].balance + Total(m - {k})
  }

  /** Any key may be taken out first when summing the balances. */
  lemma {:induction false} TotalRemove(m: Store, k: Email)
    requires k in m
    ensures Total(m) == m[k].balance + Total(m - {k})
    decreases |m|
  {
    var j :| j in m && Total(m) == m[j].balance + Total(m - {j});
    if j != k {
      var mj, mk := m - {j}, m - {k};
      assert k in mj && j in mk;
      TotalRemove(mj, k);
      TotalRemove(mk, j);
      assert mj - {k} == mk - {j};
    }
  }

  /** Overwriting one existing balance changes the sum by the difference. */
  lemma TotalWrite(m: Store, k: Email, record: Account)
    requires k in m
    ensures Total(Write(m, k, record)) == Total(m) - m[k].balance + record.balance
  {
    var m' := Write(m, k, record);
    TotalRemove(m, k);
    TotalRemove(m', k);
    assert m' - {k} == m - {k};
  }

  /** A transfer between two different accounts neither creates nor destroys money. */
  lemma TransferConservesTotal(m: Store, sender: Email, receiver: Email, amount: int)
    requires sender in m && sender != receiver
    ensures Total(Settled(m, sender, receiver, amount)) == Total(m)
  {
    if Outcome(m, sender, receiver, amount) == Ok {
      var debited := m[sender].(balance := m[sender].balance - amount);
      var credited := m[receiver].(balance := m[receiver].balance + amount);
      var m1 := Write(m, sender, debited);
      assert Settled(m, sender, receiver, amount) == Write(m1, receiver, credited);
      TotalWrite(m, sender, debited);
      assert m1[receiver] == m[receiver];
      TotalWrite(m1, receiver, credited);
    }
  }

  /**
   Sending to oneself is accepted, and because the receiver's copy is written
   last, the stored balance grows by `amount`: the wallet holds more money.
   */
  lemma SelfTransferMintsAmount(m: Store, sender: Email, amount: int)
    requires sender in m && 0 < amount <= m[sender].balance
    ensures Outcome(m, sender, sender, amount) == Ok
    ensures Settled(m, sender, sender, amount)[sender].balance == m[sender].balance + amount
    ensures Total(Settled(m, sender, sender, amount)) == Total(m) + amount
  {
    var debited := m[sender].(balance := m[sender].balance - amount);
    var credited := m[sender].(balance := m[sender].balance + amount);
    var m1 := Write(m, sender, debited);
    assert Settled(m, sender, sender, amount) == Write(m1, sender, credited);
    TotalWrite(m, sender, debited);
    TotalWrite(m1, sender, credited);
  }

  /** A transfer keeps every stored balance non-negative. */
  lemma TransferPreservesNonNegative(m: Store, sender: Email, receiver: Email, amount: int)
    requires sender in m && NonNegative(m)
    ensures NonNegative(Settled(m, sender, receiver, amount))
  {
  }

  /** The store after `n` identical requests handled one after another. */
  function Repeat(m: Store, sender: Email, receiver: Email, amount: int, n: nat): (m': Store)
    requires sender in m
    ensures m'.Keys == m.Keys
    decreases n
  {
    if n == 0 then m else Repeat(Settled(m, sender, receiver, amount), sender, receiver, amount, n - 1)
  }

  /**
   A sender holding exactly `n * amount` can make `n` transfers of `amount` to
   another account, which ends `n * amount` richer; the sender ends at zero, and
   one more request is refused for insufficient balance.
   */
  lemma {:induction false} RepeatedTransfersDrainSender(m: Store, sender: Email, receiver: Email, amount: int, n: nat)
    requires sender in m && receiver in m && sender != receiver
    requires 0 < amount && m[sender].balance == n * amount
    ensures Repeat(m, sender, receiver, amount, n)[sender].balance == 0
    ensures Repeat(m, sender, receiver, amount, n)[receiver].balance == m[receiver].balance + n * amount
    ensures Outcome(Repeat(m, sender, receiver, amount, n), sender, receiver, amount) == InsufficientBalance
    decreases n
  {
    if n > 0 {
      assert Outcome(m, sender, receiver, amount) == Ok;
      var m' := Settled(m, sender, receiver, amount);
      assert m'[sender].balance == (n - 1) * amount;
      RepeatedTransfersDrainSender(m', sender, receiver, amount, n - 1);
    }
  }

  /**
   The handler with the missing check added: a request whose receiver is the
   sender itself is rejected like any other invalid transaction.
   */
  function CheckedOutcome(m: Store, sender: Email, receiver: Email, amount: int): (r: TransferResult)
    requires sender in m
    ensures receiver == sender ==> r == InvalidTransaction
    ensures receiver != sender ==> r == Outcome(m, sender, receiver, amount)
  {
    if receiver == sender then InvalidTransaction else Outcome(m, sender, receiver, amount)
  }

  /** The store after the corrected handler. */
  function CheckedSettled(m: Store, sender: Email, receiver: Email, amount: int): (m': Store)
    requires sender in m
    ensures m'.Keys == m.Keys
    ensures CheckedOutcome(m, sender, receiver, amount) != Ok ==> m' == m
    ensures CheckedOutcome(m, sender, receiver, amount) == Ok ==>
              m' == Settled(m, sender, receiver, amount) &&
              sender != receiver &&
              m'[sender].balance == m[sender].balance - amount >= 0 &&
              m'[receiver].balance == m[receiver].balance + amount
    ensures forall k :: k in m && k != sender && k != receiver ==> m'[k] == m[k]
    ensures forall k :: k in m ==> SameExceptBalance(m'[k], m[k])
  {
    if receiver == sender then m else Settled(m, sender, receiver, amount)
  }

  /** With the check added, no request changes the money held by the wallet. */
  lemma CheckedTransferConservesTotal(m: Store, sender: Email, receiver: Email, amount: int)
    requires sender in m
    ensures Total(CheckedSettled(m, sender, receiver, amount)) == Total(m)
  {
    if receiver != sender {
      TransferConservesTotal(m, sender, receiver, amount);
    }
  }
}
