/**
 The transfer route over a mutable account store. The handler snapshots the
 sender's record (as the authentication middleware loaded it) and the
 receiver's record (looked up by email), validates, changes the balances of
 the two copies and saves them back one after the other.
 */
module UserRoutes {
  import opened Ledger

  class AccountStore {
    /** The persisted user records, keyed by email. */
    var accounts: Store

    constructor (initial: Store)
      ensures accounts == initial
    {
      accounts := initial;
    }

    /** Looks up the record stored under `email`, if any. */
    method FindOne(email: Email) returns (found: Option<Account>)
      ensures found == Find(accounts, email)
    {
      if email in accounts {
        found := Some(accounts[email]);
      } else {
        found := None;
      }
    }

    /** Persists a copy of a record under its key; nothing else is written. */
    method Save(key: Email, record: Account)
      modifies this
      ensures accounts == Write(old(accounts), key, record)
    {
      accounts := accounts[key := record];
    }

    /**
     Handles one transfer request from the authenticated `sender`. The answer
     and the new store are those the specification gives for the old store.
     */
    method Transfer(sender: Email, receiverEmail: Email, amount: int) returns (r: TransferResult)
      requires sender in accounts
      modifies this
      ensures r == Outcome(old(accounts), sender, receiverEmail, amount)
      ensures accounts == Settled(old(accounts), sender, receiverEmail, amount)
      ensures sender != receiverEmail ==> Total(accounts) == Total(old(accounts))
      ensures NonNegative(old(accounts)) ==> NonNegative(accounts)
    {
      ghost var m := accounts;
      var senderCopy := accounts[sender];
      var receiverCopy := FindOne(receiverEmail);
      if receiverCopy.None? || amount <= 0 {
        TransferKeepsTotalAndNonNegative(m, sender, receiverEmail, amount);
        return InvalidTransaction;
      }
      if senderCopy.balance < amount {
        TransferKeepsTotalAndNonNegative(m, sender, receiverEmail, amount);
        return InsufficientBalance;
      }
      senderCopy := senderCopy.(balance := senderCopy.balance - amount);
      var credited := receiverCopy.value.(balance := receiverCopy.value.balance + amount);
      Save(sender, senderCopy);
      Save(receiverEmail, credited);
      assert accounts == Settled(m, sender, receiverEmail, amount);
      TransferKeepsTotalAndNonNegative(m, sender, receiverEmail, amount);
      r := Ok;
    }

    /**
     The corrected handler: the same steps, with a request addressed to the
     sender's own account rejected before anything is written.
     */
    method TransferChecked(sender: Email, receiverEmail: Email, amount: int) returns (r: TransferResult)
      requires sender in accounts
      modifies this
      ensures r == CheckedOutcome(old(accounts), sender, receiverEmail, amount)
      ensures accounts == CheckedSettled(old(accounts), sender, receiverEmail, amount)
      ensures Total(accounts) == Total(old(accounts))
      ensures NonNegative(old(accounts)) ==> NonNegative(accounts)
    {
      if receiverEmail == sender {
        return InvalidTransaction;
      }
      r := Transfer(sender, receiverEmail, amount);
    }
  }

  /** Conservation and non-negativity of one handled request, gathered for `Transfer`. */
  lemma TransferKeepsTotalAndNonNegative(m: Store, sender: Email, receiver: Email, amount: int)
    requires sender in m
    ensures sender != receiver ==> Total(Settled(m, sender, receiver, amount)) == Total(m)
    ensures NonNegative(m) ==> NonNegative(Settled(m, sender, receiver, amount))
  {
    if sender != receiver {
      TransferConservesTotal(m, sender, receiver, amount);
    }
    if NonNegative(m) {
      TransferPreservesNonNegative(m, sender, receiver, amount);
    }
  }
}
