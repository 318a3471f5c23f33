# Ewallet balance transfer

This project models the balance transfer of the Ewallet service, the `POST /users/transaction`
route (Ewallet/userRoutes.js:67-92). The authentication middleware has already loaded the sender's
user record. The handler looks up the receiver by email. It rejects the request with
"Invalid transaction" when no user has that email or the amount is not positive. It then rejects
with "Insufficient balance" when the sender holds less than the amount. Otherwise it debits its copy
of the sender, credits its copy of the receiver, and saves the two copies one after the other:
sender first, receiver second.

The model has two modules:

- `Ledger` (ledger.dfy) is the specification, written as values. The user collection is a
  `map<Email, Account>`. `Account` keeps the fields a transfer must leave alone (user name,
  password hash, tokens) beside the balance. `Outcome` gives the handler's answer. `Settled` gives
  the store after the two writes, both made from copies read before either write. `Total` is the
  money held by the wallet. The lemmas state conservation, non-negativity, what a self-transfer
  does, and how repeated transfers drain a sender.
- `UserRoutes` (user_routes.dfy) is the handler over mutable state. The class `AccountStore` holds the
  collection as a field. `FindOne` and `Save` stand for the model's lookup and document save.
  `Transfer` follows the handler step by step, and its postconditions tie its answer and the new
  store to `Outcome` and `Settled`.

The code accepts a transfer whose receiver email is the sender's own. Because the receiver's copy
is saved last, that request adds `amount` to the sender's balance. The model keeps this behaviour
in `Transfer`. `TransferChecked` is a corrected variant, described under Findings.

The checks run in the code's order: receiver and amount, then balance. The two saves are
independent writes.

## Model

| member | source | states |
|---|---|---|
| `UserRoutes.AccountStore.FindOne` | Ewallet/userRoutes.js:71 | The lookup by email returns `Find` of the stored collection: a record exactly when one is stored under that email, and then that record. |
| `UserRoutes.AccountStore.Save` | Ewallet/userRoutes.js:85-86 | Saving a copy replaces the record stored under its key and writes nothing else. |
| `Ledger.Outcome` | Ewallet/userRoutes.js:74-80 | The answer is "Invalid transaction" exactly when the receiver is missing or the amount is not positive. This holds whatever the balance is, so that check comes first. The answer is "Insufficient balance" exactly when the receiver exists, the amount is positive and the sender holds less. Success needs an existing receiver and 0 < amount <= the sender's balance. |
| `Ledger.Settled` | Ewallet/userRoutes.js:82-86 | A rejection leaves the store unchanged. On success between distinct accounts, the sender's stored balance is old − amount and is non-negative, and the receiver's is old + amount. On a self-transfer, the stored balance ends at old + amount. Every other account is unchanged. Every non-balance field of every account is unchanged. The set of accounts is the same. |
| `UserRoutes.AccountStore.Transfer` | Ewallet/userRoutes.js:67-92 | The handler's answer is `Outcome` of the old store, and the new store is `Settled` of the old store. Between distinct accounts the total money is conserved. If no balance was negative before, none is negative after. |
| `Ledger.TransferConservesTotal` | Ewallet/userRoutes.js:82-86 | Between distinct accounts, every request leaves the sum of all balances unchanged, whether it succeeds or is rejected. |
| `Ledger.TransferPreservesNonNegative` | Ewallet/userRoutes.js:78-83 | If every balance is non-negative before a request, every balance is non-negative after it, because the balance check precedes the debit. |
| `Ledger.SelfTransferMintsAmount` | Ewallet/userRoutes.js:70-86 | When the receiver email is the sender's own key and 0 < amount <= balance, the request succeeds. The stored balance ends at old + amount, and the sum of all balances grows by amount. |
| `Ledger.RepeatedTransfersDrainSender` | Ewallet/userRoutes.js:78-86 | A sender holding exactly n × amount can make n transfers of amount, one after another, to another account. The sender ends at 0 and the receiver gains n × amount. One more request is answered "Insufficient balance". |
| `Ledger.CheckedOutcome` | Ewallet/userRoutes.js:74-76 | Corrected handler: a request addressed to the sender itself is answered "Invalid transaction". Any other request gets the original handler's answer. |
| `Ledger.CheckedSettled` | Ewallet/userRoutes.js:74-86 | Corrected handler: a request not answered with success leaves the store unchanged. A successful request is one between distinct accounts. Its store is the original handler's: the sender's balance is old − amount and non-negative, and the receiver's is old + amount. Every other account and every non-balance field are unchanged, and the set of accounts is the same. |
| `Ledger.CheckedTransferConservesTotal` | Ewallet/userRoutes.js:74-86 | Corrected handler: no request changes the sum of all balances. |
| `UserRoutes.AccountStore.TransferChecked` | Ewallet/userRoutes.js:67-92 | Corrected handler over the mutable store: its answer is `CheckedOutcome`, its new store is `CheckedSettled`, and the total money is always conserved. If no balance was negative before, none is negative after. |

## Left out

- Registration, login, the profile route, the Joi schema and its handler, and the `/api/users` stub (Ewallet/userRoutes.js:8-64, 94-131) are not part of this model. They are calls into hashing, token and validation libraries, or placeholder code.
- Authentication (Ewallet/auth.js) is modelled only by its result: the sender's key is stored in the collection (`requires sender in accounts`). Token verification and the 401 answer happen before the handler runs.
- Server start-up, Express, HTTPS and the MongoDB connection (Ewallet/app.js, Ewallet/backend/server.js) are I/O and configuration.
- The catch branch (Ewallet/userRoutes.js:89-91) is not modelled. Saves are modelled as writes that cannot fail. So the case where the first save succeeds and the second throws, leaving a debit with no credit, is not captured.
- The response body `{ sender, receiver }` and the HTTP status codes are replaced by the `TransferResult` answer.
- A Mongoose save writes only the modified paths. The model writes the whole copy. Run one request at a time, the two are the same, because each copy differs from the stored record only in its balance.
- Concurrency is left out: async interleaving of requests, a sender snapshot that goes stale between authentication and save, and lost updates. Requests are handled one at a time, so the sender snapshot equals the stored record when the handler starts.
- JavaScript number semantics are left out: floating-point amounts and balances, amounts that arrive as strings, and missing amounts (`undefined` passes both checks and yields `NaN`). Amounts and balances are mathematical integers.
- The user collection is keyed by email, so at most one user has a given email. The user model that would enforce this is not part of this model.

## Findings

| source | as written | input that shows it | evidently intended | confidence | as-written member | corrected member |
|---|---|---|---|---|---|---|
| Ewallet/userRoutes.js:70-86 | No check that the receiver differs from the sender. Both copies are read before either save, and the receiver's copy is saved last. | A sender with balance 100 transfers 50 to their own email. The answer is success and the stored balance becomes 150, so the wallet holds 50 more than before. | A self-transfer is rejected (or leaves the balance unchanged), so the total money held by the wallet never changes. | high (not executed) | `Ledger.SelfTransferMintsAmount` | `Ledger.CheckedTransferConservesTotal` |
