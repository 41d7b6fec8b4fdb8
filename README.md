# Sequential transfer ledger

A model of the core of a small account-transfer service: an in-memory repository that
maps account ids to accounts, a validator that checks a transfer's preconditions in a
fixed order, and the service operation `makeTransfer`, which looks up both accounts,
validates the request, applies a paired debit and credit through the repository's
delta batch and then notifies both parties.

Balances are Java `BigDecimal` values, which are exact; here they are Dafny `real`,
which is exact too. Comparisons in the source use `compareTo`, which is numeric, so
scale (`400.00` against `400`) plays no part.

Modules, one per component:

- `Wrappers`: `Option` (a Java `null` return) and `Outcome` (a `void` call that may throw).
- `Domain`: `Account`, `Transfer`, `AccountUpdate` and the exceptions as datatypes.
- `Validation`: the validator, a pure function, and the list of violated conditions it is checked against.
- `Ledger`: the account map as a value; `ApplyUpdates` is the effect of a delta batch, and `Total` is the sum of all balances.
- `Repository`: the class `AccountsRepositoryInMemory` with its mutable `accounts` map; `UpdateAccounts` walks the batch with a loop.
- `JavaString`: Java's `String.compareTo`, which `makeTransfer` uses to choose its lock order.
- `Service`: `ExecuteTransfer`, the effect of one transfer on values, and the class `AccountsService`, whose `MakeTransfer` is proved to do what `ExecuteTransfer` says. The lemmas in `Service` state what follows from that.

A missing account is a distinct outcome. `makeTransfer` compares the two accounts' ids
to choose its lock order before it validates anything. When either lookup returns
`null`, that comparison throws a `NullPointerException`. The model's `NullPointer`
outcome stands for that exception. The map is left unchanged and nobody is notified.
The validator's not-found branches therefore cannot be reached from `makeTransfer`.

The two lock-order branches of `makeTransfer` run identical statements, so the model
has one code path. `LockOrder` models the comparison that chooses the branch.

The notification service is an external collaborator. Each call to it is recorded, in
order, in the service's `notifications` sequence. A record holds the recipient account,
the direction, the other party's id and the amount. The recipient is the stored account
object itself, so the record carries its balance after the update.

## Model

| member | source | states |
|---|---|---|
| Validation.Validate | src/main/java/com/db/awmd/challenge/service/TransferValidationImpl.java:15-42 | with `SameAccount` (the request's two ids are equal, lines 35-37) and `EnoughFunds` (balance minus amount not below zero, lines 40-42) as its helpers: passes exactly when both accounts are present, the request's ids differ and the amount is at most the source balance; an absent source reports not-found with the source id before anything else; present source and absent destination reports the destination id; both present with equal ids reports same-account; distinct ids with too little balance reports not-enough-balance with the source account's id and balance |
| Validation.ValidateReportsFirstViolation | src/main/java/com/db/awmd/challenge/service/TransferValidationImpl.java:18-32 | against the independently stated list of violated conditions in check order: no violation iff the validator passes, otherwise it reports the first one |
| Validation.ValidatePrecedence | src/main/java/com/db/awmd/challenge/service/TransferValidationImpl.java:18-28 | with both accounts absent the source id is reported; a self-transfer with a missing account reports not-found, not same-account |
| Validation.SameAccountRegardlessOfFunds | src/main/java/com/db/awmd/challenge/service/TransferValidationImpl.java:26-37 | a request naming one id twice is refused as same-account whatever the balance and the amount |
| Validation.WholeBalanceAccepted | src/main/java/com/db/awmd/challenge/service/TransferValidationImpl.java:40-42 | an amount equal to the source balance passes, because the test is "balance minus amount is not below zero" |
| Ledger.Lookup | src/main/java/com/db/awmd/challenge/repository/AccountsRepositoryInMemory.java:27-29 | absent (null) exactly for an id not in the map, otherwise the stored account |
| Ledger.ApplyUpdate | src/main/java/com/db/awmd/challenge/repository/AccountsRepositoryInMemory.java:45-51 | one delta entry never adds or removes keys and keeps every account under its own id |
| Ledger.ApplyUpdates | src/main/java/com/db/awmd/challenge/repository/AccountsRepositoryInMemory.java:37-43 | the entries applied in list order never add or remove keys and keep every account under its own id |
| Ledger.ApplyUpdatesBalance | src/main/java/com/db/awmd/challenge/repository/AccountsRepositoryInMemory.java:37-51 | each stored account ends with its old balance plus the sum of all deltas for its id, so repeated ids accumulate; its id is unchanged |
| Ledger.ApplyUpdatesUntouched | src/main/java/com/db/awmd/challenge/repository/AccountsRepositoryInMemory.java:45-50 | an account the batch does not name is left exactly as it was |
| Ledger.ApplyUpdatesTotal | src/main/java/com/db/awmd/challenge/repository/AccountsRepositoryInMemory.java:37-51 | the sum of all balances changes by exactly the deltas whose ids are stored; entries for absent ids are skipped |
| Ledger.UpdateBatchExample | src/test/java/com/db/awmd/challenge/repository/AccountsRepositoryInMemoryTest.java:24-37 | balances 0 and 500.00 with deltas 0 and -100 become 0 and 400.00, other accounts untouched |
| Repository.AccountsRepositoryInMemory.constructor | src/main/java/com/db/awmd/challenge/repository/AccountsRepositoryInMemory.java:15 | the repository starts with an empty map |
| Repository.AccountsRepositoryInMemory.CreateAccount | src/main/java/com/db/awmd/challenge/repository/AccountsRepositoryInMemory.java:17-24 | succeeds iff the id is fresh, and then the account is stored and returned by a lookup of its id; an existing id fails with DuplicateAccount for that id and the map, including the stored account, is unchanged |
| Repository.AccountsRepositoryInMemory.GetAccount | src/main/java/com/db/awmd/challenge/repository/AccountsRepositoryInMemory.java:26-29 | null exactly for an id not in the map; otherwise the stored account, whose id is the one asked for |
| Repository.AccountsRepositoryInMemory.ClearAccounts | src/main/java/com/db/awmd/challenge/repository/AccountsRepositoryInMemory.java:31-34 | the map is empty afterwards |
| Repository.AccountsRepositoryInMemory.UpdateAccounts | src/main/java/com/db/awmd/challenge/repository/AccountsRepositoryInMemory.java:36-43 | the loop over the batch leaves the map equal to the entries applied in list order, keeps every account under its own id, and returns true |
| Repository.AccountsRepositoryInMemory.UpdateAccount | src/main/java/com/db/awmd/challenge/repository/AccountsRepositoryInMemory.java:45-51 | adds the delta to the stored balance of a present id and skips an absent one |
| JavaString.CompareToAntisymmetric | src/main/java/com/db/awmd/challenge/service/AccountsService.java:51 | swapping the operands of the id comparison negates it |
| JavaString.CompareTo | src/main/java/com/db/awmd/challenge/service/AccountsService.java:51 | Java's `String.compareTo` on the two ids: zero exactly for equal ids |
| Service.LockOrder | src/main/java/com/db/awmd/challenge/service/AccountsService.java:51-70 | the `compareTo(...) < 1` choice locks both accounts, the id that does not compare above the other first |
| Service.LockOrderConsistent | src/main/java/com/db/awmd/challenge/service/AccountsService.java:51-70 | transfers over the same two accounts, in either direction, lock them in the same order |
| Service.ExecuteTransfer | src/main/java/com/db/awmd/challenge/service/AccountsService.java:45-84 | submits `TransferBatch`, the source's negated amount then the destination's amount (lines 55-58); a transfer keeps the set of ids; any outcome other than completion leaves the map unchanged and issues no notification |
| Service.TransferMissingAccount | src/main/java/com/db/awmd/challenge/service/AccountsService.java:47-51 | a missing source or destination ends in the null-pointer failure, with the map unchanged and no notification |
| Service.TransferNeverReportsNotFound | src/main/java/com/db/awmd/challenge/service/AccountsService.java:47-54 | a transfer never ends with the validator's not-found error |
| Service.TransferRefusals | src/main/java/com/db/awmd/challenge/service/AccountsService.java:54-58 | with both accounts stored, a self-transfer is refused as same-account and an amount above the source balance is refused with the source id and its balance; the map is untouched and nobody is notified |
| Service.TransferCompletesIff | src/main/java/com/db/awmd/challenge/service/AccountsService.java:45-58 | a transfer completes iff both accounts exist, the ids differ and the amount is at most the source balance |
| Service.TransferMovesAmount | src/main/java/com/db/awmd/challenge/service/AccountsService.java:55-64 | a completed transfer debits the source and credits the destination by the amount, leaves every other account unchanged, and issues exactly two notifications, source first, each carrying the account's new state |
| Service.TransferConservesTotal | src/main/java/com/db/awmd/challenge/service/AccountsService.java:55-58 | the sum of all balances is the same after any transfer |
| Service.TransferWholeBalance | src/main/java/com/db/awmd/challenge/service/AccountsService.java:54-58 | moving the entire source balance to another account completes and leaves the source at zero |
| Service.TransferExample | src/main/java/com/db/awmd/challenge/service/AccountsService.java:54-58 | A = 1000.00 and B = 500.00: moving 1000.00 from A to B gives A = 0 and B = 1500.00; moving 1 more is then refused with A's id and zero balance |
| Service.AccountsService.constructor | src/main/java/com/db/awmd/challenge/service/AccountsService.java:29-33 | the service holds the given repository and has issued no notification |
| Service.AccountsService.CreateAccount | src/main/java/com/db/awmd/challenge/service/AccountsService.java:35-37 | delegates to the repository: same outcome, same effect on the map |
| Service.AccountsService.GetAccount | src/main/java/com/db/awmd/challenge/service/AccountsService.java:39-42 | delegates to the repository: null exactly for an absent id |
| Service.AccountsService.MakeTransfer | src/main/java/com/db/awmd/challenge/service/AccountsService.java:45-89 | its outcome, the repository's new map and the notifications appended are those of ExecuteTransfer on the old map, and the repository keeps every account under its own id |

## Left out

- Concurrency: the order in which `makeTransfer` would lock the two accounts is chosen by `LockOrder`, but lock acquisition, the `synchronized` blocks, deadlock freedom and the atomicity of `ConcurrentHashMap` operations are not modelled; the model is the sequential effect of each operation.
- Aliasing: the source stores the caller's `Account` object and mutates it in place, so the caller sees later balance changes; the model stores account values in the map.
- The `Account` class is not part of this model; an account is an id and a balance, and its id is taken to be fixed once stored.
- Exception and notification message texts are not modelled; errors and notifications are datatypes carrying the ids and amounts.
- Notification delivery is not modelled: the notification service is an external collaborator, and the model only records the calls made to it. Each call is assumed to return normally; a notifier that threw after the update would leave the ledger changed, stop at the call that threw and propagate the exception out of `makeTransfer`.
- The bean-validation annotations on the transfer request (non-empty ids, amount of at least 1) are enforced by the web framework, not by the service; the model accepts any numeric amount, as `makeTransfer` itself does. The `@NotNull` fields are taken as given; null ids, which make `makeTransfer` throw a NullPointerException at the lookup, and null amounts, which make it throw one in the funds check unless the request names one id twice, cannot be represented.
- `BigDecimal` scale is not modelled; only numeric values matter to the code's `compareTo` and arithmetic.
- JavaString.CompareTo: Java compares UTF-16 code units, while Dafny characters are Unicode scalar values, so the two can disagree for characters outside the Basic Multilingual Plane.
- The HTTP controller (routing, status codes, logging) is I/O glue and is not part of this model; the repository and validator interfaces carry no logic.
