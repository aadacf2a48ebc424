# Bank service ledger, modelled in Dafny

This project models `BankService`, the service of a small banking application that keeps
users, accounts and checks in three SQL tables and runs one parameterised statement (or a short
sequence of them) per public method. The model keeps the three tables as maps from PRIMARY KEY
to row, held in the fields of a `BankService` class whose methods change them in place:

- `users`: `id → (password, role)`
- `accounts`: `accountId → (balance, ownerId)`
- `checks`: `checkId → (amount, accountId, isValidated)`

Files and modules:

- `results.dfy` (`Results`): `Option`, and `Outcome = Ok | Failed(Error)` for an operation that is
  refused (the source raises `SQLException`). There are three reasons. `DuplicateKey` is raised by the
  store, when an INSERT hits a PRIMARY KEY. `TransferRejected` and `CheckNotFound` are thrown by the
  service's own code: a transfer whose accounts are missing or whose funds are short, and a check
  that is missing or already validated.
- `entities.dfy` (`Entities`): the records `User`, `Account`, `Check`.
- `tables.dfy` (`Tables`): the row types, the tables, the statement functions the methods are
  specified by (`Credited`, `Debited`, `Transferred`, `Validated`), the two list queries as sets
  (`AccountsOwnedBy`, `PendingChecksOf`), and `Total`, the sum of all balances.
- `ledger_properties.dfy` (`LedgerProperties`): conservation of money, the effect of a transfer and
  of a validation, the transfer round trip, and the check lifecycle.
- `bank_service.dfy` (`Bank`): the class `BankService`, one method per public method of the source.
  Inserts are refused on a duplicate key; updates and deletes whose key is absent match no row and
  change nothing; deposit and withdraw are silent no-ops on a missing account; `TransferAmount` and
  `ValidateCheck` are written as the source's sequence of a lookup and two writes.
  The two list queries are loops over the table's rows.
- `scenarios.dfy` (`Scenarios`): client runs built on the repository's JUnit tests, plus the
  refusal paths of `transferAmount` and `validateCheck`. Each member's doc comment says which of
  its values a test asserts and which are added; all are derived from the contracts alone.
  `RejectedTransferScenario` follows no test. `CheckScenario` adds a second validation that the
  test does not make. `UserScenario` runs the four user tests on fresh services and adds that the
  old password is refused after an update.

Behaviour of the code that the model keeps, including where a stricter ledger would differ:

- A deposit or withdrawal on a missing account is a silent no-op, not a `NotFound` error.
- Removing a missing user, account or check is a no-op.
- Foreign keys are not enforced. An account may name an owner that does not exist.
  A check may name an account that does not exist. Removing a user or an account leaves the rows
  that refer to it.
- Validating a check whose account is gone still marks the check validated, and credits nothing
  (`LedgerProperties.ValidatedTotal`).
- `withdrawAmount` has no floor. A transfer checks only that the source holds at least `amount`,
  whatever the sign of `amount`.
- The transaction test is consistent with the code: 100 + 50 − 30 = 120, and a transfer of 20
  leaves 100 on the source and 120 on the destination (`Scenarios.TransactionScenario`).

## Model

| member | source | states |
|---|---|---|
| `Bank.BankService.constructor` | src/main/java/com/example/project/BankService.java:13-16 | a new service holds three empty tables |
| `Bank.BankService.FindUser` | src/main/java/com/example/project/BankService.java:93-109 | a user is found exactly when its id is a key of `users`, with that row's password and role |
| `Bank.BankService.AuthenticateUser` | src/main/java/com/example/project/BankService.java:111-119 | authentication succeeds exactly when the user exists and its stored password equals the one given |
| `Bank.BankService.AddUser` | src/main/java/com/example/project/BankService.java:75-83 | refused with `DuplicateKey` and no change when the id exists; otherwise exactly that row is added, the user is then found as given and logs in with its password; other tables unchanged |
| `Bank.BankService.RemoveUser` | src/main/java/com/example/project/BankService.java:85-91 | the user's row is gone (no-op when absent), it is no longer found and no password authenticates it; accounts and checks unchanged |
| `Bank.BankService.UpdateUser` | src/main/java/com/example/project/BankService.java:121-129 | an existing user's password and role are replaced, a missing user changes nothing; the new password authenticates exactly when the user existed |
| `Bank.BankService.FindAccount` | src/main/java/com/example/project/BankService.java:151-167 | an account is found exactly when its id is a key of `accounts`, with that row's balance and owner |
| `Bank.BankService.AddAccount` | src/main/java/com/example/project/BankService.java:133-141 | refused with `DuplicateKey` and no change when the id exists; otherwise the account is then found with the same id, balance and owner; the owner need not exist |
| `Bank.BankService.RemoveAccount` | src/main/java/com/example/project/BankService.java:143-149 | the account's row is gone (no-op when absent) and it is no longer found; users and checks unchanged |
| `Bank.BankService.UpdateAccount` | src/main/java/com/example/project/BankService.java:169-177 | an existing account's balance and owner are replaced and then found as given; a missing account stays missing |
| `Bank.BankService.DepositAmount` | src/main/java/com/example/project/BankService.java:179-186 | the accounts table becomes `Credited` of the old one; users and checks unchanged |
| `Bank.BankService.WithdrawAmount` | src/main/java/com/example/project/BankService.java:188-195 | the accounts table becomes `Debited` of the old one; users and checks unchanged |
| `Bank.BankService.TransferAmount` | src/main/java/com/example/project/BankService.java:197-211 | succeeds exactly when both accounts exist and the source holds at least `amount`, and then the accounts table becomes `Transferred` of the old one; refused with `TransferRejected` and every table unchanged otherwise |
| `Bank.BankService.DepositCheck` | src/main/java/com/example/project/BankService.java:213-221 | refused with `DuplicateKey` and no change when the check id exists; otherwise exactly one unvalidated check row is added, and users and balances are unchanged |
| `Bank.BankService.ValidateCheck` | src/main/java/com/example/project/BankService.java:223-248 | succeeds exactly when the check exists and is not validated, and then the database becomes `Validated` of the old one; refused with `CheckNotFound` and no change otherwise |
| `Bank.BankService.RemoveCheck` | src/main/java/com/example/project/BankService.java:290-296 | the check's row is gone (no-op when absent); users and accounts unchanged |
| `Bank.BankService.GetAccountsForUser` | src/main/java/com/example/project/BankService.java:250-267 | the list holds exactly the accounts whose owner is the user, each once |
| `Bank.BankService.GetUnvalidatedChecksForAccount` | src/main/java/com/example/project/BankService.java:269-287 | the list holds exactly the unvalidated checks of the account, each once |
| `Tables.Credited` | src/main/java/com/example/project/BankService.java:179-186 | the named account gains exactly `amount` and keeps its owner; every other account is unchanged; nothing changes when the account is absent |
| `Tables.Debited` | src/main/java/com/example/project/BankService.java:188-195 | the named account loses exactly `amount`, with no floor; every other account is unchanged; nothing changes when the account is absent |
| `Tables.Transferred` | src/main/java/com/example/project/BankService.java:199-202 | a transfer is accepted exactly when both accounts exist and the source balance is at least `amount` |
| `Tables.Validated` | src/main/java/com/example/project/BankService.java:225-230 | a validation is accepted exactly when the check exists and is unvalidated; users are never touched |
| `Tables.AccountsOwnedBy` | src/main/java/com/example/project/BankService.java:252 | an account record is in the result exactly when it is a row of the table whose owner is the user |
| `Tables.PendingChecksOf` | src/main/java/com/example/project/BankService.java:271 | a check record is in the result exactly when it is a row of the table on that account with `isValidated` false |
| `LedgerProperties.TotalInsert` | src/main/java/com/example/project/BankService.java:133-141 | adding an account adds its opening balance to the bank's total |
| `LedgerProperties.TotalDelete` | src/main/java/com/example/project/BankService.java:143-149 | removing an account takes its balance out of the bank's total |
| `LedgerProperties.CreditedTotal` | src/main/java/com/example/project/BankService.java:179-186 | a deposit raises the bank's total by exactly `amount`, or not at all when the account is absent |
| `LedgerProperties.DebitedTotal` | src/main/java/com/example/project/BankService.java:188-195 | a withdrawal lowers the bank's total by exactly `amount`, or not at all when the account is absent |
| `LedgerProperties.DebitUndoesCredit` | src/main/java/com/example/project/BankService.java:179-195 | withdrawing what was deposited, or depositing what was withdrawn, restores the accounts table |
| `LedgerProperties.TransferEffect` | src/main/java/com/example/project/BankService.java:202-206 | an accepted transfer between two accounts lowers the source by `amount`, raises the destination by `amount`, keeps their sum and leaves the source non-negative; onto the same account it changes nothing; all other accounts and all owners are untouched |
| `LedgerProperties.TransferConservesTotal` | src/main/java/com/example/project/BankService.java:202-206 | an accepted transfer keeps the sum of all balances |
| `LedgerProperties.TransferRoundTrip` | src/main/java/com/example/project/BankService.java:197-211 | transferring the same amount back is accepted when the destination was not overdrawn, and restores the accounts table |
| `LedgerProperties.NegativeTransferDrainsDestination` | src/main/java/com/example/project/BankService.java:202 | a negative amount passes the funds check whenever the source is not overdrawn, and the destination then loses money |
| `LedgerProperties.ValidatedEffect` | src/main/java/com/example/project/BankService.java:230-242 | a validation sets only the target check's flag, keeps its amount and account, keeps every validated check validated, credits the check's own account with the check's own amount, and leaves users alone |
| `LedgerProperties.ValidateAtMostOnce` | src/main/java/com/example/project/BankService.java:225-245 | a second validation of the same check is refused, so a check credits its account at most once |
| `LedgerProperties.ValidatedTotal` | src/main/java/com/example/project/BankService.java:231-242 | a validation raises the bank's total by the check's amount when its account exists, and by nothing when the account is gone |
| `LedgerProperties.ValidatedLeavesPending` | src/main/java/com/example/project/BankService.java:225-242 | after a validation every account's unvalidated checks are the old ones without the validated check |
| `LedgerProperties.DepositedCheckPending` | src/main/java/com/example/project/BankService.java:213-221 | a newly deposited check joins its account's unvalidated checks and no other account's |
| `Scenarios.TransactionScenario` | src/test/java/com/example/project/BankServiceTransactionTest.java:37-66 | from two accounts of 100: a deposit of 50 gives 150, a withdrawal of 30 gives 120, a transfer of 20 gives 100 and 120 |
| `Scenarios.RejectedTransferScenario` | src/main/java/com/example/project/BankService.java:202-210 | an overdrawing transfer and a transfer from a missing account are both refused, leaving both balances at 100 |
| `Scenarios.CheckScenario` | src/test/java/com/example/project/BankServiceCheckTest.java:32-55 | a deposited check is listed as unvalidated, validating it brings 100 to 150, a second check is listed (the test's assertions); a second validation of the first is refused (added, the branch at BankService.java:243-245) |
| `Scenarios.AccountScenario` | src/test/java/com/example/project/BankServiceAccountTest.java:25-60 | an added account is found as added, an updated one with the new balance, a removed one not at all |
| `Scenarios.AccountListScenario` | src/test/java/com/example/project/BankServiceAccountListTest.java:29-36 | a user with two accounts gets a list of exactly two entries holding both ids |
| `Scenarios.UserScenario` | src/test/java/com/example/project/BankServiceTest.java:39-80 | on fresh services: an added user is found, logs in with its password, after an update the new password works (and, added, the old one is refused), and a removed user is not found |

## Left out

- Connection handling (`connect`, `disconnect`) and console logging: I/O with no counterpart in a map-based store.
- Schema creation in `initializeDatabase`: modelled only as the three tables starting empty. The source opens the persistent file `bank.db` and `CREATE TABLE IF NOT EXISTS` keeps rows an earlier run left there, so the tables start empty only on the first run; rows carried over between runs are not modelled.
- Foreign keys: declared in the schema but not enforced by SQLite by default, so the model imposes none.
- Floating point: balances and amounts are exact `real`s. There is no `double`/`float` rounding and no SQLite `real` storage.
- `Bank.BankService.TransferAmount`: compares exact balances. The code compares a balance read back with `getFloat` against a `double` amount, and that rounding is not modelled.
- The exception messages of `SQLException`: a refusal is a reason code with no state change.
- Null values: Dafny strings are never null. So the model cannot express a refused null password, role or owner (`NOT NULL` columns), nor a NULL key. SQLite accepts a NULL key because the key columns are declared `text PRIMARY KEY` without `NOT NULL`.
- Concurrency and transactions: the source runs on one synchronous connection, and the model is sequential.
- Lombok-generated getters, setters and equality of the records: plain datatypes stand for them.
- Password handling beyond plain string equality.
- Ordering of query results: SQL gives no `ORDER BY`, so the lists are specified as sets with no repeated entry.
- Test-harness method ordering and cleanup (`@AfterAll` deletions).
