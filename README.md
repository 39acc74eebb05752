# Bank back-office accounting engine, in Dafny

This project models the accounting engine of a small banking back office
(`BankAccountService`). The engine opens accounts for registered customers.
It takes deposits, withdrawals and transfers, but only on ACTIVE accounts.
It never lets a withdrawal or transfer take more than the source balance.
It records every movement of money in an append-only transaction ledger.
It changes an account's status under one rule: a CLOSED account may not go straight back to ACTIVE.

The model is a sequential state machine, the class `Service.BankAccountService`. It holds:

- the customer directory, as a set of customer ids;
- the account store, as a map from account number to account record (id, number, owner, balance, currency, status);
- the store's id index, from account id to account number;
- the ledger, as a sequence of entries (type, account number, signed amount, description), in append order;
- the next id that the store will assign.

Its ghost invariant `Valid()` holds the store's integrity constraints and the bookkeeping invariant. The bookkeeping invariant says every balance equals the sum of that account's ledger entries. Every operation preserves `Valid()`. From it follows that the money the bank holds, the sum of all balances, equals the sum of all ledger amounts. So a deposit or withdrawal moves the holdings by its amount, and a transfer leaves them unchanged.

Files:

- `model.dfy` (module `Model`): the entities, the error datatype, and `Result`/`Outcome`.
- `ledger.dfy` (module `Ledger`): an account's history (`TransactionsOf`), ledger sums, and what appending entries does to both.
- `service.dfy` (module `Service`): the engine's operations, its invariants, and the pure lemmas about balance updates.
- `scenarios.dfy` (module `Scenarios`): verified call sequences on the service, with the exact balances, histories and refusals they produce, and the general reopening result.

Modelling decisions:

- **Amounts are `real`.** The source uses exact arbitrary-precision decimals and compares them with `compareTo`, so only the numeric value matters.
- **Failures are values.** Each `ResponseStatusException` becomes an `Error`: `CustomerNotFound`, `AccountNotFound`, `AccountInactive(status)`, `InsufficientBalance`, `InvalidTransition`.
  - Every check runs before the first write, as in the source. So a refused operation leaves the whole state unchanged, and the contracts say so.
- **The account number is a parameter.** The source derives it from the wall clock.
  - Instead of a precondition that the number is fresh, a number already in use is refused with `AccountNumberTaken`.
  - This mirrors the store's unique constraint on the account-number column (`BankAccount.java:22`). That constraint is what rejects such a save.
  - This keeps `CreateAccount` callable in every state.
- **Amounts are not checked for sign**, because the source never checks them.
  - A withdrawal, or a transfer between two distinct accounts, never leaves its source negative, since `balance >= amount` implies `balance - amount >= 0`. A transfer from an account to itself leaves its balance where it was, negative or not.
  - A deposit of a negative amount can make a balance negative, as in the source.
  - A transfer of a negative amount between two distinct ACTIVE accounts passes the balance test whenever the source holds at least that (negative) amount, for example whenever the source is non-negative. It then takes money out of the destination, whose balance is never checked, so the destination can end negative (`Scenarios.NegativeTransferOverdrawsDestination`). A source holding less than the negative amount, such as −20 against −10, is still refused with InsufficientBalance.
- **Self-transfers.** A transfer from an account to itself applies the debit, then the credit, to the same record, as the source does with the one entity it loads twice. The balance is unchanged, and two entries are still appended.
- **Status values.** The status enumeration is not among the files modelled; the service names only ACTIVE (lines 40 and 58) and CLOSED (line 149). The model's third value, INACTIVE, stands for every other value the enumeration may have: lines 58 and 149 treat all of them alike, as neither ACTIVE nor CLOSED. The reopening results assume that at least one such value exists; with only ACTIVE and CLOSED, CLOSED would be terminal.
- **Status changes.** Only CLOSED → ACTIVE is refused. Every other pair is accepted, including a no-op and CLOSED → INACTIVE followed by INACTIVE → ACTIVE. Given a third status value, CLOSED is not terminal: the code refuses only the direct CLOSED → ACTIVE step and lets an account out through that third value (`Scenarios.ReopenThroughInactive`).
- **Entry types.** The source stores the entry type as a string; the model uses an enumeration of those three values.

## Model

All source paths are under `src/main/java/com/felipehamann/bankapi/`; the table writes them in full.

| member | source | states |
|---|---|---|
| Service.EnsureActive | src/main/java/com/felipehamann/bankapi/service/BankAccountService.java:57-64 | passes exactly when the account is ACTIVE; otherwise fails with the account's actual status |
| Service.EveryStatusReachableViaInactive | src/main/java/com/felipehamann/bankapi/service/BankAccountService.java:149-151 | every status may move to INACTIVE, and INACTIVE may move to every status, so no status, CLOSED included, is a dead end; this is the rule on its own, and `Scenarios.ReopenThroughInactive` states the same two steps about `ChangeStatus` itself |
| Service.AddToBalance | src/main/java/com/felipehamann/bankapi/service/BankAccountService.java:71-72 | a balance update changes only that account's balance, by exactly `delta`; its id, owner, currency and status, every other account, and the set of account numbers are unchanged |
| Service.TransferBetweenDistinct | src/main/java/com/felipehamann/bankapi/service/BankAccountService.java:112-120 | for distinct accounts, a transfer lowers the source by `amount` and raises the destination by `amount`; their sum is conserved; a source holding at least `amount` stays non-negative; no other field or account changes |
| Service.SelfTransferKeepsAccounts | src/main/java/com/felipehamann/bankapi/service/BankAccountService.java:106-117 | debiting and then crediting the same account leaves the account table exactly as it was |
| Service.PostingKeepsValid | src/main/java/com/felipehamann/bankapi/service/BankAccountService.java:71-80 | pairing a balance change with a ledger entry of the same signed amount on the same account keeps the store consistent and the books in agreement |
| Service.PostingKeepsAgreement | src/main/java/com/felipehamann/bankapi/service/BankAccountService.java:71-80 | pairing a balance change with a ledger entry of the same signed amount on the same account keeps every balance equal to the sum of its entries |
| Service.HoldingsMatchLedger | src/main/java/com/felipehamann/bankapi/service/BankAccountService.java:71-136 | when every balance equals the sum of its entries, the sum of all balances equals the sum of all ledger amounts |
| Service.PostingMovesHoldings | src/main/java/com/felipehamann/bankapi/service/BankAccountService.java:71-80 | a deposit or withdrawal posting moves the bank's total holdings by exactly the entry's signed amount |
| Service.TransferKeepsHoldings | src/main/java/com/felipehamann/bankapi/service/BankAccountService.java:116-136 | a transfer's debit and credit leave the bank's total holdings unchanged: no money is created or destroyed |
| Service.OpeningKeepsValid | src/main/java/com/felipehamann/bankapi/service/BankAccountService.java:35-43 | inserting a zero-balance account for a registered customer, under an unused number and the next id, keeps the invariant; its balance agrees with its empty history |
| Service.OpeningListsAccount | src/main/java/com/felipehamann/bankapi/service/BankAccountService.java:43-50 | after the insertion, the store's records are exactly the old ones plus the new account |
| Service.StatusChangeKeepsValid | src/main/java/com/felipehamann/bankapi/service/BankAccountService.java:153-154 | changing one account's status keeps the store consistent and the books in agreement |
| Service.BankAccountService.constructor | src/main/java/com/felipehamann/bankapi/service/BankAccountService.java:24-29 | a service over a customer directory starts with no accounts, an empty ledger and first id 1, and satisfies the invariant |
| Service.BankAccountService.GetByAccountNumber | src/main/java/com/felipehamann/bankapi/service/BankAccountService.java:52-55 | succeeds exactly when the number is stored, otherwise fails with AccountNotFound; the record found carries that number |
| Service.BankAccountService.FindAccountsByCustomer | src/main/java/com/felipehamann/bankapi/service/BankAccountService.java:46-50 | an account is listed exactly when it is stored and owned by that customer; an unregistered customer owns none |
| Service.BankAccountService.GetTransactions | src/main/java/com/felipehamann/bankapi/service/BankAccountService.java:139-142 | fails with AccountNotFound exactly when the account is missing; otherwise returns every ledger entry of that account and no other, summing to its balance |
| Service.BankAccountService.CreateAccount | src/main/java/com/felipehamann/bankapi/service/BankAccountService.java:31-44 | refuses an unknown customer, then a number in use, changing nothing; otherwise adds exactly one ACTIVE zero-balance account with that owner, currency and the next id, leaves other accounts and the ledger unchanged, and the new account is found by number, has an empty history and is listed for its owner |
| Service.BankAccountService.Post | src/main/java/com/felipehamann/bankapi/service/BankAccountService.java:71-80 | one posting: the balance moves by `delta` through `AddToBalance` and the entry is appended; ids and customers are untouched and the invariant holds |
| Service.BankAccountService.PostTransfer | src/main/java/com/felipehamann/bankapi/service/BankAccountService.java:116-136 | the two postings of a transfer: source debited, then destination credited, and the debit and credit entries appended in that order |
| Service.BankAccountService.Deposit | src/main/java/com/felipehamann/bankapi/service/BankAccountService.java:67-81 | refuses a missing account (AccountNotFound) or a non-ACTIVE one (AccountInactive) and changes nothing; otherwise the balance becomes old + amount, and exactly one `DEPOSIT, +amount` entry is appended to the ledger and to the account's history |
| Service.BankAccountService.Withdraw | src/main/java/com/felipehamann/bankapi/service/BankAccountService.java:84-102 | refuses a missing account, a non-ACTIVE one, or `balance < amount`, and changes nothing; otherwise the balance becomes old − amount (never negative), and exactly one `WITHDRAW, −amount` entry is appended |
| Service.BankAccountService.Transfer | src/main/java/com/felipehamann/bankapi/service/BankAccountService.java:105-137 | refuses, in the source's order, a missing source, a missing destination, an inactive source, an inactive destination, and `balance < amount`, changing nothing; otherwise debits the source, then credits the destination, and appends `TRANSFER −amount` on the source, then `TRANSFER +amount` on the destination, with the two descriptions; between distinct accounts the source ends non-negative |
| Service.BankAccountService.ChangeStatus | src/main/java/com/felipehamann/bankapi/service/BankAccountService.java:145-155 | an unknown id fails with AccountNotFound; CLOSED → ACTIVE fails with InvalidTransition; both leave the state unchanged; every other request, no-ops included, returns the account with the new status and changes nothing else; the rule is the predicate `Service.MayChangeStatus`, which refuses exactly CLOSED → ACTIVE (line 149) |
| Ledger.TransactionsOf | src/main/java/com/felipehamann/bankapi/repository/TransactionRepository.java:10 | an account's history is no longer than the ledger and holds only entries of that account |
| Ledger.TransactionsOfExact | src/main/java/com/felipehamann/bankapi/repository/TransactionRepository.java:10 | an entry is in an account's history exactly when it is in the ledger and belongs to that account |
| Ledger.TransactionsOfAppend | src/main/java/com/felipehamann/bankapi/service/BankAccountService.java:74-80 | appending an entry extends its own account's history by that entry and leaves every other history as it was, so earlier entries are never altered |
| Ledger.TransactionsOfAppendPair | src/main/java/com/felipehamann/bankapi/service/BankAccountService.java:122-136 | appending a debit and a credit extends each account's history by the ones that name it, in order |
| Ledger.BalanceAfterAppend | src/main/java/com/felipehamann/bankapi/service/BankAccountService.java:71-76 | appending an entry moves the ledger-implied balance of its account by its amount, and of no other account |
| Ledger.BalanceOfUnmentioned | src/main/java/com/felipehamann/bankapi/service/BankAccountService.java:38 | an account the ledger never mentions has an empty history and an implied balance of zero, which matches the opening balance |
| Ledger.PairKeepsTotal | src/main/java/com/felipehamann/bankapi/service/BankAccountService.java:122-136 | a transfer's two entries cancel, so the ledger's total is unchanged |
| Ledger.AppendMovesTotal | src/main/java/com/felipehamann/bankapi/service/BankAccountService.java:74-80 | a single deposit or withdrawal entry moves the ledger's total by its amount |
| Ledger.BalancesAfterAppend | src/main/java/com/felipehamann/bankapi/service/BankAccountService.java:71-80 | appending an entry changes the implied balance of its own account, by its amount, and of no other |
| Ledger.BalancesTotalAfterAppend | src/main/java/com/felipehamann/bankapi/service/BankAccountService.java:71-80 | appending an entry moves the total of the implied balances by its amount |
| Ledger.BalancesAddUpToTotal | src/main/java/com/felipehamann/bankapi/service/BankAccountService.java:71-136 | when every entry belongs to a known account, the implied balances of those accounts add up to the ledger's total |
| Scenarios.DepositThenWithdraw | src/main/java/com/felipehamann/bankapi/service/BankAccountService.java:67-102 | on a new USD account, deposit 100 and withdraw 30 leave balance 70 and the history `[DEPOSIT 100, WITHDRAW −30]`; withdrawing 1000 more is refused with InsufficientBalance |
| Scenarios.TransferAll | src/main/java/com/felipehamann/bankapi/service/BankAccountService.java:105-137 | moving all 50 from A to an empty B leaves A at 0 and B at 50, with one TRANSFER entry in each history; a further 0.01 is refused with InsufficientBalance |
| Scenarios.NegativeTransferOverdrawsDestination | src/main/java/com/felipehamann/bankapi/service/BankAccountService.java:112-117 | a transfer of −10 from A (holding 50) to B (holding 0) is accepted and leaves A at 60 and B at −10, since only the source balance is compared |
| Scenarios.TransferToSelf | src/main/java/com/felipehamann/bankapi/service/BankAccountService.java:105-137 | a transfer from an account to itself is accepted, keeps its balance, and appends a debit and a credit to its history |
| Scenarios.ClosedRefusesDirectReopenAndDeposits | src/main/java/com/felipehamann/bankapi/service/BankAccountService.java:145-155 | a CLOSED account cannot be made ACTIVE directly and refuses deposits with AccountInactive(CLOSED) |
| Scenarios.ReopenThroughInactive | src/main/java/com/felipehamann/bankapi/service/BankAccountService.java:145-155 | in any valid state, for any existing account id, asking for INACTIVE and then ACTIVE is accepted at both steps; only that account's status changes, and the ledger and ids are untouched |
| Scenarios.ReopenedAccountTakesDeposits | src/main/java/com/felipehamann/bankapi/service/BankAccountService.java:145-155 | a CLOSED account passed through INACTIVE back to ACTIVE takes a deposit again |
| Scenarios.OpeningRefusals | src/main/java/com/felipehamann/bankapi/service/BankAccountService.java:31-44 | opening for an unknown customer fails with CustomerNotFound; reusing a number fails with AccountNumberTaken; an unknown id fails ChangeStatus with AccountNotFound |

The shapes of `Model.Account` and `Model.Entry` follow `model/BankAccount.java:16-39` and `model/Transaction.java:16-37`.

## Left out

- `AccountStatus` is not among the files modelled, and the service names only ACTIVE and CLOSED. INACTIVE stands for every other value the enumeration may have. The reopening results (`Service.EveryStatusReachableViaInactive`, `Scenarios.ReopenThroughInactive`, `Scenarios.ReopenedAccountTakesDeposits`) assume that at least one such value exists.
- The wall clock: the account number (`"ACC-" + currentTimeMillis`) becomes a parameter, and creation timestamps of entries are not recorded.
- Store-generated entry ids: an entry's position in the ledger stands for its id.
- Transactional rollback, row locking and concurrent requests: the model is sequential. Every refusal happens before the first write, so no rollback is needed to leave the state unchanged.
- Transfer write order: the source updates both balances, saves both accounts, then saves the two entries. The model posts the debit (balance, then entry) and then the credit. Within one unit of work the final state is the same.
- The HTTP controllers, the request DTOs and their field validation, and customer registration: the customer directory is given to the constructor.
- Human-readable error messages and HTTP status codes: only the kind of error is modelled.
- Lazy loading of the owning customer, and the customer's name and email.
- Decimal scale: amounts are compared and stored by numeric value only.
- Result order of the store's `findAll` and `findByAccount`: the source guarantees none. `FindAccountsByCustomer` returns a set, and `GetTransactions` returns the account's entries in append order.
