/**
 * The accounting engine: account creation, status-gated deposits, withdrawals
 * and transfers with their ledger entries, and account status changes.
 *
 * The three stores the engine talks to (customers, accounts, transactions)
 * are fields of one object; every refused operation is refused before any
 * field is written, so a failure leaves the whole state as it was.
 */
module Service {
  import opened Model
  import opened Ledger

  /** ensureActive: only an ACTIVE account may take part in a movement of money. */
  function EnsureActive(account: Account): (r: Outcome)
    ensures r.Pass? <==> account.status == ACTIVE
    ensures r.Fail? ==> r.error == AccountInactive(account.status)
  {
    if account.status != ACTIVE then Fail(AccountInactive(account.status)) else Pass
  }

  /** The status-change rule: everything is allowed except reopening a CLOSED account directly. */
  predicate MayChangeStatus(current: AccountStatus, requested: AccountStatus)
  {
    !(current == CLOSED && requested == ACTIVE)
  }

  /** The account table after `delta` is added to the balance of `number`. */
  function AddToBalance(accounts: map<AccountNumber, Account>, number: AccountNumber, delta: real)
    : (r: map<AccountNumber, Account>)
    requires number in accounts
    ensures r.Keys == accounts.Keys
    ensures r[number].balance == accounts[number].balance + delta
    ensures r[number] == accounts[number].(balance := r[number].balance)
    ensures forall n :: n in accounts && n != number ==> r[n] == accounts[n]
  {
    var account := accounts[number];
    accounts[number := account.(balance := account.balance + delta)]
  }

  /**
   * No status is a dead end: any account reaches any status in two allowed
   * steps through INACTIVE, a CLOSED one included.
   */
  lemma EveryStatusReachableViaInactive(current: AccountStatus, target: AccountStatus)
    ensures MayChangeStatus(current, INACTIVE) && MayChangeStatus(INACTIVE, target)
  {
  }

  /**
   * A transfer between two different accounts: the source loses `amount`, the
   * destination gains it, their combined balance is the same, an adequate
   * source balance stays non-negative, and nothing but those two balances changes.
   */
  lemma TransferBetweenDistinct(accounts: map<AccountNumber, Account>, fromAcc: AccountNumber,
                                toAcc: AccountNumber, amount: real)
    requires fromAcc in accounts && toAcc in accounts && fromAcc != toAcc
    ensures var after := AddToBalance(AddToBalance(accounts, fromAcc, -amount), toAcc, amount);
      && after.Keys == accounts.Keys
      && after[fromAcc].balance == accounts[fromAcc].balance - amount
      && after[toAcc].balance == accounts[toAcc].balance + amount
      && after[fromAcc].balance + after[toAcc].balance == accounts[fromAcc].balance + accounts[toAcc].balance
      && (accounts[fromAcc].balance >= amount ==> after[fromAcc].balance >= 0.0)
      && after[fromAcc] == accounts[fromAcc].(balance := after[fromAcc].balance)
      && after[toAcc] == accounts[toAcc].(balance := after[toAcc].balance)
      && (forall n :: n in accounts && n != fromAcc && n != toAcc ==> after[n] == accounts[n])
  {
  }

  /** A transfer from an account to itself debits and re-credits it, leaving the table as it was. */
  lemma SelfTransferKeepsAccounts(accounts: map<AccountNumber, Account>, number: AccountNumber, amount: real)
    requires number in accounts
    ensures AddToBalance(AddToBalance(accounts, number, -amount), number, amount) == accounts
  {
    var after := AddToBalance(AddToBalance(accounts, number, -amount), number, amount);
    assert after[number] == accounts[number];
  }

  /**
   * The account store's integrity constraints: every record sits under its own
   * number and belongs to a registered customer, and the id index maps each id
   * below the next one to hand out to the one account that carries it.
   */
  ghost predicate AccountsConsistent(customers: set<CustomerId>, accounts: map<AccountNumber, Account>,
                                     accountIds: map<AccountId, AccountNumber>, nextId: AccountId)
  {
    && 1 <= nextId
    && (forall n :: n in accounts ==> accounts[n].number == n && accounts[n].customerId in customers)
    && (forall n :: n in accounts ==> accounts[n].id in accountIds && accountIds[accounts[n].id] == n)
    && (forall id :: id in accountIds ==>
          1 <= id < nextId && accountIds[id] in accounts && accounts[accountIds[id]].id == id)
  }

  /**
   * The bookkeeping invariant: every ledger entry belongs to an existing
   * account, and every balance is the sum of that account's ledger entries.
   */
  ghost predicate LedgerAgrees(accounts: map<AccountNumber, Account>, ledger: seq<Entry>)
  {
    && (forall i :: 0 <= i < |ledger| ==> ledger[i].account in accounts)
    && (forall n {:trigger Balance(ledger, n)} :: n in accounts ==> accounts[n].balance == Balance(ledger, n))
  }

  /**
   * Recording entry `e` against its account together with the matching balance
   * change keeps the store consistent and the books in agreement.
   */
  lemma PostingKeepsValid(customers: set<CustomerId>, accounts: map<AccountNumber, Account>,
                          accountIds: map<AccountId, AccountNumber>, nextId: AccountId,
                          ledger: seq<Entry>, e: Entry)
    requires AccountsConsistent(customers, accounts, accountIds, nextId) && LedgerAgrees(accounts, ledger)
    requires e.account in accounts
    ensures AccountsConsistent(customers, AddToBalance(accounts, e.account, e.amount), accountIds, nextId)
    ensures LedgerAgrees(AddToBalance(accounts, e.account, e.amount), ledger + [e])
  {
    PostingKeepsAgreement(accounts, ledger, e);
  }

  /** Recording `e` together with the matching balance change keeps the books in agreement. */
  lemma PostingKeepsAgreement(accounts: map<AccountNumber, Account>, ledger: seq<Entry>, e: Entry)
    requires LedgerAgrees(accounts, ledger) && e.account in accounts
    ensures LedgerAgrees(AddToBalance(accounts, e.account, e.amount), ledger + [e])
  {
    var after := AddToBalance(accounts, e.account, e.amount);
    forall n | n in after
      ensures after[n].balance == Balance(ledger + [e], n)
    {
      BalanceAfterAppend(ledger, e, n);
    }
  }

  /** The money the bank holds: the sum of all account balances. */
  ghost function Holdings(accounts: map<AccountNumber, Account>): (r: real)
  {
    Total(map n | n in accounts :: accounts[n].balance)
  }

  /** When the books agree, the bank holds exactly the sum of all ledger amounts. */
  lemma HoldingsMatchLedger(accounts: map<AccountNumber, Account>, ledger: seq<Entry>)
    requires LedgerAgrees(accounts, ledger)
    ensures Holdings(accounts) == SumAmounts(ledger)
  {
    assert (map n | n in accounts :: accounts[n].balance) == Balances(ledger, accounts.Keys);
    BalancesAddUpToTotal(ledger, accounts.Keys);
  }

  /** A single posting (a deposit or a withdrawal) changes the bank's holdings by exactly its amount. */
  lemma PostingMovesHoldings(accounts: map<AccountNumber, Account>, ledger: seq<Entry>, e: Entry)
    requires LedgerAgrees(accounts, ledger) && e.account in accounts
    ensures Holdings(AddToBalance(accounts, e.account, e.amount)) == Holdings(accounts) + e.amount
  {
    PostingKeepsAgreement(accounts, ledger, e);
    HoldingsMatchLedger(accounts, ledger);
    HoldingsMatchLedger(AddToBalance(accounts, e.account, e.amount), ledger + [e]);
    AppendMovesTotal(ledger, e);
  }

  /** A transfer's debit and credit cancel: the bank's holdings are the same afterwards. */
  lemma TransferKeepsHoldings(accounts: map<AccountNumber, Account>, ledger: seq<Entry>, debit: Entry, credit: Entry)
    requires LedgerAgrees(accounts, ledger) && debit.account in accounts && credit.account in accounts
    requires debit.amount == -credit.amount
    ensures Holdings(AddToBalance(AddToBalance(accounts, debit.account, debit.amount), credit.account, credit.amount))
         == Holdings(accounts)
  {
    var debited := AddToBalance(accounts, debit.account, debit.amount);
    PostingKeepsAgreement(accounts, ledger, debit);
    PostingKeepsAgreement(debited, ledger + [debit], credit);
    assert ledger + [debit] + [credit] == ledger + [debit, credit];
    HoldingsMatchLedger(accounts, ledger);
    HoldingsMatchLedger(AddToBalance(debited, credit.account, credit.amount), ledger + [debit, credit]);
    PairKeepsTotal(ledger, debit, credit);
  }

  /** Inserting a fresh zero-balance account under the next id keeps the store consistent and the books in agreement. */
  lemma OpeningKeepsValid(customers: set<CustomerId>, accounts: map<AccountNumber, Account>,
                          accountIds: map<AccountId, AccountNumber>, nextId: AccountId,
                          ledger: seq<Entry>, account: Account)
    requires AccountsConsistent(customers, accounts, accountIds, nextId) && LedgerAgrees(accounts, ledger)
    requires account.number !in accounts && account.customerId in customers
    requires account.id == nextId && account.balance == 0.0
    ensures AccountsConsistent(customers, accounts[account.number := account],
                               accountIds[nextId := account.number], nextId + 1)
    ensures LedgerAgrees(accounts[account.number := account], ledger)
  {
    BalanceOfUnmentioned(ledger, account.number);
  }

  /** Inserting an account under a fresh number adds exactly that record to the store's values. */
  lemma OpeningListsAccount(accounts: map<AccountNumber, Account>, account: Account)
    requires account.number !in accounts
    ensures accounts[account.number := account].Values == accounts.Values + {account}
  {
    var after := accounts[account.number := account];
    forall a | a in after.Values
      ensures a in accounts.Values + {account}
    {
      var k :| k in after && after[k] == a;
      if k != account.number {
        assert accounts[k] == a;
      }
    }
    forall a | a in accounts.Values
      ensures a in after.Values
    {
      var k :| k in accounts && accounts[k] == a;
      assert after[k] == a;
    }
    assert after[account.number] == account;
  }

  /** Changing one account's status touches neither ids, owners, balances nor the ledger. */
  lemma StatusChangeKeepsValid(customers: set<CustomerId>, accounts: map<AccountNumber, Account>,
                               accountIds: map<AccountId, AccountNumber>, nextId: AccountId,
                               ledger: seq<Entry>, number: AccountNumber, status: AccountStatus)
    requires AccountsConsistent(customers, accounts, accountIds, nextId) && LedgerAgrees(accounts, ledger)
    requires number in accounts
    ensures AccountsConsistent(customers, accounts[number := accounts[number].(status := status)], accountIds, nextId)
    ensures LedgerAgrees(accounts[number := accounts[number].(status := status)], ledger)
  {
  }

  class BankAccountService {
    /** Ids of the registered customers. */
    var customers: set<CustomerId>
    /** The account store, keyed by account number. */
    var accounts: map<AccountNumber, Account>
    /** The account store's primary-key index: account id to account number. */
    var accountIds: map<AccountId, AccountNumber>
    /** The transaction store, in append order. */
    var ledger: seq<Entry>
    /** The id the store will give the next account it inserts. */
    var nextId: AccountId

    /** The store's integrity constraints and the bookkeeping invariant. */
    ghost predicate Valid()
      reads this
    {
      AccountsConsistent(customers, accounts, accountIds, nextId) && LedgerAgrees(accounts, ledger)
    }

    /** A service over the given customer directory, with no accounts and an empty ledger. */
    constructor (customers: set<CustomerId>)
      ensures Valid()
      ensures this.customers == customers && accounts == map[] && accountIds == map[]
      ensures ledger == [] && nextId == 1
    {
      this.customers := customers;
      accounts := map[];
      accountIds := map[];
      ledger := [];
      nextId := 1;
    }

    /** getByAccountNumber: the account stored under `number`, or AccountNotFound. */
    function GetByAccountNumber(number: AccountNumber): (r: Result<Account>)
      reads this
      ensures r.Ok? <==> number in accounts
      ensures r.Err? ==> r.error == AccountNotFound
      ensures Valid() && r.Ok? ==> r.value.number == number
    {
      if number in accounts then Ok(accounts[number]) else Err(AccountNotFound)
    }

    /** findAccountsByCustomer: every account owned by `customerId`. */
    function FindAccountsByCustomer(customerId: CustomerId): (r: set<Account>)
      reads this
      ensures forall a :: a in r <==> a in accounts.Values && a.customerId == customerId
      ensures Valid() && customerId !in customers ==> r == {}
    {
      set n | n in accounts && accounts[n].customerId == customerId :: accounts[n]
    }

    /** getTransactions: the ledger entries of account `number`, in append order. */
    function GetTransactions(number: AccountNumber): (r: Result<seq<Entry>>)
      reads this
      ensures r.Ok? <==> number in accounts
      ensures r.Err? ==> r.error == AccountNotFound
      ensures r.Ok? ==> forall i :: 0 <= i < |r.value| ==> r.value[i].account == number
      ensures r.Ok? ==> forall e :: e in ledger && e.account == number ==> e in r.value
      ensures Valid() && r.Ok? ==> accounts[number].balance == Balance(ledger, number) == SumAmounts(r.value)
    {
      TransactionsOfExact(ledger, number);
      if number in accounts then Ok(TransactionsOf(ledger, number)) else Err(AccountNotFound)
    }

    /**
     * createAccount: opens an ACTIVE account with balance zero for an existing
     * customer. The account number is supplied by the caller (the service derives
     * it from the clock); the store's uniqueness constraint refuses a number in use.
     */
    method CreateAccount(customerId: CustomerId, currency: string, number: AccountNumber)
      returns (r: Result<Account>)
      requires Valid()
      modifies this
      ensures Valid()
      ensures customers == old(customers) && ledger == old(ledger)
      ensures customerId !in old(customers) ==> r == Err(CustomerNotFound)
      ensures customerId in old(customers) && number in old(accounts) ==> r == Err(AccountNumberTaken)
      ensures r.Err? ==> accounts == old(accounts) && accountIds == old(accountIds) && nextId == old(nextId)
      ensures r.Ok? <==> customerId in old(customers) && number !in old(accounts)
      ensures r.Ok? ==> r.value == Account(old(nextId), number, customerId, 0.0, currency, ACTIVE)
      ensures r.Ok? ==>
        && accounts == old(accounts)[number := r.value]
        && accountIds == old(accountIds)[old(nextId) := number]
        && nextId == old(nextId) + 1
      ensures r.Ok? ==> GetByAccountNumber(number) == Ok(r.value)
      ensures r.Ok? ==> GetTransactions(number) == Ok([])
      ensures r.Ok? ==> FindAccountsByCustomer(customerId) == old(FindAccountsByCustomer(customerId)) + {r.value}
    {
      if customerId !in customers {
        return Err(CustomerNotFound);
      }
      if number in accounts {
        return Err(AccountNumberTaken);
      }
      var account := Account(nextId, number, customerId, 0.0, currency, ACTIVE);
      OpeningKeepsValid(customers, accounts, accountIds, nextId, ledger, account);
      BalanceOfUnmentioned(ledger, number);
      OpeningListsAccount(accounts, account);
      accounts := accounts[number := account];
      accountIds := accountIds[nextId := number];
      nextId := nextId + 1;
      r := Ok(account);
    }

    /**
     * Adds `delta` to the balance of `number` and saves it, then appends `e`,
     * an entry of that same amount against that same account.
     */
    method Post(number: AccountNumber, delta: real, e: Entry)
      requires Valid() && number in accounts && e.account == number && e.amount == delta
      modifies this
      ensures Valid()
      ensures customers == old(customers) && accountIds == old(accountIds) && nextId == old(nextId)
      ensures accounts == AddToBalance(old(accounts), number, delta)
      ensures ledger == old(ledger) + [e]
    {
      PostingKeepsValid(customers, accounts, accountIds, nextId, ledger, e);
      accounts := AddToBalance(accounts, number, delta);
      ledger := ledger + [e];
    }

    /** The two postings of a transfer: the debit on `fromAcc`, then the credit on `toAcc`. */
    method PostTransfer(fromAcc: AccountNumber, toAcc: AccountNumber, amount: real, debit: Entry, credit: Entry)
      requires Valid() && fromAcc in accounts && toAcc in accounts
      requires debit.account == fromAcc && debit.amount == -amount
      requires credit.account == toAcc && credit.amount == amount
      modifies this
      ensures Valid()
      ensures customers == old(customers) && accountIds == old(accountIds) && nextId == old(nextId)
      ensures accounts == AddToBalance(AddToBalance(old(accounts), fromAcc, -amount), toAcc, amount)
      ensures ledger == old(ledger) + [debit, credit]
    {
      assert ledger + [debit] + [credit] == ledger + [debit, credit];
      ghost var debited := AddToBalance(accounts, fromAcc, -amount);
      Post(fromAcc, -amount, debit);
      assert accounts == debited;
      Post(toAcc, amount, credit);
    }

    /**
     * deposit: credits `amount` to an ACTIVE account and records a DEPOSIT
     * entry of +amount. The amount is not checked for sign.
     */
    method Deposit(number: AccountNumber, amount: real) returns (r: Outcome)
      requires Valid()
      modifies this
      ensures Valid()
      ensures customers == old(customers) && accountIds == old(accountIds) && nextId == old(nextId)
      ensures number !in old(accounts) ==> r == Fail(AccountNotFound)
      ensures number in old(accounts) ==> r == EnsureActive(old(accounts)[number])
      ensures r.Fail? ==> accounts == old(accounts) && ledger == old(ledger)
      ensures r.Pass? ==> accounts == AddToBalance(old(accounts), number, amount)
      ensures r.Pass? ==> ledger == old(ledger) + [Entry(DEPOSIT, number, amount, "Deposit")]
      ensures r.Pass? ==>
        TransactionsOf(ledger, number) == TransactionsOf(old(ledger), number) + [Entry(DEPOSIT, number, amount, "Deposit")]
    {
      var found := GetByAccountNumber(number);
      if found.Err? {
        return Fail(found.error);
      }
      var active := EnsureActive(found.value);
      if active.Fail? {
        return active;
      }
      var entry := Entry(DEPOSIT, number, amount, "Deposit");
      TransactionsOfAppend(ledger, entry, number);
      Post(number, amount, entry);
      r := Pass;
    }

    /**
     * withdraw: debits `amount` from an ACTIVE account that holds at least
     * `amount`, and records a WITHDRAW entry of -amount.
     */
    method Withdraw(number: AccountNumber, amount: real) returns (r: Outcome)
      requires Valid()
      modifies this
      ensures Valid()
      ensures customers == old(customers) && accountIds == old(accountIds) && nextId == old(nextId)
      ensures number !in old(accounts) ==> r == Fail(AccountNotFound)
      ensures number in old(accounts) && old(accounts)[number].status != ACTIVE
           ==> r == Fail(AccountInactive(old(accounts)[number].status))
      ensures number in old(accounts) && old(accounts)[number].status == ACTIVE
           ==> r == if old(accounts)[number].balance < amount then Fail(InsufficientBalance) else Pass
      ensures r.Fail? ==> accounts == old(accounts) && ledger == old(ledger)
      ensures r.Pass? ==> accounts == AddToBalance(old(accounts), number, -amount)
      ensures r.Pass? ==> accounts[number].balance >= 0.0
      ensures r.Pass? ==> ledger == old(ledger) + [Entry(WITHDRAW, number, -amount, "Withdraw")]
      ensures r.Pass? ==>
        TransactionsOf(ledger, number) == TransactionsOf(old(ledger), number) + [Entry(WITHDRAW, number, -amount, "Withdraw")]
    {
      var found := GetByAccountNumber(number);
      if found.Err? {
        return Fail(found.error);
      }
      var active := EnsureActive(found.value);
      if active.Fail? {
        return active;
      }
      if found.value.balance < amount {
        return Fail(InsufficientBalance);
      }
      var entry := Entry(WITHDRAW, number, -amount, "Withdraw");
      TransactionsOfAppend(ledger, entry, number);
      Post(number, -amount, entry);
      r := Pass;
    }

    /**
     * transfer: moves `amount` from one ACTIVE account to another ACTIVE
     * account, provided the source holds at least `amount`, and records a
     * TRANSFER debit on the source followed by a TRANSFER credit on the
     * destination. The debit is applied before the credit reads its account,
     * so a transfer from an account to itself leaves its balance unchanged.
     */
    method Transfer(fromAcc: AccountNumber, toAcc: AccountNumber, amount: real) returns (r: Outcome)
      requires Valid()
      modifies this
      ensures Valid()
      ensures customers == old(customers) && accountIds == old(accountIds) && nextId == old(nextId)
      ensures fromAcc !in old(accounts) ==> r == Fail(AccountNotFound)
      ensures fromAcc in old(accounts) && toAcc !in old(accounts) ==> r == Fail(AccountNotFound)
      ensures fromAcc in old(accounts) && toAcc in old(accounts) ==>
        r == if old(accounts)[fromAcc].status != ACTIVE then Fail(AccountInactive(old(accounts)[fromAcc].status))
             else if old(accounts)[toAcc].status != ACTIVE then Fail(AccountInactive(old(accounts)[toAcc].status))
             else if old(accounts)[fromAcc].balance < amount then Fail(InsufficientBalance)
             else Pass
      ensures r.Fail? ==> accounts == old(accounts) && ledger == old(ledger)
      ensures r.Pass? ==> accounts == AddToBalance(AddToBalance(old(accounts), fromAcc, -amount), toAcc, amount)
      ensures r.Pass? && fromAcc != toAcc ==> accounts[fromAcc].balance >= 0.0
      ensures r.Pass? ==> ledger == old(ledger) + [Entry(TRANSFER, fromAcc, -amount, "Transfer to " + toAcc),
                                                   Entry(TRANSFER, toAcc, amount, "Transfer from " + fromAcc)]
    {
      var foundFrom := GetByAccountNumber(fromAcc);
      if foundFrom.Err? {
        return Fail(foundFrom.error);
      }
      var foundTo := GetByAccountNumber(toAcc);
      if foundTo.Err? {
        return Fail(foundTo.error);
      }
      var activeFrom := EnsureActive(foundFrom.value);
      if activeFrom.Fail? {
        return activeFrom;
      }
      var activeTo := EnsureActive(foundTo.value);
      if activeTo.Fail? {
        return activeTo;
      }
      if foundFrom.value.balance < amount {
        return Fail(InsufficientBalance);
      }
      var debit := Entry(TRANSFER, fromAcc, -amount, "Transfer to " + toAcc);
      var credit := Entry(TRANSFER, toAcc, amount, "Transfer from " + fromAcc);
      if fromAcc != toAcc {
        TransferBetweenDistinct(accounts, fromAcc, toAcc, amount);
      }
      PostTransfer(fromAcc, toAcc, amount, debit, credit);
      r := Pass;
    }

    /**
     * changeStatus: sets the status of the account with id `accountId`;
     * refuses to move a CLOSED account straight back to ACTIVE.
     */
    method ChangeStatus(accountId: AccountId, status: AccountStatus) returns (r: Result<Account>)
      requires Valid()
      modifies this
      ensures Valid()
      ensures customers == old(customers) && accountIds == old(accountIds)
      ensures ledger == old(ledger) && nextId == old(nextId)
      ensures (forall n :: n in old(accounts) ==> old(accounts)[n].id != accountId)
           ==> r == Err(AccountNotFound) && accounts == old(accounts)
      ensures forall n :: n in old(accounts) && old(accounts)[n].id == accountId ==>
        if MayChangeStatus(old(accounts)[n].status, status) then
          && r == Ok(old(accounts)[n].(status := status))
          && accounts == old(accounts)[n := old(accounts)[n].(status := status)]
        else
          r == Err(InvalidTransition) && accounts == old(accounts)
    {
      if accountId !in accountIds {
        return Err(AccountNotFound);
      }
      var number := accountIds[accountId];
      var account := accounts[number];
      if account.status == CLOSED && status == ACTIVE {
        return Err(InvalidTransition);
      }
      StatusChangeKeepsValid(customers, accounts, accountIds, nextId, ledger, number, status);
      account := account.(status := status);
      accounts := accounts[number := account];
      r := Ok(account);
    }
  }
}
