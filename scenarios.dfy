/**
 * Verified call sequences on the accounting engine, each stating the
 * balances, histories and refusals that result.
 */
module Scenarios {
  import opened Model
  import opened Ledger
  import opened Service

  /** A new service for one customer holding one freshly opened account. */
  method OpenOne(customer: CustomerId, number: AccountNumber, currency: string)
    returns (bank: BankAccountService, created: Result<Account>)
    ensures fresh(bank) && bank.Valid()
    ensures created == Ok(Account(1, number, customer, 0.0, currency, ACTIVE))
    ensures bank.accounts == map[number := created.value] && bank.accountIds == map[1 := number]
    ensures bank.ledger == [] && bank.customers == {customer} && bank.nextId == 2
  {
    bank := new BankAccountService({customer});
    created := bank.CreateAccount(customer, currency, number);
  }

  /**
   * Deposit 100 and withdraw 30 on a new USD account: the balance is 70, the
   * history holds both entries in order, and withdrawing 1000 more is refused
   * without touching the balance.
   */
  method DepositThenWithdraw() returns (created: Result<Account>, balance: real, history: seq<Entry>, overdraft: Outcome)
    ensures created == Ok(Account(1, "ACC-1", 1, 0.0, "USD", ACTIVE))
    ensures balance == 70.0
    ensures history == [Entry(DEPOSIT, "ACC-1", 100.0, "Deposit"), Entry(WITHDRAW, "ACC-1", -30.0, "Withdraw")]
    ensures overdraft == Fail(InsufficientBalance)
  {
    var bank;
    bank, created := OpenOne(1, "ACC-1", "USD");
    var deposited := bank.Deposit("ACC-1", 100.0);
    var withdrawn := bank.Withdraw("ACC-1", 30.0);
    overdraft := bank.Withdraw("ACC-1", 1000.0);
    balance := bank.accounts["ACC-1"].balance;
    var entries := bank.GetTransactions("ACC-1");
    history := entries.value;
  }

  /** A new service for one customer with accounts "A" holding 50 and "B" holding nothing. */
  method OpenFundedPair() returns (bank: BankAccountService)
    ensures fresh(bank) && bank.Valid()
    ensures bank.accounts == map["A" := Account(1, "A", 7, 50.0, "EUR", ACTIVE),
                                 "B" := Account(2, "B", 7, 0.0, "EUR", ACTIVE)]
    ensures bank.ledger == [Entry(DEPOSIT, "A", 50.0, "Deposit")]
  {
    var created;
    bank, created := OpenOne(7, "A", "EUR");
    var b := bank.CreateAccount(7, "EUR", "B");
    var deposited := bank.Deposit("A", 50.0);
  }

  /**
   * Transfer 50 from an account holding 50 to an empty one: the source ends at
   * 0, the destination at 50, each history gains one TRANSFER entry, and a
   * further transfer of 0.01 is refused.
   */
  method TransferAll() returns (fromBalance: real, toBalance: real, fromHistory: seq<Entry>,
                                toHistory: seq<Entry>, again: Outcome)
    ensures fromBalance == 0.0 && toBalance == 50.0
    ensures fromHistory == [Entry(DEPOSIT, "A", 50.0, "Deposit"), Entry(TRANSFER, "A", -50.0, "Transfer to " + "B")]
    ensures toHistory == [Entry(TRANSFER, "B", 50.0, "Transfer from " + "A")]
    ensures again == Fail(InsufficientBalance)
  {
    var deposit := Entry(DEPOSIT, "A", 50.0, "Deposit");
    var debit := Entry(TRANSFER, "A", -50.0, "Transfer to " + "B");
    var credit := Entry(TRANSFER, "B", 50.0, "Transfer from " + "A");
    var bank := OpenFundedPair();
    assert [deposit][1..] == [];
    TransactionsOfAppendPair([deposit], debit, credit, "A");
    TransactionsOfAppendPair([deposit], debit, credit, "B");
    TransferBetweenDistinct(bank.accounts, "A", "B", 50.0);
    var moved := bank.Transfer("A", "B", 50.0);
    again := bank.Transfer("A", "B", 0.01);
    fromBalance := bank.accounts["A"].balance;
    toBalance := bank.accounts["B"].balance;
    fromHistory := TransactionsOf(bank.ledger, "A");
    toHistory := TransactionsOf(bank.ledger, "B");
  }

  /**
   * Amounts are not checked for sign: a transfer of a negative amount between
   * two ACTIVE accounts passes the balance test when the source holds at least
   * that amount, as a non-negative source always does, and then takes money
   * out of the destination, whose balance is never checked, leaving it negative.
   */
  method NegativeTransferOverdrawsDestination() returns (moved: Outcome, fromBalance: real, toBalance: real)
    ensures moved == Pass
    ensures fromBalance == 60.0 && toBalance == -10.0
  {
    var bank := OpenFundedPair();
    TransferBetweenDistinct(bank.accounts, "A", "B", -10.0);
    moved := bank.Transfer("A", "B", -10.0);
    fromBalance := bank.accounts["A"].balance;
    toBalance := bank.accounts["B"].balance;
  }

  /**
   * A transfer from an account to itself is accepted, appends a debit and a
   * credit against it, and leaves its balance where it was.
   */
  method TransferToSelf() returns (balance: real, history: seq<Entry>)
    ensures balance == 20.0
    ensures history == [Entry(DEPOSIT, "S", 20.0, "Deposit"),
                        Entry(TRANSFER, "S", -5.0, "Transfer to " + "S"),
                        Entry(TRANSFER, "S", 5.0, "Transfer from " + "S")]
  {
    var deposit := Entry(DEPOSIT, "S", 20.0, "Deposit");
    var debit := Entry(TRANSFER, "S", -5.0, "Transfer to " + "S");
    var credit := Entry(TRANSFER, "S", 5.0, "Transfer from " + "S");
    assert [deposit][1..] == [];
    TransactionsOfAppendPair([deposit], debit, credit, "S");
    var bank, created := OpenOne(3, "S", "USD");
    var deposited := bank.Deposit("S", 20.0);
    SelfTransferKeepsAccounts(bank.accounts, "S", 5.0);
    var moved := bank.Transfer("S", "S", 5.0);
    balance := bank.accounts["S"].balance;
    history := TransactionsOf(bank.ledger, "S");
  }

  /** A new service whose single account "R" has been closed. */
  method OpenClosed() returns (bank: BankAccountService, closed: Result<Account>)
    ensures fresh(bank) && bank.Valid()
    ensures closed == Ok(Account(1, "R", 5, 0.0, "CLP", CLOSED))
    ensures bank.accounts == map["R" := closed.value] && bank.accountIds == map[1 := "R"]
  {
    var created;
    bank, created := OpenOne(5, "R", "CLP");
    assert bank.accounts["R"].id == 1;
    closed := bank.ChangeStatus(1, CLOSED);
  }

  /** A CLOSED account cannot be made ACTIVE in one step, and it refuses deposits. */
  method ClosedRefusesDirectReopenAndDeposits() returns (direct: Result<Account>, deposit: Outcome)
    ensures direct == Err(InvalidTransition)
    ensures deposit == Fail(AccountInactive(CLOSED))
  {
    var bank, closed := OpenClosed();
    direct := bank.ChangeStatus(1, ACTIVE);
    deposit := bank.Deposit("R", 10.0);
  }

  /**
   * Any account, whatever its status, can be made ACTIVE by asking for
   * INACTIVE and then ACTIVE: both requests are accepted, only the status of
   * that one account changes, and the ledger is untouched.
   */
  method ReopenThroughInactive(bank: BankAccountService, accountId: AccountId)
    returns (viaInactive: Result<Account>, reopened: Result<Account>)
    requires bank.Valid() && accountId in bank.accountIds
    modifies bank
    ensures bank.Valid()
    ensures var number := old(bank.accountIds[accountId]);
      && viaInactive == Ok(old(bank.accounts[number]).(status := INACTIVE))
      && reopened == Ok(old(bank.accounts[number]).(status := ACTIVE))
      && bank.accounts == old(bank.accounts)[number := old(bank.accounts[number]).(status := ACTIVE)]
    ensures bank.ledger == old(bank.ledger) && bank.accountIds == old(bank.accountIds)
    ensures bank.customers == old(bank.customers) && bank.nextId == old(bank.nextId)
  {
    var number := bank.accountIds[accountId];
    assert bank.accounts[number].id == accountId;
    viaInactive := bank.ChangeStatus(accountId, INACTIVE);
    assert bank.accounts[number].id == accountId;
    reopened := bank.ChangeStatus(accountId, ACTIVE);
    assert bank.accounts == old(bank.accounts)[number := old(bank.accounts[number]).(status := ACTIVE)];
  }

  /** A closed account reopened through INACTIVE takes deposits again. */
  method ReopenedAccountTakesDeposits() returns (viaInactive: Result<Account>, reopened: Result<Account>, deposit: Outcome)
    ensures viaInactive == Ok(Account(1, "R", 5, 0.0, "CLP", INACTIVE))
    ensures reopened == Ok(Account(1, "R", 5, 0.0, "CLP", ACTIVE))
    ensures deposit == Pass
  {
    var bank, closed := OpenClosed();
    viaInactive, reopened := ReopenThroughInactive(bank, 1);
    deposit := bank.Deposit("R", 10.0);
  }

  /** Opening an account for an unknown customer, or under a number in use, is refused; so is an unknown id. */
  method OpeningRefusals() returns (unknown: Result<Account>, taken: Result<Account>, missing: Result<Account>)
    ensures unknown == Err(CustomerNotFound)
    ensures taken == Err(AccountNumberTaken)
    ensures missing == Err(AccountNotFound)
  {
    var bank := new BankAccountService({1});
    unknown := bank.CreateAccount(2, "USD", "N");
    var first := bank.CreateAccount(1, "USD", "N");
    taken := bank.CreateAccount(1, "EUR", "N");
    missing := bank.ChangeStatus(2, CLOSED);
  }
}
