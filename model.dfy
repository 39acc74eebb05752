/**
 * The entities of the bank back office: accounts, ledger entries, and the
 * failures the accounting engine reports.
 *
 * Amounts are `real`: the service computes with exact arbitrary-precision
 * decimals and compares them numerically, so an unbounded exact number type
 * loses nothing.
 */
module Model {

  type AccountNumber = string
  type AccountId = int
  type CustomerId = int

  /**
   * Account status. The service names only ACTIVE (the one status that moves
   * money) and CLOSED (the one that may not go straight back to ACTIVE);
   * INACTIVE stands for every other value the enumeration may have, all of
   * which the service treats alike.
   */
  datatype AccountStatus = ACTIVE | INACTIVE | CLOSED

  /** A bank account record as the account store keeps it. */
  datatype Account = Account(
    id: AccountId,
    number: AccountNumber,
    customerId: CustomerId,
    balance: real,
    currency: string,
    status: AccountStatus)

  /** The three kinds of monetary movement the ledger records. */
  datatype EntryType = DEPOSIT | WITHDRAW | TRANSFER

  /**
   * One ledger entry: credits carry a positive amount, debits a negative one.
   * Its position in the ledger stands for its store-generated id.
   */
  datatype Entry = Entry(
    kind: EntryType,
    account: AccountNumber,
    amount: real,
    description: string)

  /** Every way an accounting operation can be refused. */
  datatype Error =
    | CustomerNotFound
    | AccountNotFound
    | AccountInactive(status: AccountStatus)
    | InsufficientBalance
    | InvalidTransition
    | AccountNumberTaken

  /** The result of an operation that returns a value. */
  datatype Result<T> = Ok(value: T) | Err(error: Error)

  /** The result of an operation that returns nothing. */
  datatype Outcome = Pass | Fail(error: Error)
}
