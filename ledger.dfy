/**
 * The transaction ledger: an append-only sequence of entries, read back per
 * account in append order, and the arithmetic that ties it to balances.
 */
module Ledger {
  import opened Model

  /** The entries recorded against `number`, in the order they were appended. */
  function TransactionsOf(ledger: seq<Entry>, number: AccountNumber): (r: seq<Entry>)
    ensures |r| <= |ledger|
    ensures forall i :: 0 <= i < |r| ==> r[i].account == number
  {
    if ledger == [] then []
    else if ledger[0].account == number then [ledger[0]] + TransactionsOf(ledger[1..], number)
    else TransactionsOf(ledger[1..], number)
  }

  /** An entry is in an account's history exactly when the ledger holds it and it names that account. */
  lemma {:induction false} TransactionsOfExact(ledger: seq<Entry>, number: AccountNumber)
    ensures forall e :: e in TransactionsOf(ledger, number) <==> e in ledger && e.account == number
  {
    if ledger != [] {
      TransactionsOfExact(ledger[1..], number);
      assert ledger == [ledger[0]] + ledger[1..];
    }
  }

  /** The sum of the signed amounts of `entries`. */
  function SumAmounts(entries: seq<Entry>): (r: real)
  {
    if entries == [] then 0.0 else entries[0].amount + SumAmounts(entries[1..])
  }

  /** The balance the ledger implies for `number`: the sum of its entries. */
  function Balance(ledger: seq<Entry>, number: AccountNumber): (r: real)
  {
    SumAmounts(TransactionsOf(ledger, number))
  }

  /** Summing distributes over concatenation. */
  lemma {:induction false} SumAmountsConcat(a: seq<Entry>, b: seq<Entry>)
    ensures SumAmounts(a + b) == SumAmounts(a) + SumAmounts(b)
  {
    if a == [] {
      assert a + b == b;
    } else {
      assert (a + b)[1..] == a[1..] + b;
      SumAmountsConcat(a[1..], b);
    }
  }

  /** Appending an entry adds it to the history of its own account and of no other. */
  lemma {:induction false} TransactionsOfAppend(ledger: seq<Entry>, e: Entry, number: AccountNumber)
    ensures TransactionsOf(ledger + [e], number)
         == TransactionsOf(ledger, number) + (if e.account == number then [e] else [])
  {
    if ledger == [] {
      assert ledger + [e] == [e];
      assert [e][1..] == [];
    } else {
      assert (ledger + [e])[1..] == ledger[1..] + [e];
      TransactionsOfAppend(ledger[1..], e, number);
    }
  }

  /** Appending two entries extends each account's history by those of the two that name it, in order. */
  lemma TransactionsOfAppendPair(ledger: seq<Entry>, first: Entry, second: Entry, number: AccountNumber)
    ensures TransactionsOf(ledger + [first, second], number)
         == TransactionsOf(ledger, number)
            + (if first.account == number then [first] else [])
            + (if second.account == number then [second] else [])
  {
    assert ledger + [first, second] == (ledger + [first]) + [second];
    TransactionsOfAppend(ledger, first, number);
    TransactionsOfAppend(ledger + [first], second, number);
  }

  /** Appending an entry moves the implied balance of its account by exactly its amount. */
  lemma BalanceAfterAppend(ledger: seq<Entry>, e: Entry, number: AccountNumber)
    ensures Balance(ledger + [e], number)
         == Balance(ledger, number) + (if e.account == number then e.amount else 0.0)
  {
    TransactionsOfAppend(ledger, e, number);
    var extra := if e.account == number then [e] else [];
    SumAmountsConcat(TransactionsOf(ledger, number), extra);
    if e.account == number {
      assert SumAmounts([e]) == e.amount + SumAmounts([]);
    }
  }

  /** An account the ledger never mentions has an implied balance of zero. */
  lemma {:induction false} BalanceOfUnmentioned(ledger: seq<Entry>, number: AccountNumber)
    requires forall i :: 0 <= i < |ledger| ==> ledger[i].account != number
    ensures TransactionsOf(ledger, number) == []
    ensures Balance(ledger, number) == 0.0
  {
    if ledger != [] {
      assert ledger[0].account != number;
      forall i | 0 <= i < |ledger[1..]|
        ensures ledger[1..][i].account != number
      {
        assert ledger[1..][i] == ledger[i + 1];
      }
      BalanceOfUnmentioned(ledger[1..], number);
    }
  }

  /**
   * A pair of entries whose amounts cancel leaves the ledger's total unchanged:
   * a transfer neither creates nor destroys money.
   */
  lemma PairKeepsTotal(ledger: seq<Entry>, debit: Entry, credit: Entry)
    requires debit.amount == -credit.amount
    ensures SumAmounts(ledger + [debit, credit]) == SumAmounts(ledger)
  {
    SumAmountsConcat(ledger, [debit, credit]);
    assert [debit, credit][1..] == [credit];
    assert SumAmounts([credit]) == credit.amount + SumAmounts([]);
  }

  /** A single appended entry moves the ledger's total by its amount. */
  lemma AppendMovesTotal(ledger: seq<Entry>, e: Entry)
    ensures SumAmounts(ledger + [e]) == SumAmounts(ledger) + e.amount
  {
    SumAmountsConcat(ledger, [e]);
    assert SumAmounts([e]) == e.amount + SumAmounts([]);
  }

  /** The sum of the amounts a map assigns to its account numbers, in no particular order. */
  ghost function Total(amounts: map<AccountNumber, real>): (r: real)
    decreases |amounts|
  {
    if amounts == map[] then 0.0
    else
      var number :| number in amounts;
      assert |amounts - {number}| < |amounts| by {
        assert (amounts - {number}).Keys == amounts.Keys - {number};
      }
      amounts[number] + Total(amounts - {number})
  }

  /** Any one account number can be taken out of a total first: the order of summation does not matter. */
  lemma {:induction false} TotalRemove(amounts: map<AccountNumber, real>, number: AccountNumber)
    requires number in amounts
    ensures Total(amounts) == amounts[number] + Total(amounts - {number})
    decreases |amounts|
  {
    var first :| first in amounts && Total(amounts) == amounts[first] + Total(amounts - {first});
    if first != number {
      var rest := amounts - {first};
      assert (rest - {number}).Keys == amounts.Keys - {first, number};
      assert |rest| < |amounts| by {
        assert rest.Keys == amounts.Keys - {first};
      }
      TotalRemove(rest, number);
      var others := amounts - {number};
      assert |others| < |amounts| by {
        assert others.Keys == amounts.Keys - {number};
      }
      TotalRemove(others, first);
      assert rest - {number} == others - {first};
    }
  }

  /** Changing the amount of one account number moves the total by the difference. */
  lemma TotalUpdate(amounts: map<AccountNumber, real>, number: AccountNumber, amount: real)
    requires number in amounts
    ensures Total(amounts[number := amount]) == Total(amounts) - amounts[number] + amount
  {
    TotalRemove(amounts[number := amount], number);
    TotalRemove(amounts, number);
    assert amounts[number := amount] - {number} == amounts - {number};
  }

  /** A map of zero amounts totals zero. */
  lemma {:induction false} TotalOfZeros(amounts: map<AccountNumber, real>)
    requires forall n :: n in amounts ==> amounts[n] == 0.0
    ensures Total(amounts) == 0.0
    decreases |amounts|
  {
    if amounts != map[] {
      var number :| number in amounts;
      TotalRemove(amounts, number);
      assert |amounts - {number}| < |amounts| by {
        assert (amounts - {number}).Keys == amounts.Keys - {number};
      }
      TotalOfZeros(amounts - {number});
    }
  }

  /** The balances the ledger implies for each of `numbers`. */
  ghost function Balances(ledger: seq<Entry>, numbers: set<AccountNumber>): (r: map<AccountNumber, real>)
    ensures r.Keys == numbers
    ensures forall n :: n in numbers ==> r[n] == Balance(ledger, n)
  {
    map n | n in numbers :: Balance(ledger, n)
  }

  /** Appending an entry of one of `numbers` moves that account's implied balance and no other. */
  lemma BalancesAfterAppend(ledger: seq<Entry>, e: Entry, numbers: set<AccountNumber>)
    requires e.account in numbers
    ensures Balances(ledger + [e], numbers)
         == Balances(ledger, numbers)[e.account := Balance(ledger, e.account) + e.amount]
  {
    var after := Balances(ledger + [e], numbers);
    var moved := Balances(ledger, numbers)[e.account := Balance(ledger, e.account) + e.amount];
    forall n | n in numbers
      ensures after[n] == moved[n]
    {
      BalanceAfterAppend(ledger, e, n);
    }
    assert after.Keys == moved.Keys;
  }

  /** Appending an entry of one of `numbers` moves the total of their implied balances by its amount. */
  lemma BalancesTotalAfterAppend(ledger: seq<Entry>, e: Entry, numbers: set<AccountNumber>)
    requires e.account in numbers
    ensures Total(Balances(ledger + [e], numbers)) == Total(Balances(ledger, numbers)) + e.amount
  {
    var before := Balances(ledger, numbers);
    var moved := before[e.account := Balance(ledger, e.account) + e.amount];
    BalancesAfterAppend(ledger, e, numbers);
    assert Total(Balances(ledger + [e], numbers)) == Total(moved);
    TotalUpdate(before, e.account, Balance(ledger, e.account) + e.amount);
    assert before[e.account] == Balance(ledger, e.account);
  }

  /**
   * When every entry belongs to one of `numbers`, the implied balances of
   * those accounts add up to the ledger's total: money is only ever held in
   * an account.
   */
  lemma {:induction false} BalancesAddUpToTotal(ledger: seq<Entry>, numbers: set<AccountNumber>)
    requires forall i :: 0 <= i < |ledger| ==> ledger[i].account in numbers
    ensures Total(Balances(ledger, numbers)) == SumAmounts(ledger)
    decreases |ledger|
  {
    if ledger == [] {
      TotalOfZeros(Balances(ledger, numbers));
    } else {
      var init, e := ledger[..|ledger| - 1], ledger[|ledger| - 1];
      assert ledger == init + [e];
      assert e.account in numbers;
      BalancesAddUpToTotal(init, numbers);
      BalancesTotalAfterAppend(init, e, numbers);
      AppendMovesTotal(init, e);
    }
  }
}
