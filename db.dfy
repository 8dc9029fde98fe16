/**
 * The ledger of lib/db.ts as an object: the two tables and their
 * autoincrement counters are fields, and every exported write is a method
 * that reads, checks and then updates rows one statement at a time. Each
 * method is tied to the transition of the same name in `LedgerOps`, whose
 * properties are proved there.
 */
module Db {
  import opened Wrappers
  import opened LedgerState
  import LedgerOps
  import Reports

  /** `{ success: true }` or `{ success: false, error }`. */
  datatype Outcome = Success | Failure(error: LedgerError)

  /** The method changed the tables as `spec` says and reported its outcome. */
  ghost predicate Committed(before: Tables, spec: Result<Tables>, after: Tables, outcome: Outcome) {
    match spec
    case Ok(t) => after == t && outcome == Success
    case Err(e) => after == before && outcome == Failure(e)
  }

  class Ledger {
    var wallets: map<WalletId, Wallet>
    var expenses: map<ExpenseId, Expense>
    var nextWalletId: WalletId
    var nextExpenseId: ExpenseId

    function State(): Tables
      reads this
    {
      Tables(wallets, expenses, nextWalletId, nextExpenseId)
    }

    ghost predicate Valid()
      reads this
    {
      LedgerState.Valid(State())
    }

    /** initDB on a fresh database: both tables exist and are empty. */
    constructor ()
      ensures Valid() && State() == Empty()
    {
      wallets := map[];
      expenses := map[];
      nextWalletId := 1;
      nextExpenseId := 1;
    }

    /** insertWallet; on success the result is the new row's id. */
    method InsertWallet(name: string, amount: real, currency: string) returns (r: Result<WalletId>)
      requires Valid()
      modifies this
      ensures Valid()
      ensures var spec := LedgerOps.InsertWallet(old(State()), name, amount, currency);
        && State() == LedgerOps.After(old(State()), spec)
        && r == (if spec.Ok? then Ok(old(nextWalletId)) else Err(spec.error))
    {
      if NameTaken(wallets, name) {
        return Err(DuplicateName);
      }
      wallets := wallets[nextWalletId := Wallet(name, amount, currency)];
      r := Ok(nextWalletId);
      nextWalletId := nextWalletId + 1;
    }

    /** updateWallet; on success the result is the number of rows changed. */
    method UpdateWallet(id: WalletId, name: string, amount: real, currency: string) returns (r: Result<nat>)
      requires Valid()
      modifies this
      ensures Valid()
      ensures var spec := LedgerOps.UpdateWallet(old(State()), id, name, amount, currency);
        && State() == LedgerOps.After(old(State()), spec)
        && r == (if spec.Ok? then Ok(if id in old(wallets) then 1 else 0) else Err(spec.error))
    {
      if id !in wallets {
        return Ok(0);
      }
      if exists w :: w in wallets && w != id && wallets[w].name == name {
        return Err(DuplicateName);
      }
      wallets := wallets[id := Wallet(name, amount, currency)];
      r := Ok(1);
    }

    /** deleteWallet; the result is the number of rows removed. */
    method DeleteWallet(id: WalletId) returns (changes: nat)
      requires Valid()
      modifies this
      ensures Valid()
      ensures State() == LedgerOps.DeleteWallet(old(State()), id)
      ensures changes == if id in old(wallets) then 1 else 0
    {
      changes := if id in wallets then 1 else 0;
      wallets := map w | w in wallets && w != id :: wallets[w];
    }

    /** insertExpense. */
    method InsertExpense(amount: real, note: string, date: string, category: string,
                         walletId: WalletId, currency: string) returns (outcome: Outcome)
      requires Valid()
      modifies this
      ensures Valid()
      ensures Committed(old(State()),
                        LedgerOps.InsertExpense(old(State()), amount, note, date, category, walletId, currency),
                        State(), outcome)
    {
      // 1. read the wallet's balance and check it
      if walletId !in wallets {
        return Failure(WalletNotFound);
      }
      var balance := wallets[walletId].amount;
      if balance < amount {
        return Failure(InsufficientBalance);
      }
      // 2. insert the expense
      expenses := expenses[nextExpenseId := Expense(amount, note, date, category, currency, Some(walletId))];
      nextExpenseId := nextExpenseId + 1;
      // 3. debit the wallet
      wallets := Debit(wallets, walletId, amount);
      outcome := Success;
    }

    /** updateExpense. */
    method UpdateExpense(id: ExpenseId, newAmount: real, note: string, date: string, category: string,
                         currency: string, newWalletId: WalletId) returns (outcome: Outcome)
      requires Valid()
      modifies this
      ensures Valid()
      ensures Committed(old(State()),
                        LedgerOps.UpdateExpense(old(State()), id, newAmount, note, date, category, currency, newWalletId),
                        State(), outcome)
    {
      if id !in expenses {
        return Failure(ExpenseNotFound);
      }
      var oldAmount := expenses[id].amount;
      var oldWalletId := expenses[id].walletId;
      if newWalletId == 0 {
        return Failure(WalletRequired);
      }

      if oldWalletId == Some(newWalletId) {
        // the expense stays in its wallet: only the difference moves
        var difference := newAmount - oldAmount;
        if difference > 0.0 {
          if newWalletId !in wallets {
            return Failure(WalletNotFound);
          }
          if wallets[newWalletId].amount < difference {
            return Failure(InsufficientBalance);
          }
        }
        expenses := expenses[id := LedgerOps.Rewritten(expenses[id], newAmount, note, date, category, currency)];
        if difference != 0.0 {
          wallets := Debit(wallets, newWalletId, difference);
        }
        assert difference == 0.0 ==> Debit(old(wallets), newWalletId, difference) == old(wallets);
        return Success;
      }

      // the expense moves to another wallet
      var oldWallet := if oldWalletId.Some? && oldWalletId.value in wallets then Some(wallets[oldWalletId.value]) else None;
      var newWallet := if newWalletId in wallets then Some(wallets[newWalletId]) else None;
      if oldWalletId.Some? && oldWallet.None? {
        return Failure(OriginalWalletNotFound);
      }
      if newWallet.None? {
        return Failure(NewWalletNotFound);
      }
      if newWallet.value.amount < newAmount {
        return Failure(InsufficientBalanceInNewWallet);
      }
      // 1. point the row at the new wallet
      expenses := expenses[id := Expense(newAmount, note, date, category, currency, Some(newWalletId))];
      // 2. refund the old wallet, if the row had one
      if oldWalletId.Some? {
        wallets := Credit(wallets, oldWalletId.value, oldAmount);
      }
      // 3. debit the new wallet
      wallets := Debit(wallets, newWalletId, newAmount);
      outcome := Success;
    }

    /** deleteExpense. */
    method DeleteExpense(id: ExpenseId) returns (outcome: Outcome)
      requires Valid()
      modifies this
      ensures Valid()
      ensures Committed(old(State()), LedgerOps.DeleteExpense(old(State()), id), State(), outcome)
    {
      if id !in expenses {
        return Failure(ExpenseNotFound);
      }
      var expense := expenses[id];
      expenses := Without(expenses, id);
      if expense.walletId.Some? {
        wallets := Credit(wallets, expense.walletId.value, expense.amount);
      }
      outcome := Success;
    }

    /**
     * fetchFilteredExpenses: exactly the rows the filters select, each once,
     * latest date first. The scan with sorted insertion stands for the
     * database engine evaluating the query; rows with equal dates may come
     * in any order.
     */
    method FetchFilteredExpenses(filters: Reports.Filters) returns (rows: seq<Reports.Row>)
      ensures Reports.SortedByDateDesc(rows)
      ensures multiset(rows) == multiset(Reports.Matching(expenses, filters))
    {
      var conds := Reports.BuildConditions(filters);
      rows := [];
      var todo := expenses.Keys;
      while todo != {}
        invariant todo <= expenses.Keys
        invariant Reports.SortedByDateDesc(rows)
        invariant multiset(rows) == multiset(Reports.MatchingAmong(expenses, filters, expenses.Keys - todo))
        decreases |todo|
      {
        NonEmptyHasMember(todo);
        var k :| k in todo;
        var row := Reports.Row(k, expenses[k]);
        ghost var done := expenses.Keys - todo;
        Reports.MatchingAmongStep(expenses, filters, done, k);
        if Reports.AllHold(conds, expenses[k]) {
          rows := Reports.InsertByDate(rows, row);
        }
        todo := todo - {k};
        assert expenses.Keys - todo == done + {k};
      }
      assert expenses.Keys - todo == expenses.Keys;
    }
  }
}
