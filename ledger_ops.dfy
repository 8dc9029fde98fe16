/**
 * The six writes of lib/db.ts as transitions of the two tables. Each one
 * validates first and only then changes rows; a failed transition returns
 * `Err` and has no successor state, which is how the model states that the
 * surrounding transaction rolls every partial write back.
 */
module LedgerOps {
  import opened Wrappers
  import opened LedgerState

  /** The tables after running an operation: unchanged when it failed. */
  function After(t: Tables, r: Result<Tables>): Tables {
    if r.Ok? then r.value else t
  }

  // ---------------------------------------------------------------- wallets

  /** insertWallet: a plain INSERT; the UNIQUE(name) constraint is the only way it fails. */
  function InsertWallet(t: Tables, name: string, amount: real, currency: string): (r: Result<Tables>)
    ensures r.Err? <==> NameTaken(t.wallets, name)
    ensures r.Err? ==> r.error == DuplicateName
    ensures r.Ok? ==>
      && r.value.wallets == t.wallets[t.nextWalletId := Wallet(name, amount, currency)]
      && r.value.nextWalletId == t.nextWalletId + 1
      && r.value.expenses == t.expenses
      && r.value.nextExpenseId == t.nextExpenseId
    ensures r.Ok? && Valid(t) ==> Valid(r.value) && t.nextWalletId !in t.wallets
  {
    if NameTaken(t.wallets, name) then Err(DuplicateName)
    else
      Ok(t.(wallets := t.wallets[t.nextWalletId := Wallet(name, amount, currency)],
            nextWalletId := t.nextWalletId + 1))
  }

  /**
   * updateWallet: `UPDATE wallets SET amount, name, currency WHERE id = ?`.
   * An absent id matches no row and is not an error; renaming onto another
   * wallet's name violates UNIQUE(name).
   */
  function UpdateWallet(t: Tables, id: WalletId, name: string, amount: real, currency: string): (r: Result<Tables>)
    ensures r.Err? <==> id in t.wallets && exists w :: w in t.wallets && w != id && t.wallets[w].name == name
    ensures r.Err? ==> r.error == DuplicateName
    ensures r.Ok? && id !in t.wallets ==> r.value == t
    ensures r.Ok? && id in t.wallets ==>
      r.value == t.(wallets := t.wallets[id := Wallet(name, amount, currency)])
    ensures r.Ok? && Valid(t) ==> Valid(r.value)
  {
    if id !in t.wallets then Ok(t)
    else if exists w :: w in t.wallets && w != id && t.wallets[w].name == name then Err(DuplicateName)
    else Ok(t.(wallets := t.wallets[id := Wallet(name, amount, currency)]))
  }

  /** deleteWallet: removes the row, leaving any expense that refers to it in place. */
  function DeleteWallet(t: Tables, id: WalletId): (r: Tables)
    ensures r.wallets.Keys == t.wallets.Keys - {id}
    ensures forall w :: w in r.wallets ==> r.wallets[w] == t.wallets[w]
    ensures r.expenses == t.expenses
    ensures r.nextWalletId == t.nextWalletId && r.nextExpenseId == t.nextExpenseId
    ensures Valid(t) ==> Valid(r)
  {
    t.(wallets := map w | w in t.wallets && w != id :: t.wallets[w])
  }

  // --------------------------------------------------------------- expenses

  /**
   * insertExpense: read the wallet, fail unless it exists and its balance
   * covers `amount`, then insert the row under the next id and debit the
   * raw `amount` (no currency conversion) from that wallet.
   */
  function InsertExpense(t: Tables, amount: real, note: string, date: string, category: string,
                         walletId: WalletId, currency: string): (r: Result<Tables>)
    ensures r.Err? <==> walletId !in t.wallets || t.wallets[walletId].amount < amount
    ensures r.Err? ==> r.error == (if walletId !in t.wallets then WalletNotFound else InsufficientBalance)
    ensures r.Ok? ==>
      && r.value.expenses == t.expenses[t.nextExpenseId := Expense(amount, note, date, category, currency, Some(walletId))]
      && r.value.nextExpenseId == t.nextExpenseId + 1
      && r.value.wallets.Keys == t.wallets.Keys
      && r.value.wallets[walletId].amount == t.wallets[walletId].amount - amount
      && r.value.wallets[walletId].amount >= 0.0
      && r.value.wallets[walletId].name == t.wallets[walletId].name
      && r.value.wallets[walletId].currency == t.wallets[walletId].currency
      && (forall w :: w in t.wallets && w != walletId ==> r.value.wallets[w] == t.wallets[w])
      && r.value.nextWalletId == t.nextWalletId
    ensures r.Ok? && Valid(t) ==> Valid(r.value) && t.nextExpenseId !in t.expenses
  {
    if walletId !in t.wallets then Err(WalletNotFound)
    else if t.wallets[walletId].amount < amount then Err(InsufficientBalance)
    else
      var row := Expense(amount, note, date, category, currency, Some(walletId));
      Ok(t.(expenses := t.expenses[t.nextExpenseId := row],
            nextExpenseId := t.nextExpenseId + 1,
            wallets := Debit(t.wallets, walletId, amount)))
  }

  /** The row an update writes when the expense stays in its wallet: the walletId is kept. */
  function Rewritten(e: Expense, amount: real, note: string, date: string, category: string, currency: string): Expense {
    e.(amount := amount, note := note, date := date, category := category, currency := currency)
  }

  /**
   * updateExpense. With the wallet unchanged, only the difference moves and
   * the balance is checked only when the expense grows. With a new wallet,
   * both wallets must exist and the new wallet's balance, read before any
   * refund, must cover the whole new amount; the old wallet (if the row had
   * one) is credited the old amount and the new one debited the new amount.
   */
  function UpdateExpense(t: Tables, id: ExpenseId, newAmount: real, note: string, date: string,
                         category: string, currency: string, newWalletId: WalletId): (r: Result<Tables>)
    ensures id !in t.expenses ==> r == Err(ExpenseNotFound)
    ensures id in t.expenses && newWalletId == 0 ==> r == Err(WalletRequired)
    ensures r.Ok? ==> id in t.expenses && newWalletId != 0
    ensures r.Ok? ==>
      && r.value.nextWalletId == t.nextWalletId
      && r.value.nextExpenseId == t.nextExpenseId
      && r.value.wallets.Keys == t.wallets.Keys
      && r.value.expenses.Keys == t.expenses.Keys
      && (forall k :: k in t.expenses && k != id ==> r.value.expenses[k] == t.expenses[k])
      && r.value.expenses[id] == Expense(newAmount, note, date, category, currency, Some(newWalletId))
    ensures r.Ok? && Valid(t) ==> Valid(r.value)
  {
    if id !in t.expenses then Err(ExpenseNotFound)
    else if newWalletId == 0 then Err(WalletRequired)
    else if t.expenses[id].walletId == Some(newWalletId) then
      UpdateInWallet(t, id, newAmount, note, date, category, currency, newWalletId)
    else
      MoveToWallet(t, id, newAmount, note, date, category, currency, newWalletId)
  }

  /** updateExpense, first case: the expense stays in wallet `w`. */
  function UpdateInWallet(t: Tables, id: ExpenseId, newAmount: real, note: string, date: string,
                          category: string, currency: string, w: WalletId): (r: Result<Tables>)
    requires id in t.expenses && t.expenses[id].walletId == Some(w)
    ensures var difference := newAmount - t.expenses[id].amount;
      r.Err? <==> difference > 0.0 && (w !in t.wallets || t.wallets[w].amount < difference)
    ensures r.Err? ==> r.error == (if w !in t.wallets then WalletNotFound else InsufficientBalance)
    ensures r.Ok? ==>
      && r.value.expenses == t.expenses[id := Rewritten(t.expenses[id], newAmount, note, date, category, currency)]
      && r.value.wallets == Debit(t.wallets, w, newAmount - t.expenses[id].amount)
      && r.value.nextWalletId == t.nextWalletId
      && r.value.nextExpenseId == t.nextExpenseId
    ensures r.Ok? && w in t.wallets && newAmount > t.expenses[id].amount ==> r.value.wallets[w].amount >= 0.0
  {
    var difference := newAmount - t.expenses[id].amount;
    if difference > 0.0 && w !in t.wallets then Err(WalletNotFound)
    else if difference > 0.0 && t.wallets[w].amount < difference then Err(InsufficientBalance)
    else
      var row := Rewritten(t.expenses[id], newAmount, note, date, category, currency);
      Ok(t.(expenses := t.expenses[id := row], wallets := Debit(t.wallets, w, difference)))
  }

  /** The wallets after the old wallet (if any) is refunded `oldAmount`. */
  function Refund(wallets: map<WalletId, Wallet>, oldWalletId: Option<WalletId>, oldAmount: real): map<WalletId, Wallet> {
    if oldWalletId.Some? then Credit(wallets, oldWalletId.value, oldAmount) else wallets
  }

  /** updateExpense, second case: the expense moves to wallet `w`. */
  function MoveToWallet(t: Tables, id: ExpenseId, newAmount: real, note: string, date: string,
                        category: string, currency: string, w: WalletId): (r: Result<Tables>)
    requires id in t.expenses && t.expenses[id].walletId != Some(w)
    ensures var from := t.expenses[id].walletId;
      r.Err? <==> (from.Some? && from.value !in t.wallets) || w !in t.wallets || t.wallets[w].amount < newAmount
    ensures var from := t.expenses[id].walletId;
      r.Err? ==> r.error == (if from.Some? && from.value !in t.wallets then OriginalWalletNotFound
                             else if w !in t.wallets then NewWalletNotFound
                             else InsufficientBalanceInNewWallet)
    ensures r.Ok? ==>
      && r.value.expenses == t.expenses[id := Expense(newAmount, note, date, category, currency, Some(w))]
      && r.value.wallets == Debit(Refund(t.wallets, t.expenses[id].walletId, t.expenses[id].amount), w, newAmount)
      && r.value.wallets.Keys == t.wallets.Keys
      && (forall v :: v in t.wallets ==>
            r.value.wallets[v].name == t.wallets[v].name && r.value.wallets[v].currency == t.wallets[v].currency)
      && r.value.wallets[w].amount == t.wallets[w].amount - newAmount >= 0.0
      && (t.expenses[id].walletId.Some? ==>
            var o := t.expenses[id].walletId.value;
            r.value.wallets[o].amount == t.wallets[o].amount + t.expenses[id].amount)
      && (forall v :: v in t.wallets && v != w && Some(v) != t.expenses[id].walletId ==>
            r.value.wallets[v] == t.wallets[v])
      && r.value.nextWalletId == t.nextWalletId
      && r.value.nextExpenseId == t.nextExpenseId
  {
    var e := t.expenses[id];
    if e.walletId.Some? && e.walletId.value !in t.wallets then Err(OriginalWalletNotFound)
    else if w !in t.wallets then Err(NewWalletNotFound)
    else if t.wallets[w].amount < newAmount then Err(InsufficientBalanceInNewWallet)
    else
      var row := Expense(newAmount, note, date, category, currency, Some(w));
      Ok(t.(expenses := t.expenses[id := row],
            wallets := Debit(Refund(t.wallets, e.walletId, e.amount), w, newAmount)))
  }

  /**
   * deleteExpense: removes the row and credits its amount back to its
   * wallet, with no balance check; a row without a wallet, or whose wallet
   * is gone, credits nothing.
   */
  function DeleteExpense(t: Tables, id: ExpenseId): (r: Result<Tables>)
    ensures r.Err? <==> id !in t.expenses
    ensures r.Err? ==> r.error == ExpenseNotFound
    ensures r.Ok? ==>
      && r.value.expenses.Keys == t.expenses.Keys - {id}
      && (forall k :: k in r.value.expenses ==> r.value.expenses[k] == t.expenses[k])
      && r.value.wallets == Refund(t.wallets, t.expenses[id].walletId, t.expenses[id].amount)
      && r.value.nextWalletId == t.nextWalletId
      && r.value.nextExpenseId == t.nextExpenseId
    ensures r.Ok? && Valid(t) ==> Valid(r.value)
  {
    if id !in t.expenses then Err(ExpenseNotFound)
    else
      var e := t.expenses[id];
      Ok(t.(expenses := Without(t.expenses, id), wallets := Refund(t.wallets, e.walletId, e.amount)))
  }

  // ----------------------------------------------------------- conservation

  /** Every wallet that existed still exists and holds the same total. */
  ghost predicate Conserved(t: Tables, t': Tables) {
    && t'.wallets.Keys == t.wallets.Keys
    && forall w :: w in t.wallets ==> Holding(t', w) == Holding(t, w)
  }

  lemma InsertExpenseConserves(t: Tables, amount: real, note: string, date: string, category: string,
                               walletId: WalletId, currency: string)
    requires Valid(t)
    ensures Conserved(t, After(t, InsertExpense(t, amount, note, date, category, walletId, currency)))
  {
    var r := InsertExpense(t, amount, note, date, category, walletId, currency);
    if r.Ok? {
      var row := Expense(amount, note, date, category, currency, Some(walletId));
      forall w | w in t.wallets ensures Holding(r.value, w) == Holding(t, w) {
        SumInsert(t.expenses, t.nextExpenseId, row, InWallet(w));
      }
    }
  }

  lemma UpdateExpenseConserves(t: Tables, id: ExpenseId, newAmount: real, note: string, date: string,
                               category: string, currency: string, newWalletId: WalletId)
    ensures Conserved(t, After(t, UpdateExpense(t, id, newAmount, note, date, category, currency, newWalletId)))
  {
    var r := UpdateExpense(t, id, newAmount, note, date, category, currency, newWalletId);
    if r.Ok? {
      var row := r.value.expenses[id];
      assert r.value.expenses == t.expenses[id := row];
      forall w | w in t.wallets ensures Holding(r.value, w) == Holding(t, w) {
        SumUpdate(t.expenses, id, row, InWallet(w));
      }
    }
  }

  lemma DeleteExpenseConserves(t: Tables, id: ExpenseId)
    ensures Conserved(t, After(t, DeleteExpense(t, id)))
  {
    var r := DeleteExpense(t, id);
    if r.Ok? {
      forall w | w in t.wallets ensures Holding(r.value, w) == Holding(t, w) {
        SumRemove(t.expenses, id, InWallet(w));
      }
    }
  }

  /**
   * AUTOINCREMENT never hands out an id twice, so no expense, not even one
   * orphaned by deleteWallet, can point at a freshly inserted wallet: it
   * holds exactly its opening amount.
   */
  lemma NewWalletHoldsItsAmount(t: Tables, name: string, amount: real, currency: string)
    requires Valid(t)
    requires !NameTaken(t.wallets, name)
    ensures var t' := InsertWallet(t, name, amount, currency).value;
      Holding(t', t.nextWalletId) == amount
  {
  }
}
