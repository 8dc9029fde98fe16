/**
 * The read side of lib/db.ts: the filtered listing (its WHERE clause built
 * condition by condition, its ORDER BY date DESC) and the daily and monthly
 * totals.
 */
module Reports {
  import opened Wrappers
  import opened Text
  import opened LedgerState
  import LedgerOps

  /** The filters of fetchFilteredExpenses; an empty string stands for a filter not given. */
  datatype Filters = Filters(startDate: string, endDate: string, category: string)

  /** One `AND ...` term of the query, with its bound parameter. */
  datatype Condition =
    | DateFrom(bound: string)       // date >= ?
    | DateUntil(bound: string)      // date <= ?
    | CategoryIs(category: string)  // category = ?

  predicate Holds(c: Condition, e: Expense) {
    match c
    case DateFrom(b) => TextLe(b, e.date)
    case DateUntil(b) => TextLe(e.date, b)
    case CategoryIs(k) => e.category == k
  }

  /** `WHERE 1=1 AND ...`: every condition holds (none given selects every row). */
  predicate AllHold(conds: seq<Condition>, e: Expense) {
    forall i :: 0 <= i < |conds| ==> Holds(conds[i], e)
  }

  /** Which rows the filters ask for: "All" and the empty category mean every category. */
  predicate Selected(f: Filters, e: Expense)
    ensures f.startDate == "" && f.endDate == "" && (f.category == "" || f.category == "All") ==> Selected(f, e)
  {
    && (f.startDate != "" ==> TextLe(f.startDate, e.date))
    && (f.endDate != "" ==> TextLe(e.date, f.endDate))
    && (f.category != "" && f.category != "All" ==> e.category == f.category)
  }

  /** A range whose start and end are the same date selects exactly the rows of that date. */
  lemma OneDayRange(f: Filters, e: Expense)
    requires f.startDate != "" && f.endDate == f.startDate
    ensures Selected(f, e) <==> e.date == f.startDate && (f.category == "" || f.category == "All" || e.category == f.category)
  {
    if TextLe(f.startDate, e.date) && TextLe(e.date, f.endDate) {
      TextLeAntisymmetric(f.startDate, e.date);
    }
  }

  /** Appending `AND c` to a query narrows it by exactly `c`. */
  lemma AllHoldAppend(conds: seq<Condition>, c: Condition, e: Expense)
    ensures AllHold(conds + [c], e) <==> AllHold(conds, e) && Holds(c, e)
  {
    if AllHold(conds, e) && Holds(c, e) {
      forall i | 0 <= i < |conds + [c]| ensures Holds((conds + [c])[i], e) {
        if i < |conds| { assert (conds + [c])[i] == conds[i]; }
      }
    }
    if AllHold(conds + [c], e) {
      forall i | 0 <= i < |conds| ensures Holds(conds[i], e) {
        assert (conds + [c])[i] == conds[i];
      }
      assert (conds + [c])[|conds|] == c;
    }
  }

  /** Builds the WHERE clause the way the source appends to its query and parameter list. */
  method BuildConditions(f: Filters) returns (conds: seq<Condition>)
    ensures |conds| <= 3
    ensures forall e :: AllHold(conds, e) <==> Selected(f, e)
  {
    conds := [];
    if f.startDate != "" {
      conds := conds + [DateFrom(f.startDate)];
    }
    if f.endDate != "" {
      conds := conds + [DateUntil(f.endDate)];
    }
    if f.category != "" && f.category != "All" {
      conds := conds + [CategoryIs(f.category)];
    }
    forall e ensures AllHold(conds, e) <==> Selected(f, e) {
      var c0: seq<Condition> := [];
      var c1 := if f.startDate != "" then c0 + [DateFrom(f.startDate)] else c0;
      var c2 := if f.endDate != "" then c1 + [DateUntil(f.endDate)] else c1;
      AllHoldAppend(c0, DateFrom(f.startDate), e);
      AllHoldAppend(c1, DateUntil(f.endDate), e);
      AllHoldAppend(c2, CategoryIs(f.category), e);
    }
  }

  /** A row of `SELECT *`: the id with the rest of the columns. */
  datatype Row = Row(id: ExpenseId, expense: Expense)

  /** The rows among `ids` that the filters select. */
  ghost function MatchingAmong(expenses: map<ExpenseId, Expense>, f: Filters, ids: set<ExpenseId>): set<Row> {
    set k | k in ids && k in expenses && Selected(f, expenses[k]) :: Row(k, expenses[k])
  }

  ghost function Matching(expenses: map<ExpenseId, Expense>, f: Filters): set<Row> {
    MatchingAmong(expenses, f, expenses.Keys)
  }

  predicate SortedByDateDesc(rows: seq<Row>) {
    forall i, j :: 0 <= i < j < |rows| ==> TextLe(rows[j].expense.date, rows[i].expense.date)
  }

  /** Places `row` before the first row whose date is not later than its own. */
  function InsertByDate(rows: seq<Row>, row: Row): (r: seq<Row>)
    requires SortedByDateDesc(rows)
    ensures SortedByDateDesc(r)
    ensures multiset(r) == multiset(rows) + multiset{row}
  {
    if rows == [] || TextLe(rows[0].expense.date, row.expense.date) then
      assert forall j :: 0 <= j < |rows| ==> TextLe(rows[j].expense.date, row.expense.date) by {
        forall j | 0 <= j < |rows| ensures TextLe(rows[j].expense.date, row.expense.date) {
          if j > 0 { TextLeTransitive(rows[j].expense.date, rows[0].expense.date, row.expense.date); }
        }
      }
      [row] + rows
    else
      TextLeTotal(rows[0].expense.date, row.expense.date);
      var tail := InsertByDate(rows[1..], row);
      assert rows == [rows[0]] + rows[1..];
      HeadBoundsInserted(rows, row, tail);
      [rows[0]] + tail
  }

  /** Every row of `rows[1..]` with `row` inserted is dated no later than the head of `rows`. */
  lemma HeadBoundsInserted(rows: seq<Row>, row: Row, tail: seq<Row>)
    requires rows != [] && SortedByDateDesc(rows)
    requires TextLe(row.expense.date, rows[0].expense.date)
    requires multiset(tail) == multiset(rows[1..]) + multiset{row}
    ensures forall j :: 0 <= j < |tail| ==> TextLe(tail[j].expense.date, rows[0].expense.date)
  {
    forall j | 0 <= j < |tail| ensures TextLe(tail[j].expense.date, rows[0].expense.date) {
      assert tail[j] in multiset(tail);
      if tail[j] != row {
        assert tail[j] in multiset(rows[1..]);
        var i :| 0 <= i < |rows[1..]| && rows[1..][i] == tail[j];
        assert rows[i + 1] == tail[j];
      }
    }
  }

  /** Scanning one more id adds its row to the matching set exactly when the row passes the filters. */
  lemma MatchingAmongStep(expenses: map<ExpenseId, Expense>, f: Filters, done: set<ExpenseId>, k: ExpenseId)
    requires k in expenses && k !in done
    ensures MatchingAmong(expenses, f, done + {k})
         == MatchingAmong(expenses, f, done) + (if Selected(f, expenses[k]) then {Row(k, expenses[k])} else {})
    ensures multiset(MatchingAmong(expenses, f, done + {k}))
         == multiset(MatchingAmong(expenses, f, done)) + (if Selected(f, expenses[k]) then multiset{Row(k, expenses[k])} else multiset{})
  {
    assert Row(k, expenses[k]) !in MatchingAmong(expenses, f, done);
  }

  /** getDailyTotal: SUM(amount) over the rows dated exactly `date`, 0 when there are none. */
  ghost function DailyTotal(expenses: map<ExpenseId, Expense>, date: string): (total: real)
    ensures (forall k :: k in expenses ==> expenses[k].date != date) ==> total == 0.0
  {
    Sum(expenses, OnDate(date))
  }

  /** getMonthlyTotal: SUM(amount) over the rows whose date starts with `prefix`, 0 when there are none. */
  ghost function MonthlyTotal(expenses: map<ExpenseId, Expense>, prefix: string): (total: real)
    ensures (forall k :: k in expenses ==> !(prefix <= expenses[k].date)) ==> total == 0.0
  {
    Sum(expenses, InMonth(prefix))
  }

  /** A recorded expense shows up in the total of its own day and month, and of no other. */
  lemma InsertExpenseTotals(t: Tables, amount: real, note: string, date: string, category: string,
                            walletId: WalletId, currency: string, day: string, prefix: string)
    requires Valid(t)
    requires LedgerOps.InsertExpense(t, amount, note, date, category, walletId, currency).Ok?
    ensures var t' := LedgerOps.InsertExpense(t, amount, note, date, category, walletId, currency).value;
      && DailyTotal(t'.expenses, day) == DailyTotal(t.expenses, day) + (if date == day then amount else 0.0)
      && MonthlyTotal(t'.expenses, prefix) == MonthlyTotal(t.expenses, prefix) + (if prefix <= date then amount else 0.0)
  {
    var row := Expense(amount, note, date, category, currency, Some(walletId));
    SumInsert(t.expenses, t.nextExpenseId, row, OnDate(day));
    SumInsert(t.expenses, t.nextExpenseId, row, InMonth(prefix));
  }

  /** A deleted expense leaves the totals of its own day and month, and of no other. */
  lemma DeleteExpenseTotals(t: Tables, id: ExpenseId, day: string, prefix: string)
    requires id in t.expenses
    ensures var e := t.expenses[id];
      var t' := LedgerOps.DeleteExpense(t, id).value;
      && DailyTotal(t'.expenses, day) == DailyTotal(t.expenses, day) - (if e.date == day then e.amount else 0.0)
      && MonthlyTotal(t'.expenses, prefix) == MonthlyTotal(t.expenses, prefix) - (if prefix <= e.date then e.amount else 0.0)
  {
    SumRemove(t.expenses, id, OnDate(day));
    SumRemove(t.expenses, id, InMonth(prefix));
  }
}
