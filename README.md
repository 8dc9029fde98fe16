# Expense tracker ledger, modelled in Dafny

This project models the ledger of a personal expense tracker. The ledger has
two SQLite tables:

- `wallets`: a name (unique), a balance and a currency code.
- `expenses`: an amount, a note, a date, a category, a currency code and a
  nullable wallet id.

It also models the operations of `lib/db.ts` that write and read those tables.
Beside the ledger it models two pure pieces: the day-bucketing of the monthly
bar chart (`components/MonthlyChart.tsx`) and the currency-symbol lookup
(`constants/currencies.ts`).

The writes come in two kinds:

- Wallet writes (`insertWallet`, `updateWallet`, `deleteWallet`) are single
  row statements.
- Expense writes (`insertExpense`, `updateExpense`, `deleteExpense`) move
  money. Each one writes the expense row and debits or credits one or two
  wallets inside one transaction. `insertExpense` checks the wallet's balance
  first. `updateExpense` checks a balance only when it needs one: when the
  amount grows, or when the expense moves to another wallet. `deleteExpense`
  reads only the expense row, outside the transaction, and credits its
  wallet without any check.

The raw entered amount is what gets debited. No currency is converted and no
normalized amount is kept.

## Layout

- `wrappers.dfy`: `Option`.
- `ledger_state.dfy` (module `LedgerState`): the row and table datatypes, the
  error kinds and the invariant `Valid`. Also the single-row `UPDATE`s as
  `Debit` and `Credit`, and `Sum`, the SQL `SUM(amount)` over the rows a
  `Selector` picks (a wallet, a date, a month prefix), with its lemmas.
- `ledger_ops.dfy` (module `LedgerOps`): every write as a pure transition
  `Tables -> Result<Tables>`. `Err` has no successor state: this is how the
  model says that a failed transaction leaves both tables unchanged. The file
  also holds the conservation lemmas.
- `db.dfy` (module `Db`): class `Ledger`. Its fields are the two tables (as
  maps) and their AUTOINCREMENT counters. Its methods do the reads, checks and
  row updates in the source's order. Each method's postcondition ties the new
  state and its outcome to the transition of the same name.
  `FetchFilteredExpenses` builds its conditions and returns the matching rows,
  latest date first.
- `reports.dfy` (module `Reports`): the filter conditions, the ordering, and
  the daily and monthly totals.
- `text.dfy` (module `Text`): SQLite's BINARY text comparison, which is used
  for `date >= ?`, `date <= ?` and `ORDER BY date`.
- `currencies.dfy`, `monthly_chart.dfy`: the two pure pieces.

Amounts are Dafny `real`s. Ids are unbounded integers.

Facts about the code that the model keeps:

- There is no `normalizedAmount` column, no exchange rate and no conversion
  into the wallet's currency. The currency code is stored and nothing more.
- The daily and monthly totals sum the raw `amount` column.
- When the expense stays in its wallet, `updateExpense` reads that wallet's
  balance only if the amount grows. An update that keeps the wallet and does
  not grow the amount succeeds even when the wallet is gone.
- When the expense moves, `updateExpense` checks that the old wallet exists
  (its balance is selected but never used) and reads the new wallet's balance. A
  missing old wallet fails with `OriginalWalletNotFound`, whatever the
  amounts.

## Model

| member | source | states |
|---|---|---|
| LedgerState.Empty | lib/db.ts:96-124 | after the schema is created both tables are empty and the invariant (fresh ids, unique names) holds |
| LedgerState.Debit | lib/db.ts:176-180 | `amount = amount - x` changes only that wallet's balance and keeps the set of wallets; an id that matches no row changes nothing |
| LedgerState.Credit | lib/db.ts:315-322 | `amount = amount + x` is a debit of `-x` |
| LedgerState.SumRemove | lib/db.ts:456 | SUM does not depend on row order: any row can be taken out first |
| LedgerState.SumInsert | lib/db.ts:169-173 | inserting a new row adds exactly its share to every sum |
| LedgerState.SumUpdate | lib/db.ts:263-267 | overwriting a row replaces its old share by its new one in every sum |
| LedgerState.Sum | lib/db.ts:453-471 | `SUM(amount)` over the rows a selector picks; 0 when it picks no row |
| LedgerOps.InsertWallet | lib/db.ts:126-136 | fails (DuplicateName) exactly when the name is taken; otherwise adds one wallet under the next id, touches nothing else, and keeps the invariant |
| LedgerOps.UpdateWallet | lib/db.ts:193-204 | an absent id changes nothing and is not an error; renaming onto another wallet's name fails; otherwise the row is overwritten (balance set, not adjusted) and the invariant holds |
| LedgerOps.DeleteWallet | lib/db.ts:340-346 | removes exactly that wallet, leaves every expense (including the ones that now point nowhere), both AUTOINCREMENT counters and the invariant in place, so a deleted id is never handed out again |
| LedgerOps.InsertExpense | lib/db.ts:138-191 | fails with WalletNotFound or InsufficientBalance exactly when the wallet is missing or its balance is below `amount`; on success adds exactly one row with the given fields under a fresh id, debits exactly `amount` from that wallet (balance stays >= 0) and no other |
| LedgerOps.UpdateExpense | lib/db.ts:206-338 | a missing id fails with ExpenseNotFound and a zero wallet id fails with WalletRequired, in that order; on success only that row changes, it ends up with all the new fields and the new wallet id, and the invariant holds |
| LedgerOps.UpdateInWallet | lib/db.ts:242-277 | same-wallet case: fails iff the expense grows and the wallet is missing or holds less than the difference; on success the row keeps its wallet id and the wallet is debited the difference (balance >= 0 when it grew) |
| LedgerOps.MoveToWallet | lib/db.ts:280-329 | move case: fails iff the old wallet is missing, the new wallet is missing, or the new wallet's balance before any refund is below the new amount (errors in that order); on success the wallets are the old wallet credited the old amount and then the new one debited the new amount (>= 0); no other wallet changes, and every wallet keeps its name and currency |
| LedgerOps.DeleteExpense | lib/db.ts:348-392 | fails iff the id is absent; otherwise removes exactly that row and credits its amount back to its wallet, with no balance check |
| LedgerOps.InsertExpenseConserves | lib/db.ts:152-181 | for every wallet, balance plus the amounts of the expenses pointing at it is the same after insertExpense, whether it succeeded or failed |
| LedgerOps.UpdateExpenseConserves | lib/db.ts:236-330 | the same conservation for updateExpense, in both the same-wallet and the move case |
| LedgerOps.DeleteExpenseConserves | lib/db.ts:370-382 | the same conservation for deleteExpense |
| LedgerOps.NewWalletHoldsItsAmount | lib/db.ts:116-121 | ids are never reused, so no expense points at a newly inserted wallet: it holds exactly its opening amount |
| Db.Ledger.constructor | lib/db.ts:96-124 | a fresh database has two empty tables |
| Db.Ledger.InsertWallet | lib/db.ts:126-136 | the tables change as LedgerOps.InsertWallet says and the new row's id is returned; the invariant is kept |
| Db.Ledger.UpdateWallet | lib/db.ts:193-204 | the tables change as LedgerOps.UpdateWallet says; the result is the number of rows changed (0 or 1) |
| Db.Ledger.DeleteWallet | lib/db.ts:340-346 | the tables change as LedgerOps.DeleteWallet says; the result is the number of rows removed |
| Db.Ledger.InsertExpense | lib/db.ts:138-191 | checks, then inserts, then debits; the result is LedgerOps.InsertExpense's, and on failure nothing changed |
| Db.Ledger.UpdateExpense | lib/db.ts:206-338 | checks, then writes the row, then adjusts one or two wallets; the result is LedgerOps.UpdateExpense's, and on failure nothing changed |
| Db.Ledger.DeleteExpense | lib/db.ts:348-392 | deletes, then credits; the result is LedgerOps.DeleteExpense's |
| Db.Ledger.FetchFilteredExpenses | lib/db.ts:418-451 | returns every row the filters select exactly once and no other, sorted by date descending |
| Reports.Selected | lib/db.ts:426-441 | the rows the WHERE clause asks for; with no date filter and no category (or "All") every row is selected |
| Reports.OneDayRange | lib/db.ts:426-435 | a range whose start and end are the same date selects exactly that date's rows (in the category, when one is given) |
| Reports.BuildConditions | lib/db.ts:426-441 | the appended `AND` terms (at most three) hold of a row exactly when the row is on or after the start date, on or before the end date, and in the category (unless it is empty or "All"), each filter applying only when given |
| Reports.InsertByDate | lib/db.ts:443 | inserting into a list sorted by date descending keeps it sorted and adds exactly that row |
| Text.TextLe | lib/db.ts:426-443 | SQLite's BINARY comparison used by `date >= ?`, `date <= ?` and `ORDER BY date`: a prefix of a date, the date itself included, sorts no later than it |
| Text.TextLeAntisymmetric | lib/db.ts:426-443 | two dates each sorting no later than the other are equal |
| Text.TextLeTotal | lib/db.ts:443 | any two dates are ordered one way or the other |
| Text.TextLeTransitive | lib/db.ts:443 | the date order is transitive |
| Reports.DailyTotal | lib/db.ts:453-461 | the sum of `amount` over rows dated exactly `date`; 0 when no row matches |
| Reports.MonthlyTotal | lib/db.ts:463-471 | the sum of `amount` over rows whose date starts with the prefix; 0 when no row matches |
| Reports.InsertExpenseTotals | lib/db.ts:169-173 | after a successful insertExpense the daily and monthly totals grow by the amount for the expense's own day and month, and stay the same for every other |
| Reports.DeleteExpenseTotals | lib/db.ts:371-375 | after deleteExpense the daily and monthly totals shrink by the amount for the deleted row's day and month, and stay the same for every other |
| Currencies.Table | constants/currencies.ts:1-8 | six entries, distinct codes, every symbol non-empty |
| Currencies.Find | constants/currencies.ts:11 | returns the first entry with that code, and nothing exactly when no entry has it |
| Currencies.GetCurrencySymbol | constants/currencies.ts:10-12 | a code in the table gets that entry's symbol; any other code is returned unchanged |
| MonthlyChart.Split | components/MonthlyChart.tsx:14 | at least one field, none containing the separator |
| MonthlyChart.JoinSplit | components/MonthlyChart.tsx:14 | joining the fields back with the separator gives the original date |
| MonthlyChart.TrimStart | components/MonthlyChart.tsx:14 | parseInt drops the longest prefix made only of white space: everything dropped is white space and what is left is empty or starts with another character |
| MonthlyChart.LeadingDigits | components/MonthlyChart.tsx:14 | parseInt reads the longest prefix of digits |
| MonthlyChart.NatToString | components/MonthlyChart.tsx:46 | `toString` gives a non-empty string of digits with no leading zero |
| MonthlyChart.NatToStringValue | components/MonthlyChart.tsx:46 | the numeral denotes the number |
| MonthlyChart.ParseInt | components/MonthlyChart.tsx:14 | `parseInt(s, 10)`; an empty or all-white-space string reads as NaN |
| MonthlyChart.ParseDigits | components/MonthlyChart.tsx:14 | a run of digits, leading zeros included, reads as the number it denotes |
| MonthlyChart.ParseIntNaN | components/MonthlyChart.tsx:14 | a string that starts with anything but white space, a sign or a digit reads as NaN |
| MonthlyChart.ParseNatToString | components/MonthlyChart.tsx:14 | parseInt reads back what toString wrote |
| MonthlyChart.DayOfFields | components/MonthlyChart.tsx:14 | `date.split('-')[2]` of `year-month-rest` is `rest`, so the bucket is whatever parseInt reads from it |
| MonthlyChart.DayOfDate | components/MonthlyChart.tsx:14 | a date `year-month-day` whose day is any run of digits, such as the zero-padded `05` of an ISO date, is bucketed under the day's value |
| MonthlyChart.DayTotalNone | components/MonthlyChart.tsx:21 | a day no expense falls on totals 0 |
| MonthlyChart.DayTotalConcat | components/MonthlyChart.tsx:12-19 | bucket totals add over concatenation, so input order does not matter |
| MonthlyChart.GroupByDay | components/MonthlyChart.tsx:12-19 | the accumulator has a key exactly for each day (or NaN) some expense falls on, and under it the sum of those expenses' amounts |
| MonthlyChart.DataValues | components/MonthlyChart.tsx:21 | exactly 31 values; entry i is the accumulator's value for day i + 1, or 0 when the day has no key |
| MonthlyChart.DailyValues | components/MonthlyChart.tsx:9-21 | 31 values, entry i is the sum of the amounts of the expenses whose date's third `-`-field parses to i + 1, and 0 when there are none |
| MonthlyChart.OutOfRangeIgnored | components/MonthlyChart.tsx:14-21 | an expense whose day is NaN or outside 1..31 changes no entry, wherever it sits in the input |
| MonthlyChart.Label | components/MonthlyChart.tsx:45-47 | the label is non-empty exactly for day 1 and multiples of 5, and then it is the day's numeral |
| MonthlyChart.LabelParses | components/MonthlyChart.tsx:45-47 | a label that is shown parses back to its day |
| MonthlyChart.AxisLabels | components/MonthlyChart.tsx:9-47 | 31 labels, label i belonging to day i + 1 |

## Left out

- The database handle and its plumbing are not modelled: `getDB`, the web
  platform's null handle and the `Database not initialized` path, and the
  logging `*AsyncSafe` wrappers (lib/db.ts:4-94). These are I/O over
  expo-sqlite.
- The transaction primitive is not modelled. Each write is one atomic step
  that validates, then mutates. `updateExpense` and `deleteExpense` read the
  expense row outside the transaction, and interleavings with other writers
  are not modelled either.
- Storage failures inside a statement are not modelled: no lower-level I/O
  error ever happens in the model.
- `Alert.alert` messages are not modelled. Each distinct message becomes a
  `LedgerError` kind.
- `insertWallet` and `updateWallet` neither catch nor alert: a clash with the
  UNIQUE name constraint escapes as a rejected promise, and the calling
  screen handles it. The model returns `Err(DuplicateName)` for that thrown
  error.
- `updateExpense` tests `!newWalletId`, which is true for `0`, `undefined`,
  `null` and `NaN`. Wallet ids are integers in the model, so `0` stands for
  every falsy wallet id.
- Db.Ledger.UpdateExpense: when the expense id is absent, the source returns
  `undefined`, which is the same value it returns on success. The model
  reports `ExpenseNotFound` instead.
- Floating point is not modelled: amounts are exact reals. `NaN` amounts are
  not modelled either.
- Reports.DailyTotal: the `ROUND(SUM(amount), 2)` rounding is dropped.
- Reports.MonthlyTotal: the `ROUND` is dropped too. `LIKE 'prefix%'` is
  modelled as a plain prefix match: a `%` or `_` inside the prefix is read
  literally, and LIKE's ASCII case folding is ignored.
- `fetchWalletById` and `fetchWallets` are not modelled: they are plain
  `SELECT`s that return the `wallets` map as it is.
- The parameter defaults are not modelled: `currency = 'USD'` in
  `insertExpense`, and the column defaults of the schema. The only calls that
  rely on a default are two screen calls in `app/add/index.tsx`, which are
  outside the model. Its `insertExpense` call passes five arguments, so the
  currency lands in `walletId` and `currency` takes its default. Its
  `updateExpense` call omits `newWalletId`.
- The `minAmount` filter is not modelled. Callers pass it, but
  `fetchFilteredExpenses` ignores it.
- The order of rows with equal dates is not fixed, because SQLite leaves it
  unspecified.
- SQLite's AUTOINCREMENT limit (the largest 64-bit rowid) is not modelled:
  ids are unbounded.
- Chart: the fold is modelled over an abstract amount field, whatever its
  name at the call site. The chart rendering, the colours and the window
  dimensions are not modelled.
- Chart: parseInt results beyond 2^53 lose precision in JavaScript; in the
  model they are exact. No such value can reach the buckets 1..31.
- Screens, navigation, the wallet and expense cards, `hooks/useRefresh.ts`
  and `utils/formatMoney.ts` (a wrapper over `Intl.NumberFormat`) are not
  modelled.
