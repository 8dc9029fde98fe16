/**
 * The persisted shape of the two tables of lib/db.ts, the invariant the
 * ledger keeps over them, and a sum over the expense table used both by
 * the conservation property and by the reporting queries.
 */
module LedgerState {
  import opened Wrappers

  type WalletId = int
  type ExpenseId = int

  /** A row of `wallets`: the balance is in the wallet's own currency. */
  datatype Wallet = Wallet(name: string, amount: real, currency: string)

  /** A row of `expenses`; `walletId` is a nullable column. */
  datatype Expense = Expense(
    amount: real,
    note: string,
    date: string,
    category: string,
    currency: string,
    walletId: Option<WalletId>)

  /**
   * Both tables, with the next id each AUTOINCREMENT primary key hands out
   * (SQLite never reuses an AUTOINCREMENT id, even after a delete).
   */
  datatype Tables = Tables(
    wallets: map<WalletId, Wallet>,
    expenses: map<ExpenseId, Expense>,
    nextWalletId: WalletId,
    nextExpenseId: ExpenseId)

  /** The ledger's failure kinds, one per error the source raises. */
  datatype LedgerError =
    | DuplicateName                   // UNIQUE constraint on wallets.name
    | WalletNotFound                  // 'Wallet not found'
    | InsufficientBalance             // 'Insufficient balance in wallet'
    | WalletRequired                  // 'A wallet is required for this expense'
    | OriginalWalletNotFound          // 'Original wallet not found'
    | NewWalletNotFound               // 'New wallet not found'
    | InsufficientBalanceInNewWallet  // 'Insufficient balance in new wallet'
    | ExpenseNotFound                 // no expense row with the given id

  datatype Result<+T> = Ok(value: T) | Err(error: LedgerError)

  /** The tables right after the schema has been created on an empty database. */
  function Empty(): (t: Tables)
    ensures Valid(t) && t.wallets == map[] && t.expenses == map[]
  {
    Tables(map[], map[], 1, 1)
  }

  /**
   * What every ledger operation keeps: ids below the autoincrement counters,
   * wallet names unique, and every wallet an expense refers to was issued
   * (it may since have been deleted: there is no foreign-key enforcement).
   */
  ghost predicate Valid(t: Tables) {
    && 1 <= t.nextWalletId
    && 1 <= t.nextExpenseId
    && (forall w :: w in t.wallets ==> 1 <= w < t.nextWalletId)
    && (forall k :: k in t.expenses ==> 1 <= k < t.nextExpenseId)
    && (forall k :: k in t.expenses && t.expenses[k].walletId.Some? ==>
          t.expenses[k].walletId.value < t.nextWalletId)
    && UniqueNames(t.wallets)
  }

  ghost predicate UniqueNames(wallets: map<WalletId, Wallet>) {
    forall a, b :: a in wallets && b in wallets && wallets[a].name == wallets[b].name ==> a == b
  }

  /** Whether some wallet already carries `name`. */
  predicate NameTaken(wallets: map<WalletId, Wallet>, name: string)
  {
    exists w :: w in wallets && wallets[w].name == name
  }

  /** `UPDATE wallets SET amount = amount - ? WHERE id = ?`: no row matched, nothing changes. */
  function Debit(wallets: map<WalletId, Wallet>, w: WalletId, x: real): (r: map<WalletId, Wallet>)
    ensures r.Keys == wallets.Keys
    ensures w in wallets ==> r[w] == wallets[w].(amount := wallets[w].amount - x)
    ensures forall v :: v in wallets && v != w ==> r[v] == wallets[v]
  {
    if w in wallets then wallets[w := wallets[w].(amount := wallets[w].amount - x)] else wallets
  }

  /** `UPDATE wallets SET amount = amount + ? WHERE id = ?`. */
  function Credit(wallets: map<WalletId, Wallet>, w: WalletId, x: real): (r: map<WalletId, Wallet>)
    ensures r == Debit(wallets, w, -x)
  {
    if w in wallets then wallets[w := wallets[w].(amount := wallets[w].amount + x)] else wallets
  }

  /** Which expense rows a sum ranges over. */
  datatype Selector =
    | InWallet(wallet: WalletId)   // walletId = wallet
    | OnDate(date: string)         // date = ?
    | InMonth(prefix: string)      // date LIKE 'prefix%'

  predicate Selects(s: Selector, e: Expense) {
    match s
    case InWallet(w) => e.walletId == Some(w)
    case OnDate(d) => e.date == d
    case InMonth(p) => p <= e.date
  }

  function Share(e: Expense, s: Selector): real {
    if Selects(s, e) then e.amount else 0.0
  }

  /** The map without key `k`. */
  function Without(m: map<ExpenseId, Expense>, k: ExpenseId): (r: map<ExpenseId, Expense>)
    ensures r.Keys == m.Keys - {k}
    ensures forall j :: j in r ==> r[j] == m[j]
    ensures k in m ==> |r| == |m| - 1
  {
    var r := map j | j in m && j != k :: m[j];
    assert r.Keys == m.Keys - {k};
    r
  }

  /** A non-empty set of ids has a member. */
  lemma NonEmptyHasMember(ids: set<ExpenseId>)
    requires ids != {}
    ensures exists k :: k in ids
  {
    assert (forall k :: k !in ids) ==> ids == {};
  }

  /** Some row id of a non-empty table. */
  ghost function Pick(m: map<ExpenseId, Expense>): (k: ExpenseId)
    requires m.Keys != {}
    ensures k in m
  {
    NonEmptyHasMember(m.Keys);
    var k :| k in m.Keys; k
  }

  /** SUM(amount) over the rows `s` selects; the order rows are visited in does not matter. */
  ghost function Sum(m: map<ExpenseId, Expense>, s: Selector): (total: real)
    ensures (forall k :: k in m ==> !Selects(s, m[k])) ==> total == 0.0
    decreases |m|
  {
    if m.Keys == {} then 0.0
    else
      var k := Pick(m);
      Share(m[k], s) + Sum(Without(m, k), s)
  }

  /** Any row can be taken out of the sum first. */
  lemma {:induction false} SumRemove(m: map<ExpenseId, Expense>, k: ExpenseId, s: Selector)
    requires k in m
    ensures Sum(m, s) == Share(m[k], s) + Sum(Without(m, k), s)
    decreases |m|
  {
    var j := Pick(m);
    if j != k {
      SumRemove(Without(m, j), k, s);
      SumRemove(Without(m, k), j, s);
      assert Without(Without(m, j), k) == Without(Without(m, k), j);
    }
  }

  /** Inserting a new row adds its share. */
  lemma SumInsert(m: map<ExpenseId, Expense>, k: ExpenseId, e: Expense, s: Selector)
    requires k !in m
    ensures Sum(m[k := e], s) == Sum(m, s) + Share(e, s)
  {
    SumRemove(m[k := e], k, s);
    assert Without(m[k := e], k) == m;
  }

  /** Overwriting a row swaps its old share for the new one. */
  lemma SumUpdate(m: map<ExpenseId, Expense>, k: ExpenseId, e: Expense, s: Selector)
    requires k in m
    ensures Sum(m[k := e], s) == Sum(m, s) - Share(m[k], s) + Share(e, s)
  {
    SumRemove(m[k := e], k, s);
    SumRemove(m, k, s);
    assert Without(m[k := e], k) == Without(m, k);
  }

  /** What a wallet is accountable for: its balance plus every expense charged to it. */
  ghost function Holding(t: Tables, w: WalletId): real
    requires w in t.wallets
  {
    t.wallets[w].amount + Sum(t.expenses, InWallet(w))
  }
}
