/**
 * The three tables of the bank database and the statements the service runs on them.
 * A table maps each PRIMARY KEY to the rest of its row, so a key occurs at most once.
 */
module Tables {
  import opened Results
  import opened Entities

  type Id = string

  /** A row of `users`, keyed by `id`. */
  datatype UserRow = UserRow(password: string, role: string)

  /** A row of `accounts`, keyed by `accountId`. */
  datatype AccountRow = AccountRow(balance: real, ownerId: Id)

  /** A row of `checks`, keyed by `checkId`. */
  datatype CheckRow = CheckRow(amount: real, accountId: Id, isValidated: bool)

  type UserTable = map<Id, UserRow>
  type AccountTable = map<Id, AccountRow>
  type CheckTable = map<Id, CheckRow>

  /** The whole database. */
  datatype Store = Store(users: UserTable, accounts: AccountTable, checks: CheckTable)

  /** The database right after the three tables have been created. */
  const EmptyStore: Store := Store(map[], map[], map[])

  /** The record a SELECT builds from a key and its row. */
  function UserRecord(id: Id, row: UserRow): User {
    User(id, row.password, row.role)
  }

  function AccountRecord(id: Id, row: AccountRow): Account {
    Account(id, row.balance, row.ownerId)
  }

  function CheckRecord(id: Id, row: CheckRow): Check {
    Check(id, row.amount, row.accountId, row.isValidated)
  }

  /**
   * `UPDATE accounts SET balance = balance + ? WHERE accountId = ?`: the named account
   * gains `amount`; when no row has that key the statement matches nothing.
   */
  function Credited(t: AccountTable, id: Id, amount: real): (r: AccountTable)
    ensures r.Keys == t.Keys
    ensures id in t ==> r[id].balance == t[id].balance + amount && r[id].ownerId == t[id].ownerId
    ensures forall k :: k in t && k != id ==> r[k] == t[k]
    ensures id !in t ==> r == t
  {
    if id in t then t[id := t[id].(balance := t[id].balance + amount)] else t
  }

  /** `UPDATE accounts SET balance = balance - ? WHERE accountId = ?`; no floor on the balance. */
  function Debited(t: AccountTable, id: Id, amount: real): (r: AccountTable)
    ensures r.Keys == t.Keys
    ensures id in t ==> r[id].balance == t[id].balance - amount && r[id].ownerId == t[id].ownerId
    ensures forall k :: k in t && k != id ==> r[k] == t[k]
    ensures id !in t ==> r == t
  {
    if id in t then t[id := t[id].(balance := t[id].balance - amount)] else t
  }

  /** The guard of a transfer: both accounts exist and the source holds at least `amount`. */
  predicate CanTransfer(t: AccountTable, from: Id, to: Id, amount: real) {
    from in t && to in t && t[from].balance >= amount
  }

  /** A transfer: refused unless `CanTransfer`, otherwise a debit of `from` then a credit of `to`. */
  function Transferred(t: AccountTable, from: Id, to: Id, amount: real): (r: Option<AccountTable>)
    ensures r.Some? <==> CanTransfer(t, from, to, amount)
  {
    if CanTransfer(t, from, to, amount) then Some(Credited(Debited(t, from, amount), to, amount))
    else None
  }

  /** The guard of a validation: the check exists and has not been validated yet. */
  predicate Pending(checks: CheckTable, checkId: Id) {
    checkId in checks && !checks[checkId].isValidated
  }

  /**
   * A validation: refused unless the check is pending; otherwise the check is marked validated
   * and the check's own account is credited with the check's own amount.
   */
  function Validated(s: Store, checkId: Id): (r: Option<Store>)
    ensures r.Some? <==> Pending(s.checks, checkId)
    ensures r.Some? ==> r.value.users == s.users
  {
    if Pending(s.checks, checkId) then
      var row := s.checks[checkId];
      Some(Store(s.users,
                 Credited(s.accounts, row.accountId, row.amount),
                 s.checks[checkId := row.(isValidated := true)]))
    else None
  }

  /** `SELECT ... FROM accounts WHERE ownerId = ?`, as the set of records it returns. */
  function AccountsOwnedBy(t: AccountTable, ownerId: Id): (r: set<Account>)
    ensures forall a :: a in r <==> a.accountId in t && t[a.accountId] == AccountRow(a.balance, a.ownerId) && a.ownerId == ownerId
  {
    set id | id in t && t[id].ownerId == ownerId :: AccountRecord(id, t[id])
  }

  /** `SELECT ... FROM checks WHERE accountId = ? AND isValidated = false`, as a set of records. */
  function PendingChecksOf(t: CheckTable, accountId: Id): (r: set<Check>)
    ensures forall c :: c in r <==>
      c.checkId in t && t[c.checkId] == CheckRow(c.amount, c.accountId, c.isValidated) &&
      c.accountId == accountId && !c.isValidated
  {
    set id | id in t && t[id].accountId == accountId && !t[id].isValidated :: CheckRecord(id, t[id])
  }

  /** The sum of all balances: the money held by the bank. */
  ghost function Total(t: AccountTable): real
    decreases |t|
  {
    if t == map[] then 0.0
    else
      var id := PickKey(t);
      t[id].balance + Total(t - {id})
  }

  /** Some key of a non-empty table. */
  ghost function PickKey(t: AccountTable): (id: Id)
    requires t != map[]
    ensures id in t
  {
    var id :| id in t.Keys; id
  }
}
