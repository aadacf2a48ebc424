/**
 * The bank service: user, account and check management over the three tables,
 * with the balance mutations (deposit, withdraw, transfer) and the check lifecycle.
 */
module Bank {
  import opened Results
  import opened Entities
  import opened Tables

  class BankService {
    var users: UserTable
    var accounts: AccountTable
    var checks: CheckTable

    /** The whole database as one value. */
    ghost function State(): Store
      reads this
    {
      Store(users, accounts, checks)
    }

    /** A new service on a fresh database: the three tables have just been created and are empty. */
    constructor ()
      ensures State() == EmptyStore
    {
      users, accounts, checks := map[], map[], map[];
    }

    // ---------------------------------------------------------------- users

    /** `SELECT id, password, role FROM users WHERE id = ?`. */
    function FindUser(userId: Id): (r: Option<User>)
      reads this
      ensures r.Some? <==> userId in users
      ensures r.Some? ==> r.value.id == userId && UserRow(r.value.password, r.value.role) == users[userId]
    {
      if userId in users then Some(UserRecord(userId, users[userId])) else None
    }

    /** `SELECT id FROM users WHERE id = ? AND password = ?` finds a row: the stored password is `password`. */
    function AuthenticateUser(userId: Id, password: string): (r: bool)
      reads this
      ensures r <==> FindUser(userId).Some? && FindUser(userId).value.password == password
    {
      userId in users && users[userId].password == password
    }

    /** `INSERT INTO users`: refused when the id is taken; otherwise the user can be found and log in. */
    method AddUser(user: User) returns (r: Outcome)
      modifies this
      ensures r == (if user.id in old(users) then Failed(DuplicateKey) else Ok)
      ensures users == (if r.Ok? then old(users)[user.id := UserRow(user.password, user.role)] else old(users))
      ensures accounts == old(accounts) && checks == old(checks)
      ensures r.Ok? ==> FindUser(user.id) == Some(user) && AuthenticateUser(user.id, user.password)
    {
      if user.id in users {
        r := Failed(DuplicateKey);
      } else {
        users := users[user.id := UserRow(user.password, user.role)];
        r := Ok;
      }
    }

    /** `DELETE FROM users WHERE id = ?`: no-op when absent; the accounts it owned stay. */
    method RemoveUser(userId: Id)
      modifies this
      ensures users == old(users) - {userId}
      ensures accounts == old(accounts) && checks == old(checks)
      ensures FindUser(userId) == None
      ensures forall password :: !AuthenticateUser(userId, password)
    {
      users := users - {userId};
    }

    /** `UPDATE users SET password = ?, role = ? WHERE id = ?`: no-op when absent. */
    method UpdateUser(user: User)
      modifies this
      ensures users == (if user.id in old(users) then old(users)[user.id := UserRow(user.password, user.role)] else old(users))
      ensures accounts == old(accounts) && checks == old(checks)
      ensures AuthenticateUser(user.id, user.password) <==> user.id in old(users)
    {
      if user.id in users {
        users := users[user.id := UserRow(user.password, user.role)];
      }
    }

    // ------------------------------------------------------------- accounts

    /** `SELECT accountId, balance, ownerId FROM accounts WHERE accountId = ?`. */
    function FindAccount(accountId: Id): (r: Option<Account>)
      reads this
      ensures r.Some? <==> accountId in accounts
      ensures r.Some? ==> r.value.accountId == accountId && AccountRow(r.value.balance, r.value.ownerId) == accounts[accountId]
    {
      if accountId in accounts then Some(AccountRecord(accountId, accounts[accountId])) else None
    }

    /** `INSERT INTO accounts`: refused when the id is taken; the owner need not exist. */
    method AddAccount(account: Account) returns (r: Outcome)
      modifies this
      ensures r == (if account.accountId in old(accounts) then Failed(DuplicateKey) else Ok)
      ensures accounts == (if r.Ok? then old(accounts)[account.accountId := AccountRow(account.balance, account.ownerId)] else old(accounts))
      ensures users == old(users) && checks == old(checks)
      ensures r.Ok? ==> FindAccount(account.accountId) == Some(account)
    {
      if account.accountId in accounts {
        r := Failed(DuplicateKey);
      } else {
        accounts := accounts[account.accountId := AccountRow(account.balance, account.ownerId)];
        r := Ok;
      }
    }

    /** `DELETE FROM accounts WHERE accountId = ?`: no-op when absent; its checks stay. */
    method RemoveAccount(accountId: Id)
      modifies this
      ensures accounts == old(accounts) - {accountId}
      ensures users == old(users) && checks == old(checks)
      ensures FindAccount(accountId) == None
    {
      accounts := accounts - {accountId};
    }

    /** `UPDATE accounts SET balance = ?, ownerId = ? WHERE accountId = ?`: no-op when absent. */
    method UpdateAccount(account: Account)
      modifies this
      ensures accounts == (if account.accountId in old(accounts)
                           then old(accounts)[account.accountId := AccountRow(account.balance, account.ownerId)]
                           else old(accounts))
      ensures users == old(users) && checks == old(checks)
      ensures FindAccount(account.accountId) == (if account.accountId in old(accounts) then Some(account) else None)
    {
      if account.accountId in accounts {
        accounts := accounts[account.accountId := AccountRow(account.balance, account.ownerId)];
      }
    }

    /** Adds `amount` to the account's balance; a silent no-op when the account is absent. */
    method DepositAmount(accountId: Id, amount: real)
      modifies this
      ensures accounts == Credited(old(accounts), accountId, amount)
      ensures users == old(users) && checks == old(checks)
    {
      if accountId in accounts {
        var row := accounts[accountId];
        accounts := accounts[accountId := AccountRow(row.balance + amount, row.ownerId)];
      }
    }

    /** Subtracts `amount` from the account's balance, with no floor; a silent no-op when absent. */
    method WithdrawAmount(accountId: Id, amount: real)
      modifies this
      ensures accounts == Debited(old(accounts), accountId, amount)
      ensures users == old(users) && checks == old(checks)
    {
      if accountId in accounts {
        var row := accounts[accountId];
        accounts := accounts[accountId := AccountRow(row.balance - amount, row.ownerId)];
      }
    }

    /**
     * Looks both accounts up, then withdraws from `fromAccountId` and deposits into
     * `toAccountId`; refused, with every table unchanged, unless both exist and the
     * source holds at least `amount`.
     */
    method TransferAmount(fromAccountId: Id, toAccountId: Id, amount: real) returns (r: Outcome)
      modifies this
      ensures r == (if CanTransfer(old(accounts), fromAccountId, toAccountId, amount) then Ok else Failed(TransferRejected))
      ensures accounts == (if r.Ok? then Transferred(old(accounts), fromAccountId, toAccountId, amount).value else old(accounts))
      ensures users == old(users) && checks == old(checks)
    {
      var fromAccount := FindAccount(fromAccountId);
      var toAccount := FindAccount(toAccountId);
      if fromAccount.Some? && toAccount.Some? && fromAccount.value.balance >= amount {
        WithdrawAmount(fromAccountId, amount);
        DepositAmount(toAccountId, amount);
        r := Ok;
      } else {
        r := Failed(TransferRejected);
      }
    }

    // --------------------------------------------------------------- checks

    /** `INSERT INTO checks ... false`: a new unvalidated check; refused when the id is taken. No balance moves. */
    method DepositCheck(checkId: Id, accountId: Id, amount: real) returns (r: Outcome)
      modifies this
      ensures r == (if checkId in old(checks) then Failed(DuplicateKey) else Ok)
      ensures checks == (if r.Ok? then old(checks)[checkId := CheckRow(amount, accountId, false)] else old(checks))
      ensures users == old(users) && accounts == old(accounts)
      ensures r.Ok? ==> Pending(checks, checkId)
    {
      if checkId in checks {
        r := Failed(DuplicateKey);
      } else {
        checks := checks[checkId := CheckRow(amount, accountId, false)];
        r := Ok;
      }
    }

    /**
     * Looks up the check among the unvalidated ones; if found, marks it validated and then
     * deposits the check's amount into the check's account. Refused, changing nothing,
     * when the check is absent or already validated.
     */
    method ValidateCheck(checkId: Id) returns (r: Outcome)
      modifies this
      ensures r == (if Pending(old(checks), checkId) then Ok else Failed(CheckNotFound))
      ensures State() == (if r.Ok? then Validated(old(State()), checkId).value else old(State()))
    {
      if checkId in checks && !checks[checkId].isValidated {
        var amount := checks[checkId].amount;
        var accountId := checks[checkId].accountId;
        checks := checks[checkId := CheckRow(amount, accountId, true)];
        DepositAmount(accountId, amount);
        r := Ok;
      } else {
        r := Failed(CheckNotFound);
      }
    }

    /** `DELETE FROM checks WHERE checkId = ?`: no-op when absent. */
    method RemoveCheck(checkId: Id)
      modifies this
      ensures checks == old(checks) - {checkId}
      ensures users == old(users) && accounts == old(accounts)
    {
      checks := checks - {checkId};
    }

    // -------------------------------------------------------------- queries

    /** Every account the user owns, each once, in no particular order. */
    method GetAccountsForUser(userId: Id) returns (result: seq<Account>)
      ensures forall a :: a in result <==> a in AccountsOwnedBy(accounts, userId)
      ensures forall i, j :: 0 <= i < j < |result| ==> result[i].accountId != result[j].accountId
    {
      result := [];
      var rows := accounts.Keys;
      while rows != {}
        invariant rows <= accounts.Keys
        invariant forall a :: a in result <==> a.accountId !in rows && a in AccountsOwnedBy(accounts, userId)
        invariant forall i, j :: 0 <= i < j < |result| ==> result[i].accountId != result[j].accountId
        decreases rows
      {
        var id :| id in rows;
        if accounts[id].ownerId == userId {
          result := result + [AccountRecord(id, accounts[id])];
        }
        rows := rows - {id};
      }
    }

    /** Every unvalidated check of the account, each once, in no particular order. */
    method GetUnvalidatedChecksForAccount(accountId: Id) returns (result: seq<Check>)
      ensures forall c :: c in result <==> c in PendingChecksOf(checks, accountId)
      ensures forall i, j :: 0 <= i < j < |result| ==> result[i].checkId != result[j].checkId
    {
      result := [];
      var rows := checks.Keys;
      while rows != {}
        invariant rows <= checks.Keys
        invariant forall c :: c in result <==> c.checkId !in rows && c in PendingChecksOf(checks, accountId)
        invariant forall i, j :: 0 <= i < j < |result| ==> result[i].checkId != result[j].checkId
        decreases rows
      {
        var id :| id in rows;
        if checks[id].accountId == accountId && !checks[id].isValidated {
          result := result + [CheckRecord(id, checks[id])];
        }
        rows := rows - {id};
      }
    }
  }
}
