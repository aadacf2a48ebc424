/**
 * Client runs of the service built on the repository's JUnit tests, together with the refusal
 * paths of `transferAmount` and `validateCheck`; each doc comment says which returned values a
 * test asserts and which are added. What each returns is derived from the service's contracts alone.
 */
module Scenarios {
  import opened Results
  import opened Entities
  import opened Tables
  import opened Bank

  /**
   * Deposit 50, withdraw 30, then transfer 20 between two accounts that start at 100, in the
   * order of the transaction test; all four returned balances are values that test asserts.
   */
  method TransactionScenario() returns (afterDeposit: real, afterWithdraw: real, fromAfter: real, toAfter: real)
    ensures afterDeposit == 150.0 && afterWithdraw == 120.0
    ensures fromAfter == 100.0 && toAfter == 120.0
  {
    var bank := new BankService();
    var _ := bank.AddAccount(Account("testAccount1", 100.0, "testUser"));
    var _ := bank.AddAccount(Account("testAccount2", 100.0, "testUser"));

    bank.DepositAmount("testAccount1", 50.0);
    afterDeposit := bank.FindAccount("testAccount1").value.balance;

    bank.WithdrawAmount("testAccount1", 30.0);
    afterWithdraw := bank.FindAccount("testAccount1").value.balance;

    var r := bank.TransferAmount("testAccount1", "testAccount2", 20.0);
    assert r == Ok;
    fromAfter := bank.FindAccount("testAccount1").value.balance;
    toAfter := bank.FindAccount("testAccount2").value.balance;
  }

  /**
   * Not taken from a test: the refusal branch of `transferAmount`. A transfer larger than the
   * source balance, or from a missing account, is refused and moves nothing.
   */
  method RejectedTransferScenario() returns (overdraft: Outcome, missing: Outcome, fromAfter: real, toAfter: real)
    ensures overdraft == Failed(TransferRejected) && missing == Failed(TransferRejected)
    ensures fromAfter == 100.0 && toAfter == 100.0
  {
    var bank := new BankService();
    var _ := bank.AddAccount(Account("testAccount1", 100.0, "testUser"));
    var _ := bank.AddAccount(Account("testAccount2", 100.0, "testUser"));

    overdraft := bank.TransferAmount("testAccount1", "testAccount2", 100.5);
    missing := bank.TransferAmount("noSuchAccount", "testAccount2", 1.0);
    fromAfter := bank.FindAccount("testAccount1").value.balance;
    toAfter := bank.FindAccount("testAccount2").value.balance;
  }

  /**
   * The three steps of the check test: deposit a check of 50 (listed as pending), validate it
   * (balance 150), deposit a second one (listed as pending). The final second validation of the
   * first check is added here, not made by the test: it exercises the refusal branch.
   */
  method CheckScenario() returns (pendingFirst: bool, balance: real, pendingSecond: bool, again: Outcome)
    ensures pendingFirst && pendingSecond
    ensures balance == 150.0
    ensures again == Failed(CheckNotFound)
  {
    var bank := new BankService();
    var _ := bank.AddUser(User("testUser", "password", "client"));
    var _ := bank.AddAccount(Account("testAccount", 100.0, "testUser"));

    var r := bank.DepositCheck("testCheck1", "testAccount", 50.0);
    assert r == Ok;
    var pending := bank.GetUnvalidatedChecksForAccount("testAccount");
    pendingFirst := Check("testCheck1", 50.0, "testAccount", false) in pending;

    r := bank.ValidateCheck("testCheck1");
    assert r == Ok;
    balance := bank.FindAccount("testAccount").value.balance;

    r := bank.DepositCheck("testCheck2", "testAccount", 50.0);
    assert r == Ok;
    pending := bank.GetUnvalidatedChecksForAccount("testAccount");
    pendingSecond := Check("testCheck2", 50.0, "testAccount", false) in pending;

    again := bank.ValidateCheck("testCheck1");
  }

  /** The account test in order: add and find, update and find, remove and find; every returned value is asserted there. */
  method AccountScenario() returns (added: Option<Account>, updated: Option<Account>, removed: Option<Account>)
    ensures added == Some(Account("testAccount", 100.0, "testUser"))
    ensures updated == Some(Account("testAccount", 200.0, "testUser"))
    ensures removed == None
  {
    var bank := new BankService();
    var _ := bank.AddAccount(Account("testAccount", 100.0, "testUser"));
    added := bank.FindAccount("testAccount");
    bank.UpdateAccount(Account("testAccount", 200.0, "testUser"));
    updated := bank.FindAccount("testAccount");
    bank.RemoveAccount("testAccount");
    removed := bank.FindAccount("testAccount");
  }

  /** The account-list test: a user with two accounts gets a list of size two holding both ids. */
  method AccountListScenario() returns (accounts: seq<Account>)
    ensures |accounts| == 2
    ensures exists i :: 0 <= i < |accounts| && accounts[i].accountId == "testAccount1"
    ensures exists i :: 0 <= i < |accounts| && accounts[i].accountId == "testAccount2"
  {
    var bank := new BankService();
    var _ := bank.AddUser(User("testUser", "password", "client"));
    var _ := bank.AddAccount(Account("testAccount1", 100.0, "testUser"));
    var _ := bank.AddAccount(Account("testAccount2", 100.0, "testUser"));
    accounts := bank.GetAccountsForUser("testUser");
    var a1 := Account("testAccount1", 100.0, "testUser");
    var a2 := Account("testAccount2", 100.0, "testUser");
    assert a1 in AccountsOwnedBy(bank.accounts, "testUser");
    assert a2 in AccountsOwnedBy(bank.accounts, "testUser");
    assert a1 in accounts && a2 in accounts;
    var i :| 0 <= i < |accounts| && accounts[i] == a1;
    var j :| 0 <= j < |accounts| && accounts[j] == a2;
    assert bank.accounts.Keys == {"testAccount1", "testAccount2"};
    DistinctIdsBound(accounts, bank.accounts.Keys);
  }

  /**
   * The four user tests, each run on a fresh service: after an add the user is found; a user
   * logs in with its password; after an update the new password works; after a removal the
   * user is not found. That the old password is refused after the update is added here.
   */
  method UserScenario() returns (found: Option<User>, first: bool, oldAfterUpdate: bool, newAfterUpdate: bool,
                                 afterRemove: Option<User>)
    ensures found.Some? && found.value.id == "testUser"
    ensures first && newAfterUpdate && !oldAfterUpdate
    ensures afterRemove == None
  {
    var bank := new BankService();
    var _ := bank.AddUser(User("testUser", "password123", "client"));
    found := bank.FindUser("testUser");
    bank.RemoveUser("testUser");

    bank := new BankService();
    var _ := bank.AddUser(User("testUser", "password123", "client"));
    first := bank.AuthenticateUser("testUser", "password123");
    bank.RemoveUser("testUser");

    bank := new BankService();
    var _ := bank.AddUser(User("testUser", "password123", "client"));
    bank.UpdateUser(User("testUser", "newPassword", "client"));
    newAfterUpdate := bank.AuthenticateUser("testUser", "newPassword");
    oldAfterUpdate := bank.AuthenticateUser("testUser", "password123");
    bank.RemoveUser("testUser");

    bank := new BankService();
    var _ := bank.AddUser(User("testUser", "password123", "client"));
    bank.RemoveUser("testUser");
    afterRemove := bank.FindUser("testUser");
  }

  /** A list of accounts with distinct ids, all drawn from `ids`, has at most `|ids|` entries. */
  lemma {:induction false} DistinctIdsBound(s: seq<Account>, ids: set<Id>)
    requires forall i :: 0 <= i < |s| ==> s[i].accountId in ids
    requires forall i, j :: 0 <= i < j < |s| ==> s[i].accountId != s[j].accountId
    ensures |s| <= |ids|
  {
    if s != [] {
      DistinctIdsBound(s[1..], ids - {s[0].accountId});
    }
  }
}
