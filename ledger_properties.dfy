/**
 * What the statements of the bank promise: the money they create, move or keep,
 * and how a check moves from pending to validated.
 */
module LedgerProperties {
  import opened Results
  import opened Entities
  import opened Tables

  /** Total does not depend on which key it takes first. */
  lemma {:induction false} TotalRemove(t: AccountTable, k: Id)
    requires k in t
    ensures Total(t) == t[k].balance + Total(t - {k})
    decreases |t|
  {
    var j := PickKey(t);
    if j != k {
      TotalRemove(t - {j}, k);
      TotalRemove(t - {k}, j);
      assert t - {j} - {k} == t - {k} - {j};
    }
  }

  /** A new row adds its balance to the total. */
  lemma TotalInsert(t: AccountTable, k: Id, row: AccountRow)
    requires k !in t
    ensures Total(t[k := row]) == Total(t) + row.balance
  {
    TotalRemove(t[k := row], k);
    assert t[k := row] - {k} == t;
  }

  /** A deleted row takes its balance out of the total. */
  lemma TotalDelete(t: AccountTable, k: Id)
    ensures Total(t - {k}) == Total(t) - (if k in t then t[k].balance else 0.0)
  {
    if k in t {
      TotalRemove(t, k);
    } else {
      assert t - {k} == t;
    }
  }

  /** Replacing a row changes the total by the change of that row's balance. */
  lemma TotalReplace(t: AccountTable, k: Id, row: AccountRow)
    requires k in t
    ensures Total(t[k := row]) == Total(t) - t[k].balance + row.balance
  {
    TotalRemove(t[k := row], k);
    TotalRemove(t, k);
    assert t[k := row] - {k} == t - {k};
  }

  /** A deposit adds exactly `amount` to the bank's money, or nothing when the account is absent. */
  lemma CreditedTotal(t: AccountTable, id: Id, amount: real)
    ensures Total(Credited(t, id, amount)) == Total(t) + (if id in t then amount else 0.0)
  {
    if id in t {
      var row := t[id].(balance := t[id].balance + amount);
      assert Credited(t, id, amount) == t[id := row];
      TotalReplace(t, id, row);
    }
  }

  /** A withdrawal takes exactly `amount` out of the bank's money, or nothing when the account is absent. */
  lemma DebitedTotal(t: AccountTable, id: Id, amount: real)
    ensures Total(Debited(t, id, amount)) == Total(t) - (if id in t then amount else 0.0)
  {
    if id in t {
      var row := t[id].(balance := t[id].balance - amount);
      assert Debited(t, id, amount) == t[id := row];
      TotalReplace(t, id, row);
    }
  }

  /** Withdrawing what was just deposited restores the table, and the other way round. */
  lemma DebitUndoesCredit(t: AccountTable, id: Id, amount: real)
    ensures Debited(Credited(t, id, amount), id, amount) == t
    ensures Credited(Debited(t, id, amount), id, amount) == t
  {
  }

  /**
   * An accepted transfer moves `amount` from `from` to `to`: between two accounts their sum is
   * kept and the source is not left overdrawn; onto the same account it changes nothing; every
   * other account and every owner is untouched.
   */
  lemma TransferEffect(t: AccountTable, from: Id, to: Id, amount: real)
    requires CanTransfer(t, from, to, amount)
    ensures var r := Transferred(t, from, to, amount).value;
      && r.Keys == t.Keys
      && (forall k :: k in t && k != from && k != to ==> r[k] == t[k])
      && (forall k :: k in t ==> r[k].ownerId == t[k].ownerId)
      && (from != to ==>
            && r[from].balance == t[from].balance - amount
            && r[to].balance == t[to].balance + amount
            && r[from].balance + r[to].balance == t[from].balance + t[to].balance
            && r[from].balance >= 0.0)
      && (from == to ==> r == t)
  {
  }

  /** An accepted transfer neither creates nor destroys money. */
  lemma TransferConservesTotal(t: AccountTable, from: Id, to: Id, amount: real)
    requires CanTransfer(t, from, to, amount)
    ensures Total(Transferred(t, from, to, amount).value) == Total(t)
  {
    DebitedTotal(t, from, amount);
    CreditedTotal(Debited(t, from, amount), to, amount);
  }

  /**
   * Sending the same amount back undoes an accepted transfer; the way back is accepted
   * whenever the destination did not start overdrawn.
   */
  lemma TransferRoundTrip(t: AccountTable, from: Id, to: Id, amount: real)
    requires CanTransfer(t, from, to, amount) && t[to].balance >= 0.0
    ensures var r := Transferred(t, from, to, amount).value;
      CanTransfer(r, to, from, amount) && Transferred(r, to, from, amount) == Some(t)
  {
    var r := Transferred(t, from, to, amount).value;
    TransferEffect(t, from, to, amount);
    var back := Credited(Debited(r, to, amount), from, amount);
    assert back.Keys == t.Keys;
    forall k | k in t ensures back[k] == t[k] {
    }
    assert back == t;
    assert Transferred(r, to, from, amount) == Some(back);
  }

  /**
   * The guard does not look at the sign of `amount`: a negative transfer between two accounts
   * is accepted and takes money out of the destination whatever it holds.
   */
  lemma NegativeTransferDrainsDestination(t: AccountTable, from: Id, to: Id, amount: real)
    requires from in t && to in t && from != to
    requires t[from].balance >= 0.0 && amount < 0.0
    ensures CanTransfer(t, from, to, amount)
    ensures Transferred(t, from, to, amount).value[to].balance < t[to].balance
  {
  }

  /**
   * A validation flips only the target check, keeps its amount and account, leaves every
   * validated check validated, and credits the check's own account with the check's own amount.
   */
  lemma ValidatedEffect(s: Store, checkId: Id)
    requires Pending(s.checks, checkId)
    ensures var r := Validated(s, checkId).value; var c := s.checks[checkId];
      && r.checks.Keys == s.checks.Keys
      && r.checks[checkId] == CheckRow(c.amount, c.accountId, true)
      && (forall k :: k in s.checks && k != checkId ==> r.checks[k] == s.checks[k])
      && (forall k :: k in s.checks && s.checks[k].isValidated ==> r.checks[k].isValidated)
      && r.accounts == Credited(s.accounts, c.accountId, c.amount)
      && r.users == s.users
  {
  }

  /** A validated check cannot be validated again, so it credits its account at most once. */
  lemma ValidateAtMostOnce(s: Store, checkId: Id)
    requires Validated(s, checkId).Some?
    ensures Validated(Validated(s, checkId).value, checkId) == None
  {
  }

  /**
   * A validation adds the check's amount to the bank's money when the check's account exists;
   * when it does not, the check is still marked validated and no money is added.
   */
  lemma ValidatedTotal(s: Store, checkId: Id)
    requires Pending(s.checks, checkId)
    ensures var c := s.checks[checkId];
      Total(Validated(s, checkId).value.accounts) ==
        Total(s.accounts) + (if c.accountId in s.accounts then c.amount else 0.0)
  {
    var c := s.checks[checkId];
    CreditedTotal(s.accounts, c.accountId, c.amount);
  }

  /** After a validation the check has left every account's list of pending checks, and nothing else has. */
  lemma ValidatedLeavesPending(s: Store, checkId: Id, accountId: Id)
    requires Pending(s.checks, checkId)
    ensures PendingChecksOf(Validated(s, checkId).value.checks, accountId) ==
      PendingChecksOf(s.checks, accountId) - {CheckRecord(checkId, s.checks[checkId])}
  {
  }

  /** A newly deposited check is pending on its account and on no other. */
  lemma DepositedCheckPending(t: CheckTable, checkId: Id, accountId: Id, amount: real, other: Id)
    requires checkId !in t
    ensures var t' := t[checkId := CheckRow(amount, accountId, false)];
      && PendingChecksOf(t', accountId) == PendingChecksOf(t, accountId) + {Check(checkId, amount, accountId, false)}
      && (other != accountId ==> PendingChecksOf(t', other) == PendingChecksOf(t, other))
  {
  }
}
