/** The three records the service hands to and receives from its callers. */
module Entities {

  /** A user: id, plaintext password and role. */
  datatype User = User(id: string, password: string, role: string)

  /** An account: its id, its balance and the id of the user who owns it. */
  datatype Account = Account(accountId: string, balance: real, ownerId: string)

  /** A check: its id, its amount, the account it credits and whether it was validated. */
  datatype Check = Check(checkId: string, amount: real, accountId: string, isValidated: bool)
}
