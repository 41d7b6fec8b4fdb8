/**
 * The transfer validator: a stateless component whose single entry point checks the
 * preconditions of a transfer, given the two stored accounts (or `null`) and the request,
 * and throws the first violation it finds. Being a Dafny function, `Validate` cannot
 * change the accounts or the request: the validator has no side effects.
 */
module Validation {
  import opened Wrappers
  import opened Domain

  /** `sameAccount`: compares the two ids named by the request, not the accounts' own ids. */
  predicate SameAccount(t: Transfer)
  {
    t.accountFromId == t.accountToId
  }

  /** `enoughFunds`: the balance minus the amount is not below zero. */
  predicate EnoughFunds(account: Account, amount: real)
  {
    account.balance - amount >= 0.0
  }

  /**
   * `validate`: the checks run in a fixed order (source present, destination present,
   * distinct ids, enough funds) and the first one that fails decides the error.
   */
  function Validate(from: Option<Account>, to: Option<Account>, t: Transfer): (r: Outcome<TransferError>)
    ensures r == Pass <==>
              from.Some? && to.Some? && t.accountFromId != t.accountToId && t.balance <= from.value.balance
    ensures from.None? ==> r == Fail(AccountNotFound(t.accountFromId))
    ensures from.Some? && to.None? ==> r == Fail(AccountNotFound(t.accountToId))
    ensures from.Some? && to.Some? && t.accountFromId == t.accountToId ==> r == Fail(SameAccountTransfer)
    ensures from.Some? && to.Some? && t.accountFromId != t.accountToId && from.value.balance < t.balance ==>
              r == Fail(NotEnoughBalance(from.value.id, from.value.balance))
  {
    if from.None? then Fail(AccountNotFound(t.accountFromId))
    else if to.None? then Fail(AccountNotFound(t.accountToId))
    else if SameAccount(t) then Fail(SameAccountTransfer)
    else if !EnoughFunds(from.value, t.balance) then Fail(NotEnoughBalance(from.value.id, from.value.balance))
    else Pass
  }

  /**
   * Every precondition the request breaks, each stated on its own and listed in the
   * precedence order of the checks. The insufficient-funds condition can only be
   * stated when the source account exists.
   */
  function Violations(from: Option<Account>, to: Option<Account>, t: Transfer): seq<TransferError>
  {
    (if from.None? then [AccountNotFound(t.accountFromId)] else [])
    + (if to.None? then [AccountNotFound(t.accountToId)] else [])
    + (if t.accountFromId == t.accountToId then [SameAccountTransfer] else [])
    + (if from.Some? && t.balance > from.value.balance
       then [NotEnoughBalance(from.value.id, from.value.balance)] else [])
  }

  /** The validator passes exactly when nothing is violated, and otherwise reports the first violation. */
  lemma ValidateReportsFirstViolation(from: Option<Account>, to: Option<Account>, t: Transfer)
    ensures Violations(from, to, t) == [] <==> Validate(from, to, t) == Pass
    ensures Violations(from, to, t) != [] ==> Validate(from, to, t) == Fail(Violations(from, to, t)[0])
  {
  }

  /**
   * Precedence when several conditions hold: a request with both accounts missing
   * reports the source id, and a missing self-transfer reports not-found, not same-account.
   */
  lemma ValidatePrecedence(from: Option<Account>, to: Option<Account>, t: Transfer)
    ensures from.None? && to.None? ==> Validate(from, to, t) == Fail(AccountNotFound(t.accountFromId))
    ensures (from.None? || to.None?) && SameAccount(t) ==> Validate(from, to, t).error.AccountNotFound?
  {
  }

  /** A same-account request is refused whatever the balance and the amount. */
  lemma SameAccountRegardlessOfFunds(a: Account, b: Account, id: string, amount: real)
    ensures Validate(Some(a), Some(b), Transfer(id, id, amount)) == Fail(SameAccountTransfer)
  {
  }

  /** Moving the whole balance is accepted: the funds test is "not below zero". */
  lemma WholeBalanceAccepted(from: Account, to: Account, t: Transfer)
    requires t.accountFromId != t.accountToId && t.balance == from.balance
    ensures Validate(Some(from), Some(to), t) == Pass
  {
  }
}
