/**
 * The accounts service: account creation and lookup delegated to the repository, and
 * `makeTransfer`, which looks up both accounts, validates the request against them,
 * applies the paired debit and credit as one batch and then notifies both parties.
 *
 * `ExecuteTransfer` states, on values, what one sequential transfer does to the
 * account map and which notifications it issues; `AccountsService.MakeTransfer` is
 * proved to do exactly that, and the lemmas below state its consequences.
 */
module Service {
  import opened Wrappers
  import opened Domain
  import opened Ledger
  import opened Validation
  import opened Repository
  import opened JavaString

  /**
   * How `makeTransfer` ends: normally, by a validator exception, or by the
   * `NullPointerException` raised when either lookup found no account.
   */
  datatype TransferOutcome = Completed | Refused(error: TransferError) | NullPointer

  /** Which side of the transfer a notification tells about. */
  datatype Direction = Debited | Credited

  /**
   * One `notifyAboutTransfer` call: the recipient account as it stands when notified
   * (the stored object, so with its new balance), what happened to it, the other
   * party's id and the amount. The message text is not modelled.
   */
  datatype Notification = Notification(account: Account, direction: Direction, counterpartyId: string, amount: real)

  /** The effect of one transfer: its outcome, the new account map, the notifications issued. */
  datatype TransferStep = TransferStep(outcome: TransferOutcome, ledger: Accounts, notices: seq<Notification>)

  /** The batch `makeTransfer` submits: the source's delta first, then the destination's. */
  function TransferBatch(from: Account, to: Account, amount: real): seq<AccountUpdate>
  {
    [AccountUpdate(from.id, -amount), AccountUpdate(to.id, amount)]
  }

  /** What one transfer does to the account map `m`, sequentially. */
  function ExecuteTransfer(m: Accounts, t: Transfer): (s: TransferStep)
    ensures s.ledger.Keys == m.Keys
    ensures s.outcome != Completed ==> s.ledger == m && s.notices == []
  {
    var from := Lookup(m, t.accountFromId);
    var to := Lookup(m, t.accountToId);
    if from.None? || to.None? then TransferStep(NullPointer, m, [])
    else
      match Validate(from, to, t)
      case Fail(e) => TransferStep(Refused(e), m, [])
      case Pass =>
        var m' := ApplyUpdates(m, TransferBatch(from.value, to.value, t.balance));
        TransferStep(Completed, m',
                     [Notification(m'[t.accountFromId], Debited, to.value.id, t.balance),
                      Notification(m'[t.accountToId], Credited, from.value.id, t.balance)])
  }

  /**
   * A missing account is dereferenced before validation: the transfer stops with a
   * null-pointer failure, the map is untouched and nobody is notified.
   */
  lemma TransferMissingAccount(m: Accounts, t: Transfer)
    requires t.accountFromId !in m || t.accountToId !in m
    ensures ExecuteTransfer(m, t) == TransferStep(NullPointer, m, [])
  {
  }

  /** The validator's not-found branches cannot be reached from `makeTransfer`. */
  lemma TransferNeverReportsNotFound(m: Accounts, t: Transfer)
    ensures !(ExecuteTransfer(m, t).outcome.Refused? && ExecuteTransfer(m, t).outcome.error.AccountNotFound?)
  {
  }

  /**
   * With both accounts stored, a self-transfer is refused as such, and a transfer of
   * more than the source holds is refused with the source's id and current balance;
   * either way the map is untouched and nobody is notified.
   */
  lemma TransferRefusals(m: Accounts, t: Transfer)
    requires KeysMatchIds(m)
    requires t.accountFromId in m && t.accountToId in m
    ensures t.accountFromId == t.accountToId ==>
              ExecuteTransfer(m, t) == TransferStep(Refused(SameAccountTransfer), m, [])
    ensures t.accountFromId != t.accountToId && m[t.accountFromId].balance < t.balance ==>
              ExecuteTransfer(m, t) ==
              TransferStep(Refused(NotEnoughBalance(t.accountFromId, m[t.accountFromId].balance)), m, [])
  {
  }

  /** A transfer completes exactly when both accounts exist, they differ, and the source covers the amount. */
  lemma TransferCompletesIff(m: Accounts, t: Transfer)
    ensures ExecuteTransfer(m, t).outcome == Completed <==>
              t.accountFromId in m && t.accountToId in m && t.accountFromId != t.accountToId &&
              t.balance <= m[t.accountFromId].balance
  {
  }

  /**
   * A completed transfer debits the source by the amount, credits the destination by
   * the amount, leaves every other account as it was, and notifies first the source
   * and then the destination, each with its new state.
   */
  lemma TransferMovesAmount(m: Accounts, t: Transfer)
    requires KeysMatchIds(m)
    requires ExecuteTransfer(m, t).outcome == Completed
    ensures var s := ExecuteTransfer(m, t);
            && s.ledger[t.accountFromId] == m[t.accountFromId].(balance := m[t.accountFromId].balance - t.balance)
            && s.ledger[t.accountToId] == m[t.accountToId].(balance := m[t.accountToId].balance + t.balance)
            && (forall id :: id in m && id != t.accountFromId && id != t.accountToId ==> s.ledger[id] == m[id])
    ensures var s := ExecuteTransfer(m, t);
            s.notices == [Notification(s.ledger[t.accountFromId], Debited, t.accountToId, t.balance),
                          Notification(s.ledger[t.accountToId], Credited, t.accountFromId, t.balance)]
  {
    var from, to := t.accountFromId, t.accountToId;
    TransferCompletesIff(m, t);
    var b := TransferBatch(m[from], m[to], t.balance);
    assert m[from].id == from && from != to;
    assert b[..1] == [AccountUpdate(from, -t.balance)] && b[..1][..0] == [];
    assert DeltaFor(b[..1], from) == -t.balance;
    assert DeltaFor([AccountUpdate(from, -t.balance)], to) == DeltaFor([], to) + 0.0;
    assert DeltaFor(b[..1], to) == 0.0;
    ApplyUpdatesBalance(m, b, from);
    ApplyUpdatesBalance(m, b, to);
    forall id | id in m && id != from && id != to
      ensures ExecuteTransfer(m, t).ledger[id] == m[id]
    {
      ApplyUpdatesUntouched(m, b, id);
    }
  }

  /** A transfer never changes the sum of all balances. */
  lemma TransferConservesTotal(m: Accounts, t: Transfer)
    requires KeysMatchIds(m)
    ensures Total(ExecuteTransfer(m, t).ledger) == Total(m)
  {
    if ExecuteTransfer(m, t).outcome == Completed {
      var b := TransferBatch(m[t.accountFromId], m[t.accountToId], t.balance);
      assert b[..1][..0] == [];
      assert PresentDelta(m, b[..1]) == -t.balance;
      ApplyUpdatesTotal(m, b);
    }
  }

  /** Moving the whole source balance to another account completes and empties the source. */
  lemma TransferWholeBalance(m: Accounts, t: Transfer)
    requires KeysMatchIds(m)
    requires t.accountFromId in m && t.accountToId in m && t.accountFromId != t.accountToId
    requires t.balance == m[t.accountFromId].balance
    ensures ExecuteTransfer(m, t).outcome == Completed
    ensures ExecuteTransfer(m, t).ledger[t.accountFromId].balance == 0.0
  {
    TransferMovesAmount(m, t);
  }

  /**
   * Accounts A = 1000.00 and B = 500.00: moving 1000.00 from A to B completes with
   * A = 0 and B = 1500.00; moving 1 more from A is then refused for lack of funds.
   */
  lemma TransferExample()
    ensures var m := map["A" := Account("A", 1000.00), "B" := Account("B", 500.00)];
            var s := ExecuteTransfer(m, Transfer("A", "B", 1000.00));
            && s.outcome == Completed
            && s.ledger == map["A" := Account("A", 0.0), "B" := Account("B", 1500.00)]
            && ExecuteTransfer(s.ledger, Transfer("A", "B", 1.0)) ==
               TransferStep(Refused(NotEnoughBalance("A", 0.0)), s.ledger, [])
  {
    var m := map["A" := Account("A", 1000.00), "B" := Account("B", 500.00)];
    var t := Transfer("A", "B", 1000.00);
    TransferMovesAmount(m, t);
    var s := ExecuteTransfer(m, t);
    assert s.ledger.Keys == {"A", "B"};
    assert s.ledger == map["A" := Account("A", 0.0), "B" := Account("B", 1500.00)];
    TransferRefusals(s.ledger, Transfer("A", "B", 1.0));
  }

  /**
   * The order in which `makeTransfer` locks the two accounts: the one whose id
   * compares lower-or-equal first. Both orders run the same validation, batch and
   * notifications, so the outcome does not depend on it.
   */
  function LockOrder(fromId: string, toId: string): (r: (string, string))
    ensures {r.0, r.1} == {fromId, toId}
    ensures CompareTo(r.0, r.1) <= 0
  {
    CompareToAntisymmetric(fromId, toId);
    if CompareTo(fromId, toId) < 1 then (fromId, toId) else (toId, fromId)
  }

  /** Two transfers over the same pair of accounts, in either direction, take the locks in the same order. */
  lemma LockOrderConsistent(a: string, b: string)
    ensures LockOrder(a, b) == LockOrder(b, a)
  {
    CompareToAntisymmetric(a, b);
  }

  class AccountsService {
    const accountsRepository: AccountsRepositoryInMemory
    /** The calls made to the notification service so far, oldest first. */
    var notifications: seq<Notification>

    ghost predicate Valid()
      reads this, accountsRepository
    {
      accountsRepository.Valid()
    }

    constructor (accountsRepository: AccountsRepositoryInMemory)
      requires accountsRepository.Valid()
      ensures Valid() && this.accountsRepository == accountsRepository && notifications == []
    {
      this.accountsRepository := accountsRepository;
      notifications := [];
    }

    /** `createAccount`: delegated unchanged to the repository. */
    method CreateAccount(account: Account) returns (r: Outcome<CreateError>)
      requires Valid()
      modifies accountsRepository
      ensures Valid()
      ensures r == Pass <==> account.id !in old(accountsRepository.accounts)
      ensures r.Fail? ==> r.error == DuplicateAccount(account.id) && accountsRepository.accounts == old(accountsRepository.accounts)
      ensures r.Pass? ==> accountsRepository.accounts == old(accountsRepository.accounts)[account.id := account]
    {
      r := accountsRepository.CreateAccount(account);
    }

    /** `getAccount`: delegated unchanged to the repository. */
    function GetAccount(accountId: string): (r: Option<Account>)
      reads this, accountsRepository
      ensures r == accountsRepository.GetAccount(accountId)
      ensures r.None? <==> accountId !in accountsRepository.accounts
    {
      accountsRepository.GetAccount(accountId)
    }

    /** `makeTransfer`: lookup, validation, the paired update, then the two notifications. */
    method MakeTransfer(transfer: Transfer) returns (outcome: TransferOutcome)
      requires Valid()
      modifies this, accountsRepository
      ensures Valid()
      ensures var s := ExecuteTransfer(old(accountsRepository.accounts), transfer);
              && outcome == s.outcome
              && accountsRepository.accounts == s.ledger
              && notifications == old(notifications) + s.notices
    {
      var accountFrom := accountsRepository.GetAccount(transfer.accountFromId);
      var accountTo := accountsRepository.GetAccount(transfer.accountToId);
      var amount := transfer.balance;
      if accountFrom.None? || accountTo.None? {
        // the lock-order comparison dereferences both lookups
        return NullPointer;
      }
      var check := Validate(accountFrom, accountTo, transfer);
      if check.Fail? {
        return Refused(check.error);
      }
      var succeeded := accountsRepository.UpdateAccounts([AccountUpdate(accountFrom.value.id, -amount),
                                                          AccountUpdate(accountTo.value.id, amount)]);
      if succeeded {
        notifications := notifications + [Notification(accountsRepository.accounts[transfer.accountFromId],
                                                       Debited, accountTo.value.id, transfer.balance)];
        notifications := notifications + [Notification(accountsRepository.accounts[transfer.accountToId],
                                                       Credited, accountFrom.value.id, transfer.balance)];
      }
      outcome := Completed;
    }
  }
}
