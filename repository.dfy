/**
 * The in-memory accounts repository: one mutable map from account id to account,
 * changed in place by `createAccount` (insert if absent), `clearAccounts` and the
 * delta batch of `updateAccounts`.
 */
module Repository {
  import opened Wrappers
  import opened Domain
  import opened Ledger

  class AccountsRepositoryInMemory {
    var accounts: Accounts

    /** Every stored account sits under its own id. */
    ghost predicate Valid()
      reads this
    {
      KeysMatchIds(accounts)
    }

    constructor ()
      ensures Valid() && accounts == map[]
    {
      accounts := map[];
    }

    /**
     * `createAccount`: `putIfAbsent` stores an account under a fresh id; an id already
     * present raises DuplicateAccount and the stored account is not overwritten.
     */
    method CreateAccount(account: Account) returns (r: Outcome<CreateError>)
      requires Valid()
      modifies this
      ensures Valid()
      ensures r == Pass <==> account.id !in old(accounts)
      ensures r.Fail? ==> r.error == DuplicateAccount(account.id) && accounts == old(accounts)
      ensures r.Pass? ==> accounts == old(accounts)[account.id := account]
      ensures r.Pass? ==> GetAccount(account.id) == Some(account)
    {
      if account.id in accounts {
        r := Fail(DuplicateAccount(account.id));
      } else {
        accounts := accounts[account.id := account];
        r := Pass;
      }
    }

    /** `getAccount`: the stored account with that id, or `null` when there is none. */
    function GetAccount(accountId: string): (r: Option<Account>)
      reads this
      ensures r.None? <==> accountId !in accounts
      ensures r.Some? ==> r.value == accounts[accountId]
      ensures Valid() && r.Some? ==> r.value.id == accountId
    {
      Lookup(accounts, accountId)
    }

    /** `clearAccounts`: the map is left empty. */
    method ClearAccounts()
      modifies this
      ensures Valid() && accounts == map[]
    {
      accounts := map[];
    }

    /**
     * `updateAccounts`: walks the batch in list order applying each entry, and
     * always reports success.
     */
    method UpdateAccounts(accountUpdates: seq<AccountUpdate>) returns (succeeded: bool)
      requires Valid()
      modifies this
      ensures Valid()
      ensures accounts == ApplyUpdates(old(accounts), accountUpdates)
      ensures succeeded
    {
      var i := 0;
      while i < |accountUpdates|
        invariant 0 <= i <= |accountUpdates|
        invariant Valid()
        invariant accounts == ApplyUpdates(old(accounts), accountUpdates[..i])
      {
        assert accountUpdates[..i + 1][..i] == accountUpdates[..i];
        UpdateAccount(accountUpdates[i]);
        i := i + 1;
      }
      assert accountUpdates[..i] == accountUpdates;
      return true;
    }

    /** `updateAccount`: adds one delta to a stored balance; an absent id is skipped. */
    method UpdateAccount(accountUpdate: AccountUpdate)
      requires Valid()
      modifies this
      ensures Valid()
      ensures accounts == ApplyUpdate(old(accounts), accountUpdate)
    {
      var accountId := accountUpdate.accountId;
      if accountId in accounts {
        var account := accounts[accountId];
        accounts := accounts[accountId := account.(balance := account.balance + accountUpdate.balance)];
      }
    }
  }
}
