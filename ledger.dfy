/**
 * The account map of the in-memory repository, as a value, and the effect of a delta
 * batch on it. `ApplyUpdates` is what `updateAccounts` does to the map; the lemmas say
 * what that means for each account and for the sum of all balances.
 */
module Ledger {
  import opened Wrappers
  import opened Domain

  /** The repository's backing map from account id to account. */
  type Accounts = map<string, Account>

  /** Every account is stored under its own id, as `createAccount` keys it. */
  ghost predicate KeysMatchIds(m: Accounts)
  {
    forall id :: id in m ==> m[id].id == id
  }

  /** `getAccount`: the stored account, or `null` for an id not in the map. */
  function Lookup(m: Accounts, id: string): (r: Option<Account>)
    ensures r.None? <==> id !in m
    ensures r.Some? ==> r.value == m[id]
  {
    if id in m then Some(m[id]) else None
  }

  /**
   * `updateAccount`: `computeIfPresent` adds the delta to the balance of a stored
   * account and leaves the map alone when the id is absent.
   */
  function ApplyUpdate(m: Accounts, u: AccountUpdate): (r: Accounts)
    ensures r.Keys == m.Keys
    ensures KeysMatchIds(m) ==> KeysMatchIds(r)
  {
    if u.accountId in m then m[u.accountId := m[u.accountId].(balance := m[u.accountId].balance + u.balance)]
    else m
  }

  /** `updateAccounts`: the entries of the batch applied one after another, in list order. */
  function ApplyUpdates(m: Accounts, updates: seq<AccountUpdate>): (r: Accounts)
    ensures r.Keys == m.Keys
    ensures KeysMatchIds(m) ==> KeysMatchIds(r)
    decreases |updates|
  {
    if updates == [] then m
    else ApplyUpdate(ApplyUpdates(m, updates[..|updates| - 1]), updates[|updates| - 1])
  }

  /** The sum of the deltas the batch names for one id. */
  function DeltaFor(updates: seq<AccountUpdate>, id: string): real
    decreases |updates|
  {
    if updates == [] then 0.0
    else
      var last := updates[|updates| - 1];
      DeltaFor(updates[..|updates| - 1], id) + (if last.accountId == id then last.balance else 0.0)
  }

  /** The sum of the deltas whose id is stored in `m`; the others are skipped. */
  function PresentDelta(m: Accounts, updates: seq<AccountUpdate>): real
    decreases |updates|
  {
    if updates == [] then 0.0
    else
      var last := updates[|updates| - 1];
      PresentDelta(m, updates[..|updates| - 1]) + (if last.accountId in m then last.balance else 0.0)
  }

  /** The sum of all balances in the map. */
  ghost function Total(m: Accounts): real
    decreases |m|
  {
    if m == map[] then 0.0
    else
      var id :| id in m;
      m[id].balance + Total(m - {id})
  }

  /**
   * A stored account's balance after the batch is its old balance plus every delta
   * for its id, repeated ids accumulating; its id does not change.
   */
  lemma {:induction false} ApplyUpdatesBalance(m: Accounts, updates: seq<AccountUpdate>, id: string)
    requires id in m
    ensures ApplyUpdates(m, updates)[id] == m[id].(balance := m[id].balance + DeltaFor(updates, id))
    decreases |updates|
  {
    if updates != [] {
      ApplyUpdatesBalance(m, updates[..|updates| - 1], id);
    }
  }

  /** A batch that never names an id contributes nothing to it. */
  lemma {:induction false} DeltaForUnnamed(updates: seq<AccountUpdate>, id: string)
    requires forall i :: 0 <= i < |updates| ==> updates[i].accountId != id
    ensures DeltaFor(updates, id) == 0.0
    decreases |updates|
  {
    if updates != [] {
      DeltaForUnnamed(updates[..|updates| - 1], id);
    }
  }

  /** Accounts the batch does not name are left exactly as they were. */
  lemma ApplyUpdatesUntouched(m: Accounts, updates: seq<AccountUpdate>, id: string)
    requires id in m
    requires forall i :: 0 <= i < |updates| ==> updates[i].accountId != id
    ensures ApplyUpdates(m, updates)[id] == m[id]
  {
    ApplyUpdatesBalance(m, updates, id);
    DeltaForUnnamed(updates, id);
  }

  /** Taking any one account out of the sum. */
  lemma {:induction false} TotalRemove(m: Accounts, id: string)
    requires id in m
    ensures Total(m) == m[id].balance + Total(m - {id})
    decreases |m|
  {
    var k :| k in m && Total(m) == m[k].balance + Total(m - {k});
    if k != id {
      assert (m - {k}) - {id} == (m - {id}) - {k};
      TotalRemove(m - {k}, id);
      TotalRemove(m - {id}, k);
    }
  }

  /** Adding a delta to one stored balance adds it to the sum. */
  lemma TotalAdjust(m: Accounts, id: string, delta: real)
    requires id in m
    ensures Total(m[id := m[id].(balance := m[id].balance + delta)]) == Total(m) + delta
  {
    var m' := m[id := m[id].(balance := m[id].balance + delta)];
    TotalRemove(m, id);
    TotalRemove(m', id);
    assert m' - {id} == m - {id};
  }

  /** The batch changes the sum of balances by exactly the deltas of the ids it finds. */
  lemma {:induction false} ApplyUpdatesTotal(m: Accounts, updates: seq<AccountUpdate>)
    ensures Total(ApplyUpdates(m, updates)) == Total(m) + PresentDelta(m, updates)
    decreases |updates|
  {
    if updates != [] {
      var prefix := updates[..|updates| - 1];
      var last := updates[|updates| - 1];
      ApplyUpdatesTotal(m, prefix);
      var before := ApplyUpdates(m, prefix);
      if last.accountId in before {
        TotalAdjust(before, last.accountId, last.balance);
      }
    }
  }

  /**
   * Balances 0 and 500.00 with deltas 0 and -100 become 0 and 400.00; every
   * other account is left alone.
   */
  lemma UpdateBatchExample(others: Accounts)
    requires "Id000-ravi-1" !in others && "Id000-ravi-2" !in others
    ensures
      var m := others["Id000-ravi-1" := Account("Id000-ravi-1", 0.0)]["Id000-ravi-2" := Account("Id000-ravi-2", 500.00)];
      var r := ApplyUpdates(m, [AccountUpdate("Id000-ravi-1", 0.0), AccountUpdate("Id000-ravi-2", -100.0)]);
      r == others["Id000-ravi-1" := Account("Id000-ravi-1", 0.0)]["Id000-ravi-2" := Account("Id000-ravi-2", 400.00)]
  {
  }
}
