/**
 * The entities of the transfer ledger. Balances and amounts are Java `BigDecimal`
 * values, which are exact; they are modelled as Dafny `real`, whose arithmetic and
 * ordering are exact as well (the numeric `compareTo`, not the scale-sensitive `equals`).
 */
module Domain {

  /** An account: its identifier and its current balance. */
  datatype Account = Account(id: string, balance: real)

  /** A transfer request: source id, destination id and the amount to move. */
  datatype Transfer = Transfer(accountFromId: string, accountToId: string, balance: real)

  /** One entry of a ledger batch: an account id and a signed delta to add to its balance. */
  datatype AccountUpdate = AccountUpdate(accountId: string, balance: real)

  /** The exception `createAccount` throws for an id that is already stored. */
  datatype CreateError = DuplicateAccount(id: string)

  /** The exceptions the transfer validator throws. */
  datatype TransferError =
    | AccountNotFound(id: string)
    | SameAccountTransfer
    | NotEnoughBalance(id: string, balance: real)
}
