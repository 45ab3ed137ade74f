/// The ledger entities the CSV export consumes, as the ledger's HTTP API
/// delivers them (actual_client.go). Only their shapes are modelled here.
module Ledger {

  /** An account of the ledger; closed accounts are filtered out before export. */
  datatype Account = Account(id: string, name: string, closed: bool)

  /**
   * One ledger transaction. `amount` is in cents (an int64 in the ledger
   * client); `categoryId` and `payeeId` are foreign keys that may be empty,
   * and `error` is the ledger's own per-transaction annotation.
   */
  datatype Transaction = Transaction(
    id: string,
    accountId: string,
    categoryId: string,
    amount: int,
    payeeId: string,
    notes: string,
    date: string,
    error: string)
}
