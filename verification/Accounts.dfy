/** Ledger accounts and idempotency keys, as values instead of formatted strings. */
module Accounts {
  import opened Wrappers

  /** One constructor per account type that the modelled services touch; amounts are pesewas. */
  datatype Account =
    | SystemExternal
    | PlatformFloat
    | GroupPool(group: nat)
    | Available(user: nat)
    | Reserved(user: nat)
    | Escrow(user: nat)
    | Revenue

  /**
   * Idempotency keys. `group`, `member`, `cycle`, `day` and `reserve` name the rows whose ids the
   * source interpolates into the key string; a payment row is named by its contribution and day.
   */
  datatype Key =
    | DepositHold(group: nat, member: nat)
    | DepositForfeit(group: nat, member: nat)
    | DepositRelease(group: nat, member: nat)
    | Inflow(group: nat, cycle: nat, member: nat, day: nat)
    | UnitRelease(group: nat, reserve: nat, cycle: nat, member: nat, day: nat)
    | DefaultCover(group: nat, reserve: nat, cycle: nat, member: nat)
    | Allocation(group: nat, cycle: nat)
    | FinalRelease(group: nat, reserve: nat)
    | OrphanSweep(user: nat)

  /** The group whose operation posts under this key; the orphan sweep belongs to no group. */
  function OwnerOf(key: Key): Option<nat> {
    if key.OrphanSweep? then None else Some(key.group)
  }
}
