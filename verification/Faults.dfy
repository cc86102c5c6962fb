/** Every way the modelled services refuse a request. */
module Faults {
  import opened Ledger

  datatype Fault =
    // arguments of the shared calculations
    | InvalidAmount
    | InvalidMemberCount
    | InvalidDays
    | InvalidMargin
    | InvalidPosition
    | InvalidReserveConfig
    | InvalidGroupSize
    | InvalidGrace
    // rows that are missing or in the wrong state
    | GroupNotFound
    | ContributionNotFound
    | NotDraft
    | NotActive
    | GroupClosedToMembers
    | AlreadyMember
    | UnresolvedDefault
    | SlotsNotFilled
    | WrongCycle
    | AlreadyPaid
    | NoMembers
    | RosterSizeMismatch
    | ContributionRowsMissing
    | ContributionsUnpaid
    | PayoutExists
    | NoEligibleRecipient
    // the journal said no
    | LedgerRefused(error: PostError)
}
