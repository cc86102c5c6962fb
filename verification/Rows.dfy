/** The database rows of one savings group, and the group's fixed terms. */
module Rows {
  import opened Preview

  datatype GroupStatus = Draft | Active | Completed
  /** Member cycle standing; `Good` is the source's ACTIVE. */
  datatype Standing = Good | Late | Defaulted
  /** `Returned` is the source's RELEASED. */
  datatype DepositStatus = NotRequired | Held | Forfeited | Returned
  datatype ContributionStatus = Pending | Paid
  /** Guarantee reserve status; `Open` is the source's ACTIVE, `Closed` its RELEASED. */
  datatype ReserveStatus = Open | Closed

  /** What creation fixes; `days` is the stored daysPerCycle, `perDay` the contribution in pesewas. */
  datatype Terms = Terms(perDay: int, slots: nat, mode: PayoutMode, days: nat, marginBps: int, startDay: int)

  datatype Member = Member(
    user: nat, turnOrder: nat, payoutOrder: nat, standing: Standing, depositAmount: int, deposit: DepositStatus)

  datatype Contribution = Contribution(
    amount: int, expectedDays: nat, paidDays: nat, status: ContributionStatus)

  datatype Payment = Payment(user: nat, amount: int)
  /** `skipped` is the payout's metadata list of members passed over as defaulted. */
  datatype Payout = Payout(recipient: nat, cycle: nat, amount: int, skipped: seq<nat>)
  datatype Earning = Earning(cycle: nat, margin: int, adminShare: int, platformShare: int)

  datatype Reserve = Reserve(
    user: nat, cycle: nat, original: int, remaining: int, released: int, usedForDefault: int,
    units: nat, unitsReleased: nat, status: ReserveStatus)

  datatype Coverage = Coverage(user: nat, cycle: nat, reserve: nat, covered: int, missed: int)

  /** `cycles[k-1][i]` is the contribution of member `i` to cycle `k`. */
  datatype Group = Group(
    terms: Terms,
    status: GroupStatus,
    currentCycle: nat,
    graceDays: int,
    payoutOverride: bool,
    members: seq<Member>,
    cycles: seq<seq<Contribution>>,
    payments: seq<Payment>,
    payouts: seq<Payout>,
    earnings: seq<Earning>,
    reserves: seq<Reserve>,
    covers: seq<Coverage>)

  /** One lump payment per cycle in DAILY mode, one payment a day in CYCLE mode. */
  function MemberCyclePaymentDays(t: Terms): nat {
    if t.mode == Daily then 1 else t.days
  }
}
