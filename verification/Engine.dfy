/**
 * What one database transaction does to the ledger and to one group's rows. Each function follows
 * one service method; a rejected transaction is an `Err` and its caller keeps the old state.
 */
module Engine {
  import opened Wrappers
  import opened Accounts
  import opened Ledger
  import opened Faults
  import opened Calculations
  import opened Preview
  import opened ReserveMath
  import opened Rows
  import opened PayoutQueue

  /** The ledger together with the group under work. */
  datatype Local = Local(books: Books, grp: Group)

  /** Most callers ignore the duplicate flag and go on; only a rejection aborts them. */
  function MustPost(b: Books, r: PostResult): Result<Books, Fault> {
    match r
    case Posted(after) => Ok(after)
    case Duplicate => Ok(b)
    case Rejected(e) => Err(LedgerRefused(e))
  }

  // ---- Row lookups ---------------------------------------------------------------------------

  predicate HasContribution(grp: Group, k: nat, i: nat) {
    1 <= k <= |grp.cycles| && i < |grp.cycles[k - 1]| && i < |grp.members|
  }

  function ContributionAt(grp: Group, k: nat, i: nat): Contribution
    requires HasContribution(grp, k, i)
  {
    grp.cycles[k - 1][i]
  }

  function WithContribution(grp: Group, k: nat, i: nat, c: Contribution): Group
    requires HasContribution(grp, k, i)
  {
    grp.(cycles := grp.cycles[k - 1 := grp.cycles[k - 1][i := c]])
  }

  function WithMember(grp: Group, i: nat, m: Member): Group
    requires i < |grp.members|
  {
    grp.(members := grp.members[i := m])
  }

  function WithReserve(grp: Group, r: nat, row: Reserve): Group
    requires r < |grp.reserves|
  {
    grp.(reserves := grp.reserves[r := row])
  }

  /** The user's open reserve in this group; the oldest one if there are several. */
  function FirstOpen(reserves: seq<Reserve>, user: nat): (r: Option<nat>)
    ensures r.Some? ==> r.value < |reserves| && reserves[r.value].user == user && reserves[r.value].status == Open
    ensures r.None? ==> forall j :: 0 <= j < |reserves| ==> !(reserves[j].user == user && reserves[j].status == Open)
  {
    if reserves == [] then None
    else
      var last := |reserves| - 1;
      var earlier := FirstOpen(reserves[..last], user);
      if earlier.Some? then earlier
      else if reserves[last].user == user && reserves[last].status == Open then Some(last)
      else None
  }

  predicate HasReceivedPayout(grp: Group, user: nat) {
    exists p :: 0 <= p < |grp.payouts| && grp.payouts[p].recipient == user
  }

  predicate IsMember(grp: Group, user: nat) {
    exists i :: 0 <= i < |grp.members| && grp.members[i].user == user
  }

  // ---- Join and activate ---------------------------------------------------------------------

  function DepositRequiredAmount(t: Terms): int {
    if t.mode == Daily then 0 else t.perDay * t.days
  }

  predicate AcceptsNewMembers(grp: Group) {
    && |grp.members| < grp.terms.slots
    && (grp.status == Draft || (grp.status == Active && grp.members == []))
  }

  function MaxTurnOrder(members: seq<Member>): nat {
    if members == [] then 0
    else
      var rest, last := MaxTurnOrder(members[..|members| - 1]), members[|members| - 1].turnOrder;
      if last > rest then last else rest
  }

  /** The membership transaction: a new row, and in CYCLE mode the deposit held in escrow. */
  function JoinTx(b: Books, g: nat, grp: Group, user: nat): Result<Local, Fault> {
    if !AcceptsNewMembers(grp) then Err(GroupClosedToMembers)
    else if IsMember(grp, user) then Err(AlreadyMember)
    else
      var i := |grp.members|;
      var turn := MaxTurnOrder(grp.members) + 1;
      var amount := DepositRequiredAmount(grp.terms);
      if amount <= 0 then
        Ok(Local(b, grp.(members := grp.members + [Member(user, turn, turn, Good, 0, NotRequired)])))
      else
        match MustPost(b, Transfer(b, DepositHold(g, i), SystemExternal, Escrow(user), amount))
        case Err(e) => Err(e)
        case Ok(after) =>
          Ok(Local(after, grp.(members := grp.members + [Member(user, turn, turn, Good, amount, Held)],
                               payments := grp.payments + [Payment(user, amount)])))
  }

  function NewContribution(t: Terms): Contribution {
    var days := MemberCyclePaymentDays(t);
    Contribution(t.perDay * days, days, 0, Pending)
  }

  function OpenCycle(t: Terms, n: nat): seq<Contribution> {
    seq(n, _ => NewContribution(t))
  }

  function ActivateTx(grp: Group): Result<Group, Fault> {
    if |grp.members| != grp.terms.slots then Err(SlotsNotFilled)
    else if grp.status != Draft then Err(NotDraft)
    else Ok(grp.(status := Active, currentCycle := 1, cycles := [OpenCycle(grp.terms, |grp.members|)]))
  }

  // ---- Pay one day ---------------------------------------------------------------------------

  function InflowLines(g: nat, amount: int): seq<Line> {
    [Line(SystemExternal, -amount), Line(PlatformFloat, amount),
     Line(PlatformFloat, -amount), Line(GroupPool(g), amount)]
  }

  function PaymentFault(grp: Group, k: nat, i: nat): Option<Fault> {
    if !HasContribution(grp, k, i) then Some(ContributionNotFound)
    else if grp.status != Active then Some(NotActive)
    else if k != grp.currentCycle then Some(WrongCycle)
    else
      var c := ContributionAt(grp, k, i);
      if c.status == Paid || c.paidDays >= c.expectedDays then Some(AlreadyPaid) else None
  }

  function OneMoreDay(c: Contribution): Contribution {
    c.(paidDays := c.paidDays + 1, status := if c.paidDays + 1 >= c.expectedDays then Paid else Pending)
  }

  /** One more day counted. */
  function Counted(grp: Group, k: nat, i: nat): Group
    requires HasContribution(grp, k, i)
  {
    WithContribution(grp, k, i, OneMoreDay(ContributionAt(grp, k, i)))
  }

  /** One more day counted and its payment recorded. */
  function Collected(grp: Group, k: nat, i: nat): Group
    requires HasContribution(grp, k, i)
  {
    Counted(grp, k, i).(payments := grp.payments + [Payment(grp.members[i].user, grp.terms.perDay)])
  }

  /** The day counter moves first; a reference seen before then ends the transaction without money. */
  function SettleTx(cfg: ReserveConfig, b: Books, g: nat, grp: Group, k: nat, i: nat, refSeen: bool)
    : Result<Local, Fault>
  {
    var fault := PaymentFault(grp, k, i);
    if fault.Some? then Err(fault.value)
    else
      var day := ContributionAt(grp, k, i).paidDays + 1;
      if refSeen then Ok(Local(b, Counted(grp, k, i)))
      else
        match MustPost(b, Post(b, Inflow(g, k, i, day), InflowLines(g, grp.terms.perDay)))
        case Err(e) => Err(e)
        case Ok(after) => ReleaseUnit(cfg, after, g, Collected(grp, k, i), k, i, day)
  }

  /** The open reserve that a payment for cycle `k` unlocks from, and by how much; 0 means no release. */
  function UnitDue(cfg: ReserveConfig, grp: Group, user: nat, k: nat): (d: (nat, int))
    ensures d.1 > 0 ==> d.0 < |grp.reserves| && FirstOpen(grp.reserves, user) == Some(d.0) && cfg.enabled
  {
    var found := FirstOpen(grp.reserves, user);
    if !cfg.enabled || found.None? then (0, 0)
    else
      var row := grp.reserves[found.value];
      if k <= row.cycle || row.remaining <= 0 || row.unitsReleased >= row.units then (0, 0)
      else (found.value, NextReserveReleaseMinor(row.original, row.remaining, row.units, row.unitsReleased))
  }

  function AfterUnit(row: Reserve, amount: int): Reserve {
    var left := row.remaining - amount;
    row.(remaining := if left > 0 then left else 0,
         released := row.released + amount,
         unitsReleased := row.unitsReleased + 1,
         status := if left <= 0 || row.unitsReleased + 1 >= row.units then Closed else Open)
  }

  function ReleaseUnit(cfg: ReserveConfig, b: Books, g: nat, grp: Group, k: nat, i: nat, day: nat)
    : Result<Local, Fault>
    requires i < |grp.members|
  {
    var user := grp.members[i].user;
    var (r, amount) := UnitDue(cfg, grp, user, k);
    if amount <= 0 then Ok(Local(b, grp))
    else
      match Transfer(b, UnitRelease(g, r, k, i, day), Reserved(user), Available(user), amount)
      case Rejected(e) => Err(LedgerRefused(e))
      case Duplicate => Ok(Local(b, grp))
      case Posted(after) => Ok(Local(after, WithReserve(grp, r, AfterUnit(grp.reserves[r], amount))))
  }

  // ---- Default -------------------------------------------------------------------------------

  function MissedContributionMinor(amount: int, expectedDays: int, paidDays: int): int {
    if expectedDays < 1 then amount
    else
      var unpaid := if expectedDays > paidDays then expectedDays - paidDays else 0;
      if unpaid <= 0 then 0 else amount * unpaid / expectedDays
  }

  function ForfeitTx(b: Books, g: nat, grp: Group, i: nat): Result<Local, Fault>
    requires i < |grp.members|
  {
    var m := grp.members[i];
    if m.deposit != Held then Ok(Local(b, grp))
    else if m.depositAmount <= 0 then Ok(Local(b, WithMember(grp, i, m.(deposit := Forfeited))))
    else
      match MustPost(b, Transfer(b, DepositForfeit(g, i), Escrow(m.user), GroupPool(g), m.depositAmount))
      case Err(e) => Err(e)
      case Ok(after) => Ok(Local(after, WithMember(grp, i, m.(deposit := Forfeited))))
  }

  predicate CoverExists(grp: Group, r: nat, k: nat, user: nat) {
    exists j :: 0 <= j < |grp.covers| &&
      grp.covers[j].reserve == r && grp.covers[j].cycle == k && grp.covers[j].user == user
  }

  /** The open reserve that covers the member's missed amount for cycle `k`, what is missed, what is covered. */
  function CoverDue(cfg: ReserveConfig, grp: Group, k: nat, i: nat): (d: (nat, int, int))
    ensures d.2 > 0 ==>
      && HasContribution(grp, k, i) && ContributionAt(grp, k, i).status != Paid
      && d.0 < |grp.reserves| && FirstOpen(grp.reserves, grp.members[i].user) == Some(d.0)
      && d.2 <= d.1 && d.2 <= grp.reserves[d.0].remaining
  {
    if !cfg.enabled || !HasContribution(grp, k, i) || ContributionAt(grp, k, i).status == Paid then (0, 0, 0)
    else
      var c := ContributionAt(grp, k, i);
      var missed := MissedContributionMinor(c.amount, c.expectedDays, c.paidDays);
      var found := FirstOpen(grp.reserves, grp.members[i].user);
      if missed <= 0 || found.None? || CoverExists(grp, found.value, k, grp.members[i].user) then (0, 0, 0)
      else
        var left := grp.reserves[found.value].remaining;
        if left <= 0 then (0, 0, 0)
        else (found.value, missed, if missed < left then missed else left)
  }

  function AfterCover(row: Reserve, amount: int): Reserve {
    var left := row.remaining - amount;
    row.(remaining := if left > 0 then left else 0,
         usedForDefault := row.usedForDefault + amount,
         status := if left <= 0 then Closed else row.status)
  }

  /** Under a fresh inflow key a settlement is the inflow followed by the unit release. */
  lemma SettleIsInflowThenRelease(cfg: ReserveConfig, b: Books, g: nat, grp: Group, k: nat, i: nat)
    requires SettleTx(cfg, b, g, grp, k, i, false).Ok?
    requires Inflow(g, k, i, ContributionAt(grp, k, i).paidDays + 1) !in b.keys
    ensures var day := ContributionAt(grp, k, i).paidDays + 1;
      var r := Post(b, Inflow(g, k, i, day), InflowLines(g, grp.terms.perDay));
      && PaymentFault(grp, k, i).None? && r.Posted? && r.books.keys == b.keys + {Inflow(g, k, i, day)}
      && SettleTx(cfg, b, g, grp, k, i, false) == ReleaseUnit(cfg, r.books, g, Collected(grp, k, i), k, i, day)
  {
  }

  /** The reserve drawn down and the cover recorded. */
  function Noted(grp: Group, k: nat, i: nat, r: nat, missed: int, amount: int): Group
    requires i < |grp.members| && r < |grp.reserves|
  {
    WithReserve(grp, r, AfterCover(grp.reserves[r], amount))
      .(covers := grp.covers + [Coverage(grp.members[i].user, k, r, amount, missed)])
  }

  /** A cover of the whole missed amount also settles the contribution. */
  function CoverRows(grp: Group, k: nat, i: nat, r: nat, missed: int, amount: int): Group
    requires HasContribution(grp, k, i) && r < |grp.reserves|
  {
    var c := ContributionAt(grp, k, i);
    var noted := Noted(grp, k, i, r, missed, amount);
    if amount >= missed then WithContribution(noted, k, i, c.(status := Paid, paidDays := c.expectedDays)) else noted
  }

  function CoverTx(cfg: ReserveConfig, b: Books, g: nat, grp: Group, k: nat, i: nat): Result<Local, Fault>
    requires i < |grp.members|
  {
    var (r, missed, amount) := CoverDue(cfg, grp, k, i);
    if amount <= 0 then Ok(Local(b, grp))
    else
      match Transfer(b, DefaultCover(g, r, k, i), Reserved(grp.members[i].user), GroupPool(g), amount)
      case Rejected(e) => Err(LedgerRefused(e))
      case Duplicate => Ok(Local(b, grp))
      case Posted(after) => Ok(Local(after, CoverRows(grp, k, i, r, missed, amount)))
  }

  /** A member newly defaults: deposit to the pool, then cover (already paid out) or back of the queue. */
  function DefaultTx(cfg: ReserveConfig, b: Books, g: nat, grp: Group, i: nat): Result<Local, Fault>
    requires i < |grp.members|
  {
    match ForfeitTx(b, g, WithMember(grp, i, grp.members[i].(standing := Defaulted)), i)
    case Err(e) => Err(e)
    case Ok(l) =>
      if HasReceivedPayout(l.grp, grp.members[i].user) then CoverTx(cfg, l.books, g, l.grp, l.grp.currentCycle, i)
      else Ok(Local(l.books, l.grp.(members := Dequeued(l.grp.members, i))))
  }

  // ---- Compliance sync -----------------------------------------------------------------------

  /** The standing that an unpaid contribution earns on day `today`. */
  function Assess(grp: Group, c: Contribution, today: int): Standing {
    var cycleStart := grp.terms.startDay + (grp.currentCycle - 1) * grp.terms.days;
    var since := if today - cycleStart > 0 then today - cycleStart else 0;
    var required := if c.expectedDays < since then c.expectedDays else since;
    if today > cycleStart + c.expectedDays + grp.graceDays then Defaulted
    else if c.paidDays < required then Late
    else Good
  }

  function WithStanding(grp: Group, i: nat, s: Standing): Group
    requires i < |grp.members|
  {
    WithMember(grp, i, grp.members[i].(standing := s))
  }

  /** The standing a member takes without a transaction, or None when the member newly defaults. */
  function NextStanding(grp: Group, i: nat, today: int): Option<Standing>
    requires i < |grp.members|
  {
    var now := grp.members[i].standing;
    if !HasContribution(grp, grp.currentCycle, i) then Some(now)
    else
      var c := ContributionAt(grp, grp.currentCycle, i);
      if c.status == Paid then Some(Good)
      else
        var next := Assess(grp, c, today);
        if next == Defaulted && now != Defaulted then None
        else if now == Defaulted then Some(now)
        else Some(next)
  }

  function SyncMember(cfg: ReserveConfig, b: Books, g: nat, grp: Group, i: nat, today: int): Result<Local, Fault>
    requires i < |grp.members|
  {
    match NextStanding(grp, i, today)
    case None => DefaultTx(cfg, b, g, grp, i)
    case Some(s) => Ok(Local(b, WithStanding(grp, i, s)))
  }

  /** What a sync leaves behind, and the fault that stopped it early, if any. */
  datatype SyncOutcome = SyncOutcome(local: Local, fault: Option<Fault>)

  /** Members are visited one by one; a failing member stops the walk but keeps what was done before. */
  function SyncFrom(cfg: ReserveConfig, b: Books, g: nat, grp: Group, i: nat, today: int): SyncOutcome
    decreases |grp.members| - i
  {
    if i >= |grp.members| then SyncOutcome(Local(b, grp), None)
    else
      match SyncMember(cfg, b, g, grp, i, today)
      case Err(e) => SyncOutcome(Local(b, grp), Some(e))
      case Ok(l) =>
        SyncMemberKeepsRoster(cfg, b, g, grp, i, today);
        SyncFrom(cfg, l.books, g, l.grp, i + 1, today)
  }

  lemma SyncMemberKeepsRoster(cfg: ReserveConfig, b: Books, g: nat, grp: Group, i: nat, today: int)
    requires i < |grp.members|
    ensures var r := SyncMember(cfg, b, g, grp, i, today);
      r.Ok? ==>
        && |r.value.grp.members| == |grp.members| && r.value.grp.payouts == grp.payouts
        && r.value.grp.status == grp.status && r.value.grp.terms == grp.terms
  {
    hide Transfer, NextStanding, CoverDue;
  }

  function EveryoneGood(members: seq<Member>): seq<Member> {
    seq(|members|, (i: nat) requires i < |members| => members[i].(standing := Good))
  }

  function SyncGroup(cfg: ReserveConfig, b: Books, g: nat, grp: Group, today: int): SyncOutcome {
    if grp.status != Active then SyncOutcome(Local(b, grp), None)
    else if grp.terms.mode == Daily then
      SyncOutcome(Local(b, grp.(members := EveryoneGood(grp.members))), None)
    else SyncFrom(cfg, b, g, grp, 0, today)
  }

  // ---- Finalize a cycle ----------------------------------------------------------------------

  /** Every contribution is paid or belongs to a defaulted member. */
  predicate ContributionsReady(rows: seq<Contribution>, members: seq<Member>)
    requires |rows| == |members|
  {
    forall i :: 0 <= i < |rows| ==> rows[i].status == Paid || members[i].standing == Defaulted
  }

  function FinalizeFault(grp: Group, k: nat): Option<Fault> {
    if grp.status != Active then Some(NotActive)
    else if grp.currentCycle != k then Some(WrongCycle)
    else if |grp.members| == 0 then Some(NoMembers)
    else if |grp.members| != grp.terms.slots then Some(RosterSizeMismatch)
    else if !(1 <= k <= |grp.cycles|) || |grp.cycles[k - 1]| != |grp.members| then Some(ContributionRowsMissing)
    else if !ContributionsReady(grp.cycles[k - 1], grp.members) then Some(ContributionsUnpaid)
    else if exists p :: 0 <= p < |grp.payouts| && grp.payouts[p].cycle == k then Some(PayoutExists)
    else None
  }

  function SummaryOf(grp: Group): Result<CycleSummary, Fault> {
    SummarizeCycle(grp.terms.perDay, |grp.members|, grp.terms.marginBps, MemberCyclePaymentDays(grp.terms))
  }

  function AllocationLines(g: nat, user: nat, summary: CycleSummary, split: Split): seq<Line> {
    [Line(GroupPool(g), -summary.gross), Line(Available(user), split.available), Line(Revenue, summary.platformShare)]
    + if split.reserve > 0 then [Line(Reserved(user), split.reserve)] else []
  }

  function UsersAt(members: seq<Member>, indices: seq<nat>): seq<nat>
    requires Valid(members, indices)
  {
    seq(|indices|, (p: nat) requires p < |indices| => members[indices[p]].user)
  }

  function LateForgiven(members: seq<Member>): seq<Member> {
    seq(|members|, (i: nat) requires i < |members| =>
      if members[i].standing == Late then members[i].(standing := Good) else members[i])
  }

  function NewReserve(user: nat, k: nat, split: Split): seq<Reserve> {
    if split.reserve <= 0 then []
    else [Reserve(user, k, split.reserve, split.reserve, 0, 0, split.units, 0, Open)]
  }

  function PaidOut(grp: Group, k: nat, user: nat, skipped: seq<nat>, summary: CycleSummary, split: Split): Group {
    grp.(payouts := grp.payouts + [Payout(user, k, summary.netAfterMargin, skipped)],
         earnings := grp.earnings + [Earning(k, summary.serviceMargin, 0, summary.serviceMargin)],
         reserves := grp.reserves + NewReserve(user, k, split))
  }

  function OpenNext(grp: Group, k: nat): Group {
    grp.(currentCycle := k + 1,
         cycles := grp.cycles + [OpenCycle(grp.terms, |grp.members|)],
         members := if grp.terms.mode == Cycle then LateForgiven(grp.members) else grp.members)
  }

  /** Payout, earning and reserve rows of cycle `k`, and the next cycle's rows or completion. */
  function FinalizeRows(grp: Group, k: nat, user: nat, skipped: seq<nat>, summary: CycleSummary, split: Split): Group {
    var paidOut := PaidOut(grp, k, user, skipped, summary, split);
    if k < grp.terms.slots then OpenNext(paidOut, k) else paidOut.(status := Completed)
  }

  /** The allocation journal of cycle `k`, and the rows that go with it. */
  function PayOutTx(b: Books, g: nat, grp: Group, k: nat, user: nat, skipped: seq<nat>, summary: CycleSummary,
      split: Split)
    : Result<Local, Fault>
  {
    match MustPost(b, Post(b, Allocation(g, k), AllocationLines(g, user, summary, split)))
    case Err(e) => Err(e)
    case Ok(after) => Ok(Local(after, FinalizeRows(grp, k, user, skipped, summary, split)))
  }

  /** The part of finalization before any completion: guards, selection, journal and rows. */
  function AllocateTx(cfg: ReserveConfig, b: Books, g: nat, grp: Group, k: nat): Result<Local, Fault> {
    var fault := FinalizeFault(grp, k);
    if fault.Some? then Err(fault.value)
    else
      match SummaryOf(grp)
      case Err(e) => Err(e)
      case Ok(summary) =>
        var selection := SelectPayoutRecipient(grp.members, k, grp.payoutOverride);
        SelectionIsEligible(grp.members, k, grp.payoutOverride);
        if selection.recipient.None? then Err(NoEligibleRecipient)
        else
          var user := grp.members[selection.recipient.value].user;
          match ComputeSplit(cfg, summary.netAfterMargin, k, |grp.members|, MemberCyclePaymentDays(grp.terms))
          case Err(e) => Err(e)
          case Ok(split) =>
            SkippedAreMembers(grp.members, k, grp.payoutOverride);
            PayOutTx(b, g, grp, k, user, UsersAt(grp.members, selection.skipped), summary, split)
  }

  lemma SkippedAreMembers(members: seq<Member>, k: nat, allowOverride: bool)
    requires k >= 1
    ensures Valid(members, SelectPayoutRecipient(members, k, allowOverride).skipped)
  {
    if members != [] && !allowOverride {
      var order := QueueOrder(members);
      var walk := Rotated(order, (k - 1) % |order|);
      assert Valid(members, walk);
      SkippedFromLine(members, walk);
    }
  }

  lemma {:induction false} SkippedFromLine(members: seq<Member>, line: seq<nat>)
    requires Valid(members, line)
    ensures Valid(members, FirstEligible(members, line).1)
  {
    if line != [] && members[line[0]].standing == Defaulted {
      SkippedFromLine(members, line[1..]);
    }
  }

  // ---- Complete a group ----------------------------------------------------------------------

  function ReturnDeposit(b: Books, g: nat, grp: Group, i: nat): Result<Local, Fault>
    requires i < |grp.members|
  {
    var m := grp.members[i];
    if m.deposit != Held || m.depositAmount <= 0 || m.standing == Defaulted then Ok(Local(b, grp))
    else
      match MustPost(b, Transfer(b, DepositRelease(g, i), Escrow(m.user), Available(m.user), m.depositAmount))
      case Err(e) => Err(e)
      case Ok(after) => Ok(Local(after, WithMember(grp, i, m.(deposit := Returned))))
  }

  function ReturnDepositsFrom(b: Books, g: nat, grp: Group, i: nat): Result<Local, Fault>
    decreases |grp.members| - i
  {
    if i >= |grp.members| then Ok(Local(b, grp))
    else
      match ReturnDeposit(b, g, grp, i)
      case Err(e) => Err(e)
      case Ok(l) => ReturnDepositsFrom(l.books, g, l.grp, i + 1)
  }

  function FullyReleased(row: Reserve, amount: int): Reserve {
    row.(remaining := 0, unitsReleased := row.units, status := Closed, released := row.released + amount)
  }

  function CloseReserve(b: Books, g: nat, grp: Group, r: nat): Result<Local, Fault>
    requires r < |grp.reserves|
  {
    var row := grp.reserves[r];
    if row.status != Open then Ok(Local(b, grp))
    else if row.remaining <= 0 then Ok(Local(b, WithReserve(grp, r, FullyReleased(row, 0))))
    else
      match MustPost(b, Transfer(b, FinalRelease(g, r), Reserved(row.user), Available(row.user), row.remaining))
      case Err(e) => Err(e)
      case Ok(after) => Ok(Local(after, WithReserve(grp, r, FullyReleased(row, row.remaining))))
  }

  function CloseReservesFrom(b: Books, g: nat, grp: Group, r: nat): Result<Local, Fault>
    decreases |grp.reserves| - r
  {
    if r >= |grp.reserves| then Ok(Local(b, grp))
    else
      match CloseReserve(b, g, grp, r)
      case Err(e) => Err(e)
      case Ok(l) => CloseReservesFrom(l.books, g, l.grp, r + 1)
  }

  /** Users with an open reserve, oldest first, each once. */
  function OpenUsers(reserves: seq<Reserve>): seq<nat> {
    if reserves == [] then []
    else
      var before, last := OpenUsers(reserves[..|reserves| - 1]), reserves[|reserves| - 1];
      if last.status == Open && last.user !in before then before + [last.user] else before
  }

  predicate HasOpenReserve(groups: seq<Group>, user: nat) {
    exists h :: 0 <= h < |groups| && FirstOpen(groups[h].reserves, user).Some?
  }

  /** Moves what a user without any open reserve still has reserved. */
  function SweepTx(b: Books, groups: seq<Group>, user: nat): Result<Books, Fault> {
    var stray := Balance(b.balances, Reserved(user));
    if HasOpenReserve(groups, user) || stray <= 0 then Ok(b)
    else MustPost(b, Transfer(b, OrphanSweep(user), Reserved(user), Available(user), stray))
  }

  function SweepAll(b: Books, groups: seq<Group>, users: seq<nat>): Result<Books, Fault>
    decreases |users|
  {
    if users == [] then Ok(b)
    else
      match SweepTx(b, groups, users[0])
      case Err(e) => Err(e)
      case Ok(after) => SweepAll(after, groups, users[1..])
  }

  /** Returns deposits, then reserves, then sweeps the users whose reserves were still open. */
  function CompleteTx(b: Books, groups: seq<Group>, g: nat, grp: Group): Result<Local, Fault>
    requires g < |groups|
  {
    match ReturnDepositsFrom(b, g, grp, 0)
    case Err(e) => Err(e)
    case Ok(d) =>
      match CloseReservesFrom(d.books, g, d.grp, 0)
      case Err(e) => Err(e)
      case Ok(c) =>
        match SweepAll(c.books, groups[g := c.grp], OpenUsers(d.grp.reserves))
        case Err(e) => Err(e)
        case Ok(after) => Ok(Local(after, c.grp))
  }

  /** The whole finalization transaction of group `g` among `groups`. */
  function FinalizeTx(cfg: ReserveConfig, b: Books, groups: seq<Group>, g: nat, k: nat): Result<Local, Fault>
    requires g < |groups|
  {
    match AllocateTx(cfg, b, g, groups[g], k)
    case Err(e) => Err(e)
    case Ok(l) => if l.grp.status != Completed then Ok(l) else CompleteTx(l.books, groups, g, l.grp)
  }

  // ---- What a payment leaves alone -------------------------------------------------------------

  /** An accepted payment counts one day; reserves keep user, cycle and use, everything else stays. */
  lemma PaymentShape(cfg: ReserveConfig, b: Books, g: nat, grp: Group, k: nat, i: nat, refSeen: bool)
    requires SettleTx(cfg, b, g, grp, k, i, refSeen).Ok?
    ensures HasContribution(grp, k, i) && grp.status == Active
    ensures var next := SettleTx(cfg, b, g, grp, k, i, refSeen).value.grp;
      && next == grp.(cycles := Counted(grp, k, i).cycles, payments := next.payments, reserves := next.reserves)
      && |next.reserves| == |grp.reserves|
      && forall r :: 0 <= r < |grp.reserves| ==>
           && next.reserves[r].user == grp.reserves[r].user && next.reserves[r].cycle == grp.reserves[r].cycle
           && next.reserves[r].usedForDefault == grp.reserves[r].usedForDefault
  {
    hide Post, Transfer;
  }

  // ---- What a completion leaves alone ----------------------------------------------------------

  predicate MemberSettled(m: Member, next: Member) {
    next == m || (m.deposit == Held && next == m.(deposit := Returned))
  }

  predicate ReserveSettled(row: Reserve, next: Reserve) {
    next == row || (row.status == Open && next == FullyReleased(row, if row.remaining > 0 then row.remaining else 0))
  }

  /** A completion changes nothing but held deposits and open reserves. */
  ghost predicate Completes(grp: Group, next: Group) {
    && next == grp.(members := next.members, reserves := next.reserves)
    && |next.members| == |grp.members| && |next.reserves| == |grp.reserves|
    && (forall i :: 0 <= i < |grp.members| ==> MemberSettled(grp.members[i], next.members[i]))
    && (forall r :: 0 <= r < |grp.reserves| ==> ReserveSettled(grp.reserves[r], next.reserves[r]))
  }

  lemma {:induction false} ReturnsComplete(b: Books, g: nat, grp: Group, i: nat)
    requires ReturnDepositsFrom(b, g, grp, i).Ok?
    ensures var next := ReturnDepositsFrom(b, g, grp, i).value.grp;
      next == grp.(members := next.members) && Completes(grp, next)
      && forall j :: 0 <= j < i && j < |grp.members| ==> next.members[j] == grp.members[j]
    decreases |grp.members| - i
  {
    if i < |grp.members| {
      var l := ReturnDeposit(b, g, grp, i).value;
      ReturnsComplete(l.books, g, l.grp, i + 1);
    }
  }

  lemma {:induction false} ClosesComplete(b: Books, g: nat, grp: Group, r: nat)
    requires CloseReservesFrom(b, g, grp, r).Ok?
    ensures var next := CloseReservesFrom(b, g, grp, r).value.grp;
      next == grp.(reserves := next.reserves) && Completes(grp, next)
      && forall q :: 0 <= q < r && q < |grp.reserves| ==> next.reserves[q] == grp.reserves[q]
    decreases |grp.reserves| - r
  {
    hide BooksOk, Post;
    if r < |grp.reserves| {
      var l := CloseReserve(b, g, grp, r).value;
      ClosesComplete(l.books, g, l.grp, r + 1);
    }
  }

  lemma CompletionShape(b: Books, groups: seq<Group>, g: nat, grp: Group)
    requires g < |groups| && CompleteTx(b, groups, g, grp).Ok?
    ensures Completes(grp, CompleteTx(b, groups, g, grp).value.grp)
  {
    ReturnsComplete(b, g, grp, 0);
    var d := ReturnDepositsFrom(b, g, grp, 0).value;
    ClosesComplete(d.books, g, d.grp, 0);
  }

  /** An accepted finalization is the allocation, and the completion that may follow. */
  lemma FinalizationShape(cfg: ReserveConfig, b: Books, groups: seq<Group>, g: nat, k: nat)
    requires g < |groups| && FinalizeTx(cfg, b, groups, g, k).Ok?
    ensures AllocateTx(cfg, b, g, groups[g], k).Ok?
    ensures var grp := AllocateTx(cfg, b, g, groups[g], k).value.grp;
      var next := FinalizeTx(cfg, b, groups, g, k).value.grp;
      next == grp || (grp.status == Completed && Completes(grp, next))
  {
    hide AllocateTx, ReturnDepositsFrom, CloseReservesFrom;
    var l := AllocateTx(cfg, b, g, groups[g], k).value;
    if l.grp.status == Completed { CompletionShape(l.books, groups, g, l.grp); }
  }
}
