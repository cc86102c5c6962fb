/** What stays true of one group's rows, and of the keys it has used, through every transaction. */
module RowInvariants {
  import opened Wrappers
  import opened Accounts
  import opened Ledger
  import opened Calculations
  import opened Preview
  import opened ReserveMath
  import opened Rows
  import opened Engine
  import opened Accounting

  // ---- The invariant ---------------------------------------------------------------------------

  /** What one member owes for one cycle; also the security deposit of a CYCLE group. */
  function Obligation(t: Terms): int { t.perDay * MemberCyclePaymentDays(t) }

  ghost predicate TermsOk(t: Terms) {
    && t.perDay >= 1 && 5 <= t.slots <= 250 && 1 <= t.days <= 366
    && (t.mode == Daily ==> t.days == 1)
    && 200 <= t.marginBps <= 2000
  }

  function CycleOf(t: Terms): CycleSummary {
    var r := SummarizeCycle(t.perDay, t.slots, t.marginBps, MemberCyclePaymentDays(t));
    if r.Ok? then r.value else CycleSummary(0, 0, 0, 0, 0)
  }

  /** How far the group has come. */
  ghost predicate PhaseOk(grp: Group) {
    && |grp.members| <= grp.terms.slots
    && |grp.earnings| == |grp.payouts|
    && match grp.status
       case Draft => grp.cycles == [] && grp.payouts == [] && grp.reserves == [] && grp.covers == []
       case Active =>
         && |grp.members| == grp.terms.slots && 1 <= grp.currentCycle <= grp.terms.slots
         && |grp.cycles| == grp.currentCycle && |grp.payouts| == grp.currentCycle - 1
       case Completed =>
         |grp.members| == grp.terms.slots == grp.currentCycle == |grp.cycles| == |grp.payouts|
  }

  /** Deposits follow the mode; a defaulted member has none left. */
  ghost predicate MemberOk(t: Terms, status: GroupStatus, m: Member) {
    && (t.mode == Daily ==> m.deposit == NotRequired && m.depositAmount == 0 && m.standing != Defaulted)
    && (t.mode == Cycle ==> m.deposit != NotRequired && m.depositAmount == Obligation(t))
    && (m.standing == Defaulted ==> m.deposit == Forfeited)
    && (m.deposit == Returned ==> status == Completed)
  }

  ghost predicate MembersOk(grp: Group) {
    && (forall i :: 0 <= i < |grp.members| ==>
          MemberOk(grp.terms, grp.status, grp.members[i]) && grp.members[i].turnOrder == i + 1)
    && (forall i, j :: 0 <= i < j < |grp.members| ==> grp.members[i].user != grp.members[j].user)
  }

  ghost predicate ContributionOk(t: Terms, c: Contribution) {
    && c.amount == Obligation(t) && c.expectedDays == MemberCyclePaymentDays(t)
    && c.paidDays <= c.expectedDays
    && (c.status == Paid <==> c.paidDays == c.expectedDays)
  }

  ghost predicate CycleRowOk(t: Terms, n: nat, row: seq<Contribution>) {
    |row| == n && forall i :: 0 <= i < |row| ==> ContributionOk(t, row[i])
  }

  ghost predicate CyclesOk(grp: Group) {
    forall k :: 0 <= k < |grp.cycles| ==> CycleRowOk(grp.terms, |grp.members|, grp.cycles[k])
  }

  ghost predicate PayoutOk(grp: Group, p: nat)
    requires p < |grp.payouts| && |grp.earnings| == |grp.payouts|
  {
    var summary := CycleOf(grp.terms);
    && grp.payouts[p].cycle == p + 1
    && grp.payouts[p].amount == summary.netAfterMargin
    && IsMember(grp, grp.payouts[p].recipient)
    && grp.earnings[p] == Earning(p + 1, summary.serviceMargin, 0, summary.serviceMargin)
  }

  ghost predicate PayoutsOk(grp: Group) {
    |grp.earnings| == |grp.payouts| && forall p: nat :: p < |grp.payouts| ==> PayoutOk(grp, p)
  }

  /**
   * An open reserve holds exactly what was not released or used; a closed one holds nothing, and
   * can only have been overdrawn if it once covered a default.
   */
  ghost predicate ReserveOk(grp: Group, row: Reserve) {
    && row.original > 0 && row.released >= 0 && row.usedForDefault >= 0
    && 1 <= row.cycle <= |grp.payouts| && row.user == grp.payouts[row.cycle - 1].recipient
    && 1 <= row.cycle < grp.terms.slots
    && row.units == (grp.terms.slots - row.cycle) * grp.terms.days
    && row.unitsReleased <= row.units
    && (row.status == Open ==> row.remaining > 0 && row.remaining == Residual(row) && row.unitsReleased < row.units)
    && (row.status == Closed ==> row.remaining == 0 && Residual(row) <= 0)
    && (row.usedForDefault == 0 ==>
          && Residual(row) >= 0
          && (row.status == Open ==> row.remaining == row.original - row.unitsReleased * (row.original / row.units)))
  }

  ghost predicate ReservesOk(grp: Group) {
    forall r :: 0 <= r < |grp.reserves| ==> ReserveOk(grp, grp.reserves[r])
  }

  /** A cycle was finalized without a member's contribution only if that member lost the deposit. */
  ghost predicate ArrearsOk(grp: Group) {
    && |grp.payouts| <= |grp.cycles|
    && forall k, i :: 0 <= k < |grp.payouts| && 0 <= i < |grp.cycles[k]| && i < |grp.members| ==>
         grp.cycles[k][i].status == Paid || grp.members[i].deposit == Forfeited
  }

  ghost predicate CoversOk(grp: Group) {
    forall j :: 0 <= j < |grp.covers| ==> grp.covers[j].covered > 0
  }

  ghost predicate RowsOk(grp: Group) {
    && TermsOk(grp.terms) && PhaseOk(grp) && MembersOk(grp) && CyclesOk(grp)
    && PayoutsOk(grp) && ReservesOk(grp) && ArrearsOk(grp) && CoversOk(grp)
  }

  /** A key this group has used stands for something its rows have already recorded. */
  ghost predicate Spent(grp: Group, key: Key) {
    match key
    case DepositHold(_, i) => i < |grp.members|
    case DepositForfeit(_, i) => i < |grp.members| && grp.members[i].deposit == Forfeited
    case DepositRelease(_, i) => i < |grp.members| && grp.members[i].deposit == Returned
    case Inflow(_, k, i, day) => HasContribution(grp, k, i) && day <= ContributionAt(grp, k, i).paidDays
    case UnitRelease(_, _, k, i, day) => HasContribution(grp, k, i) && day <= ContributionAt(grp, k, i).paidDays
    case DefaultCover(_, _, k, i) => HasContribution(grp, k, i) &&
      (k < |grp.cycles| || ContributionAt(grp, k, i).status == Paid || grp.members[i].standing == Defaulted)
    case Allocation(_, k) => 1 <= k <= |grp.payouts|
    case FinalRelease(_, r) => r < |grp.reserves| && grp.reserves[r].status == Closed
    case OrphanSweep(_) => false
  }

  ghost predicate KeysSpent(b: Books, g: nat, grp: Group) {
    forall key :: key in b.keys && OwnerOf(key) == Some(g) ==> Spent(grp, key)
  }

  ghost predicate GroupOk(b: Books, g: nat, grp: Group) {
    RowsOk(grp) && KeysSpent(b, g, grp) && Reconciled(b, g, grp)
  }

  // ---- Progress of rows --------------------------------------------------------------------------

  ghost predicate ContributionAdvances(grp: Group, next: Group, k: nat, i: nat)
    requires HasContribution(grp, k, i)
  {
    && HasContribution(next, k, i)
    && ContributionAt(grp, k, i).paidDays <= ContributionAt(next, k, i).paidDays
    && (ContributionAt(grp, k, i).status == Paid ==> ContributionAt(next, k, i).status == Paid)
    && (k == |next.cycles| && grp.members[i].standing == Defaulted ==>
          next.members[i].standing == Defaulted || ContributionAt(next, k, i).status == Paid)
  }

  /** Everything `Spent` looks at only ever moves forward. */
  ghost predicate Advances(grp: Group, next: Group) {
    && |grp.members| <= |next.members| && |grp.cycles| <= |next.cycles|
    && |grp.payouts| <= |next.payouts| && |grp.reserves| <= |next.reserves|
    && (forall i :: 0 <= i < |grp.members| ==>
          && (grp.members[i].deposit == Forfeited ==> next.members[i].deposit == Forfeited)
          && (grp.members[i].deposit == Returned ==> next.members[i].deposit == Returned))
    && (forall k: nat, i: nat :: HasContribution(grp, k, i) ==> ContributionAdvances(grp, next, k, i))
    && (forall r :: 0 <= r < |grp.reserves| && grp.reserves[r].status == Closed ==> next.reserves[r].status == Closed)
  }

  lemma AdvanceKeepsSpent(b: Books, g: nat, grp: Group, next: Group)
    requires KeysSpent(b, g, grp) && Advances(grp, next)
    ensures KeysSpent(b, g, next)
  {
    forall key | key in b.keys && OwnerOf(key) == Some(g) ensures Spent(next, key) {
      assert Spent(grp, key);
    }
  }

  /** Posting under a key that the new rows record keeps the correspondence. */
  lemma NewKeySpent(b: Books, after: Books, g: nat, grp: Group, next: Group, key: Key)
    requires KeysSpent(b, g, grp) && Advances(grp, next)
    requires after.keys == b.keys + {key} && Spent(next, key)
    ensures KeysSpent(after, g, next)
  {
    AdvanceKeepsSpent(b, g, grp, next);
  }

  lemma TermsFacts(t: Terms)
    requires TermsOk(t)
    ensures MemberCyclePaymentDays(t) == t.days
    ensures Obligation(t) == t.perDay * t.days >= 1
    ensures DepositRequiredAmount(t) == if t.mode == Cycle then Obligation(t) else 0
    ensures var s := CycleOf(t);
      && SummarizeCycle(t.perDay, t.slots, t.marginBps, MemberCyclePaymentDays(t)) == Ok(s)
      && s.gross == t.slots * Obligation(t) > 0
      && s.netAfterMargin + s.serviceMargin == s.gross && s.platformShare == s.serviceMargin && s.adminShare == 0
      && s.netAfterMargin > 0 && s.serviceMargin >= 0
      && (s.serviceMargin > 0 <==> s.gross * t.marginBps >= BPS_DENOMINATOR)
  {
    MulOrder(1, t.perDay, t.days);
    SummaryConserves(t.perDay, t.slots, t.marginBps, MemberCyclePaymentDays(t));
    assert t.perDay * t.slots * t.days == t.slots * (t.perDay * t.days);
    MulOrder(1, Obligation(t), t.slots);
  }

  // ---- Join and activate -------------------------------------------------------------------------

  lemma {:induction false} TurnsCount(members: seq<Member>)
    requires forall i :: 0 <= i < |members| ==> members[i].turnOrder == i + 1
    ensures MaxTurnOrder(members) == |members|
  {
    if members != [] {
      TurnsCount(members[..|members| - 1]);
    }
  }

  lemma JoinKeepsRows(b: Books, g: nat, grp: Group, user: nat)
    requires RowsOk(grp) && JoinTx(b, g, grp, user).Ok?
    ensures var next := JoinTx(b, g, grp, user).value.grp;
      RowsOk(next) && Advances(grp, next) && |next.members| == |grp.members| + 1
  {
    TurnsCount(grp.members);
    TermsFacts(grp.terms);
    var next := JoinTx(b, g, grp, user).value.grp;
    assert grp.status == Draft;
    var m := next.members[|grp.members|];
    assert MemberOk(next.terms, next.status, m);
    assert m.turnOrder == |grp.members| + 1;
    assert forall i :: 0 <= i < |grp.members| ==> grp.members[i].user != user;
  }

  lemma JoinKeepsKeys(b: Books, g: nat, grp: Group, user: nat)
    requires RowsOk(grp) && KeysSpent(b, g, grp) && JoinTx(b, g, grp, user).Ok?
    ensures DepositHold(g, |grp.members|) !in b.keys
    ensures var l := JoinTx(b, g, grp, user).value; KeysSpent(l.books, g, l.grp)
  {
    hide GroupOk, RowsOk;
    JoinKeepsRows(b, g, grp, user);
    var l := JoinTx(b, g, grp, user).value;
    var key := DepositHold(g, |grp.members|);
    assert OwnerOf(key) == Some(g) && !Spent(grp, key);
    if l.books == b {
      AdvanceKeepsSpent(b, g, grp, l.grp);
    } else {
      NewKeySpent(b, l.books, g, grp, l.grp, key);
    }
  }

  lemma ActivateKeepsRows(grp: Group)
    requires RowsOk(grp) && ActivateTx(grp).Ok?
    ensures RowsOk(ActivateTx(grp).value) && Advances(grp, ActivateTx(grp).value)
  {
    TermsFacts(grp.terms);
  }

  // ---- Payment -----------------------------------------------------------------------------------

  /** Raising a contribution of the running cycle touches no finalized row. */
  lemma ContributionKeepsRows(grp: Group, k: nat, i: nat, c: Contribution)
    requires RowsOk(grp) && grp.status == Active && k == grp.currentCycle && HasContribution(grp, k, i)
    requires ContributionOk(grp.terms, c) && ContributionAt(grp, k, i).paidDays <= c.paidDays
    ensures RowsOk(WithContribution(grp, k, i, c)) && Advances(grp, WithContribution(grp, k, i, c))
  {
    var next := WithContribution(grp, k, i, c);
    assert CycleRowOk(grp.terms, |grp.members|, grp.cycles[k - 1]);
    assert CycleRowOk(grp.terms, |grp.members|, next.cycles[k - 1]);
    assert CyclesOk(next);
    SamePayouts(grp, next);
    assert ReservesOk(next) by {
      assert forall r :: 0 <= r < |grp.reserves| ==> ReserveOk(grp, grp.reserves[r]);
    }
    forall l: nat, j: nat | HasContribution(grp, l, j) ensures ContributionAdvances(grp, next, l, j) {
      assert CycleRowOk(grp.terms, |grp.members|, grp.cycles[l - 1]);
      assert ContributionOk(grp.terms, ContributionAt(grp, l, j));
    }
  }

  lemma SamePayouts(grp: Group, next: Group)
    requires PayoutsOk(grp) && next.payouts == grp.payouts && next.earnings == grp.earnings && next.terms == grp.terms
    requires |grp.members| <= |next.members|
    requires forall i :: 0 <= i < |grp.members| ==> next.members[i].user == grp.members[i].user
    ensures PayoutsOk(next)
  {
    forall p: nat | p < |next.payouts| ensures PayoutOk(next, p) {
      assert PayoutOk(grp, p);
      var i :| 0 <= i < |grp.members| && grp.members[i].user == grp.payouts[p].recipient;
      assert next.members[i].user == next.payouts[p].recipient;
    }
  }

  lemma OneMoreDayOk(t: Terms, c: Contribution)
    requires ContributionOk(t, c) && c.paidDays < c.expectedDays
    ensures ContributionOk(t, OneMoreDay(c))
  {
  }

  lemma CountedDayKeepsRows(grp: Group, k: nat, i: nat)
    requires RowsOk(grp) && PaymentFault(grp, k, i).None?
    ensures RowsOk(Counted(grp, k, i)) && Advances(grp, Counted(grp, k, i))
  {
    assert CycleRowOk(grp.terms, |grp.members|, grp.cycles[k - 1]);
    OneMoreDayOk(grp.terms, ContributionAt(grp, k, i));
    ContributionKeepsRows(grp, k, i, OneMoreDay(ContributionAt(grp, k, i)));
  }

  /** Payment rows are of no concern to the row invariant. */
  lemma PaymentsAside(grp: Group, payments: seq<Payment>, before: Group)
    requires RowsOk(grp) && Advances(before, grp)
    ensures RowsOk(grp.(payments := payments)) && Advances(before, grp.(payments := payments))
  {
    hide GroupOk, CycleOf;
    var next := grp.(payments := payments);
    SamePayouts(grp, next);
    assert forall r :: 0 <= r < |grp.reserves| ==> ReserveOk(grp, grp.reserves[r]);
    assert forall l: nat, j: nat :: HasContribution(before, l, j) ==> ContributionAdvances(before, grp, l, j);
  }

  lemma ClosedUnitRow(grp: Group, row: Reserve, amount: int)
    requires ReserveOk(grp, row) && row.status == Open
    requires amount == NextReserveReleaseMinor(row.original, row.remaining, row.units, row.unitsReleased) > 0
    ensures ReserveOk(grp, AfterUnit(row, amount))
    ensures Residual(AfterUnit(row, amount)) == row.remaining - amount
    ensures row.usedForDefault == 0 ==> amount <= row.remaining
  {
    var unit := row.original / row.units;
    var n := row.unitsReleased;
    assert (n + 1) * unit == n * unit + unit;
    if row.usedForDefault == 0 && n + 1 < row.units {
      DivBounds(row.original, row.units);
      DivOrder(0, row.original, row.units);
      MulOrder(n + 1, row.units, unit);
      MulOrder(n + 2, row.units, unit);
      assert (n + 2) * unit == (n + 1) * unit + unit;
    }
  }

  lemma ReserveRowKeepsRows(grp: Group, r: nat, row: Reserve)
    requires RowsOk(grp) && r < |grp.reserves| && ReserveOk(grp, row)
    requires grp.reserves[r].status == Closed ==> row.status == Closed
    requires grp.status != Draft
    ensures RowsOk(WithReserve(grp, r, row)) && Advances(grp, WithReserve(grp, r, row))
  {
    hide GroupOk, CycleOf;
    var next := WithReserve(grp, r, row);
    assert forall q :: 0 <= q < |next.reserves| && q != r ==> ReserveOk(grp, grp.reserves[q]);
    assert forall q :: 0 <= q < |next.reserves| ==> ReserveOk(next, next.reserves[q]);
    assert forall p: nat :: p < |grp.payouts| ==> PayoutOk(grp, p) ==> PayoutOk(next, p);
  }

  lemma ReleaseKeepsRows(cfg: ReserveConfig, b: Books, g: nat, grp: Group, k: nat, i: nat, day: nat)
    requires RowsOk(grp) && KeysSpent(b, g, grp) && grp.status == Active
    requires HasContribution(grp, k, i) && day <= ContributionAt(grp, k, i).paidDays
    requires ReleaseUnit(cfg, b, g, grp, k, i, day).Ok?
    ensures var l := ReleaseUnit(cfg, b, g, grp, k, i, day).value;
      RowsOk(l.grp) && Advances(grp, l.grp) && KeysSpent(l.books, g, l.grp)
  {
    hide GroupOk;
    var user := grp.members[i].user;
    var (r, amount) := UnitDue(cfg, grp, user, k);
    var l := ReleaseUnit(cfg, b, g, grp, k, i, day).value;
    if amount > 0 && l.books != b {
      ClosedUnitRow(grp, grp.reserves[r], amount);
      ReserveRowKeepsRows(grp, r, AfterUnit(grp.reserves[r], amount));
      assert Spent(l.grp, UnitRelease(g, r, k, i, day));
      NewKeySpent(b, l.books, g, grp, l.grp, UnitRelease(g, r, k, i, day));
    }
  }

  lemma AdvancesTransitive(a: Group, b: Group, c: Group)
    requires Advances(a, b) && Advances(b, c)
    requires |b.cycles| == |c.cycles|
    ensures Advances(a, c)
  {
    forall k: nat, i: nat | HasContribution(a, k, i) ensures ContributionAdvances(a, c, k, i) {
      assert ContributionAdvances(a, b, k, i) && ContributionAdvances(b, c, k, i);
    }
  }

  lemma CollectedKeepsRows(b: Books, g: nat, grp: Group, k: nat, i: nat)
    requires RowsOk(grp) && KeysSpent(b, g, grp) && PaymentFault(grp, k, i).None?
    ensures var key := Inflow(g, k, i, ContributionAt(grp, k, i).paidDays + 1);
      && key !in b.keys
      && RowsOk(Collected(grp, k, i)) && Advances(grp, Collected(grp, k, i))
      && var r := Post(b, key, InflowLines(g, grp.terms.perDay));
      && (r.Posted? ==> KeysSpent(r.books, g, Collected(grp, k, i)))
  {
    hide GroupOk, RowsOk;
    var key := Inflow(g, k, i, ContributionAt(grp, k, i).paidDays + 1);
    assert OwnerOf(key) == Some(g) && !Spent(grp, key);
    CountedDayKeepsRows(grp, k, i);
    var paid := Collected(grp, k, i);
    PaymentsAside(Counted(grp, k, i), paid.payments, grp);
    assert Spent(paid, key);
    if Post(b, key, InflowLines(g, grp.terms.perDay)).Posted? {
      NewKeySpent(b, Post(b, key, InflowLines(g, grp.terms.perDay)).books, g, grp, paid, key);
    }
  }

  lemma CollectKeepsRows(cfg: ReserveConfig, b: Books, g: nat, grp: Group, k: nat, i: nat)
    requires RowsOk(grp) && KeysSpent(b, g, grp) && SettleTx(cfg, b, g, grp, k, i, false).Ok?
    ensures var l := SettleTx(cfg, b, g, grp, k, i, false).value;
      RowsOk(l.grp) && Advances(grp, l.grp) && KeysSpent(l.books, g, l.grp)
  {
    hide GroupOk, RowsOk;
    CollectedKeepsRows(b, g, grp, k, i);
    SettleIsInflowThenRelease(cfg, b, g, grp, k, i);
    var day, paid := ContributionAt(grp, k, i).paidDays + 1, Collected(grp, k, i);
    var after := Post(b, Inflow(g, k, i, day), InflowLines(g, grp.terms.perDay)).books;
    ReleaseKeepsRows(cfg, after, g, paid, k, i, day);
    AdvancesTransitive(grp, paid, ReleaseUnit(cfg, after, g, paid, k, i, day).value.grp);
  }

  lemma SettleKeepsRows(cfg: ReserveConfig, b: Books, g: nat, grp: Group, k: nat, i: nat, refSeen: bool)
    requires RowsOk(grp) && KeysSpent(b, g, grp) && SettleTx(cfg, b, g, grp, k, i, refSeen).Ok?
    ensures var l := SettleTx(cfg, b, g, grp, k, i, refSeen).value;
      RowsOk(l.grp) && Advances(grp, l.grp) && KeysSpent(l.books, g, l.grp)
    ensures Inflow(g, k, i, ContributionAt(grp, k, i).paidDays + 1) !in b.keys
  {
    hide GroupOk, RowsOk;
    CollectedKeepsRows(b, g, grp, k, i);
    if refSeen {
      CountedDayKeepsRows(grp, k, i);
      AdvanceKeepsSpent(b, g, grp, Counted(grp, k, i));
    } else {
      CollectKeepsRows(cfg, b, g, grp, k, i);
    }
  }
}
