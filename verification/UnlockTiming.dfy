/** When a guarantee reserve unlocks: one unit per day paid after the payout, the last with the last day owed. */
module UnlockTiming {
  import opened Wrappers
  import opened Accounts
  import opened Sums
  import opened Ledger
  import opened Preview
  import opened ReserveMath
  import opened Rows
  import opened Engine
  import opened RowInvariants
  import opened GroupSafety
  import opened Protocol
  import opened Solvency
  import opened PoolSolvency
  import opened QueueSafety

  /** Days member `i` has paid in the cycles after cycle `k`. */
  function PaidSince(cycles: seq<seq<Contribution>>, k: nat, i: nat): int {
    if k <= |cycles| then SumOf(cycles[k..], DaysAt(i)) else 0
  }

  /** A reserve with a pesewa for every unit counts the payments of its owner, member `i`; a smaller one waits. */
  ghost predicate UnlockRow(cycles: seq<seq<Contribution>>, row: Reserve, i: nat) {
    && row.cycle >= 1
    && (row.original >= row.units ==>
          && row.unitsReleased == PaidSince(cycles, row.cycle, i)
          && (row.status == Closed ==> row.unitsReleased == row.units))
    && (row.original < row.units && row.units > 1 ==> row.unitsReleased == 0 && row.status == Open)
  }

  ghost predicate OnePayout(grp: Group, user: nat) {
    forall p, q :: 0 <= p < q < |grp.payouts| && grp.payouts[p].recipient == user ==> grp.payouts[q].recipient != user
  }

  /** Never drawn on for a default, and the only reserve its owner can have in the group. */
  ghost predicate Steady(grp: Group, row: Reserve) { row.usedForDefault == 0 && OnePayout(grp, row.user) }

  ghost predicate IsOwner(grp: Group, row: Reserve, i: nat) {
    i < |grp.members| && grp.members[i].user == row.user
  }

  /** Whatever others in the group do, steady reserves count their owners' payments. */
  ghost predicate UnlockOk(grp: Group) {
    && (forall q, r :: 0 <= q < r < |grp.reserves| ==> grp.reserves[q].cycle < grp.reserves[r].cycle)
    && (grp.status == Active ==>
          forall r: nat, i: nat :: r < |grp.reserves| && IsOwner(grp, grp.reserves[r], i)
            && Steady(grp, grp.reserves[r])
            ==> UnlockRow(grp.cycles, grp.reserves[r], i))
  }

  lemma SameUnlock(grp: Group, next: Group)
    requires UnlockOk(grp) && next.cycles == grp.cycles && next.reserves == grp.reserves && next.payouts == grp.payouts
    requires next.status == grp.status || next.status != Active || grp.reserves == []
    requires |next.members| == |grp.members|
    requires forall i :: 0 <= i < |grp.members| ==> grp.members[i].user == next.members[i].user
    ensures UnlockOk(next)
  {
    forall r: nat, i: nat | next.status == Active && r < |next.reserves| && IsOwner(next, next.reserves[r], i)
      && Steady(next, next.reserves[r])
      ensures UnlockRow(next.cycles, next.reserves[r], i)
    {
      assert IsOwner(grp, grp.reserves[r], i) && Steady(grp, grp.reserves[r]);
    }
  }

  /** The owner of a steady reserve has no other one. */
  lemma SteadyIsOnly(grp: Group, r: nat, q: nat)
    requires RowsOk(grp) && UnlockOk(grp) && r < |grp.reserves| && q < |grp.reserves|
    requires Steady(grp, grp.reserves[r]) && grp.reserves[q].user == grp.reserves[r].user
    ensures q == r
  {
    assert ReserveOk(grp, grp.reserves[r]) && ReserveOk(grp, grp.reserves[q]);
    var x, y := grp.reserves[r].cycle - 1, grp.reserves[q].cycle - 1;
    assert grp.payouts[x].recipient == grp.payouts[y].recipient == grp.reserves[r].user;
    assert x == y;
  }

  // ---- One payment ----------------------------------------------------------------------------------------

  lemma PaidSinceBump(cycles: seq<seq<Contribution>>, k: nat, i: nat, c: Contribution, since: nat, j: nat)
    requires 1 <= k <= |cycles| && i < |cycles[k - 1]| && since < k
    ensures PaidSince(cycles[k - 1 := cycles[k - 1][i := c]], since, j) == PaidSince(cycles, since, j)
      + if i == j then c.paidDays - cycles[k - 1][i].paidDays else 0
  {
    var row := cycles[k - 1][i := c];
    assert cycles[k - 1 := row][since..] == cycles[since..][k - 1 - since := row];
    SumUpdate(cycles[since..], k - 1 - since, row, DaysAt(j));
  }

  lemma {:induction false} DaysAtMost(t: Terms, n: nat, cycles: seq<seq<Contribution>>, i: nat)
    requires i < n && forall k :: 0 <= k < |cycles| ==> CycleRowOk(t, n, cycles[k])
    ensures SumOf(cycles, DaysAt(i)) <= |cycles| * MemberCyclePaymentDays(t)
  {
    if cycles != [] {
      var front, last := cycles[..|cycles| - 1], cycles[|cycles| - 1];
      DaysAtMost(t, n, front, i);
      assert CycleRowOk(t, n, last) && ContributionOk(t, last[i]);
      OneMoreRow(|front|, MemberCyclePaymentDays(t));
    }
  }

  lemma OneMoreRow(rows: int, d: int)
    ensures (rows + 1) * d == rows * d + d
  {
  }

  lemma ShortOfAll(rows: int, all: int, d: int, front: int, last: int)
    requires rows <= all && d >= 0 && front <= (rows - 1) * d && last < d
    ensures front + last < all * d
  {
    MulOrder(rows, all, d);
    OneMoreRow(rows - 1, d);
  }

  /** While the running cycle is unpaid, fewer days than units have been paid since the payout. */
  lemma OwesMoreDays(grp: Group, i: nat, since: nat)
    requires RowsOk(grp) && grp.status == Active && since < grp.currentCycle
      && HasContribution(grp, grp.currentCycle, i)
    requires ContributionAt(grp, grp.currentCycle, i).status != Paid
    ensures PaidSince(grp.cycles, since, i) < (grp.terms.slots - since) * grp.terms.days
  {
    var tail := grp.cycles[since..];
    var front, last := tail[..|tail| - 1], tail[|tail| - 1];
    TermsFacts(grp.terms);
    forall l | 0 <= l < |tail| ensures CycleRowOk(grp.terms, |grp.members|, tail[l]) {
      assert tail[l] == grp.cycles[since + l];
    }
    DaysAtMost(grp.terms, |grp.members|, front, i);
    assert last == grp.cycles[grp.currentCycle - 1] && ContributionOk(grp.terms, last[i]);
    ShortOfAll(|tail|, grp.terms.slots - since, grp.terms.days, SumOf(front, DaysAt(i)), last[i].paidDays);
  }

  /** A unit release of a never-used reserve closes it with the last unit and not before. */
  lemma UnitCloses(grp: Group, row: Reserve)
    requires ReserveOk(grp, row) && row.status == Open && row.usedForDefault == 0 && row.original >= row.units
    ensures var amount := NextReserveReleaseMinor(row.original, row.remaining, row.units, row.unitsReleased);
      && amount > 0
      && (AfterUnit(row, amount).status == Closed <==> row.unitsReleased + 1 == row.units)
  {
    var unit, n := row.original / row.units, row.unitsReleased;
    DivBounds(row.original, row.units);
    if unit < 1 { MulOrder(unit, 0, row.units); }
    if n + 1 < row.units {
      MulOrder(n + 2, row.units, unit);
      assert (n + 2) * unit == n * unit + unit + unit;
    }
  }

  /** The rows after an accepted payment: the day, and the unit if one is due. */
  function SettledRows(cfg: ReserveConfig, grp: Group, k: nat, i: nat): Group
    requires HasContribution(grp, k, i)
  {
    var (r, amount) := UnitDue(cfg, grp, grp.members[i].user, k);
    if amount > 0 then WithReserve(Collected(grp, k, i), r, AfterUnit(grp.reserves[r], amount))
    else Collected(grp, k, i)
  }

  /** Under a fresh key a release takes the unit out of the row. */
  lemma FreshUnitReleased(cfg: ReserveConfig, b: Books, g: nat, grp: Group, k: nat, i: nat, day: nat)
    requires i < |grp.members| && ReleaseUnit(cfg, b, g, grp, k, i, day).Ok?
    requires UnitRelease(g, UnitDue(cfg, grp, grp.members[i].user, k).0, k, i, day) !in b.keys
    ensures var (r, amount) := UnitDue(cfg, grp, grp.members[i].user, k);
      ReleaseUnit(cfg, b, g, grp, k, i, day).value.grp
      == if amount > 0 then WithReserve(grp, r, AfterUnit(grp.reserves[r], amount)) else grp
  {
    hide AfterUnit, FirstFault, Settle;
  }

  /** A due unit is really released: its key is fresh, so an accepted payment moved the row. */
  lemma SettleShape(cfg: ReserveConfig, b: Books, g: nat, grp: Group, k: nat, i: nat)
    requires GroupOk(b, g, grp) && SettleTx(cfg, b, g, grp, k, i, false).Ok?
    ensures SettleTx(cfg, b, g, grp, k, i, false).value.grp == SettledRows(cfg, grp, k, i)
  {
    hide RowsOk, KeysSpent, ReleaseUnit, UnitDue, AfterUnit, Post, InflowLines;
    var day := ContributionAt(grp, k, i).paidDays + 1;
    var (r, amount) := UnitDue(cfg, grp, grp.members[i].user, k);
    PaymentKeysFresh(b, g, grp, k, i);
    SettleIsInflowThenRelease(cfg, b, g, grp, k, i);
    SameUnitDue(cfg, grp, Collected(grp, k, i), grp.members[i].user, k);
    FreshUnitReleased(cfg, Post(b, Inflow(g, k, i, day), InflowLines(g, grp.terms.perDay)).books, g,
                      Collected(grp, k, i), k, i, day);
  }

  /** While the payer still owes days, the payer's reserve stays open. */
  lemma OwnStaysOpen(grp: Group, k: nat, i: nat, row: Reserve)
    requires RowsOk(grp) && PaymentFault(grp, k, i).None?
    requires ReserveOk(grp, row) && UnlockRow(grp.cycles, row, i)
    ensures row.cycle < k && row.status == Open
  {
    OwesMoreDays(grp, i, row.cycle);
    if row.units == 1 {
      assert row.original >= row.units;
    }
  }

  lemma OwnIsFirst(grp: Group, i: nat, r: nat)
    requires RowsOk(grp) && UnlockOk(grp) && r < |grp.reserves| && IsOwner(grp, grp.reserves[r], i)
    requires Steady(grp, grp.reserves[r]) && grp.reserves[r].status == Open
    ensures FirstOpen(grp.reserves, grp.members[i].user) == Some(r)
  {
    hide RowsOk;
    SteadyIsOnly(grp, r, FirstOpen(grp.reserves, grp.members[i].user).value);
  }

  /** What the payment does to the payer's own reserve. */
  lemma OwnRowUnlocks(cfg: ReserveConfig, grp: Group, k: nat, i: nat, r: nat)
    requires cfg.enabled && HasContribution(grp, k, i) && r < |grp.reserves|
    requires ReserveOk(grp, grp.reserves[r]) && grp.reserves[r].usedForDefault == 0 && grp.reserves[r].cycle < k
    requires FirstOpen(grp.reserves, grp.members[i].user) == Some(r)
    requires grp.reserves[r].original < grp.reserves[r].units && grp.reserves[r].units > 1 ==>
      grp.reserves[r].unitsReleased == 0
    ensures var row, next := grp.reserves[r], SettledRows(cfg, grp, k, i).reserves[r];
      && next.cycle == row.cycle && next.original == row.original && next.units == row.units
      && (row.original >= row.units ==>
            next.unitsReleased == row.unitsReleased + 1 && (next.status == Closed ==> next.unitsReleased == row.units))
      && (row.original < row.units && row.units > 1 ==> next == row)
  {
    var row := grp.reserves[r];
    if row.original >= row.units {
      UnitCloses(grp, row);
    } else {
      SmallReserveWaits(row.original, row.units, row.unitsReleased);
    }
  }

  lemma OtherRowStays(cfg: ReserveConfig, grp: Group, k: nat, i: nat, r: nat)
    requires HasContribution(grp, k, i) && r < |grp.reserves| && grp.reserves[r].user != grp.members[i].user
    ensures SettledRows(cfg, grp, k, i).reserves[r] == grp.reserves[r]
  {
  }

  /** A counted day advances exactly the payer's own count. */
  lemma RowAfterDay(grp: Group, k: nat, i: nat, row: Reserve, next: Reserve, owner: nat)
    requires PaymentFault(grp, k, i).None? && UnlockRow(grp.cycles, row, owner) && row.cycle < k
    requires next.cycle == row.cycle && next.original == row.original && next.units == row.units
    requires owner != i ==> next == row
    requires owner == i && row.original >= row.units ==>
      next.unitsReleased == row.unitsReleased + 1 && (next.status == Closed ==> next.unitsReleased == row.units)
    requires row.original < row.units && row.units > 1 ==> next == row
    ensures UnlockRow(Counted(grp, k, i).cycles, next, owner)
  {
    PaidSinceBump(grp.cycles, k, i, OneMoreDay(ContributionAt(grp, k, i)), row.cycle, owner);
  }

  lemma PayerRowUnlocks(cfg: ReserveConfig, grp: Group, k: nat, i: nat, r: nat)
    requires cfg.enabled && RowsOk(grp) && UnlockOk(grp) && PaymentFault(grp, k, i).None?
    requires r < |grp.reserves| && IsOwner(grp, grp.reserves[r], i) && Steady(grp, grp.reserves[r])
    ensures UnlockRow(Counted(grp, k, i).cycles, SettledRows(cfg, grp, k, i).reserves[r], i)
  {
    hide Step;
    var row := grp.reserves[r];
    assert UnlockRow(grp.cycles, row, i) && ReserveOk(grp, row);
    OwnStaysOpen(grp, k, i, row);
    OwnIsFirst(grp, i, r);
    OwnRowUnlocks(cfg, grp, k, i, r);
    RowAfterDay(grp, k, i, row, SettledRows(cfg, grp, k, i).reserves[r], i);
  }

  /** The payer's own reserve releases one unit with the day; nobody else's moves. */
  lemma PaidRowUnlocks(cfg: ReserveConfig, grp: Group, k: nat, i: nat, r: nat, owner: nat)
    requires cfg.enabled && RowsOk(grp) && UnlockOk(grp) && PaymentFault(grp, k, i).None?
    requires r < |grp.reserves| && IsOwner(grp, grp.reserves[r], owner) && Steady(grp, grp.reserves[r])
    ensures UnlockRow(Counted(grp, k, i).cycles, SettledRows(cfg, grp, k, i).reserves[r], owner)
  {
    if owner == i {
      PayerRowUnlocks(cfg, grp, k, i, r);
    } else {
      assert UnlockRow(grp.cycles, grp.reserves[r], owner) && ReserveOk(grp, grp.reserves[r]);
      UsersDiffer(grp, owner, i);
      OtherRowStays(cfg, grp, k, i, r);
      RowAfterDay(grp, k, i, grp.reserves[r], grp.reserves[r], owner);
    }
  }

  /** A payment changes neither cycle nor use nor owner of any reserve. */
  lemma SettledHeads(cfg: ReserveConfig, grp: Group, k: nat, i: nat, r: nat)
    requires HasContribution(grp, k, i) && r < |grp.reserves|
    ensures var row, next := grp.reserves[r], SettledRows(cfg, grp, k, i).reserves[r];
      next.cycle == row.cycle && next.user == row.user && next.usedForDefault == row.usedForDefault
  {
  }

  lemma PayKeepsUnlock(cfg: ReserveConfig, b: Books, g: nat, grp: Group, k: nat, i: nat)
    requires GroupOk(b, g, grp) && UnlockOk(grp) && (!cfg.enabled ==> grp.reserves == [])
    requires SettleTx(cfg, b, g, grp, k, i, false).Ok?
    ensures UnlockOk(SettleTx(cfg, b, g, grp, k, i, false).value.grp)
    ensures |SettleTx(cfg, b, g, grp, k, i, false).value.grp.reserves| == |grp.reserves|
  {
    hide RowsOk;
    SettleShape(cfg, b, g, grp, k, i);
    var next := SettledRows(cfg, grp, k, i);
    assert next.members == grp.members && next.cycles == Counted(grp, k, i).cycles && next.payouts == grp.payouts;
    forall r: nat | r < |grp.reserves| ensures next.reserves[r].cycle == grp.reserves[r].cycle {
      SettledHeads(cfg, grp, k, i, r);
    }
    forall r: nat, owner: nat | r < |next.reserves| && IsOwner(next, next.reserves[r], owner)
      && Steady(next, next.reserves[r])
      ensures UnlockRow(next.cycles, next.reserves[r], owner)
    {
      SettledHeads(cfg, grp, k, i, r);
      assert IsOwner(grp, grp.reserves[r], owner) && Steady(grp, grp.reserves[r]);
      PaidRowUnlocks(cfg, grp, k, i, r, owner);
    }
  }

  // ---- Defaults and covers -----------------------------------------------------------------------------------

  /** A cover draws on one reserve, which is no longer steady, and settles at most its owner's contribution. */
  lemma CoverRowsUnlock(grp: Group, k: nat, i: nat, r0: nat, missed: int, amount: int, r: nat, owner: nat)
    requires RowsOk(grp) && UnlockOk(grp) && grp.status == Active && k == grp.currentCycle
    requires HasContribution(grp, k, i) && r0 < |grp.reserves| && IsOwner(grp, grp.reserves[r0], i) && amount > 0
    requires var next := CoverRows(grp, k, i, r0, missed, amount);
      r < |next.reserves| && IsOwner(next, next.reserves[r], owner) && Steady(next, next.reserves[r])
    ensures UnlockRow(CoverRows(grp, k, i, r0, missed, amount).cycles,
                      CoverRows(grp, k, i, r0, missed, amount).reserves[r], owner)
  {
    hide Step, CycleOf;
    assert ReserveOk(grp, grp.reserves[r0]) && ReserveOk(grp, grp.reserves[r]);
    assert r != r0;
    assert IsOwner(grp, grp.reserves[r], owner) && Steady(grp, grp.reserves[r]);
    assert UnlockRow(grp.cycles, grp.reserves[r], owner);
    if owner == i { SteadyIsOnly(grp, r, r0); }
    var c := ContributionAt(grp, k, i);
    PaidSinceBump(grp.cycles, k, i, c.(status := Paid, paidDays := c.expectedDays), grp.reserves[r].cycle, owner);
  }

  lemma CoverKeepsUnlock(cfg: ReserveConfig, b: Books, g: nat, grp: Group, i: nat)
    requires RowsOk(grp) && UnlockOk(grp) && grp.status == Active && i < |grp.members|
    requires CoverTx(cfg, b, g, grp, grp.currentCycle, i).Ok?
    ensures UnlockOk(CoverTx(cfg, b, g, grp, grp.currentCycle, i).value.grp)
    ensures |CoverTx(cfg, b, g, grp, grp.currentCycle, i).value.grp.reserves| == |grp.reserves|
  {
    hide RowsOk, Post;
    var k, next := grp.currentCycle, CoverTx(cfg, b, g, grp, grp.currentCycle, i).value.grp;
    var (r0, missed, amount) := CoverDue(cfg, grp, k, i);
    if next != grp {
      assert next == CoverRows(grp, k, i, r0, missed, amount);
      assert forall r :: 0 <= r < |grp.reserves| ==> next.reserves[r].cycle == grp.reserves[r].cycle;
      forall r: nat, owner: nat | r < |next.reserves| && IsOwner(next, next.reserves[r], owner)
        && Steady(next, next.reserves[r])
        ensures UnlockRow(next.cycles, next.reserves[r], owner)
      {
        CoverRowsUnlock(grp, k, i, r0, missed, amount, r, owner);
      }
    }
  }

  lemma DefaultKeepsUnlock(cfg: ReserveConfig, b: Books, g: nat, grp: Group, i: nat)
    requires GroupOk(b, g, grp) && grp.status == Active && grp.terms.mode == Cycle && i < |grp.members|
    requires UnlockOk(grp) && DefaultTx(cfg, b, g, grp, i).Ok?
    ensures UnlockOk(DefaultTx(cfg, b, g, grp, i).value.grp)
    ensures |DefaultTx(cfg, b, g, grp, i).value.grp.reserves| == |grp.reserves|
  {
    hide BooksOk, RowsOk;
    ForfeitKeepsGroupOk(b, g, grp, i);
    var f := ForfeitTx(b, g, WithStanding(grp, i, Defaulted), i).value;
    SameUnlock(grp, f.grp);
    if HasReceivedPayout(f.grp, grp.members[i].user) {
      CoverKeepsUnlock(cfg, f.books, g, f.grp, i);
    } else {
      SameUnlock(f.grp, DefaultTx(cfg, b, g, grp, i).value.grp);
    }
  }

  lemma {:induction false} SyncKeepsUnlock(cfg: ReserveConfig, b: Books, g: nat, grp: Group, i: nat, today: int)
    requires GroupOk(b, g, grp) && grp.status == Active && grp.terms.mode == Cycle && UnlockOk(grp)
    ensures UnlockOk(SyncFrom(cfg, b, g, grp, i, today).local.grp)
    ensures |SyncFrom(cfg, b, g, grp, i, today).local.grp.reserves| == |grp.reserves|
    decreases |grp.members| - i
  {
    hide GroupOk, BooksOk;
    if i < |grp.members| && SyncMember(cfg, b, g, grp, i, today).Ok? {
      var l := SyncMember(cfg, b, g, grp, i, today).value;
      if NextStanding(grp, i, today).None? {
        DefaultKeepsUnlock(cfg, b, g, grp, i);
      } else {
        SameUnlock(grp, l.grp);
      }
      SyncMemberKeepsGroupOk(cfg, b, g, grp, i, today);
      SyncKeepsUnlock(cfg, l.books, g, l.grp, i + 1, today);
    }
  }

  lemma GroupSyncKeepsUnlock(cfg: ReserveConfig, b: Books, g: nat, grp: Group, today: int)
    requires GroupOk(b, g, grp) && UnlockOk(grp)
    ensures UnlockOk(SyncGroup(cfg, b, g, grp, today).local.grp)
    ensures |SyncGroup(cfg, b, g, grp, today).local.grp.reserves| == |grp.reserves|
  {
    hide GroupOk, SyncFrom;
    if grp.status == Active && grp.terms.mode == Cycle {
      SyncKeepsUnlock(cfg, b, g, grp, 0, today);
    } else {
      SameUnlock(grp, SyncGroup(cfg, b, g, grp, today).local.grp);
    }
  }

  // ---- Finalization ------------------------------------------------------------------------------------------

  /** A freshly opened cycle has no paid days yet. */
  lemma OpenedCycleAddsNothing(cycles: seq<seq<Contribution>>, t: Terms, n: nat, since: nat, i: nat)
    requires since <= |cycles|
    ensures PaidSince(cycles + [OpenCycle(t, n)], since, i) == PaidSince(cycles, since, i)
  {
    var row := OpenCycle(t, n);
    assert (cycles + [row])[since..] == cycles[since..] + [row];
    SumAppend(cycles[since..], row, DaysAt(i));
  }

  lemma OpenedRowUnlocks(cycles: seq<seq<Contribution>>, t: Terms, n: nat, row: Reserve, i: nat)
    requires UnlockRow(cycles, row, i) && row.cycle <= |cycles|
    ensures UnlockRow(cycles + [OpenCycle(t, n)], row, i)
  {
    OpenedCycleAddsNothing(cycles, t, n, row.cycle, i);
  }

  lemma NewRowUnlocks(cycles: seq<seq<Contribution>>, t: Terms, n: nat, row: Reserve, i: nat)
    requires row.cycle == |cycles| >= 1 && row.unitsReleased == 0 && row.status == Open
    ensures UnlockRow(cycles + [OpenCycle(t, n)], row, i)
  {
    OpenedCycleAddsNothing(cycles, t, n, row.cycle, i);
  }

  /** One more payout makes no reserve steady that was not, except its own new one. */
  lemma SteadyBefore(grp: Group, next: Group, row: Reserve)
    requires |grp.payouts| <= |next.payouts|
    requires forall p :: 0 <= p < |grp.payouts| ==> next.payouts[p] == grp.payouts[p]
    requires Steady(next, row)
    ensures Steady(grp, row)
  {
    forall p, q | 0 <= p < q < |grp.payouts| && grp.payouts[p].recipient == row.user
      ensures grp.payouts[q].recipient != row.user
    {
      assert next.payouts[p].recipient == row.user;
    }
  }

  /** What finalizing cycle `k` adds to the rows that matter here. */
  ghost predicate AddsReserve(grp: Group, next: Group, k: nat) {
    && SameHeader(grp, next) && |grp.payouts| <= |next.payouts|
    && (forall p :: 0 <= p < |grp.payouts| ==> next.payouts[p] == grp.payouts[p])
    && |grp.reserves| <= |next.reserves| <= |grp.reserves| + 1
    && (forall r :: 0 <= r < |grp.reserves| ==> next.reserves[r] == grp.reserves[r])
    && (|next.reserves| > |grp.reserves| ==>
          var row := next.reserves[|grp.reserves|]; row.cycle == k >= 1 && row.unitsReleased == 0 && row.status == Open)
    && (next.status == Active ==> next.cycles == grp.cycles + [OpenCycle(grp.terms, |grp.members|)])
  }

  lemma AddedReserveUnlocks(grp: Group, next: Group, k: nat)
    requires RowsOk(grp) && UnlockOk(grp) && grp.status == Active && |grp.cycles| == k && AddsReserve(grp, next, k)
    ensures UnlockOk(next)
  {
    forall q, r | 0 <= q < r < |next.reserves| ensures next.reserves[q].cycle < next.reserves[r].cycle {
      assert ReserveOk(grp, grp.reserves[q]);
    }
    forall r: nat, i: nat | next.status == Active && r < |next.reserves| && IsOwner(next, next.reserves[r], i)
      && Steady(next, next.reserves[r])
      ensures UnlockRow(next.cycles, next.reserves[r], i)
    {
      var row := next.reserves[r];
      if r < |grp.reserves| {
        SteadyBefore(grp, next, row);
        assert ReserveOk(grp, row) && IsOwner(grp, grp.reserves[r], i);
        OpenedRowUnlocks(grp.cycles, grp.terms, |grp.members|, row, i);
      } else {
        NewRowUnlocks(grp.cycles, grp.terms, |grp.members|, row, i);
      }
    }
  }

  lemma AllocateAddsReserve(cfg: ReserveConfig, b: Books, g: nat, grp: Group, k: nat)
    requires RowsOk(grp) && AllocateTx(cfg, b, g, grp, k).Ok?
    ensures grp.status == Active && |grp.cycles| == k
    ensures var next := AllocateTx(cfg, b, g, grp, k).value.grp;
      AddsReserve(grp, next, k) && (!cfg.enabled ==> |next.reserves| == |grp.reserves|)
  {
    AllocateShape(cfg, b, g, grp, k);
  }

  lemma FinalizeKeepsUnlock(cfg: ReserveConfig, b: Books, groups: seq<Group>, g: nat, k: nat)
    requires g < |groups| && RowsOk(groups[g]) && UnlockOk(groups[g]) && FinalizeTx(cfg, b, groups, g, k).Ok?
    ensures UnlockOk(FinalizeTx(cfg, b, groups, g, k).value.grp)
    ensures !cfg.enabled ==> |FinalizeTx(cfg, b, groups, g, k).value.grp.reserves| == |groups[g].reserves|
  {
    hide RowsOk, AllocateTx, CompleteTx;
    AllocateAddsReserve(cfg, b, g, groups[g], k);
    FinalizationShape(cfg, b, groups, g, k);
    var grp, next := AllocateTx(cfg, b, g, groups[g], k).value.grp, FinalizeTx(cfg, b, groups, g, k).value.grp;
    AddedReserveUnlocks(groups[g], grp, k);
    if next != grp {
      assert forall q :: 0 <= q < |grp.reserves| ==> next.reserves[q].cycle == grp.reserves[q].cycle;
    }
  }

  // ---- Whole runs --------------------------------------------------------------------------------------------

  /** With reserves switched off there are none. */
  ghost predicate GroupUnlocks(cfg: ReserveConfig, grp: Group) {
    UnlockOk(grp) && (!cfg.enabled ==> grp.reserves == [])
  }

  ghost predicate AllUnlock(s: Sys) { forall h :: 0 <= h < |s.groups| ==> GroupUnlocks(s.cfg, s.groups[h]) }

  lemma JoinKeepsUnlock(b: Books, g: nat, grp: Group, user: nat)
    requires RowsOk(grp) && JoinTx(b, g, grp, user).Ok?
    ensures JoinTx(b, g, grp, user).value.grp.reserves == grp.reserves == []
  {
    hide Transfer;
  }

  lemma GroupStepKeepsUnlock(s: Sys, op: Op, g: nat)
    requires SysOk(s) && g < |s.groups| && GroupUnlocks(s.cfg, s.groups[g]) && !Recounts(s, op)
    ensures g < |Step(s, op).groups| && GroupUnlocks(s.cfg, Step(s, op).groups[g])
  {
    hide Step, JoinTx, SettleTx, SyncGroup, FinalizeTx, BooksOk;
    StepShape(s, op, g);
    assert GroupOk(s.books, g, s.groups[g]);
    var grp, next := s.groups[g], Step(s, op).groups[g];
    if next != grp {
      match op
      case Pay(_, k, i, ref) => PayKeepsUnlock(s.cfg, s.books, g, grp, k, i);
      case Sync(_, today) => GroupSyncKeepsUnlock(s.cfg, s.books, g, grp, today);
      case Finalize(_, k) => FinalizeKeepsUnlock(s.cfg, s.books, s.groups, g, k);
      case Join(_, user) => JoinKeepsUnlock(s.books, g, grp, user);
      case Activate(_) => assert grp.status == Draft;
      case SetRisk(_, _, _) => SameUnlock(grp, next);
    }
  }

  lemma StepKeepsUnlock(s: Sys, op: Op)
    requires SysOk(s) && AllUnlock(s) && !Recounts(s, op)
    ensures AllUnlock(Step(s, op)) && Step(s, op).cfg == s.cfg
  {
    hide SysOk, PreviewOf, Recounts, JoinTx, SettleTx, SyncGroup, FinalizeTx;
    var next := Step(s, op);
    forall h: nat | h < |next.groups| ensures GroupUnlocks(s.cfg, next.groups[h]) {
      if h < |s.groups| { GroupStepKeepsUnlock(s, op, h); } else { NewGroupShape(s, op, h); }
    }
  }

  lemma {:induction false} RunsKeepUnlock(cfg: ReserveConfig, ops: seq<Op>)
    requires NoRecounts(Init(cfg), ops)
    ensures AllUnlock(Run(Init(cfg), ops))
  {
    hide Step, SysOk, SettleTx;
    if ops != [] {
      RunsKeepUnlock(cfg, ops[..|ops| - 1]);
      RunsKeepSysOk(cfg, ops[..|ops| - 1]);
      StepKeepsUnlock(Run(Init(cfg), ops[..|ops| - 1]), ops[|ops| - 1]);
    }
  }

  /** How much of the reserve is left, from the days its owner, member `i`, has paid since the payout. */
  ghost predicate UnlockedByPayments(grp: Group, row: Reserve, i: nat) {
    && row.units == (grp.terms.slots - row.cycle) * grp.terms.days && row.units >= 1
    && var paid := PaidSince(grp.cycles, row.cycle, i);
    && (row.original >= row.units ==>
          && row.unitsReleased == paid
          && (row.remaining == 0 <==> paid == row.units)
          && (paid < row.units ==> row.remaining == row.original - paid * (row.original / row.units)))
    && (row.original < row.units && 1 < row.units ==> row.unitsReleased == 0 && row.remaining == row.original)
  }

  lemma UnlockState(grp: Group, r: nat, i: nat)
    requires RowsOk(grp) && UnlockOk(grp) && grp.status == Active && r < |grp.reserves|
    requires IsOwner(grp, grp.reserves[r], i) && Steady(grp, grp.reserves[r])
    ensures UnlockedByPayments(grp, grp.reserves[r], i)
  {
    hide Step;
    var row := grp.reserves[r];
    assert ReserveOk(grp, row) && UnlockRow(grp.cycles, row, i);
    MulOrder(1, grp.terms.slots - row.cycle, grp.terms.days);
  }

  /**
   * In a running group, whatever the others did: a member paid once, in cycle `k`, whose reserve was
   * never drawn on and has at least a pesewa per unit, has unlocked one unit for every day paid since,
   * and the whole reserve exactly when all (n - k) * days of them are paid. A smaller reserve stays whole.
   */
  lemma UnlocksWithPayments(cfg: ReserveConfig, ops: seq<Op>, g: nat, r: nat, i: nat)
    requires NoRecounts(Init(cfg), ops)
    requires var s := Run(Init(cfg), ops); g < |s.groups| && s.groups[g].status == Active && r < |s.groups[g].reserves|
    requires var grp := Run(Init(cfg), ops).groups[g]; IsOwner(grp, grp.reserves[r], i) && Steady(grp, grp.reserves[r])
    ensures var grp := Run(Init(cfg), ops).groups[g]; UnlockedByPayments(grp, grp.reserves[r], i)
  {
    hide Step, RowsOk, SettleTx;
    RunsKeepSysOk(cfg, ops);
    RunsKeepUnlock(cfg, ops);
    var s := Run(Init(cfg), ops);
    assert GroupOk(s.books, g, s.groups[g]);
    UnlockState(s.groups[g], r, i);
  }
}
