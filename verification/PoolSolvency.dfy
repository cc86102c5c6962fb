/** The group pool against the payouts it must fund, and exactly when a finalization is accepted. */
module PoolSolvency {
  import opened Wrappers
  import opened Accounts
  import opened Sums
  import opened Ledger
  import opened Calculations
  import opened Preview
  import opened ReserveMath
  import opened Rows
  import opened PayoutQueue
  import opened Engine
  import opened Accounting
  import opened RowInvariants
  import opened GroupSafety
  import opened Protocol
  import opened Solvency

  // ---- The pool balance in terms of members ---------------------------------------------------------

  lemma OtherPoolDue(h: nat, g: nat, grp: Group)
    requires h != g
    ensures Due(h, grp, GroupPool(g)) == 0
  {
    var a := GroupPool(g);
    SumZero(grp.members, MemberPart(h, a));
    SumZero(grp.reserves, ReservePart(a));
    SumZero(grp.payouts, PayoutPart(h, a));
    SumZero(grp.earnings, EarningPart(h, a));
    SumZero(grp.payments, PaymentPart(a));
    SumZero(grp.covers, CoverPart(h, a));
  }

  lemma PoolIsDue(b: Books, groups: seq<Group>, g: nat)
    requires GroupsOk(b, groups) && g < |groups|
    ensures Balance(b.balances, GroupPool(g)) == Due(g, groups[g], GroupPool(g))
  {
    hide GroupsOk, Due;
    BalanceIsDue(b, groups, GroupPool(g));
    forall h: nat | h < |groups| && h != g ensures DueOn(groups, GroupPool(g))(h) == 0 {
      OtherPoolDue(h, g, groups[h]);
    }
    SumToSingle(|groups|, DueOn(groups, GroupPool(g)), g);
  }

  function ForfeitPart(): Member -> int { (m: Member) => if m.deposit == Forfeited then m.depositAmount else 0 }
  function PartialPart(): Coverage -> int { (c: Coverage) => if c.covered < c.missed then c.covered else 0 }

  /** Money that partial covers brought into the pool without settling a contribution. */
  function PartialCovers(grp: Group): int { SumOf(grp.covers, PartialPart()) }

  function DaysAt(i: nat): seq<Contribution> -> int {
    (row: seq<Contribution>) => if i < |row| then row[i].paidDays else 0
  }

  /** Days that member `i` has paid over all cycles. */
  function MemberDays(grp: Group, i: nat): int { SumOf(grp.cycles, DaysAt(i)) }
  function MemberDaysOf(cycles: seq<seq<Contribution>>): nat -> int { (i: nat) => SumOf(cycles, DaysAt(i)) }

  /** Days counted cycle by cycle or member by member. */
  lemma {:induction false} DaysExchange(cycles: seq<seq<Contribution>>, n: nat)
    requires forall k :: 0 <= k < |cycles| ==> |cycles[k]| == n
    ensures SumOf(cycles, RowDays()) == SumTo(n, MemberDaysOf(cycles))
  {
    if cycles == [] {
      SumToZero(n, MemberDaysOf(cycles));
    } else {
      var front, row := cycles[..|cycles| - 1], cycles[|cycles| - 1];
      DaysExchange(front, n);
      SumByIndex(row, DaysOf());
      SumToAdd(n, MemberDaysOf(front), ByIndex(row, DaysOf()), MemberDaysOf(cycles));
    }
  }

  /** What a member has put into the pool beyond one obligation for every cycle opened so far. */
  function NetPosition(grp: Group, i: nat): int {
    (if i < |grp.members| then ForfeitPart()(grp.members[i]) else 0)
    + grp.terms.perDay * MemberDays(grp, i) - |grp.cycles| * Obligation(grp.terms)
  }

  function NetPositionOf(grp: Group): nat -> int { (i: nat) => NetPosition(grp, i) }

  lemma SameFactor(n: int, a: int, b: int)
    ensures n * -a + n * -b == -(n * (a + b))
  {
  }

  lemma SummaryAddsUp(t: Terms)
    requires TermsOk(t)
    ensures CycleOf(t).netAfterMargin + CycleOf(t).serviceMargin == CycleOf(t).gross
  {
    TermsFacts(t);
  }

  lemma PaidOutTotals(g: nat, grp: Group)
    requires PayoutsOk(grp) && TermsOk(grp.terms)
    ensures SumOf(grp.payouts, PayoutPart(g, GroupPool(g))) + SumOf(grp.earnings, EarningPart(g, GroupPool(g)))
         == -(|grp.payouts| * CycleOf(grp.terms).gross)
  {
    var s := CycleOf(grp.terms);
    SummaryAddsUp(grp.terms);
    forall p: nat | p < |grp.payouts|
      ensures grp.payouts[p].amount == s.netAfterMargin && grp.earnings[p].margin == s.serviceMargin
    {
      assert PayoutOk(grp, p);
    }
    SumConst(grp.payouts, PayoutPart(g, GroupPool(g)), -s.netAfterMargin);
    SumConst(grp.earnings, EarningPart(g, GroupPool(g)), -s.serviceMargin);
    SameFactor(|grp.payouts|, s.netAfterMargin, s.serviceMargin);
  }

  lemma PoolFromMembers(g: nat, grp: Group)
    requires RowsOk(grp)
    ensures Due(g, grp, GroupPool(g)) ==
      SumTo(|grp.members|, ByIndex(grp.members, ForfeitPart()))
      + grp.terms.perDay * SumTo(|grp.members|, MemberDaysOf(grp.cycles))
      + PartialCovers(grp) - |grp.payouts| * CycleOf(grp.terms).gross
  {
    var a := GroupPool(g);
    SumAgree(grp.members, grp.members, MemberPart(g, a), ForfeitPart());
    SumByIndex(grp.members, ForfeitPart());
    SumZero(grp.reserves, ReservePart(a));
    PaidOutTotals(g, grp);
    SumZero(grp.payments, PaymentPart(a));
    SumAgree(grp.covers, grp.covers, CoverPart(g, a), PartialPart());
    assert forall k :: 0 <= k < |grp.cycles| ==> CycleRowOk(grp.terms, |grp.members|, grp.cycles[k]);
    DaysExchange(grp.cycles, |grp.members|);
  }

  lemma NetPositionsAddUp(grp: Group)
    ensures SumTo(|grp.members|, NetPositionOf(grp)) ==
      SumTo(|grp.members|, ByIndex(grp.members, ForfeitPart()))
      + grp.terms.perDay * SumTo(|grp.members|, MemberDaysOf(grp.cycles))
      - |grp.members| * (|grp.cycles| * Obligation(grp.terms))
  {
    var n, t := |grp.members|, grp.terms;
    var forfeits, days := ByIndex(grp.members, ForfeitPart()), MemberDaysOf(grp.cycles);
    SumToScaled(n, t.perDay, days);
    var put := (i: nat) => forfeits(i) + Scaled(t.perDay, days)(i);
    SumToAdd(n, forfeits, Scaled(t.perDay, days), put);
    SumToShifted(n, put, NetPositionOf(grp), |grp.cycles| * Obligation(t));
  }

  /**
   * In a running group the pool exceeds the gross it owes next by exactly the members' net
   * positions and the partial covers.
   */
  lemma PoolSurplus(g: nat, grp: Group)
    requires RowsOk(grp) && grp.status == Active
    ensures Due(g, grp, GroupPool(g)) - CycleOf(grp.terms).gross
         == SumTo(|grp.members|, NetPositionOf(grp)) + PartialCovers(grp)
  {
    hide Step;
    PoolFromMembers(g, grp);
    NetPositionsAddUp(grp);
    TermsFacts(grp.terms);
    OwedSoFar(|grp.members|, |grp.cycles|, Obligation(grp.terms));
  }

  lemma OwedSoFar(n: int, cycles: int, obligation: int)
    ensures n * (cycles * obligation) == (cycles - 1) * (n * obligation) + n * obligation
  {
  }

  // ---- Members who missed at most one cycle ------------------------------------------------------------

  function MissedAt(i: nat): seq<Contribution> -> int {
    (row: seq<Contribution>) => if i < |row| && row[i].status == Paid then 0 else 1
  }

  /** Cycles, the running one included, that member `i` has not paid in full. */
  function MissedCycles(grp: Group, i: nat): int { SumOf(grp.cycles, MissedAt(i)) }

  lemma CountOneMore(d: int, days: int, missed: int, n: int, paid: int, miss: int)
    requires days + d * missed >= d * n && ((miss == 0 && paid >= d) || (miss == 1 && paid >= 0))
    ensures (days + paid) + d * (missed + miss) >= d * (n + 1)
  {
    assert d * (missed + miss) == d * missed + d * miss;
    assert d * (n + 1) == d * n + d;
  }

  /** Every cycle is either missed or brought in its full number of days. */
  lemma {:induction false} PaidCyclesCount(t: Terms, n: nat, cycles: seq<seq<Contribution>>, i: nat)
    requires i < n && forall k :: 0 <= k < |cycles| ==> CycleRowOk(t, n, cycles[k])
    ensures var d := MemberCyclePaymentDays(t);
      SumOf(cycles, DaysAt(i)) + d * SumOf(cycles, MissedAt(i)) >= d * |cycles|
  {
    if cycles != [] {
      var front, row := cycles[..|cycles| - 1], cycles[|cycles| - 1];
      PaidCyclesCount(t, n, front, i);
      assert ContributionOk(t, row[i]);
      CountOneMore(MemberCyclePaymentDays(t), SumOf(front, DaysAt(i)), SumOf(front, MissedAt(i)), |front|,
                   row[i].paidDays, MissedAt(i)(row));
    }
  }

  lemma {:induction false} MissedNoneExactly(cycles: seq<seq<Contribution>>, i: nat)
    ensures SumOf(cycles, MissedAt(i)) >= 0
    ensures SumOf(cycles, MissedAt(i)) == 0 <==>
      forall k :: 0 <= k < |cycles| ==> i < |cycles[k]| && cycles[k][i].status == Paid
  {
    if cycles != [] {
      MissedNoneExactly(cycles[..|cycles| - 1], i);
    }
  }

  /** A member who missed a cycle that may be finalized has forfeited a full obligation. */
  lemma MissedMeansForfeited(grp: Group, k: nat, i: nat)
    requires RowsOk(grp) && FinalizeFault(grp, k).None? && i < |grp.members|
    requires exists l :: 0 <= l < |grp.cycles| && grp.cycles[l][i].status != Paid
    ensures grp.members[i].deposit == Forfeited && grp.members[i].depositAmount == Obligation(grp.terms)
  {
    assert MemberOk(grp.terms, grp.status, grp.members[i]);
    var l :| 0 <= l < |grp.cycles| && grp.cycles[l][i].status != Paid;
    if l == k - 1 {
      assert grp.members[i].standing == Defaulted;
    }
  }

  lemma MissedForfeits(grp: Group, k: nat, i: nat)
    requires RowsOk(grp) && FinalizeFault(grp, k).None? && i < |grp.members|
    ensures MissedCycles(grp, i) >= 0
    ensures MissedCycles(grp, i) > 0 ==> ForfeitPart()(grp.members[i]) == Obligation(grp.terms)
    ensures ForfeitPart()(grp.members[i]) >= 0
  {
    assert forall l :: 0 <= l < |grp.cycles| ==> CycleRowOk(grp.terms, |grp.members|, grp.cycles[l]);
    MissedNoneExactly(grp.cycles, i);
    DepositsNonNegative(grp, i);
    if MissedCycles(grp, i) > 0 {
      MissedMeansForfeited(grp, k, i);
    }
  }

  lemma NetArithmetic(perDay: int, days: int, d: int, cycles: int, missed: int, forfeited: int)
    requires perDay >= 0 && days + d * missed >= d * cycles && 0 <= missed <= 1
    requires forfeited >= 0 && (missed > 0 ==> forfeited == perDay * d)
    ensures forfeited + perDay * days - cycles * (perDay * d) >= 0
  {
    MulOrder(d * (cycles - missed), days, perDay);
    assert d * (cycles - missed) * perDay == cycles * (perDay * d) - missed * (perDay * d);
  }

  lemma NetPositionNonNegative(grp: Group, k: nat, i: nat)
    requires RowsOk(grp) && FinalizeFault(grp, k).None? && i < |grp.members| && MissedCycles(grp, i) <= 1
    ensures NetPosition(grp, i) >= 0
  {
    assert forall l :: 0 <= l < |grp.cycles| ==> CycleRowOk(grp.terms, |grp.members|, grp.cycles[l]);
    PaidCyclesCount(grp.terms, |grp.members|, grp.cycles, i);
    MissedForfeits(grp, k, i);
    NetArithmetic(grp.terms.perDay, MemberDays(grp, i), MemberCyclePaymentDays(grp.terms), |grp.cycles|,
                  MissedCycles(grp, i), ForfeitPart()(grp.members[i]));
  }

  lemma PartialCoversNonNegative(grp: Group)
    requires CoversOk(grp)
    ensures PartialCovers(grp) >= 0
  {
    SumNonNegative(grp.covers, PartialPart());
  }

  /**
   * A cycle that is ready to finalize is fully funded when no member has missed more than one cycle,
   * the running one included; a DAILY group always is.
   */
  lemma ReadyPoolIsFunded(b: Books, groups: seq<Group>, g: nat, k: nat)
    requires GroupsOk(b, groups) && g < |groups| && FinalizeFault(groups[g], k).None?
    requires groups[g].terms.mode == Daily || forall i: nat :: i < |groups[g].members| ==>
      MissedCycles(groups[g], i) <= 1
    ensures Balance(b.balances, GroupPool(g)) >= CycleOf(groups[g].terms).gross
  {
    hide Step, BooksOk;
    var grp := groups[g];
    assert GroupOk(b, g, grp);
    PoolIsDue(b, groups, g);
    PoolSurplus(g, grp);
    PartialCoversNonNegative(grp);
    forall i: nat | i < |grp.members| ensures NetPositionOf(grp)(i) >= 0 {
      if grp.terms.mode == Daily { DailyMissesNothing(grp, k, i); }
      NetPositionNonNegative(grp, k, i);
    }
    SumToNonNegative(|grp.members|, NetPositionOf(grp));
  }

  lemma DailyMissesNothing(grp: Group, k: nat, i: nat)
    requires RowsOk(grp) && FinalizeFault(grp, k).None? && i < |grp.members| && grp.terms.mode == Daily
    ensures MissedCycles(grp, i) == 0
  {
    assert forall l :: 0 <= l < |grp.cycles| ==> CycleRowOk(grp.terms, |grp.members|, grp.cycles[l]);
    MissedNoneExactly(grp.cycles, i);
    forall l | 0 <= l < |grp.cycles| ensures grp.cycles[l][i].status == Paid {
      assert MemberOk(grp.terms, grp.status, grp.members[i]);
    }
  }

  /** Funding in every running group, exactly: the members' net positions and partial covers are not negative in sum. */
  lemma PoolFundedExactly(b: Books, groups: seq<Group>, g: nat)
    requires GroupsOk(b, groups) && g < |groups| && groups[g].status == Active
    ensures Balance(b.balances, GroupPool(g)) >= CycleOf(groups[g].terms).gross
      <==> SumTo(|groups[g].members|, NetPositionOf(groups[g])) + PartialCovers(groups[g]) >= 0
  {
    hide BooksOk, RowsOk;
    assert GroupOk(b, g, groups[g]);
    PoolIsDue(b, groups, g);
    PoolSurplus(g, groups[g]);
  }

  /** No day was paid in any missed cycle. */
  ghost predicate MissedWhole(grp: Group, i: nat) {
    forall l :: 0 <= l < |grp.cycles| && i < |grp.cycles[l]| && grp.cycles[l][i].status != Paid ==>
      grp.cycles[l][i].paidDays == 0
  }

  lemma {:induction false} WholeCyclesCount(t: Terms, n: nat, cycles: seq<seq<Contribution>>, i: nat)
    requires i < n && forall k :: 0 <= k < |cycles| ==> CycleRowOk(t, n, cycles[k])
    requires forall l :: 0 <= l < |cycles| && i < |cycles[l]| && cycles[l][i].status != Paid ==>
      cycles[l][i].paidDays == 0
    ensures var d := MemberCyclePaymentDays(t);
      SumOf(cycles, DaysAt(i)) == d * (|cycles| - SumOf(cycles, MissedAt(i)))
  {
    if cycles != [] {
      var front, row := cycles[..|cycles| - 1], cycles[|cycles| - 1];
      WholeCyclesCount(t, n, front, i);
      assert ContributionOk(t, row[i]);
      var d, kept := MemberCyclePaymentDays(t), |front| - SumOf(front, MissedAt(i));
      assert d * (kept + 1) == d * kept + d;
    }
  }

  /** Whoever misses cycles as a whole is short of them all but the forfeited deposit. */
  lemma WholeMissesPosition(grp: Group, k: nat, i: nat)
    requires RowsOk(grp) && FinalizeFault(grp, k).None? && i < |grp.members| && MissedWhole(grp, i)
    ensures NetPosition(grp, i) == ForfeitPart()(grp.members[i]) - MissedCycles(grp, i) * Obligation(grp.terms)
    ensures MissedCycles(grp, i) > 0 ==> ForfeitPart()(grp.members[i]) == Obligation(grp.terms)
  {
    assert forall l :: 0 <= l < |grp.cycles| ==> CycleRowOk(grp.terms, |grp.members|, grp.cycles[l]);
    WholeCyclesCount(grp.terms, |grp.members|, grp.cycles, i);
    MissedForfeits(grp, k, i);
    WholeArithmetic(grp.terms.perDay, MemberCyclePaymentDays(grp.terms), |grp.cycles|, MissedCycles(grp, i));
  }

  lemma WholeArithmetic(perDay: int, d: int, cycles: int, missed: int)
    ensures perDay * (d * (cycles - missed)) - cycles * (perDay * d) == -(missed * (perDay * d))
  {
    assert perDay * (d * (cycles - missed)) == (perDay * d) * (cycles - missed);
  }

  /** Only member `j` ever missed a cycle or lost a deposit, and missed cycles as a whole; no covers. */
  ghost predicate OnlyMisses(grp: Group, j: nat) {
    && j < |grp.members| && MissedWhole(grp, j) && MissedCycles(grp, j) >= 1 && grp.covers == []
    && forall i: nat :: i < |grp.members| && i != j ==>
         MissedCycles(grp, i) == 0 && grp.members[i].deposit != Forfeited
  }

  lemma NoMissNoPosition(grp: Group, k: nat, i: nat)
    requires RowsOk(grp) && FinalizeFault(grp, k).None? && i < |grp.members|
    requires MissedCycles(grp, i) == 0 && grp.members[i].deposit != Forfeited
    ensures NetPosition(grp, i) == 0
  {
    hide RowsOk, FinalizeFault, NetPosition;
    MissedNoneExactly(grp.cycles, i);
    WholeMissesPosition(grp, k, i);
  }

  lemma OneShortMember(grp: Group, k: nat, j: nat)
    requires RowsOk(grp) && FinalizeFault(grp, k).None? && OnlyMisses(grp, j)
    ensures SumTo(|grp.members|, NetPositionOf(grp))
         == Obligation(grp.terms) - MissedCycles(grp, j) * Obligation(grp.terms)
  {
    hide RowsOk, FinalizeFault, NetPosition, MissedCycles;
    WholeMissesPosition(grp, k, j);
    forall i: nat | i < |grp.members| && i != j ensures NetPositionOf(grp)(i) == 0 {
      NoMissNoPosition(grp, k, i);
    }
    SumToSingle(|grp.members|, NetPositionOf(grp), j);
  }

  lemma Shortfall(missed: int, obligation: int)
    requires obligation >= 1
    ensures obligation - missed * obligation == -((missed - 1) * obligation)
    ensures missed >= 2 ==> (missed - 1) * obligation >= 1
  {
    if missed >= 2 { MulOrder(1, missed - 1, obligation); }
  }

  /**
   * One member misses cycles as a whole while everyone else pays in full and never forfeits: the pool
   * of the next ready cycle is short of one obligation for every miss after the first, and from the
   * second miss on the finalization is refused.
   */
  lemma MissedCyclesUnderfund(cfg: ReserveConfig, b: Books, groups: seq<Group>, g: nat, k: nat, j: nat)
    requires GroupsOk(b, groups) && g < |groups| && FinalizeFault(groups[g], k).None? && OnlyMisses(groups[g], j)
    ensures var grp := groups[g];
      && Balance(b.balances, GroupPool(g))
         == CycleOf(grp.terms).gross - (MissedCycles(grp, j) - 1) * Obligation(grp.terms)
      && (MissedCycles(grp, j) >= 2 ==> FinalizeTx(cfg, b, groups, g, k).Err?)
  {
    hide Step, AllocateTx, CompleteTx;
    var grp := groups[g];
    assert GroupOk(b, g, grp);
    PoolIsDue(b, groups, g);
    PoolSurplus(g, grp);
    OneShortMember(grp, k, j);
    TermsFacts(grp.terms);
    Shortfall(MissedCycles(grp, j), Obligation(grp.terms));
    if AllocateTx(cfg, b, g, grp, k).Ok? { AllocationNeeds(cfg, b, g, grp, k); }
  }

  /** No finalization is accepted without the whole gross in the pool and a margin of at least a pesewa. */
  lemma AllocationNeeds(cfg: ReserveConfig, b: Books, g: nat, grp: Group, k: nat)
    requires GroupOk(b, g, grp) && BooksOk(b) && AllocateTx(cfg, b, g, grp, k).Ok?
    ensures Balance(b.balances, GroupPool(g)) >= CycleOf(grp.terms).gross
    ensures CycleOf(grp.terms).gross * grp.terms.marginBps >= BPS_DENOMINATOR
  {
    hide CycleOf, PayOutTx, AllocationLines;
    AllocateShape(cfg, b, g, grp, k);
    var aw, s := AwardOf(cfg, grp, k), CycleOf(grp.terms);
    TermsFacts(grp.terms);
    AllocationFaults(b, g, aw.user, s, aw.split);
    PostedWithoutFault(cfg, b, g, grp, k);
  }

  lemma PostedWithoutFault(cfg: ReserveConfig, b: Books, g: nat, grp: Group, k: nat)
    requires RowsOk(grp) && KeysSpent(b, g, grp) && AllocateTx(cfg, b, g, grp, k).Ok?
    ensures 1 <= k && SelectPayoutRecipient(grp.members, k, grp.payoutOverride).recipient.Some?
    ensures var aw := AwardOf(cfg, grp, k);
      FirstFault(b.balances, AllocationLines(g, aw.user, CycleOf(grp.terms), aw.split)).None?
  {
    hide GroupOk;
    AllocateShape(cfg, b, g, grp, k);
    TermsFacts(grp.terms);
    assert !Spent(grp, Allocation(g, k)) && OwnerOf(Allocation(g, k)) == Some(g);
  }

  /**
   * The pool of a completed group holds exactly the members' net positions and the partial covers:
   * deposits that no missed cycle used up stay there.
   */
  lemma CompletedPoolExactly(b: Books, groups: seq<Group>, g: nat)
    requires GroupsOk(b, groups) && g < |groups| && groups[g].status == Completed
    ensures Balance(b.balances, GroupPool(g))
         == SumTo(|groups[g].members|, NetPositionOf(groups[g])) + PartialCovers(groups[g])
  {
    var grp := groups[g];
    assert GroupOk(b, g, grp);
    PoolIsDue(b, groups, g);
    PoolFromMembers(g, grp);
    NetPositionsAddUp(grp);
    TermsFacts(grp.terms);
    AllPaidOut(|grp.members|, Obligation(grp.terms));
  }

  lemma AllPaidOut(n: int, obligation: int)
    ensures n * (n * obligation) == n * n * obligation
  {
  }

  // ---- Acceptance of the finalization journal ------------------------------------------------------------

  /** The first three lines of the journal, one after the other. */
  lemma ThreeLineFaults(balances: map<Account, int>, l0: Line, l1: Line, l2: Line)
    requires l0.account != l1.account && l0.account != l2.account && l1.account != l2.account
    ensures FirstFault(balances, [l0, l1, l2]).None? <==>
      LineFault(balances, l0).None? && LineFault(balances, l1).None? && LineFault(balances, l2).None?
    ensures forall a :: a != l0.account && a != l1.account && a != l2.account ==>
      Balance(Settle(balances, [l0, l1, l2]), a) == Balance(balances, a)
  {
    var lines := [l0, l1, l2];
    var b1 := Credit(balances, l0);
    var b2 := Credit(b1, l1);
    assert [l0][..0] == [] && [l0, l1][..1] == [l0] && lines[..2] == [l0, l1];
    assert Settle(balances, [l0]) == b1;
    assert Settle(balances, [l0, l1]) == Credit(Settle(balances, [l0, l1][..1]), l1);
    assert Settle(balances, lines) == Credit(Settle(balances, lines[..2]), l2);
    assert FirstFault(balances, [l0]) == LineFault(balances, l0);
  }

  lemma AllocationFaults(b: Books, g: nat, user: nat, summary: CycleSummary, split: Split)
    requires BooksOk(b) && summary.gross > 0 && summary.platformShare >= 0
    ensures FirstFault(b.balances, AllocationLines(g, user, summary, split)).None? <==>
      && summary.gross <= Balance(b.balances, GroupPool(g)) && summary.platformShare > 0
      && split.available != 0 && Balance(b.balances, Available(user)) + split.available >= 0
  {
    var l0, l1 := Line(GroupPool(g), -summary.gross), Line(Available(user), split.available);
    var l2 := Line(Revenue, summary.platformShare);
    ThreeLineFaults(b.balances, l0, l1, l2);
    var lines := AllocationLines(g, user, summary, split);
    assert Balance(b.balances, Revenue) >= 0 && Balance(b.balances, Reserved(user)) >= 0;
    if split.reserve > 0 {
      assert lines[..3] == [l0, l1, l2];
    } else {
      assert lines == [l0, l1, l2];
    }
  }

  /** Past the guards, a finalization is accepted exactly when its journal is. */
  lemma AllocateIsItsJournal(cfg: ReserveConfig, b: Books, g: nat, grp: Group, k: nat)
    requires FinalizeFault(grp, k).None? && k <= grp.terms.slots && TermsOk(grp.terms)
      && |grp.members| == grp.terms.slots
    requires SelectPayoutRecipient(grp.members, k, grp.payoutOverride).recipient.Some?
    requires !cfg.enabled || 0 <= cfg.maxBps <= BPS_DENOMINATOR
    ensures var s := CycleOf(grp.terms); var aw := AwardOf(cfg, grp, k);
      AllocateTx(cfg, b, g, grp, k).Ok? <==>
      MustPost(b, Post(b, Allocation(g, k), AllocationLines(g, aw.user, s, aw.split))).Ok?
  {
    TermsFacts(grp.terms);
    var s := CycleOf(grp.terms);
    SelectionIsEligible(grp.members, k, grp.payoutOverride);
    SkippedAreMembers(grp.members, k, grp.payoutOverride);
    SplitConserves(cfg, s.netAfterMargin, k, grp.terms.slots, grp.terms.days);
  }

  /**
   * For every contribution, size, margin and reserve setting: a ready cycle with an eligible
   * recipient is allocated exactly when the pool holds the gross, the margin does not floor to
   * nothing and the recipient is left with a non-zero, affordable share.
   */
  lemma AllocateAcceptedExactly(cfg: ReserveConfig, b: Books, groups: seq<Group>, g: nat, k: nat)
    requires GroupsOk(b, groups) && g < |groups| && FinalizeFault(groups[g], k).None?
    requires SelectPayoutRecipient(groups[g].members, k, groups[g].payoutOverride).recipient.Some?
    requires !cfg.enabled || 0 <= cfg.maxBps <= BPS_DENOMINATOR
    ensures var grp := groups[g]; var s := CycleOf(grp.terms); var aw := AwardOf(cfg, grp, k);
      AllocateTx(cfg, b, g, grp, k).Ok? <==>
        && s.gross <= Balance(b.balances, GroupPool(g)) && s.gross * grp.terms.marginBps >= BPS_DENOMINATOR
        && aw.split.available != 0 && Balance(b.balances, Available(aw.user)) + aw.split.available >= 0
  {
    hide BooksOk, AllocateTx;
    var grp := groups[g];
    assert GroupOk(b, g, grp);
    TermsFacts(grp.terms);
    var s := CycleOf(grp.terms);
    AllocateIsItsJournal(cfg, b, g, grp, k);
    SplitConserves(cfg, s.netAfterMargin, k, grp.terms.slots, grp.terms.days);
    var aw := AwardOf(cfg, grp, k);
    AllocationFaults(b, g, aw.user, s, aw.split);
    AllocationMoves(g, aw.user, s, aw.split, SystemExternal);
    assert !Spent(grp, Allocation(g, k)) && OwnerOf(Allocation(g, k)) == Some(g);
  }

  /** With a reserve minimum below 100% only the pool and the margin can stop it. */
  lemma AllocateAcceptedUsually(cfg: ReserveConfig, b: Books, groups: seq<Group>, g: nat, k: nat)
    requires GroupsOk(b, groups) && g < |groups| && FinalizeFault(groups[g], k).None?
    requires SelectPayoutRecipient(groups[g].members, k, groups[g].payoutOverride).recipient.Some?
    requires cfg.minBps < BPS_DENOMINATOR && (!cfg.enabled || 0 <= cfg.maxBps <= BPS_DENOMINATOR)
    ensures var s := CycleOf(groups[g].terms);
      AllocateTx(cfg, b, g, groups[g], k).Ok? <==>
        s.gross <= Balance(b.balances, GroupPool(g)) && s.gross * groups[g].terms.marginBps >= BPS_DENOMINATOR
  {
    hide Reconciled, AllocateTx;
    var grp := groups[g];
    assert GroupOk(b, g, grp);
    TermsFacts(grp.terms);
    AllocateAcceptedExactly(cfg, b, groups, g, k);
    SplitConserves(cfg, CycleOf(grp.terms).netAfterMargin, k, grp.terms.slots, grp.terms.days);
    assert NoOverdraft(b.balances);
    assert Balance(b.balances, Available(AwardOf(cfg, grp, k).user)) >= 0;
  }

  // ---- Completion is never refused ------------------------------------------------------------------------

  lemma {:induction false} ReturnsNeverRefused(b: Books, groups: seq<Group>, g: nat, i: nat)
    requires GroupsOk(b, groups) && g < |groups| && groups[g].status == Completed
    ensures ReturnDepositsFrom(b, g, groups[g], i).Ok?
    decreases |groups[g].members| - i
  {
    hide GroupOk, BooksOk;
    if i < |groups[g].members| {
      assert GroupOk(b, g, groups[g]);
      ReturnNeverRefused(b, groups, g, i);
      ReturnDepositKeepsGroupOk(b, g, groups[g], i);
      var l := ReturnDeposit(b, g, groups[g], i).value;
      ReplaceGroup(b, groups, g, l.books, l.grp);
      ReturnsNeverRefused(l.books, groups[g := l.grp], g, i + 1);
    }
  }

  /** What the group's reserve rows still owe the user. */
  function OwedBack(grp: Group, user: nat): int { SumOf(grp.reserves, RemainingPart(user)) }

  /** Every reserved wallet holds what the group's open reserves would release into it. */
  ghost predicate ReservesBacked(b: Books, grp: Group) {
    forall u :: OwedBack(grp, u) <= Balance(b.balances, Reserved(u))
  }

  /** A transaction of one group moves each balance as far as it moves what the group's rows call for. */
  lemma BalanceMovesWithDue(b: Books, after: Books, groups: seq<Group>, g: nat, grp: Group, a: Account)
    requires GroupsOk(b, groups) && g < |groups| && GroupsOk(after, groups[g := grp])
    ensures Balance(after.balances, a) - Balance(b.balances, a) == Due(g, grp, a) - Due(g, groups[g], a)
  {
    hide GroupsOk, Due;
    BalanceIsDue(b, groups, a);
    BalanceIsDue(after, groups[g := grp], a);
    var change := (h: nat) => if h == g then Due(g, grp, a) - Due(g, groups[g], a) else 0;
    SumToSingle(|groups|, change, g);
    SumToAdd(|groups|, DueOn(groups, a), change, DueOn(groups[g := grp], a));
  }

  /** Transactions that leave the reserve rows alone leave the reserved wallets alone. */
  lemma SameReservesSameBacking(b: Books, after: Books, groups: seq<Group>, g: nat, grp: Group)
    requires GroupsOk(b, groups) && g < |groups| && GroupsOk(after, groups[g := grp])
    requires grp.reserves == groups[g].reserves
    ensures ReservesBacked(after, grp) <==> ReservesBacked(b, groups[g])
  {
    hide GroupsOk, Due;
    forall u ensures OwedBack(grp, u) == OwedBack(groups[g], u)
      && Balance(after.balances, Reserved(u)) == Balance(b.balances, Reserved(u))
    {
      BalanceMovesWithDue(b, after, groups, g, grp, Reserved(u));
      ReservedDue(g, grp, u);
      ReservedDue(g, groups[g], u);
    }
  }

  lemma CloseAcceptedExactly(b: Books, groups: seq<Group>, g: nat, r: nat)
    requires GroupsOk(b, groups) && g < |groups| && r < |groups[g].reserves|
    ensures var row := groups[g].reserves[r];
      CloseReserve(b, g, groups[g], r).Ok?
      <==> (row.status == Open ==> row.remaining <= Balance(b.balances, Reserved(row.user)))
  {
    assert GroupOk(b, g, groups[g]);
    var row := groups[g].reserves[r];
    assert ReserveOk(groups[g], row);
    if row.status == Open {
      assert !Spent(groups[g], FinalRelease(g, r)) && OwnerOf(FinalRelease(g, r)) == Some(g);
      TransferExactly(b, FinalRelease(g, r), Reserved(row.user), Available(row.user), row.remaining);
    }
  }

  lemma ClosingMovesAlike(b: Books, after: Books, groups: seq<Group>, g: nat, r: nat, u: nat)
    requires GroupsOk(b, groups) && g < |groups| && r < |groups[g].reserves| && groups[g].reserves[r].status == Open
    requires ReserveOk(groups[g], groups[g].reserves[r])
    requires var row := groups[g].reserves[r]; var next := WithReserve(groups[g], r, FullyReleased(row, row.remaining));
      GroupsOk(after, groups[g := next])
    ensures var row := groups[g].reserves[r]; var next := WithReserve(groups[g], r, FullyReleased(row, row.remaining));
      OwedBack(next, u) - OwedBack(groups[g], u)
      == Balance(after.balances, Reserved(u)) - Balance(b.balances, Reserved(u))
  {
    hide GroupsOk, Due;
    var grp, row := groups[g], groups[g].reserves[r];
    var closed := FullyReleased(row, row.remaining);
    BalanceMovesWithDue(b, after, groups, g, WithReserve(grp, r, closed), Reserved(u));
    ReserveChange(g, grp, r, closed, Reserved(u));
    SumUpdate(grp.reserves, r, closed, RemainingPart(u));
  }

  /** Closing a reserve lowers claim and wallet of its owner alike. */
  lemma CloseKeepsBacking(b: Books, groups: seq<Group>, g: nat, r: nat)
    requires GroupsOk(b, groups) && g < |groups| && groups[g].status == Completed && r < |groups[g].reserves|
    requires CloseReserve(b, g, groups[g], r).Ok?
    ensures var l := CloseReserve(b, g, groups[g], r).value;
      GroupsOk(l.books, groups[g := l.grp]) && (ReservesBacked(l.books, l.grp) <==> ReservesBacked(b, groups[g]))
  {
    hide Step, BooksOk, Transfer;
    var grp, row := groups[g], groups[g].reserves[r];
    assert GroupOk(b, g, grp) && ReserveOk(grp, row);
    CloseReserveKeepsGroupOk(b, g, grp, r);
    var l := CloseReserve(b, g, grp, r).value;
    ReplaceGroup(b, groups, g, l.books, l.grp);
    if row.status == Open {
      forall u ensures OwedBack(l.grp, u) - OwedBack(grp, u)
                    == Balance(l.books.balances, Reserved(u)) - Balance(b.balances, Reserved(u))
      {
        ClosingMovesAlike(b, l.books, groups, g, r, u);
      }
    }
  }

  lemma ClosedOweNothing(b: Books, groups: seq<Group>, g: nat)
    requires GroupsOk(b, groups) && g < |groups|
    requires forall q :: 0 <= q < |groups[g].reserves| ==> groups[g].reserves[q].status == Closed
    ensures ReservesBacked(b, groups[g])
  {
    assert GroupOk(b, g, groups[g]);
    forall u ensures OwedBack(groups[g], u) <= Balance(b.balances, Reserved(u)) {
      assert forall q :: 0 <= q < |groups[g].reserves| ==> ReserveOk(groups[g], groups[g].reserves[q]);
      SumZero(groups[g].reserves, RemainingPart(u));
      assert Balance(b.balances, Reserved(u)) >= 0;
    }
  }

  lemma RefusedIsUnbacked(b: Books, groups: seq<Group>, g: nat, r: nat)
    requires GroupsOk(b, groups) && g < |groups| && r < |groups[g].reserves| && CloseReserve(b, g, groups[g], r).Err?
    ensures !ReservesBacked(b, groups[g])
  {
    hide GroupsOk;
    var row := groups[g].reserves[r];
    CloseAcceptedExactly(b, groups, g, r);
    RemainingBounds(b, groups, g, row.user);
    assert RemainingPart(row.user)(row) <= OwedBack(groups[g], row.user);
  }

  lemma {:induction false} ClosesAcceptedExactly(b: Books, groups: seq<Group>, g: nat, r: nat)
    requires GroupsOk(b, groups) && g < |groups| && groups[g].status == Completed && r <= |groups[g].reserves|
    requires forall q :: 0 <= q < r ==> groups[g].reserves[q].status == Closed
    ensures CloseReservesFrom(b, g, groups[g], r).Ok? <==> ReservesBacked(b, groups[g])
    decreases |groups[g].reserves| - r
  {
    hide GroupOk, BooksOk;
    var grp := groups[g];
    assert GroupOk(b, g, grp);
    if r == |grp.reserves| {
      ClosedOweNothing(b, groups, g);
    } else if CloseReserve(b, g, grp, r).Ok? {
      CloseReserveKeepsGroupOk(b, g, grp, r);
      CloseKeepsBacking(b, groups, g, r);
      var l := CloseReserve(b, g, grp, r).value;
      ClosesAcceptedExactly(l.books, groups[g := l.grp], g, r + 1);
    } else {
      RefusedIsUnbacked(b, groups, g, r);
    }
  }

  lemma CompletionAcceptedExactly(b: Books, groups: seq<Group>, g: nat)
    requires GroupsOk(b, groups) && g < |groups| && groups[g].status == Completed
    ensures CompleteTx(b, groups, g, groups[g]).Ok? <==> ReservesBacked(b, groups[g])
  {
    hide Step, GroupOk, BooksOk;
    assert GroupOk(b, g, groups[g]);
    ReturnsNeverRefused(b, groups, g, 0);
    ReturnDepositsKeepGroupOk(b, g, groups[g], 0);
    var d := ReturnDepositsFrom(b, g, groups[g], 0).value;
    ReplaceGroup(b, groups, g, d.books, d.grp);
    SameReservesSameBacking(b, d.books, groups, g, d.grp);
    ClosesAcceptedExactly(d.books, groups[g := d.grp], g, 0);
    if CloseReservesFrom(d.books, g, d.grp, 0).Ok? {
      CloseReservesKeepGroupOk(d.books, g, d.grp, 0);
      var c := CloseReservesFrom(d.books, g, d.grp, 0).value;
      ExtendsTransitive(b, d.books, c.books, g);
      ReplaceGroup(b, groups, g, c.books, c.grp);
      SweepsAreIdle(c.books, groups[g := c.grp], OpenUsers(d.grp.reserves));
    }
  }

  /** The last cycle holds nothing back, so it adds no reserve row. */
  lemma LastAwardReservesNothing(cfg: ReserveConfig, b: Books, g: nat, grp: Group, k: nat)
    requires RowsOk(grp) && AllocateTx(cfg, b, g, grp, k).Ok?
    ensures var next := AllocateTx(cfg, b, g, grp, k).value.grp;
      && (next.status == Completed <==> k == grp.terms.slots)
      && (k == grp.terms.slots ==> next.reserves == grp.reserves)
  {
    hide GroupOk, AllocateTx;
    AllocateShape(cfg, b, g, grp, k);
  }

  /**
   * Completing the group adds exactly one way for the last finalization to fail: a reserved wallet
   * that holds less than the group's open reserves would release.
   */
  lemma FinalizeAcceptedExactly(cfg: ReserveConfig, b: Books, groups: seq<Group>, g: nat, k: nat)
    requires GroupsOk(b, groups) && g < |groups|
    ensures FinalizeTx(cfg, b, groups, g, k).Ok? <==>
      && AllocateTx(cfg, b, g, groups[g], k).Ok?
      && (k == groups[g].terms.slots ==> ReservesBacked(b, groups[g]))
  {
    hide Step, BooksOk, RowsOk, AllocateTx, CompleteTx;
    var first := AllocateTx(cfg, b, g, groups[g], k);
    assert GroupOk(b, g, groups[g]);
    if first.Ok? {
      var l := first.value;
      LastAwardReservesNothing(cfg, b, g, groups[g], k);
      if l.grp.status == Completed {
        AllocateKeepsGroupOk(cfg, b, g, groups[g], k);
        ReplaceGroup(b, groups, g, l.books, l.grp);
        SameCompletion(l.books, groups, g, l.grp);
        SameReservesSameBacking(b, l.books, groups, g, l.grp);
        CompletionAcceptedExactly(l.books, groups[g := l.grp], g);
      }
    }
  }

  /** The wallets do hold it when no owner of one of the group's open reserves has an overdrawn one. */
  lemma SoundOwnersAreBacked(b: Books, groups: seq<Group>, g: nat)
    requires GroupsOk(b, groups) && g < |groups|
    requires forall r :: 0 <= r < |groups[g].reserves| && groups[g].reserves[r].status == Open ==>
      NoneOverdrawn(groups, groups[g].reserves[r].user)
    ensures ReservesBacked(b, groups[g])
  {
    var grp := groups[g];
    assert GroupOk(b, g, grp);
    forall u ensures OwedBack(grp, u) <= Balance(b.balances, Reserved(u)) {
      if NoneOverdrawn(groups, u) {
        ReservedAgreesExactly(b, groups, u);
        forall h: nat | h < |groups| ensures RemainingOn(groups, u)(h) >= 0 {
          RemainingBounds(b, groups, h, u);
        }
        SumToNonNegative(|groups|, RemainingOn(groups, u));
        assert RemainingOn(groups, u)(g) == OwedBack(grp, u);
      } else {
        forall r | 0 <= r < |grp.reserves| ensures RemainingPart(u)(grp.reserves[r]) == 0 {
          assert ReserveOk(grp, grp.reserves[r]);
        }
        SumZero(grp.reserves, RemainingPart(u));
        assert Balance(b.balances, Reserved(u)) >= 0;
      }
    }
  }

  /**
   * Over every run without recounts: a ready cycle of a group where nobody missed more than one
   * cycle is finalized exactly when someone is eligible, the margin does not floor to nothing and, in
   * the last cycle, the reserved wallets hold what the group's open reserves release.
   */
  lemma FundedCyclesFinalize(cfg: ReserveConfig, ops: seq<Op>, g: nat, k: nat)
    requires NoRecounts(Init(cfg), ops) && cfg.minBps < BPS_DENOMINATOR
      && (!cfg.enabled || 0 <= cfg.maxBps <= BPS_DENOMINATOR)
    requires var s := Run(Init(cfg), ops); g < |s.groups| && FinalizeFault(s.groups[g], k).None?
    requires var grp := Run(Init(cfg), ops).groups[g];
      grp.terms.mode == Daily || forall i: nat :: i < |grp.members| ==> MissedCycles(grp, i) <= 1
    ensures var s := Run(Init(cfg), ops); var grp := s.groups[g];
      FinalizeStep(s, g, k).Ok? <==>
        && SelectPayoutRecipient(grp.members, k, grp.payoutOverride).recipient.Some?
        && CycleOf(grp.terms).gross * grp.terms.marginBps >= BPS_DENOMINATOR
        && (k == grp.terms.slots ==> ReservesBacked(s.books, grp))
  {
    hide Step, GroupOk, BooksOk;
    RunsKeepSysOk(cfg, ops);
    var s := Run(Init(cfg), ops);
    assert GroupOk(s.books, g, s.groups[g]);
    ReadyPoolIsFunded(s.books, s.groups, g, k);
    FinalizeAcceptedExactly(cfg, s.books, s.groups, g, k);
    if SelectPayoutRecipient(s.groups[g].members, k, s.groups[g].payoutOverride).recipient.Some? {
      AllocateAcceptedUsually(cfg, s.books, s.groups, g, k);
    }
  }
}
