/**
 * Groups in which nobody ever defaulted: who was paid, and where every pesewa is once the group
 * is complete. A default forfeits a deposit for good, so such groups are recognised by their rows.
 */
module Closing {
  import opened Wrappers
  import opened Accounts
  import opened Sums
  import opened Ledger
  import opened Calculations
  import opened Preview
  import opened ReserveMath
  import opened Rows
  import opened PayoutQueue
  import opened Engine
  import opened Accounting
  import opened RowInvariants
  import opened GroupSafety
  import opened Protocol
  import opened PoolSolvency
  import opened QueueSafety

  /** No member of the group ever defaulted; always so in DAILY groups. */
  ghost predicate NoForfeit(grp: Group) {
    forall i :: 0 <= i < |grp.members| ==> grp.members[i].deposit != Forfeited
  }

  /** Turns are never traded, reserves never used, and cycle `k` pays the member of turn `k`. */
  ghost predicate CleanFacts(grp: Group) {
    && grp.covers == []
    && |grp.payouts| <= |grp.members|
    && (forall i :: 0 <= i < |grp.members| ==> grp.members[i].payoutOrder == i + 1)
    && (forall r :: 0 <= r < |grp.reserves| ==> grp.reserves[r].usedForDefault == 0)
    && (forall p :: 0 <= p < |grp.payouts| ==> grp.payouts[p].recipient == grp.members[p].user)
  }

  ghost predicate CleanOk(grp: Group) { NoForfeit(grp) ==> CleanFacts(grp) }

  /** Rows that keep turns, payouts, covers and reserve use, and never un-forfeit, stay clean. */
  lemma SameClean(grp: Group, next: Group)
    requires CleanOk(grp) && next.payouts == grp.payouts && next.covers == grp.covers
    requires |next.members| == |grp.members| && |next.reserves| == |grp.reserves|
    requires forall i :: 0 <= i < |grp.members| ==>
      && next.members[i].user == grp.members[i].user && next.members[i].payoutOrder == grp.members[i].payoutOrder
      && (grp.members[i].deposit == Forfeited ==> next.members[i].deposit == Forfeited)
    requires forall r :: 0 <= r < |grp.reserves| ==> next.reserves[r].usedForDefault == grp.reserves[r].usedForDefault
    ensures CleanOk(next)
  {
  }

  lemma JoinKeepsClean(b: Books, g: nat, grp: Group, user: nat)
    requires RowsOk(grp) && CleanOk(grp) && JoinTx(b, g, grp, user).Ok?
    ensures CleanOk(JoinTx(b, g, grp, user).value.grp)
  {
    TurnsCount(grp.members);
    var next := JoinTx(b, g, grp, user).value.grp;
    assert grp.status == Draft;
    assert forall i :: 0 <= i < |grp.members| ==> next.members[i] == grp.members[i];
  }

  /** A default leaves a forfeited deposit behind. */
  lemma DefaultForfeits(cfg: ReserveConfig, b: Books, g: nat, grp: Group, i: nat)
    requires GroupOk(b, g, grp) && grp.status == Active && grp.terms.mode == Cycle && i < |grp.members|
    requires DefaultTx(cfg, b, g, grp, i).Ok?
    ensures !NoForfeit(DefaultTx(cfg, b, g, grp, i).value.grp)
  {
    hide GroupOk, BooksOk, ForfeitTx, Transfer;
    ForfeitKeepsGroupOk(b, g, grp, i);
    assert DefaultTx(cfg, b, g, grp, i).value.grp.members[i].deposit == Forfeited;
  }

  lemma {:induction false} SyncKeepsClean(cfg: ReserveConfig, b: Books, g: nat, grp: Group, i: nat, today: int)
    requires GroupOk(b, g, grp) && grp.status == Active && grp.terms.mode == Cycle && CleanOk(grp)
    ensures CleanOk(SyncFrom(cfg, b, g, grp, i, today).local.grp)
    decreases |grp.members| - i
  {
    hide Step, GroupOk;
    if i < |grp.members| && SyncMember(cfg, b, g, grp, i, today).Ok? {
      var l := SyncMember(cfg, b, g, grp, i, today).value;
      if NextStanding(grp, i, today).None? {
        DefaultForfeits(cfg, b, g, grp, i);
      } else {
        SameClean(grp, l.grp);
      }
      SyncMemberKeepsGroupOk(cfg, b, g, grp, i, today);
      SyncKeepsClean(cfg, l.books, g, l.grp, i + 1, today);
    }
  }

  lemma GroupSyncKeepsClean(cfg: ReserveConfig, b: Books, g: nat, grp: Group, today: int)
    requires GroupOk(b, g, grp) && CleanOk(grp)
    ensures CleanOk(SyncGroup(cfg, b, g, grp, today).local.grp)
  {
    hide GroupOk, SyncFrom;
    if grp.status == Active && grp.terms.mode == Cycle {
      SyncKeepsClean(cfg, b, g, grp, 0, today);
    } else {
      SameClean(grp, SyncGroup(cfg, b, g, grp, today).local.grp);
    }
  }

  /** In a clean group nobody is defaulted, so cycle `k` goes to turn `k`. */
  lemma CleanRecipient(cfg: ReserveConfig, b: Books, g: nat, grp: Group, k: nat)
    requires RowsOk(grp) && NoForfeit(grp) && CleanFacts(grp) && AllocateTx(cfg, b, g, grp, k).Ok?
    ensures k >= 1 && SelectPayoutRecipient(grp.members, k, grp.payoutOverride).recipient == Some(k - 1)
    ensures |grp.payouts| == k - 1 < |grp.members|
  {
    hide GroupOk, AllocateTx;
    AllocateShape(cfg, b, g, grp, k);
    NominalIsNext(grp, k);
    TurnOrderQueue(grp.members);
    assert MemberOk(grp.terms, grp.status, grp.members[k - 1]);
  }

  /** One more payout, to `user`, and at most one more reserve; turns, deposits and covers as before. */
  ghost predicate AwardedTo(grp: Group, next: Group, user: nat) {
    && next.covers == grp.covers && |next.members| == |grp.members| && |next.payouts| == |grp.payouts| + 1
    && (forall i :: 0 <= i < |grp.members| ==>
          && next.members[i].user == grp.members[i].user && next.members[i].payoutOrder == grp.members[i].payoutOrder
          && next.members[i].deposit == grp.members[i].deposit)
    && (forall p :: 0 <= p < |grp.payouts| ==> next.payouts[p] == grp.payouts[p])
    && next.payouts[|grp.payouts|].recipient == user
    && |grp.reserves| <= |next.reserves| <= |grp.reserves| + 1
    && (forall r :: 0 <= r < |grp.reserves| ==> next.reserves[r] == grp.reserves[r])
    && (|next.reserves| > |grp.reserves| ==> next.reserves[|grp.reserves|].usedForDefault == 0)
  }

  lemma FinalizeRowsAward(grp: Group, k: nat, user: nat, skipped: seq<nat>, summary: CycleSummary, split: Split)
    ensures AwardedTo(grp, FinalizeRows(grp, k, user, skipped, summary, split), user)
  {
  }

  lemma AwardKeepsClean(grp: Group, next: Group, user: nat)
    requires CleanOk(grp) && AwardedTo(grp, next, user) && |grp.payouts| < |grp.members|
    requires NoForfeit(grp) ==> user == grp.members[|grp.payouts|].user
    ensures CleanOk(next)
  {
    if NoForfeit(next) {
      forall i | 0 <= i < |grp.members| ensures grp.members[i].deposit != Forfeited {
        assert next.members[i].deposit == grp.members[i].deposit;
      }
    }
  }

  lemma AllocateKeepsClean(cfg: ReserveConfig, b: Books, g: nat, grp: Group, k: nat)
    requires RowsOk(grp) && CleanOk(grp) && AllocateTx(cfg, b, g, grp, k).Ok?
    ensures CleanOk(AllocateTx(cfg, b, g, grp, k).value.grp)
  {
    hide GroupOk, RowsOk, AllocateTx;
    AllocateShape(cfg, b, g, grp, k);
    var aw := AwardOf(cfg, grp, k);
    FinalizeRowsAward(grp, k, aw.user, aw.skipped, CycleOf(grp.terms), aw.split);
    NominalIsNext(grp, k);
    if NoForfeit(grp) { CleanRecipient(cfg, b, g, grp, k); }
    AwardKeepsClean(grp, FinalizeRows(grp, k, aw.user, aw.skipped, CycleOf(grp.terms), aw.split), aw.user);
  }

  lemma FinalizeKeepsClean(cfg: ReserveConfig, b: Books, groups: seq<Group>, g: nat, k: nat)
    requires g < |groups| && RowsOk(groups[g]) && CleanOk(groups[g]) && FinalizeTx(cfg, b, groups, g, k).Ok?
    ensures CleanOk(FinalizeTx(cfg, b, groups, g, k).value.grp)
  {
    hide Step, AllocateTx, CompleteTx;
    AllocateKeepsClean(cfg, b, g, groups[g], k);
    FinalizationShape(cfg, b, groups, g, k);
    var grp, next := AllocateTx(cfg, b, g, groups[g], k).value.grp, FinalizeTx(cfg, b, groups, g, k).value.grp;
    if next != grp { SameClean(grp, next); }
  }

  ghost predicate AllClean(s: Sys) { forall h :: 0 <= h < |s.groups| ==> CleanOk(s.groups[h]) }

  lemma GroupStepKeepsClean(s: Sys, op: Op, g: nat)
    requires SysOk(s) && g < |s.groups| && CleanOk(s.groups[g])
    ensures g < |Step(s, op).groups| && CleanOk(Step(s, op).groups[g])
  {
    hide Step, JoinTx, SettleTx, SyncGroup, FinalizeTx, CleanOk, BooksOk;
    StepShape(s, op, g);
    assert GroupOk(s.books, g, s.groups[g]);
    var grp, next := s.groups[g], Step(s, op).groups[g];
    if next != grp {
      match op
      case Pay(_, k, i, ref) =>
        PaymentShape(s.cfg, s.books, g, grp, k, i, RefSeen(s, ref));
        SameClean(grp, next);
      case Sync(_, today) => GroupSyncKeepsClean(s.cfg, s.books, g, grp, today);
      case Finalize(_, k) => FinalizeKeepsClean(s.cfg, s.books, s.groups, g, k);
      case Join(_, user) => JoinKeepsClean(s.books, g, grp, user);
      case _ => SameClean(grp, next);
    }
  }

  lemma StepKeepsClean(s: Sys, op: Op)
    requires SysOk(s) && AllClean(s)
    ensures AllClean(Step(s, op))
  {
    hide Step, SysOk, PreviewOf;
    var next := Step(s, op);
    forall h: nat | h < |next.groups| ensures CleanOk(next.groups[h]) {
      if h < |s.groups| { GroupStepKeepsClean(s, op, h); } else { NewGroupShape(s, op, h); }
    }
  }

  lemma {:induction false} RunsKeepClean(cfg: ReserveConfig, ops: seq<Op>)
    requires NoRecounts(Init(cfg), ops)
    ensures AllClean(Run(Init(cfg), ops))
  {
    hide Step, SysOk, SettleTx;
    if ops != [] {
      RunsKeepClean(cfg, ops[..|ops| - 1]);
      RunsKeepSysOk(cfg, ops[..|ops| - 1]);
      StepKeepsClean(Run(Init(cfg), ops[..|ops| - 1]), ops[|ops| - 1]);
    }
  }

  // ---- Closing balances ---------------------------------------------------------------------------------

  lemma FinalizedRowPaid(grp: Group, k: nat)
    requires RowsOk(grp) && NoForfeit(grp) && k < |grp.payouts|
    ensures SumOf(grp.cycles[k], DaysOf()) == |grp.members| * grp.terms.days
  {
    TermsFacts(grp.terms);
    assert CycleRowOk(grp.terms, |grp.members|, grp.cycles[k]);
    forall i | 0 <= i < |grp.members| ensures DaysOf()(grp.cycles[k][i]) == grp.terms.days {
      assert ContributionOk(grp.terms, grp.cycles[k][i]);
      assert grp.members[i].deposit != Forfeited;
    }
    SumConst(grp.cycles[k], DaysOf(), grp.terms.days);
  }

  /** A completed clean group has collected every day of every cycle. */
  lemma AllDaysPaid(grp: Group)
    requires RowsOk(grp) && grp.status == Completed && NoForfeit(grp)
    ensures grp.terms.perDay * PaidDays(grp) == grp.terms.slots * CycleOf(grp.terms).gross
  {
    var n, perDay, days := grp.terms.slots, grp.terms.perDay, grp.terms.days;
    TermsFacts(grp.terms);
    forall k | 0 <= k < |grp.cycles| ensures RowDays()(grp.cycles[k]) == n * days {
      FinalizedRowPaid(grp, k);
    }
    SumConst(grp.cycles, RowDays(), n * days);
    DaysTimesRate(perDay, n, days);
  }

  lemma DaysTimesRate(perDay: int, n: int, days: int)
    ensures perDay * (n * (n * days)) == n * (n * (perDay * days))
  {
    assert perDay * (n * days) == n * (perDay * days);
    assert perDay * (n * (n * days)) == n * (perDay * (n * days));
  }

  lemma ClosingPool(g: nat, grp: Group)
    requires RowsOk(grp) && grp.status == Completed && NoForfeit(grp) && CleanFacts(grp)
    ensures Due(g, grp, GroupPool(g)) == 0
  {
    hide CycleOf;
    var a := GroupPool(g);
    AllDaysPaid(grp);
    SumZero(grp.members, MemberPart(g, a));
    SumZero(grp.reserves, ReservePart(a));
    SumZero(grp.payments, PaymentPart(a));
    PaidOutTotals(g, grp);
  }

  lemma ClosingRevenue(g: nat, grp: Group)
    requires RowsOk(grp)
    ensures Due(g, grp, Revenue) == |grp.payouts| * CycleOf(grp.terms).serviceMargin
  {
    SumZero(grp.members, MemberPart(g, Revenue));
    SumZero(grp.reserves, ReservePart(Revenue));
    SumZero(grp.payouts, PayoutPart(g, Revenue));
    forall p: nat | p < |grp.payouts| ensures grp.earnings[p].platformShare == CycleOf(grp.terms).serviceMargin {
      assert PayoutOk(grp, p);
    }
    SumConst(grp.earnings, EarningPart(g, Revenue), CycleOf(grp.terms).serviceMargin);
    SumZero(grp.payments, PaymentPart(Revenue));
    SumZero(grp.covers, CoverPart(g, Revenue));
  }

  /** Drained reserves of a clean group gave everything back. */
  lemma ClosingReserves(grp: Group, a: Account)
    requires RowsOk(grp) && CleanFacts(grp) && Drained(grp)
    ensures SumOf(grp.reserves, ReservePart(a)) == 0
  {
    forall r | 0 <= r < |grp.reserves| ensures ReservePart(a)(grp.reserves[r]) == 0 {
      assert ReserveOk(grp, grp.reserves[r]);
    }
    SumZero(grp.reserves, ReservePart(a));
  }

  lemma ClosingMember(g: nat, grp: Group, i: nat)
    requires RowsOk(grp) && grp.status == Completed && NoForfeit(grp) && CleanFacts(grp) && Drained(grp)
      && i < |grp.members|
    ensures var user := grp.members[i].user;
      && Due(g, grp, Available(user)) == CycleOf(grp.terms).netAfterMargin + DepositRequiredAmount(grp.terms)
      && Due(g, grp, Reserved(user)) == 0
      && Due(g, grp, Escrow(user)) == 0
  {
    hide Step;
    var user := grp.members[i].user;
    var a := Available(user);
    TermsFacts(grp.terms);
    ClosingReserves(grp, a);
    ClosingReserves(grp, Reserved(user));
    ReservedDue(g, grp, user);
    forall j: nat | j < |grp.members| ensures grp.members[j].user == user <==> j == i {
      UsersDiffer(grp, i, j);
    }
    assert MemberOk(grp.terms, grp.status, grp.members[i]);
    SumSingle(grp.members, MemberPart(g, a), i);
    assert PayoutOk(grp, i);
    SumSingle(grp.payouts, PayoutPart(g, a), i);
    SumZero(grp.earnings, EarningPart(g, a));
    SumZero(grp.payments, PaymentPart(a));
    NothingInEscrow(g, grp, user);
  }

  lemma NothingInEscrow(g: nat, grp: Group, user: nat)
    requires Drained(grp)
    ensures Due(g, grp, Escrow(user)) == 0
  {
    var a := Escrow(user);
    SumZero(grp.members, MemberPart(g, a));
    SumZero(grp.reserves, ReservePart(a));
    SumZero(grp.payouts, PayoutPart(g, a));
    SumZero(grp.earnings, EarningPart(g, a));
    SumZero(grp.payments, PaymentPart(a));
    SumZero(grp.covers, CoverPart(g, a));
  }

  /** What group `g` moved for one member by the time it is complete. */
  ghost predicate MemberClosed(b: Books, g: nat, t: Terms, user: nat) {
    && Flow(b.journals, g, Available(user)) == CycleOf(t).netAfterMargin + DepositRequiredAmount(t)
    && Flow(b.journals, g, Reserved(user)) == 0
    && Flow(b.journals, g, Escrow(user)) == 0
  }

  lemma ClosingOfGroup(b: Books, g: nat, grp: Group)
    requires GroupOk(b, g, grp) && grp.status == Completed && NoForfeit(grp) && CleanFacts(grp) && Drained(grp)
    ensures Flow(b.journals, g, GroupPool(g)) == 0
    ensures Flow(b.journals, g, Revenue) == grp.terms.slots * CycleOf(grp.terms).serviceMargin
    ensures forall i :: 0 <= i < |grp.members| ==> MemberClosed(b, g, grp.terms, grp.members[i].user)
  {
    hide Step, Due;
    ClosingPool(g, grp);
    ClosingRevenue(g, grp);
    forall i: nat | i < |grp.members| ensures MemberClosed(b, g, grp.terms, grp.members[i].user) {
      ClosingMember(g, grp, i);
    }
  }

  /**
   * Over every run without recounts, whatever the payment order, the other groups and the
   * reserve settings: a completed group in which no deposit was forfeited has emptied its pool,
   * earned one margin per member, and moved to each member one net payout plus the deposit, with
   * nothing left in reserve or escrow.
   */
  lemma ClosingBalances(cfg: ReserveConfig, ops: seq<Op>, g: nat)
    requires NoRecounts(Init(cfg), ops)
    requires var s := Run(Init(cfg), ops); g < |s.groups| && s.groups[g].status == Completed && NoForfeit(s.groups[g])
    ensures var s := Run(Init(cfg), ops);
      var grp := s.groups[g];
      && Balance(s.books.balances, GroupPool(g)) == 0
      && Flow(s.books.journals, g, Revenue) == grp.terms.slots * CycleOf(grp.terms).serviceMargin
      && forall i :: 0 <= i < |grp.members| ==> MemberClosed(s.books, g, grp.terms, grp.members[i].user)
  {
    hide Step, RowsOk, SettleTx;
    RunsKeepSysOk(cfg, ops);
    RunsKeepClean(cfg, ops);
    var s := Run(Init(cfg), ops);
    assert GroupOk(s.books, g, s.groups[g]);
    ClosingOfGroup(s.books, g, s.groups[g]);
    PoolIsDue(s.books, s.groups, g);
  }

  /** In a DAILY group nobody can default, so every completed DAILY group closes like that. */
  lemma DailyNeverForfeits(grp: Group)
    requires RowsOk(grp) && grp.terms.mode == Daily
    ensures NoForfeit(grp)
  {
    assert forall i :: 0 <= i < |grp.members| ==> MemberOk(grp.terms, grp.status, grp.members[i]);
  }
}
