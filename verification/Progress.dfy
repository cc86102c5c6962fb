/** How long a group can run: payments and finalizations use up a fixed allowance of days. */
module Progress {
  import opened Wrappers
  import opened Sums
  import opened Ledger
  import opened Preview
  import opened ReserveMath
  import opened Rows
  import opened Engine
  import opened Accounting
  import opened RowInvariants
  import opened GroupSafety
  import opened Protocol

  function UnpaidOf(): Contribution -> int { (c: Contribution) => c.expectedDays - c.paidDays }

  /** Days still to be paid in the running cycle. */
  function UnpaidDays(grp: Group): int {
    if grp.status == Active && 1 <= grp.currentCycle <= |grp.cycles|
    then SumOf(grp.cycles[grp.currentCycle - 1], UnpaidOf()) else 0
  }

  function CyclesLeft(grp: Group): int { grp.terms.slots - |grp.payouts| }

  function DaysPerCycleOfGroup(t: Terms): int { t.slots * MemberCyclePaymentDays(t) }

  /** Day payments a group can still record before it completes. */
  function DaysLeft(grp: Group): int {
    match grp.status
    case Draft => grp.terms.slots * DaysPerCycleOfGroup(grp.terms)
    case Active => (CyclesLeft(grp) - 1) * DaysPerCycleOfGroup(grp.terms) + UnpaidDays(grp)
    case Completed => 0
  }

  lemma UnpaidBounds(grp: Group)
    requires RowsOk(grp)
    ensures 0 <= UnpaidDays(grp)
    ensures CyclesLeft(grp) >= 0 && (grp.status == Active ==> CyclesLeft(grp) >= 1)
    ensures DaysLeft(grp) >= 0
  {
    TermsFacts(grp.terms);
    if grp.status == Active {
      var row := grp.cycles[grp.currentCycle - 1];
      assert CycleRowOk(grp.terms, |grp.members|, row);
      forall i | 0 <= i < |row| ensures UnpaidOf()(row[i]) >= 0 {
        assert ContributionOk(grp.terms, row[i]);
      }
      SumNonNegative(row, UnpaidOf());
    }
    ProductNonNegative(grp.terms.slots, grp.terms.days);
    ProductNonNegative(CyclesLeft(grp) - 1, DaysPerCycleOfGroup(grp.terms));
    ProductNonNegative(grp.terms.slots, DaysPerCycleOfGroup(grp.terms));
  }

  lemma ProductNonNegative(a: int, b: int)
    ensures a >= 0 && b >= 0 ==> a * b >= 0
  {
  }

  lemma FreshCycleUnpaid(t: Terms, n: nat)
    ensures SumOf(OpenCycle(t, n), UnpaidOf()) == n * MemberCyclePaymentDays(t)
  {
    SumConst(OpenCycle(t, n), UnpaidOf(), MemberCyclePaymentDays(t));
  }

  // ---- What each transaction uses up -----------------------------------------------------------------------

  lemma ContributionUses(grp: Group, k: nat, i: nat, c: Contribution)
    requires grp.status == Active && k == grp.currentCycle && HasContribution(grp, k, i)
    requires c.expectedDays == ContributionAt(grp, k, i).expectedDays
    ensures UnpaidDays(WithContribution(grp, k, i, c))
         == UnpaidDays(grp) - (c.paidDays - ContributionAt(grp, k, i).paidDays)
  {
    SumUpdate(grp.cycles[k - 1], i, c, UnpaidOf());
  }

  /** An accepted payment, whatever its reference, uses exactly one day. */
  lemma PaymentUsesOneDay(cfg: ReserveConfig, b: Books, g: nat, grp: Group, k: nat, i: nat, refSeen: bool)
    requires SettleTx(cfg, b, g, grp, k, i, refSeen).Ok?
    ensures var next := SettleTx(cfg, b, g, grp, k, i, refSeen).value.grp;
      && UnpaidDays(next) == UnpaidDays(grp) - 1 && CyclesLeft(next) == CyclesLeft(grp)
      && DaysLeft(next) == DaysLeft(grp) - 1
  {
    ContributionUses(grp, k, i, OneMoreDay(ContributionAt(grp, k, i)));
    var next := SettleTx(cfg, b, g, grp, k, i, refSeen).value.grp;
    assert next.cycles == Counted(grp, k, i).cycles;
  }

  /** A sync never gives days back. */
  lemma SyncMemberUses(cfg: ReserveConfig, b: Books, g: nat, grp: Group, i: nat, today: int)
    requires GroupOk(b, g, grp) && grp.status == Active && grp.terms.mode == Cycle
    requires i < |grp.members| && SyncMember(cfg, b, g, grp, i, today).Ok?
    ensures var next := SyncMember(cfg, b, g, grp, i, today).value.grp;
      UnpaidDays(next) <= UnpaidDays(grp) && next.payouts == grp.payouts
  {
    hide Transfer, BooksOk, KeysSpent, Reconciled, CoverTx, NextStanding;
    if NextStanding(grp, i, today).None? {
      var f := ForfeitTx(b, g, WithStanding(grp, i, Defaulted), i).value;
      if HasReceivedPayout(f.grp, grp.members[i].user) {
        CoverUses(cfg, f.books, g, f.grp, i);
      }
    }
  }

  lemma CoverUses(cfg: ReserveConfig, b: Books, g: nat, grp: Group, i: nat)
    requires grp.status == Active && CyclesOk(grp) && i < |grp.members|
    requires CoverTx(cfg, b, g, grp, grp.currentCycle, i).Ok?
    ensures var next := CoverTx(cfg, b, g, grp, grp.currentCycle, i).value.grp;
      UnpaidDays(next) <= UnpaidDays(grp) && next.payouts == grp.payouts
  {
    var k := grp.currentCycle;
    var (r, missed, amount) := CoverDue(cfg, grp, k, i);
    if amount > 0 && amount >= missed {
      var c := ContributionAt(grp, k, i);
      assert CycleRowOk(grp.terms, |grp.members|, grp.cycles[k - 1]);
      assert ContributionOk(grp.terms, c);
      ContributionUses(grp, k, i, c.(status := Paid, paidDays := c.expectedDays));
    }
  }

  lemma {:induction false} SyncUses(cfg: ReserveConfig, b: Books, g: nat, grp: Group, i: nat, today: int)
    requires GroupOk(b, g, grp) && grp.status == Active && grp.terms.mode == Cycle
    ensures var next := SyncFrom(cfg, b, g, grp, i, today).local.grp;
      UnpaidDays(next) <= UnpaidDays(grp) && next.payouts == grp.payouts
    decreases |grp.members| - i
  {
    hide GroupOk, SyncMember;
    if i < |grp.members| && SyncMember(cfg, b, g, grp, i, today).Ok? {
      SyncMemberUses(cfg, b, g, grp, i, today);
      SyncMemberKeepsGroupOk(cfg, b, g, grp, i, today);
      var l := SyncMember(cfg, b, g, grp, i, today).value;
      SyncUses(cfg, l.books, g, l.grp, i + 1, today);
    }
  }

  lemma OneCycleFewer(cycles: int, d: int)
    ensures (cycles - 1) * d == (cycles - 2) * d + d
  {
  }

  lemma AwardUses(grp: Group, k: nat, user: nat, skipped: seq<nat>, split: Split)
    requires RowsOk(grp) && FinalizeFault(grp, k).None?
    ensures var next := FinalizeRows(grp, k, user, skipped, CycleOf(grp.terms), split);
      && CyclesLeft(next) == CyclesLeft(grp) - 1 && DaysLeft(next) <= DaysLeft(grp)
  {
    hide Step;
    UnpaidBounds(grp);
    var next := FinalizeRows(grp, k, user, skipped, CycleOf(grp.terms), split);
    if k < grp.terms.slots {
      FreshCycleUnpaid(grp.terms, |grp.members|);
      assert next.cycles[k] == OpenCycle(grp.terms, |grp.members|);
      assert UnpaidDays(next) == DaysPerCycleOfGroup(grp.terms);
      OneCycleFewer(CyclesLeft(grp), DaysPerCycleOfGroup(grp.terms));
    }
  }

  /** An accepted finalization uses one cycle and never adds days. */
  lemma FinalizeUsesOneCycle(cfg: ReserveConfig, b: Books, groups: seq<Group>, g: nat, k: nat)
    requires GroupsOk(b, groups) && g < |groups| && FinalizeTx(cfg, b, groups, g, k).Ok?
    ensures var next := FinalizeTx(cfg, b, groups, g, k).value.grp;
      && next.terms == groups[g].terms && |next.payouts| == |groups[g].payouts| + 1
      && CyclesLeft(next) == CyclesLeft(groups[g]) - 1 && DaysLeft(next) <= DaysLeft(groups[g])
      && (next.status == Completed <==> CyclesLeft(next) == 0)
  {
    hide BooksOk, CompleteTx;
    var grp := groups[g];
    assert GroupOk(b, g, grp);
    AllocateShape(cfg, b, g, grp, k);
    var aw := AwardOf(cfg, grp, k);
    AwardUses(grp, k, aw.user, aw.skipped, aw.split);
    AllocateKeepsGroupOk(cfg, b, g, grp, k);
    FinalizationShape(cfg, b, groups, g, k);
  }

  // ---- Whole runs ---------------------------------------------------------------------------------------------

  predicate PaysInto(s: Sys, op: Op, g: nat) {
    op.Pay? && op.group == g && PayStep(s, g, op.cycle, op.member, op.ref).Ok?
  }

  predicate FinalizesIn(s: Sys, op: Op, g: nat) {
    op.Finalize? && op.group == g && FinalizeStep(s, g, op.cycle).Ok?
  }

  /** Accepted payments into group `g` along a run. */
  function PaymentCount(s: Sys, ops: seq<Op>, g: nat): nat {
    if ops == [] then 0
    else
      PaymentCount(s, ops[..|ops| - 1], g)
      + if PaysInto(Run(s, ops[..|ops| - 1]), ops[|ops| - 1], g) then 1 else 0
  }

  function FinalizationCount(s: Sys, ops: seq<Op>, g: nat): nat {
    if ops == [] then 0
    else
      FinalizationCount(s, ops[..|ops| - 1], g)
      + if FinalizesIn(Run(s, ops[..|ops| - 1]), ops[|ops| - 1], g) then 1 else 0
  }

  lemma GroupSyncUses(cfg: ReserveConfig, b: Books, g: nat, grp: Group, today: int)
    requires GroupOk(b, g, grp)
    ensures var next := SyncGroup(cfg, b, g, grp, today).local.grp;
      && next.payouts == grp.payouts && next.terms == grp.terms && next.status == grp.status
      && UnpaidDays(next) <= UnpaidDays(grp)
  {
    hide SyncFrom, GroupOk;
    SyncKeepsGroupOk(cfg, b, g, grp, today);
    if grp.status == Active && grp.terms.mode == Cycle { SyncUses(cfg, b, g, grp, 0, today); }
  }

  /** One day less to pay, nothing else that counts. */
  ghost predicate UsedOneDay(grp: Group, next: Group) {
    && grp.status == next.status == Active && next.terms == grp.terms && next.payouts == grp.payouts
    && UnpaidDays(next) == UnpaidDays(grp) - 1 && DaysLeft(next) == DaysLeft(grp) - 1
  }

  /** One payout more, and no more days than before. */
  ghost predicate UsedOneCycle(grp: Group, next: Group) {
    next.terms == grp.terms && |next.payouts| == |grp.payouts| + 1 && DaysLeft(next) <= DaysLeft(grp)
  }

  /** No payout more, and no more unpaid days than before. */
  ghost predicate UsedNothing(grp: Group, next: Group) {
    && next.payouts == grp.payouts && next.terms == grp.terms && next.status == grp.status
    && UnpaidDays(next) <= UnpaidDays(grp)
  }

  /** A payment uses a day, a finalization a cycle; no other operation than the activation adds any. */
  lemma StepUses(s: Sys, op: Op, g: nat)
    requires SysOk(s) && g < |s.groups|
    ensures g < |Step(s, op).groups|
    ensures var grp, next := s.groups[g], Step(s, op).groups[g];
      if PaysInto(s, op, g) then UsedOneDay(grp, next)
      else if FinalizesIn(s, op, g) then UsedOneCycle(grp, next)
      else UsedNothing(grp, next) || (op.Activate? && op.group == g && ActivateTx(grp) == Ok(next))
  {
    hide SettleTx, JoinTx, SyncGroup, FinalizeTx, BooksOk, GroupOk, UnpaidDays, CyclesLeft, DaysLeft, PreviewOf;
    assert GroupOk(s.books, g, s.groups[g]);
    StepShape(s, op, g);
    var grp, next := s.groups[g], Step(s, op).groups[g];
    if PaysInto(s, op, g) {
      PaymentUsesOneDay(s.cfg, s.books, g, grp, op.cycle, op.member, RefSeen(s, op.ref));
      PaymentShape(s.cfg, s.books, g, grp, op.cycle, op.member, RefSeen(s, op.ref));
    } else if FinalizesIn(s, op, g) {
      FinalizeUsesOneCycle(s.cfg, s.books, s.groups, g, op.cycle);
    } else if next != grp && op.Sync? {
      GroupSyncUses(s.cfg, s.books, g, grp, op.today);
    } else if next != grp && op.Join? {
      JoinUses(s.books, g, grp, op.user);
    } else if next != grp && op.SetRisk? {
      SameDays(grp, next);
    }
  }

  lemma SameDays(grp: Group, next: Group)
    requires next.cycles == grp.cycles && next.currentCycle == grp.currentCycle && next.status == grp.status
    ensures UnpaidDays(next) == UnpaidDays(grp)
  {
  }

  lemma JoinUses(b: Books, g: nat, grp: Group, user: nat)
    requires JoinTx(b, g, grp, user).Ok?
    ensures UsedNothing(grp, JoinTx(b, g, grp, user).value.grp)
  {
    hide Transfer;
    SameDays(grp, JoinTx(b, g, grp, user).value.grp);
  }

  /**
   * The pair (cycles left, unpaid days) of a running group: a payment lowers the second and keeps the
   * first, a finalization lowers the first, and no other operation raises either.
   */
  lemma StepDescends(s: Sys, op: Op, g: nat)
    requires SysOk(s) && g < |s.groups| && s.groups[g].status == Active
    ensures g < |Step(s, op).groups|
    ensures var grp, next := s.groups[g], Step(s, op).groups[g];
      && (PaysInto(s, op, g) ==> CyclesLeft(next) == CyclesLeft(grp) && UnpaidDays(next) == UnpaidDays(grp) - 1)
      && (FinalizesIn(s, op, g) ==> CyclesLeft(next) == CyclesLeft(grp) - 1)
      && (!PaysInto(s, op, g) && !FinalizesIn(s, op, g) ==>
            CyclesLeft(next) == CyclesLeft(grp) && UnpaidDays(next) <= UnpaidDays(grp))
  {
    hide Step, GroupOk, BooksOk, SettleTx, FinalizeTx, UnpaidDays, DaysLeft;
    assert GroupOk(s.books, g, s.groups[g]);
    StepUses(s, op, g);
  }

  ghost predicate Accounted(s: Sys, g: nat, payments: nat, finalizations: nat) {
    if g < |s.groups| then
      var grp := s.groups[g];
      && finalizations == |grp.payouts|
      && payments + DaysLeft(grp) <= grp.terms.slots * DaysPerCycleOfGroup(grp.terms)
    else payments == 0 && finalizations == 0
  }

  lemma ActivationDays(grp: Group)
    requires RowsOk(grp) && ActivateTx(grp).Ok?
    ensures DaysLeft(ActivateTx(grp).value) == DaysLeft(grp)
    ensures |ActivateTx(grp).value.payouts| == |grp.payouts| == 0
  {
    var next := ActivateTx(grp).value;
    FreshCycleUnpaid(grp.terms, |grp.members|);
    assert next.cycles[0] == OpenCycle(grp.terms, |grp.members|);
    var d := DaysPerCycleOfGroup(grp.terms);
    assert (grp.terms.slots - 1) * d + d == grp.terms.slots * d;
  }

  /** Fewer unpaid days are fewer days left. */
  lemma NothingAdded(grp: Group, next: Group)
    requires UsedNothing(grp, next)
    ensures DaysLeft(next) <= DaysLeft(grp)
  {
  }

  lemma StepAccounts(s: Sys, op: Op, g: nat, payments: nat, finalizations: nat)
    requires SysOk(s) && Accounted(s, g, payments, finalizations)
    ensures Accounted(Step(s, op), g, payments + if PaysInto(s, op, g) then 1 else 0,
                      finalizations + if FinalizesIn(s, op, g) then 1 else 0)
  {
    hide Step, GroupOk, BooksOk, SettleTx, FinalizeTx, UnpaidDays, PreviewOf;
    if g >= |s.groups| {
      if g < |Step(s, op).groups| { NewGroupShape(s, op, g); }
    } else {
      StepUses(s, op, g);
      var grp, next := s.groups[g], Step(s, op).groups[g];
      assert RowsOk(grp) by { RowsOfGroup(s, g); }
      if ActivateTx(grp) == Ok(next) {
        ActivationDays(grp);
      } else if UsedNothing(grp, next) {
        NothingAdded(grp, next);
      }
    }
  }

  lemma RowsOfGroup(s: Sys, g: nat)
    requires SysOk(s) && g < |s.groups|
    ensures RowsOk(s.groups[g])
  {
    hide BooksOk, RowsOk, Reconciled;
    assert GroupOk(s.books, g, s.groups[g]);
  }

  lemma {:induction false} RunsAccount(cfg: ReserveConfig, ops: seq<Op>, g: nat)
    requires NoRecounts(Init(cfg), ops)
    ensures Accounted(Run(Init(cfg), ops), g, PaymentCount(Init(cfg), ops, g), FinalizationCount(Init(cfg), ops, g))
  {
    hide Step, SysOk, AllocateTx;
    if ops != [] {
      var front := ops[..|ops| - 1];
      RunsAccount(cfg, front, g);
      RunsKeepSysOk(cfg, front);
      StepAccounts(Run(Init(cfg), front), ops[|ops| - 1], g,
                   PaymentCount(Init(cfg), front, g), FinalizationCount(Init(cfg), front, g));
    }
  }

  /**
   * A group of n members accepts at most n * n * days payments and exactly one finalization per
   * cycle closed; it is complete exactly when n finalizations were accepted.
   */
  lemma GroupsTerminate(cfg: ReserveConfig, ops: seq<Op>, g: nat)
    requires NoRecounts(Init(cfg), ops) && g < |Run(Init(cfg), ops).groups|
    ensures var grp := Run(Init(cfg), ops).groups[g];
      && PaymentCount(Init(cfg), ops, g) <= grp.terms.slots * (grp.terms.slots * grp.terms.days)
      && FinalizationCount(Init(cfg), ops, g) == |grp.payouts| <= grp.terms.slots
      && (grp.status == Completed <==> FinalizationCount(Init(cfg), ops, g) == grp.terms.slots)
  {
    hide Step, AllocateTx;
    RunsKeepSysOk(cfg, ops);
    RunsAccount(cfg, ops, g);
    var s := Run(Init(cfg), ops);
    assert GroupOk(s.books, g, s.groups[g]);
    UnpaidBounds(s.groups[g]);
    TermsFacts(s.groups[g].terms);
  }
}
