/**
 * Runs from the empty system in which the code falls short of its intent: a repeated reference, a
 * margin that floors to nothing, and a pool that two missed cycles leave short.
 */
module Witness {
  import opened Wrappers
  import opened Accounts
  import opened Sums
  import opened Ledger
  import opened Calculations
  import opened Preview
  import opened Rows
  import opened PayoutQueue
  import opened Engine
  import opened RowInvariants
  import opened Protocol
  import opened Solvency
  import opened PoolSolvency
  import opened Progress
  import opened ReserveMath
  import opened UnlockTiming
  import opened Scenario

  // ---- A repeated reference counts a day without money -------------------------------------------

  const FIRST_PAY := Pay(0, 1, 0, Some(7))
  const SECOND_PAY := Pay(0, 1, 1, Some(7))

  /** Members 0 and 1 pay cycle 1 under the same external reference. */
  function RepeatedReference(): seq<Op> { Opening(0, FIVE) + [FIRST_PAY] + [SECOND_PAY] }

  lemma RefPaid(s: Sys, w: Snap) returns (next: Sys)
    requires At(s, 0, w) && w == Fresh(FIVE) && s.cfg == OFF && s.refs == {}
    ensures next == Step(s, FIRST_PAY) && SysOk(next) && 7 in next.refs && |next.groups| == |s.groups|
    ensures |next.groups| > 0 && Shows(next.groups[0], PaidBy(w, [0]))
  {
    hide PayStep, SettledRows, PaidBy, BooksOk, RowsOk;
    assert Owes(w, 0);
    PayRows(s.cfg, s.groups[0], w, 0);
    NothingOverdrawn(s.books, 0);
    PaymentAcceptedExactly(s, 0, 1, 0, Some(7));
    PaidStep(s, 0, 1, 0, Some(7));
    next := Step(s, FIRST_PAY);
  }

  lemma RepeatCounts(s: Sys)
    requires |s.groups| > 0 && Shows(s.groups[0], PaidBy(Fresh(FIVE), [0])) && 7 in s.refs
    ensures HasContribution(s.groups[0], 1, 1) && ContributionAt(s.groups[0], 1, 1) == UNPAID
    ensures var after := Step(s, SECOND_PAY);
      && PayStep(s, 0, 1, 1, Some(7)).Ok? && |after.groups| == |s.groups|
      && HasContribution(after.groups[0], 1, 1) && ContributionAt(after.groups[0], 1, 1) == PAID
  {
    hide ReleaseUnit;
    var grp := s.groups[0];
    assert grp.cycles[0][1] == UNPAID;
    assert PaymentFault(grp, 1, 1).None?;
    assert SettleTx(s.cfg, s.books, 0, grp, 1, 1, true) == Ok(Local(s.books, Counted(grp, 1, 1)));
  }

  /** The second payment marks the contribution paid, posts nothing, and breaks the books. */
  lemma RepeatedReferenceRun() returns (before: Sys, after: Sys)
    ensures after == Run(Init(OFF), RepeatedReference()) && after == Step(before, SECOND_PAY)
    ensures SysOk(before) && |before.groups| == |after.groups| == 1
    ensures HasContribution(before.groups[0], 1, 1) && ContributionAt(before.groups[0], 1, 1) == UNPAID
    ensures HasContribution(after.groups[0], 1, 1) && ContributionAt(after.groups[0], 1, 1) == PAID
    ensures after.books == before.books && !SysOk(after)
  {
    hide SysOk, Step, Run, Gather, Shows, PayStep;
    EmptySystem(OFF);
    var start := Opens(Init(OFF), 0, FIVE);
    before := RefPaid(start, Fresh(FIVE));
    RunThen(Init(OFF), Opening(0, FIVE), FIRST_PAY);
    RunThen(Init(OFF), Opening(0, FIVE) + [FIRST_PAY], SECOND_PAY);
    after := Step(before, SECOND_PAY);
    RepeatCounts(before);
    RepeatedReferenceBreaksBooks(before, 0, 1, 1, 7);
  }

  // ---- A margin that floors to nothing -----------------------------------------------------------

  /** Five members, one pesewa a day, margin as recommended. */
  const TINY := PreviewInput(1, 5, Daily, None, 0, None)

  /** The margin of every cycle is less than a pesewa. */
  predicate FloorsToNothing(t: Terms) { CycleOf(t).gross * t.marginBps < BPS_DENOMINATOR }

  lemma TinyIsAccepted()
    ensures PreviewOf(TINY).Ok? && PreviewOf(TINY).value.days == 1
    ensures FloorsToNothing(NewGroup(TINY, PreviewOf(TINY).value).terms)
  {
    assert PreviewOf(TINY).value.marginBps == 500;
    assert CycleOf(Terms(1, 5, Daily, 1, 500, 0)).gross == 5;
  }

  /** No cycle of such a group is finalized, in any consistent state. */
  lemma FlooredNeverFinalizes(s: Sys, g: nat, k: nat)
    requires SysOk(s) && g < |s.groups| && FloorsToNothing(s.groups[g].terms)
    ensures FinalizeStep(s, g, k).Err?
  {
    hide CycleOf, AllocateTx, CompleteTx;
    assert GroupOk(s.books, g, s.groups[g]);
    if AllocateTx(s.cfg, s.books, g, s.groups[g], k).Ok? {
      AllocationNeeds(s.cfg, s.books, g, s.groups[g], k);
    }
  }

  ghost predicate NothingPaidOut(s: Sys, g: nat) {
    g < |s.groups| && FloorsToNothing(s.groups[g].terms) ==> s.groups[g].payouts == []
  }

  lemma StepPaysNothingOut(s: Sys, op: Op, g: nat)
    requires SysOk(s) && NothingPaidOut(s, g)
    ensures NothingPaidOut(Step(s, op), g)
  {
    hide Step, CycleOf, PayStep, FinalizeStep, UnpaidDays, DaysLeft, BooksOk, KeysSpent;
    if g >= |s.groups| {
      if g < |Step(s, op).groups| { NewGroupShape(s, op, g); }
    } else {
      assert GroupOk(s.books, g, s.groups[g]);
      StepUses(s, op, g);
      if FloorsToNothing(s.groups[g].terms) && FinalizesIn(s, op, g) { FlooredNeverFinalizes(s, g, op.cycle); }
    }
  }

  /** Over every run such a group, once created, never makes a payout and never completes. */
  lemma {:induction false} FlooredNeverPays(cfg: ReserveConfig, ops: seq<Op>, g: nat)
    requires NoRecounts(Init(cfg), ops)
    ensures NothingPaidOut(Run(Init(cfg), ops), g)
    ensures var s := Run(Init(cfg), ops);
      g < |s.groups| && FloorsToNothing(s.groups[g].terms) ==> s.groups[g].status != Completed
  {
    hide Step, CycleOf;
    RunsKeepSysOk(cfg, ops);
    if ops != [] {
      var front := ops[..|ops| - 1];
      FlooredNeverPays(cfg, front, g);
      RunsKeepSysOk(cfg, front);
      StepPaysNothingOut(Run(Init(cfg), front), ops[|ops| - 1], g);
    }
    var s := Run(Init(cfg), ops);
    if g < |s.groups| { assert GroupOk(s.books, g, s.groups[g]); }
  }

  // ---- Two missed cycles leave the pool short ----------------------------------------------------

  const FOUR: seq<nat> := [0, 1, 2, 3]
  const FOUR_PAID := [PAID, PAID, PAID, PAID, UNPAID]
  const LATE_4 := Row(4, 5, 6, Defaulted, Forfeited)

  /** Member 4 sent behind the others. */
  function OneOut(): seq<Member> {
    [Row(0, 1, 1, Good, Held), Row(1, 2, 2, Good, Held), Row(2, 3, 3, Good, Held), Row(3, 4, 4, Good, Held), LATE_4]
  }

  /** Cycle 1: member 4 misses the deadline and is dequeued; the deposit pays for it. Cycle 2: misses again. */
  function OneMiss(): Snap { Snap(Joined(FIVE), [FOUR_PAID], [], [], []) }
  function OutOfLine(): Snap { Snap(OneOut(), [FOUR_PAID], [], [], []) }
  function SecondCycle(): Snap { Snap(OneOut(), [FOUR_PAID, NOBODY_PAID], [0], [], []) }
  function SecondMiss(): Snap { Snap(OneOut(), [FOUR_PAID, FOUR_PAID], [0], [], []) }

  function TwoMisses(): seq<Op> {
    Opening(0, FIVE) + Pays(0, 1, FOUR) + [Sync(0, 4)] + [Finalize(0, 1)] + Pays(0, 2, FOUR)
  }

  lemma FourCanPay(w: Snap)
    requires |w.members| == 5 && Running(w) == NOBODY_PAID
    ensures CanPay(OFF, w, FOUR) && PaidBy(w, FOUR) == WithRunning(w, FOUR_PAID)
  {
    assert forall i :: 0 <= i < 4 ==> FOUR[i] == i;
    assert Filled(NOBODY_PAID, FOUR) == FOUR_PAID;
  }

  lemma MissRows()
    ensures CanPay(OFF, Fresh(FIVE), FOUR) && PaidBy(Fresh(FIVE), FOUR) == OneMiss() && |Fresh(FIVE).cycles| == 1
    ensures CanPay(OFF, SecondCycle(), FOUR) && PaidBy(SecondCycle(), FOUR) == SecondMiss()
      && |SecondCycle().cycles| == 2
  {
    FourCanPay(Fresh(FIVE));
    FourCanPay(SecondCycle());
  }

  lemma FourFallsOut(s: Sys, w: Snap)
    requires At(s, 0, w) && w == OneMiss()
    ensures var next := Step(s, Sync(0, 4)); At(next, 0, OutOfLine()) && OnlyGroup(s, next, 0)
  {
    hide GroupOk, BooksOk, SyncMember, Step;
    assert NewlyLate(w, 4, 4) && forall m: nat :: m < 4 ==> Settled(w, m);
    assert w.members[4].payoutOrder == 5;
    SkipSettled(s.cfg, s.books, 0, s.groups[0], w, 0, 4, 4);
    var l := DequeueAt(s.cfg, s.books, s.groups, 0, w, 4, 5, LATE_4, 4);
    assert WithMemberRow(w, 4, LATE_4).members == OneOut();
    SyncGives(s, 0, w, 4, l, OutOfLine());
  }

  lemma OutOfLineCloses()
    ensures IsReady(OutOfLine(), 0) && UpNext(OutOfLine(), 0, 0) && |OutOfLine().cycles| == 1
    ensures ClosedSnap(OFF, OutOfLine(), 0) == SecondCycle()
  {
    hide QueueOrder;
    InOrder(OneOut());
    assert Rotated(TURNS, 0) == TURNS;
    assert LateForgiven(OneOut()) == OneOut();
  }

  lemma MissesCounted(grp: Group)
    requires Shows(grp, SecondMiss())
    ensures OnlyMisses(grp, 4) && MissedCycles(grp, 4) == 2
  {
    assert SecondMiss().cycles[..1] == [FOUR_PAID] && [FOUR_PAID][..0] == [];
    assert SumOf([FOUR_PAID], MissedAt(4)) == 1;
    forall i: nat | i < 4 ensures MissedCycles(grp, i) == 0 && grp.members[i].deposit != Forfeited {
      MissedNoneExactly(grp.cycles, i);
    }
  }

  /** Cycle 2 is ready, its recipient is eligible, and it is refused: the pool lacks one obligation. */
  lemma TwoMissesRun() returns (s: Sys)
    ensures NoRecounts(Init(OFF), TwoMisses()) && s == Run(Init(OFF), TwoMisses())
    ensures |s.groups| > 0 && FinalizeFault(s.groups[0], 2).None? && MissedCycles(s.groups[0], 4) == 2
    ensures SelectPayoutRecipient(s.groups[0].members, 2, s.groups[0].payoutOverride).recipient.Some?
    ensures Balance(s.books.balances, GroupPool(0)) == 4000 && CycleOf(s.groups[0].terms).gross == 5000
    ensures FinalizeStep(s, 0, 2).Err?
  {
    hide SysOk, Step, Run, At, Fresh, OneMiss, OutOfLine, SecondCycle, SecondMiss, Gather, Pays, FOUR,
      IsReady, UpNext, CanPay, PaidBy, ClosedSnap, FinalizeStep, FinalizeFault, MissedCycles, CycleOf;
    EmptySystem(OFF);
    MissRows();
    var start := Opens(Init(OFF), 0, FIVE);
    var a := PayEach(start, 0, Fresh(FIVE), 1, FOUR);
    FourFallsOut(a, OneMiss());
    var b := Step(a, Sync(0, 4));
    OutOfLineCloses();
    CloseCycle(b, 0, OutOfLine(), 1, 0, 0, 0);
    var c := Step(b, Finalize(0, 1));
    s := PayEach(c, 0, SecondCycle(), 2, FOUR);
    TwoMissesOps();
    TwoMissesRefused(s);
  }

  lemma TwoMissesOps()
    ensures NoRecounts(Init(OFF), TwoMisses())
    ensures Run(Init(OFF), TwoMisses())
         == Run(Step(Step(Run(Run(Init(OFF), Opening(0, FIVE)), Pays(0, 1, FOUR)), Sync(0, 4)), Finalize(0, 1)),
                Pays(0, 2, FOUR))
  {
    hide Step, Run, Opening, Init;
    var paid := Opening(0, FIVE) + Pays(0, 1, FOUR);
    RunAppend(Init(OFF), Opening(0, FIVE), Pays(0, 1, FOUR));
    RunThen(Init(OFF), paid, Sync(0, 4));
    RunThen(Init(OFF), paid + [Sync(0, 4)], Finalize(0, 1));
    RunAppend(Init(OFF), paid + [Sync(0, 4)] + [Finalize(0, 1)], Pays(0, 2, FOUR));
    OpeningHasNoRefs(0, FIVE);
    NoRefsJoin(Opening(0, FIVE), Pays(0, 1, FOUR));
    NoRefsNoRecounts(Init(OFF), TwoMisses());
  }

  lemma TwoMissesRefused(s: Sys)
    requires s.cfg == OFF && At(s, 0, SecondMiss())
    ensures |s.groups| > 0 && FinalizeFault(s.groups[0], 2).None? && MissedCycles(s.groups[0], 4) == 2
    ensures SelectPayoutRecipient(s.groups[0].members, 2, s.groups[0].payoutOverride).recipient.Some?
    ensures Balance(s.books.balances, GroupPool(0)) == 4000 && CycleOf(s.groups[0].terms).gross == 5000
    ensures FinalizeStep(s, 0, 2).Err?
  {
    hide FinalizeTx, BooksOk, KeysSpent, SelectPayoutRecipient, MissedCycles, CycleOf, FinalizeFault;
    assert GroupOk(s.books, 0, s.groups[0]);
    TermsKnown();
    ReadyShown(s.groups[0], SecondMiss());
    MissesCounted(s.groups[0]);
    MissedCyclesUnderfund(s.cfg, s.books, s.groups, 0, 2, 4);
    SelectionIsEligible(s.groups[0].members, 2, false);
    assert s.groups[0].members[0].standing == Good;
  }
}
