/** The run in which a skipped turn is lost: one member is paid twice, another never. */
module WitnessTurns {
  import opened Rows
  import opened PayoutQueue
  import opened Engine
  import opened Ledger
  import opened RowInvariants
  import opened Protocol
  import opened Turns
  import opened Scenario

  const HOME: nat := 0
  const THREE: seq<nat> := [0, 1, 2]
  const LAST_ONE: seq<nat> := [4]

  function PaidCycles(n: nat): seq<seq<Contribution>> { seq(n, _ => ALL_PAID) }

  /** Cycles 1 .. k went by in turn and the next is open; reserves are off. */
  function InTurn(k: nat): Snap { Snap(Joined(FIVE), PaidCycles(k) + [NOBODY_PAID], Served(k), [], []) }

  /** The rows once everyone has paid the cycle after the first `k`. */
  function PaidInTurn(k: nat): Snap { Snap(Joined(FIVE), PaidCycles(k) + [ALL_PAID], Served(k), [], []) }

  /** Users 0 to 4 in turn. */
  function Served(k: nat): seq<nat> { if k <= 5 then FIVE[..k] else FIVE }

  lemma TurnRows(k: nat)
    requires k <= 3
    ensures CanPay(OFF, InTurn(k), FIVE) && PaidBy(InTurn(k), FIVE) == PaidInTurn(k)
    ensures |InTurn(k).cycles| == |PaidInTurn(k).cycles| == k + 1
    ensures IsReady(PaidInTurn(k), 0) && UpNext(PaidInTurn(k), 0, k)
    ensures ClosedSnap(OFF, PaidInTurn(k), k) == InTurn(k + 1)
  {
    hide QueueOrder;
    EveryoneCanPay(OFF, InTurn(k));
    NobodyLate(FIVE);
    assert FIVE[..k] + [FIVE[k]] == FIVE[..k + 1];
    assert PaidCycles(k) + [ALL_PAID] == PaidCycles(k + 1);
  }

  lemma NormalCycle(s: Sys, k: nat, n: nat) returns (next: Sys)
    requires s.cfg == OFF && k <= 3 && n == k + 1 && At(s, HOME, InTurn(k))
    ensures next == Run(s, WholeCycle(HOME, n)) && At(next, HOME, InTurn(n)) && next.cfg == OFF
  {
    hide At, InTurn, PaidInTurn, CanPay, PaidBy, IsReady, UpNext, ClosedSnap, Run;
    TurnRows(k);
    next := PaysAndCloses(s, HOME, InTurn(k), PaidInTurn(k), n, k);
  }

  // ---- Cycle 4: one turn is passed over ----------------------------------------------------------

  /** Members 0 to 2 as they joined, and two more rows. */
  function Crew(third: Member, fourth: Member): seq<Member> {
    [Row(0, 1, 1, Good, Held), Row(1, 2, 2, Good, Held), Row(2, 3, 3, Good, Held), third, fourth]
  }

  const TWO_LATE := [PAID, PAID, PAID, UNPAID, UNPAID]
  const ONE_LATE := [PAID, PAID, PAID, UNPAID, PAID]

  const ROW_4 := Row(4, 5, 5, Good, Held)
  const LOST_3 := Row(3, 4, 6, Defaulted, Forfeited)
  const LOST_4 := Row(4, 5, 7, Defaulted, Forfeited)
  const BACK_3 := Row(3, 4, 6, Good, Forfeited)
  const BACK_4 := Row(4, 5, 7, Good, Forfeited)

  /** The rows of cycle 4. */
  function Fourth(members: seq<Member>, row: seq<Contribution>): Snap {
    Snap(members, [ALL_PAID, ALL_PAID, ALL_PAID, row], [0, 1, 2], [], [])
  }

  /** Members 3 and 4 miss the deadline. */
  function Missed(): Snap { Fourth(Joined(FIVE), TWO_LATE) }
  /** They are dequeued one after the other. */
  function OneOut(): Snap { Fourth(Crew(LOST_3, ROW_4), TWO_LATE) }
  function BothOut(): Snap { Fourth(Crew(LOST_3, LOST_4), TWO_LATE) }
  /** Member 4 pays and is restored. */
  function PaidLate(): Snap { Fourth(Crew(LOST_3, LOST_4), ONE_LATE) }
  function Restored(): Snap { Fourth(Crew(LOST_3, BACK_4), ONE_LATE) }

  /** The rows of cycle 5, after cycle 4 passed over member 3 and paid member 4. */
  function Fifth(third: Member, row: seq<Contribution>): Snap {
    Snap(Crew(third, BACK_4), [ALL_PAID, ALL_PAID, ALL_PAID, ONE_LATE, row], [0, 1, 2, 4], [], [])
  }

  function Skipped(): Snap { Fifth(LOST_3, NOBODY_PAID) }
  function AllPaid(): Snap { Fifth(LOST_3, ALL_PAID) }
  /** Everyone has paid and is in good standing. */
  function Last(): Snap { Fifth(BACK_3, ALL_PAID) }

  lemma MissedRows()
    ensures CanPay(OFF, InTurn(3), THREE) && PaidBy(InTurn(3), THREE) == Missed() && |InTurn(3).cycles| == 4
  {
    hide Step;
    assert Filled(NOBODY_PAID, THREE) == TWO_LATE;
    assert PaidCycles(3) + [TWO_LATE] == Missed().cycles;
    assert Served(3) == [0, 1, 2];
    assert THREE[0] == 0 && THREE[1] == 1 && THREE[2] == 2;
  }

  lemma FallingRows()
    ensures NewlyLate(Missed(), 3, 7) && LastPlace(Missed().members, 5)
    ensures Missed().members[3].user !in Missed().recipients
    ensures Forfeit(Missed().members[3]).(payoutOrder := 6) == LOST_3 && WithMemberRow(Missed(), 3, LOST_3) == OneOut()
    ensures IsLate(Missed(), 7) && |Missed().members| == 5 && forall m: nat :: m < 3 ==> Settled(Missed(), m)
  {
    assert Missed().members[4].payoutOrder == 5;
    assert Joined(FIVE)[3 := LOST_3] == OneOut().members;
  }

  lemma FollowingRows()
    ensures NewlyLate(OneOut(), 4, 7) && LastPlace(OneOut().members, 6)
    ensures OneOut().members[4].user !in OneOut().recipients
    ensures Forfeit(OneOut().members[4]).(payoutOrder := 7) == LOST_4 && WithMemberRow(OneOut(), 4, LOST_4) == BothOut()
    ensures |BothOut().members| == 5
  {
    assert OneOut().members[3].payoutOrder == 6;
    assert OneOut().members[4 := LOST_4] == BothOut().members;
  }

  /** A late sync dequeues both. */
  lemma BothFallOut(s: Sys)
    requires At(s, HOME, Missed())
    ensures var next := Step(s, Sync(HOME, 7)); At(next, HOME, BothOut()) && OnlyGroup(s, next, HOME)
  {
    hide GroupOk, BooksOk, SyncMember, Step, Missed, OneOut, BothOut, NewlyLate, IsLate, LastPlace, Settled,
      WithMemberRow, LOST_3, LOST_4, Forfeit;
    FallingRows();
    FollowingRows();
    SkipSettled(s.cfg, s.books, 0, s.groups[0], Missed(), 0, 3, 7);
    var a := DequeueAt(s.cfg, s.books, s.groups, 0, Missed(), 3, 5, LOST_3, 7);
    var groups := s.groups[0 := a.grp];
    assert groups[0] == a.grp;
    var l := DequeueAt(s.cfg, a.books, groups, 0, OneOut(), 4, 6, LOST_4, 7);
    SyncGives(s, HOME, Missed(), 7, l, BothOut());
  }

  lemma RestoringRows()
    ensures CanPay(OFF, BothOut(), LAST_ONE) && PaidBy(BothOut(), LAST_ONE) == PaidLate() && |BothOut().cycles| == 4
    ensures IsLate(PaidLate(), 7) && HasPaid(PaidLate(), 4) && forall m: nat :: m < 4 ==> Settled(PaidLate(), m)
    ensures BACK_4 == PaidLate().members[4].(standing := Good) && WithMemberRow(PaidLate(), 4, BACK_4) == Restored()
    ensures |PaidLate().members| == |Restored().members| == 5
  {
    assert Filled(TWO_LATE, LAST_ONE) == ONE_LATE;
    assert BothOut().members[4 := BACK_4] == Restored().members;
    assert LAST_ONE[0] == 4;
  }

  /** A sync that only restores member `j`. */
  lemma SyncRestores(s: Sys, w: Snap, v: Snap, j: nat, m: Member, today: int)
    requires At(s, HOME, w) && IsLate(w, today) && |w.members| == 5 && HasPaid(w, j)
    requires m == w.members[j].(standing := Good) && WithMemberRow(w, j, m) == v && |v.members| == 5 && IsLate(v, today)
    requires (forall l: nat :: l < j ==> Settled(w, l)) && (forall l: nat :: j < l < 5 ==> Settled(v, l))
    ensures var next := Step(s, Sync(HOME, today)); At(next, HOME, v) && OnlyGroup(s, next, HOME)
  {
    hide GroupOk, BooksOk, SyncMember, Step, IsLate, Settled, WithMemberRow;
    SkipSettled(s.cfg, s.books, 0, s.groups[0], w, 0, j, today);
    var grp := RestoreAt(s.cfg, s.books, 0, s.groups[0], w, j, m, today);
    SkipSettled(s.cfg, s.books, 0, grp, v, j + 1, 5, today);
    SyncGives(s, HOME, w, today, Local(s.books, grp), v);
  }

  lemma RestoredCloses()
    ensures IsReady(Restored(), 3) && UpNext(Restored(), 1, 4) && |Restored().cycles| == 4
    ensures ClosedSnap(OFF, Restored(), 4) == Skipped() && IsLate(Restored(), 7)
  {
    hide QueueOrder;
    InOrder(Crew(LOST_3, BACK_4));
    assert Rotated(TURNS, 3) == [3, 4, 0, 1, 2];
    assert LateForgiven(Crew(LOST_3, BACK_4)) == Crew(LOST_3, BACK_4);
  }

  /** Cycle 4: members 3 and 4 default, member 4 pays late, and the finalization passes over member 3. */
  function SkippingCycle(): seq<Op> {
    Pays(HOME, 4, THREE) + [Sync(HOME, 7)] + Pays(HOME, 4, LAST_ONE) + [Sync(HOME, 7)] + [Finalize(HOME, 4)]
  }

  lemma AfterSkippingCycle(s: Sys) returns (next: Sys)
    requires s.cfg == OFF && At(s, HOME, InTurn(3))
    ensures next == Run(s, SkippingCycle()) && next.cfg == OFF && At(next, HOME, Skipped())
  {
    hide At, InTurn, Missed, BothOut, PaidLate, Restored, Skipped, CanPay, PaidBy, IsReady, UpNext, ClosedSnap, Run,
      Step, Pays, IsLate, Settled, HasPaid, WithMemberRow;
    MissedRows();
    var a := PayEach(s, HOME, InTurn(3), 4, THREE);
    BothFallOut(a);
    var b := Step(a, Sync(HOME, 7));
    RestoringRows();
    var c := PayEach(b, HOME, BothOut(), 4, LAST_ONE);
    RestoredCloses();
    SyncRestores(c, PaidLate(), Restored(), 4, BACK_4, 7);
    var d := Step(c, Sync(HOME, 7));
    CloseCycle(d, HOME, Restored(), 4, 1, 4, 3);
    next := Step(d, Finalize(HOME, 4));
    SkippingRun(s);
  }

  lemma SkippingRun(s: Sys)
    ensures Run(s, SkippingCycle())
         == var b := Step(Run(s, Pays(HOME, 4, THREE)), Sync(HOME, 7));
            Step(Step(Run(b, Pays(HOME, 4, LAST_ONE)), Sync(HOME, 7)), Finalize(HOME, 4))
  {
    hide Step, Run, Pays;
    var late, again := Pays(HOME, 4, THREE) + [Sync(HOME, 7)], Pays(HOME, 4, LAST_ONE);
    RunThen(s, Pays(HOME, 4, THREE), Sync(HOME, 7));
    RunAppend(s, late, again);
    RunThen(s, late + again, Sync(HOME, 7));
    RunThen(s, late + again + [Sync(HOME, 7)], Finalize(HOME, 4));
  }

  // ---- Cycle 5 -----------------------------------------------------------------------------------

  lemma LastRows()
    ensures CanPay(OFF, Skipped(), FIVE) && PaidBy(Skipped(), FIVE) == AllPaid() && |Skipped().cycles| == 5
    ensures IsLate(AllPaid(), 8) && HasPaid(AllPaid(), 3) && |AllPaid().members| == |Last().members| == 5
    ensures BACK_3 == AllPaid().members[3].(standing := Good) && WithMemberRow(AllPaid(), 3, BACK_3) == Last()
    ensures IsLate(Last(), 8) && (forall m: nat :: m < 3 ==> Settled(AllPaid(), m)) && Settled(Last(), 4)
  {
    EveryoneCanPay(OFF, Skipped());
    assert Crew(LOST_3, BACK_4)[3 := BACK_3] == Crew(BACK_3, BACK_4);
  }

  lemma LastIsReady()
    ensures IsReady(Last(), 3) && UpNext(Last(), 0, 4) && |Last().cycles| == 5 && Last().reserves == []
  {
    hide QueueOrder;
    InOrder(Crew(BACK_3, BACK_4));
    assert Rotated(TURNS, 4) == [4, 0, 1, 2, 3];
  }

  function LastCycle(): seq<Op> { Pays(HOME, 5, FIVE) + [Sync(HOME, 8)] }

  lemma LastCycleIsPaid(s: Sys) returns (next: Sys)
    requires s.cfg == OFF && At(s, HOME, Skipped())
    ensures next == Run(s, LastCycle()) && At(next, HOME, Last())
  {
    hide At, Skipped, AllPaid, Last, CanPay, PaidBy, Run, Step, Pays, IsLate, Settled, HasPaid, WithMemberRow;
    LastRows();
    var paid := PayEach(s, HOME, Skipped(), 5, FIVE);
    SyncRestores(paid, AllPaid(), Last(), 3, BACK_3, 8);
    next := Step(paid, Sync(HOME, 8));
    RunThen(s, Pays(HOME, 5, FIVE), Sync(HOME, 8));
  }

  // ---- The whole run -----------------------------------------------------------------------------

  /** Three cycles in turn. */
  function ThreeCycles(): seq<Op> {
    Opening(HOME, FIVE) + WholeCycle(HOME, 1) + WholeCycle(HOME, 2) + WholeCycle(HOME, 3)
  }

  function BeforeSecondPayout(): seq<Op> { ThreeCycles() + SkippingCycle() + LastCycle() }

  lemma AfterThreeCycles() returns (s: Sys)
    ensures s == Run(Init(OFF), ThreeCycles()) && s.cfg == OFF && At(s, HOME, InTurn(3))
  {
    hide SysOk, Run, Opening, WholeCycle, Shows, InTurn;
    EmptySystem(OFF);
    var start := Opens(Init(OFF), HOME, FIVE);
    FirstTurn();
    var a := NormalCycle(start, 0, 1);
    var b := NormalCycle(a, 1, 2);
    s := NormalCycle(b, 2, 3);
    RunAppend(Init(OFF), Opening(HOME, FIVE), WholeCycle(HOME, 1));
    RunAppend(Init(OFF), Opening(HOME, FIVE) + WholeCycle(HOME, 1), WholeCycle(HOME, 2));
    RunAppend(Init(OFF), Opening(HOME, FIVE) + WholeCycle(HOME, 1) + WholeCycle(HOME, 2), WholeCycle(HOME, 3));
  }

  lemma FirstTurn()
    ensures Fresh(FIVE) == InTurn(0)
  {
    assert PaidCycles(0) + [NOBODY_PAID] == [NOBODY_PAID];
  }

  lemma NoRefsBeforeSecondPayout()
    ensures NoRefs(BeforeSecondPayout() + [Finalize(HOME, 5)])
  {
    OpeningHasNoRefs(HOME, FIVE);
    assert NoRefs(WholeCycle(HOME, 1)) && NoRefs(WholeCycle(HOME, 2)) && NoRefs(WholeCycle(HOME, 3));
    assert NoRefs(SkippingCycle()) && NoRefs(LastCycle());
    NoRefsJoin(Opening(HOME, FIVE), WholeCycle(HOME, 1));
    NoRefsJoin(Opening(HOME, FIVE) + WholeCycle(HOME, 1), WholeCycle(HOME, 2));
    NoRefsJoin(Opening(HOME, FIVE) + WholeCycle(HOME, 1) + WholeCycle(HOME, 2), WholeCycle(HOME, 3));
    NoRefsJoin(ThreeCycles(), SkippingCycle());
    NoRefsJoin(ThreeCycles() + SkippingCycle(), LastCycle());
    NoRefsJoin(BeforeSecondPayout(), [Finalize(HOME, 5)]);
  }

  lemma EndsWithFourTwice(grp: Group)
    requires Ended(grp, Last(), 4, false)
    ensures grp.status == Completed && |grp.payouts| == 5 && grp.payouts[4].skipped == []
    ensures PaidTwice(grp, 4) && !HasReceivedPayout(grp, 3) && IsMember(grp, 3)
  {
    assert Last().recipients == [0, 1, 2, 4];
    assert grp.payouts[3].recipient == 4 && grp.payouts[4].recipient == 4;
    assert grp.members[3].user == Last().members[3].user == 3;
  }

  lemma LastStandings(s: Sys)
    requires At(s, HOME, Last())
    ensures |s.groups| > 0 && !s.groups[0].payoutOverride
    ensures forall i :: 0 <= i < |s.groups[0].members| ==> s.groups[0].members[i].standing == Good
  {
    hide SysOk;
  }

  /**
   * In the last cycle everybody has paid, nobody is defaulted, the override is off and nobody is
   * skipped; yet the finalization pays member 4 a second time, and member 3 is never paid.
   */
  lemma SecondPayoutRun() returns (before: Sys, after: Sys)
    ensures NoRecounts(Init(OFF), BeforeSecondPayout() + [Finalize(HOME, 5)])
    ensures before == Run(Init(OFF), BeforeSecondPayout())
      && after == Run(Init(OFF), BeforeSecondPayout() + [Finalize(HOME, 5)])
    ensures |before.groups| > 0 && !before.groups[0].payoutOverride
    ensures forall i :: 0 <= i < |before.groups[0].members| ==> before.groups[0].members[i].standing == Good
    ensures |after.groups| > 0
    ensures var grp := after.groups[0];
      && grp.status == Completed && |grp.payouts| == 5 && grp.payouts[4].skipped == []
      && PaidTwice(grp, 4) && IsMember(grp, 3) && !HasReceivedPayout(grp, 3)
  {
    hide At, Run, Step, InTurn, Skipped, Last, ThreeCycles, SkippingCycle, LastCycle, Ended, IsReady, UpNext;
    NoRefsBeforeSecondPayout();
    NoRefsNoRecounts(Init(OFF), BeforeSecondPayout() + [Finalize(HOME, 5)]);
    var a := AfterThreeCycles();
    var b := AfterSkippingCycle(a);
    before := LastCycleIsPaid(b);
    RunAppend(Init(OFF), ThreeCycles(), SkippingCycle());
    RunAppend(Init(OFF), ThreeCycles() + SkippingCycle(), LastCycle());
    LastStandings(before);
    LastIsReady();
    CloseLast(before, HOME, Last(), 0, 4, 3);
    after := Step(before, Finalize(HOME, 5));
    RunThen(Init(OFF), BeforeSecondPayout(), Finalize(HOME, 5));
    EndsWithFourTwice(after.groups[0]);
  }
}
