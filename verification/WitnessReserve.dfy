/**
 * Runs in which a default cover leaves less than one unit: with one group the member's payments are
 * refused; with a second one the next release takes more than its reserve has, and then the second
 * group's own cover is refused.
 */
module WitnessReserve {
  import opened Wrappers
  import opened Accounts
  import opened Accounting
  import opened Sums
  import opened Ledger
  import opened Rows
  import opened PayoutQueue
  import opened Engine
  import opened RowInvariants
  import opened Protocol
  import opened Solvency
  import opened Preview
  import opened Overdraft
  import opened SyncFaults
  import opened UnlockTiming
  import opened Scenario

  const OTHERS: seq<nat> := [0, 5, 6, 7, 8]
  const REST: seq<nat> := [1, 2, 3, 4]
  /** The group that overdraws, and the other group of user 0. */
  const HOME: nat := 0
  const AWAY: nat := 1
  const ONE_SHORT := [UNPAID, PAID, PAID, PAID, PAID]

  /** Paid out in cycle 1: 1140 held back over four units of 285. */
  const RESERVE_0 := Reserve(0, 1, 1140, 1140, 0, 0, 4, 0, Open)
  /** After the cover of one missed cycle: 140 left, less than a unit. */
  const SHORT_0 := Reserve(0, 1, 1140, 140, 0, 1000, 4, 0, Open)
  /** After a unit of 285 was released from it. */
  const OVERDRAWN_0 := Reserve(0, 1, 1140, 0, 285, 1000, 4, 1, Closed)
  const RESERVE_1 := Reserve(1, 2, 855, 855, 0, 0, 3, 0, Open)
  const COVER_0 := Coverage(0, 2, 0, 1000, 1000)

  predicate LedByZero(users: seq<nat>) { FiveUsers(users) && users[0] == 0 }

  // ---- The way to the short reserve --------------------------------------------------------------

  function FirstPaid(users: seq<nat>): Snap { Snap(Joined(users), [ALL_PAID], [], [], []) }

  function AfterFirst(users: seq<nat>): Snap {
    Snap(Joined(users), [ALL_PAID, NOBODY_PAID], [0], [RESERVE_0], [])
  }

  /** Cycle 2: everyone but user 0 has paid. */
  function ZeroMisses(users: seq<nat>): Snap { Snap(Joined(users), [ALL_PAID, ONE_SHORT], [0], [RESERVE_0], []) }

  function Spent0(): seq<Member> {
    [Row(0, 1, 1, Defaulted, Forfeited), Row(1, 2, 2, Good, Held), Row(2, 3, 3, Good, Held),
     Row(3, 4, 4, Good, Held), Row(4, 5, 5, Good, Held)]
  }

  function Covered(): Snap { Snap(Spent0(), [ALL_PAID, ALL_PAID], [0], [SHORT_0], [COVER_0]) }

  function ThirdCycle(): Snap {
    Snap(Spent0(), [ALL_PAID, ALL_PAID, NOBODY_PAID], [0, 1], [SHORT_0, RESERVE_1], [COVER_0])
  }

  lemma FirstRows(users: seq<nat>)
    requires LedByZero(users)
    ensures CanPay(ON, Fresh(users), FIVE) && PaidBy(Fresh(users), FIVE) == FirstPaid(users)
    ensures |Fresh(users).cycles| == |FirstPaid(users).cycles| == 1
    ensures IsReady(FirstPaid(users), 0) && UpNext(FirstPaid(users), 0, 0)
    ensures ClosedSnap(ON, FirstPaid(users), 0) == AfterFirst(users)
  {
    hide QueueOrder;
    EveryoneCanPay(ON, Fresh(users));
    NobodyLate(users);
    assert Rotated(TURNS, 0) == TURNS;
  }

  lemma RestRows(users: seq<nat>)
    requires LedByZero(users)
    ensures CanPay(ON, AfterFirst(users), REST) && PaidBy(AfterFirst(users), REST) == ZeroMisses(users)
    ensures |AfterFirst(users).cycles| == 2
  {
    assert Filled(NOBODY_PAID, REST) == ONE_SHORT;
    forall j | 0 <= j < |REST| ensures UnlocksNothing(ON, AfterFirst(users), REST[j]) {
      assert REST[j] == j + 1;
      assert FirstOpen([RESERVE_0], users[j + 1]).None?;
    }
  }

  lemma FirstIsOpen(row: Reserve)
    requires row.status == Open
    ensures FirstOpen([row], row.user) == Some(0) && FirstOpen([row, RESERVE_1], row.user) == Some(0)
  {
    assert [row][..0] == [] && [row, RESERVE_1][..1] == [row];
  }

  /** User 0 has missed cycle 2, and the only reserve can cover it. */
  lemma ZeroIsLate(users: seq<nat>, today: int)
    requires LedByZero(users) && today >= 5
    ensures NewlyLate(ZeroMisses(users), 0, today) && Covers(ZeroMisses(users), 0, 0)
    ensures ZeroMisses(users).members[0].user == 0
  {
    FirstIsOpen(RESERVE_0);
  }

  lemma CoveredRows()
    ensures CoveredSnap(ZeroMisses(FIVE), 0, 0) == Covered()
    ensures IsLate(Covered(), 5) && |Covered().members| == 5 && forall m: nat :: 1 <= m < 5 ==> Settled(Covered(), m)
  {
    assert Filled(ONE_SHORT, [0]) == ALL_PAID;
    assert Joined(FIVE)[0 := Forfeit(Joined(FIVE)[0])] == Spent0();
  }

  lemma CoveredCloses()
    ensures IsReady(Covered(), 0) && UpNext(Covered(), 0, 1) && |Covered().cycles| == 2
    ensures ClosedSnap(ON, Covered(), 1) == ThirdCycle()
  {
    hide QueueOrder;
    InOrder(Spent0());
    assert Rotated(TURNS, 1) == [1, 2, 3, 4, 0];
    assert LateForgiven(Spent0()) == Spent0();
  }

  /** There is no other group, or one in which user 0 has a full reserve. */
  ghost predicate Companions(s: Sys) {
    |s.groups| == 1 || (|s.groups| == 2 && s.groups[1].reserves == [RESERVE_0])
  }

  lemma FullRow()
    ensures RESERVE_0.user == 0 && Residual(RESERVE_0) == 1140 && RESERVE_1.user == 1
  {
  }

  lemma ShortRow()
    ensures SHORT_0.user == 0 && SHORT_0.remaining == 140 && Residual(SHORT_0) == 140
  {
  }

  lemma OverdrawnRow()
    ensures OVERDRAWN_0.user == 0 && Residual(OVERDRAWN_0) == -145
    ensures OVERDRAWN_0.original != OVERDRAWN_0.remaining + OVERDRAWN_0.released + OVERDRAWN_0.usedForDefault
  {
  }

  lemma GroupResidual(groups: seq<Group>, h: nat, row: Reserve, other: Reserve)
    requires h < |groups| && row.user == 0 && other.user != 0
    requires groups[h].reserves == [row] || groups[h].reserves == [row, other]
    ensures ResidualOn(groups, 0)(h) == Residual(row)
  {
    hide Residual;
    var f := ReservePart(Reserved(0));
    assert [row][..0] == [] && [row, other][..1] == [row];
    assert SumOf([row], f) == f(row) && SumOf([row, other], f) == SumOf([row], f) + f(other);
  }

  lemma TotalOfTwo(f: nat -> int)
    ensures SumTo(1, f) == f(0) && SumTo(2, f) == f(0) + f(1)
  {
    assert SumTo(1, f) == SumTo(0, f) + f(0);
  }

  /** What user 0's wallet holds, from the one reserve in group 0 and the one in the other group. */
  lemma WalletShows(s: Sys, row: Reserve)
    requires SysOk(s) && Companions(s) && row.user == 0
    requires s.groups[0].reserves == [row] || s.groups[0].reserves == [row, RESERVE_1]
    ensures Balance(s.books.balances, Reserved(0)) == Residual(row) + if |s.groups| == 2 then 1140 else 0
  {
    hide GroupOk, BooksOk, SumTo, SumOf, ResidualOn, Residual, RESERVE_0, RESERVE_1;
    FullRow();
    ReservedIsResidual(s.books, s.groups, 0);
    TotalOfTwo(ResidualOn(s.groups, 0));
    GroupResidual(s.groups, 0, row, RESERVE_1);
    if |s.groups| == 2 { GroupResidual(s.groups, 1, RESERVE_0, RESERVE_1); }
  }

  /** A late sync covers user 0 and finds everyone else settled. */
  lemma ZeroIsCovered(s: Sys, w: Snap)
    requires s.cfg == ON && At(s, HOME, w) && w == ZeroMisses(FIVE) && Balance(s.books.balances, Reserved(0)) >= 1000
    ensures var next := Step(s, LATE_SYNC); At(next, HOME, Covered()) && OnlyGroup(s, next, HOME)
  {
    hide GroupOk, BooksOk, SyncMember, Step, CoveredSnap, NewlyLate, Covers, Settled, IsLate;
    ZeroIsLate(FIVE, 5);
    CoveredRows();
    var l := CoverAt(s.cfg, s.books, s.groups, 0, w, 0, 0, 5);
    SkipSettled(s.cfg, l.books, 0, l.grp, Covered(), 1, 5, 5);
    SyncGives(s, 0, w, 5, l, Covered());
  }

  function FirstOps(g: nat): seq<Op> { WholeCycle(g, 1) }
  function RestOps(g: nat): seq<Op> { Pays(g, 2, REST) }
  const LATE_SYNC := Sync(HOME, 5)

  /** Cycles 1 and 2 of group 0, the second with the default of user 0. */
  function DefaultingCycles(): seq<Op> {
    FirstOps(HOME) + RestOps(HOME) + [LATE_SYNC] + [Finalize(0, 2)]
  }

  lemma FirstCycle(s: Sys, g: nat, users: seq<nat>) returns (next: Sys)
    requires s.cfg == ON && At(s, g, Fresh(users)) && LedByZero(users)
    ensures next == Run(s, FirstOps(g)) && At(next, g, AfterFirst(users)) && OnlyGroup(s, next, g)
  {
    hide At, Fresh, FirstPaid, AfterFirst, CanPay, PaidBy, IsReady, UpNext, ClosedSnap, Run;
    FirstRows(users);
    next := PaysAndCloses(s, g, Fresh(users), FirstPaid(users), 1, 0);
  }

  lemma RestPays(s: Sys, g: nat, users: seq<nat>) returns (next: Sys)
    requires s.cfg == ON && At(s, g, AfterFirst(users)) && LedByZero(users)
    ensures next == Run(s, RestOps(g)) && At(next, g, ZeroMisses(users)) && OnlyGroup(s, next, g)
  {
    hide At, AfterFirst, ZeroMisses, CanPay, PaidBy, Run, Pays;
    RestRows(users);
    next := PayEach(s, g, AfterFirst(users), 2, REST);
  }

  lemma ShowsReserves(s: Sys, g: nat, w: Snap)
    requires At(s, g, w)
    ensures SysOk(s) && g < |s.groups| && s.groups[g].reserves == w.reserves
  {
  }

  lemma ToThirdCycle(s: Sys) returns (next: Sys)
    requires s.cfg == ON && At(s, HOME, Fresh(FIVE)) && Companions(s)
    ensures next == Run(s, DefaultingCycles()) && At(next, HOME, ThirdCycle()) && OnlyGroup(s, next, HOME)
  {
    hide SysOk, At, Run, Step, Fresh, AfterFirst, Covered, ThirdCycle, IsReady, UpNext, ClosedSnap, RestOps, FirstOps,
      RESERVE_0;
    FullRow();
    var a := FirstCycle(s, 0, FIVE);
    var b := RestPays(a, 0, FIVE);
    ShowsReserves(b, 0, ZeroMisses(FIVE));
    WalletShows(b, RESERVE_0);
    ZeroIsCovered(b, ZeroMisses(FIVE));
    var c := Step(b, LATE_SYNC);
    CoveredCloses();
    CloseCycle(c, 0, Covered(), 2, 0, 1, 0);
    next := Step(c, Finalize(0, 2));
    RunAppend(s, FirstOps(HOME), RestOps(HOME));
    RunThen(s, FirstOps(HOME) + RestOps(HOME), LATE_SYNC);
    RunThen(s, FirstOps(HOME) + RestOps(HOME) + [LATE_SYNC], Finalize(0, 2));
  }

  // ---- One group: refused payments ---------------------------------------------------------------

  /** User 0's next payment is due, and would unlock 285 of the 140 left. */
  lemma ShortUnitIsDue(grp: Group)
    requires Shows(grp, ThirdCycle())
    ensures PaymentFault(grp, 3, 0).None? && grp.members[0].user == 0 && grp.reserves == [SHORT_0, RESERVE_1]
    ensures UnitDue(ON, grp, 0, 3) == (0, 285)
    ensures SettledRows(ON, grp, 3, 0).reserves == [OVERDRAWN_0, RESERVE_1]
  {
    FirstIsOpen(SHORT_0);
    assert grp.cycles[2][0] == UNPAID;
  }

  lemma ShowsThird(s: Sys)
    requires At(s, HOME, ThirdCycle())
    ensures SysOk(s) && |s.groups| > 0 && Shows(s.groups[0], ThirdCycle())
  {
  }

  function CoveredRun(): seq<Op> { Opening(HOME, FIVE) + DefaultingCycles() }

  lemma DefaultingHasNoRefs(ops: seq<Op>)
    requires NoRefs(ops)
    ensures NoRefs(ops + DefaultingCycles())
  {
  }

  /** With one group the wallet holds no more than the reserve: the member's payments are refused from here on. */
  lemma PaymentRefusedRun() returns (s: Sys)
    ensures NoRecounts(Init(ON), CoveredRun()) && s == Run(Init(ON), CoveredRun())
    ensures |s.groups| == 1 && PaymentFault(s.groups[0], 3, 0).None? && |s.groups[0].reserves| == 2
    ensures s.groups[0].reserves[0].remaining == 140 == Balance(s.books.balances, Reserved(0))
    ensures forall ref :: !RefSeen(s, ref) ==> PayStep(s, 0, 3, 0, ref).Err?
  {
    hide SysOk, Step, Run, Gather, At, Shows, PaymentFault, UnitDue, SettledRows, PayStep, SHORT_0, RESERVE_1;
    ShortRow();
    EmptySystem(ON);
    var start := Opens(Init(ON), 0, FIVE);
    s := ToThirdCycle(start);
    RunAppend(Init(ON), Opening(HOME, FIVE), DefaultingCycles());
    OpeningHasNoRefs(0, FIVE);
    DefaultingHasNoRefs(Opening(HOME, FIVE));
    NoRefsNoRecounts(Init(ON), CoveredRun());
    ShowsThird(s);
    ShortUnitIsDue(s.groups[0]);
    WalletShows(s, SHORT_0);
    forall ref | !RefSeen(s, ref) ensures PayStep(s, 0, 3, 0, ref).Err? {
      PaymentAcceptedExactly(s, 0, 3, 0, ref);
    }
  }

  // ---- Two groups: a release that takes more than its reserve has --------------------------------

  /** The same, after user 0 was also paid out in a second group. */
  function TwoGroups(): seq<Op> { Opening(HOME, FIVE) + Opening(AWAY, OTHERS) + FirstOps(AWAY) + DefaultingCycles() }

  const SHORT_PAY := Pay(0, 3, 0, None)

  lemma TwoGroupsHaveNoRefs(more: seq<Op>)
    requires NoRefs(more)
    ensures NoRefs(TwoGroups() + [SHORT_PAY] + more)
  {
    OpeningHasNoRefs(0, FIVE);
    OpeningHasNoRefs(1, OTHERS);
    NoRefsJoin(Opening(HOME, FIVE), Opening(AWAY, OTHERS));
    DefaultingHasNoRefs(Opening(HOME, FIVE) + Opening(AWAY, OTHERS) + FirstOps(AWAY));
    NoRefsJoin(TwoGroups() + [SHORT_PAY], more);
  }

  lemma SecondGroupFirst() returns (s: Sys)
    ensures s == Run(Init(ON), Opening(HOME, FIVE) + Opening(AWAY, OTHERS) + FirstOps(AWAY))
    ensures s.cfg == ON && |s.groups| == 2 && At(s, HOME, Fresh(FIVE)) && At(s, AWAY, AfterFirst(OTHERS))
  {
    hide Step, Run, Opening, FirstOps, Fresh, AfterFirst, GroupsOk, Shows;
    EmptySystem(ON);
    var a := Opens(Init(ON), 0, FIVE);
    var b := Opens(a, 1, OTHERS);
    s := FirstCycle(b, 1, OTHERS);
    RunAppend(Init(ON), Opening(HOME, FIVE), Opening(AWAY, OTHERS));
    RunAppend(Init(ON), Opening(HOME, FIVE) + Opening(AWAY, OTHERS), FirstOps(AWAY));
  }

  /** Group 0 is about to pay the short unit; group 1 is in its second cycle with a full reserve. */
  lemma BeforeOverdraft() returns (s: Sys)
    ensures s == Run(Init(ON), TwoGroups()) && s.cfg == ON && |s.groups| == 2
    ensures At(s, HOME, ThirdCycle()) && At(s, AWAY, AfterFirst(OTHERS))
  {
    hide Step, Run, Opening, FirstOps, DefaultingCycles, Fresh, ThirdCycle, GroupsOk;
    var start := SecondGroupFirst();
    s := ToThirdCycle(start);
    RunAppend(Init(ON), Opening(HOME, FIVE) + Opening(AWAY, OTHERS) + FirstOps(AWAY), DefaultingCycles());
  }

  /** The short unit is accepted: the wallet has it from the other group. */
  lemma ShortUnitPasses(s: Sys) returns (next: Sys)
    requires s.cfg == ON && |s.groups| == 2 && At(s, HOME, ThirdCycle()) && At(s, AWAY, AfterFirst(OTHERS))
    ensures next == Step(s, SHORT_PAY) && ShortUnit(s, SHORT_PAY, 0, 0) && PayStep(s, 0, 3, 0, None).Ok?
    ensures next.cfg == ON && |next.groups| == 2 && SysOk(next) && At(next, AWAY, AfterFirst(OTHERS))
    ensures next.groups[0].reserves == [OVERDRAWN_0, RESERVE_1]
  {
    hide GroupsOk, Shows, PayStep, SettledRows, UnitDue, PaymentFault, ThirdCycle, SHORT_0, OVERDRAWN_0, RESERVE_0,
      RESERVE_1;
    ShortRow();
    ShortUnitIsDue(s.groups[0]);
    ShowsReserves(s, 1, AfterFirst(OTHERS));
    WalletShows(s, SHORT_0);
    PaymentAcceptedExactly(s, 0, 3, 0, None);
    PaidStep(s, 0, 3, 0, None);
    next := Step(s, SHORT_PAY);
  }

  /**
   * The payment is accepted and takes 285 from a reserve with 140 left: the row no longer conserves
   * its original amount, and the wallet holds less than the rows of the user claim.
   */
  lemma OverdraftRun() returns (before: Sys, after: Sys)
    ensures NoRecounts(Init(ON), TwoGroups() + [SHORT_PAY])
    ensures before == Run(Init(ON), TwoGroups()) && after == Run(Init(ON), TwoGroups() + [SHORT_PAY])
    ensures |before.groups| == 2 && ShortUnit(before, SHORT_PAY, 0, 0) && PayStep(before, 0, 3, 0, None).Ok?
    ensures RowOverdrawn(after, 0, 0)
    ensures var row := after.groups[0].reserves[0];
      row.original != row.remaining + row.released + row.usedForDefault
    ensures Balance(after.books.balances, Reserved(0)) < RemainingReserve(after.groups, 0)
  {
    hide Step, Run, TwoGroups, ShortUnit, PayStep, GroupOk, BooksOk, At, OVERDRAWN_0, RESERVE_1, Residual;
    TwoGroupsHaveNoRefs([]);
    NoRefsNoRecounts(Init(ON), TwoGroups() + [SHORT_PAY] + []);
    assert TwoGroups() + [SHORT_PAY] + [] == TwoGroups() + [SHORT_PAY];
    before := BeforeOverdraft();
    after := ShortUnitPasses(before);
    RunThen(Init(ON), TwoGroups(), SHORT_PAY);
    ReservedAgreesExactly(after.books, after.groups, 0);
    OverdrawnRow();
    assert Overdrawn(after.groups[0].reserves[0]);
    assert !NoneOverdrawnIn(after.groups[0], 0);
  }

  // ---- Two groups: a refused cover ---------------------------------------------------------------

  function RefusedCover(): seq<Op> { TwoGroups() + [SHORT_PAY] + RestOps(AWAY) }

  /** User 0 misses cycle 2 of the second group: its reserve of 1140 should cover 1000, the wallet holds 995. */
  lemma ZeroIsRefused(s: Sys, today: int)
    requires s.cfg == ON && |s.groups| == 2 && At(s, AWAY, ZeroMisses(OTHERS)) && today >= 5
    requires Balance(s.books.balances, Reserved(0)) == 995
    ensures CoverDue(ON, s.groups[1], 2, 0).2 == 1000 && CoverRefused(s.cfg, s.books, s.groups[1], 0, today)
  {
    hide GroupsOk, Covers, CoverDue, NextStanding;
    ZeroIsLate(OTHERS, today);
    NoPayoutYet(s.groups[1], ZeroMisses(OTHERS), 0);
    CoverIsDue(ON, s.groups[1], ZeroMisses(OTHERS), 0, 0);
    LateStanding(s.groups[1], ZeroMisses(OTHERS), 0, today);
  }

  /** So from then on every sync of the group fails at its first member and changes nothing. */
  lemma SyncIsStuck(s: Sys, today: int)
    requires SysOk(s) && |s.groups| == 2 && CoverRefused(s.cfg, s.books, s.groups[1], 0, today)
    requires s.groups[1].status == Active && s.groups[1].terms.mode == Cycle
    ensures SyncGroup(s.cfg, s.books, 1, s.groups[1], today).fault.Some? && SyncStep(s, 1, today) == s
  {
    hide GroupOk, BooksOk, SyncMember;
    SyncMemberFaultsExactly(s.cfg, s.books, s.groups, 1, 0, today);
    assert s.groups[1 := s.groups[1]] == s.groups;
  }

  lemma ZeroIsUnpaid(s: Sys)
    requires At(s, AWAY, ZeroMisses(OTHERS))
    ensures s.groups[1].status == Active && s.groups[1].terms.mode == Cycle
    ensures FinalizeFault(s.groups[1], 2).Some?
  {
    hide GroupsOk;
    assert s.groups[1].cycles[1][0] == UNPAID && s.groups[1].members[0].standing == Good;
  }

  lemma AfterRefusedCover() returns (s: Sys)
    ensures NoRecounts(Init(ON), RefusedCover()) && s == Run(Init(ON), RefusedCover())
    ensures s.cfg == ON && |s.groups| == 2 && At(s, AWAY, ZeroMisses(OTHERS))
    ensures Balance(s.books.balances, Reserved(0)) == 995
  {
    hide Step, Run, TwoGroups, ShortUnit, PayStep, GroupsOk, At, RestOps, AfterFirst, OVERDRAWN_0, RESERVE_1, RESERVE_0;
    OverdrawnRow();
    PaysHaveNoRefs();
    TwoGroupsHaveNoRefs(RestOps(AWAY));
    NoRefsNoRecounts(Init(ON), RefusedCover());
    var before := BeforeOverdraft();
    var after := ShortUnitPasses(before);
    s := RestPays(after, 1, OTHERS);
    RunThen(Init(ON), TwoGroups(), SHORT_PAY);
    RunAppend(Init(ON), TwoGroups() + [SHORT_PAY], RestOps(AWAY));
    ShowsReserves(s, 1, ZeroMisses(OTHERS));
    WalletShows(s, OVERDRAWN_0);
  }

  lemma PaysHaveNoRefs()
    ensures NoRefs(RestOps(AWAY))
  {
  }

  /**
   * After the overdraft of the first group the second one stands still: the cover of user 0's missed
   * cycle is refused in every late sync, and without it the cycle is not ready to finalize.
   */
  lemma CoverRefusedRun() returns (s: Sys)
    ensures NoRecounts(Init(ON), RefusedCover()) && s == Run(Init(ON), RefusedCover())
    ensures |s.groups| == 2 && Balance(s.books.balances, Reserved(0)) == 995
    ensures CoverDue(ON, s.groups[1], 2, 0).2 == 1000
    ensures forall today :: today >= 5 ==>
      SyncGroup(s.cfg, s.books, 1, s.groups[1], today).fault.Some? && SyncStep(s, 1, today) == s
    ensures FinalizeFault(s.groups[1], 2).Some?
  {
    hide Run, RefusedCover, GroupsOk, Shows, CoverDue, SyncGroup, SyncStep, CoverRefused, FinalizeFault;
    s := AfterRefusedCover();
    ZeroIsUnpaid(s);
    ZeroIsRefused(s, 5);
    forall today | today >= 5
      ensures SyncGroup(s.cfg, s.books, 1, s.groups[1], today).fault.Some? && SyncStep(s, 1, today) == s
    {
      ZeroIsRefused(s, today);
      SyncIsStuck(s, today);
    }
  }
}
