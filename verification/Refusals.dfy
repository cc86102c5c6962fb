/** Why an operation is refused: the reason it gives, told from the request, the rows and the balances. */
module Refusals {
  import opened Wrappers
  import opened Accounts
  import opened Ledger
  import opened Faults
  import opened Calculations
  import opened Preview
  import opened ReserveMath
  import opened Rows
  import opened PayoutQueue
  import opened Engine
  import opened Accounting
  import opened RowInvariants
  import opened GroupSafety
  import opened Protocol
  import opened Solvency
  import opened PoolSolvency
  import opened SyncFaults
  import opened Creation
  import opened Payments
  import opened Defaults
  import opened Deadlines
  import opened Finalization

  /** A fresh transfer inside the system can only fail for want of money. */
  lemma TransferRefused(b: Books, key: Key, from: Account, to: Account, amount: int)
    requires BooksOk(b) && key !in b.keys && from != SystemExternal && from != to && amount > 0
    ensures Transfer(b, key, from, to, amount).Rejected? ==>
      Transfer(b, key, from, to, amount).error == Insufficient(from)
  {
    var lines := TransferLines(from, to, amount);
    TwoLines(from, to, amount);
    assert lines[..1] == [lines[0]] && [lines[0]][..0] == [];
    assert FirstFault(b.balances, lines[..1]) == LineFault(b.balances, lines[0]);
    assert Settle(b.balances, lines[..1]) == Credit(b.balances, lines[0]);
    assert to != SystemExternal ==> Balance(b.balances, to) >= 0;
  }

  // ---- Create, join, activate, settings --------------------------------------------------------------

  lemma CreateRefusals(s: Sys, input: PreviewInput)
    ensures CreateStep(s, input).Err? ==>
      CreateStep(s, input).error ==
        if forall days :: !AsksForDays(input, days) then InvalidDays
        else if input.contribution < 1 then InvalidAmount
        else if !(5 <= input.groupSize <= 250) then InvalidGroupSize else InvalidMargin
  {
    PreviewKeepsRequest(input);
    var r := PreviewDays(input.mode, input.days);
    if r.Ok? {
      assert AsksForDays(input, r.value);
      if input.contribution >= 1 && 5 <= input.groupSize {
        ProductBound(input.contribution, 0, input.groupSize);
        ProductBound(input.contribution * input.groupSize, 0, r.value);
      }
    }
  }

  lemma JoinRefusals(s: Sys, g: nat, user: nat)
    requires SysOk(s)
    ensures JoinStep(s, g, user).Err? ==>
      JoinStep(s, g, user).error ==
        if g >= |s.groups| then GroupNotFound
        else if s.groups[g].status != Draft || |s.groups[g].members| == s.groups[g].terms.slots
        then GroupClosedToMembers
        else if exists i :: 0 <= i < |s.groups[g].members| && s.groups[g].members[i].user == user then AlreadyMember
        else UnresolvedDefault
  {
    hide BooksOk, KeysSpent, Reconciled, OwesInDefault, HasUnresolvedDefault;
    JoinsExactly(s, g, user);
    UnresolvedByRows(s, user);
    if g < |s.groups| { assert GroupOk(s.books, g, s.groups[g]); }
  }

  // ---- Pay -------------------------------------------------------------------------------------------

  predicate HasRow(grp: Group, k: nat, i: nat) { 1 <= k <= |grp.cycles| && i < |grp.members| }

  lemma UnitRefused(cfg: ReserveConfig, b: Books, g: nat, grp: Group, k: nat, i: nat, day: nat)
    requires BooksOk(b) && i < |grp.members| && ReleaseUnit(cfg, b, g, grp, k, i, day).Err?
    requires forall r :: UnitRelease(g, r, k, i, day) !in b.keys
    ensures ReleaseUnit(cfg, b, g, grp, k, i, day).error == LedgerRefused(Insufficient(Reserved(grp.members[i].user)))
  {
    hide BooksOk, UnitDue;
    var user := grp.members[i].user;
    var (r, amount) := UnitDue(cfg, grp, user, k);
    TransferRefused(b, UnitRelease(g, r, k, i, day), Reserved(user), Available(user), amount);
  }

  lemma SettleRefused(cfg: ReserveConfig, b: Books, g: nat, grp: Group, k: nat, i: nat)
    requires GroupOk(b, g, grp) && BooksOk(b) && PaymentFault(grp, k, i).None?
    requires SettleTx(cfg, b, g, grp, k, i, false).Err?
    ensures HasContribution(grp, k, i)
    ensures SettleTx(cfg, b, g, grp, k, i, false).error == LedgerRefused(Insufficient(Reserved(grp.members[i].user)))
  {
    hide BooksOk, RowsOk, KeysSpent, Reconciled, ReleaseUnit, Post;
    var day := ContributionAt(grp, k, i).paidDays + 1;
    PaymentKeysFresh(b, g, grp, k, i);
    DailyAmountPositive(b, g, grp);
    var after := CollectedBooks(b, Inflow(g, k, i, day), g, grp.terms.perDay);
    UnitRefused(cfg, after, g, Collected(grp, k, i), k, i, day);
  }

  lemma DailyAmountPositive(b: Books, g: nat, grp: Group)
    requires GroupOk(b, g, grp)
    ensures grp.terms.perDay > 0
  {
  }

  lemma PayRefusals(s: Sys, g: nat, k: nat, i: nat, ref: Option<nat>)
    requires SysOk(s) && !RefSeen(s, ref)
    ensures PayStep(s, g, k, i, ref).Err? ==>
      PayStep(s, g, k, i, ref).error ==
        if g >= |s.groups| || !HasRow(s.groups[g], k, i) then ContributionNotFound
        else if s.groups[g].status != Active then NotActive
        else if k != s.groups[g].currentCycle then WrongCycle
        else if DaysOwed(s.groups[g], i) == 0 then AlreadyPaid
        else LedgerRefused(Insufficient(Reserved(s.groups[g].members[i].user)))
  {
    hide BooksOk, KeysSpent, Reconciled, ReleaseUnit, InflowLines;
    if g < |s.groups| {
      var grp := s.groups[g];
      assert GroupOk(s.books, g, grp);
      if HasRow(grp, k, i) {
        assert CycleRowOk(grp.terms, |grp.members|, grp.cycles[k - 1]);
        assert ContributionOk(grp.terms, grp.cycles[k - 1][i]);
        if PaymentFault(grp, k, i).None? && PayStep(s, g, k, i, ref).Err? {
          SettleRefused(s.cfg, s.books, g, grp, k, i);
        }
      }
    }
  }

  // ---- Sync ------------------------------------------------------------------------------------------

  lemma CoverRefusal(cfg: ReserveConfig, b: Books, g: nat, grp: Group, k: nat, i: nat)
    requires BooksOk(b) && i < |grp.members| && CoverTx(cfg, b, g, grp, k, i).Err?
    requires forall r: nat :: DefaultCover(g, r, k, i) !in b.keys
    ensures CoverTx(cfg, b, g, grp, k, i).error == LedgerRefused(Insufficient(Reserved(grp.members[i].user)))
  {
    hide BooksOk, CoverDue;
    var (r, missed, amount) := CoverDue(cfg, grp, k, i);
    TransferRefused(b, DefaultCover(g, r, k, i), Reserved(grp.members[i].user), GroupPool(g), amount);
  }

  lemma DefaultRefusal(cfg: ReserveConfig, b: Books, groups: seq<Group>, g: nat, i: nat)
    requires GroupsOk(b, groups) && g < |groups| && i < |groups[g].members|
    requires groups[g].status == Active && groups[g].terms.mode == Cycle && groups[g].members[i].standing != Defaulted
    requires OwesRunning(groups[g], i) && DefaultTx(cfg, b, g, groups[g], i).Err?
    ensures DefaultTx(cfg, b, g, groups[g], i).error
         == LedgerRefused(Insufficient(Reserved(groups[g].members[i].user)))
  {
    hide GroupsOk, RowsOk, BooksOk, Reconciled, KeysSpent, ForfeitTx, CoverTx, DaysOwed;
    var grp := groups[g];
    var f := AfterForfeit(b, groups, g, i);
    GroupInOrder(b, groups, g);
    RowsInOrder(b, g, grp);
    MissedIsOwed(grp, i);
    CoverKeysFresh(f.books, g, grp, i, b);
    CoverRefusal(cfg, f.books, g, f.grp, grp.currentCycle, i);
  }

  lemma MemberRefusal(cfg: ReserveConfig, b: Books, groups: seq<Group>, g: nat, i: nat, today: int)
    requires GroupsOk(b, groups) && g < |groups| && i < |groups[g].members|
    requires groups[g].status == Active && groups[g].terms.mode == Cycle
    requires SyncMember(cfg, b, g, groups[g], i, today).Err?
    ensures SyncMember(cfg, b, g, groups[g], i, today).error
         == LedgerRefused(Insufficient(Reserved(groups[g].members[i].user)))
  {
    hide GroupsOk, RowsOk, DefaultTx, NextStanding, DaysOwed, Deadline;
    GroupInOrder(b, groups, g);
    RowsInOrder(b, g, groups[g]);
    StandingByClock(groups[g], i, today);
    DefaultRefusal(cfg, b, groups, g, i);
  }

  lemma {:induction false} SyncFromRefusal(
      cfg: ReserveConfig, b: Books, groups: seq<Group>, g: nat, i: nat, m: nat, today: int)
    requires GroupsOk(b, groups) && g < |groups| && i <= m < |groups[g].members|
    requires groups[g].status == Active && groups[g].terms.mode == Cycle
    requires FirstRefused(cfg, b, groups[g], i, m, today)
    ensures SyncFrom(cfg, b, g, groups[g], i, today).fault
         == Some(LedgerRefused(Insufficient(Reserved(groups[g].members[m].user))))
    decreases m - i
  {
    hide GroupsOk, SyncMember, CoverRefused, SameCover;
    var grp := groups[g];
    SyncMemberFaultsExactly(cfg, b, groups, g, i, today);
    if i == m {
      MemberRefusal(cfg, b, groups, g, i, today);
    } else {
      var l := SyncMember(cfg, b, g, grp, i, today).value;
      AfterMember(cfg, b, groups, g, i, today);
      forall j: nat | i < j < |grp.members|
        ensures CoverRefused(cfg, l.books, l.grp, j, today) <==> CoverRefused(cfg, b, grp, j, today)
        ensures l.grp.members[j] == grp.members[j]
      {
        SameCoverSameRefusal(cfg, b, grp, l.books, l.grp, j, today);
        SameCoverSameMember(cfg, b, grp, l, j);
      }
      SyncFromRefusal(cfg, l.books, groups[g := l.grp], g, i + 1, m, today);
    }
  }

  lemma SameCoverSameMember(cfg: ReserveConfig, b: Books, grp: Group, l: Local, j: nat)
    requires SameCover(cfg, b, grp, l.books, l.grp, j)
    ensures j < |grp.members| == |l.grp.members| && l.grp.members[j] == grp.members[j]
  {
  }

  /** A sync names the wallet of the first member whose cover it does not hold. */
  lemma SyncRefusals(cfg: ReserveConfig, b: Books, groups: seq<Group>, g: nat, today: int)
    requires GroupsOk(b, groups) && g < |groups| && SyncGroup(cfg, b, g, groups[g], today).fault.Some?
    ensures var grp := groups[g];
      exists m: nat :: m < |grp.members| && WalletShort(cfg, b, grp, m, today)
        && (forall j: nat :: j < m ==> !WalletShort(cfg, b, grp, j, today))
        && SyncGroup(cfg, b, g, grp, today).fault == Some(LedgerRefused(Insufficient(Reserved(grp.members[m].user))))
  {
    hide GroupsOk, GroupOk, RowsOk, SyncFrom, CoverRefused, WalletShort;
    var grp := groups[g];
    var m := SyncFaultsExactly(cfg, b, groups, g, today);
    SyncFromRefusal(cfg, b, groups, g, 0, m, today);
    GroupInOrder(b, groups, g);
    RowsInOrder(b, g, grp);
    forall j: nat | j < |grp.members|
      ensures CoverRefused(cfg, b, grp, j, today) <==> WalletShort(cfg, b, grp, j, today)
    {
      RefusedByRows(cfg, b, grp, j, today);
    }
  }

  // ---- Finalize --------------------------------------------------------------------------------------

  lemma LinesRefused(b: Books, g: nat, user: nat, s: CycleSummary, split: Split)
    requires BooksOk(b) && s.gross > 0 && s.platformShare >= 0 && split.available > 0
    ensures FirstFault(b.balances, AllocationLines(g, user, s, split)) ==
      if s.gross > Balance(b.balances, GroupPool(g)) then Some(Insufficient(GroupPool(g)))
      else if s.platformShare == 0 then Some(ZeroDelta) else None
  {
    var l0, l1 := Line(GroupPool(g), -s.gross), Line(Available(user), split.available);
    var l2 := Line(Revenue, s.platformShare);
    ThreeLineFaults(b.balances, l0, l1, l2);
    var lines := AllocationLines(g, user, s, split);
    assert lines[..3] == [l0, l1, l2];
    assert [l0][..0] == [] && [l0, l1][..1] == [l0] && [l0, l1, l2][..2] == [l0, l1];
    assert Balance(b.balances, Available(user)) >= 0 && Balance(b.balances, Reserved(user)) >= 0;
    assert FirstFault(b.balances, [l0]) == LineFault(b.balances, l0);
    assert FirstFault(b.balances, [l0, l1]) == LineFault(b.balances, l0);
    if split.reserve <= 0 { assert lines == [l0, l1, l2]; }
  }

  /** Why the payout of a cycle is refused. */
  function PayoutRefusal(b: Books, g: nat, grp: Group, k: nat): Fault {
    if grp.status != Active then NotActive
    else if k != grp.currentCycle then WrongCycle
    else if !MayFinalize(grp, k) then ContributionsUnpaid
    else if !SomeoneToPay(grp) then NoEligibleRecipient
    else if GrossOf(grp.terms) > Balance(b.balances, GroupPool(g)) then LedgerRefused(Insufficient(GroupPool(g)))
    else LedgerRefused(ZeroDelta)
  }

  lemma GuardsRefuse(b: Books, g: nat, grp: Group, k: nat)
    requires RowsOk(grp) && FinalizeFault(grp, k).Some?
    ensures FinalizeFault(grp, k) == Some(PayoutRefusal(b, g, grp, k))
  {
    ReadyExactly(grp, k);
    forall p: nat | p < |grp.payouts| ensures grp.payouts[p].cycle == p + 1 {
      assert PayoutOk(grp, p);
    }
    if grp.status == Active && k == grp.currentCycle {
      assert CycleRowOk(grp.terms, |grp.members|, grp.cycles[k - 1]);
    }
  }

  /** The journal of the payout of cycle `k`. */
  function PayoutLines(cfg: ReserveConfig, g: nat, grp: Group, k: nat): seq<Line>
    requires k >= 1 && SelectPayoutRecipient(grp.members, k, grp.payoutOverride).recipient.Some?
  {
    var aw := AwardOf(cfg, grp, k);
    AllocationLines(g, aw.user, CycleOf(grp.terms), aw.split)
  }

  lemma AllocationRefusedByJournal(cfg: ReserveConfig, b: Books, g: nat, grp: Group, k: nat)
    requires GroupOk(b, g, grp) && FinalizeFault(grp, k).None? && k >= 1
    requires SelectPayoutRecipient(grp.members, k, grp.payoutOverride).recipient.Some?
    requires !cfg.enabled || 0 <= cfg.maxBps <= BPS_DENOMINATOR
    requires AllocateTx(cfg, b, g, grp, k).Err?
    ensures var posted := Post(b, Allocation(g, k), PayoutLines(cfg, g, grp, k));
      posted.Rejected? && AllocateTx(cfg, b, g, grp, k).error == LedgerRefused(posted.error)
  {
    hide RowsOk, KeysSpent, Reconciled, SelectPayoutRecipient, FinalizeRows, AllocationLines, Post, ComputeSplit;
    RowsOfGroup(b, g, grp);
    GrossByTerms(grp.terms);
    MarginIsExact(grp.terms);
    SelectionInRange(grp.members, k, grp.payoutOverride);
    SkippedAreMembers(grp.members, k, grp.payoutOverride);
    SplitConserves(cfg, CycleOf(grp.terms).netAfterMargin, k, grp.terms.slots, MemberCyclePaymentDays(grp.terms));
  }

  lemma PayoutLinesRefused(cfg: ReserveConfig, b: Books, g: nat, grp: Group, k: nat)
    requires GroupOk(b, g, grp) && BooksOk(b) && FinalizeFault(grp, k).None? && k >= 1
    requires SelectPayoutRecipient(grp.members, k, grp.payoutOverride).recipient.Some?
    requires cfg.minBps < BPS_DENOMINATOR && (!cfg.enabled || 0 <= cfg.maxBps <= BPS_DENOMINATOR)
    ensures var posted := Post(b, Allocation(g, k), PayoutLines(cfg, g, grp, k));
      posted.Rejected? ==>
        posted.error
        == if GrossOf(grp.terms) > Balance(b.balances, GroupPool(g)) then Insufficient(GroupPool(g)) else ZeroDelta
  {
    hide RowsOk, KeysSpent, Reconciled, BooksOk, SelectPayoutRecipient, FinalizeFault, FirstFault, AllocationLines,
      GrossOf;
    RowsOfGroup(b, g, grp);
    var t, s, aw := grp.terms, CycleOf(grp.terms), AwardOf(cfg, grp, k);
    TermsFacts(t);
    MarginIsExact(t);
    ActiveNow(grp, k);
    SplitConserves(cfg, s.netAfterMargin, k, t.slots, MemberCyclePaymentDays(t));
    AllocationMoves(g, aw.user, s, aw.split, SystemExternal);
    LinesRefused(b, g, aw.user, s, aw.split);
    TwoOrMore(g, aw.user, s, aw.split);
  }

  lemma ActiveNow(grp: Group, k: nat)
    requires FinalizeFault(grp, k).None?
    ensures grp.status == Active && k == grp.currentCycle && |grp.members| == grp.terms.slots
  {
  }

  lemma TwoOrMore(g: nat, user: nat, s: CycleSummary, split: Split)
    ensures |AllocationLines(g, user, s, split)| >= 2
  {
  }

  lemma AllocationRefusal(cfg: ReserveConfig, b: Books, g: nat, grp: Group, k: nat)
    requires GroupOk(b, g, grp) && BooksOk(b) && AllocateTx(cfg, b, g, grp, k).Err?
    requires cfg.minBps < BPS_DENOMINATOR && (!cfg.enabled || 0 <= cfg.maxBps <= BPS_DENOMINATOR)
    ensures AllocateTx(cfg, b, g, grp, k).error == PayoutRefusal(b, g, grp, k)
  {
    hide RowsOk, KeysSpent, Reconciled, BooksOk, SelectPayoutRecipient, MayFinalize, SomeoneToPay, GrossOf, Post,
      PayoutLines;
    RowsOfGroup(b, g, grp);
    if FinalizeFault(grp, k).Some? {
      GuardsRefuse(b, g, grp, k);
    } else {
      ReadyExactly(grp, k);
      RecipientExists(grp, k);
      if SomeoneToPay(grp) {
        AllocationRefusedByJournal(cfg, b, g, grp, k);
        PayoutLinesRefused(cfg, b, g, grp, k);
      } else {
        GrossByTerms(grp.terms);
      }
    }
  }

  /** The wallet of an open reserve's owner is named. */
  predicate NamesOwner(grp: Group, e: Fault) {
    exists q: nat :: q < |grp.reserves| && grp.reserves[q].status == Open
      && e == LedgerRefused(Insufficient(Reserved(grp.reserves[q].user)))
  }

  lemma CloseRefused(b: Books, g: nat, grp: Group, r: nat)
    requires GroupOk(b, g, grp) && BooksOk(b) && r < |grp.reserves| && CloseReserve(b, g, grp, r).Err?
    ensures grp.reserves[r].status == Open
    ensures CloseReserve(b, g, grp, r).error == LedgerRefused(Insufficient(Reserved(grp.reserves[r].user)))
  {
    hide BooksOk, RowsOk, Reconciled;
    var row, key := grp.reserves[r], FinalRelease(g, r);
    assert OwnerOf(key) == Some(g) && (row.status == Open ==> !Spent(grp, key));
    TransferRefused(b, key, Reserved(row.user), Available(row.user), row.remaining);
  }

  lemma {:induction false} ClosesRefused(b: Books, groups: seq<Group>, g: nat, r: nat)
    requires GroupsOk(b, groups) && g < |groups| && groups[g].status == Completed
    requires CloseReservesFrom(b, g, groups[g], r).Err?
    ensures NamesOwner(groups[g], CloseReservesFrom(b, g, groups[g], r).error)
    decreases |groups[g].reserves| - r
  {
    hide GroupOk, BooksOk, CloseReserve;
    var grp := groups[g];
    assert GroupOk(b, g, grp);
    if CloseReserve(b, g, grp, r).Err? {
      CloseRefused(b, g, grp, r);
    } else {
      CloseReserveKeepsGroupOk(b, g, grp, r);
      var l := CloseReserve(b, g, grp, r).value;
      ReplaceGroup(b, groups, g, l.books, l.grp);
      ClosesRefused(l.books, groups[g := l.grp], g, r + 1);
      var q: nat :| q < |l.grp.reserves| && l.grp.reserves[q].status == Open
        && CloseReservesFrom(b, g, grp, r).error == LedgerRefused(Insufficient(Reserved(l.grp.reserves[q].user)));
      assert q != r && grp.reserves[q] == l.grp.reserves[q];
    }
  }

  lemma CompletionRefusal(b: Books, groups: seq<Group>, g: nat)
    requires GroupsOk(b, groups) && g < |groups| && groups[g].status == Completed
    requires CompleteTx(b, groups, g, groups[g]).Err?
    ensures NamesOwner(groups[g], CompleteTx(b, groups, g, groups[g]).error)
  {
    hide GroupOk, BooksOk;
    var grp := groups[g];
    assert GroupOk(b, g, grp);
    ReturnsNeverRefused(b, groups, g, 0);
    ReturnDepositsKeepGroupOk(b, g, grp, 0);
    var d := ReturnDepositsFrom(b, g, grp, 0).value;
    ReturnsComplete(b, g, grp, 0);
    ReplaceGroup(b, groups, g, d.books, d.grp);
    if CloseReservesFrom(d.books, g, d.grp, 0).Ok? {
      CloseReservesKeepGroupOk(d.books, g, d.grp, 0);
      var c := CloseReservesFrom(d.books, g, d.grp, 0).value;
      ReplaceGroup(d.books, groups[g := d.grp], g, c.books, c.grp);
      assert groups[g := d.grp][g := c.grp] == groups[g := c.grp];
      SweepsAreIdle(c.books, groups[g := c.grp], OpenUsers(d.grp.reserves));
    } else {
      ClosesRefused(d.books, groups[g := d.grp], g, 0);
    }
  }

  /** What a refused finalization names: the payout's reason, or at the end an open reserve's wallet. */
  lemma FinalizeRefusals(s: Sys, g: nat, k: nat)
    requires SysOk(s) && s.cfg.minBps < BPS_DENOMINATOR
    requires !s.cfg.enabled || 0 <= s.cfg.maxBps <= BPS_DENOMINATOR
    ensures FinalizeStep(s, g, k).Err? ==>
      if g >= |s.groups| then FinalizeStep(s, g, k).error == GroupNotFound
      else
        var grp, e := s.groups[g], FinalizeStep(s, g, k).error;
        if CanPayOut(s.books, g, grp, k) then NamesOwner(grp, e) else e == PayoutRefusal(s.books, g, grp, k)
  {
    hide GroupOk, BooksOk, RowsOk, AllocateTx, CompleteTx, PayoutRefusal, CanPayOut;
    if g < |s.groups| && FinalizeStep(s, g, k).Err? {
      GroupRowsOk(s, g);
      AllocatesExactly(s, g, k);
      var grp := s.groups[g];
      if AllocateTx(s.cfg, s.books, g, grp, k).Err? {
        AllocationRefusal(s.cfg, s.books, g, grp, k);
      } else {
        AllocateKeepsGroupOk(s.cfg, s.books, g, grp, k);
        LastAwardReservesNothing(s.cfg, s.books, g, grp, k);
        var l := AllocateTx(s.cfg, s.books, g, grp, k).value;
        ReplaceGroup(s.books, s.groups, g, l.books, l.grp);
        SameCompletion(l.books, s.groups, g, l.grp);
        CompletionRefusal(l.books, s.groups[g := l.grp], g);
      }
    }
  }
}
