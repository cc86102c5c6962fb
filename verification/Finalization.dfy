/**
 * Finalizing a cycle, read off rows and balances: exactly when it is accepted, and everything that it
 * writes, moves, and, with the last cycle, gives back.
 */
module Finalization {
  import opened Wrappers
  import opened Accounts
  import opened Sums
  import opened Ledger
  import opened Calculations
  import opened Preview
  import opened ReserveMath
  import opened Rows
  import opened PayoutQueue
  import opened Engine
  import opened Accounting
  import opened RowInvariants
  import opened GroupSafety
  import opened Protocol
  import opened Solvency
  import opened PoolSolvency
  import opened Payments

  // ---- When it is accepted ---------------------------------------------------------------------------

  /** The running cycle, every member of which has paid it in full or is defaulted. */
  predicate MayFinalize(grp: Group, k: nat) {
    && grp.status == Active && k == grp.currentCycle
    && forall i: nat :: i < |grp.members| ==> DaysOwed(grp, i) <= 0 || grp.members[i].standing == Defaulted
  }

  lemma ReadyExactly(grp: Group, k: nat)
    requires RowsOk(grp)
    ensures FinalizeFault(grp, k).None? <==> MayFinalize(grp, k)
  {
    if grp.status == Active && k == grp.currentCycle {
      assert CycleRowOk(grp.terms, |grp.members|, grp.cycles[k - 1]);
      forall i: nat | i < |grp.members|
        ensures grp.cycles[k - 1][i].status == Paid <==> DaysOwed(grp, i) <= 0
      {
        assert ContributionOk(grp.terms, grp.cycles[k - 1][i]);
      }
      forall p: nat | p < |grp.payouts| ensures grp.payouts[p].cycle != k {
        assert PayoutOk(grp, p);
      }
    }
  }

  predicate SomeoneToPay(grp: Group) {
    grp.payoutOverride || exists i :: 0 <= i < |grp.members| && grp.members[i].standing != Defaulted
  }

  /** What one cycle collects. */
  function GrossOf(t: Terms): int { t.perDay * t.slots * MemberCyclePaymentDays(t) }

  /** The cycle is over, somebody can be paid, the pool holds it, and the margin is at least one pesewa. */
  predicate CanPayOut(b: Books, g: nat, grp: Group, k: nat) {
    && MayFinalize(grp, k) && SomeoneToPay(grp)
    && GrossOf(grp.terms) <= Balance(b.balances, GroupPool(g))
    && GrossOf(grp.terms) * grp.terms.marginBps >= BPS_DENOMINATOR
  }

  lemma AllocatesExactly(s: Sys, g: nat, k: nat)
    requires SysOk(s) && g < |s.groups| && s.cfg.minBps < BPS_DENOMINATOR
    requires !s.cfg.enabled || 0 <= s.cfg.maxBps <= BPS_DENOMINATOR
    ensures AllocateTx(s.cfg, s.books, g, s.groups[g], k).Ok? <==> CanPayOut(s.books, g, s.groups[g], k)
  {
    hide GroupOk, BooksOk, RowsOk, AllocateTx, FinalizeFault, MayFinalize, SelectPayoutRecipient, Balance;
    var grp := s.groups[g];
    GroupRowsOk(s, g);
    ReadyExactly(grp, k);
    if FinalizeFault(grp, k).None? {
      RecipientExists(grp, k);
      if SomeoneToPay(grp) {
        AllocateAcceptedUsually(s.cfg, s.books, s.groups, g, k);
        GrossByTerms(grp.terms);
      } else {
        NobodyAllocated(s.cfg, s.books, g, grp, k);
      }
    } else {
      FaultNotAllocated(s.cfg, s.books, g, grp, k);
    }
  }

  /** A cycle is finalized exactly then, at the end of the group if also the wallets hold the open reserves. */
  lemma FinalizesExactly(s: Sys, g: nat, k: nat)
    requires SysOk(s) && s.cfg.minBps < BPS_DENOMINATOR
    requires !s.cfg.enabled || 0 <= s.cfg.maxBps <= BPS_DENOMINATOR
    ensures FinalizeStep(s, g, k).Ok? <==>
      && g < |s.groups| && CanPayOut(s.books, g, s.groups[g], k)
      && (k == s.groups[g].terms.slots ==> ReservesBacked(s.books, s.groups[g]))
  {
    hide GroupOk, BooksOk, AllocateTx, FinalizeTx, CanPayOut, ReservesBacked;
    if g < |s.groups| {
      AllocatesExactly(s, g, k);
      FinalizeAcceptedExactly(s.cfg, s.books, s.groups, g, k);
    }
  }

  lemma GroupRowsOk(s: Sys, g: nat)
    requires SysOk(s) && g < |s.groups|
    ensures GroupOk(s.books, g, s.groups[g]) && RowsOk(s.groups[g]) && TermsOk(s.groups[g].terms)
  {
  }

  lemma GrossByTerms(t: Terms)
    requires TermsOk(t)
    ensures CycleOf(t).gross == GrossOf(t)
    ensures SummarizeCycle(t.perDay, t.slots, t.marginBps, MemberCyclePaymentDays(t)).Ok?
  {
    SummaryConserves(t.perDay, t.slots, t.marginBps, MemberCyclePaymentDays(t));
  }

  lemma RecipientExists(grp: Group, k: nat)
    requires RowsOk(grp) && FinalizeFault(grp, k).None?
    ensures k >= 1 && grp.members != []
    ensures SelectPayoutRecipient(grp.members, k, grp.payoutOverride).recipient.Some? <==> SomeoneToPay(grp)
  {
    SelectionIsEligible(grp.members, k, grp.payoutOverride);
  }

  lemma FaultNotAllocated(cfg: ReserveConfig, b: Books, g: nat, grp: Group, k: nat)
    requires FinalizeFault(grp, k).Some?
    ensures AllocateTx(cfg, b, g, grp, k).Err?
  {
  }

  lemma NobodyAllocated(cfg: ReserveConfig, b: Books, g: nat, grp: Group, k: nat)
    requires FinalizeFault(grp, k).None? && k >= 1
    requires SelectPayoutRecipient(grp.members, k, grp.payoutOverride).recipient.None?
    ensures AllocateTx(cfg, b, g, grp, k).Err?
  {
  }

  // ---- What it pays out ------------------------------------------------------------------------------

  /** The amounts of one payout, in pesewas. */
  datatype Shares = Shares(margin: int, held: int)

  /** The margin is its share of the gross, and the reserve its share of the net, both rounded down. */
  predicate SharesOf(cfg: ReserveConfig, t: Terms, k: nat, sh: Shares) {
    var gross := GrossOf(t);
    var net := gross - sh.margin;
    && sh.margin * BPS_DENOMINATOR <= gross * t.marginBps < (sh.margin + 1) * BPS_DENOMINATOR
    && if !cfg.enabled then sh.held == 0
       else
         var rate := ComputeReserveBps(k, t.slots, cfg.maxBps, cfg.minBps);
         rate.Ok? && sh.held * BPS_DENOMINATOR <= net * rate.value < (sh.held + 1) * BPS_DENOMINATOR
  }

  /** A contribution of which nothing is paid yet. */
  function WhollyUnpaid(t: Terms): Contribution {
    Contribution(t.perDay * MemberCyclePaymentDays(t), MemberCyclePaymentDays(t), 0, Pending)
  }

  /** Payout, earning and reserve of cycle `k`, paid to member `r`. */
  predicate PaysOut(grp: Group, next: Group, k: nat, r: nat, sh: Shares, skipped: seq<nat>) {
    && r < |grp.members| && k <= grp.terms.slots
    && var user := grp.members[r].user;
    && next.payouts == grp.payouts + [Payout(user, k, GrossOf(grp.terms) - sh.margin, skipped)]
    && next.earnings == grp.earnings + [Earning(k, sh.margin, 0, sh.margin)]
    && next.reserves == grp.reserves + if sh.held <= 0 then []
         else [Reserve(user, k, sh.held, sh.held, 0, 0, (grp.terms.slots - k) * grp.terms.days, 0, Open)]
  }

  /** The next cycle starts wholly unpaid, and in CYCLE mode lateness is forgiven. */
  ghost predicate StartsNext(grp: Group, next: Group, k: nat) {
    && next.currentCycle == k + 1 && next.status == Active
    && |next.cycles| == |grp.cycles| + 1 && next.cycles[..|grp.cycles|] == grp.cycles
    && |next.cycles[|grp.cycles|]| == |grp.members| == |next.members|
    && (forall i :: 0 <= i < |grp.members| ==>
          && next.cycles[|grp.cycles|][i] == WhollyUnpaid(grp.terms)
          && next.members[i] == if grp.terms.mode == Cycle && grp.members[i].standing == Late
                                then grp.members[i].(standing := Good) else grp.members[i])
  }

  /** What one payout moves on account `a`. */
  function PayoutMoves(g: nat, user: nat, gross: int, sh: Shares, a: Account): int {
    if a == GroupPool(g) then -gross
    else if a == Revenue then sh.margin
    else if a == Available(user) then gross - sh.margin - sh.held
    else if a == Reserved(user) then sh.held else 0
  }

  function RecipientOf(grp: Group, k: nat): Option<nat>
    requires k >= 1
  {
    SelectPayoutRecipient(grp.members, k, grp.payoutOverride).recipient
  }

  /** The rows of cycle `k` paid out, and the next cycle opened or the group completed. */
  ghost predicate CycleClosed(grp: Group, next: Group, k: nat, r: nat, sh: Shares) {
    && (exists skipped :: PaysOut(grp, next, k, r, sh, skipped))
    && if k < grp.terms.slots then
         && StartsNext(grp, next, k)
         && next == grp.(payouts := next.payouts, earnings := next.earnings, reserves := next.reserves,
                         currentCycle := next.currentCycle, cycles := next.cycles, members := next.members)
       else
         next == grp.(payouts := next.payouts, earnings := next.earnings, reserves := next.reserves,
                      status := Completed)
  }

  /** An accepted allocation pays the selected recipient: its rows, and every balance. */
  lemma AllocationChanges(cfg: ReserveConfig, b: Books, g: nat, grp: Group, k: nat) returns (r: nat, sh: Shares)
    requires GroupOk(b, g, grp) && AllocateTx(cfg, b, g, grp, k).Ok?
    ensures k >= 1 && RecipientOf(grp, k) == Some(r) && r < |grp.members| && SharesOf(cfg, grp.terms, k, sh)
    ensures var l := AllocateTx(cfg, b, g, grp, k).value;
      && CycleClosed(grp, l.grp, k, r, sh)
      && forall a :: Balance(l.books.balances, a)
           == Balance(b.balances, a) + PayoutMoves(g, grp.members[r].user, GrossOf(grp.terms), sh, a)
  {
    hide RowsOk, BooksOk, KeysSpent, Reconciled, SelectPayoutRecipient, ComputeSplit, FinalizeFault, AllocateTx,
      FinalizeRows, CycleClosed, SharesOf, GrossOf, MemberCyclePaymentDays, Balance, PayoutMoves, AllocationLines,
      CycleOf;
    RowsOfGroup(b, g, grp);
    AllocateShape(cfg, b, g, grp, k);
    var aw, s := AwardOf(cfg, grp, k), CycleOf(grp.terms);
    r, sh := aw.index, Shares(s.serviceMargin, aw.split.reserve);
    SelectionInRange(grp.members, k, grp.payoutOverride);
    SplitWasOk(cfg, b, g, grp, k);
    SplitIsExact(cfg, grp.terms, k);
    RowsWritten(grp, k, r, aw.skipped, s, aw.split);
    AllocationPosted(cfg, b, g, grp, k);
    forall a ensures Balance(AllocateTx(cfg, b, g, grp, k).value.books.balances, a)
      == Balance(b.balances, a) + PayoutMoves(g, aw.user, GrossOf(grp.terms), sh, a)
    {
      PostMoves(b, Allocation(g, k), AllocationLines(g, aw.user, s, aw.split), a);
      AllocationMoves(g, aw.user, s, aw.split, a);
      LinesMove(g, aw.user, grp.terms, s, aw.split, a);
    }
  }

  lemma LinesMove(g: nat, user: nat, t: Terms, s: CycleSummary, split: Split, a: Account)
    requires s.gross == GrossOf(t) && s.platformShare == s.serviceMargin
    requires split.reserve >= 0 && split.reserve + split.available == s.gross - s.serviceMargin
    ensures PayoutMoves(g, user, GrossOf(t), Shares(s.serviceMargin, split.reserve), a) ==
      if a == GroupPool(g) then -s.gross
      else if a == Available(user) then split.available
      else if a == Revenue then s.platformShare
      else if a == Reserved(user) && split.reserve > 0 then split.reserve else 0
  {
    hide GrossOf;
  }

  lemma RowsOfGroup(b: Books, g: nat, grp: Group)
    requires GroupOk(b, g, grp)
    ensures RowsOk(grp) && TermsOk(grp.terms) && KeysSpent(b, g, grp)
    ensures grp.status == Active ==>
      |grp.payouts| < grp.currentCycle <= grp.terms.slots == |grp.members| && |grp.cycles| == grp.currentCycle
  {
  }

  lemma AllocationPosted(cfg: ReserveConfig, b: Books, g: nat, grp: Group, k: nat)
    requires GroupOk(b, g, grp) && AllocateTx(cfg, b, g, grp, k).Ok?
    ensures k >= 1 && SelectPayoutRecipient(grp.members, k, grp.payoutOverride).recipient.Some?
    ensures var aw := AwardOf(cfg, grp, k);
      var posted := Post(b, Allocation(g, k), AllocationLines(g, aw.user, CycleOf(grp.terms), aw.split));
      posted.Posted? && AllocateTx(cfg, b, g, grp, k).value.books == posted.books
  {
    hide RowsOk, BooksOk, KeysSpent, Reconciled, SelectPayoutRecipient, FinalizeRows;
    RowsOfGroup(b, g, grp);
    AllocateShape(cfg, b, g, grp, k);
    AllocationKeyFresh(b, g, grp, k);
    GrossByTerms(grp.terms);
  }

  lemma SplitWasOk(cfg: ReserveConfig, b: Books, g: nat, grp: Group, k: nat)
    requires RowsOk(grp) && AllocateTx(cfg, b, g, grp, k).Ok?
    ensures grp.status == Active && 1 <= k <= grp.terms.slots && |grp.members| == grp.terms.slots
    ensures var t := grp.terms;
      ComputeSplit(cfg, CycleOf(t).netAfterMargin, k, t.slots, MemberCyclePaymentDays(t)).Ok?
  {
    hide SelectPayoutRecipient, FinalizeRows, ComputeSplit;
    GrossByTerms(grp.terms);
  }

  lemma SplitIsExact(cfg: ReserveConfig, t: Terms, k: nat)
    requires TermsOk(t) && 1 <= k <= t.slots
    requires ComputeSplit(cfg, CycleOf(t).netAfterMargin, k, t.slots, MemberCyclePaymentDays(t)).Ok?
    ensures var s := CycleOf(t);
      var split := ComputeSplit(cfg, s.netAfterMargin, k, t.slots, MemberCyclePaymentDays(t)).value;
      && s.gross == GrossOf(t) && s.platformShare == s.serviceMargin && s.adminShare == 0
      && s.netAfterMargin == s.gross - s.serviceMargin
      && SharesOf(cfg, t, k, Shares(s.serviceMargin, split.reserve))
  {
    hide ComputeReserveBps, GrossOf;
    MarginIsExact(t);
    var s := CycleOf(t);
    SplitConserves(cfg, s.netAfterMargin, k, t.slots, MemberCyclePaymentDays(t));
    if cfg.enabled {
      SplitExactly(cfg, s.netAfterMargin, k, t.slots, MemberCyclePaymentDays(t));
    }
  }

  lemma MarginIsExact(t: Terms)
    requires TermsOk(t)
    ensures var s := CycleOf(t);
      && s.gross == GrossOf(t) && s.platformShare == s.serviceMargin && s.adminShare == 0
      && s.netAfterMargin == s.gross - s.serviceMargin >= 0
      && s.serviceMargin * BPS_DENOMINATOR <= GrossOf(t) * t.marginBps < (s.serviceMargin + 1) * BPS_DENOMINATOR
  {
    GrossByTerms(t);
    SummaryConserves(t.perDay, t.slots, t.marginBps, MemberCyclePaymentDays(t));
    BpsShare(GrossOf(t), t.marginBps);
  }

  lemma RowsWritten(grp: Group, k: nat, r: nat, skipped: seq<nat>, s: CycleSummary, split: Split)
    requires grp.status == Active && r < |grp.members| == grp.terms.slots && k <= grp.terms.slots
    requires s.gross == GrossOf(grp.terms) && s.netAfterMargin == s.gross - s.serviceMargin
    requires split.units == (grp.terms.slots - k) * grp.terms.days
    ensures CycleClosed(grp, FinalizeRows(grp, k, grp.members[r].user, skipped, s, split), k, r,
                        Shares(s.serviceMargin, split.reserve))
  {
    hide GrossOf;
    var next := FinalizeRows(grp, k, grp.members[r].user, skipped, s, split);
    assert PaysOut(grp, next, k, r, Shares(s.serviceMargin, split.reserve), skipped);
  }

  // ---- What the last cycle gives back ----------------------------------------------------------------

  /** What the deposit of a member moves on account `a` when it is returned. */
  function DepositBack(a: Account): Member -> int {
    (m: Member) => if m.deposit == Held then Moved(Escrow(m.user), Available(m.user), m.depositAmount, a) else 0
  }

  /** What an open reserve moves on account `a` when it is closed. */
  function ReserveBack(a: Account): Reserve -> int {
    (row: Reserve) =>
      if row.status == Open then Moved(Reserved(row.user), Available(row.user), row.remaining, a) else 0
  }

  function GivenBack(grp: Group, a: Account): int {
    SumOf(grp.members, DepositBack(a)) + SumOf(grp.reserves, ReserveBack(a))
  }

  lemma ReturnMoves(b: Books, g: nat, grp: Group, i: nat, a: Account)
    requires GroupOk(b, g, grp) && i < |grp.members| && ReturnDeposit(b, g, grp, i).Ok?
    ensures var l := ReturnDeposit(b, g, grp, i).value;
      && Balance(l.books.balances, a) == Balance(b.balances, a) + DepositBack(a)(grp.members[i])
      && SumOf(l.grp.members, DepositBack(a)) == SumOf(grp.members, DepositBack(a)) - DepositBack(a)(grp.members[i])
  {
    hide BooksOk, Reconciled, Post, SumOf, Balance;
    var m, key := grp.members[i], DepositRelease(g, i);
    assert MemberOk(grp.terms, grp.status, m);
    TermsFacts(grp.terms);
    if m.deposit == Held {
      assert OwnerOf(key) == Some(g) && !Spent(grp, key);
      DuplicateNeedsKey(b, key, Escrow(m.user), Available(m.user), m.depositAmount);
      TransferMoves(b, key, Escrow(m.user), Available(m.user), m.depositAmount, a);
      SumUpdate(grp.members, i, m.(deposit := Returned), DepositBack(a));
    }
  }

  lemma {:induction false} ReturnsMove(b: Books, g: nat, grp: Group, i: nat, a: Account)
    requires GroupOk(b, g, grp) && grp.status == Completed && ReturnDepositsFrom(b, g, grp, i).Ok?
    requires forall j :: 0 <= j < i && j < |grp.members| ==> grp.members[j].deposit != Held
    ensures Balance(ReturnDepositsFrom(b, g, grp, i).value.books.balances, a)
         == Balance(b.balances, a) + SumOf(grp.members, DepositBack(a))
    decreases |grp.members| - i
  {
    hide GroupOk, ReturnDeposit, Balance, SumOf;
    if i < |grp.members| {
      ReturnDepositKeepsGroupOk(b, g, grp, i);
      ReturnMoves(b, g, grp, i, a);
      var l := ReturnDeposit(b, g, grp, i).value;
      ReturnsMove(l.books, g, l.grp, i + 1, a);
    } else {
      SumZero(grp.members, DepositBack(a));
    }
  }

  lemma CloseMoves(b: Books, g: nat, grp: Group, r: nat, a: Account)
    requires GroupOk(b, g, grp) && r < |grp.reserves| && CloseReserve(b, g, grp, r).Ok?
    ensures var l := CloseReserve(b, g, grp, r).value;
      && Balance(l.books.balances, a) == Balance(b.balances, a) + ReserveBack(a)(grp.reserves[r])
      && SumOf(l.grp.reserves, ReserveBack(a)) == SumOf(grp.reserves, ReserveBack(a)) - ReserveBack(a)(grp.reserves[r])
  {
    hide BooksOk, Reconciled, Post, SumOf, Balance;
    var row, key := grp.reserves[r], FinalRelease(g, r);
    assert ReserveOk(grp, row);
    if row.status == Open {
      assert OwnerOf(key) == Some(g) && !Spent(grp, key);
      DuplicateNeedsKey(b, key, Reserved(row.user), Available(row.user), row.remaining);
      TransferMoves(b, key, Reserved(row.user), Available(row.user), row.remaining, a);
      SumUpdate(grp.reserves, r, FullyReleased(row, row.remaining), ReserveBack(a));
    }
  }

  lemma {:induction false} ClosesMove(b: Books, g: nat, grp: Group, r: nat, a: Account)
    requires GroupOk(b, g, grp) && grp.status == Completed && CloseReservesFrom(b, g, grp, r).Ok?
    requires forall q :: 0 <= q < r && q < |grp.reserves| ==> grp.reserves[q].status == Closed
    ensures Balance(CloseReservesFrom(b, g, grp, r).value.books.balances, a)
         == Balance(b.balances, a) + SumOf(grp.reserves, ReserveBack(a))
    decreases |grp.reserves| - r
  {
    hide GroupOk, CloseReserve, Balance, SumOf;
    if r < |grp.reserves| {
      CloseReserveKeepsGroupOk(b, g, grp, r);
      CloseMoves(b, g, grp, r, a);
      var l := CloseReserve(b, g, grp, r).value;
      ClosesMove(l.books, g, l.grp, r + 1, a);
    } else {
      SumZero(grp.reserves, ReserveBack(a));
    }
  }

  /** Every held deposit is returned, every open reserve is paid out and closed, and that is all. */
  ghost predicate Settled(grp: Group, next: Group) {
    && next == grp.(members := next.members, reserves := next.reserves)
    && |next.members| == |grp.members| && |next.reserves| == |grp.reserves|
    && (forall i :: 0 <= i < |grp.members| ==>
          next.members[i] == if grp.members[i].deposit == Held then grp.members[i].(deposit := Returned)
                             else grp.members[i])
    && (forall r :: 0 <= r < |grp.reserves| ==>
          next.reserves[r] == if grp.reserves[r].status == Open then PaidBack(grp.reserves[r]) else grp.reserves[r])
  }

  function PaidBack(row: Reserve): Reserve {
    row.(remaining := 0, released := row.released + row.remaining, unitsReleased := row.units, status := Closed)
  }

  lemma DrainedIsSettled(grp: Group, next: Group)
    requires RowsOk(grp) && Completes(grp, next) && Drained(next)
    ensures Settled(grp, next)
  {
    forall r | 0 <= r < |grp.reserves|
      ensures next.reserves[r] == if grp.reserves[r].status == Open then PaidBack(grp.reserves[r]) else grp.reserves[r]
    {
      assert ReserveOk(grp, grp.reserves[r]);
      assert ReserveSettled(grp.reserves[r], next.reserves[r]) && next.reserves[r].status == Closed;
    }
    forall i | 0 <= i < |grp.members|
      ensures next.members[i] == if grp.members[i].deposit == Held then grp.members[i].(deposit := Returned)
                                 else grp.members[i]
    {
      assert MemberSettled(grp.members[i], next.members[i]) && next.members[i].deposit != Held;
    }
  }

  /** An accepted completion: rows, and every balance. */
  lemma CompletionChanges(b: Books, groups: seq<Group>, g: nat)
    requires GroupsOk(b, groups) && g < |groups| && groups[g].status == Completed
    requires CompleteTx(b, groups, g, groups[g]).Ok?
    ensures var l := CompleteTx(b, groups, g, groups[g]).value;
      && Settled(groups[g], l.grp)
      && forall a :: Balance(l.books.balances, a) == Balance(b.balances, a) + GivenBack(groups[g], a)
  {
    hide GroupOk, BooksOk, Completes, Drained, Settled, SumOf, Balance, DepositBack, ReserveBack, RowsOk;
    var grp := groups[g];
    assert GroupOk(b, g, grp);
    RowsOfGroup(b, g, grp);
    CompleteKeepsGroupsOk(b, groups, g);
    CompletionShape(b, groups, g, grp);
    DrainedIsSettled(grp, CompleteTx(b, groups, g, grp).value.grp);
    ReturnDepositsKeepGroupOk(b, g, grp, 0);
    var d := ReturnDepositsFrom(b, g, grp, 0).value;
    ReturnsComplete(b, g, grp, 0);
    CloseReservesKeepGroupOk(d.books, g, d.grp, 0);
    var c := CloseReservesFrom(d.books, g, d.grp, 0).value;
    ExtendsTransitive(b, d.books, c.books, g);
    ReplaceGroup(b, groups, g, c.books, c.grp);
    SweepsAreIdle(c.books, groups[g := c.grp], OpenUsers(d.grp.reserves));
    forall a ensures Balance(c.books.balances, a) == Balance(b.balances, a) + GivenBack(grp, a) {
      ReturnsMove(b, g, grp, 0, a);
      ClosesMove(d.books, g, d.grp, 0, a);
    }
  }

  // ---- The whole finalization ------------------------------------------------------------------------

  /**
   * An accepted finalization pays the recipient the gross less margin and reserve, writes its rows and
   * opens the next cycle; with the last one it gives everything back. Nothing else changes or moves.
   */
  lemma FinalizationChanges(s: Sys, g: nat, k: nat) returns (r: nat, sh: Shares, mid: Group)
    requires SysOk(s) && FinalizeStep(s, g, k).Ok?
    ensures g < |s.groups| && k >= 1 && RecipientOf(s.groups[g], k) == Some(r) && r < |s.groups[g].members|
    ensures SharesOf(s.cfg, s.groups[g].terms, k, sh) && CycleClosed(s.groups[g], mid, k, r, sh)
    ensures var next := FinalizeStep(s, g, k).value; var grp := s.groups[g]; var last := k >= grp.terms.slots;
      && |next.groups| == |s.groups| && next.groups == s.groups[g := next.groups[g]]
      && next.cfg == s.cfg && next.refs == s.refs
      && (if last then Settled(mid, next.groups[g]) else next.groups[g] == mid)
      && forall a :: Balance(next.books.balances, a) == Balance(s.books.balances, a)
           + PayoutMoves(g, grp.members[r].user, GrossOf(grp.terms), sh, a) + if last then GivenBack(mid, a) else 0
  {
    hide GroupOk, BooksOk, RowsOk, AllocateTx, CompleteTx, CycleClosed, SharesOf, Settled, GivenBack, PayoutMoves,
      Balance, GrossOf, SelectPayoutRecipient;
    GroupRowsOk(s, g);
    var grp := s.groups[g];
    r, sh := AllocationChanges(s.cfg, s.books, g, grp, k);
    var l := AllocateTx(s.cfg, s.books, g, grp, k).value;
    mid := l.grp;
    LastAwardReservesNothing(s.cfg, s.books, g, grp, k);
    SplitWasOk(s.cfg, s.books, g, grp, k);
    if mid.status == Completed {
      AllocateKeepsGroupOk(s.cfg, s.books, g, grp, k);
      ReplaceGroup(s.books, s.groups, g, l.books, l.grp);
      SameCompletion(l.books, s.groups, g, l.grp);
      CompletionChanges(l.books, s.groups[g := l.grp], g);
    }
  }
}
