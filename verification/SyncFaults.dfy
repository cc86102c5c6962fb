/**
 * Which sync is refused: exactly the one that meets a member whose cover exceeds the member's wallet.
 * It stops there. The sync of a cycle that is ready to finalize meets none.
 */
module SyncFaults {
  import opened Accounts
  import opened Calculations
  import opened Compliance
  import opened Engine
  import opened GroupSafety
  import opened Ledger
  import opened PayoutQueue
  import opened PoolSolvency
  import opened Preview
  import opened Protocol
  import opened ReserveMath
  import opened RowInvariants
  import opened Rows
  import opened Solvency

  /** Member `i` newly defaults on day `today`, and the cover exceeds what the member's wallet holds. */
  ghost predicate CoverRefused(cfg: ReserveConfig, b: Books, grp: Group, i: nat, today: int) {
    && i < |grp.members| && NextStanding(grp, i, today).None?
    && HasReceivedPayout(grp, grp.members[i].user)
    && CoverDue(cfg, grp, grp.currentCycle, i).2 > Balance(b.balances, Reserved(grp.members[i].user))
  }

  lemma SyncMemberFaultsExactly(cfg: ReserveConfig, b: Books, groups: seq<Group>, g: nat, i: nat, today: int)
    requires GroupsOk(b, groups) && g < |groups| && i < |groups[g].members|
    requires groups[g].status == Active && groups[g].terms.mode == Cycle
    ensures SyncMember(cfg, b, g, groups[g], i, today).Err? <==> CoverRefused(cfg, b, groups[g], i, today)
  {
    hide GroupsOk, DefaultTx;
    if NextStanding(groups[g], i, today).None? { DefaultAcceptedExactly(cfg, b, groups, g, i); }
  }

  // ---- One member's sync does not touch another's cover ------------------------------------------

  lemma {:induction false} FirstOpenElsewhere(reserves: seq<Reserve>, r: nat, row: Reserve, user: nat)
    requires r < |reserves| && reserves[r].user == row.user != user
    ensures FirstOpen(reserves[r := row], user) == FirstOpen(reserves, user)
  {
    var n, next := |reserves| - 1, reserves[r := row];
    if r < n {
      assert next[..n] == reserves[..n][r := row];
      FirstOpenElsewhere(reserves[..n], r, row, user);
    } else {
      assert next[..n] == reserves[..n];
    }
  }

  /** What a sync reads of member `j` for a cover: the rows of the member's user, and the wallet. */
  ghost predicate SameCover(cfg: ReserveConfig, b: Books, grp: Group, after: Books, next: Group, j: nat) {
    && j < |grp.members| == |next.members| && next.members[j] == grp.members[j] && SameView(grp, next, j)
    && next.payouts == grp.payouts
    && CoverDue(cfg, next, grp.currentCycle, j) == CoverDue(cfg, grp, grp.currentCycle, j)
    && Balance(after.balances, Reserved(grp.members[j].user)) == Balance(b.balances, Reserved(grp.members[j].user))
  }

  lemma SameCoverSameRefusal(
      cfg: ReserveConfig, b: Books, grp: Group, after: Books, next: Group, j: nat, today: int)
    requires SameCover(cfg, b, grp, after, next, j)
    ensures CoverRefused(cfg, after, next, j, today) <==> CoverRefused(cfg, b, grp, j, today)
  {
    SameViewSameNext(grp, next, j, today);
  }

  lemma CoverLeavesCover(cfg: ReserveConfig, b: Books, g: nat, grp: Group, k: nat, i: nat, j: nat)
    requires i < |grp.members| && j < |grp.members| && grp.members[j].user != grp.members[i].user
    requires k == grp.currentCycle && CoverTx(cfg, b, g, grp, k, i).Ok?
    ensures var l := CoverTx(cfg, b, g, grp, k, i).value; SameCover(cfg, b, grp, l.books, l.grp, j)
  {
    var (r, missed, amount) := CoverDue(cfg, grp, k, i);
    var from := Reserved(grp.members[i].user);
    CoverIsLocal(cfg, b, g, grp, k, i, j);
    if amount > 0 {
      var key := DefaultCover(g, r, k, i);
      if Transfer(b, key, from, GroupPool(g), amount).Posted? {
        TransferLeaves(b, key, from, GroupPool(g), amount, Reserved(grp.members[j].user));
        FirstOpenElsewhere(grp.reserves, r, AfterCover(grp.reserves[r], amount), grp.members[j].user);
        SameCoversElsewhere(grp, CoverTx(cfg, b, g, grp, k, i).value.grp, k, i, j);
      }
    }
  }

  lemma SameCoversElsewhere(grp: Group, next: Group, k: nat, i: nat, j: nat)
    requires i < |grp.members| && j < |grp.members| && grp.members[j].user != grp.members[i].user
    requires |next.covers| == |grp.covers| + 1 && next.covers[..|grp.covers|] == grp.covers
    requires next.covers[|grp.covers|].user == grp.members[i].user
    ensures forall r :: CoverExists(next, r, k, grp.members[j].user) <==> CoverExists(grp, r, k, grp.members[j].user)
  {
    assert forall c :: 0 <= c < |grp.covers| ==> next.covers[c] == grp.covers[c];
  }

  lemma SyncLeavesCover(cfg: ReserveConfig, b: Books, groups: seq<Group>, g: nat, i: nat, today: int, j: nat)
    requires GroupsOk(b, groups) && g < |groups| && i < |groups[g].members| && j < |groups[g].members| && j != i
    requires groups[g].status == Active && groups[g].terms.mode == Cycle
    requires SyncMember(cfg, b, g, groups[g], i, today).Ok?
    ensures var l := SyncMember(cfg, b, g, groups[g], i, today).value;
      SameCover(cfg, b, groups[g], l.books, l.grp, j)
  {
    hide Step, BooksOk, DefaultTx;
    var grp := groups[g];
    assert GroupOk(b, g, grp);
    SyncMemberIsLocal(cfg, b, g, grp, i, today, j);
    if NextStanding(grp, i, today).None? {
      DefaultLeavesCover(cfg, b, groups, g, i, j);
    }
  }

  lemma DefaultLeavesCover(cfg: ReserveConfig, b: Books, groups: seq<Group>, g: nat, i: nat, j: nat)
    requires GroupsOk(b, groups) && g < |groups| && i < |groups[g].members| && j < |groups[g].members| && j != i
    requires groups[g].status == Active && groups[g].terms.mode == Cycle
    requires groups[g].members[j].user != groups[g].members[i].user && DefaultTx(cfg, b, g, groups[g], i).Ok?
    ensures var l := DefaultTx(cfg, b, g, groups[g], i).value; SameCover(cfg, b, groups[g], l.books, l.grp, j)
  {
    hide GroupsOk, GroupOk, BooksOk, ForfeitTx, CoverTx;
    var grp := groups[g];
    var f := AfterForfeit(b, groups, g, i);
    if HasReceivedPayout(grp, grp.members[i].user) {
      CoverLeavesCover(cfg, f.books, g, f.grp, grp.currentCycle, i, j);
    }
  }

  // ---- A whole sync ------------------------------------------------------------------------------

  /** Nobody from `i` up to `m` is refused, and `m` is, unless it is behind the last member. */
  ghost predicate FirstRefused(cfg: ReserveConfig, b: Books, grp: Group, i: nat, m: nat, today: int) {
    && m <= |grp.members|
    && (forall j: nat :: i <= j < m ==> !CoverRefused(cfg, b, grp, j, today))
    && (m < |grp.members| ==> CoverRefused(cfg, b, grp, m, today))
  }

  /** From `m` on nobody was assessed: member and running contribution are as they were. */
  ghost predicate Unassessed(grp: Group, next: Group, m: nat) {
    && |next.members| == |grp.members|
    && forall j: nat :: m <= j < |grp.members| ==> next.members[j] == grp.members[j] && SameView(grp, next, j)
  }

  lemma {:induction false} SyncFromFaultsExactly(
      cfg: ReserveConfig, b: Books, groups: seq<Group>, g: nat, i: nat, today: int) returns (m: nat)
    requires GroupsOk(b, groups) && g < |groups| && i <= |groups[g].members|
    requires groups[g].status == Active && groups[g].terms.mode == Cycle
    ensures var grp := groups[g]; var out := SyncFrom(cfg, b, g, grp, i, today);
      && i <= m && FirstRefused(cfg, b, grp, i, m, today) && Unassessed(grp, out.local.grp, m)
      && (out.fault.None? <==> m == |grp.members|)
    decreases |groups[g].members| - i
  {
    hide GroupsOk, SyncMember, CoverRefused, SameCover;
    var grp := groups[g];
    if i == |grp.members| {
      m := i;
    } else {
      SyncMemberFaultsExactly(cfg, b, groups, g, i, today);
      if CoverRefused(cfg, b, grp, i, today) {
        m := i;
      } else {
        var l := SyncMember(cfg, b, g, grp, i, today).value;
        AfterMember(cfg, b, groups, g, i, today);
        m := SyncFromFaultsExactly(cfg, l.books, groups[g := l.grp], g, i + 1, today);
        RefusedLater(cfg, b, grp, l, i, m, today);
        UnassessedBefore(cfg, b, grp, l, SyncFrom(cfg, b, g, grp, i, today).local.grp, i, m);
      }
    }
  }

  lemma AfterMember(cfg: ReserveConfig, b: Books, groups: seq<Group>, g: nat, i: nat, today: int)
    requires GroupsOk(b, groups) && g < |groups| && i < |groups[g].members|
    requires groups[g].status == Active && groups[g].terms.mode == Cycle
    requires SyncMember(cfg, b, g, groups[g], i, today).Ok?
    ensures var grp := groups[g]; var l := SyncMember(cfg, b, g, grp, i, today).value;
      && GroupsOk(l.books, groups[g := l.grp]) && |l.grp.members| == |grp.members|
      && l.grp.status == grp.status && l.grp.terms == grp.terms
      && forall j: nat :: j < |grp.members| && j != i ==> SameCover(cfg, b, grp, l.books, l.grp, j)
  {
    hide GroupOk, SyncMember;
    var grp := groups[g];
    assert GroupOk(b, g, grp);
    SyncMemberKeepsGroupOk(cfg, b, g, grp, i, today);
    SyncMemberKeepsRoster(cfg, b, g, grp, i, today);
    var l := SyncMember(cfg, b, g, grp, i, today).value;
    ReplaceGroup(b, groups, g, l.books, l.grp);
    forall j: nat | j < |grp.members| && j != i ensures SameCover(cfg, b, grp, l.books, l.grp, j) {
      SyncLeavesCover(cfg, b, groups, g, i, today, j);
    }
  }

  lemma RefusedLater(cfg: ReserveConfig, b: Books, grp: Group, l: Local, i: nat, m: nat, today: int)
    requires |l.grp.members| == |grp.members| && !CoverRefused(cfg, b, grp, i, today)
    requires forall j: nat :: j < |grp.members| && j != i ==> SameCover(cfg, b, grp, l.books, l.grp, j)
    requires i < m && FirstRefused(cfg, l.books, l.grp, i + 1, m, today)
    ensures FirstRefused(cfg, b, grp, i, m, today)
  {
    forall j: nat | i < j < |grp.members|
      ensures CoverRefused(cfg, l.books, l.grp, j, today) <==> CoverRefused(cfg, b, grp, j, today)
    {
      SameCoverSameRefusal(cfg, b, grp, l.books, l.grp, j, today);
    }
  }

  lemma UnassessedBefore(cfg: ReserveConfig, b: Books, grp: Group, l: Local, next: Group, i: nat, m: nat)
    requires |l.grp.members| == |grp.members| && i < m && Unassessed(l.grp, next, m)
    requires forall j: nat :: j < |grp.members| && j != i ==> SameCover(cfg, b, grp, l.books, l.grp, j)
    ensures Unassessed(grp, next, m)
  {
    forall j: nat | m <= j < |grp.members| ensures next.members[j] == grp.members[j] && SameView(grp, next, j) {
      assert SameCover(cfg, b, grp, l.books, l.grp, j);
      SameViewTransitive(grp, l.grp, next, j);
    }
  }

  /**
   * A sync fails exactly at the first member whose cover exceeds the wallet, if there is one, and
   * leaves that member and all later ones unassessed. DAILY groups and groups not running never fail.
   */
  lemma SyncFaultsExactly(cfg: ReserveConfig, b: Books, groups: seq<Group>, g: nat, today: int) returns (m: nat)
    requires GroupsOk(b, groups) && g < |groups|
    ensures var grp := groups[g]; var out := SyncGroup(cfg, b, g, grp, today);
      if grp.status == Active && grp.terms.mode == Cycle then
        && FirstRefused(cfg, b, grp, 0, m, today) && Unassessed(grp, out.local.grp, m)
        && (out.fault.None? <==> m == |grp.members|)
      else out.fault.None?
  {
    hide GroupsOk, SyncFrom;
    if groups[g].status == Active && groups[g].terms.mode == Cycle {
      m := SyncFromFaultsExactly(cfg, b, groups, g, 0, today);
    } else {
      m := 0;
    }
  }

  // ---- The sync of a ready cycle -----------------------------------------------------------------

  /** Only standings changed, and the cycle is as ready as before. */
  ghost predicate StillReady(grp: Group, next: Group, k: nat) {
    next == grp.(members := next.members) && |next.members| == |grp.members| && FinalizeFault(next, k).None?
  }

  lemma {:induction false} ReadyPass(
      cfg: ReserveConfig, b: Books, g: nat, grp: Group, i: nat, k: nat, today: int)
    requires FinalizeFault(grp, k).None?
    ensures var out := SyncFrom(cfg, b, g, grp, i, today);
      out.fault.None? && out.local.books == b && StillReady(grp, out.local.grp, k)
    decreases |grp.members| - i
  {
    hide DefaultTx;
    if i < |grp.members| {
      var s := NextStanding(grp, i, today);
      assert grp.cycles[k - 1][i].status == Paid || grp.members[i].standing == Defaulted;
      var next := WithStanding(grp, i, s.value);
      assert StillReady(grp, next, k);
      ReadyPass(cfg, b, g, next, i + 1, k, today);
    }
  }

  /** The sync of a ready cycle meets no fault, moves no money, and leaves the cycle ready. */
  lemma ReadySyncNeverFaults(cfg: ReserveConfig, b: Books, g: nat, grp: Group, k: nat, today: int)
    requires FinalizeFault(grp, k).None? && grp.terms.mode == Cycle
    ensures var out := SyncGroup(cfg, b, g, grp, today);
      out.fault.None? && out.local.books == b && StillReady(grp, out.local.grp, k)
  {
    hide SyncFrom;
    ReadyPass(cfg, b, g, grp, 0, k, today);
  }

  /**
   * Over every run, the whole operation on a ready cycle, sync first: it is accepted under the very
   * conditions of the transaction alone, read off the standings that the sync leaves.
   */
  lemma SyncedCycleFinalizes(cfg: ReserveConfig, ops: seq<Op>, g: nat, k: nat, today: int)
    requires NoRecounts(Init(cfg), ops) && cfg.minBps < BPS_DENOMINATOR
      && (!cfg.enabled || 0 <= cfg.maxBps <= BPS_DENOMINATOR)
    requires var s := Run(Init(cfg), ops); g < |s.groups| && FinalizeFault(s.groups[g], k).None?
    requires var grp := Run(Init(cfg), ops).groups[g];
      grp.terms.mode == Cycle && forall i: nat :: i < |grp.members| ==> MissedCycles(grp, i) <= 1
    ensures var s := Run(Init(cfg), ops); var out := SyncGroup(cfg, s.books, g, s.groups[g], today);
      && out.fault.None? && out.local.books == s.books && StillReady(s.groups[g], out.local.grp, k)
      && (FinalizeStep(SyncStep(s, g, today), g, k).Ok? <==>
            && SelectPayoutRecipient(out.local.grp.members, k, s.groups[g].payoutOverride).recipient.Some?
            && CycleOf(s.groups[g].terms).gross * s.groups[g].terms.marginBps >= BPS_DENOMINATOR
            && (k == s.groups[g].terms.slots ==> ReservesBacked(s.books, s.groups[g])))
  {
    hide SysOk, SyncGroup, SyncStep, FinalizeStep, SelectPayoutRecipient, CycleOf, FinalizeFault, Step, Run;
    var s := Run(Init(cfg), ops);
    RunsKeepSysOk(cfg, ops);
    ReadySyncNeverFaults(cfg, s.books, g, s.groups[g], k, today);
    RunThen(Init(cfg), ops, Sync(g, today));
    RunThenNoRecount(Init(cfg), ops, Sync(g, today));
    SyncStepShows(s, g, today);
    var next := Run(Init(cfg), ops + [Sync(g, today)]).groups[g];
    assert forall i: nat :: i < |next.members| ==> MissedCycles(next, i) == MissedCycles(s.groups[g], i);
    FundedCyclesFinalize(cfg, ops + [Sync(g, today)], g, k);
  }

  lemma SyncStepShows(s: Sys, g: nat, today: int)
    requires g < |s.groups|
    ensures var next := Step(s, Sync(g, today)); var out := SyncGroup(s.cfg, s.books, g, s.groups[g], today);
      && next == SyncStep(s, g, today) && |next.groups| == |s.groups|
      && next.groups[g] == out.local.grp && next.books == out.local.books
  {
    hide SyncGroup;
  }
}
