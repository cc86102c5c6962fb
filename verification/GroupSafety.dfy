/** Defaults, compliance syncs and finalization keep a group's rows, keys and ledger in step. */
module GroupSafety {
  import opened Wrappers
  import opened Accounts
  import opened Ledger
  import opened Preview
  import opened ReserveMath
  import opened Rows
  import opened PayoutQueue
  import opened Engine
  import opened Accounting
  import opened RowInvariants

  /** What no transaction of a running group changes. */
  ghost predicate SameHeader(grp: Group, next: Group) {
    && next.terms == grp.terms && next.payoutOverride == grp.payoutOverride && next.graceDays == grp.graceDays
    && |next.members| == |grp.members|
    && forall i :: 0 <= i < |grp.members| ==> next.members[i].user == grp.members[i].user
  }

  ghost predicate SameCycle(grp: Group, next: Group) {
    && SameHeader(grp, next) && next.status == grp.status && next.currentCycle == grp.currentCycle
    && next.payouts == grp.payouts && |next.cycles| == |grp.cycles|
  }

  // ---- Settling and joining -----------------------------------------------------------------------

  lemma JoinKeepsGroupOk(b: Books, g: nat, grp: Group, user: nat)
    requires GroupOk(b, g, grp) && JoinTx(b, g, grp, user).Ok?
    ensures var l := JoinTx(b, g, grp, user).value; GroupOk(l.books, g, l.grp) && Extends(b, l.books, g)
  {
    hide BooksOk, RowsOk, JoinTx;
    JoinKeepsRows(b, g, grp, user);
    JoinKeepsKeys(b, g, grp, user);
    JoinReconciles(b, g, grp, user);
  }

  lemma ActivateKeepsGroupOk(b: Books, g: nat, grp: Group)
    requires GroupOk(b, g, grp) && ActivateTx(grp).Ok?
    ensures GroupOk(b, g, ActivateTx(grp).value)
  {
    hide KeysSpent, Reconciled;
    ActivateKeepsRows(grp);
    AdvanceKeepsSpent(b, g, grp, ActivateTx(grp).value);
    ActivateReconciles(b, g, grp);
  }

  lemma SettleKeepsGroupOk(cfg: ReserveConfig, b: Books, g: nat, grp: Group, k: nat, i: nat)
    requires GroupOk(b, g, grp) && SettleTx(cfg, b, g, grp, k, i, false).Ok?
    ensures var l := SettleTx(cfg, b, g, grp, k, i, false).value;
      GroupOk(l.books, g, l.grp) && Extends(b, l.books, g) && SameCycle(grp, l.grp)
  {
    hide BooksOk;
    SettleKeepsRows(cfg, b, g, grp, k, i, false);
    SettleReconcilesExactly(cfg, b, g, grp, k, i, false);
  }

  // ---- Member changes -------------------------------------------------------------------------------

  /** Member rows may change standing, queue place and deposit status as long as each stays lawful. */
  lemma MembersKeepRows(grp: Group, members: seq<Member>)
    requires RowsOk(grp) && |members| == |grp.members|
    requires forall i :: 0 <= i < |members| ==>
      && members[i].user == grp.members[i].user && members[i].turnOrder == grp.members[i].turnOrder
      && MemberOk(grp.terms, grp.status, members[i])
      && (grp.members[i].deposit == Forfeited ==> members[i].deposit == Forfeited)
      && (grp.members[i].deposit == Returned ==> members[i].deposit == Returned)
      && (grp.members[i].standing == Defaulted && HasContribution(grp, |grp.cycles|, i) ==>
            members[i].standing == Defaulted || ContributionAt(grp, |grp.cycles|, i).status == Paid)
    ensures var next := grp.(members := members); RowsOk(next) && Advances(grp, next) && SameCycle(grp, next)
  {
    hide TermsOk, CycleRowOk, CycleOf;
    var next := grp.(members := members);
    SamePayouts(grp, next);
    assert ReservesOk(next) by {
      assert forall r :: 0 <= r < |grp.reserves| ==> ReserveOk(grp, grp.reserves[r]);
    }
    forall k: nat, i: nat | HasContribution(grp, k, i) ensures ContributionAdvances(grp, next, k, i) {
    }
  }

  lemma MemberKeepsRows(grp: Group, i: nat, m: Member)
    requires RowsOk(grp) && i < |grp.members|
    requires m.user == grp.members[i].user && m.turnOrder == grp.members[i].turnOrder
    requires MemberOk(grp.terms, grp.status, m)
    requires grp.members[i].deposit == Forfeited ==> m.deposit == Forfeited
    requires grp.members[i].deposit == Returned ==> m.deposit == Returned
    requires grp.members[i].standing == Defaulted && HasContribution(grp, |grp.cycles|, i) ==>
      m.standing == Defaulted || ContributionAt(grp, |grp.cycles|, i).status == Paid
    ensures RowsOk(WithMember(grp, i, m)) && Advances(grp, WithMember(grp, i, m))
      && SameCycle(grp, WithMember(grp, i, m))
  {
    MembersKeepRows(grp, grp.members[i := m]);
  }

  /** A defaulted member's row after the deposit is gone. */
  function Marked(grp: Group, i: nat): Group
    requires i < |grp.members|
  {
    WithMember(grp, i, grp.members[i].(standing := Defaulted, deposit := Forfeited))
  }

  lemma ForfeitKeepsGroupOk(b: Books, g: nat, grp: Group, i: nat)
    requires GroupOk(b, g, grp) && grp.status == Active && grp.terms.mode == Cycle && i < |grp.members|
    requires ForfeitTx(b, g, WithStanding(grp, i, Defaulted), i).Ok?
    ensures var l := ForfeitTx(b, g, WithStanding(grp, i, Defaulted), i).value;
      && l.grp == Marked(grp, i) && GroupOk(l.books, g, l.grp) && Extends(b, l.books, g) && SameCycle(grp, l.grp)
  {
    hide BooksOk;
    var m := grp.members[i];
    assert MemberOk(grp.terms, grp.status, m);
    TermsFacts(grp.terms);
    var stood := WithStanding(grp, i, Defaulted);
    var l := ForfeitTx(b, g, stood, i).value;
    var key := DepositForfeit(g, i);
    MemberKeepsRows(grp, i, m.(standing := Defaulted, deposit := Forfeited));
    SameDeposits(g, grp, stood.members);
    if m.deposit == Held {
      assert OwnerOf(key) == Some(g) && !Spent(grp, key);
      ForfeitReconciles(b, g, stood, i);
      assert l.grp.members == Marked(grp, i).members;
      NewKeySpent(b, l.books, g, grp, l.grp, key);
    } else {
      assert l.grp == stood;
      assert stood.members == Marked(grp, i).members;
      AdvanceKeepsSpent(b, g, grp, l.grp);
    }
  }

  lemma CoveredRowOk(grp: Group, row: Reserve, amount: int)
    requires ReserveOk(grp, row) && row.status == Open && 0 < amount <= row.remaining
    ensures ReserveOk(grp, AfterCover(row, amount))
  {
  }

  lemma CoverAside(grp: Group, covers: seq<Coverage>, before: Group)
    requires RowsOk(grp) && Advances(before, grp) && grp.status != Draft
    requires forall j :: 0 <= j < |covers| ==> covers[j].covered > 0
    ensures RowsOk(grp.(covers := covers)) && Advances(before, grp.(covers := covers))
  {
    hide GroupOk;
    var next := grp.(covers := covers);
    SamePayouts(grp, next);
    assert forall r :: 0 <= r < |grp.reserves| ==> ReserveOk(grp, grp.reserves[r]);
    assert forall l: nat, j: nat :: HasContribution(before, l, j) ==> ContributionAdvances(before, grp, l, j);
  }

  lemma CoverRowsKeepRows(grp: Group, k: nat, i: nat, r: nat, missed: int, amount: int)
    requires RowsOk(grp) && grp.status == Active && k == grp.currentCycle
    requires HasContribution(grp, k, i) && r < |grp.reserves| && grp.reserves[r].status == Open
    requires 0 < amount <= missed && amount <= grp.reserves[r].remaining
    ensures var next := CoverRows(grp, k, i, r, missed, amount);
      RowsOk(next) && Advances(grp, next) && SameCycle(grp, next) && next.members == grp.members
  {
    CoveredRowOk(grp, grp.reserves[r], amount);
    var held := WithReserve(grp, r, AfterCover(grp.reserves[r], amount));
    ReserveRowKeepsRows(grp, r, AfterCover(grp.reserves[r], amount));
    var noted := held.(covers := grp.covers + [Coverage(grp.members[i].user, k, r, amount, missed)]);
    CoverAside(held, noted.covers, grp);
    if amount >= missed {
      var c := ContributionAt(grp, k, i);
      assert CycleRowOk(grp.terms, |grp.members|, grp.cycles[k - 1]);
      var settled := c.(status := Paid, paidDays := c.expectedDays);
      ContributionKeepsRows(noted, k, i, settled);
      AdvancesTransitive(grp, noted, WithContribution(noted, k, i, settled));
    }
  }

  lemma CoverKeepsGroupOk(cfg: ReserveConfig, b: Books, g: nat, grp: Group, i: nat)
    requires GroupOk(b, g, grp) && grp.status == Active && i < |grp.members| && grp.members[i].standing == Defaulted
    requires CoverTx(cfg, b, g, grp, grp.currentCycle, i).Ok?
    ensures var l := CoverTx(cfg, b, g, grp, grp.currentCycle, i).value;
      GroupOk(l.books, g, l.grp) && Extends(b, l.books, g) && SameCycle(grp, l.grp) && l.grp.members == grp.members
  {
    hide BooksOk, Reconciled;
    var k := grp.currentCycle;
    var (r, missed, amount) := CoverDue(cfg, grp, k, i);
    var l := CoverTx(cfg, b, g, grp, k, i).value;
    assert CycleRowOk(grp.terms, |grp.members|, grp.cycles[k - 1]);
    TermsFacts(grp.terms);
    CoverReconciles(cfg, b, g, grp, k, i);
    if amount > 0 && l.books != b {
      CoverRowsKeepRows(grp, k, i, r, missed, amount);
      assert Spent(l.grp, DefaultCover(g, r, k, i));
      NewKeySpent(b, l.books, g, grp, l.grp, DefaultCover(g, r, k, i));
    }
  }

  lemma DequeueKeepsGroupOk(b: Books, g: nat, grp: Group, i: nat)
    requires GroupOk(b, g, grp) && i < |grp.members|
    ensures var next := grp.(members := Dequeued(grp.members, i)); GroupOk(b, g, next) && SameCycle(grp, next)
  {
    hide BooksOk, KeysSpent;
    var m := grp.members[i];
    assert MemberOk(grp.terms, grp.status, m);
    MemberKeepsRows(grp, i, m.(payoutOrder := MaxPayoutOrder(grp.members) + 1));
    var next := grp.(members := Dequeued(grp.members, i));
    AdvanceKeepsSpent(b, g, grp, next);
    SameDeposits(g, grp, next.members);
  }

  lemma DefaultKeepsGroupOk(cfg: ReserveConfig, b: Books, g: nat, grp: Group, i: nat)
    requires GroupOk(b, g, grp) && grp.status == Active && grp.terms.mode == Cycle && i < |grp.members|
    requires DefaultTx(cfg, b, g, grp, i).Ok?
    ensures var l := DefaultTx(cfg, b, g, grp, i).value;
      GroupOk(l.books, g, l.grp) && Extends(b, l.books, g) && SameCycle(grp, l.grp)
  {
    hide GroupOk, CoverTx, ForfeitTx;
    ForfeitKeepsGroupOk(b, g, grp, i);
    var f := ForfeitTx(b, g, WithStanding(grp, i, Defaulted), i).value;
    if HasReceivedPayout(f.grp, grp.members[i].user) {
      CoverKeepsGroupOk(cfg, f.books, g, f.grp, i);
      ExtendsTransitive(b, f.books, CoverTx(cfg, f.books, g, f.grp, f.grp.currentCycle, i).value.books, g);
    } else {
      DequeueKeepsGroupOk(f.books, g, f.grp, i);
    }
  }

  // ---- Compliance sync --------------------------------------------------------------------------------

  lemma StandingKeepsGroupOk(b: Books, g: nat, grp: Group, i: nat, today: int)
    requires GroupOk(b, g, grp) && grp.status == Active && grp.terms.mode == Cycle
    requires i < |grp.members| && NextStanding(grp, i, today).Some?
    ensures var next := WithStanding(grp, i, NextStanding(grp, i, today).value);
      GroupOk(b, g, next) && SameCycle(grp, next)
  {
    var s := NextStanding(grp, i, today).value;
    var m := grp.members[i];
    assert MemberOk(grp.terms, grp.status, m);
    MemberKeepsRows(grp, i, m.(standing := s));
    var next := WithStanding(grp, i, s);
    AdvanceKeepsSpent(b, g, grp, next);
    SameDeposits(g, grp, next.members);
  }

  lemma SyncMemberKeepsGroupOk(cfg: ReserveConfig, b: Books, g: nat, grp: Group, i: nat, today: int)
    requires GroupOk(b, g, grp) && grp.status == Active && grp.terms.mode == Cycle && i < |grp.members|
    requires SyncMember(cfg, b, g, grp, i, today).Ok?
    ensures var l := SyncMember(cfg, b, g, grp, i, today).value;
      GroupOk(l.books, g, l.grp) && Extends(b, l.books, g) && SameCycle(grp, l.grp)
  {
    hide GroupOk, DefaultTx;
    if NextStanding(grp, i, today).None? {
      DefaultKeepsGroupOk(cfg, b, g, grp, i);
    } else {
      StandingKeepsGroupOk(b, g, grp, i, today);
    }
  }

  lemma {:induction false} SyncFromKeepsGroupOk(cfg: ReserveConfig, b: Books, g: nat, grp: Group, i: nat, today: int)
    requires GroupOk(b, g, grp) && grp.status == Active && grp.terms.mode == Cycle
    ensures var l := SyncFrom(cfg, b, g, grp, i, today).local;
      GroupOk(l.books, g, l.grp) && Extends(b, l.books, g) && SameCycle(grp, l.grp)
    decreases |grp.members| - i
  {
    hide GroupOk, BooksOk, SyncMember;
    if i < |grp.members| && SyncMember(cfg, b, g, grp, i, today).Ok? {
      SyncMemberKeepsGroupOk(cfg, b, g, grp, i, today);
      var l := SyncMember(cfg, b, g, grp, i, today).value;
      SyncFromKeepsGroupOk(cfg, l.books, g, l.grp, i + 1, today);
      ExtendsTransitive(b, l.books, SyncFrom(cfg, l.books, g, l.grp, i + 1, today).local.books, g);
    }
  }

  lemma SyncKeepsGroupOk(cfg: ReserveConfig, b: Books, g: nat, grp: Group, today: int)
    requires GroupOk(b, g, grp)
    ensures var l := SyncGroup(cfg, b, g, grp, today).local;
      GroupOk(l.books, g, l.grp) && Extends(b, l.books, g) && SameCycle(grp, l.grp)
  {
    hide BooksOk, SyncFrom;
    if grp.status == Active {
      if grp.terms.mode == Daily {
        var next := grp.(members := EveryoneGood(grp.members));
        assert forall i :: 0 <= i < |grp.members| ==> MemberOk(grp.terms, grp.status, grp.members[i]);
        MembersKeepRows(grp, EveryoneGood(grp.members));
        AdvanceKeepsSpent(b, g, grp, next);
        SameDeposits(g, grp, next.members);
      } else {
        SyncFromKeepsGroupOk(cfg, b, g, grp, 0, today);
      }
    }
  }

  // ---- Finalization -----------------------------------------------------------------------------------

  lemma PaidOutRows(grp: Group, k: nat, user: nat, skipped: seq<nat>, split: Split)
    requires RowsOk(grp) && FinalizeFault(grp, k).None? && IsMember(grp, user)
    requires split.reserve > 0 ==> k < grp.terms.slots && split.units == (grp.terms.slots - k) * grp.terms.days
    ensures var next := PaidOut(grp, k, user, skipped, CycleOf(grp.terms), split);
      PayoutsOk(next) && ReservesOk(next) && ArrearsOk(next)
  {
    hide GroupOk, CycleOf;
    var next := PaidOut(grp, k, user, skipped, CycleOf(grp.terms), split);
    forall p: nat | p < |next.payouts| ensures PayoutOk(next, p) {
      if p < |grp.payouts| { assert PayoutOk(grp, p); }
    }
    forall r | 0 <= r < |next.reserves| ensures ReserveOk(next, next.reserves[r]) {
      if r < |grp.reserves| {
        assert ReserveOk(grp, grp.reserves[r]);
      } else {
        MulOrder(1, grp.terms.slots - k, grp.terms.days);
      }
    }
    forall l, i | 0 <= l < |next.payouts| && 0 <= i < |next.cycles[l]| && i < |next.members|
      ensures next.cycles[l][i].status == Paid || next.members[i].deposit == Forfeited
    {
      if l == k - 1 { assert MemberOk(grp.terms, grp.status, grp.members[i]); }
    }
  }

  lemma OpenNextRows(grp: Group, k: nat)
    requires TermsOk(grp.terms) && MembersOk(grp) && CyclesOk(grp) && PayoutsOk(grp) && ReservesOk(grp)
      && ArrearsOk(grp) && CoversOk(grp)
    requires grp.status == Active && |grp.members| == grp.terms.slots && 1 <= k < grp.terms.slots
    requires |grp.cycles| == k == |grp.payouts|
    ensures RowsOk(OpenNext(grp, k))
  {
    hide GroupOk;
    var next := OpenNext(grp, k);
    TermsFacts(grp.terms);
    SamePayouts(grp, next);
    assert ReservesOk(next) by {
      assert forall r :: 0 <= r < |grp.reserves| ==> ReserveOk(grp, grp.reserves[r]);
    }
    assert MembersOk(next) by {
      assert forall i :: 0 <= i < |grp.members| ==> MemberOk(grp.terms, grp.status, grp.members[i]);
    }
    assert CycleRowOk(next.terms, |next.members|, OpenCycle(grp.terms, |grp.members|));
    assert forall l :: 0 <= l < k ==> CycleRowOk(grp.terms, |grp.members|, grp.cycles[l]);
    assert ArrearsOk(next) by {
      assert forall l :: 0 <= l < k ==> next.cycles[l] == grp.cycles[l];
    }
  }

  lemma CompletedRows(grp: Group)
    requires TermsOk(grp.terms) && MembersOk(grp) && CyclesOk(grp) && PayoutsOk(grp) && ReservesOk(grp)
      && ArrearsOk(grp) && CoversOk(grp)
    requires |grp.members| == grp.terms.slots == grp.currentCycle == |grp.cycles| == |grp.payouts|
    ensures RowsOk(grp.(status := Completed))
  {
    var next := grp.(status := Completed);
    SamePayouts(grp, next);
    assert ReservesOk(next) by {
      assert forall r :: 0 <= r < |grp.reserves| ==> ReserveOk(grp, grp.reserves[r]);
    }
    assert MembersOk(next) by {
      assert forall i :: 0 <= i < |grp.members| ==> MemberOk(grp.terms, grp.status, grp.members[i]);
    }
  }

  lemma FinalizeAdvances(grp: Group, k: nat, user: nat, skipped: seq<nat>, split: Split)
    requires FinalizeFault(grp, k).None? && (k < grp.terms.slots ==> |grp.cycles| == k)
    ensures var next := FinalizeRows(grp, k, user, skipped, CycleOf(grp.terms), split);
      Advances(grp, next) && SameHeader(grp, next) && |next.payouts| == |grp.payouts| + 1
  {
    var next := FinalizeRows(grp, k, user, skipped, CycleOf(grp.terms), split);
    forall l: nat, i: nat | HasContribution(grp, l, i) ensures ContributionAdvances(grp, next, l, i) {
    }
  }

  lemma PaidOutAside(grp: Group, k: nat, user: nat, skipped: seq<nat>, split: Split)
    requires RowsOk(grp)
    ensures var next := PaidOut(grp, k, user, skipped, CycleOf(grp.terms), split); MembersOk(next) && CyclesOk(next)
  {
    assert forall i :: 0 <= i < |grp.members| ==> MemberOk(grp.terms, grp.status, grp.members[i]);
  }

  lemma FinalizeRowsOk(grp: Group, k: nat, user: nat, skipped: seq<nat>, split: Split)
    requires RowsOk(grp) && FinalizeFault(grp, k).None? && IsMember(grp, user)
    requires split.reserve > 0 ==> k < grp.terms.slots && split.units == (grp.terms.slots - k) * grp.terms.days
    ensures RowsOk(FinalizeRows(grp, k, user, skipped, CycleOf(grp.terms), split))
  {
    var paid := PaidOut(grp, k, user, skipped, CycleOf(grp.terms), split);
    PaidOutRows(grp, k, user, skipped, split);
    PaidOutAside(grp, k, user, skipped, split);
    if k < grp.terms.slots {
      OpenNextRows(paid, k);
    } else {
      CompletedRows(paid);
    }
  }

  /** The recipient, split and summary of an accepted finalization. */
  datatype Award = Award(index: nat, user: nat, skipped: seq<nat>, split: Split)

  function AwardOf(cfg: ReserveConfig, grp: Group, k: nat): Award
    requires k >= 1 && SelectPayoutRecipient(grp.members, k, grp.payoutOverride).recipient.Some?
  {
    var selection := SelectPayoutRecipient(grp.members, k, grp.payoutOverride);
    SelectionInRange(grp.members, k, grp.payoutOverride);
    SkippedAreMembers(grp.members, k, grp.payoutOverride);
    var i := selection.recipient.value;
    var net, days := CycleOf(grp.terms).netAfterMargin, MemberCyclePaymentDays(grp.terms);
    var split := ComputeSplit(cfg, net, k, |grp.members|, days);
    Award(i, grp.members[i].user, UsersAt(grp.members, selection.skipped),
          if split.Ok? then split.value else Split(0, 0, 0, 0))
  }

  lemma SelectionInRange(members: seq<Member>, k: nat, allowOverride: bool)
    requires k >= 1 && SelectPayoutRecipient(members, k, allowOverride).recipient.Some?
    ensures SelectPayoutRecipient(members, k, allowOverride).recipient.value < |members|
  {
    SelectionIsEligible(members, k, allowOverride);
  }

  /** An accepted finalization writes the rows of its award, and its split follows the schedule. */
  lemma AllocateShape(cfg: ReserveConfig, b: Books, g: nat, grp: Group, k: nat)
    requires RowsOk(grp) && AllocateTx(cfg, b, g, grp, k).Ok?
    ensures FinalizeFault(grp, k).None? && k >= 1
    ensures SelectPayoutRecipient(grp.members, k, grp.payoutOverride).recipient.Some?
    ensures var aw := AwardOf(cfg, grp, k); var s := CycleOf(grp.terms);
      && AllocateTx(cfg, b, g, grp, k).value.grp == FinalizeRows(grp, k, aw.user, aw.skipped, s, aw.split)
      && IsMember(grp, aw.user)
      && aw.split.reserve >= 0 && aw.split.reserve + aw.split.available == s.netAfterMargin
      && (aw.split.reserve > 0 ==> cfg.enabled && k < grp.terms.slots)
      && aw.split.units == (grp.terms.slots - k) * grp.terms.days
  {
    TermsFacts(grp.terms);
    SelectionIsEligible(grp.members, k, grp.payoutOverride);
    SkippedAreMembers(grp.members, k, grp.payoutOverride);
    SplitConserves(cfg, CycleOf(grp.terms).netAfterMargin, k, grp.terms.slots, grp.terms.days);
  }

  lemma AllocationKeyFresh(b: Books, g: nat, grp: Group, k: nat)
    requires KeysSpent(b, g, grp) && |grp.payouts| < k
    ensures Allocation(g, k) !in b.keys
  {
    assert OwnerOf(Allocation(g, k)) == Some(g) && !Spent(grp, Allocation(g, k));
  }

  lemma AllocationKeyUsed(cfg: ReserveConfig, b: Books, g: nat, grp: Group, k: nat)
    requires AllocateTx(cfg, b, g, grp, k).Ok? && Allocation(g, k) !in b.keys
    ensures AllocateTx(cfg, b, g, grp, k).value.books.keys == b.keys + {Allocation(g, k)}
  {
    hide FinalizeRows, FinalizeFault, SelectPayoutRecipient, ComputeSplit;
  }

  lemma AllocateKeepsGroupOk(cfg: ReserveConfig, b: Books, g: nat, grp: Group, k: nat)
    requires GroupOk(b, g, grp) && AllocateTx(cfg, b, g, grp, k).Ok?
    ensures var l := AllocateTx(cfg, b, g, grp, k).value;
      GroupOk(l.books, g, l.grp) && Extends(b, l.books, g) && SameHeader(grp, l.grp)
  {
    hide BooksOk, Reconciled, AllocateTx, FinalizeRows, KeysSpent;
    AllocateShape(cfg, b, g, grp, k);
    var aw := AwardOf(cfg, grp, k);
    FinalizeRowsOk(grp, k, aw.user, aw.skipped, aw.split);
    FinalizeAdvances(grp, k, aw.user, aw.skipped, aw.split);
    var key := Allocation(g, k);
    AllocationKeyFresh(b, g, grp, k);
    AllocateReconciles(cfg, b, g, grp, k);
    AllocationKeyUsed(cfg, b, g, grp, k);
    var l := AllocateTx(cfg, b, g, grp, k).value;
    NewKeySpent(b, l.books, g, grp, l.grp, key);
  }

  // ---- Completion -------------------------------------------------------------------------------------

  lemma ReturnDepositKeepsGroupOk(b: Books, g: nat, grp: Group, i: nat)
    requires GroupOk(b, g, grp) && grp.status == Completed && i < |grp.members| && ReturnDeposit(b, g, grp, i).Ok?
    ensures var l := ReturnDeposit(b, g, grp, i).value;
      && GroupOk(l.books, g, l.grp) && Extends(b, l.books, g) && SameCycle(grp, l.grp)
      && l.grp.reserves == grp.reserves && l.grp.members[i].deposit != Held
      && (forall j :: 0 <= j < |grp.members| && j != i ==> l.grp.members[j] == grp.members[j])
  {
    hide BooksOk, Due;
    var m, key := grp.members[i], DepositRelease(g, i);
    assert MemberOk(grp.terms, grp.status, m);
    TermsFacts(grp.terms);
    if m.deposit == Held {
      assert OwnerOf(key) == Some(g) && !Spent(grp, key);
      MemberKeepsRows(grp, i, m.(deposit := Returned));
      ReturnDepositReconciles(b, g, grp, i);
      var l := ReturnDeposit(b, g, grp, i).value;
      NewKeySpent(b, l.books, g, grp, l.grp, key);
    }
  }

  lemma {:induction false} ReturnDepositsKeepGroupOk(b: Books, g: nat, grp: Group, i: nat)
    requires GroupOk(b, g, grp) && grp.status == Completed && ReturnDepositsFrom(b, g, grp, i).Ok?
    requires forall j :: 0 <= j < i && j < |grp.members| ==> grp.members[j].deposit != Held
    ensures var l := ReturnDepositsFrom(b, g, grp, i).value;
      && GroupOk(l.books, g, l.grp) && Extends(b, l.books, g) && SameCycle(grp, l.grp)
      && l.grp.reserves == grp.reserves
      && (forall j :: 0 <= j < |l.grp.members| ==> l.grp.members[j].deposit != Held)
    decreases |grp.members| - i
  {
    hide GroupOk, BooksOk, RowsOk;
    if i < |grp.members| {
      ReturnDepositKeepsGroupOk(b, g, grp, i);
      var l := ReturnDeposit(b, g, grp, i).value;
      ReturnDepositsKeepGroupOk(l.books, g, l.grp, i + 1);
      ExtendsTransitive(b, l.books, ReturnDepositsFrom(l.books, g, l.grp, i + 1).value.books, g);
    }
  }

  lemma CloseReserveKeepsGroupOk(b: Books, g: nat, grp: Group, r: nat)
    requires GroupOk(b, g, grp) && grp.status == Completed && r < |grp.reserves| && CloseReserve(b, g, grp, r).Ok?
    ensures var l := CloseReserve(b, g, grp, r).value;
      && GroupOk(l.books, g, l.grp) && Extends(b, l.books, g) && SameCycle(grp, l.grp)
      && l.grp.members == grp.members && |l.grp.reserves| == |grp.reserves| && l.grp.reserves[r].status == Closed
      && (forall q :: 0 <= q < |grp.reserves| && q != r ==> l.grp.reserves[q] == grp.reserves[q])
  {
    hide BooksOk;
    var row, key := grp.reserves[r], FinalRelease(g, r);
    assert ReserveOk(grp, row);
    if row.status == Open {
      assert OwnerOf(key) == Some(g) && !Spent(grp, key);
      ReserveRowKeepsRows(grp, r, FullyReleased(row, row.remaining));
      CloseReserveReconciles(b, g, grp, r);
      var l := CloseReserve(b, g, grp, r).value;
      NewKeySpent(b, l.books, g, grp, l.grp, key);
    }
  }

  lemma {:induction false} CloseReservesKeepGroupOk(b: Books, g: nat, grp: Group, r: nat)
    requires GroupOk(b, g, grp) && grp.status == Completed && CloseReservesFrom(b, g, grp, r).Ok?
    requires forall q :: 0 <= q < r && q < |grp.reserves| ==> grp.reserves[q].status == Closed
    ensures var l := CloseReservesFrom(b, g, grp, r).value;
      && GroupOk(l.books, g, l.grp) && Extends(b, l.books, g) && SameCycle(grp, l.grp)
      && l.grp.members == grp.members
      && (forall q :: 0 <= q < |l.grp.reserves| ==> l.grp.reserves[q].status == Closed)
    decreases |grp.reserves| - r
  {
    hide GroupOk, BooksOk;
    if r < |grp.reserves| {
      CloseReserveKeepsGroupOk(b, g, grp, r);
      var l := CloseReserve(b, g, grp, r).value;
      CloseReservesKeepGroupOk(l.books, g, l.grp, r + 1);
      ExtendsTransitive(b, l.books, CloseReservesFrom(l.books, g, l.grp, r + 1).value.books, g);
    }
  }
}
