/**
 * Where an overdrawn reserve can come from: only from a payment whose unit is larger than what an
 * earlier default cover left, and only if the wallet holds other money. Row by row, over every run.
 */
module Overdraft {
  import opened Wrappers
  import opened Accounts
  import opened Sums
  import opened Ledger
  import opened Preview
  import opened ReserveMath
  import opened Rows
  import opened Engine
  import opened RowInvariants
  import opened GroupSafety
  import opened Protocol
  import opened Solvency
  import opened PoolSolvency
  import opened UnlockTiming

  /** The same rows are overdrawn after as before, and no new row is. */
  ghost predicate SameOverdrafts(grp: Group, next: Group) {
    && |grp.reserves| <= |next.reserves|
    && (forall r :: 0 <= r < |grp.reserves| ==> (Overdrawn(next.reserves[r]) <==> Overdrawn(grp.reserves[r])))
    && (forall r :: |grp.reserves| <= r < |next.reserves| ==> !Overdrawn(next.reserves[r]))
  }

  lemma SameOverdraftsCompose(a: Group, b: Group, c: Group)
    requires SameOverdrafts(a, b) && SameOverdrafts(b, c)
    ensures SameOverdrafts(a, c)
  {
    forall r | |a.reserves| <= r < |c.reserves| ensures !Overdrawn(c.reserves[r]) {
      if r < |b.reserves| { assert !Overdrawn(b.reserves[r]); }
    }
  }

  // ---- Payments ------------------------------------------------------------------------------------------

  /**
   * The payment at hand is due and unlocks from reserve `r` a unit that exceeds what the reserve has
   * left, while the wallet can pay it.
   */
  predicate ShortUnit(s: Sys, op: Op, g: nat, r: nat) {
    && op.Pay? && op.group == g && g < |s.groups| && !RefSeen(s, op.ref)
    && PaymentFault(s.groups[g], op.cycle, op.member).None?
    && var grp := s.groups[g];
    && var user := grp.members[op.member].user;
    && var (q, amount) := UnitDue(s.cfg, grp, user, op.cycle);
    && amount > 0 && q == r && grp.reserves[r].remaining < amount <= Balance(s.books.balances, Reserved(user))
  }

  lemma PaidRowOverdraws(cfg: ReserveConfig, grp: Group, k: nat, i: nat, r: nat)
    requires ReservesOk(grp) && HasContribution(grp, k, i) && r < |grp.reserves|
    ensures var (q, amount) := UnitDue(cfg, grp, grp.members[i].user, k);
      Overdrawn(SettledRows(cfg, grp, k, i).reserves[r]) <==>
        Overdrawn(grp.reserves[r]) || (amount > 0 && q == r && grp.reserves[r].remaining < amount)
  {
    assert ReserveOk(grp, grp.reserves[r]);
  }

  lemma PayOverdraws(s: Sys, op: Op, g: nat, r: nat, next: Group)
    requires SysOk(s) && op.Pay? && op.group == g < |s.groups| && r < |s.groups[g].reserves|
    requires GroupStep(s, op, s.groups[g], next)
    ensures |next.reserves| == |s.groups[g].reserves|
    ensures Overdrawn(next.reserves[r]) <==> Overdrawn(s.groups[g].reserves[r]) || ShortUnit(s, op, g, r)
  {
    hide ReleaseUnit, Post, BooksOk, FirstOpen, Overdrawn;
    var grp := s.groups[g];
    assert GroupOk(s.books, g, grp);
    PaymentShape(s.cfg, s.books, g, grp, op.cycle, op.member, RefSeen(s, op.ref));
    if !RefSeen(s, op.ref) {
      PaymentAcceptedExactly(s, g, op.cycle, op.member, op.ref);
      SettleShape(s.cfg, s.books, g, grp, op.cycle, op.member);
      PaidRowOverdraws(s.cfg, grp, op.cycle, op.member, r);
    }
  }

  // ---- The other transactions ------------------------------------------------------------------------------

  lemma CoverKeepsOverdrafts(cfg: ReserveConfig, b: Books, g: nat, grp: Group, k: nat, i: nat)
    requires ReservesOk(grp) && i < |grp.members| && CoverTx(cfg, b, g, grp, k, i).Ok?
    ensures SameOverdrafts(grp, CoverTx(cfg, b, g, grp, k, i).value.grp)
  {
    hide Step;
    var (r, missed, amount) := CoverDue(cfg, grp, k, i);
    if amount > 0 {
      assert ReserveOk(grp, grp.reserves[r]);
    }
  }

  lemma DefaultKeepsOverdrafts(cfg: ReserveConfig, b: Books, g: nat, grp: Group, i: nat)
    requires GroupOk(b, g, grp) && grp.status == Active && grp.terms.mode == Cycle && i < |grp.members|
    requires DefaultTx(cfg, b, g, grp, i).Ok?
    ensures SameOverdrafts(grp, DefaultTx(cfg, b, g, grp, i).value.grp)
  {
    ForfeitKeepsGroupOk(b, g, grp, i);
    var f := ForfeitTx(b, g, WithStanding(grp, i, Defaulted), i).value;
    if HasReceivedPayout(f.grp, grp.members[i].user) {
      CoverKeepsOverdrafts(cfg, f.books, g, f.grp, f.grp.currentCycle, i);
    }
  }

  lemma {:induction false} SyncKeepsOverdrafts(
      cfg: ReserveConfig, b: Books, g: nat, grp: Group, i: nat, today: int)
    requires GroupOk(b, g, grp) && grp.status == Active && grp.terms.mode == Cycle
    ensures SameOverdrafts(grp, SyncFrom(cfg, b, g, grp, i, today).local.grp)
    decreases |grp.members| - i
  {
    hide Step, GroupOk, DefaultTx;
    if i < |grp.members| && SyncMember(cfg, b, g, grp, i, today).Ok? {
      var l := SyncMember(cfg, b, g, grp, i, today).value;
      if NextStanding(grp, i, today).None? { DefaultKeepsOverdrafts(cfg, b, g, grp, i); }
      SyncMemberKeepsGroupOk(cfg, b, g, grp, i, today);
      SyncKeepsOverdrafts(cfg, l.books, g, l.grp, i + 1, today);
      SameOverdraftsCompose(grp, l.grp, SyncFrom(cfg, b, g, grp, i, today).local.grp);
    }
  }

  lemma CompletionKeepsOverdrafts(grp: Group, next: Group)
    requires ReservesOk(grp) && Completes(grp, next)
    ensures SameOverdrafts(grp, next)
  {
    forall r | 0 <= r < |grp.reserves| ensures Overdrawn(next.reserves[r]) <==> Overdrawn(grp.reserves[r]) {
      assert ReserveOk(grp, grp.reserves[r]);
    }
  }

  lemma AllocateKeepsOverdrafts(cfg: ReserveConfig, b: Books, g: nat, grp: Group, k: nat)
    requires RowsOk(grp) && AllocateTx(cfg, b, g, grp, k).Ok?
    ensures SameOverdrafts(grp, AllocateTx(cfg, b, g, grp, k).value.grp)
  {
    hide GroupOk;
    AllocateShape(cfg, b, g, grp, k);
  }

  lemma FinalizeKeepsOverdrafts(cfg: ReserveConfig, b: Books, groups: seq<Group>, g: nat, k: nat)
    requires GroupsOk(b, groups) && g < |groups| && FinalizeTx(cfg, b, groups, g, k).Ok?
    ensures SameOverdrafts(groups[g], FinalizeTx(cfg, b, groups, g, k).value.grp)
  {
    hide Step, BooksOk, AllocateTx, CompleteTx;
    assert GroupOk(b, g, groups[g]);
    AllocateKeepsOverdrafts(cfg, b, g, groups[g], k);
    FinalizationShape(cfg, b, groups, g, k);
    AllocateKeepsGroupOk(cfg, b, g, groups[g], k);
    var grp, next := AllocateTx(cfg, b, g, groups[g], k).value.grp, FinalizeTx(cfg, b, groups, g, k).value.grp;
    if next != grp {
      CompletionKeepsOverdrafts(grp, next);
      SameOverdraftsCompose(groups[g], grp, next);
    }
  }

  lemma OtherOpsKeepOverdrafts(s: Sys, op: Op, grp: Group, next: Group)
    requires SysOk(s) && !op.CreateGroup? && !op.Pay? && op.group < |s.groups| && s.groups[op.group] == grp
    requires GroupStep(s, op, grp, next)
    ensures SameOverdrafts(grp, next)
  {
    hide FinalizeTx, SyncFrom, Overdrawn, BooksOk;
    assert GroupOk(s.books, op.group, grp);
    match op
    case Sync(g, today) =>
      if grp.status == Active && grp.terms.mode == Cycle { SyncKeepsOverdrafts(s.cfg, s.books, g, grp, 0, today); }
    case Finalize(g, k) => FinalizeKeepsOverdrafts(s.cfg, s.books, s.groups, g, k);
    case _ =>
  }

  // ---- Steps and runs ----------------------------------------------------------------------------------------

  predicate RowOverdrawn(s: Sys, g: nat, r: nat) {
    g < |s.groups| && r < |s.groups[g].reserves| && Overdrawn(s.groups[g].reserves[r])
  }

  /**
   * From any consistent state, row by row: after a step a reserve is overdrawn exactly when it was
   * before, or the step is a due payment whose unit exceeds what the reserve has left and is still
   * within the wallet.
   */
  lemma StepOverdrawsExactly(s: Sys, op: Op, g: nat, r: nat)
    requires SysOk(s)
    ensures RowOverdrawn(Step(s, op), g, r) <==> RowOverdrawn(s, g, r) || ShortUnit(s, op, g, r)
  {
    hide Step, SettleTx, JoinTx, SyncGroup, FinalizeTx, BooksOk, Overdrawn;
    if g >= |s.groups| {
      if g < |Step(s, op).groups| { NewGroupShape(s, op, g); }
    } else {
      StepShape(s, op, g);
      var grp, next := s.groups[g], Step(s, op).groups[g];
      assert GroupOk(s.books, g, grp);
      if op.Pay? && op.group == g {
        PayStepOverdraws(s, op, g, r);
      } else if next != grp {
        OtherOpsKeepOverdrafts(s, op, grp, next);
      }
    }
  }

  lemma PayStepOverdraws(s: Sys, op: Op, g: nat, r: nat)
    requires SysOk(s) && op.Pay? && op.group == g < |s.groups|
    ensures RowOverdrawn(Step(s, op), g, r) <==> RowOverdrawn(s, g, r) || ShortUnit(s, op, g, r)
  {
    hide SettleTx, JoinTx, SyncGroup, FinalizeTx, BooksOk, Overdrawn, GroupOk, UnitDue, PaymentFault;
    var grp, k, i := s.groups[g], op.cycle, op.member;
    if PaymentFault(grp, k, i).None? && !RefSeen(s, op.ref) { PaymentAcceptedExactly(s, g, k, i, op.ref); }
    if PayStep(s, g, k, i, op.ref).Ok? {
      PaymentShape(s.cfg, s.books, g, grp, k, i, RefSeen(s, op.ref));
      if r < |grp.reserves| { PayOverdraws(s, op, g, r, Step(s, op).groups[g]); }
    }
  }

  /** Some payment of the run was a short unit on reserve `r` of group `g`. */
  ghost predicate HadShortUnit(s: Sys, ops: seq<Op>, g: nat, r: nat) {
    && ops != []
    && (HadShortUnit(s, ops[..|ops| - 1], g, r) || ShortUnit(Run(s, ops[..|ops| - 1]), ops[|ops| - 1], g, r))
  }

  lemma {:induction false} RunOverdrawsExactly(cfg: ReserveConfig, ops: seq<Op>, g: nat, r: nat)
    requires NoRecounts(Init(cfg), ops)
    ensures RowOverdrawn(Run(Init(cfg), ops), g, r) <==> HadShortUnit(Init(cfg), ops, g, r)
  {
    hide Step, SysOk, SettleTx;
    if ops != [] {
      var front := ops[..|ops| - 1];
      RunOverdrawsExactly(cfg, front, g, r);
      RunsKeepSysOk(cfg, front);
      StepOverdrawsExactly(Run(Init(cfg), front), ops[|ops| - 1], g, r);
    }
  }

  /**
   * Over every run without recounts, for every reserve row: what was reserved is what remains,
   * what was released and what was used for defaults, exactly when no payment was a short unit on it.
   */
  lemma RowsConservedExactly(cfg: ReserveConfig, ops: seq<Op>, g: nat, r: nat)
    requires NoRecounts(Init(cfg), ops)
    requires var s := Run(Init(cfg), ops); g < |s.groups| && r < |s.groups[g].reserves|
    ensures var row := Run(Init(cfg), ops).groups[g].reserves[r];
      && row.remaining >= 0 && row.released >= 0 && row.usedForDefault >= 0
      && (row.original == row.remaining + row.released + row.usedForDefault <==> !HadShortUnit(Init(cfg), ops, g, r))
  {
    hide Step, SettleTx;
    RunsKeepSysOk(cfg, ops);
    RunOverdrawsExactly(cfg, ops, g, r);
    var s := Run(Init(cfg), ops);
    assert GroupOk(s.books, g, s.groups[g]);
    assert ReserveOk(s.groups[g], s.groups[g].reserves[r]);
    RowConservedExactly(s.groups[g], s.groups[g].reserves[r]);
  }

  /**
   * Over every run without recounts, for every user: the escrow is the sum of held deposits, the
   * orphan sweep has nothing to move, completed groups hold nothing back, and the reserved wallet is
   * what the reserve rows say remains exactly when none of the user's rows met a short unit.
   */
  lemma WalletsAgreeWithRows(cfg: ReserveConfig, ops: seq<Op>, user: nat)
    requires NoRecounts(Init(cfg), ops)
    ensures var s := Run(Init(cfg), ops);
      && Balance(s.books.balances, Escrow(user)) == SumTo(|s.groups|, HeldOn(s.groups, user))
      && SweepTx(s.books, s.groups, user) == Ok(s.books)
      && (forall h :: 0 <= h < |s.groups| && s.groups[h].status == Completed ==> Drained(s.groups[h]))
      && (Balance(s.books.balances, Reserved(user)) == RemainingReserve(s.groups, user) <==>
            forall h: nat, r: nat ::
              h < |s.groups| && r < |s.groups[h].reserves| && s.groups[h].reserves[r].user == user ==>
                !HadShortUnit(Init(cfg), ops, h, r))
  {
    hide Step, GroupsOk, Post;
    RunsKeepSysOk(cfg, ops);
    var s := Run(Init(cfg), ops);
    EscrowAgrees(s.books, s.groups, user);
    SweepIsIdle(s.books, s.groups, user);
    ReservedAgreesExactly(s.books, s.groups, user);
    forall h: nat, r: nat | h < |s.groups| && r < |s.groups[h].reserves|
      ensures Overdrawn(s.groups[h].reserves[r]) <==> HadShortUnit(Init(cfg), ops, h, r)
    {
      RunOverdrawsExactly(cfg, ops, h, r);
    }
    if !NoneOverdrawn(s.groups, user) {
      var h :| 0 <= h < |s.groups| && !NoneOverdrawnIn(s.groups[h], user);
      var r :| 0 <= r < |s.groups[h].reserves| && s.groups[h].reserves[r].user == user
        && Overdrawn(s.groups[h].reserves[r]);
      assert HadShortUnit(Init(cfg), ops, h, r);
    }
  }

  /** Wallets fail to back a group's open reserves only after a short unit on a reserve of one of their owners. */
  lemma UnbackedNeedsShortUnit(cfg: ReserveConfig, ops: seq<Op>, g: nat) returns (q: nat, h: nat, r: nat)
    requires NoRecounts(Init(cfg), ops)
    requires var s := Run(Init(cfg), ops); g < |s.groups| && !ReservesBacked(s.books, s.groups[g])
    ensures var s := Run(Init(cfg), ops);
      && q < |s.groups[g].reserves| && s.groups[g].reserves[q].status == Open
      && h < |s.groups| && r < |s.groups[h].reserves|
      && s.groups[h].reserves[r].user == s.groups[g].reserves[q].user
    ensures HadShortUnit(Init(cfg), ops, h, r)
  {
    hide Step, Run, GroupOk, BooksOk, HadShortUnit, Overdrawn, ReservesBacked;
    RunsKeepSysOk(cfg, ops);
    var s := Run(Init(cfg), ops);
    if forall r :: 0 <= r < |s.groups[g].reserves| && s.groups[g].reserves[r].status == Open ==>
      NoneOverdrawn(s.groups, s.groups[g].reserves[r].user)
    {
      SoundOwnersAreBacked(s.books, s.groups, g);
    }
    q :| q < |s.groups[g].reserves| && s.groups[g].reserves[q].status == Open
      && !NoneOverdrawn(s.groups, s.groups[g].reserves[q].user);
    h :| h < |s.groups| && !NoneOverdrawnIn(s.groups[h], s.groups[g].reserves[q].user);
    r :| r < |s.groups[h].reserves| && s.groups[h].reserves[r].user == s.groups[g].reserves[q].user
      && Overdrawn(s.groups[h].reserves[r]);
    RunOverdrawsExactly(cfg, ops, h, r);
  }
}
