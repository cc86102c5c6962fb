/**
 * Turns over the rest of a run: what the queue still owes from any point on, and what a skipped turn
 * costs. Nothing here asks that the payouts so far went in order.
 */
module Turns {
  import opened Ledger
  import opened Calculations
  import opened Preview
  import opened ReserveMath
  import opened Rows
  import opened PayoutQueue
  import opened Engine
  import opened Accounting
  import opened RowInvariants
  import opened GroupSafety
  import opened Protocol
  import opened QueueSafety

  ghost predicate SameUsers(grp: Group, next: Group) {
    && |next.members| == |grp.members|
    && forall i :: 0 <= i < |grp.members| ==> next.members[i].user == grp.members[i].user
  }

  /** Places in the queue only ever move back. */
  ghost predicate PlacesMoveBack(grp: Group, next: Group) {
    && SameUsers(grp, next)
    && forall i :: 0 <= i < |grp.members| ==> grp.members[i].payoutOrder <= next.members[i].payoutOrder
  }

  /** Nobody was dequeued in between. */
  ghost predicate SamePlaces(grp: Group, next: Group) {
    && SameUsers(grp, next)
    && forall i :: 0 <= i < |grp.members| ==> grp.members[i].payoutOrder == next.members[i].payoutOrder
  }

  ghost predicate PayoutsGrow(grp: Group, next: Group) {
    && |grp.payouts| <= |next.payouts|
    && forall p :: 0 <= p < |grp.payouts| ==> next.payouts[p] == grp.payouts[p]
  }

  /** No payout from the `from`-th on records a skip. */
  ghost predicate NoSkipSince(grp: Group, from: nat) {
    forall p :: from <= p < |grp.payouts| ==> grp.payouts[p].skipped == []
  }

  /** Each payout from the `from`-th on went to its own place in the queue. */
  ghost predicate ServedSince(grp: Group, from: nat) {
    && |grp.payouts| <= |grp.members|
    && forall p :: from <= p < |grp.payouts| ==>
         grp.members[QueueOrder(grp.members)[p]].user == grp.payouts[p].recipient
  }

  /** From `grp` to `next`: places move back, payouts are added, and turns are kept unless skipped or dequeued. */
  ghost predicate TurnsKept(grp: Group, next: Group) {
    && PlacesMoveBack(grp, next) && PayoutsGrow(grp, next)
    && (SamePlaces(grp, next) && NoSkipSince(next, |grp.payouts|) ==> ServedSince(next, |grp.payouts|))
  }

  lemma TurnsCompose(a: Group, b: Group, c: Group)
    requires TurnsKept(a, b) && TurnsKept(b, c)
    ensures TurnsKept(a, c)
  {
    if SamePlaces(a, c) && NoSkipSince(c, |a.payouts|) {
      assert SamePlaces(a, b) && SamePlaces(b, c);
      assert NoSkipSince(b, |a.payouts|) by {
        assert forall p :: |a.payouts| <= p < |b.payouts| ==> c.payouts[p] == b.payouts[p];
      }
      SameOrders(b.members, c.members);
      var order := QueueOrder(c.members);
      forall p | |a.payouts| <= p < |c.payouts| ensures c.members[order[p]].user == c.payouts[p].recipient {
        if p < |b.payouts| { assert b.members[order[p]].user == b.payouts[p].recipient; }
      }
    }
  }

  lemma SamePayoutsKeepTurns(grp: Group, next: Group)
    requires PlacesMoveBack(grp, next) && next.payouts == grp.payouts && |grp.payouts| <= |grp.members|
    ensures TurnsKept(grp, next)
  {
  }

  // ---- Every transaction ---------------------------------------------------------------------------------

  lemma ForfeitMovesBack(b: Books, g: nat, grp: Group, i: nat)
    requires i < |grp.members| && ForfeitTx(b, g, WithStanding(grp, i, Defaulted), i).Ok?
    ensures var next := ForfeitTx(b, g, WithStanding(grp, i, Defaulted), i).value.grp;
      PlacesMoveBack(grp, next) && next.payouts == grp.payouts
  {
  }

  lemma CoverMovesNobody(cfg: ReserveConfig, b: Books, g: nat, grp: Group, k: nat, i: nat)
    requires i < |grp.members| && CoverTx(cfg, b, g, grp, k, i).Ok?
    ensures var next := CoverTx(cfg, b, g, grp, k, i).value.grp;
      PlacesMoveBack(grp, next) && next.payouts == grp.payouts
  {
  }

  lemma DefaultKeepsTurns(cfg: ReserveConfig, b: Books, g: nat, grp: Group, i: nat)
    requires i < |grp.members| && |grp.payouts| <= |grp.members| && DefaultTx(cfg, b, g, grp, i).Ok?
    ensures TurnsKept(grp, DefaultTx(cfg, b, g, grp, i).value.grp)
  {
    hide CoverTx, ForfeitTx;
    var f := ForfeitTx(b, g, WithStanding(grp, i, Defaulted), i).value;
    ForfeitMovesBack(b, g, grp, i);
    var next := DefaultTx(cfg, b, g, grp, i).value.grp;
    if HasReceivedPayout(f.grp, grp.members[i].user) {
      CoverMovesNobody(cfg, f.books, g, f.grp, f.grp.currentCycle, i);
    } else {
      assert next.members == Dequeued(f.grp.members, i);
    }
    SamePayoutsKeepTurns(grp, next);
  }

  lemma SyncMemberKeepsTurns(cfg: ReserveConfig, b: Books, g: nat, grp: Group, i: nat, today: int)
    requires i < |grp.members| && |grp.payouts| <= |grp.members| && SyncMember(cfg, b, g, grp, i, today).Ok?
    ensures TurnsKept(grp, SyncMember(cfg, b, g, grp, i, today).value.grp)
  {
    hide DefaultTx;
    if NextStanding(grp, i, today).None? {
      DefaultKeepsTurns(cfg, b, g, grp, i);
    } else {
      SamePayoutsKeepTurns(grp, SyncMember(cfg, b, g, grp, i, today).value.grp);
    }
  }

  lemma {:induction false} SyncKeepsTurns(cfg: ReserveConfig, b: Books, g: nat, grp: Group, i: nat, today: int)
    requires |grp.payouts| <= |grp.members|
    ensures var next := SyncFrom(cfg, b, g, grp, i, today).local.grp; TurnsKept(grp, next) && next.status == grp.status
    decreases |grp.members| - i
  {
    hide SyncMember;
    if i >= |grp.members| || SyncMember(cfg, b, g, grp, i, today).Err? {
      SamePayoutsKeepTurns(grp, grp);
    } else {
      var l := SyncMember(cfg, b, g, grp, i, today).value;
      SyncMemberKeepsTurns(cfg, b, g, grp, i, today);
      SyncMemberKeepsRoster(cfg, b, g, grp, i, today);
      SyncKeepsTurns(cfg, l.books, g, l.grp, i + 1, today);
      TurnsCompose(grp, l.grp, SyncFrom(cfg, l.books, g, l.grp, i + 1, today).local.grp);
    }
  }

  /** An award that skips nobody goes to the nominal member. */
  lemma UnskippedIsNominal(cfg: ReserveConfig, b: Books, g: nat, grp: Group, k: nat)
    requires RowsOk(grp) && AllocateTx(cfg, b, g, grp, k).Ok?
    ensures 1 <= k <= |grp.members| && |grp.payouts| == k - 1
    ensures SelectPayoutRecipient(grp.members, k, grp.payoutOverride).recipient.Some?
    ensures AwardOf(cfg, grp, k).skipped == [] ==>
      AwardOf(cfg, grp, k).user == grp.members[QueueOrder(grp.members)[k - 1]].user
  {
    hide RowsOk, AllocateTx;
    AllocateShape(cfg, b, g, grp, k);
    NominalIsNext(grp, k);
    var skipped := SelectPayoutRecipient(grp.members, k, grp.payoutOverride).skipped;
    assert AwardOf(cfg, grp, k).skipped == [] <==> skipped == [];
  }

  lemma AwardKeepsPlaces(grp: Group, k: nat, user: nat, skipped: seq<nat>, summary: CycleSummary, split: Split)
    ensures var next := FinalizeRows(grp, k, user, skipped, summary, split);
      && SamePlaces(grp, next) && PayoutsGrow(grp, next) && |next.payouts| == |grp.payouts| + 1
      && next.payouts[|grp.payouts|] == Payout(user, k, summary.netAfterMargin, skipped)
  {
  }

  lemma AwardKeepsTurns(grp: Group, k: nat, user: nat, skipped: seq<nat>, summary: CycleSummary, split: Split)
    requires 1 <= k <= |grp.members| && |grp.payouts| == k - 1
    requires skipped == [] ==> user == grp.members[QueueOrder(grp.members)[k - 1]].user
    ensures var next := FinalizeRows(grp, k, user, skipped, summary, split);
      TurnsKept(grp, next) && SamePlaces(grp, next)
  {
    var next := FinalizeRows(grp, k, user, skipped, summary, split);
    AwardKeepsPlaces(grp, k, user, skipped, summary, split);
    SameOrders(grp.members, next.members);
  }

  lemma AllocateKeepsTurns(cfg: ReserveConfig, b: Books, g: nat, grp: Group, k: nat)
    requires RowsOk(grp) && AllocateTx(cfg, b, g, grp, k).Ok?
    ensures var next := AllocateTx(cfg, b, g, grp, k).value.grp; TurnsKept(grp, next) && SamePlaces(grp, next)
  {
    hide RowsOk, AllocateTx;
    AllocateShape(cfg, b, g, grp, k);
    UnskippedIsNominal(cfg, b, g, grp, k);
    var aw := AwardOf(cfg, grp, k);
    AwardKeepsTurns(grp, k, aw.user, aw.skipped, CycleOf(grp.terms), aw.split);
  }

  lemma FinalizeKeepsTurns(cfg: ReserveConfig, b: Books, groups: seq<Group>, g: nat, k: nat)
    requires g < |groups| && RowsOk(groups[g]) && FinalizeTx(cfg, b, groups, g, k).Ok?
    ensures var next := FinalizeTx(cfg, b, groups, g, k).value.grp; TurnsKept(groups[g], next) && next.status != Draft
  {
    hide Step, AllocateTx, CompleteTx;
    var grp := groups[g];
    AllocateKeepsTurns(cfg, b, g, grp, k);
    AllocateShape(cfg, b, g, grp, k);
    FinalizationShape(cfg, b, groups, g, k);
    var mid, next := AllocateTx(cfg, b, g, grp, k).value.grp, FinalizeTx(cfg, b, groups, g, k).value.grp;
    if next != mid {
      SamePayoutsKeepTurns(mid, next);
      TurnsCompose(grp, mid, next);
    }
  }

  lemma GroupSyncKeepsTurns(cfg: ReserveConfig, b: Books, g: nat, grp: Group, today: int)
    requires |grp.payouts| <= |grp.members|
    ensures var next := SyncGroup(cfg, b, g, grp, today).local.grp; TurnsKept(grp, next) && next.status == grp.status
  {
    hide SyncFrom;
    if grp.status == Active && grp.terms.mode == Cycle {
      SyncKeepsTurns(cfg, b, g, grp, 0, today);
    } else {
      SamePayoutsKeepTurns(grp, SyncGroup(cfg, b, g, grp, today).local.grp);
    }
  }

  lemma StepKeepsTurns(s: Sys, op: Op, g: nat)
    requires SysOk(s) && g < |s.groups| && s.groups[g].status != Draft
    ensures g < |Step(s, op).groups| && Step(s, op).groups[g].status != Draft
    ensures TurnsKept(s.groups[g], Step(s, op).groups[g])
  {
    hide Step, SettleTx, SyncGroup, FinalizeTx, TurnsKept, BooksOk, Reconciled, KeysSpent;
    StepShape(s, op, g);
    assert GroupOk(s.books, g, s.groups[g]);
    var grp, next := s.groups[g], Step(s, op).groups[g];
    if next == grp {
      SamePayoutsKeepTurns(grp, grp);
    } else {
      match op
      case Pay(_, k, i, ref) =>
        PaymentShape(s.cfg, s.books, g, grp, k, i, RefSeen(s, ref));
        SamePayoutsKeepTurns(grp, next);
      case Sync(_, today) => GroupSyncKeepsTurns(s.cfg, s.books, g, grp, today);
      case Finalize(_, k) => FinalizeKeepsTurns(s.cfg, s.books, s.groups, g, k);
      case SetRisk(_, _, _) => SamePayoutsKeepTurns(grp, next);
      case _ =>
    }
  }

  // ---- The rest of a run ---------------------------------------------------------------------------------

  lemma {:induction false} RunKeepsTurns(s: Sys, ops: seq<Op>, g: nat)
    requires SysOk(s) && NoRecounts(s, ops) && g < |s.groups| && s.groups[g].status != Draft
    ensures SysOk(Run(s, ops)) && g < |Run(s, ops).groups| && Run(s, ops).groups[g].status != Draft
    ensures TurnsKept(s.groups[g], Run(s, ops).groups[g])
  {
    hide Step, BooksOk, SettleTx;
    assert GroupOk(s.books, g, s.groups[g]);
    if ops == [] {
      SamePayoutsKeepTurns(s.groups[g], s.groups[g]);
    } else {
      var front, op := ops[..|ops| - 1], ops[|ops| - 1];
      RunKeepsTurns(s, front, g);
      var before := Run(s, front);
      StepKeepsSysOk(before, op);
      StepKeepsTurns(before, op, g);
      TurnsCompose(s.groups[g], before.groups[g], Run(s, ops).groups[g]);
    }
  }

  /** The user has at least two payouts in the group. */
  ghost predicate PaidTwice(grp: Group, user: nat) {
    exists p, q :: 0 <= p < q < |grp.payouts| && grp.payouts[p].recipient == user && grp.payouts[q].recipient == user
  }

  /** What the payouts of a completed group owe to the places at some earlier point of its run. */
  lemma TurnsLeft(grp: Group, next: Group, p: nat)
    requires RowsOk(grp) && RowsOk(next) && grp.status == Active && next.status == Completed
    requires TurnsKept(grp, next) && SamePlaces(grp, next) && NoSkipSince(next, |grp.payouts|)
    requires p < |grp.members|
    ensures var user := grp.members[QueueOrder(grp.members)[p]].user;
      && (HasReceivedPayout(next, user) <==> p >= |grp.payouts| || HasReceivedPayout(grp, user))
      && (PaidTwice(next, user) <==> PaidTwice(grp, user) || (p >= |grp.payouts| && HasReceivedPayout(grp, user)))
  {
    SameOrders(grp.members, next.members);
    var order, from := QueueOrder(grp.members), |grp.payouts|;
    var user := grp.members[order[p]].user;
    forall q | from <= q < |next.payouts| ensures next.payouts[q].recipient == user <==> q == p {
      assert next.members[order[q]].user == next.payouts[q].recipient;
      UsersDiffer(grp, order[q], order[p]);
      if q != p { assert order[q] != order[p] by { OrderHasNoRepeats(grp.members, q, p); } }
    }
    if HasReceivedPayout(grp, user) {
      var q :| 0 <= q < from && grp.payouts[q].recipient == user;
      assert next.payouts[q].recipient == user;
    }
    if PaidTwice(grp, user) {
      var q, r :| 0 <= q < r < from && grp.payouts[q].recipient == user && grp.payouts[r].recipient == user;
      assert next.payouts[q].recipient == user && next.payouts[r].recipient == user;
    }
  }

  lemma OrderHasNoRepeats(members: seq<Member>, p: nat, q: nat)
    requires p < |members| && q < |members| && p != q
    ensures QueueOrder(members)[p] != QueueOrder(members)[q]
  {
    var order := QueueOrder(members);
    assert if p < q then Before(members, order[p], order[q]) else Before(members, order[q], order[p]);
  }

  /** The group completes in the rest of the run, and on the way nobody is dequeued and no skip recorded. */
  ghost predicate CompletesInPlace(s: Sys, ops: seq<Op>, g: nat) {
    && g < |s.groups| && g < |Run(s, ops).groups|
    && Run(s, ops).groups[g].status == Completed
    && SamePlaces(s.groups[g], Run(s, ops).groups[g])
    && NoSkipSince(Run(s, ops).groups[g], |s.groups[g].payouts|)
  }

  /**
   * From any consistent state on: if a running group completes without a further dequeue or recorded
   * skip, the places behind the payouts made so far are served, each once, and no other. So a member
   * is paid in the end exactly when already paid or still ahead in the queue, and paid a second time
   * exactly when both, or when that had happened before.
   */
  lemma RestOfTurns(s: Sys, ops: seq<Op>, g: nat, p: nat)
    requires SysOk(s) && NoRecounts(s, ops) && g < |s.groups| && s.groups[g].status == Active
    requires CompletesInPlace(s, ops, g) && p < |s.groups[g].members|
    ensures var grp, next := s.groups[g], Run(s, ops).groups[g];
      var user := grp.members[QueueOrder(grp.members)[p]].user;
      && (HasReceivedPayout(next, user) <==> p >= |grp.payouts| || HasReceivedPayout(grp, user))
      && (PaidTwice(next, user) <==> PaidTwice(grp, user) || (p >= |grp.payouts| && HasReceivedPayout(grp, user)))
  {
    hide Step, RowsOk, SettleTx;
    RunKeepsTurns(s, ops, g);
    assert GroupOk(s.books, g, s.groups[g]);
    assert GroupOk(Run(s, ops).books, g, Run(s, ops).groups[g]);
    TurnsLeft(s.groups[g], Run(s, ops).groups[g], p);
  }

  /** The payouts so far went in order, and the finalization of cycle `k` passes over its nominal member. */
  ghost predicate SkipsAt(cfg: ReserveConfig, b: Books, g: nat, grp: Group, k: nat) {
    && ServedInOrder(grp) && AllocateTx(cfg, b, g, grp, k).Ok?
    && var next := AllocateTx(cfg, b, g, grp, k).value.grp;
    && |next.payouts| == k >= 1 && next.payouts[k - 1].skipped != []
  }

  /** Right after a skip: the member passed over has nothing, the one paid instead is ahead or paid twice. */
  lemma AfterSkip(cfg: ReserveConfig, b: Books, g: nat, grp: Group, k: nat) returns (q: nat)
    requires RowsOk(grp) && SkipsAt(cfg, b, g, grp, k)
    ensures k <= |grp.members| && q < |grp.members|
    ensures var next, order := AllocateTx(cfg, b, g, grp, k).value.grp, QueueOrder(grp.members);
      var user := grp.members[order[q]].user;
      && SamePlaces(grp, next) && QueueOrder(next.members) == order
      && !HasReceivedPayout(next, grp.members[order[k - 1]].user)
      && next.payouts[k - 1].recipient == user
      && HasReceivedPayout(next, user) && (q >= k || PaidTwice(next, user))
  {
    hide Step, GroupOk, RowsOk, AllocateTx;
    AllocateShape(cfg, b, g, grp, k);
    NominalIsNext(grp, k);
    AllocateKeepsTurns(cfg, b, g, grp, k);
    var next := AllocateTx(cfg, b, g, grp, k).value.grp;
    SameOrders(grp.members, next.members);
    var skipped, paid := QueueOrder(grp.members)[k - 1], AwardOf(cfg, grp, k).index;
    assert SelectPayoutRecipient(grp.members, k, grp.payoutOverride).skipped != [];
    NotYetPaid(grp, next, k, skipped, paid);
    q := PositionOf(grp.members, paid);
    PaidNow(grp, next, k, q);
  }

  /**
   * What a recorded skip costs: if the group then completes without a further dequeue or skip, the
   * member passed over is never paid, and whoever was paid instead is paid twice.
   */
  lemma SkippedTurnIsLost(s: Sys, after: Sys, ops: seq<Op>, g: nat, k: nat)
    requires SysOk(s) && g < |s.groups| && SkipsAt(s.cfg, s.books, g, s.groups[g], k)
    requires k < s.groups[g].terms.slots && after == Step(s, Finalize(g, k))
    requires NoRecounts(after, ops) && CompletesInPlace(after, ops, g)
    ensures 1 <= k <= |s.groups[g].members| && k <= |Run(after, ops).groups[g].payouts|
    ensures var grp, end := s.groups[g], Run(after, ops).groups[g];
      && !HasReceivedPayout(end, grp.members[QueueOrder(grp.members)[k - 1]].user)
      && PaidTwice(end, end.payouts[k - 1].recipient)
  {
    hide Step, Run, BooksOk, AllocateTx, Reconciled, PaidTwice, RowsOk, KeysSpent;
    var grp := s.groups[g];
    assert GroupOk(s.books, g, grp);
    var q := AfterSkip(s.cfg, s.books, g, grp, k);
    SkipCommits(s, g, k);
    FinalizeKeepsSysOk(s, g, k);
    RunKeepsTurns(after, ops, g);
    RestOfTurns(after, ops, g, k - 1);
    RestOfTurns(after, ops, g, q);
  }

  /** Before the last cycle the allocation is the whole finalization. */
  lemma SkipCommits(s: Sys, g: nat, k: nat)
    requires SysOk(s) && g < |s.groups| && k < s.groups[g].terms.slots
    requires AllocateTx(s.cfg, s.books, g, s.groups[g], k).Ok?
    ensures var next := AllocateTx(s.cfg, s.books, g, s.groups[g], k).value.grp;
      Step(s, Finalize(g, k)).groups == s.groups[g := next] && next.status == Active
  {
    hide BooksOk, RowsOk, AllocateTx, SyncGroup;
    assert GroupOk(s.books, g, s.groups[g]);
    AllocateShape(s.cfg, s.books, g, s.groups[g], k);
  }

  /** The skipped member of an orderly queue has no payout. */
  lemma NotYetPaid(grp: Group, after: Group, k: nat, skipped: nat, paid: nat)
    requires RowsOk(grp) && ServedInOrder(grp) && 1 <= k <= |grp.members| && |grp.payouts| == k - 1
    requires QueueOrder(grp.members)[k - 1] == skipped && paid < |grp.members| && paid != skipped
    requires |after.payouts| == k && after.payouts[..k - 1] == grp.payouts
    requires after.payouts[k - 1].recipient == grp.members[paid].user
    ensures skipped < |grp.members| && !HasReceivedPayout(after, grp.members[skipped].user)
  {
    var order := QueueOrder(grp.members);
    UsersDiffer(grp, skipped, paid);
    forall p | 0 <= p < k ensures after.payouts[p].recipient != grp.members[skipped].user {
      if p < k - 1 {
        assert after.payouts[..k - 1][p] == grp.payouts[p];
        UsersDiffer(grp, order[p], skipped);
        OrderHasNoRepeats(grp.members, p, k - 1);
      }
    }
  }

  /** The member paid out of turn was paid before, or still stands ahead of the next turn. */
  lemma PaidNow(grp: Group, after: Group, k: nat, q: nat)
    requires RowsOk(grp) && ServedInOrder(grp) && 1 <= k <= |grp.members| && |grp.payouts| == k - 1
    requires q < |grp.members| && q != k - 1
    requires |after.payouts| == k && after.payouts[..k - 1] == grp.payouts
    requires after.payouts[k - 1].recipient == grp.members[QueueOrder(grp.members)[q]].user
    ensures var user := grp.members[QueueOrder(grp.members)[q]].user;
      HasReceivedPayout(after, user) && (q >= k || PaidTwice(after, user))
  {
    hide RowsOk;
    var user := grp.members[QueueOrder(grp.members)[q]].user;
    assert after.payouts[k - 1].recipient == user;
    if q < k - 1 {
      assert grp.payouts[q].recipient == user && after.payouts[..k - 1][q] == grp.payouts[q];
    }
  }

  // ---- Turns are conserved -------------------------------------------------------------------------------

  function Elements(s: seq<nat>): set<nat> { set x | x in s }

  lemma {:induction false} ElementsCount(s: seq<nat>)
    ensures |Elements(s)| <= |s|
    ensures |Elements(s)| == |s| <==> forall p, q :: 0 <= p < q < |s| ==> s[p] != s[q]
  {
    if s == [] {
      assert Elements(s) == {};
    } else {
      var front, last := s[..|s| - 1], s[|s| - 1];
      ElementsCount(front);
      assert s == front + [last];
      assert Elements(s) == Elements(front) + {last};
      if last in front {
        var p :| 0 <= p < |front| && front[p] == last;
        assert s[p] == s[|s| - 1] && Elements(s) == Elements(front);
      } else {
        assert forall p :: 0 <= p < |front| ==> s[p] != last;
        if forall p, q :: 0 <= p < q < |s| ==> s[p] != s[q] {
          assert forall p, q :: 0 <= p < q < |front| ==> front[p] == s[p] && front[q] == s[q];
        }
      }
    }
  }

  lemma SubsetOfSameSize(a: set<nat>, b: set<nat>)
    requires a <= b
    ensures |a| == |b| <==> a == b
  {
    assert b == a + (b - a);
  }

  /** A completed group made one payout a member, so somebody went without exactly when somebody was paid twice. */
  lemma OneWithoutOneTwice(grp: Group)
    requires RowsOk(grp) && grp.status == Completed
    ensures (forall i :: 0 <= i < |grp.members| ==> HasReceivedPayout(grp, grp.members[i].user))
      <==> (forall p, q :: 0 <= p < q < |grp.payouts| ==> grp.payouts[p].recipient != grp.payouts[q].recipient)
  {
    var n := |grp.members|;
    var users := seq(n, (i: nat) requires i < n => grp.members[i].user);
    var paid := seq(n, (p: nat) requires p < n => grp.payouts[p].recipient);
    ElementsCount(users);
    ElementsCount(paid);
    forall u | u in Elements(paid) ensures u in Elements(users) {
      var p :| 0 <= p < n && paid[p] == u;
      assert PayoutOk(grp, p);
      var i :| 0 <= i < n && grp.members[i].user == u;
      assert users[i] == u;
    }
    SubsetOfSameSize(Elements(paid), Elements(users));
    forall i | 0 <= i < n ensures users[i] in Elements(paid) <==> HasReceivedPayout(grp, grp.members[i].user) {
      if HasReceivedPayout(grp, grp.members[i].user) {
        var p :| 0 <= p < n && grp.payouts[p].recipient == grp.members[i].user;
        assert paid[p] == users[i];
      }
      if users[i] in Elements(paid) {
        var p :| 0 <= p < n && paid[p] == users[i];
        assert grp.payouts[p].recipient == users[i];
      }
    }
    if forall i :: 0 <= i < n ==> HasReceivedPayout(grp, grp.members[i].user) {
      assert Elements(users) <= Elements(paid);
    }
    if Elements(paid) == Elements(users) {
      forall i | 0 <= i < n ensures HasReceivedPayout(grp, grp.members[i].user) {
        assert users[i] in Elements(users);
      }
    }
    if forall p, q :: 0 <= p < q < n ==> paid[p] != paid[q] {
      forall p, q | 0 <= p < q < n ensures grp.payouts[p].recipient != grp.payouts[q].recipient {
        assert paid[p] != paid[q];
      }
    }
  }
}
