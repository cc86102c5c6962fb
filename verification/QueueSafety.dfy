/** Who has been paid: the front of the payout queue, in order, whatever dequeues happen in between. */
module QueueSafety {
  import opened Wrappers
  import opened Ledger
  import opened Preview
  import opened ReserveMath
  import opened Rows
  import opened PayoutQueue
  import opened Engine
  import opened RowInvariants
  import opened GroupSafety
  import opened Protocol

  /** The payouts so far went to the first members of the queue, in queue order. */
  ghost predicate ServedInOrder(grp: Group) {
    && |grp.payouts| <= |grp.members|
    && forall p :: 0 <= p < |grp.payouts| ==>
         grp.members[QueueOrder(grp.members)[p]].user == grp.payouts[p].recipient
  }

  /** No finalization passed over a defaulted member. */
  ghost predicate NoSkips(grp: Group) {
    forall p :: 0 <= p < |grp.payouts| ==> grp.payouts[p].skipped == []
  }

  ghost predicate QueueOk(grp: Group) { NoSkips(grp) ==> ServedInOrder(grp) }

  /** Rows that keep users, payout orders and payouts keep the queue's history. */
  lemma SameQueue(grp: Group, next: Group)
    requires QueueOk(grp) && next.payouts == grp.payouts && |next.members| == |grp.members|
    requires forall i :: 0 <= i < |grp.members| ==>
      next.members[i].user == grp.members[i].user && next.members[i].payoutOrder == grp.members[i].payoutOrder
    ensures QueueOk(next)
  {
    SameOrders(grp.members, next.members);
  }

  lemma PositionOf(members: seq<Member>, i: nat) returns (p: nat)
    requires i < |members|
    ensures p < |members| && QueueOrder(members)[p] == i
  {
    assert i in QueueOrder(members);
    p :| 0 <= p < |members| && QueueOrder(members)[p] == i;
  }

  /** Only members without a payout are dequeued, so the served front stays where it is. */
  lemma DequeueKeepsQueue(grp: Group, i: nat)
    requires QueueOk(grp) && i < |grp.members| && !HasReceivedPayout(grp, grp.members[i].user)
    ensures QueueOk(grp.(members := Dequeued(grp.members, i)))
  {
    var order := QueueOrder(grp.members);
    var p := PositionOf(grp.members, i);
    DequeueMovesToEnd(grp.members, p);
    if NoSkips(grp) {
      assert p >= |grp.payouts|;
      var next := grp.(members := Dequeued(grp.members, i));
      forall q | 0 <= q < |next.payouts|
        ensures next.members[QueueOrder(next.members)[q]].user == next.payouts[q].recipient
      {
        assert QueueOrder(next.members)[q] == order[q];
      }
    }
  }

  lemma DefaultKeepsQueue(cfg: ReserveConfig, b: Books, g: nat, grp: Group, i: nat)
    requires QueueOk(grp) && i < |grp.members| && DefaultTx(cfg, b, g, grp, i).Ok?
    ensures QueueOk(DefaultTx(cfg, b, g, grp, i).value.grp)
  {
    hide Transfer;
    var f := ForfeitTx(b, g, WithStanding(grp, i, Defaulted), i).value;
    SameQueue(grp, f.grp);
    if HasReceivedPayout(f.grp, grp.members[i].user) {
      SameQueue(f.grp, DefaultTx(cfg, b, g, grp, i).value.grp);
    } else {
      DequeueKeepsQueue(f.grp, i);
    }
  }

  lemma {:induction false} SyncKeepsQueue(cfg: ReserveConfig, b: Books, g: nat, grp: Group, i: nat, today: int)
    requires QueueOk(grp)
    ensures QueueOk(SyncFrom(cfg, b, g, grp, i, today).local.grp)
    decreases |grp.members| - i
  {
    hide Step, DefaultTx;
    if i < |grp.members| && SyncMember(cfg, b, g, grp, i, today).Ok? {
      var l := SyncMember(cfg, b, g, grp, i, today).value;
      if NextStanding(grp, i, today).None? {
        DefaultKeepsQueue(cfg, b, g, grp, i);
      } else {
        SameQueue(grp, l.grp);
      }
      SyncMemberKeepsRoster(cfg, b, g, grp, i, today);
      SyncKeepsQueue(cfg, l.books, g, l.grp, i + 1, today);
    }
  }

  lemma UsersDiffer(grp: Group, i: nat, j: nat)
    requires MembersOk(grp) && i < |grp.members| && j < |grp.members|
    ensures grp.members[i].user == grp.members[j].user <==> i == j
  {
    var x, y := if i < j then i else j, if i < j then j else i;
    assert x < y ==> grp.members[x].user != grp.members[y].user;
  }

  /** In a running group the nominal recipient is the first member not served yet. */
  lemma NominalIsNext(grp: Group, k: nat)
    requires RowsOk(grp) && FinalizeFault(grp, k).None?
    ensures k >= 1 && |grp.payouts| == k - 1 < |grp.members|
    ensures var s := SelectPayoutRecipient(grp.members, k, grp.payoutOverride);
      var nominal := QueueOrder(grp.members)[k - 1];
      && s.nominal == Some(nominal)
      && (s.recipient.Some? ==> s.recipient.value < |grp.members|)
      && (s.recipient == s.nominal <==> grp.payoutOverride || grp.members[nominal].standing != Defaulted)
      && (s.skipped == [] <==> s.recipient == s.nominal)
  {
    SelectionIsEligible(grp.members, k, grp.payoutOverride);
    NominalAt(grp.members, k, grp.payoutOverride);
  }

  /** One more payout keeps the order exactly when it goes to the next member of the queue. */
  lemma OrderAfterPayout(grp: Group, next: Group, i: nat)
    requires MembersOk(grp) && ServedInOrder(grp) && |grp.payouts| < |grp.members| && i < |grp.members|
    requires |next.members| == |grp.members| && |next.payouts| == |grp.payouts| + 1
    requires forall j :: 0 <= j < |grp.members| ==>
      next.members[j].user == grp.members[j].user && next.members[j].payoutOrder == grp.members[j].payoutOrder
    requires forall p :: 0 <= p < |grp.payouts| ==> next.payouts[p] == grp.payouts[p]
    requires next.payouts[|grp.payouts|].recipient == grp.members[i].user
    ensures ServedInOrder(next) <==> i == QueueOrder(grp.members)[|grp.payouts|]
  {
    SameOrders(grp.members, next.members);
    var order := QueueOrder(grp.members);
    UsersDiffer(grp, i, order[|grp.payouts|]);
    if i == order[|grp.payouts|] {
      forall p | 0 <= p < |next.payouts| ensures next.members[order[p]].user == next.payouts[p].recipient {
      }
    } else {
      assert next.members[order[|grp.payouts|]].user != next.payouts[|grp.payouts|].recipient;
    }
  }

  /**
   * A finalization keeps the payouts in queue order exactly when its nominal recipient is not
   * defaulted, or the override is on; and exactly then it records no skip.
   */
  lemma FinalizeKeepsOrderExactly(cfg: ReserveConfig, b: Books, g: nat, grp: Group, k: nat)
    requires RowsOk(grp) && ServedInOrder(grp) && AllocateTx(cfg, b, g, grp, k).Ok?
    ensures var next := AllocateTx(cfg, b, g, grp, k).value.grp;
      && |grp.payouts| < |grp.members| && |next.payouts| == |grp.payouts| + 1
      && var nominal := grp.members[QueueOrder(grp.members)[|grp.payouts|]];
      && (ServedInOrder(next) <==> grp.payoutOverride || nominal.standing != Defaulted)
      && (next.payouts[|grp.payouts|].skipped == [] <==> grp.payoutOverride || nominal.standing != Defaulted)
  {
    hide GroupOk, AllocateTx;
    AllocateShape(cfg, b, g, grp, k);
    NominalIsNext(grp, k);
    var aw := AwardOf(cfg, grp, k);
    assert aw.skipped == [] <==> SelectPayoutRecipient(grp.members, k, grp.payoutOverride).skipped == [];
    OrderAfterPayout(grp, AllocateTx(cfg, b, g, grp, k).value.grp, aw.index);
  }

  lemma AllocateKeepsQueue(cfg: ReserveConfig, b: Books, g: nat, grp: Group, k: nat)
    requires RowsOk(grp) && QueueOk(grp) && AllocateTx(cfg, b, g, grp, k).Ok?
    ensures QueueOk(AllocateTx(cfg, b, g, grp, k).value.grp)
  {
    var next := AllocateTx(cfg, b, g, grp, k).value.grp;
    AllocateShape(cfg, b, g, grp, k);
    if NoSkips(next) {
      assert NoSkips(grp) by {
        assert forall p :: 0 <= p < |grp.payouts| ==> grp.payouts[p] == next.payouts[p];
      }
      FinalizeKeepsOrderExactly(cfg, b, g, grp, k);
    }
  }

  /** Among those served in order, having a payout means standing at the front of the queue. */
  lemma PaidMeansFront(grp: Group, i: nat)
    requires MembersOk(grp) && ServedInOrder(grp) && i < |grp.members|
    ensures HasReceivedPayout(grp, grp.members[i].user) <==> i in QueueOrder(grp.members)[..|grp.payouts|]
  {
    var order := QueueOrder(grp.members);
    var front := order[..|grp.payouts|];
    if i in front {
      var p :| 0 <= p < |front| && front[p] == i;
      assert grp.payouts[p].recipient == grp.members[i].user;
    }
    if HasReceivedPayout(grp, grp.members[i].user) {
      var p :| 0 <= p < |grp.payouts| && grp.payouts[p].recipient == grp.members[i].user;
      UsersDiffer(grp, order[p], i);
      assert front[p] == i;
    }
  }

  /** The queue as cycle `k` walks it. */
  function WalkOf(grp: Group, k: nat): (walk: seq<nat>)
    requires 1 <= k <= |grp.members|
    ensures Valid(grp.members, walk)
  {
    Rotated(QueueOrder(grp.members), k - 1)
  }

  /** Whom cycle `k` is up to, read off rows and standings: the nominal member, or the first who is not defaulted. */
  ghost predicate IsUp(grp: Group, k: nat, q: nat)
    requires 1 <= k <= |grp.members|
  {
    if grp.payoutOverride then q == 0 else FirstUp(grp.members, WalkOf(grp, k), q)
  }

  /** Payout `p` goes to someone who was paid before. */
  ghost predicate RepeatsPayout(grp: Group, p: nat)
    requires p < |grp.payouts|
  {
    exists q :: 0 <= q < p && grp.payouts[q].recipient == grp.payouts[p].recipient
  }

  lemma NewPayoutRepeats(grp: Group, next: Group)
    requires |next.payouts| == |grp.payouts| + 1
    requires forall p :: 0 <= p < |grp.payouts| ==> next.payouts[p] == grp.payouts[p]
    ensures RepeatsPayout(next, |grp.payouts|) <==> HasReceivedPayout(grp, next.payouts[|grp.payouts|].recipient)
  {
    if HasReceivedPayout(grp, next.payouts[|grp.payouts|].recipient) {
      var p :| 0 <= p < |grp.payouts| && grp.payouts[p].recipient == next.payouts[|grp.payouts|].recipient;
      assert next.payouts[p].recipient == next.payouts[|grp.payouts|].recipient;
    }
  }

  /**
   * For every group with an accepted finalization: the member it is up to is paid, everyone before
   * in the walk is recorded as skipped, and somebody is paid a second time exactly when that member
   * already has a payout.
   */
  lemma SecondPayoutExactly(cfg: ReserveConfig, b: Books, g: nat, grp: Group, k: nat)
    requires RowsOk(grp) && AllocateTx(cfg, b, g, grp, k).Ok?
    ensures 1 <= k <= |grp.members| && |grp.payouts| == k - 1
    ensures exists q: nat :: IsUp(grp, k, q)
    ensures forall q: nat :: IsUp(grp, k, q) ==>
      var user := grp.members[WalkOf(grp, k)[q]].user;
      var next := AllocateTx(cfg, b, g, grp, k).value.grp;
      && |next.payouts| == k && next.payouts[k - 1].recipient == user
      && next.payouts[k - 1].skipped == UsersAt(grp.members, WalkOf(grp, k)[..q])
      && (RepeatsPayout(next, k - 1) <==> HasReceivedPayout(grp, user))
  {
    hide GroupOk, RowsOk, AllocateTx;
    AllocateShape(cfg, b, g, grp, k);
    NominalIsNext(grp, k);
    var walk := WalkOf(grp, k);
    SelectionIsEligible(grp.members, k, grp.payoutOverride);
    assert (k - 1) % |grp.members| == k - 1;
    if grp.payoutOverride {
      assert IsUp(grp, k, 0);
    } else {
      WalkCovers(grp.members, k - 1);
      var q := SomeoneIsUp(grp.members, walk);
      assert IsUp(grp, k, q);
    }
    forall q: nat | IsUp(grp, k, q)
      ensures AwardOf(cfg, grp, k).index == walk[q]
      ensures AwardOf(cfg, grp, k).skipped == UsersAt(grp.members, walk[..q])
    {
      if !grp.payoutOverride { FirstUpIsServed(grp.members, walk, q); }
    }
    NewPayoutRepeats(grp, AllocateTx(cfg, b, g, grp, k).value.grp);
  }

  /**
   * While all payouts so far went in queue order, that is so exactly when everyone still waiting is
   * defaulted and the override is off.
   */
  lemma SecondPayoutInOrder(cfg: ReserveConfig, b: Books, g: nat, grp: Group, k: nat)
    requires RowsOk(grp) && ServedInOrder(grp) && AllocateTx(cfg, b, g, grp, k).Ok?
    ensures k >= 1 && SelectPayoutRecipient(grp.members, k, grp.payoutOverride).recipient.Some?
    ensures var waiting := QueueOrder(grp.members)[|grp.payouts|..];
      && Valid(grp.members, waiting)
      && (HasReceivedPayout(grp, AwardOf(cfg, grp, k).user)
          <==> !grp.payoutOverride && AllDefaulted(grp.members, waiting))
  {
    hide AllocateTx;
    AllocateShape(cfg, b, g, grp, k);
    NominalIsNext(grp, k);
    PaysTwiceExactly(grp.members, k, grp.payoutOverride);
    PaidMeansFront(grp, AwardOf(cfg, grp, k).index);
  }

  // ---- Whole runs ---------------------------------------------------------------------------------------

  ghost predicate QueuesOk(s: Sys) { forall h :: 0 <= h < |s.groups| ==> QueueOk(s.groups[h]) }

  lemma FinalizeKeepsQueue(cfg: ReserveConfig, b: Books, groups: seq<Group>, g: nat, k: nat)
    requires g < |groups| && RowsOk(groups[g]) && QueueOk(groups[g]) && FinalizeTx(cfg, b, groups, g, k).Ok?
    ensures QueueOk(FinalizeTx(cfg, b, groups, g, k).value.grp)
  {
    hide Step, AllocateTx, CompleteTx;
    AllocateKeepsQueue(cfg, b, g, groups[g], k);
    FinalizationShape(cfg, b, groups, g, k);
    var grp, next := AllocateTx(cfg, b, g, groups[g], k).value.grp, FinalizeTx(cfg, b, groups, g, k).value.grp;
    if next != grp { SameQueue(grp, next); }
  }

  lemma GroupSyncKeepsQueue(cfg: ReserveConfig, b: Books, g: nat, grp: Group, today: int)
    requires QueueOk(grp)
    ensures QueueOk(SyncGroup(cfg, b, g, grp, today).local.grp)
  {
    hide SyncFrom;
    if grp.status == Active && grp.terms.mode == Cycle {
      SyncKeepsQueue(cfg, b, g, grp, 0, today);
    } else {
      SameQueue(grp, SyncGroup(cfg, b, g, grp, today).local.grp);
    }
  }

  lemma JoinKeepsQueue(b: Books, g: nat, grp: Group, user: nat)
    requires RowsOk(grp) && JoinTx(b, g, grp, user).Ok?
    ensures QueueOk(JoinTx(b, g, grp, user).value.grp)
  {
    assert grp.status == Draft;
  }

  lemma GroupStepKeepsQueue(s: Sys, op: Op, g: nat)
    requires SysOk(s) && g < |s.groups| && QueueOk(s.groups[g])
    ensures g < |Step(s, op).groups| && QueueOk(Step(s, op).groups[g])
  {
    hide Step, JoinTx, SettleTx, SyncGroup, FinalizeTx, QueueOk, BooksOk;
    StepShape(s, op, g);
    assert GroupOk(s.books, g, s.groups[g]);
    var grp, next := s.groups[g], Step(s, op).groups[g];
    if next != grp {
      match op
      case Pay(_, k, i, ref) =>
        PaymentShape(s.cfg, s.books, g, grp, k, i, RefSeen(s, ref));
        SameQueue(grp, next);
      case Sync(_, today) => GroupSyncKeepsQueue(s.cfg, s.books, g, grp, today);
      case Finalize(_, k) => FinalizeKeepsQueue(s.cfg, s.books, s.groups, g, k);
      case Join(_, user) => JoinKeepsQueue(s.books, g, grp, user);
      case _ => SameQueue(grp, next);
    }
  }

  lemma StepKeepsQueues(s: Sys, op: Op)
    requires SysOk(s) && QueuesOk(s)
    ensures QueuesOk(Step(s, op))
  {
    hide Step, SysOk, PreviewOf;
    var next := Step(s, op);
    forall h: nat | h < |next.groups| ensures QueueOk(next.groups[h]) {
      if h < |s.groups| { GroupStepKeepsQueue(s, op, h); } else { NewGroupShape(s, op, h); }
    }
  }

  lemma {:induction false} RunsKeepQueues(cfg: ReserveConfig, ops: seq<Op>)
    requires NoRecounts(Init(cfg), ops)
    ensures QueuesOk(Run(Init(cfg), ops))
  {
    hide Step, SysOk, SettleTx;
    if ops != [] {
      var before := Run(Init(cfg), ops[..|ops| - 1]);
      RunsKeepQueues(cfg, ops[..|ops| - 1]);
      RunsKeepSysOk(cfg, ops[..|ops| - 1]);
      StepKeepsQueues(before, ops[|ops| - 1]);
    }
  }

  lemma ServedAreDistinct(grp: Group)
    requires RowsOk(grp) && ServedInOrder(grp)
    ensures forall p, q :: 0 <= p < q < |grp.payouts| ==> grp.payouts[p].recipient != grp.payouts[q].recipient
  {
    var order := QueueOrder(grp.members);
    forall p, q | 0 <= p < q < |grp.payouts| ensures grp.payouts[p].recipient != grp.payouts[q].recipient {
      assert Before(grp.members, order[p], order[q]);
      if order[p] < order[q] {
        assert grp.members[order[p]].user != grp.members[order[q]].user;
      } else {
        assert grp.members[order[q]].user != grp.members[order[p]].user;
      }
    }
  }

  /**
   * Over every run without recounts, whatever dequeues happen: a group whose payouts record no
   * skip has paid the front of its queue in order, nobody twice, and once completed everybody once.
   */
  lemma EveryMemberPaidOnce(cfg: ReserveConfig, ops: seq<Op>, g: nat)
    requires NoRecounts(Init(cfg), ops)
    requires g < |Run(Init(cfg), ops).groups| && NoSkips(Run(Init(cfg), ops).groups[g])
    ensures var grp := Run(Init(cfg), ops).groups[g];
      && ServedInOrder(grp)
      && (forall p, q :: 0 <= p < q < |grp.payouts| ==> grp.payouts[p].recipient != grp.payouts[q].recipient)
      && (grp.status == Completed ==>
            |grp.payouts| == |grp.members| && forall i :: 0 <= i < |grp.members| ==>
              HasReceivedPayout(grp, grp.members[i].user))
  {
    hide Step, SettleTx;
    RunsKeepSysOk(cfg, ops);
    RunsKeepQueues(cfg, ops);
    var s := Run(Init(cfg), ops);
    var grp := s.groups[g];
    assert GroupOk(s.books, g, grp);
    ServedAreDistinct(grp);
    if grp.status == Completed {
      forall i: nat | i < |grp.members| ensures HasReceivedPayout(grp, grp.members[i].user) {
        var p := PositionOf(grp.members, i);
        assert grp.payouts[p].recipient == grp.members[i].user;
      }
    }
  }
}
