/** Compliance syncs settle down: money moves in the first pass only, and the second is final. */
module Compliance {
  import opened Wrappers
  import opened Ledger
  import opened Faults
  import opened Preview
  import opened ReserveMath
  import opened Rows
  import opened Engine
  import opened RowInvariants
  import opened GroupSafety
  import opened Protocol

  /** What a sync reads of member `j`: the standing and the running contribution. */
  ghost predicate SameView(grp: Group, next: Group, j: nat)
    requires j < |grp.members| && j < |next.members|
  {
    && next.terms == grp.terms && next.currentCycle == grp.currentCycle && next.graceDays == grp.graceDays
    && next.status == grp.status
    && next.members[j].standing == grp.members[j].standing
    && (HasContribution(next, grp.currentCycle, j) <==> HasContribution(grp, grp.currentCycle, j))
    && (HasContribution(grp, grp.currentCycle, j) ==>
          ContributionAt(next, grp.currentCycle, j) == ContributionAt(grp, grp.currentCycle, j))
  }

  lemma SameViewSameNext(grp: Group, next: Group, j: nat, today: int)
    requires j < |grp.members| && j < |next.members| && SameView(grp, next, j)
    ensures NextStanding(next, j, today) == NextStanding(grp, j, today)
  {
  }

  lemma SameViewTransitive(a: Group, b: Group, c: Group, j: nat)
    requires j < |a.members| && j < |b.members| && j < |c.members| && SameView(a, b, j) && SameView(b, c, j)
    ensures SameView(a, c, j)
  {
  }

  lemma CoverIsLocal(cfg: ReserveConfig, b: Books, g: nat, grp: Group, k: nat, i: nat, j: nat)
    requires i < |grp.members| && j < |grp.members| && j != i && CoverTx(cfg, b, g, grp, k, i).Ok?
    ensures var next := CoverTx(cfg, b, g, grp, k, i).value.grp; next.members == grp.members && SameView(grp, next, j)
  {
  }

  lemma ForfeitIsLocal(b: Books, g: nat, grp: Group, i: nat, j: nat)
    requires i < |grp.members| && j < |grp.members| && j != i && ForfeitTx(b, g, grp, i).Ok?
    ensures var next := ForfeitTx(b, g, grp, i).value.grp; |next.members| == |grp.members| && SameView(grp, next, j)
  {
  }

  /** Syncing one member does not show in any other. */
  lemma SyncMemberIsLocal(cfg: ReserveConfig, b: Books, g: nat, grp: Group, i: nat, today: int, j: nat)
    requires i < |grp.members| && j < |grp.members| && j != i && SyncMember(cfg, b, g, grp, i, today).Ok?
    ensures var next := SyncMember(cfg, b, g, grp, i, today).value.grp;
      |next.members| == |grp.members| && SameView(grp, next, j)
  {
    if NextStanding(grp, i, today).None? {
      var stood := WithStanding(grp, i, Defaulted);
      ForfeitIsLocal(b, g, stood, i, j);
      var f := ForfeitTx(b, g, stood, i).value;
      SameViewTransitive(grp, stood, f.grp, j);
      if HasReceivedPayout(f.grp, grp.members[i].user) {
        CoverIsLocal(cfg, f.books, g, f.grp, f.grp.currentCycle, i, j);
      }
      SameViewTransitive(grp, f.grp, DefaultTx(cfg, b, g, grp, i).value.grp, j);
    }
  }

  /** No money would move for member `j`. */
  ghost predicate Quiet(grp: Group, j: nat, today: int)
    requires j < |grp.members|
  {
    NextStanding(grp, j, today).Some?
  }

  /** Nothing at all would change for member `j`. */
  ghost predicate Still(grp: Group, j: nat, today: int)
    requires j < |grp.members|
  {
    NextStanding(grp, j, today) == Some(grp.members[j].standing)
  }

  lemma StandingStills(grp: Group, i: nat, today: int)
    requires i < |grp.members| && NextStanding(grp, i, today).Some?
    ensures Still(WithStanding(grp, i, NextStanding(grp, i, today).value), i, today)
  {
  }

  /** A member marked defaulted stays put in further syncs, or is restored once paid. */
  lemma DefaultedIsQuiet(grp: Group, i: nat, today: int)
    requires i < |grp.members| && grp.members[i].standing == Defaulted
    ensures Quiet(grp, i, today)
  {
  }

  lemma ForfeitKeepsStandings(b: Books, g: nat, grp: Group, i: nat)
    requires i < |grp.members| && ForfeitTx(b, g, grp, i).Ok?
    ensures var next := ForfeitTx(b, g, grp, i).value.grp;
      |next.members| == |grp.members| && next.members[i].standing == grp.members[i].standing
  {
  }

  lemma CoverKeepsMembers(cfg: ReserveConfig, b: Books, g: nat, grp: Group, k: nat, i: nat)
    requires i < |grp.members| && CoverTx(cfg, b, g, grp, k, i).Ok?
    ensures CoverTx(cfg, b, g, grp, k, i).value.grp.members == grp.members
  {
  }

  lemma DefaultMarks(cfg: ReserveConfig, b: Books, g: nat, grp: Group, i: nat)
    requires i < |grp.members| && DefaultTx(cfg, b, g, grp, i).Ok?
    ensures var next := DefaultTx(cfg, b, g, grp, i).value.grp;
      |next.members| == |grp.members| && next.members[i].standing == Defaulted
  {
    hide CoverTx, ForfeitTx;
    var stood := WithMember(grp, i, grp.members[i].(standing := Defaulted));
    ForfeitKeepsStandings(b, g, stood, i);
    var l := ForfeitTx(b, g, stood, i).value;
    if HasReceivedPayout(l.grp, grp.members[i].user) {
      CoverKeepsMembers(cfg, l.books, g, l.grp, l.grp.currentCycle, i);
    }
  }

  lemma SyncMemberQuiets(cfg: ReserveConfig, b: Books, g: nat, grp: Group, i: nat, today: int)
    requires i < |grp.members| && SyncMember(cfg, b, g, grp, i, today).Ok?
    ensures var l := SyncMember(cfg, b, g, grp, i, today).value;
      && |l.grp.members| == |grp.members| && Quiet(l.grp, i, today)
      && (Quiet(grp, i, today) ==> l.books == b && Still(l.grp, i, today))
  {
    hide DefaultTx;
    if NextStanding(grp, i, today).None? {
      DefaultMarks(cfg, b, g, grp, i);
      DefaultedIsQuiet(DefaultTx(cfg, b, g, grp, i).value.grp, i, today);
    } else {
      StandingStills(grp, i, today);
    }
  }

  /** The others' next standings survive the sync of member `i`. */
  lemma OthersKeepNext(cfg: ReserveConfig, b: Books, g: nat, grp: Group, i: nat, today: int)
    requires i < |grp.members| && SyncMember(cfg, b, g, grp, i, today).Ok?
    ensures var next := SyncMember(cfg, b, g, grp, i, today).value.grp;
      && |next.members| == |grp.members| && next.status == grp.status && next.terms == grp.terms
      && forall j: nat {:trigger Quiet(next, j, today)} {:trigger Still(next, j, today)} ::
        j < |grp.members| && j != i ==>
           && (Quiet(next, j, today) <==> Quiet(grp, j, today)) && (Still(next, j, today) <==> Still(grp, j, today))
  {
    hide SyncMember, NextStanding, SameView;
    SyncMemberKeepsRoster(cfg, b, g, grp, i, today);
    var next := SyncMember(cfg, b, g, grp, i, today).value.grp;
    forall j: nat | j < |grp.members| && j != i
      ensures (Quiet(next, j, today) <==> Quiet(grp, j, today)) && (Still(next, j, today) <==> Still(grp, j, today))
    {
      SyncMemberIsLocal(cfg, b, g, grp, i, today, j);
      SameViewSameNext(grp, next, j, today);
    }
  }

  ghost predicate AllQuiet(grp: Group, from: nat, to: nat, today: int) {
    to <= |grp.members| && forall j: nat :: from <= j < to ==> Quiet(grp, j, today)
  }

  ghost predicate AllStill(grp: Group, to: nat, today: int) {
    to <= |grp.members| && forall j: nat :: j < to ==> Still(grp, j, today)
  }

  /** Where a pass stops: behind the last member, or at the one whose default is refused with `fault`. */
  ghost predicate StopsAt(
    cfg: ReserveConfig, b: Books, g: nat, grp: Group, m: nat, fault: Option<Fault>, today: int)
  {
    && m <= |grp.members|
    && if m == |grp.members| then fault.None?
       else fault.Some? && SyncMember(cfg, b, g, grp, m, today) == Err(fault.value)
  }

  /** A pass leaves every member quiet up to the one it stops at. */
  lemma {:induction false} SyncQuiets(cfg: ReserveConfig, b: Books, g: nat, grp: Group, i: nat, today: int)
      returns (m: nat)
    requires AllQuiet(grp, 0, i, today)
    ensures var out := SyncFrom(cfg, b, g, grp, i, today);
      && out.local.grp.status == grp.status && out.local.grp.terms == grp.terms
      && AllQuiet(out.local.grp, 0, m, today)
      && StopsAt(cfg, out.local.books, g, out.local.grp, m, out.fault, today)
    decreases |grp.members| - i
  {
    hide SyncMember;
    if i < |grp.members| && SyncMember(cfg, b, g, grp, i, today).Ok? {
      var l := SyncMember(cfg, b, g, grp, i, today).value;
      SyncMemberQuiets(cfg, b, g, grp, i, today);
      OthersKeepNext(cfg, b, g, grp, i, today);
      m := SyncQuiets(cfg, l.books, g, l.grp, i + 1, today);
    } else {
      m := i;
    }
  }

  lemma ForfeitFaultAside(b: Books, g: nat, grp: Group, next: Group, m: nat)
    requires m < |grp.members| && m < |next.members| && next.members[m] == grp.members[m]
    ensures ForfeitTx(b, g, grp, m).Err? <==> ForfeitTx(b, g, next, m).Err?
    ensures ForfeitTx(b, g, grp, m).Err? ==> ForfeitTx(b, g, grp, m) == ForfeitTx(b, g, next, m)
    ensures ForfeitTx(b, g, grp, m).Ok? ==>
      && ForfeitTx(b, g, next, m).value.books == ForfeitTx(b, g, grp, m).value.books
      && ForfeitTx(b, g, grp, m).value.grp.members[m] == ForfeitTx(b, g, next, m).value.grp.members[m]
  {
  }

  lemma CoverFaultAside(cfg: ReserveConfig, b: Books, g: nat, grp: Group, next: Group, k: nat, m: nat)
    requires m < |grp.members| && m < |next.members| && next.members[m] == grp.members[m]
    requires next.cycles == grp.cycles && next.reserves == grp.reserves && next.covers == grp.covers
    ensures CoverTx(cfg, b, g, grp, k, m).Err? ==> CoverTx(cfg, b, g, next, k, m) == CoverTx(cfg, b, g, grp, k, m)
  {
    assert CoverDue(cfg, next, k, m) == CoverDue(cfg, grp, k, m);
  }

  /** Whether member `m`'s default is refused does not depend on another member's standing. */
  lemma RefusalStays(cfg: ReserveConfig, b: Books, g: nat, grp: Group, i: nat, s: Standing, m: nat, today: int)
    requires i < |grp.members| && m < |grp.members| && i != m && SyncMember(cfg, b, g, grp, m, today).Err?
    ensures SyncMember(cfg, b, g, WithStanding(grp, i, s), m, today) == SyncMember(cfg, b, g, grp, m, today)
  {
    hide CoverTx;
    var next := WithStanding(grp, i, s);
    SameViewSameNext(grp, next, m, today);
    var was, now := WithStanding(grp, m, Defaulted), WithStanding(next, m, Defaulted);
    ForfeitFaultAside(b, g, was, now, m);
    if ForfeitTx(b, g, was, m).Ok? {
      var f, h := ForfeitTx(b, g, was, m).value, ForfeitTx(b, g, now, m).value;
      assert HasReceivedPayout(h.grp, grp.members[m].user) <==> HasReceivedPayout(f.grp, grp.members[m].user);
      CoverFaultAside(cfg, f.books, g, f.grp, h.grp, grp.currentCycle, m);
    }
  }

  /** A pass over quiet members posts nothing, stops where the last one did, and leaves them still. */
  lemma {:induction false} QuietPass(
      cfg: ReserveConfig, b: Books, g: nat, grp: Group, i: nat, m: nat, fault: Option<Fault>, today: int)
    requires i <= m && AllQuiet(grp, i, m, today) && AllStill(grp, i, today)
    requires StopsAt(cfg, b, g, grp, m, fault, today)
    ensures var out := SyncFrom(cfg, b, g, grp, i, today);
      && out.fault == fault && out.local.books == b
      && out.local.grp.status == grp.status && out.local.grp.terms == grp.terms
      && AllStill(out.local.grp, m, today) && StopsAt(cfg, b, g, out.local.grp, m, fault, today)
    decreases |grp.members| - i
  {
    hide Step, DefaultTx;
    if i < m {
      assert Quiet(grp, i, today);
      var l := SyncMember(cfg, b, g, grp, i, today).value;
      SyncMemberQuiets(cfg, b, g, grp, i, today);
      OthersKeepNext(cfg, b, g, grp, i, today);
      if m < |grp.members| { RefusalStays(cfg, b, g, grp, i, NextStanding(grp, i, today).value, m, today); }
      QuietPass(cfg, l.books, g, l.grp, i + 1, m, fault, today);
    }
  }

  lemma {:induction false} StillPassChangesNothing(
      cfg: ReserveConfig, b: Books, g: nat, grp: Group, i: nat, m: nat, fault: Option<Fault>, today: int)
    requires i <= m && AllStill(grp, m, today) && StopsAt(cfg, b, g, grp, m, fault, today)
    ensures SyncFrom(cfg, b, g, grp, i, today) == SyncOutcome(Local(b, grp), fault)
    decreases |grp.members| - i
  {
    hide DefaultTx, NextStanding;
    if i < m {
      assert Still(grp, i, today);
      assert grp.members[i := grp.members[i].(standing := grp.members[i].standing)] == grp.members;
      StillPassChangesNothing(cfg, b, g, grp, i + 1, m, fault, today);
    }
  }

  /**
   * At a fixed clock the sync after any sync moves no money and meets the same fault, if any; the one
   * after that changes nothing at all. A refused member stops every later pass at the same place.
   */
  lemma SyncStabilises(cfg: ReserveConfig, b: Books, g: nat, grp: Group, today: int)
    ensures var first := SyncGroup(cfg, b, g, grp, today);
      var second := SyncGroup(cfg, first.local.books, g, first.local.grp, today);
      && second.fault == first.fault
      && second.local.books == first.local.books
      && SyncGroup(cfg, second.local.books, g, second.local.grp, today) == second
  {
    hide SyncMember;
    var first := SyncGroup(cfg, b, g, grp, today);
    if grp.status == Active && grp.terms.mode == Daily {
      assert EveryoneGood(EveryoneGood(grp.members)) == EveryoneGood(grp.members);
    } else if grp.status == Active {
      var m := SyncQuiets(cfg, b, g, grp, 0, today);
      QuietPass(cfg, first.local.books, g, first.local.grp, 0, m, first.fault, today);
      var second := SyncFrom(cfg, first.local.books, g, first.local.grp, 0, today);
      StillPassChangesNothing(cfg, second.local.books, g, second.local.grp, 0, m, first.fault, today);
    }
  }

  // ---- Leaving default -------------------------------------------------------------------------------------

  ghost predicate CurrentlyPaid(grp: Group, i: nat) {
    HasContribution(grp, grp.currentCycle, i) && ContributionAt(grp, grp.currentCycle, i).status == Paid
  }

  lemma {:induction false} SyncKeepsUnpaidDefault(
      cfg: ReserveConfig, b: Books, g: nat, grp: Group, i: nat, today: int, j: nat)
    requires j < |grp.members| && grp.members[j].standing == Defaulted && !CurrentlyPaid(grp, j)
    ensures var next := SyncFrom(cfg, b, g, grp, i, today).local.grp;
      j < |next.members| && next.members[j].standing == Defaulted
    decreases |grp.members| - i
  {
    hide DefaultTx;
    if i < |grp.members| && SyncMember(cfg, b, g, grp, i, today).Ok? {
      var l := SyncMember(cfg, b, g, grp, i, today).value;
      if i != j { SyncMemberIsLocal(cfg, b, g, grp, i, today, j); }
      SyncKeepsUnpaidDefault(cfg, l.books, g, l.grp, i + 1, today, j);
    }
  }

  lemma FinalizeKeepsDefault(cfg: ReserveConfig, b: Books, groups: seq<Group>, g: nat, k: nat, j: nat)
    requires g < |groups| && RowsOk(groups[g]) && FinalizeTx(cfg, b, groups, g, k).Ok?
    requires j < |groups[g].members| && groups[g].members[j].standing == Defaulted
    ensures var next := FinalizeTx(cfg, b, groups, g, k).value.grp;
      j < |next.members| && next.members[j].standing == Defaulted
  {
    hide RowsOk, AllocateTx, FinalizeTx, CycleOf;
    FinalizationShape(cfg, b, groups, g, k);
    AllocateShape(cfg, b, g, groups[g], k);
    var grp := AllocateTx(cfg, b, g, groups[g], k).value.grp;
    assert grp.members[j].standing == Defaulted;
  }

  /** A member of a CYCLE group stops being defaulted only through a sync that finds the running contribution paid. */
  lemma LeavesDefaultOnlyWhenPaid(s: Sys, op: Op, g: nat, j: nat)
    requires SysOk(s) && g < |s.groups| && j < |s.groups[g].members|
    requires s.groups[g].terms.mode == Cycle && s.groups[g].members[j].standing == Defaulted
    ensures j < |Step(s, op).groups[g].members|
    ensures Step(s, op).groups[g].members[j].standing != Defaulted ==>
      op.Sync? && op.group == g && s.groups[g].status == Active && CurrentlyPaid(s.groups[g], j)
  {
    hide Step, SettleTx, SyncFrom, FinalizeTx, Transfer, BooksOk;
    StepShape(s, op, g);
    assert GroupOk(s.books, g, s.groups[g]);
    var grp, next := s.groups[g], Step(s, op).groups[g];
    if next != grp {
      match op
      case Sync(_, today) =>
        SyncKeepsGroupOk(s.cfg, s.books, g, grp, today);
        if grp.status == Active && !CurrentlyPaid(grp, j) {
          SyncKeepsUnpaidDefault(s.cfg, s.books, g, grp, 0, today, j);
        }
      case Finalize(_, k) => FinalizeKeepsDefault(s.cfg, s.books, s.groups, g, k, j);
      case Pay(_, k, i, ref) => PaymentShape(s.cfg, s.books, g, grp, k, i, RefSeen(s, ref));
      case _ =>
    }
  }
}
