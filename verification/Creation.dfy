/**
 * What creating, joining, activating and adjusting a group do: exactly when each is accepted, read off the
 * request and the rows, and everything it changes.
 */
module Creation {
  import opened Wrappers
  import opened Accounts
  import opened Sums
  import opened Ledger
  import opened Calculations
  import opened Preview
  import opened Rows
  import opened Engine
  import opened Accounting
  import opened RowInvariants
  import opened Protocol

  // ---- Create ------------------------------------------------------------------------------------

  /** The days of a cycle that the admin asked for, if they make sense. */
  predicate AsksForDays(input: PreviewInput, days: int) {
    if input.mode == Daily then days == 1 else input.days == Some(days) && 1 <= days <= 366
  }

  /** What was asked for is what is stored; without a chosen margin it is 10 percent, or 5 for small pools. */
  predicate AsksForMargin(input: PreviewInput, gross: int, bps: int) {
    if input.marginBps.Some? then input.marginBps == Some(bps) && MayCharge(bps, gross)
    else bps == if gross >= 100100 then 1000 else 500
  }

  /** The request can be met with these days and this margin. */
  predicate Asks(input: PreviewInput, days: int, bps: int) {
    && input.contribution >= 1 && 5 <= input.groupSize <= 250 && AsksForDays(input, days)
    && AsksForMargin(input, input.contribution * input.groupSize * days, bps)
  }

  lemma PreviewKeepsRequest(input: PreviewInput)
    ensures PreviewOf(input).Ok? ==> Asks(input, PreviewOf(input).value.days, PreviewOf(input).value.marginBps)
    ensures forall days, bps :: Asks(input, days, bps) ==>
      PreviewOf(input).Ok? && PreviewOf(input).value.days == days && PreviewOf(input).value.marginBps == bps
  {
    forall days, bps | Asks(input, days, bps) || (PreviewOf(input).Ok? && PreviewOf(input).value.days == days)
      ensures input.contribution * input.groupSize * days >= 0
    {
      ProductBound(input.contribution, 0, input.groupSize);
      ProductBound(input.contribution * input.groupSize, 0, days);
    }
    forall days: int | input.contribution * input.groupSize * days >= 0
      ensures var gross := input.contribution * input.groupSize * days;
        forall bps :: AcceptedMargin(gross, input.marginBps) == Ok(bps) <==> AsksForMargin(input, gross, bps)
    {
      var gross := input.contribution * input.groupSize * days;
      forall bps ensures AcceptedMargin(gross, input.marginBps) == Ok(bps) <==> AsksForMargin(input, gross, bps) {
        TierLimits(bps, gross);
        if input.marginBps.Some? { TierLimits(input.marginBps.value, gross); }
        TierLimits(if gross >= 100100 then 1000 else 500, gross);
      }
    }
  }

  /** A group is created exactly when the request can be met, as a draft with exactly the terms asked for. */
  lemma CreatesWhatWasAsked(s: Sys, input: PreviewInput)
    ensures CreateStep(s, input).Ok? <==> exists days, bps :: Asks(input, days, bps)
    ensures forall days, bps :: Asks(input, days, bps) ==>
      && days >= 1 && input.groupSize >= 5
      && CreateStep(s, input) == Ok(s.(groups := s.groups + [
           Group(Terms(input.contribution, input.groupSize, input.mode, days, bps, input.startDay),
                 Draft, 1, 2, false, [], [], [], [], [], [], [])]))
  {
    PreviewKeepsRequest(input);
    if PreviewOf(input).Ok? { assert Asks(input, PreviewOf(input).value.days, PreviewOf(input).value.marginBps); }
  }

  // ---- Join --------------------------------------------------------------------------------------

  /** Somewhere the user is defaulted in a running group and still owes days of its current cycle. */
  ghost predicate OwesInDefault(s: Sys, user: nat) {
    exists h: nat, i: nat :: h < |s.groups| && s.groups[h].status == Active && i < |s.groups[h].members|
      && OwesAsDefaulted(s.groups[h], i, user)
  }

  ghost predicate OwesAsDefaulted(grp: Group, i: nat, user: nat) {
    && i < |grp.members| && grp.members[i].user == user && grp.members[i].standing == Defaulted
    && 1 <= grp.currentCycle <= |grp.cycles| && i < |grp.cycles[grp.currentCycle - 1]|
    && grp.cycles[grp.currentCycle - 1][i].paidDays < MemberCyclePaymentDays(grp.terms)
  }

  lemma OwesAsUnresolved(b: Books, h: nat, grp: Group, user: nat)
    requires GroupOk(b, h, grp)
    ensures UnresolvedIn(grp, user) <==> grp.status == Active && exists i: nat :: OwesAsDefaulted(grp, i, user)
  {
    if grp.status == Active {
      var row := grp.cycles[grp.currentCycle - 1];
      assert CycleRowOk(grp.terms, |grp.members|, row);
      forall i: nat | i < |grp.members|
        ensures grp.members[i].user == user && grp.members[i].standing == Defaulted
            && !(HasContribution(grp, grp.currentCycle, i) && ContributionAt(grp, grp.currentCycle, i).status == Paid)
          <==> OwesAsDefaulted(grp, i, user)
      {
        assert ContributionOk(grp.terms, row[i]);
      }
    }
  }

  lemma UnresolvedByRows(s: Sys, user: nat)
    requires SysOk(s)
    ensures HasUnresolvedDefault(s.groups, user) <==> OwesInDefault(s, user)
  {
    hide GroupOk, UnresolvedIn, OwesAsDefaulted;
    forall h: nat | h < |s.groups|
      ensures UnresolvedIn(s.groups[h], user) <==>
        s.groups[h].status == Active && exists i: nat :: OwesAsDefaulted(s.groups[h], i, user)
    {
      OwesAsUnresolved(s.books, h, s.groups[h], user);
    }
    if HasUnresolvedDefault(s.groups, user) {
      var h: nat :| h < |s.groups| && UnresolvedIn(s.groups[h], user);
      var i: nat :| OwesAsDefaulted(s.groups[h], i, user);
      InRange(s.groups[h], i, user);
    }
  }

  lemma InRange(grp: Group, i: nat, user: nat)
    requires OwesAsDefaulted(grp, i, user)
    ensures i < |grp.members|
  {
  }

  /** The deposit that joining takes: one whole cycle in CYCLE mode, nothing in DAILY mode. */
  function DepositOf(t: Terms): int { if t.mode == Cycle then t.perDay * t.days else 0 }

  function JoinedRow(grp: Group, user: nat): Member {
    var n := |grp.members|;
    Member(user, n + 1, n + 1, Good, DepositOf(grp.terms), if grp.terms.mode == Cycle then Held else NotRequired)
  }

  /** Taking a deposit from outside is never refused under a fresh key. */
  lemma DepositAccepted(b: Books, key: Key, user: nat, amount: int)
    requires BooksOk(b) && key !in b.keys && amount > 0
    ensures Transfer(b, key, SystemExternal, Escrow(user), amount).Posted?
  {
    var lines := TransferLines(SystemExternal, Escrow(user), amount);
    assert lines[..1] == [lines[0]] && [lines[0]][..0] == [];
    assert SumOf(lines[..1], DeltaOf()) == -amount;
    assert Settle(b.balances, lines[..1]) == Credit(b.balances, lines[0]);
    assert Balance(b.balances, Escrow(user)) >= 0;
    assert FirstFault(b.balances, lines[..1]).None?;
  }

  lemma JoinTxExactly(b: Books, g: nat, grp: Group, user: nat)
    requires GroupOk(b, g, grp) && BooksOk(b)
    ensures JoinTx(b, g, grp, user).Ok? <==>
      grp.status == Draft && |grp.members| < grp.terms.slots && !IsMember(grp, user)
    ensures JoinTx(b, g, grp, user).Ok? ==>
      var l := JoinTx(b, g, grp, user).value;
      && l.grp.members == grp.members + [JoinedRow(grp, user)]
      && l.grp == grp.(members := l.grp.members, payments := l.grp.payments)
      && forall a :: Balance(l.books.balances, a)
           == Balance(b.balances, a) + Moved(SystemExternal, Escrow(user), DepositOf(grp.terms), a)
  {
    TermsFacts(grp.terms);
    TurnsCount(grp.members);
    var key, amount := DepositHold(g, |grp.members|), DepositRequiredAmount(grp.terms);
    assert amount == DepositOf(grp.terms);
    if grp.status == Draft && |grp.members| < grp.terms.slots && !IsMember(grp, user) && amount > 0 {
      assert !Spent(grp, key) && OwnerOf(key) == Some(g);
      DepositAccepted(b, key, user, amount);
      forall a ensures Balance(Transfer(b, key, SystemExternal, Escrow(user), amount).books.balances, a)
          == Balance(b.balances, a) + Moved(SystemExternal, Escrow(user), amount, a)
      {
        TransferMoves(b, key, SystemExternal, Escrow(user), amount, a);
      }
    }
  }

  /**
   * A user joins exactly a draft with a free slot that does not list the user, unless the user owes in
   * default elsewhere; the row is the last of the queue, in good standing, and the deposit in escrow.
   */
  lemma JoinsExactly(s: Sys, g: nat, user: nat)
    requires SysOk(s)
    ensures JoinStep(s, g, user).Ok? <==>
      && g < |s.groups| && s.groups[g].status == Draft && |s.groups[g].members| < s.groups[g].terms.slots
      && (forall i :: 0 <= i < |s.groups[g].members| ==> s.groups[g].members[i].user != user)
      && !OwesInDefault(s, user)
    ensures JoinStep(s, g, user).Ok? ==>
      var grp, next := s.groups[g], JoinStep(s, g, user).value;
      && |next.groups| == |s.groups| && next.groups[g].members == grp.members + [JoinedRow(grp, user)]
      && next.groups == s.groups[g := grp.(members := next.groups[g].members, payments := next.groups[g].payments)]
      && next.cfg == s.cfg && next.refs == s.refs
      && forall a :: Balance(next.books.balances, a)
           == Balance(s.books.balances, a) + Moved(SystemExternal, Escrow(user), DepositOf(grp.terms), a)
  {
    hide JoinTx, BooksOk, OwesInDefault, HasUnresolvedDefault, KeysSpent, Reconciled, Balance, JoinedRow;
    UnresolvedByRows(s, user);
    if g < |s.groups| {
      assert GroupOk(s.books, g, s.groups[g]);
      JoinTxExactly(s.books, g, s.groups[g], user);
    }
  }

  // ---- Activate, risk settings -------------------------------------------------------------------

  /** A full draft is opened, and only that: cycle 1, with one wholly unpaid contribution a member. */
  lemma ActivatesExactly(s: Sys, g: nat)
    requires SysOk(s)
    ensures ActivateStep(s, g).Ok? <==>
      g < |s.groups| && s.groups[g].status == Draft && |s.groups[g].members| == s.groups[g].terms.slots
    ensures ActivateStep(s, g).Ok? ==>
      var grp, next := s.groups[g], ActivateStep(s, g).value;
      && |next.groups| == |s.groups| && |next.groups[g].cycles| == 1 && |next.groups[g].cycles[0]| == |grp.members|
      && next == s.(groups := s.groups[g := grp.(status := Active, currentCycle := 1,
                                                 cycles := next.groups[g].cycles)])
      && forall i :: 0 <= i < |grp.members| ==>
           next.groups[g].cycles[0][i]
             == Contribution(grp.terms.perDay * grp.terms.days, MemberCyclePaymentDays(grp.terms), 0, Pending)
  {
    hide BooksOk, KeysSpent, Reconciled;
    if g < |s.groups| {
      assert GroupOk(s.books, g, s.groups[g]);
      TermsFacts(s.groups[g].terms);
    }
  }

  /** Settings change until completion, to what was asked and nothing else, with 0 to 30 grace days. */
  lemma SetsRiskExactly(s: Sys, g: nat, payoutOverride: Option<bool>, graceDays: Option<int>)
    ensures SetRiskStep(s, g, payoutOverride, graceDays).Ok? <==>
      && g < |s.groups| && s.groups[g].status != Completed
      && (graceDays.Some? ==> 0 <= graceDays.value <= 30)
    ensures SetRiskStep(s, g, payoutOverride, graceDays).Ok? ==>
      var grp, next := s.groups[g], SetRiskStep(s, g, payoutOverride, graceDays).value;
      && |next.groups| == |s.groups|
      && next == s.(groups := s.groups[g := grp.(payoutOverride := next.groups[g].payoutOverride,
                                                 graceDays := next.groups[g].graceDays)])
      && (payoutOverride.Some? ==> next.groups[g].payoutOverride == payoutOverride.value)
      && (payoutOverride.None? ==> next.groups[g].payoutOverride == grp.payoutOverride)
      && (graceDays.Some? ==> next.groups[g].graceDays == graceDays.value)
      && (graceDays.None? ==> next.groups[g].graceDays == grp.graceDays)
  {
  }
}
