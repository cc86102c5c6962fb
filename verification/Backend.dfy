/**
 * The services as they run: rows and ledger are updated in place, step by step, and a failing
 * transaction is rolled back. Every method is proved against the specification of its transaction.
 */
module Backend {
  import opened Wrappers
  import opened Accounts
  import opened Ledger
  import opened Faults
  import opened Calculations
  import opened Preview
  import opened ReserveMath
  import opened Rows
  import opened PayoutQueue
  import opened Engine
  import opened Protocol

  /**
   * The outcome `r` of a transaction on group `g` was carried out: ledger and group row are as it
   * says and the other groups as before, or its fault was reported.
   */
  ghost predicate Did(before: seq<Group>, now: seq<Group>, books: Books, g: nat, r: Result<Local, Fault>,
      fault: Option<Fault>) {
    match r
    case Err(e) => fault == Some(e)
    case Ok(l) => fault.None? && g < |before| && now == before[g := l.grp] && books == l.books
  }

  class SusuBackend {
    const cfg: ReserveConfig
    const ledger: LedgerService
    var groups: seq<Group>
    var refs: set<nat>

    constructor (cfg: ReserveConfig)
      ensures State() == Init(cfg) && fresh(ledger)
    {
      this.cfg := cfg;
      ledger := new LedgerService();
      groups, refs := [], {};
    }

    ghost function State(): Sys
      reads this, ledger
    {
      Sys(cfg, ledger.View(), groups, refs)
    }

    /** A transfer whose duplicate flag the caller ignores. */
    method MustTransfer(key: Key, from: Account, to: Account, amount: int) returns (fault: Option<Fault>)
      modifies ledger
      ensures match MustPost(old(ledger.View()), Transfer(old(ledger.View()), key, from, to, amount))
        case Ok(b) => fault.None? && ledger.View() == b
        case Err(e) => fault == Some(e) && ledger.View() == old(ledger.View())
    {
      var receipt := ledger.PostTransfer(key, from, to, amount);
      fault := if receipt.Refused? then Some(LedgerRefused(receipt.error)) else None;
    }

    // ---- Groups ------------------------------------------------------------------------------------------------

    method Create(input: PreviewInput) returns (fault: Option<Fault>)
      modifies this`groups
      ensures match CreateStep(old(State()), input)
        case Ok(s) => fault.None? && State() == s
        case Err(e) => fault == Some(e) && State() == old(State())
    {
      var preview := ComputeGroupFinancePreview(input);
      if preview.Err? {
        return Some(preview.error);
      }
      groups := groups + [NewGroup(input, preview.value)];
      return None;
    }

    /** Checks, then the membership transaction: the row first, the deposit, the row again. */
    method JoinWithInvite(g: nat, user: nat) returns (fault: Option<Fault>)
      modifies this`groups, ledger
      ensures match JoinStep(old(State()), g, user)
        case Ok(s) => fault.None? && State() == s
        case Err(e) => fault == Some(e) && State() == old(State())
    {
      if g >= |groups| {
        return Some(GroupNotFound);
      }
      var grp := groups[g];
      if !AcceptsNewMembers(grp) {
        return Some(GroupClosedToMembers);
      }
      if IsMember(grp, user) {
        return Some(AlreadyMember);
      }
      if HasUnresolvedDefault(groups, user) {
        return Some(UnresolvedDefault);
      }
      var savedGroups := groups;
      var i, turn := |grp.members|, MaxTurnOrder(grp.members) + 1;
      var m := Member(user, turn, turn, Good, 0, NotRequired);
      groups := groups[g := grp.(members := grp.members + [m])];
      var amount := DepositRequiredAmount(grp.terms);
      if amount <= 0 {
        return None;
      }
      fault := MustTransfer(DepositHold(g, i), SystemExternal, Escrow(user), amount);
      if fault.Some? {
        groups := savedGroups;
        return;
      }
      m := m.(depositAmount := amount, deposit := Held);
      groups := groups[g := grp.(members := grp.members + [m], payments := grp.payments + [Payment(user, amount)])];
    }

    method NewCycleRows(t: Terms, n: nat) returns (rows: seq<Contribution>)
      ensures rows == OpenCycle(t, n)
    {
      rows := [];
      for i := 0 to n
        invariant rows == OpenCycle(t, i)
      {
        rows := rows + [NewContribution(t)];
      }
    }

    method ActivateGroup(g: nat) returns (fault: Option<Fault>)
      modifies this`groups
      ensures match ActivateStep(old(State()), g)
        case Ok(s) => fault.None? && State() == s
        case Err(e) => fault == Some(e) && State() == old(State())
    {
      if g >= |groups| {
        return Some(GroupNotFound);
      }
      var grp := groups[g];
      if |grp.members| != grp.terms.slots {
        return Some(SlotsNotFilled);
      }
      if grp.status != Draft {
        return Some(NotDraft);
      }
      var rows := NewCycleRows(grp.terms, |grp.members|);
      groups := groups[g := grp.(status := Active, currentCycle := 1, cycles := [rows])];
      return None;
    }

    /** Override and grace days, each only if given. */
    method UpdateCycleRiskSettings(g: nat, payoutOverride: Option<bool>, graceDays: Option<int>)
      returns (fault: Option<Fault>)
      modifies this`groups
      ensures match SetRiskStep(old(State()), g, payoutOverride, graceDays)
        case Ok(s) => fault.None? && State() == s
        case Err(e) => fault == Some(e) && State() == old(State())
    {
      if g >= |groups| {
        return Some(GroupNotFound);
      }
      var grp := groups[g];
      if grp.status != Active && grp.status != Draft {
        return Some(NotActive);
      }
      if graceDays.Some? && (graceDays.value < 0 || graceDays.value > 30) {
        return Some(InvalidGrace);
      }
      if payoutOverride.Some? {
        grp := grp.(payoutOverride := payoutOverride.value);
      }
      if graceDays.Some? {
        grp := grp.(graceDays := graceDays.value);
      }
      groups := groups[g := grp];
      return None;
    }

    // ---- Payments ------------------------------------------------------------------------------------------------

    method TryReleaseOnPaymentSettled(g: nat, k: nat, i: nat, day: nat) returns (fault: Option<Fault>)
      requires g < |groups| && i < |groups[g].members|
      modifies this`groups, ledger
      ensures Did(old(groups), groups, ledger.View(), g,
                  ReleaseUnit(cfg, old(ledger.View()), g, old(groups[g]), k, i, day), fault)
    {
      if !cfg.enabled {
        return None;
      }
      var grp := groups[g];
      var user := grp.members[i].user;
      var found := FirstOpen(grp.reserves, user);
      if found.None? {
        return None;
      }
      var row := grp.reserves[found.value];
      if k <= row.cycle || row.remaining <= 0 || row.unitsReleased >= row.units {
        return None;
      }
      var amount := NextReserveReleaseMinor(row.original, row.remaining, row.units, row.unitsReleased);
      if amount <= 0 {
        return None;
      }
      var key := UnitRelease(g, found.value, k, i, day);
      var receipt := ledger.PostTransfer(key, Reserved(user), Available(user), amount);
      if receipt.Refused? {
        return Some(LedgerRefused(receipt.error));
      }
      if receipt.AlreadyRecorded? {
        return None;
      }
      var left := row.remaining - amount;
      var fully := left <= 0 || row.unitsReleased + 1 >= row.units;
      row := row.(remaining := if left > 0 then left else 0, released := row.released + amount,
                  unitsReleased := row.unitsReleased + 1, status := if fully then Closed else Open);
      groups := groups[g := grp.(reserves := grp.reserves[found.value := row])];
      return None;
    }

    /** Records and posts the payment of an already counted day, then releases a unit. */
    method CollectDay(g: nat, k: nat, i: nat, day: nat) returns (fault: Option<Fault>)
      requires g < |groups| && i < |groups[g].members|
      modifies this`groups, ledger
      ensures var grp := old(groups[g]);
        var paid := grp.(payments := grp.payments + [Payment(grp.members[i].user, grp.terms.perDay)]);
        match MustPost(old(ledger.View()),
                       Post(old(ledger.View()), Inflow(g, k, i, day), InflowLines(g, grp.terms.perDay)))
        case Err(e) => fault == Some(e)
        case Ok(b) => Did(old(groups), groups, ledger.View(), g, ReleaseUnit(cfg, b, g, paid, k, i, day), fault)
    {
      var grp := groups[g];
      groups := groups[g := grp.(payments := grp.payments + [Payment(grp.members[i].user, grp.terms.perDay)])];
      var receipt := ledger.PostJournal(Inflow(g, k, i, day), InflowLines(g, grp.terms.perDay));
      if receipt.Refused? {
        return Some(LedgerRefused(receipt.error));
      }
      fault := TryReleaseOnPaymentSettled(g, k, i, day);
    }

    /** The day counter and status of one contribution. */
    method CountDay(g: nat, k: nat, i: nat) returns (day: nat)
      requires g < |groups| && HasContribution(groups[g], k, i)
      modifies this`groups
      ensures day == ContributionAt(old(groups[g]), k, i).paidDays + 1
      ensures groups == old(groups)[g := Counted(old(groups[g]), k, i)]
    {
      var c := ContributionAt(groups[g], k, i);
      day := c.paidDays + 1;
      c := c.(paidDays := day, status := if day >= c.expectedDays then Paid else Pending);
      groups := groups[g := WithContribution(groups[g], k, i, c)];
    }

    /** One transaction: count the day, stop if the reference was seen, otherwise collect; all or nothing. */
    method RecordContributionSettlement(g: nat, k: nat, i: nat, ref: Option<nat>)
      returns (fault: Option<Fault>, duplicate: bool)
      modifies this`groups, this`refs, ledger
      ensures match PayStep(old(State()), g, k, i, ref)
        case Ok(s) => fault.None? && State() == s && duplicate == RefSeen(old(State()), ref)
        case Err(e) => fault == Some(e) && State() == old(State())
    {
      hide ReleaseUnit, InflowLines, Post;
      duplicate := false;
      if g >= |groups| {
        return Some(ContributionNotFound), false;
      }
      var refused := PaymentFault(groups[g], k, i);
      if refused.Some? {
        return refused, false;
      }
      var savedGroups := groups;
      var savedBooks := ledger.Snapshot();
      var day := CountDay(g, k, i);
      if ref.Some? && ref.value in refs {
        assert refs + {ref.value} == refs;
        return None, true;
      }
      fault := CollectDay(g, k, i, day);
      if fault.Some? {
        groups := savedGroups;
        ledger.Rollback(savedBooks);
        return;
      }
      refs := refs + if ref.Some? then {ref.value} else {};
    }

    // ---- Defaults ------------------------------------------------------------------------------------------------

    method ForfeitDepositForDefaulted(g: nat, i: nat) returns (fault: Option<Fault>)
      requires g < |groups| && i < |groups[g].members|
      modifies this`groups, ledger
      ensures Did(old(groups), groups, ledger.View(), g,
                  ForfeitTx(old(ledger.View()), g, old(groups[g]), i), fault)
    {
      var grp := groups[g];
      var m := grp.members[i];
      if m.deposit != Held {
        return None;
      }
      if m.depositAmount > 0 {
        fault := MustTransfer(DepositForfeit(g, i), Escrow(m.user), GroupPool(g), m.depositAmount);
        if fault.Some? {
          return;
        }
      }
      groups := groups[g := WithMember(grp, i, m.(deposit := Forfeited))];
      return None;
    }

    method CoverDefaultFromReserve(g: nat, k: nat, i: nat) returns (fault: Option<Fault>)
      requires g < |groups| && i < |groups[g].members|
      modifies this`groups, ledger
      ensures Did(old(groups), groups, ledger.View(), g,
                  CoverTx(cfg, old(ledger.View()), g, old(groups[g]), k, i), fault)
    {
      var grp := groups[g];
      var user := grp.members[i].user;
      if !cfg.enabled || !HasContribution(grp, k, i) || ContributionAt(grp, k, i).status == Paid {
        return None;
      }
      var c := ContributionAt(grp, k, i);
      var missed := MissedContributionMinor(c.amount, c.expectedDays, c.paidDays);
      if missed <= 0 {
        return None;
      }
      var found := FirstOpen(grp.reserves, user);
      if found.None? || CoverExists(grp, found.value, k, user) {
        return None;
      }
      var row := grp.reserves[found.value];
      if row.remaining <= 0 {
        return None;
      }
      var amount := if missed < row.remaining then missed else row.remaining;
      var receipt := ledger.PostTransfer(DefaultCover(g, found.value, k, i), Reserved(user), GroupPool(g), amount);
      if receipt.Refused? {
        return Some(LedgerRefused(receipt.error));
      }
      if receipt.AlreadyRecorded? {
        return None;
      }
      grp := WithReserve(grp, found.value, AfterCover(row, amount));
      grp := grp.(covers := grp.covers + [Coverage(user, k, found.value, amount, missed)]);
      if amount >= missed {
        grp := WithContribution(grp, k, i, c.(status := Paid, paidDays := c.expectedDays));
      }
      groups := groups[g := grp];
      return None;
    }

    method LastPlace(members: seq<Member>) returns (most: nat)
      ensures most == MaxPayoutOrder(members)
    {
      most := 0;
      for i := 0 to |members|
        invariant most == MaxPayoutOrder(members[..i])
      {
        assert members[..i + 1][..i] == members[..i];
        if members[i].payoutOrder > most {
          most := members[i].payoutOrder;
        }
      }
      assert members[..|members|] == members;
    }

    /** Marks the member, forfeits the deposit, then covers from the reserve or dequeues; all or nothing. */
    method OnMemberNewlyDefaulted(g: nat, i: nat) returns (fault: Option<Fault>)
      requires g < |groups| && i < |groups[g].members|
      modifies this`groups, ledger
      ensures Did(old(groups), groups, ledger.View(), g,
                  DefaultTx(cfg, old(ledger.View()), g, old(groups[g]), i), fault)
      ensures fault.Some? ==> groups == old(groups) && ledger.View() == old(ledger.View())
    {
      var savedGroups := groups;
      var savedBooks := ledger.Snapshot();
      var user := groups[g].members[i].user;
      groups := groups[g := WithStanding(groups[g], i, Defaulted)];
      fault := ForfeitDepositForDefaulted(g, i);
      if fault.None? {
        var grp := groups[g];
        if HasReceivedPayout(grp, user) {
          fault := CoverDefaultFromReserve(g, grp.currentCycle, i);
        } else {
          var most := LastPlace(grp.members);
          groups := groups[g := WithMember(grp, i, grp.members[i].(payoutOrder := most + 1))];
        }
      }
      if fault.Some? {
        groups := savedGroups;
        ledger.Rollback(savedBooks);
      }
    }

    // ---- Compliance ------------------------------------------------------------------------------------------------

    method SyncOneMember(g: nat, i: nat, today: int) returns (fault: Option<Fault>)
      requires g < |groups| && i < |groups[g].members|
      modifies this`groups, ledger
      ensures Did(old(groups), groups, ledger.View(), g,
                  SyncMember(cfg, old(ledger.View()), g, old(groups[g]), i, today), fault)
      ensures fault.Some? ==> groups == old(groups) && ledger.View() == old(ledger.View())
    {
      var grp := groups[g];
      var now := grp.members[i].standing;
      var next := now;
      if HasContribution(grp, grp.currentCycle, i) {
        var c := ContributionAt(grp, grp.currentCycle, i);
        if c.status == Paid {
          next := Good;
        } else {
          var earned := Assess(grp, c, today);
          if earned == Defaulted && now != Defaulted {
            fault := OnMemberNewlyDefaulted(g, i);
            return;
          }
          if now != Defaulted {
            next := earned;
          }
        }
      }
      groups := groups[g := WithStanding(grp, i, next)];
      return None;
    }

    /** Walks the members in turn; what was done before a failing member stays. */
    method SyncGroupCompliance(g: nat, today: int) returns (fault: Option<Fault>)
      modifies this`groups, ledger
      ensures State() == SyncStep(old(State()), g, today)
      ensures fault ==
        if g < |old(groups)| then SyncGroup(cfg, old(ledger.View()), g, old(groups[g]), today).fault else None
    {
      if g >= |groups| || groups[g].status != Active {
        if g < |groups| { assert groups[g := groups[g]] == groups; }
        return None;
      }
      if groups[g].terms.mode == Daily {
        groups := groups[g := groups[g].(members := EveryoneGood(groups[g].members))];
        return None;
      }
      ghost var books, grp := ledger.View(), groups[g];
      var n := |groups[g].members|;
      for i := 0 to n
        invariant |groups| == |old(groups)| && |groups[g].members| == n
        invariant groups == old(groups)[g := groups[g]]
        invariant SyncFrom(cfg, ledger.View(), g, groups[g], i, today) == SyncFrom(cfg, books, g, grp, 0, today)
      {
        SyncMemberKeepsRoster(cfg, ledger.View(), g, groups[g], i, today);
        fault := SyncOneMember(g, i, today);
        if fault.Some? {
          return;
        }
      }
      return None;
    }

    /** A payment as the API takes it: settle, then look at the group's compliance unless it was a duplicate. */
    method RecordContributionPayment(g: nat, k: nat, i: nat, ref: Option<nat>, today: int)
      returns (fault: Option<Fault>, duplicate: bool)
      modifies this`groups, this`refs, ledger
      ensures match PayStep(old(State()), g, k, i, ref)
        case Err(e) => fault == Some(e) && State() == old(State())
        case Ok(s) =>
          && duplicate == RefSeen(old(State()), ref)
          && (duplicate ==> fault.None? && State() == s)
          && (!duplicate && g < |s.groups| ==>
                State() == SyncStep(s, g, today) && fault == SyncGroup(cfg, s.books, g, s.groups[g], today).fault)
    {
      fault, duplicate := RecordContributionSettlement(g, k, i, ref);
      if fault.None? && !duplicate {
        fault := SyncGroupCompliance(g, today);
      }
    }

    // ---- Finalization -----------------------------------------------------------------------------------------------

    method AllocateCycle(g: nat, k: nat) returns (fault: Option<Fault>)
      requires g < |groups|
      modifies this`groups, ledger
      ensures Did(old(groups), groups, ledger.View(), g,
                  AllocateTx(cfg, old(ledger.View()), g, old(groups[g]), k), fault)
    {
      var grp := groups[g];
      var refused := FinalizeFault(grp, k);
      if refused.Some? {
        return refused;
      }
      var n, days := |grp.members|, MemberCyclePaymentDays(grp.terms);
      var summary := SummarizeCycle(grp.terms.perDay, n, grp.terms.marginBps, days);
      if summary.Err? {
        return Some(summary.error);
      }
      var selection := SelectRecipient(grp.members, k, grp.payoutOverride);
      if selection.recipient.None? {
        return Some(NoEligibleRecipient);
      }
      SelectionIsEligible(grp.members, k, grp.payoutOverride);
      SkippedAreMembers(grp.members, k, grp.payoutOverride);
      var user := grp.members[selection.recipient.value].user;
      var split := ComputeSplit(cfg, summary.value.netAfterMargin, k, n, days);
      if split.Err? {
        return Some(split.error);
      }
      fault := PayOutCycle(g, k, user, UsersAt(grp.members, selection.skipped), summary.value, split.value);
    }

    /** The allocation journal of one cycle and the rows that go with it. */
    method PayOutCycle(g: nat, k: nat, user: nat, skipped: seq<nat>, summary: CycleSummary, split: Split)
      returns (fault: Option<Fault>)
      requires g < |groups|
      modifies this`groups, ledger
      ensures Did(old(groups), groups, ledger.View(), g,
                  PayOutTx(old(ledger.View()), g, old(groups[g]), k, user, skipped, summary, split), fault)
    {
      var receipt := ledger.PostJournal(Allocation(g, k), AllocationLines(g, user, summary, split));
      if receipt.Refused? {
        return Some(LedgerRefused(receipt.error));
      }
      RecordFinalization(g, k, user, skipped, summary, split);
      return None;
    }

    /** The rows a finalization writes: payout, earning and reserve, then the next cycle or completion. */
    method RecordFinalization(g: nat, k: nat, user: nat, skipped: seq<nat>, summary: CycleSummary, split: Split)
      requires g < |groups|
      modifies this`groups
      ensures groups == old(groups)[g := FinalizeRows(old(groups[g]), k, user, skipped, summary, split)]
    {
      var grp := groups[g];
      grp := grp.(
        payouts := grp.payouts + [Payout(user, k, summary.netAfterMargin, skipped)],
        earnings := grp.earnings + [Earning(k, summary.serviceMargin, 0, summary.serviceMargin)],
        reserves := grp.reserves + NewReserve(user, k, split));
      if k < grp.terms.slots {
        var rows := NewCycleRows(grp.terms, |grp.members|);
        grp := grp.(currentCycle := k + 1, cycles := grp.cycles + [rows]);
        if grp.terms.mode == Cycle {
          grp := grp.(members := LateForgiven(grp.members));
        }
      } else {
        grp := grp.(status := Completed);
      }
      groups := groups[g := grp];
    }

    method ReleaseHeldDeposits(g: nat) returns (fault: Option<Fault>)
      requires g < |groups|
      modifies this`groups, ledger
      ensures Did(old(groups), groups, ledger.View(), g,
                  ReturnDepositsFrom(old(ledger.View()), g, old(groups[g]), 0), fault)
    {
      ghost var books, start := ledger.View(), groups[g];
      assert groups[g := groups[g]] == groups;
      var n := |groups[g].members|;
      for i := 0 to n
        invariant |groups| == |old(groups)| && |groups[g].members| == n
        invariant groups == old(groups)[g := groups[g]]
        invariant ReturnDepositsFrom(ledger.View(), g, groups[g], i) == ReturnDepositsFrom(books, g, start, 0)
      {
        var m := groups[g].members[i];
        if m.deposit == Held && m.depositAmount > 0 && m.standing != Defaulted {
          fault := MustTransfer(DepositRelease(g, i), Escrow(m.user), Available(m.user), m.depositAmount);
          if fault.Some? {
            return;
          }
          groups := groups[g := WithMember(groups[g], i, m.(deposit := Returned))];
        }
      }
      return None;
    }

    method ReleaseFinalReserves(g: nat) returns (fault: Option<Fault>)
      requires g < |groups|
      modifies this`groups, ledger
      ensures Did(old(groups), groups, ledger.View(), g,
                  CloseReservesFrom(old(ledger.View()), g, old(groups[g]), 0), fault)
    {
      ghost var books, start := ledger.View(), groups[g];
      assert groups[g := groups[g]] == groups;
      var n := |groups[g].reserves|;
      for r := 0 to n
        invariant |groups| == |old(groups)| && |groups[g].reserves| == n
        invariant groups == old(groups)[g := groups[g]]
        invariant CloseReservesFrom(ledger.View(), g, groups[g], r) == CloseReservesFrom(books, g, start, 0)
      {
        var row := groups[g].reserves[r];
        if row.status == Open {
          var amount := 0;
          if row.remaining > 0 {
            amount := row.remaining;
            fault := MustTransfer(FinalRelease(g, r), Reserved(row.user), Available(row.user), amount);
            if fault.Some? {
              return;
            }
          }
          row := row.(remaining := 0, unitsReleased := row.units, status := Closed, released := row.released + amount);
          groups := groups[g := WithReserve(groups[g], r, row)];
        }
      }
      return None;
    }

    method UsersToSweep(reserves: seq<Reserve>) returns (users: seq<nat>)
      ensures users == OpenUsers(reserves)
    {
      users := [];
      for r := 0 to |reserves|
        invariant users == OpenUsers(reserves[..r])
      {
        assert reserves[..r + 1][..r] == reserves[..r];
        if reserves[r].status == Open && reserves[r].user !in users {
          users := users + [reserves[r].user];
        }
      }
      assert reserves[..|reserves|] == reserves;
    }

    method SweepOrphanedBalances(users: seq<nat>) returns (fault: Option<Fault>)
      modifies ledger
      ensures match SweepAll(old(ledger.View()), groups, users)
        case Ok(b) => fault.None? && ledger.View() == b
        case Err(e) => fault == Some(e)
    {
      ghost var books := ledger.View();
      assert users[0..] == users;
      for p := 0 to |users|
        invariant SweepAll(ledger.View(), groups, users[p..]) == SweepAll(books, groups, users)
      {
        var user := users[p];
        assert users[p..][1..] == users[p + 1..];
        var stray := Balance(ledger.balances, Reserved(user));
        if !HasOpenReserve(groups, user) && stray > 0 {
          fault := MustTransfer(OrphanSweep(user), Reserved(user), Available(user), stray);
          if fault.Some? {
            return;
          }
        }
      }
      return None;
    }

    /** Deposits, then reserves, then stray reserved balances of the users whose reserves were open. */
    method CompleteGroup(g: nat) returns (fault: Option<Fault>)
      requires g < |groups|
      modifies this`groups, ledger
      ensures Did(old(groups), groups, ledger.View(), g,
                  CompleteTx(old(ledger.View()), old(groups), g, old(groups[g])), fault)
    {
      fault := ReleaseHeldDeposits(g);
      if fault.Some? {
        return;
      }
      var users := UsersToSweep(groups[g].reserves);
      fault := ReleaseFinalReserves(g);
      if fault.Some? {
        return;
      }
      assert groups == old(groups)[g := groups[g]];
      fault := SweepOrphanedBalances(users);
    }

    /** The finalization transaction: everything or nothing. */
    method FinalizeTransaction(g: nat, k: nat) returns (fault: Option<Fault>)
      modifies this`groups, ledger
      ensures match FinalizeStep(old(State()), g, k)
        case Ok(s) => fault.None? && State() == s
        case Err(e) => fault == Some(e) && State() == old(State())
    {
      hide AllocateTx, CompleteTx;
      if g >= |groups| {
        return Some(GroupNotFound);
      }
      var savedGroups := groups;
      var savedBooks := ledger.Snapshot();
      fault := AllocateCycle(g, k);
      if fault.None? && groups[g].status == Completed {
        SameCompletion(ledger.View(), savedGroups, g, groups[g]);
        fault := CompleteGroup(g);
      }
      if fault.Some? {
        groups := savedGroups;
        ledger.Rollback(savedBooks);
      }
    }

    /**
     * Syncs compliance, looks for an eligible recipient, then finalizes. A failing sync is reported and
     * ends it; after that the finalization is carried out whenever its transaction can be, and a refused
     * one leaves what the sync did. The source names a missing recipient before any other reason.
     */
    method FinalizeCycle(g: nat, k: nat, today: int) returns (fault: Option<Fault>)
      modifies this`groups, ledger
      ensures g < |old(groups)| && SyncGroup(cfg, old(ledger.View()), g, old(groups[g]), today).fault.Some? ==>
        && fault == SyncGroup(cfg, old(ledger.View()), g, old(groups[g]), today).fault
        && State() == SyncStep(old(State()), g, today)
      ensures (g < |old(groups)| ==> SyncGroup(cfg, old(ledger.View()), g, old(groups[g]), today).fault.None?) ==>
        var synced := SyncStep(old(State()), g, today);
        match FinalizeStep(synced, g, k)
        case Ok(s) => fault.None? && State() == s
        case Err(e) => fault == Some(if NobodyToPay(synced, g, k) then NoEligibleRecipient else e) && State() == synced
    {
      fault := SyncGroupCompliance(g, today);
      if fault.Some? {
        return;
      }
      if g < |groups| && groups[g].terms.mode == Cycle && k >= 1 {
        var peek := SelectRecipient(groups[g].members, k, groups[g].payoutOverride);
        if peek.recipient.None? {
          NobodyToPayRefused(State(), g, k);
          return Some(NoEligibleRecipient);
        }
      }
      fault := FinalizeTransaction(g, k);
    }
  }

  /** The look ahead finds no recipient in a CYCLE group. */
  predicate NobodyToPay(s: Sys, g: nat, k: nat) {
    && g < |s.groups| && s.groups[g].terms.mode == Cycle && k >= 1
    && SelectPayoutRecipient(s.groups[g].members, k, s.groups[g].payoutOverride).recipient.None?
  }

  lemma NobodyToPayRefused(s: Sys, g: nat, k: nat)
    requires NobodyToPay(s, g, k)
    ensures FinalizeStep(s, g, k).Err?
  {
  }
}
