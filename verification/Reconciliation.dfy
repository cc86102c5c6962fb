/** The reconciliation checks (reconciliation-summary.service.ts), and why they stay silent. */
module Reconciliation {
  import opened Wrappers
  import opened Accounts
  import opened Sums
  import opened Ledger
  import opened Calculations
  import opened ReserveMath
  import opened Rows
  import opened Engine
  import opened Accounting
  import opened RowInvariants
  import opened GroupSafety
  import opened Protocol

  datatype Discrepancy =
    | MarginMismatch(recorded: int, revenue: int)
    | AdminShares(rows: nat)
    | NegativePools(total: int)
    | NegativeAccount(account: Account)
    | DuplicatePayouts(pairs: nat)
    | PayoutsWithoutLedger(missing: nat)
    | UnbalancedJournal(index: nat)

  // ---- What the checks look at ------------------------------------------------------------------------------

  function MarginOf(): Earning -> int { (e: Earning) => e.margin }
  function AdminShareRow(): Earning -> int { (e: Earning) => if e.adminShare > 0 then 1 else 0 }
  function MarginsOf(): Group -> int { (grp: Group) => SumOf(grp.earnings, MarginOf()) }
  function AdminShareRowsOf(): Group -> int { (grp: Group) => SumOf(grp.earnings, AdminShareRow()) }

  /** Margin over all recorded earnings. */
  function RecordedMargin(groups: seq<Group>): int { SumOf(groups, MarginsOf()) }

  /** Payout `p` shares its cycle with an earlier one. */
  predicate IsRepeat(grp: Group, p: nat)
    requires p < |grp.payouts|
  {
    exists q :: 0 <= q < p && grp.payouts[q].cycle == grp.payouts[p].cycle
  }

  predicate MarginAgrees(b: Books, groups: seq<Group>) {
    var gap := Balance(b.balances, Revenue) - RecordedMargin(groups);
    RecordedMargin(groups) > 0 ==> -5 <= gap <= 5
  }

  ghost predicate NoAdminShare(groups: seq<Group>) {
    forall h, p :: 0 <= h < |groups| && 0 <= p < |groups[h].earnings| ==> groups[h].earnings[p].adminShare <= 0
  }

  ghost predicate NoRepeats(groups: seq<Group>) {
    forall h, p: nat :: 0 <= h < |groups| && p < |groups[h].payouts| ==> !IsRepeat(groups[h], p)
  }

  /** The cycles of the group that were paid more than once. */
  function RepeatedCycles(grp: Group): set<nat> {
    set p: nat | p < |grp.payouts| && IsRepeat(grp, p) :: grp.payouts[p].cycle
  }
  function RepeatedOf(): Group -> int { (grp: Group) => |RepeatedCycles(grp)| }

  /** Counts a payout whose allocation journal is missing. */
  function MissingPart(b: Books, g: nat): Payout -> int {
    (p: Payout) => if Allocation(g, p.cycle) in b.keys then 0 else 1
  }
  function MissingIn(b: Books, groups: seq<Group>): nat -> int {
    (h: nat) => if h < |groups| then SumOf(groups[h].payouts, MissingPart(b, h)) else 0
  }

  ghost predicate PayoutsPosted(b: Books, g: nat, grp: Group) {
    forall p :: 0 <= p < |grp.payouts| ==> Allocation(g, grp.payouts[p].cycle) in b.keys
  }

  ghost predicate AllPayoutsPosted(b: Books, groups: seq<Group>) {
    forall h: nat :: h < |groups| ==> PayoutsPosted(b, h, groups[h])
  }

  function PoolBalance(b: Books): nat -> int { (g: nat) => Balance(b.balances, GroupPool(g)) }

  /** All modelled checks pass. */
  ghost predicate Reconciles(b: Books, groups: seq<Group>) {
    && MarginAgrees(b, groups) && NoAdminShare(groups)
    && SumTo(|groups|, PoolBalance(b)) >= 0
    && (forall a :: a in b.balances && a != SystemExternal ==> b.balances[a] >= 0)
    && NoRepeats(groups) && AllPayoutsPosted(b, groups)
    && (forall i :: 0 <= i < |b.journals| ==> SumOf(b.journals[i].lines, PostedDelta()) == 0)
  }

  // ---- The report ---------------------------------------------------------------------------------------------

  /** A count of rows is zero exactly when no row is counted. */
  lemma NothingCounted<T>(s: seq<T>, f: T -> int)
    requires forall i :: 0 <= i < |s| ==> f(s[i]) >= 0
    ensures SumOf(s, f) >= 0
    ensures SumOf(s, f) == 0 <==> forall i :: 0 <= i < |s| ==> f(s[i]) == 0
  {
    var zero := (x: T) => 0;
    SumZero(s, zero);
    SumEqualExactly(s, zero, f);
  }

  method CountAdminShares(groups: seq<Group>) returns (count: nat)
    ensures count == SumOf(groups, AdminShareRowsOf())
    ensures count == 0 <==> NoAdminShare(groups)
  {
    count := 0;
    for h := 0 to |groups|
      invariant count == SumOf(groups[..h], AdminShareRowsOf())
    {
      var rows := groups[h].earnings;
      assert groups[..h + 1] == groups[..h] + [groups[h]];
      SumAppend(groups[..h], groups[h], AdminShareRowsOf());
      for p := 0 to |rows|
        invariant count == SumOf(groups[..h], AdminShareRowsOf()) + SumOf(rows[..p], AdminShareRow())
      {
        assert rows[..p + 1] == rows[..p] + [rows[p]];
        SumAppend(rows[..p], rows[p], AdminShareRow());
        if rows[p].adminShare > 0 {
          count := count + 1;
        }
      }
      assert rows[..|rows|] == rows;
    }
    assert groups[..|groups|] == groups;
    NoSharesCounted(groups);
  }

  lemma NoSharesCounted(groups: seq<Group>)
    ensures SumOf(groups, AdminShareRowsOf()) == 0 <==> NoAdminShare(groups)
  {
    forall h | 0 <= h < |groups|
      ensures AdminShareRowsOf()(groups[h]) >= 0
      ensures AdminShareRowsOf()(groups[h]) == 0 <==>
        forall p :: 0 <= p < |groups[h].earnings| ==> AdminShareRow()(groups[h].earnings[p]) == 0
    {
      NothingCounted(groups[h].earnings, AdminShareRow());
    }
    NothingCounted(groups, AdminShareRowsOf());
  }

  method CountRepeats(groups: seq<Group>) returns (count: nat)
    ensures count == SumOf(groups, RepeatedOf())
    ensures count == 0 <==> NoRepeats(groups)
  {
    count := 0;
    for h := 0 to |groups|
      invariant count == SumOf(groups[..h], RepeatedOf())
    {
      assert groups[..h + 1] == groups[..h] + [groups[h]];
      SumAppend(groups[..h], groups[h], RepeatedOf());
      var cycles := RepeatedIn(groups[h]);
      count := count + |cycles|;
    }
    assert groups[..|groups|] == groups;
    NoRepeatsCounted(groups);
  }

  method RepeatedIn(grp: Group) returns (cycles: set<nat>)
    ensures cycles == RepeatedCycles(grp)
  {
    cycles := {};
    for p := 0 to |grp.payouts|
      invariant cycles == set q: nat | q < p && IsRepeat(grp, q) :: grp.payouts[q].cycle
    {
      if IsRepeat(grp, p) {
        cycles := cycles + {grp.payouts[p].cycle};
      }
    }
  }

  lemma NoRepeatsCounted(groups: seq<Group>)
    ensures SumOf(groups, RepeatedOf()) == 0 <==> NoRepeats(groups)
  {
    forall h | 0 <= h < |groups|
      ensures RepeatedOf()(groups[h]) == 0 <==> forall p: nat :: p < |groups[h].payouts| ==> !IsRepeat(groups[h], p)
    {
      var cycles := RepeatedCycles(groups[h]);
      if p: nat :| p < |groups[h].payouts| && IsRepeat(groups[h], p) {
        assert groups[h].payouts[p].cycle in cycles;
      } else {
        assert cycles == {};
      }
    }
    NothingCounted(groups, RepeatedOf());
  }

  method CountUnposted(b: Books, groups: seq<Group>) returns (count: nat)
    ensures count == SumTo(|groups|, MissingIn(b, groups))
    ensures count == 0 <==> AllPayoutsPosted(b, groups)
  {
    count := 0;
    for h := 0 to |groups|
      invariant count == SumTo(h, MissingIn(b, groups))
    {
      var rows := groups[h].payouts;
      for p := 0 to |rows|
        invariant count == SumTo(h, MissingIn(b, groups)) + SumOf(rows[..p], MissingPart(b, h))
      {
        assert rows[..p + 1] == rows[..p] + [rows[p]];
        SumAppend(rows[..p], rows[p], MissingPart(b, h));
        if Allocation(h, rows[p].cycle) !in b.keys {
          count := count + 1;
        }
      }
      assert rows[..|rows|] == rows;
    }
    NoneMissing(b, groups);
  }

  lemma NoneMissing(b: Books, groups: seq<Group>)
    ensures SumTo(|groups|, MissingIn(b, groups)) == 0 <==> AllPayoutsPosted(b, groups)
  {
    forall h: nat | h < |groups|
      ensures MissingIn(b, groups)(h) >= 0
      ensures MissingIn(b, groups)(h) == 0 <==> PayoutsPosted(b, h, groups[h])
    {
      var rows := groups[h].payouts;
      NothingCounted(rows, MissingPart(b, h));
      if MissingIn(b, groups)(h) == 0 {
        forall p | 0 <= p < |rows| ensures Allocation(h, rows[p].cycle) in b.keys {
          assert MissingPart(b, h)(rows[p]) == 0;
        }
      }
    }
    var zero := (h: nat) => 0;
    SumToZero(|groups|, zero);
    SumToEqualExactly(|groups|, zero, MissingIn(b, groups));
  }

  ghost predicate TotalsAgree(b: Books, groups: seq<Group>) {
    && MarginAgrees(b, groups) && NoAdminShare(groups) && SumTo(|groups|, PoolBalance(b)) >= 0
    && NoRepeats(groups) && AllPayoutsPosted(b, groups)
  }

  /** The finding that a total calls for; negative accounts and unbalanced journals are looked at one by one. */
  ghost predicate TotalCallsFor(b: Books, groups: seq<Group>, d: Discrepancy) {
    match d
    case MarginMismatch(recorded, revenue) =>
      !MarginAgrees(b, groups) && recorded == RecordedMargin(groups) && revenue == Balance(b.balances, Revenue)
    case AdminShares(rows) => rows == SumOf(groups, AdminShareRowsOf()) && rows > 0
    case NegativePools(total) => total == SumTo(|groups|, PoolBalance(b)) && total < 0
    case DuplicatePayouts(pairs) => pairs == SumOf(groups, RepeatedOf()) && pairs > 0
    case PayoutsWithoutLedger(missing) => missing == SumTo(|groups|, MissingIn(b, groups)) && missing > 0
    case _ => false
  }

  /** The checks that report one finding each. */
  method CheckTotals(b: Books, groups: seq<Group>) returns (report: seq<Discrepancy>)
    ensures report == [] <==> TotalsAgree(b, groups)
    ensures forall d :: d in report <==> TotalCallsFor(b, groups, d)
  {
    hide SumOf, SumTo, NoAdminShare, NoRepeats, AllPayoutsPosted, RecordedMargin;
    report := [];
    var recorded, revenue := RecordedMargin(groups), Balance(b.balances, Revenue);
    if recorded > 0 && (revenue - recorded > 5 || recorded - revenue > 5) {
      report := report + [MarginMismatch(recorded, revenue)];
    }
    var shares := CountAdminShares(groups);
    if shares > 0 {
      report := report + [AdminShares(shares)];
    }
    var pools := SumTo(|groups|, PoolBalance(b));
    if pools < 0 {
      report := report + [NegativePools(pools)];
    }
    var repeats := CountRepeats(groups);
    if repeats > 0 {
      report := report + [DuplicatePayouts(repeats)];
    }
    var missing := CountUnposted(b, groups);
    if missing > 0 {
      report := report + [PayoutsWithoutLedger(missing)];
    }
  }

  /** Exactly which findings the books and rows call for. */
  ghost predicate CallsFor(b: Books, groups: seq<Group>, d: Discrepancy) {
    match d
    case NegativeAccount(a) => a in b.balances && a != SystemExternal && b.balances[a] < 0
    case UnbalancedJournal(i) => i < |b.journals| && SumOf(b.journals[i].lines, PostedDelta()) != 0
    case _ => TotalCallsFor(b, groups, d)
  }

  /** Pushes one finding per failed check, and one per offending account and journal. */
  method GetSummary(b: Books, groups: seq<Group>) returns (report: seq<Discrepancy>)
    ensures report == [] <==> Reconciles(b, groups)
    ensures forall d :: d in report <==> CallsFor(b, groups, d)
  {
    var totals := CheckTotals(b, groups);
    var negatives := NegativeAccounts(b);
    var unbalanced := UnbalancedJournals(b);
    report := totals + negatives + unbalanced;
  }

  method NegativeAccounts(b: Books) returns (found: seq<Discrepancy>)
    ensures forall d :: d in found ==> d.NegativeAccount?
    ensures forall a :: NegativeAccount(a) in found <==> a in b.balances && a != SystemExternal && b.balances[a] < 0
    ensures found == [] <==> forall a :: a in b.balances && a != SystemExternal ==> b.balances[a] >= 0
  {
    found := [];
    var todo := b.balances.Keys;
    while todo != {}
      invariant todo <= b.balances.Keys
      invariant forall d :: d in found ==> d.NegativeAccount?
      invariant forall a :: NegativeAccount(a) in found <==>
        a in b.balances && a !in todo && a != SystemExternal && b.balances[a] < 0
      decreases |todo|
    {
      var a :| a in todo;
      todo := todo - {a};
      if a != SystemExternal && b.balances[a] < 0 {
        found := found + [NegativeAccount(a)];
      }
    }
    if found != [] {
      assert found[0] in found;
    }
  }

  method UnbalancedJournals(b: Books) returns (found: seq<Discrepancy>)
    ensures forall d :: d in found ==> d.UnbalancedJournal?
    ensures forall i: nat :: UnbalancedJournal(i) in found <==>
      i < |b.journals| && SumOf(b.journals[i].lines, PostedDelta()) != 0
    ensures found == [] <==> forall i :: 0 <= i < |b.journals| ==> SumOf(b.journals[i].lines, PostedDelta()) == 0
  {
    found := [];
    for i := 0 to |b.journals|
      invariant forall d :: d in found ==> d.UnbalancedJournal?
      invariant forall j: nat :: UnbalancedJournal(j) in found <==>
        j < i && SumOf(b.journals[j].lines, PostedDelta()) != 0
    {
      if SumOf(b.journals[i].lines, PostedDelta()) != 0 {
        found := found + [UnbalancedJournal(i)];
      }
    }
    if found != [] {
      assert found[0] in found;
    }
  }

  // ---- Why it is silent ---------------------------------------------------------------------------------------

  lemma RevenueDue(g: nat, grp: Group)
    requires PayoutsOk(grp)
    ensures Due(g, grp, Revenue) == SumOf(grp.earnings, MarginOf())
  {
    SumZero(grp.members, MemberPart(g, Revenue));
    SumZero(grp.reserves, ReservePart(Revenue));
    SumZero(grp.payouts, PayoutPart(g, Revenue));
    forall p: nat | p < |grp.earnings|
      ensures EarningPart(g, Revenue)(grp.earnings[p]) == MarginOf()(grp.earnings[p])
    {
      assert PayoutOk(grp, p);
    }
    SumAgree(grp.earnings, grp.earnings, EarningPart(g, Revenue), MarginOf());
    SumZero(grp.payments, PaymentPart(Revenue));
    SumZero(grp.covers, CoverPart(g, Revenue));
  }

  /** The revenue balance is the recorded margin to the pesewa. */
  lemma RevenueIsRecordedMargin(b: Books, groups: seq<Group>)
    requires GroupsOk(b, groups)
    ensures Balance(b.balances, Revenue) == RecordedMargin(groups)
  {
    hide Step, BooksOk, Due;
    BalanceIsDue(b, groups, Revenue);
    SumByIndex(groups, MarginsOf());
    forall h: nat | h < |groups| ensures DueOn(groups, Revenue)(h) == ByIndex(groups, MarginsOf())(h) {
      assert GroupOk(b, h, groups[h]);
      RevenueDue(h, groups[h]);
    }
    SumToAgree(|groups|, DueOn(groups, Revenue), ByIndex(groups, MarginsOf()));
  }

  function AmountOf(): Payment -> int { (p: Payment) => p.amount }
  function CollectedOf(): Group -> int { (grp: Group) => SumOf(grp.payments, AmountOf()) }

  lemma ExternalDue(g: nat, grp: Group)
    ensures Due(g, grp, SystemExternal) == -SumOf(grp.payments, AmountOf())
  {
    var a := SystemExternal;
    SumZero(grp.members, MemberPart(g, a));
    SumZero(grp.reserves, ReservePart(a));
    SumZero(grp.payouts, PayoutPart(g, a));
    SumZero(grp.earnings, EarningPart(g, a));
    SumZero(grp.covers, CoverPart(g, a));
    Negated(grp.payments);
  }

  lemma {:induction false} Negated(payments: seq<Payment>)
    ensures SumOf(payments, PaymentPart(SystemExternal)) == -SumOf(payments, AmountOf())
  {
    if payments != [] { Negated(payments[..|payments| - 1]); }
  }

  /** Everything collected entered the ledger, and nothing else did. */
  lemma CollectedEnteredLedger(b: Books, groups: seq<Group>)
    requires GroupsOk(b, groups)
    ensures Balance(b.balances, SystemExternal) == -SumOf(groups, CollectedOf())
  {
    hide GroupsOk, Due;
    BalanceIsDue(b, groups, SystemExternal);
    SumByIndex(groups, CollectedOf());
    forall h: nat | h < |groups| ensures DueOn(groups, SystemExternal)(h) == -ByIndex(groups, CollectedOf())(h) {
      ExternalDue(h, groups[h]);
    }
    SumToOpposite(|groups|, ByIndex(groups, CollectedOf()), DueOn(groups, SystemExternal));
  }

  lemma {:induction false} SumToOpposite(n: nat, f: nat -> int, h: nat -> int)
    requires forall i: nat :: i < n ==> h(i) == -f(i)
    ensures SumTo(n, h) == -SumTo(n, f)
  {
    if n > 0 { SumToOpposite(n - 1, f, h); }
  }

  // Payouts and their journals

  lemma KeysGrowKeepsPosted(b: Books, after: Books, g: nat, grp: Group, next: Group)
    requires PayoutsPosted(b, g, grp) && b.keys <= after.keys && next.payouts == grp.payouts
    ensures PayoutsPosted(after, g, next)
  {
  }

  lemma FinalizeRowsPayouts(grp: Group, k: nat, user: nat, skipped: seq<nat>, summary: CycleSummary, split: Split)
    ensures FinalizeRows(grp, k, user, skipped, summary, split).payouts
         == grp.payouts + [Payout(user, k, summary.netAfterMargin, skipped)]
  {
  }

  lemma AllocatePostsPayout(cfg: ReserveConfig, b: Books, g: nat, grp: Group, k: nat)
    requires GroupOk(b, g, grp) && PayoutsPosted(b, g, grp) && AllocateTx(cfg, b, g, grp, k).Ok?
    ensures var l := AllocateTx(cfg, b, g, grp, k).value; PayoutsPosted(l.books, g, l.grp) && b.keys <= l.books.keys
  {
    hide RowsOk, AllocateTx;
    AllocateShape(cfg, b, g, grp, k);
    AllocateKeepsGroupOk(cfg, b, g, grp, k);
    var aw := AwardOf(cfg, grp, k);
    FinalizeRowsPayouts(grp, k, aw.user, aw.skipped, CycleOf(grp.terms), aw.split);
    AllocationPosted(cfg, b, g, grp, k);
  }

  lemma AllocationPosted(cfg: ReserveConfig, b: Books, g: nat, grp: Group, k: nat)
    requires AllocateTx(cfg, b, g, grp, k).Ok?
    ensures Allocation(g, k) in AllocateTx(cfg, b, g, grp, k).value.books.keys
  {
  }

  lemma FinalizePostsPayout(cfg: ReserveConfig, b: Books, groups: seq<Group>, g: nat, k: nat)
    requires GroupsOk(b, groups) && g < |groups| && PayoutsPosted(b, g, groups[g])
      && FinalizeTx(cfg, b, groups, g, k).Ok?
    ensures var l := FinalizeTx(cfg, b, groups, g, k).value; PayoutsPosted(l.books, g, l.grp) && b.keys <= l.books.keys
  {
    hide Step, GroupOk, AllocateTx, CompleteTx;
    var grp := groups[g];
    assert GroupOk(b, g, grp);
    AllocatePostsPayout(cfg, b, g, grp, k);
    var l := AllocateTx(cfg, b, g, grp, k).value;
    if l.grp.status == Completed {
      AllocateKeepsGroupOk(cfg, b, g, grp, k);
      ReplaceGroup(b, groups, g, l.books, l.grp);
      SameCompletion(l.books, groups, g, l.grp);
      CompleteKeepsGroupsOk(l.books, groups[g := l.grp], g);
      KeysGrowKeepsPosted(l.books, CompleteTx(l.books, groups, g, l.grp).value.books, g, l.grp,
                          CompleteTx(l.books, groups, g, l.grp).value.grp);
    }
  }

  lemma PayKeepsPosted(s: Sys, g: nat, k: nat, i: nat, ref: Option<nat>)
    requires SysOk(s) && g < |s.groups| && PayoutsPosted(s.books, g, s.groups[g])
    requires !Recounts(s, Pay(g, k, i, ref))
    ensures var next := Step(s, Pay(g, k, i, ref));
      s.books.keys <= next.books.keys && PayoutsPosted(next.books, g, next.groups[g])
  {
    hide GroupOk, BooksOk, AllocateTx, SyncGroup;
    assert GroupOk(s.books, g, s.groups[g]);
    if PayStep(s, g, k, i, ref).Ok? {
      SettleKeepsGroupOk(s.cfg, s.books, g, s.groups[g], k, i);
    }
  }

  lemma GroupStepPosts(s: Sys, op: Op)
    requires SysOk(s) && AllPayoutsPosted(s.books, s.groups)
    requires !op.CreateGroup? && op.group < |s.groups| && !Recounts(s, op)
    ensures var next := Step(s, op);
      s.books.keys <= next.books.keys && PayoutsPosted(next.books, op.group, next.groups[op.group])
  {
    hide GroupOk, BooksOk, AllocateTx, SyncGroup;
    var g, grp := op.group, s.groups[op.group];
    assert GroupOk(s.books, g, grp) && PayoutsPosted(s.books, g, grp);
    match op
    case Pay(_, k, i, ref) => PayKeepsPosted(s, g, k, i, ref);
    case Sync(_, today) => SyncKeepsGroupOk(s.cfg, s.books, g, grp, today);
    case Finalize(_, k) =>
      if FinalizeStep(s, g, k).Ok? { FinalizePostsPayout(s.cfg, s.books, s.groups, g, k); }
    case Join(_, user) =>
      if JoinStep(s, g, user).Ok? { JoinKeepsGroupOk(s.books, g, grp, user); }
    case _ =>
  }

  lemma StepKeepsPosted(s: Sys, op: Op)
    requires SysOk(s) && AllPayoutsPosted(s.books, s.groups)
    requires !Recounts(s, op)
    ensures AllPayoutsPosted(Step(s, op).books, Step(s, op).groups)
  {
    hide SysOk, AllocateTx;
    var next := Step(s, op);
    if !op.CreateGroup? && op.group < |s.groups| {
      GroupStepPosts(s, op);
      forall h: nat | h < |next.groups| ensures PayoutsPosted(next.books, h, next.groups[h]) {
        if h != op.group {
          assert next.groups[h] == s.groups[h];
          KeysGrowKeepsPosted(s.books, next.books, h, s.groups[h], next.groups[h]);
        }
      }
    }
  }

  lemma {:induction false} RunsKeepPosted(cfg: ReserveConfig, ops: seq<Op>)
    requires NoRecounts(Init(cfg), ops)
    ensures var s := Run(Init(cfg), ops); AllPayoutsPosted(s.books, s.groups)
  {
    hide Step, SysOk, SettleTx;
    if ops != [] {
      var front := ops[..|ops| - 1];
      RunsKeepPosted(cfg, front);
      RunsKeepSysOk(cfg, front);
      StepKeepsPosted(Run(Init(cfg), front), ops[|ops| - 1]);
    }
  }

  lemma RowChecksPass(b: Books, groups: seq<Group>)
    requires GroupsOk(b, groups)
    ensures NoAdminShare(groups) && NoRepeats(groups)
  {
    forall h, p: nat | 0 <= h < |groups| && p < |groups[h].earnings| ensures groups[h].earnings[p].adminShare <= 0 {
      assert GroupOk(b, h, groups[h]) && PayoutOk(groups[h], p);
    }
    forall h, p: nat | 0 <= h < |groups| && p < |groups[h].payouts| ensures !IsRepeat(groups[h], p) {
      assert GroupOk(b, h, groups[h]) && PayoutOk(groups[h], p);
      forall q: nat | q < p ensures groups[h].payouts[q].cycle != groups[h].payouts[p].cycle {
        assert PayoutOk(groups[h], q);
      }
    }
  }

  /**
   * Over every run without recounts all checks pass, and the recorded margin equals the revenue
   * balance exactly.
   */
  lemma EveryRunReconciles(cfg: ReserveConfig, ops: seq<Op>)
    requires NoRecounts(Init(cfg), ops)
    ensures var s := Run(Init(cfg), ops);
      && Reconciles(s.books, s.groups)
      && Balance(s.books.balances, Revenue) == RecordedMargin(s.groups)
      && Balance(s.books.balances, SystemExternal) == -SumOf(s.groups, CollectedOf())
  {
    hide Step, SettleTx;
    RunsKeepSysOk(cfg, ops);
    RunsKeepPosted(cfg, ops);
    var s := Run(Init(cfg), ops);
    RevenueIsRecordedMargin(s.books, s.groups);
    CollectedEnteredLedger(s.books, s.groups);
    RowChecksPass(s.books, s.groups);
    assert NoOverdraft(s.books.balances);
    forall a | a in s.books.balances && a != SystemExternal ensures s.books.balances[a] >= 0 {
      assert Balance(s.books.balances, a) >= 0;
    }
    forall h: nat | h < |s.groups| ensures PoolBalance(s.books)(h) >= 0 {
      assert Balance(s.books.balances, GroupPool(h)) >= 0;
    }
    SumToNonNegative(|s.groups|, PoolBalance(s.books));
    assert forall i :: 0 <= i < |s.books.journals| ==> WellFormedJournal(s.books.journals[i]);
  }
}
