/** The whole backend as a state machine: many groups over one ledger, one operation at a time. */
module Protocol {
  import opened Wrappers
  import opened Accounts
  import opened Sums
  import opened Ledger
  import opened Faults
  import opened Preview
  import opened ReserveMath
  import opened Rows
  import opened Engine
  import opened Accounting
  import opened RowInvariants
  import opened GroupSafety

  /** `refs` are the external references of recorded payments. */
  datatype Sys = Sys(cfg: ReserveConfig, books: Books, groups: seq<Group>, refs: set<nat>)

  datatype Op =
    | CreateGroup(input: PreviewInput)
    | Join(group: nat, user: nat)
    | Activate(group: nat)
    | SetRisk(group: nat, payoutOverride: Option<bool>, graceDays: Option<int>)
    | Pay(group: nat, cycle: nat, member: nat, ref: Option<nat>)
    | Sync(group: nat, today: int)
    | Finalize(group: nat, cycle: nat)

  function Init(cfg: ReserveConfig): Sys { Sys(cfg, EMPTY_BOOKS, [], {}) }

  // ---- Steps -------------------------------------------------------------------------------------

  const DEFAULT_GRACE_DAYS := 2

  function NewGroup(input: PreviewInput, p: GroupPreview): Group
    requires input.groupSize >= 0 && p.days >= 0
  {
    Group(Terms(input.contribution, input.groupSize, input.mode, p.days, p.marginBps, input.startDay),
          Draft, 1, DEFAULT_GRACE_DAYS, false, [], [], [], [], [], [], [])
  }

  function CreateStep(s: Sys, input: PreviewInput): Result<Sys, Fault> {
    match PreviewOf(input)
    case Err(e) => Err(e)
    case Ok(p) => Ok(s.(groups := s.groups + [NewGroup(input, p)]))
  }

  /** Defaulted in a running group with the current contribution still unpaid. */
  predicate UnresolvedIn(grp: Group, user: nat) {
    && grp.status == Active
    && (exists i :: 0 <= i < |grp.members| && grp.members[i].user == user && grp.members[i].standing == Defaulted
          && !(HasContribution(grp, grp.currentCycle, i) && ContributionAt(grp, grp.currentCycle, i).status == Paid))
  }

  predicate HasUnresolvedDefault(groups: seq<Group>, user: nat) {
    exists h :: 0 <= h < |groups| && UnresolvedIn(groups[h], user)
  }

  function Commit(s: Sys, g: nat, l: Local): Sys
    requires g < |s.groups|
  {
    s.(books := l.books, groups := s.groups[g := l.grp])
  }

  function JoinStep(s: Sys, g: nat, user: nat): Result<Sys, Fault> {
    if g >= |s.groups| then Err(GroupNotFound)
    else if AcceptsNewMembers(s.groups[g]) && !IsMember(s.groups[g], user) && HasUnresolvedDefault(s.groups, user)
    then Err(UnresolvedDefault)
    else
      match JoinTx(s.books, g, s.groups[g], user)
      case Err(e) => Err(e)
      case Ok(l) => Ok(Commit(s, g, l))
  }

  function ActivateStep(s: Sys, g: nat): Result<Sys, Fault> {
    if g >= |s.groups| then Err(GroupNotFound)
    else
      match ActivateTx(s.groups[g])
      case Err(e) => Err(e)
      case Ok(grp) => Ok(s.(groups := s.groups[g := grp]))
  }

  function SetRiskStep(s: Sys, g: nat, payoutOverride: Option<bool>, graceDays: Option<int>): Result<Sys, Fault> {
    if g >= |s.groups| then Err(GroupNotFound)
    else
      var grp := s.groups[g];
      if grp.status == Completed then Err(NotActive)
      else if graceDays.Some? && !(0 <= graceDays.value <= 30) then Err(InvalidGrace)
      else
        Ok(s.(groups := s.groups[g := grp.(
          payoutOverride := if payoutOverride.Some? then payoutOverride.value else grp.payoutOverride,
          graceDays := if graceDays.Some? then graceDays.value else grp.graceDays)]))
  }

  predicate RefSeen(s: Sys, ref: Option<nat>) {
    ref.Some? && ref.value in s.refs
  }

  function PayStep(s: Sys, g: nat, k: nat, i: nat, ref: Option<nat>): Result<Sys, Fault> {
    if g >= |s.groups| then Err(ContributionNotFound)
    else
      match SettleTx(s.cfg, s.books, g, s.groups[g], k, i, RefSeen(s, ref))
      case Err(e) => Err(e)
      case Ok(l) => Ok(Commit(s, g, l).(refs := s.refs + if ref.Some? then {ref.value} else {}))
  }

  /** A sync that fails half way keeps the members it got through. */
  function SyncStep(s: Sys, g: nat, today: int): Sys {
    if g >= |s.groups| then s else Commit(s, g, SyncGroup(s.cfg, s.books, g, s.groups[g], today).local)
  }

  function FinalizeStep(s: Sys, g: nat, k: nat): Result<Sys, Fault> {
    if g >= |s.groups| then Err(GroupNotFound)
    else
      match FinalizeTx(s.cfg, s.books, s.groups, g, k)
      case Err(e) => Err(e)
      case Ok(l) => Ok(Commit(s, g, l))
  }

  function OrElse(s: Sys, r: Result<Sys, Fault>): Sys {
    if r.Ok? then r.value else s
  }

  /** A rejected operation changes nothing. */
  function Step(s: Sys, op: Op): Sys {
    match op
    case CreateGroup(input) => OrElse(s, CreateStep(s, input))
    case Join(g, user) => OrElse(s, JoinStep(s, g, user))
    case Activate(g) => OrElse(s, ActivateStep(s, g))
    case SetRisk(g, o, d) => OrElse(s, SetRiskStep(s, g, o, d))
    case Pay(g, k, i, ref) => OrElse(s, PayStep(s, g, k, i, ref))
    case Sync(g, today) => SyncStep(s, g, today)
    case Finalize(g, k) => OrElse(s, FinalizeStep(s, g, k))
  }

  /** What an accepted operation makes of the rows of its own group. */
  ghost predicate GroupStep(s: Sys, op: Op, grp: Group, next: Group) {
    match op
    case CreateGroup(_) => false
    case Join(g, user) =>
      var r := JoinTx(s.books, g, grp, user); r.Ok? && next == r.value.grp
    case Activate(_) => ActivateTx(grp) == Ok(next)
    case SetRisk(_, _, _) => next == grp.(payoutOverride := next.payoutOverride, graceDays := next.graceDays)
    case Pay(g, k, i, ref) =>
      var r := SettleTx(s.cfg, s.books, g, grp, k, i, RefSeen(s, ref)); r.Ok? && next == r.value.grp
    case Sync(g, today) => next == SyncGroup(s.cfg, s.books, g, grp, today).local.grp
    case Finalize(g, k) =>
      && g < |s.groups|
      && var r := FinalizeTx(s.cfg, s.books, s.groups, g, k); r.Ok? && next == r.value.grp
  }

  /** Rows change only by an accepted operation on their own group. */
  lemma StepShape(s: Sys, op: Op, g: nat)
    requires g < |s.groups|
    ensures g < |Step(s, op).groups|
    ensures var next := Step(s, op).groups[g];
      next == s.groups[g] || (!op.CreateGroup? && op.group == g && GroupStep(s, op, s.groups[g], next))
  {
    hide JoinTx, SettleTx, SyncGroup, FinalizeTx, PreviewOf;
  }

  /** Groups appear one at a time, without members. */
  lemma NewGroupShape(s: Sys, op: Op, g: nat)
    requires |s.groups| <= g < |Step(s, op).groups|
    ensures op.CreateGroup? && g == |s.groups| && PreviewOf(op.input).Ok?
    ensures Step(s, op).groups[g] == NewGroup(op.input, PreviewOf(op.input).value)
  {
    hide JoinTx, SettleTx, SyncGroup, FinalizeTx, PreviewOf;
  }

  function Run(s: Sys, ops: seq<Op>): Sys {
    if ops == [] then s else Step(Run(s, ops[..|ops| - 1]), ops[|ops| - 1])
  }

  /** A payment under a recorded reference that is accepted all the same: it counts a day without money. */
  predicate Recounts(s: Sys, op: Op) {
    op.Pay? && RefSeen(s, op.ref) && PayStep(s, op.group, op.cycle, op.member, op.ref).Ok?
  }

  ghost predicate NoRecounts(s: Sys, ops: seq<Op>) {
    ops != [] ==> NoRecounts(s, ops[..|ops| - 1]) && !Recounts(Run(s, ops[..|ops| - 1]), ops[|ops| - 1])
  }

  // ---- Runs put together ---------------------------------------------------------------------------

  lemma {:induction false} RunAppend(s: Sys, a: seq<Op>, b: seq<Op>)
    ensures Run(s, a + b) == Run(Run(s, a), b)
  {
    hide Step;
    if b == [] {
      assert a + b == a;
    } else {
      var front, op := b[..|b| - 1], b[|b| - 1];
      RunAppend(s, a, front);
      assert (a + b)[..|a + b| - 1] == a + front;
    }
  }

  lemma RunThen(s: Sys, a: seq<Op>, op: Op)
    ensures Run(s, a + [op]) == Step(Run(s, a), op)
  {
    hide Step;
    assert (a + [op])[..|a|] == a;
  }

  lemma RunOne(s: Sys, op: Op)
    ensures Run(s, [op]) == Step(s, op)
  {
    hide Step;
    assert [op][..0] == [];
  }

  lemma RunThenNoRecount(s: Sys, a: seq<Op>, op: Op)
    requires NoRecounts(s, a) && !Recounts(Run(s, a), op)
    ensures NoRecounts(s, a + [op])
  {
    hide Step, SettleTx;
    assert (a + [op])[..|a|] == a;
  }

  // ---- The invariant -------------------------------------------------------------------------------

  ghost predicate GroupsOk(b: Books, groups: seq<Group>) {
    && BooksOk(b) && OwnedBelow(b.journals, |groups|)
    && forall h: nat :: h < |groups| ==> GroupOk(b, h, groups[h])
  }

  /** Nothing is left in escrow or reserve for the group. */
  ghost predicate Drained(grp: Group) {
    && (forall i :: 0 <= i < |grp.members| ==> grp.members[i].deposit != Held)
    && (forall r :: 0 <= r < |grp.reserves| ==> grp.reserves[r].status == Closed)
  }

  ghost predicate SysOk(s: Sys) {
    && GroupsOk(s.books, s.groups)
    && forall h :: 0 <= h < |s.groups| && s.groups[h].status == Completed ==> Drained(s.groups[h])
  }

  lemma OthersUntouched(b: Books, after: Books, g: nat, h: nat, grp: Group)
    requires Extends(b, after, g) && h != g && GroupOk(b, h, grp)
    ensures GroupOk(after, h, grp)
  {
    hide BooksOk, RowsOk;
    forall a ensures Flow(after.journals, h, a) == Due(h, grp, a) {
      assert Flow(b.journals, h, a) == Due(h, grp, a);
    }
  }

  lemma ReplaceGroup(b: Books, groups: seq<Group>, g: nat, after: Books, grp: Group)
    requires GroupsOk(b, groups) && g < |groups| && Extends(b, after, g) && GroupOk(after, g, grp)
    ensures GroupsOk(after, groups[g := grp])
  {
    hide GroupOk;
    var next := groups[g := grp];
    forall h: nat | h < |next| ensures GroupOk(after, h, next[h]) {
      if h != g { OthersUntouched(b, after, g, h, groups[h]); }
    }
  }

  lemma ExtendsSelf(b: Books, g: nat)
    ensures Extends(b, b, g)
  {
  }

  // ---- The ledger from the rows of all groups --------------------------------------------------------

  function DueOn(groups: seq<Group>, a: Account): nat -> int {
    (h: nat) => if h < |groups| then Due(h, groups[h], a) else 0
  }

  /** Every balance is the sum of what the groups' rows call for. */
  lemma BalanceIsDue(b: Books, groups: seq<Group>, a: Account)
    requires GroupsOk(b, groups)
    ensures Balance(b.balances, a) == SumTo(|groups|, DueOn(groups, a))
  {
    hide Step, RowsOk, Due;
    FlowsCoverLedger(b.journals, |groups|, a);
    assert Balance(b.balances, a) == SumOf(AllLines(b.journals), PostedOn(a));
    forall h: nat | h < |groups| ensures FlowsOn(b.journals, a)(h) == DueOn(groups, a)(h) {
      assert GroupOk(b, h, groups[h]);
    }
    SumToAgree(|groups|, FlowsOn(b.journals, a), DueOn(groups, a));
  }

  lemma ReservedDue(g: nat, grp: Group, user: nat)
    ensures Due(g, grp, Reserved(user)) == SumOf(grp.reserves, ReservePart(Reserved(user)))
  {
    var a := Reserved(user);
    SumZero(grp.members, MemberPart(g, a));
    SumZero(grp.payouts, PayoutPart(g, a));
    SumZero(grp.earnings, EarningPart(g, a));
    SumZero(grp.payments, PaymentPart(a));
    SumZero(grp.covers, CoverPart(g, a));
  }

  function Nothing<T>(): T -> int { (x: T) => 0 }

  lemma NoOpenMeansNothingDue(g: nat, grp: Group, user: nat)
    requires ReservesOk(grp) && FirstOpen(grp.reserves, user).None?
    ensures Due(g, grp, Reserved(user)) <= 0
  {
    ReservedDue(g, grp, user);
    forall r | 0 <= r < |grp.reserves| ensures ReservePart(Reserved(user))(grp.reserves[r]) <= 0 {
      assert ReserveOk(grp, grp.reserves[r]);
    }
    SumAtMost(grp.reserves, ReservePart(Reserved(user)), Nothing());
    SumZero(grp.reserves, Nothing());
  }

  /**
   * The orphan sweep never moves money: a user without an open reserve has nothing reserved, even
   * if some reserve of theirs was overdrawn.
   */
  lemma SweepIsIdle(b: Books, groups: seq<Group>, user: nat)
    requires GroupsOk(b, groups)
    ensures SweepTx(b, groups, user) == Ok(b)
  {
    hide BooksOk, Due;
    if !HasOpenReserve(groups, user) {
      BalanceIsDue(b, groups, Reserved(user));
      forall h: nat | h < |groups| ensures DueOn(groups, Reserved(user))(h) <= 0 {
        assert GroupOk(b, h, groups[h]);
        NoOpenMeansNothingDue(h, groups[h], user);
      }
      SumToAtMost(|groups|, DueOn(groups, Reserved(user)), (h: nat) => 0);
      ZeroTotal(|groups|);
    }
  }

  lemma {:induction false} ZeroTotal(n: nat)
    ensures SumTo(n, (h: nat) => 0) == 0
  {
    if n > 0 {
      ZeroTotal(n - 1);
      SumToAgree(n - 1, (h: nat) => 0, (h: nat) => 0);
    }
  }

  lemma {:induction false} SweepsAreIdle(b: Books, groups: seq<Group>, users: seq<nat>)
    requires GroupsOk(b, groups)
    ensures SweepAll(b, groups, users) == Ok(b)
    decreases |users|
  {
    hide GroupsOk, Transfer;
    if users != [] {
      SweepIsIdle(b, groups, users[0]);
      SweepsAreIdle(b, groups, users[1..]);
    }
  }

  // ---- Every step keeps it -----------------------------------------------------------------------------

  lemma NewGroupOk(b: Books, groups: seq<Group>, input: PreviewInput)
    requires GroupsOk(b, groups) && PreviewOf(input).Ok?
    ensures GroupsOk(b, groups + [NewGroup(input, PreviewOf(input).value)])
  {
    var grp := NewGroup(input, PreviewOf(input).value);
    var gross := AcceptedPreview(input);
    var g := |groups|;
    assert RowsOk(grp);
    forall key | key in b.keys ensures OwnerOf(key) != Some(g) {
      var i :| 0 <= i < |b.journals| && b.journals[i].key == key;
      assert OwnerOf(b.journals[i].key).value < g;
    }
    forall a ensures Flow(b.journals, g, a) == Due(g, grp, a) {
      SumZero(b.journals, Attributed(g, a));
    }
    assert GroupOk(b, g, grp);
  }

  lemma RiskSettingsAside(b: Books, g: nat, grp: Group, o: bool, d: int)
    requires GroupOk(b, g, grp)
    ensures GroupOk(b, g, grp.(payoutOverride := o, graceDays := d))
  {
    hide Step;
    var next := grp.(payoutOverride := o, graceDays := d);
    SamePayouts(grp, next);
    assert forall r :: 0 <= r < |grp.reserves| ==> ReserveOk(grp, grp.reserves[r]);
    assert Advances(grp, next) by {
      forall l: nat, j: nat | HasContribution(grp, l, j) ensures ContributionAdvances(grp, next, l, j) {
      }
    }
    AdvanceKeepsSpent(b, g, grp, next);
    forall a ensures Due(g, next, a) == Due(g, grp, a) {
    }
  }

  lemma CompleteKeepsGroupsOk(b: Books, groups: seq<Group>, g: nat)
    requires GroupsOk(b, groups) && g < |groups| && groups[g].status == Completed
    requires CompleteTx(b, groups, g, groups[g]).Ok?
    ensures var l := CompleteTx(b, groups, g, groups[g]).value;
      && GroupOk(l.books, g, l.grp) && Extends(b, l.books, g) && SameCycle(groups[g], l.grp) && Drained(l.grp)
  {
    hide GroupOk, BooksOk;
    assert GroupOk(b, g, groups[g]);
    ReturnDepositsKeepGroupOk(b, g, groups[g], 0);
    var d := ReturnDepositsFrom(b, g, groups[g], 0).value;
    CloseReservesKeepGroupOk(d.books, g, d.grp, 0);
    var c := CloseReservesFrom(d.books, g, d.grp, 0).value;
    ExtendsTransitive(b, d.books, c.books, g);
    ReplaceGroup(b, groups, g, c.books, c.grp);
    SweepsAreIdle(c.books, groups[g := c.grp], OpenUsers(d.grp.reserves));
  }

  lemma FinalizeKeepsGroupsOk(cfg: ReserveConfig, b: Books, groups: seq<Group>, g: nat, k: nat)
    requires GroupsOk(b, groups) && g < |groups| && FinalizeTx(cfg, b, groups, g, k).Ok?
    ensures var l := FinalizeTx(cfg, b, groups, g, k).value;
      && GroupOk(l.books, g, l.grp) && Extends(b, l.books, g) && SameHeader(groups[g], l.grp)
      && (l.grp.status == Completed ==> Drained(l.grp))
  {
    hide Step, GroupOk, BooksOk, AllocateTx, CompleteTx;
    assert GroupOk(b, g, groups[g]);
    AllocateKeepsGroupOk(cfg, b, g, groups[g], k);
    var l := AllocateTx(cfg, b, g, groups[g], k).value;
    if l.grp.status == Completed {
      ReplaceGroup(b, groups, g, l.books, l.grp);
      SameCompletion(l.books, groups, g, l.grp);
      CompleteKeepsGroupsOk(l.books, groups[g := l.grp], g);
      ExtendsTransitive(b, l.books, CompleteTx(l.books, groups, g, l.grp).value.books, g);
    }
  }

  /** Completion does not look at the old row of its own group. */
  lemma SameCompletion(b: Books, groups: seq<Group>, g: nat, grp: Group)
    requires g < |groups|
    ensures CompleteTx(b, groups, g, grp) == CompleteTx(b, groups[g := grp], g, grp)
  {
    var d := ReturnDepositsFrom(b, g, grp, 0);
    if d.Ok? && CloseReservesFrom(d.value.books, g, d.value.grp, 0).Ok? {
      var c := CloseReservesFrom(d.value.books, g, d.value.grp, 0).value;
      assert groups[g := grp][g := c.grp] == groups[g := c.grp];
    }
  }

  lemma CommitKeepsSysOk(s: Sys, g: nat, l: Local)
    requires SysOk(s) && g < |s.groups|
    requires GroupOk(l.books, g, l.grp) && Extends(s.books, l.books, g)
    requires l.grp.status == Completed ==> Drained(l.grp)
    ensures SysOk(Commit(s, g, l))
  {
    hide GroupOk;
    ReplaceGroup(s.books, s.groups, g, l.books, l.grp);
  }

  lemma CreateKeepsSysOk(s: Sys, input: PreviewInput)
    requires SysOk(s)
    ensures SysOk(Step(s, CreateGroup(input)))
  {
    hide GroupsOk, AllocateTx, SyncGroup;
    if PreviewOf(input).Ok? { NewGroupOk(s.books, s.groups, input); }
  }

  lemma JoinKeepsSysOk(s: Sys, g: nat, user: nat)
    requires SysOk(s)
    ensures SysOk(Step(s, Join(g, user)))
  {
    hide GroupOk, BooksOk, AllocateTx, SyncGroup;
    if JoinStep(s, g, user).Ok? {
      assert GroupOk(s.books, g, s.groups[g]);
      JoinKeepsGroupOk(s.books, g, s.groups[g], user);
      CommitKeepsSysOk(s, g, JoinTx(s.books, g, s.groups[g], user).value);
    }
  }

  /** Operations on one group's row that post nothing. */
  lemma RowOnlyKeepsSysOk(s: Sys, g: nat, next: Group)
    requires SysOk(s) && g < |s.groups| && GroupOk(s.books, g, next)
    requires next.status != Completed
    ensures SysOk(s.(groups := s.groups[g := next]))
  {
    hide GroupOk;
    ExtendsSelf(s.books, g);
    CommitKeepsSysOk(s, g, Local(s.books, next));
    assert Commit(s, g, Local(s.books, next)) == s.(groups := s.groups[g := next]);
  }

  lemma ActivateKeepsSysOk(s: Sys, g: nat)
    requires SysOk(s)
    ensures SysOk(Step(s, Activate(g)))
  {
    hide GroupOk, BooksOk, AllocateTx, SyncGroup;
    if ActivateStep(s, g).Ok? {
      assert GroupOk(s.books, g, s.groups[g]);
      ActivateKeepsGroupOk(s.books, g, s.groups[g]);
      RowOnlyKeepsSysOk(s, g, ActivateTx(s.groups[g]).value);
    }
  }

  lemma SetRiskKeepsSysOk(s: Sys, g: nat, o: Option<bool>, d: Option<int>)
    requires SysOk(s)
    ensures SysOk(Step(s, SetRisk(g, o, d)))
  {
    hide GroupOk, BooksOk, AllocateTx, SyncGroup;
    if SetRiskStep(s, g, o, d).Ok? {
      assert GroupOk(s.books, g, s.groups[g]);
      var next := SetRiskStep(s, g, o, d).value.groups[g];
      RiskSettingsAside(s.books, g, s.groups[g], next.payoutOverride, next.graceDays);
      RowOnlyKeepsSysOk(s, g, next);
    }
  }

  lemma PayKeepsSysOk(s: Sys, g: nat, k: nat, i: nat, ref: Option<nat>)
    requires SysOk(s) && !Recounts(s, Pay(g, k, i, ref))
    ensures SysOk(Step(s, Pay(g, k, i, ref)))
  {
    hide GroupOk, BooksOk, AllocateTx, SyncFrom;
    if PayStep(s, g, k, i, ref).Ok? {
      assert GroupOk(s.books, g, s.groups[g]);
      SettleKeepsGroupOk(s.cfg, s.books, g, s.groups[g], k, i);
      CommitKeepsSysOk(s, g, SettleTx(s.cfg, s.books, g, s.groups[g], k, i, false).value);
    }
  }

  lemma SyncKeepsSysOk(s: Sys, g: nat, today: int)
    requires SysOk(s)
    ensures SysOk(Step(s, Sync(g, today)))
  {
    hide GroupOk, BooksOk, AllocateTx, SyncFrom;
    if g < |s.groups| {
      assert GroupOk(s.books, g, s.groups[g]);
      SyncKeepsGroupOk(s.cfg, s.books, g, s.groups[g], today);
      CommitKeepsSysOk(s, g, SyncGroup(s.cfg, s.books, g, s.groups[g], today).local);
    }
  }

  lemma FinalizeKeepsSysOk(s: Sys, g: nat, k: nat)
    requires SysOk(s)
    ensures SysOk(Step(s, Finalize(g, k)))
  {
    hide RowsOk, AllocateTx, SyncGroup;
    if FinalizeStep(s, g, k).Ok? {
      FinalizeKeepsGroupsOk(s.cfg, s.books, s.groups, g, k);
      var l := FinalizeTx(s.cfg, s.books, s.groups, g, k).value;
      assert Step(s, Finalize(g, k)) == Commit(s, g, l);
      CommitKeepsSysOk(s, g, l);
    }
  }

  lemma StepKeepsSysOk(s: Sys, op: Op)
    requires SysOk(s)
    requires !Recounts(s, op)
    ensures SysOk(Step(s, op))
  {
    hide Step, SysOk, SettleTx;
    match op
    case CreateGroup(input) => CreateKeepsSysOk(s, input);
    case Join(g, user) => JoinKeepsSysOk(s, g, user);
    case Activate(g) => ActivateKeepsSysOk(s, g);
    case SetRisk(g, o, d) => SetRiskKeepsSysOk(s, g, o, d);
    case Pay(g, k, i, ref) => PayKeepsSysOk(s, g, k, i, ref);
    case Sync(g, today) => SyncKeepsSysOk(s, g, today);
    case Finalize(g, k) => FinalizeKeepsSysOk(s, g, k);
  }

  /** Over every run without such a payment the ledger is exactly what the rows call for. */
  lemma {:induction false} RunsKeepSysOk(cfg: ReserveConfig, ops: seq<Op>)
    requires NoRecounts(Init(cfg), ops)
    ensures SysOk(Run(Init(cfg), ops))
    ensures Run(Init(cfg), ops).cfg == cfg
  {
    if ops != [] {
      RunsKeepSysOk(cfg, ops[..|ops| - 1]);
      StepKeepsSysOk(Run(Init(cfg), ops[..|ops| - 1]), ops[|ops| - 1]);
    }
  }

  /** A payment under a recorded reference breaks the correspondence, every time it is accepted. */
  lemma RepeatedReferenceBreaksBooks(s: Sys, g: nat, k: nat, i: nat, ref: nat)
    requires SysOk(s) && ref in s.refs && PayStep(s, g, k, i, Some(ref)).Ok?
    ensures !SysOk(Step(s, Pay(g, k, i, Some(ref))))
    ensures Step(s, Pay(g, k, i, Some(ref))).books == s.books
  {
    hide BooksOk, Reconciled, AllocateTx, SyncGroup;
    assert GroupOk(s.books, g, s.groups[g]);
    SettleKeepsRows(s.cfg, s.books, g, s.groups[g], k, i, true);
    SettleReconcilesExactly(s.cfg, s.books, g, s.groups[g], k, i, true);
    var after := Step(s, Pay(g, k, i, Some(ref)));
    assert !GroupOk(after.books, g, after.groups[g]);
  }

  /** The books are sound at every point of a run. */
  ghost predicate SoundAllAlong(s: Sys, ops: seq<Op>) {
    SysOk(Run(s, ops)) && (ops != [] ==> SoundAllAlong(s, ops[..|ops| - 1]))
  }

  /** They are exactly when no payment of the run recounts. */
  lemma {:induction false} RunsKeepSysOkExactly(cfg: ReserveConfig, ops: seq<Op>)
    ensures SoundAllAlong(Init(cfg), ops) <==> NoRecounts(Init(cfg), ops)
  {
    hide SysOk, Step, Recounts;
    RunsKeepSysOk(cfg, []);
    if ops != [] {
      var front := ops[..|ops| - 1];
      RunsKeepSysOkExactly(cfg, front);
      if SysOk(Run(Init(cfg), front)) { LastStepExactly(Run(Init(cfg), front), ops[|ops| - 1]); }
    }
  }

  lemma LastStepExactly(s: Sys, op: Op)
    requires SysOk(s)
    ensures SysOk(Step(s, op)) <==> !Recounts(s, op)
  {
    hide Step, SysOk, SettleTx;
    if Recounts(s, op) {
      RepeatedReferenceBreaksBooks(s, op.group, op.cycle, op.member, op.ref.value);
    } else {
      StepKeepsSysOk(s, op);
    }
  }
}
