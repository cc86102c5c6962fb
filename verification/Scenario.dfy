/**
 * Steps of concrete runs: one group of five, one day a cycle, 1000 pesewas a day, followed row by row.
 * Each lemma says what one operation makes of explicitly given rows, whatever else the system holds.
 */
module Scenario {
  import opened Wrappers
  import opened Accounts
  import opened Sums
  import opened Ledger
  import opened Preview
  import opened ReserveMath
  import opened Rows
  import opened PayoutQueue
  import opened Creation
  import opened Engine
  import opened RowInvariants
  import opened GroupSafety
  import opened Protocol
  import opened Solvency
  import opened PoolSolvency
  import opened UnlockTiming

  const INPUT := PreviewInput(1000, 5, Cycle, Some(1), 0, Some(500))
  const TERMS := Terms(1000, 5, Cycle, 1, 500, 0)
  const UNPAID := Contribution(1000, 1, 0, Pending)
  const PAID := Contribution(1000, 1, 1, Paid)
  const NOBODY_PAID := [UNPAID, UNPAID, UNPAID, UNPAID, UNPAID]
  const ALL_PAID := [PAID, PAID, PAID, PAID, PAID]

  /** Reserves switched off, and the documented default of at most 30 percent. */
  const OFF := ReserveConfig(false, 0, 0)
  const ON := ReserveConfig(true, 3000, 0)

  const FIVE: seq<nat> := [0, 1, 2, 3, 4]
  const TURNS: seq<nat> := [0, 1, 2, 3, 4]

  /** The rows of a running group that decide what its next operation does. */
  datatype Snap = Snap(
    members: seq<Member>, cycles: seq<seq<Contribution>>, recipients: seq<nat>,
    reserves: seq<Reserve>, covers: seq<Coverage>)

  ghost predicate Started(grp: Group) {
    grp.terms == TERMS && !grp.payoutOverride && grp.graceDays == DEFAULT_GRACE_DAYS
  }

  ghost predicate Shows(grp: Group, w: Snap) {
    && Started(grp) && grp.status == Active
    && grp.members == w.members && grp.cycles == w.cycles && grp.currentCycle == |w.cycles|
    && grp.reserves == w.reserves && grp.covers == w.covers
    && |grp.payouts| == |w.recipients|
    && forall p :: 0 <= p < |w.recipients| ==> grp.payouts[p].recipient == w.recipients[p]
  }

  ghost predicate At(s: Sys, g: nat, w: Snap) {
    SysOk(s) && (s.cfg == OFF || s.cfg == ON) && g < |s.groups| && Shows(s.groups[g], w)
  }

  /** The operations left the other groups, the settings and the recorded references alone. */
  ghost predicate OnlyGroup(s: Sys, next: Sys, g: nat) {
    && next.cfg == s.cfg && next.refs == s.refs && |next.groups| == |s.groups|
    && forall h :: 0 <= h < |s.groups| && h != g ==> next.groups[h] == s.groups[h]
  }

  lemma TermsKnown()
    ensures TermsOk(TERMS) && MemberCyclePaymentDays(TERMS) == 1 && Obligation(TERMS) == 1000
    ensures CycleOf(TERMS).gross == 5000 && CycleOf(TERMS).netAfterMargin == 4750
    ensures OpenCycle(TERMS, 5) == NOBODY_PAID
  {
  }

  function Row(user: nat, turn: nat, order: nat, standing: Standing, deposit: DepositStatus): Member {
    Member(user, turn, order, standing, 1000, deposit)
  }

  /** The contributions of the running cycle. */
  function Running(w: Snap): seq<Contribution> {
    if w.cycles == [] then [] else w.cycles[|w.cycles| - 1]
  }

  function WithRunning(w: Snap, row: seq<Contribution>): Snap {
    if w.cycles == [] then w else w.(cycles := w.cycles[|w.cycles| - 1 := row])
  }

  predicate HasRow(w: Snap, j: nat) {
    |w.members| == 5 && |Running(w)| == 5 && j < 5
  }

  predicate Owes(w: Snap, j: nat) { HasRow(w, j) && Running(w)[j] == UNPAID }

  predicate HasPaid(w: Snap, j: nat) { HasRow(w, j) && Running(w)[j] == PAID }

  // ---- Runs without references -----------------------------------------------------------------------------

  predicate NoRefs(ops: seq<Op>) { forall j :: 0 <= j < |ops| && ops[j].Pay? ==> ops[j].ref == None }

  lemma {:induction false} NoRefsNoRecounts(s: Sys, ops: seq<Op>)
    requires NoRefs(ops)
    ensures NoRecounts(s, ops)
  {
    hide Step, PayStep;
    if ops != [] {
      NoRefsNoRecounts(s, ops[..|ops| - 1]);
    }
  }

  lemma NoRefsJoin(a: seq<Op>, b: seq<Op>)
    requires NoRefs(a) && NoRefs(b)
    ensures NoRefs(a + b)
  {
  }

  // ---- Opening a group -----------------------------------------------------------------------------------------

  predicate FiveUsers(users: seq<nat>) {
    |users| == 5 && forall i, j :: 0 <= i < j < 5 ==> users[i] != users[j]
  }

  function Joined(users: seq<nat>): seq<Member> {
    seq(|users|, (i: nat) requires i < |users| => Member(users[i], i + 1, i + 1, Good, 1000, Held))
  }

  ghost predicate NobodyDefaulted(s: Sys) {
    forall h, i :: 0 <= h < |s.groups| && 0 <= i < |s.groups[h].members| ==>
      s.groups[h].members[i].standing != Defaulted
  }

  ghost predicate Gathering(s: Sys, g: nat, users: seq<nat>) {
    && SysOk(s) && NobodyDefaulted(s) && g < |s.groups|
    && var grp := s.groups[g];
    && Started(grp) && grp.status == Draft && grp.members == Joined(users)
  }

  lemma EmptySystem(cfg: ReserveConfig)
    ensures SysOk(Init(cfg)) && NobodyDefaulted(Init(cfg))
  {
    hide Step, SysOk, SettleTx;
    RunsKeepSysOk(cfg, []);
  }

  lemma JoinRows(b: Books, g: nat, grp: Group, users: seq<nat>, user: nat)
    requires GroupOk(b, g, grp) && BooksOk(b) && Started(grp) && grp.status == Draft && grp.members == Joined(users)
    requires |users| < 5 && user !in users
    ensures AcceptsNewMembers(grp) && !IsMember(grp, user) && JoinTx(b, g, grp, user).Ok?
    ensures var next := JoinTx(b, g, grp, user).value.grp;
      Started(next) && next.status == Draft && next.members == Joined(users + [user])
  {
    hide GroupOk, BooksOk, JoinTx;
    JoinTxExactly(b, g, grp, user);
    assert grp.members + [JoinedRow(grp, user)] == Joined(users + [user]);
  }

  lemma JoinOne(s: Sys, g: nat, users: seq<nat>, user: nat)
    requires Gathering(s, g, users) && |users| < 5 && user !in users
    ensures Gathering(Step(s, Join(g, user)), g, users + [user]) && OnlyGroup(s, Step(s, Join(g, user)), g)
  {
    hide GroupOk, BooksOk, AllocateTx, SyncGroup;
    assert GroupOk(s.books, g, s.groups[g]);
    JoinRows(s.books, g, s.groups[g], users, user);
    assert !HasUnresolvedDefault(s.groups, user);
    JoinKeepsSysOk(s, g, user);
    assert Step(s, Join(g, user)) == Commit(s, g, JoinTx(s.books, g, s.groups[g], user).value);
  }

  /** Create a group, let the users join one by one. */
  function Gather(g: nat, users: seq<nat>): seq<Op> {
    if users == [] then [CreateGroup(INPUT)]
    else Gather(g, users[..|users| - 1]) + [Join(g, users[|users| - 1])]
  }

  function Opening(g: nat, users: seq<nat>): seq<Op> { Gather(g, users) + [Activate(g)] }

  lemma {:induction false} OpeningHasNoRefs(g: nat, users: seq<nat>)
    ensures NoRefs(Gather(g, users)) && NoRefs(Opening(g, users))
  {
    if users != [] { OpeningHasNoRefs(g, users[..|users| - 1]); }
  }

  function Fresh(users: seq<nat>): Snap { Snap(Joined(users), [NOBODY_PAID], [], [], []) }

  /** The same system with one more group. */
  ghost predicate OneMoreGroup(s: Sys, next: Sys) {
    && |next.groups| == |s.groups| + 1 && next.cfg == s.cfg && next.refs == s.refs
    && forall h :: 0 <= h < |s.groups| ==> next.groups[h] == s.groups[h]
  }

  lemma CreateOne(s: Sys, g: nat)
    requires SysOk(s) && NobodyDefaulted(s) && |s.groups| == g
    ensures var next := Step(s, CreateGroup(INPUT)); OneMoreGroup(s, next) && Gathering(next, g, [])
  {
    hide SysOk, AllocateTx;
    assert PreviewOf(INPUT).Ok? && PreviewOf(INPUT).value.marginBps == 500 && PreviewOf(INPUT).value.days == 1;
    CreateKeepsSysOk(s, INPUT);
  }

  lemma {:induction false} JoinAll(s: Sys, g: nat, users: seq<nat>) returns (next: Sys)
    requires SysOk(s) && NobodyDefaulted(s) && |s.groups| == g && |users| <= 5
    requires forall i, j :: 0 <= i < j < |users| ==> users[i] != users[j]
    ensures next == Run(s, Gather(g, users)) && OneMoreGroup(s, next) && Gathering(next, g, users)
  {
    hide SysOk, Step, Gathering;
    if users == [] {
      CreateOne(s, g);
      RunOne(s, CreateGroup(INPUT));
      next := Step(s, CreateGroup(INPUT));
    } else {
      var front, user := users[..|users| - 1], users[|users| - 1];
      assert users == front + [user];
      var before := JoinAll(s, g, front);
      JoinOne(before, g, front, user);
      RunThen(s, Gather(g, front), Join(g, user));
      next := Step(before, Join(g, user));
    }
  }

  lemma ActivateOne(s: Sys, g: nat, users: seq<nat>)
    requires Gathering(s, g, users) && |users| == 5 && (s.cfg == OFF || s.cfg == ON)
    ensures var next := Step(s, Activate(g));
      At(next, g, Fresh(users)) && OnlyGroup(s, next, g) && NobodyDefaulted(next)
  {
    hide BooksOk, AllocateTx, SyncGroup;
    TermsKnown();
    assert GroupOk(s.books, g, s.groups[g]);
    ActivateKeepsSysOk(s, g);
  }

  lemma Opens(s: Sys, g: nat, users: seq<nat>) returns (next: Sys)
    requires SysOk(s) && NobodyDefaulted(s) && |s.groups| == g && FiveUsers(users) && (s.cfg == OFF || s.cfg == ON)
    ensures next == Run(s, Opening(g, users))
    ensures At(next, g, Fresh(users)) && NobodyDefaulted(next) && OneMoreGroup(s, next)
  {
    hide SysOk, Step, Gathering, Run, Gather, At, NobodyDefaulted;
    var before := JoinAll(s, g, users);
    ActivateOne(before, g, users);
    next := Step(before, Activate(g));
    RunThen(s, Gather(g, users), Activate(g));
  }

  // ---- Paying --------------------------------------------------------------------------------------------------

  /** The running cycle after the listed members paid. */
  function Filled(row: seq<Contribution>, who: seq<nat>): seq<Contribution> {
    seq(|row|, (i: nat) requires i < |row| => if i in who then PAID else row[i])
  }

  function PaidBy(w: Snap, who: seq<nat>): Snap { WithRunning(w, Filled(Running(w), who)) }

  function Pays(g: nat, k: nat, who: seq<nat>): seq<Op> {
    seq(|who|, (j: nat) requires j < |who| => Pay(g, k, who[j], None))
  }

  /** Nothing is unlocked by this member's payment. */
  predicate UnlocksNothing(cfg: ReserveConfig, w: Snap, i: nat) {
    i < |w.members| && (cfg.enabled ==> FirstOpen(w.reserves, w.members[i].user).None?)
  }

  /** The listed members owe the running cycle and unlock nothing by paying it. */
  predicate CanPay(cfg: ReserveConfig, w: Snap, who: seq<nat>) {
    && (forall j :: 0 <= j < |who| ==> Owes(w, who[j]) && UnlocksNothing(cfg, w, who[j]))
    && forall j, l :: 0 <= j < l < |who| ==> who[j] != who[l]
  }

  /** An accepted payment commits the settled rows. */
  lemma PaidStep(s: Sys, g: nat, k: nat, i: nat, ref: Option<nat>)
    requires SysOk(s) && g < |s.groups| && !RefSeen(s, ref) && PayStep(s, g, k, i, ref).Ok?
    ensures HasContribution(s.groups[g], k, i) && SysOk(Step(s, Pay(g, k, i, ref)))
    ensures var next := Step(s, Pay(g, k, i, ref));
      && next.cfg == s.cfg && next.refs == s.refs + (if ref.Some? then {ref.value} else {})
      && next.groups == s.groups[g := SettledRows(s.cfg, s.groups[g], k, i)]
  {
    hide GroupOk, BooksOk, AllocateTx, SyncGroup;
    assert GroupOk(s.books, g, s.groups[g]);
    SettleShape(s.cfg, s.books, g, s.groups[g], k, i);
    PayKeepsSysOk(s, g, k, i, ref);
  }

  lemma PayRows(cfg: ReserveConfig, grp: Group, w: Snap, i: nat)
    requires Shows(grp, w) && Owes(w, i) && UnlocksNothing(cfg, w, i)
    ensures PaymentFault(grp, |w.cycles|, i).None? && UnitDue(cfg, grp, w.members[i].user, |w.cycles|).1 == 0
    ensures Shows(SettledRows(cfg, grp, |w.cycles|, i), PaidBy(w, [i]))
  {
    assert OneMoreDay(UNPAID) == PAID;
    assert Running(w)[i := PAID] == Filled(Running(w), [i]);
  }

  lemma PayOne(s: Sys, g: nat, w: Snap, k: nat, i: nat)
    requires At(s, g, w) && |w.cycles| == k && Owes(w, i) && UnlocksNothing(s.cfg, w, i)
    ensures var next := Step(s, Pay(g, k, i, None)); At(next, g, PaidBy(w, [i])) && OnlyGroup(s, next, g)
  {
    hide Step, PayStep, PaymentFault, SettledRows, Shows, PaidBy;
    PayRows(s.cfg, s.groups[g], w, i);
    assert Shows(s.groups[g], w) ==> s.groups[g].members == w.members by { PaidRowsOf(s.groups[g], w); }
    NothingOverdrawn(s.books, w.members[i].user);
    PaymentAcceptedExactly(s, g, k, i, None);
    PaidStep(s, g, k, i, None);
  }

  lemma NothingOverdrawn(b: Books, user: nat)
    requires BooksOk(b)
    ensures Balance(b.balances, Reserved(user)) >= 0
  {
  }

  lemma PaidRowsOf(grp: Group, w: Snap)
    requires Shows(grp, w)
    ensures grp.members == w.members
  {
  }

  lemma OneMorePays(cfg: ReserveConfig, g: nat, k: nat, w: Snap, front: seq<nat>, i: nat)
    requires CanPay(cfg, w, front + [i])
    ensures CanPay(cfg, w, front) && Owes(PaidBy(w, front), i) && UnlocksNothing(cfg, PaidBy(w, front), i)
    ensures |PaidBy(w, front).cycles| == |w.cycles| && PaidBy(PaidBy(w, front), [i]) == PaidBy(w, front + [i])
    ensures Pays(g, k, front + [i]) == Pays(g, k, front) + [Pay(g, k, i, None)]
  {
    var who := front + [i];
    assert who[|front|] == i && forall j :: 0 <= j < |front| ==> who[j] == front[j];
    assert Filled(Filled(Running(w), front), [i]) == Filled(Running(w), who);
  }

  lemma NobodyPays(w: Snap)
    ensures PaidBy(w, []) == w
  {
    assert Filled(Running(w), []) == Running(w);
    if w.cycles != [] { assert w.cycles[|w.cycles| - 1 := Running(w)] == w.cycles; }
  }

  lemma {:induction false} PayEach(s: Sys, g: nat, w: Snap, k: nat, who: seq<nat>) returns (next: Sys)
    requires At(s, g, w) && |w.cycles| == k && CanPay(s.cfg, w, who)
    ensures next == Run(s, Pays(g, k, who)) && At(next, g, PaidBy(w, who)) && OnlyGroup(s, next, g)
  {
    hide At, Step, PaidBy, CanPay, Owes, UnlocksNothing;
    if who == [] {
      NobodyPays(w);
      next := s;
    } else {
      var front, i := who[..|who| - 1], who[|who| - 1];
      assert who == front + [i];
      OneMorePays(s.cfg, g, k, w, front, i);
      var before := PayEach(s, g, w, k, front);
      PayOne(before, g, PaidBy(w, front), k, i);
      next := Step(before, Pay(g, k, i, None));
      RunThen(s, Pays(g, k, front), Pay(g, k, i, None));
    }
  }

  // ---- Compliance syncs ------------------------------------------------------------------------------------------

  /** The grace days of the running cycle are over. */
  predicate IsLate(w: Snap, today: int) { today > |w.cycles| + DEFAULT_GRACE_DAYS }

  /** What a late sync makes of a member who has paid, or who has not. */
  lemma LateStanding(grp: Group, w: Snap, j: nat, today: int)
    requires Shows(grp, w) && IsLate(w, today) && (HasPaid(w, j) || Owes(w, j))
    ensures NextStanding(grp, j, today) ==
      if HasPaid(w, j) then Some(Good) else if w.members[j].standing == Defaulted then Some(Defaulted) else None
  {
  }

  /** A late sync leaves this member as is. */
  predicate Settled(w: Snap, j: nat) {
    && HasRow(w, j)
    && ((HasPaid(w, j) && w.members[j].standing == Good) || (Owes(w, j) && w.members[j].standing == Defaulted))
  }

  lemma {:induction false} SkipSettled(
      cfg: ReserveConfig, b: Books, g: nat, grp: Group, w: Snap, i: nat, j: nat, today: int)
    requires Shows(grp, w) && IsLate(w, today) && i <= j <= 5 && |w.members| == 5
    requires forall m: nat :: i <= m < j ==> Settled(w, m)
    ensures SyncFrom(cfg, b, g, grp, i, today) == SyncFrom(cfg, b, g, grp, j, today)
    decreases j - i
  {
    hide DefaultTx, NextStanding;
    if i < j {
      assert Settled(w, i);
      LateStanding(grp, w, i, today);
      assert grp.members[i := grp.members[i].(standing := grp.members[i].standing)] == grp.members;
      SkipSettled(cfg, b, g, grp, w, i + 1, j, today);
    }
  }

  function WithMemberRow(w: Snap, j: nat, m: Member): Snap {
    if j < |w.members| then w.(members := w.members[j := m]) else w
  }

  /** A member who has paid is in good standing again. */
  lemma RestoreAt(cfg: ReserveConfig, b: Books, g: nat, grp: Group, w: Snap, j: nat, m: Member, today: int)
      returns (next: Group)
    requires Shows(grp, w) && IsLate(w, today) && HasPaid(w, j) && m == w.members[j].(standing := Good)
    ensures Shows(next, WithMemberRow(w, j, m))
    ensures SyncFrom(cfg, b, g, grp, j, today) == SyncFrom(cfg, b, g, next, j + 1, today)
  {
    hide DefaultTx, NextStanding;
    LateStanding(grp, w, j, today);
    next := WithStanding(grp, j, Good);
  }

  lemma NoPayoutYet(grp: Group, w: Snap, user: nat)
    requires Shows(grp, w)
    ensures HasReceivedPayout(grp, user) <==> user in w.recipients
  {
    if user in w.recipients {
      var p :| 0 <= p < |w.recipients| && w.recipients[p] == user;
      assert grp.payouts[p].recipient == user;
    }
  }

  function Forfeit(m: Member): Member { m.(standing := Defaulted, deposit := Forfeited) }

  /** Member `j` newly defaults in a late sync. */
  predicate NewlyLate(w: Snap, j: nat, today: int) {
    Owes(w, j) && IsLate(w, today) && w.members[j].standing != Defaulted
  }

  /** `last` is the largest place in the queue. */
  predicate LastPlace(members: seq<Member>, last: nat) {
    && (forall m :: 0 <= m < |members| ==> members[m].payoutOrder <= last)
    && exists m :: 0 <= m < |members| && members[m].payoutOrder == last
  }

  /** A late, unpaid member without a payout loses deposit and place. */
  lemma DequeueAt(cfg: ReserveConfig, b: Books, groups: seq<Group>, g: nat, w: Snap, j: nat, last: nat, m: Member,
      today: int)
      returns (l: Local)
    requires GroupsOk(b, groups) && g < |groups| && Shows(groups[g], w) && NewlyLate(w, j, today)
    requires w.members[j].user !in w.recipients && LastPlace(w.members, last)
    requires m == Forfeit(w.members[j]).(payoutOrder := last + 1)
    ensures GroupsOk(l.books, groups[g := l.grp]) && Shows(l.grp, WithMemberRow(w, j, m))
    ensures SyncFrom(cfg, b, g, groups[g], j, today) == SyncFrom(cfg, l.books, g, l.grp, j + 1, today)
  {
    hide BooksOk, NextStanding, ForfeitTx, CoverTx;
    var grp := groups[g];
    assert GroupOk(b, g, grp);
    LateStanding(grp, w, j, today);
    var f := AfterForfeit(b, groups, g, j);
    NoPayoutYet(grp, w, w.members[j].user);
    assert !HasReceivedPayout(f.grp, w.members[j].user);
    l := DefaultTx(cfg, b, g, grp, j).value;
    DefaultKeepsGroupOk(cfg, b, g, grp, j);
    ReplaceGroup(b, groups, g, l.books, l.grp);
    assert LastPlace(f.grp.members, last) by { SamePlaceThere(w.members, j, Forfeit(w.members[j]), last); }
    LargestIs(f.grp.members, last);
    assert l.grp.members == w.members[j := m];
  }

  lemma SamePlaceThere(members: seq<Member>, j: nat, m: Member, last: nat)
    requires j < |members| && m.payoutOrder == members[j].payoutOrder && LastPlace(members, last)
    ensures LastPlace(members[j := m], last)
  {
    var l :| 0 <= l < |members| && members[l].payoutOrder == last;
    assert members[j := m][l].payoutOrder == last;
  }

  lemma {:induction false} LargestIs(members: seq<Member>, last: nat)
    requires LastPlace(members, last)
    ensures MaxPayoutOrder(members) == last
  {
    var front := members[..|members| - 1];
    if MaxPayoutOrder(front) != 0 { MaxIsAttained(front); }
  }

  lemma {:induction false} MaxIsAttained(members: seq<Member>)
    requires MaxPayoutOrder(members) > 0
    ensures LastPlace(members, MaxPayoutOrder(members))
  {
    var front, last := members[..|members| - 1], members[|members| - 1];
    if MaxPayoutOrder(members) > last.payoutOrder {
      MaxIsAttained(front);
      var m :| 0 <= m < |front| && front[m].payoutOrder == MaxPayoutOrder(members);
      assert members[m].payoutOrder == MaxPayoutOrder(members);
    } else {
      assert members[|members| - 1].payoutOrder == MaxPayoutOrder(members);
    }
  }

  /** The rows after reserve `r` covered the missed contribution of member `j` in full. */
  function CoveredSnap(w: Snap, j: nat, r: nat): Snap {
    if j < |w.members| && r < |w.reserves| then
      WithRunning(w, Filled(Running(w), [j])).(
        members := w.members[j := Forfeit(w.members[j])],
        reserves := w.reserves[r := AfterCover(w.reserves[r], 1000)],
        covers := w.covers + [Coverage(w.members[j].user, |w.cycles|, r, 1000, 1000)])
    else w
  }

  /** Reserve `r` is there to cover what member `j` owes, the first cover of the group. */
  predicate Covers(w: Snap, j: nat, r: nat) {
    && Owes(w, j) && w.covers == [] && FirstOpen(w.reserves, w.members[j].user) == Some(r)
    && w.reserves[r].remaining >= 1000
  }

  /** The cover looks at the running contribution, the reserves and the covers only. */
  lemma CoverIsDue(cfg: ReserveConfig, grp: Group, w: Snap, j: nat, r: nat)
    requires cfg.enabled && Covers(w, j, r) && |grp.members| == 5 && grp.members[j].user == w.members[j].user
    requires grp.cycles == w.cycles && grp.reserves == w.reserves && grp.covers == w.covers
    ensures CoverDue(cfg, grp, |w.cycles|, j) == (r, 1000, 1000)
  {
    assert MissedContributionMinor(1000, 1, 0) == 1000;
  }

  lemma CoverRowsShown(grp: Group, w: Snap, j: nat, r: nat)
    requires Shows(grp, w) && Covers(w, j, r)
    ensures Shows(CoverRows(Marked(grp, j), |w.cycles|, j, r, 1000, 1000), CoveredSnap(w, j, r))
  {
    assert Running(w)[j := PAID] == Filled(Running(w), [j]);
  }

  /** A late, unpaid member who was paid out loses the deposit, and the reserve covers the missed cycle. */
  lemma CoverAt(cfg: ReserveConfig, b: Books, groups: seq<Group>, g: nat, w: Snap, j: nat, r: nat, today: int)
      returns (l: Local)
    requires GroupsOk(b, groups) && g < |groups| && Shows(groups[g], w) && NewlyLate(w, j, today)
    requires cfg.enabled && Covers(w, j, r) && w.members[j].user in w.recipients
    requires Balance(b.balances, Reserved(w.members[j].user)) >= 1000
    ensures GroupsOk(l.books, groups[g := l.grp]) && Shows(l.grp, CoveredSnap(w, j, r))
    ensures SyncFrom(cfg, b, g, groups[g], j, today) == SyncFrom(cfg, l.books, g, l.grp, j + 1, today)
  {
    hide BooksOk, NextStanding, ForfeitTx, CoverDue, CoverRows, RowsOk;
    var grp, k, user := groups[g], |w.cycles|, w.members[j].user;
    assert GroupOk(b, g, grp);
    LateStanding(grp, w, j, today);
    NoPayoutYet(grp, w, user);
    var f := AfterForfeit(b, groups, g, j);
    CoverIsDue(cfg, f.grp, w, j, r);
    CoverRowsShown(grp, w, j, r);
    CoverAcceptedExactly(cfg, f.books, g, f.grp, k, j);
    assert OwnerOf(DefaultCover(g, r, k, j)) == Some(g) && !Spent(grp, DefaultCover(g, r, k, j));
    DuplicateNeedsKey(f.books, DefaultCover(g, r, k, j), Reserved(user), GroupPool(g), 1000);
    l := DefaultTx(cfg, b, g, grp, j).value;
    DefaultKeepsGroupOk(cfg, b, g, grp, j);
    ReplaceGroup(b, groups, g, l.books, l.grp);
  }

  /** The sync of the whole group ends where the walk over its members does. */
  lemma SyncGives(s: Sys, g: nat, w: Snap, today: int, l: Local, v: Snap)
    requires At(s, g, w) && Shows(l.grp, v)
    requires SyncFrom(s.cfg, s.books, g, s.groups[g], 0, today) == SyncOutcome(l, None)
    ensures var next := Step(s, Sync(g, today)); At(next, g, v) && OnlyGroup(s, next, g)
  {
    hide SyncFrom;
    SyncKeepsSysOk(s, g, today);
  }

  // ---- Finalization ------------------------------------------------------------------------------------------------

  /** The queue order of explicitly given members. */
  lemma OrderIs(members: seq<Member>, order: seq<nat>)
    requires Sorted(members, order) && |order| == |members| && forall x: nat :: x in order <==> x < |members|
    ensures QueueOrder(members) == order
  {
    OrderIsUnique(members, QueueOrder(members), order);
  }

  /** Members listed by their places are the queue. */
  lemma InOrder(members: seq<Member>)
    requires |members| == 5 && forall i, j :: 0 <= i < j < 5 ==> members[i].payoutOrder < members[j].payoutOrder
    ensures QueueOrder(members) == TURNS
  {
    hide QueueOrder;
    OrderIs(members, TURNS);
  }

  /** Everyone has paid the running cycle or is defaulted. */
  predicate AllSettled(w: Snap) {
    && |w.recipients| == |w.cycles| - 1
    && forall i: nat :: i < 5 ==> HasRow(w, i) && (HasPaid(w, i) || w.members[i].standing == Defaulted)
  }

  predicate PaidIn(row: seq<Contribution>, i: nat) { i < |row| && row[i].status == Paid }

  /** Then it is ready; and apart from cycle index `l` everything was paid. */
  predicate IsReady(w: Snap, l: nat) {
    && AllSettled(w)
    && forall m, i: nat :: 0 <= m < |w.cycles| && m != l && i < 5 ==> PaidIn(w.cycles[m], i)
  }

  lemma {:induction false} AtMostOneMiss(cycles: seq<seq<Contribution>>, i: nat, l: nat)
    requires forall m :: 0 <= m < |cycles| && m != l ==> PaidIn(cycles[m], i)
    ensures SumOf(cycles, MissedAt(i)) <= if l < |cycles| then 1 else 0
  {
    if cycles != [] {
      AtMostOneMiss(cycles[..|cycles| - 1], i, l);
    }
  }

  /** Who is up: position `q` of the walk for the running cycle holds member `i`. */
  ghost predicate UpNext(w: Snap, q: nat, i: nat) {
    && 1 <= |w.cycles| <= 5 && |w.members| == 5 && QueueOrder(w.members) == TURNS
    && q < 5 && i < 5
    && var walk := Rotated(TURNS, |w.cycles| - 1);
    && walk[q] == i && w.members[i].standing != Defaulted
    && forall p :: 0 <= p < q ==> walk[p] < 5 && w.members[walk[p]].standing == Defaulted
  }

  /** What is held back of 4750: 24, 18, 12 and 6 percent over the days still to come. */
  function HeldBack(cfg: ReserveConfig, user: nat, k: nat): seq<Reserve> {
    if cfg != ON || k >= 5 then []
    else if k == 1 then [Reserve(user, 1, 1140, 1140, 0, 0, 4, 0, Open)]
    else if k == 2 then [Reserve(user, 2, 855, 855, 0, 0, 3, 0, Open)]
    else if k == 3 then [Reserve(user, 3, 570, 570, 0, 0, 2, 0, Open)]
    else [Reserve(user, 4, 285, 285, 0, 0, 1, 0, Open)]
  }

  lemma HeldIsAdded(cfg: ReserveConfig, user: nat, k: nat)
    requires (cfg == ON || cfg == OFF) && 1 <= k <= 5
    ensures ComputeSplit(cfg, 4750, k, 5, 1).Ok?
    ensures NewReserve(user, k, ComputeSplit(cfg, 4750, k, 5, 1).value) == HeldBack(cfg, user, k)
  {
    assert ComputeReserveBps(1, 5, 3000, 0) == Ok(2400) && ComputeReserveBps(2, 5, 3000, 0) == Ok(1800);
    assert ComputeReserveBps(3, 5, 3000, 0) == Ok(1200) && ComputeReserveBps(4, 5, 3000, 0) == Ok(600);
    if k == 1 {
      assert ComputeSplit(ON, 4750, 1, 5, 1) == Ok(Split(2400, 1140, 3610, 4));
    } else if k == 2 {
      assert ComputeSplit(ON, 4750, 2, 5, 1) == Ok(Split(1800, 855, 3895, 3));
    } else if k == 3 {
      assert ComputeSplit(ON, 4750, 3, 5, 1) == Ok(Split(1200, 570, 4180, 2));
    } else if k == 4 {
      assert ComputeSplit(ON, 4750, 4, 5, 1) == Ok(Split(600, 285, 4465, 1));
    } else {
      assert ComputeSplit(ON, 4750, 5, 5, 1) == Ok(Split(0, 0, 4750, 0));
    }
  }

  function ClosedSnap(cfg: ReserveConfig, w: Snap, i: nat): Snap {
    if i < |w.members| then
      Snap(LateForgiven(w.members), w.cycles + [NOBODY_PAID], w.recipients + [w.members[i].user],
           w.reserves + HeldBack(cfg, w.members[i].user, |w.cycles|), w.covers)
    else w
  }

  lemma ReadyShown(grp: Group, w: Snap)
    requires RowsOk(grp) && Shows(grp, w) && AllSettled(w)
    ensures FinalizeFault(grp, |w.cycles|).None?
  {
    forall p: nat | p < |grp.payouts| ensures grp.payouts[p].cycle != |w.cycles| {
      assert PayoutOk(grp, p);
    }
    forall i: nat | i < 5 ensures grp.cycles[|w.cycles| - 1][i].status == Paid || grp.members[i].standing == Defaulted {
      assert HasRow(w, i);
    }
  }

  lemma FundedShown(b: Books, groups: seq<Group>, g: nat, w: Snap, l: nat)
    requires GroupsOk(b, groups) && g < |groups| && Shows(groups[g], w) && IsReady(w, l)
    ensures Balance(b.balances, GroupPool(g)) >= CycleOf(TERMS).gross
  {
    hide BooksOk, RowsOk;
    assert GroupOk(b, g, groups[g]);
    ReadyShown(groups[g], w);
    assert HasRow(w, 0);
    forall i: nat | i < 5 ensures MissedCycles(groups[g], i) <= 1 {
      AtMostOneMiss(w.cycles, i, l);
    }
    ReadyPoolIsFunded(b, groups, g, |w.cycles|);
  }

  /** The award of a cycle with member `i` up at position `q`. */
  lemma AwardShown(cfg: ReserveConfig, grp: Group, w: Snap, q: nat, i: nat)
    requires (cfg == ON || cfg == OFF) && RowsOk(grp) && Shows(grp, w) && UpNext(w, q, i)
    ensures SelectPayoutRecipient(grp.members, |w.cycles|, grp.payoutOverride).recipient == Some(i)
    ensures var aw := AwardOf(cfg, grp, |w.cycles|);
      && aw.user == w.members[i].user && (aw.skipped == [] <==> q == 0)
      && NewReserve(aw.user, |w.cycles|, aw.split) == HeldBack(cfg, aw.user, |w.cycles|)
  {
    hide Step, RowsOk;
    TermsKnown();
    assert (|w.cycles| - 1) % 5 == |w.cycles| - 1;
    FirstUpIsServed(w.members, Rotated(TURNS, |w.cycles| - 1), q);
    HeldIsAdded(cfg, w.members[i].user, |w.cycles|);
  }

  /** A ready, funded cycle pays the member who is up. */
  lemma Allocates(s: Sys, g: nat, w: Snap, q: nat, i: nat, l: nat) returns (aw: Award)
    requires At(s, g, w) && IsReady(w, l) && UpNext(w, q, i)
    ensures aw.user == w.members[i].user && (aw.skipped == [] <==> q == 0)
    ensures NewReserve(aw.user, |w.cycles|, aw.split) == HeldBack(s.cfg, aw.user, |w.cycles|)
    ensures var r := AllocateTx(s.cfg, s.books, g, s.groups[g], |w.cycles|);
      r.Ok? && r.value.grp == FinalizeRows(s.groups[g], |w.cycles|, aw.user, aw.skipped, CycleOf(TERMS), aw.split)
  {
    hide AllocateTx, FinalizeRows, Shows, AllSettled, UpNext, HeldBack;
    var k, grp := |w.cycles|, s.groups[g];
    assert GroupOk(s.books, g, grp);
    assert grp.terms == TERMS by { TermsShown(grp, w); }
    TermsKnown();
    ReadyShown(grp, w);
    AwardShown(s.cfg, grp, w, q, i);
    FundedShown(s.books, s.groups, g, w, l);
    AllocateAcceptedUsually(s.cfg, s.books, s.groups, g, k);
    AllocateShape(s.cfg, s.books, g, grp, k);
    aw := AwardOf(s.cfg, grp, k);
  }

  lemma TermsShown(grp: Group, w: Snap)
    requires Shows(grp, w)
    ensures grp.terms == TERMS
  {
  }

  /** The rows after a finalization that is not the last. */
  lemma ClosesRows(cfg: ReserveConfig, grp: Group, w: Snap, i: nat, aw: Award)
    requires Shows(grp, w) && 1 <= |w.cycles| < 5 && |w.members| == 5 && i < 5
    requires aw.user == w.members[i].user
      && NewReserve(aw.user, |w.cycles|, aw.split) == HeldBack(cfg, aw.user, |w.cycles|)
    ensures var next := FinalizeRows(grp, |w.cycles|, aw.user, aw.skipped, CycleOf(TERMS), aw.split);
      Shows(next, ClosedSnap(cfg, w, i)) && next.status == Active
  {
    TermsKnown();
  }

  lemma CloseCycle(s: Sys, g: nat, w: Snap, k: nat, q: nat, i: nat, l: nat)
    requires At(s, g, w) && IsReady(w, l) && UpNext(w, q, i) && |w.cycles| == k < 5
    ensures var next := Step(s, Finalize(g, k)); At(next, g, ClosedSnap(s.cfg, w, i)) && OnlyGroup(s, next, g)
  {
    hide AllocateTx, FinalizeRows, Shows, CompleteTx, RowsOk, BooksOk;
    var grp := s.groups[g];
    assert GroupOk(s.books, g, grp);
    var aw := Allocates(s, g, w, q, i, l);
    ClosesRows(s.cfg, grp, w, i, aw);
    FinalizeKeepsSysOk(s, g, k);
  }

  /** The group completes with one more payout, to member `i`. */
  ghost predicate Ended(grp: Group, w: Snap, i: nat, skips: bool) {
    && i < |w.members| && grp.status == Completed && |grp.payouts| == |w.recipients| + 1
    && |grp.members| == |w.members| && (forall j :: 0 <= j < |w.members| ==> grp.members[j].user == w.members[j].user)
    && (forall p :: 0 <= p < |w.recipients| ==> grp.payouts[p].recipient == w.recipients[p])
    && grp.payouts[|w.recipients|].recipient == w.members[i].user
    && (skips <==> grp.payouts[|w.recipients|].skipped != [])
  }

  /** The last finalization of a group without reserves. */
  lemma CloseLast(s: Sys, g: nat, w: Snap, q: nat, i: nat, l: nat)
    requires At(s, g, w) && IsReady(w, l) && UpNext(w, q, i) && |w.cycles| == 5 && w.reserves == []
    ensures var next := Step(s, Finalize(g, 5)); g < |next.groups| && Ended(next.groups[g], w, i, q > 0)
  {
    hide AllocateTx, FinalizeRows, Shows, CompleteTx, RowsOk, BooksOk, FinalizeTx;
    var grp := s.groups[g];
    assert GroupOk(s.books, g, grp);
    var aw := Allocates(s, g, w, q, i, l);
    NothingOwedBack(s.books, grp, w);
    FinalizeAcceptedExactly(s.cfg, s.books, s.groups, g, 5);
    FinalizationShape(s.cfg, s.books, s.groups, g, 5);
    var first := AllocateTx(s.cfg, s.books, g, grp, 5).value.grp;
    EndsWith(grp, w, i, aw, first, q > 0);
    var next := FinalizeTx(s.cfg, s.books, s.groups, g, 5).value.grp;
    assert Ended(next, w, i, q > 0);
  }

  lemma NothingOwedBack(b: Books, grp: Group, w: Snap)
    requires BooksOk(b) && Shows(grp, w) && w.reserves == []
    ensures ReservesBacked(b, grp)
  {
    forall u ensures OwedBack(grp, u) <= Balance(b.balances, Reserved(u)) {
      assert OwedBack(grp, u) == 0 && Balance(b.balances, Reserved(u)) >= 0;
    }
  }

  lemma EndsWith(grp: Group, w: Snap, i: nat, aw: Award, first: Group, skips: bool)
    requires Shows(grp, w) && |w.recipients| == 4 && i < |w.members| && aw.user == w.members[i].user
    requires (aw.skipped == [] <==> !skips)
    requires first == FinalizeRows(grp, 5, aw.user, aw.skipped, CycleOf(TERMS), aw.split)
    ensures Ended(first, w, i, skips)
  {
  }

  // ---- Whole cycles ------------------------------------------------------------------------------------------------

  lemma NobodyLate(users: seq<nat>)
    requires |users| == 5
    ensures LateForgiven(Joined(users)) == Joined(users)
    ensures QueueOrder(Joined(users)) == TURNS
  {
    hide QueueOrder;
    InOrder(Joined(users));
  }

  /** Everyone pays, and the cycle is finalized. */
  function WholeCycle(g: nat, k: nat): seq<Op> { Pays(g, k, FIVE) + [Finalize(g, k)] }

  lemma EveryoneCanPay(cfg: ReserveConfig, w: Snap)
    requires |w.members| == 5 && Running(w) == NOBODY_PAID && (cfg.enabled ==> w.reserves == [])
    ensures CanPay(cfg, w, FIVE) && PaidBy(w, FIVE) == WithRunning(w, ALL_PAID)
  {
    assert forall i :: 0 <= i < 5 ==> FIVE[i] == i;
    assert Filled(NOBODY_PAID, FIVE) == ALL_PAID;
  }

  /** Everyone pays, and member `i` is paid out in turn. */
  lemma PaysAndCloses(s: Sys, g: nat, w: Snap, v: Snap, k: nat, i: nat) returns (next: Sys)
    requires At(s, g, w) && CanPay(s.cfg, w, FIVE) && v == PaidBy(w, FIVE) && |v.cycles| == |w.cycles| == k < 5
    requires IsReady(v, 0) && UpNext(v, 0, i)
    ensures next == Run(s, WholeCycle(g, k)) && At(next, g, ClosedSnap(s.cfg, v, i)) && OnlyGroup(s, next, g)
  {
    hide At, CanPay, PaidBy, IsReady, UpNext, ClosedSnap, Step, Run;
    var paid := PayEach(s, g, w, k, FIVE);
    CloseCycle(paid, g, v, k, 0, i, 0);
    next := Step(paid, Finalize(g, k));
    RunThen(s, Pays(g, k, FIVE), Finalize(g, k));
  }
}
