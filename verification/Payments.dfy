/**
 * Recording a day: exactly when it is accepted, read off rows and wallet, what it changes and moves, and
 * how many more days a member can pay.
 */
module Payments {
  import opened Wrappers
  import opened Accounts
  import opened Ledger
  import opened ReserveMath
  import opened Rows
  import opened Engine
  import opened Accounting
  import opened RowInvariants
  import opened Protocol
  import opened Solvency
  import opened UnlockTiming
  import opened Progress

  // ---- What a payment unlocks, from the rows -----------------------------------------------------

  predicate IsOpen(row: Reserve, user: nat) { row.user == user && row.status == Open }

  /** Row `q` is the user's oldest open reserve. */
  predicate OldestOpen(reserves: seq<Reserve>, user: nat, q: nat) {
    q < |reserves| && IsOpen(reserves[q], user) && forall j :: 0 <= j < q ==> !IsOpen(reserves[j], user)
  }

  lemma {:induction false} FirstOpenIsOldest(reserves: seq<Reserve>, user: nat, q: nat)
    ensures FirstOpen(reserves, user) == Some(q) <==> OldestOpen(reserves, user, q)
  {
    if reserves != [] {
      var front := reserves[..|reserves| - 1];
      FirstOpenIsOldest(front, user, q);
      if FirstOpen(front, user).Some? { FirstOpenIsOldest(front, user, FirstOpen(front, user).value); }
    }
  }

  /** The reserve that a payment of the user for cycle `k` unlocks from: held back in an earlier cycle. */
  predicate UnlocksFrom(cfg: ReserveConfig, grp: Group, user: nat, k: nat, q: nat) {
    cfg.enabled && OldestOpen(grp.reserves, user, q) && grp.reserves[q].cycle < k
  }

  /** One equal share of the original amount, or all that remains with the last unit. */
  function UnitOf(row: Reserve): int {
    if row.unitsReleased + 1 == row.units then row.remaining
    else if row.units == 0 then 0 else row.original / row.units
  }

  ghost function UnlockedBy(cfg: ReserveConfig, grp: Group, user: nat, k: nat): int {
    if q: nat :| UnlocksFrom(cfg, grp, user, k, q) then UnitOf(grp.reserves[q]) else 0
  }

  lemma UnitByRows(cfg: ReserveConfig, grp: Group, user: nat, k: nat)
    requires RowsOk(grp)
    ensures UnitDue(cfg, grp, user, k).1 == UnlockedBy(cfg, grp, user, k) >= 0
    ensures UnitDue(cfg, grp, user, k).1 > 0 ==> UnlocksFrom(cfg, grp, user, k, UnitDue(cfg, grp, user, k).0)
  {
    hide FirstOpen;
    var found := FirstOpen(grp.reserves, user);
    forall q: nat ensures found == Some(q) <==> OldestOpen(grp.reserves, user, q) {
      FirstOpenIsOldest(grp.reserves, user, q);
    }
    if found.Some? {
      assert ReserveOk(grp, grp.reserves[found.value]);
      assert UnlocksFrom(cfg, grp, user, k, found.value) <==> cfg.enabled && grp.reserves[found.value].cycle < k;
    }
  }

  // ---- When a day is accepted ----------------------------------------------------------------------

  /** The contribution of member `i` to cycle `k` runs and lacks at least one day. */
  predicate OwesDay(grp: Group, k: nat, i: nat) {
    && grp.status == Active && k == grp.currentCycle && i < |grp.members|
    && 1 <= k <= |grp.cycles| && i < |grp.cycles[k - 1]|
    && grp.cycles[k - 1][i].paidDays < MemberCyclePaymentDays(grp.terms)
  }

  lemma DueExactly(grp: Group, k: nat, i: nat)
    requires RowsOk(grp)
    ensures PaymentFault(grp, k, i).None? <==> OwesDay(grp, k, i)
  {
    if grp.status == Active && HasContribution(grp, k, i) {
      assert CycleRowOk(grp.terms, |grp.members|, grp.cycles[k - 1]);
      assert ContributionOk(grp.terms, ContributionAt(grp, k, i));
    }
  }

  /** Under a fresh reference: when the day is owed and the reserved wallet holds what it unlocks. */
  lemma PaysExactly(s: Sys, g: nat, k: nat, i: nat, ref: Option<nat>)
    requires SysOk(s) && !RefSeen(s, ref)
    ensures PayStep(s, g, k, i, ref).Ok? <==>
      && g < |s.groups| && OwesDay(s.groups[g], k, i)
      && UnlockedBy(s.cfg, s.groups[g], s.groups[g].members[i].user, k)
         <= Balance(s.books.balances, Reserved(s.groups[g].members[i].user))
  {
    hide BooksOk, KeysSpent, Reconciled, RowsOk, ReleaseUnit, PaymentFault, UnlockedBy, UnitDue;
    if g < |s.groups| {
      assert GroupOk(s.books, g, s.groups[g]);
      DueExactly(s.groups[g], k, i);
      if PaymentFault(s.groups[g], k, i).None? {
        PaymentAcceptedExactly(s, g, k, i, ref);
        UnitByRows(s.cfg, s.groups[g], s.groups[g].members[i].user, k);
      }
    }
  }

  // ---- What it changes and moves -------------------------------------------------------------------

  /** The rows after one more day of member `i`, but for the reserves. */
  ghost predicate OneDayPaid(grp: Group, next: Group, k: nat, i: nat)
    requires OwesDay(grp, k, i)
  {
    var c := grp.cycles[k - 1][i];
    var after := c.(paidDays := c.paidDays + 1,
                    status := if c.paidDays + 1 == MemberCyclePaymentDays(grp.terms) then Paid else Pending);
    next == grp.(cycles := grp.cycles[k - 1 := grp.cycles[k - 1][i := after]],
                 payments := grp.payments + [Payment(grp.members[i].user, grp.terms.perDay)],
                 reserves := next.reserves)
  }

  /** One unit went out of a reserve; it closes with the last unit, and when nothing remains. */
  predicate UnitTaken(row: Reserve, next: Reserve) {
    var unit := UnitOf(row);
    var left := if row.remaining > unit then row.remaining - unit else 0;
    next == row.(remaining := left, released := row.released + unit, unitsReleased := row.unitsReleased + 1,
                 status := if left == 0 || row.unitsReleased + 1 == row.units then Closed else Open)
  }

  lemma PaidRowsExactly(cfg: ReserveConfig, grp: Group, k: nat, i: nat)
    requires RowsOk(grp) && OwesDay(grp, k, i)
    ensures HasContribution(grp, k, i)
    ensures var next, user := SettledRows(cfg, grp, k, i), grp.members[i].user;
      && OneDayPaid(grp, next, k, i) && |next.reserves| == |grp.reserves|
      && forall r: nat :: r < |grp.reserves| ==>
           if UnlocksFrom(cfg, grp, user, k, r) && UnitOf(grp.reserves[r]) > 0
           then UnitTaken(grp.reserves[r], next.reserves[r]) else next.reserves[r] == grp.reserves[r]
  {
    hide FirstOpen, OldestOpen, MemberCyclePaymentDays, UnitTaken, UnitOf, AfterUnit, NextReserveReleaseMinor;
    var user := grp.members[i].user;
    DueExactly(grp, k, i);
    assert CycleRowOk(grp.terms, |grp.members|, grp.cycles[k - 1]) && ContributionOk(grp.terms, grp.cycles[k - 1][i]);
    var found := FirstOpen(grp.reserves, user);
    forall q: nat ensures found == Some(q) <==> OldestOpen(grp.reserves, user, q) {
      FirstOpenIsOldest(grp.reserves, user, q);
    }
    if found.Some? {
      assert ReserveOk(grp, grp.reserves[found.value]);
      AfterUnitTakes(grp, grp.reserves[found.value]);
    }
  }

  lemma AfterUnitTakes(grp: Group, row: Reserve)
    requires ReserveOk(grp, row) && row.status == Open
    ensures NextReserveReleaseMinor(row.original, row.remaining, row.units, row.unitsReleased) == UnitOf(row)
    ensures UnitTaken(row, AfterUnit(row, UnitOf(row)))
  {
  }

  /** Where the money of an accepted day goes: in from outside to the pool, and a unit to the payer. */
  lemma SettleMoves(cfg: ReserveConfig, b: Books, g: nat, grp: Group, k: nat, i: nat, a: Account)
    requires GroupOk(b, g, grp) && BooksOk(b) && SettleTx(cfg, b, g, grp, k, i, false).Ok?
    ensures HasContribution(grp, k, i)
    ensures var user := grp.members[i].user;
      Balance(SettleTx(cfg, b, g, grp, k, i, false).value.books.balances, a)
      == Balance(b.balances, a) + Moved(SystemExternal, GroupPool(g), grp.terms.perDay, a)
         + Moved(Reserved(user), Available(user), UnitDue(cfg, grp, user, k).1, a)
  {
    hide BooksOk, RowsOk, Post, InflowLines, UnitDue, KeysSpent, Reconciled;
    var user, day := grp.members[i].user, ContributionAt(grp, k, i).paidDays + 1;
    var key, lines := Inflow(g, k, i, day), InflowLines(g, grp.terms.perDay);
    PaymentKeysFresh(b, g, grp, k, i);
    CollectsFirst(cfg, b, g, grp, k, i);
    var after := Post(b, key, lines).books;
    PostMoves(b, key, lines, a);
    InflowMoves(g, grp.terms.perDay, a);
    var (r, amount) := UnitDue(cfg, grp, user, k);
    SameUnitDue(cfg, grp, Collected(grp, k, i), user, k);
    if amount > 0 {
      var unit := UnitRelease(g, r, k, i, day);
      DuplicateNeedsKey(after, unit, Reserved(user), Available(user), amount);
      TransferMoves(after, unit, Reserved(user), Available(user), amount, a);
    } else {
      assert amount == 0 by { UnitNeverNegative(cfg, grp, user, k); }
    }
  }

  lemma UnitNeverNegative(cfg: ReserveConfig, grp: Group, user: nat, k: nat)
    requires RowsOk(grp)
    ensures UnitDue(cfg, grp, user, k).1 >= 0
  {
    UnitByRows(cfg, grp, user, k);
  }

  lemma CollectsFirst(cfg: ReserveConfig, b: Books, g: nat, grp: Group, k: nat, i: nat)
    requires SettleTx(cfg, b, g, grp, k, i, false).Ok?
    requires HasContribution(grp, k, i) && Inflow(g, k, i, ContributionAt(grp, k, i).paidDays + 1) !in b.keys
    ensures var day := ContributionAt(grp, k, i).paidDays + 1;
      var r := Post(b, Inflow(g, k, i, day), InflowLines(g, grp.terms.perDay));
      && r.Posted? && r.books.keys == b.keys + {Inflow(g, k, i, day)}
      && SettleTx(cfg, b, g, grp, k, i, false) == ReleaseUnit(cfg, r.books, g, Collected(grp, k, i), k, i, day)
  {
    SettleIsInflowThenRelease(cfg, b, g, grp, k, i);
  }

  /**
   * An accepted day under a fresh reference: one day more on that contribution, Paid with the last one;
   * the daily amount into the pool; one unit of the payer's oldest open reserve from reserved to
   * available; and no other row or account touched.
   */
  lemma PaymentChanges(s: Sys, g: nat, k: nat, i: nat, ref: Option<nat>)
    requires SysOk(s) && !RefSeen(s, ref) && PayStep(s, g, k, i, ref).Ok?
    ensures g < |s.groups| && OwesDay(s.groups[g], k, i)
    ensures var next := PayStep(s, g, k, i, ref).value; var grp := s.groups[g]; var user := grp.members[i].user;
      && |next.groups| == |s.groups| && next.groups == s.groups[g := next.groups[g]] && next.cfg == s.cfg
      && next.refs == s.refs + (if ref.Some? then {ref.value} else {})
      && OneDayPaid(grp, next.groups[g], k, i) && |next.groups[g].reserves| == |grp.reserves|
      && (forall r: nat :: r < |grp.reserves| ==>
            if UnlocksFrom(s.cfg, grp, user, k, r) && UnitOf(grp.reserves[r]) > 0
            then UnitTaken(grp.reserves[r], next.groups[g].reserves[r])
            else next.groups[g].reserves[r] == grp.reserves[r])
      && forall a :: Balance(next.books.balances, a) == Balance(s.books.balances, a)
           + Moved(SystemExternal, GroupPool(g), grp.terms.perDay, a)
           + Moved(Reserved(user), Available(user), UnlockedBy(s.cfg, grp, user, k), a)
  {
    hide BooksOk, KeysSpent, Reconciled, RowsOk, SettleTx, UnlockedBy, UnitDue, OneDayPaid, UnitTaken, UnlocksFrom,
      Balance, Moved, SettledRows;
    PaysExactly(s, g, k, i, ref);
    var grp := s.groups[g];
    assert GroupOk(s.books, g, grp);
    SettleShape(s.cfg, s.books, g, grp, k, i);
    PaidRowsExactly(s.cfg, grp, k, i);
    UnitByRows(s.cfg, grp, grp.members[i].user, k);
    forall a { SettleMoves(s.cfg, s.books, g, grp, k, i, a); }
  }

  // ---- How many days a member can still pay ----------------------------------------------------------

  function Days(g: nat, k: nat, i: nat, n: nat): seq<Op> { seq(n, _ => Pay(g, k, i, None)) }

  /** No open reserve of the member waits for these payments. */
  predicate NothingToUnlock(cfg: ReserveConfig, grp: Group, i: nat) {
    i < |grp.members| && (cfg.enabled ==>
      forall r :: 0 <= r < |grp.reserves| ==> !IsOpen(grp.reserves[r], grp.members[i].user))
  }

  /** Days still to be paid by member `i` of the running cycle. */
  function DaysOwed(grp: Group, i: nat): int {
    if 1 <= grp.currentCycle <= |grp.cycles| && i < |grp.cycles[grp.currentCycle - 1]|
    then MemberCyclePaymentDays(grp.terms) - grp.cycles[grp.currentCycle - 1][i].paidDays else 0
  }

  /** After some of these payments: how many were accepted and what is owed still. */
  ghost predicate PaidSoFar(s: Sys, next: Sys, g: nat, i: nat, n: nat) {
    && SysOk(next) && next.cfg == s.cfg && g < |s.groups| && g < |next.groups|
    && next.groups[g].status == Active && next.groups[g].currentCycle == s.groups[g].currentCycle
    && |next.groups[g].members| == |s.groups[g].members|
    && NothingToUnlock(next.cfg, next.groups[g], i)
    && DaysOwed(next.groups[g], i) == if n < DaysOwed(s.groups[g], i) then DaysOwed(s.groups[g], i) - n else 0
  }

  lemma OneMoreAttempt(s: Sys, before: Sys, g: nat, k: nat, i: nat, n: nat)
    requires PaidSoFar(s, before, g, i, n) && k == s.groups[g].currentCycle && DaysOwed(s.groups[g], i) >= 0
    ensures PaidSoFar(s, Step(before, Pay(g, k, i, None)), g, i, n + 1)
    ensures PayStep(before, g, k, i, None).Ok? <==> n < DaysOwed(s.groups[g], i)
  {
    hide BooksOk, KeysSpent, Reconciled, SettleTx, GroupStep, UnitTaken;
    var grp := before.groups[g];
    assert GroupOk(before.books, g, grp);
    assert CycleRowOk(grp.terms, |grp.members|, grp.cycles[k - 1]);
    NothingUnlocked(before.cfg, grp, i, k);
    NothingBelow(before.books, grp.members[i].user);
    PaysExactly(before, g, k, i, None);
    PayKeepsSysOk(before, g, k, i, None);
    if PayStep(before, g, k, i, None).Ok? {
      PaymentChanges(before, g, k, i, None);
      assert ContributionOk(grp.terms, grp.cycles[k - 1][i]);
    }
  }

  lemma NothingBelow(b: Books, user: nat)
    requires BooksOk(b)
    ensures Balance(b.balances, Reserved(user)) >= 0
  {
  }

  lemma NothingUnlocked(cfg: ReserveConfig, grp: Group, i: nat, k: nat)
    requires NothingToUnlock(cfg, grp, i)
    ensures forall q: nat :: !UnlocksFrom(cfg, grp, grp.members[i].user, k, q)
    ensures UnlockedBy(cfg, grp, grp.members[i].user, k) == 0
  {
  }

  /**
   * A member without an open reserve can pay exactly the days still owed, whatever the length of the
   * cycle: of any number of attempts just so many are accepted, and the contribution is paid with the last.
   */
  lemma {:induction false} DaysArePayable(s: Sys, g: nat, i: nat, n: nat)
    requires SysOk(s) && g < |s.groups| && s.groups[g].status == Active && NothingToUnlock(s.cfg, s.groups[g], i)
    ensures var grp := s.groups[g]; var ops := Days(g, grp.currentCycle, i, n); var end := Run(s, ops);
      && PaymentCount(s, ops, g) == (if n < DaysOwed(grp, i) then n else DaysOwed(grp, i))
      && PaidSoFar(s, end, g, i, n)
      && 1 <= grp.currentCycle <= |end.groups[g].cycles| && i < |end.groups[g].cycles[grp.currentCycle - 1]|
      && (end.groups[g].cycles[grp.currentCycle - 1][i].status == Paid <==> n >= DaysOwed(grp, i))
  {
    hide Step, BooksOk, KeysSpent, Reconciled, PayStep, NothingToUnlock;
    var grp := s.groups[g];
    assert GroupOk(s.books, g, grp);
    assert CycleRowOk(grp.terms, |grp.members|, grp.cycles[grp.currentCycle - 1]);
    assert i < |grp.members| by { MemberInRange(s.cfg, grp, i); }
    assert ContributionOk(grp.terms, grp.cycles[grp.currentCycle - 1][i]);
    if n > 0 {
      var front := Days(g, grp.currentCycle, i, n - 1);
      assert Days(g, grp.currentCycle, i, n)[..n - 1] == front;
      DaysArePayable(s, g, i, n - 1);
      OneMoreAttempt(s, Run(s, front), g, grp.currentCycle, i, n - 1);
    }
    var end := Run(s, Days(g, grp.currentCycle, i, n));
    PaidWhenNothingOwed(end, g, i);
  }

  lemma MemberInRange(cfg: ReserveConfig, grp: Group, i: nat)
    requires NothingToUnlock(cfg, grp, i)
    ensures i < |grp.members|
  {
  }

  lemma PaidWhenNothingOwed(s: Sys, g: nat, i: nat)
    requires SysOk(s) && g < |s.groups| && s.groups[g].status == Active && i < |s.groups[g].members|
    ensures var grp := s.groups[g];
      && 1 <= grp.currentCycle <= |grp.cycles| && i < |grp.cycles[grp.currentCycle - 1]|
      && (grp.cycles[grp.currentCycle - 1][i].status == Paid <==> DaysOwed(grp, i) == 0)
  {
    var grp := s.groups[g];
    assert GroupOk(s.books, g, grp);
    assert CycleRowOk(grp.terms, |grp.members|, grp.cycles[grp.currentCycle - 1]);
    assert ContributionOk(grp.terms, grp.cycles[grp.currentCycle - 1][i]);
  }
}
