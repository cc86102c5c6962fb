/**
 * The compliance sync read off rows and clock: when a member becomes late or defaults, what the sync makes
 * of everyone it gets to, and every pesewa that moves.
 */
module Deadlines {
  import opened Wrappers
  import opened Accounts
  import opened Ledger
  import opened ReserveMath
  import opened Preview
  import opened Rows
  import opened Engine
  import opened RowInvariants
  import opened Protocol
  import opened Compliance
  import opened SyncFaults
  import opened Payments
  import opened Defaults

  // ---- The clock -------------------------------------------------------------------------------------

  /** The last day on which the running cycle can be paid without defaulting. */
  function Deadline(grp: Group): int {
    grp.terms.startDay + (grp.currentCycle - 1) * grp.terms.days + MemberCyclePaymentDays(grp.terms) + grp.graceDays
  }

  /** Days of the running cycle that should have been paid by `today`. */
  function DaysDue(grp: Group, today: int): int {
    var since := today - (grp.terms.startDay + (grp.currentCycle - 1) * grp.terms.days);
    Lesser(MemberCyclePaymentDays(grp.terms), if since > 0 then since else 0)
  }

  /** Days that member `i` has paid of the running cycle. */
  function DaysPaid(grp: Group, i: nat): int { MemberCyclePaymentDays(grp.terms) - DaysOwed(grp, i) }

  predicate NewlyDefaults(grp: Group, i: nat, today: int) {
    i < |grp.members| && OwesRunning(grp, i) && grp.members[i].standing != Defaulted && today > Deadline(grp)
  }

  lemma StandingByClock(grp: Group, i: nat, today: int)
    requires RowsOk(grp) && grp.status == Active && i < |grp.members|
    ensures NextStanding(grp, i, today) ==
      if !OwesRunning(grp, i) then Some(Good)
      else if grp.members[i].standing == Defaulted then Some(Defaulted)
      else if today > Deadline(grp) then None
      else if DaysPaid(grp, i) < DaysDue(grp, today) then Some(Late) else Some(Good)
  {
    hide RowsOk;
    MissedIsOwed(grp, i);
  }

  // ---- One member ------------------------------------------------------------------------------------

  /** The default of member `i` draws on reserve `q`. */
  ghost predicate DrawsOn(cfg: ReserveConfig, grp: Group, i: nat, today: int, q: nat) {
    NewlyDefaults(grp, i, today) && HasBeenPaidOut(grp, grp.members[i].user) && CoversFrom(cfg, grp, i, q)
  }

  /** What the default of member `i` takes from the member's wallet. */
  ghost function TakenFrom(cfg: ReserveConfig, grp: Group, i: nat, today: int): int {
    if NewlyDefaults(grp, i, today) && HasBeenPaidOut(grp, grp.members[i].user) then CoverTaken(cfg, grp, i) else 0
  }

  /** The member's row and days once assessed. */
  ghost predicate Assessed(cfg: ReserveConfig, grp: Group, next: Group, i: nat, today: int)
    requires i < |grp.members|
  {
    && i < |next.members|
    && var m, now := grp.members[i], next.members[i];
    if !OwesRunning(grp, i) then now == m.(standing := Good) && DaysOwed(next, i) == DaysOwed(grp, i)
    else if m.standing == Defaulted then now == m && DaysOwed(next, i) == DaysOwed(grp, i)
    else if today <= Deadline(grp) then
      && now == m.(standing := if DaysPaid(grp, i) < DaysDue(grp, today) then Late else Good)
      && DaysOwed(next, i) == DaysOwed(grp, i)
    else
      && now == m.(standing := Defaulted, deposit := Forfeited, payoutOrder := now.payoutOrder)
      && DaysOwed(next, i) == (if TakenFrom(cfg, grp, i, today) == AmountOwed(grp, i) then 0 else DaysOwed(grp, i))
      && if HasBeenPaidOut(grp, m.user) then now.payoutOrder == m.payoutOrder
         else forall j :: 0 <= j < |grp.members| ==> grp.members[j].payoutOrder < now.payoutOrder
  }

  /** What the sync of member `i` cannot touch. */
  ghost predicate OthersKept(grp: Group, next: Group, i: nat)
    requires i < |grp.members|
  {
    && next == grp.(members := next.members, cycles := next.cycles, reserves := next.reserves, covers := next.covers)
    && |next.members| == |grp.members| && |next.reserves| == |grp.reserves|
    && grp.members[i].payoutOrder <= next.members[i].payoutOrder
    && (forall j: nat :: j < |grp.members| && j != i ==>
          next.members[j] == grp.members[j] && DaysOwed(next, j) == DaysOwed(grp, j))
    && (forall q: nat :: q < |grp.reserves| ==>
          next.reserves[q] == grp.reserves[q]
          || (next.reserves[q].user == grp.reserves[q].user == grp.members[i].user))
    && grp.covers <= next.covers
    && forall c :: |grp.covers| <= c < |next.covers| ==> next.covers[c].user == grp.members[i].user
  }

  /** The reserve row once `amount` was drawn. */
  function Drawn(row: Reserve, amount: int): Reserve {
    row.(remaining := row.remaining - amount, usedForDefault := row.usedForDefault + amount,
         status := if row.remaining == amount then Closed else row.status)
  }

  ghost predicate ReservesDrawn(cfg: ReserveConfig, grp: Group, next: Group, i: nat, today: int) {
    && |next.reserves| == |grp.reserves|
    && forall q: nat :: q < |grp.reserves| ==>
         next.reserves[q] == if DrawsOn(cfg, grp, i, today, q) then Drawn(grp.reserves[q], CoverTaken(cfg, grp, i))
                             else grp.reserves[q]
  }

  /** What the sync of member `i` moves on account `a`: deposit and cover, into the pool. */
  ghost function MovedFor(cfg: ReserveConfig, g: nat, grp: Group, i: nat, today: int, a: Account): int {
    if !NewlyDefaults(grp, i, today) then 0
    else
      var m := grp.members[i];
      Moved(Escrow(m.user), GroupPool(g), Stake(m), a)
      + Moved(Reserved(m.user), GroupPool(g), TakenFrom(cfg, grp, i, today), a)
  }

  lemma MemberSynced(cfg: ReserveConfig, b: Books, groups: seq<Group>, g: nat, i: nat, today: int)
    requires GroupsOk(b, groups) && g < |groups| && i < |groups[g].members|
    requires groups[g].status == Active && groups[g].terms.mode == Cycle
    requires SyncMember(cfg, b, g, groups[g], i, today).Ok?
    ensures var grp := groups[g]; var l := SyncMember(cfg, b, g, grp, i, today).value;
      && OthersKept(grp, l.grp, i) && Assessed(cfg, grp, l.grp, i, today) && ReservesDrawn(cfg, grp, l.grp, i, today)
      && forall a :: Balance(l.books.balances, a) == Balance(b.balances, a) + MovedFor(cfg, g, grp, i, today, a)
  {
    hide GroupsOk, GroupOk, RowsOk, DefaultTx, CoverMade, SentBack, CoverTaken, CoversFrom, Moved, Balance,
      NextStanding, DaysOwed, Deadline;
    var grp := groups[g];
    GroupInOrder(b, groups, g);
    RowsInOrder(b, g, grp);
    StandingByClock(grp, i, today);
    if NewlyDefaults(grp, i, today) {
      DefaultChanges(cfg, b, groups, g, i);
      DefaultIsAssessed(cfg, grp, DefaultTx(cfg, b, g, grp, i).value.grp, i, today);
    } else {
      StandingIsAssessed(cfg, grp, i, today);
    }
  }

  lemma GroupInOrder(b: Books, groups: seq<Group>, g: nat)
    requires GroupsOk(b, groups) && g < |groups|
    ensures BooksOk(b) && GroupOk(b, g, groups[g])
  {
  }

  lemma RowsInOrder(b: Books, g: nat, grp: Group)
    requires GroupOk(b, g, grp)
    ensures RowsOk(grp)
  {
  }

  lemma StandingIsAssessed(cfg: ReserveConfig, grp: Group, i: nat, today: int)
    requires RowsOk(grp) && grp.status == Active && i < |grp.members| && NextStanding(grp, i, today).Some?
    ensures var next := WithStanding(grp, i, NextStanding(grp, i, today).value);
      OthersKept(grp, next, i) && Assessed(cfg, grp, next, i, today) && ReservesDrawn(cfg, grp, next, i, today)
  {
    hide RowsOk, NextStanding, CoverTaken, CoversFrom, Deadline;
    StandingByClock(grp, i, today);
    SameDaysOwed(grp, WithStanding(grp, i, NextStanding(grp, i, today).value));
  }

  lemma SameDaysOwed(grp: Group, next: Group)
    requires next.cycles == grp.cycles && next.terms == grp.terms && next.currentCycle == grp.currentCycle
    ensures forall j: nat :: DaysOwed(next, j) == DaysOwed(grp, j)
  {
  }

  lemma DefaultIsAssessed(cfg: ReserveConfig, grp: Group, next: Group, i: nat, today: int)
    requires RowsOk(grp) && grp.status == Active && NewlyDefaults(grp, i, today)
    requires SentBack(grp, next, i, HasBeenPaidOut(grp, grp.members[i].user))
    requires CoverMade(cfg, grp, next, i, HasBeenPaidOut(grp, grp.members[i].user))
    requires next == grp.(members := next.members, cycles := next.cycles, reserves := next.reserves,
                          covers := next.covers)
    ensures OthersKept(grp, next, i) && Assessed(cfg, grp, next, i, today) && ReservesDrawn(cfg, grp, next, i, today)
  {
    hide RowsOk, CoverTaken, Deadline, AmountOwed;
    MissedIsOwed(grp, i);
    var paidOut := HasBeenPaidOut(grp, grp.members[i].user);
    if q: nat :| paidOut && CoversFrom(cfg, grp, i, q) {
      forall p: nat | CoversFrom(cfg, grp, i, p) ensures p == q {
        OldestIsOne(grp.reserves, grp.members[i].user, p, q);
      }
    } else if paidOut {
      NobodyCovers(cfg, grp, i);
    }
  }

  // ---- The whole sync --------------------------------------------------------------------------------

  /** Nothing that decides about member `j` differs. */
  ghost predicate SameCase(cfg: ReserveConfig, grp: Group, next: Group, j: nat, today: int) {
    && j < |grp.members| == |next.members| && next.members[j] == grp.members[j]
    && DaysOwed(next, j) == DaysOwed(grp, j) && AmountOwed(next, j) == AmountOwed(grp, j)
    && Deadline(next) == Deadline(grp) && DaysDue(next, today) == DaysDue(grp, today)
    && (HasBeenPaidOut(next, grp.members[j].user) <==> HasBeenPaidOut(grp, grp.members[j].user))
    && CoverTaken(cfg, next, j) == CoverTaken(cfg, grp, j)
    && forall q: nat :: CoversFrom(cfg, next, j, q) <==> CoversFrom(cfg, grp, j, q)
  }

  lemma OldestElsewhere(grp: Group, next: Group, i: nat, user: nat, q: nat)
    requires i < |grp.members| && OthersKept(grp, next, i) && user != grp.members[i].user
    ensures OldestOpen(next.reserves, user, q) <==> OldestOpen(grp.reserves, user, q)
    ensures OldestOpen(grp.reserves, user, q) ==> next.reserves[q] == grp.reserves[q]
  {
    hide DaysOwed;
    assert forall r: nat :: r < |grp.reserves| ==> (IsOpen(next.reserves[r], user) <==> IsOpen(grp.reserves[r], user));
  }

  lemma CoversElsewhere(cfg: ReserveConfig, grp: Group, next: Group, i: nat, j: nat, q: nat)
    requires i < |grp.members| && j < |grp.members| && OthersKept(grp, next, i) && j != i
    requires grp.members[j].user != grp.members[i].user
    ensures CoversFrom(cfg, next, j, q) <==> CoversFrom(cfg, grp, j, q)
    ensures CoversFrom(cfg, grp, j, q) ==> q < |grp.reserves| && next.reserves[q] == grp.reserves[q]
  {
    hide DaysOwed, OldestOpen;
    OldestElsewhere(grp, next, i, grp.members[j].user, q);
    assert forall c :: 0 <= c < |grp.covers| ==> next.covers[c] == grp.covers[c];
    assert OldestOpen(grp.reserves, grp.members[j].user, q) ==> q < |grp.reserves| by {
      OldestInRange(grp.reserves, grp.members[j].user, q);
    }
  }

  lemma OldestInRange(reserves: seq<Reserve>, user: nat, q: nat)
    ensures OldestOpen(reserves, user, q) ==> q < |reserves| && reserves[q].user == user
  {
  }

  lemma OthersSameCase(cfg: ReserveConfig, grp: Group, next: Group, i: nat, j: nat, today: int)
    requires i < |grp.members| && j < |grp.members| && OthersKept(grp, next, i) && j != i
    requires grp.members[j].user != grp.members[i].user
    ensures SameCase(cfg, grp, next, j, today)
  {
    hide DaysOwed, CoversFrom, CoverTaken;
    forall q: nat
      ensures CoversFrom(cfg, next, j, q) <==> CoversFrom(cfg, grp, j, q)
      ensures CoversFrom(cfg, grp, j, q) ==> q < |grp.reserves| && next.reserves[q] == grp.reserves[q]
    {
      CoversElsewhere(cfg, grp, next, i, j, q);
    }
    if q: nat :| CoversFrom(cfg, grp, j, q) {
      OnlyOneCovers(cfg, grp, j, q);
      OnlyOneCovers(cfg, next, j, q);
    } else {
      NobodyCovers(cfg, grp, j);
      NobodyCovers(cfg, next, j);
    }
  }

  /** Those sent back line up in the order of the visits. */
  ghost predicate LinedUp(grp: Group, next: Group, j: nat, today: int)
    requires j < |grp.members| == |next.members|
  {
    NewlyDefaults(grp, j, today) && !HasBeenPaidOut(grp, grp.members[j].user) ==>
      forall p: nat :: p < j ==> next.members[p].payoutOrder < next.members[j].payoutOrder
  }

  /** Members `i` up to `m` are assessed, and nothing else is changed. */
  ghost predicate SyncedBetween(cfg: ReserveConfig, grp: Group, next: Group, i: nat, m: nat, today: int) {
    && next == grp.(members := next.members, cycles := next.cycles, reserves := next.reserves, covers := next.covers)
    && |next.members| == |grp.members| && |next.reserves| == |grp.reserves|
    && (forall j: nat :: j < |grp.members| ==>
          if i <= j < m then Assessed(cfg, grp, next, j, today) && LinedUp(grp, next, j, today)
          else next.members[j] == grp.members[j] && DaysOwed(next, j) == DaysOwed(grp, j))
    && forall q: nat :: q < |grp.reserves| ==> RowDrawn(cfg, grp, next, i, m, today, q)
  }

  /** Row `q` is drawn on by the default of its owner, if that calls for it. */
  ghost predicate RowDrawn(cfg: ReserveConfig, grp: Group, next: Group, i: nat, m: nat, today: int, q: nat)
    requires q < |grp.reserves| == |next.reserves|
  {
    && (forall j: nat :: i <= j < m && DrawsOn(cfg, grp, j, today, q) ==>
          next.reserves[q] == Drawn(grp.reserves[q], CoverTaken(cfg, grp, j)))
    && ((forall j: nat :: i <= j < m ==> !DrawsOn(cfg, grp, j, today, q)) ==> next.reserves[q] == grp.reserves[q])
  }

  /** What the sync of members `i` up to `m` moves on account `a`. */
  ghost function SyncMoves(cfg: ReserveConfig, g: nat, grp: Group, i: nat, m: nat, today: int, a: Account): int
    decreases m - i
  {
    if i >= m then 0 else MovedFor(cfg, g, grp, i, today, a) + SyncMoves(cfg, g, grp, i + 1, m, today, a)
  }

  lemma {:induction false} SameMoves(
      cfg: ReserveConfig, g: nat, grp: Group, next: Group, i: nat, m: nat, today: int, a: Account)
    requires forall j: nat :: i <= j < m ==> SameCase(cfg, grp, next, j, today)
    ensures SyncMoves(cfg, g, next, i, m, today, a) == SyncMoves(cfg, g, grp, i, m, today, a)
    decreases m - i
  {
    hide Moved, CoverTaken, DaysOwed, Deadline, CoversFrom;
    if i < m {
      assert SameCase(cfg, grp, next, i, today);
      SameMoves(cfg, g, grp, next, i + 1, m, today, a);
    }
  }

  lemma AssessedLater(cfg: ReserveConfig, grp: Group, mid: Group, next: Group, i: nat, j: nat, today: int)
    requires i < |grp.members| && j < |grp.members| && i < j && OthersKept(grp, mid, i)
    requires SameCase(cfg, grp, mid, j, today) && |next.members| == |grp.members|
    requires Assessed(cfg, mid, next, j, today) && LinedUp(mid, next, j, today)
    ensures Assessed(cfg, grp, next, j, today) && LinedUp(grp, next, j, today)
  {
    hide CoverTaken, CoversFrom, AmountOwed, DaysOwed, Deadline, HasBeenPaidOut;
  }

  lemma AssessedBefore(cfg: ReserveConfig, grp: Group, mid: Group, next: Group, i: nat, today: int)
    requires i < |grp.members| && OthersKept(grp, mid, i) && Assessed(cfg, grp, mid, i, today)
    requires |next.members| == |grp.members| && DaysOwed(next, i) == DaysOwed(mid, i)
    requires forall j: nat :: j <= i ==> next.members[j] == mid.members[j]
    ensures Assessed(cfg, grp, next, i, today) && LinedUp(grp, next, i, today)
  {
    hide CoverTaken, CoversFrom, AmountOwed, DaysOwed, Deadline, HasBeenPaidOut;
  }

  lemma DrawnElsewhere(cfg: ReserveConfig, grp: Group, mid: Group, next: Group, i: nat, m: nat, today: int, q: nat)
    requires i < m <= |grp.members| && OthersKept(grp, mid, i) && |next.reserves| == |grp.reserves|
    requires q < |grp.reserves| && ReservesDrawn(cfg, grp, mid, i, today)
    requires forall j: nat :: i < j < m ==>
      SameCase(cfg, grp, mid, j, today) && grp.members[j].user != grp.members[i].user
    requires RowDrawn(cfg, mid, next, i + 1, m, today, q)
    ensures RowDrawn(cfg, grp, next, i, m, today, q)
  {
    hide CoverTaken, AmountOwed, DaysOwed, Deadline, HasBeenPaidOut, OthersKept, OldestOpen;
    forall j: nat | i <= j < m && DrawsOn(cfg, grp, j, today, q)
      ensures j < |grp.members| && grp.reserves[q].user == grp.members[j].user
    {
      OldestInRange(grp.reserves, grp.members[j].user, q);
    }
    forall j: nat | i < j < m ensures DrawsOn(cfg, mid, j, today, q) <==> DrawsOn(cfg, grp, j, today, q) {
      assert SameCase(cfg, grp, mid, j, today);
    }
  }

  lemma OneMoreSynced(cfg: ReserveConfig, grp: Group, mid: Group, next: Group, i: nat, m: nat, today: int)
    requires i < m <= |grp.members| && OthersKept(grp, mid, i) && Assessed(cfg, grp, mid, i, today)
    requires ReservesDrawn(cfg, grp, mid, i, today) && SyncedBetween(cfg, mid, next, i + 1, m, today)
    requires forall j: nat :: j < |grp.members| && j != i ==> grp.members[j].user != grp.members[i].user
    ensures SyncedBetween(cfg, grp, next, i, m, today)
    ensures forall j: nat :: i < j < m ==> SameCase(cfg, grp, mid, j, today)
  {
    hide CoverTaken, CoversFrom, AmountOwed, DaysOwed, Deadline, HasBeenPaidOut, Assessed, LinedUp, RowDrawn, SameCase,
      ReservesDrawn;
    forall j: nat | i < j < m ensures SameCase(cfg, grp, mid, j, today) {
      OthersSameCase(cfg, grp, mid, i, j, today);
    }
    AssessedBefore(cfg, grp, mid, next, i, today);
    forall j: nat | i < j < m ensures Assessed(cfg, grp, next, j, today) && LinedUp(grp, next, j, today) {
      AssessedLater(cfg, grp, mid, next, i, j, today);
    }
    forall q: nat | q < |grp.reserves| ensures RowDrawn(cfg, grp, next, i, m, today, q) {
      DrawnElsewhere(cfg, grp, mid, next, i, m, today, q);
    }
  }

  /** Member `i` newly defaults, and the cover exceeds what the member's wallet holds. */
  ghost predicate WalletShort(cfg: ReserveConfig, b: Books, grp: Group, i: nat, today: int) {
    && NewlyDefaults(grp, i, today)
    && TakenFrom(cfg, grp, i, today) > Balance(b.balances, Reserved(grp.members[i].user))
  }

  lemma RefusedByRows(cfg: ReserveConfig, b: Books, grp: Group, i: nat, today: int)
    requires RowsOk(grp) && BooksOk(b) && grp.status == Active && i < |grp.members|
    ensures CoverRefused(cfg, b, grp, i, today) <==> WalletShort(cfg, b, grp, i, today)
  {
    hide RowsOk, CoverDue, CoverTaken, AmountOwed, Deadline, NextStanding;
    StandingByClock(grp, i, today);
    CoverByRows(cfg, grp, i);
    PaidOutByRows(grp, grp.members[i].user);
    NothingBelow(b, grp.members[i].user);
  }

  lemma {:induction false} SyncedFrom(
      cfg: ReserveConfig, b: Books, groups: seq<Group>, g: nat, i: nat, m: nat, today: int)
    requires GroupsOk(b, groups) && g < |groups| && i <= m
    requires groups[g].status == Active && groups[g].terms.mode == Cycle
    requires FirstRefused(cfg, b, groups[g], i, m, today)
    ensures var grp := groups[g]; var l := SyncFrom(cfg, b, g, grp, i, today).local;
      && SyncedBetween(cfg, grp, l.grp, i, m, today)
      && forall a :: Balance(l.books.balances, a) == Balance(b.balances, a) + SyncMoves(cfg, g, grp, i, m, today, a)
    decreases m - i
  {
    hide GroupsOk, SyncMember, CoverRefused, SameCover, SameCase, MovedFor, SyncedBetween, Balance, OthersKept,
      Assessed, ReservesDrawn;
    var grp := groups[g];
    if i == m {
      if i < |grp.members| { SyncMemberFaultsExactly(cfg, b, groups, g, i, today); }
      NobodySynced(cfg, grp, i, today);
    } else {
      SyncMemberFaultsExactly(cfg, b, groups, g, i, today);
      var l := SyncMember(cfg, b, g, grp, i, today).value;
      AfterMember(cfg, b, groups, g, i, today);
      forall j: nat | i < j < |grp.members|
        ensures CoverRefused(cfg, l.books, l.grp, j, today) <==> CoverRefused(cfg, b, grp, j, today)
      {
        SameCoverSameRefusal(cfg, b, grp, l.books, l.grp, j, today);
      }
      SyncedFrom(cfg, l.books, groups[g := l.grp], g, i + 1, m, today);
      MemberSynced(cfg, b, groups, g, i, today);
      UsersDiffer(b, groups, g, i);
      OneMoreSynced(cfg, grp, l.grp, SyncFrom(cfg, b, g, grp, i, today).local.grp, i, m, today);
      var rest: nat := i + 1;
      forall a ensures SyncMoves(cfg, g, l.grp, rest, m, today, a) == SyncMoves(cfg, g, grp, rest, m, today, a) {
        SameMoves(cfg, g, grp, l.grp, rest, m, today, a);
      }
    }
  }

  lemma NobodySynced(cfg: ReserveConfig, grp: Group, i: nat, today: int)
    ensures SyncedBetween(cfg, grp, grp, i, i, today)
  {
    hide DaysOwed;
  }

  lemma UsersDiffer(b: Books, groups: seq<Group>, g: nat, i: nat)
    requires GroupsOk(b, groups) && g < |groups| && i < |groups[g].members|
    ensures forall j: nat :: j < |groups[g].members| && j != i ==>
      groups[g].members[j].user != groups[g].members[i].user
  {
    assert GroupOk(b, g, groups[g]);
  }

  /**
   * A sync assesses everyone up to the first member whose cover the wallet does not hold, and nobody from
   * there on. Rows change only as the assessments say, and every balance moves by what they sum to.
   */
  lemma SyncByClock(cfg: ReserveConfig, b: Books, groups: seq<Group>, g: nat, today: int) returns (m: nat)
    requires GroupsOk(b, groups) && g < |groups| && groups[g].status == Active && groups[g].terms.mode == Cycle
    ensures var grp := groups[g]; var out := SyncGroup(cfg, b, g, grp, today);
      && m <= |grp.members| && (forall j: nat :: j < m ==> !WalletShort(cfg, b, grp, j, today))
      && (if m < |grp.members| then WalletShort(cfg, b, grp, m, today) && out.fault.Some? else out.fault.None?)
      && SyncedBetween(cfg, grp, out.local.grp, 0, m, today)
      && forall a :: Balance(out.local.books.balances, a)
           == Balance(b.balances, a) + SyncMoves(cfg, g, grp, 0, m, today, a)
  {
    hide GroupOk, GroupsOk, RowsOk, CoverRefused, WalletShort, SyncedBetween, SyncMoves, Balance, Unassessed, SyncFrom;
    var grp := groups[g];
    m := SyncFaultsExactly(cfg, b, groups, g, today);
    SyncedFrom(cfg, b, groups, g, 0, m, today);
    GroupInOrder(b, groups, g);
    RowsInOrder(b, g, grp);
    forall j: nat | j < |grp.members|
      ensures CoverRefused(cfg, b, grp, j, today) <==> WalletShort(cfg, b, grp, j, today)
    {
      RefusedByRows(cfg, b, grp, j, today);
    }
  }

  lemma {:induction false} QuietRows(cfg: ReserveConfig, b: Books, g: nat, grp: Group, i: nat, today: int)
    requires AllQuiet(grp, i, |grp.members|, today)
    ensures var out := SyncFrom(cfg, b, g, grp, i, today);
      out.fault.None? && out.local.books == b && out.local.grp == grp.(members := out.local.grp.members)
    decreases |grp.members| - i
  {
    hide DefaultTx, NextStanding;
    if i < |grp.members| {
      assert Quiet(grp, i, today);
      OthersKeepNext(cfg, b, g, grp, i, today);
      QuietRows(cfg, b, g, SyncMember(cfg, b, g, grp, i, today).value.grp, i + 1, today);
    }
  }

  /** Up to the deadline a sync is never refused and moves nothing; it only tells who is late. */
  lemma InTimeNobodyDefaults(cfg: ReserveConfig, b: Books, groups: seq<Group>, g: nat, today: int)
    requires GroupsOk(b, groups) && g < |groups| && groups[g].status == Active && groups[g].terms.mode == Cycle
    requires today <= Deadline(groups[g])
    ensures var grp := groups[g]; var out := SyncGroup(cfg, b, g, grp, today);
      && out.fault.None? && out.local.books == b && out.local.grp == grp.(members := out.local.grp.members)
      && |out.local.grp.members| == |grp.members|
      && forall j: nat :: j < |grp.members| ==>
           out.local.grp.members[j] == grp.members[j].(standing :=
             if DaysOwed(grp, j) <= 0 then Good
             else if grp.members[j].standing == Defaulted then Defaulted
             else if DaysPaid(grp, j) < DaysDue(grp, today) then Late else Good)
  {
    hide GroupOk, RowsOk, NextStanding, SyncMoves, WalletShort, DaysOwed, Deadline, SyncFrom;
    var grp := groups[g];
    GroupInOrder(b, groups, g);
    RowsInOrder(b, g, grp);
    forall j: nat | j < |grp.members| ensures Quiet(grp, j, today) {
      StandingByClock(grp, j, today);
    }
    QuietRows(cfg, b, g, grp, 0, today);
    var m := SyncByClock(cfg, b, groups, g, today);
  }

  /** DAILY members are in good standing after every sync; a group that does not run is left alone. */
  lemma OtherSyncs(cfg: ReserveConfig, b: Books, g: nat, grp: Group, today: int)
    requires grp.status != Active || grp.terms.mode == Daily
    ensures var out := SyncGroup(cfg, b, g, grp, today);
      && out.fault.None? && out.local.books == b && out.local.grp == grp.(members := out.local.grp.members)
      && |out.local.grp.members| == |grp.members|
      && forall j: nat :: j < |grp.members| ==>
           out.local.grp.members[j]
             == if grp.status == Active then grp.members[j].(standing := Good) else grp.members[j]
  {
  }
}
