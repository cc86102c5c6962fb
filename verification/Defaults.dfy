/** What one default does, read off the rows: deposit, reserve, queue place, and every balance. */
module Defaults {
  import opened Wrappers
  import opened Accounts
  import opened Ledger
  import opened ReserveMath
  import opened Preview
  import opened Rows
  import opened PayoutQueue
  import opened Engine
  import opened Accounting
  import opened RowInvariants
  import opened GroupSafety
  import opened Protocol
  import opened Solvency
  import opened Payments

  // ---- What a default takes from a reserve, from the rows ----------------------------------------

  predicate OwesRunning(grp: Group, i: nat) { DaysOwed(grp, i) > 0 }

  predicate HasBeenPaidOut(grp: Group, user: nat) {
    exists p :: 0 <= p < |grp.payouts| && grp.payouts[p].recipient == user
  }

  predicate IsCoverOf(c: Coverage, user: nat, k: nat, q: nat) { c.user == user && c.cycle == k && c.reserve == q }

  /** Reserve `q` is drawn on for the running contribution of member `i`. */
  ghost predicate CoversFrom(cfg: ReserveConfig, grp: Group, i: nat, q: nat) {
    && cfg.enabled && i < |grp.members| && OwesRunning(grp, i)
    && OldestOpen(grp.reserves, grp.members[i].user, q)
    && forall c :: 0 <= c < |grp.covers| ==> !IsCoverOf(grp.covers[c], grp.members[i].user, grp.currentCycle, q)
  }

  /** What member `i` owes of the running cycle, in pesewas. */
  function AmountOwed(grp: Group, i: nat): int { grp.terms.perDay * DaysOwed(grp, i) }

  function Lesser(x: int, y: int): int { if x < y then x else y }

  /** All that is owed, or all that remains. */
  ghost function CoverTaken(cfg: ReserveConfig, grp: Group, i: nat): int {
    if q: nat :| CoversFrom(cfg, grp, i, q) then Lesser(AmountOwed(grp, i), grp.reserves[q].remaining) else 0
  }

  lemma OnlyOneCovers(cfg: ReserveConfig, grp: Group, i: nat, q: nat)
    requires CoversFrom(cfg, grp, i, q)
    ensures CoverTaken(cfg, grp, i) == Lesser(AmountOwed(grp, i), grp.reserves[q].remaining)
  {
    forall p: nat | CoversFrom(cfg, grp, i, p) ensures p == q {
      OldestIsOne(grp.reserves, grp.members[i].user, p, q);
    }
  }

  lemma OldestIsOne(reserves: seq<Reserve>, user: nat, p: nat, q: nat)
    requires OldestOpen(reserves, user, p) && OldestOpen(reserves, user, q)
    ensures p == q
  {
  }

  lemma NobodyCovers(cfg: ReserveConfig, grp: Group, i: nat)
    requires forall q: nat :: !CoversFrom(cfg, grp, i, q)
    ensures CoverTaken(cfg, grp, i) == 0
  {
  }

  lemma CoverExistsByRows(grp: Group, r: nat, k: nat, user: nat)
    ensures CoverExists(grp, r, k, user) <==> exists c :: 0 <= c < |grp.covers| && IsCoverOf(grp.covers[c], user, k, r)
  {
    if CoverExists(grp, r, k, user) {
      var c :| 0 <= c < |grp.covers|
        && grp.covers[c].reserve == r && grp.covers[c].cycle == k && grp.covers[c].user == user;
      assert IsCoverOf(grp.covers[c], user, k, r);
    }
    if exists c :: 0 <= c < |grp.covers| && IsCoverOf(grp.covers[c], user, k, r) {
      var c :| 0 <= c < |grp.covers| && IsCoverOf(grp.covers[c], user, k, r);
      assert grp.covers[c].reserve == r && grp.covers[c].cycle == k && grp.covers[c].user == user;
    }
  }

  /** What is missed is what is owed: the days still to pay, at the daily amount. */
  lemma MissedIsOwed(grp: Group, i: nat)
    requires RowsOk(grp) && grp.status == Active && i < |grp.members|
    ensures HasContribution(grp, grp.currentCycle, i)
    ensures var c := ContributionAt(grp, grp.currentCycle, i);
      && MissedContributionMinor(c.amount, c.expectedDays, c.paidDays) == AmountOwed(grp, i)
      && (c.status != Paid <==> OwesRunning(grp, i)) && DaysOwed(grp, i) >= 0
      && c.expectedDays == MemberCyclePaymentDays(grp.terms)
      && (OwesRunning(grp, i) ==> AmountOwed(grp, i) >= 1)
  {
    assert CycleRowOk(grp.terms, |grp.members|, grp.cycles[grp.currentCycle - 1]);
    var c := ContributionAt(grp, grp.currentCycle, i);
    assert ContributionOk(grp.terms, c);
    TermsFacts(grp.terms);
    MissedIsExact(grp.terms, c);
    if OwesRunning(grp, i) { MulOrder(1, DaysOwed(grp, i), grp.terms.perDay); }
  }

  /** The rows alone say from where and how much a cover takes. */
  lemma CoverByRows(cfg: ReserveConfig, grp: Group, i: nat)
    requires RowsOk(grp) && grp.status == Active && i < |grp.members|
    ensures CoverDue(cfg, grp, grp.currentCycle, i).2 == CoverTaken(cfg, grp, i) >= 0
    ensures CoverTaken(cfg, grp, i) > 0 ==>
      var (r, missed, amount) := CoverDue(cfg, grp, grp.currentCycle, i);
      CoversFrom(cfg, grp, i, r) && missed == AmountOwed(grp, i)
    ensures forall q: nat :: CoversFrom(cfg, grp, i, q) ==> CoverTaken(cfg, grp, i) > 0
  {
    hide RowsOk, FirstOpen, MissedContributionMinor, AmountOwed, DaysOwed, CoverExists;
    MissedIsOwed(grp, i);
    var user, k, found := grp.members[i].user, grp.currentCycle, FirstOpen(grp.reserves, grp.members[i].user);
    forall q: nat ensures found == Some(q) <==> OldestOpen(grp.reserves, user, q) {
      FirstOpenIsOldest(grp.reserves, user, q);
    }
    if found.Some? {
      var r := found.value;
      OpenHoldsSomething(grp, r);
      CoverExistsByRows(grp, r, k, user);
      if CoversFrom(cfg, grp, i, r) {
        OnlyOneCovers(cfg, grp, i, r);
      } else {
        NobodyCovers(cfg, grp, i);
      }
    } else {
      NobodyCovers(cfg, grp, i);
    }
  }

  lemma OpenHoldsSomething(grp: Group, r: nat)
    requires RowsOk(grp) && r < |grp.reserves| && grp.reserves[r].status == Open
    ensures grp.reserves[r].remaining > 0
  {
    assert ReserveOk(grp, grp.reserves[r]);
  }

  // ---- One default -------------------------------------------------------------------------------

  /** The reserve rows once `amount` was drawn from row `q`. */
  predicate DrawnFrom(reserves: seq<Reserve>, after: seq<Reserve>, q: nat, amount: int) {
    && q < |reserves|
    && var row := reserves[q];
    after == reserves[q := row.(remaining := row.remaining - amount, usedForDefault := row.usedForDefault + amount,
                                status := if row.remaining == amount then Closed else row.status)]
  }

  /** What the cover of member `i` does to contributions, reserves and covers. */
  ghost predicate CoverMade(cfg: ReserveConfig, grp: Group, next: Group, i: nat, paidOut: bool) {
    var k := grp.currentCycle;
    if paidOut && exists q: nat :: CoversFrom(cfg, grp, i, q) then
      exists q: nat ::
        && CoversFrom(cfg, grp, i, q) && DrawnFrom(grp.reserves, next.reserves, q, CoverTaken(cfg, grp, i))
        && next.covers
           == grp.covers + [Coverage(grp.members[i].user, k, q, CoverTaken(cfg, grp, i), AmountOwed(grp, i))]
        && if CoverTaken(cfg, grp, i) == AmountOwed(grp, i) then PaidUp(grp, next, i) else next.cycles == grp.cycles
    else next.reserves == grp.reserves && next.covers == grp.covers && next.cycles == grp.cycles
  }

  /** The running contribution of member `i` counts as paid, no other changes. */
  predicate PaidUp(grp: Group, next: Group, i: nat) {
    var k := grp.currentCycle;
    && 1 <= k <= |grp.cycles| && i < |grp.cycles[k - 1]|
    && next.cycles == grp.cycles[k - 1 := grp.cycles[k - 1][i :=
         grp.cycles[k - 1][i].(paidDays := MemberCyclePaymentDays(grp.terms), status := Paid)]]
  }

  /** The member's row: defaulted, without deposit, and behind everyone if not paid out yet. */
  ghost predicate SentBack(grp: Group, next: Group, i: nat, paidOut: bool)
    requires i < |grp.members|
  {
    && |next.members| == |grp.members|
    && var m, now := grp.members[i], next.members[i];
    && now == m.(standing := Defaulted, deposit := Forfeited, payoutOrder := now.payoutOrder)
    && (if paidOut then now.payoutOrder == m.payoutOrder
        else forall j :: 0 <= j < |grp.members| ==> grp.members[j].payoutOrder < now.payoutOrder)
    && next.members == grp.members[i := now]
  }

  lemma CoverChanges(cfg: ReserveConfig, b: Books, g: nat, grp: Group, f: Group, i: nat)
    requires RowsOk(f) && f.status == Active && i < |f.members| && BooksOk(b)
    requires i < |grp.members| && f == grp.(members := f.members) && f.members[i].user == grp.members[i].user
    requires CoverTx(cfg, b, g, f, f.currentCycle, i).Ok?
    requires forall r: nat :: DefaultCover(g, r, f.currentCycle, i) !in b.keys
    ensures var l := CoverTx(cfg, b, g, f, f.currentCycle, i).value;
      && CoverMade(cfg, grp, l.grp, i, true) && l.grp.members == f.members
      && l.grp == grp.(members := l.grp.members, cycles := l.grp.cycles, reserves := l.grp.reserves,
                       covers := l.grp.covers)
      && forall a :: Balance(l.books.balances, a) == Balance(b.balances, a)
           + Moved(Reserved(grp.members[i].user), GroupPool(g), CoverTaken(cfg, grp, i), a)
  {
    hide RowsOk, BooksOk, Transfer, CoverTaken, CoversFrom, AmountOwed, DaysOwed;
    var k, user := f.currentCycle, f.members[i].user;
    MissedIsOwed(f, i);
    CoverByRows(cfg, f, i);
    SameCoverRows(cfg, grp, f, i);
    var (r, missed, amount) := CoverDue(cfg, f, k, i);
    if amount > 0 {
      var key := DefaultCover(g, r, k, i);
      DuplicateNeedsKey(b, key, Reserved(user), GroupPool(g), amount);
      forall a { TransferMovesIf(b, key, Reserved(user), GroupPool(g), amount, a); }
      OpenHoldsSomething(f, r);
      OnlyOneCovers(cfg, grp, i, r);
    }
  }

  lemma TransferMovesIf(b: Books, key: Key, from: Account, to: Account, amount: int, a: Account)
    ensures Transfer(b, key, from, to, amount).Posted? ==>
      Balance(Transfer(b, key, from, to, amount).books.balances, a)
      == Balance(b.balances, a) + Moved(from, to, amount, a)
  {
    if Transfer(b, key, from, to, amount).Posted? { TransferMoves(b, key, from, to, amount, a); }
  }

  lemma SameCoverRows(cfg: ReserveConfig, grp: Group, f: Group, i: nat)
    requires i < |grp.members| && i < |f.members| && f == grp.(members := f.members)
    requires f.members[i].user == grp.members[i].user
    ensures CoverTaken(cfg, f, i) == CoverTaken(cfg, grp, i) && AmountOwed(f, i) == AmountOwed(grp, i)
    ensures forall q: nat :: CoversFrom(cfg, f, i, q) <==> CoversFrom(cfg, grp, i, q)
  {
    forall q: nat ensures CoversFrom(cfg, f, i, q) <==> CoversFrom(cfg, grp, i, q) {
    }
    if q: nat :| CoversFrom(cfg, grp, i, q) {
      OnlyOneCovers(cfg, grp, i, q);
      OnlyOneCovers(cfg, f, i, q);
    } else {
      NobodyCovers(cfg, grp, i);
      NobodyCovers(cfg, f, i);
    }
  }

  /** The deposit at stake. */
  function Stake(m: Member): int { if m.deposit == Held then m.depositAmount else 0 }

  lemma ForfeitMoves(b: Books, g: nat, grp: Group, i: nat, a: Account)
    requires GroupOk(b, g, grp) && i < |grp.members| && grp.status == Active && grp.terms.mode == Cycle
    requires ForfeitTx(b, g, WithStanding(grp, i, Defaulted), i).Ok?
    ensures Balance(ForfeitTx(b, g, WithStanding(grp, i, Defaulted), i).value.books.balances, a)
         == Balance(b.balances, a) + Moved(Escrow(grp.members[i].user), GroupPool(g), Stake(grp.members[i]), a)
  {
    var m, key := grp.members[i], DepositForfeit(g, i);
    assert MemberOk(grp.terms, grp.status, m);
    TermsFacts(grp.terms);
    if m.deposit == Held {
      assert OwnerOf(key) == Some(g) && !Spent(grp, key);
      DuplicateNeedsKey(b, key, Escrow(m.user), GroupPool(g), m.depositAmount);
      TransferMoves(b, key, Escrow(m.user), GroupPool(g), m.depositAmount, a);
    }
  }

  lemma PaidOutByRows(grp: Group, user: nat)
    ensures HasReceivedPayout(grp, user) <==> HasBeenPaidOut(grp, user)
  {
  }

  /**
   * An accepted default of a member: the row is marked and the held deposit goes to the pool; a member
   * paid out before is covered from the oldest open reserve, in full or with all that remains, and one
   * not paid out yet goes behind everyone. No other row, and no other account, is touched.
   */
  lemma DefaultChanges(cfg: ReserveConfig, b: Books, groups: seq<Group>, g: nat, i: nat)
    requires GroupsOk(b, groups) && g < |groups| && i < |groups[g].members|
    requires groups[g].status == Active && groups[g].terms.mode == Cycle && groups[g].members[i].standing != Defaulted
    requires OwesRunning(groups[g], i) && DefaultTx(cfg, b, g, groups[g], i).Ok?
    ensures var grp := groups[g]; var user := grp.members[i].user; var paidOut := HasBeenPaidOut(grp, user);
      var l := DefaultTx(cfg, b, g, grp, i).value;
      && SentBack(grp, l.grp, i, paidOut) && CoverMade(cfg, grp, l.grp, i, paidOut)
      && l.grp == grp.(members := l.grp.members, cycles := l.grp.cycles, reserves := l.grp.reserves,
                       covers := l.grp.covers)
      && forall a :: Balance(l.books.balances, a) == Balance(b.balances, a)
           + Moved(Escrow(user), GroupPool(g), Stake(grp.members[i]), a)
           + Moved(Reserved(user), GroupPool(g), if paidOut then CoverTaken(cfg, grp, i) else 0, a)
  {
    hide RowsOk, BooksOk, Reconciled, ForfeitTx, CoverTx, CoverTaken, CoverMade, Balance, Moved, DaysOwed, Stake,
      SentBack, Dequeued;
    var grp := groups[g];
    var f := AfterForfeit(b, groups, g, i);
    assert GroupOk(b, g, grp);
    forall a { ForfeitMoves(b, g, grp, i, a); }
    PaidOutByRows(grp, grp.members[i].user);
    PaidOutByRows(f.grp, grp.members[i].user);
    MissedIsOwed(grp, i);
    if HasReceivedPayout(grp, grp.members[i].user) {
      CoverKeysFresh(f.books, g, grp, i, b);
      CoverChanges(cfg, f.books, g, grp, f.grp, i);
      MarkedInPlace(grp, DefaultTx(cfg, b, g, grp, i).value.grp, i);
    } else {
      MarkedAndQueued(cfg, grp, i);
      forall a ensures Moved(Reserved(grp.members[i].user), GroupPool(g), 0, a) == 0 {
        MovesNothing(Reserved(grp.members[i].user), GroupPool(g), a);
      }
    }
  }

  lemma MovesNothing(from: Account, to: Account, a: Account)
    ensures Moved(from, to, 0, a) == 0
  {
  }

  lemma MarkedInPlace(grp: Group, next: Group, i: nat)
    requires i < |grp.members| && next.members == Marked(grp, i).members
    ensures SentBack(grp, next, i, true)
  {
  }

  lemma MarkedAndQueued(cfg: ReserveConfig, grp: Group, i: nat)
    requires i < |grp.members|
    ensures var f := Marked(grp, i); var next := f.(members := Dequeued(f.members, i));
      SentBack(grp, next, i, false) && CoverMade(cfg, grp, next, i, false)
  {
    var marked := Marked(grp, i).members;
    BehindEveryone(marked, i);
    assert forall j :: 0 <= j < |grp.members| ==> marked[j].payoutOrder == grp.members[j].payoutOrder;
  }

  lemma CoverKeysFresh(after: Books, g: nat, grp: Group, i: nat, b: Books)
    requires GroupOk(b, g, grp) && grp.status == Active && i < |grp.members|
    requires grp.members[i].standing != Defaulted && HasContribution(grp, grp.currentCycle, i)
    requires ContributionAt(grp, grp.currentCycle, i).status != Paid
    requires forall key :: key in after.keys && key !in b.keys ==> key.DepositForfeit?
    ensures forall r: nat :: DefaultCover(g, r, grp.currentCycle, i) !in after.keys
  {
    forall r: nat ensures DefaultCover(g, r, grp.currentCycle, i) !in after.keys {
      var key := DefaultCover(g, r, grp.currentCycle, i);
      assert OwnerOf(key) == Some(g) && !Spent(grp, key);
    }
  }

  lemma {:induction false} PlacesAtMost(members: seq<Member>)
    ensures forall j :: 0 <= j < |members| ==> members[j].payoutOrder <= MaxPayoutOrder(members)
  {
    if members != [] {
      var front := members[..|members| - 1];
      PlacesAtMost(front);
      forall j | 0 <= j < |front| ensures members[j].payoutOrder <= MaxPayoutOrder(members) {
        assert front[j] == members[j];
      }
    }
  }

  lemma BehindEveryone(members: seq<Member>, i: nat)
    requires i < |members|
    ensures forall j :: 0 <= j < |members| ==> members[j].payoutOrder < Dequeued(members, i)[i].payoutOrder
  {
    PlacesAtMost(members);
  }
}
