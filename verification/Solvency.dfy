/**
 * What the accounts hold in every reachable state: reserved wallets against reserve rows, escrow
 * against deposits, the pool against the payouts to come; and which postings can be refused.
 */
module Solvency {
  import opened Wrappers
  import opened Accounts
  import opened Sums
  import opened Ledger
  import opened Preview
  import opened ReserveMath
  import opened Rows
  import opened Engine
  import opened Accounting
  import opened RowInvariants
  import opened GroupSafety
  import opened Protocol

  // ---- Reserved wallet against reserve rows -------------------------------------------------------

  /** More was taken out of the reserve than was put in. */
  predicate Overdrawn(row: Reserve) { Residual(row) < 0 }

  function RemainingPart(user: nat): Reserve -> int {
    (r: Reserve) => if r.user == user then r.remaining else 0
  }

  function RemainingOn(groups: seq<Group>, user: nat): nat -> int {
    (h: nat) => if h < |groups| then SumOf(groups[h].reserves, RemainingPart(user)) else 0
  }

  /** What the user's reserve rows say is still reserved, over all groups. */
  function RemainingReserve(groups: seq<Group>, user: nat): int {
    SumTo(|groups|, RemainingOn(groups, user))
  }

  ghost predicate NoneOverdrawnIn(grp: Group, user: nat) {
    forall r :: 0 <= r < |grp.reserves| && grp.reserves[r].user == user ==> !Overdrawn(grp.reserves[r])
  }

  ghost predicate NoneOverdrawn(groups: seq<Group>, user: nat) {
    forall h :: 0 <= h < |groups| ==> NoneOverdrawnIn(groups[h], user)
  }

  lemma GroupReservedExactly(g: nat, grp: Group, user: nat)
    requires ReservesOk(grp)
    ensures Due(g, grp, Reserved(user)) <= SumOf(grp.reserves, RemainingPart(user))
    ensures Due(g, grp, Reserved(user)) == SumOf(grp.reserves, RemainingPart(user)) <==> NoneOverdrawnIn(grp, user)
  {
    ReservedDue(g, grp, user);
    var f, rem := ReservePart(Reserved(user)), RemainingPart(user);
    forall r | 0 <= r < |grp.reserves|
      ensures f(grp.reserves[r]) <= rem(grp.reserves[r])
      ensures f(grp.reserves[r]) == rem(grp.reserves[r])
        <==> (grp.reserves[r].user == user ==> !Overdrawn(grp.reserves[r]))
    {
      assert ReserveOk(grp, grp.reserves[r]);
    }
    SumEqualExactly(grp.reserves, f, rem);
  }

  /**
   * The reserved wallet never holds more than the reserve rows claim, and it holds exactly that
   * much if and only if no reserve of the user was overdrawn.
   */
  lemma ReservedAgreesExactly(b: Books, groups: seq<Group>, user: nat)
    requires GroupsOk(b, groups)
    ensures Balance(b.balances, Reserved(user)) <= RemainingReserve(groups, user)
    ensures Balance(b.balances, Reserved(user)) == RemainingReserve(groups, user) <==> NoneOverdrawn(groups, user)
  {
    hide Step, BooksOk, Due;
    BalanceIsDue(b, groups, Reserved(user));
    var f, rem := DueOn(groups, Reserved(user)), RemainingOn(groups, user);
    forall h: nat | h < |groups|
      ensures f(h) <= rem(h)
      ensures f(h) == rem(h) <==> NoneOverdrawnIn(groups[h], user)
    {
      assert GroupOk(b, h, groups[h]);
      GroupReservedExactly(h, groups[h], user);
    }
    SumToEqualExactly(|groups|, f, rem);
    if NoneOverdrawn(groups, user) {
      assert forall h: nat :: h < |groups| ==> f(h) == rem(h);
    } else {
      var h :| 0 <= h < |groups| && !NoneOverdrawnIn(groups[h], user);
      assert f(h) != rem(h);
    }
  }

  /** What is left of the user's reserves in each group, by what went in and out. */
  function ResidualOn(groups: seq<Group>, user: nat): nat -> int {
    (h: nat) => if h < |groups| then SumOf(groups[h].reserves, ReservePart(Reserved(user))) else 0
  }

  /** The wallet itself is always the sum of those. */
  lemma ReservedIsResidual(b: Books, groups: seq<Group>, user: nat)
    requires GroupsOk(b, groups)
    ensures Balance(b.balances, Reserved(user)) == SumTo(|groups|, ResidualOn(groups, user))
  {
    hide GroupsOk;
    BalanceIsDue(b, groups, Reserved(user));
    forall h: nat | h < |groups| ensures DueOn(groups, Reserved(user))(h) == ResidualOn(groups, user)(h) {
      ReservedDue(h, groups[h], user);
    }
    SumToAgree(|groups|, DueOn(groups, Reserved(user)), ResidualOn(groups, user));
  }

  /** A reserve row conserves its original amount exactly when it was not overdrawn. */
  lemma RowConservedExactly(grp: Group, row: Reserve)
    requires ReserveOk(grp, row)
    ensures row.original == row.remaining + row.released + row.usedForDefault <==> !Overdrawn(row)
    ensures row.status == Open ==> !Overdrawn(row)
    ensures row.usedForDefault == 0 ==> !Overdrawn(row)
  {
  }

  /**
   * A unit release overdraws exactly when it is not the last and an earlier cover left less than
   * one instalment.
   */
  lemma ReleaseOverdrawsExactly(grp: Group, row: Reserve)
    requires ReserveOk(grp, row) && row.status == Open
    requires NextReserveReleaseMinor(row.original, row.remaining, row.units, row.unitsReleased) > 0
    ensures var amount := NextReserveReleaseMinor(row.original, row.remaining, row.units, row.unitsReleased);
      && (Overdrawn(AfterUnit(row, amount)) <==>
            row.unitsReleased + 1 < row.units && row.remaining < row.original / row.units)
      && (Overdrawn(AfterUnit(row, amount)) ==> row.usedForDefault > 0)
  {
    ClosedUnitRow(grp, row, NextReserveReleaseMinor(row.original, row.remaining, row.units, row.unitsReleased));
  }

  // ---- Escrow against deposits ----------------------------------------------------------------------

  function HeldPart(user: nat): Member -> int {
    (m: Member) => if m.user == user && m.deposit == Held then m.depositAmount else 0
  }

  function HeldOn(groups: seq<Group>, user: nat): nat -> int {
    (h: nat) => if h < |groups| then SumOf(groups[h].members, HeldPart(user)) else 0
  }

  lemma EscrowDue(g: nat, grp: Group, user: nat)
    ensures Due(g, grp, Escrow(user)) == SumOf(grp.members, HeldPart(user))
  {
    var a := Escrow(user);
    SumAgree(grp.members, grp.members, MemberPart(g, a), HeldPart(user));
    SumZero(grp.reserves, ReservePart(a));
    SumZero(grp.payouts, PayoutPart(g, a));
    SumZero(grp.earnings, EarningPart(g, a));
    SumZero(grp.payments, PaymentPart(a));
    SumZero(grp.covers, CoverPart(g, a));
  }

  lemma DepositsNonNegative(grp: Group, i: nat)
    requires RowsOk(grp) && i < |grp.members|
    ensures grp.members[i].depositAmount >= 0
    ensures grp.members[i].deposit == Held ==> grp.members[i].depositAmount > 0 && grp.members[i].standing != Defaulted
  {
    assert MemberOk(grp.terms, grp.status, grp.members[i]);
    TermsFacts(grp.terms);
  }

  predicate IsHeldFrom(m: Member, user: nat) { m.user == user && m.deposit == Held }

  /** A user's escrow is the sum of the deposits held from that user over all groups. */
  lemma EscrowAgrees(b: Books, groups: seq<Group>, user: nat)
    requires GroupsOk(b, groups)
    ensures Balance(b.balances, Escrow(user)) == SumTo(|groups|, HeldOn(groups, user))
    ensures forall h, i ::
      0 <= h < |groups| && 0 <= i < |groups[h].members| && IsHeldFrom(groups[h].members[i], user) ==>
        0 < groups[h].members[i].depositAmount <= Balance(b.balances, Escrow(user))
  {
    hide Step, BooksOk, RowsOk, Due;
    BalanceIsDue(b, groups, Escrow(user));
    var f, held := DueOn(groups, Escrow(user)), HeldOn(groups, user);
    forall h: nat | h < |groups| ensures f(h) == held(h) >= 0 {
      EscrowDue(h, groups[h], user);
      HeldSumBounds(b, groups, h, user);
    }
    SumToAgree(|groups|, f, held);
    SumToNonNegative(|groups|, held);
    forall h, i | 0 <= h < |groups| && 0 <= i < |groups[h].members| && IsHeldFrom(groups[h].members[i], user)
      ensures 0 < groups[h].members[i].depositAmount <= Balance(b.balances, Escrow(user))
    {
      HeldSumBounds(b, groups, h, user);
      assert HeldPart(user)(groups[h].members[i]) <= held(h);
      assert GroupOk(b, h, groups[h]);
      DepositsNonNegative(groups[h], i);
    }
  }

  lemma HeldSumBounds(b: Books, groups: seq<Group>, h: nat, user: nat)
    requires GroupsOk(b, groups) && h < |groups|
    ensures SumOf(groups[h].members, HeldPart(user)) >= 0
    ensures forall i :: 0 <= i < |groups[h].members| ==>
      HeldPart(user)(groups[h].members[i]) <= SumOf(groups[h].members, HeldPart(user))
  {
    hide Step, RowsOk;
    assert GroupOk(b, h, groups[h]);
    forall i | 0 <= i < |groups[h].members| ensures HeldPart(user)(groups[h].members[i]) >= 0 {
      DepositsNonNegative(groups[h], i);
    }
    SumNonNegative(groups[h].members, HeldPart(user));
  }

  /** Forfeiting a deposit is never refused. */
  lemma ForfeitNeverRefused(b: Books, groups: seq<Group>, g: nat, i: nat)
    requires GroupsOk(b, groups) && g < |groups| && i < |groups[g].members|
    requires groups[g].status == Active && groups[g].terms.mode == Cycle
    ensures ForfeitTx(b, g, WithStanding(groups[g], i, Defaulted), i).Ok?
  {
    hide BooksOk;
    assert GroupOk(b, g, groups[g]);
    var m := groups[g].members[i];
    if m.deposit == Held {
      EscrowAgrees(b, groups, m.user);
      assert !Spent(groups[g], DepositForfeit(g, i));
      TransferExactly(b, DepositForfeit(g, i), Escrow(m.user), GroupPool(g), m.depositAmount);
    }
  }

  /** Nor is returning one. */
  lemma ReturnNeverRefused(b: Books, groups: seq<Group>, g: nat, i: nat)
    requires GroupsOk(b, groups) && g < |groups| && i < |groups[g].members|
    ensures ReturnDeposit(b, g, groups[g], i).Ok?
  {
    hide BooksOk, RowsOk, Post;
    assert GroupOk(b, g, groups[g]);
    var m := groups[g].members[i];
    if m.deposit == Held {
      EscrowAgrees(b, groups, m.user);
      assert !Spent(groups[g], DepositRelease(g, i));
      TransferExactly(b, DepositRelease(g, i), Escrow(m.user), Available(m.user), m.depositAmount);
    }
  }

  /** An open reserve's remaining amount is really there as long as no reserve of the user is overdrawn. */
  lemma OpenReserveIsBacked(b: Books, groups: seq<Group>, g: nat, r: nat)
    requires GroupsOk(b, groups) && g < |groups| && r < |groups[g].reserves|
    requires NoneOverdrawn(groups, groups[g].reserves[r].user)
    ensures groups[g].reserves[r].remaining <= Balance(b.balances, Reserved(groups[g].reserves[r].user))
  {
    hide GroupsOk;
    var user := groups[g].reserves[r].user;
    ReservedAgreesExactly(b, groups, user);
    forall h: nat | h < |groups| ensures RemainingOn(groups, user)(h) >= 0 {
      RemainingBounds(b, groups, h, user);
    }
    SumToNonNegative(|groups|, RemainingOn(groups, user));
    RemainingBounds(b, groups, g, user);
    assert RemainingPart(user)(groups[g].reserves[r]) <= RemainingOn(groups, user)(g);
  }

  lemma RemainingBounds(b: Books, groups: seq<Group>, h: nat, user: nat)
    requires GroupsOk(b, groups) && h < |groups|
    ensures SumOf(groups[h].reserves, RemainingPart(user)) >= 0
    ensures forall r :: 0 <= r < |groups[h].reserves| ==>
      RemainingPart(user)(groups[h].reserves[r]) <= SumOf(groups[h].reserves, RemainingPart(user))
  {
    assert GroupOk(b, h, groups[h]);
    forall r | 0 <= r < |groups[h].reserves| ensures RemainingPart(user)(groups[h].reserves[r]) >= 0 {
      assert ReserveOk(groups[h], groups[h].reserves[r]);
    }
    SumNonNegative(groups[h].reserves, RemainingPart(user));
  }

  /** A transfer moves nothing on a third account. */
  lemma TransferLeaves(b: Books, key: Key, from: Account, to: Account, amount: int, a: Account)
    requires Transfer(b, key, from, to, amount).Posted? && a != from && a != to
    ensures Balance(Transfer(b, key, from, to, amount).books.balances, a) == Balance(b.balances, a)
  {
    TransferMoves(b, key, from, to, amount, a);
  }

  lemma ForfeitLeavesReserved(b: Books, g: nat, grp: Group, i: nat, user: nat)
    requires i < |grp.members| && ForfeitTx(b, g, grp, i).Ok?
    ensures Balance(ForfeitTx(b, g, grp, i).value.books.balances, Reserved(user)) == Balance(b.balances, Reserved(user))
  {
    var m, key := grp.members[i], DepositForfeit(g, i);
    if Transfer(b, key, Escrow(m.user), GroupPool(g), m.depositAmount).Posted? {
      TransferLeaves(b, key, Escrow(m.user), GroupPool(g), m.depositAmount, Reserved(user));
    }
  }

  /** A cover goes through when its key is used already, or when the reserved wallet holds it. */
  lemma CoverAcceptedExactly(cfg: ReserveConfig, b: Books, g: nat, grp: Group, k: nat, i: nat)
    requires BooksOk(b) && i < |grp.members|
    ensures var (r, missed, amount) := CoverDue(cfg, grp, k, i);
      CoverTx(cfg, b, g, grp, k, i).Ok? <==>
        DefaultCover(g, r, k, i) in b.keys || amount <= Balance(b.balances, Reserved(grp.members[i].user))
  {
    var (r, missed, amount) := CoverDue(cfg, grp, k, i);
    var key, wallet := DefaultCover(g, r, k, i), Reserved(grp.members[i].user);
    if amount <= 0 {
      assert Balance(b.balances, wallet) >= 0;
    } else if key in b.keys {
      TwoLines(wallet, GroupPool(g), amount);
    } else {
      TransferExactly(b, key, wallet, GroupPool(g), amount);
      DuplicateNeedsKey(b, key, wallet, GroupPool(g), amount);
    }
  }

  /** The books and rows between the two halves of a default: marked and forfeited, not yet covered. */
  lemma AfterForfeit(b: Books, groups: seq<Group>, g: nat, i: nat) returns (f: Local)
    requires GroupsOk(b, groups) && g < |groups| && i < |groups[g].members|
    requires groups[g].status == Active && groups[g].terms.mode == Cycle
    ensures ForfeitTx(b, g, WithStanding(groups[g], i, Defaulted), i) == Ok(f)
    ensures f.grp == Marked(groups[g], i) && GroupOk(f.books, g, f.grp) && BooksOk(f.books)
    ensures forall u :: Balance(f.books.balances, Reserved(u)) == Balance(b.balances, Reserved(u))
    ensures forall key :: key in f.books.keys && key !in b.keys ==> key.DepositForfeit?
  {
    hide GroupOk, BooksOk;
    assert GroupOk(b, g, groups[g]);
    ForfeitNeverRefused(b, groups, g, i);
    ForfeitKeepsGroupOk(b, g, groups[g], i);
    var stood := WithStanding(groups[g], i, Defaulted);
    f := ForfeitTx(b, g, stood, i).value;
    forall u ensures Balance(f.books.balances, Reserved(u)) == Balance(b.balances, Reserved(u)) {
      ForfeitLeavesReserved(b, g, stood, i, u);
    }
  }

  /**
   * A member who newly defaults is refused exactly when already paid out and the cover exceeds what
   * the member's reserved wallet holds.
   */
  lemma DefaultAcceptedExactly(cfg: ReserveConfig, b: Books, groups: seq<Group>, g: nat, i: nat)
    requires GroupsOk(b, groups) && g < |groups| && i < |groups[g].members|
    requires groups[g].status == Active && groups[g].terms.mode == Cycle && groups[g].members[i].standing != Defaulted
    ensures var grp := groups[g]; var user := grp.members[i].user;
      DefaultTx(cfg, b, g, grp, i).Ok? <==>
        (HasReceivedPayout(grp, user) ==>
           CoverDue(cfg, grp, grp.currentCycle, i).2 <= Balance(b.balances, Reserved(user)))
  {
    var grp := groups[g];
    var f := AfterForfeit(b, groups, g, i);
    assert GroupOk(b, g, grp);
    if HasReceivedPayout(grp, grp.members[i].user) {
      var (r, missed, amount) := CoverDue(cfg, grp, grp.currentCycle, i);
      assert CoverDue(cfg, f.grp, grp.currentCycle, i) == (r, missed, amount);
      CoverAcceptedExactly(cfg, f.books, g, f.grp, grp.currentCycle, i);
      if amount > 0 {
        var key := DefaultCover(g, r, grp.currentCycle, i);
        assert OwnerOf(key) == Some(g) && !Spent(grp, key);
      } else {
        assert Balance(b.balances, Reserved(grp.members[i].user)) >= 0;
      }
    }
  }

  /** So covering a default is never refused to a user without overdrawn reserves. */
  lemma DefaultNeverRefused(cfg: ReserveConfig, b: Books, groups: seq<Group>, g: nat, i: nat)
    requires GroupsOk(b, groups) && g < |groups| && i < |groups[g].members|
    requires groups[g].status == Active && groups[g].terms.mode == Cycle
    requires NoneOverdrawn(groups, groups[g].members[i].user)
    ensures DefaultTx(cfg, b, g, groups[g], i).Ok?
  {
    hide GroupsOk, GroupOk;
    var grp := groups[g];
    var f := AfterForfeit(b, groups, g, i);
    var (r, missed, amount) := CoverDue(cfg, f.grp, f.grp.currentCycle, i);
    CoverAcceptedExactly(cfg, f.books, g, f.grp, f.grp.currentCycle, i);
    if amount > 0 {
      OpenReserveIsBacked(b, groups, g, r);
    } else {
      assert Balance(f.books.balances, Reserved(grp.members[i].user)) >= 0;
    }
  }

  lemma TwoLines(from: Account, to: Account, amount: int)
    ensures SumOf(TransferLines(from, to, amount), DeltaOf()) == 0
  {
    var lines := TransferLines(from, to, amount);
    assert lines[..1] == [lines[0]] && [lines[0]][..0] == [];
    assert SumOf(lines[..1], DeltaOf()) == -amount;
  }

  // ---- Payments ---------------------------------------------------------------------------------------

  /** Collecting money is always accepted. */
  lemma InflowAccepted(b: Books, key: Key, g: nat, amount: int)
    requires BooksOk(b) && key !in b.keys && amount > 0
    ensures Post(b, key, InflowLines(g, amount)).Posted?
    ensures forall u :: Balance(Post(b, key, InflowLines(g, amount)).books.balances, Reserved(u))
                     == Balance(b.balances, Reserved(u))
  {
    var lines := InflowLines(g, amount);
    InflowMoves(g, amount, SystemExternal);
    assert lines[..3][..2] == lines[..2] && lines[..2][..1] == lines[..1] && lines[..1][..0] == [];
    var b1 := Credit(b.balances, lines[0]);
    var b2 := Credit(b1, lines[1]);
    var b3 := Credit(b2, lines[2]);
    assert Settle(b.balances, lines[..1]) == b1;
    assert Settle(b.balances, lines[..2]) == b2;
    assert Settle(b.balances, lines[..3]) == b3;
    assert Balance(b.balances, PlatformFloat) >= 0 && Balance(b.balances, GroupPool(g)) >= 0;
    assert FirstFault(b.balances, lines[..1]).None?;
    assert FirstFault(b.balances, lines[..2]).None?;
    assert FirstFault(b.balances, lines[..3]).None?;
    assert Settle(b.balances, lines) == Credit(b3, lines[3]);
  }

  lemma UnitAcceptedExactly(cfg: ReserveConfig, b: Books, g: nat, grp: Group, k: nat, i: nat, day: nat)
    requires BooksOk(b) && i < |grp.members|
    requires forall r :: UnitRelease(g, r, k, i, day) !in b.keys
    ensures var user := grp.members[i].user;
      ReleaseUnit(cfg, b, g, grp, k, i, day).Ok?
      <==> UnitDue(cfg, grp, user, k).1 <= Balance(b.balances, Reserved(user))
  {
    var user := grp.members[i].user;
    var (r, amount) := UnitDue(cfg, grp, user, k);
    if amount > 0 {
      var unit := UnitRelease(g, r, k, i, day);
      TransferExactly(b, unit, Reserved(user), Available(user), amount);
      DuplicateNeedsKey(b, unit, Reserved(user), Available(user), amount);
    } else {
      assert Balance(b.balances, Reserved(user)) >= 0;
    }
  }

  /** The keys of the next day's payment have not been used. */
  lemma PaymentKeysFresh(b: Books, g: nat, grp: Group, k: nat, i: nat)
    requires KeysSpent(b, g, grp) && HasContribution(grp, k, i)
    ensures var day := ContributionAt(grp, k, i).paidDays + 1;
      Inflow(g, k, i, day) !in b.keys && forall r :: UnitRelease(g, r, k, i, day) !in b.keys
  {
    var day := ContributionAt(grp, k, i).paidDays + 1;
    assert !Spent(grp, Inflow(g, k, i, day)) && OwnerOf(Inflow(g, k, i, day)) == Some(g);
    forall r ensures UnitRelease(g, r, k, i, day) !in b.keys {
      assert !Spent(grp, UnitRelease(g, r, k, i, day)) && OwnerOf(UnitRelease(g, r, k, i, day)) == Some(g);
    }
  }

  lemma SettleIsRelease(cfg: ReserveConfig, b: Books, g: nat, grp: Group, k: nat, i: nat, after: Books)
    requires PaymentFault(grp, k, i).None?
    requires var key := Inflow(g, k, i, ContributionAt(grp, k, i).paidDays + 1);
      Post(b, key, InflowLines(g, grp.terms.perDay)) == Posted(after)
    ensures SettleTx(cfg, b, g, grp, k, i, false)
         == ReleaseUnit(cfg, after, g, Collected(grp, k, i), k, i, ContributionAt(grp, k, i).paidDays + 1)
  {
  }

  lemma SettleAcceptedExactly(cfg: ReserveConfig, b: Books, g: nat, grp: Group, k: nat, i: nat)
    requires BooksOk(b) && KeysSpent(b, g, grp) && PaymentFault(grp, k, i).None? && grp.terms.perDay > 0
    ensures var user := grp.members[i].user;
      SettleTx(cfg, b, g, grp, k, i, false).Ok? <==> UnitDue(cfg, grp, user, k).1 <= Balance(b.balances, Reserved(user))
  {
    hide BooksOk, Post;
    var day := ContributionAt(grp, k, i).paidDays + 1;
    PaymentKeysFresh(b, g, grp, k, i);
    var after := CollectedBooks(b, Inflow(g, k, i, day), g, grp.terms.perDay);
    SettleIsRelease(cfg, b, g, grp, k, i, after);
    UnitAcceptedExactly(cfg, after, g, Collected(grp, k, i), k, i, day);
    SameUnitDue(cfg, grp, Collected(grp, k, i), grp.members[i].user, k);
  }

  lemma SameUnitDue(cfg: ReserveConfig, grp: Group, next: Group, user: nat, k: nat)
    requires next.reserves == grp.reserves
    ensures UnitDue(cfg, next, user, k) == UnitDue(cfg, grp, user, k)
  {
  }

  lemma CollectedBooks(b: Books, key: Key, g: nat, amount: int) returns (after: Books)
    requires BooksOk(b) && key !in b.keys && amount > 0
    ensures Post(b, key, InflowLines(g, amount)) == Posted(after)
    ensures BooksOk(after) && after.keys == b.keys + {key}
    ensures forall u :: Balance(after.balances, Reserved(u)) == Balance(b.balances, Reserved(u))
  {
    InflowAccepted(b, key, g, amount);
    PostKeepsBooksOk(b, key, InflowLines(g, amount));
    after := Post(b, key, InflowLines(g, amount)).books;
  }

  /**
   * A due payment under a fresh reference is accepted exactly when the reserved wallet holds the
   * unit it unlocks.
   */
  lemma PaymentAcceptedExactly(s: Sys, g: nat, k: nat, i: nat, ref: Option<nat>)
    requires SysOk(s) && g < |s.groups| && PaymentFault(s.groups[g], k, i).None? && !RefSeen(s, ref)
    ensures var user := s.groups[g].members[i].user;
      PayStep(s, g, k, i, ref).Ok? <==>
        UnitDue(s.cfg, s.groups[g], user, k).1 <= Balance(s.books.balances, Reserved(user))
  {
    hide BooksOk, SettleTx;
    assert GroupOk(s.books, g, s.groups[g]);
    SettleAcceptedExactly(s.cfg, s.books, g, s.groups[g], k, i);
  }

  lemma DuplicateNeedsKey(b: Books, key: Key, from: Account, to: Account, amount: int)
    requires key !in b.keys
    ensures !Transfer(b, key, from, to, amount).Duplicate?
  {
  }

  /** So a member none of whose reserves is overdrawn can always pay unless a cover left less than one unit. */
  lemma PaymentNeverStuck(s: Sys, g: nat, k: nat, i: nat, ref: Option<nat>)
    requires SysOk(s) && g < |s.groups| && PaymentFault(s.groups[g], k, i).None? && !RefSeen(s, ref)
    requires NoneOverdrawn(s.groups, s.groups[g].members[i].user)
    requires forall r :: 0 <= r < |s.groups[g].reserves| ==>
      s.groups[g].reserves[r].user == s.groups[g].members[i].user ==> s.groups[g].reserves[r].usedForDefault == 0
    ensures PayStep(s, g, k, i, ref).Ok?
  {
    hide KeysSpent, SettleTx;
    PaymentAcceptedExactly(s, g, k, i, ref);
    var grp := s.groups[g];
    var user := grp.members[i].user;
    var (r, amount) := UnitDue(s.cfg, grp, user, k);
    if amount > 0 {
      assert GroupOk(s.books, g, grp);
      assert ReserveOk(grp, grp.reserves[r]);
      ClosedUnitRow(grp, grp.reserves[r], amount);
      OpenReserveIsBacked(s.books, s.groups, g, r);
    } else {
      assert NoOverdraft(s.books.balances);
      assert Balance(s.books.balances, Reserved(user)) >= 0;
    }
  }
}
