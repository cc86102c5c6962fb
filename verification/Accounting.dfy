/**
 * The ledger balances that a group's rows call for, and the proof that each transaction moves
 * rows and ledger together.
 */
module Accounting {
  import opened Wrappers
  import opened Accounts
  import opened Sums
  import opened Ledger
  import opened Calculations
  import opened ReserveMath
  import opened Rows
  import opened PayoutQueue
  import opened Engine

  // ---- What each row is worth on each account --------------------------------------------------

  function MemberPart(g: nat, a: Account): Member -> int {
    (m: Member) =>
      match m.deposit
      case NotRequired => 0
      case Held => if a == Escrow(m.user) then m.depositAmount else 0
      case Forfeited => if a == GroupPool(g) then m.depositAmount else 0
      case Returned => if a == Available(m.user) then m.depositAmount else 0
  }

  /** What the reserve should still hold: negative once more was taken out than was put in. */
  function Residual(r: Reserve): int { r.original - r.released - r.usedForDefault }

  function ReservePart(a: Account): Reserve -> int {
    (r: Reserve) =>
      if a == Reserved(r.user) then Residual(r)
      else if a == Available(r.user) then r.released - r.original
      else 0
  }

  function PayoutPart(g: nat, a: Account): Payout -> int {
    (p: Payout) => if a == Available(p.recipient) then p.amount else if a == GroupPool(g) then -p.amount else 0
  }

  function EarningPart(g: nat, a: Account): Earning -> int {
    (e: Earning) => if a == Revenue then e.platformShare else if a == GroupPool(g) then -e.margin else 0
  }

  function PaymentPart(a: Account): Payment -> int {
    (p: Payment) => if a == SystemExternal then -p.amount else 0
  }

  /** A full cover shows up as paid days; a partial one is extra money in the pool. */
  function CoverPart(g: nat, a: Account): Coverage -> int {
    (c: Coverage) => if a == GroupPool(g) && c.covered < c.missed then c.covered else 0
  }

  function DaysOf(): Contribution -> int { (c: Contribution) => c.paidDays }
  function RowDays(): seq<Contribution> -> int { (row: seq<Contribution>) => SumOf(row, DaysOf()) }

  function PaidDays(grp: Group): int { SumOf(grp.cycles, RowDays()) }

  /** The balance that group `g`'s rows call for on account `a`. */
  function Due(g: nat, grp: Group, a: Account): int {
    SumOf(grp.members, MemberPart(g, a)) + SumOf(grp.reserves, ReservePart(a))
    + SumOf(grp.payouts, PayoutPart(g, a)) + SumOf(grp.earnings, EarningPart(g, a))
    + SumOf(grp.payments, PaymentPart(a)) + SumOf(grp.covers, CoverPart(g, a))
    + if a == GroupPool(g) then grp.terms.perDay * PaidDays(grp) else 0
  }

  /** The journals of group `g` amount to exactly what its rows call for, account by account. */
  ghost predicate Reconciled(b: Books, g: nat, grp: Group) {
    forall a :: Flow(b.journals, g, a) == Due(g, grp, a)
  }

  // ---- Growth of the ledger ------------------------------------------------------------------

  /** `after` adds journals of group `g` only, and is sound if `b` was. */
  ghost predicate Extends(b: Books, after: Books, g: nat) {
    && (BooksOk(b) ==> BooksOk(after))
    && b.keys <= after.keys
    && (forall key :: key in after.keys && key !in b.keys ==> OwnerOf(key) == Some(g))
    && (forall h, a :: h != g ==> Flow(after.journals, h, a) == Flow(b.journals, h, a))
    && (forall n :: g < n && OwnedBelow(b.journals, n) ==> OwnedBelow(after.journals, n))
  }

  lemma ExtendsTransitive(a: Books, b: Books, c: Books, g: nat)
    requires Extends(a, b, g) && Extends(b, c, g)
    ensures Extends(a, c, g)
  {
    forall h, acct | h != g ensures Flow(c.journals, h, acct) == Flow(a.journals, h, acct) {
      assert Flow(b.journals, h, acct) == Flow(a.journals, h, acct);
    }
  }

  lemma PostExtends(b: Books, key: Key, lines: seq<Line>, g: nat)
    requires OwnerOf(key) == Some(g)
    ensures Extends(b, After(b, Post(b, key, lines)), g)
  {
    var r := Post(b, key, lines);
    if BooksOk(b) { PostKeepsBooksOk(b, key, lines); }
    if r.Posted? {
      forall h, a | h != g ensures Flow(r.books.journals, h, a) == Flow(b.journals, h, a) {
        PostFlow(b, key, lines, h, a);
      }
      forall n | g < n && OwnedBelow(b.journals, n) ensures OwnedBelow(r.books.journals, n) {
        assert r.books.journals[..|b.journals|] == b.journals;
      }
    }
  }

  lemma TransferExtends(b: Books, key: Key, from: Account, to: Account, amount: int, g: nat)
    requires OwnerOf(key) == Some(g)
    ensures Extends(b, After(b, Transfer(b, key, from, to, amount)), g)
  {
    PostExtends(b, key, TransferLines(from, to, amount), g);
  }

  /** A posted transfer that the rows mirror keeps ledger and rows together. */
  lemma TransferReconciles(b: Books, key: Key, from: Account, to: Account, amount: int, g: nat, grp: Group, next: Group)
    requires Reconciled(b, g, grp) && OwnerOf(key) == Some(g)
    requires Transfer(b, key, from, to, amount).Posted?
    requires forall a :: Due(g, next, a) == Due(g, grp, a) + Moved(from, to, amount, a)
    ensures Reconciled(Transfer(b, key, from, to, amount).books, g, next)
  {
    forall a ensures Flow(Transfer(b, key, from, to, amount).books.journals, g, a) == Due(g, next, a) {
      TransferFlow(b, key, from, to, amount, g, a);
    }
  }

  // ---- Row changes, account by account --------------------------------------------------------

  lemma MemberChange(g: nat, grp: Group, i: nat, m: Member, a: Account)
    requires i < |grp.members|
    ensures Due(g, WithMember(grp, i, m), a)
         == Due(g, grp, a) - MemberPart(g, a)(grp.members[i]) + MemberPart(g, a)(m)
  {
    SumUpdate(grp.members, i, m, MemberPart(g, a));
  }

  lemma ReserveChange(g: nat, grp: Group, r: nat, row: Reserve, a: Account)
    requires r < |grp.reserves|
    ensures Due(g, WithReserve(grp, r, row), a)
         == Due(g, grp, a) - ReservePart(a)(grp.reserves[r]) + ReservePart(a)(row)
  {
    SumUpdate(grp.reserves, r, row, ReservePart(a));
  }

  lemma PaidDaysChange(grp: Group, k: nat, i: nat, c: Contribution)
    requires HasContribution(grp, k, i)
    ensures PaidDays(WithContribution(grp, k, i, c)) == PaidDays(grp) - ContributionAt(grp, k, i).paidDays + c.paidDays
  {
    var row := grp.cycles[k - 1];
    SumUpdate(row, i, c, DaysOf());
    SumUpdate(grp.cycles, k - 1, row[i := c], RowDays());
  }

  /** Only the pool depends on paid days, by the daily contribution each. */
  lemma ContributionChange(g: nat, grp: Group, k: nat, i: nat, c: Contribution, a: Account)
    requires HasContribution(grp, k, i)
    ensures Due(g, WithContribution(grp, k, i, c), a) == Due(g, grp, a)
      + if a == GroupPool(g) then grp.terms.perDay * (c.paidDays - ContributionAt(grp, k, i).paidDays) else 0
  {
    PaidDaysChange(grp, k, i, c);
    var d := c.paidDays - ContributionAt(grp, k, i).paidDays;
    assert grp.terms.perDay * (PaidDays(grp) + d) == grp.terms.perDay * PaidDays(grp) + grp.terms.perDay * d;
  }

  /** Member rows that keep user, deposit and amount are worth the same. */
  lemma SameDeposits(g: nat, grp: Group, members: seq<Member>)
    requires |members| == |grp.members|
    requires forall i :: 0 <= i < |members| ==>
      && members[i].user == grp.members[i].user && members[i].deposit == grp.members[i].deposit
      && members[i].depositAmount == grp.members[i].depositAmount
    ensures forall a :: Due(g, grp.(members := members), a) == Due(g, grp, a)
  {
    forall a ensures Due(g, grp.(members := members), a) == Due(g, grp, a) {
      SumAgree(members, grp.members, MemberPart(g, a), MemberPart(g, a));
    }
  }

  // ---- Transactions ---------------------------------------------------------------------------

  lemma NewMemberDue(g: nat, grp: Group, m: Member, a: Account)
    requires m.deposit == Held
    ensures Due(g, grp.(members := grp.members + [m], payments := grp.payments + [Payment(m.user, m.depositAmount)]), a)
         == Due(g, grp, a) + Moved(SystemExternal, Escrow(m.user), m.depositAmount, a)
  {
    SumAppend(grp.members, m, MemberPart(g, a));
    SumAppend(grp.payments, Payment(m.user, m.depositAmount), PaymentPart(a));
  }

  lemma JoinReconciles(b: Books, g: nat, grp: Group, user: nat)
    requires Reconciled(b, g, grp) && DepositHold(g, |grp.members|) !in b.keys
    requires JoinTx(b, g, grp, user).Ok?
    ensures var l := JoinTx(b, g, grp, user).value; Reconciled(l.books, g, l.grp) && Extends(b, l.books, g)
  {
    hide Reconciled;
    var turn := MaxTurnOrder(grp.members) + 1;
    if DepositRequiredAmount(grp.terms) <= 0 {
      JoinFreeReconciles(b, g, grp, Member(user, turn, turn, Good, 0, NotRequired));
    } else {
      JoinHeldReconciles(b, g, grp, Member(user, turn, turn, Good, DepositRequiredAmount(grp.terms), Held));
    }
  }

  lemma JoinFreeReconciles(b: Books, g: nat, grp: Group, m: Member)
    requires Reconciled(b, g, grp) && m.deposit == NotRequired
    ensures Reconciled(b, g, grp.(members := grp.members + [m]))
  {
    var next := grp.(members := grp.members + [m]);
    forall a ensures Flow(b.journals, g, a) == Due(g, next, a) {
      SumAppend(grp.members, m, MemberPart(g, a));
      assert Flow(b.journals, g, a) == Due(g, grp, a);
    }
  }

  lemma JoinHeldReconciles(b: Books, g: nat, grp: Group, m: Member)
    requires Reconciled(b, g, grp) && m.deposit == Held
    ensures var key := DepositHold(g, |grp.members|);
      var r := Transfer(b, key, SystemExternal, Escrow(m.user), m.depositAmount);
      && Extends(b, After(b, r), g)
      && (r.Posted? ==> Reconciled(r.books, g, grp.(members := grp.members + [m],
                                                     payments := grp.payments + [Payment(m.user, m.depositAmount)])))
  {
    var key := DepositHold(g, |grp.members|);
    var next := grp.(members := grp.members + [m], payments := grp.payments + [Payment(m.user, m.depositAmount)]);
    TransferExtends(b, key, SystemExternal, Escrow(m.user), m.depositAmount, g);
    if Transfer(b, key, SystemExternal, Escrow(m.user), m.depositAmount).Posted? {
      forall a ensures Due(g, next, a) == Due(g, grp, a) + Moved(SystemExternal, Escrow(m.user), m.depositAmount, a) {
        NewMemberDue(g, grp, m, a);
      }
      TransferReconciles(b, key, SystemExternal, Escrow(m.user), m.depositAmount, g, grp, next);
    }
  }

  lemma ActivateReconciles(b: Books, g: nat, grp: Group)
    requires Reconciled(b, g, grp) && grp.cycles == [] && ActivateTx(grp).Ok?
    ensures Reconciled(b, g, ActivateTx(grp).value)
  {
    var rows := OpenCycle(grp.terms, |grp.members|);
    SumZero(rows, DaysOf());
    assert [rows][..0] == [];
    assert SumOf([rows], RowDays()) == 0;
    assert SumOf(grp.cycles, RowDays()) == 0;
    forall a ensures Flow(b.journals, g, a) == Due(g, ActivateTx(grp).value, a) {
      assert Flow(b.journals, g, a) == Due(g, grp, a);
    }
  }

  lemma InflowMoves(g: nat, amount: int, a: Account)
    ensures SumOf(InflowLines(g, amount), LineOn(a)) == Moved(SystemExternal, GroupPool(g), amount, a)
    ensures SumOf(InflowLines(g, amount), DeltaOf()) == 0
  {
    var lines := InflowLines(g, amount);
    assert lines[..3][..2] == lines[..2] && lines[..2][..1] == lines[..1] && lines[..1][..0] == [];
    assert SumOf(lines[..1], LineOn(a)) == LineOn(a)(lines[0]);
    assert SumOf(lines[..2], LineOn(a)) == SumOf(lines[..1], LineOn(a)) + LineOn(a)(lines[1]);
    assert SumOf(lines[..3], LineOn(a)) == SumOf(lines[..2], LineOn(a)) + LineOn(a)(lines[2]);
    assert SumOf(lines[..1], DeltaOf()) == -amount;
    assert SumOf(lines[..2], DeltaOf()) == 0;
    assert SumOf(lines[..3], DeltaOf()) == -amount;
  }

  lemma CollectedDue(g: nat, grp: Group, k: nat, i: nat, a: Account)
    requires HasContribution(grp, k, i)
    ensures Due(g, Collected(grp, k, i), a)
         == Due(g, grp, a) + Moved(SystemExternal, GroupPool(g), grp.terms.perDay, a)
  {
    ContributionChange(g, grp, k, i, OneMoreDay(ContributionAt(grp, k, i)), a);
    SumAppend(grp.payments, Payment(grp.members[i].user, grp.terms.perDay), PaymentPart(a));
  }

  /** Collecting one day: the payment row, the counted day and the journal agree. */
  lemma InflowReconciles(b: Books, g: nat, grp: Group, k: nat, i: nat)
    requires Reconciled(b, g, grp) && PaymentFault(grp, k, i).None?
    ensures var key := Inflow(g, k, i, ContributionAt(grp, k, i).paidDays + 1);
      var r := Post(b, key, InflowLines(g, grp.terms.perDay));
      && Extends(b, After(b, r), g)
      && (r.Posted? ==> Reconciled(r.books, g, Collected(grp, k, i)))
  {
    hide BooksOk;
    var key := Inflow(g, k, i, ContributionAt(grp, k, i).paidDays + 1);
    var lines := InflowLines(g, grp.terms.perDay);
    PostExtends(b, key, lines, g);
    if Post(b, key, lines).Posted? {
      forall a ensures Flow(Post(b, key, lines).books.journals, g, a) == Due(g, Collected(grp, k, i), a) {
        PostFlow(b, key, lines, g, a);
        InflowMoves(g, grp.terms.perDay, a);
        CollectedDue(g, grp, k, i, a);
      }
    }
  }

  lemma ReleaseReconciles(cfg: ReserveConfig, b: Books, g: nat, grp: Group, k: nat, i: nat, day: nat)
    requires Reconciled(b, g, grp) && i < |grp.members|
    requires ReleaseUnit(cfg, b, g, grp, k, i, day).Ok?
    ensures var l := ReleaseUnit(cfg, b, g, grp, k, i, day).value;
      Reconciled(l.books, g, l.grp) && Extends(b, l.books, g)
  {
    hide BooksOk, Reconciled, Due, Post;
    var user := grp.members[i].user;
    var (r, amount) := UnitDue(cfg, grp, user, k);
    if amount > 0 {
      var key := UnitRelease(g, r, k, i, day);
      TransferExtends(b, key, Reserved(user), Available(user), amount, g);
      if Transfer(b, key, Reserved(user), Available(user), amount).Posted? {
        var row := AfterUnit(grp.reserves[r], amount);
        forall a ensures Due(g, WithReserve(grp, r, row), a)
                      == Due(g, grp, a) + Moved(Reserved(user), Available(user), amount, a) {
          ReserveChange(g, grp, r, row, a);
        }
        TransferReconciles(b, key, Reserved(user), Available(user), amount, g, grp, WithReserve(grp, r, row));
      }
    }
  }

  /** A counted day without a journal leaves the pool short of what the rows call for. */
  lemma UncollectedDayBreaks(b: Books, g: nat, grp: Group, k: nat, i: nat)
    requires Reconciled(b, g, grp) && grp.terms.perDay > 0 && HasContribution(grp, k, i)
    ensures !Reconciled(b, g, Counted(grp, k, i))
  {
    ContributionChange(g, grp, k, i, OneMoreDay(ContributionAt(grp, k, i)), GroupPool(g));
    assert Flow(b.journals, g, GroupPool(g)) != Due(g, Counted(grp, k, i), GroupPool(g));
  }

  lemma CollectedDayReconciles(cfg: ReserveConfig, b: Books, g: nat, grp: Group, k: nat, i: nat)
    requires Reconciled(b, g, grp) && SettleTx(cfg, b, g, grp, k, i, false).Ok?
    requires Inflow(g, k, i, ContributionAt(grp, k, i).paidDays + 1) !in b.keys
    ensures var l := SettleTx(cfg, b, g, grp, k, i, false).value;
      Reconciled(l.books, g, l.grp) && Extends(b, l.books, g)
  {
    SettleIsInflowThenRelease(cfg, b, g, grp, k, i);
    InflowReconciles(b, g, grp, k, i);
    var day := ContributionAt(grp, k, i).paidDays + 1;
    var after := Post(b, Inflow(g, k, i, day), InflowLines(g, grp.terms.perDay)).books;
    ReleaseReconciles(cfg, after, g, Collected(grp, k, i), k, i, day);
    ExtendsTransitive(b, after, ReleaseUnit(cfg, after, g, Collected(grp, k, i), k, i, day).value.books, g);
  }

  /**
   * A recorded day keeps rows and ledger together exactly when money was collected for it:
   * a settlement under a reference seen before counts the day without a journal.
   */
  lemma SettleReconcilesExactly(
      cfg: ReserveConfig, b: Books, g: nat, grp: Group, k: nat, i: nat, refSeen: bool)
    requires Reconciled(b, g, grp) && grp.terms.perDay > 0
    requires SettleTx(cfg, b, g, grp, k, i, refSeen).Ok?
    requires Inflow(g, k, i, ContributionAt(grp, k, i).paidDays + 1) !in b.keys
    ensures var l := SettleTx(cfg, b, g, grp, k, i, refSeen).value;
      && (Reconciled(l.books, g, l.grp) <==> !refSeen)
      && Extends(b, l.books, g)
  {
    if refSeen {
      UncollectedDayBreaks(b, g, grp, k, i);
    } else {
      CollectedDayReconciles(cfg, b, g, grp, k, i);
    }
  }

  lemma ForfeitReconciles(b: Books, g: nat, grp: Group, i: nat)
    requires Reconciled(b, g, grp) && i < |grp.members| && DepositForfeit(g, i) !in b.keys
    requires grp.members[i].deposit == Held ==> grp.members[i].depositAmount >= 0
    requires ForfeitTx(b, g, grp, i).Ok?
    ensures var l := ForfeitTx(b, g, grp, i).value; Reconciled(l.books, g, l.grp) && Extends(b, l.books, g)
  {
    hide BooksOk, Due;
    var m := grp.members[i];
    if m.deposit == Held {
      var next := WithMember(grp, i, m.(deposit := Forfeited));
      forall a ensures Due(g, next, a) == Due(g, grp, a) + Moved(Escrow(m.user), GroupPool(g), m.depositAmount, a) {
        MemberChange(g, grp, i, m.(deposit := Forfeited), a);
      }
      if m.depositAmount > 0 {
        TransferExtends(b, DepositForfeit(g, i), Escrow(m.user), GroupPool(g), m.depositAmount, g);
        TransferReconciles(b, DepositForfeit(g, i), Escrow(m.user), GroupPool(g), m.depositAmount, g, grp, next);
      } else {
        assert forall a :: Due(g, next, a) == Due(g, grp, a);
      }
    }
  }

  /** The missed amount is the daily contribution times the unpaid days, without rounding. */
  lemma MissedIsExact(t: Terms, c: Contribution)
    requires c.amount == t.perDay * c.expectedDays && c.paidDays <= c.expectedDays && c.expectedDays >= 1
    ensures MissedContributionMinor(c.amount, c.expectedDays, c.paidDays) == t.perDay * (c.expectedDays - c.paidDays)
  {
    var unpaid := c.expectedDays - c.paidDays;
    FactorsSwap(t.perDay, c.expectedDays, unpaid);
    ExactQuotient(t.perDay * unpaid, c.expectedDays);
  }

  lemma FactorsSwap(a: int, b: int, c: int)
    ensures a * b * c == a * c * b
  {
    assert a * b * c == a * (b * c) && a * c * b == a * (c * b);
  }

  lemma ExactQuotient(q: int, d: int)
    requires d > 0
    ensures q * d / d == q
  {
    DivBounds(q * d, d);
    var p := q * d / d;
    if p < q { MulOrder(p + 1, q, d); }
    if p > q { MulOrder(q + 1, p, d); }
  }

  lemma NotedDue(g: nat, grp: Group, note: Coverage, a: Account)
    ensures Due(g, grp.(covers := grp.covers + [note]), a) == Due(g, grp, a) + CoverPart(g, a)(note)
  {
    SumAppend(grp.covers, note, CoverPart(g, a));
  }

  /** The reserve and coverage rows of a cover, before the contribution is settled. */
  lemma NotedCoverDue(g: nat, grp: Group, r: nat, amount: int, note: Coverage, a: Account)
    requires r < |grp.reserves|
    ensures Due(g, WithReserve(grp, r, AfterCover(grp.reserves[r], amount)).(covers := grp.covers + [note]), a)
      == Due(g, grp, a) + CoverPart(g, a)(note) + if a == Reserved(grp.reserves[r].user) then -amount else 0
  {
    var row := AfterCover(grp.reserves[r], amount);
    ReserveChange(g, grp, r, row, a);
    NotedDue(g, WithReserve(grp, r, row), note, a);
  }

  lemma SettledContributionDue(g: nat, grp: Group, k: nat, i: nat, amount: int, a: Account)
    requires HasContribution(grp, k, i)
    requires var c := ContributionAt(grp, k, i); amount == grp.terms.perDay * (c.expectedDays - c.paidDays)
    ensures var c := ContributionAt(grp, k, i);
      Due(g, WithContribution(grp, k, i, c.(status := Paid, paidDays := c.expectedDays)), a)
      == Due(g, grp, a) + if a == GroupPool(g) then amount else 0
  {
    hide Due;
    var c := ContributionAt(grp, k, i);
    ContributionChange(g, grp, k, i, c.(status := Paid, paidDays := c.expectedDays), a);
  }

  lemma CoverRowsDue(g: nat, grp: Group, k: nat, i: nat, r: nat, missed: int, amount: int, a: Account)
    requires HasContribution(grp, k, i) && r < |grp.reserves| && 0 < amount <= missed
    requires grp.reserves[r].user == grp.members[i].user
    requires var c := ContributionAt(grp, k, i); missed == grp.terms.perDay * (c.expectedDays - c.paidDays)
    ensures Due(g, CoverRows(grp, k, i, r, missed, amount), a)
         == Due(g, grp, a) + Moved(Reserved(grp.members[i].user), GroupPool(g), amount, a)
  {
    hide Due;
    var note := Coverage(grp.members[i].user, k, r, amount, missed);
    NotedCoverDue(g, grp, r, amount, note, a);
    if amount >= missed {
      FullCoverDue(g, grp, k, i, r, missed, a);
    }
  }

  lemma FullCoverDue(g: nat, grp: Group, k: nat, i: nat, r: nat, missed: int, a: Account)
    requires HasContribution(grp, k, i) && r < |grp.reserves|
    requires var c := ContributionAt(grp, k, i); missed == grp.terms.perDay * (c.expectedDays - c.paidDays)
    ensures Due(g, CoverRows(grp, k, i, r, missed, missed), a)
      == Due(g, Noted(grp, k, i, r, missed, missed), a) + if a == GroupPool(g) then missed else 0
  {
    SettledContributionDue(g, Noted(grp, k, i, r, missed, missed), k, i, missed, a);
  }

  lemma CoverReconciles(cfg: ReserveConfig, b: Books, g: nat, grp: Group, k: nat, i: nat)
    requires Reconciled(b, g, grp) && i < |grp.members|
    requires HasContribution(grp, k, i) ==>
      var c := ContributionAt(grp, k, i);
      c.amount == grp.terms.perDay * c.expectedDays && c.paidDays <= c.expectedDays && c.expectedDays >= 1
    requires CoverTx(cfg, b, g, grp, k, i).Ok?
    ensures var l := CoverTx(cfg, b, g, grp, k, i).value; Reconciled(l.books, g, l.grp) && Extends(b, l.books, g)
  {
    var (r, missed, amount) := CoverDue(cfg, grp, k, i);
    if amount > 0 {
      var user, key := grp.members[i].user, DefaultCover(g, r, k, i);
      MissedIsExact(grp.terms, ContributionAt(grp, k, i));
      TransferExtends(b, key, Reserved(user), GroupPool(g), amount, g);
      if Transfer(b, key, Reserved(user), GroupPool(g), amount).Posted? {
        var next := CoverRows(grp, k, i, r, missed, amount);
        forall a ensures Due(g, next, a) == Due(g, grp, a) + Moved(Reserved(user), GroupPool(g), amount, a) {
          CoverRowsDue(g, grp, k, i, r, missed, amount, a);
        }
        TransferReconciles(b, key, Reserved(user), GroupPool(g), amount, g, grp, next);
      }
    }
  }

  lemma AllocationMoves(g: nat, user: nat, summary: CycleSummary, split: Split, a: Account)
    ensures SumOf(AllocationLines(g, user, summary, split), LineOn(a)) ==
      if a == GroupPool(g) then -summary.gross
      else if a == Available(user) then split.available
      else if a == Revenue then summary.platformShare
      else if a == Reserved(user) && split.reserve > 0 then split.reserve else 0
    ensures SumOf(AllocationLines(g, user, summary, split), DeltaOf()) ==
      -summary.gross + split.available + summary.platformShare + if split.reserve > 0 then split.reserve else 0
  {
    var l0, l1 := Line(GroupPool(g), -summary.gross), Line(Available(user), split.available);
    var l2 := Line(Revenue, summary.platformShare);
    var three := [l0, l1, l2];
    ThreeLines(l0, l1, l2, LineOn(a));
    ThreeLines(l0, l1, l2, DeltaOf());
    if split.reserve > 0 {
      SumAppend(three, Line(Reserved(user), split.reserve), LineOn(a));
      SumAppend(three, Line(Reserved(user), split.reserve), DeltaOf());
    } else {
      assert AllocationLines(g, user, summary, split) == three;
    }
  }

  lemma ThreeLines(l0: Line, l1: Line, l2: Line, f: Line -> int)
    ensures SumOf([l0, l1, l2], f) == f(l0) + f(l1) + f(l2)
  {
    assert [l0, l1, l2] == [] + [l0] + [l1] + [l2];
    SumAppend([], l0, f);
    SumAppend([] + [l0], l1, f);
    SumAppend([] + [l0] + [l1], l2, f);
  }

  /** Opening a cycle adds unpaid rows, and forgiving lateness moves no money. */
  lemma OpenNextDue(g: nat, grp: Group, k: nat, a: Account)
    ensures Due(g, OpenNext(grp, k), a) == Due(g, grp, a)
  {
    var rows := OpenCycle(grp.terms, |grp.members|);
    SumZero(rows, DaysOf());
    SumAppend(grp.cycles, rows, RowDays());
    SumAgree(LateForgiven(grp.members), grp.members, MemberPart(g, a), MemberPart(g, a));
  }

  lemma PaidOutDue(g: nat, grp: Group, k: nat, user: nat, skipped: seq<nat>, summary: CycleSummary,
      split: Split, a: Account)
    requires summary.platformShare == summary.serviceMargin
      && summary.netAfterMargin + summary.serviceMargin == summary.gross
    requires split.reserve >= 0 && split.available + split.reserve == summary.netAfterMargin
    ensures Due(g, PaidOut(grp, k, user, skipped, summary, split), a)
         == Due(g, grp, a) + SumOf(AllocationLines(g, user, summary, split), LineOn(a))
  {
    AllocationMoves(g, user, summary, split, a);
    SumAppend(grp.payouts, Payout(user, k, summary.netAfterMargin, skipped), PayoutPart(g, a));
    SumAppend(grp.earnings, Earning(k, summary.serviceMargin, 0, summary.serviceMargin), EarningPart(g, a));
    if split.reserve > 0 {
      SumAppend(grp.reserves, NewReserve(user, k, split)[0], ReservePart(a));
    } else {
      assert grp.reserves + [] == grp.reserves;
    }
  }

  lemma FinalizeRowsDue(g: nat, grp: Group, k: nat, user: nat, skipped: seq<nat>, summary: CycleSummary,
      split: Split, a: Account)
    requires summary.platformShare == summary.serviceMargin
      && summary.netAfterMargin + summary.serviceMargin == summary.gross
    requires split.reserve >= 0 && split.available + split.reserve == summary.netAfterMargin
    ensures Due(g, FinalizeRows(grp, k, user, skipped, summary, split), a)
         == Due(g, grp, a) + SumOf(AllocationLines(g, user, summary, split), LineOn(a))
  {
    PaidOutDue(g, grp, k, user, skipped, summary, split, a);
    OpenNextDue(g, PaidOut(grp, k, user, skipped, summary, split), k, a);
  }

  lemma AllocateReconciles(cfg: ReserveConfig, b: Books, g: nat, grp: Group, k: nat)
    requires Reconciled(b, g, grp) && Allocation(g, k) !in b.keys
    requires AllocateTx(cfg, b, g, grp, k).Ok?
    ensures var l := AllocateTx(cfg, b, g, grp, k).value; Reconciled(l.books, g, l.grp) && Extends(b, l.books, g)
  {
    hide BooksOk, Due;
    var l := AllocateTx(cfg, b, g, grp, k).value;
    var days := MemberCyclePaymentDays(grp.terms);
    var summary := SummaryOf(grp).value;
    SummaryConserves(grp.terms.perDay, |grp.members|, grp.terms.marginBps, days);
    var selection := SelectPayoutRecipient(grp.members, k, grp.payoutOverride);
    SelectionIsEligible(grp.members, k, grp.payoutOverride);
    SkippedAreMembers(grp.members, k, grp.payoutOverride);
    var user := grp.members[selection.recipient.value].user;
    var split := ComputeSplit(cfg, summary.netAfterMargin, k, |grp.members|, days).value;
    SplitIsExact(cfg, summary.netAfterMargin, k, |grp.members|, days);
    var lines := AllocationLines(g, user, summary, split);
    PostExtends(b, Allocation(g, k), lines, g);
    forall a ensures Flow(l.books.journals, g, a) == Due(g, l.grp, a) {
      PostFlow(b, Allocation(g, k), lines, g, a);
      FinalizeRowsDue(g, grp, k, user, UsersAt(grp.members, selection.skipped), summary, split, a);
    }
  }

  lemma SplitIsExact(cfg: ReserveConfig, net: int, position: int, total: int, unitsPerCycle: int)
    requires net >= 0 && ComputeSplit(cfg, net, position, total, unitsPerCycle).Ok?
    ensures var s := ComputeSplit(cfg, net, position, total, unitsPerCycle).value;
      s.reserve + s.available == net && s.reserve >= 0
  {
    if cfg.enabled {
      var bps := ComputeReserveBps(position, total, cfg.maxBps, cfg.minBps).value;
      if bps > 0 { ProductBound(net, 0, bps); }
    }
  }

  lemma ReturnDepositReconciles(b: Books, g: nat, grp: Group, i: nat)
    requires Reconciled(b, g, grp) && i < |grp.members|
    requires grp.members[i].deposit == Held ==> DepositRelease(g, i) !in b.keys
    requires ReturnDeposit(b, g, grp, i).Ok?
    ensures var l := ReturnDeposit(b, g, grp, i).value; Reconciled(l.books, g, l.grp) && Extends(b, l.books, g)
  {
    hide Due;
    var m := grp.members[i];
    if m.deposit == Held && m.depositAmount > 0 && m.standing != Defaulted {
      var key, next := DepositRelease(g, i), WithMember(grp, i, m.(deposit := Returned));
      forall a
        ensures Due(g, next, a) == Due(g, grp, a) + Moved(Escrow(m.user), Available(m.user), m.depositAmount, a)
      {
        MemberChange(g, grp, i, m.(deposit := Returned), a);
      }
      TransferExtends(b, key, Escrow(m.user), Available(m.user), m.depositAmount, g);
      TransferReconciles(b, key, Escrow(m.user), Available(m.user), m.depositAmount, g, grp, next);
    }
  }

  lemma CloseReserveReconciles(b: Books, g: nat, grp: Group, r: nat)
    requires Reconciled(b, g, grp) && r < |grp.reserves|
    requires grp.reserves[r].status == Open ==> FinalRelease(g, r) !in b.keys
    requires CloseReserve(b, g, grp, r).Ok?
    ensures var l := CloseReserve(b, g, grp, r).value; Reconciled(l.books, g, l.grp) && Extends(b, l.books, g)
  {
    hide BooksOk, Due;
    var row := grp.reserves[r];
    if row.status == Open {
      var amount := if row.remaining <= 0 then 0 else row.remaining;
      var key, next := FinalRelease(g, r), WithReserve(grp, r, FullyReleased(row, amount));
      forall a ensures Due(g, next, a) == Due(g, grp, a) + Moved(Reserved(row.user), Available(row.user), amount, a) {
        ReserveChange(g, grp, r, FullyReleased(row, amount), a);
      }
      if amount > 0 {
        TransferExtends(b, key, Reserved(row.user), Available(row.user), amount, g);
        TransferReconciles(b, key, Reserved(row.user), Available(row.user), amount, g, grp, next);
      } else {
        assert forall a :: Due(g, next, a) == Due(g, grp, a);
      }
    }
  }
}
