/**
 * The double-entry journal (ledger-posting.service.ts): a specification on values, the invariant
 * every sequence of postings keeps, and the class that posts line by line.
 */
module Ledger {
  import opened Wrappers
  import opened Accounts
  import opened Sums

  datatype Line = Line(account: Account, delta: int)
  datatype PostedLine = PostedLine(account: Account, delta: int, balanceAfter: int)
  datatype Journal = Journal(key: Key, lines: seq<PostedLine>)
  datatype Posting = Posting(key: Key, lines: seq<Line>)

  datatype PostError =
    | TooFewLines
    | Unbalanced
    | ZeroDelta
    | Insufficient(account: Account)
    | NonPositiveTransfer
    | SameAccount

  datatype PostResult = Posted(books: Books) | Duplicate | Rejected(error: PostError)

  /** Account balances, the journal in posting order, and the idempotency keys recorded so far. */
  datatype Books = Books(balances: map<Account, int>, journals: seq<Journal>, keys: set<Key>)

  const EMPTY_BOOKS := Books(map[], [], {})

  // ---- Posting -----------------------------------------------------------------------------

  /** An account that was never posted to reads as 0, as a freshly created row does. */
  function Balance(balances: map<Account, int>, a: Account): int {
    if a in balances then balances[a] else 0
  }

  function Credit(balances: map<Account, int>, l: Line): map<Account, int> {
    balances[l.account := Balance(balances, l.account) + l.delta]
  }

  function Settle(balances: map<Account, int>, lines: seq<Line>): map<Account, int> {
    if lines == [] then balances else Credit(Settle(balances, lines[..|lines| - 1]), lines[|lines| - 1])
  }

  function Stamp(balances: map<Account, int>, lines: seq<Line>): seq<PostedLine> {
    if lines == [] then []
    else
      var l := lines[|lines| - 1];
      Stamp(balances, lines[..|lines| - 1])
      + [PostedLine(l.account, l.delta, Balance(Settle(balances, lines), l.account))]
  }

  /** What is wrong with one line when the lines before it have already moved the balances. */
  function LineFault(balances: map<Account, int>, l: Line): Option<PostError> {
    if l.delta == 0 then Some(ZeroDelta)
    else if l.account != SystemExternal && Balance(balances, l.account) + l.delta < 0
    then Some(Insufficient(l.account))
    else None
  }

  function FirstFault(balances: map<Account, int>, lines: seq<Line>): Option<PostError> {
    if lines == [] then None
    else
      var before := lines[..|lines| - 1];
      var earlier := FirstFault(balances, before);
      if earlier.Some? then earlier else LineFault(Settle(balances, before), lines[|lines| - 1])
  }

  function DeltaOf(): Line -> int { (l: Line) => l.delta }
  function LineOn(a: Account): Line -> int { (l: Line) => if l.account == a then l.delta else 0 }
  function PostedDelta(): PostedLine -> int { (l: PostedLine) => l.delta }
  function PostedOn(a: Account): PostedLine -> int { (l: PostedLine) => if l.account == a then l.delta else 0 }

  function Post(b: Books, key: Key, lines: seq<Line>): PostResult {
    if |lines| < 2 then Rejected(TooFewLines)
    else if SumOf(lines, DeltaOf()) != 0 then Rejected(Unbalanced)
    else if key in b.keys then Duplicate
    else
      match FirstFault(b.balances, lines)
      case Some(e) => Rejected(e)
      case None =>
        Posted(Books(Settle(b.balances, lines),
                     b.journals + [Journal(key, Stamp(b.balances, lines))],
                     b.keys + {key}))
  }

  function TransferLines(from: Account, to: Account, amount: int): seq<Line> {
    [Line(from, -amount), Line(to, amount)]
  }

  function Transfer(b: Books, key: Key, from: Account, to: Account, amount: int): PostResult {
    if amount <= 0 then Rejected(NonPositiveTransfer)
    else if from == to then Rejected(SameAccount)
    else Post(b, key, TransferLines(from, to, amount))
  }

  /** A rejected or duplicate posting leaves the books alone. */
  function After(b: Books, r: PostResult): Books {
    if r.Posted? then r.books else b
  }

  function PostAll(b: Books, posts: seq<Posting>): Books {
    if posts == [] then b
    else
      var p := posts[|posts| - 1];
      var earlier := PostAll(b, posts[..|posts| - 1]);
      After(earlier, Post(earlier, p.key, p.lines))
  }

  // ---- Invariant ---------------------------------------------------------------------------


  function AllLines(journals: seq<Journal>): seq<PostedLine> {
    if journals == [] then []
    else AllLines(journals[..|journals| - 1]) + journals[|journals| - 1].lines
  }

  /** Two or more lines, none zero, summing to zero. */
  ghost predicate WellFormedJournal(j: Journal) {
    && |j.lines| >= 2
    && SumOf(j.lines, PostedDelta()) == 0
    && forall i :: 0 <= i < |j.lines| ==> j.lines[i].delta != 0
  }

  /** The balance stamped on line `i` is its account's running total, never negative inside the system. */
  ghost predicate RunningTotal(lines: seq<PostedLine>, i: nat)
    requires i < |lines|
  {
    && lines[i].balanceAfter == SumOf(lines[..i + 1], PostedOn(lines[i].account))
    && (lines[i].account != SystemExternal ==> lines[i].balanceAfter >= 0)
  }

  ghost predicate RunningTotals(lines: seq<PostedLine>) {
    forall i: nat :: i < |lines| ==> RunningTotal(lines, i)
  }

  ghost predicate BalancesMatch(balances: map<Account, int>, lines: seq<PostedLine>) {
    forall a :: Balance(balances, a) == SumOf(lines, PostedOn(a))
  }

  ghost predicate NoOverdraft(balances: map<Account, int>) {
    forall a :: a != SystemExternal ==> Balance(balances, a) >= 0
  }

  ghost predicate KeysMatch(b: Books) {
    && (forall i :: 0 <= i < |b.journals| ==> b.journals[i].key in b.keys)
    && (forall k :: k in b.keys ==> exists i :: 0 <= i < |b.journals| && b.journals[i].key == k)
    && (forall i, j :: 0 <= i < j < |b.journals| ==> b.journals[i].key != b.journals[j].key)
  }

  ghost predicate BooksOk(b: Books) {
    && BalancesMatch(b.balances, AllLines(b.journals))
    && RunningTotals(AllLines(b.journals))
    && KeysMatch(b)
    && (forall i :: 0 <= i < |b.journals| ==> WellFormedJournal(b.journals[i]))
    && NoOverdraft(b.balances)
  }

  // ---- Proof that every posting keeps it -----------------------------------------------------

  lemma {:induction false} SettleBalance(balances: map<Account, int>, lines: seq<Line>, a: Account)
    ensures Balance(Settle(balances, lines), a) == Balance(balances, a) + SumOf(lines, LineOn(a))
  {
    if lines != [] {
      SettleBalance(balances, lines[..|lines| - 1], a);
    }
  }

  /** Stamping changes neither accounts nor deltas, so every sum over the lines survives it. */
  lemma {:induction false} StampKeepsLines(balances: map<Account, int>, lines: seq<Line>)
    ensures |Stamp(balances, lines)| == |lines|
    ensures forall i :: 0 <= i < |lines| ==>
      Stamp(balances, lines)[i].account == lines[i].account && Stamp(balances, lines)[i].delta == lines[i].delta
  {
    if lines != [] {
      StampKeepsLines(balances, lines[..|lines| - 1]);
    }
  }

  lemma {:induction false} StampKeepsSums(balances: map<Account, int>, lines: seq<Line>, a: Account)
    ensures SumOf(Stamp(balances, lines), PostedOn(a)) == SumOf(lines, LineOn(a))
    ensures SumOf(Stamp(balances, lines), PostedDelta()) == SumOf(lines, DeltaOf())
  {
    if lines != [] {
      var front := lines[..|lines| - 1];
      StampKeepsSums(balances, front, a);
      var l := lines[|lines| - 1];
      var p := PostedLine(l.account, l.delta, Balance(Settle(balances, lines), l.account));
      SumAppend(Stamp(balances, front), p, PostedOn(a));
      SumAppend(Stamp(balances, front), p, PostedDelta());
    }
  }

  lemma LineExtends(balances: map<Account, int>, posted: seq<PostedLine>, l: Line)
    requires RunningTotals(posted) && BalancesMatch(balances, posted)
    requires LineFault(balances, l).None?
    ensures var p := PostedLine(l.account, l.delta, Balance(Credit(balances, l), l.account));
      RunningTotals(posted + [p]) && BalancesMatch(Credit(balances, l), posted + [p])
  {
    var p := PostedLine(l.account, l.delta, Balance(Credit(balances, l), l.account));
    var all := posted + [p];
    forall a ensures Balance(Credit(balances, l), a) == SumOf(all, PostedOn(a)) {
      SumAppend(posted, p, PostedOn(a));
    }
    forall i: nat | i < |all| ensures RunningTotal(all, i) {
      if i < |posted| {
        assert RunningTotal(posted, i);
        assert all[..i + 1] == posted[..i + 1];
      } else {
        assert all[..i + 1] == all;
      }
    }
  }

  /** Accepted lines extend the running totals of whatever was posted before. */
  lemma {:induction false} StampExtends(balances: map<Account, int>, posted: seq<PostedLine>, lines: seq<Line>)
    requires RunningTotals(posted) && BalancesMatch(balances, posted)
    requires FirstFault(balances, lines).None?
    ensures RunningTotals(posted + Stamp(balances, lines))
    ensures BalancesMatch(Settle(balances, lines), posted + Stamp(balances, lines))
  {
    if lines == [] {
      assert posted + Stamp(balances, lines) == posted;
    } else {
      var front, l := lines[..|lines| - 1], lines[|lines| - 1];
      StampExtends(balances, posted, front);
      LineExtends(Settle(balances, front), posted + Stamp(balances, front), l);
      assert posted + Stamp(balances, lines) == posted + Stamp(balances, front)
        + [PostedLine(l.account, l.delta, Balance(Settle(balances, lines), l.account))];
    }
  }

  lemma {:induction false} AcceptedKeepsNoOverdraft(balances: map<Account, int>, lines: seq<Line>)
    requires FirstFault(balances, lines).None? && NoOverdraft(balances)
    ensures NoOverdraft(Settle(balances, lines))
    ensures forall i :: 0 <= i < |lines| ==> lines[i].delta != 0
  {
    if lines != [] {
      var front, l := lines[..|lines| - 1], lines[|lines| - 1];
      AcceptedKeepsNoOverdraft(balances, front);
      assert LineFault(Settle(balances, front), l).None?;
      forall a | a != SystemExternal ensures Balance(Settle(balances, lines), a) >= 0 {
        assert Balance(Settle(balances, front), a) >= 0;
      }
    }
  }

  lemma FreshKeyKeepsKeysMatch(b: Books, after: Books, j: Journal)
    requires KeysMatch(b) && j.key !in b.keys
    requires after.journals == b.journals + [j] && after.keys == b.keys + {j.key}
    ensures KeysMatch(after)
  {
    hide BooksOk;
    forall k | k in after.keys
      ensures exists i :: 0 <= i < |after.journals| && after.journals[i].key == k
    {
      if k == j.key {
        assert after.journals[|b.journals|].key == k;
      } else {
        var i :| 0 <= i < |b.journals| && b.journals[i].key == k;
        assert after.journals[i].key == k;
      }
    }
  }

  lemma StampedJournalOk(balances: map<Account, int>, key: Key, lines: seq<Line>)
    requires |lines| >= 2 && SumOf(lines, DeltaOf()) == 0 && forall i :: 0 <= i < |lines| ==> lines[i].delta != 0
    ensures WellFormedJournal(Journal(key, Stamp(balances, lines)))
  {
    StampKeepsLines(balances, lines);
    StampKeepsSums(balances, lines, SystemExternal);
  }

  lemma OneMoreJournal(journals: seq<Journal>, j: Journal)
    ensures AllLines(journals + [j]) == AllLines(journals) + j.lines
  {
    assert (journals + [j])[..|journals|] == journals;
  }

  lemma OneMoreWellFormed(journals: seq<Journal>, j: Journal)
    requires forall i :: 0 <= i < |journals| ==> WellFormedJournal(journals[i])
    requires WellFormedJournal(j)
    ensures forall i :: 0 <= i < |journals + [j]| ==> WellFormedJournal((journals + [j])[i])
  {
  }

  lemma PostedBooksOk(b: Books, after: Books, j: Journal)
    requires BooksOk(b) && j.key !in b.keys
    requires after.journals == b.journals + [j] && after.keys == b.keys + {j.key}
    requires BalancesMatch(after.balances, AllLines(b.journals) + j.lines)
    requires RunningTotals(AllLines(b.journals) + j.lines)
    requires WellFormedJournal(j) && NoOverdraft(after.balances)
    ensures BooksOk(after)
  {
    OneMoreJournal(b.journals, j);
    FreshKeyKeepsKeysMatch(b, after, j);
    OneMoreWellFormed(b.journals, j);
  }

  lemma PostKeepsBooksOk(b: Books, key: Key, lines: seq<Line>)
    requires BooksOk(b)
    ensures BooksOk(After(b, Post(b, key, lines)))
  {
    var r := Post(b, key, lines);
    if r.Posted? {
      StampExtends(b.balances, AllLines(b.journals), lines);
      AcceptedKeepsNoOverdraft(b.balances, lines);
      StampedJournalOk(b.balances, key, lines);
      PostedBooksOk(b, r.books, Journal(key, Stamp(b.balances, lines)));
    }
  }

  /** Safety over every sequence of accepted, duplicate and rejected postings. */
  lemma {:induction false} PostingsKeepBooksOk(posts: seq<Posting>)
    ensures BooksOk(PostAll(EMPTY_BOOKS, posts))
  {
    if posts != [] {
      var p := posts[|posts| - 1];
      PostingsKeepBooksOk(posts[..|posts| - 1]);
      PostKeepsBooksOk(PostAll(EMPTY_BOOKS, posts[..|posts| - 1]), p.key, p.lines);
    }
  }

  // ---- Conservation ------------------------------------------------------------------------

  ghost predicate Distinct(accounts: seq<Account>) {
    forall i, j :: 0 <= i < j < |accounts| ==> accounts[i] != accounts[j]
  }

  function BalanceIn(balances: map<Account, int>): Account -> int { a => Balance(balances, a) }
  function SumOn(lines: seq<PostedLine>): Account -> int { a => SumOf(lines, PostedOn(a)) }

  /** Summed account by account or line by line, the same lines give the same total. */
  lemma {:induction false} SumsExchange(accounts: seq<Account>, lines: seq<PostedLine>)
    requires Distinct(accounts)
    requires forall i :: 0 <= i < |lines| ==> lines[i].account in accounts
    ensures SumOf(accounts, SumOn(lines)) == SumOf(lines, PostedDelta())
  {
    if lines == [] {
      SumZero(accounts, SumOn(lines));
    } else {
      var front, l := lines[..|lines| - 1], lines[|lines| - 1];
      SumsExchange(accounts, front);
      var i :| 0 <= i < |accounts| && accounts[i] == l.account;
      OneAccountMoves(accounts, SumOn(front), SumOn(lines), i, l.delta);
    }
  }

  lemma {:induction false} OneAccountMoves(accounts: seq<Account>, f: Account -> int, g: Account -> int, i: nat, d: int)
    requires i < |accounts|
    requires g(accounts[i]) == f(accounts[i]) + d
    requires forall j :: 0 <= j < |accounts| && j != i ==> g(accounts[j]) == f(accounts[j])
    ensures SumOf(accounts, g) == SumOf(accounts, f) + d
  {
    var n := |accounts| - 1;
    if i == n {
      SumAgree(accounts[..n], accounts[..n], f, g);
    } else {
      OneAccountMoves(accounts[..n], f, g, i, d);
    }
  }

  lemma {:induction false} JournalsCancel(journals: seq<Journal>)
    requires forall i :: 0 <= i < |journals| ==> WellFormedJournal(journals[i])
    ensures SumOf(AllLines(journals), PostedDelta()) == 0
  {
    if journals != [] {
      var n := |journals| - 1;
      JournalsCancel(journals[..n]);
      SumConcat(AllLines(journals[..n]), journals[n].lines, PostedDelta());
    }
  }

  /** Money is neither made nor lost: the balances of all accounts ever posted to cancel. */
  lemma BalancesCancel(b: Books, accounts: seq<Account>)
    requires BooksOk(b) && Distinct(accounts)
    requires forall l :: l in AllLines(b.journals) ==> l.account in accounts
    ensures SumOf(accounts, BalanceIn(b.balances)) == 0
  {
    var lines := AllLines(b.journals);
    SumsExchange(accounts, lines);
    JournalsCancel(b.journals);
    SumAgree(accounts, accounts, BalanceIn(b.balances), SumOn(lines));
  }

  // ---- Acceptance ----------------------------------------------------------------------------

  /** The lines before `i` leave enough on the account of line `i`. */
  ghost predicate Covered(balances: map<Account, int>, lines: seq<Line>, i: nat)
    requires i < |lines|
  {
    && lines[i].delta != 0
    && (lines[i].account != SystemExternal ==>
          Balance(balances, lines[i].account) + SumOf(lines[..i + 1], LineOn(lines[i].account)) >= 0)
  }

  lemma {:induction false} NoFaultExactly(balances: map<Account, int>, lines: seq<Line>)
    ensures FirstFault(balances, lines).None? <==> forall i: nat :: i < |lines| ==> Covered(balances, lines, i)
  {
    if lines != [] {
      var n := |lines| - 1;
      var front := lines[..n];
      NoFaultExactly(balances, front);
      SettleBalance(balances, front, lines[n].account);
      assert lines[..n + 1] == lines;
      forall i: nat | i < n ensures Covered(balances, front, i) <==> Covered(balances, lines, i) {
        assert front[..i + 1] == lines[..i + 1];
      }
      assert LineFault(Settle(balances, front), lines[n]).None? <==> Covered(balances, lines, n);
    }
  }

  /** What an accepted journal does to every balance. */
  lemma PostMoves(b: Books, key: Key, lines: seq<Line>, a: Account)
    requires Post(b, key, lines).Posted?
    ensures Balance(Post(b, key, lines).books.balances, a) == Balance(b.balances, a) + SumOf(lines, LineOn(a))
  {
    SettleBalance(b.balances, lines, a);
  }

  /** What an accepted transfer does to every balance. */
  lemma TransferMoves(b: Books, key: Key, from: Account, to: Account, amount: int, a: Account)
    requires Transfer(b, key, from, to, amount).Posted?
    ensures Balance(Transfer(b, key, from, to, amount).books.balances, a)
         == Balance(b.balances, a) + Moved(from, to, amount, a)
  {
    var lines := TransferLines(from, to, amount);
    assert lines[..1] == [lines[0]] && [lines[0]][..0] == [];
    assert Settle(b.balances, lines[..1]) == Credit(b.balances, lines[0]);
  }

  /** A journal is accepted exactly when it is balanced, fresh, free of zero lines and never overdraws. */
  lemma PostedExactly(b: Books, key: Key, lines: seq<Line>)
    ensures Post(b, key, lines).Posted? <==>
      && |lines| >= 2 && SumOf(lines, DeltaOf()) == 0 && key !in b.keys
      && forall i: nat :: i < |lines| ==> Covered(b.balances, lines, i)
  {
    NoFaultExactly(b.balances, lines);
  }

  lemma TransferExactly(b: Books, key: Key, from: Account, to: Account, amount: int)
    requires key !in b.keys && from != SystemExternal && BooksOk(b)
    ensures Transfer(b, key, from, to, amount).Posted? <==>
      from != to && 0 < amount <= Balance(b.balances, from)
  {
    var lines := TransferLines(from, to, amount);
    assert lines[..1] == [lines[0]] && [lines[0]][..0] == [];
    assert SumOf(lines[..1], DeltaOf()) == -amount;
    assert SumOf(lines, DeltaOf()) == 0;
    assert FirstFault(b.balances, lines[..1]) == LineFault(b.balances, lines[0]);
    assert Settle(b.balances, lines[..1]) == Credit(b.balances, lines[0]);
    assert FirstFault(b.balances, lines).None? <==>
      LineFault(b.balances, lines[0]).None? && LineFault(Credit(b.balances, lines[0]), lines[1]).None?;
    if from != to {
      assert to != SystemExternal ==> Balance(b.balances, to) >= 0;
    }
  }

  // ---- Replay --------------------------------------------------------------------------------

  /** The postings that were accepted when they were made, in order. */
  function AcceptedOnly(b: Books, posts: seq<Posting>): seq<Posting> {
    if posts == [] then []
    else
      var front, p := posts[..|posts| - 1], posts[|posts| - 1];
      AcceptedOnly(b, front)
      + (if Post(PostAll(b, front), p.key, p.lines).Posted? then [p] else [])
  }

  /** An accepted posting adds its journal and its key; any other changes nothing. */
  lemma PostGrows(b: Books, p: Posting)
    ensures var r, after := Post(b, p.key, p.lines), After(b, Post(b, p.key, p.lines));
      if r.Posted? then p.key !in b.keys && after.keys == b.keys + {p.key} && |after.journals| == |b.journals| + 1
      else after == b
  {
    hide FirstFault, Settle, Stamp;
  }

  /** Retries are harmless: a run ends where the run of its accepted postings alone ends. */
  lemma {:induction false} ReplayInsensitive(b: Books, posts: seq<Posting>)
    ensures PostAll(b, AcceptedOnly(b, posts)) == PostAll(b, posts)
    ensures |PostAll(b, posts).journals| == |b.journals| + |AcceptedOnly(b, posts)|
    ensures b.keys <= PostAll(b, posts).keys
    ensures forall p :: p in AcceptedOnly(b, posts) ==> p.key in PostAll(b, posts).keys && p.key !in b.keys
    ensures var kept := AcceptedOnly(b, posts);
      forall i, j :: 0 <= i < j < |kept| ==> kept[i].key != kept[j].key
  {
    hide Post, After;
    if posts != [] {
      var front, p := posts[..|posts| - 1], posts[|posts| - 1];
      ReplayInsensitive(b, front);
      PostGrows(PostAll(b, front), p);
      if Post(PostAll(b, front), p.key, p.lines).Posted? {
        assert AcceptedOnly(b, posts)[..|AcceptedOnly(b, posts)| - 1] == AcceptedOnly(b, front);
      } else {
        assert AcceptedOnly(b, posts) == AcceptedOnly(b, front);
      }
    }
  }

  /**
   * Posting again under a recorded key changes nothing, whatever the lines; balanced ones are answered as
   * a duplicate, even where no balance would cover them.
   */
  lemma RepeatIsIgnored(b: Books, first: Posting, between: seq<Posting>, lines: seq<Line>)
    requires Post(b, first.key, first.lines).Posted?
    ensures var later := PostAll(After(b, Post(b, first.key, first.lines)), between);
      && After(later, Post(later, first.key, lines)) == later
      && (Post(later, first.key, lines).Duplicate? <==> |lines| >= 2 && SumOf(lines, DeltaOf()) == 0)
      && (Post(later, first.key, lines).Rejected? <==> |lines| < 2 || SumOf(lines, DeltaOf()) != 0)
  {
    ReplayInsensitive(After(b, Post(b, first.key, first.lines)), between);
  }

  // ---- Attribution ---------------------------------------------------------------------------

  /** Net movement of `a` by the journals that group `g` posted. */
  function Flow(journals: seq<Journal>, g: nat, a: Account): int {
    SumOf(journals, Attributed(g, a))
  }

  function Attributed(g: nat, a: Account): Journal -> int {
    (j: Journal) => if OwnerOf(j.key) == Some(g) then SumOf(j.lines, PostedOn(a)) else 0
  }

  lemma PostFlow(b: Books, key: Key, lines: seq<Line>, g: nat, a: Account)
    requires Post(b, key, lines).Posted?
    ensures Flow(Post(b, key, lines).books.journals, g, a)
         == Flow(b.journals, g, a) + if OwnerOf(key) == Some(g) then SumOf(lines, LineOn(a)) else 0
  {
    var j := Journal(key, Stamp(b.balances, lines));
    SumAppend(b.journals, j, Attributed(g, a));
    StampKeepsSums(b.balances, lines, a);
  }

  function Moved(from: Account, to: Account, amount: int, a: Account): int {
    if a == from then -amount else if a == to then amount else 0
  }

  lemma TransferFlow(b: Books, key: Key, from: Account, to: Account, amount: int, g: nat, a: Account)
    requires Transfer(b, key, from, to, amount).Posted?
    ensures Flow(Transfer(b, key, from, to, amount).books.journals, g, a)
         == Flow(b.journals, g, a) + if OwnerOf(key) == Some(g) then Moved(from, to, amount, a) else 0
  {
    var lines := TransferLines(from, to, amount);
    PostFlow(b, key, lines, g, a);
    assert lines[..1] == [lines[0]];
    assert SumOf(lines[..1], LineOn(a)) == LineOn(a)(lines[0]);
  }

  /** Sum of the flows of groups 0 .. n-1. */
  function FlowsOn(journals: seq<Journal>, a: Account): nat -> int { (g: nat) => Flow(journals, g, a) }

  ghost predicate OwnedBelow(journals: seq<Journal>, n: nat) {
    forall i :: 0 <= i < |journals| ==> OwnerOf(journals[i].key).Some? && OwnerOf(journals[i].key).value < n
  }

  /** When every journal belongs to some group, the balances split into the groups' flows. */
  lemma {:induction false} FlowsCoverLedger(journals: seq<Journal>, n: nat, a: Account)
    requires OwnedBelow(journals, n)
    ensures SumOf(AllLines(journals), PostedOn(a)) == SumTo(n, FlowsOn(journals, a))
  {
    if journals == [] {
      NoFlows(n, a);
    } else {
      var front, j := journals[..|journals| - 1], journals[|journals| - 1];
      FlowsCoverLedger(front, n, a);
      assert journals == front + [j];
      SumConcat(AllLines(front), j.lines, PostedOn(a));
      OneFlowMoves(front, j, n, a);
    }
  }

  lemma {:induction false} NoFlows(n: nat, a: Account)
    ensures SumTo(n, FlowsOn([], a)) == 0
  {
    if n > 0 {
      NoFlows(n - 1, a);
    }
  }

  lemma {:induction false} OneFlowMoves(front: seq<Journal>, j: Journal, n: nat, a: Account)
    requires OwnerOf(j.key).Some?
    ensures SumTo(n, FlowsOn(front + [j], a))
         == SumTo(n, FlowsOn(front, a)) + if OwnerOf(j.key).value < n then SumOf(j.lines, PostedOn(a)) else 0
  {
    if n > 0 {
      OneFlowMoves(front, j, n - 1, a);
      SumAppend(front, j, Attributed(n - 1, a));
    }
  }

  // ---- The service ---------------------------------------------------------------------------

  datatype Receipt = Recorded | AlreadyRecorded | Refused(error: PostError)

  function ReceiptOf(r: PostResult): Receipt {
    match r
    case Posted(_) => Recorded
    case Duplicate => AlreadyRecorded
    case Rejected(e) => Refused(e)
  }

  lemma {:induction false} FaultPersists(balances: map<Account, int>, lines: seq<Line>, i: nat)
    requires i <= |lines| && FirstFault(balances, lines[..i]).Some?
    ensures FirstFault(balances, lines) == FirstFault(balances, lines[..i])
  {
    if i == |lines| {
      assert lines[..i] == lines;
    } else {
      assert lines[..|lines| - 1][..i] == lines[..i];
      FaultPersists(balances, lines[..|lines| - 1], i);
    }
  }

  lemma NothingSettled(balances: map<Account, int>)
    ensures FirstFault(balances, []).None? && Settle(balances, []) == balances
  {
  }

  lemma NextFault(balances: map<Account, int>, lines: seq<Line>, i: nat)
    requires i < |lines| && FirstFault(balances, lines[..i]).None?
    ensures FirstFault(balances, lines[..i + 1]) == LineFault(Settle(balances, lines[..i]), lines[i])
    ensures Settle(balances, lines[..i + 1]) == Credit(Settle(balances, lines[..i]), lines[i])
  {
    assert lines[..i + 1][..i] == lines[..i];
  }

  ghost predicate Projects(projected: map<Account, int>, balances: map<Account, int>, lines: seq<Line>) {
    forall a :: a != SystemExternal ==>
      (if a in projected then projected[a] else Balance(balances, a)) == Balance(Settle(balances, lines), a)
  }

  class LedgerService {
    var balances: map<Account, int>
    var journals: seq<Journal>
    var keys: set<Key>

    ghost function View(): Books
      reads this
    {
      Books(balances, journals, keys)
    }

    constructor ()
      ensures View() == EMPTY_BOOKS
    {
      balances, journals, keys := map[], [], {};
    }

    /** The dry run over projected balances; touches nothing. */
    method CheckLines(lines: seq<Line>) returns (fault: Option<PostError>)
      ensures fault == FirstFault(balances, lines)
    {
      hide FirstFault, Settle;
      var projected: map<Account, int> := map[];
      NothingSettled(balances);
      for i := 0 to |lines|
        invariant FirstFault(balances, lines[..i]).None?
        invariant Projects(projected, balances, lines[..i])
      {
        var l := lines[i];
        NextFault(balances, lines, i);
        if l.delta == 0 {
          FaultPersists(balances, lines, i + 1);
          return Some(ZeroDelta);
        }
        if l.account != SystemExternal {
          var base := if l.account in projected then projected[l.account] else Balance(balances, l.account);
          if base + l.delta < 0 {
            FaultPersists(balances, lines, i + 1);
            return Some(Insufficient(l.account));
          }
          projected := projected[l.account := base + l.delta];
        }
      }
      assert lines[..|lines|] == lines;
      return None;
    }

    /** Moves the balances line by line and returns the stamped lines. */
    method ApplyLines(lines: seq<Line>) returns (created: seq<PostedLine>)
      modifies this`balances
      ensures balances == Settle(old(balances), lines)
      ensures created == Stamp(old(balances), lines)
    {
      created := [];
      for i := 0 to |lines|
        invariant balances == Settle(old(balances), lines[..i])
        invariant created == Stamp(old(balances), lines[..i])
      {
        var l := lines[i];
        assert lines[..i + 1][..i] == lines[..i];
        var next := Balance(balances, l.account) + l.delta;
        balances := balances[l.account := next];
        created := created + [PostedLine(l.account, l.delta, next)];
      }
      assert lines[..|lines|] == lines;
    }

    /** Checks every line against projected balances, then applies and stamps the lines one by one. */
    method PostJournal(key: Key, lines: seq<Line>) returns (r: Receipt)
      modifies this
      ensures r == ReceiptOf(Post(old(View()), key, lines))
      ensures View() == After(old(View()), Post(old(View()), key, lines))
    {
      if |lines| < 2 {
        return Refused(TooFewLines);
      }
      var sum := 0;
      for i := 0 to |lines|
        invariant sum == SumOf(lines[..i], DeltaOf())
      {
        assert lines[..i + 1][..i] == lines[..i];
        sum := sum + lines[i].delta;
      }
      assert lines[..|lines|] == lines;
      if sum != 0 {
        return Refused(Unbalanced);
      }
      if key in keys {
        return AlreadyRecorded;
      }
      var fault := CheckLines(lines);
      if fault.Some? {
        return Refused(fault.value);
      }
      var created := ApplyLines(lines);
      journals := journals + [Journal(key, created)];
      keys := keys + {key};
      return Recorded;
    }

    method PostTransfer(key: Key, from: Account, to: Account, amount: int) returns (r: Receipt)
      modifies this
      ensures r == ReceiptOf(Transfer(old(View()), key, from, to, amount))
      ensures View() == After(old(View()), Transfer(old(View()), key, from, to, amount))
    {
      if amount <= 0 {
        return Refused(NonPositiveTransfer);
      }
      if from == to {
        return Refused(SameAccount);
      }
      r := PostJournal(key, [Line(from, -amount), Line(to, amount)]);
    }

    /** The database's undo of an aborted transaction. */
    method Rollback(to: Books)
      modifies this
      ensures View() == to
    {
      balances, journals, keys := to.balances, to.journals, to.keys;
    }

    method Snapshot() returns (b: Books)
      ensures b == View()
    {
      b := Books(balances, journals, keys);
    }
  }
}
