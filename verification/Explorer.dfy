/** Keyset pagination of the ledger explorer: the pages, put together, are the sorted table. */
module Explorer {
  import opened Wrappers

  /** A ledger transaction as the explorer orders it; `createdAt` in milliseconds. */
  datatype Row = Row(createdAt: int, id: string)

  datatype Cursor = Cursor(createdAt: int, id: string)

  datatype Page = Page(transactions: seq<Row>, nextCursor: Option<Cursor>)

  // ---- Order ------------------------------------------------------------------------------------------------

  /** Text order of ids. */
  predicate IdLess(a: string, b: string) {
    if b == "" then false
    else if a == "" then true
    else a[0] < b[0] || (a[0] == b[0] && IdLess(a[1..], b[1..]))
  }

  lemma {:induction false} IdOrder(a: string, b: string, c: string)
    ensures !IdLess(a, a)
    ensures IdLess(a, b) && IdLess(b, c) ==> IdLess(a, c)
    ensures IdLess(a, b) || IdLess(b, a) || a == b
    ensures !(IdLess(a, b) && IdLess(b, a))
    decreases |a| + |b| + |c|
  {
    var ta, tb, tc := if a == "" then a else a[1..], if b == "" then b else b[1..], if c == "" then c else c[1..];
    if a != "" || b != "" || c != "" {
      IdOrder(ta, tb, tc);
    }
    if a != "" && b != "" && ta == tb && a[0] == b[0] {
      assert a == [a[0]] + ta && b == [b[0]] + tb;
    }
  }

  /** `x` comes before `y` in (createdAt desc, id desc) order. */
  predicate Newer(x: Row, y: Row) {
    x.createdAt > y.createdAt || (x.createdAt == y.createdAt && IdLess(y.id, x.id))
  }

  lemma NewerOrder(x: Row, y: Row, z: Row)
    ensures !Newer(x, x)
    ensures Newer(x, y) && Newer(y, z) ==> Newer(x, z)
    ensures Newer(x, y) || Newer(y, x) || x == y
    ensures !(Newer(x, y) && Newer(y, x))
  {
    IdOrder(z.id, y.id, x.id);
    IdOrder(x.id, y.id, z.id);
  }

  ghost predicate Descending(s: seq<Row>) {
    forall i, j :: 0 <= i < j < |s| ==> Newer(s[i], s[j])
  }

  // ---- The query --------------------------------------------------------------------------------------------

  function Filter(table: seq<Row>, keep: Row -> bool): seq<Row> {
    if table == [] then []
    else if keep(table[0]) then [table[0]] + Filter(table[1..], keep)
    else Filter(table[1..], keep)
  }

  function Insert(s: seq<Row>, x: Row): seq<Row> {
    if s == [] then [x]
    else if Newer(x, s[0]) then [x] + s
    else [s[0]] + Insert(s[1..], x)
  }

  /** ORDER BY createdAt DESC, id DESC. */
  function Sorted(table: seq<Row>): seq<Row> {
    if table == [] then [] else Insert(Sorted(table[1..]), table[0])
  }

  function Take(s: seq<Row>, n: nat): seq<Row> {
    if |s| <= n then s else s[..n]
  }

  /** Strictly older than the cursor: earlier, or at the same instant with a smaller id. */
  predicate Past(cursor: Option<Cursor>, r: Row) {
    cursor.None? || r.createdAt < cursor.value.createdAt
    || (r.createdAt == cursor.value.createdAt && IdLess(r.id, cursor.value.id))
  }

  /** `requested` is the parsed number, absent when the text was no number. */
  function ParseExplorerLimit(requested: Option<int>): (limit: nat)
    ensures 1 <= limit <= 200
  {
    if requested.None? || requested.value < 1 then 50
    else if requested.value > 200 then 200
    else requested.value
  }

  /** One request: a row more than the page is fetched to see whether there is a next page. */
  function ListTransactions(table: seq<Row>, matching: Row -> bool, cursor: Option<Cursor>,
      requested: Option<int>): Page {
    var limit := ParseExplorerLimit(requested);
    PageOf(Take(Sorted(Filter(table, (r: Row) => matching(r) && Past(cursor, r))), limit + 1), limit)
  }

  /** What is shown of the fetched rows, and where the next page starts. */
  function PageOf(rows: seq<Row>, limit: nat): Page {
    var hasMore := |rows| > limit;
    var transactions := if hasMore then rows[..limit] else rows;
    Page(transactions,
         if hasMore && transactions != []
         then Some(Cursor(transactions[|transactions| - 1].createdAt, transactions[|transactions| - 1].id))
         else None)
  }

  // ---- Sorting and filtering ---------------------------------------------------------------------------------

  lemma {:induction false} InsertKeeps(s: seq<Row>, x: Row)
    ensures multiset(Insert(s, x)) == multiset(s) + multiset{x}
    ensures forall y :: y in Insert(s, x) <==> y == x || y in s
  {
    if s != [] && !Newer(x, s[0]) {
      InsertKeeps(s[1..], x);
      assert s == [s[0]] + s[1..];
    }
  }

  lemma {:induction false} InsertDescending(s: seq<Row>, x: Row)
    requires Descending(s) && x !in s
    ensures Descending(Insert(s, x))
  {
    if s != [] {
      if Newer(x, s[0]) {
        forall j | 0 <= j < |s| ensures Newer(x, s[j]) {
          NewerOrder(x, s[0], s[j]);
        }
      } else {
        NewerOrder(s[0], x, x);
        InsertDescending(s[1..], x);
        InsertKeeps(s[1..], x);
        var rest := Insert(s[1..], x);
        forall j | 0 <= j < |rest| ensures Newer(s[0], rest[j]) {
          assert rest[j] in rest;
          if rest[j] != x {
            var i :| 0 <= i < |s[1..]| && s[1..][i] == rest[j];
            assert s[i + 1] == rest[j];
          }
        }
      }
    }
  }

  ghost predicate NoDuplicates(table: seq<Row>) {
    forall i, j :: 0 <= i < j < |table| ==> table[i] != table[j]
  }

  lemma {:induction false} SortedKeeps(table: seq<Row>)
    ensures multiset(Sorted(table)) == multiset(table)
    ensures forall x :: x in Sorted(table) <==> x in table
  {
    if table != [] {
      SortedKeeps(table[1..]);
      InsertKeeps(Sorted(table[1..]), table[0]);
      assert table == [table[0]] + table[1..];
    }
  }

  lemma NoDuplicatesTail(table: seq<Row>)
    requires NoDuplicates(table) && table != []
    ensures NoDuplicates(table[1..]) && table[0] !in table[1..]
  {
    assert forall j :: 0 <= j < |table[1..]| ==> table[1..][j] == table[j + 1];
  }

  lemma {:induction false} SortedDescending(table: seq<Row>)
    requires NoDuplicates(table)
    ensures Descending(Sorted(table))
  {
    if table != [] {
      NoDuplicatesTail(table);
      SortedDescending(table[1..]);
      SortedKeeps(table[1..]);
      InsertDescending(Sorted(table[1..]), table[0]);
    }
  }

  lemma {:induction false} FilterWithin(table: seq<Row>, keep: Row -> bool)
    ensures forall x :: x in Filter(table, keep) <==> x in table && keep(x)
    ensures NoDuplicates(table) ==> NoDuplicates(Filter(table, keep))
  {
    if table != [] {
      FilterWithin(table[1..], keep);
      assert table == [table[0]] + table[1..];
      if NoDuplicates(table) {
        NoDuplicatesTail(table);
      }
    }
  }

  lemma FilterHead(x: Row, s: seq<Row>, keep: Row -> bool)
    ensures Filter([x] + s, keep) == if keep(x) then [x] + Filter(s, keep) else Filter(s, keep)
  {
    assert ([x] + s)[1..] == s;
  }

  lemma {:induction false} InsertBeforeAll(s: seq<Row>, x: Row)
    requires forall j :: 0 <= j < |s| ==> Newer(x, s[j])
    ensures Insert(s, x) == [x] + s
  {
    if s == [] { assert [x] + s == [x]; }
  }

  /** Filtering commutes with insertion into a descending list. */
  lemma {:induction false} FilterInsert(s: seq<Row>, x: Row, keep: Row -> bool)
    requires Descending(s)
    ensures Filter(Insert(s, x), keep) == if keep(x) then Insert(Filter(s, keep), x) else Filter(s, keep)
  {
    if s == [] {
      assert Filter([x], keep) == if keep(x) then [x] else [];
    } else if Newer(x, s[0]) {
      FilterHead(x, s, keep);
      FilterWithin(s, keep);
      forall j | 0 <= j < |Filter(s, keep)| ensures Newer(x, Filter(s, keep)[j]) {
        assert Filter(s, keep)[j] in s;
        var i :| 0 <= i < |s| && s[i] == Filter(s, keep)[j];
        NewerOrder(x, s[0], s[i]);
      }
      InsertBeforeAll(Filter(s, keep), x);
    } else {
      FilterInsert(s[1..], x, keep);
      FilterHead(s[0], Insert(s[1..], x), keep);
      if keep(s[0]) {
        var rest := Filter(s[1..], keep);
        assert Filter(s, keep) == [s[0]] + rest;
        assert ([s[0]] + rest)[1..] == rest;
      }
    }
  }

  lemma {:induction false} FilterSorted(table: seq<Row>, keep: Row -> bool)
    requires NoDuplicates(table)
    ensures Sorted(Filter(table, keep)) == Filter(Sorted(table), keep)
  {
    if table != [] {
      var x, tail := table[0], table[1..];
      NoDuplicatesTail(table);
      FilterSorted(tail, keep);
      SortedDescending(tail);
      FilterInsert(Sorted(tail), x, keep);
      assert ([x] + Filter(tail, keep))[1..] == Filter(tail, keep);
    }
  }

  lemma {:induction false} FilterAll(s: seq<Row>, keep: Row -> bool)
    requires forall i :: 0 <= i < |s| ==> keep(s[i])
    ensures Filter(s, keep) == s
  {
    if s != [] { FilterAll(s[1..], keep); }
  }

  lemma {:induction false} FilterSuffix(s: seq<Row>, keep: Row -> bool, p: nat)
    requires p <= |s|
    requires forall i :: 0 <= i < p ==> !keep(s[i])
    requires forall i :: p <= i < |s| ==> keep(s[i])
    ensures Filter(s, keep) == s[p..]
  {
    if p == 0 {
      FilterAll(s, keep);
    } else {
      FilterSuffix(s[1..], keep, p - 1);
      assert s[1..][p - 1..] == s[p..];
    }
  }

  lemma {:induction false} FilterTwice(table: seq<Row>, first: Row -> bool, second: Row -> bool, both: Row -> bool)
    requires forall r :: both(r) <==> first(r) && second(r)
    ensures Filter(table, both) == Filter(Filter(table, first), second)
  {
    if table != [] {
      FilterTwice(table[1..], first, second, both);
      if first(table[0]) { FilterHead(table[0], Filter(table[1..], first), second); }
    }
  }

  // ---- Pages -------------------------------------------------------------------------------------------------

  /** All matching rows in explorer order. */
  function Matching(table: seq<Row>, matching: Row -> bool): seq<Row> { Sorted(Filter(table, matching)) }

  /** The cursor left by a page that ended just before position `p` of the ordered rows. */
  function CursorAt(all: seq<Row>, p: nat): Option<Cursor>
    requires p <= |all|
  {
    if p == 0 then None else Some(Cursor(all[p - 1].createdAt, all[p - 1].id))
  }

  /** Behind the cursor of position `p` lie exactly the rows from `p` on. */
  lemma RowsBehindCursor(table: seq<Row>, matching: Row -> bool, p: nat)
    requires NoDuplicates(table) && p <= |Matching(table, matching)|
    ensures var all := Matching(table, matching); var cursor := CursorAt(all, p);
      Sorted(Filter(table, (r: Row) => matching(r) && Past(cursor, r))) == all[p..]
  {
    var all := Matching(table, matching);
    var cursor := CursorAt(all, p);
    var past := (r: Row) => Past(cursor, r);
    var both := (r: Row) => matching(r) && Past(cursor, r);
    FilterTwice(table, matching, past, both);
    FilterWithin(table, matching);
    FilterSorted(Filter(table, matching), past);
    SortedDescending(Filter(table, matching));
    forall i | 0 <= i < |all| ensures past(all[i]) <==> i >= p {
      if p > 0 { NewerOrder(all[p - 1], all[i], all[i]); }
    }
    FilterSuffix(all, past, p);
  }

  lemma PageFrom(all: seq<Row>, p: nat, limit: nat)
    requires p <= |all| && limit >= 1
    ensures PageOf(Take(all[p..], limit + 1), limit) ==
      if p + limit < |all| then Page(all[p..p + limit], CursorAt(all, p + limit)) else Page(all[p..], None)
  {
    var rest := all[p..];
    if p + limit < |all| {
      var rows := rest[..limit + 1];
      assert rows[..limit] == all[p..p + limit];
    } else {
      assert Take(rest, limit + 1) == rest;
    }
  }

  /** The page at position `p` holds the next rows, and its cursor is that of the position behind them. */
  lemma PageAt(table: seq<Row>, matching: Row -> bool, requested: Option<int>, p: nat)
    requires NoDuplicates(table) && p <= |Matching(table, matching)|
    ensures var all := Matching(table, matching); var limit := ParseExplorerLimit(requested);
      var page := ListTransactions(table, matching, CursorAt(all, p), requested);
      if p + limit < |all| then page == Page(all[p..p + limit], CursorAt(all, p + limit))
      else page == Page(all[p..], None)
  {
    RowsBehindCursor(table, matching, p);
    PageFrom(Matching(table, matching), p, ParseExplorerLimit(requested));
  }

  /** The page sizes that are served: as asked from 1 to 200, 50 without a usable request, at most 200. */
  predicate AsksFor(requested: Option<int>, limit: int) {
    match requested
    case None => limit == 50
    case Some(n) => if n < 1 then limit == 50 else limit == if n <= 200 then n else 200
  }

  /** A page is as long as asked, unless the rows run out. */
  lemma PageIsAsLongAsAsked(table: seq<Row>, matching: Row -> bool, requested: Option<int>, p: nat, limit: int)
    requires NoDuplicates(table) && p <= |Matching(table, matching)| && AsksFor(requested, limit)
    ensures var all := Matching(table, matching);
      var page := ListTransactions(table, matching, CursorAt(all, p), requested);
      && |page.transactions| == (if |all| - p < limit then |all| - p else limit)
      && (page.nextCursor.Some? <==> p + limit < |all|)
  {
    PageAt(table, matching, requested, p);
  }

  /** A client's walk: each request uses the cursor of the page before, until a page has none. */
  ghost predicate IsWalk(
    table: seq<Row>, matching: Row -> bool, requested: Option<int>, cursor: Option<Cursor>, pages: seq<Page>)
    decreases |pages|
  {
    && pages != []
    && pages[0] == ListTransactions(table, matching, cursor, requested)
    && if pages[0].nextCursor.None? then |pages| == 1
       else IsWalk(table, matching, requested, pages[0].nextCursor, pages[1..])
  }

  function RowsOf(pages: seq<Page>): seq<Row> {
    if pages == [] then [] else pages[0].transactions + RowsOf(pages[1..])
  }

  /** Where a page leaves off. */
  lemma NextPosition(table: seq<Row>, matching: Row -> bool, requested: Option<int>, p: nat,
      page: Page) returns (next: nat)
    requires NoDuplicates(table) && p <= |Matching(table, matching)|
    requires page == ListTransactions(table, matching, CursorAt(Matching(table, matching), p), requested)
    ensures var all := Matching(table, matching);
      && p <= next <= |all| && page.transactions == all[p..next]
      && (if next < |all| then p < next && page.nextCursor == CursorAt(all, next) && page.nextCursor.Some?
          else page.nextCursor.None?)
  {
    PageAt(table, matching, requested, p);
    var all, limit := Matching(table, matching), ParseExplorerLimit(requested);
    next := if p + limit < |all| then p + limit else |all|;
  }

  lemma RestSplits(all: seq<Row>, p: nat, next: nat)
    requires p <= next <= |all|
    ensures all[p..] == all[p..next] + all[next..]
  {
  }

  lemma {:induction false} WalkCollects(
      table: seq<Row>, matching: Row -> bool, requested: Option<int>, p: nat, pages: seq<Page>)
    requires NoDuplicates(table) && p <= |Matching(table, matching)|
    requires IsWalk(table, matching, requested, CursorAt(Matching(table, matching), p), pages)
    ensures RowsOf(pages) == Matching(table, matching)[p..]
    decreases |pages|
  {
    var all := Matching(table, matching);
    var next := NextPosition(table, matching, requested, p, pages[0]);
    if next < |all| {
      WalkCollects(table, matching, requested, next, pages[1..]);
      RestSplits(all, p, next);
    } else {
      assert pages[1..] == [];
    }
  }

  lemma {:induction false} WalkEnds(table: seq<Row>, matching: Row -> bool, requested: Option<int>, p: nat)
      returns (pages: seq<Page>)
    requires NoDuplicates(table) && p <= |Matching(table, matching)|
    ensures IsWalk(table, matching, requested, CursorAt(Matching(table, matching), p), pages)
    ensures |pages| <= |Matching(table, matching)| - p + 1
    decreases |Matching(table, matching)| - p
  {
    var all := Matching(table, matching);
    var page := ListTransactions(table, matching, CursorAt(all, p), requested);
    var next := NextPosition(table, matching, requested, p, page);
    if next < |all| {
      var rest := WalkEnds(table, matching, requested, next);
      pages := [page] + rest;
      assert pages[1..] == rest;
    } else {
      pages := [page];
    }
  }

  /**
   * With any limit and filter over a fixed table: following the cursors from the start ends, and
   * whichever way a client walked there, the pages put together are exactly the matching rows,
   * newest first, each once.
   */
  lemma PagesAreTheSortedTable(table: seq<Row>, matching: Row -> bool, requested: Option<int>)
    requires NoDuplicates(table)
    ensures exists pages :: IsWalk(table, matching, requested, None, pages)
    ensures forall pages :: IsWalk(table, matching, requested, None, pages) ==>
      && Descending(RowsOf(pages))
      && multiset(RowsOf(pages)) == multiset(Filter(table, matching))
    ensures forall r :: r in Filter(table, matching) <==> r in table && matching(r)
  {
    var all := Matching(table, matching);
    var walk := WalkEnds(table, matching, requested, 0);
    assert IsWalk(table, matching, requested, None, walk);
    FilterWithin(table, matching);
    SortedKeeps(Filter(table, matching));
    SortedDescending(Filter(table, matching));
    forall pages | IsWalk(table, matching, requested, None, pages) ensures RowsOf(pages) == all {
      WalkCollects(table, matching, requested, 0, pages);
    }
  }

  // ---- The cursor's text ---------------------------------------------------------------------------------------

  /** `stamp` is the rendered creation time. */
  function EncodeCursorText(stamp: string, id: string): string { stamp + "|" + id }

  /** Position of the last separator, or -1. */
  function LastSeparator(text: string): (p: int)
    ensures -1 <= p < |text|
    ensures p >= 0 ==> text[p] == '|'
    ensures forall i :: p < i < |text| ==> text[i] != '|'
  {
    if text == "" then -1
    else if text[|text| - 1] == '|' then |text| - 1
    else LastSeparator(text[..|text| - 1])
  }

  function DecodeCursorText(text: string): Option<(string, string)> {
    var sep := LastSeparator(text);
    if sep <= 0 then None
    else if text[sep + 1..] == "" then None
    else Some((text[..sep], text[sep + 1..]))
  }

  /** A cursor survives the round trip exactly when its id is neither empty nor contains the separator. */
  lemma CursorRoundTripsExactly(stamp: string, id: string)
    requires stamp != "" && '|' !in stamp
    ensures DecodeCursorText(EncodeCursorText(stamp, id)) == Some((stamp, id)) <==> id != "" && '|' !in id
  {
    var text := EncodeCursorText(stamp, id);
    var sep := LastSeparator(text);
    assert text[|stamp|] == '|' && text[|stamp| + 1..] == id && text[..|stamp|] == stamp;
    if '|' in id {
      var i :| 0 <= i < |id| && id[i] == '|';
      assert text[|stamp| + 1 + i] == '|';
      assert sep > |stamp|;
    } else {
      assert forall i :: 0 <= i < |id| ==> text[|stamp| + 1 + i] == id[i] && id[i] in id;
      assert forall j :: |stamp| < j < |text| ==> text[j] == id[j - |stamp| - 1];
      assert sep == |stamp|;
    }
  }
}
