/** Payout queue selection (payout-recipient.ts) and what skipping and dequeuing do to it. */
module PayoutQueue {
  import opened Wrappers
  import opened Rows

  /** `x` is served before `y`: smaller payout order, earlier turn on ties (the sort is stable). */
  predicate Before(members: seq<Member>, x: nat, y: nat)
    requires x < |members| && y < |members|
  {
    members[x].payoutOrder < members[y].payoutOrder || (members[x].payoutOrder == members[y].payoutOrder && x < y)
  }

  ghost predicate Valid(members: seq<Member>, order: seq<nat>) {
    forall p :: 0 <= p < |order| ==> order[p] < |members|
  }

  ghost predicate Sorted(members: seq<Member>, order: seq<nat>) {
    && Valid(members, order)
    && forall p, q :: 0 <= p < q < |order| ==> Before(members, order[p], order[q])
  }

  /** Indices into `members` in queue order. */
  function QueueOrder(members: seq<Member>): (order: seq<nat>)
    ensures Sorted(members, order) && |order| == |members|
    ensures forall x: nat :: x in order <==> x < |members|
  {
    SortFirst(members, |members|)
  }

  function SortFirst(members: seq<Member>, n: nat): (order: seq<nat>)
    requires n <= |members|
    ensures Sorted(members, order) && |order| == n
    ensures forall x: nat :: x in order <==> x < n
  {
    if n == 0 then []
    else
      var before := SortFirst(members, n - 1);
      InsertKeepsSorted(members, before, n - 1);
      Insert(members, before, n - 1)
  }

  /** Puts `i` behind everyone served before it. */
  function Insert(members: seq<Member>, order: seq<nat>, i: nat): seq<nat>
    requires i < |members| && Valid(members, order)
  {
    if order == [] || Before(members, order[|order| - 1], i) then order + [i]
    else Insert(members, order[..|order| - 1], i) + [order[|order| - 1]]
  }

  lemma {:induction false} InsertKeeps(members: seq<Member>, order: seq<nat>, i: nat)
    requires i < |members| && Valid(members, order)
    ensures Valid(members, Insert(members, order, i)) && |Insert(members, order, i)| == |order| + 1
    ensures forall x: nat :: x in Insert(members, order, i) <==> x in order || x == i
  {
    if order != [] && !Before(members, order[|order| - 1], i) {
      InsertKeeps(members, order[..|order| - 1], i);
      assert order == order[..|order| - 1] + [order[|order| - 1]];
    }
  }

  lemma {:induction false} InsertKeepsSorted(members: seq<Member>, order: seq<nat>, i: nat)
    requires i < |members| && Sorted(members, order)
    requires forall x: nat :: x in order ==> x < i
    ensures var r := Insert(members, order, i);
      Sorted(members, r) && |r| == |order| + 1 && forall x: nat :: x in r <==> x in order || x == i
  {
    InsertKeeps(members, order, i);
    if order != [] {
      var front, last := order[..|order| - 1], order[|order| - 1];
      assert last in order && forall x :: x in front ==> x in order;
      if Before(members, last, i) {
        EveryoneBefore(members, order, i);
      } else {
        InsertKeepsSorted(members, front, i);
        var r := Insert(members, front, i);
        forall p | 0 <= p < |r| ensures Before(members, r[p], last) {
          assert r[p] in r;
          if r[p] != i {
            var q :| 0 <= q < |front| && front[q] == r[p];
            assert Before(members, order[q], order[|order| - 1]);
          }
        }
      }
    }
  }

  lemma EveryoneBefore(members: seq<Member>, order: seq<nat>, i: nat)
    requires i < |members| && Sorted(members, order) && order != []
    requires Before(members, order[|order| - 1], i)
    ensures Sorted(members, order + [i])
  {
    forall p | 0 <= p < |order| ensures Before(members, order[p], i) {
      if p < |order| - 1 { assert Before(members, order[p], order[|order| - 1]); }
    }
  }

  /** Two orders of one set end with the same member. */
  lemma SameLast(members: seq<Member>, a: seq<nat>, b: seq<nat>)
    requires Sorted(members, a) && Sorted(members, b) && a != [] && b != []
    requires a[|a| - 1] in b && b[|b| - 1] in a
    ensures a[|a| - 1] == b[|b| - 1]
  {
    var p :| 0 <= p < |a| && a[p] == b[|b| - 1];
    var q :| 0 <= q < |b| && b[q] == a[|a| - 1];
  }

  /** Without its last entry an order holds everyone else. */
  lemma FrontMembers(members: seq<Member>, a: seq<nat>, x: nat)
    requires Sorted(members, a) && a != []
    ensures x in a[..|a| - 1] <==> x in a && x != a[|a| - 1]
  {
    var front := a[..|a| - 1];
    assert a == front + [a[|a| - 1]];
    if x in front {
      var p :| 0 <= p < |front| && front[p] == x;
      assert Before(members, a[p], a[|a| - 1]);
    }
  }

  /** A set of members has one queue order. */
  lemma {:induction false} OrderIsUnique(members: seq<Member>, a: seq<nat>, b: seq<nat>)
    requires Sorted(members, a) && Sorted(members, b) && |a| == |b|
    requires forall x: nat :: x in a <==> x in b
    ensures a == b
  {
    if a != [] {
      assert a[|a| - 1] in b && b[|b| - 1] in a;
      SameLast(members, a, b);
      var fa, fb := a[..|a| - 1], b[..|b| - 1];
      forall x: nat ensures x in fa <==> x in fb {
        FrontMembers(members, a, x);
        FrontMembers(members, b, x);
      }
      OrderIsUnique(members, fa, fb);
      assert a == fa + [a[|a| - 1]] && b == fb + [b[|b| - 1]];
    }
  }

  // ---- Selection -----------------------------------------------------------------------------

  datatype Selection = Selection(recipient: Option<nat>, skipped: seq<nat>, nominal: Option<nat>)

  /** The first member of a line that is not defaulted, and those passed over on the way. */
  function FirstEligible(members: seq<Member>, line: seq<nat>): (Option<nat>, seq<nat>)
    requires Valid(members, line)
  {
    if line == [] then (None, [])
    else if members[line[0]].standing != Defaulted then (Some(line[0]), [])
    else
      var rest := FirstEligible(members, line[1..]);
      (rest.0, [line[0]] + rest.1)
  }

  /** The queue as it is walked for a cycle: from the nominal recipient on, then from the top. */
  function Rotated(order: seq<nat>, base: nat): seq<nat>
    requires base <= |order|
  {
    order[base..] + order[..base]
  }

  function SelectPayoutRecipient(members: seq<Member>, cycle: nat, allowOverride: bool): Selection
    requires cycle >= 1
  {
    if members == [] then Selection(None, [], None)
    else
      var order := QueueOrder(members);
      var base := (cycle - 1) % |order|;
      if allowOverride then Selection(Some(order[base]), [], Some(order[base]))
      else
        var walk := Rotated(order, base);
        assert Valid(members, walk);
        var found := FirstEligible(members, walk);
        Selection(found.0, found.1, Some(order[base]))
  }

  /** Everyone before position `i` of the walk was passed over. */
  ghost predicate PassedOver(members: seq<Member>, walk: seq<nat>, i: nat, skipped: seq<nat>) {
    && Valid(members, walk) && i <= |walk| && Valid(members, walk[i..])
    && FirstEligible(members, walk).0 == FirstEligible(members, walk[i..]).0
    && FirstEligible(members, walk).1 == skipped + FirstEligible(members, walk[i..]).1
  }

  /** One step along the walk: either the recipient is found or one more member is passed over. */
  lemma EligibleStep(members: seq<Member>, walk: seq<nat>, i: nat, skipped: seq<nat>)
    requires PassedOver(members, walk, i, skipped) && i < |walk|
    ensures if members[walk[i]].standing != Defaulted
      then FirstEligible(members, walk) == (Some(walk[i]), skipped)
      else PassedOver(members, walk, i + 1, skipped + [walk[i]])
  {
    assert walk[i..][1..] == walk[i + 1..];
    var rest := FirstEligible(members, walk[i + 1..]).1;
    assert skipped + ([walk[i]] + rest) == skipped + [walk[i]] + rest;
    assert skipped + [] == skipped;
  }

  lemma WalkStarts(members: seq<Member>, walk: seq<nat>)
    requires Valid(members, walk)
    ensures PassedOver(members, walk, 0, [])
  {
    assert walk[0..] == walk;
    assert [] + FirstEligible(members, walk).1 == FirstEligible(members, walk).1;
  }

  lemma WalkEnds(members: seq<Member>, walk: seq<nat>, skipped: seq<nat>)
    requires PassedOver(members, walk, |walk|, skipped)
    ensures FirstEligible(members, walk) == (None, skipped)
  {
    assert skipped + [] == skipped;
  }

  /** The loop over rotated positions, collecting the defaulted members it passes. */
  method WalkQueue(members: seq<Member>, sorted: seq<nat>, base: nat) returns (found: Option<nat>, skipped: seq<nat>)
    requires Valid(members, sorted) && base < |sorted|
    ensures Valid(members, Rotated(sorted, base))
    ensures (found, skipped) == FirstEligible(members, Rotated(sorted, base))
  {
    ghost var walk := Rotated(sorted, base);
    WalkStarts(members, walk);
    skipped := [];
    for i := 0 to |sorted|
      invariant PassedOver(members, walk, i, skipped)
    {
      var m := sorted[Modulo(base + i, |sorted|)];
      WalkIndex(sorted, base, i);
      EligibleStep(members, walk, i, skipped);
      if members[m].standing != Defaulted {
        return Some(m), skipped;
      }
      skipped := skipped + [m];
    }
    WalkEnds(members, walk, skipped);
    return None, skipped;
  }

  function Modulo(x: int, n: int): (r: int)
    requires n > 0
    ensures 0 <= r < n
  {
    x % n
  }

  method SelectRecipient(members: seq<Member>, cycle: nat, allowOverride: bool) returns (s: Selection)
    requires cycle >= 1
    ensures s == SelectPayoutRecipient(members, cycle, allowOverride)
  {
    if |members| == 0 {
      return Selection(None, [], None);
    }
    var sorted := QueueOrder(members);
    var base := Modulo(cycle - 1, |sorted|);
    if allowOverride {
      return Selection(Some(sorted[base]), [], Some(sorted[base]));
    }
    var found, skipped := WalkQueue(members, sorted, base);
    return Selection(found, skipped, Some(sorted[base]));
  }

  lemma Wraps(x: int, n: int)
    requires 0 <= x < 2 * n
    ensures x % n == if x < n then x else x - n
  {
  }

  lemma WalkIndex(order: seq<nat>, base: nat, i: nat)
    requires base < |order| && i < |order|
    ensures Rotated(order, base)[i] == order[Modulo(base + i, |order|)]
  {
    Wraps(base + i, |order|);
  }

  ghost predicate AllDefaulted(members: seq<Member>, line: seq<nat>)
    requires Valid(members, line)
  {
    forall p :: 0 <= p < |line| ==> members[line[p]].standing == Defaulted
  }

  lemma {:induction false} FirstEligibleFacts(members: seq<Member>, line: seq<nat>)
    requires Valid(members, line)
    ensures var (found, skipped) := FirstEligible(members, line);
      && (found.None? <==> AllDefaulted(members, line))
      && (found.Some? ==> found.value in line && members[found.value].standing != Defaulted)
      && (line != [] ==> (skipped == [] <==> members[line[0]].standing != Defaulted))
  {
    if line != [] && members[line[0]].standing == Defaulted {
      FirstEligibleFacts(members, line[1..]);
      assert line == [line[0]] + line[1..];
    }
  }

  /** Position `q` of a line holds its first member who is not defaulted. */
  ghost predicate FirstUp(members: seq<Member>, line: seq<nat>, q: nat)
    requires Valid(members, line)
  {
    && q < |line| && members[line[q]].standing != Defaulted
    && forall p :: 0 <= p < q ==> members[line[p]].standing == Defaulted
  }

  lemma {:induction false} FirstUpIsServed(members: seq<Member>, line: seq<nat>, q: nat)
    requires Valid(members, line) && FirstUp(members, line, q)
    ensures FirstEligible(members, line) == (Some(line[q]), line[..q])
  {
    if q > 0 {
      FirstUpIsServed(members, line[1..], q - 1);
      assert line[..q] == [line[0]] + line[1..][..q - 1];
    }
  }

  lemma {:induction false} SomeoneIsUp(members: seq<Member>, line: seq<nat>) returns (q: nat)
    requires Valid(members, line) && !AllDefaulted(members, line)
    ensures FirstUp(members, line, q)
  {
    if members[line[0]].standing != Defaulted {
      q := 0;
    } else {
      var later := SomeoneIsUp(members, line[1..]);
      q := later + 1;
    }
  }

  /** A line whose first part is all defaulted is decided by its second part, otherwise by its first. */
  lemma {:induction false} FirstEligibleConcat(members: seq<Member>, a: seq<nat>, b: seq<nat>)
    requires Valid(members, a) && Valid(members, b)
    ensures Valid(members, a + b)
    ensures FirstEligible(members, a + b).0
         == FirstEligible(members, if AllDefaulted(members, a) then b else a).0
  {
    if a == [] {
      assert a + b == b;
    } else if members[a[0]].standing == Defaulted {
      FirstEligibleConcat(members, a[1..], b);
      assert (a + b)[1..] == a[1..] + b;
      assert a == [a[0]] + a[1..];
    }
  }

  /** The walk meets every member once. */
  lemma WalkCovers(members: seq<Member>, base: nat)
    requires base < |members|
    ensures var walk := Rotated(QueueOrder(members), base);
      && |walk| == |members| && Valid(members, walk) && walk[0] == QueueOrder(members)[base]
      && (AllDefaulted(members, walk) <==> forall i :: 0 <= i < |members| ==> members[i].standing == Defaulted)
  {
    var order := QueueOrder(members);
    var walk := Rotated(order, base);
    if AllDefaulted(members, walk) {
      forall x: nat | x < |members| ensures members[x].standing == Defaulted {
        assert x in order;
        var p :| 0 <= p < |order| && order[p] == x;
        var q := if base <= p then p - base else p + |order| - base;
        assert walk[q] == x;
      }
    }
  }

  lemma WalkFacts(members: seq<Member>, base: nat)
    requires base < |members|
    ensures var order := QueueOrder(members);
      var walk := Rotated(order, base);
      && Valid(members, walk)
      && var (found, skipped) := FirstEligible(members, walk);
      && (found.None? <==> forall i :: 0 <= i < |members| ==> members[i].standing == Defaulted)
      && (found.Some? ==> found.value < |members| && members[found.value].standing != Defaulted)
      && (found == Some(order[base]) <==> members[order[base]].standing != Defaulted)
      && (skipped == [] <==> members[order[base]].standing != Defaulted)
  {
    WalkCovers(members, base);
    FirstEligibleFacts(members, Rotated(QueueOrder(members), base));
  }

  /** A recipient is found exactly when someone is eligible; only the override pays a defaulted member. */
  lemma SelectionIsEligible(members: seq<Member>, cycle: nat, allowOverride: bool)
    requires cycle >= 1 && members != []
    ensures var s := SelectPayoutRecipient(members, cycle, allowOverride);
      && (s.recipient.None? <==> !allowOverride && forall i :: 0 <= i < |members| ==> members[i].standing == Defaulted)
      && (s.recipient.Some? ==> s.recipient.value < |members|)
      && (s.recipient.Some? && !allowOverride ==> members[s.recipient.value].standing != Defaulted)
      && s.nominal == Some(QueueOrder(members)[(cycle - 1) % |members|])
      && (s.recipient == s.nominal <==> allowOverride || members[s.nominal.value].standing != Defaulted)
      && (s.skipped == [] <==> s.recipient == s.nominal)
  {
    WalkFacts(members, (cycle - 1) % |members|);
  }

  /** Up to the last cycle the nominal recipient is simply the next in the queue. */
  lemma NominalAt(members: seq<Member>, cycle: nat, allowOverride: bool)
    requires 1 <= cycle <= |members|
    ensures SelectPayoutRecipient(members, cycle, allowOverride).nominal == Some(QueueOrder(members)[cycle - 1])
  {
    assert (cycle - 1) % |members| == cycle - 1;
  }

  lemma SortedHasNoRepeats(members: seq<Member>, order: seq<nat>, k: nat)
    requires Sorted(members, order) && k <= |order|
    ensures forall x: nat :: x in order[k..] ==> x !in order[..k]
  {
    forall x: nat | x in order[k..] ensures x !in order[..k] {
      var q :| 0 <= q < |order| - k && order[k..][q] == x;
      assert forall p :: 0 <= p < k ==> Before(members, order[p], order[k + q]);
    }
  }

  lemma SelectionWalk(members: seq<Member>, cycle: nat)
    requires 1 <= cycle <= |members|
    ensures var order := QueueOrder(members);
      && Valid(members, order[cycle - 1..]) && Valid(members, order[..cycle - 1])
      && Valid(members, order[cycle - 1..] + order[..cycle - 1])
      && SelectPayoutRecipient(members, cycle, true).recipient == Some(order[cycle - 1])
      && SelectPayoutRecipient(members, cycle, false).recipient
         == FirstEligible(members, order[cycle - 1..] + order[..cycle - 1]).0
  {
    assert (cycle - 1) % |members| == cycle - 1;
  }

  /** The first eligible waiting member is served; one already served only if all waiting ones are defaulted. */
  lemma ServedFromWaiting(members: seq<Member>, waiting: seq<nat>, served: seq<nat>)
    requires Valid(members, waiting) && Valid(members, served) && Valid(members, waiting + served)
    requires forall x: nat :: x in waiting ==> x !in served
    ensures var r := FirstEligible(members, waiting + served).0;
      r.Some? ==> (r.value in served <==> AllDefaulted(members, waiting))
  {
    FirstEligibleConcat(members, waiting, served);
    FirstEligibleFacts(members, waiting);
    FirstEligibleFacts(members, served);
  }

  /**
   * If the first `cycle - 1` queue positions are the members already paid, a finalization pays one
   * of them a second time exactly when every member still waiting is defaulted and there is no override.
   */
  lemma PaysTwiceExactly(members: seq<Member>, cycle: nat, allowOverride: bool)
    requires 1 <= cycle <= |members|
    requires SelectPayoutRecipient(members, cycle, allowOverride).recipient.Some?
    ensures var order := QueueOrder(members);
      && Valid(members, order[cycle - 1..])
      && (SelectPayoutRecipient(members, cycle, allowOverride).recipient.value in order[..cycle - 1]
          <==> !allowOverride && AllDefaulted(members, order[cycle - 1..]))
  {
    var order := QueueOrder(members);
    SelectionWalk(members, cycle);
    SortedHasNoRepeats(members, order, cycle - 1);
    assert order[cycle - 1] == order[cycle - 1..][0];
    ServedFromWaiting(members, order[cycle - 1..], order[..cycle - 1]);
  }

  // ---- Dequeuing -----------------------------------------------------------------------------

  function MaxPayoutOrder(members: seq<Member>): (m: nat)
    ensures forall i :: 0 <= i < |members| ==> members[i].payoutOrder <= m
  {
    if members == [] then 0
    else
      var rest := MaxPayoutOrder(members[..|members| - 1]);
      var last := members[|members| - 1].payoutOrder;
      if last > rest then last else rest
  }

  /** The member is sent behind everyone else. */
  function Dequeued(members: seq<Member>, i: nat): seq<Member>
    requires i < |members|
  {
    members[i := members[i].(payoutOrder := MaxPayoutOrder(members) + 1)]
  }

  /** `order` with position `p` moved to the end. */
  function MovedToEnd(order: seq<nat>, p: nat): seq<nat>
    requires p < |order|
  {
    order[..p] + order[p + 1..] + [order[p]]
  }

  /** The queue without position `p` stays in order, and its members are not the one taken out. */
  lemma RestStaysSorted(members: seq<Member>, order: seq<nat>, p: nat)
    requires Sorted(members, order) && p < |order|
    ensures Sorted(members, order[..p] + order[p + 1..])
    ensures order[p] !in order[..p] + order[p + 1..]
  {
    var rest := order[..p] + order[p + 1..];
    forall a | 0 <= a < |rest| ensures rest[a] != order[p] {
      if a < p {
        assert Before(members, order[a], order[p]);
      } else {
        assert Before(members, order[p], order[a + 1]);
      }
    }
    forall a, b | 0 <= a < b < |rest| ensures Before(members, rest[a], rest[b]) {
      assert Before(members, order[if a < p then a else a + 1], order[if b < p then b else b + 1]);
    }
  }

  lemma DequeuedSorted(members: seq<Member>, rest: seq<nat>, i: nat)
    requires Sorted(members, rest) && i < |members| && i !in rest
    ensures Sorted(Dequeued(members, i), rest + [i])
  {
    var after := Dequeued(members, i);
    forall a, b | 0 <= a < b < |rest| + 1 ensures Before(after, (rest + [i])[a], (rest + [i])[b]) {
      if b < |rest| { assert Before(members, rest[a], rest[b]); }
    }
  }

  /** Dequeuing lifts one member out of the queue and appends it; nobody else changes place. */
  lemma DequeueMovesToEnd(members: seq<Member>, p: nat)
    requires p < |members|
    ensures var order := QueueOrder(members);
      QueueOrder(Dequeued(members, order[p])) == MovedToEnd(order, p)
  {
    var order := QueueOrder(members);
    var i := order[p];
    RestStaysSorted(members, order, p);
    DequeuedSorted(members, order[..p] + order[p + 1..], i);
    assert order == order[..p] + [i] + order[p + 1..];
    forall x: nat ensures x in MovedToEnd(order, p) <==> x in QueueOrder(Dequeued(members, i)) {
      assert x in MovedToEnd(order, p) <==> x in order;
    }
    OrderIsUnique(Dequeued(members, i), QueueOrder(Dequeued(members, i)), MovedToEnd(order, p));
  }

  /** Standing and deposit changes do not disturb the queue. */
  lemma SameOrders(a: seq<Member>, b: seq<Member>)
    requires |a| == |b| && forall i :: 0 <= i < |a| ==> a[i].payoutOrder == b[i].payoutOrder
    ensures QueueOrder(a) == QueueOrder(b)
  {
    var qa, qb := QueueOrder(a), QueueOrder(b);
    assert forall x, y :: 0 <= x < |a| && 0 <= y < |a| ==> (Before(a, x, y) <==> Before(b, x, y));
    OrderIsUnique(b, qa, qb);
  }

  /** Members whose payout orders are their turns queue up in turn order. */
  lemma TurnOrderQueue(members: seq<Member>)
    requires forall i :: 0 <= i < |members| ==> members[i].payoutOrder == i + 1
    ensures QueueOrder(members) == seq(|members|, (i: nat) => i)
  {
    var turns := seq(|members|, (i: nat) => i);
    forall x: nat ensures x in turns <==> x < |members| {
      if x < |members| { assert turns[x] == x; }
    }
    OrderIsUnique(members, QueueOrder(members), turns);
  }
}
