/**
 The two lists whose JSON surface passes back only the last row's timestamp. Limit requests
 coalesce the missing id to the greatest uuid, so the compare degrades to "not newer" and every
 page but the first starts with a row of the page before; a raiser's disputes compare the
 timestamp alone, strictly, and are ordered by it alone. A walk stops at the first page with
 fewer rows than asked for.
 */
module TimestampCursors {
  import opened Keyset
  import opened Uuids
  import opened Wrappers

  // ---- ListLimitRequests: never skips, repeats at every page boundary ----

  /** The cursor the query sees: a missing id coalesced to the greatest. */
  function Coalesced(cursor: Option<int>): Cursor {
    match cursor
    case None => FIRST
    case Some(t) => Cursor(Some(t), Some(MAX_UUID))
  }

  ghost function LimitRequests(s: set<Key>, cursor: Option<int>, n: nat): seq<Key> {
    Query(s, Coalesced(cursor), n)
  }

  ghost function LimitPages(visits: seq<Visit>, cursor: Option<int>): seq<seq<Key>>
    requires Sensible(visits)
  {
    if visits == [] then []
    else
      var page := LimitRequests(visits[0].snapshot, cursor, visits[0].limit);
      [page] + if |page| < visits[0].limit then [] else LimitPages(visits[1..], Some(page[|page| - 1].ts))
  }

  ghost predicate LimitWalkEnds(visits: seq<Visit>, cursor: Option<int>)
    requires Sensible(visits)
  {
    visits != [] &&
    var page := LimitRequests(visits[0].snapshot, cursor, visits[0].limit);
    |page| < visits[0].limit || LimitWalkEnds(visits[1..], Some(page[|page| - 1].ts))
  }

  /** A finished walk has shown every stable row (whose id is not itself the greatest uuid), under any writes. */
  lemma {:induction false} LimitWalkNeverSkips(visits: seq<Visit>, cursor: Option<int>, k: Key)
    requires Sensible(visits) && LimitWalkEnds(visits, cursor) && Stable(visits, k)
    requires k.id < MAX_UUID && (cursor == None || k.ts <= cursor.value)
    ensures exists i :: 0 <= i < |LimitPages(visits, cursor)| && k in LimitPages(visits, cursor)[i]
  {
    hide Query;
    var page := LimitRequests(visits[0].snapshot, cursor, visits[0].limit);
    var pages := LimitPages(visits, cursor);
    assert pages[0] == page;
    if k !in page {
      var last := page[|page| - 1];
      assert last in page;
      LimitWalkNeverSkips(visits[1..], Some(last.ts), k);
      var rest := LimitPages(visits[1..], Some(last.ts));
      var i :| 0 <= i < |rest| && k in rest[i];
      assert pages[i + 1] == rest[i];
    }
  }

  /** The first page of a query is topped by the greatest row it matches. */
  lemma TopIsFirst(s: set<Key>, cur: Cursor, n: nat, k: Key)
    requires n >= 1 && k in s && Below(k, cur)
    ensures var page := Query(s, cur, n);
            page != [] && (page[0] == k || Less(k, page[0]))
  {
    hide Query;
    var page := Query(s, cur, n);
    if k in page {
      var i :| 0 <= i < |page| && page[i] == k;
    } else if page != [] {
      assert page[0] in page;
    }
  }

  /**
   On a fixed table a full page and the page fetched after it, of whatever size, share a row exactly
   when the last row's id is not the greatest uuid; the row that starts the second page is then one.
   */
  lemma BoundaryRepeatsExactly(s: set<Key>, cursor: Option<int>, n: nat, m: nat)
    requires n >= 1 && m >= 1 && |LimitRequests(s, cursor, n)| == n
    ensures var page := LimitRequests(s, cursor, n);
            var next := LimitRequests(s, Some(page[n - 1].ts), m);
            && ((exists k :: k in page && k in next) <==> page[n - 1].id < MAX_UUID)
            && (page[n - 1].id < MAX_UUID ==> next != [] && next[0] in page)
  {
    hide Query, Less;
    var page := LimitRequests(s, cursor, n);
    var last := page[n - 1];
    var next := LimitRequests(s, Some(last.ts), m);
    assert last in page;
    if last.id < MAX_UUID {
      NotNewer(last, last.ts);
      TopIsFirst(s, Coalesced(Some(last.ts)), m, last);
      assert next[0] in next;
      FirstIsOnPage(page, last, next[0], cursor);
    } else {
      forall k | k in next
        ensures k !in page
      {
        AllAboveLast(page, k);
      }
    }
  }

  /** A cursor at t brings back the rows not newer than t, save one with the greatest uuid. */
  lemma NotNewer(k: Key, t: int)
    ensures Below(k, Coalesced(Some(t))) <==> k.ts < t || (k.ts == t && k.id < MAX_UUID)
  {
  }

  lemma AllAboveLast(page: seq<Key>, k: Key)
    requires Descends(page) && page != [] && Less(k, page[|page| - 1])
    ensures k !in page
  {
  }

  lemma FirstIsOnPage(page: seq<Key>, last: Key, first: Key, cursor: Option<int>)
    requires Below(last, Coalesced(cursor)) && Below(first, Coalesced(Some(last.ts)))
    requires first == last || Less(last, first)
    requires last in page && (Below(first, Coalesced(cursor)) && first !in page ==> Less(first, last))
    ensures first in page
  {
  }

  /** Some row is on two pages. */
  predicate Repeats(pages: seq<seq<Key>>) { exists i, j :: 0 <= i < j < |pages| && Shared(pages[i], pages[j]) }

  predicate Shared(a: seq<Key>, b: seq<Key>) { exists k :: k in a && k in b }

  /** Some page but the last ends in an id other than the greatest uuid. */
  predicate OrdinaryEnd(pages: seq<seq<Key>>) { exists i :: 0 <= i < |pages| - 1 && Ordinary(pages[i]) }

  predicate Ordinary(page: seq<Key>) { page != [] && page[|page| - 1].id < MAX_UUID }

  lemma {:induction false} LimitWalkIsBelow(visits: seq<Visit>, cursor: Option<int>, k: Key, i: nat)
    requires Sensible(visits) && i < |LimitPages(visits, cursor)| && k in LimitPages(visits, cursor)[i]
    ensures Below(k, Coalesced(cursor))
  {
    hide Query;
    if i == 0 {
    } else {
      var page := LimitRequests(visits[0].snapshot, cursor, visits[0].limit);
      var last := page[|page| - 1];
      assert last in page;
      assert LimitPages(visits, cursor)[i] == LimitPages(visits[1..], Some(last.ts))[i - 1];
      LimitWalkIsBelow(visits[1..], Some(last.ts), k, i - 1);
    }
  }

  predicate SharedLater(first: seq<Key>, rest: seq<seq<Key>>) { exists j :: 0 <= j < |rest| && Shared(first, rest[j]) }

  lemma RepeatsShift(first: seq<Key>, rest: seq<seq<Key>>)
    ensures Repeats([first] + rest) <==> Repeats(rest) || SharedLater(first, rest)
  {
    hide Shared;
    var pages := [first] + rest;
    if Repeats(pages) {
      var i, j :| 0 <= i < j < |pages| && Shared(pages[i], pages[j]);
      SharedInTail(first, rest, i, j);
    }
    if Repeats(rest) {
      var i, j :| 0 <= i < j < |rest| && Shared(rest[i], rest[j]);
      assert pages[i + 1] == rest[i] && pages[j + 1] == rest[j];
    }
    if SharedLater(first, rest) {
      var j :| 0 <= j < |rest| && Shared(first, rest[j]);
      assert pages[0] == first && pages[j + 1] == rest[j];
    }
  }

  lemma SharedInTail(first: seq<Key>, rest: seq<seq<Key>>, i: nat, j: nat)
    requires i < j <= |rest| && Shared(([first] + rest)[i], ([first] + rest)[j])
    ensures if i == 0 then SharedLater(first, rest) else Repeats(rest)
  {
    hide Shared;
    assert ([first] + rest)[j] == rest[j - 1];
    if i > 0 {
      assert ([first] + rest)[i] == rest[i - 1];
    }
  }

  lemma EndShift(first: seq<Key>, rest: seq<seq<Key>>)
    requires rest != []
    ensures OrdinaryEnd([first] + rest) <==> Ordinary(first) || OrdinaryEnd(rest)
  {
    hide Ordinary;
    var pages := [first] + rest;
    if OrdinaryEnd(pages) {
      var i :| 0 <= i < |pages| - 1 && Ordinary(pages[i]);
      assert i > 0 ==> pages[i] == rest[i - 1];
    }
    if OrdinaryEnd(rest) {
      var i :| 0 <= i < |rest| - 1 && Ordinary(rest[i]);
      assert pages[i + 1] == rest[i];
    }
    assert pages[0] == first;
  }

  /**
   Exactly when a walk over an unchanging table repeats a row, whatever the page sizes: when it
   continues past a page that ends in an id other than the greatest uuid.
   */
  lemma {:induction false} LimitWalkRepeatsExactly(s: set<Key>, visits: seq<Visit>, cursor: Option<int>)
    requires Sensible(visits) && forall i :: 0 <= i < |visits| ==> visits[i].snapshot == s
    ensures Repeats(LimitPages(visits, cursor)) <==> OrdinaryEnd(LimitPages(visits, cursor))
  {
    hide LimitRequests, LimitPages, Repeats, OrdinaryEnd, Ordinary, SharedLater, Shared, Descends;
    if |LimitPages(visits, cursor)| <= 1 {
      OnePage(LimitPages(visits, cursor));
    } else {
      WalkGoesOn(s, visits, cursor);
      var page := LimitRequests(s, cursor, visits[0].limit);
      var t, later := Some(page[|page| - 1].ts), visits[1..];
      LimitWalkRepeatsExactly(s, later, t);
      RepeatsShift(page, LimitPages(later, t));
      EndShift(page, LimitPages(later, t));
      FirstPageShares(s, visits, cursor);
    }
  }

  lemma FirstPageShares(s: set<Key>, visits: seq<Visit>, cursor: Option<int>)
    requires Sensible(visits) && forall i :: 0 <= i < |visits| ==> visits[i].snapshot == s
    requires |LimitPages(visits, cursor)| > 1
    ensures var page := LimitRequests(s, cursor, visits[0].limit);
            |page| > 0 &&
            (SharedLater(page, LimitPages(visits[1..], Some(page[|page| - 1].ts))) <==> Ordinary(page))
  {
    hide LimitRequests, LimitPages, Descends, Ordinary;
    WalkGoesOn(s, visits, cursor);
    var n, later := visits[0].limit, visits[1..];
    var page := LimitRequests(s, cursor, n);
    var rest := LimitPages(later, Some(page[|page| - 1].ts));
    BoundaryRepeatsExactly(s, cursor, n, visits[1].limit);
    EndsOrdinary(page);
    if Ordinary(page) {
      assert Shared(page, rest[0]);
    } else {
      forall j | 0 <= j < |rest|
        ensures !Shared(page, rest[j])
      {
        NothingBelowIsShared(s, later, page, j);
      }
    }
  }

  lemma EndsOrdinary(page: seq<Key>)
    requires page != []
    ensures Ordinary(page) <==> page[|page| - 1].id < MAX_UUID
  {
  }

  lemma OnePage(pages: seq<seq<Key>>)
    requires |pages| <= 1
    ensures !Repeats(pages) && !OrdinaryEnd(pages)
  {
  }

  lemma WalkGoesOn(s: set<Key>, visits: seq<Visit>, cursor: Option<int>)
    requires Sensible(visits) && |LimitPages(visits, cursor)| > 1
    requires forall i :: 0 <= i < |visits| ==> visits[i].snapshot == s
    ensures |visits| > 1
    ensures var page := LimitRequests(s, cursor, visits[0].limit);
            && |page| == visits[0].limit && Descends(page)
            && LimitPages(visits, cursor) == [page] + LimitPages(visits[1..], Some(page[|page| - 1].ts))
            && LimitPages(visits[1..], Some(page[|page| - 1].ts)) != []
            && LimitPages(visits[1..], Some(page[|page| - 1].ts))[0]
               == LimitRequests(s, Some(page[|page| - 1].ts), visits[1].limit)
  {
    hide Query, Descends;
  }

  lemma NothingBelowIsShared(s: set<Key>, later: seq<Visit>, page: seq<Key>, j: nat)
    requires Sensible(later) && Descends(page) && page != [] && page[|page| - 1].id == MAX_UUID
    requires j < |LimitPages(later, Some(page[|page| - 1].ts))|
    ensures !Shared(page, LimitPages(later, Some(page[|page| - 1].ts))[j])
  {
    hide LimitPages, Less, Descends;
    var t := Some(page[|page| - 1].ts);
    forall k | k in LimitPages(later, t)[j]
      ensures k !in page
    {
      LimitWalkIsBelow(later, t, k, j);
      NotNewer(k, t.value);
      LessThanLast(k, page[|page| - 1]);
      AllAboveLast(page, k);
    }
  }

  lemma LessThanLast(k: Key, last: Key)
    requires last.id == MAX_UUID && (k.ts < last.ts || (k.ts == last.ts && k.id < MAX_UUID))
    ensures Less(k, last)
  {
  }

  /** With ids below the greatest uuid, a walk over an unchanging table repeats exactly when it has a second page. */
  lemma ContinuedWalkRepeats(s: set<Key>, visits: seq<Visit>, cursor: Option<int>)
    requires Sensible(visits) && forall i :: 0 <= i < |visits| ==> visits[i].snapshot == s
    requires forall k :: k in s ==> k.id < MAX_UUID
    ensures Repeats(LimitPages(visits, cursor)) <==> |LimitPages(visits, cursor)| > 1
  {
    hide LimitRequests, Repeats, LimitPages, Descends;
    LimitWalkRepeatsExactly(s, visits, cursor);
    var pages := LimitPages(visits, cursor);
    if |pages| > 1 {
      WalkGoesOn(s, visits, cursor);
      PageIsFrom(s, cursor, visits[0].limit);
      assert Ordinary(pages[0]);
    }
  }

  lemma PageIsFrom(s: set<Key>, cursor: Option<int>, n: nat)
    ensures forall k :: k in LimitRequests(s, cursor, n) ==> k in s
  {
    hide Query;
  }

  /** The rows stamped t that a cursor at t brings back. */
  ghost function Ties(s: set<Key>, t: int): set<Key> { set k | k in s && k.ts == t && k.id < MAX_UUID }

  /**
   When the walk makes progress: on a fixed table the page after timestamp t ends at t again,
   so that every later request repeats it, exactly when a full page of rows is stamped t.
   */
  lemma LimitWalkStallsExactly(s: set<Key>, t: int, n: nat)
    requires n >= 1
    ensures var page := LimitRequests(s, Some(t), n);
            (|page| == n && page[n - 1].ts == t) <==> |Ties(s, t)| >= n
  {
    hide Query;
    var page := LimitRequests(s, Some(t), n);
    DescendingCount(page);
    if |page| == n && page[n - 1].ts == t {
      forall k | k in Elements(page)
        ensures k in Ties(s, t)
      {
        var i :| 0 <= i < |page| && page[i] == k;
        assert i == n - 1 || Less(page[n - 1], k);
      }
      SubsetCount(Elements(page), Ties(s, t));
    }
    if |Ties(s, t)| >= n {
      if |page| < n {
        assert Ties(s, t) <= Elements(page);
        SubsetCount(Ties(s, t), Elements(page));
      } else if page[n - 1].ts != t {
        TiesFitAbove(page, Ties(s, t), t);
      }
    }
  }

  lemma TiesFitAbove(page: seq<Key>, ties: set<Key>, t: int)
    requires Descends(page) && page != [] && page[|page| - 1].ts < t
    requires forall k :: k in ties ==> k.ts == t
    requires forall k :: k in ties && k !in page ==> Less(k, page[|page| - 1])
    ensures |ties| < |page|
  {
    var last := page[|page| - 1];
    DescendingCount(page);
    forall k | k in ties
      ensures k in Elements(page) - {last}
    {
      assert k in page;
    }
    SubsetCount(ties, Elements(page) - {last});
  }

  /** Once stalled, forever stalled: every later page of a walk over a table that does not change is the same. */
  lemma {:induction false} StalledWalkRepeats(s: set<Key>, t: int, n: nat, visits: seq<Visit>)
    requires n >= 1 && |Ties(s, t)| >= n
    requires forall i :: 0 <= i < |visits| ==> visits[i] == Visit(s, n)
    ensures Sensible(visits) && !LimitWalkEnds(visits, Some(t))
    ensures LimitPages(visits, Some(t)) == seq(|visits|, _ => LimitRequests(s, Some(t), n))
  {
    hide LimitRequests, Ties;
    if visits == [] {
    } else {
      LimitWalkStallsExactly(s, t, n);
      StalledWalkRepeats(s, t, n, visits[1..]);
    }
  }

  // ---- ListDisputesForRaiser: never repeats, may skip ties ----

  predicate Older(k: Key, cursor: Option<int>) { cursor.None? || k.ts < cursor.value }

  /** Any answer SQL may give: ties may come in any order, and be cut anywhere. */
  ghost predicate IsDisputesAnswer(s: set<Key>, cursor: Option<int>, n: nat, rows: seq<Key>) {
    && (forall i, j :: 0 <= i < j < |rows| ==> rows[i] != rows[j] && rows[j].ts <= rows[i].ts)
    && (forall k :: k in rows ==> k in s && Older(k, cursor))
    && |rows| <= n
    && (|rows| < n ==> forall k :: k in s && Older(k, cursor) ==> k in rows)
    && (forall k, r :: k in s && Older(k, cursor) && k !in rows && r in rows ==> k.ts <= r.ts)
  }

  /** The pages of a walk, each an answer to its request, each but the last full. */
  ghost predicate IsDisputesWalk(visits: seq<Visit>, cursor: Option<int>, pages: seq<seq<Key>>)
    requires Sensible(visits)
  {
    if pages == [] then true
    else
      && visits != []
      && IsDisputesAnswer(visits[0].snapshot, cursor, visits[0].limit, pages[0])
      && (|pages| > 1 ==> |pages[0]| == visits[0].limit)
      && (|pages| > 1 ==> IsDisputesWalk(visits[1..], Some(pages[0][|pages[0]| - 1].ts), pages[1..]))
  }

  /** The walk ended: its last page is short. */
  predicate DisputesWalkEnds(visits: seq<Visit>, pages: seq<seq<Key>>) {
    0 < |pages| <= |visits| && |pages[|pages| - 1]| < visits[|pages| - 1].limit
  }

  lemma {:induction false} DisputesWalkIsOlder(visits: seq<Visit>, cursor: Option<int>, pages: seq<seq<Key>>)
    requires Sensible(visits) && IsDisputesWalk(visits, cursor, pages)
    ensures forall i, k :: 0 <= i < |pages| && k in pages[i] ==> Older(k, cursor)
  {
    if |pages| <= 1 {
    } else {
      var last := pages[0][|pages[0]| - 1];
      assert last in pages[0] && Older(last, cursor);
      DisputesWalkIsOlder(visits[1..], Some(last.ts), pages[1..]);
      forall i, k | 0 <= i < |pages| && k in pages[i]
        ensures Older(k, cursor)
      {
        if i > 0 {
          assert k in pages[1..][i - 1];
          assert Older(k, Some(last.ts));
        }
      }
    }
  }

  /** No row appears twice, on one page or on two. */
  lemma {:induction false} DisputesNeverRepeat(visits: seq<Visit>, cursor: Option<int>, pages: seq<seq<Key>>,
                                               i: nat, j: nat, a: nat, b: nat)
    requires Sensible(visits) && IsDisputesWalk(visits, cursor, pages)
    requires i <= j < |pages| && a < |pages[i]| && b < |pages[j]| && (i, a) != (j, b)
    ensures pages[i][a] != pages[j][b]
  {
    if i > 0 {
      var t := pages[0][|pages[0]| - 1].ts;
      DisputesNeverRepeat(visits[1..], Some(t), pages[1..], i - 1, j - 1, a, b);
    } else if j > 0 {
      var last := pages[0][|pages[0]| - 1];
      DisputesWalkIsOlder(visits[1..], Some(last.ts), pages[1..]);
      assert pages[j][b] in pages[1..][j - 1];
      assert Older(pages[j][b], Some(last.ts));
      assert a == |pages[0]| - 1 || last.ts <= pages[0][a].ts;
    }
  }

  /** The row ties the last row of a page, but is not on it. */
  predicate TiesBoundary(pages: seq<seq<Key>>, k: Key) {
    exists i :: 0 <= i < |pages| && BoundaryTie(pages[i], k)
  }

  predicate BoundaryTie(page: seq<Key>, k: Key) { page != [] && k !in page && k.ts == page[|page| - 1].ts }

  predicate OnSomePage(pages: seq<seq<Key>>, k: Key) { exists i :: 0 <= i < |pages| && k in pages[i] }

  lemma Shifted(pages: seq<seq<Key>>, k: Key)
    requires pages != []
    ensures TiesBoundary(pages, k) <==> BoundaryTie(pages[0], k) || TiesBoundary(pages[1..], k)
    ensures OnSomePage(pages, k) <==> k in pages[0] || OnSomePage(pages[1..], k)
  {
    if TiesBoundary(pages[1..], k) {
      var i :| 0 <= i < |pages[1..]| && BoundaryTie(pages[1..][i], k);
      assert BoundaryTie(pages[i + 1], k);
    }
    if OnSomePage(pages[1..], k) {
      var i :| 0 <= i < |pages[1..]| && k in pages[1..][i];
      assert k in pages[i + 1];
    }
    if TiesBoundary(pages, k) {
      var i :| 0 <= i < |pages| && BoundaryTie(pages[i], k);
      assert i > 0 ==> BoundaryTie(pages[1..][i - 1], k);
    }
    if OnSomePage(pages, k) {
      var i :| 0 <= i < |pages| && k in pages[i];
      assert i > 0 ==> k in pages[1..][i - 1];
    }
  }

  /**
   Exactly which stable rows a finished walk leaves out: those that tie, without being on it,
   the timestamp at which a page was cut (a short last page cuts nothing).
   */
  lemma {:induction false} DisputesSkipExactlyTies(visits: seq<Visit>, cursor: Option<int>,
                                                   pages: seq<seq<Key>>, k: Key)
    requires Sensible(visits) && IsDisputesWalk(visits, cursor, pages) && DisputesWalkEnds(visits, pages)
    requires Stable(visits, k) && Older(k, cursor)
    ensures !OnSomePage(pages, k) <==> TiesBoundary(pages[..|pages| - 1], k)
  {
    hide Older;
    if |pages| == 1 {
      assert k in pages[0];
    } else {
      var last := pages[0][|pages[0]| - 1];
      var rest, t := pages[1..], Some(last.ts);
      Shifted(pages, k);
      Shifted(pages[..|pages| - 1], k);
      assert pages[..|pages| - 1][1..] == rest[..|rest| - 1];
      DisputesWalkIsOlder(visits[1..], t, rest);
      LaterPagesAreOlder(rest, t, k);
      OlderStep(pages[0], k, cursor);
      if k !in pages[0] && k.ts < last.ts {
        DisputesSkipExactlyTies(visits[1..], t, rest, k);
      }
    }
  }

  /** Pages wholly older than a timestamp neither show nor tie a row that is not. */
  lemma LaterPagesAreOlder(rest: seq<seq<Key>>, t: Option<int>, k: Key)
    requires rest != [] && forall i, r :: 0 <= i < |rest| && r in rest[i] ==> Older(r, t)
    ensures !Older(k, t) ==> !OnSomePage(rest, k) && !TiesBoundary(rest[..|rest| - 1], k)
  {
    if t.Some? && TiesBoundary(rest[..|rest| - 1], k) {
      var i :| 0 <= i < |rest| - 1 && BoundaryTie(rest[..|rest| - 1][i], k);
      assert rest[i][|rest[i]| - 1] in rest[i];
      assert Older(rest[i][|rest[i]| - 1], t);
    }
    if OnSomePage(rest, k) {
      var i :| 0 <= i < |rest| && k in rest[i];
      assert Older(k, t);
    }
  }

  lemma OlderStep(page: seq<Key>, k: Key, cursor: Option<int>)
    requires page != [] && forall i, j :: 0 <= i < j < |page| ==> page[j].ts <= page[i].ts
    ensures k in page ==> page[|page| - 1].ts <= k.ts
    ensures Older(k, Some(page[|page| - 1].ts)) <==> k.ts < page[|page| - 1].ts
  {
    if k in page {
      var i :| 0 <= i < |page| && page[i] == k;
    }
  }
}
