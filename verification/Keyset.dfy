/**
 Keyset queries: the rows matching a filter, strictly below a (timestamp, id) cursor, newest
 first, at most n of them. A snapshot is the set of keyset columns of the rows a filter
 matches at the moment a query runs; uuids compare as 128-bit numbers.
 */
module Keyset {
  import opened Uuids
  import opened Wrappers

  datatype Key = Key(ts: int, id: Uuid)

  /** Row-value comparison, as section 8.2 of ISO/IEC 9075-2 defines it. */
  predicate Less(a: Key, b: Key) { a.ts < b.ts || (a.ts == b.ts && a.id < b.id) }

  /** The two nullable query parameters. */
  datatype Cursor = Cursor(ts: Option<int>, id: Option<Uuid>)

  const FIRST: Cursor := Cursor(None, None)

  function At(k: Key): Cursor { Cursor(Some(k.ts), Some(k.id)) }

  /** Whether WHERE keeps the row: a comparison left unknown by a NULL id does not. */
  predicate Below(k: Key, cur: Cursor) {
    match (cur.ts, cur.id)
    case (None, _) => true
    case (Some(t), Some(u)) => Less(k, Key(t, u))
    case (Some(t), None) => k.ts < t
  }

  /** ORDER BY created_at DESC, id DESC, with no row twice. */
  predicate Descends(rows: seq<Key>) { forall i, j :: 0 <= i < j < |rows| ==> Less(rows[j], rows[i]) }

  ghost function Elements(rows: seq<Key>): set<Key> { set k | k in rows }

  function Take<T>(rows: seq<T>, n: nat): seq<T> { if n < |rows| then rows[..n] else rows }

  // ---- the sorted table ----

  lemma {:induction false} TopExists(s: set<Key>)
    requires s != {}
    ensures exists m :: m in s && forall k :: k in s ==> k == m || Less(k, m)
  {
    var x :| x in s;
    if s == {x} {
    } else {
      var rest := s - {x};
      assert s == rest + {x};
      TopExists(rest);
      var m :| m in rest && forall k :: k in rest ==> k == m || Less(k, m);
      var top := if Less(m, x) then x else m;
      assert top in s && forall k :: k in s ==> k == top || Less(k, top);
    }
  }

  ghost function Top(s: set<Key>): (m: Key)
    requires s != {}
    ensures m in s && forall k :: k in s ==> k == m || Less(k, m)
  {
    TopExists(s);
    var m :| m in s && forall k :: k in s ==> k == m || Less(k, m);
    m
  }

  /** The snapshot in query order. */
  ghost function Sorted(s: set<Key>): (rows: seq<Key>)
    ensures Descends(rows) && |rows| == |s| && forall k :: k in rows <==> k in s
  {
    if s == {} then [] else
      var m := Top(s);
      assert s == (s - {m}) + {m};
      [m] + Sorted(s - {m})
  }

  lemma {:induction false} SortedIsUnique(a: seq<Key>, b: seq<Key>)
    requires Descends(a) && Descends(b) && forall k :: k in a <==> k in b
    ensures a == b
  {
    assert Elements(a) == Elements(b);
    DescendingCount(a);
    DescendingCount(b);
    if a == [] {
    } else {
      assert a[0] in b && b[0] in a;
      assert a[0] == b[0] by {
        var i :| 0 <= i < |b| && b[i] == a[0];
        var j :| 0 <= j < |a| && a[j] == b[0];
      }
      TailElements(a);
      TailElements(b);
      SortedIsUnique(a[1..], b[1..]);
    }
  }

  lemma TailElements(a: seq<Key>)
    requires Descends(a) && a != []
    ensures Descends(a[1..]) && forall k :: k in a[1..] <==> k in a && k != a[0]
  {
    forall k
      ensures k in a[1..] <==> k in a && k != a[0]
    {
      if k in a && k != a[0] {
        var i :| 0 <= i < |a| && a[i] == k;
        assert a[1..][i - 1] == k;
      }
    }
  }

  ghost function Matching(s: set<Key>, cur: Cursor): set<Key> { set k | k in s && Below(k, cur) }

  /** SearchUsers, SearchAccounts, SearchTransfers on a snapshot. */
  ghost function Query(s: set<Key>, cur: Cursor, n: nat): (rows: seq<Key>)
    ensures Descends(rows) && |rows| <= n
    ensures forall k :: k in rows ==> k in s && Below(k, cur)
    ensures forall k, r :: k in s && Below(k, cur) && k !in rows && r in rows ==> Less(k, r)
    ensures |rows| < n ==> forall k :: k in s && Below(k, cur) ==> k in rows
  {
    var all := Sorted(Matching(s, cur));
    assert forall k :: k in all <==> k in Matching(s, cur);
    var rows := Take(all, n);
    PrefixIsTop(all, n);
    rows
  }

  /** With a timestamp but no id the comparison is unknown at that timestamp: only strictly older rows are shown. */
  lemma MissingIdSkipsTies(s: set<Key>, t: int, n: nat)
    ensures var rows := Query(s, Cursor(Some(t), None), n);
            && (forall k :: k in rows ==> k in s && k.ts < t)
            && (|rows| < n ==> forall k :: k in s && k.ts < t ==> k in rows)
  {
    hide Query;
  }

  lemma PrefixIsTop(all: seq<Key>, n: nat)
    requires Descends(all)
    ensures var rows := Take(all, n);
            && Descends(rows) && |rows| <= n
            && (forall k :: k in rows ==> k in all)
            && (forall k, r :: k in all && k !in rows && r in rows ==> Less(k, r))
            && (|rows| < n ==> rows == all)
  {
    var rows := Take(all, n);
    assert forall j :: 0 <= j < |rows| ==> all[j] == rows[j] && rows[j] in rows;
    forall k, r | k in all && k !in rows && r in rows
      ensures Less(k, r)
    {
      var i :| 0 <= i < |all| && all[i] == k;
      var j :| 0 <= j < |rows| && rows[j] == r;
      assert j < |rows| <= i;
    }
  }

  // ---- a page ----

  datatype Page<T> = Page(rows: seq<T>, last: Option<Key>, hasMore: bool)

  /** paginate: drops the probe row; the cursor of the last row, if a page follows. */
  function Paginate<T>(rows: seq<T>, limit: nat, cursorOf: T -> Key): (p: Page<T>)
    requires limit >= 1
    ensures p.hasMore <==> |rows| > limit
    ensures p.rows == Take(rows, limit)
    ensures p.last == if p.hasMore then Some(cursorOf(rows[limit - 1])) else None
  {
    var hasMore := |rows| > limit;
    var page := if hasMore then rows[..limit] else rows;
    Page(page, if hasMore && |page| > 0 then Some(cursorOf(page[|page| - 1])) else None, hasMore)
  }

  /** One list request: limit + 1 rows fetched, one page shown. */
  ghost function PageAt(s: set<Key>, cur: Cursor, limit: nat): Page<Key>
    requires limit >= 1
  {
    Paginate(Query(s, cur, limit + 1), limit, (k: Key) => k)
  }

  lemma PageFacts(s: set<Key>, cur: Cursor, limit: nat)
    requires limit >= 1
    ensures var p := PageAt(s, cur, limit);
            && Descends(p.rows)
            && (forall k :: k in p.rows ==> k in s && Below(k, cur))
            && (p.hasMore ==> |p.rows| == limit && p.last == Some(p.rows[limit - 1]))
            && (p.hasMore ==> forall k :: k in s && Below(k, cur) && k !in p.rows ==> Less(k, p.rows[limit - 1]))
            && (!p.hasMore ==> forall k :: k in s && Below(k, cur) ==> k in p.rows)
  {
    hide Query, Less;
    var rows := Query(s, cur, limit + 1);
    var p := PageAt(s, cur, limit);
    if p.hasMore {
      assert p.rows == rows[..limit];
      assert forall j :: 0 <= j < limit ==> p.rows[j] == rows[j] && rows[j] in p.rows;
      forall k | k in s && Below(k, cur) && k !in p.rows
        ensures Less(k, p.rows[limit - 1])
      {
        if k in rows {
          var i :| 0 <= i < |rows| && rows[i] == k;
          assert i >= limit;
        }
      }
    }
  }

  // ---- a forward walk while others write ----

  /** What one request sees: the snapshot at that moment and the page size in force. */
  datatype Visit = Visit(snapshot: set<Key>, limit: nat)

  predicate Sensible(visits: seq<Visit>) { forall i :: 0 <= i < |visits| ==> visits[i].limit >= 1 }

  /** The rows shown, in order, following Next from a cursor through the given moments. */
  ghost function Shown(visits: seq<Visit>, cur: Cursor): seq<Key>
    requires Sensible(visits)
  {
    if visits == [] then []
    else
      var p := PageAt(visits[0].snapshot, cur, visits[0].limit);
      p.rows + if p.hasMore then Shown(visits[1..], At(p.last.value)) else []
  }

  /** The walk reached a page with no Next. */
  ghost predicate Completed(visits: seq<Visit>, cur: Cursor)
    requires Sensible(visits)
  {
    visits != [] &&
    var p := PageAt(visits[0].snapshot, cur, visits[0].limit);
    p.hasMore ==> Completed(visits[1..], At(p.last.value))
  }

  /** The row is there, matching, whenever a page is read. */
  predicate Stable(visits: seq<Visit>, k: Key) { forall i :: 0 <= i < |visits| ==> k in visits[i].snapshot }

  lemma DescendsConcat(a: seq<Key>, b: seq<Key>)
    requires Descends(a) && Descends(b)
    requires a != [] && forall k :: k in b ==> Less(k, a[|a| - 1])
    ensures Descends(a + b)
  {
    var s := a + b;
    forall i, j | 0 <= i < j < |s|
      ensures Less(s[j], s[i])
    {
      if i < |a| <= j {
        assert s[j] == b[j - |a|] && s[j] in b;
      }
    }
  }

  /** Whatever is written between requests, the walk only ever moves down: no row is shown twice. */
  lemma {:induction false} WalkDescends(visits: seq<Visit>, cur: Cursor)
    requires Sensible(visits)
    ensures Descends(Shown(visits, cur))
    ensures forall k :: k in Shown(visits, cur) ==> Below(k, cur)
  {
    hide PageAt, Descends, Below;
    if visits == [] {
      NothingDescends();
    } else {
      PageFacts(visits[0].snapshot, cur, visits[0].limit);
      var p := PageAt(visits[0].snapshot, cur, visits[0].limit);
      if p.hasMore {
        var last := p.last.value;
        assert last in p.rows;
        WalkDescends(visits[1..], At(last));
        var rest := Shown(visits[1..], At(last));
        forall k | k in rest
          ensures Less(k, last) && Below(k, cur)
        {
          BelowTrans(k, last, cur);
        }
        DescendsConcat(p.rows, rest);
      } else {
        assert p.rows + [] == p.rows;
      }
    }
  }

  lemma NothingDescends()
    ensures Descends([])
  {
  }

  lemma BelowTrans(k: Key, last: Key, cur: Cursor)
    requires Below(k, At(last)) && Below(last, cur)
    ensures Less(k, last) && Below(k, cur)
  {
  }

  /** A row present throughout a completed walk is shown. */
  lemma {:induction false} StableRowIsShown(visits: seq<Visit>, cur: Cursor, k: Key)
    requires Sensible(visits) && Completed(visits, cur) && Stable(visits, k) && Below(k, cur)
    ensures k in Shown(visits, cur)
  {
    hide PageAt;
    PageFacts(visits[0].snapshot, cur, visits[0].limit);
    var p := PageAt(visits[0].snapshot, cur, visits[0].limit);
    if k !in p.rows {
      assert p.hasMore;
      StableRowIsShown(visits[1..], At(p.last.value), k);
    }
  }

  /** Nothing is invented: every row shown was in the snapshot of some request. */
  lemma {:induction false} ShownWasThere(visits: seq<Visit>, cur: Cursor, k: Key)
    requires Sensible(visits) && k in Shown(visits, cur)
    ensures exists i :: 0 <= i < |visits| && k in visits[i].snapshot
  {
    hide PageAt;
    PageFacts(visits[0].snapshot, cur, visits[0].limit);
    var p := PageAt(visits[0].snapshot, cur, visits[0].limit);
    if k !in p.rows {
      ShownWasThere(visits[1..], At(p.last.value), k);
      var i :| 0 <= i < |visits[1..]| && k in visits[1..][i].snapshot;
      assert k in visits[i + 1].snapshot;
    }
  }

  /**
   With rows inserted, deleted and re-filtered arbitrarily between requests and the page size
   changing each time, a completed Next walk shows every stable row exactly once, and no row twice.
   */
  lemma ExactlyOnce(visits: seq<Visit>, k: Key)
    requires Sensible(visits) && Completed(visits, FIRST) && Stable(visits, k)
    ensures var shown := Shown(visits, FIRST);
            exists i :: 0 <= i < |shown| && shown[i] == k && forall j :: 0 <= j < |shown| && shown[j] == k ==> j == i
  {
    hide Shown, Completed;
    StableRowIsShown(visits, FIRST, k);
    WalkDescends(visits, FIRST);
    var shown := Shown(visits, FIRST);
    var i :| 0 <= i < |shown| && shown[i] == k;
    assert forall j :: 0 <= j < |shown| && shown[j] == k ==> j == i;
  }

  // ---- on a fixed table, a page is an OFFSET slice ----

  /** How many rows d full pages hold. */
  function Offset(d: nat, limit: nat): nat {
    if d == 0 then 0 else Offset(d - 1, limit) + limit
  }

  lemma {:induction false} OffsetIsProduct(d: nat, limit: nat)
    ensures Offset(d, limit) == d * limit
  {
    if d == 0 {
    } else {
      OffsetIsProduct(d - 1, limit);
      assert d * limit == (d - 1) * limit + limit;
    }
  }

  /** ORDER BY ... LIMIT limit OFFSET d * limit. */
  function Slice(all: seq<Key>, d: nat, limit: nat): seq<Key> {
    if d * limit <= |all| then Take(all[d * limit..], limit) else []
  }

  /** The cursor that stands before the row at position j. */
  function CursorBefore(all: seq<Key>, j: nat): Cursor
    requires j <= |all|
  {
    if j == 0 then FIRST else At(all[j - 1])
  }

  lemma SuffixElements(all: seq<Key>, j: nat, k: Key)
    requires Descends(all) && j <= |all|
    ensures k in all[j..] <==> k in all && Below(k, CursorBefore(all, j))
  {
    if k in all[j..] {
      var i :| 0 <= i < |all[j..]| && all[j..][i] == k;
      assert k == all[j + i];
    }
    if k in all && Below(k, CursorBefore(all, j)) {
      var i :| 0 <= i < |all| && all[i] == k;
      assert i >= j;
      assert all[j..][i - j] == k;
    }
  }

  lemma MatchingIsSuffix(s: set<Key>, j: nat)
    requires j <= |s|
    ensures Sorted(Matching(s, CursorBefore(Sorted(s), j))) == Sorted(s)[j..]
  {
    hide Sorted, Below, CursorBefore;
    var all := Sorted(s);
    forall k
      ensures k in all[j..] <==> k in Matching(s, CursorBefore(all, j))
    {
      SuffixElements(all, j, k);
    }
    SortedIsUnique(Sorted(Matching(s, CursorBefore(all, j))), all[j..]);
  }

  /** The page behind the cursor of page d is LIMIT limit OFFSET d * limit; a page follows exactly when rows remain. */
  lemma PageIsSlice(s: set<Key>, d: nat, limit: nat)
    requires limit >= 1 && d * limit <= |s|
    ensures var all := Sorted(s);
            var p := PageAt(s, CursorBefore(all, d * limit), limit);
            && p.rows == Slice(all, d, limit)
            && (p.hasMore <==> (d + 1) * limit < |s|)
            && (p.hasMore ==> At(p.last.value) == CursorBefore(all, (d + 1) * limit))
  {
    hide Sorted, PageAt, Slice, Offset;
    OffsetIsProduct(d, limit);
    OffsetIsProduct(d + 1, limit);
    PageIsOffsetSlice(s, d, limit);
  }

  lemma PageIsOffsetSlice(s: set<Key>, d: nat, limit: nat)
    requires limit >= 1 && Offset(d, limit) <= |s|
    ensures var all := Sorted(s);
            var p := PageAt(s, CursorBefore(all, Offset(d, limit)), limit);
            && p.rows == Slice(all, d, limit)
            && (p.hasMore <==> Offset(d + 1, limit) < |s|)
            && (p.hasMore ==> At(p.last.value) == CursorBefore(all, Offset(d + 1, limit)))
  {
    hide Sorted, Query, Paginate, Descends, Take;
    OffsetIsProduct(d, limit);
    var all, j := Sorted(s), Offset(d, limit);
    QueryIsTake(s, j, limit + 1);
    ProbedPage(all, j, limit);
  }

  lemma QueryIsTake(s: set<Key>, j: nat, n: nat)
    requires j <= |s|
    ensures Query(s, CursorBefore(Sorted(s), j), n) == Take(Sorted(s)[j..], n)
  {
    hide Sorted, Descends;
    MatchingIsSuffix(s, j);
  }

  /** The probe row tells whether a page follows, and is not shown. */
  lemma ProbedPage(all: seq<Key>, j: nat, limit: nat)
    requires limit >= 1 && j <= |all|
    ensures var p := Paginate(Take(all[j..], limit + 1), limit, (k: Key) => k);
            && p.rows == Take(all[j..], limit)
            && (p.hasMore <==> j + limit < |all|)
            && (p.hasMore ==> p.last.Some? && At(p.last.value) == CursorBefore(all, j + limit))
  {
  }

  /** Following Next strictly shrinks what is left below the cursor, so Next runs out. */
  lemma NextShrinks(s: set<Key>, cur: Cursor, limit: nat)
    requires limit >= 1 && PageAt(s, cur, limit).hasMore
    ensures |Matching(s, At(PageAt(s, cur, limit).last.value))| + limit <= |Matching(s, cur)|
  {
    hide PageAt;
    PageFacts(s, cur, limit);
    var p := PageAt(s, cur, limit);
    var left, shown := Matching(s, At(p.last.value)), Elements(p.rows);
    DescendingCount(p.rows);
    assert left !! shown by {
      forall k | k in shown
        ensures k !in left
      {
        var i :| 0 <= i < |p.rows| && p.rows[i] == k;
      }
    }
    assert left + shown <= Matching(s, cur) by {
      forall k | k in left
        ensures Below(k, cur)
      {
        assert p.last.value in p.rows;
      }
    }
    SubsetCount(left + shown, Matching(s, cur));
  }

  lemma {:induction false} DescendingCount(rows: seq<Key>)
    requires Descends(rows)
    ensures |Elements(rows)| == |rows|
  {
    if rows == [] {
      assert Elements(rows) == {};
    } else {
      TailElements(rows);
      DescendingCount(rows[1..]);
      assert Elements(rows) == Elements(rows[1..]) + {rows[0]};
    }
  }

  lemma {:induction false} SubsetCount<T>(a: set<T>, b: set<T>)
    requires a <= b
    ensures |a| <= |b|
  {
    if a == {} {
    } else {
      var x :| x in a;
      SubsetCount(a - {x}, b - {x});
    }
  }
}
