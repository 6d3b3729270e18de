/**
 The console's stateless Prev/Next pager: the cursors of the pages already visited travel
 in the URL as a base64url-encoded JSON array. A URL's query is modelled after decoding,
 as the parameters it sets; percent-encoding is the library's and is assumed faithful.
 */
module Pager {
  import Base64Url
  import JsonStrings
  import opened Keyset
  import opened Strings
  import opened Uuids
  import opened Wrappers

  type Params = map<string, string>

  datatype Url = Url(base: string, params: Params)

  /** url.Values.Get: an absent parameter reads as empty. */
  function Get(v: Params, name: string): string { if name in v then v[name] else "" }

  /** How timestamps (RFC 3339, section 5.6) and uuids are written and read. */
  datatype Codec = Codec(formatTs: int -> string, parseTs: string -> Option<int>,
                         formatId: Uuid -> string, parseId: string -> Option<Uuid>)
  {
    /** What is asked of the library for the keys of a table: plain text that reads back. */
    ghost predicate Faithful(s: set<Key>) {
      forall k :: k in s ==>
        && formatTs(k.ts) != "" && '|' !in formatTs(k.ts) && formatId(k.id) != ""
        && JsonStrings.Ascii(formatTs(k.ts)) && JsonStrings.Ascii(formatId(k.id))
        && parseTs(formatTs(k.ts)) == Some(k.ts) && parseId(formatId(k.id)) == Some(k.id)
    }
  }

  // ---- reading a request ----

  function PageCursor(c: Codec, v: Params): Cursor {
    var ts := Get(v, "cursor");
    var id := Get(v, "cid");
    Cursor(if ts != "" then c.parseTs(ts) else None, if id != "" then c.parseId(id) else None)
  }

  /** The optional search text: trimmed, absent when blank. */
  function SearchQ(v: Params): Option<string> {
    var q := TrimSpace(Get(v, "q"));
    if q == "" then None else Some(q)
  }

  /** The cursor that produced the page being rendered, as one text; empty for the first page. */
  function CurrentCursorStr(v: Params): string {
    if Get(v, "cursor") == "" then "" else Get(v, "cursor") + "|" + Get(v, "cid")
  }

  function PageHistory(v: Params): seq<string> {
    var s := Get(v, "hist");
    if s == "" then []
    else
      match Base64Url.Decode(s)
      case None => []
      case Some(b) =>
        match JsonStrings.Unmarshal(b)
        case None => []
        case Some(h) => h
  }

  // ---- writing links ----

  function EncodeHistory(h: seq<string>): string
    requires JsonStrings.AllAscii(h)
  {
    if h == [] then "" else Base64Url.Encode(JsonStrings.Marshal(h))
  }

  /** The parameters of a results link. */
  function LinkParams(cursor: string, hist: seq<string>, q: Option<string>): Params
    requires JsonStrings.AllAscii(hist)
  {
    var (ts, id, both) := Cut(cursor, '|');
    var h := EncodeHistory(hist);
    var v: Params := map["nav" := "1"];
    var v := if cursor != "" then v["cursor" := ts] else v;
    var v := if cursor != "" && both then v["cid" := id] else v;
    var v := if h != "" then v["hist" := h] else v;
    if q.Some? then v["q" := q.value] else v
  }

  method BuildPageURL(base: string, cursor: string, hist: seq<string>, q: Option<string>) returns (url: Url)
    requires JsonStrings.AllAscii(hist)
    ensures url == Url(base, LinkParams(cursor, hist, q))
  {
    hide Cut, EncodeHistory;
    var v: Params := map["nav" := "1"];
    if cursor != "" {
      var (ts, id, both) := Cut(cursor, '|');
      v := v["cursor" := ts];
      if both {
        v := v["cid" := id];
      }
    }
    var h := EncodeHistory(hist);
    if h != "" {
      v := v["hist" := h];
    }
    if q.Some? {
      v := v["q" := q.value];
    }
    url := Url(base, v);
  }

  /** Plain text throughout: what the modelled JSON covers. */
  predicate Plain(v: Params) {
    && JsonStrings.Ascii(Get(v, "cursor")) && JsonStrings.Ascii(Get(v, "cid"))
    && JsonStrings.AllAscii(PageHistory(v))
  }

  datatype Links = Links(prev: Option<Url>, next: Option<Url>)

  function PrevLink(v: Params, base: string, q: Option<string>): Option<Url>
    requires Plain(v)
  {
    var hist := PageHistory(v);
    if |hist| > 0 then Some(Url(base, LinkParams(hist[|hist| - 1], hist[..|hist| - 1], q))) else None
  }

  function NextLink(c: Codec, v: Params, base: string, q: Option<string>, last: Option<Key>): Option<Url>
    requires Plain(v)
  {
    match last
    case None => None
    case Some(k) =>
      var cursor := c.formatTs(k.ts) + "|" + c.formatId(k.id);
      CursorIsAscii(v);
      Some(Url(base, LinkParams(cursor, PageHistory(v) + [CurrentCursorStr(v)], q)))
  }

  function PagerLinks(c: Codec, v: Params, base: string, q: Option<string>, last: Option<Key>): Links
    requires Plain(v)
  {
    Links(PrevLink(v, base, q), NextLink(c, v, base, q, last))
  }

  lemma CursorIsAscii(v: Params)
    requires Plain(v)
    ensures JsonStrings.Ascii(CurrentCursorStr(v))
  {
    hide PageHistory;
  }

  // ---- what a link says when it comes back ----

  lemma HistoryRoundTrip(h: seq<string>)
    requires h != [] && JsonStrings.AllAscii(h)
    ensures EncodeHistory(h) != ""
    ensures Base64Url.Decode(EncodeHistory(h)) == Some(JsonStrings.Marshal(h))
    ensures JsonStrings.Unmarshal(JsonStrings.Marshal(h)) == Some(h)
  {
    hide Base64Url.Encode, Base64Url.Decode, JsonStrings.Marshal, JsonStrings.Unmarshal;
    Base64Url.RoundTrip(JsonStrings.Marshal(h));
    JsonStrings.RoundTrip(h);
  }

  lemma LinkReadsBack(cursor: string, hist: seq<string>, q: Option<string>)
    requires JsonStrings.AllAscii(hist)
    ensures var v := LinkParams(cursor, hist, q);
            && PageHistory(v) == hist
            && Get(v, "cursor") == Cut(cursor, '|').0
            && Get(v, "cid") == Cut(cursor, '|').1
            && Get(v, "q") == (if q.Some? then q.value else "")
            && Get(v, "nav") == "1"
  {
    hide Cut, EncodeHistory, Base64Url.Decode, JsonStrings.Unmarshal;
    var v := LinkParams(cursor, hist, q);
    EmptyHistory();
    if hist != [] {
      HistoryRoundTrip(hist);
    }
    CutEmpty();
    CutNone(cursor);
    assert Get(v, "hist") == EncodeHistory(hist);
  }

  lemma EmptyHistory()
    ensures EncodeHistory([]) == ""
  {
  }

  lemma CutEmpty()
    ensures Cut("", '|') == ("", "", false)
  {
  }

  lemma CutNone(s: string)
    ensures !Cut(s, '|').2 ==> Cut(s, '|').1 == ""
  {
    hide Index;
  }

  lemma SearchSurvives(v: Params, w: Params)
    requires Get(w, "q") == (if SearchQ(v).Some? then SearchQ(v).value else "")
    ensures SearchQ(w) == SearchQ(v)
  {
    hide TrimSpace;
    TrimOfTrimmed(Get(w, "q"));
  }

  /** Every link stays on its screen. */
  lemma LinksKeepBase(c: Codec, v: Params, base: string, q: Option<string>, last: Option<Key>)
    requires Plain(v)
    ensures var l := PagerLinks(c, v, base, q, last);
            && (l.next.Some? ==> l.next.value.base == base)
            && (l.prev.Some? ==> l.prev.value.base == base)
  {
    hide LinkParams, PageHistory;
  }

  /** The search text is what is between the blanks, if anything is. */
  lemma SearchIs(v: Params, a: string, t: string, b: string)
    requires AllSpace(a) && AllSpace(b) && Get(v, "q") == a + t + b
    requires t == "" || (!IsSpace(t[0]) && !IsSpace(t[|t| - 1]))
    ensures SearchQ(v) == if t == "" then None else Some(t)
  {
    hide TrimSpace;
    TrimBlanks(a, t, b);
  }

  /** A missing or unreadable timestamp shows the first page, whatever the id; an unreadable stack offers no Prev. */
  lemma UnreadableIsFirstPage(c: Codec, s: set<Key>, v: Params, limit: nat, base: string, q: Option<string>)
    requires limit >= 1 && Plain(v)
    ensures Get(v, "cursor") == "" || c.parseTs(Get(v, "cursor")) == None ==>
              PageAt(s, PageCursor(c, v), limit) == PageAt(s, FIRST, limit)
    ensures Base64Url.Decode(Get(v, "hist")) == None ==> PagerLinks(c, v, base, q, None).prev == None
  {
    hide Sorted, Base64Url.Decode;
    var cur := PageCursor(c, v);
    if cur.ts == None {
      assert Matching(s, cur) == Matching(s, FIRST);
    }
  }

  // ---- Prev undoes Next ----

  /** A cursor the pager can carry: no bar in the timestamp, and no id without one. */
  predicate Carried(v: Params) {
    '|' !in Get(v, "cursor") && (Get(v, "cursor") == "" ==> Get(v, "cid") == "")
  }

  lemma CursorStrReadsBack(v: Params)
    ensures (Cut(CurrentCursorStr(v), '|').0, Cut(CurrentCursorStr(v), '|').1) == (Get(v, "cursor"), Get(v, "cid"))
            <==> Carried(v)
  {
    hide Index, Get;
    CutEmpty();
    var c := Get(v, "cursor");
    if '|' !in c {
      CutAt(c, '|', Get(v, "cid"));
    } else {
      assert CurrentCursorStr(v)[|c|] == '|';
    }
  }

  /**
   Following Next and then its Prev restores the history stack and the search text always,
   and the cursor exactly when it is one the pager can carry; a timestamp and a uuid are.
   */
  lemma PrevUndoesNext(c: Codec, v: Params, base: string, k: Key)
    requires Plain(v)
    requires JsonStrings.Ascii(c.formatTs(k.ts)) && JsonStrings.Ascii(c.formatId(k.id))
    ensures var next := PagerLinks(c, v, base, SearchQ(v), Some(k)).next.value.params;
            Plain(next) &&
            var prev := PagerLinks(c, next, base, SearchQ(next), None).prev;
            && prev.Some?
            && PageHistory(prev.value.params) == PageHistory(v)
            && SearchQ(prev.value.params) == SearchQ(v)
            && ((Get(prev.value.params, "cursor"), Get(prev.value.params, "cid")) == (Get(v, "cursor"), Get(v, "cid"))
                <==> Carried(v))
  {
    hide PageHistory, SearchQ, LinkParams, Cut, Carried, CurrentCursorStr;
    var hist, q := PageHistory(v), SearchQ(v);
    CursorIsAscii(v);
    var cursor := c.formatTs(k.ts) + "|" + c.formatId(k.id);
    LinkReadsBack(cursor, hist + [CurrentCursorStr(v)], q);
    var next := LinkParams(cursor, hist + [CurrentCursorStr(v)], q);
    CutIsAscii(cursor);
    SearchSurvives(v, next);
    LinkReadsBack(CurrentCursorStr(v), hist, q);
    var prev := LinkParams(CurrentCursorStr(v), hist, q);
    SearchSurvives(v, prev);
    CursorStrReadsBack(v);
    assert (hist + [CurrentCursorStr(v)])[..|hist|] == hist;
  }

  lemma CutIsAscii(s: string)
    requires JsonStrings.Ascii(s)
    ensures JsonStrings.Ascii(Cut(s, '|').0) && JsonStrings.Ascii(Cut(s, '|').1)
  {
    hide Index;
  }

  // ---- clicking through a fixed table ----

  datatype Click = Prev | Next

  /** What the server answers a list request with. */
  datatype Rendered = Rendered(rows: seq<Key>, links: Links)

  /** One request: the filter is the request's own search text. */
  ghost function Render(c: Codec, table: Option<string> -> set<Key>, limit: nat, base: string, v: Params): Rendered
    requires Plain(v) && limit >= 1
  {
    var q := SearchQ(v);
    var p := PageAt(table(q), PageCursor(c, v), limit);
    Rendered(p.rows, PagerLinks(c, v, base, q, p.last))
  }

  /** Where a click leads: along the link, or nowhere when there is none. */
  ghost function Follow(c: Codec, table: Option<string> -> set<Key>, limit: nat, base: string, v: Params,
                        click: Click): Params
    requires Plain(v) && limit >= 1
  {
    var links := Render(c, table, limit, base, v).links;
    match (if click.Next? then links.next else links.prev)
    case None => v
    case Some(url) => url.params
  }

  /** The page number an OFFSET pager would be on. */
  function Turn(d: nat, rows: nat, limit: nat, click: Click): nat {
    match click
    case Next => if Offset(d + 1, limit) < rows then d + 1 else d
    case Prev => if d > 0 then d - 1 else d
  }

  /** The text of the cursor standing before the page at depth d. */
  function CursorText(c: Codec, all: seq<Key>, d: nat, limit: nat): string {
    var j := Offset(d, limit);
    if j == 0 || j > |all| then "" else c.formatTs(all[j - 1].ts) + "|" + c.formatId(all[j - 1].id)
  }

  /** The stack holds the cursors of the first d pages. */
  ghost predicate StackIs(c: Codec, all: seq<Key>, limit: nat, hist: seq<string>, d: nat) {
    |hist| == d && forall e :: 0 <= e < d ==> hist[e] == CursorText(c, all, e, limit)
  }

  predicate CursorIs(v: Params, text: string) {
    (Get(v, "cursor"), Get(v, "cid")) == (Cut(text, '|').0, Cut(text, '|').1)
  }

  /** The request is for the page at depth d: its cursor, and those of the pages before it on the stack. */
  ghost predicate OnPage(c: Codec, all: seq<Key>, limit: nat, q: Option<string>, v: Params, d: nat) {
    && Offset(d, limit) <= |all|
    && SearchQ(v) == q
    && CursorIs(v, CursorText(c, all, d, limit))
    && StackIs(c, all, limit, PageHistory(v), d)
  }

  lemma CursorTextFacts(c: Codec, s: set<Key>, d: nat, limit: nat)
    requires c.Faithful(s)
    ensures JsonStrings.Ascii(CursorText(c, Sorted(s), d, limit))
  {
    hide Sorted;
    var all, j := Sorted(s), Offset(d, limit);
    if 0 < j <= |all| {
      var k := all[j - 1];
      assert k in s by { assert k in all; }
    }
  }

  /** A request for page d asks the query for the rows behind page d's cursor, and shows that cursor's text. */
  lemma CursorReadsBack(c: Codec, s: set<Key>, limit: nat, v: Params, d: nat)
    requires c.Faithful(s) && Offset(d, limit) <= |s| && CursorIs(v, CursorText(c, Sorted(s), d, limit))
    ensures PageCursor(c, v) == CursorBefore(Sorted(s), Offset(d, limit))
    ensures CurrentCursorStr(v) == CursorText(c, Sorted(s), d, limit)
  {
    hide Sorted, Cut, Get;
    var all, j := Sorted(s), Offset(d, limit);
    CutEmpty();
    if j > 0 {
      var k := all[j - 1];
      assert k in s by { assert k in all; }
      CutAt(c.formatTs(k.ts), '|', c.formatId(k.id));
      assert c.formatTs(k.ts) + "|" + c.formatId(k.id) == c.formatTs(k.ts) + ['|'] + c.formatId(k.id);
    }
  }

  lemma OnPageIsPlain(c: Codec, s: set<Key>, limit: nat, q: Option<string>, v: Params, d: nat)
    requires c.Faithful(s) && OnPage(c, Sorted(s), limit, q, v, d)
    ensures Plain(v) && PageCursor(c, v) == CursorBefore(Sorted(s), Offset(d, limit))
    ensures CurrentCursorStr(v) == CursorText(c, Sorted(s), d, limit)
  {
    hide Sorted, PageHistory, Cut, CursorText, CursorBefore, SearchQ, Get, PageCursor, CurrentCursorStr, Offset,
      Codec.Faithful;
    CursorReadsBack(c, s, limit, v, d);
    CursorTextFacts(c, s, d, limit);
    CutIsAscii(CursorText(c, Sorted(s), d, limit));
    forall e | 0 <= e < d
      ensures JsonStrings.Ascii(PageHistory(v)[e])
    {
      CursorTextFacts(c, s, e, limit);
    }
  }

  /** One click keeps the request on a page: the one an OFFSET pager would turn to. */
  lemma ClickTurns(c: Codec, table: Option<string> -> set<Key>, limit: nat, base: string,
                   q: Option<string>, v: Params, d: nat, click: Click)
    requires limit >= 1 && c.Faithful(table(q)) && OnPage(c, Sorted(table(q)), limit, q, v, d)
    ensures Plain(v)
    ensures OnPage(c, Sorted(table(q)), limit, q, Follow(c, table, limit, base, v, click),
                   Turn(d, |table(q)|, limit, click))
  {
    hide Sorted, PageHistory, Cut, CursorText, CursorBefore, SearchQ, PageAt, LinkParams, CurrentCursorStr, Plain,
      OnPage, Offset, Codec.Faithful, PageCursor;
    var s := table(q);
    OnPageHas(c, Sorted(s), limit, q, v, d);
    OnPageIsPlain(c, s, limit, q, v, d);
    PageIsOffsetSlice(s, d, limit);
    var p := PageAt(s, PageCursor(c, v), limit);
    PageFacts(s, PageCursor(c, v), limit);
    LastIffMore(s, PageCursor(c, v), limit);
    match click {
      case Next =>
        if p.hasMore {
          NextText(c, s, d, limit, p.last.value);
          CursorIsAscii(v);
          PlainHistory(v);
          NextIsOnPage(c, s, limit, q, v, d);
        }
      case Prev =>
        if d > 0 {
          PlainHistory(v);
          var hist := PageHistory(v);
          assert hist[..d - 1] + [hist[d - 1]] == hist;
          PrevIsOnPage(c, Sorted(s), limit, q, v, d - 1, hist[..d - 1], hist[d - 1]);
        }
    }
  }

  lemma OnPageHas(c: Codec, all: seq<Key>, limit: nat, q: Option<string>, v: Params, d: nat)
    requires OnPage(c, all, limit, q, v, d)
    ensures Offset(d, limit) <= |all| && SearchQ(v) == q && |PageHistory(v)| == d
    ensures StackIs(c, all, limit, PageHistory(v), d)
  {
    hide PageHistory, SearchQ, CursorIs, Offset, CursorText;
  }

  lemma PlainHistory(v: Params)
    requires Plain(v)
    ensures JsonStrings.AllAscii(PageHistory(v))
  {
  }

  lemma NextText(c: Codec, s: set<Key>, d: nat, limit: nat, last: Key)
    requires limit >= 1 && Offset(d + 1, limit) < |s| && At(last) == CursorBefore(Sorted(s), Offset(d + 1, limit))
    ensures CursorText(c, Sorted(s), d + 1, limit) == c.formatTs(last.ts) + "|" + c.formatId(last.id)
  {
    hide Sorted;
  }

  lemma NextIsOnPage(c: Codec, s: set<Key>, limit: nat, q: Option<string>, v: Params, d: nat)
    requires limit >= 1 && c.Faithful(s) && OnPage(c, Sorted(s), limit, q, v, d) && Plain(v)
    requires Offset(d + 1, limit) < |s|
    requires JsonStrings.AllAscii(PageHistory(v) + [CurrentCursorStr(v)])
    ensures OnPage(c, Sorted(s), limit, q,
                   LinkParams(CursorText(c, Sorted(s), d + 1, limit), PageHistory(v) + [CurrentCursorStr(v)], q), d + 1)
  {
    hide Sorted, PageHistory, Cut, CursorText, SearchQ, LinkParams, CurrentCursorStr, Plain, Offset, Get,
      Codec.Faithful;
    var all, hist := Sorted(s), PageHistory(v);
    OnPageIsPlain(c, s, limit, q, v, d);
    LinkReadsBack(CursorText(c, all, d + 1, limit), hist + [CurrentCursorStr(v)], q);
    SearchSurvives(v, LinkParams(CursorText(c, all, d + 1, limit), hist + [CurrentCursorStr(v)], q));
  }

  lemma OffsetStep(d: nat, limit: nat)
    requires d > 0
    ensures Offset(d, limit) == Offset(d - 1, limit) + limit
  {
  }

  /** The stack without its top is the stack of the page before, and the top is that page's cursor. */
  lemma StackPops(c: Codec, all: seq<Key>, limit: nat, below: seq<string>, top: string, d: nat)
    requires StackIs(c, all, limit, below + [top], d + 1)
    ensures StackIs(c, all, limit, below, d) && top == CursorText(c, all, d, limit)
  {
    hide CursorText;
    var hist := below + [top];
    assert hist[d] == top;
    assert forall e :: 0 <= e < d ==> below[e] == hist[e];
  }

  lemma PrevIsOnPage(c: Codec, all: seq<Key>, limit: nat, q: Option<string>, v: Params, d: nat,
                     below: seq<string>, top: string)
    requires StackIs(c, all, limit, below + [top], d + 1) && SearchQ(v) == q && Offset(d + 1, limit) <= |all|
    requires JsonStrings.AllAscii(below) && JsonStrings.Ascii(top)
    ensures OnPage(c, all, limit, q, LinkParams(top, below, q), d)
  {
    hide StackIs, PageHistory, Cut, CursorText, SearchQ, LinkParams, Get, Offset, JsonStrings.Ascii,
      JsonStrings.AllAscii;
    OffsetStep(d + 1, limit);
    StackPops(c, all, limit, below, top, d);
    LinkReadsBack(top, below, q);
    SearchSurvives(v, LinkParams(top, below, q));
  }

  /** The request after a sequence of clicks, and the page number of an OFFSET pager given the same clicks. */
  ghost function Browse(c: Codec, table: Option<string> -> set<Key>, limit: nat, base: string, q: Option<string>,
                        clicks: seq<Click>): (r: (Params, nat))
    requires limit >= 1 && c.Faithful(table(q)) && (q.Some? ==> TrimSpace(q.value) == q.value != "")
    ensures OnPage(c, Sorted(table(q)), limit, q, r.0, r.1) && Plain(r.0)
  {
    if clicks == [] then
      StartIsOnPage(c, table(q), limit, q);
      OnPageIsPlain(c, table(q), limit, q, Start(q), 0);
      (Start(q), 0)
    else
      var (v, d) := Browse(c, table, limit, base, q, clicks[..|clicks| - 1]);
      var click := clicks[|clicks| - 1];
      ClickTurns(c, table, limit, base, q, v, d, click);
      var w, e := Follow(c, table, limit, base, v, click), Turn(d, |table(q)|, limit, click);
      OnPageIsPlain(c, table(q), limit, q, w, e);
      (w, e)
  }

  /** The first request carries at most the search text. */
  function Start(q: Option<string>): Params {
    match q
    case None => map[]
    case Some(text) => map["q" := text]
  }

  lemma StartIsOnPage(c: Codec, s: set<Key>, limit: nat, q: Option<string>)
    requires q.Some? ==> TrimSpace(q.value) == q.value != ""
    ensures OnPage(c, Sorted(s), limit, q, Start(q), 0)
  {
    hide TrimSpace, Sorted, Cut;
    CutEmpty();
    TrimOfTrimmed("");
  }

  /**
   The pager refines OFFSET pagination: after any clicks, through real links, the page shown is
   the slice an OFFSET pager shows after the same clicks, its depth is the height of the cursor
   stack, Next is offered exactly when rows remain and Prev exactly when there is a page before.
   */
  lemma RefinesOffset(c: Codec, table: Option<string> -> set<Key>, limit: nat, base: string, q: Option<string>,
                      clicks: seq<Click>)
    requires limit >= 1 && c.Faithful(table(q)) && (q.Some? ==> TrimSpace(q.value) == q.value != "")
    ensures var (v, d) := Browse(c, table, limit, base, q, clicks);
            var r := Render(c, table, limit, base, v);
            && r.rows == Slice(Sorted(table(q)), d, limit)
            && |PageHistory(v)| == d
            && (r.links.next.Some? <==> (d + 1) * limit < |table(q)|)
            && (r.links.prev.Some? <==> d > 0)
  {
    hide Browse, Sorted, PageAt, PageHistory, Cut, CursorText, SearchQ, LinkParams, CursorBefore, Slice, OnPage, Offset,
      Codec.Faithful, Plain, PageCursor;
    var (v, d) := Browse(c, table, limit, base, q, clicks);
    OnPageHas(c, Sorted(table(q)), limit, q, v, d);
    OnPageIsPlain(c, table(q), limit, q, v, d);
    PageIsOffsetSlice(table(q), d, limit);
    PageFacts(table(q), PageCursor(c, v), limit);
    OffsetIsProduct(d, limit);
    OffsetIsProduct(d + 1, limit);
    LastIffMore(table(q), PageCursor(c, v), limit);
  }

  lemma LastIffMore(s: set<Key>, cur: Cursor, limit: nat)
    requires limit >= 1
    ensures PageAt(s, cur, limit).last.Some? <==> PageAt(s, cur, limit).hasMore
  {
    hide Query;
  }
}
