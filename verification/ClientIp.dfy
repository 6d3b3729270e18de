/**
 The client address the limiter is keyed by, and what the two guarantee together. One
 X-Forwarded-For line is modelled; the host part of the peer address comes from
 net.SplitHostPort as an input.
 */
module ClientIp {
  import opened RateLimiter
  import opened RateLimiterRuns
  import opened Strings
  import opened Wrappers

  datatype Proxying = Proxying(trust: bool, hops: int)

  datatype Request = Request(cfConnectingIp: string, xForwardedFor: string, remoteAddr: string, host: Option<string>)

  /** strings.Split: always at least one part. */
  function Split(s: string, sep: char): (parts: seq<string>)
    ensures |parts| >= 1
  {
    match Index(s, sep)
    case None => [s]
    case Some(i) => [s[..i]] + Split(s[i + 1..], sep)
  }

  function Join(parts: seq<string>, sep: char): string {
    if parts == [] then ""
    else if |parts| == 1 then parts[0]
    else parts[0] + [sep] + Join(parts[1..], sep)
  }

  /** At least one hop; with fewer entries than hops, the left-most there is. */
  function Hops(p: Proxying, entries: nat): (h: nat)
    requires entries >= 1
    ensures 1 <= h <= entries
  {
    var h := if p.hops > 1 then p.hops else 1;
    if h < entries then h else entries
  }

  function PeerAddress(r: Request): string {
    match r.host
    case None => r.remoteAddr
    case Some(host) => host
  }

  function ClientIP(p: Proxying, r: Request): string {
    if !p.trust then PeerAddress(r)
    else if TrimSpace(r.cfConnectingIp) != "" then TrimSpace(r.cfConnectingIp)
    else if r.xForwardedFor == "" then PeerAddress(r)
    else
      var parts := Split(r.xForwardedFor, ',');
      var ip := TrimSpace(parts[|parts| - Hops(p, |parts|)]);
      if ip != "" then ip else PeerAddress(r)
  }

  // ---- splitting a header ----

  lemma Regroup(a: string, i: nat, sep: char, b: string)
    requires i < |a| && a[i] == sep
    ensures a + [sep] + b == a[..i] + [sep] + (a[i + 1..] + [sep] + b)
  {
    assert a == a[..i] + [sep] + a[i + 1..];
  }

  lemma SplitAt(a: string, sep: char, b: string)
    requires sep !in a
    ensures Split(a + [sep] + b, sep) == [a] + Split(b, sep)
  {
    hide Index;
    IndexAt(a, sep, b);
    var s := a + [sep] + b;
    assert s[..|a|] == a && s[|a| + 1..] == b;
  }

  lemma SplitStep(a: string, sep: char)
    ensures Split(a, sep) ==
            match Index(a, sep)
            case None => [a]
            case Some(i) => [a[..i]] + Split(a[i + 1..], sep)
  {
    hide Index;
  }

  lemma {:induction false} SplitConcat(a: string, sep: char, b: string)
    ensures Split(a + [sep] + b, sep) == Split(a, sep) + Split(b, sep)
    decreases |a|
  {
    hide Index, Split;
    SplitStep(a, sep);
    match Index(a, sep)
    case None =>
      SplitAt(a, sep, b);
    case Some(i) =>
      var rest := a[i + 1..];
      Regroup(a, i, sep, b);
      SplitAt(a[..i], sep, rest + [sep] + b);
      SplitConcat(rest, sep, b);
      assert [a[..i]] + (Split(rest, sep) + Split(b, sep)) == [a[..i]] + Split(rest, sep) + Split(b, sep);
  }

  lemma SplitWhole(s: string, sep: char)
    requires sep !in s
    ensures Split(s, sep) == [s]
  {
  }

  lemma {:induction false} SplitJoin(parts: seq<string>, sep: char)
    requires parts != [] && forall i :: 0 <= i < |parts| ==> sep !in parts[i]
    ensures Split(Join(parts, sep), sep) == parts
  {
    hide Split;
    SplitWhole(parts[0], sep);
    if |parts| == 1 {
    } else {
      SplitJoin(parts[1..], sep);
      SplitConcat(parts[0], sep, Join(parts[1..], sep));
    }
  }

  // ---- the key, completely ----

  /** Without trusted headers the key is the peer's host, whatever the headers and the port, or the address. */
  lemma UntrustedKey(p: Proxying, r: Request)
    requires !p.trust
    ensures r.host.Some? ==> ClientIP(p, r) == r.host.value
    ensures r.host.None? ==> ClientIP(p, r) == r.remoteAddr
  {
  }

  /** With trusted headers, in the order they are looked at, down to the same fallback. */
  lemma TrustedKey(p: Proxying, r: Request, parts: seq<string>)
    requires p.trust && parts != [] && forall i :: 0 <= i < |parts| ==> ',' !in parts[i]
    requires r.xForwardedFor == Join(parts, ',')
    ensures TrimSpace(r.cfConnectingIp) != "" ==> ClientIP(p, r) == TrimSpace(r.cfConnectingIp)
    ensures TrimSpace(r.cfConnectingIp) == "" ==>
              var wanted := if p.hops > 1 then p.hops else 1;
              var entry := TrimSpace(if wanted < |parts| then parts[|parts| - wanted] else parts[0]);
              ClientIP(p, r) == if entry != "" then entry else if r.host.Some? then r.host.value else r.remoteAddr
  {
    hide Split, Join, TrimSpace;
    SplitJoin(parts, ',');
    if r.xForwardedFor == "" {
      BlankSplits();
    }
  }

  // ---- what the proxies wrote ----

  /** A header as it arrives: what the client sent, if anything, and the entries proxies appended. */
  function Header(sent: Option<string>, entries: seq<string>): string {
    match sent
    case None => Join(entries, ',')
    case Some(prefix) => if entries == [] then prefix else prefix + "," + Join(entries, ',')
  }

  /** Entries as proxies write them: single addresses, not blank. */
  predicate Appended(entries: seq<string>) {
    forall i :: 0 <= i < |entries| ==> ',' !in entries[i] && TrimSpace(entries[i]) != ""
  }

  /** A request through a trusting server, no CF-Connecting-IP header arriving. */
  predicate Forwarded(p: Proxying, r: Request, sent: Option<string>, entries: seq<string>) {
    && p.trust && TrimSpace(r.cfConnectingIp) == ""
    && r.xForwardedFor == Header(sent, entries)
  }

  lemma SplitHeader(sent: Option<string>, entries: seq<string>)
    requires Appended(entries) && entries != []
    ensures Split(Header(sent, entries), ',') ==
            (if sent.Some? then Split(sent.value, ',') else []) + entries
  {
    hide Split, Join, TrimSpace;
    SplitJoin(entries, ',');
    if sent.Some? {
      SplitConcat(sent.value, ',', Join(entries, ','));
      assert sent.value + "," + Join(entries, ',') == sent.value + [','] + Join(entries, ',');
    }
  }

  lemma BlankSplits()
    ensures Split("", ',') == [""] && TrimSpace("") == ""
  {
  }

  /**
   With enough appended entries, and no CF-Connecting-IP, the address is the hops-th entry from the
   right, whatever X-Forwarded-For the client sent.
   */
  lemma AppendedEntryWins(p: Proxying, r: Request, sent: Option<string>, entries: seq<string>)
    requires Forwarded(p, r, sent, entries) && Appended(entries)
    requires entries != [] && |entries| >= p.hops
    ensures ClientIP(p, r) == TrimSpace(entries[|entries| - if p.hops > 1 then p.hops else 1])
  {
    hide Split, TrimSpace, Header;
    SplitHeader(sent, entries);
    var parts := Split(r.xForwardedFor, ',');
    var k := |parts| - |entries|;
    assert parts[k..] == entries;
    var h := Hops(p, |entries|);
    assert Hops(p, |parts|) == h;
    assert parts[|parts| - h] == entries[|entries| - h];
    if r.xForwardedFor == "" {
      BlankSplits();
    }
  }

  /** With exactly the configured number of proxies, and no CF-Connecting-IP, it is the address the first proxy saw. */
  lemma FirstProxyDecides(p: Proxying, r: Request, sent: Option<string>, entries: seq<string>)
    requires Forwarded(p, r, sent, entries) && Appended(entries)
    requires entries != [] && |entries| == p.hops
    ensures ClientIP(p, r) == TrimSpace(entries[0])
  {
    hide TrimSpace, Header, Appended;
    AppendedEntryWins(p, r, sent, entries);
  }

  /** A CF-Connecting-IP that arrives at a trusting server is the key, before anything else is read. */
  lemma CloudflareHeaderWins(p: Proxying, r: Request, key: string)
    requires p.trust && key != "" && TrimSpace(key) == key
    ensures ClientIP(p, r.(cfConnectingIp := key)) == key
  {
  }

  /** Who writes the CF-Connecting-IP that arrives: the edge, with this value (empty for none), or the client. */
  datatype CfHeader = ByEdge(value: string) | ByClient

  /** A request as the server may receive it, the proxies having appended the entries. */
  predicate Arrives(r: Request, cf: CfHeader, sent: Option<string>, entries: seq<string>) {
    && (cf.ByEdge? ==> r.cfConnectingIp == cf.value)
    && r.xForwardedFor == Header(sent, entries)
  }

  /** The key is the same whatever the client puts in the headers that reach the server from it. */
  ghost predicate ClientProof(p: Proxying, cf: CfHeader, entries: seq<string>) {
    forall r, sent, r', sent' ::
      Arrives(r, cf, sent, entries) && Arrives(r', cf, sent', entries)
      && PeerAddress(r) == PeerAddress(r') ==>
        ClientIP(p, r) == ClientIP(p, r')
  }

  function NeededHops(p: Proxying): int { if p.hops > 1 then p.hops else 1 }

  /**
   The exact condition: the client cannot influence the key if and only if headers are not trusted,
   or the edge writes CF-Connecting-IP and either sets it or at least the needed entries are appended.
   */
  lemma ClientProofExactly(p: Proxying, cf: CfHeader, entries: seq<string>)
    requires Appended(entries)
    ensures ClientProof(p, cf, entries)
            <==> !p.trust || (cf.ByEdge? && (TrimSpace(cf.value) != "" || |entries| >= NeededHops(p)))
  {
    hide TrimSpace, Header, Appended;
    if !p.trust {
    } else if cf.ByClient? {
      ClientHeaderShows(p, entries);
    } else if TrimSpace(cf.value) != "" {
    } else if |entries| >= NeededHops(p) {
      forall r, sent, r', sent' |
        Arrives(r, cf, sent, entries) && Arrives(r', cf, sent', entries)
        && PeerAddress(r) == PeerAddress(r')
        ensures ClientIP(p, r) == ClientIP(p, r')
      {
        AppendedEntryWins(p, r, sent, entries);
        AppendedEntryWins(p, r', sent', entries);
      }
    } else {
      ShortChainShows(p, cf.value, entries);
    }
  }

  lemma ClientHeaderShows(p: Proxying, entries: seq<string>)
    requires p.trust
    ensures !ClientProof(p, ByClient, entries)
  {
    hide TrimSpace, Header;
    var r := Request("", Header(None, entries), "", None);
    var r1, r2 := r.(cfConnectingIp := "x"), r.(cfConnectingIp := "y");
    LetterIsTrimmed("x");
    LetterIsTrimmed("y");
    CloudflareHeaderWins(p, r, "x");
    CloudflareHeaderWins(p, r, "y");
    hide ClientIP;
    assert Arrives(r1, ByClient, None, entries) && Arrives(r2, ByClient, None, entries);
  }

  lemma ShortChainShows(p: Proxying, cf: string, entries: seq<string>)
    requires p.trust && Appended(entries) && |entries| < NeededHops(p) && TrimSpace(cf) == ""
    ensures !ClientProof(p, ByEdge(cf), entries)
  {
    hide TrimSpace, Header, Appended, ClientIP;
    var r, r' := Sent("x", cf, entries), Sent("y", cf, entries);
    ShortChainShowsPrefix(p, "x", cf, entries);
    ShortChainShowsPrefix(p, "y", cf, entries);
    assert Arrives(r, ByEdge(cf), Some("x"), entries) && Arrives(r', ByEdge(cf), Some("y"), entries);
  }

  function Sent(prefix: string, cf: string, entries: seq<string>): Request {
    Request(cf, Header(Some(prefix), entries), "", None)
  }

  lemma ShortChainShowsPrefix(p: Proxying, prefix: string, cf: string, entries: seq<string>)
    requires p.trust && Appended(entries) && |entries| < NeededHops(p) && TrimSpace(cf) == ""
    requires |prefix| == 1 && prefix[0] in {'x', 'y'}
    ensures ClientIP(p, Sent(prefix, cf, entries)) == prefix
  {
    hide Split, TrimSpace, IsSpace;
    var r := Sent(prefix, cf, entries);
    BlankSplits();
    LetterIsTrimmed(prefix);
    SplitWhole(prefix, ',');
    if entries != [] {
      SplitHeader(Some(prefix), entries);
    }
    hide Join;
    assert Split(r.xForwardedFor, ',') == [prefix] + entries;
    assert r.xForwardedFor != "";
  }

  lemma LetterIsTrimmed(s: string)
    requires |s| == 1 && s[0] in {'x', 'y'}
    ensures TrimSpace(s) == s
  {
    TrimOfTrimmed(s);
  }

  // ---- the limiter bounds the peer ----

  datatype Arrival = Arrival(request: Request, now: int)

  /** The limiter calls a stream of requests makes. */
  function Keyed(p: Proxying, stream: seq<Arrival>): (calls: seq<Call>)
    ensures |calls| == |stream|
    ensures forall i :: 0 <= i < |stream| ==> calls[i] == Call(ClientIP(p, stream[i].request), stream[i].now)
  {
    seq(|stream|, i requires 0 <= i < |stream| => Call(ClientIP(p, stream[i].request), stream[i].now))
  }

  /** How many requests of a set of positions are admitted at times in [x, x + width). */
  function AdmittedOf(c: Config, calls: seq<Call>, mine: set<int>, x: int, width: int): nat {
    if calls == [] then 0
    else
      var before, y := calls[..|calls| - 1], calls[|calls| - 1];
      AdmittedOf(c, before, mine, x, width)
      + if |before| in mine && Admits(c, before, y) && x <= y.now < x + width then 1 else 0
  }

  lemma {:induction false} MineAreAmongTheKey(c: Config, calls: seq<Call>, mine: set<int>, key: string,
                                              x: int, width: int)
    requires forall i :: 0 <= i < |calls| && i in mine ==> calls[i].key == key
    ensures AdmittedOf(c, calls, mine, x, width) <= CountIn(Admitted(c, calls, key), x, width)
  {
    hide Admits, Admitted, CountIn;
    if calls == [] {
    } else {
      var before, y := calls[..|calls| - 1], calls[|calls| - 1];
      MineAreAmongTheKey(c, before, mine, key, x, width);
      var a := Admitted(c, before, key);
      assert calls == before + [y];
      AdmittedStep(c, before, y, key);
      assert a + [] == a;
      CountStep(a, y.now, x, width);
    }
  }

  lemma CountStep(a: seq<int>, t: int, x: int, width: int)
    ensures CountIn(a + [t], x, width) == CountIn(a, x, width) + if x <= t < x + width then 1 else 0
  {
    assert (a + [t])[..|a|] == a;
  }

  /**
   The address a request is attributed to: the CF-Connecting-IP that arrives; or, none arriving, what
   the first proxy saw; or the peer's host, where headers are not trusted or none arrives.
   */
  predicate AttributedTo(p: Proxying, r: Request, sent: Option<string>, entries: seq<string>, ip: string) {
    || (p.trust && TrimSpace(r.cfConnectingIp) != "" && TrimSpace(r.cfConnectingIp) == ip)
    || (Forwarded(p, r, sent, entries) && Appended(entries) && 1 <= |entries| == p.hops && TrimSpace(entries[0]) == ip)
    || ((!p.trust || (TrimSpace(r.cfConnectingIp) == "" && r.xForwardedFor == "")) && r.host == Some(ip))
  }

  lemma AppendedIsSome(sent: Option<string>, entries: seq<string>)
    requires Appended(entries) && entries != []
    ensures Header(sent, entries) != ""
  {
    hide Join, TrimSpace;
    if sent.None? {
      JoinedIsSome(entries);
    }
  }

  lemma JoinedIsSome(entries: seq<string>)
    requires Appended(entries) && entries != []
    ensures Join(entries, ',') != ""
  {
    if Join(entries, ',') == "" {
      BlankSplits();
    }
  }

  lemma AttributionDecides(p: Proxying, r: Request, sent: Option<string>, entries: seq<string>, ip: string)
    requires AttributedTo(p, r, sent, entries, ip)
    ensures ClientIP(p, r) == ip
  {
    hide TrimSpace, Header, Appended, Split, Hops;
    if Forwarded(p, r, sent, entries) && Appended(entries) && 1 <= |entries| == p.hops {
      FirstProxyDecides(p, r, sent, entries);
      AppendedIsSome(sent, entries);
    }
  }

  /**
   End to end: in any stream of requests, those attributed to the same address, by the
   CF-Connecting-IP that arrives, by the first trusted proxy, or by the connection itself, are together
   admitted at most limit times in any window, whatever X-Forwarded-For prefixes and ports they rotate.
   */
  lemma PeerIsBounded(c: Config, p: Proxying, stream: seq<Arrival>, ip: string, mine: set<int>,
                      sent: int -> Option<string>, entries: int -> seq<string>, x: int)
    requires c.Sensible()
    requires forall i, j :: 0 <= i < j < |stream| ==> stream[i].now <= stream[j].now
    requires forall i :: 0 <= i < |stream| && i in mine ==>
               AttributedTo(p, stream[i].request, sent(i), entries(i), ip)
    ensures AdmittedOf(c, Keyed(p, stream), mine, x, c.window) <= c.limit
  {
    hide AttributedTo;
    var calls := Keyed(p, stream);
    forall i | 0 <= i < |calls| && i in mine
      ensures calls[i].key == ip
    {
      AttributionDecides(p, stream[i].request, sent(i), entries(i), ip);
    }
    hide ClientIP, Keyed, Admitted, AdmittedOf, Forwarded, Appended, TrimSpace;
    MineAreAmongTheKey(c, calls, mine, ip, x, c.window);
    AtMostLimitPerWindow(c, calls, ip, x);
  }
}
