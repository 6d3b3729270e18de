/**
 JSON arrays of strings as encoding/json writes and reads them, for ASCII content. The
 reader accepts white space, every escape of an ASCII character, and null elements.
 */
module JsonStrings {
  import opened Strings
  import opened Wrappers

  predicate Ascii(s: string) { forall i :: 0 <= i < |s| ==> s[i] as int < 128 }

  predicate AllAscii(h: seq<string>) { forall i :: 0 <= i < |h| ==> Ascii(h[i]) }

  // ---- writing ----

  /** Control characters, quotes, backslashes and the HTML-sensitive characters are escaped. */
  function EscapeChar(c: char): (e: string)
    requires c as int < 128
    ensures Ascii(e) && forall i :: 0 <= i < |e| ==> e[i] as int >= 32 && e[i] !in {'<', '>', '&'}
  {
    if c == '\\' || c == '"' then ['\\', c]
    else if c as int == 8 then "\\b"
    else if c as int == 12 then "\\f"
    else if c == '\n' then "\\n"
    else if c == '\r' then "\\r"
    else if c == '\t' then "\\t"
    else if c as int < 32 || c == '<' || c == '>' || c == '&' then
      ['\\', 'u', '0', '0', HexDigit(c as int / 16), HexDigit(c as int % 16)]
    else [c]
  }

  function Escape(s: string): (e: string)
    requires Ascii(s)
    ensures Ascii(e) && forall i :: 0 <= i < |e| ==> e[i] as int >= 32 && e[i] !in {'<', '>', '&'}
  {
    if s == "" then "" else EscapeChar(s[0]) + Escape(s[1..])
  }

  function Quote(s: string): (e: string)
    requires Ascii(s)
    ensures Ascii(e)
  {
    "\"" + Escape(s) + "\""
  }

  function Elements(h: seq<string>): (e: string)
    requires h != [] && AllAscii(h)
    ensures Ascii(e)
  {
    if |h| == 1 then Quote(h[0]) else Quote(h[0]) + "," + Elements(h[1..])
  }

  function Marshal(h: seq<string>): (e: string)
    requires AllAscii(h)
    ensures Ascii(e) && e != ""
  {
    if h == [] then "[]" else "[" + Elements(h) + "]"
  }

  // ---- reading ----

  function HexVal(c: char): (v: Option<nat>)
    ensures v.Some? ==> v.value < 16
  {
    if '0' <= c <= '9' then Some(c as int - '0' as int)
    else if 'a' <= c <= 'f' then Some(c as int - 'a' as int + 10)
    else if 'A' <= c <= 'F' then Some(c as int - 'A' as int + 10)
    else None
  }

  /** One character of a string literal and what follows it; None at an invalid or non-ASCII one. */
  function ReadChar(s: string): (r: Option<(char, string)>)
    requires s != "" && s[0] != '"'
    ensures r.Some? ==> |r.value.1| < |s|
  {
    if s[0] != '\\' then
      if 32 <= s[0] as int < 128 then Some((s[0], s[1..])) else None
    else if |s| < 2 then None
    else if s[1] in {'"', '\\', '/'} then Some((s[1], s[2..]))
    else if s[1] == 'b' then Some((8 as char, s[2..]))
    else if s[1] == 'f' then Some((12 as char, s[2..]))
    else if s[1] == 'n' then Some(('\n', s[2..]))
    else if s[1] == 'r' then Some(('\r', s[2..]))
    else if s[1] == 't' then Some(('\t', s[2..]))
    else if s[1] == 'u' && |s| >= 6 then
      match (HexVal(s[2]), HexVal(s[3]), HexVal(s[4]), HexVal(s[5]))
      case (Some(a), Some(b), Some(c), Some(d)) =>
        var v := ((a * 16 + b) * 16 + c) * 16 + d;
        if v < 128 then Some((v as char, s[6..])) else None
      case _ => None
    else None
  }

  /** The rest of a string literal after its opening quote: the content and what follows. */
  function ReadString(s: string): (r: Option<(string, string)>)
    ensures r.Some? ==> |r.value.1| < |s|
    decreases |s|
  {
    if s == "" then None
    else if s[0] == '"' then Some(("", s[1..]))
    else
      match ReadChar(s)
      case None => None
      case Some((c, rest)) =>
        match ReadString(rest)
        case None => None
        case Some((t, after)) => Some(([c] + t, after))
  }

  function SkipSpace(s: string): (t: string)
    ensures |t| <= |s|
  {
    if s != "" && s[0] in {' ', '\t', '\n', '\r'} then SkipSpace(s[1..]) else s
  }

  /** A string, or null, which reads as the empty string. */
  function ReadElement(s: string): (r: Option<(string, string)>)
    ensures r.Some? ==> |r.value.1| < |s|
  {
    if s != "" && s[0] == '"' then ReadString(s[1..])
    else if "null" <= s then Some(("", s[4..]))
    else None
  }

  /** Elements up to and including the closing bracket. */
  function ReadElements(s: string): Option<(seq<string>, string)>
    decreases |s|
  {
    match ReadElement(SkipSpace(s))
    case None => None
    case Some((x, rest)) =>
      var t := SkipSpace(rest);
      if t == "" then None
      else if t[0] == ']' then Some(([x], t[1..]))
      else if t[0] != ',' then None
      else
        match ReadElements(t[1..])
        case None => None
        case Some((xs, after)) => Some(([x] + xs, after))
  }

  /** json.Unmarshal into a nil []string. */
  function Unmarshal(s: string): Option<seq<string>> {
    var t := SkipSpace(s);
    if "null" <= t && SkipSpace(t[4..]) == "" then Some([])
    else if t == "" || t[0] != '[' then None
    else
      var u := SkipSpace(t[1..]);
      if u != "" && u[0] == ']' then (if SkipSpace(u[1..]) == "" then Some([]) else None)
      else
        match ReadElements(t[1..])
        case None => None
        case Some((h, after)) => if SkipSpace(after) == "" then Some(h) else None
  }

  // ---- round trip ----

  lemma ReadEscapedChar(c: char, rest: string)
    requires c as int < 128
    ensures EscapeChar(c) != "" && EscapeChar(c)[0] != '"'
    ensures ReadChar(EscapeChar(c) + rest) == Some((c, rest))
  {
    var s := EscapeChar(c) + rest;
    assert s[|EscapeChar(c)|..] == rest;
  }

  lemma ReadStep(s: string, c: char, rest: string)
    requires s != "" && s[0] != '"' && ReadChar(s) == Some((c, rest))
    ensures ReadString(s) ==
            match ReadString(rest)
            case None => None
            case Some((t, after)) => Some(([c] + t, after))
  {
    hide ReadChar;
  }

  lemma ReadEnd(rest: string)
    ensures ReadString("\"" + rest) == Some(("", rest))
  {
    assert ("\"" + rest)[1..] == rest;
  }

  lemma EscapeStep(x: string)
    requires Ascii(x) && x != ""
    ensures Ascii(x[1..]) && Escape(x) == EscapeChar(x[0]) + Escape(x[1..])
  {
    hide EscapeChar;
  }

  lemma {:induction false} ReadEscaped(x: string, rest: string)
    requires Ascii(x)
    ensures ReadString(Escape(x) + "\"" + rest) == Some((x, rest))
  {
    hide EscapeChar, ReadChar, ReadString, Escape;
    if x == "" {
      ReadEnd(rest);
      EscapeNothing();
      assert "" + "\"" + rest == "\"" + rest;
    } else {
      var tail := Escape(x[1..]) + "\"" + rest;
      ReadEscapedChar(x[0], tail);
      ReadEscaped(x[1..], rest);
      EscapeStep(x);
      assert Escape(x) + "\"" + rest == EscapeChar(x[0]) + tail;
      ReadStep(EscapeChar(x[0]) + tail, x[0], tail);
      assert x == [x[0]] + x[1..];
    }
  }

  lemma EscapeNothing()
    ensures Escape("") == ""
  {
  }

  lemma ReadQuoted(x: string, rest: string)
    requires Ascii(x)
    ensures SkipSpace(Quote(x) + rest) == Quote(x) + rest
    ensures ReadElement(Quote(x) + rest) == Some((x, rest))
  {
    hide Escape, ReadString;
    ReadEscaped(x, rest);
    assert (Quote(x) + rest)[1..] == Escape(x) + "\"" + rest;
  }

  lemma SeparatorStays(c: char, rest: string)
    requires c in {',', ']'}
    ensures SkipSpace([c] + rest) == [c] + rest
  {
  }

  lemma {:induction false} ReadMarshalled(h: seq<string>, rest: string)
    requires h != [] && AllAscii(h)
    ensures ReadElements(Elements(h) + "]" + rest) == Some((h, rest))
  {
    hide Quote, ReadElement, SkipSpace;
    SeparatorStays(']', rest);
    if |h| == 1 {
      ReadQuoted(h[0], "]" + rest);
      assert Elements(h) + "]" + rest == Quote(h[0]) + ("]" + rest);
      assert ("]" + rest)[1..] == rest && "]" + rest == [']'] + rest;
      assert h == [h[0]];
    } else {
      var tail := "," + (Elements(h[1..]) + "]" + rest);
      ReadQuoted(h[0], tail);
      SeparatorStays(',', Elements(h[1..]) + "]" + rest);
      assert Elements(h) + "]" + rest == Quote(h[0]) + tail;
      assert tail[1..] == Elements(h[1..]) + "]" + rest;
      ReadMarshalled(h[1..], rest);
      assert h == [h[0]] + h[1..];
    }
  }

  lemma ElementsStart(h: seq<string>)
    requires h != [] && AllAscii(h)
    ensures Elements(h) != "" && Elements(h)[0] == '"'
  {
    hide Escape;
  }

  /** A marshalled list reads back whatever blanks follow it, and not when anything else does. */
  lemma RoundTripAnd(h: seq<string>, rest: string)
    requires AllAscii(h)
    ensures Unmarshal(Marshal(h) + rest) ==
            if forall i :: 0 <= i < |rest| ==> rest[i] in {' ', '\t', '\n', '\r'} then Some(h) else None
  {
    hide Elements, ReadElements, SkipSpace, Unmarshal;
    OnlyBlanksSkip(rest);
    if h == [] {
      EmptyAnd(rest);
    } else {
      ReadMarshalled(h, rest);
      ElementsStart(h);
      ElementsAnd(Elements(h), h, rest);
      assert Marshal(h) + rest == "[" + (Elements(h) + "]" + rest);
    }
  }

  /** null reads as an empty list, and as an element as the empty string. */
  lemma NullsRead(rest: string)
    ensures Unmarshal("null") == Some([])
    ensures ReadElement("null" + rest) == Some(("", rest))
  {
    hide ReadElements;
    assert "null"[4..] == "" && ("null" + rest)[4..] == rest;
  }

  lemma EmptyAnd(rest: string)
    ensures Unmarshal("[]" + rest) == if SkipSpace(rest) == "" then Some([]) else None
  {
    hide ReadElements, SkipSpace, Unmarshal;
    UnmarshalArray("[]" + rest);
    SeparatorStays(']', rest);
    assert ("[]" + rest)[1..] == [']'] + rest && ([']'] + rest)[1..] == rest;
  }

  lemma ElementsAnd(e: string, h: seq<string>, rest: string)
    requires e != "" && e[0] == '"' && ReadElements(e + "]" + rest) == Some((h, rest))
    ensures Unmarshal("[" + (e + "]" + rest)) == if SkipSpace(rest) == "" then Some(h) else None
  {
    hide ReadElements, SkipSpace, Unmarshal;
    var t := e + "]" + rest;
    assert t[0] == '"' && ("[" + t)[1..] == t;
    DenseStays(t);
    UnmarshalArray("[" + t);
  }

  lemma DenseStays(t: string)
    requires t != "" && t[0] == '"'
    ensures SkipSpace(t) == t
  {
  }

  lemma UnmarshalArray(s: string)
    requires s != "" && s[0] == '['
    ensures Unmarshal(s) ==
            var u := SkipSpace(s[1..]);
            if u != "" && u[0] == ']' then (if SkipSpace(u[1..]) == "" then Some([]) else None)
            else
              match ReadElements(s[1..])
              case None => None
              case Some((h, after)) => if SkipSpace(after) == "" then Some(h) else None
  {
    hide ReadElements;
    assert SkipSpace(s) == s;
    hide SkipSpace;
  }

  lemma {:induction false} OnlyBlanksSkip(rest: string)
    ensures SkipSpace(rest) == "" <==> forall i :: 0 <= i < |rest| ==> rest[i] in {' ', '\t', '\n', '\r'}
  {
    if rest == "" {
    } else {
      OnlyBlanksSkip(rest[1..]);
      assert (forall i :: 0 <= i < |rest| ==> rest[i] in {' ', '\t', '\n', '\r'}) <==>
        rest[0] in {' ', '\t', '\n', '\r'}
        && forall i :: 0 <= i < |rest[1..]| ==> rest[1..][i] in {' ', '\t', '\n', '\r'}
      by {
        assert forall i :: 1 <= i < |rest| ==> rest[i] == rest[1..][i - 1];
      }
    }
  }

  lemma RoundTrip(h: seq<string>)
    requires AllAscii(h)
    ensures Unmarshal(Marshal(h)) == Some(h)
  {
    hide Marshal, Unmarshal;
    RoundTripAnd(h, "");
    assert Marshal(h) + "" == Marshal(h);
  }
}
