/** The unpadded base64url encoding of section 5 of RFC 4648, over strings of byte-valued characters. */
module Base64Url {
  import opened Wrappers

  predicate Bytes(s: string) { forall i :: 0 <= i < |s| ==> s[i] as int < 256 }

  function Sym(v: nat): char
    requires v < 64
  {
    if v < 26 then ('A' as int + v) as char
    else if v < 52 then ('a' as int + v - 26) as char
    else if v < 62 then ('0' as int + v - 52) as char
    else if v == 62 then '-' else '_'
  }

  function Val(c: char): (v: Option<nat>)
    ensures v.Some? ==> v.value < 64
  {
    if 'A' <= c <= 'Z' then Some(c as int - 'A' as int)
    else if 'a' <= c <= 'z' then Some(c as int - 'a' as int + 26)
    else if '0' <= c <= '9' then Some(c as int - '0' as int + 52)
    else if c == '-' then Some(62)
    else if c == '_' then Some(63)
    else None
  }

  function Encode(s: string): (e: string)
    requires Bytes(s)
    ensures forall i :: 0 <= i < |e| ==> Val(e[i]).Some?
    ensures s != "" ==> e != ""
  {
    if s == "" then ""
    else
      var b0 := s[0] as int;
      if |s| == 1 then [Sym(b0 / 4), Sym(b0 % 4 * 16)]
      else
        var b1 := s[1] as int;
        if |s| == 2 then [Sym(b0 / 4), Sym(b0 % 4 * 16 + b1 / 16), Sym(b1 % 16 * 4)]
        else
          var b2 := s[2] as int;
          [Sym(b0 / 4), Sym(b0 % 4 * 16 + b1 / 16), Sym(b1 % 16 * 4 + b2 / 64), Sym(b2 % 64)] + Encode(s[3..])
  }

  function First(v0: nat, v1: nat): char
    requires v0 < 64 && v1 < 64
  {
    (v0 * 4 + v1 / 16) as char
  }

  function Second(v1: nat, v2: nat): char
    requires v1 < 64 && v2 < 64
  {
    (v1 % 16 * 16 + v2 / 4) as char
  }

  function Third(v2: nat, v3: nat): char
    requires v2 < 64 && v3 < 64
  {
    (v2 % 4 * 64 + v3) as char
  }

  /** Quanta of four symbols, the last possibly short; trailing bits are not checked, as the library does not. */
  function DecodeQuanta(s: string): Option<string> {
    if s == "" then Some("")
    else if |s| == 1 then None
    else
      match (Val(s[0]), Val(s[1]))
      case (Some(v0), Some(v1)) =>
        if |s| == 2 then Some([First(v0, v1)])
        else (
          match Val(s[2])
          case None => None
          case Some(v2) =>
            if |s| == 3 then Some([First(v0, v1), Second(v1, v2)])
            else
              match (Val(s[3]), DecodeQuanta(s[4..]))
              case (Some(v3), Some(rest)) => Some([First(v0, v1), Second(v1, v2), Third(v2, v3)] + rest)
              case _ => None
        )
      case _ => None
  }

  /** Line breaks are ignored wherever they occur. */
  function WithoutBreaks(s: string): string {
    if s == "" then ""
    else (if s[0] == '\r' || s[0] == '\n' then "" else [s[0]]) + WithoutBreaks(s[1..])
  }

  function Decode(s: string): Option<string> { DecodeQuanta(WithoutBreaks(s)) }

  lemma ValOfSym(v: nat)
    requires v < 64
    ensures Val(Sym(v)) == Some(v)
  {
  }

  lemma {:induction false} SymbolsAreKept(s: string)
    requires forall i :: 0 <= i < |s| ==> Val(s[i]).Some?
    ensures WithoutBreaks(s) == s
  {
    if s == "" {
    } else {
      SymbolsAreKept(s[1..]);
    }
  }

  lemma Regroup(b0: nat, b1: nat, b2: nat)
    requires b0 < 256 && b1 < 256 && b2 < 256
    ensures (b0 / 4) * 4 + (b0 % 4 * 16 + b1 / 16) / 16 == b0
    ensures (b0 % 4 * 16 + b1 / 16) % 16 * 16 + (b1 % 16 * 4 + b2 / 64) / 4 == b1
    ensures (b1 % 16 * 4 + b2 / 64) % 4 * 64 + b2 % 64 == b2
  {
  }

  lemma DecodeFour(v0: nat, v1: nat, v2: nat, v3: nat, rest: string)
    requires v0 < 64 && v1 < 64 && v2 < 64 && v3 < 64
    ensures DecodeQuanta([Sym(v0), Sym(v1), Sym(v2), Sym(v3)] + rest) ==
            match DecodeQuanta(rest)
            case None => None
            case Some(t) => Some([First(v0, v1), Second(v1, v2), Third(v2, v3)] + t)
  {
    hide Sym, Val, First, Second, Third;
    ValOfSym(v0);
    ValOfSym(v1);
    ValOfSym(v2);
    ValOfSym(v3);
    assert ([Sym(v0), Sym(v1), Sym(v2), Sym(v3)] + rest)[4..] == rest;
  }

  lemma DecodeShort(v0: nat, v1: nat, v2: nat)
    requires v0 < 64 && v1 < 64 && v2 < 64
    ensures DecodeQuanta([Sym(v0), Sym(v1)]) == Some([First(v0, v1)])
    ensures DecodeQuanta([Sym(v0), Sym(v1), Sym(v2)]) == Some([First(v0, v1), Second(v1, v2)])
  {
    hide Sym, Val, First, Second;
    ValOfSym(v0);
    ValOfSym(v1);
    ValOfSym(v2);
  }

  lemma {:induction false} QuantaRoundTrip(s: string)
    requires Bytes(s)
    ensures DecodeQuanta(Encode(s)) == Some(s)
  {
    hide Sym, Val, DecodeQuanta;
    if s == "" {
      DecodeNothing();
      return;
    }
    var b0 := s[0] as int;
    if |s| == 1 {
      Regroup(b0, 0, 0);
      DecodeShort(b0 / 4, b0 % 4 * 16, 0);
      assert s == [s[0]];
    } else if |s| == 2 {
      var b1 := s[1] as int;
      Regroup(b0, b1, 0);
      DecodeShort(b0 / 4, b0 % 4 * 16 + b1 / 16, b1 % 16 * 4);
      assert s == [s[0], s[1]];
    } else {
      var b1, b2 := s[1] as int, s[2] as int;
      Regroup(b0, b1, b2);
      QuantaRoundTrip(s[3..]);
      DecodeFour(b0 / 4, b0 % 4 * 16 + b1 / 16, b1 % 16 * 4 + b2 / 64, b2 % 64, Encode(s[3..]));
      assert s == [s[0], s[1], s[2]] + s[3..];
    }
  }

  lemma DecodeNothing()
    ensures DecodeQuanta("") == Some("")
  {
  }

  lemma RoundTrip(s: string)
    requires Bytes(s)
    ensures Decode(Encode(s)) == Some(s)
  {
    hide DecodeQuanta, Encode, WithoutBreaks;
    SymbolsAreKept(Encode(s));
    QuantaRoundTrip(s);
  }

  // ---- the encoding itself ----

  predicate UrlSafe(c: char) { 'A' <= c <= 'Z' || 'a' <= c <= 'z' || '0' <= c <= '9' || c == '-' || c == '_' }

  /** Encoded text needs no escaping in a URL, and has no padding: four symbols for three bytes, rounded up. */
  lemma {:induction false} EncodedIsUrlSafe(s: string)
    requires Bytes(s)
    ensures forall i :: 0 <= i < |Encode(s)| ==> UrlSafe(Encode(s)[i])
    ensures |Encode(s)| == (4 * |s| + 2) / 3
  {
    hide Sym;
    assert forall i :: 0 <= i < |Encode(s)| ==> Val(Encode(s)[i]).Some?;
    hide Val;
    forall c | Val(c).Some?
      ensures UrlSafe(c)
    {
      SymbolsAreUrlSafe(c);
    }
    if |s| <= 2 {
    } else {
      EncodedIsUrlSafe(s[3..]);
    }
  }

  lemma SymbolsAreUrlSafe(c: char)
    ensures Val(c).Some? <==> UrlSafe(c)
  {
  }

  /** Vectors of section 10 of RFC 4648, and the two symbols particular to this alphabet. */
  lemma Vectors()
    ensures Encode("f") == "Zg" && Encode("fo") == "Zm8" && Encode("foo") == "Zm9v"
    ensures Encode([0xfb as char, 0xff as char]) == "-_8"
  {
    hide Encode, Sym;
    EncodeShort('f', 'o', 'o');
    EncodeShort(0xfb as char, 0xff as char, 'o');
    SomeSymbols();
    assert "f" == ['f'] && "fo" == ['f', 'o'] && "foo" == ['f', 'o', 'o'];
  }

  lemma EncodeShort(a: char, b: char, c: char)
    requires a as int < 256 && b as int < 256 && c as int < 256
    ensures Encode([a]) == [Sym(a as int / 4), Sym(a as int % 4 * 16)]
    ensures Encode([a, b]) == [Sym(a as int / 4), Sym(a as int % 4 * 16 + b as int / 16), Sym(b as int % 16 * 4)]
    ensures Encode([a, b, c]) == [Sym(a as int / 4), Sym(a as int % 4 * 16 + b as int / 16),
                                  Sym(b as int % 16 * 4 + c as int / 64), Sym(c as int % 64)]
  {
    hide Sym;
    assert [a, b, c][3..] == "";
  }

  lemma SomeSymbols()
    ensures Sym(25) == 'Z' && Sym(32) == 'g' && Sym(38) == 'm' && Sym(60) == '8' && Sym(61) == '9' && Sym(47) == 'v'
    ensures Sym(62) == '-' && Sym(63) == '_'
  {
  }

  function Unbroken(s: string): string {
    if s == "" then "" else Unbroken(s[..|s| - 1]) + if s[|s| - 1] in {'\r', '\n'} then "" else [s[|s| - 1]]
  }

  lemma {:induction false} BreaksGo(s: string, x: char)
    ensures WithoutBreaks(s + [x]) == WithoutBreaks(s) + if x == '\r' || x == '\n' then "" else [x]
  {
    if s == "" {
      assert s + [x] == [x] && [x][1..] == "";
    } else {
      assert (s + [x])[1..] == s[1..] + [x];
      BreaksGo(s[1..], x);
    }
  }

  lemma {:induction false} UnbrokenIsWithoutBreaks(s: string)
    ensures Unbroken(s) == WithoutBreaks(s)
  {
    if s == "" {
    } else {
      UnbrokenIsWithoutBreaks(s[..|s| - 1]);
      BreaksGo(s[..|s| - 1], s[|s| - 1]);
      assert s == s[..|s| - 1] + [s[|s| - 1]];
    }
  }

  /** Line breaks apart, exactly the texts over the alphabet with no symbol left over after whole quanta decode. */
  lemma DecodesExactly(s: string)
    ensures Decode(s).Some? <==>
            (forall i :: 0 <= i < |Unbroken(s)| ==> UrlSafe(Unbroken(s)[i])) && |Unbroken(s)| % 4 != 1
  {
    hide WithoutBreaks, DecodeQuanta, UrlSafe;
    UnbrokenIsWithoutBreaks(s);
    QuantaExactly(WithoutBreaks(s));
  }

  lemma {:induction false} QuantaExactly(s: string)
    ensures DecodeQuanta(s).Some? <==> (forall i :: 0 <= i < |s| ==> UrlSafe(s[i])) && |s| % 4 != 1
  {
    hide UrlSafe, Val;
    forall i | 0 <= i < |s|
      ensures Val(s[i]).Some? <==> UrlSafe(s[i])
    {
      SymbolsAreUrlSafe(s[i]);
    }
    if |s| < 4 {
    } else {
      QuantaExactly(s[4..]);
      assert (forall i :: 0 <= i < |s| ==> UrlSafe(s[i])) <==>
        UrlSafe(s[0]) && UrlSafe(s[1]) && UrlSafe(s[2]) && UrlSafe(s[3])
        && forall i :: 0 <= i < |s[4..]| ==> UrlSafe(s[4..][i]) by {
        assert forall i :: 4 <= i < |s| ==> s[i] == s[4..][i - 4];
      }
    }
  }
}
