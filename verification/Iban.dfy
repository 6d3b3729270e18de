/**
 IBAN validation and generation: ISO 13616 structure with ISO 7064 MOD 97-10 check digits.
 Letters stand for the two-digit numbers A=10 .. Z=35; an IBAN is accepted when the number
 its rearranged text denotes leaves remainder 1 modulo 97.
 */
module Iban {
  import opened Decimal
  import opened Wrappers

  predicate IsAlpha(c: char) { 'A' <= c <= 'Z' }

  predicate IsAlnum(c: char) { IsDigit(c) || IsAlpha(c) }

  predicate AllAlnum(s: string) { forall i :: 0 <= i < |s| ==> IsAlnum(s[i]) }

  function LetterVal(c: char): (v: nat)
    requires IsAlpha(c)
    ensures 10 <= v <= 35
  {
    c as int - 'A' as int + 10
  }

  /** Total IBAN length for a country code, as the registry table gives it. */
  function CountryLength(cc: string): (r: Option<nat>)
    ensures r.Some? ==> |cc| == 2 && IsAlpha(cc[0]) && IsAlpha(cc[1]) && 15 <= r.value <= 33
  {
    if |cc| != 2 then None else
      match cc[0]
      case 'A' => (match cc[1]
        case 'D' => Some(24) case 'E' => Some(23) case 'L' => Some(28) case 'T' => Some(20)
        case 'Z' => Some(28)
        case _ => None)
      case 'B' => (match cc[1]
        case 'A' => Some(20) case 'E' => Some(16) case 'G' => Some(22) case 'H' => Some(22)
        case 'I' => Some(27) case 'R' => Some(29) case 'Y' => Some(28)
        case _ => None)
      case 'C' => (match cc[1]
        case 'H' => Some(21) case 'R' => Some(22) case 'Y' => Some(28) case 'Z' => Some(24)
        case _ => None)
      case 'D' => (match cc[1]
        case 'E' => Some(22) case 'J' => Some(27) case 'K' => Some(18) case 'O' => Some(28)
        case _ => None)
      case 'E' => (match cc[1] case 'E' => Some(20) case 'G' => Some(29) case 'S' => Some(24) case _ => None)
      case 'F' => (match cc[1]
        case 'I' => Some(18) case 'K' => Some(18) case 'O' => Some(18) case 'R' => Some(27)
        case _ => None)
      case 'G' => (match cc[1]
        case 'B' => Some(22) case 'E' => Some(22) case 'I' => Some(23) case 'L' => Some(18)
        case 'R' => Some(27) case 'T' => Some(28)
        case _ => None)
      case 'H' => (match cc[1] case 'N' => Some(28) case 'R' => Some(21) case 'U' => Some(28) case _ => None)
      case 'I' => (match cc[1]
        case 'E' => Some(22) case 'L' => Some(23) case 'Q' => Some(23) case 'S' => Some(26)
        case 'T' => Some(27)
        case _ => None)
      case 'J' => (match cc[1] case 'O' => Some(30) case _ => None)
      case 'K' => (match cc[1] case 'W' => Some(30) case 'Z' => Some(20) case _ => None)
      case 'L' => (match cc[1]
        case 'B' => Some(28) case 'C' => Some(32) case 'I' => Some(21) case 'T' => Some(20)
        case 'U' => Some(20) case 'V' => Some(21) case 'Y' => Some(25)
        case _ => None)
      case 'M' => (match cc[1]
        case 'C' => Some(27) case 'D' => Some(24) case 'E' => Some(22) case 'K' => Some(19)
        case 'N' => Some(20) case 'R' => Some(27) case 'T' => Some(31) case 'U' => Some(30)
        case _ => None)
      case 'N' => (match cc[1] case 'I' => Some(28) case 'L' => Some(18) case 'O' => Some(15) case _ => None)
      case 'O' => (match cc[1] case 'M' => Some(23) case _ => None)
      case 'P' => (match cc[1]
        case 'K' => Some(24) case 'L' => Some(28) case 'S' => Some(29) case 'T' => Some(25)
        case _ => None)
      case 'Q' => (match cc[1] case 'A' => Some(29) case _ => None)
      case 'R' => (match cc[1] case 'O' => Some(24) case 'S' => Some(22) case 'U' => Some(33) case _ => None)
      case 'S' => (match cc[1]
        case 'A' => Some(24) case 'C' => Some(31) case 'D' => Some(18) case 'E' => Some(24)
        case 'I' => Some(19) case 'K' => Some(24) case 'M' => Some(27) case 'O' => Some(23)
        case 'T' => Some(25) case 'V' => Some(28)
        case _ => None)
      case 'T' => (match cc[1] case 'L' => Some(23) case 'N' => Some(24) case 'R' => Some(26) case _ => None)
      case 'U' => (match cc[1] case 'A' => Some(29) case _ => None)
      case 'V' => (match cc[1] case 'A' => Some(22) case 'G' => Some(24) case _ => None)
      case 'X' => (match cc[1] case 'K' => Some(20) case _ => None)
      case 'Y' => (match cc[1] case 'E' => Some(30) case _ => None)
      case _ => None
  }

  /** The registry, entry by entry. */
  lemma Registry1()
    ensures CountryLength("AL") == Some(28) && CountryLength("AD") == Some(24) && CountryLength("AT") == Some(20)
    ensures CountryLength("AZ") == Some(28) && CountryLength("BH") == Some(22) && CountryLength("BY") == Some(28)
    ensures CountryLength("BE") == Some(16) && CountryLength("BA") == Some(20) && CountryLength("BR") == Some(29)
    ensures CountryLength("BG") == Some(22) && CountryLength("BI") == Some(27) && CountryLength("CR") == Some(22)
    ensures CountryLength("HR") == Some(21) && CountryLength("CY") == Some(28) && CountryLength("CZ") == Some(24)
  {
  }

  lemma Registry2()
    ensures CountryLength("DK") == Some(18) && CountryLength("DJ") == Some(27) && CountryLength("DO") == Some(28)
    ensures CountryLength("TL") == Some(23) && CountryLength("EG") == Some(29) && CountryLength("SV") == Some(28)
    ensures CountryLength("EE") == Some(20) && CountryLength("FK") == Some(18) && CountryLength("FO") == Some(18)
    ensures CountryLength("FI") == Some(18) && CountryLength("FR") == Some(27) && CountryLength("GE") == Some(22)
    ensures CountryLength("DE") == Some(22) && CountryLength("GI") == Some(23) && CountryLength("GR") == Some(27)
  {
  }

  lemma Registry3()
    ensures CountryLength("GL") == Some(18) && CountryLength("GT") == Some(28) && CountryLength("HN") == Some(28)
    ensures CountryLength("HU") == Some(28) && CountryLength("IS") == Some(26) && CountryLength("IQ") == Some(23)
    ensures CountryLength("IE") == Some(22) && CountryLength("IL") == Some(23) && CountryLength("IT") == Some(27)
    ensures CountryLength("JO") == Some(30) && CountryLength("KZ") == Some(20) && CountryLength("XK") == Some(20)
    ensures CountryLength("KW") == Some(30) && CountryLength("LV") == Some(21) && CountryLength("LB") == Some(28)
  {
  }

  lemma Registry4()
    ensures CountryLength("LY") == Some(25) && CountryLength("LI") == Some(21) && CountryLength("LT") == Some(20)
    ensures CountryLength("LU") == Some(20) && CountryLength("MT") == Some(31) && CountryLength("MR") == Some(27)
    ensures CountryLength("MU") == Some(30) && CountryLength("MC") == Some(27) && CountryLength("MD") == Some(24)
    ensures CountryLength("MN") == Some(20) && CountryLength("ME") == Some(22) && CountryLength("NL") == Some(18)
    ensures CountryLength("NI") == Some(28) && CountryLength("MK") == Some(19) && CountryLength("NO") == Some(15)
  {
  }

  lemma Registry5()
    ensures CountryLength("OM") == Some(23) && CountryLength("PK") == Some(24) && CountryLength("PS") == Some(29)
    ensures CountryLength("PL") == Some(28) && CountryLength("PT") == Some(25) && CountryLength("QA") == Some(29)
    ensures CountryLength("RO") == Some(24) && CountryLength("RU") == Some(33) && CountryLength("LC") == Some(32)
    ensures CountryLength("SM") == Some(27) && CountryLength("ST") == Some(25) && CountryLength("SA") == Some(24)
    ensures CountryLength("RS") == Some(22) && CountryLength("SC") == Some(31) && CountryLength("SK") == Some(24)
  {
  }

  lemma Registry6()
    ensures CountryLength("SI") == Some(19) && CountryLength("SO") == Some(23) && CountryLength("ES") == Some(24)
    ensures CountryLength("SD") == Some(18) && CountryLength("SE") == Some(24) && CountryLength("CH") == Some(21)
    ensures CountryLength("TN") == Some(24) && CountryLength("TR") == Some(26) && CountryLength("UA") == Some(29)
    ensures CountryLength("AE") == Some(23) && CountryLength("GB") == Some(22) && CountryLength("VA") == Some(22)
    ensures CountryLength("VG") == Some(24) && CountryLength("YE") == Some(30)
  {
  }

  // ---- the number an IBAN denotes ----

  /** A character's decimal expansion; characters that are not alphanumeric denote nothing. */
  function ExpandChar(c: char): (s: string)
    ensures AllDigits(s)
  {
    if IsDigit(c) then [c] else if IsAlpha(c) then Print2(LetterVal(c)) else ""
  }

  function Expand(s: string): (d: string)
    ensures AllDigits(d)
  {
    if s == "" then "" else Expand(s[..|s| - 1]) + ExpandChar(s[|s| - 1])
  }

  /** The unbounded integer s denotes, read character by character. */
  function Numeral(s: string): nat {
    if s == "" then 0 else
      var n, c := Numeral(s[..|s| - 1]), s[|s| - 1];
      if IsDigit(c) then 10 * n + DigitVal(c) else if IsAlpha(c) then 100 * n + LetterVal(c) else n
  }

  /** The decimal width of s: one place a digit, two a letter. */
  function Width(s: string): nat {
    if s == "" then 0 else
      Width(s[..|s| - 1]) + if IsDigit(s[|s| - 1]) then 1 else if IsAlpha(s[|s| - 1]) then 2 else 0
  }

  function Residue(s: string): (r: nat)
    ensures r < 97
  {
    Numeral(s) % 97
  }

  /** Reading by characters is reading the decimal expansion as one numeral. */
  lemma {:induction false} NumeralIsExpansion(s: string)
    ensures Numeral(s) == Value(Expand(s)) && Width(s) == |Expand(s)|
  {
    hide Value, ExpandChar, LetterVal, DigitVal, Pow10;
    if s == "" {
      NothingDenotesZero();
    } else {
      var s', c := s[..|s| - 1], s[|s| - 1];
      NumeralIsExpansion(s');
      ValueOfConcat(Expand(s'), ExpandChar(c));
      ValueOfChar(c);
    }
  }

  lemma NothingDenotesZero()
    ensures Value("") == 0
  {
  }

  lemma ValueOfChar(c: char)
    ensures IsDigit(c) ==> Value(ExpandChar(c)) == DigitVal(c) && |ExpandChar(c)| == 1
    ensures IsAlpha(c) ==> Value(ExpandChar(c)) == LetterVal(c) && |ExpandChar(c)| == 2
    ensures !IsAlnum(c) ==> Value(ExpandChar(c)) == 0 && |ExpandChar(c)| == 0
    ensures Pow10(0) == 1 && Pow10(1) == 10 && Pow10(2) == 100
  {
    if IsDigit(c) {
      assert [c][..0] == "";
    } else if IsAlpha(c) {
      ValueOfPrint2(LetterVal(c));
    }
  }

  lemma {:induction false} NumeralConcat(a: string, b: string)
    ensures Numeral(a + b) == Numeral(a) * Pow10(Width(b)) + Numeral(b)
  {
    if b == "" {
      assert a + b == a;
    } else {
      var b', c := b[..|b| - 1], b[|b| - 1];
      assert (a + b)[..|a + b| - 1] == a + b';
      NumeralConcat(a, b');
      ShiftTwice(Numeral(a), Pow10(Width(b')), Numeral(b'));
      assert Pow10(Width(b') + 2) == 10 * Pow10(Width(b') + 1) == 100 * Pow10(Width(b'));
    }
  }

  lemma ShiftTwice(a: int, p: int, b: int)
    ensures 10 * (a * p + b) == a * (10 * p) + 10 * b
    ensures 100 * (a * p + b) == a * (100 * p) + 100 * b
  {
  }

  lemma NumeralOfChar(c: char)
    ensures IsDigit(c) ==> Width([c]) == 1 && Numeral([c]) == DigitVal(c)
    ensures IsAlpha(c) ==> Width([c]) == 2 && Numeral([c]) == LetterVal(c)
  {
    assert [c][..0] == "";
  }

  lemma NumeralStep(s: string, c: char)
    ensures IsDigit(c) ==> Numeral(s + [c]) == 10 * Numeral(s) + DigitVal(c)
    ensures IsAlpha(c) ==> Numeral(s + [c]) == 100 * Numeral(s) + LetterVal(c)
    ensures !IsAlnum(c) ==> Numeral(s + [c]) == Numeral(s)
  {
    assert (s + [c])[..|s|] == s;
  }

  lemma FoldStep(n: int, k: int, d: int)
    ensures (k * n + d) % 97 == (k * (n % 97) + d) % 97
  {
    var q, r := n / 97, n % 97;
    assert k * n == k * (97 * q + r) == 97 * (k * q) + k * r;
    AddMultiple(k * r + d, k * q);
  }

  /** What the fold holds after reading c, before it reduces. */
  function Accumulated(rem: nat, c: char): nat {
    if IsDigit(c) then rem * 10 + DigitVal(c) else if IsAlpha(c) then rem * 100 + LetterVal(c) else rem
  }

  /** After any text the fold holds at most 9635, which 96Z reaches, and its remainder is the longer text's. */
  lemma AccumulatorBound(s: string, c: char)
    ensures Accumulated(Residue(s), c) <= 9635 == Accumulated(Residue("96"), 'Z')
    ensures Residue(s + [c]) == Accumulated(Residue(s), c) % 97
  {
    hide Numeral;
    NinetySix();
    NumeralStep(s, c);
    if IsDigit(c) {
      FoldStep(Numeral(s), 10, DigitVal(c));
    } else if IsAlpha(c) {
      FoldStep(Numeral(s), 100, LetterVal(c));
    }
  }

  lemma NinetySix()
    ensures Numeral("96") == 96
  {
    assert "96"[..1] == "9" && "9"[..0] == "";
    assert Numeral("9") == 9;
  }

  /** mod97: the fold never holds more than 9635 and ends in the denoted integer modulo 97. */
  method Mod97(s: string) returns (rem: nat)
    ensures rem == Residue(s) == Value(Expand(s)) % 97
  {
    rem := 0;
    var i := 0;
    while i < |s|
      invariant 0 <= i <= |s|
      invariant rem == Numeral(s[..i]) % 97
    {
      var c := s[i];
      assert s[..i + 1] == s[..i] + [c];
      NumeralStep(s[..i], c);
      if IsDigit(c) {
        FoldStep(Numeral(s[..i]), 10, DigitVal(c));
        var acc := rem * 10 + DigitVal(c);
        assert acc <= 9635;
        rem := acc % 97;
      } else if IsAlpha(c) {
        FoldStep(Numeral(s[..i]), 100, LetterVal(c));
        var acc := rem * 100 + LetterVal(c);
        assert acc <= 9635;
        rem := acc % 97;
      }
      i := i + 1;
    }
    assert s[..|s|] == s;
    NumeralIsExpansion(s);
  }

  /** The fold composes: a concatenation's residue needs only the parts' residues and the second part's width. */
  lemma ResidueComposes(a: string, b: string)
    ensures Residue(a + b) == (Residue(a) * Pow10(Width(b)) + Residue(b)) % 97
  {
    hide Numeral, Width, Pow10;
    NumeralConcat(a, b);
    ComposeMod(Numeral(a), Pow10(Width(b)), Numeral(b));
  }

  lemma ComposeMod(a: int, p: int, b: int)
    ensures (a * p + b) % 97 == ((a % 97) * p + b % 97) % 97
  {
    var qa, ra, qb := a / 97, a % 97, b / 97;
    assert a * p == 97 * (qa * p) + ra * p;
    AddMultiple(ra * p + b % 97, qa * p + qb);
  }

  lemma AddMultiple(x: int, k: int)
    ensures (97 * k + x) % 97 == x % 97
  {
  }

  // ---- normalisation and validation ----

  predicate IsBlank(c: char) { c == ' ' || c == '\t' || c == '\n' || c == '\r' }

  function Upper(c: char): char { if 'a' <= c <= 'z' then (c as int - 32) as char else c }

  /** The electronic form: blanks dropped, ASCII letters upper-cased. */
  function Electronic(s: string): string {
    if s == "" then ""
    else Electronic(s[..|s| - 1]) + (if IsBlank(s[|s| - 1]) then "" else [Upper(s[|s| - 1])])
  }

  method Normalize(s: string) returns (b: string)
    ensures b == Electronic(s)
  {
    b := "";
    for i := 0 to |s|
      invariant b == Electronic(s[..i])
    {
      var r := s[i];
      assert s[..i + 1][..i] == s[..i];
      if 'a' <= r <= 'z' {
        b := b + [(r as int - 32) as char];
      } else if r == ' ' || r == '\t' || r == '\n' || r == '\r' {
      } else {
        b := b + [r];
      }
    }
    assert s[..|s|] == s;
  }

  lemma {:induction false} ElectronicOfAlnum(s: string)
    requires AllAlnum(s)
    ensures Electronic(s) == s
  {
    if s == "" {
    } else {
      var s', c := s[..|s| - 1], s[|s| - 1];
      ElectronicOfAlnum(s');
      assert IsAlnum(c) && Upper(c) == c && !IsBlank(c);
      assert Electronic(s) == Electronic(s') + [c];
    }
  }

  /** Normalisation is idempotent and forgets exactly blanks and letter case. */
  lemma {:induction false} ElectronicIsIdempotent(s: string)
    ensures Electronic(Electronic(s)) == Electronic(s)
    ensures forall i :: 0 <= i < |Electronic(s)| ==> !IsBlank(Electronic(s)[i])
  {
    if s == "" {
    } else {
      var s', c := s[..|s| - 1], s[|s| - 1];
      ElectronicIsIdempotent(s');
      var e := Electronic(s);
      if !IsBlank(c) {
        assert e == Electronic(s') + [Upper(c)];
        assert e[..|e| - 1] == Electronic(s');
        assert Upper(Upper(c)) == Upper(c);
      } else {
        assert e == Electronic(s');
      }
    }
  }

  function LowerChar(c: char): char { if 'A' <= c <= 'Z' then (c as int - 'A' as int + 'a' as int) as char else c }

  /** The same text in lower case. */
  function Lowered(s: string): (l: string)
    ensures |l| == |s| && forall i :: 0 <= i < |s| ==> l[i] == LowerChar(s[i])
  {
    seq(|s|, i requires 0 <= i < |s| => LowerChar(s[i]))
  }

  lemma ElectronicStep(s: string, c: char)
    ensures c in {' ', '\t', '\n', '\r'} ==> Electronic(s + [c]) == Electronic(s)
    ensures c !in {' ', '\t', '\n', '\r'} ==> Electronic(s + [c]) == Electronic(s) + [Upper(c)]
  {
    assert (s + [c])[..|s|] == s;
  }

  lemma {:induction false} ElectronicConcat(a: string, b: string)
    ensures Electronic(a + b) == Electronic(a) + Electronic(b)
  {
    hide Electronic, Upper;
    if b == "" {
      assert a + b == a;
      ElectronicOfNothing();
    } else {
      var b', c := b[..|b| - 1], b[|b| - 1];
      assert b == b' + [c] && a + b == (a + b') + [c];
      ElectronicConcat(a, b');
      ElectronicStep(a + b', c);
      ElectronicStep(b', c);
    }
  }

  lemma ElectronicOfNothing()
    ensures Electronic("") == ""
  {
  }

  /** A blank anywhere changes nothing. */
  lemma BlankIsDropped(a: string, c: char, b: string)
    requires c in {' ', '\t', '\n', '\r'}
    ensures Electronic(a + [c] + b) == Electronic(a + b)
  {
    hide Electronic;
    ElectronicConcat(a + [c], b);
    ElectronicStep(a, c);
    ElectronicConcat(a, b);
  }

  /** Letter case is forgotten: the lower-case form of an electronic one, or of any part of it, reads as it. */
  lemma {:induction false} CaseIsForgotten(n: string)
    requires AllAlnum(n)
    ensures Electronic(Lowered(n)) == n
  {
    if n == "" {
    } else {
      var n', c := n[..|n| - 1], n[|n| - 1];
      CaseIsForgotten(n');
      assert Lowered(n)[..|n| - 1] == Lowered(n');
      assert Lowered(n)[|n| - 1] == LowerChar(c) && IsAlnum(c);
    }
  }

  /** A printed form of n: its characters in order, each in either case, with blanks anywhere between. */
  predicate PrintedForm(s: string, n: string) {
    if s == "" then n == ""
    else if s[|s| - 1] in {' ', '\t', '\n', '\r'} then PrintedForm(s[..|s| - 1], n)
    else n != "" && (s[|s| - 1] == n[|n| - 1] || s[|s| - 1] == LowerChar(n[|n| - 1]))
         && PrintedForm(s[..|s| - 1], n[..|n| - 1])
  }

  /** Every printed form of a valid IBAN, in any grouping and letter case, validates. */
  lemma {:induction false} PrintedFormReads(s: string, n: string)
    requires AllAlnum(n) && PrintedForm(s, n)
    ensures Electronic(s) == n
  {
    if s == "" {
    } else {
      var s', c := s[..|s| - 1], s[|s| - 1];
      assert s == s' + [c];
      ElectronicStep(s', c);
      if c in {' ', '\t', '\n', '\r'} {
        PrintedFormReads(s', n);
      } else {
        PrintedFormReads(s', n[..|n| - 1]);
        assert IsAlnum(n[|n| - 1]);
        assert n == n[..|n| - 1] + [n[|n| - 1]];
      }
    }
  }

  datatype Verdict =
    | Valid
    | LengthOutOfRange(len: nat)
    | BadStart
    | UnknownCountry(cc: string)
    | WrongLength(len: nat, want: nat)
    | BadCharacter
    | ChecksumFailed

  predicate GoodStart(n: string)
    requires |n| >= 4
  {
    IsAlpha(n[0]) && IsAlpha(n[1]) && IsDigit(n[2]) && IsDigit(n[3])
  }

  /** Everything validation asks of an electronic form, except the checksum. */
  predicate WellFormed(n: string) {
    && |n| >= 4
    && GoodStart(n)
    && CountryLength(n[..2]) == Some(|n|)
    && AllAlnum(n)
  }

  /** The order of the checks, hence which complaint a bad IBAN draws. */
  function Assess(n: string): (v: Verdict)
    ensures v == Valid <==> WellFormed(n) && Residue(n[4..] + n[..4]) == 1
  {
    if |n| < 15 || |n| > 34 then LengthOutOfRange(|n|)
    else if !GoodStart(n) then BadStart
    else
      match CountryLength(n[..2])
      case None => UnknownCountry(n[..2])
      case Some(want) =>
        if |n| != want then WrongLength(|n|, want)
        else if !AllAlnum(n) then BadCharacter
        else if Residue(n[4..] + n[..4]) != 1 then ChecksumFailed
        else Valid
  }

  /** Which complaint means what. */
  lemma ComplaintsMean(n: string)
    ensures Assess(n) == LengthOutOfRange(|n|) <==> !(15 <= |n| <= 34)
    ensures Assess(n) == BadStart <==> 15 <= |n| <= 34 && !GoodStart(n)
    ensures Assess(n).UnknownCountry? <==> 15 <= |n| <= 34 && GoodStart(n) && CountryLength(n[..2]) == None
    ensures Assess(n).WrongLength? <==>
            15 <= |n| <= 34 && GoodStart(n) && CountryLength(n[..2]) != None && CountryLength(n[..2]) != Some(|n|)
    ensures Assess(n).WrongLength? ==> Assess(n).len == |n| && CountryLength(n[..2]) == Some(Assess(n).want)
    ensures Assess(n) == BadCharacter <==>
            15 <= |n| <= 34 && GoodStart(n) && CountryLength(n[..2]) == Some(|n|) && !AllAlnum(n)
    ensures Assess(n) == ChecksumFailed <==> WellFormed(n) && Residue(n[4..] + n[..4]) != 1
  {
    hide CountryLength, Residue;
    if |n| >= 4 {
      LengthInRange(n[..2]);
    }
  }

  lemma LengthInRange(cc: string)
    ensures CountryLength(cc).Some? ==> 15 <= CountryLength(cc).value <= 33
  {
  }

  method Validate(s: string) returns (v: Verdict)
    ensures v == Assess(Electronic(s))
    ensures forall n :: AllAlnum(n) && PrintedForm(s, n) ==> v == Assess(n)
  {
    forall n | AllAlnum(n) && PrintedForm(s, n)
      ensures Electronic(s) == n
    {
      PrintedFormReads(s, n);
    }
    hide CountryLength, Numeral, Electronic;
    var n := Normalize(s);
    if |n| < 15 || |n| > 34 {
      return LengthOutOfRange(|n|);
    }
    if !(IsAlpha(n[0]) && IsAlpha(n[1]) && IsDigit(n[2]) && IsDigit(n[3])) {
      return BadStart;
    }
    var cc := n[..2];
    var entry := CountryLength(cc);
    if entry.None? {
      return UnknownCountry(cc);
    }
    var want := entry.value;
    if |n| != want {
      return WrongLength(|n|, want);
    }
    var i := 0;
    while i < |n|
      invariant 0 <= i <= |n|
      invariant forall j :: 0 <= j < i ==> IsAlnum(n[j])
    {
      if !IsAlnum(n[i]) {
        return BadCharacter;
      }
      i := i + 1;
    }
    var rem := Mod97(n[4..] + n[..4]);
    if rem != 1 {
      return ChecksumFailed;
    }
    return Valid;
  }

  // ---- generation ----

  datatype Built = Iban(text: string) | NoCountry(cc: string) | BadBbanLength(len: nat, want: int) | BadBban

  function UpperAll(s: string): (u: string)
    ensures |u| == |s| && forall i :: 0 <= i < |s| ==> u[i] == Upper(s[i])
  {
    seq(|s|, i requires 0 <= i < |s| => Upper(s[i]))
  }

  /** The check digits MOD 97-10 assigns to a country and a BBAN. */
  function CheckDigits(cc: string, bban: string): (k: nat)
    ensures 2 <= k <= 98
  {
    98 - Residue(bban + cc + "00")
  }

  function Issue(cc: string, bban: string): Built {
    var c, b := UpperAll(cc), UpperAll(bban);
    match CountryLength(c)
    case None => NoCountry(c)
    case Some(total) =>
      if |b| != total - 4 then BadBbanLength(|b|, total - 4)
      else if !AllAlnum(b) then BadBban
      else Iban(c + Print2(CheckDigits(c, b)) + b)
  }

  /** Exactly what can be issued, whatever its letter case, and the complaint otherwise. */
  lemma IssuedExactly(cc: string, bban: string)
    requires AllAlnum(cc) && AllAlnum(bban)
    ensures Issue(cc, bban).Iban? <==> CountryLength(cc) == Some(|bban| + 4)
    ensures Issue(Lowered(cc), Lowered(bban)) == Issue(cc, bban)
    ensures Issue(cc, bban) == NoCountry(cc) <==> CountryLength(cc) == None
    ensures Issue(cc, bban).BadBbanLength? <==> CountryLength(cc) != None && CountryLength(cc) != Some(|bban| + 4)
  {
    hide CountryLength, CheckDigits;
    AlnumIsUpper(cc);
    AlnumIsUpper(bban);
  }

  lemma AlnumIsUpper(s: string)
    requires AllAlnum(s)
    ensures UpperAll(s) == s == UpperAll(Lowered(s))
  {
    forall i | 0 <= i < |s|
      ensures UpperAll(s)[i] == s[i] == UpperAll(Lowered(s))[i]
    {
      assert IsAlnum(s[i]);
    }
  }

  /** A character that stays neither digit nor capital makes the BBAN bad. */
  lemma BadBbanExactly(cc: string, bban: string)
    requires CountryLength(UpperAll(cc)) == Some(|bban| + 4)
    ensures Issue(cc, bban) == BadBban <==>
            exists i :: 0 <= i < |bban|
                        && !('0' <= bban[i] <= '9' || 'A' <= bban[i] <= 'Z' || 'a' <= bban[i] <= 'z')
  {
    hide CountryLength, CheckDigits;
    var u := UpperAll(bban);
    assert forall i :: 0 <= i < |bban| ==>
        (IsAlnum(u[i]) <==> '0' <= bban[i] <= '9' || 'A' <= bban[i] <= 'Z' || 'a' <= bban[i] <= 'z');
  }

  method Compute(cc: string, bban: string) returns (r: Built)
    ensures r == Issue(cc, bban)
  {
    hide CountryLength, Numeral, Value, Expand, Print2, Residue;
    var c := UpperAll(cc);
    var b := UpperAll(bban);
    var entry := CountryLength(c);
    if entry.None? {
      return NoCountry(c);
    }
    var total := entry.value;
    if |b| != total - 4 {
      return BadBbanLength(|b|, total - 4);
    }
    var i := 0;
    while i < |b|
      invariant 0 <= i <= |b|
      invariant forall j :: 0 <= j < i ==> IsAlnum(b[j])
    {
      if !IsAlnum(b[i]) {
        return BadBban;
      }
      i := i + 1;
    }
    var rem := Mod97(b + c + "00");
    var check := 98 - rem;
    return Iban(c + Print2(check) + b);
  }

  /** Random digits come from the caller; None is a failure of the random source. */
  method Generate(cc: string, draws: seq<Option<nat>>) returns (r: Option<Built>)
    requires |draws| >= 33
    requires forall i :: 0 <= i < |draws| && draws[i].Some? ==> draws[i].value < 10
    ensures r.Some? && r.value.Iban? ==> Assess(Electronic(r.value.text)) == Valid
    ensures CountryLength(UpperAll(cc)).Some? ==>
              var n := CountryLength(UpperAll(cc)).value - 4;
              && (r.None? <==> exists i :: 0 <= i < n && draws[i].None?)
              && (r.Some? ==> r.value.Iban? && |r.value.text| == n + 4 && r.value.text[..2] == UpperAll(cc)
                              && forall i :: 0 <= i < n ==> r.value.text[4 + i] == DigitChar(draws[i].value))
    ensures CountryLength(UpperAll(cc)).None? ==> r == Some(NoCountry(UpperAll(cc)))
  {
    hide CountryLength, Numeral, Value, Electronic, Assess;
    var c := UpperAll(cc);
    var entry := CountryLength(c);
    if entry.None? {
      return Some(NoCountry(c));
    }
    var n := entry.value - 4;
    var digits := "";
    for i := 0 to n
      invariant |digits| == i
      invariant forall j :: 0 <= j < i ==> draws[j].Some? && digits[j] == DigitChar(draws[j].value)
    {
      if draws[i].None? {
        return None;
      }
      digits := digits + [DigitChar(draws[i].value)];
    }
    var b := Compute(c, digits);
    assert UpperAll(c) == c;
    assert UpperAll(digits) == digits;
    IssuedIsValid(c, digits);
    return Some(b);
  }

  // ---- generator and validator agree ----

  lemma Digits00(s: string, dd: string)
    requires |dd| == 2 && AllDigits(dd)
    ensures Numeral(s + dd) == Numeral(s + "00") + Value(dd)
  {
    NumeralOfTwoDigits(s, dd);
    NumeralOfTwoDigits(s, "00");
    TwoDigits(dd);
    TwoDigits("00");
  }

  lemma NumeralOfTwoDigits(s: string, dd: string)
    requires |dd| == 2 && AllDigits(dd)
    ensures Numeral(s + dd) == 100 * Numeral(s) + 10 * DigitVal(dd[0]) + DigitVal(dd[1])
  {
    var t := s + [dd[0]];
    assert s + dd == t + [dd[1]];
    assert Numeral(t) == 10 * Numeral(s) + DigitVal(dd[0]) by { NumeralStep(s, dd[0]); }
    assert Numeral(t + [dd[1]]) == 10 * Numeral(t) + DigitVal(dd[1]) by { NumeralStep(t, dd[1]); }
  }

  /**
   Acceptance, completely: a well-formed electronic form is accepted exactly when its check
   digits are the generator's, or 00, 01, 99 standing for 97, 98 and 02.
   */
  lemma AcceptedExactlyWhen(n: string)
    requires WellFormed(n)
    ensures var d, k := Value(n[2..4]), CheckDigits(n[..2], n[4..]);
            Assess(n) == Valid <==>
            d == k || (d == 0 && k == 97) || (d == 1 && k == 98) || (d == 99 && k == 2)
  {
    hide Numeral, Value, CountryLength, Assess, AllAlnum;
    var s, dd := n[4..] + n[..2], n[2..4];
    assert n[4..] + n[..4] == s + dd;
    assert s + "00" == n[4..] + n[..2] + "00";
    Digits00(s, dd);
    TwoDigits(dd);
    var d, m := Value(dd), Residue(s + "00");
    AddMultiple(m + d, Numeral(s + "00") / 97);
    assert Residue(s + dd) == (m + d) % 97;
  }

  /** What Compute builds, Validate accepts, and it is the country, check digits and BBAN it was asked for. */
  lemma IssuedIsValid(cc: string, bban: string)
    ensures Issue(cc, bban).Iban? ==>
              var n := Issue(cc, bban).text;
              && Electronic(n) == n && Assess(n) == Valid
              && n[..2] == UpperAll(cc) && n[4..] == UpperAll(bban)
              && 2 <= Value(n[2..4]) <= 98
  {
    hide Numeral, Value, CountryLength, Assess, Residue, WellFormed, Electronic;
    if Issue(cc, bban).Iban? {
      var c, b := UpperAll(cc), UpperAll(bban);
      var n := Issue(cc, bban).text;
      IssuedIsWellFormed(c, b, CheckDigits(c, b));
      ValueOfPrint2(CheckDigits(c, b));
      ElectronicOfAlnum(n);
      AcceptedExactlyWhen(n);
    }
  }

  lemma IssuedIsWellFormed(c: string, b: string, k: nat)
    requires CountryLength(c) == Some(|b| + 4) && AllAlnum(b) && k < 100
    ensures var n := c + Print2(k) + b;
            WellFormed(n) && AllAlnum(n) && |n| >= 4 && n[..2] == c && n[2..4] == Print2(k) && n[4..] == b
  {
    hide Print2, CountryLength;
    CodeIsLetters(c);
    var n := c + Print2(k) + b;
    assert n[..2] == c && n[2..4] == Print2(k) && n[4..] == b;
  }

  lemma CodeIsLetters(c: string)
    ensures CountryLength(c).Some? ==> |c| == 2 && IsAlpha(c[0]) && IsAlpha(c[1])
  {
  }

  /** Conversely, an accepted IBAN with check digits 02..98 is what Compute builds from its own parts. */
  lemma AcceptedIsIssued(n: string)
    requires Assess(n) == Valid && 2 <= Value(n[2..4]) <= 98
    ensures Issue(n[..2], n[4..]) == Iban(n)
  {
    hide Numeral, Value, CountryLength;
    AcceptedExactlyWhen(n);
    TwoDigits(n[2..4]);
    assert UpperAll(n[..2]) == n[..2];
    assert UpperAll(n[4..]) == n[4..];
    assert n == n[..2] + n[2..4] + n[4..];
  }

  // ---- which errors the checksum catches ----

  /** 10 is invertible modulo 97: its inverse is 68. */
  lemma CancelTen(b: int)
    requires (10 * b) % 97 == 0
    ensures b % 97 == 0
  {
    var q := (10 * b) / 97;
    assert b == 97 * (68 * q - 7 * b);
  }

  lemma SameRemainder(a: int, b: int)
    ensures a % 97 == b % 97 <==> (a - b) % 97 == 0
  {
    if a % 97 == b % 97 {
      assert a - b == 97 * (a / 97 - b / 97);
    }
    if (a - b) % 97 == 0 {
      AddMultiple(b, (a - b) / 97);
    }
  }

  /** One step of the fold, for a digit (k = 10) or a letter (k = 100), merges no two remainders. */
  lemma StepIsInjective(k: int, x: int, y: int, d: int)
    requires k == 10 || k == 100
    ensures (k * x + d) % 97 == (k * y + d) % 97 <==> x % 97 == y % 97
  {
    SameRemainder(k * x + d, k * y + d);
    SameRemainder(x, y);
    var z := x - y;
    assert (k * x + d) - (k * y + d) == k * z;
    if (k * z) % 97 == 0 {
      if k == 100 {
        assert 100 * z == 10 * (10 * z);
        CancelTen(10 * z);
      }
      CancelTen(z);
    } else if z % 97 == 0 {
      AddMultiple(0, k * (z / 97));
    }
  }

  /** So a common suffix neither hides nor creates a difference. */
  lemma {:induction false} SuffixKeepsDifference(a: string, b: string, post: string)
    ensures Residue(a + post) == Residue(b + post) <==> Residue(a) == Residue(b)
  {
    if post == "" {
      assert a + post == a && b + post == b;
    } else {
      var post', c := post[..|post| - 1], post[|post| - 1];
      hide Numeral;
      SuffixKeepsDifference(a, b, post');
      assert a + post == (a + post') + [c] && b + post == (b + post') + [c];
      NumeralStep(a + post', c);
      NumeralStep(b + post', c);
      if IsDigit(c) {
        StepIsInjective(10, Numeral(a + post'), Numeral(b + post'), DigitVal(c));
      } else if IsAlpha(c) {
        StepIsInjective(100, Numeral(a + post'), Numeral(b + post'), LetterVal(c));
      }
    }
  }

  lemma DifferenceAfter(pre: string, x: string, y: string)
    requires Width(x) == Width(y)
    ensures Numeral(pre + x) - Numeral(pre + y) == Numeral(x) - Numeral(y)
  {
    hide Numeral, Width, Pow10;
    NumeralConcat(pre, x);
    NumeralConcat(pre, y);
  }

  /** Anywhere, replacing x by an equally wide y leaves the residue alone exactly when 97 divides the difference. */
  lemma ResidueOfReplacement(pre: string, x: string, y: string, post: string)
    requires Width(x) == Width(y)
    ensures Residue(pre + x + post) == Residue(pre + y + post) <==> (Numeral(x) - Numeral(y)) % 97 == 0
  {
    hide Numeral, Width;
    SuffixKeepsDifference(pre + x, pre + y, post);
    DifferenceAfter(pre, x, y);
    SameRemainder(Numeral(pre + x), Numeral(pre + y));
  }

  /** The rearranged text around a BBAN segment, for both the original and the altered IBAN. */
  lemma Rearranged(n: string, i: nat, w: nat, z: string)
    requires 4 <= i && i + w <= |n|
    requires |z| == w
    ensures var m := n[..i] + z + n[i + w..];
            && n[4..] + n[..4] == n[4..i] + n[i..i + w] + (n[i + w..] + n[..4])
            && m[4..] + m[..4] == n[4..i] + z + (n[i + w..] + n[..4])
            && m[..4] == n[..4]
  {
    assert n[4..] == n[4..i] + n[i..i + w] + n[i + w..];
    var m := n[..i] + z + n[i + w..];
    assert m[4..] == n[4..i] + z + n[i + w..];
  }

  /** An alteration confined to the BBAN that keeps it alphanumeric leaves only the checksum to object. */
  lemma StaysWellFormed(n: string, m: string)
    requires WellFormed(n) && |m| == |n| && m[..4] == n[..4] && AllAlnum(m)
    ensures WellFormed(m)
    ensures Assess(m) == if Residue(m[4..] + m[..4]) == 1 then Valid else ChecksumFailed
  {
    assert m[..2] == m[..4][..2] == n[..2];
    assert forall j :: 0 <= j < 4 ==> m[j] == m[..4][j] == n[j];
  }

  /** Replacing one BBAN digit by another digit, or one letter by another letter, is always caught. */
  lemma SubstitutionIsCaught(n: string, i: nat, y: char)
    requires Assess(n) == Valid
    requires 4 <= i < |n| && y != n[i]
    requires (IsDigit(n[i]) && IsDigit(y)) || (IsAlpha(n[i]) && IsAlpha(y))
    ensures Assess(n[..i] + [y] + n[i + 1..]) == ChecksumFailed
  {
    var m := n[..i] + [y] + n[i + 1..];
    var x := n[i];
    Rearranged(n, i, 1, [y]);
    hide Assess, CountryLength, Numeral, Width;
    assert n[i..i + 1] == [x];
    assert Residue(m[4..] + m[..4]) != 1 by {
      NumeralOfChar(x);
      NumeralOfChar(y);
      ResidueOfReplacement(n[4..i], [x], [y], n[i + 1..] + n[..4]);
    }
    StaysWellFormed(n, m);
  }

  /** The letter and digit whose exchange MOD 97-10 cannot see. */
  predicate BlindPair(x: char, y: char) {
    (x == 'B' && y == '1') || (x == 'M' && y == '2') || (x == 'X' && y == '3')
  }

  lemma NumeralOfPair(x: char, y: char)
    requires IsAlnum(x) && IsAlnum(y)
    ensures Width([x, y]) == (if IsDigit(x) then 1 else 2) + (if IsDigit(y) then 1 else 2)
    ensures Numeral([x, y]) ==
            (if IsDigit(x) then DigitVal(x) else LetterVal(x)) * (if IsDigit(y) then 10 else 100)
            + (if IsDigit(y) then DigitVal(y) else LetterVal(y))
  {
    assert [x, y][..1] == [x];
    NumeralOfChar(x);
  }

  /** Swapping two different adjacent BBAN characters is caught, except exactly B/1, M/2 and X/3. */
  lemma TranspositionIsCaught(n: string, i: nat)
    requires Assess(n) == Valid
    requires 4 <= i && i + 1 < |n| && n[i] != n[i + 1]
    ensures var m := n[..i] + [n[i + 1], n[i]] + n[i + 2..];
            if BlindPair(n[i], n[i + 1]) || BlindPair(n[i + 1], n[i])
            then Assess(m) == Valid else Assess(m) == ChecksumFailed
  {
    var x, y := n[i], n[i + 1];
    var m := n[..i] + [y, x] + n[i + 2..];
    Rearranged(n, i, 2, [y, x]);
    hide Residue, Assess, CountryLength;
    assert n[i..i + 2] == [x, y];
    SwapInContext(n[4..i], x, y, n[i + 2..] + n[..4]);
    StaysWellFormed(n, m);
  }

  lemma SwapInContext(pre: string, x: char, y: char, post: string)
    requires IsAlnum(x) && IsAlnum(y) && x != y
    ensures Residue(pre + [x, y] + post) == Residue(pre + [y, x] + post) <==> BlindPair(x, y) || BlindPair(y, x)
  {
    SwapDifference(x, y);
    ResidueOfReplacement(pre, [x, y], [y, x], post);
  }

  lemma SwapDifference(x: char, y: char)
    requires IsAlnum(x) && IsAlnum(y) && x != y
    ensures Width([x, y]) == Width([y, x])
    ensures (Numeral([x, y]) - Numeral([y, x])) % 97 == 0 <==> BlindPair(x, y) || BlindPair(y, x)
  {
    hide Numeral, Width;
    NumeralOfPair(x, y);
    NumeralOfPair(y, x);
    if IsDigit(x) && IsDigit(y) {
      SmallMultiple(9, DigitVal(x) - DigitVal(y));
    } else if IsAlpha(x) && IsAlpha(y) {
      SmallMultiple(99, LetterVal(x) - LetterVal(y));
    } else if IsAlpha(x) {
      BlindSwap(LetterVal(x), DigitVal(y));
    } else {
      BlindSwap(LetterVal(y), DigitVal(x));
    }
  }

  /** 9 and 99 are invertible modulo 97, with inverses 54 and 49. */
  lemma SmallMultiple(k: int, z: int)
    requires k == 9 || k == 99
    requires -97 < z < 97
    ensures (k * z) % 97 == 0 <==> z == 0
  {
    var q := (k * z) / 97;
    if (k * z) % 97 == 0 {
      assert k == 9 ==> z == 97 * (54 * q - 5 * z);
      assert k == 99 ==> z == 97 * (49 * q - 50 * z);
    }
  }

  lemma BlindSwap(v: nat, d: nat)
    requires 10 <= v <= 35 && d < 10
    ensures (9 * v - 99 * d) % 97 == 0 <==> 1 <= d <= 3 && v == 11 * d
    ensures (99 * d - 9 * v) % 97 == 0 <==> 1 <= d <= 3 && v == 11 * d
  {
    var z := v - 11 * d;
    assert 9 * v - 99 * d == 9 * z && 99 * d - 9 * v == 9 * (-z);
    SmallMultiple(9, z);
    SmallMultiple(9, -z);
  }
}
