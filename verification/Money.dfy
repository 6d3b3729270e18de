/**
 Euro amounts: 64-bit minor units to text and back. Arithmetic wraps at 64 bits as
 Go's does, so the printed form of the least value, whose negation is itself, is odd
 and is followed through exactly.
 */
module Money {
  import opened Decimal
  import opened Strings
  import opened Wrappers

  const TWO_63: int := 0x8000_0000_0000_0000
  const TWO_64: int := 0x1_0000_0000_0000_0000
  const EURO: char := '\U{20AC}'

  predicate InInt64(x: int) { -TWO_63 <= x < TWO_63 }

  /** The int64 congruent to x modulo 2 to the 64. */
  function Wrap(x: int): (r: int)
    ensures InInt64(r)
    ensures InInt64(x) ==> r == x
  {
    (x + TWO_63) % TWO_64 - TWO_63
  }

  lemma WrapIsCongruent(x: int)
    ensures (Wrap(x) - x) % TWO_64 == 0
  {
    var q := (x + TWO_63) / TWO_64;
    assert Wrap(x) - x == TWO_64 * (-q);
  }

  lemma WrapOfNegation(x: int)
    ensures Wrap(-Wrap(x)) == Wrap(-x)
  {
    var q := (x + TWO_63) / TWO_64;
    assert Wrap(x) == x - TWO_64 * q;
    assert (-x + TWO_64 * q + TWO_63) % TWO_64 == (-x + TWO_63) % TWO_64;
  }

  // ---- printing ----

  /** Division and remainder that truncate toward zero. */
  function Quot(x: int, d: int): int
    requires d > 0
  {
    if x >= 0 then x / d else -((-x) / d)
  }

  function Rem(x: int, d: int): int
    requires d > 0
  {
    x - d * Quot(x, d)
  }

  /** %d */
  function FormatInt(x: int): string { if x < 0 then "-" + Print(-x) else Print(x) }

  /** %02d: zero-padded to two characters, the sign counted. */
  function FormatInt02(x: int): string
    requires -100 < x < 100
  {
    if x < 0 then "-" + Print(-x) else Print2(x)
  }

  function Rendered(minor: int, symbol: string): string
    requires InInt64(minor)
  {
    var neg := minor < 0;
    var m := if neg then Wrap(-minor) else minor;
    var s := symbol + FormatInt(Quot(m, 100)) + "." + FormatInt02(Rem(m, 100));
    if neg then "-" + s else s
  }

  function FormatMinor(minor: int): string
    requires InInt64(minor)
  {
    Rendered(minor, [EURO])
  }

  function PlainMinor(minor: int): string
    requires InInt64(minor)
  {
    Rendered(minor, "")
  }

  // ---- parsing ----

  /** strconv.ParseInt in base 10 at 64 bits: an optional sign, digits, a range check. */
  function ParseInt(s: string): (r: Option<int>)
    ensures r.Some? ==> InInt64(r.value)
  {
    if s == "" then None else
      var neg := s[0] == '-';
      var t := if neg || s[0] == '+' then s[1..] else s;
      if t == "" || !AllDigits(t) then None else
        var v: int := Value(t);
        if neg then (if v > TWO_63 then None else Some(-v))
        else (if v >= TWO_63 then None else Some(v))
  }

  datatype Amount = Minor(value: int) | Empty | Invalid | TooManyDecimals

  /** Surrounding white space, euro signs and inner spaces dropped. */
  function Clean(s: string): string { Without(Without(TrimSpace(s), EURO), ' ') }

  /** The separator rules: what is left has at most a decimal point. */
  function Decimalised(s: string): string {
    match (LastIndex(s, '.'), LastIndex(s, ','))
    case (Some(dot), Some(comma)) =>
      if comma > dot then
        var (whole, frac, _) := Cut(Without(s, '.'), ',');
        whole + "." + frac
      else Without(s, ',')
    case (None, Some(comma)) =>
      if Count(s, ',') == 1 && 1 <= |s| - comma - 1 <= 2 then s[..comma] + "." + s[comma + 1..]
      else Without(s, ',')
    case (_, None) => s
  }

  function ReadUnsigned(s: string): Amount {
    var (w, f, hasFrac) := Cut(s, '.');
    match ParseInt(if w == "" then "0" else w)
    case None => Invalid
    case Some(euros) =>
      if !hasFrac then Minor(Wrap(euros * 100))
      else if |f| > 2 then TooManyDecimals
      else
        match ParseInt(if |f| == 1 then f + "0" else f)
        case None => Invalid
        case Some(cents) => Minor(Wrap(euros * 100 + cents))
  }

  function Read(s: string): Amount {
    if s != "" && s[0] == '-' then
      match ReadUnsigned(s[1..])
      case Minor(m) => Minor(Wrap(-m))
      case e => e
    else ReadUnsigned(s)
  }

  /** The meaning of an operator-entered amount. */
  function Parsed(s: string): Amount {
    var t := Clean(s);
    if t == "" then Empty else Read(Decimalised(t))
  }

  method ParseEuros(input: string) returns (r: Amount)
    ensures r == Parsed(input)
  {
    hide TrimSpace, Without, LastIndex, Cut, Count, ParseInt, Wrap;
    var s := TrimSpace(input);
    s := Without(Without(s, EURO), ' ');
    if s == "" {
      return Empty;
    }
    ghost var cleaned := s;
    var dot, comma := LastIndex(s, '.'), LastIndex(s, ',');
    if dot.Some? && comma.Some? {
      if comma.value > dot.value {
        s := Without(s, '.');
        var (before, after, _) := Cut(s, ',');
        s := before + "." + after;
      } else {
        s := Without(s, ',');
      }
    } else if comma.Some? {
      var d := |s| - comma.value - 1;
      if Count(s, ',') == 1 && 1 <= d <= 2 {
        s := s[..comma.value] + "." + s[comma.value + 1..];
      } else {
        s := Without(s, ',');
      }
    }
    assert Parsed(input) == Read(s) by {
      assert cleaned == Clean(input) && s == Decimalised(cleaned);
      hide Read;
    }
    hide Parsed, Clean, Decimalised;
    var neg := s != "" && s[0] == '-';
    if neg {
      s := s[1..];
    }
    var (whole, frac, hasFrac) := Cut(s, '.');
    if whole == "" {
      whole := "0";
    }
    var w := ParseInt(whole);
    if w.None? {
      return Invalid;
    }
    var cents := 0;
    if hasFrac {
      if |frac| == 1 {
        frac := frac + "0";
      } else if |frac| > 2 {
        return TooManyDecimals;
      }
      var c := ParseInt(frac);
      if c.None? {
        return Invalid;
      }
      cents := c.value;
    }
    var minor := Wrap(w.value * 100 + cents);
    if neg {
      minor := Wrap(-minor);
    }
    return Minor(minor);
  }

  // ---- the written styles of an amount ----

  function Print3(n: nat): (s: string)
    requires n < 1000
    ensures |s| == 3 && AllDigits(s)
  {
    [DigitChar(n / 100), DigitChar(n / 10 % 10), DigitChar(n % 10)]
  }

  /** Thousands grouped by sep, as 1,234,567. */
  function Grouped(w: nat, sep: char): string {
    if w < 1000 then Print(w) else Grouped(w / 1000, sep) + [sep] + Print3(w % 1000)
  }

  function Sign(neg: bool): string { if neg then "-" else "" }

  /** The exact value an amount written as sign, euros and cents stands for. */
  function Exact(neg: bool, w: nat, c: nat): int { if neg then -(100 * w + c) else 100 * w + c }

  /** What the parser makes of a value: exact modulo 2 to the 64, if the euros alone fit. */
  function Expected(neg: bool, w: nat, c: nat): Amount {
    if w < TWO_63 then Minor(Wrap(Exact(neg, w, c))) else Invalid
  }

  /** Only the characters amounts are written with, neither starting nor ending in white space. */
  predicate Numeric(s: string) {
    forall i :: 0 <= i < |s| ==> IsDigit(s[i]) || s[i] == '-' || s[i] == '.' || s[i] == ','
  }

  lemma NotSpace()
    ensures !IsSpace(EURO) && !IsSpace('-')
    ensures forall c: char :: IsDigit(c) || c == '.' || c == ',' ==> !IsSpace(c)
  {
  }

  lemma CleanNumeric(s: string)
    requires Numeric(s)
    ensures Clean(s) == s
  {
    hide TrimSpace, Without;
    TrimOfTrimmed(s);
    WithoutAbsent(s, EURO);
    WithoutAbsent(s, ' ');
  }

  lemma DigitsAreNotSeparators(s: string)
    requires AllDigits(s)
    ensures '.' !in s && ',' !in s && '-' !in s && '+' !in s && Numeric(s)
  {
  }

  lemma ParseIntOfDigits(s: string)
    requires s != "" && AllDigits(s)
    ensures ParseInt(s) == if Value(s) < TWO_63 then Some(Value(s)) else None
  {
  }

  lemma ReadSigned(neg: bool, u: string)
    requires u == "" || u[0] != '-'
    ensures Read(Sign(neg) + u) ==
            match ReadUnsigned(u)
            case Minor(m) => Minor(if neg then Wrap(-m) else m)
            case e => e
  {
    hide ReadUnsigned, Wrap;
    var s := Sign(neg) + u;
    assert neg ==> s[0] == '-' && s[1..] == u;
    assert !neg ==> s == u;
  }

  lemma ParsedVia(s: string, t: string)
    requires s != "" && Clean(s) == s && Decimalised(s) == t
    ensures Parsed(s) == Read(t)
  {
    hide Clean, Decimalised, Read;
  }

  /** Reading sign, euros, point and cents, once the separators are settled. */
  lemma ReadPointed(neg: bool, w: nat, f: string, c: nat)
    requires AllDigits(f) && 1 <= |f| <= 2 && c < 100
    requires Value(if |f| == 1 then f + "0" else f) == c
    ensures Read(Sign(neg) + Print(w) + "." + f) == Expected(neg, w, c)
  {
    hide Print, Value, Read, ReadUnsigned, Expected, Sign;
    var u := Print(w) + "." + f;
    assert Sign(neg) + Print(w) + "." + f == Sign(neg) + u;
    ReadSigned(neg, u);
    UnsignedPointed(Print(w), f, if |f| == 1 then f + "0" else f);
    ValueOfPrint(w);
    SignedWrap(neg, w, c);
  }

  lemma SignedWrap(neg: bool, w: nat, c: nat)
    ensures Expected(neg, w, c) ==
            if w < TWO_63 then Minor(if neg then Wrap(-Wrap(w * 100 + c)) else Wrap(w * 100 + c)) else Invalid
  {
    WrapOfNegation(100 * w + c);
    hide Wrap;
  }

  lemma UnsignedPointed(whole: string, f: string, cents: string)
    requires whole != "" && AllDigits(whole)
    requires AllDigits(f) && 1 <= |f| <= 2 && cents == if |f| == 1 then f + "0" else f
    requires Value(cents) < 100
    ensures ReadUnsigned(whole + "." + f) ==
            if Value(whole) < TWO_63 then Minor(Wrap(Value(whole) * 100 + Value(cents))) else Invalid
  {
    hide Value, Cut, Wrap, ParseInt;
    CutAt(whole, '.', f);
    ParseIntOfDigits(whole);
    ParseIntOfDigits(cents);
  }

  lemma ReadWhole(neg: bool, w: nat)
    ensures Read(Sign(neg) + Print(w)) == Expected(neg, w, 0)
  {
    hide Print, Value, Read, ReadUnsigned, Expected, Sign;
    ReadSigned(neg, Print(w));
    UnsignedWhole(Print(w));
    ValueOfPrint(w);
    SignedWrap(neg, w, 0);
  }

  lemma UnsignedWhole(whole: string)
    requires whole != "" && AllDigits(whole)
    ensures ReadUnsigned(whole) == if Value(whole) < TWO_63 then Minor(Wrap(Value(whole) * 100)) else Invalid
  {
    hide Value, Wrap, ParseInt, Index;
    DigitsAreNotSeparators(whole);
    ParseIntOfDigits(whole);
  }

  lemma PrintStep(n: nat)
    requires n >= 10
    ensures Print(n) == Print(n / 10) + [DigitChar(n % 10)]
  {
  }

  lemma LastThree(w: nat)
    ensures w / 10 / 10 / 10 == w / 1000
    ensures w / 10 / 10 % 10 == w % 1000 / 100
    ensures w / 10 % 10 == w % 1000 / 10 % 10
    ensures w % 10 == w % 1000 % 10
  {
    var t, r := w / 1000, w % 1000;
    assert w / 10 == 100 * t + r / 10;
    assert w / 10 / 10 == 10 * t + r / 10 / 10;
  }

  lemma PrintByThousands(w: nat)
    requires w >= 1000
    ensures Print(w) == Print(w / 1000) + Print3(w % 1000)
  {
    hide Print;
    var a, b := w / 10, w / 10 / 10;
    LastThree(w);
    PrintStep(w);
    PrintStep(a);
    PrintStep(b);
  }

  /** Dropping the separators of a grouped number leaves the plain number. */
  lemma {:induction false} UngroupedIsPlain(w: nat, sep: char)
    requires !IsDigit(sep)
    ensures Without(Grouped(w, sep), sep) == Print(w)
    ensures forall i :: 0 <= i < |Grouped(w, sep)| ==> IsDigit(Grouped(w, sep)[i]) || Grouped(w, sep)[i] == sep
    ensures Grouped(w, sep) != "" && IsDigit(Grouped(w, sep)[0]) && IsDigit(Grouped(w, sep)[|Grouped(w, sep)| - 1])
    ensures sep in Grouped(w, sep) <==> w >= 1000
  {
    hide Without, Print, Print3;
    if w < 1000 {
      WithoutAbsent(Print(w), sep);
    } else {
      UngroupedIsPlain(w / 1000, sep);
      var g, t := Grouped(w / 1000, sep), Print3(w % 1000);
      WithoutSeparator(g, sep, t);
      PrintByThousands(w);
      assert Grouped(w, sep)[|g|] == sep;
    }
  }

  lemma WithoutSelf(c: char)
    ensures Without([c], c) == ""
  {
    assert [c][..0] == "";
  }

  lemma WithoutSeparator(a: string, sep: char, b: string)
    requires sep !in b
    ensures Without(a + [sep] + b, sep) == Without(a, sep) + b
  {
    hide Without;
    WithoutSelf(sep);
    WithoutConcat(a + [sep], b, sep);
    WithoutConcat(a, [sep], sep);
    WithoutAbsent(b, sep);
  }

  function CommaStyle(neg: bool, w: nat, c: nat): string
    requires c < 100
  {
    Sign(neg) + Grouped(w, ',') + "." + Print2(c)
  }

  function DotStyle(neg: bool, w: nat, c: nat): string
    requires c < 100
  {
    Sign(neg) + Grouped(w, '.') + "," + Print2(c)
  }

  function PlainStyle(neg: bool, w: nat, c: nat): string
    requires c < 100
  {
    Sign(neg) + Print(w) + "." + Print2(c)
  }

  /** A text with no comma is left alone. */
  lemma DecimalisedPlain(s: string)
    requires ',' !in s
    ensures Decimalised(s) == s
  {
    hide LastIndex, Without, Cut, Count;
  }

  /** A comma before the last point is a group mark. */
  lemma DecimalisedCommaGroups(head: string, f: string)
    requires AllDigits(f) && ',' in head
    ensures Decimalised(head + "." + f) == Without(head + "." + f, ',')
  {
    hide LastIndex, Without, Cut, Count;
    var s := head + "." + f;
    DigitsAreNotSeparators(f);
    LastIndexAt(head, '.', f);
    assert s == head + ['.'] + f;
    var i :| 0 <= i < |head| && head[i] == ',';
    assert s[i] == ',';
    forall k | |head| < k < |s|
      ensures s[k] != ','
    {
      assert s[k] == f[k - |head| - 1];
    }
  }

  /** A last comma after a point is the decimal separator, and the points are group marks. */
  lemma DecimalisedDotGroups(head: string, f: string, bare: string)
    requires AllDigits(f) && '.' in head && ',' !in head
    requires bare == Without(head, '.')
    ensures Decimalised(head + "," + f) == bare + "." + f
  {
    hide LastIndex, Without, Cut, Count;
    var s := head + "," + f;
    DigitsAreNotSeparators(f);
    LastIndexAt(head, ',', f);
    assert s == head + [','] + f;
    var i :| 0 <= i < |head| && head[i] == '.';
    assert s[i] == '.';
    forall k | |head| < k < |s|
      ensures s[k] != '.'
    {
      assert s[k] == f[k - |head| - 1];
    }
    assert s == head + ("," + f);
    WithoutConcat(head, "," + f, '.');
    WithoutAbsent("," + f, '.');
    assert Without(s, '.') == bare + [','] + f;
    WithoutKeepsAbsence(head, '.', ',');
    CutAt(bare, ',', f);
  }

  /** A single comma with one or two digits after it is the decimal comma. */
  lemma DecimalisedComma(head: string, f: string)
    requires AllDigits(f) && 1 <= |f| <= 2 && '.' !in head && ',' !in head
    ensures Decimalised(head + "," + f) == head + "." + f
  {
    hide LastIndex, Without, Cut, Count;
    var s := head + "," + f;
    DigitsAreNotSeparators(f);
    assert s == head + [','] + f;
    assert '.' !in s;
    LastIndexAt(head, ',', f);
    CountOnce(head, ',', f);
    assert s[..|head|] == head && s[|head| + 1..] == f;
  }

  /** With neither one nor two digits after the last comma and no point, the commas are group marks. */
  lemma DecimalisedWhole(head: string, t: string)
    requires AllDigits(t) && (t == "" || |t| > 2) && '.' !in head
    ensures Decimalised(head + "," + t) == Without(head + "," + t, ',')
  {
    hide LastIndex, Without, Cut, Count;
    var s := head + "," + t;
    DigitsAreNotSeparators(t);
    assert s == head + [','] + t;
    assert '.' !in s;
    LastIndexAt(head, ',', t);
  }

  lemma {:induction false} WithoutKeepsAbsence(s: string, c: char, d: char)
    requires d !in s
    ensures d !in Without(s, c)
  {
    if s == "" {
    } else {
      WithoutKeepsAbsence(s[..|s| - 1], c, d);
    }
  }

  lemma PlainDecimalised(neg: bool, w: nat, f: string)
    requires AllDigits(f) && f != ""
    ensures var s := Sign(neg) + Print(w) + "." + f; Clean(s) == s && Decimalised(s) == s
  {
    hide Print, Clean, Decimalised;
    var s := Sign(neg) + Print(w) + "." + f;
    DigitsAreNotSeparators(Print(w));
    DigitsAreNotSeparators(f);
    CleanNumeric(s);
    assert ',' !in s;
    DecimalisedPlain(s);
  }

  lemma GroupedCharacters(neg: bool, w: nat, sep: char)
    requires sep == '.' || sep == ','
    ensures var head := Sign(neg) + Grouped(w, sep);
            && Numeric(head) && head != "" && !IsSpace(head[0]) && IsDigit(head[|head| - 1])
            && (sep in head <==> w >= 1000)
            && (if sep == '.' then ',' else '.') !in head
            && Without(head, sep) == Sign(neg) + Print(w)
  {
    hide Print, Without, Grouped;
    var g := Grouped(w, sep);
    UngroupedIsPlain(w, sep);
    WithoutConcat(Sign(neg), g, sep);
    WithoutAbsent(Sign(neg), sep);
    if w >= 1000 {
      var i :| 0 <= i < |g| && g[i] == sep;
      assert (Sign(neg) + g)[|Sign(neg)| + i] == sep;
    }
  }

  lemma CommaDecimalised(neg: bool, w: nat, c: nat)
    requires c < 100
    ensures var s := CommaStyle(neg, w, c);
            s != "" && Clean(s) == s && Decimalised(s) == PlainStyle(neg, w, c)
  {
    hide Print, Print2, Without, Grouped, Clean, Decimalised, Sign;
    var s, head, f := CommaStyle(neg, w, c), Sign(neg) + Grouped(w, ','), Print2(c);
    GroupedCharacters(neg, w, ',');
    DigitsAreNotSeparators(f);
    CleanNumeric(s);
    WithoutConcat(head, "." + f, ',');
    WithoutAbsent("." + f, ',');
    assert s == head + "." + f == head + ("." + f);
    if w < 1000 {
      DecimalisedPlain(s);
      WithoutAbsent(head, ',');
    } else {
      DecimalisedCommaGroups(head, f);
    }
  }

  lemma DotDecimalised(neg: bool, w: nat, c: nat)
    requires c < 100
    ensures var s := DotStyle(neg, w, c);
            s != "" && Clean(s) == s && Decimalised(s) == PlainStyle(neg, w, c)
  {
    hide Print, Print2, Without, Grouped, Clean, Decimalised, Sign;
    var s, head, f := DotStyle(neg, w, c), Sign(neg) + Grouped(w, '.'), Print2(c);
    GroupedCharacters(neg, w, '.');
    DigitsAreNotSeparators(f);
    CleanNumeric(s);
    if w < 1000 {
      DecimalisedComma(head, f);
      WithoutAbsent(head, '.');
    } else {
      DecimalisedDotGroups(head, f, Without(head, '.'));
    }
  }

  lemma {:induction false} CountAbsent(s: string, c: char)
    requires c !in s
    ensures Count(s, c) == 0
  {
    if s == "" {
    } else {
      CountAbsent(s[..|s| - 1], c);
    }
  }

  lemma {:induction false} CountOnce(a: string, c: char, b: string)
    requires c !in a && c !in b
    ensures Count(a + [c] + b, c) == 1
  {
    var s := a + [c] + b;
    if b == "" {
      assert s[..|s| - 1] == a;
      CountAbsent(a, c);
    } else {
      assert s[..|s| - 1] == a + [c] + b[..|b| - 1];
      CountOnce(a, c, b[..|b| - 1]);
    }
  }

  /**
   The grouping styles agree on every amount: 1,234,567.89 and 1.234.567,89 and 1234567.89
   parse alike, with or without groups and sign, to the exact value modulo 2 to the 64.
   */
  lemma StylesAgree(neg: bool, w: nat, c: nat)
    requires c < 100
    ensures Parsed(PlainStyle(neg, w, c)) == Expected(neg, w, c)
    ensures Parsed(CommaStyle(neg, w, c)) == Expected(neg, w, c)
    ensures Parsed(DotStyle(neg, w, c)) == Expected(neg, w, c)
  {
    hide Parsed, Print, Print2, Value, Read, Clean, Decimalised, Grouped, Expected, Sign;
    var plain := PlainStyle(neg, w, c);
    PlainDecimalised(neg, w, Print2(c));
    CommaDecimalised(neg, w, c);
    DotDecimalised(neg, w, c);
    ValueOfPrint2(c);
    ReadPointed(neg, w, Print2(c), c);
    ParsedVia(plain, plain);
    ParsedVia(CommaStyle(neg, w, c), plain);
    ParsedVia(DotStyle(neg, w, c), plain);
  }

  /** In each style the parse is exact if and only if the value is representable. */
  lemma ExactIffRepresentable(neg: bool, w: nat, c: nat)
    requires c < 100
    ensures Parsed(PlainStyle(neg, w, c)) == Minor(Exact(neg, w, c)) <==> InInt64(Exact(neg, w, c))
    ensures Parsed(CommaStyle(neg, w, c)) == Minor(Exact(neg, w, c)) <==> InInt64(Exact(neg, w, c))
    ensures Parsed(DotStyle(neg, w, c)) == Minor(Exact(neg, w, c)) <==> InInt64(Exact(neg, w, c))
  {
    hide Parsed, PlainStyle, CommaStyle, DotStyle;
    StylesAgree(neg, w, c);
  }

  /** Whole euros: comma groups are read as groups, never as decimals. */
  lemma CommaGroupedWhole(neg: bool, w: nat)
    ensures Parsed(Sign(neg) + Grouped(w, ',')) == Expected(neg, w, 0)
  {
    hide Parsed, Print, Print3, Without, Clean, Decimalised, Read, Expected, Sign;
    var s := Sign(neg) + Grouped(w, ',');
    GroupedCharacters(neg, w, ',');
    CleanNumeric(s);
    if w < 1000 {
      DecimalisedPlain(s);
      WithoutAbsent(s, ',');
    } else {
      var head, t := Sign(neg) + Grouped(w / 1000, ','), Print3(w % 1000);
      GroupedCharacters(neg, w / 1000, ',');
      assert s == head + "," + t;
      DecimalisedWhole(head, t);
    }
    ParsedVia(s, Sign(neg) + Print(w));
    ReadWhole(neg, w);
  }

  lemma {:induction false} FirstGroup(w: nat) returns (head: string, rest: string)
    requires w >= 1000
    ensures Grouped(w, '.') == head + "." + rest
    ensures head != "" && AllDigits(head) && Value(head) < 1000 && |rest| >= 3
  {
    if w / 1000 < 1000 {
      head, rest := Print(w / 1000), Print3(w % 1000);
      ValueOfPrint(w / 1000);
    } else {
      var r;
      head, r := FirstGroup(w / 1000);
      rest := r + "." + Print3(w % 1000);
      assert Grouped(w, '.') == head + "." + rest;
    }
  }

  /** Dot-grouped whole euros are only understood below one thousand; above, they are refused, never misread. */
  lemma DotGroupedWhole(neg: bool, w: nat)
    ensures Parsed(Sign(neg) + Grouped(w, '.')) == if w < 1000 then Minor(Exact(neg, w, 0)) else TooManyDecimals
  {
    hide Parsed, Print, Print3, Without, Clean, Decimalised, Read, ReadUnsigned, Expected, Wrap, Grouped;
    var g := Grouped(w, '.');
    var s := Sign(neg) + g;
    GroupedCharacters(neg, w, '.');
    UngroupedIsPlain(w, '.');
    CleanNumeric(s);
    DecimalisedPlain(s);
    ParsedVia(s, s);
    if w < 1000 {
      WithoutAbsent(s, '.');
      ReadWhole(neg, w);
      SmallIsExact(neg, w);
    } else {
      var head, rest := FirstGroup(w);
      ReadSigned(neg, g);
      TooLong(head, rest);
    }
  }

  lemma SmallIsExact(neg: bool, w: nat)
    requires w < 1000
    ensures Expected(neg, w, 0) == Minor(Exact(neg, w, 0))
  {
  }

  lemma TooLong(head: string, rest: string)
    requires head != "" && AllDigits(head) && Value(head) < 1000 && |rest| >= 3
    ensures ReadUnsigned(head + "." + rest) == TooManyDecimals
  {
    hide Value, Cut, Wrap, ParseInt;
    DigitsAreNotSeparators(head);
    CutAt(head, '.', rest);
    ParseIntOfDigits(head);
  }

  /** One decimal counts tenths, after a point or a comma alike. */
  lemma OneDecimal(neg: bool, w: nat, d: nat)
    requires d < 10
    ensures Parsed(Sign(neg) + Print(w) + "." + [DigitChar(d)]) == Expected(neg, w, 10 * d)
    ensures Parsed(Sign(neg) + Print(w) + "," + [DigitChar(d)]) == Expected(neg, w, 10 * d)
  {
    hide Parsed, Print, Value, Clean, Decimalised, Read, Expected;
    var f, head := [DigitChar(d)], Sign(neg) + Print(w);
    var point, comma := head + "." + f, head + "," + f;
    ValueOfTenths(d);
    ReadPointed(neg, w, f, 10 * d);
    DigitsAreNotSeparators(Print(w));
    CleanNumeric(point);
    CleanNumeric(comma);
    DecimalisedPlain(point);
    DecimalisedComma(head, f);
    ParsedVia(point, point);
    ParsedVia(comma, point);
  }

  lemma ValueOfTenths(d: nat)
    requires d < 10
    ensures Value([DigitChar(d)] + "0") == 10 * d
  {
    assert [DigitChar(d)] + "0" == Print2(10 * d);
    hide Value;
    ValueOfPrint2(10 * d);
  }

  // ---- round trip ----

  lemma SymbolIsDropped(neg: bool, body: string)
    requires Numeric(body)
    ensures Clean(Sign(neg) + ([EURO] + body)) == Sign(neg) + body
  {
    hide TrimSpace, Without, IsSpace;
    var s := Sign(neg) + [EURO] + body;
    var t := Sign(neg) + body;
    assert Sign(neg) + ([EURO] + body) == s;
    NotSpace();
    assert s[0] == if neg then '-' else EURO;
    assert s[|s| - 1] == if body == "" then EURO else body[|body| - 1];
    TrimOfTrimmed(s);
    WithoutSeparator(Sign(neg), EURO, body);
    WithoutAbsent(Sign(neg), EURO);
    WithoutAbsent(t, ' ');
  }

  lemma RemIsSmall(x: int)
    ensures -100 < Rem(x, 100) < 100
  {
  }

  lemma BodyIsNumeric(a: int, b: int)
    requires -100 < b < 100
    ensures Numeric(FormatInt(a) + "." + FormatInt02(b)) && FormatInt02(b) != ""
  {
    hide Print, Print2;
  }

  lemma RenderedIs(m: int, symbol: string)
    requires InInt64(m)
    ensures var v := if m < 0 then Wrap(-m) else m;
            Rendered(m, symbol) ==
            Sign(m < 0) + (symbol + (FormatInt(Quot(v, 100)) + "." + FormatInt02(Rem(v, 100))))
  {
    hide FormatInt, FormatInt02, Quot, Rem, Wrap;
    var v := if m < 0 then Wrap(-m) else m;
    RemIsSmall(v);
    var a, b := FormatInt(Quot(v, 100)), FormatInt02(Rem(v, 100));
    assert symbol + a + "." + b == symbol + (a + "." + b);
  }

  /** Both printed forms clean to the same text. */
  lemma RenderedCleans(m: int)
    requires InInt64(m)
    ensures Clean(PlainMinor(m)) == PlainMinor(m) == Clean(FormatMinor(m))
  {
    hide Print, Print2, Clean, Quot, Rem, Wrap, Rendered, FormatInt, FormatInt02, Sign, Numeric;
    var v := if m < 0 then Wrap(-m) else m;
    RemIsSmall(v);
    var body := FormatInt(Quot(v, 100)) + "." + FormatInt02(Rem(v, 100));
    BodyIsNumeric(Quot(v, 100), Rem(v, 100));
    RenderedIs(m, "");
    RenderedIs(m, [EURO]);
    assert "" + body == body;
    SymbolIsDropped(m < 0, body);
    SignedIsNumeric(m < 0, body);
    CleanNumeric(Sign(m < 0) + body);
  }

  lemma SignedIsNumeric(neg: bool, body: string)
    requires Numeric(body)
    ensures Numeric(Sign(neg) + body)
  {
  }

  /** The least value prints as --92233720368547758.-8, and that text still parses to it. */
  lemma LeastValueRoundTrips()
    ensures Parsed(PlainMinor(-TWO_63)) == Minor(-TWO_63)
  {
    hide Print, Value, Clean, Decimalised, Parsed, Read, ReadUnsigned;
    var p := Print(92233720368547758);
    var s := PlainMinor(-TWO_63);
    LeastValuePrints();
    RenderedCleans(-TWO_63);
    DigitsAreNotSeparators(p);
    DecimalisedPlain(s);
    ParsedVia(s, s);
    var u := "-" + p + "." + "-8";
    assert s == "-" + u;
    ReadNegative(u);
    ValueOfPrint(92233720368547758);
    NegativePieces(p);
  }

  lemma ReadNegative(u: string)
    ensures Read("-" + u) ==
            match ReadUnsigned(u)
            case Minor(m) => Minor(Wrap(-m))
            case e => e
  {
    hide ReadUnsigned, Wrap;
    assert ("-" + u)[1..] == u;
  }

  lemma LeastValuePrints()
    ensures PlainMinor(-TWO_63) == "--" + Print(92233720368547758) + ".-8"
  {
    hide Print;
    assert Wrap(TWO_63) == -TWO_63;
    assert Quot(-TWO_63, 100) == -92233720368547758 && Rem(-TWO_63, 100) == -8;
    PrintOfEight();
  }

  lemma PrintOfEight()
    ensures Print(8) == "8"
  {
  }

  /** A signed whole part and signed cents are accepted, each by its own ParseInt. */
  lemma NegativePieces(p: string)
    requires AllDigits(p) && p != "" && Value(p) == 92233720368547758
    ensures ReadUnsigned("-" + p + "." + "-8") == Minor(-TWO_63)
  {
    hide Value, Cut;
    DigitsAreNotSeparators(p);
    CutAt("-" + p, '.', "-8");
    assert ("-" + p)[1..] == p && "-8"[1..] == "8";
    ValueOfEight();
  }

  lemma ValueOfEight()
    ensures Value("8") == 8
  {
    assert "8"[..0] == "";
  }

  lemma ParsedByCleaning(s: string, t: string)
    requires Clean(s) == Clean(t)
    ensures Parsed(s) == Parsed(t)
  {
    hide Clean;
  }

  lemma PlainMinorIsPlainStyle(m: int)
    requires -TWO_63 < m < TWO_63
    ensures var v := if m < 0 then -m else m; PlainMinor(m) == PlainStyle(m < 0, v / 100, v % 100)
  {
    hide Print, Print2;
  }

  /** Every int64 amount survives printing and parsing, with and without the symbol. */
  lemma RoundTrip(m: int)
    requires InInt64(m)
    ensures Parsed(PlainMinor(m)) == Minor(m)
    ensures Parsed(FormatMinor(m)) == Minor(m)
  {
    hide Parsed, Clean, PlainMinor, FormatMinor, PlainStyle;
    RenderedCleans(m);
    ParsedByCleaning(PlainMinor(m), FormatMinor(m));
    if m == -TWO_63 {
      LeastValueRoundTrips();
    } else {
      var neg, v := m < 0, if m < 0 then -m else m;
      PlainMinorIsPlainStyle(m);
      StylesAgree(neg, v / 100, v % 100);
    }
  }
}
