/** The other texts an operator may type: what each is read as, or why it is refused. */
module MoneyTexts {
  import opened Decimal
  import opened Money
  import opened Strings
  import opened Wrappers

  // ---- blanks and symbols ----

  lemma TrimDecomposes(s: string) returns (a: string, b: string)
    ensures AllSpace(a) && AllSpace(b) && s == a + TrimSpace(s) + b
  {
    hide TrimLeft, TrimRight;
    var l := TrimLeft(s);
    var t := TrimRight(l);
    a, b := s[..|s| - |l|], l[|t|..];
    assert l == t + b;
    assert s == a + l;
  }

  lemma TrimAround(a: string, s: string, b: string)
    requires AllSpace(a) && AllSpace(b)
    ensures TrimSpace(a + s + b) == TrimSpace(s)
  {
    hide TrimSpace;
    var p, q := TrimDecomposes(s);
    var t := TrimSpace(s);
    assert a + s + b == (a + p) + t + (q + b);
    TrimBlanks(a + p, t, q + b);
  }

  /** White space around an amount changes nothing. */
  lemma BlanksAround(a: string, s: string, b: string)
    requires AllSpace(a) && AllSpace(b)
    ensures Parsed(a + s + b) == Parsed(s)
  {
    hide TrimSpace, Without, Decimalised, Read;
    TrimAround(a, s, b);
  }

  /** A space inside an amount, or a euro sign anywhere in it, changes nothing. */
  lemma MarkInside(x: string, c: char, y: string)
    requires c == '€' || (c == ' ' && x != "" && y != "")
    requires (x != "" ==> !IsSpace(x[0])) && (y != "" ==> !IsSpace(y[|y| - 1]))
    requires (x == "" && y != "" ==> !IsSpace(y[0])) && (y == "" && x != "" ==> !IsSpace(x[|x| - 1]))
    ensures Parsed(x + [c] + y) == Parsed(x + y)
  {
    hide TrimSpace, Without, IsSpace, Decimalised, Read;
    var s := x + [c] + y;
    NotSpace();
    TrimOfTrimmed(s);
    TrimOfTrimmed(x + y);
    DropsAlike(x, c, y);
  }

  lemma DropsAlike(x: string, c: char, y: string)
    requires c == '€' || c == ' '
    ensures Without(Without(x + [c] + y, '€'), ' ') == Without(Without(x + y, '€'), ' ')
  {
    hide Without;
    if c == '€' {
      DropOne(x, c, y);
    } else {
      WithoutConcat(x + [c], y, '€');
      WithoutConcat(x, [c], '€');
      WithoutConcat(x, y, '€');
      WithoutAbsent([c], '€');
      DropOne(Without(x, '€'), c, Without(y, '€'));
    }
  }

  lemma DropOne(x: string, c: char, y: string)
    ensures Without(x + [c] + y, c) == Without(x + y, c)
  {
    hide Without;
    WithoutConcat(x + [c], y, c);
    WithoutConcat(x, [c], c);
    WithoutConcat(x, y, c);
    WithoutSelf(c);
  }

  /** Nothing but spaces and euro signs is an empty amount. */
  lemma NothingIsEmpty(s: string)
    requires forall i :: 0 <= i < |s| ==> s[i] == ' ' || s[i] == '€'
    ensures Parsed(s) == Empty
  {
    hide TrimSpace, Without;
    var a, b := TrimDecomposes(s);
    var t := TrimSpace(s);
    forall i | 0 <= i < |t|
      ensures t[i] == ' ' || t[i] == '€'
    {
      assert s[|a| + i] == t[i];
    }
    WithoutAll(t);
  }

  lemma {:induction false} WithoutAll(t: string)
    requires forall i :: 0 <= i < |t| ==> t[i] == ' ' || t[i] == '€'
    ensures Without(Without(t, '€'), ' ') == ""
  {
    hide Without;
    if t == "" {
      WithoutEmpty('€');
      WithoutEmpty(' ');
    } else {
      var t', x := t[..|t| - 1], t[|t| - 1];
      WithoutAll(t');
      assert t == t' + [x];
      WithoutStep(t', x, '€');
      WithoutStep(Without(t', '€'), x, ' ');
      assert Without(t', '€') + "" == Without(t', '€');
    }
  }

  /** Anything else is not. */
  lemma SomethingIsNotEmpty(s: string, i: nat)
    requires i < |s| && !IsSpace(s[i]) && s[i] != '€'
    ensures Parsed(s) != Empty
  {
    hide Clean, Decimalised, Read;
    CleanKeeps(s, i);
    ReadIsNotEmpty(Decimalised(Clean(s)));
  }

  lemma ReadIsNotEmpty(t: string)
    ensures Read(t) != Empty
  {
    hide Cut, ParseInt, Wrap;
  }

  lemma CleanKeeps(s: string, i: nat)
    requires i < |s| && !IsSpace(s[i]) && s[i] != '€'
    ensures s[i] in Clean(s)
  {
    hide TrimSpace, Without;
    var a, b := TrimDecomposes(s);
    var t := TrimSpace(s);
    assert |a| <= i < |a| + |t| && t[i - |a|] == s[i];
    WithoutKeeps(t, '€', s[i]);
    WithoutKeeps(Without(t, '€'), ' ', s[i]);
  }

  lemma {:induction false} WithoutKeeps(s: string, c: char, x: char)
    requires x in s && x != c
    ensures x in Without(s, c)
  {
    hide Without;
    if s == "" {
    } else {
      var s', y := s[..|s| - 1], s[|s| - 1];
      assert s == s' + [y];
      WithoutStep(s', y, c);
      var w := Without(s', c);
      if y != x {
        WithoutKeeps(s', c, x);
        var i :| 0 <= i < |w| && w[i] == x;
        assert Without(s, c)[i] == x;
      } else {
        assert Without(s, c)[|w|] == x;
      }
    }
  }

  // ---- separators ----

  /** What one or two decimal digits count. */
  function Cents(f: string): nat
    requires AllDigits(f)
  {
    if |f| == 1 then 10 * Value(f) else Value(f)
  }

  lemma CentsAre(f: string)
    requires AllDigits(f) && 1 <= |f| <= 2
    ensures var padded := if |f| == 1 then f + "0" else f;
            AllDigits(padded) && Value(padded) == Cents(f) < 100
  {
    TwoDigits(if |f| == 1 then f + "0" else f);
    if |f| == 1 {
      assert f == [DigitChar(DigitVal(f[0]))];
      OneDigit(DigitVal(f[0]));
    }
  }

  lemma WholeIsZero(a: string)
    requires AllDigits(a)
    ensures Value(if a == "" then "0" else a) == Value(a)
  {
    assert "0"[..0] == "";
  }

  lemma ReadUnsignedWhole(a: string)
    requires AllDigits(a)
    ensures ReadUnsigned(a) == if Value(a) < TWO_63 then Minor(Wrap(Value(a) * 100)) else Invalid
  {
    hide Value, Wrap, ParseInt, Index;
    DigitsAreNotSeparators(a);
    WholeIsZero(a);
    ParseIntOfDigits(if a == "" then "0" else a);
  }

  lemma ReadUnsignedPointed(a: string, f: string)
    requires AllDigits(a) && AllDigits(f)
    ensures ReadUnsigned(a + "." + f) ==
            if Value(a) >= TWO_63 then Invalid
            else if |f| > 2 then TooManyDecimals
            else if f == "" then Invalid
            else Minor(Wrap(Value(a) * 100 + Cents(f)))
  {
    hide Value, Wrap, Cut, ParseInt, Cents;
    DigitsAreNotSeparators(a);
    CutAt(a, '.', f);
    WholeIsZero(a);
    ParseIntOfDigits(if a == "" then "0" else a);
    NoDigitsNoNumber();
    if 1 <= |f| <= 2 {
      CentsAre(f);
      ParseIntOfDigits(if |f| == 1 then f + "0" else f);
      SmallCents(Cents(f));
    }
  }

  lemma NoDigitsNoNumber()
    ensures ParseInt("") == None
  {
  }

  lemma SmallCents(v: nat)
    requires v < 100
    ensures v < TWO_63
  {
  }

  /** Reading a number with at most a point: its decimals are one or two digits, its euros may be missing. */
  lemma ReadDigits(neg: bool, a: string, f: string)
    requires AllDigits(a) && AllDigits(f)
    ensures Read(Sign(neg) + a) == Expected(neg, Value(a), 0)
    ensures Read(Sign(neg) + (a + "." + f)) ==
            if Value(a) >= TWO_63 then Invalid
            else if |f| > 2 then TooManyDecimals
            else if f == "" then Invalid
            else Expected(neg, Value(a), Cents(f))
  {
    hide Value, Read, ReadUnsigned, Expected, Sign, Cents;
    ReadSigned(neg, a);
    ReadSigned(neg, a + "." + f);
    ReadUnsignedWhole(a);
    ReadUnsignedPointed(a, f);
    SignedWrap(neg, Value(a), 0);
    SignedWrap(neg, Value(a), Cents(f));
  }

  lemma SignedDigits(neg: bool, a: string)
    requires Numeric(a)
    ensures Clean(Sign(neg) + a) == Sign(neg) + a
    ensures '.' !in a ==> '.' !in Sign(neg) + a
    ensures ',' !in a ==> ',' !in Sign(neg) + a
  {
    hide Clean;
    CleanNumeric(Sign(neg) + a);
  }

  /**
   A point: one or two digits after it are decimals, more are refused, none is invalid; the digits
   before it may be missing.
   */
  lemma PointRule(neg: bool, a: string, f: string)
    requires AllDigits(a) && AllDigits(f)
    ensures Parsed(Sign(neg) + (a + "." + f)) ==
            if Value(a) >= TWO_63 then Invalid
            else if |f| > 2 then TooManyDecimals
            else if f == "" then Invalid
            else Expected(neg, Value(a), Cents(f))
  {
    hide Value, Parsed, Clean, Decimalised, Read, Expected, Cents;
    var u := a + "." + f;
    DigitsAreNotSeparators(a);
    DigitsAreNotSeparators(f);
    SignedDigits(neg, u);
    DecimalisedPlain(Sign(neg) + u);
    ParsedVia(Sign(neg) + u, Sign(neg) + u);
    ReadDigits(neg, a, f);
  }

  lemma ParsedAs(s: string, t: string)
    requires Clean(s) == s && s != "" && Decimalised(s) == t
    ensures Parsed(s) == Read(t)
  {
    hide Clean, Decimalised, Read;
  }

  /** A single comma: decimal with one or two digits after it, a group mark with none or more. */
  lemma CommaRule(neg: bool, a: string, b: string)
    requires AllDigits(a) && AllDigits(b)
    ensures AllDigits(a + b)
    ensures Parsed(Sign(neg) + (a + "," + b)) ==
            if 1 <= |b| <= 2 then Expected(neg, Value(a), Cents(b)) else Expected(neg, Value(a + b), 0)
  {
    hide Value, Parsed, Clean, Decimalised, Read, Expected, Cents;
    CommaDigits(a, b);
    SignedDigits(neg, a + "," + b);
    CommaSettled(neg, a, b);
    var s := Sign(neg) + (a + "," + b);
    if 1 <= |b| <= 2 {
      ParsedAs(s, Sign(neg) + (a + "." + b));
      ReadDigits(neg, a, b);
      PointedIsExpected(neg, a, b);
    } else {
      ParsedAs(s, Sign(neg) + (a + b));
      ReadDigits(neg, a + b, "");
    }
  }

  lemma CommaDigits(a: string, b: string)
    requires AllDigits(a) && AllDigits(b)
    ensures Numeric(a + "," + b)
  {
  }

  lemma CommaSettled(neg: bool, a: string, b: string)
    requires AllDigits(a) && AllDigits(b)
    ensures Decimalised(Sign(neg) + (a + "," + b)) == Sign(neg) + if 1 <= |b| <= 2 then a + "." + b else a + b
  {
    hide Decimalised, Without, Clean, Sign;
    var head := Sign(neg) + a;
    SignIs(neg);
    DigitsAreNotSeparators(a);
    assert Sign(neg) + (a + "," + b) == head + "," + b;
    if 1 <= |b| <= 2 {
      DecimalisedComma(head, b);
      assert head + "." + b == Sign(neg) + (a + "." + b);
    } else {
      DecimalisedWhole(head, b);
      DigitsAreNotSeparators(b);
      WithoutSeparator(head, ',', b);
      WithoutAbsent(head, ',');
      assert head + b == Sign(neg) + (a + b);
    }
  }

  lemma PointedIsExpected(neg: bool, a: string, b: string)
    requires AllDigits(a) && AllDigits(b)
    ensures Value(a) >= TWO_63 ==> Expected(neg, Value(a), Cents(b)) == Invalid
  {
    hide Value, Cents;
  }

  /** A sign or a comma alone is read as nothing at all, not as garbage. */
  lemma BareMarks()
    ensures Parsed("-") == Minor(0) && Parsed(",") == Minor(0)
  {
    hide Parsed, Clean, Decimalised, Read, Value;
    assert Sign(false) + ("" + "," + "") == "," && Sign(true) + "" == "-" && "" + "" == "";
    CommaRule(false, "", "");
    SignedDigits(true, "");
    DecimalisedPlain("-");
    ParsedAs("-", "-");
    ReadDigits(true, "", "");
    NothingIsZero();
  }

  lemma NothingIsZero()
    ensures Value("") == 0
  {
  }

  /** Several commas and no point are all group marks, wherever they stand. */
  lemma ManyCommas(neg: bool, a: string, b: string, c: string)
    requires AllDigits(a) && AllDigits(b) && AllDigits(c)
    ensures AllDigits(a + b + c)
    ensures Parsed(Sign(neg) + (a + "," + b + "," + c)) == Expected(neg, Value(a + b + c), 0)
  {
    hide Value, Parsed, Clean, Decimalised, Read, Expected, Without;
    var head := Sign(neg) + a;
    var s := Sign(neg) + (a + "," + b + "," + c);
    DigitsAreNotSeparators(a);
    DigitsAreNotSeparators(b);
    DigitsAreNotSeparators(c);
    SignedDigits(neg, a);
    SignedDigits(neg, a + "," + b + "," + c);
    assert s == (head + "," + b) + "," + c;
    DecimalisedGroups(head, b, c);
    WithoutSeparator(head + "," + b, ',', c);
    WithoutSeparator(head, ',', b);
    WithoutAbsent(head, ',');
    assert head + b + c == Sign(neg) + (a + b + c);
    ParsedAs(s, Sign(neg) + (a + b + c));
    ReadDigits(neg, a + b + c, "");
  }

  lemma DecimalisedGroups(a: string, b: string, c: string)
    requires '.' !in a && '.' !in b && '.' !in c && ',' !in a && ',' !in b && ',' !in c
    ensures Decimalised((a + "," + b) + "," + c) == Without((a + "," + b) + "," + c, ',')
  {
    hide LastIndex, Without, Cut, Count;
    var s := (a + "," + b) + "," + c;
    assert s == (a + "," + b) + [','] + c && '.' !in s;
    LastIndexAt(a + "," + b, ',', c);
    CountMore(a + "," + b, ',', c);
    CountOnce(a, ',', b);
    assert a + "," + b == a + [','] + b;
  }

  lemma {:induction false} CountMore(a: string, c: char, b: string)
    requires c !in b
    ensures Count(a + [c] + b, c) == Count(a, c) + 1
  {
    var s := a + [c] + b;
    if b == "" {
      assert s[..|s| - 1] == a;
    } else {
      assert s[..|s| - 1] == a + [c] + b[..|b| - 1];
      CountMore(a, c, b[..|b| - 1]);
    }
  }

  /** Amounts grouped by spaces, with a decimal comma and possibly the symbol in front. */
  lemma SpaceGrouped(neg: bool, w: nat, c: nat)
    requires c < 100
    ensures Parsed(Sign(neg) + Grouped(w, ' ') + "," + Print2(c)) == Expected(neg, w, c)
    ensures Parsed("€ " + Grouped(w, ' ') + "," + Print2(c)) == Expected(false, w, c)
  {
    hide Parsed, Print, Print2, Value, Expected, Grouped, Cents, Sign;
    SpacesGo(neg, w, c);
    SpacesGo(false, w, c);
    ValueOfPrint(w);
    ValueOfPrint2(c);
    CommaRule(neg, Print(w), Print2(c));
    CommaRule(false, Print(w), Print2(c));
    TwoCents(Print2(c));
    var g := Grouped(w, ' ') + "," + Print2(c);
    assert Sign(neg) + (Print(w) + "," + Print2(c)) == Sign(neg) + Print(w) + "," + Print2(c);
    assert Sign(false) + (Print(w) + "," + Print2(c)) == Sign(false) + Print(w) + "," + Print2(c);
    UnsignedIs(g);
    assert Sign(false) + Grouped(w, ' ') + "," + Print2(c) == Sign(false) + g;
    StartsDense(w, c);
    MarkInside("€", ' ', g);
    MarkInside("", '€', g);
    NotSpace();
    assert "€ " + Grouped(w, ' ') + "," + Print2(c) == "€" + [' '] + g;
    assert "" + ['€'] + g == "€" + g && "" + g == g;
  }

  lemma UnsignedIs(g: string)
    ensures Sign(false) + g == g
  {
  }

  lemma TwoCents(f: string)
    requires AllDigits(f) && |f| == 2
    ensures Cents(f) == Value(f)
  {
  }

  lemma StartsDense(w: nat, c: nat)
    requires c < 100
    ensures var g := Grouped(w, ' ') + "," + Print2(c); g != "" && !IsSpace(g[0]) && !IsSpace(g[|g| - 1])
  {
    hide Print, Print2, Grouped, Without, IsSpace;
    UngroupedIsPlain(w, ' ');
    NotSpace();
  }

  /** Group spaces go; what is left is the plain writing. */
  lemma SpacesGo(neg: bool, w: nat, c: nat)
    requires c < 100
    ensures Parsed(Sign(neg) + Grouped(w, ' ') + "," + Print2(c)) == Parsed(Sign(neg) + Print(w) + "," + Print2(c))
  {
    hide Parsed, Print, Print2, Without, Grouped, Clean, Sign, IsSpace;
    var s, t := Sign(neg) + Grouped(w, ' ') + "," + Print2(c), Sign(neg) + Print(w) + "," + Print2(c);
    SpacedCleans(neg, w, c);
    PlainCleans(neg, w, c);
    ParsedByCleaning(s, t);
  }

  lemma SignIs(neg: bool)
    ensures Sign(neg) == "" || Sign(neg) == "-"
  {
  }

  lemma SpacedCleans(neg: bool, w: nat, c: nat)
    requires c < 100
    ensures Clean(Sign(neg) + Grouped(w, ' ') + "," + Print2(c)) == Sign(neg) + Print(w) + "," + Print2(c)
  {
    hide Print, Print2, Without, Grouped, TrimSpace, IsSpace, Sign;
    var g, f := Grouped(w, ' '), Print2(c);
    var s := Sign(neg) + g + "," + f;
    SignIs(neg);
    UngroupedIsPlain(w, ' ');
    NotSpace();
    TrimOfTrimmed(s);
    WithoutAbsent(s, '€');
    WithoutConcat(Sign(neg) + g, "," + f, ' ');
    WithoutConcat(Sign(neg), g, ' ');
    WithoutAbsent(Sign(neg), ' ');
    WithoutAbsent("," + f, ' ');
    assert s == Sign(neg) + g + ("," + f);
    assert Sign(neg) + Print(w) + ("," + f) == Sign(neg) + Print(w) + "," + f;
  }

  lemma PlainCleans(neg: bool, w: nat, c: nat)
    requires c < 100
    ensures var t := Sign(neg) + Print(w) + "," + Print2(c); Clean(t) == t
  {
    hide Print, Print2, Clean, Sign;
    SignIs(neg);
    DigitsAreNotSeparators(Print(w));
    DigitsAreNotSeparators(Print2(c));
    CleanNumeric(Sign(neg) + Print(w) + "," + Print2(c));
  }

  // ---- refusals ----

  predicate Foreign(x: char) { !IsDigit(x) && x != '-' && x != '+' && x != '.' && x != ',' }

  /** A character that is neither digit, sign, separator, blank nor euro sign makes any text no amount. */
  lemma ForeignIsRefused(s: string, i: nat)
    requires i < |s| && Foreign(s[i]) && !IsSpace(s[i]) && s[i] != '€'
    ensures Parsed(s) == Invalid || Parsed(s) == TooManyDecimals
  {
    hide Clean, Decimalised, Read;
    CleanKeeps(s, i);
    DecimalisedKeeps(Clean(s), s[i]);
    ReadRefuses(Decimalised(Clean(s)), s[i]);
  }

  lemma CutKeeps(s: string, c: char, x: char)
    requires x in s && x != c
    ensures x in Cut(s, c).0 || x in Cut(s, c).1
  {
    hide Index;
    var i :| 0 <= i < |s| && s[i] == x;
    if Index(s, c).Some? {
      var k := Index(s, c).value;
      if i < k {
        assert s[..k][i] == x;
      } else {
        assert s[k + 1..][i - k - 1] == x;
      }
    }
  }

  lemma DecimalisedKeeps(s: string, x: char)
    requires x in s && Foreign(x)
    ensures x in Decimalised(s)
  {
    hide LastIndex, Without, Cut, Count;
    WithoutKeeps(s, '.', x);
    WithoutKeeps(s, ',', x);
    CutKeeps(Without(s, '.'), ',', x);
    var i :| 0 <= i < |s| && s[i] == x;
    if LastIndex(s, ',').Some? {
      var k := LastIndex(s, ',').value;
      if i < k {
        assert s[..k][i] == x;
      } else {
        assert s[k + 1..][i - k - 1] == x;
      }
    }
  }

  lemma ForeignNoNumber(t: string, x: char)
    requires x in t && Foreign(x)
    ensures ParseInt(t) == None
  {
    hide Value;
    var i :| 0 <= i < |t| && t[i] == x;
    if i > 0 {
      assert t[1..][i - 1] == x;
    }
  }

  lemma ReadUnsignedRefuses(t: string, x: char)
    requires x in t && Foreign(x)
    ensures ReadUnsigned(t) == Invalid || ReadUnsigned(t) == TooManyDecimals
  {
    hide Cut, ParseInt, Wrap;
    CutKeeps(t, '.', x);
    var (w, f, _) := Cut(t, '.');
    if x in w {
      ForeignNoNumber(w, x);
    } else {
      CutWithRest(t);
      ForeignNoNumber(f, x);
      ForeignNoNumber(f + "0", x);
    }
  }

  lemma CutWithRest(t: string)
    ensures Cut(t, '.').1 != "" ==> Cut(t, '.').2
  {
    hide Index;
  }

  lemma ReadRefuses(t: string, x: char)
    requires x in t && Foreign(x)
    ensures Read(t) == Invalid || Read(t) == TooManyDecimals
  {
    hide ReadUnsigned, Wrap;
    var i :| 0 <= i < |t| && t[i] == x;
    if t[0] == '-' {
      assert t[1..][i - 1] == x;
      ReadUnsignedRefuses(t[1..], x);
    } else {
      ReadUnsignedRefuses(t, x);
    }
  }

  /** Two points and no comma are never an amount. */
  lemma TwoPoints(neg: bool, a: string, b: string, c: string)
    requires AllDigits(a) && AllDigits(b) && AllDigits(c)
    ensures var r := Parsed(Sign(neg) + (a + "." + (b + "." + c))); r == Invalid || r == TooManyDecimals
  {
    hide Value, Parsed, Clean, Decimalised, Read, ReadUnsigned, Sign;
    var u := a + "." + (b + "." + c);
    SignIs(neg);
    DigitsAreNotSeparators(a);
    DigitsAreNotSeparators(b);
    DigitsAreNotSeparators(c);
    SignedDigits(neg, u);
    DecimalisedPlain(Sign(neg) + u);
    ParsedVia(Sign(neg) + u, Sign(neg) + u);
    ReadSigned(neg, u);
    SeparatorInDecimals(a, b + "." + c, '.');
  }

  /** Once the decimal separator is settled, a further separator after it is refused. */
  lemma SeparatorInDecimals(a: string, f: string, x: char)
    requires '.' !in a && x in f && (x == '.' || x == ',')
    ensures ReadUnsigned(a + "." + f) == Invalid || ReadUnsigned(a + "." + f) == TooManyDecimals
  {
    hide Cut, Value, Wrap;
    CutAt(a, '.', f);
    SeparatorNoNumber(f, x);
    SeparatorNoNumber(f + "0", x);
    hide ParseInt;
  }

  lemma SeparatorNoNumber(t: string, x: char)
    requires x in t && (x == '.' || x == ',')
    ensures ParseInt(t) == None
  {
    hide Value;
    var i :| 0 <= i < |t| && t[i] == x;
    if i > 0 {
      assert t[1..][i - 1] == x;
    }
  }

  /** With a point before them, two commas are never an amount: only the first becomes the decimal point. */
  lemma TwoCommasAfterPoint(neg: bool, a: string, b: string, c: string, d: string)
    requires AllDigits(a) && AllDigits(b) && AllDigits(c) && AllDigits(d)
    ensures var r := Parsed(Sign(neg) + (a + "." + b + "," + c + "," + d)); r == Invalid || r == TooManyDecimals
  {
    hide Value, Parsed, Clean, Decimalised, Read, ReadUnsigned, Sign, Without;
    var u := a + "." + b + "," + c + "," + d;
    var s := Sign(neg) + u;
    SignIs(neg);
    DigitsAreNotSeparators(a);
    DigitsAreNotSeparators(b);
    DigitsAreNotSeparators(c);
    DigitsAreNotSeparators(d);
    SignedDigits(neg, u);
    FirstCommaIsPoint(Sign(neg) + a, b, c, d);
    assert s == Sign(neg) + a + "." + b + "," + c + "," + d;
    var t := a + b + "." + (c + "," + d);
    assert Sign(neg) + a + b + "." + (c + "," + d) == Sign(neg) + t;
    ParsedAs(s, Sign(neg) + t);
    ReadSigned(neg, t);
    SeparatorInDecimals(a + b, c + "," + d, ',');
  }

  lemma FirstCommaIsPoint(a: string, b: string, c: string, d: string)
    requires '.' !in a && '.' !in b && '.' !in c && '.' !in d && ',' !in a && ',' !in b && ',' !in c && ',' !in d
    ensures Decimalised(a + "." + b + "," + c + "," + d) == a + b + "." + (c + "," + d)
  {
    hide LastIndex, Without, Cut, Count;
    var s := a + "." + b + "," + c + "," + d;
    var rest := b + "," + c + "," + d;
    assert s == a + ['.'] + rest;
    LastIndexAt(a, '.', rest);
    assert s == (a + "." + b + "," + c) + [','] + d;
    LastIndexAt(a + "." + b + "," + c, ',', d);
    WithoutSeparator(a, '.', rest);
    WithoutAbsent(a, '.');
    assert Without(s, '.') == (a + b) + [','] + (c + "," + d);
    CutAt(a + b, ',', c + "," + d);
  }

  // ---- signs ----

  /** The whole part and the cents each admit a sign of their own. */
  lemma SignedParts(a: string, d: nat)
    requires AllDigits(a) && a != "" && d < 10
    ensures Parsed("+" + a) == Expected(false, Value(a), 0)
    ensures Parsed("--" + a) == if Value(a) <= TWO_63 then Minor(Wrap(Value(a) * 100)) else Invalid
    ensures Parsed(a + ".-" + [DigitChar(d)]) ==
            if Value(a) < TWO_63 then Minor(Wrap(Value(a) * 100 - d)) else Invalid
    ensures Parsed(a + ".+" + [DigitChar(d)]) ==
            if Value(a) < TWO_63 then Minor(Wrap(Value(a) * 100 + d)) else Invalid
  {
    hide Value, Parsed, Clean, Decimalised, Read, ReadUnsigned, Expected, Wrap;
    var plus, minuses, less, more := "+" + a, "--" + a, a + ".-" + [DigitChar(d)], a + ".+" + [DigitChar(d)];
    DigitsAreNotSeparators(a);
    PlusCleans(plus);
    PlusCleans(more);
    CleanNumeric(minuses);
    CleanNumeric(less);
    DecimalisedPlain(plus);
    DecimalisedPlain(minuses);
    DecimalisedPlain(less);
    DecimalisedPlain(more);
    ParsedVia(plus, plus);
    ParsedVia(minuses, minuses);
    ParsedVia(less, less);
    ParsedVia(more, more);
    assert minuses == "-" + ("-" + a);
    ReadNegative("-" + a);
    UnsignedReads(plus);
    UnsignedReads(less);
    UnsignedReads(more);
    SignedWholes(a);
    SignedCents(a, d, '-');
    SignedCents(a, d, '+');
    SignedWrap(false, Value(a), 0);
    WrapOfNegation(0 - Value(a) * 100);
    assert "." + "-" == ".-" && "." + "+" == ".+";
    assert less == a + "." + ("-" + [DigitChar(d)]) && more == a + "." + ("+" + [DigitChar(d)]);
  }

  lemma PlusCleans(s: string)
    requires forall i :: 0 <= i < |s| ==> IsDigit(s[i]) || s[i] == '+' || s[i] == '.'
    ensures Clean(s) == s
  {
    hide TrimSpace, Without;
    TrimOfTrimmed(s);
    WithoutAbsent(s, '€');
    WithoutAbsent(s, ' ');
  }

  lemma UnsignedReads(s: string)
    requires s == "" || s[0] != '-'
    ensures Read(s) == ReadUnsigned(s)
  {
    hide ReadUnsigned;
  }

  lemma SignedWholes(a: string)
    requires AllDigits(a) && a != ""
    ensures ReadUnsigned("+" + a) == if Value(a) < TWO_63 then Minor(Wrap(Value(a) * 100)) else Invalid
    ensures ReadUnsigned("-" + a) == if Value(a) <= TWO_63 then Minor(Wrap(0 - Value(a) * 100)) else Invalid
  {
    hide Value, Wrap, Index;
    DigitsAreNotSeparators(a);
    assert ("+" + a)[1..] == a && ("-" + a)[1..] == a;
    assert '.' !in "+" + a && '.' !in "-" + a;
  }

  lemma SignedCents(a: string, d: nat, sign: char)
    requires AllDigits(a) && a != "" && d < 10 && (sign == '-' || sign == '+')
    ensures ReadUnsigned(a + "." + ([sign] + [DigitChar(d)])) ==
            if Value(a) >= TWO_63 then Invalid
            else if sign == '-' then Minor(Wrap(Value(a) * 100 - d)) else Minor(Wrap(Value(a) * 100 + d))
  {
    hide Value, Wrap, Cut;
    var f := [sign] + [DigitChar(d)];
    DigitsAreNotSeparators(a);
    CutAt(a, '.', f);
    ParseIntOfDigits(a);
    assert f[1..] == [DigitChar(d)];
    OneDigit(d);
  }

  lemma OneDigit(d: nat)
    requires d < 10
    ensures Value([DigitChar(d)]) == d
  {
    assert [DigitChar(d)][..0] == "";
  }

  // ---- how amounts are written ----

  /** The printed forms, character by character; the least value, whose negation is itself, aside. */
  lemma WrittenForms(m: int)
    requires -TWO_63 < m < TWO_63
    ensures var v := if m < 0 then -m else m;
            && PlainMinor(m) == (if m < 0 then "-" else "") + Print(v / 100) + "." + Print2(v % 100)
            && FormatMinor(m) == (if m < 0 then "-" else "") + "€" + Print(v / 100) + "." + Print2(v % 100)
  {
    hide PlainMinor, FormatMinor, Print, Print2;
    Written(m, "");
    Written(m, "€");
    RenderedForms(m);
    var v := if m < 0 then -m else m;
    assert "-" + "" == "-" && "" + "" == "" && "" + "€" == "€";
  }

  lemma RenderedForms(m: int)
    requires InInt64(m)
    ensures PlainMinor(m) == Rendered(m, "") && FormatMinor(m) == Rendered(m, "€")
  {
    hide Rendered;
  }

  lemma Written(m: int, symbol: string)
    requires -TWO_63 < m < TWO_63
    ensures var v := if m < 0 then -m else m;
            Rendered(m, symbol) == (if m < 0 then "-" else "") + symbol + Print(v / 100) + "." + Print2(v % 100)
  {
    hide Print, Print2;
    var v := if m < 0 then -m else m;
    var tail := Print(v / 100) + "." + Print2(v % 100);
    assert symbol + Print(v / 100) + "." + Print2(v % 100) == symbol + tail;
    assert "-" + symbol + Print(v / 100) + "." + Print2(v % 100) == "-" + (symbol + tail);
    assert "" + symbol == symbol;
  }
}
