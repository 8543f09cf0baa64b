// Numbers as text: the numeral of a number in a base, and the number a text begins with.
module Numerals {
  import opened Arith

  predicate Base(base: nat) { 2 <= base <= 36 }

  function DigitChar(r: nat): char
    requires r < 36
  {
    if r < 10 then (r + '0' as int) as char else (r + 'A' as int - 10) as char
  }

  /** The digits in their order. */
  lemma DigitAlphabet(r: nat)
    requires r < 36
    ensures DigitChar(r) == "0123456789ABCDEFGHIJKLMNOPQRSTUVWXYZ"[r]
  {}

  /** The value of a digit, or `base` for a character that is none. */
  function DigitValue(c: char, base: nat): (d: nat)
    requires Base(base)
    ensures d <= base
  {
    var d := if '0' <= c <= '9' then c as int - '0' as int
             else if 'A' <= c <= 'Z' then c as int - 'A' as int + 10
             else base;
    if d < base then d else base
  }

  predicate IsDigit(c: char, base: nat)
    requires Base(base)
  {
    DigitValue(c, base) < base
  }

  function Quotient(v: nat, base: nat): (q: nat)
    requires Base(base)
    ensures v >= base ==> 1 <= q < v
    ensures v < base ==> q == 0
  {
    QuotientBounds(v, base);
    v / base
  }

  lemma QuotientBounds(v: nat, base: nat)
    requires 2 <= base
    ensures v >= base ==> 1 <= v / base < v
    ensures v < base ==> v / base == 0
  {
    var q := v / base;
    assert v == base * q + v % base;
    MulLe(2, base, q);
  }

  function Remainder(v: nat, base: nat): (r: nat)
    requires Base(base)
    ensures r < base
  {
    v % base
  }

  /** The number with last digit d and q before it. */
  function Shifted(q: nat, d: nat, base: nat): (v: nat)
    requires Base(base)
    ensures v >= q + d
  {
    MulLe(1, base, q);
    q * base + d
  }

  /** The numeral of v, most significant digit first. */
  function Numeral(v: nat, base: nat): (ds: string)
    requires Base(base)
    ensures |ds| >= 1
    decreases v
  {
    (if v < base then [] else Numeral(Quotient(v, base), base)) + [DigitChar(Remainder(v, base))]
  }

  predicate AllDigits(ds: string, base: nat)
    requires Base(base)
  {
    forall i | 0 <= i < |ds| :: IsDigit(ds[i], base)
  }

  /** The number a string of digits denotes. */
  function Value(ds: string, base: nat): nat
    requires Base(base)
  {
    if ds == "" then 0 else Shifted(Value(ds[..|ds| - 1], base), DigitValue(ds[|ds| - 1], base), base)
  }

  /** Digits only, at least one, and no leading zero unless it is the only digit. */
  predicate Canonical(ds: string, base: nat)
    requires Base(base)
  {
    ds != "" && AllDigits(ds, base) && (ds[0] == '0' ==> |ds| == 1)
  }

  lemma DigitRoundTrip(r: nat, base: nat)
    requires Base(base) && r < base
    ensures DigitValue(DigitChar(r), base) == r
    ensures DigitChar(r) == '0' <==> r == 0
  {}

  lemma DigitOfValue(c: char, base: nat)
    requires Base(base) && IsDigit(c, base)
    ensures DigitChar(DigitValue(c, base)) == c
  {}

  /** The numeral denotes the number. */
  lemma {:induction false} NumeralOfValue(v: nat, base: nat)
    requires Base(base)
    ensures Value(Numeral(v, base), base) == v
    decreases v
  {
    hide Quotient, Remainder, Shifted, DigitChar, DigitValue;
    DivisionStep(v, base);
    DigitRoundTrip(Remainder(v, base), base);
    if v < base {
      ValueOf("", Remainder(v, base), base);
      ShiftZero(Remainder(v, base), base);
    } else {
      NumeralOfValue(Quotient(v, base), base);
      ValueOf(Numeral(Quotient(v, base), base), Remainder(v, base), base);
    }
  }

  lemma ValueOf(front: string, r: nat, base: nat)
    requires Base(base) && r < base
    ensures Value(front + [DigitChar(r)], base) == Shifted(Value(front, base), r, base) && Value("", base) == 0
  {
    hide Shifted, DigitChar, DigitValue;
    DigitRoundTrip(r, base);
    assert (front + [DigitChar(r)])[..|front|] == front;
  }

  /** It has digits only, and no leading zeros. */
  lemma {:induction false} NumeralIsCanonical(v: nat, base: nat)
    requires Base(base)
    ensures Canonical(Numeral(v, base), base) && (Numeral(v, base)[0] == '0' ==> v == 0)
    decreases v
  {
    hide Quotient, DigitChar, DigitValue;
    DigitRoundTrip(Remainder(v, base), base);
    if v < base {
      SmallRemainder(v, base);
    } else {
      NumeralIsCanonical(Quotient(v, base), base);
    }
  }

  lemma SmallRemainder(v: nat, base: nat)
    requires Base(base) && v < base
    ensures Remainder(v, base) == v
  {}

  lemma ShiftZero(d: nat, base: nat)
    requires Base(base)
    ensures Shifted(0, d, base) == d
  {}

  lemma DivisionStep(v: nat, base: nat)
    requires Base(base)
    ensures Shifted(Quotient(v, base), Remainder(v, base), base) == v
  {}

  /** It is the only canonical string of digits that denotes the number. */
  lemma {:induction false} NumeralIsUnique(ds: string, base: nat)
    requires Base(base) && Canonical(ds, base)
    ensures Numeral(Value(ds, base), base) == ds
    decreases |ds|
  {
    hide Quotient, Remainder, Shifted, DigitChar, DigitValue;
    var n := |ds| - 1;
    var front, d := ds[..n], DigitValue(ds[n], base);
    DigitOfValue(ds[n], base);
    assert Value("", base) == 0;
    if n == 0 {
      assert front == "" && ds == [ds[0]];
      LastDigit(0, d, base);
    } else {
      NumeralIsUnique(front, base);
      LeadingPositive(front, base);
      LastDigit(Value(front, base), d, base);
      assert ds == front + [ds[n]];
    }
  }

  lemma LastDigit(q: nat, d: nat, base: nat)
    requires Base(base) && d < base
    ensures Quotient(Shifted(q, d, base), base) == q && Remainder(Shifted(q, d, base), base) == d
    ensures Shifted(q, d, base) < base <==> q == 0
  {
    DivMod(q * base + d, base, q, d);
    if q >= 1 {
      MulLe(1, q, base);
    }
  }

  lemma {:induction false} LeadingPositive(ds: string, base: nat)
    requires Base(base) && ds != "" && AllDigits(ds, base) && ds[0] != '0'
    ensures Value(ds, base) >= 1
    decreases |ds|
  {
    hide Shifted;
    var n := |ds| - 1;
    if n == 0 {
      DigitOfValue(ds[0], base);
      assert DigitValue(ds[0], base) >= 1;
    } else {
      LeadingPositive(ds[..n], base);
    }
  }

  // --- Signed numbers --------------------------------------------------------------------------------------

  /** Division and remainder that truncate towards zero. */
  function CQuotient(v: int, base: nat): int
    requires Base(base)
  {
    if v >= 0 then Quotient(v, base) else -(Quotient(-v, base) as int)
  }

  function CRemainder(v: int, base: nat): (r: int)
    requires Base(base)
    ensures -36 < r < 36 && (v >= 0 ==> r >= 0) && (v <= 0 ==> r <= 0)
  {
    if v >= 0 then Remainder(v, base) else -(Remainder(-v, base) as int)
  }

  /** What is printed for a remainder, also for a negative one. */
  function Glyph(r: int): char
    requires -36 < r < 36
  {
    if r < 10 then (r + '0' as int) as char else (r + 'A' as int - 10) as char
  }

  /** What the divide loop prints, most significant first. */
  function Glyphs(v: int, base: nat): (g: string)
    requires Base(base)
    ensures |g| >= 1
    decreases if v >= 0 then v else -v
  {
    (if CQuotient(v, base) == 0 then "" else Glyphs(CQuotient(v, base), base)) + [Glyph(CRemainder(v, base))]
  }

  lemma {:induction false} GlyphsOfNatural(v: nat, base: nat)
    requires Base(base)
    ensures Glyphs(v, base) == Numeral(v, base)
    decreases v
  {
    hide Quotient, Remainder;
    if v >= base {
      GlyphsOfNatural(Quotient(v, base), base);
    }
  }

  lemma {:induction false} GlyphsOfNegative(v: nat, base: nat)
    requires Base(base) && v > 0
    ensures |Glyphs(-(v as int), base)| == |Numeral(v, base)|
    decreases v
  {
    hide Quotient, Remainder, Glyph, DigitChar;
    if v >= base {
      GlyphsOfNegative(Quotient(v, base), base);
    }
  }

  /** For a negative number each character lies as far below '0' as the digit's value lies above nothing. */
  lemma {:induction false} GlyphsBelowZero(v: nat, base: nat, i: nat)
    requires Base(base) && v > 0 && i < |Numeral(v, base)|
    ensures |Glyphs(-(v as int), base)| == |Numeral(v, base)|
    ensures Glyphs(-(v as int), base)[i] as int == '0' as int - DigitValue(Numeral(v, base)[i], base)
    decreases v
  {
    hide Quotient, Remainder, Glyph, DigitChar, DigitValue;
    GlyphsOfNegative(v, base);
    if i == |Numeral(v, base)| - 1 {
      LowGlyph(Remainder(v, base), base);
    } else {
      GlyphsBelowZero(Quotient(v, base), base, i);
    }
  }

  lemma LowGlyph(r: nat, base: nat)
    requires Base(base) && r < base
    ensures Glyph(-(r as int)) as int == '0' as int - r && DigitValue(DigitChar(r), base) == r
  {}

  /** What itoa leaves in the buffer. The sign is printed only in base 10. A negative number in another base
      gives characters below the digits; if the last of them happens to be '-', it comes first. */
  function Text(v: int, base: nat): (s: string)
    requires Base(base)
  {
    if v >= 0 then Numeral(v, base)
    else if base == 10 then "-" + Numeral(-v, base)
    else
      var g := Glyphs(v, base);
      if g[|g| - 1] == '-' then "-" + g[..|g| - 1] else g
  }

  /** What is printed for a negative number in a base other than 10: as many characters as its size has digits, each as
      far below '0' as the digit is above; one whose last digit is 3 has its last character, '-', in front. */
  lemma NegativeText(v: int, base: nat, i: nat)
    requires Base(base) && v < 0 && base != 10 && i < |Numeral(-v, base)|
    ensures var ds, s := Numeral(-v, base), Text(v, base);
      && |s| == |ds|
      && var low := '0' as int - DigitValue(ds[i], base);
         if DigitValue(ds[|ds| - 1], base) != 3 then s[i] as int == low
         else s[0] == '-' && (i < |ds| - 1 ==> s[i + 1] as int == low)
  {
    hide Numeral, Glyphs, DigitValue;
    GlyphsBelowZero(-v, base, i);
    GlyphsBelowZero(-v, base, |Numeral(-v, base)| - 1);
    assert '-' as int == '0' as int - 3;
  }

  /** The signed numeral. */
  function Signed(v: int, base: nat): string
    requires Base(base)
  {
    if v < 0 then "-" + Numeral(-v, base) else Numeral(v, base)
  }

  /** itoa prints the signed numeral if and only if the number is not negative or the base is 10. */
  lemma TextIsSignedIff(v: int, base: nat)
    requires Base(base)
    ensures Text(v, base) == Signed(v, base) <==> v >= 0 || base == 10
  {
    hide Numeral, Glyphs, Glyph, CRemainder;
    if v < 0 {
      GlyphsOfNegative(-v, base);
    }
  }

  /** The character at i of a zero-terminated string. */
  function At(s: string, i: nat): char { if i < |s| then s[i] else '\0' }

  /** How many digits follow from i on. */
  function DigitsFrom(s: string, i: nat): (n: nat)
    ensures i + n <= |s| || n == 0
    ensures forall k | i <= k < i + n :: k < |s| && IsDigit(s[k], 10)
    ensures !IsDigit(At(s, i + n), 10)
    decreases |s| - i
  {
    if IsDigit(At(s, i), 10) then 1 + DigitsFrom(s, i + 1) else 0
  }

  /** The number at the start of a string, and how many characters it takes; 0 and 0 when there is none. */
  function Parsed(s: string): (r: (nat, int)) {
    if At(s, 0) == '-' then
      var n := DigitsFrom(s, 1);
      if n == 0 then (0, 0) else (1 + n, 0 - Value(s[1..1 + n], 10))
    else
      var n := DigitsFrom(s, 0);
      (n, if n == 0 then 0 else Value(s[..n], 10))
  }

  lemma {:induction false} DigitsFromIs(s: string, i: nat, n: nat)
    requires i + n <= |s| && (forall k | i <= k < i + n :: IsDigit(s[k], 10)) && !IsDigit(At(s, i + n), 10)
    ensures DigitsFrom(s, i) == n
    decreases n
  {
    if n > 0 {
      DigitsFromIs(s, i + 1, n - 1);
    }
  }

  lemma MinusIsNoDigit()
    ensures !IsDigit('-', 10)
  {}

  /** Parsing what itoa wrote gives the number back and takes exactly the characters written, whatever
      follows them, as long as it is not another digit. */
  lemma ParseText(v: int, rest: string)
    requires !IsDigit(At(rest, 0), 10)
    ensures Parsed(Text(v, 10) + rest) == (|Text(v, 10)|, v)
  {
    hide Value, Numeral, DigitValue, Shifted;
    var s := Text(v, 10) + rest;
    var a := if v < 0 then -v else v;
    var ds := Numeral(a, 10);
    NumeralOfValue(a, 10);
    NumeralIsCanonical(a, 10);
    var i := if v < 0 then 1 else 0;
    forall k | i <= k < i + |ds| ensures IsDigit(s[k], 10) {
      assert s[k] == ds[k - i];
    }
    assert At(s, i + |ds|) == At(rest, 0);
    DigitsFromIs(s, i, |ds|);
    assert s[i..i + |ds|] == ds;
    if v < 0 {
      assert s[1..1 + |ds|] == ds;
    } else {
      assert s[..|ds|] == ds && IsDigit(s[0], 10);
      MinusIsNoDigit();
    }
  }

  /** Any digits, leading zeros included, with or without a minus sign: the number they denote, and all of them taken.
      Without a digit there, nothing is taken. */
  lemma ParseDigits(minus: bool, ds: string, rest: string)
    requires AllDigits(ds, 10) && !IsDigit(At(rest, 0), 10)
    requires ds == "" && !minus ==> At(rest, 0) != '-'
    ensures var s := (if minus then "-" else "") + ds + rest;
      Parsed(s) == if ds == "" then (0, 0)
                   else (|ds| + (if minus then 1 else 0), if minus then 0 - Value(ds, 10) else Value(ds, 10))
  {
    hide Parsed, Value, DigitsFrom, IsDigit;
    if minus {
      ParseMinus(ds, rest);
    } else {
      ParsePlain(ds, rest);
      assert "" + ds + rest == ds + rest;
    }
  }

  lemma ParseMinus(ds: string, rest: string)
    requires AllDigits(ds, 10) && !IsDigit(At(rest, 0), 10)
    ensures Parsed("-" + ds + rest) == if ds == "" then (0, 0) else (|ds| + 1, 0 - Value(ds, 10))
  {
    hide Value, DigitsFrom, IsDigit;
    var s := "-" + ds + rest;
    assert s[0] == '-' && s[1..1 + |ds|] == ds;
    DigitsAt(s, 1, ds);
  }

  lemma ParsePlain(ds: string, rest: string)
    requires AllDigits(ds, 10) && !IsDigit(At(rest, 0), 10) && (ds == "" ==> At(rest, 0) != '-')
    ensures Parsed(ds + rest) == (|ds|, if ds == "" then 0 else Value(ds, 10))
  {
    hide Value, DigitsFrom, IsDigit;
    var s := ds + rest;
    assert s[..|ds|] == ds && s[0..0 + |ds|] == ds;
    DigitsAt(s, 0, ds);
    MinusIsNoDigit();
    assert At(s, 0) == if ds == "" then At(rest, 0) else ds[0];
  }

  lemma DigitsAt(s: string, i: nat, ds: string)
    requires i + |ds| <= |s| && s[i..i + |ds|] == ds && AllDigits(ds, 10) && !IsDigit(At(s, i + |ds|), 10)
    ensures DigitsFrom(s, i) == |ds|
  {
    hide IsDigit, DigitsFrom;
    forall k | i <= k < i + |ds| ensures IsDigit(s[k], 10) {
      assert s[k] == ds[k - i];
    }
    DigitsFromIs(s, i, |ds|);
  }

  /** The digits without leading zeros. */
  function Stripped(ds: string): string { if |ds| > 1 && ds[0] == '0' then Stripped(ds[1..]) else ds }

  lemma {:induction false} StrippedIsCanonical(ds: string, base: nat)
    requires Base(base) && AllDigits(ds, base) && ds != ""
    ensures Canonical(Stripped(ds), base) && Value(Stripped(ds), base) == Value(ds, base)
  {
    if |ds| > 1 && ds[0] == '0' {
      StrippedIsCanonical(ds[1..], base);
      LeadingZero(ds[1..], base);
      assert ds == "0" + ds[1..];
    }
  }

  lemma {:induction false} LeadingZero(ds: string, base: nat)
    requires Base(base)
    ensures Value("0" + ds, base) == Value(ds, base)
  {
    hide DigitValue;
    if ds == "" {
      assert "0"[..0] == "" && DigitValue('0', base) == 0 by {
        DigitRoundTrip(0, base);
      }
      ShiftZero(0, base);
    } else {
      var n := |ds| - 1;
      assert ("0" + ds)[..n + 1] == "0" + ds[..n];
      LeadingZero(ds[..n], base);
    }
  }

  /** Printing what was parsed gives the digits back without their leading zeros, and no sign for zero. */
  lemma PrintParsed(minus: bool, ds: string, rest: string)
    requires AllDigits(ds, 10) && ds != "" && !IsDigit(At(rest, 0), 10)
    ensures var v := Parsed((if minus then "-" else "") + ds + rest).1;
      Text(v, 10) == (if minus && Value(ds, 10) > 0 then "-" else "") + Stripped(ds)
  {
    hide Value, DigitValue, Shifted, Numeral, Stripped;
    ParseDigits(minus, ds, rest);
    StrippedIsCanonical(ds, 10);
    NumeralIsUnique(Stripped(ds), 10);
  }

  /** Printing what was parsed gives back the characters taken, when they are in the form itoa writes. */
  lemma TextParsed(s: string)
    requires Parsed(s).0 > 0
    requires var (n, v) := Parsed(s); Canonical(if s[0] == '-' then s[1..n] else s[..n], 10) && s[..n] != "-0"
    ensures var (n, v) := Parsed(s); Text(v, 10) == s[..n]
  {
    hide Numeral, Value, Shifted;
    var (n, v) := Parsed(s);
    var ds := if s[0] == '-' then s[1..n] else s[..n];
    NumeralIsUnique(ds, 10);
    if s[0] == '-' {
      assert s[..n] == "-" + ds;
      assert ds[0] == '0' ==> ds == "0";
      LeadingPositive(ds, 10);
    }
  }
}
