// The loops that print a number into a buffer and read one from a string.
module Printing {
  import opened Numerals

  function Reversed(s: string): (r: string)
    ensures |r| == |s|
  {
    if s == "" then "" else [s[|s| - 1]] + Reversed(s[..|s| - 1])
  }

  lemma {:induction false} ReversedAt(s: string, k: nat)
    requires k < |s|
    ensures Reversed(s)[k] == s[|s| - 1 - k]
  {
    if k > 0 {
      ReversedAt(s[..|s| - 1], k - 1);
    }
  }

  lemma ReversedAppend(s: string, c: char)
    ensures Reversed(s + [c]) == [c] + Reversed(s)
  {
    assert (s + [c])[..|s|] == s;
  }

  lemma NothingReversed(s: string)
    requires s == ""
    ensures Reversed(s) == ""
  {}

  /** Writing the last digit of what is left keeps the digits written, reversed, the tail of the whole. */
  lemma DigitWritten(value: int, v: int, base: nat, written: string)
    requires Base(base) && Glyphs(value, base) == Glyphs(v, base) + Reversed(written)
    ensures var q, now := CQuotient(v, base), written + [Glyph(CRemainder(v, base))];
      if q == 0 then Glyphs(value, base) == Reversed(now)
      else |Glyphs(q, base)| + 1 == |Glyphs(v, base)| && Glyphs(value, base) == Glyphs(q, base) + Reversed(now)
  {
    hide Reversed, CQuotient, CRemainder, Glyph, Glyphs;
    var d := Glyph(CRemainder(v, base));
    ReversedAppend(written, d);
    LastGlyph(v, base);
    Associate(if CQuotient(v, base) == 0 then "" else Glyphs(CQuotient(v, base), base), d, Reversed(written));
  }

  lemma LastGlyph(v: int, base: nat)
    requires Base(base)
    ensures Glyphs(v, base) ==
              (if CQuotient(v, base) == 0 then "" else Glyphs(CQuotient(v, base), base)) + [Glyph(CRemainder(v, base))]
  {
    hide CQuotient, CRemainder, Glyph;
  }

  lemma Associate(a: string, d: char, b: string)
    ensures a + [d] + b == a + ([d] + b) && "" + ([d] + b) == [d] + b
  {}

  function Size(v: int): nat { if v >= 0 then v else -v }

  lemma QuotientShrinks(v: int, base: nat)
    requires Base(base)
    ensures CQuotient(v, base) != 0 ==> Size(CQuotient(v, base)) < Size(v)
  {}

  /** Writes the digits of value from position at on, least significant first; returns the end. */
  method WriteDigits(value: int, buffer: array<char>, at: nat, base: nat) returns (p: nat)
    requires Base(base) && at + |Glyphs(value, base)| <= buffer.Length
    modifies buffer
    ensures p == at + |Glyphs(value, base)| && Reversed(buffer[at..p]) == Glyphs(value, base)
    ensures forall k | 0 <= k < buffer.Length && !(at <= k < p) :: buffer[k] == old(buffer[k])
  {
    hide Glyphs, Reversed, CQuotient, CRemainder, Glyph, Size;
    var v, more := value, true;
    p := at;
    NothingReversed(buffer[at..p]);
    while more
      invariant at <= p <= buffer.Length
      invariant more ==> p + |Glyphs(v, base)| <= buffer.Length
      invariant more ==> Glyphs(value, base) == Glyphs(v, base) + Reversed(buffer[at..p])
      invariant !more ==> Glyphs(value, base) == Reversed(buffer[at..p])
      invariant forall k | 0 <= k < buffer.Length && !(at <= k < p) :: buffer[k] == old(buffer[k])
      decreases more, Size(v)
    {
      ghost var written := buffer[at..p];
      var remainder := CRemainder(v, base);
      buffer[p] := Glyph(remainder);
      p := p + 1;
      assert buffer[at..p] == written + [Glyph(remainder)];
      DigitWritten(value, v, base, written);
      QuotientShrinks(v, base);
      v := CQuotient(v, base);
      more := v != 0;
    }
  }

  /** Reverses the part of the buffer from lo to hi in place. */
  method ReverseInPlace(buffer: array<char>, lo: nat, hi: nat)
    requires lo <= hi <= buffer.Length
    modifies buffer
    ensures buffer[lo..hi] == Reversed(old(buffer[lo..hi]))
    ensures forall k | 0 <= k < buffer.Length && !(lo <= k < hi) :: buffer[k] == old(buffer[k])
  {
    var p1: int, p2: int := lo, hi - 1;
    while p1 < p2
      invariant lo <= p1 <= p2 + 1 <= hi && p1 - lo == hi - 1 - p2
      invariant forall k | lo <= k < hi && !(p1 <= k <= p2) :: buffer[k] == old(buffer[lo + hi - 1 - k])
      invariant forall k | p1 <= k <= p2 :: buffer[k] == old(buffer[k])
      invariant forall k | 0 <= k < buffer.Length && !(lo <= k < hi) :: buffer[k] == old(buffer[k])
    {
      buffer[p1], buffer[p2] := buffer[p2], buffer[p1];
      p1, p2 := p1 + 1, p2 - 1;
    }
    ghost var was := old(buffer[lo..hi]);
    forall k | 0 <= k < hi - lo ensures buffer[lo..hi][k] == Reversed(was)[k] {
      ReversedAt(was, k);
      assert buffer[lo + k] == old(buffer[hi - 1 - k]) == was[|was| - 1 - k];
    }
  }

  /** Prints an unsigned number; the buffer then holds exactly its numeral, and a terminator. */
  method UintToBase(value: nat, buffer: array<char>, base: nat) returns (digits: nat)
    requires Base(base) && |Numeral(value, base)| < buffer.Length
    modifies buffer
    ensures digits == |Numeral(value, base)| && buffer[..digits] == Numeral(value, base) && buffer[digits] == '\0'
    ensures forall k | digits < k < buffer.Length :: buffer[k] == old(buffer[k])
  {
    GlyphsOfNatural(value, base);
    digits := WriteDigits(value, buffer, 0, base);
    buffer[digits] := '\0';
    ReverseInPlace(buffer, 0, digits);
  }

  /** Prints a number, with a minus sign when it is negative and in base 10. */
  method Itoa(value: int, buffer: array<char>, base: nat) returns (digits: nat)
    requires Base(base) && |Text(value, base)| < buffer.Length
    modifies buffer
    ensures digits == |Text(value, base)| && buffer[..digits] == Text(value, base) && buffer[digits] == '\0'
    ensures forall k | digits < k < buffer.Length :: buffer[k] == old(buffer[k])
  {
    hide Numeral, Glyphs, Reversed;
    var v, p := value, 0;
    if v < 0 && base == 10 {
      v := -v;
      buffer[0] := '-';
      p := 1;
    }
    if v >= 0 {
      GlyphsOfNatural(v, base);
    }
    digits := WriteDigits(v, buffer, p, base);
    buffer[digits] := '\0';
    ghost var written := buffer[p..digits];
    FirstWritten(v, base, written);
    var p1 := if buffer[0] == '-' then 1 else 0;
    ReversedTail(written);
    ReverseInPlace(buffer, p1, digits);
    assert p1 == 1 ==> buffer[..digits] == "-" + buffer[1..digits];
  }

  /** What comes first before the reversal is the last digit, so only a negative number's can look like a sign. */
  lemma FirstWritten(v: int, base: nat, written: string)
    requires Base(base) && Reversed(written) == Glyphs(v, base)
    ensures var g := Glyphs(v, base); written != "" && written[0] == g[|g| - 1]
    ensures v >= 0 ==> written[0] != '-'
  {
    hide Glyphs, Numeral, Reversed;
    ReversedAt(written, |written| - 1);
    if v >= 0 {
      GlyphsOfNatural(v, base);
      NumeralIsCanonical(v, base);
      assert IsDigit(Numeral(v, base)[|written| - 1], base);
    }
  }

  /** Reversing all but the first character. */
  lemma {:induction false} ReversedTail(s: string)
    ensures s != "" ==> Reversed(s) == Reversed(s[1..]) + [s[0]]
  {
    if |s| > 1 {
      var front := s[..|s| - 1];
      ReversedTail(front);
      assert s[1..][..|s| - 2] == front[1..];
    }
  }

  /** Reads the number at the start of a string; returns the characters taken and the number. */
  method ParseInt(s: string) returns (digits: nat, value: int)
    ensures (digits, value) == Parsed(s)
  {
    value, digits := 0, 0;
    var sign, i := 1, 0;
    if At(s, 0) == '-' {
      if IsDigit(At(s, 1), 10) {
        sign := -1;
        digits := digits + 1;
        i := i + 1;
      } else {
        return 0, 0;
      }
    }
    ghost var start := i;
    i, value := ReadDigits(s, i);
    digits := i;
    value := value * sign;
    assert start == 0 ==> s[0..i] == s[..i];
  }

  method ReadDigits(s: string, start: nat) returns (i: nat, value: nat)
    requires start <= |s|
    ensures i == start + DigitsFrom(s, start) && i <= |s| && value == Value(s[start..i], 10)
  {
    hide DigitValue, Value;
    i, value := start, 0;
    NoDigits(s[start..i]);
    while IsDigit(At(s, i), 10)
      invariant start <= i <= |s| && start + DigitsFrom(s, start) == i + DigitsFrom(s, i)
      invariant value == Value(s[start..i], 10)
      decreases |s| - i
    {
      var c := s[i];
      DigitRead(s, start, i);
      value := value * 10 + DigitValue(c, 10);
      i := i + 1;
    }
  }

  lemma NoDigits(s: string)
    requires s == ""
    ensures Value(s, 10) == 0
  {}

  lemma DigitRead(s: string, start: nat, i: nat)
    requires start <= i < |s|
    ensures Value(s[start..i + 1], 10) == Value(s[start..i], 10) * 10 + DigitValue(s[i], 10)
  {
    assert s[start..i + 1][..i - start] == s[start..i];
  }
}
