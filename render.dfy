/**
 * Rendering one argument: the base renderers (intToBinaryString, intToOctString,
 * intToHexString_impl and its two charsets) and __getString__, which picks a renderer from
 * the slot's record.
 *
 * The renderers take a positive value, on which `num >> k` is Shr(num, k) (k halvings) and
 * `x & (2^w - 1)` is Low(x, w) (the lowest w bits).
 */
module Render {
  import opened Wrappers
  import opened Decimal
  import opened Directive

  /** 2^e. */
  function Pow2(e: nat): (r: nat)
    ensures r >= 1
  {
    if e == 0 then 1 else 2 * Pow2(e - 1)
  }

  /** `num >> k` on a non-negative value: k halvings. */
  function Shr(num: nat, k: nat): nat
    decreases k
  {
    if k == 0 then num else Shr(num / 2, k - 1)
  }

  /** `x & (2^w - 1)` on a non-negative value: its lowest w bits. */
  function Low(x: nat, w: nat): nat
    decreases w
  {
    if w == 0 then 0 else x % 2 + 2 * Low(x / 2, w - 1)
  }

  /**
   * log2_64, as this model takes it: the floor of the base-2 logarithm, defined for n >= 1,
   * so that n >> log2_64(n) is the top bit. (The header that defines it is not part of this
   * model.)
   */
  function Log2(n: nat): (r: nat)
    requires n >= 1
    ensures Shr(n, r) == 1
  {
    if n == 1 then 0 else 1 + Log2(n / 2)
  }

  /** Reference digits: the base-2^w digits of n >= 1, most significant first. */
  function Digits(n: nat, w: nat): (ds: seq<nat>)
    requires n >= 1 && w >= 1
    ensures |ds| >= 1
    decreases n
  {
    ShrShrinks(n, w);
    var rest := Shr(n, w);
    if rest == 0 then [Low(n, w)] else Digits(rest, w) + [Low(n, w)]
  }

  /** Reading digits back, most significant first: b times the value of all but the last, plus the last. */
  function FromDigits(ds: seq<nat>, base: nat): nat {
    if ds == [] then 0 else FromDigits(ds[..|ds| - 1], base) * base + ds[|ds| - 1]
  }

  /** The glyphs the source writes for digits below ten: '0' + d. */
  const DecimalGlyphs: seq<char> := "0123456789"

  /** The charset intToHexString passes. */
  const LowerHexGlyphs: seq<char> := "0123456789abcdef"

  /** The charset intToHEXString passes. */
  const UpperHexGlyphs: seq<char> := "0123456789ABCDEF"

  predicate DigitsBelow(ds: seq<nat>, bound: nat) {
    forall k :: 0 <= k < |ds| ==> ds[k] < bound
  }

  /** Writing digits with a charset: digit d becomes glyphs[d]. */
  function Spell(ds: seq<nat>, glyphs: seq<char>): (text: seq<char>)
    requires DigitsBelow(ds, |glyphs|)
    ensures |text| == |ds|
  {
    seq(|ds|, k requires 0 <= k < |ds| => glyphs[ds[k]])
  }

  /** The digit a glyph stands for: its first position in the charset (the charset's length when absent). */
  function GlyphValue(c: char, glyphs: seq<char>): (v: nat)
    ensures v <= |glyphs|
    ensures v < |glyphs| ==> glyphs[v] == c
  {
    if glyphs == [] then 0
    else if glyphs[0] == c then 0
    else 1 + GlyphValue(c, glyphs[1..])
  }

  /** Reading a digit text back into digits. */
  function ReadGlyphs(text: seq<char>, glyphs: seq<char>): (ds: seq<nat>)
    ensures |ds| == |text|
  {
    seq(|text|, k requires 0 <= k < |text| => GlyphValue(text[k], glyphs))
  }

  /** No glyph occurs twice in the charset. */
  predicate Distinct(glyphs: seq<char>) {
    forall i, j :: 0 <= i < j < |glyphs| ==> glyphs[i] != glyphs[j]
  }

  /** The text intToBinaryString gives n >= 1: `0b`, then n's binary digits. */
  function BinaryText(n: nat): string
    requires n >= 1
  {
    DigitsInRange(n, 1);
    "0b" + Spell(Digits(n, 1), DecimalGlyphs)
  }

  /** The text intToOctString gives n >= 1: `0o`, then n's octal digits. */
  function OctalText(n: nat): string
    requires n >= 1
  {
    DigitsInRange(n, 3);
    "0o" + Spell(Digits(n, 3), DecimalGlyphs)
  }

  /** The text intToHexString_impl gives n >= 1 with a charset: `0x`, then n's hexadecimal digits in that charset. */
  function HexText(n: nat, glyphs: seq<char>): string
    requires n >= 1 && |glyphs| >= 16
  {
    DigitsInRange(n, 4);
    "0x" + Spell(Digits(n, 4), glyphs)
  }

  // ---------------------------------------------------------------------------------------
  // Arithmetic facts behind the renderers.

  lemma {:induction false} ShrAdd(n: nat, a: nat, b: nat)
    ensures Shr(n, a + b) == Shr(Shr(n, a), b)
    decreases a
  {
    if a > 0 {
      ShrAdd(n / 2, a - 1, b);
    }
  }

  lemma {:induction false} ShrAtMost(n: nat, k: nat)
    ensures Shr(n, k) <= n
    decreases k
  {
    if k > 0 {
      ShrAtMost(n / 2, k - 1);
    }
  }

  lemma ShrShrinks(n: nat, w: nat)
    requires n >= 1 && w >= 1
    ensures Shr(n, w) < n
  {
    ShrAtMost(n / 2, w - 1);
  }

  lemma {:induction false} ShrOfZero(k: nat)
    ensures Shr(0, k) == 0
    decreases k
  {
    if k > 0 {
      ShrOfZero(k - 1);
    }
  }

  /** Once a shift reaches zero, every longer shift is zero too. */
  lemma ShrStaysZero(n: nat, k: nat, k': nat)
    requires k <= k' && Shr(n, k) == 0
    ensures Shr(n, k') == 0
  {
    ShrAdd(n, k, k' - k);
    ShrOfZero(k' - k);
  }

  /** A value splits into its high part shifted back and its low w bits. */
  lemma {:induction false} SplitBits(x: nat, w: nat)
    ensures x == Shr(x, w) * Pow2(w) + Low(x, w)
    ensures Low(x, w) < Pow2(w)
    decreases w
  {
    if w > 0 {
      SplitBits(x / 2, w - 1);
      var h, p, l := Shr(x / 2, w - 1), Pow2(w - 1), Low(x / 2, w - 1);
      assert Shr(x, w) == h && Pow2(w) == 2 * p && Low(x, w) == x % 2 + 2 * l;
      DoubleFactor(h, p);
    }
  }

  lemma DoubleFactor(h: nat, p: nat)
    ensures h * (2 * p) == 2 * (h * p)
  {
  }

  /** log2_64(n) is the floor of the base-2 logarithm: 2^r <= n < 2^(r + 1). */
  lemma Log2Bounds(n: nat)
    requires n >= 1
    ensures Pow2(Log2(n)) <= n < Pow2(Log2(n) + 1)
  {
    var r := Log2(n);
    SplitBits(n, r);
    SplitBits(n, r + 1);
    ShrAdd(n, r, 1);
  }

  /** Every digit is below the base. */
  lemma {:induction false} DigitsInRange(n: nat, w: nat)
    requires n >= 1 && w >= 1
    ensures DigitsBelow(Digits(n, w), Pow2(w))
    decreases n
  {
    SplitBits(n, w);
    ShrShrinks(n, w);
    var rest := Shr(n, w);
    if rest != 0 {
      DigitsInRange(rest, w);
      var ds := Digits(n, w);
      forall k | 0 <= k < |ds|
        ensures ds[k] < Pow2(w)
      {
        if k < |ds| - 1 {
          assert ds[k] == Digits(rest, w)[k];
        }
      }
    }
  }

  /** The reference digits have no leading zero and read back to n. */
  lemma {:induction false} DigitsReadBack(n: nat, w: nat)
    requires n >= 1 && w >= 1
    ensures Digits(n, w)[0] != 0
    ensures FromDigits(Digits(n, w), Pow2(w)) == n
    decreases n
  {
    var ds := Digits(n, w);
    SplitBits(n, w);
    ShrShrinks(n, w);
    var rest := Shr(n, w);
    if rest == 0 {
      assert ds[..0] == [];
    } else {
      DigitsReadBack(rest, w);
      assert ds[..|ds| - 1] == Digits(rest, w);
    }
  }

  /** The reference digits are as many as n needs: n >> w(count - 1) is nonzero, n >> w count is zero. */
  lemma {:induction false} DigitsCount(n: nat, w: nat)
    requires n >= 1 && w >= 1
    ensures Shr(n, w * (|Digits(n, w)| - 1)) >= 1
    ensures Shr(n, w * |Digits(n, w)|) == 0
    decreases n
  {
    ShrShrinks(n, w);
    var rest := Shr(n, w);
    if rest != 0 {
      var m := |Digits(rest, w)|;
      DigitsCount(rest, w);
      assert w * m == w + w * (m - 1);
      assert w * (m + 1) == w + w * m;
      ShrAdd(n, w, w * (m - 1));
      ShrAdd(n, w, w * m);
    }
  }

  /** Digit i counted from the least significant one is the low w bits of n >> w i. */
  lemma {:induction false} DigitAt(n: nat, w: nat, i: nat)
    requires n >= 1 && w >= 1 && i < |Digits(n, w)|
    ensures Digits(n, w)[|Digits(n, w)| - 1 - i] == Low(Shr(n, w * i), w)
    decreases n
  {
    ShrShrinks(n, w);
    var rest := Shr(n, w);
    if i > 0 {
      var front := Digits(rest, w);
      DigitAt(rest, w, i - 1);
      assert Digits(n, w)[|Digits(n, w)| - 1 - i] == front[|front| - 1 - (i - 1)];
      assert w * i == w + w * (i - 1);
      ShrAdd(n, w, w * (i - 1));
    }
  }

  /** With base 2^w, the number of digits is log2_64(n) / w + 1, stated as q = count - 1 with w q <= log2 < w (q + 1). */
  lemma DigitsCountLog2(n: nat, w: nat)
    requires n >= 1 && w >= 1
    ensures var q := |Digits(n, w)| - 1;
      w * q <= Log2(n) < w * q + w
  {
    var c := |Digits(n, w)|;
    var r := Log2(n);
    DigitsCount(n, w);
    assert w * c == w * (c - 1) + w;
    if w * (c - 1) > r {
      ShrAdd(n, r, 1);
      ShrStaysZero(n, r + 1, w * (c - 1));
    }
    if w * c <= r {
      ShrStaysZero(n, w * c, r);
    }
  }

  /** Reading a spelled digit string back with a charset without repeats gives the digits again. */
  lemma ReadSpelled(ds: seq<nat>, glyphs: seq<char>)
    requires DigitsBelow(ds, |glyphs|) && Distinct(glyphs)
    ensures ReadGlyphs(Spell(ds, glyphs), glyphs) == ds
  {
    forall k | 0 <= k < |ds|
      ensures GlyphValue(glyphs[ds[k]], glyphs) == ds[k]
    {
      GlyphValueOfDistinct(glyphs, ds[k]);
    }
  }

  lemma {:induction false} GlyphValueOfDistinct(glyphs: seq<char>, d: nat)
    requires d < |glyphs| && Distinct(glyphs)
    ensures GlyphValue(glyphs[d], glyphs) == d
    decreases d
  {
    if d > 0 {
      assert glyphs[0] != glyphs[d];
      assert glyphs[1..][d - 1] == glyphs[d];
      GlyphValueOfDistinct(glyphs[1..], d - 1);
    }
  }

  /**
   * A buffer holding a two-character marker and then, for each k below the digit count c,
   * the glyph of digit k (from the least significant one) at position c - k + 1, is the
   * marker followed by n's digits spelled in that charset.
   */
  lemma FilledBuffer(num: nat, w: nat, glyphs: seq<char>, marker: string, buf: seq<char>)
    requires num >= 1 && w >= 1 && |glyphs| >= Pow2(w) && |marker| == 2
    requires |buf| == |Digits(num, w)| + 2 && buf[..2] == marker
    requires var c := |Digits(num, w)|;
      forall k :: 0 <= k < c ==> Low(Shr(num, k * w), w) < |glyphs| && buf[c - k + 1] == glyphs[Low(Shr(num, k * w), w)]
    ensures DigitsBelow(Digits(num, w), |glyphs|)
    ensures buf == marker + Spell(Digits(num, w), glyphs)
  {
    DigitsInRange(num, w);
    var ds := Digits(num, w);
    var c := |ds|;
    forall k | 0 <= k < c
      ensures buf[2 + k] == glyphs[ds[k]]
    {
      DigitAt(num, w, c - 1 - k);
      assert w * (c - 1 - k) == (c - 1 - k) * w;
      assert buf[c - (c - 1 - k) + 1] == buf[2 + k];
    }
    assert buf == marker + Spell(ds, glyphs);
  }

  /**
   * The octal buffer: the digits below the top one, written by the loop from the right, and
   * the top digit written at position 2 make up the octal text.
   */
  lemma OctalBuffer(num: nat, dm: nat, buf: seq<char>)
    requires num >= 1 && dm == Log2(num) / 3
    requires |buf| == dm + 3 && buf[0] == '0' && buf[1] == 'o'
    requires forall k :: 0 <= k < dm ==>
      Low(Shr(num, k * 3), 3) < 10 && buf[dm - k + 2] == DecimalGlyphs[Low(Shr(num, k * 3), 3)]
    requires Low(Shr(num, dm * 3), 3) < 10 && buf[2] == DecimalGlyphs[Low(Shr(num, dm * 3), 3)]
    ensures buf == OctalText(num)
  {
    assert Pow2(3) == 8;
    assert |Digits(num, 3)| == dm + 1 by {
      DigitsCountLog2(num, 3);
    }
    assert buf[..2] == "0o";
    forall k | 0 <= k < dm + 1
      ensures Low(Shr(num, k * 3), 3) < |DecimalGlyphs|
      ensures buf[dm + 1 - k + 1] == DecimalGlyphs[Low(Shr(num, k * 3), 3)]
    {
      if k == dm {
        assert buf[dm + 1 - k + 1] == buf[2];
      } else {
        assert dm + 1 - k + 1 == dm - k + 2;
      }
    }
    FilledBuffer(num, 3, DecimalGlyphs, "0o", buf);
  }

  // ---------------------------------------------------------------------------------------
  // The renderers, filling a buffer of '0's from the right as the source does.

  /**
   * intToBinaryString: a buffer of log2_64(num) + 3 characters, `0b` in front, then bit i of
   * num written at position digits_min - i + 1.
   */
  method IntToBinaryString(num: nat) returns (output: string)
    requires num >= 1
    ensures output == BinaryText(num)
  {
    var digitsMin := Log2(num) + 1;
    var buf := new char[digitsMin + 2](_ => '0');
    buf[0] := '0';
    buf[1] := 'b';
    var i := 0;
    while i < digitsMin
      invariant i <= digitsMin
      invariant buf[0] == '0' && buf[1] == 'b'
      invariant forall k :: 0 <= k < i ==>
        Low(Shr(num, k * 1), 1) < 10 && buf[digitsMin - k + 1] == DecimalGlyphs[Low(Shr(num, k * 1), 1)]
    {
      SplitBits(Shr(num, i * 1), 1);
      buf[digitsMin - i + 1] := DecimalGlyphs[Low(Shr(num, i * 1), 1)];
      i := i + 1;
    }
    output := buf[..];
    DigitsCountLog2(num, 1);
    FilledBuffer(num, 1, DecimalGlyphs, "0b", output);
  }

  /**
   * intToOctString: log2_64(num) / 3 + 3 characters, `0o` in front, octal digit i (i below
   * digits_min) at position digits_min - i + 2, then the top digit at position 2.
   */
  method IntToOctString(num: nat) returns (output: string)
    requires num >= 1
    ensures output == OctalText(num)
  {
    var bits := Log2(num);
    var digitsMin := bits / 3;
    var buf := new char[digitsMin + 3](_ => '0');
    buf[0] := '0';
    buf[1] := 'o';
    assert Pow2(3) == 8;
    var i := 0;
    while i < digitsMin
      invariant i <= digitsMin
      invariant buf[0] == '0' && buf[1] == 'o'
      invariant forall k :: 0 <= k < i ==>
        Low(Shr(num, k * 3), 3) < 10 && buf[digitsMin - k + 2] == DecimalGlyphs[Low(Shr(num, k * 3), 3)]
    {
      SplitBits(Shr(num, i * 3), 3);
      buf[digitsMin - i + 2] := DecimalGlyphs[Low(Shr(num, i * 3), 3)];
      i := i + 1;
    }
    SplitBits(Shr(num, digitsMin * 3), 3);
    buf[2] := DecimalGlyphs[Low(Shr(num, digitsMin * 3), 3)];
    output := buf[..];
    OctalBuffer(num, digitsMin, output);
  }

  /**
   * intToHexString_impl: log2_64(num) / 4 + 3 characters, `0x` in front, then nibble i of
   * num, looked up in the charset, at position digits_min - i + 1.
   */
  method IntToHexStringImpl(num: nat, hexCharSet: seq<char>) returns (output: string)
    requires num >= 1 && |hexCharSet| >= 16
    ensures output == HexText(num, hexCharSet)
  {
    var digitsMin := Log2(num) / 4 + 1;
    var buf := new char[digitsMin + 2](_ => '0');
    buf[0] := '0';
    buf[1] := 'x';
    assert Pow2(4) == 16;
    var i := 0;
    while i < digitsMin
      invariant i <= digitsMin
      invariant buf[0] == '0' && buf[1] == 'x'
      invariant forall k :: 0 <= k < i ==>
        Low(Shr(num, k * 4), 4) < 16 && buf[digitsMin - k + 1] == hexCharSet[Low(Shr(num, k * 4), 4)]
    {
      SplitBits(Shr(num, i * 4), 4);
      buf[digitsMin - i + 1] := hexCharSet[Low(Shr(num, i * 4), 4)];
      i := i + 1;
    }
    output := buf[..];
    DigitsCountLog2(num, 4);
    FilledBuffer(num, 4, hexCharSet, "0x", output);
  }

  /** intToHexString: lowercase digits. */
  method IntToHexString(num: nat) returns (output: string)
    requires num >= 1
    ensures output == HexText(num, LowerHexGlyphs)
  {
    output := IntToHexStringImpl(num, LowerHexGlyphs);
  }

  /** intToHEXString: uppercase digits, behind the same lowercase `0x`. */
  method IntToUpperHexString(num: nat) returns (output: string)
    requires num >= 1
    ensures output == HexText(num, UpperHexGlyphs)
  {
    output := IntToHexStringImpl(num, UpperHexGlyphs);
  }

  // ---------------------------------------------------------------------------------------
  // What a rendering says: reading it back.

  /** The rendering's glyph for every digit differs from the charset's zero, and reading it back gives n. */
  lemma {:induction false} SpelledReadsBack(n: nat, w: nat, glyphs: seq<char>)
    requires n >= 1 && w >= 1 && |glyphs| >= Pow2(w) && Distinct(glyphs)
    ensures DigitsBelow(Digits(n, w), |glyphs|)
    ensures var t := Spell(Digits(n, w), glyphs);
      t[0] != glyphs[0] &&
      (forall k :: 0 <= k < |t| ==> t[k] in glyphs[..Pow2(w)]) &&
      FromDigits(ReadGlyphs(t, glyphs), Pow2(w)) == n
  {
    DigitsInRange(n, w);
    DigitsReadBack(n, w);
    var ds := Digits(n, w);
    ReadSpelled(ds, glyphs);
    var t := Spell(ds, glyphs);
    assert t[0] == glyphs[ds[0]];
    forall k | 0 <= k < |t|
      ensures t[k] in glyphs[..Pow2(w)]
    {
      assert t[k] == glyphs[..Pow2(w)][ds[k]];
    }
  }

  lemma DecimalGlyphsDistinct()
    ensures Distinct(DecimalGlyphs)
  {
  }

  lemma LowerHexGlyphsDistinct()
    ensures Distinct(LowerHexGlyphs)
  {
  }

  lemma UpperHexGlyphsDistinct()
    ensures Distinct(UpperHexGlyphs)
  {
  }

  /**
   * intToBinaryString's text for n >= 1: log2(n) + 3 characters, `0b`, a leading 1, only
   * 0s and 1s after it, and the bits read back as a base-2 number give n.
   */
  lemma BinaryTextReadsBack(n: nat)
    requires n >= 1
    ensures var t := BinaryText(n);
      |t| == Log2(n) + 3 && t[..2] == "0b" && t[2] == '1' &&
      (forall k :: 2 <= k < |t| ==> t[k] == '0' || t[k] == '1') &&
      FromDigits(ReadGlyphs(t[2..], DecimalGlyphs), 2) == n
  {
    var t := BinaryText(n);
    var ds := Digits(n, 1);
    DigitsInRange(n, 1);
    assert t[2..] == Spell(ds, DecimalGlyphs);
    assert |t| == Log2(n) + 3 by {
      DigitsCountLog2(n, 1);
    }
    DecimalGlyphsDistinct();
    SpelledReadsBack(n, 1, DecimalGlyphs);
    assert DecimalGlyphs[..Pow2(1)] == "01";
    forall k | 2 <= k < |t|
      ensures t[k] == '0' || t[k] == '1'
    {
      assert t[k] == t[2..][k - 2];
    }
  }

  /**
   * intToOctString's text for n >= 1: log2(n) / 3 + 3 characters, `0o`, a nonzero leading
   * digit, only octal digits, which read back in base 8 give n.
   */
  lemma OctalTextReadsBack(n: nat)
    requires n >= 1
    ensures var t := OctalText(n);
      |t| == Log2(n) / 3 + 3 && t[..2] == "0o" && t[2] != '0' &&
      (forall k :: 2 <= k < |t| ==> t[k] in "01234567") &&
      FromDigits(ReadGlyphs(t[2..], DecimalGlyphs), 8) == n
  {
    var t := OctalText(n);
    var ds := Digits(n, 3);
    DigitsInRange(n, 3);
    assert t[2..] == Spell(ds, DecimalGlyphs);
    assert |t| == Log2(n) / 3 + 3 by {
      DigitsCountLog2(n, 3);
    }
    assert Pow2(3) == 8;
    DecimalGlyphsDistinct();
    SpelledReadsBack(n, 3, DecimalGlyphs);
    assert DecimalGlyphs[..8] == "01234567";
    forall k | 2 <= k < |t|
      ensures t[k] in "01234567"
    {
      assert t[k] == t[2..][k - 2];
    }
  }

  /**
   * intToHexString_impl's text for n >= 1 and a sixteen-glyph charset without repeats:
   * log2(n) / 4 + 3 characters, `0x`, a leading glyph other than the charset's zero, only
   * glyphs of the charset, which read back in base 16 give n.
   */
  lemma HexTextReadsBack(n: nat, glyphs: seq<char>)
    requires n >= 1 && |glyphs| == 16 && Distinct(glyphs)
    ensures var t := HexText(n, glyphs);
      |t| == Log2(n) / 4 + 3 && t[..2] == "0x" && t[2] != glyphs[0] &&
      (forall k :: 2 <= k < |t| ==> t[k] in glyphs) &&
      FromDigits(ReadGlyphs(t[2..], glyphs), 16) == n
  {
    var t := HexText(n, glyphs);
    var ds := Digits(n, 4);
    DigitsInRange(n, 4);
    assert t[2..] == Spell(ds, glyphs);
    assert |t| == Log2(n) / 4 + 3 by {
      DigitsCountLog2(n, 4);
    }
    assert Pow2(4) == 16;
    SpelledReadsBack(n, 4, glyphs);
    assert glyphs[..16] == glyphs;
    forall k | 2 <= k < |t|
      ensures t[k] in glyphs
    {
      assert t[k] == t[2..][k - 2];
    }
  }

  /** The case mapping of ASCII letters; every other character is left alone. */
  function UpperCase(c: char): char {
    if 'a' <= c <= 'z' then (c as int - 32) as char else c
  }

  /**
   * intToHEXString against intToHexString: the same length and the same lowercase `0x`,
   * and each digit is the uppercase form of the lowercase rendering's digit.
   */
  lemma UpperHexIsUpperCased(n: nat)
    requires n >= 1
    ensures var lower := HexText(n, LowerHexGlyphs);
      var upper := HexText(n, UpperHexGlyphs);
      |upper| == |lower| && upper[..2] == lower[..2] == "0x" &&
      forall k :: 2 <= k < |upper| ==> upper[k] == UpperCase(lower[k])
  {
    assert Pow2(4) == 16;
    DigitsInRange(n, 4);
    var ds := Digits(n, 4);
    var lower := HexText(n, LowerHexGlyphs);
    var upper := HexText(n, UpperHexGlyphs);
    forall k | 2 <= k < |upper|
      ensures upper[k] == UpperCase(lower[k])
    {
      var d := ds[k - 2];
      assert upper[k] == UpperHexGlyphs[d] && lower[k] == LowerHexGlyphs[d];
      assert d < 16;
    }
  }

  // ---------------------------------------------------------------------------------------
  // __getString__: one argument, rendered with its slot's record.

  /**
   * An argument of __format, by what __getString__ can see of it: a fundamental integral
   * value (bool and char included, by their integer value); a floating-point value, by the
   * text std::to_string gives it and the text floatToString gives it at each precision;
   * or a value of class type, by what its stream operator writes.
   */
  datatype Arg =
    | Integral(value: int)
    | Floating(shown: string, fixed: int -> string)
    | Object(streamed: string)

  /** The marker the renderer for a base writes: both hexadecimal cases write a lowercase `0x`. */
  function RenderedMarker(base: IntegralFormat): (m: string)
    requires base != Dec
    ensures |m| == 2 && m[0] == '0'
  {
    match base
    case Bin => "0b"
    case Oct => "0o"
    case Hex => "0x"
    case HEX => "0x"
  }

  function Radix(base: IntegralFormat): nat
    requires base != Dec
  {
    match base
    case Bin => 2
    case Oct => 8
    case Hex => 16
    case HEX => 16
  }

  /** The charset the renderer for a base writes its digits in. */
  function BaseGlyphs(base: IntegralFormat): seq<char>
    requires base != Dec
  {
    match base
    case Bin => DecimalGlyphs
    case Oct => DecimalGlyphs
    case Hex => LowerHexGlyphs
    case HEX => UpperHexGlyphs
  }

  /**
   * The arguments the base renderers are defined for: log2_64 needs a positive value, and
   * a negative one is shifted as a signed value, which this model does not cover.
   */
  predicate Renderable(arg: Arg, f: Formatting) {
    arg.Integral? && f.ty == Int && f.options.intFormat != Dec ==> arg.value >= 1
  }

  /**
   * __getString__ (and, for an Object, its overload for class types). A record of type Int
   * picks the renderer for its base; Float goes to floatToString, whose overload for a
   * non-floating type gives ""; the base renderers' overloads for a non-integral type give
   * "" too; everything else is std::to_string.
   */
  function GetString(arg: Arg, f: Formatting): (r: string)
    requires Renderable(arg, f)
    ensures arg.Integral? ==> (r == [] <==> f.ty == Float)
    ensures arg.Floating? && f.ty == Int && f.options.intFormat != Dec ==> r == []
    ensures arg.Object? ==> r == arg.streamed
    ensures arg.Floating? && f.ty == Float ==> r == arg.fixed(f.options.precision)
    ensures arg.Floating? && f.ty != Float && !(f.ty == Int && f.options.intFormat != Dec) ==> r == arg.shown
  {
    match arg
    case Object(streamed) => streamed
    case Integral(v) =>
      if f.ty == Int then
        match f.options.intFormat
        case Bin => BinaryText(v)
        case Oct => OctalText(v)
        case Dec => ToString(v)
        case Hex => HexText(v, LowerHexGlyphs)
        case HEX => HexText(v, UpperHexGlyphs)
      else if f.ty == Float then ""
      else ToString(v)
    case Floating(shown, fixed) =>
      if f.ty == Int then (if f.options.intFormat == Dec then shown else "")
      else if f.ty == Float then fixed(f.options.precision)
      else shown
  }

  /**
   * An integral argument in a base slot: the base's marker, then a nonzero leading digit,
   * then digits of the base's charset only, which read back in that base give the value.
   */
  lemma GetStringReadsBack(v: nat, f: Formatting)
    requires v >= 1 && f.ty == Int && f.options.intFormat != Dec
    ensures var r := GetString(Integral(v), f);
      var base := f.options.intFormat;
      |r| >= 3 && r[..2] == RenderedMarker(base) && r[2] != '0' &&
      (forall k :: 2 <= k < |r| ==> r[k] in BaseGlyphs(base)[..Radix(base)]) &&
      FromDigits(ReadGlyphs(r[2..], BaseGlyphs(base)), Radix(base)) == v
  {
    match f.options.intFormat
    case Bin => BinaryTextReadsBack(v); assert DecimalGlyphs[..2] == "01";
    case Oct => OctalTextReadsBack(v); assert DecimalGlyphs[..8] == "01234567";
    case Hex =>
      LowerHexGlyphsDistinct();
      HexTextReadsBack(v, LowerHexGlyphs);
      assert LowerHexGlyphs[..16] == LowerHexGlyphs;
    case HEX =>
      UpperHexGlyphsDistinct();
      HexTextReadsBack(v, UpperHexGlyphs);
      assert UpperHexGlyphs[..16] == UpperHexGlyphs;
  }

  /**
   * An integral argument in any other slot except Float is std::to_string at every magnitude:
   * a non-negative value up to the int maximum reads back through stoi, and a negative one is
   * a minus sign in front of its magnitude's digits.
   */
  lemma GetStringDecimal(v: int, f: Formatting)
    requires f.ty != Float && (f.ty == Int ==> f.options.intFormat == Dec)
    ensures GetString(Integral(v), f) == ToString(v)
    ensures var r := GetString(Integral(v), f);
      (0 <= v <= IntMax ==> Stoi(r) == Ok(v)) &&
      (v < 0 ==> r[0] == '-' && (-v <= IntMax ==> Stoi(r[1..]) == Ok(-v)))
  {
    var r := GetString(Integral(v), f);
    if v >= 0 {
      assert r == DecimalString(v);
      if v <= IntMax {
        StoiReadsDecimalString(v);
      }
    } else {
      assert r[1..] == DecimalString(-v);
      if -v <= IntMax {
        StoiReadsDecimalString(-v);
      }
    }
  }
}
