/**
 * Decimal digits: the directive's digit parser (isDigit, stoi_impl, stoi) and, as its
 * partner, the decimal rendering std::to_string gives an integer.
 */
module Decimal {
  import opened Wrappers

  /** The largest value of the source's 32-bit `int`. */
  const IntMax: int := 0x7fff_ffff

  /** Why constant evaluation of stoi fails: a throw, or a signed overflow. */
  datatype StoiError = NotADigit | Overflow

  predicate IsDigit(c: char) {
    '0' <= c <= '9'
  }

  function DigitValue(c: char): nat
    requires IsDigit(c)
  {
    c as int - '0' as int
  }

  function DigitChar(d: nat): char
    requires d < 10
  {
    ('0' as int + d) as char
  }

  predicate AllDigits(ds: seq<char>) {
    forall i :: 0 <= i < |ds| ==> IsDigit(ds[i])
  }

  /** Reference meaning of a digit string, read from its last digit: ten times the rest plus that digit. */
  function DecimalValue(ds: seq<char>): nat
    requires AllDigits(ds)
  {
    if ds == [] then 0 else DecimalValue(ds[..|ds| - 1]) * 10 + DigitValue(ds[|ds| - 1])
  }

  /**
   * stoi_impl: walks the span left to right accumulating `digit + value * 10`; a non-digit
   * throws, and a step past the 32-bit maximum is signed overflow, which also stops constant
   * evaluation.
   */
  function StoiImpl(span: seq<char>, value: int): Result<int, StoiError>
    decreases |span|
  {
    if span == [] then Ok(value)
    else if !IsDigit(span[0]) then Err(NotADigit)
    else
      var next := DigitValue(span[0]) + value * 10;
      if next > IntMax then Err(Overflow) else StoiImpl(span[1..], next)
  }

  /** stoi: the span holds a decimal number that fits an `int` exactly when it parses, and then it parses to that number. */
  function Stoi(span: seq<char>): (r: Result<int, StoiError>)
    ensures r.Ok? <==> AllDigits(span) && DecimalValue(span) <= IntMax
    ensures r.Ok? ==> r.value == DecimalValue(span)
    ensures !AllDigits(span) ==> r.Err?
    ensures AllDigits(span) && r.Err? ==> r.error == Overflow
  {
    assert [] + span == span;
    StoiImplAccumulates([], span);
    StoiImpl(span, 0)
  }

  /** Appending digits never decreases the value. */
  lemma {:induction false} DecimalMonotone(q: seq<char>, r: seq<char>)
    requires AllDigits(q) && AllDigits(r)
    ensures AllDigits(q + r) && DecimalValue(q) <= DecimalValue(q + r)
  {
    if r == [] {
      assert q + r == q;
    } else {
      var r' := r[..|r| - 1];
      DecimalMonotone(q, r');
      assert (q + r)[..|q + r| - 1] == q + r';
      assert DecimalValue(q + r) == DecimalValue(q + r') * 10 + DigitValue(r[|r| - 1]);
    }
  }

  /** Once the digits read exceed the `int` range, no further digits bring the value back. */
  lemma OverflowPersists(q: seq<char>, r: seq<char>)
    requires AllDigits(q) && DecimalValue(q) > IntMax
    ensures AllDigits(q + r) ==> DecimalValue(q + r) > IntMax
  {
    if AllDigits(q + r) {
      assert AllDigits(r) by {
        forall i | 0 <= i < |r| ensures IsDigit(r[i]) {
          assert r[i] == (q + r)[|q| + i];
        }
      }
      DecimalMonotone(q, r);
    }
  }

  /**
   * The left-to-right accumulation agrees with the reference value: started from the value of
   * the digits already read, it yields the value of all of them, and fails exactly when a
   * non-digit follows or that value exceeds the `int` range.
   */
  lemma {:induction false} StoiImplAccumulates(prefix: seq<char>, span: seq<char>)
    requires AllDigits(prefix) && DecimalValue(prefix) <= IntMax
    ensures var r := StoiImpl(span, DecimalValue(prefix));
      && (r.Ok? <==> AllDigits(prefix + span) && DecimalValue(prefix + span) <= IntMax)
      && (r.Ok? ==> r.value == DecimalValue(prefix + span))
      && (!AllDigits(span) ==> r.Err?)
      && (AllDigits(span) && r.Err? ==> r.error == Overflow)
    decreases |span|
  {
    if span == [] {
      assert prefix + span == prefix;
    } else if !IsDigit(span[0]) {
      assert (prefix + span)[|prefix|] == span[0];
    } else {
      var p' := prefix + [span[0]];
      assert p'[..|p'| - 1] == prefix;
      assert AllDigits(p');
      assert prefix + span == p' + span[1..];
      if DecimalValue(p') > IntMax {
        OverflowPersists(p', span[1..]);
      } else {
        StoiImplAccumulates(p', span[1..]);
        if !AllDigits(span) {
          var i :| 0 <= i < |span| && !IsDigit(span[i]);
          assert span[1..][i - 1] == span[i];
        }
      }
    }
  }

  /** std::to_string of a non-negative integer: a digit string, with no leading zero, that reads back to the number. */
  function DecimalString(n: nat): (r: seq<char>)
    ensures |r| >= 1 && AllDigits(r) && DecimalValue(r) == n
    ensures r[0] == '0' <==> n == 0
    ensures r[0] == '0' ==> |r| == 1
  {
    if n < 10 then
      [DigitChar(n)]
    else
      var r := DecimalString(n / 10) + [DigitChar(n % 10)];
      assert r[..|r| - 1] == DecimalString(n / 10);
      r
  }

  /** std::to_string of a signed integer: a minus sign before the digits of a negative one. */
  function ToString(n: int): (r: seq<char>)
    ensures n >= 0 ==> |r| >= 1 && AllDigits(r) && DecimalValue(r) == n && (r[0] == '0' ==> n == 0 && |r| == 1)
    ensures n < 0 ==> |r| >= 2 && r[0] == '-' && AllDigits(r[1..]) && DecimalValue(r[1..]) == -n && r[1] != '0'
  {
    if n < 0 then "-" + DecimalString(-n) else DecimalString(n)
  }

  /** stoi inverts to_string on every precision an `int` can hold. */
  lemma StoiReadsDecimalString(n: nat)
    requires n <= IntMax
    ensures Stoi(DecimalString(n)) == Ok(n)
  {
  }
}
