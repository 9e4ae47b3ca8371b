/**
 * The formatting record of one placeholder and the decoder of the directive written between
 * its braces (class Formatting and setFormatting).
 */
module Directive {
  import opened Wrappers
  import opened Decimal

  datatype FormatType = Unknown | Int | Float | Bool | Obj

  datatype IntegralFormat = Bin | Oct | Dec | Hex | HEX

  datatype Options = Options(precision: int, intFormat: IntegralFormat)

  datatype Formatting = Formatting(ty: FormatType, options: Options)

  /** What the default constructor of Formatting holds: type Unknown, precision 10, decimal. */
  const DefaultFormatting: Formatting := Formatting(Unknown, Options(10, Dec))

  /**
   * Why decoding a directive stops constant evaluation: the precision digits do not parse,
   * or the body starts with the reserved marker ':' (an assert(false)).
   */
  datatype DirectiveError = BadPrecision(cause: StoiError) | ReservedMarker

  /**
   * The directive body: the characters strictly between the `{` at formatBegin and the `}` at
   * formatEnd. When both stand at the terminator (len == 0) there is none.
   */
  function Body(s: seq<char>, formatBegin: nat, formatEnd: nat): (body: seq<char>)
    requires formatBegin <= formatEnd <= |s|
    ensures |body| == if formatBegin < formatEnd then formatEnd - formatBegin - 1 else 0
    ensures forall k :: 0 <= k < |body| ==> body[k] == s[formatBegin + 1 + k]
  {
    if formatBegin < formatEnd then s[formatBegin + 1..formatEnd] else []
  }

  /** The record an integer-base directive leaves: type Int and that base, precision kept. */
  function WithBase(f: Formatting, base: IntegralFormat): Formatting {
    f.(ty := Int, options := f.options.(intFormat := base))
  }

  /** The record a precision directive leaves: type Float and that precision, base kept. */
  function WithPrecision(f: Formatting, precision: int): Formatting {
    f.(ty := Float, options := f.options.(precision := precision))
  }

  /** The digit run of a precision directive (`0.` or `.` followed by at least one character), if the body is one. */
  function PrecisionDigits(body: seq<char>): Option<seq<char>> {
    if |body| >= 3 && body[0] == '0' && body[1] == '.' then Some(body[2..])
    else if |body| >= 2 && body[0] == '.' then Some(body[1..])
    else None
  }

  /** The marker that selects a base: `0x`, `0X`, `0o`, `0b`; decimal has none. */
  function BaseMarker(base: IntegralFormat): (m: seq<char>)
    requires base != Dec
    ensures |m| == 2 && m[0] == '0'
  {
    match base
    case Hex => "0x"
    case HEX => "0X"
    case Oct => "0o"
    case Bin => "0b"
  }

  function ApplyPrecision(f: Formatting, digits: seq<char>): Result<Formatting, DirectiveError> {
    match Stoi(digits)
    case Ok(p) => Ok(WithPrecision(f, p))
    case Err(cause) => Err(BadPrecision(cause))
  }

  /**
   * The value setFormatting leaves in the record: decided by the first one or two body
   * characters, as the source's nested switch decides it. A directive leaves the record as it
   * was, or makes it a non-decimal integer base with the precision kept, or a float whose
   * precision is an `int` with the base kept; it fails exactly on the reserved marker and on
   * precision digits stoi rejects.
   */
  function ApplyDirective(f: Formatting, body: seq<char>): (r: Result<Formatting, DirectiveError>)
    ensures r.Ok? ==>
      || r.value == f
      || (r.value.ty == Int && r.value.options.intFormat != Dec && r.value.options.precision == f.options.precision)
      || (r.value.ty == Float && 0 <= r.value.options.precision <= IntMax && r.value.options.intFormat == f.options.intFormat)
    ensures r.Err? <==>
      || (|body| >= 1 && body[0] == ':')
      || (PrecisionDigits(body).Some? && Stoi(PrecisionDigits(body).value).Err?)
    ensures r == Err(ReservedMarker) <==> |body| >= 1 && body[0] == ':'
    ensures PrecisionDigits(body).Some? && Stoi(PrecisionDigits(body).value).Ok? ==>
      r == Ok(WithPrecision(f, Stoi(PrecisionDigits(body).value).value))
  {
    if |body| < 1 then Ok(f)
    else if body[0] == '0' then
      if |body| < 2 then Ok(f)
      else if body[1] == '.' then
        if |body| < 3 then Ok(f) else ApplyPrecision(f, body[2..])
      else if body[1] == 'x' then Ok(WithBase(f, Hex))
      else if body[1] == 'X' then Ok(WithBase(f, HEX))
      else if body[1] == 'o' then Ok(WithBase(f, Oct))
      else if body[1] == 'b' then Ok(WithBase(f, Bin))
      else Ok(f)
    else if body[0] == '.' then
      if |body| < 2 then Ok(f) else ApplyPrecision(f, body[1..])
    else if body[0] == ':' then Err(ReservedMarker)
    else Ok(f)
  }

  /**
   * setFormatting: writes the fields of forms[i] through the pointer, branch by branch. A
   * precision directive sets the type to Float before stoi runs, so a rejected digit run
   * leaves that write behind; `thrown` reports the failure that stops constant evaluation.
   */
  method SetFormatting(forms: array<Formatting>, i: nat, s: seq<char>, formatBegin: nat, formatEnd: nat)
    returns (thrown: Option<DirectiveError>)
    requires i < forms.Length
    requires formatBegin <= formatEnd <= |s|
    modifies forms
    ensures var r := ApplyDirective(old(forms[i]), Body(s, formatBegin, formatEnd));
      && (r.Ok? ==> thrown == None && forms[..] == old(forms[..])[i := r.value])
      && (r.Err? ==> thrown == Some(r.error))
      && (r == Err(ReservedMarker) ==> forms[..] == old(forms[..]))
      && (r.Err? && r.error.BadPrecision? ==> forms[..] == old(forms[..])[i := old(forms[i]).(ty := Float)])
  {
    ghost var body := Body(s, formatBegin, formatEnd);
    var len := formatEnd - formatBegin;
    thrown := None;
    if len < 2 {
      return;
    }
    match s[formatBegin + 1] {
      case '0' =>
        if len < 3 {
          return;
        }
        match s[formatBegin + 2] {
          case '.' =>
            if len < 4 {
              return;
            }
            forms[i] := forms[i].(ty := Float);
            assert s[formatBegin + 3..formatEnd] == body[2..];
            var precision := Stoi(s[formatBegin + 3..formatEnd]);
            if precision.Err? {
              thrown := Some(BadPrecision(precision.error));
              return;
            }
            forms[i] := forms[i].(options := forms[i].options.(precision := precision.value));
          case 'x' =>
            forms[i] := forms[i].(ty := Int);
            forms[i] := forms[i].(options := forms[i].options.(intFormat := Hex));
          case 'X' =>
            forms[i] := forms[i].(ty := Int);
            forms[i] := forms[i].(options := forms[i].options.(intFormat := HEX));
          case 'o' =>
            forms[i] := forms[i].(ty := Int);
            forms[i] := forms[i].(options := forms[i].options.(intFormat := Oct));
          case 'b' =>
            forms[i] := forms[i].(ty := Int);
            forms[i] := forms[i].(options := forms[i].options.(intFormat := Bin));
          case _ =>
        }
      case '.' =>
        if len < 3 {
          return;
        }
        forms[i] := forms[i].(ty := Float);
        assert s[formatBegin + 2..formatEnd] == body[1..];
        var precision := Stoi(s[formatBegin + 2..formatEnd]);
        if precision.Err? {
          thrown := Some(BadPrecision(precision.error));
          return;
        }
        forms[i] := forms[i].(options := forms[i].options.(precision := precision.value));
      case ':' =>
        thrown := Some(ReservedMarker);
      case _ =>
    }
  }

  /**
   * A base marker sets type Int and its base, keeps the precision, and whatever follows the
   * marker inside the braces is ignored.
   */
  lemma BaseMarkerSetsBase(f: Formatting, base: IntegralFormat, rest: seq<char>)
    requires base != Dec
    ensures ApplyDirective(f, BaseMarker(base) + rest) == Ok(WithBase(f, base))
  {
  }

  /**
   * A precision written as `.` or `0.` followed by a run of decimal digits, leading zeros
   * allowed, gives the value of that run as the precision, for every run whose value an
   * `int` holds.
   */
  lemma {:induction false} PrecisionRoundTrip(f: Formatting, digits: seq<char>, zeroLed: bool)
    requires |digits| >= 1 && AllDigits(digits) && DecimalValue(digits) <= IntMax
    ensures ApplyDirective(f, (if zeroLed then "0." else ".") + digits) == Ok(WithPrecision(f, DecimalValue(digits)))
  {
    var body := (if zeroLed then "0." else ".") + digits;
    if zeroLed {
      assert body[2..] == digits;
    } else {
      assert body[1..] == digits;
    }
  }

  /** In particular the digits std::to_string writes for a precision decode back to it. */
  lemma PrecisionStringRoundTrip(f: Formatting, precision: nat, zeroLed: bool)
    requires precision <= IntMax
    ensures ApplyDirective(f, (if zeroLed then "0." else ".") + DecimalString(precision)) == Ok(WithPrecision(f, precision))
  {
    PrecisionRoundTrip(f, DecimalString(precision), zeroLed);
  }

  /**
   * The directives that change nothing: the empty body, `0`, `.`, `0.`, a `0` followed by a
   * character that is not a marker, and a body starting with anything but `0`, `.` or `:`.
   */
  lemma NoChangeDirectives(f: Formatting, body: seq<char>)
    requires || body in {"", "0", ".", "0."}
             || (|body| >= 2 && body[0] == '0' && body[1] !in "xXob.")
             || (|body| >= 1 && body[0] !in "0.:")
    ensures ApplyDirective(f, body) == Ok(f)
  {
  }
}
