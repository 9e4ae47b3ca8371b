# tp-format in Dafny

A model of the formatting engine of tp-format (`include/sl_fmt.hpp`) and of its companion
branch selector (`include/if_constexpr.hpp`), with proofs of what they compute.

The engine formats a string literal with `{}` placeholders in four stages, each a module here:

- **Scanner** (`scanner.dfy`): `find` and the `Locations<N>` constructor walk the template
  with a cursor. For each of N slots they record the next `{`, the next `}` and the record
  decoded from the directive between them. A template is a `seq<char>`. The index `|s|`
  stands for the terminating NUL, a pointer is an index, and a null pointer is `None`.
  `Locations` is a class over three arrays, filled in the constructor's loop. It is proved
  equal to `Table`, a function of the template.
- **Directive** (`directive.dfy`, with `decimal.dfy`): `Formatting` and its default value
  `DefaultFormatting` (type Unknown, precision 10, decimal). `setFormatting` is a method that
  writes the record through the array. `ApplyDirective` is the value it leaves. `stoi` is
  the recursive digit parser, and `std::to_string` of an integer is its partner.
- **Render** (`render.dfy`): the base renderers fill a buffer of `'0'`s from the right, as
  the source does, with `num >> k` written as `Shr` and the mask as `Low`. Each is proved
  equal to a reference text: a prefix, then `Digits(n, w)`, the base-2^w digits of n, most
  significant first. `__getString__` is a function over an `Arg` datatype.
- **Assembler** (`assembler.dfy`): `for_each_impl` renders every argument with its slot's
  record, and `__format` copies the template, putting the renderings in place of the
  placeholders. `Format` is proved equal to `FormatText`, a function of the template, N and
  the arguments.

`if_constexpr.dfy` models the selector at the value level. A producer is a tagged lambda,
the no-op lambda, the forwarding lambda `if_` builds, or a nested selector. Calling it
gives an `Outcome`: the tags of the lambdas that ran and the value returned. `sample.dfy`
works one small template through every stage, in the manner of the library's test:
`a{0x}b{}` with 252 and an object.

Two details the model takes from the code as written:

- `stoi` has no digit bound. A value past the 32-bit `int` range is signed overflow during
  constant evaluation, so the model treats it as an error, like a non-digit.
- In `setFormatting`, a `.` precision directive sets the type to Float before `stoi` runs.

## Model

| member | source | states |
|---|---|---|
| Scanner.Find | include/sl_fmt.hpp:21-25 | the result lies between `from` and the terminator, and when it is before the terminator it holds the needle or a NUL |
| Scanner.FindLeast | include/sl_fmt.hpp:21-25 | every skipped character differs from the needle and from NUL. On a NUL-free template the result is the least index holding the needle. It is the terminator exactly when the needle does not occur |
| Decimal.Stoi | include/sl_fmt.hpp:51-59 | stoi succeeds exactly on an all-digit span whose decimal value fits an `int`, and then gives that value. A non-digit is an error, and an all-digit span that fails has overflowed |
| Decimal.StoiImplAccumulates | include/sl_fmt.hpp:53-57 | the left-to-right accumulation `digit + value * 10`, started from the value of the digits already read, agrees with the reference value of all the digits |
| Decimal.DecimalString | include/sl_fmt.hpp:251-253 | to_string of a natural number: at least one digit, all digits, reading back to the number, with a leading zero only for 0, which is the single digit `0` |
| Decimal.ToString | include/sl_fmt.hpp:264-268 | to_string of an int: the digits of a non-negative value, or `-` followed by the digits of its magnitude, with no leading zero (0 is the single digit `0`) |
| Decimal.StoiReadsDecimalString | include/sl_fmt.hpp:51-59 | stoi inverts to_string on every value an `int` holds |
| Directive.Body | include/sl_fmt.hpp:61-66 | the directive body has `len - 1` characters (none when both pointers are at the terminator), and they are the ones between the braces |
| Directive.ApplyDirective | include/sl_fmt.hpp:61-110 | a directive leaves the record unchanged, or sets a non-decimal base with the precision kept, or sets Float with an `int` precision and the base kept. It fails exactly on a leading `:` or on precision digits that stoi rejects. Precision digits that stoi accepts set Float with stoi's value as precision |
| Directive.SetFormatting | include/sl_fmt.hpp:61-110 | writing through the array changes only forms[i]. On success it holds the decoded record. On failure it reports the error, and a `.` directive leaves its Float write behind |
| Directive.BaseMarkerSetsBase | include/sl_fmt.hpp:77-92 | `0x`, `0X`, `0o` and `0b` set type Int with Hex, HEX, Oct and Bin, keep the precision, and ignore whatever follows |
| Directive.PrecisionRoundTrip | include/sl_fmt.hpp:71-76 | `.` or `0.` followed by any run of decimal digits, leading zeros allowed, whose value an `int` holds sets Float with the run's value as precision (`.05` gives 5) |
| Directive.PrecisionStringRoundTrip | include/sl_fmt.hpp:71-76 | `.` or `0.` followed by the `std::to_string` digits of p sets Float with precision p, for every p an `int` holds |
| Directive.NoChangeDirectives | include/sl_fmt.hpp:63-69 | `{}`, `{0}`, `{.}`, `{0.}`, a `0` followed by a non-marker, and a first character other than `0`, `.` or `:` leave the record unchanged |
| Scanner.ReservedMarkerRejected | include/sl_fmt.hpp:106-108 | a recorded directive starting with `:` keeps the template from compiling |
| Scanner.PositionsShape | include/sl_fmt.hpp:113-127 | the scan records at most N pairs, and at least one when N > 0. Each pair is found from one past the previous `}`. Every pair but the last leaves the cursor inside the template. Fewer than N pairs means the cursor reached the end |
| Scanner.PositionsLink | include/sl_fmt.hpp:117-122 | pair j > 0 is the next `{` and the next `}` from one past the `}` of pair j - 1, which lies inside the template |
| Scanner.ScanOrdered | include/sl_fmt.hpp:113-127 | on a well-formed template, each `{` is before its `}` unless both are at the terminator, and each next `{` is after the previous `}` |
| Scanner.TableAt | include/sl_fmt.hpp:112-132 | slot j holds the j-th recorded pair and its decoded record, or null pointers and the default record past the recorded ones |
| Scanner.TableShape | include/sl_fmt.hpp:113-127 | slot 0 is scanned from the start. A slot is unset exactly when its begin is null. A set slot's record is its directive decoded from the default one. The first unset slot follows a slot whose `}` + 1 reached the end |
| Scanner.Locations.RecordSlot | include/sl_fmt.hpp:117-121 | one turn of the loop: slot i gets the next `{` and `}` from the cursor and the decoded record, and nothing else changes |
| Scanner.Locations.constructor | include/sl_fmt.hpp:113-127 | the constructed object is valid, which means its arrays hold the recorded pairs and decoded records, then null pointers and default records |
| Scanner.Locations.Scan | include/sl_fmt.hpp:115-126 | the constructor's loop turns value-initialised arrays into the table of the template |
| Scanner.SlotsAreTable | include/sl_fmt.hpp:128-131 | a valid Locations holds, slot by slot, the table of its template |
| Render.IntToBinaryString | include/sl_fmt.hpp:134-147 | the filled buffer is `0b` followed by the binary digits of num |
| Render.IntToOctString | include/sl_fmt.hpp:155-171 | the filled buffer is `0o` followed by the octal digits of num, the top digit written last at position 2 |
| Render.IntToHexStringImpl | include/sl_fmt.hpp:179-191 | the filled buffer is `0x` followed by the hexadecimal digits of num, spelled in the given charset |
| Render.IntToHexString | include/sl_fmt.hpp:193-198 | intToHexString is the hexadecimal text in `0123456789abcdef` |
| Render.IntToUpperHexString | include/sl_fmt.hpp:207-212 | intToHEXString is the hexadecimal text in `0123456789ABCDEF` |
| Render.BinaryTextReadsBack | include/sl_fmt.hpp:134-147 | for n ≥ 1: log2(n) + 3 characters, `0b`, a leading `1`, only `0` and `1` after that, and the bits read back in base 2 give n |
| Render.OctalTextReadsBack | include/sl_fmt.hpp:155-171 | for n ≥ 1: log2(n) / 3 + 3 characters, `0o`, a nonzero leading digit, only octal digits, and they read back in base 8 to n |
| Render.HexTextReadsBack | include/sl_fmt.hpp:179-191 | for n ≥ 1 and 16 distinct glyphs: log2(n) / 4 + 3 characters, `0x`, a leading glyph other than zero, only charset glyphs, and they read back in base 16 to n |
| Render.UpperHexIsUpperCased | include/sl_fmt.hpp:193-212 | the HEX text has the same length and the same lowercase `0x` as the hex text, and each digit is the uppercase form of the lowercase digit |
| Render.GetString | include/sl_fmt.hpp:239-269 | an integral argument renders as "" exactly in a Float slot. A floating argument in a base slot renders as "" (the non-integral renderer overloads), in a Float slot as floatToString at the slot's precision, and in any other slot as std::to_string. An object renders as what it streams |
| Render.GetStringReadsBack | include/sl_fmt.hpp:243-260 | an integral v ≥ 1 in a base slot renders as the base's marker (lowercase `0x` for HEX), then a nonzero leading digit, then only digits of that base, which read back to v |
| Render.GetStringDecimal | include/sl_fmt.hpp:242-268 | an integral value of any magnitude in a decimal, Unknown, Bool or Obj slot renders as `std::to_string` of it. stoi reads one back when it lies between 0 and the `int` maximum, and a negative one is `-` followed by its magnitude |
| Assembler.ForEachImpl | include/sl_fmt.hpp:279-291 | from index idx on, it appends to arg_strs each argument rendered with the record of the slot at its own index, in order |
| Assembler.OrderedScan | include/sl_fmt.hpp:348-353 | on a well-formed template with no open `{`, the pairs whose `{` is inside the template lie in order. A recorded pair is taken exactly when its `{` is not the terminator |
| Assembler.TakenSlots | include/sl_fmt.hpp:348-350 | slot j passes __format's test (non-null and not at the terminator) exactly when it is a taken pair, and then it holds that pair's pointers |
| Assembler.WriteSlots | include/sl_fmt.hpp:346-357 | the loop over the first min(N, #args) slots writes the text, then each taken argument in place of its placeholder, then the rest of the template |
| Assembler.Format | include/sl_fmt.hpp:337-358 | __format's output is FormatText: the template with the taken placeholders replaced, in order, by the renderings of the arguments |
| Assembler.AssembleSelf | include/sl_fmt.hpp:346-357 | putting back each placeholder's own text, from `{` to `}`, rebuilds the template: the copied slices and placeholders cover it exactly, in order |
| Assembler.AssembleTruncates | include/sl_fmt.hpp:348-356 | only the first min(placeholders, arguments) take part: surplus arguments are dropped, and surplus placeholders stay in the output as written |
| Assembler.Verbatim | include/sl_fmt.hpp:346-357 | a template with no `{` comes out unchanged, whatever the arguments |
| Sample.ExampleScan | include/sl_fmt.hpp:113-127 | Locations<2> of `a{0x}b{}` records the pairs (1, 4) and (6, 7), with a Hex record and then a default one |
| Sample.ExampleHex | include/sl_fmt.hpp:193-198 | intToHexString(252) is `0xfc` |
| Sample.FormatExample | include/sl_fmt.hpp:337-358 | a template made up for the example: formatting `a{0x}b{}` with 252 and an object streaming as `s` gives `a0xfcbs` |
| IfConstexpr.Call | include/if_constexpr.hpp:21-32 | a true flag calls the true producer. A false flag calls the false producer when there is one, and otherwise runs nothing and returns void. At most one lambda runs |
| IfConstexpr.Invoke | include/if_constexpr.hpp:69-71 | calling any producer (a lambda, the no-op, the forwarding lambda or a nested selector) runs at most one lambda, and returns void when none ran |
| IfConstexpr.MakeElse | include/if_constexpr.hpp:86-89 | calling the wrapped producer is calling the given one |
| IfConstexpr.If | include/if_constexpr.hpp:60-64 | with a true flag the true producer's outcome, otherwise the else producer's |
| IfConstexpr.IfCallable | include/if_constexpr.hpp:66-73 | if_ with a plain callable gives the same outcome as if_ with that callable wrapped in else_ |
| IfConstexpr.ElseIf | include/if_constexpr.hpp:75-78 | the returned selector, when called, gives the true producer's outcome with a true flag and the else producer's otherwise |
| IfConstexpr.ElseIfNoElse | include/if_constexpr.hpp:80-84 | with a false flag the selector runs the no-op and returns nothing. With a true flag it calls the true producer |
| IfConstexpr.MakeCase | include/if_constexpr.hpp:91-94 | the case carries the flag and calls the given producer |
| IfConstexpr.Default | include/if_constexpr.hpp:96-99 | default_ is a case whose flag is true and which calls the given producer |
| IfConstexpr.Switch | include/if_constexpr.hpp:101-122 | a switch runs at most one lambda |
| IfConstexpr.SwitchFirstTrue | include/if_constexpr.hpp:112-122 | the switch gives the outcome of the first case whose flag is true, and no other case runs |
| IfConstexpr.SwitchNoneTrue | include/if_constexpr.hpp:101-110 | a switch with no true flag runs nothing and returns void |
| IfConstexpr.DefaultTaken | include/if_constexpr.hpp:96-99 | a default_ after cases that are all false is taken |
| IfConstexpr.ChainIsSwitch | include/if_constexpr.hpp:60-78 | an if_/else_if_/else_ chain picks what a switch over the same branches, closed by default_, picks: the first true branch, otherwise the final else |
| IfConstexpr.ElseIfChainIsSwitch | include/if_constexpr.hpp:75-78 | a nested else_if_ chain, called, is the switch over its branches closed by the final else |

## Left out

- floatToString (`include/sl_fmt.hpp:220-237`) uses floating point. A `Floating` argument
  carries the text floatToString gives it at each precision, as the function `fixed`, and
  the text `std::to_string` gives it, as `shown`.
- The `__getString__` overload for class types (`include/sl_fmt.hpp:271-277`) streams
  through `operator<<`. An `Object` argument carries the streamed text, and pointers are
  among these.
- The `format` macro and `PP_NARG` (`include/sl_fmt.hpp:360-381`) are preprocessor glue and
  console output. Their only effect here is that N is the number of arguments.
- typeToString, intFormatToString and optionsToString (`include/sl_fmt.hpp:293-335`) are
  debug helpers that the formatting path does not call.
- `log2.hpp` and `for_constexpr.hpp` are not part of this model. `Log2` is taken to be the
  floor of the base-2 logarithm for n ≥ 1.
- Render.IntToBinaryString, Render.IntToOctString, Render.IntToHexStringImpl,
  Render.IntToHexString and Render.IntToUpperHexString require num ≥ 1. For 0, log2_64 is
  not defined here. For a negative value the source shifts a signed number. Neither is
  modelled.
- Render.GetString requires an integral argument in a base slot to be ≥ 1, for the same
  reason.
- Scanner.Locations.constructor requires a well-formed template (`WellFormed`):
  - no NUL inside it;
  - in every scanned segment the `}` does not come before the `{`;
  - every directive decodes.
  Only two things stop the source from building Locations<n>. One is a directive that fails
  to decode: a throw, an overflow or `assert(false)` during constant evaluation is a compile
  error. The other is a segment with a `}` and no `{`, as in `a}b`, whose directive is read
  out of bounds. The first two conditions are this model's choice, and the source does
  compile templates the model rejects:
  - with `}` before `{` the length wraps, yet in `}{}` `setFormatting` reads only
    characters inside the literal, and `format("}{}", 7, 8)` prints `}78`;
  - with an embedded NUL, as in `"a\0{}"`, `find` stops at the NUL and `__format` skips
    that slot.
- The `:` directive is modelled as the failing `assert(false)` (`ReservedMarker`). With
  NDEBUG it would change nothing. That build is not modelled.
- Assembler.Format requires that no recorded `{` inside the template is left open.
  Otherwise the cursor moves past the terminator and the tail is read out of bounds.
- Assembler.Format requires at most N arguments. for_each reads `locations.forms[idx]` for
  every argument, so a surplus argument reads past the array. The `format` macro passes N
  equal to the number of arguments when there is at least one.
- Assembler.Format and Assembler.FormatText require at least one argument. `__format` hands
  the arguments to `for_each`, whose only overload takes a head argument
  (sl_fmt.hpp:288-291), so a call with none does not compile. `format("ab")` is such a call:
  the macro counts one argument and passes none.
- The source also tests `locations.formatEnd != nullptr`. That is an array, which is never
  null, so the test has no counterpart.
- Integer widths are not modelled: values are unbounded integers, and `size_t` arithmetic
  cannot wrap on the inputs the preconditions admit. `stoi` results are bounded by the
  32-bit `int` maximum.
- The type-level machinery of `if_constexpr.hpp` is not modelled: `enable_if`,
  `is_specialization`, `std::move`/`std::forward`, and the fact that the untaken branch is
  never instantiated. The tag of a `Lambda` only records which lambda ran.
- IfConstexpr.Switch requires at least one case, as every overload of `switch_` takes one.
