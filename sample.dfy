/**
 * One template worked through end to end, after the library's own usage: `{0x}` with 252
 * gives 0xfc.
 */
module Sample {
  import opened Wrappers
  import opened Directive
  import opened Scanner
  import opened Render
  import opened Assembler

  /** A template with a hexadecimal placeholder and a plain one. */
  const Example: string := "a{0x}b{}"

  /** The scan of the example: `{0x}` at 1..4, then `{}` at 6..7, where the cursor reaches the end. */
  lemma ExamplePositions()
    ensures Positions(Example, 0, 2) == [Braces(1, 4), Braces(6, 7)]
  {
    var s := Example;
    assert Find(s, 0, '{') == 1 && Find(s, 0, '}') == 4;
    assert Find(s, 5, '{') == 6 && Find(s, 5, '}') == 7;
    assert Positions(s, 5, 1) == [Braces(6, 7)];
  }

  /** The example's directives: `0x` selects lowercase hexadecimal, the empty one keeps the default. */
  lemma ExampleDecoded()
    ensures AllDecode(Example, [Braces(1, 4), Braces(6, 7)])
    ensures Decoded(Example, [Braces(1, 4), Braces(6, 7)]) == [Formatting(Int, Options(10, Hex)), DefaultFormatting]
  {
    var s := Example;
    var ps := [Braces(1, 4), Braces(6, 7)];
    assert Body(s, 1, 4) == "0x";
    assert Decode(s, ps[0]) == Ok(Formatting(Int, Options(10, Hex)));
    assert Decode(s, ps[1]) == Ok(DefaultFormatting);
    assert ps[..1] == [ps[0]] && ps[..1][..0] == [];
  }

  /** Locations<2> for the example: both pairs recorded, the first slot hexadecimal, the second default. */
  lemma ExampleScan()
    ensures Positions(Example, 0, 2) == [Braces(1, 4), Braces(6, 7)]
    ensures WellFormed(Example, 2)
    ensures SlotForms(Example, 2) == [Formatting(Int, Options(10, Hex)), DefaultFormatting]
  {
    ExamplePositions();
    ExampleDecoded();
    assert NoNul(Example);
  }

  /** 252 in lowercase hexadecimal: the nibbles 15 and 12. */
  lemma ExampleHex()
    ensures HexText(252, LowerHexGlyphs) == "0xfc"
  {
    assert Shr(252, 4) == 15 && Low(252, 4) == 12 && Shr(15, 4) == 0 && Low(15, 4) == 15;
    assert Digits(15, 4) == [15];
    assert Digits(252, 4) == [15, 12];
  }

  /** The example's arguments rendered with their slots' records: 252 in hexadecimal, the object as streamed. */
  lemma ExampleRendered()
    ensures WellFormed(Example, 2)
    ensures forall j :: 0 <= j < 2 ==> Renderable([Integral(252), Object("s")][j], SlotForms(Example, 2)[j])
    ensures Rendered([Integral(252), Object("s")], SlotForms(Example, 2)) == ["0xfc", "s"]
  {
    ExampleScan();
    ExampleHex();
  }

  /** The example's text put together: the template with each placeholder replaced by its text. */
  lemma ExampleAssembled()
    ensures Ordered(Example, [Braces(1, 4), Braces(6, 7)])
    ensures Assemble(Example, [Braces(1, 4), Braces(6, 7)], ["0xfc", "s"]) == "a0xfcbs"
  {
    var s, ps, strs := Example, [Braces(1, 4), Braces(6, 7)], ["0xfc", "s"];
    assert Ordered(s, ps);
    assert Written(s, ps, strs, 1) == "a0xfc";
    assert Written(s, ps, strs, 2) == "a0xfcbs";
  }

  /**
   * `a{0x}b{}` formatted with 252 and an object streaming as `s`: the first placeholder
   * becomes 0xfc, the second the object's text.
   */
  lemma FormatExample()
    ensures WellFormed(Example, 2) && Closed(Example, Positions(Example, 0, 2))
    ensures forall j :: 0 <= j < 2 ==> Renderable([Integral(252), Object("s")][j], SlotForms(Example, 2)[j])
    ensures FormatText(Example, 2, [Integral(252), Object("s")]) == "a0xfcbs"
  {
    ExampleScan();
    ExampleRendered();
    ExampleAssembled();
    assert Taken(Example, Positions(Example, 0, 2)) == [Braces(1, 4), Braces(6, 7)];
  }
}
