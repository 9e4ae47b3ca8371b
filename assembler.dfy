/**
 * Assembling the output: __format renders every argument with its slot's record (for_each
 * with the lambda that pushes onto arg_strs), then copies the template, putting each
 * rendered argument in place of its placeholder.
 */
module Assembler {
  import opened Wrappers
  import opened Directive
  import opened Scanner
  import opened Render

  /** The records of a template's Locations<n>: the decoded directives, then default ones. */
  function SlotForms(s: seq<char>, n: nat): (forms: seq<Formatting>)
    requires WellFormed(s, n)
    ensures |forms| == n
  {
    var ps := Positions(s, 0, n);
    PositionsShape(s, 0, n);
    FormsUpTo(Decoded(s, ps), |ps|, n)
  }

  /** Each argument rendered with the record at its own index. */
  function Rendered(args: seq<Arg>, forms: seq<Formatting>): seq<string>
    requires |args| <= |forms|
    requires forall j :: 0 <= j < |args| ==> Renderable(args[j], forms[j])
  {
    seq(|args|, j requires 0 <= j < |args| => GetString(args[j], forms[j]))
  }

  /**
   * for_each_impl<idx> with __format's lambda: pushes the rendering of each remaining
   * argument, with the record of the slot at its index, onto arg_strs; the overload for an
   * empty pack ends the recursion.
   */
  method ForEachImpl(forms: seq<Formatting>, idx: nat, args: seq<Arg>, argStrs: seq<string>)
    returns (out: seq<string>)
    requires idx <= |args| <= |forms|
    requires forall j :: 0 <= j < |args| ==> Renderable(args[j], forms[j])
    ensures out == argStrs + Rendered(args, forms)[idx..]
    decreases |args| - idx
  {
    var rendered := Rendered(args, forms);
    if idx == |args| {
      out := argStrs;
    } else {
      var text := GetString(args[idx], forms[idx]);
      assert text == rendered[idx];
      out := ForEachImpl(forms, idx + 1, args, argStrs + [text]);
      assert rendered[idx..] == [rendered[idx]] + rendered[idx + 1..];
    }
  }

  /**
   * The pairs whose `{` is a character of the template: the recorded ones, except a last one
   * that found only the terminator.
   */
  function Taken(s: seq<char>, ps: seq<Braces>): (tp: seq<Braces>)
    ensures tp == ps || (ps != [] && tp == ps[..|ps| - 1] && ps[|ps| - 1].begin >= |s|)
  {
    if ps != [] && ps[|ps| - 1].begin >= |s| then ps[..|ps| - 1] else ps
  }

  /**
   * Every recorded `{` inside the template has its `}` inside it too. Where a `{` is left
   * open, __format moves its cursor one past the terminator and then reads from there.
   */
  predicate Closed(s: seq<char>, ps: seq<Braces>) {
    forall j :: 0 <= j < |ps| && ps[j].begin < |s| ==> ps[j].end < |s|
  }

  /** The pairs lie in order inside the template, each `{` before its `}` and after the previous `}`. */
  predicate Ordered(s: seq<char>, ps: seq<Braces>) {
    && (forall j :: 0 <= j < |ps| ==> ps[j].begin < ps[j].end < |s|)
    && (forall j :: 0 <= j < |ps| - 1 ==> ps[j].end < ps[j + 1].begin)
  }

  /**
   * What __format has written once k placeholders are taken: for each of them in turn, the
   * template from the cursor up to its `{` and then the argument's text in its place. The
   * cursor after k placeholders is SegmentStart(0, ps, k): one past the k-th `}`.
   */
  function Written(s: seq<char>, ps: seq<Braces>, strs: seq<string>, k: nat): string
    requires Ordered(s, ps) && k <= |ps| && k <= |strs|
    decreases k
  {
    if k == 0 then []
    else Written(s, ps, strs, k - 1) + s[SegmentStart(0, ps, k - 1)..ps[k - 1].begin] + strs[k - 1]
  }

  /**
   * What __format writes: placeholders are taken while both placeholders and arguments
   * remain; then the rest of the template from the cursor.
   */
  function Assemble(s: seq<char>, ps: seq<Braces>, strs: seq<string>): string
    requires Ordered(s, ps)
  {
    var m := if |ps| < |strs| then |ps| else |strs|;
    Written(s, ps, strs, m) + s[SegmentStart(0, ps, m)..]
  }

  /**
   * On a well-formed template whose placeholders are closed, the taken pairs lie in
   * order inside the template; a recorded pair is taken exactly when its `{` lies inside the
   * template.
   */
  lemma OrderedScan(s: seq<char>, n: nat)
    requires WellFormed(s, n) && Closed(s, Positions(s, 0, n))
    ensures var ps := Positions(s, 0, n);
      && Ordered(s, Taken(s, ps))
      && forall j :: 0 <= j < |ps| ==> (j < |Taken(s, ps)| <==> ps[j].begin < |s|)
  {
    var ps := Positions(s, 0, n);
    var tp := Taken(s, ps);
    PositionsShape(s, 0, n);
    ScanOrdered(s, n);
    forall j | 0 <= j < |ps|
      ensures j < |tp| <==> ps[j].begin < |s|
    {
      if j < |ps| - 1 {
        DecodedAt(s, ps, j);
      }
    }
    forall j | 0 <= j < |tp|
      ensures tp[j].begin < tp[j].end < |s|
    {
      assert tp[j] == ps[j];
    }
    forall j | 0 <= j < |tp| - 1
      ensures tp[j].end < tp[j + 1].begin
    {
      assert tp[j] == ps[j] && tp[j + 1] == ps[j + 1];
    }
  }

  /**
   * What __format writes for a template, its Locations<n> and the arguments: the template
   * with the first taken placeholders replaced, in order, by the arguments' renderings.
   */
  function FormatText(s: seq<char>, n: nat, args: seq<Arg>): string
    requires WellFormed(s, n) && Closed(s, Positions(s, 0, n)) && 1 <= |args| <= n
    requires forall j :: 0 <= j < |args| ==> Renderable(args[j], SlotForms(s, n)[j])
  {
    OrderedScan(s, n);
    Assemble(s, Taken(s, Positions(s, 0, n)), Rendered(args, SlotForms(s, n)))
  }

  /**
   * On a valid Locations whose placeholders are closed, slot j has a `{` inside the template
   * exactly when j indexes a taken pair, and then holds that pair's two pointers.
   */
  lemma TakenSlots(locations: Locations)
    requires locations.Valid() && Closed(locations.literal, Positions(locations.literal, 0, locations.num))
    ensures var s := locations.literal;
      var tp := Taken(s, Positions(s, 0, locations.num));
      && Ordered(s, tp)
      && |tp| <= locations.num == locations.formatBegin.Length == locations.formatEnd.Length
      && (forall j :: 0 <= j < locations.num ==>
            (j < |tp| <==> locations.formatBegin[j].Some? && locations.formatBegin[j].value < |s|))
      && (forall j :: 0 <= j < |tp| ==>
            locations.formatBegin[j] == Some(tp[j].begin) && locations.formatEnd[j] == Some(tp[j].end))
  {
    var s := locations.literal;
    var ps := Positions(s, 0, locations.num);
    var tp := Taken(s, ps);
    OrderedScan(s, locations.num);
    forall j | 0 <= j < locations.num
      ensures j < |tp| <==> locations.formatBegin[j].Some? && locations.formatBegin[j].value < |s|
      ensures j < |tp| ==> locations.formatBegin[j] == Some(tp[j].begin) && locations.formatEnd[j] == Some(tp[j].end)
    {
      assert locations.formatBegin[j] == locations.formatBegin[..][j];
      assert locations.formatEnd[j] == locations.formatEnd[..][j];
      if j < |tp| {
        assert tp[j] == ps[j];
      }
    }
  }

  /**
   * __format's loop over the first min(num, arguments) slots: a slot whose `{` is a character
   * of the template (not null, not the terminator) has the template from the cursor up to the
   * `{` written, then its argument, and moves the cursor one past its `}`; any other slot is
   * skipped. The rest of the template follows. (The source also tests
   * `locations.formatEnd != nullptr`, an array, which is never null.)
   */
  method WriteSlots(str: string, formatBegin: array<Option<nat>>, formatEnd: array<Option<nat>>,
                    argStrs: seq<string>, ghost tp: seq<Braces>)
    returns (output: string)
    requires formatBegin.Length == formatEnd.Length && |tp| <= formatBegin.Length
    requires Ordered(str, tp)
    requires forall j :: 0 <= j < formatBegin.Length ==>
      (j < |tp| <==> formatBegin[j].Some? && formatBegin[j].value < |str|)
    requires forall j :: 0 <= j < |tp| ==> formatBegin[j] == Some(tp[j].begin) && formatEnd[j] == Some(tp[j].end)
    ensures output == Assemble(str, tp, argStrs)
  {
    var count := if formatBegin.Length < |argStrs| then formatBegin.Length else |argStrs|;
    var ss := "";
    var current: nat := 0;
    ghost var k := 0;
    var i := 0;
    while i < count
      invariant i <= count
      invariant k == if i < |tp| then i else |tp|
      invariant ss == Written(str, tp, argStrs, k)
      invariant current == SegmentStart(0, tp, k)
    {
      var b := formatBegin[i];
      if b.Some? && b.value < |str| {
        ss := ss + str[current..b.value] + argStrs[i];
        current := formatEnd[i].value + 1;
        k := k + 1;
      }
      i := i + 1;
    }
    output := ss + str[current..];
  }

  /** __format: renders every argument with its slot's record, then writes the slots. */
  method Format(str: string, locations: Locations, args: seq<Arg>) returns (output: string)
    requires locations.Valid() && locations.literal == str
    requires Closed(str, Positions(str, 0, locations.num)) && 1 <= |args| <= locations.num
    requires forall j :: 0 <= j < |args| ==> Renderable(args[j], SlotForms(str, locations.num)[j])
    ensures output == FormatText(str, locations.num, args)
  {
    assert locations.forms[..] == SlotForms(str, locations.num);
    var argStrs := ForEachImpl(locations.forms[..], 0, args, []);
    assert argStrs == Rendered(args, SlotForms(str, locations.num));
    TakenSlots(locations);
    output := WriteSlots(str, locations.formatBegin, locations.formatEnd, argStrs, Taken(str, Positions(str, 0, locations.num)));
  }

  // ---------------------------------------------------------------------------------------
  // What the output is made of.

  lemma SplitSlice(s: seq<char>, a: nat, b: nat, c: nat, d: nat)
    requires a <= b <= c <= d <= |s|
    ensures s[a..d] == s[a..b] + s[b..c] + s[c..d]
  {
  }

  /**
   * Where the first k arguments are their placeholders' own texts, from `{` to `}`, what is
   * written is the template up to the cursor.
   */
  lemma {:induction false} WrittenSelf(s: seq<char>, ps: seq<Braces>, strs: seq<string>, k: nat)
    requires Ordered(s, ps) && k <= |ps| && k <= |strs|
    requires forall j :: 0 <= j < k ==> strs[j] == s[ps[j].begin..ps[j].end + 1]
    ensures Written(s, ps, strs, k) == s[..SegmentStart(0, ps, k)]
    decreases k
  {
    if k > 0 {
      var c := SegmentStart(0, ps, k - 1);
      var p := ps[k - 1];
      WrittenSelf(s, ps, strs, k - 1);
      calc {
        Written(s, ps, strs, k);
        s[..c] + s[c..p.begin] + strs[k - 1];
        s[0..c] + s[c..p.begin] + s[p.begin..p.end + 1];
        { SplitSlice(s, 0, c, p.begin, p.end + 1); }
        s[..p.end + 1];
      }
    }
  }

  /**
   * Putting back, in place of each placeholder, the placeholder's own text gives back the
   * template.
   */
  lemma AssembleSelf(s: seq<char>, ps: seq<Braces>, strs: seq<string>)
    requires Ordered(s, ps)
    requires forall j :: 0 <= j < |ps| && j < |strs| ==> strs[j] == s[ps[j].begin..ps[j].end + 1]
    ensures Assemble(s, ps, strs) == s
  {
    var m := if |ps| < |strs| then |ps| else |strs|;
    WrittenSelf(s, ps, strs, m);
    assert s[..SegmentStart(0, ps, m)] + s[SegmentStart(0, ps, m)..] == s;
  }

  /** What is written for the first k placeholders depends only on those placeholders and their arguments. */
  lemma {:induction false} WrittenAgree(s: seq<char>, ps: seq<Braces>, strs: seq<string>,
                                        qs: seq<Braces>, ts: seq<string>, k: nat)
    requires Ordered(s, ps) && Ordered(s, qs)
    requires k <= |ps| && k <= |strs| && k <= |qs| && k <= |ts|
    requires forall j :: 0 <= j < k ==> ps[j] == qs[j] && strs[j] == ts[j]
    ensures Written(s, ps, strs, k) == Written(s, qs, ts, k)
    decreases k
  {
    if k > 0 {
      WrittenAgree(s, ps, strs, qs, ts, k - 1);
      assert SegmentStart(0, ps, k - 1) == SegmentStart(0, qs, k - 1);
    }
  }

  /**
   * Only the first min(placeholders, arguments) of each count: surplus arguments are
   * dropped, and surplus placeholders stay in the output as they stand in the template.
   */
  lemma AssembleTruncates(s: seq<char>, ps: seq<Braces>, strs: seq<string>)
    requires Ordered(s, ps)
    ensures var k := if |ps| < |strs| then |ps| else |strs|;
      && Ordered(s, ps[..k])
      && Assemble(s, ps, strs) == Assemble(s, ps[..k], strs[..k])
  {
    var k := if |ps| < |strs| then |ps| else |strs|;
    var qs, ts := ps[..k], strs[..k];
    assert Ordered(s, qs) by {
      forall j | 0 <= j < |qs| - 1
        ensures qs[j].end < qs[j + 1].begin
      {
        assert qs[j] == ps[j] && qs[j + 1] == ps[j + 1];
      }
    }
    WrittenAgree(s, ps, strs, qs, ts, k);
    assert SegmentStart(0, ps, k) == SegmentStart(0, qs, k);
  }

  /** A template with no `{` comes out unchanged, whatever the arguments. */
  lemma Verbatim(s: seq<char>, n: nat, args: seq<Arg>)
    requires WellFormed(s, n) && Closed(s, Positions(s, 0, n)) && 1 <= |args| <= n
    requires forall j :: 0 <= j < |args| ==> Renderable(args[j], SlotForms(s, n)[j])
    requires forall k :: 0 <= k < |s| ==> s[k] != '{'
    ensures FormatText(s, n, args) == s
  {
    var ps := Positions(s, 0, n);
    OrderedScan(s, n);
    FindLeast(s, 0, '{');
    PositionsShape(s, 0, n);
    assert PlacedAt(s, 0, ps, 0);
    assert ps[0].begin == |s|;
    assert Taken(s, ps) == [];
  }
}
