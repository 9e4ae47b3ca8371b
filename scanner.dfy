/**
 * The placeholder scanner: find, and the Locations table whose constructor walks the
 * template with a cursor, recording for each slot where the next `{` and the next `}` are
 * and decoding the directive between them.
 *
 * A template is a seq<char>; the index |s| stands for its terminating NUL, and a recorded
 * pointer is an index, with None for the null pointer a slot keeps when the scan stops early.
 */
module Scanner {
  import opened Wrappers
  import opened Directive

  const Nul: char := '\0'

  /** A template as a string literal holds it: no NUL before the terminator. */
  predicate NoNul(s: seq<char>) {
    forall i :: 0 <= i < |s| ==> s[i] != Nul
  }

  /**
   * find: the first index at or after `from` that holds the needle or a NUL, the terminator
   * |s| when there is none.
   */
  function Find(s: seq<char>, from: nat, needle: char): (r: nat)
    requires from <= |s|
    ensures from <= r <= |s|
    ensures r < |s| ==> s[r] == needle || s[r] == Nul
    decreases |s| - from
  {
    if from == |s| || s[from] == Nul || s[from] == needle then from else Find(s, from + 1, needle)
  }

  /**
   * Every character find skips differs from the needle; so on a template without NUL it
   * gives the least index holding the needle, and the terminator exactly when the needle
   * does not occur from `from` on.
   */
  lemma {:induction false} FindLeast(s: seq<char>, from: nat, needle: char)
    requires from <= |s|
    ensures var r := Find(s, from, needle);
      && (forall k :: from <= k < r ==> s[k] != needle && s[k] != Nul)
      && (NoNul(s) && needle != Nul ==>
            && (r < |s| ==> s[r] == needle)
            && (r == |s| <==> forall k :: from <= k < |s| ==> s[k] != needle))
    decreases |s| - from
  {
    if from < |s| && s[from] != Nul && s[from] != needle {
      FindLeast(s, from + 1, needle);
    }
  }

  /** The two pointers one scan step records: the next `{` and the next `}` from the cursor. */
  datatype Braces = Braces(begin: nat, end: nat)

  /**
   * The brace pairs the constructor records from cursor `current` on, for at most k slots:
   * each is the next `{` and the next `}`, the cursor moves one past the `}`, and the scan
   * stops once the cursor reaches the end.
   */
  function Positions(s: seq<char>, current: nat, k: nat): seq<Braces>
    requires current <= |s|
    decreases k
  {
    if k == 0 then []
    else
      var p := Braces(Find(s, current, '{'), Find(s, current, '}'));
      if p.end + 1 >= |s| then [p] else [p] + Positions(s, p.end + 1, k - 1)
  }

  /** The cursor from which pair j is scanned: the start for pair 0, one past the previous `}` after. */
  function SegmentStart(current: nat, ps: seq<Braces>, j: nat): nat
    requires j <= |ps|
  {
    if j == 0 then current else ps[j - 1].end + 1
  }

  /** Pair j is the next `{` and the next `}` from its segment start. */
  predicate PlacedAt(s: seq<char>, current: nat, ps: seq<Braces>, j: nat)
    requires j < |ps|
  {
    var start := SegmentStart(current, ps, j);
    && start <= |s|
    && ps[j].begin == Find(s, start, '{')
    && ps[j].end == Find(s, start, '}')
  }

  /**
   * The scan, described pair by pair: every pair is found from one past the previous `}`;
   * every pair but the last left the cursor inside the template; the scan records k pairs
   * unless the cursor reached the end first, and at least one when k > 0.
   */
  lemma {:induction false} PositionsShape(s: seq<char>, current: nat, k: nat)
    requires current <= |s|
    ensures var ps := Positions(s, current, k);
      && |ps| <= k
      && (k > 0 ==> |ps| > 0)
      && (forall j :: 0 <= j < |ps| ==> PlacedAt(s, current, ps, j))
      && (forall j :: 0 <= j < |ps| - 1 ==> ps[j].end + 1 < |s|)
      && (0 < |ps| < k ==> ps[|ps| - 1].end + 1 >= |s|)
    decreases k
  {
    if k > 0 {
      var ps := Positions(s, current, k);
      var p := ps[0];
      assert PlacedAt(s, current, ps, 0);
      if p.end + 1 < |s| {
        var rest := Positions(s, p.end + 1, k - 1);
        PositionsShape(s, p.end + 1, k - 1);
        assert ps == [p] + rest;
        forall j | 1 <= j < |ps|
          ensures PlacedAt(s, current, ps, j)
        {
          assert ps[j] == rest[j - 1];
          assert PlacedAt(s, p.end + 1, rest, j - 1);
          assert SegmentStart(p.end + 1, rest, j - 1) == SegmentStart(current, ps, j);
        }
        forall j | 0 <= j < |ps| - 1
          ensures ps[j].end + 1 < |s|
        {
          if j > 0 {
            assert ps[j] == rest[j - 1];
          }
        }
      }
    }
  }

  /**
   * One step of the scan from the start, as the constructor takes it: pair i is found from its
   * segment start, and the scan goes on to pair i + 1 exactly when that pair's `}` + 1 is
   * still inside the template and fewer than n pairs were taken.
   */
  lemma PositionsStep(s: seq<char>, n: nat, i: nat)
    requires i < |Positions(s, 0, n)|
    ensures var ps := Positions(s, 0, n);
      && |ps| <= n
      && PlacedAt(s, 0, ps, i)
      && (ps[i].end + 1 < |s| && i + 1 < n ==> i + 1 < |ps|)
      && (ps[i].end + 1 >= |s| ==> i + 1 == |ps|)
  {
    PositionsShape(s, 0, n);
  }

  /** The directive between a recorded pair, decoded into the default record. */
  function Decode(s: seq<char>, p: Braces): Result<Formatting, DirectiveError>
    requires p.begin <= p.end <= |s|
  {
    ApplyDirective(DefaultFormatting, Body(s, p.begin, p.end))
  }

  /** Every pair lies in order inside the template and its directive decodes (checked from the last pair back). */
  predicate AllDecode(s: seq<char>, ps: seq<Braces>)
    decreases |ps|
  {
    ps == [] ||
    var p := ps[|ps| - 1];
    AllDecode(s, ps[..|ps| - 1]) && p.begin <= p.end <= |s| && Decode(s, p).Ok?
  }

  /** The records the directives of the pairs decode to, pair by pair. */
  function Decoded(s: seq<char>, ps: seq<Braces>): (ds: seq<Formatting>)
    requires AllDecode(s, ps)
    ensures |ds| == |ps|
    decreases |ps|
  {
    if ps == [] then [] else Decoded(s, ps[..|ps| - 1]) + [Decode(s, ps[|ps| - 1]).value]
  }

  /** AllDecode and Decoded, pair by pair. */
  lemma {:induction false} DecodedAt(s: seq<char>, ps: seq<Braces>, j: nat)
    requires AllDecode(s, ps) && j < |ps|
    ensures ps[j].begin <= ps[j].end <= |s| && Decode(s, ps[j]).Ok?
    ensures Decoded(s, ps)[j] == Decode(s, ps[j]).value
    decreases |ps|
  {
    if j < |ps| - 1 {
      DecodedAt(s, ps[..|ps| - 1], j);
    }
  }

  /**
   * The templates this model admits. Every recorded pair lies in order and its directive
   * decodes, and the template holds no NUL. Of these conditions, only two stop Locations<n>
   * from being built during constant evaluation: a directive that fails to decode (a throw,
   * an overflow or an assert(false)), and a segment with a `}` but no `{`, whose directive is
   * read out of bounds. The other two are this model's choice. With a `}` before the `{`,
   * the decoder's length wraps around, yet it may read only characters inside the literal,
   * as in `}{}`, which the source formats. With a NUL inside, find stops at the NUL and
   * __format skips that slot.
   */
  predicate WellFormed(s: seq<char>, n: nat) {
    NoNul(s) && AllDecode(s, Positions(s, 0, n))
  }

  /** A recorded directive starting with the reserved marker ':' keeps the template from compiling, so it is not well formed. */
  lemma ReservedMarkerRejected(s: seq<char>, n: nat, j: nat)
    requires var ps := Positions(s, 0, n);
      j < |ps| && ps[j].begin < ps[j].end <= |s| && ps[j].end - ps[j].begin >= 2 && s[ps[j].begin + 1] == ':'
    ensures !WellFormed(s, n)
  {
    var ps := Positions(s, 0, n);
    assert Body(s, ps[j].begin, ps[j].end)[0] == ':';
    if WellFormed(s, n) {
      DecodedAt(s, ps, j);
    }
  }

  /**
   * The recorded pairs are ordered on a well-formed template: each `{` lies before its `}`
   * unless both stand at the terminator (no placeholder left), and each next `{` lies after
   * the previous `}`.
   */
  lemma ScanOrdered(s: seq<char>, n: nat)
    requires WellFormed(s, n)
    ensures var ps := Positions(s, 0, n);
      && (forall j :: 0 <= j < |ps| ==> ps[j].begin < ps[j].end || ps[j].begin == ps[j].end == |s|)
      && (forall j :: 0 <= j < |ps| - 1 ==> ps[j].end < ps[j + 1].begin)
  {
    var ps := Positions(s, 0, n);
    PositionsShape(s, 0, n);
    forall j | 0 <= j < |ps|
      ensures ps[j].begin < ps[j].end || ps[j].begin == ps[j].end == |s|
    {
      assert PlacedAt(s, 0, ps, j);
      DecodedAt(s, ps, j);
    }
    forall j | 0 <= j < |ps| - 1
      ensures ps[j].end < ps[j + 1].begin
    {
      assert PlacedAt(s, 0, ps, j + 1);
    }
  }

  /** One slot of a Locations table: the two pointers (None for null) and the record. */
  datatype Slot = Slot(begin: Option<nat>, end: Option<nat>, form: Formatting)

  /** A slot the constructor never reached: value-initialised pointers and the default record. */
  const UnsetSlot: Slot := Slot(None, None, DefaultFormatting)

  /** The table Locations<n> holds for a template: the recorded slots, then unset ones. */
  function Table(s: seq<char>, n: nat): (t: seq<Slot>)
    requires WellFormed(s, n)
    ensures |t| == n
  {
    var ps := Positions(s, 0, n);
    seq(n, j requires 0 <= j < n =>
      if j < |ps| then Slot(Some(ps[j].begin), Some(ps[j].end), Decoded(s, ps)[j]) else UnsetSlot)
  }

  /** Slot j of the table: the j-th recorded pair and its decoded directive, or an unset slot past the recorded ones. */
  lemma TableAt(s: seq<char>, n: nat, j: nat)
    requires WellFormed(s, n) && j < n
    ensures var ps := Positions(s, 0, n);
      && (j < |ps| ==>
            && ps[j].begin <= ps[j].end <= |s| && Decode(s, ps[j]).Ok?
            && Table(s, n)[j] == Slot(Some(ps[j].begin), Some(ps[j].end), Decode(s, ps[j]).value))
      && (j >= |ps| ==> Table(s, n)[j] == UnsetSlot)
  {
    var ps := Positions(s, 0, n);
    if j < |ps| {
      DecodedAt(s, ps, j);
    }
  }

  /** Pair j > 0 is scanned from one past the `}` of pair j - 1, which left the cursor inside the template. */
  lemma PositionsLink(s: seq<char>, n: nat, j: nat)
    requires 0 < j < |Positions(s, 0, n)|
    ensures var ps := Positions(s, 0, n);
      && ps[j - 1].end + 1 < |s|
      && ps[j] == Braces(Find(s, ps[j - 1].end + 1, '{'), Find(s, ps[j - 1].end + 1, '}'))
  {
    var ps := Positions(s, 0, n);
    PositionsStep(s, n, j - 1);
    PositionsStep(s, n, j);
    assert SegmentStart(0, ps, j) == ps[j - 1].end + 1;
  }

  /**
   * The table's shape (PositionsLink gives the step between consecutive recorded pairs): slot 0 is
   * scanned from the start and always set; a set slot's `{` lies before its `}`, unless both
   * stand at the terminator, and its record is its directive decoded from the default one;
   * an unset slot holds null pointers and the default record, and the first one follows a
   * slot whose `}` + 1 reached the end.
   */
  lemma TableShape(s: seq<char>, n: nat)
    requires WellFormed(s, n)
    ensures var t := Table(s, n);
      && (n > 0 ==> t[0].begin == Some(Find(s, 0, '{')) && t[0].end == Some(Find(s, 0, '}')))
      && (forall j :: 0 <= j < n ==> (t[j].begin.None? <==> t[j] == UnsetSlot))
      && (forall j :: 0 <= j < n && t[j].begin.Some? ==>
            && t[j].end.Some?
            && t[j].begin.value <= t[j].end.value <= |s|
            && (t[j].begin.value == t[j].end.value ==> t[j].end.value == |s|)
            && ApplyDirective(DefaultFormatting, Body(s, t[j].begin.value, t[j].end.value)) == Ok(t[j].form))
      && (forall j :: 0 <= j < n - 1 && t[j].begin.Some? && t[j + 1].begin.None? ==> t[j].end.value + 1 >= |s|)
  {
    var ps := Positions(s, 0, n);
    PositionsShape(s, 0, n);
    ScanOrdered(s, n);
    var t := Table(s, n);
    if n > 0 {
      TableAt(s, n, 0);
      assert PlacedAt(s, 0, ps, 0);
    }
    forall j | 0 <= j < n
      ensures t[j].begin.None? <==> t[j] == UnsetSlot
      ensures t[j].begin.Some? ==>
            && t[j].end.Some?
            && t[j].begin.value <= t[j].end.value <= |s|
            && (t[j].begin.value == t[j].end.value ==> t[j].end.value == |s|)
            && ApplyDirective(DefaultFormatting, Body(s, t[j].begin.value, t[j].end.value)) == Ok(t[j].form)
    {
      TableAt(s, n, j);
    }
    forall j | 0 <= j < n - 1 && t[j].begin.Some? && t[j + 1].begin.None?
      ensures t[j].end.value + 1 >= |s|
    {
      TableAt(s, n, j);
      TableAt(s, n, j + 1);
    }
  }

  /** The begin pointers after the first i of n slots were recorded: the recorded `{` indices, then null. */
  function BeginsUpTo(ps: seq<Braces>, i: nat, n: nat): (r: seq<Option<nat>>)
    requires i <= |ps|
    ensures |r| == n
  {
    seq(n, j requires 0 <= j < n => if j < i then Some(ps[j].begin) else None)
  }

  /** The end pointers after the first i of n slots were recorded: the recorded `}` indices, then null. */
  function EndsUpTo(ps: seq<Braces>, i: nat, n: nat): (r: seq<Option<nat>>)
    requires i <= |ps|
    ensures |r| == n
  {
    seq(n, j requires 0 <= j < n => if j < i then Some(ps[j].end) else None)
  }

  /** The records after the first i of n slots were recorded: the decoded ones, then default ones. */
  function FormsUpTo(ds: seq<Formatting>, i: nat, n: nat): (r: seq<Formatting>)
    requires i <= |ds|
    ensures |r| == n
  {
    seq(n, j requires 0 <= j < n => if j < i then ds[j] else DefaultFormatting)
  }

  /** Recording slot i < n extends each of the three prefixes by one. */
  lemma RecordedStep(ps: seq<Braces>, ds: seq<Formatting>, i: nat, n: nat)
    requires i < |ps| && i < |ds| && i < n
    ensures BeginsUpTo(ps, i, n)[i := Some(ps[i].begin)] == BeginsUpTo(ps, i + 1, n)
    ensures EndsUpTo(ps, i, n)[i := Some(ps[i].end)] == EndsUpTo(ps, i + 1, n)
    ensures FormsUpTo(ds, i, n)[i := ds[i]] == FormsUpTo(ds, i + 1, n)
  {
    assert BeginsUpTo(ps, i, n)[i := Some(ps[i].begin)] == BeginsUpTo(ps, i + 1, n);
    assert EndsUpTo(ps, i, n)[i := Some(ps[i].end)] == EndsUpTo(ps, i + 1, n);
    assert FormsUpTo(ds, i, n)[i := ds[i]] == FormsUpTo(ds, i + 1, n);
  }

  /** With every recorded pair in place, the three arrays hold the table. */
  lemma RecordedIsTable(s: seq<char>, n: nat)
    requires WellFormed(s, n)
    ensures var ps := Positions(s, 0, n);
      && |ps| <= n
      && forall j :: 0 <= j < n ==>
           Table(s, n)[j] == Slot(BeginsUpTo(ps, |ps|, n)[j], EndsUpTo(ps, |ps|, n)[j], FormsUpTo(Decoded(s, ps), |ps|, n)[j])
  {
    PositionsShape(s, 0, n);
  }

  /**
   * Locations<N>: the template's slots in three parallel arrays, filled once by the
   * constructor and read-only afterwards.
   */
  class Locations {
    const num: nat
    const formatBegin: array<Option<nat>>
    const formatEnd: array<Option<nat>>
    const forms: array<Formatting>
    ghost const literal: seq<char>

    /** The arrays hold the table of the template: the recorded slots, then unset ones. */
    ghost predicate Valid()
      reads this, formatBegin, formatEnd, forms
    {
      && WellFormed(literal, num)
      && var ps := Positions(literal, 0, num);
         && |ps| <= num
         && formatBegin[..] == BeginsUpTo(ps, |ps|, num)
         && formatEnd[..] == EndsUpTo(ps, |ps|, num)
         && forms[..] == FormsUpTo(Decoded(literal, ps), |ps|, num)
    }

    ghost function SlotAt(j: nat): Slot
      reads this, formatBegin, formatEnd, forms
      requires j < formatBegin.Length && j < formatEnd.Length && j < forms.Length
    {
      Slot(formatBegin[j], formatEnd[j], forms[j])
    }

    /**
     * One turn of the constructor's loop: finds the next `{` and `}` from the cursor, records
     * both pointers in slot i and decodes the directive between them into forms[i].
     */
    method RecordSlot(literal: seq<char>, i: nat, current: nat, ghost p: Braces, ghost form: Formatting)
      returns (formatEnd: nat)
      requires formatBegin != this.formatEnd
      requires i < formatBegin.Length && i < this.formatEnd.Length && i < forms.Length
      requires current <= |literal| && forms[i] == DefaultFormatting
      requires p == Braces(Find(literal, current, '{'), Find(literal, current, '}'))
      requires p.begin <= p.end <= |literal| && Decode(literal, p) == Ok(form)
      modifies formatBegin, this.formatEnd, forms
      ensures formatEnd == p.end
      ensures formatBegin[..] == old(formatBegin[..])[i := Some(p.begin)]
      ensures this.formatEnd[..] == old(this.formatEnd[..])[i := Some(p.end)]
      ensures forms[..] == old(forms[..])[i := form]
    {
      var formatBegin := Find(literal, current, '{');
      formatEnd := Find(literal, current, '}');
      this.formatBegin[i] := Some(formatBegin);
      this.formatEnd[i] := Some(formatEnd);
      var thrown := SetFormatting(forms, i, literal, formatBegin, formatEnd);
    }

    /**
     * The constructor: value-initialises the three arrays (null pointers, default records),
     * then scans the template.
     */
    constructor (literal: seq<char>, n: nat)
      requires WellFormed(literal, n)
      ensures Valid()
      ensures this.literal == literal && num == n
    {
      num := n;
      this.literal := literal;
      formatBegin := new Option<nat>[n](_ => None);
      formatEnd := new Option<nat>[n](_ => None);
      forms := new Formatting[n](_ => DefaultFormatting);
      new;
      ghost var ps := Positions(literal, 0, n);
      PositionsShape(literal, 0, n);
      assert formatBegin[..] == BeginsUpTo(ps, 0, n);
      assert formatEnd[..] == EndsUpTo(ps, 0, n);
      assert forms[..] == FormsUpTo(Decoded(literal, ps), 0, n);
      Scan(literal);
    }

    /**
     * The constructor's loop: for each slot, scans from the cursor, records both pointers,
     * decodes the directive into forms[i], moves the cursor one past the `}`, and stops once
     * the cursor reaches the end.
     */
    method Scan(literal: seq<char>)
      requires literal == this.literal && WellFormed(literal, num)
      requires formatBegin != formatEnd
      requires var ps := Positions(literal, 0, num);
        && |ps| <= num
        && formatBegin[..] == BeginsUpTo(ps, 0, num)
        && formatEnd[..] == EndsUpTo(ps, 0, num)
        && forms[..] == FormsUpTo(Decoded(literal, ps), 0, num)
      modifies formatBegin, formatEnd, forms
      ensures Valid()
    {
      ghost var ps := Positions(literal, 0, num);
      ghost var ds := Decoded(literal, ps);
      var current: nat := 0;
      var i: nat := 0;
      while i < num
        invariant i <= num && current <= |literal| && i <= |ps|
        invariant i < num ==> i < |ps| && current == SegmentStart(0, ps, i)
        invariant formatBegin[..] == BeginsUpTo(ps, i, num)
        invariant formatEnd[..] == EndsUpTo(ps, i, num)
        invariant forms[..] == FormsUpTo(ds, i, num)
      {
        PositionsStep(literal, num, i);
        DecodedAt(literal, ps, i);
        RecordedStep(ps, ds, i, num);
        var formatEnd := RecordSlot(literal, i, current, ps[i], ds[i]);
        current := formatEnd + 1;
        i := i + 1;
        if current >= |literal| {
          assert i == |ps|;
          break;
        }
      }
      assert i == |ps|;
    }
  }

  /** A valid Locations holds, slot by slot, the table of its template. */
  lemma SlotsAreTable(loc: Locations)
    requires loc.Valid()
    ensures forall j :: 0 <= j < loc.num ==>
      j < loc.formatBegin.Length && j < loc.formatEnd.Length && j < loc.forms.Length &&
      loc.SlotAt(j) == Table(loc.literal, loc.num)[j]
  {
    RecordedIsTable(loc.literal, loc.num);
    forall j | 0 <= j < loc.num
      ensures j < loc.formatBegin.Length && j < loc.formatEnd.Length && j < loc.forms.Length
      ensures loc.SlotAt(j) == Table(loc.literal, loc.num)[j]
    {
      assert loc.formatBegin[j] == loc.formatBegin[..][j];
      assert loc.formatEnd[j] == loc.formatEnd[..][j];
      assert loc.forms[j] == loc.forms[..][j];
    }
  }
}
