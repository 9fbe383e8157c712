/** Buffer text, byte positions and the (line, character) positions of LSP 3.17, section
    "Position", where characters are UTF-16 code units. Lines end with LF only. */
module Text {
  import opened Wrappers

  type CodePoint = c: int | 0 < c < 0x110000 witness 97

  type Text = seq<CodePoint>

  const LF: CodePoint := 10

  /** Bytes of a code point in UTF-8. */
  function Width8(c: CodePoint): nat {
    if c < 0x80 then 1 else if c < 0x800 then 2 else if c < 0x10000 then 3 else 4
  }

  /** Code units of a code point in UTF-16. */
  function Width16(c: CodePoint): nat {
    if c >= 0x10000 then 2 else 1
  }

  function Bytes(t: Text): nat {
    if t == [] then 0 else Width8(t[0]) + Bytes(t[1..])
  }

  function Units(t: Text): nat {
    if t == [] then 0 else Width16(t[0]) + Units(t[1..])
  }

  function Lines(t: Text): nat {
    if t == [] then 0 else (if t[0] == LF then 1 else 0) + Lines(t[1..])
  }

  lemma {:induction false} Additive(a: Text, b: Text)
    ensures Bytes(a + b) == Bytes(a) + Bytes(b)
    ensures Units(a + b) == Units(a) + Units(b)
    ensures Lines(a + b) == Lines(a) + Lines(b)
  {
    if a == [] {
      assert a + b == b;
    } else {
      Additive(a[1..], b);
      assert (a + b)[1..] == a[1..] + b;
    }
  }

  // ----- the standard's positions -----

  datatype Position = Position(line: nat, character: nat)

  predicate Before(p: Position, q: Position) {
    p.line < q.line || (p.line == q.line && p.character < q.character)
  }

  /** The position right after some text: the line breaks in it, and the code units after the last. */
  function PositionAfter(t: Text): Position {
    if t == [] then Position(0, 0)
    else
      var p := PositionAfter(t[..|t| - 1]);
      var c := t[|t| - 1];
      if c == LF then Position(p.line + 1, 0) else Position(p.line, p.character + Width16(c))
  }

  /** Position `p` of text `t` is between the code points `i - 1` and `i`. */
  ghost predicate PointsAt(t: Text, p: Position, i: nat) {
    i <= |t| && p == PositionAfter(t[..i])
  }

  ghost predicate ValidPosition(t: Text, p: Position) {
    exists i :: PointsAt(t, p, i)
  }

  lemma {:induction false} PositionsIncrease(t: Text, i: nat, j: nat)
    requires i < j <= |t|
    ensures Before(PositionAfter(t[..i]), PositionAfter(t[..j]))
    decreases j
  {
    assert t[..j][..j - 1] == t[..j - 1];
    if i < j - 1 { PositionsIncrease(t, i, j - 1); }
  }

  /** A position points at one place only, and later places have later positions. */
  lemma {:induction false} PositionsOrdered(t: Text, p: Position, i: nat, q: Position, j: nat)
    requires PointsAt(t, p, i) && PointsAt(t, q, j)
    ensures i < j <==> Before(p, q)
    ensures i == j <==> p == q
  {
    if i < j { PositionsIncrease(t, i, j); }
    if j < i { PositionsIncrease(t, j, i); }
  }

  ghost function IndexOf(t: Text, p: Position): (i: nat)
    requires ValidPosition(t, p)
    ensures PointsAt(t, p, i)
  {
    var i :| PointsAt(t, p, i);
    i
  }

  // ----- the editor's byte positions -----

  function Offset(t: Text, i: nat): nat
    requires i <= |t|
  {
    Bytes(t[..i])
  }

  /** A byte position on a character boundary. */
  ghost predicate Boundary(t: Text, pos: nat) {
    exists i :: 0 <= i <= |t| && Offset(t, i) == pos
  }

  /** The number of code points before a byte position. */
  function CodePointsBefore(t: Text, pos: int): (i: nat)
    ensures i <= |t|
  {
    if t == [] || pos <= 0 then 0 else 1 + CodePointsBefore(t[1..], pos - Width8(t[0]))
  }

  lemma {:induction false} BoundaryIndex(t: Text, i: nat)
    requires i <= |t|
    ensures CodePointsBefore(t, Offset(t, i)) == i
    ensures Boundary(t, Offset(t, i))
  {
    if 0 < i {
      assert t[..i][1..] == t[1..][..i - 1];
      BoundaryIndex(t[1..], i - 1);
    }
    assert Offset(t, i) == Bytes(t[..i]);
  }

  /** The start of a line, counted in code points: after that many line breaks. */
  function LineStart(t: Text, line: nat): (i: nat)
    ensures i <= |t|
  {
    if line == 0 || t == [] then 0
    else 1 + LineStart(t[1..], if t[0] == LF then line - 1 else line)
  }

  /** Where stepping over code points ends once at least `units` code units are passed,
      or the text ends. */
  function Advance(t: Text, units: int): (i: nat)
    ensures i <= |t|
  {
    if t == [] || units <= 0 then 0 else 1 + Advance(t[1..], units - Width16(t[0]))
  }

  // The editor component's own operations, at byte positions.

  function LineFromPosition(t: Text, pos: nat): nat {
    Lines(t[..CodePointsBefore(t, pos)])
  }

  function PositionFromLine(t: Text, line: nat): nat {
    Offset(t, LineStart(t, line))
  }

  function CountCodeUnits(t: Text, start: nat, end: nat): nat {
    var i, j := CodePointsBefore(t, start), CodePointsBefore(t, end);
    if i <= j then Units(t[i..j]) else 0
  }

  function PositionRelativeCodeUnits(t: Text, start: nat, units: nat): nat {
    var i := CodePointsBefore(t, start);
    Offset(t, i + Advance(t[i..], units))
  }

  /** lsp_utils_scintilla_pos_to_lsp */
  function ScintillaPosToLsp(t: Text, pos: nat): Position {
    var line := LineFromPosition(t, pos);
    Position(line, CountCodeUnits(t, PositionFromLine(t, line), pos))
  }

  /** lsp_utils_lsp_pos_to_scintilla */
  function LspPosToScintilla(t: Text, p: Position): nat {
    PositionRelativeCodeUnits(t, PositionFromLine(t, p.line), p.character)
  }

  // ----- the conversions agree with the standard -----

  /** What is said of a place below. */
  ghost predicate OnItsLine(t: Text, i: nat)
    requires i <= |t|
  {
    var p, start := PositionAfter(t[..i]), LineStart(t, Lines(t[..i]));
    p.line == Lines(t[..i]) && start <= i && p.character == Units(t[start..i])
  }

  lemma BreakEndsLine(t: Text, i: nat, s: Text)
    requires i < |t| && t[i] == LF && s == t[..i] && OnItsLine(t, i)
    ensures OnItsLine(t, i + 1)
  {
    assert t[..i + 1] == s + [LF] && t[..i + 1][..i] == s;
    Additive(s, [LF]);
    LineStartAfterBreak(t, i);
    assert t[i + 1..i + 1] == [];
  }

  lemma OtherStaysOnLine(t: Text, i: nat, s: Text, start: nat)
    requires i < |t| && t[i] != LF && s == t[..i] && OnItsLine(t, i) && start == LineStart(t, Lines(s))
    ensures OnItsLine(t, i + 1)
  {
    assert t[..i + 1] == s + [t[i]] && t[..i + 1][..i] == s;
    Additive(s, [t[i]]);
    assert t[start..i + 1] == t[start..i] + [t[i]];
    Additive(t[start..i], [t[i]]);
  }

  /** The line of a place starts at or before it and has no line break up to it; the code
      units between the two are its character. */
  lemma {:induction false} LineOfPlace(t: Text, i: nat)
    requires i <= |t|
    ensures PositionAfter(t[..i]).line == Lines(t[..i])
    ensures LineStart(t, Lines(t[..i])) <= i
    ensures PositionAfter(t[..i]).character == Units(t[LineStart(t, Lines(t[..i]))..i])
    decreases i
  {
    if 0 < i {
      LineOfPlace(t, i - 1);
      if t[i - 1] == LF {
        BreakEndsLine(t, i - 1, t[..i - 1]);
      } else {
        OtherStaysOnLine(t, i - 1, t[..i - 1], LineStart(t, Lines(t[..i - 1])));
      }
    } else {
      assert t[..0] == [] && t[0..0] == [];
    }
  }

  /** The line after a line break starts right after it. */
  lemma {:induction false} LineStartAfterBreak(t: Text, i: nat)
    requires i < |t| && t[i] == LF
    ensures LineStart(t, Lines(t[..i]) + 1) == i + 1
  {
    if i == 0 {
      assert t[..0] == [];
    } else {
      assert t[..i][1..] == t[1..][..i - 1];
      LineStartAfterBreak(t[1..], i - 1);
    }
  }

  lemma {:induction false} AdvanceOverUnits(t: Text, j: nat)
    requires j <= |t|
    ensures Advance(t, Units(t[..j])) == j
  {
    if 0 < j {
      assert t[..j][1..] == t[1..][..j - 1];
      AdvanceOverUnits(t[1..], j - 1);
    }
  }

  /** Converting the byte position of a place gives the standard's position of that place,
      and converting that position gives the byte position back: the two conversions are
      inverse on character boundaries and on valid positions. */
  lemma {:induction false} ConversionsMeetStandard(t: Text, i: nat)
    requires i <= |t|
    ensures PointsAt(t, ScintillaPosToLsp(t, Offset(t, i)), i)
    ensures LspPosToScintilla(t, ScintillaPosToLsp(t, Offset(t, i))) == Offset(t, i)
  {
    BoundaryIndex(t, i);
    LineOfPlace(t, i);
    var start := LineStart(t, Lines(t[..i]));
    BoundaryIndex(t, start);
    assert t[start..][..i - start] == t[start..i];
    AdvanceOverUnits(t[start..], i - start);
  }

  /** Inverse the other way round: every valid position survives the trip through bytes. */
  lemma {:induction false} ValidPositionRoundTrip(t: Text, p: Position, i: nat)
    requires PointsAt(t, p, i)
    ensures LspPosToScintilla(t, p) == Offset(t, i)
    ensures ScintillaPosToLsp(t, LspPosToScintilla(t, p)) == p
  {
    ConversionsMeetStandard(t, i);
    PositionsOrdered(t, p, i, ScintillaPosToLsp(t, Offset(t, i)), i);
  }

  // ----- positions that need not be valid -----

  /** Where a position leads in a text it may not have been made for: so many code units on
      from the start of its line, over line breaks if need be. */
  function Resolved(t: Text, p: Position): (i: nat)
    ensures i <= |t|
  {
    LineStart(t, p.line) + Advance(t[LineStart(t, p.line)..], p.character)
  }

  lemma ResolvedIsConversion(t: Text, p: Position)
    ensures LspPosToScintilla(t, p) == Offset(t, Resolved(t, p))
  {
    BoundaryIndex(t, LineStart(t, p.line));
  }

  lemma ValidResolves(t: Text, p: Position, i: nat)
    requires PointsAt(t, p, i)
    ensures Resolved(t, p) == i
  {
    ValidPositionRoundTrip(t, p, i);
    ResolvedIsConversion(t, p);
    BoundaryIndex(t, i);
    BoundaryIndex(t, Resolved(t, p));
  }

  /** The code units from the start of a line on. */
  function UnitsFromLine(t: Text, line: nat): nat {
    Units(t[LineStart(t, line)..])
  }

  /** The text has the line, and so many code units from its start on. */
  predicate Reaches(t: Text, p: Position) {
    p.line <= Lines(t) && p.character <= UnitsFromLine(t, p.line)
  }

  lemma {:induction false} LineStartInPrefix(a: Text, b: Text, line: nat)
    requires line <= Lines(a)
    ensures LineStart(a + b, line) == LineStart(a, line)
  {
    if line != 0 && a != [] {
      assert (a + b)[1..] == a[1..] + b;
      LineStartInPrefix(a[1..], b, if a[0] == LF then line - 1 else line);
    }
  }

  lemma {:induction false} AdvanceInPrefix(a: Text, b: Text, units: int)
    requires units <= Units(a)
    ensures Advance(a + b, units) == Advance(a, units)
  {
    if a != [] && units > 0 {
      assert (a + b)[1..] == a[1..] + b;
      AdvanceInPrefix(a[1..], b, units - Width16(a[0]));
    }
  }

  lemma LineInPrefix(a: Text, b: Text, line: nat)
    requires line <= Lines(a)
    ensures LineStart(a + b, line) == LineStart(a, line)
    ensures (a + b)[LineStart(a + b, line)..] == a[LineStart(a, line)..] + b
  {
    LineStartInPrefix(a, b, line);
  }

  /** A position the beginning of a text reaches leads to the same place in all of it. */
  lemma ResolvedInPrefix(a: Text, b: Text, p: Position)
    requires Reaches(a, p)
    ensures Resolved(a + b, p) == Resolved(a, p)
  {
    LineInPrefix(a, b, p.line);
    AdvanceInPrefix(a[LineStart(a, p.line)..], b, p.character);
  }

  lemma {:induction false} LineStartsIncrease(t: Text, line: nat)
    ensures LineStart(t, line) <= LineStart(t, line + 1)
  {
    if line != 0 && t != [] { LineStartsIncrease(t[1..], if t[0] == LF then line - 1 else line); }
  }

  lemma UnitsFrom(t: Text, i: nat, j: nat)
    requires i <= j <= |t|
    ensures Units(t[j..]) <= Units(t[i..])
  {
    assert t[i..] == t[i..j] + t[j..];
    Additive(t[i..j], t[j..]);
  }

  lemma FromFirstLine(t: Text)
    ensures UnitsFromLine(t, 0) == Units(t)
  {
    assert t[0..] == t;
  }

  lemma FromLaterLine(t: Text, rest: Text, line: nat)
    requires t != [] && t[1..] == rest && line != 0
    ensures UnitsFromLine(t, line) == UnitsFromLine(rest, if t[0] == LF then line - 1 else line)
  {
    var next := if t[0] == LF then line - 1 else line;
    assert t[LineStart(t, line)..] == rest[LineStart(rest, next)..];
  }

  /** Inserting text leaves no less after the start of a line. */
  lemma {:induction false} InsertedBefore(g: Text, d: Text, line: nat)
    ensures UnitsFromLine(d, line) <= UnitsFromLine(g + d, line)
  {
    if g == [] {
      assert g + d == d;
    } else if line == 0 {
      FromFirstLine(g + d);
      FromFirstLine(d);
      Additive(g, d);
    } else {
      var rest := g[1..] + d;
      FromLaterLine(g + d, rest, line);
      InsertedBefore(g[1..], d, line);
      LineStartsIncrease(rest, line - 1);
      UnitsFrom(rest, LineStart(rest, line - 1), LineStart(rest, line));
    }
  }

  lemma AllAfterInsertion(pre: Text, g: Text, d: Text)
    ensures Units(pre + d) <= Units(pre + g + d)
  {
    Additive(pre, d);
    Additive(pre + g, d);
    Additive(pre, g);
  }

  lemma {:induction false} InsertedWithin(pre: Text, g: Text, d: Text, line: nat)
    ensures UnitsFromLine(pre + d, line) <= UnitsFromLine(pre + g + d, line)
    decreases |pre|
  {
    if pre == [] {
      assert pre + d == d && pre + g + d == g + d;
      InsertedBefore(g, d, line);
    } else if line == 0 {
      FromFirstLine(pre + d);
      FromFirstLine(pre + g + d);
      AllAfterInsertion(pre, g, d);
    } else {
      FromLaterLine(pre + d, pre[1..] + d, line);
      FromLaterLine(pre + g + d, pre[1..] + g + d, line);
      InsertedWithin(pre[1..], g, d, if pre[0] == LF then line - 1 else line);
    }
  }

  /** The end of a text is still reached after something is inserted into it. */
  lemma EndIsReached(pre: Text, g: Text, d: Text)
    ensures Reaches(pre + g + d, PositionAfter(pre + d))
  {
    var whole := pre + d;
    assert whole[..|whole|] == whole;
    LineOfPlace(whole, |whole|);
    Additive(pre, d);
    Additive(pre + g, d);
    Additive(pre, g);
    var line := Lines(whole);
    assert whole[LineStart(whole, line)..|whole|] == whole[LineStart(whole, line)..];
    InsertedWithin(pre, g, d, line);
  }

  lemma {:induction false} AdvancePasses(a: Text, b: Text, units: int)
    requires Units(a) < units && b != []
    ensures |a| < Advance(a + b, units)
  {
    if a != [] {
      assert (a + b)[1..] == a[1..] + b;
      AdvancePasses(a[1..], b, units - Width16(a[0]));
    } else {
      assert a + b == b;
    }
  }

  lemma {:induction false} LaterLineStart(a: Text, b: Text, line: nat)
    requires Lines(a) < line <= Lines(a + b)
    ensures |a| < LineStart(a + b, line)
  {
    if a == [] {
      assert a + b == b;
    } else {
      assert (a + b)[1..] == a[1..] + b;
      LaterLineStart(a[1..], b, if a[0] == LF then line - 1 else line);
    }
  }

  /** It is found behind the place of the insertion, unless nothing was there to be passed. */
  lemma EndIsFoundLater(pre: Text, g: Text, d: Text)
    requires d != []
    ensures |pre| < Resolved(pre + g + d, PositionAfter(pre + d))
  {
    var p := PositionAfter(pre + d);
    EndLiesLater(pre, d);
    EndIsReached(pre, g, d);
    assert pre + g + d == pre + (g + d);
    if Lines(pre) < p.line {
      LaterLineStart(pre, g + d, p.line);
    } else {
      FoundOnTheLine(pre, g + d, p);
    }
  }

  lemma EndLiesLater(pre: Text, d: Text)
    requires d != []
    ensures
      var p := PositionAfter(pre + d);
      Lines(pre) < p.line || (Lines(pre) == p.line && UnitsFromLine(pre, p.line) < p.character)
  {
    var whole := pre + d;
    assert whole[..|whole|] == whole && whole[..|pre|] == pre && pre[..|pre|] == pre;
    PositionsIncrease(whole, |pre|, |whole|);
    LineOfPlace(pre, |pre|);
    assert pre[LineStart(pre, Lines(pre))..|pre|] == pre[LineStart(pre, Lines(pre))..];
  }

  lemma FoundOnTheLine(pre: Text, more: Text, p: Position)
    requires more != [] && p.line == Lines(pre) && UnitsFromLine(pre, p.line) < p.character
    ensures |pre| < Resolved(pre + more, p)
  {
    LineInPrefix(pre, more, p.line);
    AdvancePasses(pre[LineStart(pre, p.line)..], more, p.character);
  }

  /** A position depends on nothing after the place it points at. */
  lemma PointsAtInPrefix(t: Text, u: Text, p: Position, i: nat)
    requires PointsAt(t, p, i) && i <= |u| && u[..i] == t[..i]
    ensures PointsAt(u, p, i)
  {
  }

  /** The shortest prefix with at least `units` code units, or all of the text. */
  ghost predicate FirstReaching(t: Text, i: nat, units: int)
    requires i <= |t|
  {
    && (units <= Units(t[..i]) || i == |t|)
    && forall k :: 0 <= k < i ==> Units(t[..k]) < units
  }

  /** The stepping loop of utf16_offset_to_bytes over the text of a label. */
  method Utf16OffsetToBytes(text: Text, utf16Offset: int) returns (bytes: nat)
    ensures exists i :: 0 <= i <= |text| && bytes == Offset(text, i) && FirstReaching(text, i, utf16Offset)
    ensures forall i :: 0 <= i <= |text| && utf16Offset == Units(text[..i]) ==> bytes == Offset(text, i)
  {
    var p, units := 0, 0;
    bytes := 0;
    assert text[..0] == [];
    while p < |text| && units < utf16Offset
      invariant 0 <= p <= |text|
      invariant units == Units(text[..p]) && bytes == Offset(text, p)
      invariant forall k :: 0 <= k < p ==> Units(text[..k]) < utf16Offset
    {
      assert text[..p + 1] == text[..p] + [text[p]];
      Additive(text[..p], [text[p]]);
      units := units + Width16(text[p]);
      bytes := bytes + Width8(text[p]);
      p := p + 1;
    }
    forall i | 0 <= i <= |text| && utf16Offset == Units(text[..i]) ensures i == p {
      UnitsIncrease(text, p, i);
    }
  }

  lemma {:induction false} UnitsIncrease(t: Text, i: nat, j: nat)
    requires i <= |t| && j <= |t|
    ensures i < j ==> Units(t[..i]) < Units(t[..j])
    ensures j < i ==> Units(t[..j]) < Units(t[..i])
  {
    var lo, hi := if i < j then i else j, if i < j then j else i;
    assert t[..hi] == t[..lo] + t[lo..hi];
    Additive(t[..lo], t[lo..hi]);
  }
}
