/** Applying a server's text edits to the buffer (lsp_utils_apply_text_edits): the edits are
    sorted backwards, and each resolves its positions against the already changed buffer.
    The reference is LSP 3.17, section "Text Edit[]". */
module TextEdits {
  import opened Wrappers
  import opened Text
  import opened Splice
  import opened Sorting
  import opened Layouts
  import opened EditPlaces

  datatype TextEdit = TextEdit(start: Position, end: Position, newText: Text)

  /** Both ends point into the text, in order. */
  ghost predicate ValidEdit(t: Text, e: TextEdit) {
    && ValidPosition(t, e.start) && ValidPosition(t, e.end)
    && IndexOf(t, e.start) <= IndexOf(t, e.end)
  }

  /** What an edit does to the code points of the text its positions refer to. */
  ghost function ToSplice(t: Text, e: TextEdit): Edit<CodePoint>
    requires ValidEdit(t, e)
  {
    var i := IndexOf(t, e.start);
    Edit(i, IndexOf(t, e.end) - i, e.newText)
  }

  ghost predicate ValidEdits(t: Text, es: seq<TextEdit>) {
    forall i :: 0 <= i < |es| ==> ValidEdit(t, es[i])
  }

  ghost function Splices(t: Text, es: seq<TextEdit>): (fs: seq<Edit<CodePoint>>)
    requires ValidEdits(t, es)
    ensures |fs| == |es|
    ensures forall i :: 0 <= i < |es| ==> fs[i] == ToSplice(t, es[i])
  {
    seq(|es|, i requires 0 <= i < |es| => ToSplice(t, es[i]))
  }

  /** The standard's condition on a list: no part of the text is changed by two edits, and of
      the edits with one start all but the last are insertions. */
  ghost predicate Legal(t: Text, es: seq<TextEdit>)
    requires ValidEdits(t, es)
  {
    forall i, j :: 0 <= i < j < |es| ==> Compatible(ToSplice(t, es[i]), ToSplice(t, es[j]))
  }

  /** The first of the two comes earlier in the list. */
  predicate Compatible(f: Edit<CodePoint>, g: Edit<CodePoint>) {
    if f.start == g.start then f.del == 0 else Disjoint(f, g)
  }

  // ----- the order of the edits -----

  /** sort_edits: by start, latest first. */
  function EditOrder(e1: TextEdit, e2: TextEdit): int {
    var lineDelta := e2.start.line - e1.start.line;
    var charDelta := e2.start.character - e1.start.character;
    if lineDelta != 0 then lineDelta else charDelta
  }

  lemma EditOrderIsBackwards()
    ensures TotalPreorder(EditOrder)
    ensures forall e, f :: MayPrecede(EditOrder, e, f) <==> !Before(e.start, f.start)
  {
  }

  /** After sorting every edit starts where those after it start, or behind. */
  lemma SortedFromTheBack(es: seq<TextEdit>)
    ensures
      var sorted := Sort(EditOrder, es);
      && multiset(sorted) == multiset(es) && |sorted| == |es|
      && forall i, j :: 0 <= i < j < |es| ==> !Before(sorted[i].start, sorted[j].start)
  {
    EditOrderIsBackwards();
    SortIsSorted(EditOrder, es);
    SortIsPermutation(EditOrder, es);
    var sorted := Sort(EditOrder, es);
    forall i, j | 0 <= i < j < |es| ensures !Before(sorted[i].start, sorted[j].start) {
      assert MayPrecede(EditOrder, sorted[i], sorted[j]);
    }
  }

  // ----- the buffer -----

  class Buffer {
    var text: Text

    constructor (t: Text)
      ensures text == t
    {
      text := t;
    }

    method DeleteRange(pos: nat, length: int)
      requires Boundary(text, pos) && 0 <= length && Boundary(text, pos + length)
      modifies this
      ensures forall i, j :: 0 <= i <= j <= |old(text)| && pos == Offset(old(text), i) && pos + length == Offset(old(text), j) ==>
        text == old(text)[..i] + old(text)[j..]
    {
      var i, j := CodePointsBefore(text, pos), CodePointsBefore(text, pos + length);
      forall k | 0 <= k <= |text| ensures CodePointsBefore(text, Offset(text, k)) == k {
        BoundaryIndex(text, k);
      }
      text := text[..i] + text[j..];
    }

    method InsertText(pos: nat, s: Text)
      requires Boundary(text, pos)
      modifies this
      ensures forall i :: 0 <= i <= |old(text)| && pos == Offset(old(text), i) ==>
        text == old(text)[..i] + s + old(text)[i..]
    {
      var i := CodePointsBefore(text, pos);
      forall k | 0 <= k <= |text| ensures CodePointsBefore(text, Offset(text, k)) == k {
        BoundaryIndex(text, k);
      }
      text := text[..i] + s + text[i..];
    }
  }

  /** An edit applied where its positions lead in the text as it is. */
  function Replaced(t: Text, e: TextEdit): Text
    requires Resolved(t, e.start) <= Resolved(t, e.end)
  {
    CutOut(t, Resolved(t, e.start), Resolved(t, e.end), e.newText)
  }

  lemma OffsetsOrdered(t: Text, i: nat, j: nat)
    requires i <= j <= |t|
    ensures Offset(t, i) <= Offset(t, j)
  {
    assert t[..j] == t[..i] + t[i..j];
    Additive(t[..i], t[i..j]);
  }

  /** Where the positions of an edit lead, in bytes, on character boundaries and in order */
  lemma RangeInBytes(t: Text, e: TextEdit, i: nat, j: nat)
    requires i == Resolved(t, e.start) && j == Resolved(t, e.end) && i <= j
    ensures LspPosToScintilla(t, e.start) == Offset(t, i) && LspPosToScintilla(t, e.end) == Offset(t, j)
    ensures Offset(t, i) <= Offset(t, j) && Boundary(t, Offset(t, i)) && Boundary(t, Offset(t, j))
  {
    ResolvedIsConversion(t, e.start);
    ResolvedIsConversion(t, e.end);
    OffsetsOrdered(t, i, j);
    BoundaryIndex(t, i);
    BoundaryIndex(t, j);
  }

  lemma StillBoundary(t: Text, u: Text, i: nat)
    requires i <= |t| && i <= |u| && u[..i] == t[..i]
    ensures Offset(u, i) == Offset(t, i) && Boundary(u, Offset(u, i))
  {
    BoundaryIndex(u, i);
  }

  /** lsp_utils_apply_text_edit: delete the range, insert the new text at its start. */
  method ApplyTextEdit(sci: Buffer, e: TextEdit)
    requires Resolved(sci.text, e.start) <= Resolved(sci.text, e.end)
    modifies sci
    ensures sci.text == Replaced(old(sci.text), e)
  {
    ghost var t := sci.text;
    ghost var i, j := Resolved(t, e.start), Resolved(t, e.end);
    RangeInBytes(t, e, i, j);
    var startPos := LspPosToScintilla(sci.text, e.start);
    var endPos := LspPosToScintilla(sci.text, e.end);
    sci.DeleteRange(startPos, endPos - startPos);
    ghost var u := sci.text;
    assert u == t[..i] + t[j..];
    assert u[..i] == t[..i] && u[i..] == t[j..];
    StillBoundary(t, u, i);
    sci.InsertText(startPos, e.newText);
  }

  /** An edit that is valid in the text replaces exactly its range. */
  lemma ValidIsReplaced(t: Text, e: TextEdit)
    requires ValidEdit(t, e)
    ensures Resolved(t, e.start) == IndexOf(t, e.start) && Resolved(t, e.end) == IndexOf(t, e.end)
    ensures Replaced(t, e) == Apply(t, ToSplice(t, e))
  {
    ValidResolves(t, e.start, IndexOf(t, e.start));
    ValidResolves(t, e.end, IndexOf(t, e.end));
  }

  // ----- the loop -----

  lemma ValidInBounds(t: Text, es: seq<TextEdit>)
    requires ValidEdits(t, es)
    ensures AllInBounds(t, Splices(t, es))
  {
  }

  /** What the edits leave, those with one start applied in the order of the list. */
  ghost function ActualResult(t: Text, es: seq<TextEdit>): Text
    requires ValidEdits(t, es)
  {
    ValidInBounds(t, es);
    ByPlace(t, Splices(t, es))
  }

  /** Each edit comes after the ones before it from the back. */
  ghost predicate Descending(t: Text, es: seq<TextEdit>)
    requires ValidEdits(t, es)
  {
    forall k :: 0 <= k < |es| ==> Follows(Splices(t, es)[..k], Splices(t, es)[k])
  }

  lemma SplicesUpTo(t: Text, es: seq<TextEdit>, k: nat)
    requires ValidEdits(t, es) && k < |es|
    ensures Splices(t, es[..k]) == Splices(t, es)[..k]
    ensures Splices(t, es[..k + 1]) == Splices(t, es)[..k] + [ToSplice(t, es[k])]
  {
  }

  /** The edit, resolved in the text `u`, starts where it did in the original, and applying it
      gives `w`. */
  ghost predicate Turned(t: Text, e: TextEdit, u: Text, w: Text)
    requires ValidEdit(t, e)
  {
    Resolved(u, e.start) == IndexOf(t, e.start) <= Resolved(u, e.end) && w == Replaced(u, e)
  }

  lemma AppliedIsTurned(t: Text, e: TextEdit, u: Text, w: Text)
    requires ValidEdit(t, e) && Applied(t, ToSplice(t, e), u, w)
    ensures Turned(t, e, u, w)
  {
    assert PositionAfter(t[..IndexOf(t, e.start)]) == e.start;
    assert PositionAfter(t[..IndexOf(t, e.end)]) == e.end;
  }

  lemma BeforeAndAfterNext(t: Text, es: seq<TextEdit>, k: nat, u: Text, w: Text)
    requires ValidEdits(t, es) && Descending(t, es) && k < |es|
    requires u == ActualResult(t, es[..k]) && w == ActualResult(t, es[..k + 1])
    ensures BeforeAndAfter(t, Splices(t, es)[..k], ToSplice(t, es[k]), u, w)
  {
    SplicesUpTo(t, es, k);
    ValidInBounds(t, es[..k]);
    ValidInBounds(t, es[..k + 1]);
  }

  /** One turn of the loop: the next edit, resolved in the text as the others have left it,
      starts where it did in the original, and leaves what the edits up to it leave. */
  lemma NextEdit(t: Text, es: seq<TextEdit>, k: nat, u: Text, w: Text)
    requires ValidEdits(t, es) && Descending(t, es) && k < |es|
    requires u == ActualResult(t, es[..k]) && w == ActualResult(t, es[..k + 1])
    ensures Turned(t, es[k], u, w)
  {
    BeforeAndAfterNext(t, es, k, u, w);
    Step(t, Splices(t, es)[..k], ToSplice(t, es[k]), u, w);
    AppliedIsTurned(t, es[k], u, w);
  }

  /** The text after the first `i` edits */
  ghost predicate LeftAfter(t: Text, es: seq<TextEdit>, i: nat, u: Text)
    requires ValidEdits(t, es) && i <= |es|
  {
    u == ActualResult(t, es[..i])
  }

  lemma NothingToDo(t: Text)
    ensures ActualResult(t, []) == t
  {
    assert Splices(t, []) == [];
    NoEditsAtAll(t);
  }

  lemma Ends(t: Text, es: seq<TextEdit>)
    requires ValidEdits(t, es)
    ensures LeftAfter(t, es, 0, t)
    ensures forall u :: LeftAfter(t, es, |es|, u) ==> u == ActualResult(t, es)
  {
    assert es[..0] == [] && es[..|es|] == es;
    NothingToDo(t);
  }

  method ApplySorted(sci: Buffer, sorted: seq<TextEdit>)
    requires ValidEdits(sci.text, sorted) && Descending(sci.text, sorted)
    modifies sci
    ensures sci.text == ActualResult(old(sci.text), sorted)
  {
    ghost var t := sci.text;
    var i := 0;
    Ends(t, sorted);
    while i < |sorted|
      invariant 0 <= i <= |sorted|
      invariant LeftAfter(t, sorted, i, sci.text)
    {
      NextEdit(t, sorted, i, sci.text, ActualResult(t, sorted[..i + 1]));
      ApplyTextEdit(sci, sorted[i]);
      i := i + 1;
    }
  }

  function Collected(edit: Option<TextEdit>, edits: Option<seq<TextEdit>>): seq<TextEdit> {
    (if edit.Some? then [edit.value] else []) + (if edits.Some? then edits.value else [])
  }

  /** lsp_utils_apply_text_edits: collect, sort backwards, apply one by one. */
  method ApplyTextEdits(sci: Buffer, edit: Option<TextEdit>, edits: Option<seq<TextEdit>>)
    requires ValidEdits(sci.text, Collected(edit, edits)) && Legal(sci.text, Collected(edit, edits))
    modifies sci
    ensures sci.text == ActualResult(old(sci.text), Collected(edit, edits))
  {
    ghost var t := sci.text;
    var arr := Collected(edit, edits);
    if edit.None? && edits.None? {
      NothingToDo(t);
      return;
    }
    var sorted := Sort(EditOrder, arr);
    SortedIsDescending(t, arr);
    ApplySorted(sci, sorted);
    SortingKeepsResult(t, arr);
  }

  // ----- sorting -----

  lemma FirstAtPosition(t: Text, es: seq<TextEdit>, p: nat)
    requires ValidEdits(t, es) && es != [] && p <= |t|
    ensures Splices(t, es)[0].start == p <==> es[0].start == PositionAfter(t[..p])
    ensures Splices(t, es)[1..] == Splices(t, es[1..])
  {
    PositionsOrdered(t, es[0].start, IndexOf(t, es[0].start), PositionAfter(t[..p]), p);
  }

  lemma SplicesOfMore(t: Text, e: TextEdit, es: seq<TextEdit>)
    requires ValidEdit(t, e) && ValidEdits(t, es)
    ensures ValidEdits(t, [e] + es) && Splices(t, [e] + es) == [ToSplice(t, e)] + Splices(t, es)
  {
  }

  function AtPosition(p: Position): TextEdit -> bool {
    (e: TextEdit) => e.start == p
  }

  /** The edits that start at a place are those with its position. */
  lemma {:induction false} GroupIsSamePosition(t: Text, es: seq<TextEdit>, p: nat)
    requires ValidEdits(t, es) && p <= |t|
    ensures
      var same := Filter(AtPosition(PositionAfter(t[..p])), es);
      ValidEdits(t, same) && Group(Splices(t, es), p) == Splices(t, same)
  {
    if es != [] {
      var rest := Filter(AtPosition(PositionAfter(t[..p])), es[1..]);
      FirstAtPosition(t, es, p);
      GroupIsSamePosition(t, es[1..], p);
      SplicesOfMore(t, es[0], rest);
      assert [] + rest == rest && [] + Splices(t, rest) == Splices(t, rest);
    }
  }

  lemma SortedStaysValid(t: Text, es: seq<TextEdit>)
    requires ValidEdits(t, es)
    ensures ValidEdits(t, Sort(EditOrder, es))
    ensures forall f :: f in Splices(t, Sort(EditOrder, es)) <==> f in Splices(t, es)
  {
    var sorted := Sort(EditOrder, es);
    SortIsPermutation(EditOrder, es);
    forall i | 0 <= i < |sorted| ensures ValidEdit(t, sorted[i]) { assert sorted[i] in es; }
    SameMembers(t, es, sorted);
  }

  lemma SameMembers(t: Text, es: seq<TextEdit>, fs: seq<TextEdit>)
    requires ValidEdits(t, es) && ValidEdits(t, fs)
    requires forall e :: e in es <==> e in fs
    ensures forall f :: f in Splices(t, es) <==> f in Splices(t, fs)
  {
    forall f ensures f in Splices(t, es) ==> f in Splices(t, fs) { MemberOf(t, es, fs, f); }
    forall f ensures f in Splices(t, fs) ==> f in Splices(t, es) { MemberOf(t, fs, es, f); }
  }

  lemma MemberOf(t: Text, es: seq<TextEdit>, fs: seq<TextEdit>, f: Edit<CodePoint>)
    requires ValidEdits(t, es) && ValidEdits(t, fs)
    requires forall e :: e in es ==> e in fs
    ensures f in Splices(t, es) ==> f in Splices(t, fs)
  {
    if f in Splices(t, es) {
      var i :| 0 <= i < |es| && Splices(t, es)[i] == f;
      assert es[i] in fs;
      var j :| 0 <= j < |fs| && fs[j] == es[i];
      assert Splices(t, fs)[j] == f;
    }
  }

  /** The sort is stable: it keeps the order of the edits that start at one place. */
  lemma SortingKeepsGroups(t: Text, es: seq<TextEdit>, p: nat)
    requires ValidEdits(t, es) && ValidEdits(t, Sort(EditOrder, es))
    ensures Group(Splices(t, Sort(EditOrder, es)), p) == Group(Splices(t, es), p)
  {
    var sorted := Sort(EditOrder, es);
    if p <= |t| {
      GroupIsSamePosition(t, es, p);
      GroupIsSamePosition(t, sorted, p);
      SortIsStable(EditOrder, AtPosition(PositionAfter(t[..p])), es);
    } else {
      NoGroup(Splices(t, es), p);
      NoGroup(Splices(t, sorted), p);
    }
  }

  lemma SortingKeepsResult(t: Text, es: seq<TextEdit>)
    requires ValidEdits(t, es) && ValidEdits(t, Sort(EditOrder, es))
    ensures ActualResult(t, Sort(EditOrder, es)) == ActualResult(t, es)
  {
    ValidInBounds(t, es);
    ValidInBounds(t, Sort(EditOrder, es));
    forall p: nat ensures Group(Splices(t, Sort(EditOrder, es)), p) == Group(Splices(t, es), p) {
      SortingKeepsGroups(t, es, p);
    }
    SameGroups(t, Splices(t, Sort(EditOrder, es)), Splices(t, es));
  }

  ghost predicate CompatibleList(fs: seq<Edit<CodePoint>>) {
    forall i, j :: 0 <= i < j < |fs| ==> Compatible(fs[i], fs[j])
  }

  lemma {:induction false} CompatibleGroup(fs: seq<Edit<CodePoint>>, p: nat)
    requires CompatibleList(fs)
    ensures InsertionsFirst(Group(fs, p))
  {
    if fs != [] {
      CompatibleGroup(fs[1..], p);
      var rest := Group(fs[1..], p);
      if fs[0].start == p && rest != [] {
        GroupMembers(fs[1..], p);
        assert rest[0] in rest;
        var j :| 0 <= j < |fs[1..]| && fs[1..][j] == rest[0];
        assert Compatible(fs[0], fs[j + 1]);
      }
    }
  }

  lemma LegalIsTidy(t: Text, es: seq<TextEdit>)
    requires ValidEdits(t, es) && Legal(t, es)
    ensures Tidy(Splices(t, es))
  {
    var fs := Splices(t, es);
    forall i, j | 0 <= i < j < |fs| ensures Compatible(fs[i], fs[j]) {
      assert Compatible(ToSplice(t, es[i]), ToSplice(t, es[j]));
    }
    forall p ensures InsertionsFirst(Group(fs, p)) { CompatibleGroup(fs, p); }
    forall f, g | f in fs && g in fs && f.start != g.start ensures Disjoint(f, g) {
      var i :| 0 <= i < |fs| && fs[i] == f;
      var j :| 0 <= j < |fs| && fs[j] == g;
      assert if i < j then Compatible(fs[i], fs[j]) else Compatible(fs[j], fs[i]);
    }
  }

  /** An edit with one after it at its start is not the last of its group. */
  lemma {:induction false} EarlierInserts(fs: seq<Edit<CodePoint>>, i: nat, k: nat)
    requires i < k < |fs| && fs[i].start == fs[k].start && InsertionsFirst(Group(fs, fs[k].start))
    ensures fs[i].del == 0
  {
    var rest := Group(fs[1..], fs[k].start);
    if i == 0 {
      GroupMembers(fs[1..], fs[k].start);
      assert fs[1..][k - 1] in fs[1..] && fs[k] in rest;
      assert ([fs[0]] + rest)[0] == fs[0];
    } else {
      LaterInsertionsFirst(fs, fs[k].start);
      EarlierInserts(fs[1..], i - 1, k - 1);
    }
  }

  lemma LaterInsertionsFirst(fs: seq<Edit<CodePoint>>, p: nat)
    requires fs != [] && InsertionsFirst(Group(fs, p))
    ensures InsertionsFirst(Group(fs[1..], p))
  {
    var rest := Group(fs[1..], p);
    if fs[0].start == p {
      forall k | 0 <= k < |rest| - 1 ensures rest[k].del == 0 { assert ([fs[0]] + rest)[k + 1] == rest[k]; }
    } else {
      assert [] + rest == rest;
    }
  }

  lemma SortedIsDescending(t: Text, es: seq<TextEdit>)
    requires ValidEdits(t, es) && Legal(t, es)
    ensures ValidEdits(t, Sort(EditOrder, es)) && Descending(t, Sort(EditOrder, es))
  {
    var sorted := Sort(EditOrder, es);
    LegalIsTidy(t, es);
    SortedStaysValid(t, es);
    SortedFromTheBack(es);
    var fs := Splices(t, sorted);
    forall k, f | 0 <= k < |fs| && f in fs[..k]
      ensures if f.start == fs[k].start then f.del == 0 else fs[k].start < f.start && fs[k].start + fs[k].del <= f.start
    {
      var i :| 0 <= i < k && fs[i] == f;
      StartsDescend(t, es, i, k);
      LaterIsBefore(t, es, i, k);
    }
  }

  lemma LaterIsBefore(t: Text, es: seq<TextEdit>, i: nat, k: nat)
    requires ValidEdits(t, es) && Tidy(Splices(t, es)) && ValidEdits(t, Sort(EditOrder, es))
    requires forall f :: f in Splices(t, Sort(EditOrder, es)) <==> f in Splices(t, es)
    requires i < k < |Sort(EditOrder, es)|
    ensures
      var fs := Splices(t, Sort(EditOrder, es));
      if fs[i].start == fs[k].start then fs[i].del == 0 else Disjoint(fs[i], fs[k])
  {
    var fs := Splices(t, Sort(EditOrder, es));
    SortingKeepsGroups(t, es, fs[k].start);
    if fs[i].start == fs[k].start {
      EarlierInserts(fs, i, k);
    } else {
      assert fs[i] in fs && fs[k] in fs;
    }
  }

  lemma StartsDescend(t: Text, es: seq<TextEdit>, i: nat, k: nat)
    requires ValidEdits(t, Sort(EditOrder, es)) && i < k < |es| == |Sort(EditOrder, es)|
    ensures Splices(t, Sort(EditOrder, es))[k].start <= Splices(t, Sort(EditOrder, es))[i].start
  {
    var sorted := Sort(EditOrder, es);
    SortedFromTheBack(es);
    PositionsOrdered(t, sorted[i].start, IndexOf(t, sorted[i].start), sorted[k].start, IndexOf(t, sorted[k].start));
  }

  // ----- agreement with the standard -----

  /** What the standard asks for: all edits refer to the original text, and the texts of the
      edits at one place come out in array order. */
  ghost function StandardResult(t: Text, es: seq<TextEdit>): Text
    requires ValidEdits(t, es)
  {
    Simultaneous(t, Splices(t, es), 0)
  }

  /** At every place the range covers what it should when its end is resolved behind the
      inserted texts, and the texts there come out as they should. */
  ghost predicate EveryPlaceMeets(t: Text, es: seq<TextEdit>)
    requires ValidEdits(t, es)
  {
    ValidInBounds(t, es);
    forall p :: 0 <= p <= |t| ==> PlaceMeets(t, Splices(t, es), p)
  }

  ghost predicate MakesUp(t: Text, es: seq<TextEdit>)
    requires ValidEdits(t, es)
  {
    ValidInBounds(t, es);
    Offsetting(t, Splices(t, es))
  }

  /** For every legal list the buffer ends up as the standard says if every place meets, and
      only then, unless a range that covers too little makes up for one that covers too much. */
  lemma MeetsStandardIff(t: Text, es: seq<TextEdit>)
    requires ValidEdits(t, es) && Legal(t, es)
    ensures EveryPlaceMeets(t, es) ==> ActualResult(t, es) == StandardResult(t, es)
    ensures !MakesUp(t, es) ==> (ActualResult(t, es) == StandardResult(t, es) <==> EveryPlaceMeets(t, es))
  {
    LegalIsTidy(t, es);
    ValidInBounds(t, es);
    AgreeIff(t, Splices(t, es));
  }

  /** Nothing is inserted in front of a replacement, except at one position. */
  ghost predicate MixedOnlyAt(es: seq<TextEdit>, q: Position) {
    forall i, j :: 0 <= i < j < |es| && es[i].start == es[j].start ==> es[j].start == es[j].end || es[j].start == q
  }

  /** In particular, if insertions share their starts with insertions only, the buffer ends up
      as the standard says exactly when every place meets; one start shared by insertions and
      a replacement makes no difference to that. */
  lemma MixedOnceMeetsStandardIff(t: Text, es: seq<TextEdit>, q: Position)
    requires ValidEdits(t, es) && Legal(t, es) && MixedOnlyAt(es, q)
    ensures ActualResult(t, es) == StandardResult(t, es) <==> EveryPlaceMeets(t, es)
  {
    ValidInBounds(t, es);
    forall p, r | 0 <= p < |t| + 1 && 0 <= r < |t| + 1 ensures !(Short(t, Splices(t, es), p) < 0 < Short(t, Splices(t, es), r)) {
      if PositionAfter(t[..p]) != q { CoversAllIfPure(t, es, p); }
      if PositionAfter(t[..r]) != q { CoversAllIfPure(t, es, r); }
      PositionsOrdered(t, PositionAfter(t[..p]), p, PositionAfter(t[..r]), r);
    }
    MeetsStandardIff(t, es);
  }

  lemma CoversAllIfPure(t: Text, es: seq<TextEdit>, p: nat)
    requires ValidEdits(t, es) && Legal(t, es) && p <= |t|
    requires exists q :: MixedOnlyAt(es, q) && PositionAfter(t[..p]) != q
    ensures AllInBounds(t, Splices(t, es)) && Short(t, Splices(t, es), p) == 0
  {
    var fs := Splices(t, es);
    ValidInBounds(t, es);
    LegalIsTidy(t, es);
    var g := Group(fs, p);
    if HasReplacement(g) {
      if |g| > 1 { MixedGroupIsMixed(t, es, p); }
      assert Insertions(g) == [];
      SilentPlaceMeets(t, fs, p);
    } else {
      NothingToCover(t, p, TextsReversed(g));
    }
  }

  lemma MixedGroupIsMixed(t: Text, es: seq<TextEdit>, p: nat)
    requires ValidEdits(t, es) && Legal(t, es) && p <= |t| && Tidy(Splices(t, es))
    requires HasReplacement(Group(Splices(t, es), p)) && |Group(Splices(t, es), p)| > 1
    ensures forall q :: MixedOnlyAt(es, q) ==> PositionAfter(t[..p]) == q
  {
    var i, j := InsertionAndReplacement(Splices(t, es), p);
    StartsAgree(t, es, p);
    var first, second := if i < j then i else j, if i < j then j else i;
    assert Compatible(ToSplice(t, es[first]), ToSplice(t, es[second]));
  }

  /** A group of more than one edit that ends in a replacement starts with an insertion. */
  lemma InsertionAndReplacement(fs: seq<Edit<CodePoint>>, p: nat) returns (i: nat, j: nat)
    requires Tidy(fs) && HasReplacement(Group(fs, p)) && |Group(fs, p)| > 1
    ensures i < |fs| && j < |fs| && fs[i].start == fs[j].start == p && fs[i].del == 0 < fs[j].del
  {
    var g := Group(fs, p);
    GroupMembers(fs, p);
    assert InsertionsFirst(g) && g[0] in g && g[|g| - 1] in g;
    i :| 0 <= i < |fs| && fs[i] == g[0];
    j :| 0 <= j < |fs| && fs[j] == g[|g| - 1];
  }

  ghost predicate Distinct(es: seq<TextEdit>) {
    forall i, j :: 0 <= i < j < |es| ==> es[i].start != es[j].start
  }

  lemma StartsAreDistinct(t: Text, es: seq<TextEdit>)
    requires ValidEdits(t, es) && Distinct(es)
    ensures DistinctStarts(Splices(t, es))
  {
    forall i, j | 0 <= i < j < |es| ensures Splices(t, es)[i].start != Splices(t, es)[j].start {
      PositionsOrdered(t, es[i].start, IndexOf(t, es[i].start), es[j].start, IndexOf(t, es[j].start));
    }
  }

  /** With pairwise distinct starts the buffer ends up as the standard says, whatever the
      order of the edits in the array. */
  lemma DistinctStartsMeetStandard(t: Text, es: seq<TextEdit>, fs: seq<TextEdit>)
    requires ValidEdits(t, es) && ValidEdits(t, fs) && Legal(t, fs)
    requires Distinct(es) && Distinct(fs)
    requires forall e :: e in es <==> e in fs
    ensures ActualResult(t, fs) == StandardResult(t, es)
  {
    StartsAreDistinct(t, es);
    StartsAreDistinct(t, fs);
    SameMembers(t, es, fs);
    ValidInBounds(t, fs);
    forall p | 0 <= p <= |t| ensures PlaceMeets(t, Splices(t, fs), p) { DistinctStartsMeet(t, Splices(t, fs), p); }
    MeetsStandardIff(t, fs);
    SimultaneousUnordered(t, Splices(t, es), Splices(t, fs), 0);
    SimultaneousUnordered(t, Splices(t, fs), Splices(t, fs), 0);
  }

  // ----- whatever the texts -----

  /** The same ranges, with any texts. */
  ghost predicate SameRanges(es: seq<TextEdit>, fs: seq<TextEdit>) {
    |es| == |fs| && forall i :: 0 <= i < |es| ==> es[i].start == fs[i].start && es[i].end == fs[i].end
  }

  ghost predicate RightFor(t: Text, es: seq<TextEdit>) {
    ValidEdits(t, es) && ActualResult(t, es) == StandardResult(t, es)
  }

  lemma SameRangesStayLegal(t: Text, es: seq<TextEdit>, fs: seq<TextEdit>)
    requires ValidEdits(t, es) && Legal(t, es) && SameRanges(es, fs)
    ensures ValidEdits(t, fs) && Legal(t, fs)
    ensures forall i :: 0 <= i < |es| ==>
      Splices(t, fs)[i].start == Splices(t, es)[i].start && Splices(t, fs)[i].del == Splices(t, es)[i].del
  {
    forall i | 0 <= i < |es| ensures ValidEdit(t, fs[i]) && ValidEdit(t, es[i]) { assert ValidEdit(t, es[i]); }
    forall i, j | 0 <= i < j < |fs| ensures Compatible(ToSplice(t, fs[i]), ToSplice(t, fs[j])) {
      assert Compatible(ToSplice(t, es[i]), ToSplice(t, es[j]));
    }
  }

  /** The edits with one text at `i`, one at `j`, and nothing to insert otherwise. */
  function Speak(es: seq<TextEdit>, i: nat, a: Text, j: nat, b: Text): (r: seq<TextEdit>)
    ensures |r| == |es|
    ensures forall k :: 0 <= k < |es| ==>
      r[k] == TextEdit(es[k].start, es[k].end, if k == i then a else if k == j then b else [])
  {
    seq(|es|, k requires 0 <= k < |es| => TextEdit(es[k].start, es[k].end, if k == i then a else if k == j then b else []))
  }

  /** The list of ranges is handled as the standard says whatever the texts exactly when no
      two of them start at the same position. */
  lemma AnyTextsMeetStandardIff(t: Text, es: seq<TextEdit>)
    requires ValidEdits(t, es) && Legal(t, es)
    ensures (forall fs :: SameRanges(es, fs) ==> RightFor(t, fs)) <==> Distinct(es)
  {
    if Distinct(es) {
      forall fs | SameRanges(es, fs) ensures RightFor(t, fs) {
        SameRangesStayLegal(t, es, fs);
        DistinctStartsMeetStandard(t, fs, fs);
      }
    } else {
      var i, j :| 0 <= i < j < |es| && es[i].start == es[j].start;
      var fs := SharedStartFails(t, es, i, j);
      assert SameRanges(es, fs);
    }
  }

  lemma SharedStartFails(t: Text, es: seq<TextEdit>, i: nat, j: nat) returns (fs: seq<TextEdit>)
    requires ValidEdits(t, es) && Legal(t, es) && i < j < |es| && es[i].start == es[j].start
    ensures SameRanges(es, fs) && !RightFor(t, fs)
  {
    assert Compatible(ToSplice(t, es[i]), ToSplice(t, es[j]));
    if k :| 0 <= k < |es| && es[k].start == es[i].start && ToSplice(t, es[k]).del > 0 {
      fs := FailsBeforeReplacement(t, es, i, k);
    } else {
      fs := FailsWithoutReplacement(t, es, i, j);
    }
  }

  lemma FailsWithoutReplacement(t: Text, es: seq<TextEdit>, i: nat, j: nat) returns (fs: seq<TextEdit>)
    requires ValidEdits(t, es) && Legal(t, es) && i < j < |es| && es[i].start == es[j].start
    requires forall k :: 0 <= k < |es| && es[k].start == es[i].start ==> ToSplice(t, es[k]).del == 0
    ensures SameRanges(es, fs) && !RightFor(t, fs)
  {
    fs := Speak(es, i, [97], j, [98]);
    SameRangesStayLegal(t, es, fs);
    LegalIsTidy(t, fs);
    ValidInBounds(t, fs);
    StartsAgree(t, fs, IndexOf(t, es[i].start));
    NoReplacement(Splices(t, fs), IndexOf(t, es[i].start));
    TwoInsertionsFail(t, Splices(t, fs), i, j);
  }

  lemma StartsAgree(t: Text, es: seq<TextEdit>, p: nat)
    requires ValidEdits(t, es) && p <= |t|
    ensures forall k :: 0 <= k < |es| ==> (Splices(t, es)[k].start == p <==> es[k].start == PositionAfter(t[..p]))
  {
    forall k | 0 <= k < |es| ensures Splices(t, es)[k].start == p <==> es[k].start == PositionAfter(t[..p]) {
      PositionsOrdered(t, es[k].start, IndexOf(t, es[k].start), PositionAfter(t[..p]), p);
    }
  }

  lemma NoReplacement(fs: seq<Edit<CodePoint>>, p: nat)
    requires forall k :: 0 <= k < |fs| && fs[k].start == p ==> fs[k].del == 0
    ensures !HasReplacement(Group(fs, p))
  {
    GroupMembers(fs, p);
    var g := Group(fs, p);
    assert g != [] ==> g[|g| - 1] in g;
  }

  /** A character that is not the last one replaced. */
  function OtherThan(c: CodePoint): CodePoint {
    if c == 97 then 98 else 97
  }

  lemma FailsBeforeReplacement(t: Text, es: seq<TextEdit>, i: nat, k: nat) returns (fs: seq<TextEdit>)
    requires ValidEdits(t, es) && Legal(t, es) && i < |es| && ToSplice(t, es[i]).del == 0
    requires k < |es| && es[k].start == es[i].start && ToSplice(t, es[k]).del > 0
    ensures SameRanges(es, fs) && !RightFor(t, fs)
  {
    fs := Speak(es, i, [OtherThan(t[IndexOf(t, es[k].end) - 1])], |es|, []);
    SameRangesStayLegal(t, es, fs);
    LegalIsTidy(t, fs);
    ValidInBounds(t, fs);
    OneCharacterFails(t, Splices(t, fs), i, k);
  }

  lemma OneCharacterFails(t: Text, fs: seq<Edit<CodePoint>>, i: nat, k: nat)
    requires AllInBounds(t, fs) && Tidy(fs) && i < |fs| && k < |fs| && fs[i].start == fs[k].start
    requires fs[i].del == 0 < fs[k].del && SilentBut(fs, i) && |fs[i].ins| == 1
    requires InBounds(t, fs[k]) && fs[i].ins[0] != t[fs[k].start + fs[k].del - 1]
    ensures ByPlace(t, fs) != Simultaneous(t, fs, 0)
  {
    FoundReplacement(fs, k);
    InsertionBeforeReplacementFails(t, fs, i, fs[k].start);
  }

  lemma FoundReplacement(fs: seq<Edit<CodePoint>>, k: nat)
    requires Tidy(fs) && k < |fs| && fs[k].del > 0
    ensures HasReplacement(Group(fs, fs[k].start)) && Deleted(Group(fs, fs[k].start)) == fs[k].del
  {
    ReplacementIsLast(fs, fs[k]);
  }

  // ----- witnesses -----

  /** Two insertions at the start of a line come out in the wrong order. */
  lemma TwoInsertionsComeOutReversed(t: Text, es: seq<TextEdit>)
    requires t == [] && es == [TextEdit(Position(0, 0), Position(0, 0), [97]), TextEdit(Position(0, 0), Position(0, 0), [98])]
    ensures ValidEdits(t, es) && Legal(t, es)
    ensures ActualResult(t, es) == [98, 97] && StandardResult(t, es) == [97, 98]
  {
    assert t[..0] == [];
    Located(t, es[0], 0, 0);
    Located(t, es[1], 0, 0);
    var fs := Splices(t, es);
    assert fs == [Edit(0, 0, [97]), Edit(0, 0, [98])];
    PairInserted(fs[0], fs[1], 0);
    TwoTexts(fs, 0, 1, 0);
    GroupMembers(fs, 0);
    OnlyPlace(t, fs);
  }

  lemma OnlyPlace(t: Text, fs: seq<Edit<CodePoint>>)
    requires t == [] && AllInBounds(t, fs) && AllInsertions(Group(fs, 0))
    ensures ByPlace(t, fs) == TextsReversed(Group(fs, 0))
  {
    LayoutsFit(t, fs);
    InsertionsAt(t, fs, 0);
  }

  lemma SecondUnit(a: CodePoint, rest: Text)
    requires a != LF && Width16(a) == 1
    ensures PositionAfter([]) == Position(0, 0) && PositionAfter([a]) == Position(0, 1)
    ensures Resolved([a] + rest, Position(0, 0)) == 0
    ensures Resolved([a] + rest, Position(0, 1)) == 1
  {
    assert [a][..0] == [];
    var t: Text := [a] + rest;
    assert t[0..] == t && Advance(t[1..], 0) == 0;
  }

  ghost predicate InsertAndReplace(t: Text, es: seq<TextEdit>) {
    && t == [97, 98]
    && es == [TextEdit(Position(0, 0), Position(0, 0), [99]), TextEdit(Position(0, 0), Position(0, 1), [100])]
  }

  /** An insertion listed before a replacement at the same start is deleted again: the end of
      the replacement's range is resolved behind the inserted text. */
  lemma ReplacementAfterInsertionDeletesIt(t: Text, es: seq<TextEdit>)
    requires InsertAndReplace(t, es)
    ensures ValidEdits(t, es) && Legal(t, es)
    ensures ActualResult(t, es) == [100, 97, 98]
    ensures StandardResult(t, es) == [99, 100, 98]
  {
    InsertAndReplaceLocated(t, es);
    assert Descending(t, es);
    InsertAndReplaceRun(t, es, ActualResult(t, es[..1]), ActualResult(t, es));
    MeantInOrder(t, Splices(t, es));
  }

  lemma InsertAndReplaceLocated(t: Text, es: seq<TextEdit>)
    requires InsertAndReplace(t, es)
    ensures ValidEdits(t, es) && Legal(t, es)
    ensures Splices(t, es) == [Edit(0, 0, [99]), Edit(0, 1, [100])]
  {
    SecondUnit(97, [98]);
    assert [97] + [98] == t && t[..0] == [] && t[..1] == [97];
    Located(t, es[0], 0, 0);
    Located(t, es[1], 0, 1);
  }

  lemma FirstTurn(t: Text, es: seq<TextEdit>, k: nat, w: Text)
    requires ValidEdits(t, es) && Descending(t, es) && es != [] && k == 0 && w == ActualResult(t, es[..k + 1])
    ensures Turned(t, es[k], t, w)
  {
    assert LeftAfter(t, es, k, t) by { Ends(t, es); }
    NextEdit(t, es, k, t, w);
  }

  lemma SecondTurn(t: Text, es: seq<TextEdit>, k: nat, u: Text, w: Text)
    requires ValidEdits(t, es) && Descending(t, es) && |es| == k + 1 && u == ActualResult(t, es[..k]) && w == ActualResult(t, es)
    ensures Turned(t, es[k], u, w)
  {
    assert es[..k + 1] == es;
    NextEdit(t, es, k, u, w);
  }

  lemma InsertedInFront(t: Text, ins: Text)
    ensures Resolved(t, Position(0, 0)) == 0
    ensures Replaced(t, TextEdit(Position(0, 0), Position(0, 0), ins)) == ins + t
  {
    assert Advance(t[0..], 0) == 0;
  }

  lemma ReplacedInFront(a: CodePoint, rest: Text, ins: Text)
    requires a != LF && Width16(a) == 1
    ensures Resolved([a] + rest, Position(0, 0)) == 0 && Resolved([a] + rest, Position(0, 1)) == 1
    ensures Replaced([a] + rest, TextEdit(Position(0, 0), Position(0, 1), ins)) == ins + rest
  {
    SecondUnit(a, rest);
    assert ([a] + rest)[1..] == rest;
  }

  /** The list is sorted already; the two edits in turn. */
  lemma InsertAndReplaceRun(t: Text, es: seq<TextEdit>, u: Text, w: Text)
    requires InsertAndReplace(t, es) && ValidEdits(t, es) && Descending(t, es)
    requires u == ActualResult(t, es[..1]) && w == ActualResult(t, es)
    ensures w == [100] + t
  {
    FirstTurn(t, es, 0, u);
    SecondTurn(t, es, 1, u, w);
    InsertedInFront(t, [99]);
    ReplacedInFront(99, t, [100]);
  }

  lemma {:induction false} MeantBehind(t: Text, fs: seq<Edit<CodePoint>>, from: nat)
    requires from <= |t| && forall k :: 0 <= k < |fs| ==> fs[k].start + fs[k].del <= from && fs[k].start < from
    ensures Simultaneous(t, fs, from) == t[from..]
    decreases |t| - from
  {
    NothingInserted(fs, from);
    if from < |t| {
      MeantBehind(t, fs, from + 1);
      assert !DeletedAt(fs, from);
    }
  }

  lemma MeantInOrder(t: Text, fs: seq<Edit<CodePoint>>)
    requires t == [97, 98] && fs == [Edit(0, 0, [99]), Edit(0, 1, [100])]
    ensures Simultaneous(t, fs, 0) == [99, 100, 98]
  {
    PairInserted(fs[0], fs[1], 0);
    MeantBehind(t, fs, 1);
    assert fs[1].start <= 0 < fs[1].start + fs[1].del;
    assert DeletedAt(fs, 0);
  }

  lemma Located(t: Text, e: TextEdit, i: nat, j: nat)
    requires PointsAt(t, e.start, i) && PointsAt(t, e.end, j) && i <= j
    ensures ValidEdit(t, e) && ToSplice(t, e) == Edit(i, j - i, e.newText)
  {
    PositionsOrdered(t, e.start, i, e.start, IndexOf(t, e.start));
    PositionsOrdered(t, e.end, j, e.end, IndexOf(t, e.end));
  }

  // The text is two line breaks around an `x`. In front of each of two replacements something
  // is inserted; the first then covers too much, the second too little.

  ghost predicate MakeUpEdits(t: Text, es: seq<TextEdit>) {
    && t == [10, 120, 10]
    && es == [TextEdit(Position(0, 0), Position(0, 0), [120, 10]), TextEdit(Position(0, 0), Position(1, 0), [120]),
              TextEdit(Position(1, 0), Position(1, 0), [10]), TextEdit(Position(1, 0), Position(2, 0), [])]
  }

  ghost predicate MakeUpSplices(fs: seq<Edit<CodePoint>>) {
    fs == [Edit(0, 0, [120, 10])] + [Edit(0, 1, [120])] + [Edit(1, 0, [10])] + [Edit(1, 2, [])]
  }

  lemma PositionSnoc(s: Text, c: CodePoint)
    ensures PositionAfter(s + [c]) ==
      var p := PositionAfter(s);
      if c == LF then Position(p.line + 1, 0) else Position(p.line, p.character + Width16(c))
  {
    assert (s + [c])[..|s|] == s;
  }

  lemma MakeUpPositions(t: Text)
    requires t == [10, 120, 10]
    ensures PointsAt(t, Position(0, 0), 0) && PointsAt(t, Position(1, 0), 1) && PointsAt(t, Position(2, 0), 3)
  {
    PositionSnoc([], 10);
    PositionSnoc([10], 120);
    PositionSnoc([10, 120], 10);
    assert t[..0] == [] && t[..1] == [] + [10] && [10] + [120] == [10, 120] && t[..3] == [10, 120] + [10];
  }

  lemma MakeUpLocated(t: Text, es: seq<TextEdit>)
    requires MakeUpEdits(t, es)
    ensures ValidEdits(t, es) && Legal(t, es) && MakeUpSplices(Splices(t, es))
  {
    MakeUpPositions(t);
    Located(t, es[0], 0, 0);
    Located(t, es[1], 0, 1);
    Located(t, es[2], 1, 1);
    Located(t, es[3], 1, 3);
  }

  lemma MakeUpGroups(fs: seq<Edit<CodePoint>>, p: nat)
    requires MakeUpSplices(fs)
    ensures p == 0 ==> Group(fs, p) == [Edit(0, 0, [120, 10])] + [Edit(0, 1, [120])]
    ensures p == 1 ==> Group(fs, p) == [Edit(1, 0, [10])] + [Edit(1, 2, [])]
    ensures p > 1 ==> Group(fs, p) == []
  {
    var a, b, c, d := Edit(0, 0, [120, 10]), Edit(0, 1, [120]), Edit(1, 0, [10]), Edit(1, 2, []);
    GroupSnoc([], a, p);
    assert [] + [a] == [a] && Group([], p) == [];
    GroupSnoc([a], b, p);
    GroupSnoc([a] + [b], c, p);
    GroupSnoc([a] + [b] + [c], d, p);
  }

  lemma MixedPair(g: seq<Edit<CodePoint>>, a: Edit<CodePoint>, b: Edit<CodePoint>)
    requires g == [a] + [b] && a.del == 0 < b.del
    ensures HasReplacement(g) && Deleted(g) == b.del && Replacement(g) == b.ins
    ensures TextsReversed(Insertions(g)) == a.ins == Texts(Insertions(g))
  {
    assert Insertions(g) == [] + [a];
    TextsSnoc([], a);
  }

  /** The position after two line breaks or one, where it is found */
  lemma OneBreakOn(a: CodePoint, rest: Text)
    requires a != LF
    ensures Resolved([a] + [10] + rest, Position(1, 0)) == 2
  {
    var u: Text := [a] + [10] + rest;
    var v := u[1..];
    assert u[0] != LF && v[0] == LF;
    assert LineStart(v, 1) == 1 + LineStart(v[1..], 0) == 1;
    assert LineStart(u, 1) == 1 + LineStart(v, 1);
    assert Advance(u[2..], 0) == 0;
  }

  lemma TwoBreaksOn(rest: Text)
    ensures Resolved([10] + [10] + rest, Position(2, 0)) == 2
  {
    var u: Text := [10] + [10] + rest;
    var v := u[1..];
    assert u[0] == LF && v[0] == LF;
    assert LineStart(v, 1) == 1 + LineStart(v[1..], 0) == 1;
    assert LineStart(u, 2) == 1 + LineStart(v, 1);
    assert Advance(u[2..], 0) == 0;
  }

  lemma FoundTooLate(t: Text, d: nat)
    requires t == [10] + [120, 10] && d == 1
    ensures LeftOver(t, 0, d, [120, 10]) == [10]
  {
    PositionSnoc([], 10);
    assert t[..0 + d] == [] + [10];
    OneBreakOn(120, [10]);
    assert t[..0] + [120, 10] + t[0..0 + d] == [120] + [10] + [10];
    assert [120, 10] + t[0..0 + d] == [120, 10] + [10];
  }

  lemma FoundTooEarly(t: Text, p: nat, d: nat)
    requires t == [10, 120, 10] && p == 1 && d == 2
    ensures LeftOver(t, p, d, [10]) == [120, 10]
  {
    MakeUpPositions(t);
    TwoBreaksOn([120, 10]);
    assert t[..p] + [10] + t[p..p + d] == [10] + [10] + [120, 10];
  }

  /** What the two places leave, and what they should. */
  ghost predicate MakeUpFacts(t: Text, fs: seq<Edit<CodePoint>>, p: nat, q: nat, r: nat) {
    && AllInBounds(t, fs) && p < q < r == |t|
    && Group(fs, r) == [] && p + Deleted(Group(fs, p)) == q && q + Deleted(Group(fs, q)) == r
    && ActualAt(t, fs, p) == [120, 10] && MeantAt(fs, p) == [120, 10, 120]
    && ActualAt(t, fs, q) == [120, 10] && MeantAt(fs, q) == [10]
  }

  lemma MakeUpFactsHold(t: Text, fs: seq<Edit<CodePoint>>, one: nat, three: nat)
    requires t == [10, 120, 10] && MakeUpSplices(fs) && AllInBounds(t, fs) && one == 1 && three == 3
    ensures MakeUpFacts(t, fs, 0, one, three)
  {
    MakeUpGroups(fs, 0);
    MakeUpGroups(fs, one);
    MakeUpGroups(fs, three);
    MixedPair(Group(fs, 0), Edit(0, 0, [120, 10]), Edit(0, 1, [120]));
    MixedPair(Group(fs, one), Edit(1, 0, [10]), Edit(1, 2, []));
    FoundTooLate(t, 1);
    FoundTooEarly(t, one, 2);
  }

  lemma TwoPlacesLaid(t: Text, l: Layout<CodePoint>, p: nat, q: nat, r: nat)
    requires Fits(t, l) && p < q < r == |t| && p + l.gone[p] == q && q + l.gone[q] == r && l.written[r] == []
    ensures Laid(t, l, p) == l.written[p] + l.written[q]
  {
    LaidGone(t, l, p, q);
    LaidGone(t, l, q, r);
    assert l.written[q] + [] == l.written[q];
  }

  lemma WholeIsRight(t: Text, fs: seq<Edit<CodePoint>>, q: nat, r: nat)
    requires MakeUpFacts(t, fs, 0, q, r) && Tidy(fs)
    ensures ByPlace(t, fs) == Simultaneous(t, fs, 0)
  {
    LayoutsFit(t, fs);
    MeantIsLaid(t, fs, 0);
    InsertionsAt(t, fs, r);
    TwoPlacesLaid(t, ActualLayout(t, fs), 0, q, r);
    TwoPlacesLaid(t, MeantLayout(t, fs), 0, q, r);
    assert [120, 10] + [120, 10] == [120, 10, 120] + [10];
  }

  lemma NoPlaceIsRight(t: Text, fs: seq<Edit<CodePoint>>, p: nat, q: nat, r: nat)
    requires MakeUpFacts(t, fs, p, q, r)
    ensures Short(t, fs, p) < 0 < Short(t, fs, q)
    ensures !PlaceMeets(t, fs, p) && !PlaceMeets(t, fs, q)
  {
    PlaceMeetsIff(t, fs, p);
    PlaceMeetsIff(t, fs, q);
  }

  /** The whole can be right although no place is: the two mistakes make up for each other. */
  lemma MistakesCanMakeUp(t: Text, es: seq<TextEdit>)
    requires MakeUpEdits(t, es)
    ensures ValidEdits(t, es) && Legal(t, es) && MakesUp(t, es)
    ensures ActualResult(t, es) == StandardResult(t, es) && !EveryPlaceMeets(t, es)
  {
    MakeUpLocated(t, es);
    LegalIsTidy(t, es);
    ValidInBounds(t, es);
    MakeUpFactsHold(t, Splices(t, es), 1, 3);
    NoPlaceIsRight(t, Splices(t, es), 0, 1, 3);
    WholeIsRight(t, Splices(t, es), 1, 3);
  }
}
