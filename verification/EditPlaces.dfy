/** What edits to a text do place by place: the edits that start at a place, what the standard
    (LSP 3.17, section "Text Edit[]") makes of them, and what applying them one after the
    other from the back makes of them, each resolved in the text as it is by then. */
module EditPlaces {
  import opened Text
  import opened Splice
  import opened Sorting
  import opened Layouts

  type Change = Edit<CodePoint>

  function StartsAt(p: nat): Change -> bool {
    (f: Change) => f.start == p
  }

  /** The edits that start at a place, in array order. */
  function Group(fs: seq<Change>, p: nat): seq<Change> {
    Filter(StartsAt(p), fs)
  }

  function Texts(g: seq<Change>): Text {
    if g == [] then [] else g[0].ins + Texts(g[1..])
  }

  function TextsReversed(g: seq<Change>): Text {
    if g == [] then [] else TextsReversed(g[1..]) + g[0].ins
  }

  /** Only the last edit of a group may delete something. */
  predicate HasReplacement(g: seq<Change>) {
    g != [] && g[|g| - 1].del > 0
  }

  function Insertions(g: seq<Change>): seq<Change> {
    if HasReplacement(g) then g[..|g| - 1] else g
  }

  function Replacement(g: seq<Change>): Text {
    if HasReplacement(g) then g[|g| - 1].ins else []
  }

  function Deleted(g: seq<Change>): nat {
    if HasReplacement(g) then g[|g| - 1].del else 0
  }

  ghost predicate AllInsertions(g: seq<Change>) {
    forall k :: 0 <= k < |g| ==> g[k].del == 0
  }

  ghost predicate InsertionsFirst(g: seq<Change>) {
    forall k :: 0 <= k < |g| - 1 ==> g[k].del == 0
  }

  predicate Disjoint(f: Change, g: Change) {
    f.start + f.del <= g.start || g.start + g.del <= f.start
  }

  /** Edits with different starts do not meet, and of those with one start all but the last
      are insertions. */
  ghost predicate Tidy(fs: seq<Change>) {
    && (forall f, g :: f in fs && g in fs && f.start != g.start ==> Disjoint(f, g))
    && (forall p :: InsertionsFirst(Group(fs, p)))
  }

  // ----- groups -----

  lemma {:induction false} GroupMembers(fs: seq<Change>, p: nat)
    ensures forall f :: f in Group(fs, p) <==> f in fs && f.start == p
  {
    if fs != [] { GroupMembers(fs[1..], p); }
  }

  lemma {:induction false} GroupSnoc(fs: seq<Change>, e: Change, p: nat)
    ensures Group(fs + [e], p) == Group(fs, p) + (if e.start == p then [e] else [])
  {
    if fs == [] {
      assert [] + [e] == [e];
    } else {
      assert (fs + [e])[1..] == fs[1..] + [e];
      GroupSnoc(fs[1..], e, p);
    }
  }

  lemma {:induction false} NoGroup(fs: seq<Change>, p: nat)
    requires forall f :: f in fs ==> f.start != p
    ensures Group(fs, p) == []
  {
    if fs != [] { NoGroup(fs[1..], p); }
  }

  lemma DeletedFits(t: Text, fs: seq<Change>, p: nat)
    requires AllInBounds(t, fs) && p <= |t|
    ensures p + Deleted(Group(fs, p)) <= |t|
  {
    GroupMembers(fs, p);
    var g := Group(fs, p);
    if HasReplacement(g) {
      assert g[|g| - 1] in g;
      var i :| 0 <= i < |fs| && fs[i] == g[|g| - 1];
      assert InBounds(t, fs[i]);
    }
  }

  /** The edit of a tidy list that deletes from a place is the last of its group. */
  lemma ReplacementIsLast(fs: seq<Change>, f: Change)
    requires Tidy(fs) && f in fs && f.del > 0
    ensures
      var g := Group(fs, f.start);
      HasReplacement(g) && g[|g| - 1] == f && Deleted(g) == f.del
  {
    GroupMembers(fs, f.start);
    var g := Group(fs, f.start);
    assert InsertionsFirst(g);
    var k :| 0 <= k < |g| && g[k] == f;
  }

  lemma FrontOfTwo(a: Text, b: Text, c: Text)
    ensures a + (b + c) == a + b + c
  {
  }

  lemma {:induction false} TextsSnoc(g: seq<Change>, e: Change)
    ensures Texts(g + [e]) == Texts(g) + e.ins
    ensures TextsReversed(g + [e]) == e.ins + TextsReversed(g)
  {
    if g == [] {
      assert g + [e] == [e] && [e][1..] == [];
    } else {
      assert (g + [e])[1..] == g[1..] + [e] && (g + [e])[0] == g[0];
      TextsSnoc(g[1..], e);
      FrontOfTwo(g[0].ins, Texts(g[1..]), e.ins);
      FrontOfTwo(e.ins, TextsReversed(g[1..]), g[0].ins);
    }
  }

  lemma {:induction false} ReversedLength(g: seq<Change>)
    ensures |TextsReversed(g)| == |Texts(g)|
    ensures |Texts(g)| <= 1 ==> TextsReversed(g) == Texts(g)
  {
    if g != [] { ReversedLength(g[1..]); }
  }

  // ----- one place -----

  /** With `g` inserted before `d` code points of the text, how many code points from there on
      the range of these `d` covers when its end is resolved anew. */
  function Covered(t: Text, p: nat, d: nat, g: Text): (n: nat)
    requires p + d <= |t|
    ensures n <= |g| + d
  {
    var end := Resolved(t[..p] + g + t[p..p + d], PositionAfter(t[..p + d]));
    if end <= p then 0 else end - p
  }

  /** What is left of the inserted text and the replaced stretch. */
  function LeftOver(t: Text, p: nat, d: nat, g: Text): Text
    requires p + d <= |t|
  {
    (g + t[p..p + d])[Covered(t, p, d, g)..]
  }

  /** What applying the edits of a group one by one leaves in place of what they delete. */
  function ActualAt(t: Text, fs: seq<Change>, p: nat): Text
    requires AllInBounds(t, fs) && p <= |t|
  {
    DeletedFits(t, fs, p);
    var g := Group(fs, p);
    Replacement(g) + LeftOver(t, p, Deleted(g), TextsReversed(Insertions(g)))
  }

  /** What they mean: the inserted texts in array order, then the replacement. */
  function MeantAt(fs: seq<Change>, p: nat): Text {
    Texts(Insertions(Group(fs, p))) + Replacement(Group(fs, p))
  }

  /** Range resolution brings no change where nothing is inserted. */
  lemma NothingInTheWay(t: Text, p: nat, d: nat)
    requires p + d <= |t|
    ensures Covered(t, p, d, []) == d
  {
    var s := t[..p + d];
    assert t[..p] + [] + t[p..p + d] == s && s[..p + d] == s;
    ValidResolves(s, PositionAfter(s), p + d);
  }

  lemma NothingToCover(t: Text, p: nat, g: Text)
    requires p <= |t|
    ensures Covered(t, p, 0, g) == 0 && LeftOver(t, p, 0, g) == g
  {
    var s := t[..p] + g;
    assert t[..p] + g + t[p..p] == s && s[..p] == t[..p];
    ValidResolves(s, PositionAfter(t[..p]), p);
    assert g + t[p..p] == g;
  }

  /** An insertion in front of a deletion is itself deleted, at least in part. */
  lemma SomethingIsCovered(t: Text, p: nat, d: nat, g: Text)
    requires 0 < d && p + d <= |t|
    ensures 0 < Covered(t, p, d, g)
    ensures Resolved(t[..p] + g + t[p..p + d], PositionAfter(t[..p + d])) == p + Covered(t, p, d, g)
  {
    assert t[..p] + t[p..p + d] == t[..p + d];
    EndIsFoundLater(t[..p], g, t[p..p + d]);
  }

  lemma InsertionsAt(t: Text, fs: seq<Change>, p: nat)
    requires AllInBounds(t, fs) && p <= |t| && AllInsertions(Group(fs, p))
    ensures Deleted(Group(fs, p)) == 0 && ActualAt(t, fs, p) == TextsReversed(Group(fs, p))
  {
    NothingToCover(t, p, TextsReversed(Group(fs, p)));
  }

  // ----- all places -----

  /** What the edits leave in front of each place, and what they delete. */
  function ActualLayout(t: Text, fs: seq<Change>): (l: Layout<CodePoint>)
    requires AllInBounds(t, fs)
    ensures |l.written| == |l.gone| == |t| + 1
    ensures forall p :: 0 <= p <= |t| ==> l.written[p] == ActualAt(t, fs, p) && l.gone[p] == Deleted(Group(fs, p))
  {
    Layout(seq(|t| + 1, p requires 0 <= p <= |t| => ActualAt(t, fs, p)),
           seq(|t| + 1, p requires 0 <= p <= |t| => Deleted(Group(fs, p))))
  }

  /** What they mean to write there. */
  function MeantLayout(t: Text, fs: seq<Change>): (l: Layout<CodePoint>)
    ensures |l.written| == |l.gone| == |t| + 1
    ensures forall p :: 0 <= p <= |t| ==> l.written[p] == MeantAt(fs, p) && l.gone[p] == Deleted(Group(fs, p))
  {
    Layout(seq(|t| + 1, p requires 0 <= p <= |t| => MeantAt(fs, p)),
           seq(|t| + 1, p requires 0 <= p <= |t| => Deleted(Group(fs, p))))
  }

  lemma LayoutsFit(t: Text, fs: seq<Change>)
    requires AllInBounds(t, fs)
    ensures Fits(t, ActualLayout(t, fs)) && Fits(t, MeantLayout(t, fs))
  {
    forall p | 0 <= p <= |t| ensures p + Deleted(Group(fs, p)) <= |t| { DeletedFits(t, fs, p); }
  }

  /** What all the edits leave of the text. */
  ghost function ByPlace(t: Text, fs: seq<Change>): Text
    requires AllInBounds(t, fs)
  {
    LayoutsFit(t, fs);
    Laid(t, ActualLayout(t, fs), 0)
  }

  lemma QuietBetween(t: Text, fs: seq<Change>, from: nat, to: nat)
    requires AllInBounds(t, fs)
    requires forall f :: f in fs ==> f.start < from || to <= f.start
    ensures Quiet(ActualLayout(t, fs), from, to)
  {
    forall k | from <= k < to && k <= |t| ensures ActualAt(t, fs, k) == [] && Deleted(Group(fs, k)) == 0 {
      NoGroup(fs, k);
      InsertionsAt(t, fs, k);
    }
  }

  lemma NoEditsAtAll(t: Text)
    ensures ByPlace(t, []) == t
  {
    LayoutsFit(t, []);
    QuietBetween(t, [], 0, |t| + 1);
    LaidQuietToEnd(t, ActualLayout(t, []), 0, |t|);
  }

  lemma SameGroups(t: Text, fs: seq<Change>, gs: seq<Change>)
    requires AllInBounds(t, fs) && AllInBounds(t, gs)
    requires forall p :: Group(fs, p) == Group(gs, p)
    ensures ByPlace(t, fs) == ByPlace(t, gs)
  {
    LayoutsFit(t, fs);
    LayoutsFit(t, gs);
    forall k | 0 <= k <= |t| ensures ActualAt(t, fs, k) == ActualAt(t, gs, k) { assert Group(fs, k) == Group(gs, k); }
    LaidSame(t, ActualLayout(t, fs), ActualLayout(t, gs), 0);
  }

  /** One edit more changes nothing behind its start. */
  lemma SameBehind(t: Text, fs: seq<Change>, e: Change, from: nat)
    requires AllInBounds(t, fs) && AllInBounds(t, fs + [e]) && e.start < from
    ensures Layouts.SameFrom(ActualLayout(t, fs), ActualLayout(t, fs + [e]), from)
  {
    forall k | from <= k <= |t|
      ensures ActualAt(t, fs, k) == ActualAt(t, fs + [e], k) && Group(fs, k) == Group(fs + [e], k)
    {
      GroupSnoc(fs, e, k);
      assert Group(fs, k) + [] == Group(fs, k);
    }
  }

  // ----- one edit more, from the back -----

  /** The edit comes after these from the back: of those with its start only insertions
      have been there, and the others start behind it. */
  ghost predicate Follows(fs: seq<Change>, e: Change) {
    forall f :: f in fs ==>
      if f.start == e.start then f.del == 0 else e.start < f.start && e.start + e.del <= f.start
  }

  lemma FollowedAreInsertions(fs: seq<Change>, e: Change)
    requires Follows(fs, e)
    ensures AllInsertions(Group(fs, e.start))
  {
    GroupMembers(fs, e.start);
    var g := Group(fs, e.start);
    forall k | 0 <= k < |g| ensures g[k].del == 0 { assert g[k] in g; }
  }

  /** Up to the edit's start the text is the original. */
  lemma TextBefore(t: Text, fs: seq<Change>, p: nat, u: Text, rest: Text)
    requires AllInBounds(t, fs) && p <= |t| && u == ByPlace(t, fs)
    requires Fits(t, ActualLayout(t, fs)) && rest == Laid(t, ActualLayout(t, fs), p)
    requires forall f :: f in fs ==> p <= f.start
    ensures u == t[..p] + rest && Resolved(u, PositionAfter(t[..p])) == p
  {
    QuietBetween(t, fs, 0, p);
    LaidQuiet(t, ActualLayout(t, fs), 0, p);
    assert t[0..p] == t[..p];
    assert u[..p] == t[..p];
    ValidResolves(u, PositionAfter(t[..p]), p);
  }

  lemma MoreInsertions(g: seq<Change>, e: Change)
    requires AllInsertions(g) && e.del == 0
    ensures AllInsertions(g + [e]) && TextsReversed(g + [e]) == e.ins + TextsReversed(g)
  {
    TextsSnoc(g, e);
  }

  lemma GroupWithInsertion(t: Text, fs: seq<Change>, e: Change)
    requires AllInBounds(t, fs) && AllInBounds(t, fs + [e]) && e.start <= |t| && Follows(fs, e) && e.del == 0
    ensures Deleted(Group(fs, e.start)) == 0 == Deleted(Group(fs + [e], e.start))
    ensures ActualAt(t, fs + [e], e.start) == e.ins + ActualAt(t, fs, e.start)
  {
    GroupSnoc(fs, e, e.start);
    FollowedAreInsertions(fs, e);
    MoreInsertions(Group(fs, e.start), e);
    InsertionsAt(t, fs, e.start);
    InsertionsAt(t, fs + [e], e.start);
  }

  lemma InsertionStep(t: Text, fs: seq<Change>, e: Change)
    requires AllInBounds(t, fs) && AllInBounds(t, fs + [e]) && e.start <= |t| && Follows(fs, e) && e.del == 0
    requires Fits(t, ActualLayout(t, fs)) && Fits(t, ActualLayout(t, fs + [e]))
    ensures Laid(t, ActualLayout(t, fs + [e]), e.start) == e.ins + Laid(t, ActualLayout(t, fs), e.start)
  {
    GroupWithInsertion(t, fs, e);
    SameBehind(t, fs, e, e.start + 1);
    LaidInsertion(t, ActualLayout(t, fs), ActualLayout(t, fs + [e]), e.start, e.start + 1, e.ins);
  }

  lemma GroupWithReplacement(t: Text, fs: seq<Change>, e: Change)
    requires AllInBounds(t, fs + [e]) && e.del > 0 && e.start + e.del <= |t|
    ensures Deleted(Group(fs + [e], e.start)) == e.del
    ensures ActualAt(t, fs + [e], e.start) == e.ins + LeftOver(t, e.start, e.del, TextsReversed(Group(fs, e.start)))
  {
    var p, g := e.start, Group(fs, e.start);
    GroupSnoc(fs, e, p);
    assert (g + [e])[..|g|] == g;
  }

  /** The text when it is the replacement's turn: what was inserted before, the stretch to be
      deleted, and the rest; and what becomes of it. */
  lemma ReplacementStep(t: Text, fs: seq<Change>, e: Change, q: nat, g: Text, rest: Text)
    requires AllInBounds(t, fs) && AllInBounds(t, fs + [e]) && Follows(fs, e) && e.del > 0 && q == e.start + e.del <= |t|
    requires Fits(t, ActualLayout(t, fs)) && Fits(t, ActualLayout(t, fs + [e]))
    requires g == TextsReversed(Group(fs, e.start)) && rest == Laid(t, ActualLayout(t, fs), q)
    ensures Laid(t, ActualLayout(t, fs), e.start) == g + t[e.start..q] + rest
    ensures Laid(t, ActualLayout(t, fs + [e]), e.start) == e.ins + LeftOver(t, e.start, e.del, g) + rest
  {
    FollowedAreInsertions(fs, e);
    InsertionsAt(t, fs, e.start);
    GroupWithReplacement(t, fs, e);
    SameBehind(t, fs, e, q);
    QuietBetween(t, fs, e.start + 1, q);
    LaidDeletion(t, ActualLayout(t, fs), ActualLayout(t, fs + [e]), e.start, q);
  }

  lemma ResolvedRange(t: Text, p: nat, q: nat, g: Text, rest: Text)
    requires p < q <= |t|
    ensures Resolved(t[..p] + g + t[p..q] + rest, PositionAfter(t[..q])) == p + Covered(t, p, q - p, g)
  {
    assert t[..p] + t[p..q] == t[..q];
    EndIsReached(t[..p], g, t[p..q]);
    ResolvedInPrefix(t[..p] + g + t[p..q], rest, PositionAfter(t[..q]));
    SomethingIsCovered(t, p, q - p, g);
  }

  /** The edit applied to the text before it, from its start to where its end is found. */
  function CutOut(u: Text, p: nat, end: nat, ins: Text): Text
    requires p <= end <= |u|
  {
    u[..p] + ins + u[end..]
  }

  /** `w` is `u` with the stretch up to `end` replaced. */
  ghost predicate CutsTo(u: Text, p: nat, end: nat, ins: Text, w: Text) {
    p <= end <= |u| && w == CutOut(u, p, end, ins)
  }

  lemma CutAndInsert(a: Text, b: Text, n: nat, rest: Text, ins: Text)
    requires n <= |b|
    ensures CutOut(a + (b + rest), |a|, |a| + n, ins) == a + (ins + b[n..] + rest)
  {
    assert (a + (b + rest))[|a| + n..] == b[n..] + rest;
  }

  lemma Parts(a: Text, b: Text, c: Text, d: Text)
    ensures a + (b + c + d) == a + b + c + d
  {
  }

  lemma CutResolved(t: Text, p: nat, q: nat, g: Text, rest: Text, ins: Text)
    requires p < q <= |t|
    ensures
      var u, end := t[..p] + (g + t[p..q] + rest), PositionAfter(t[..q]);
      && p <= Resolved(u, end)
      && t[..p] + (ins + LeftOver(t, p, q - p, g) + rest) == CutOut(u, p, Resolved(u, end), ins)
  {
    Parts(t[..p], g, t[p..q], rest);
    ResolvedRange(t, p, q, g, rest);
    CutAndInsert(t[..p], g + t[p..q], Covered(t, p, q - p, g), rest, ins);
  }

  lemma CutNothing(a: Text, rest: Text, ins: Text)
    ensures CutOut(a + rest, |a|, |a|, ins) == a + (ins + rest)
  {
  }

  /** An insertion's turn, and a replacement's, once it is known what follows its start. */
  lemma InsertionTurn(t: Text, p: nat, u: Text, w: Text, x: Text, y: Text, ins: Text)
    requires p <= |t| && u == t[..p] + x && w == t[..p] + y && y == ins + x
    ensures CutsTo(u, p, p, ins, w)
  {
    CutNothing(t[..p], x, ins);
  }

  lemma ReplacementTurn(t: Text, p: nat, q: nat, u: Text, w: Text, x: Text, y: Text, g: Text, rest: Text, ins: Text)
    requires p < q <= |t| && u == t[..p] + x && w == t[..p] + y
    requires x == g + t[p..q] + rest && y == ins + LeftOver(t, p, q - p, g) + rest
    ensures CutsTo(u, p, Resolved(u, PositionAfter(t[..q])), ins, w)
  {
    CutResolved(t, p, q, g, rest, ins);
  }

  /** The texts before and after one edit more, as seen from its start. */
  ghost predicate Turn(t: Text, fs: seq<Change>, e: Change, p: nat, u: Text, w: Text, x: Text, y: Text) {
    && AllInBounds(t, fs) && AllInBounds(t, fs + [e]) && Follows(fs, e) && p == e.start && p + e.del <= |t|
    && Fits(t, ActualLayout(t, fs)) && Fits(t, ActualLayout(t, fs + [e]))
    && x == Laid(t, ActualLayout(t, fs), p) && y == Laid(t, ActualLayout(t, fs + [e]), p)
    && u == t[..p] + x && w == t[..p] + y
  }

  lemma BehindStart(fs: seq<Change>, e: Change)
    requires Follows(fs, e)
    ensures forall f :: f in fs ==> e.start <= f.start
    ensures forall f :: f in fs + [e] ==> e.start <= f.start
  {
  }

  lemma TurnComes(t: Text, fs: seq<Change>, e: Change, p: nat, u: Text, w: Text) returns (x: Text, y: Text)
    requires AllInBounds(t, fs) && AllInBounds(t, fs + [e]) && Follows(fs, e) && p == e.start && p + e.del <= |t|
    requires u == ByPlace(t, fs) && w == ByPlace(t, fs + [e])
    ensures Turn(t, fs, e, p, u, w, x, y) && Resolved(u, PositionAfter(t[..p])) == p
  {
    LayoutsFit(t, fs);
    LayoutsFit(t, fs + [e]);
    x, y := Laid(t, ActualLayout(t, fs), p), Laid(t, ActualLayout(t, fs + [e]), p);
    BehindStart(fs, e);
    TextBefore(t, fs, p, u, x);
    TextBefore(t, fs + [e], p, w, y);
  }

  lemma TurnOfInsertion(t: Text, fs: seq<Change>, e: Change, p: nat, u: Text, w: Text, x: Text, y: Text)
    requires Turn(t, fs, e, p, u, w, x, y) && e.del == 0
    ensures CutsTo(u, p, p, e.ins, w)
  {
    InsertionStep(t, fs, e);
    InsertionTurn(t, p, u, w, x, y, e.ins);
  }

  /** What follows the start before a replacement and after it. */
  ghost predicate Split(t: Text, p: nat, q: nat, x: Text, y: Text, g: Text, rest: Text, ins: Text) {
    p < q <= |t| && x == g + t[p..q] + rest && y == ins + LeftOver(t, p, q - p, g) + rest
  }

  lemma SplitAtReplacement(t: Text, fs: seq<Change>, e: Change, q: nat, u: Text, w: Text, x: Text, y: Text)
    returns (g: Text, rest: Text)
    requires Turn(t, fs, e, e.start, u, w, x, y) && e.del > 0 && q == e.start + e.del
    ensures Split(t, e.start, q, x, y, g, rest, e.ins)
  {
    g, rest := TextsReversed(Group(fs, e.start)), Laid(t, ActualLayout(t, fs), q);
    ReplacementStep(t, fs, e, q, g, rest);
  }

  /** What there is before an edit's turn and after it */
  ghost predicate BeforeAndAfter(t: Text, fs: seq<Change>, e: Change, u: Text, w: Text) {
    && AllInBounds(t, fs) && AllInBounds(t, fs + [e]) && Follows(fs, e) && InBounds(t, e)
    && u == ByPlace(t, fs) && w == ByPlace(t, fs + [e])
  }

  /** The edit, resolved in the text as it is by then, starts where it did in the original,
      and applying it makes the one text of the other. */
  ghost predicate Applied(t: Text, e: Change, u: Text, w: Text)
    requires InBounds(t, e)
  {
    && Resolved(u, PositionAfter(t[..e.start])) == e.start
    && CutsTo(u, e.start, Resolved(u, PositionAfter(t[..e.start + e.del])), e.ins, w)
  }

  lemma StepOfInsertion(t: Text, fs: seq<Change>, e: Change, u: Text, w: Text)
    requires BeforeAndAfter(t, fs, e, u, w) && e.del == 0
    ensures Applied(t, e, u, w)
  {
    var x, y := TurnComes(t, fs, e, e.start, u, w);
    TurnOfInsertion(t, fs, e, e.start, u, w, x, y);
  }

  /** The texts before a replacement and after it, in parts. */
  ghost predicate InParts(t: Text, e: Change, q: nat, u: Text, w: Text, x: Text, y: Text, g: Text, rest: Text) {
    && q == e.start + e.del && Split(t, e.start, q, x, y, g, rest, e.ins)
    && u == t[..e.start] + x && w == t[..e.start] + y && Resolved(u, PositionAfter(t[..e.start])) == e.start
  }

  lemma ReplacementApplied(t: Text, e: Change, q: nat, u: Text, w: Text, x: Text, y: Text, g: Text, rest: Text)
    requires InBounds(t, e)
    ensures InParts(t, e, q, u, w, x, y, g, rest) ==> Applied(t, e, u, w)
  {
    if InParts(t, e, q, u, w, x, y, g, rest) { ReplacementTurn(t, e.start, q, u, w, x, y, g, rest, e.ins); }
  }

  lemma StepOfReplacement(t: Text, fs: seq<Change>, e: Change, u: Text, w: Text)
    requires BeforeAndAfter(t, fs, e, u, w) && e.del > 0
    ensures Applied(t, e, u, w)
  {
    var q := e.start + e.del;
    var x, y := TurnComes(t, fs, e, e.start, u, w);
    var g, rest := SplitAtReplacement(t, fs, e, q, u, w, x, y);
    ReplacementApplied(t, e, q, u, w, x, y, g, rest);
  }

  /** Applying one edit more to what the others have left leaves what all of them leave. */
  lemma Step(t: Text, fs: seq<Change>, e: Change, u: Text, w: Text)
    requires BeforeAndAfter(t, fs, e, u, w)
    ensures Applied(t, e, u, w)
  {
    if e.del == 0 {
      StepOfInsertion(t, fs, e, u, w);
    } else {
      StepOfReplacement(t, fs, e, u, w);
    }
  }

  // ----- what the standard means, place by place -----

  lemma GroupFirst(fs: seq<Change>, p: nat)
    requires fs != []
    ensures
      var mine := if fs[0].start == p then fs[0].ins else [];
      && Texts(Group(fs, p)) == mine + Texts(Group(fs[1..], p))
      && TextsReversed(Group(fs, p)) == TextsReversed(Group(fs[1..], p)) + mine
  {
    var rest := Group(fs[1..], p);
    if fs[0].start == p {
      assert ([fs[0]] + rest)[1..] == rest;
    } else {
      assert [] + rest == rest;
    }
  }

  lemma {:induction false} InsertedIsTexts(fs: seq<Change>, p: nat)
    ensures InsertedAt(fs, p) == Texts(Group(fs, p))
  {
    if fs != [] {
      GroupFirst(fs, p);
      InsertedIsTexts(fs[1..], p);
    }
  }

  lemma MeantTexts(g: seq<Change>)
    ensures Texts(g) == Texts(Insertions(g)) + Replacement(g)
  {
    if HasReplacement(g) {
      var first, last := g[..|g| - 1], g[|g| - 1];
      assert g == first + [last];
      TextsSnoc(first, last);
    } else {
      assert Texts(g) + [] == Texts(g);
    }
  }

  lemma InsertedIsMeant(fs: seq<Change>, p: nat)
    ensures InsertedAt(fs, p) == MeantAt(fs, p)
  {
    InsertedIsTexts(fs, p);
    MeantTexts(Group(fs, p));
  }

  ghost predicate NotInside(fs: seq<Change>, p: nat) {
    forall f :: f in fs ==> !(f.start < p < f.start + f.del)
  }

  lemma NothingDeleted(fs: seq<Change>, p: nat)
    requires Tidy(fs) && NotInside(fs, p) && Deleted(Group(fs, p)) == 0
    ensures !DeletedAt(fs, p) && NotInside(fs, p + 1)
  {
    forall f | f in fs && f.del > 0 ensures f.start != p { ReplacementIsLast(fs, f); }
    forall k | 0 <= k < |fs| ensures !(fs[k].start <= p < fs[k].start + fs[k].del) { assert fs[k] in fs; }
  }

  /** The edit that deletes from a place keeps all others away from what it deletes. */
  lemma NothingElseInside(fs: seq<Change>, p: nat)
    requires Tidy(fs) && Deleted(Group(fs, p)) > 0
    ensures
      var end := p + Deleted(Group(fs, p));
      && NotInside(fs, end)
      && (forall f :: f in fs ==> f.start <= p || end <= f.start)
      && (forall x :: p <= x < end ==> DeletedAt(fs, x))
  {
    var g := Group(fs, p);
    var e, end := g[|g| - 1], p + Deleted(g);
    GroupMembers(fs, p);
    assert e in g;
    forall f | f in fs ensures !(f.start < end < f.start + f.del) && (f.start <= p || end <= f.start) {
      if f.start == p {
        if f.del > 0 { ReplacementIsLast(fs, f); }
      } else {
        assert Disjoint(f, e);
      }
    }
    var k :| 0 <= k < |fs| && fs[k] == e;
    forall x | p <= x < end ensures DeletedAt(fs, x) {
      assert fs[k].start <= x < fs[k].start + fs[k].del;
    }
  }

  lemma NothingLeftAt(t: Text, fs: seq<Change>, p: nat, q: nat)
    requires p < |t| && DeletedAt(fs, p) && (forall f :: f in fs ==> f.start != p) && q == p + 1
    ensures Simultaneous(t, fs, p) == Simultaneous(t, fs, q)
  {
    NoGroup(fs, p);
    InsertedIsTexts(fs, p);
    assert [] + ([] + Simultaneous(t, fs, q)) == Simultaneous(t, fs, q);
  }

  ghost predicate AllDeleted(fs: seq<Change>, from: nat, end: nat) {
    && (forall f :: f in fs ==> f.start < from || end <= f.start)
    && (forall x :: from <= x < end ==> DeletedAt(fs, x))
  }

  lemma LaterDeleted(t: Text, fs: seq<Change>, from: nat, next: nat, end: nat)
    requires from < end <= |t| && AllDeleted(fs, from, end) && next == from + 1
    ensures AllDeleted(fs, next, end)
    ensures Simultaneous(t, fs, from) == Simultaneous(t, fs, next)
  {
    assert DeletedAt(fs, from);
    NothingLeftAt(t, fs, from, next);
  }

  ghost predicate SameMeaning(t: Text, fs: seq<Change>, p: nat, q: nat)
    requires p <= |t| && q <= |t|
  {
    Simultaneous(t, fs, p) == Simultaneous(t, fs, q)
  }

  lemma {:induction false} DeletedUpTo(t: Text, fs: seq<Change>, from: nat, end: nat)
    requires from <= end <= |t| && AllDeleted(fs, from, end)
    ensures SameMeaning(t, fs, from, end)
    decreases |t| - from
  {
    if from < end {
      var next := from + 1;
      LaterDeleted(t, fs, from, next, end);
      DeletedUpTo(t, fs, next, end);
      assert SameMeaning(t, fs, next, end);
    }
  }

  lemma MeantKept(t: Text, fs: seq<Change>, p: nat, q: nat)
    requires p < |t| && !DeletedAt(fs, p) && q == p + 1
    ensures Simultaneous(t, fs, p) == MeantAt(fs, p) + [t[p]] + Simultaneous(t, fs, q)
  {
    InsertedIsMeant(fs, p);
    FrontOfTwo(MeantAt(fs, p), [t[p]], Simultaneous(t, fs, q));
  }

  lemma MeantGone(t: Text, fs: seq<Change>, p: nat, q: nat)
    requires p < q <= |t| && DeletedAt(fs, p) && AllDeleted(fs, p + 1, q)
    ensures Simultaneous(t, fs, p) == MeantAt(fs, p) + Simultaneous(t, fs, q)
  {
    InsertedIsMeant(fs, p);
    DeletedUpTo(t, fs, p + 1, q);
    FrontOfTwo(MeantAt(fs, p), [], Simultaneous(t, fs, q));
    assert MeantAt(fs, p) + [] == MeantAt(fs, p);
  }

  lemma {:induction false} MeantIsLaid(t: Text, fs: seq<Change>, p: nat)
    requires AllInBounds(t, fs) && Fits(t, MeantLayout(t, fs)) && Tidy(fs) && p <= |t| && NotInside(fs, p)
    ensures Simultaneous(t, fs, p) == Laid(t, MeantLayout(t, fs), p)
    decreases |t| - p
  {
    if p == |t| {
      InsertedIsMeant(fs, p);
      assert MeantAt(fs, p) + [] == MeantAt(fs, p);
    } else {
      MeantIsLaidStep(t, fs, p, if Deleted(Group(fs, p)) == 0 then p + 1 else p + Deleted(Group(fs, p)));
    }
  }

  lemma {:induction false} MeantIsLaidStep(t: Text, fs: seq<Change>, p: nat, q: nat)
    requires AllInBounds(t, fs) && Fits(t, MeantLayout(t, fs)) && Tidy(fs) && p < |t| && NotInside(fs, p)
    requires q == if Deleted(Group(fs, p)) == 0 then p + 1 else p + Deleted(Group(fs, p))
    ensures Simultaneous(t, fs, p) == Laid(t, MeantLayout(t, fs), p)
    decreases |t| - p, 0
  {
    assert MeantLayout(t, fs).gone[p] == Deleted(Group(fs, p));
    if Deleted(Group(fs, p)) == 0 {
      NothingDeleted(fs, p);
      MeantKept(t, fs, p, q);
      LaidKept(t, MeantLayout(t, fs), p, q);
    } else {
      NothingElseInside(fs, p);
      MeantGone(t, fs, p, q);
      LaidGone(t, MeantLayout(t, fs), p, q);
    }
    MeantIsLaid(t, fs, q);
  }

  // ----- when the two agree -----

  lemma LayoutsAreSilentInside(t: Text, fs: seq<Change>)
    requires AllInBounds(t, fs) && Tidy(fs) && Fits(t, ActualLayout(t, fs)) && Fits(t, MeantLayout(t, fs))
    ensures SilentInside(t, ActualLayout(t, fs)) && SilentInside(t, MeantLayout(t, fs))
  {
    forall p, k | 0 <= p <= |t| && p < k < p + Deleted(Group(fs, p))
      ensures k <= |t| && ActualAt(t, fs, k) == [] && MeantAt(fs, k) == []
    {
      DeletedFits(t, fs, p);
      NothingElseInside(fs, p);
      NoGroup(fs, k);
      InsertionsAt(t, fs, k);
    }
  }

  /** How many code points fewer than it should the range at a place covers. */
  function Short(t: Text, fs: seq<Change>, p: nat): int
    requires AllInBounds(t, fs) && p <= |t|
  {
    DeletedFits(t, fs, p);
    var g := Group(fs, p);
    Deleted(g) - Covered(t, p, Deleted(g), TextsReversed(Insertions(g)))
  }

  /** At a place the edits do what they mean: the range of the replacement covers as much as
      it should, and what is left of the inserted texts, put together with the replacement,
      reads as it should. Without a replacement the inserted texts read the same in both
      orders. */
  ghost predicate PlaceMeets(t: Text, fs: seq<Change>, p: nat)
    requires AllInBounds(t, fs) && p <= |t|
  {
    DeletedFits(t, fs, p);
    var g := Group(fs, p);
    var back, d := TextsReversed(Insertions(g)), Deleted(g);
    && Covered(t, p, d, back) == d
    && Replacement(g) + (back + t[p..p + d])[d..] == Texts(Insertions(g)) + Replacement(g)
  }

  lemma SameLengthLeft(r: Text, back: Text, d: Text, n: nat, ins: Text)
    requires n <= |back| + |d| && |back| == |ins|
    ensures |r + (back + d)[n..]| == |ins + r| + |d| - n
  {
    assert |(back + d)[n..]| == |back| + |d| - n;
  }

  lemma ShortMeans(t: Text, fs: seq<Change>, p: nat)
    requires AllInBounds(t, fs) && p <= |t|
    ensures |ActualAt(t, fs, p)| == |MeantAt(fs, p)| + Short(t, fs, p)
  {
    DeletedFits(t, fs, p);
    var g := Group(fs, p);
    var d, back, ins := Deleted(g), TextsReversed(Insertions(g)), Texts(Insertions(g));
    ReversedLength(Insertions(g));
    SameLengthLeft(Replacement(g), back, t[p..p + d], Covered(t, p, d, back), ins);
  }

  lemma PlaceMeetsIff(t: Text, fs: seq<Change>, p: nat)
    requires AllInBounds(t, fs) && p <= |t|
    ensures |ActualAt(t, fs, p)| == |MeantAt(fs, p)| + Short(t, fs, p)
    ensures PlaceMeets(t, fs, p) <==> ActualAt(t, fs, p) == MeantAt(fs, p)
  {
    DeletedFits(t, fs, p);
    ShortMeans(t, fs, p);
  }

  /** Ranges that cover too little at one place and too much at another. */
  ghost predicate Offsetting(t: Text, fs: seq<Change>)
    requires AllInBounds(t, fs)
  {
    exists p, q :: 0 <= p <= |t| && 0 <= q <= |t| && Short(t, fs, p) < 0 < Short(t, fs, q)
  }

  /** The two results agree if every place does what is meant there, and only then, unless too
      little at one place makes up for too much at another. */
  lemma AgreeIff(t: Text, fs: seq<Change>)
    requires AllInBounds(t, fs) && Tidy(fs)
    ensures (forall p :: 0 <= p <= |t| ==> PlaceMeets(t, fs, p)) ==> ByPlace(t, fs) == Simultaneous(t, fs, 0)
    ensures ByPlace(t, fs) == Simultaneous(t, fs, 0) && !Offsetting(t, fs) ==>
      forall p :: 0 <= p <= |t| ==> PlaceMeets(t, fs, p)
  {
    var a, b := ActualLayout(t, fs), MeantLayout(t, fs);
    LayoutsFit(t, fs);
    MeantIsLaid(t, fs, 0);
    LayoutsAreSilentInside(t, fs);
    forall p | 0 <= p <= |t|
      ensures |a.written[p]| == |b.written[p]| + Short(t, fs, p)
      ensures PlaceMeets(t, fs, p) <==> a.written[p] == b.written[p]
    {
      PlaceMeetsIff(t, fs, p);
    }
    assert a.gone == b.gone;
    assert AgreeFrom(a.written, b.written, 0) <==> forall p :: 0 <= p <= |t| ==> PlaceMeets(t, fs, p);
    if !Offsetting(t, fs) || forall p :: 0 <= p <= |t| ==> PlaceMeets(t, fs, p) {
      if forall p :: 0 <= p <= |t| ==> 0 <= Short(t, fs, p) {
        LaidAgreeIff(t, a, b, 0);
      } else {
        LaidAgreeIff(t, b, a, 0);
      }
    }
  }

  // ----- texts that show it -----

  ghost predicate SilentBut(fs: seq<Change>, i: nat) {
    forall k :: 0 <= k < |fs| && k != i ==> fs[k].ins == []
  }

  ghost predicate SilentButTwo(fs: seq<Change>, i: nat, j: nat) {
    forall k :: 0 <= k < |fs| && k != i && k != j ==> fs[k].ins == []
  }

  lemma {:induction false} OneText(fs: seq<Change>, i: nat, p: nat)
    requires SilentBut(fs, i)
    ensures
      var r := if i < |fs| && fs[i].start == p then fs[i].ins else [];
      Texts(Group(fs, p)) == r && TextsReversed(Group(fs, p)) == r
  {
    if fs != [] {
      GroupFirst(fs, p);
      OneText(fs[1..], if i == 0 then |fs| else i - 1, p);
    }
  }

  lemma {:induction false} TwoTexts(fs: seq<Change>, i: nat, j: nat, p: nat)
    requires i < j < |fs| && SilentButTwo(fs, i, j) && fs[i].start == fs[j].start == p
    ensures Texts(Group(fs, p)) == fs[i].ins + fs[j].ins
    ensures TextsReversed(Group(fs, p)) == fs[j].ins + fs[i].ins
  {
    GroupFirst(fs, p);
    if i == 0 {
      OneText(fs[1..], j - 1, p);
    } else {
      TwoTexts(fs[1..], i - 1, j - 1, p);
    }
  }

  /** Without texts, and with none inserted in front of a replacement, places meet. */
  lemma SilentPlaceMeets(t: Text, fs: seq<Change>, p: nat)
    requires AllInBounds(t, fs) && p <= |t| && Texts(Insertions(Group(fs, p))) == []
    ensures Short(t, fs, p) == 0 && PlaceMeets(t, fs, p)
  {
    DeletedFits(t, fs, p);
    var g := Group(fs, p);
    ReversedLength(Insertions(g));
    NothingInTheWay(t, p, Deleted(g));
    assert ([] + t[p..p + Deleted(g)])[Deleted(g)..] == [];
  }

  lemma NoTexts(fs: seq<Change>, p: nat)
    requires Texts(Group(fs, p)) == []
    ensures Texts(Insertions(Group(fs, p))) == []
  {
    InsertedIsTexts(fs, p);
    InsertedIsMeant(fs, p);
  }

  /** If only one place can be wrong nothing makes up for it. */
  lemma WrongAtOnePlace(t: Text, fs: seq<Change>, p: nat)
    requires AllInBounds(t, fs) && Tidy(fs) && p <= |t| && !PlaceMeets(t, fs, p)
    requires forall q :: 0 <= q <= |t| && q != p ==> Texts(Group(fs, q)) == []
    ensures ByPlace(t, fs) != Simultaneous(t, fs, 0)
  {
    forall q | 0 <= q <= |t| && q != p ensures Short(t, fs, q) == 0 {
      NoTexts(fs, q);
      SilentPlaceMeets(t, fs, q);
    }
    AgreeIff(t, fs);
  }

  /** One insertion in front of a replacement is enough to go wrong. */
  lemma InsertionBeforeReplacementFails(t: Text, fs: seq<Change>, i: nat, p: nat)
    requires AllInBounds(t, fs) && Tidy(fs) && i < |fs| && fs[i].start == p && fs[i].del == 0 && SilentBut(fs, i)
    requires HasReplacement(Group(fs, p)) && |fs[i].ins| == 1
    requires 0 < p + Deleted(Group(fs, p)) <= |t| && fs[i].ins[0] != t[p + Deleted(Group(fs, p)) - 1]
    ensures ByPlace(t, fs) != Simultaneous(t, fs, 0)
  {
    OneText(fs, i, p);
    LastIsSilent(fs, i, p);
    MeantTexts(Group(fs, p));
    LostInsertionShows(t, fs, p, fs[i].ins);
    SilentElsewhere(fs, i, p);
    WrongAtOnePlace(t, fs, p);
  }

  lemma SilentElsewhere(fs: seq<Change>, i: nat, p: nat)
    requires i < |fs| && fs[i].start == p && SilentBut(fs, i)
    ensures forall q: nat :: q != p ==> Texts(Group(fs, q)) == []
  {
    forall q: nat | q != p ensures Texts(Group(fs, q)) == [] { OneText(fs, i, q); }
  }

  lemma LostInsertionShows(t: Text, fs: seq<Change>, p: nat, c: Text)
    requires AllInBounds(t, fs) && p <= |t| && HasReplacement(Group(fs, p))
    requires Replacement(Group(fs, p)) == [] && Texts(Insertions(Group(fs, p))) == c && |c| == 1
    requires 0 < p + Deleted(Group(fs, p)) <= |t| && c[0] != t[p + Deleted(Group(fs, p)) - 1]
    ensures !PlaceMeets(t, fs, p)
  {
    var d := Deleted(Group(fs, p));
    ReversedLength(Insertions(Group(fs, p)));
    assert (c + t[p..p + d])[d..] == [t[p + d - 1]];
    assert [] + [t[p + d - 1]] == [t[p + d - 1]] && c + [] == c;
    assert [t[p + d - 1]][0] != c[0];
  }

  lemma LastIsSilent(fs: seq<Change>, i: nat, p: nat)
    requires i < |fs| && fs[i].del == 0 && SilentBut(fs, i) && HasReplacement(Group(fs, p))
    ensures Replacement(Group(fs, p)) == []
  {
    var g := Group(fs, p);
    GroupMembers(fs, p);
    assert g[|g| - 1] in g;
    var k :| 0 <= k < |fs| && fs[k] == g[|g| - 1];
  }

  /** So are two insertions with different texts. */
  lemma TwoInsertionsFail(t: Text, fs: seq<Change>, i: nat, j: nat)
    requires AllInBounds(t, fs) && Tidy(fs) && i < j < |fs| && SilentButTwo(fs, i, j)
    requires fs[i].start == fs[j].start <= |t| && !HasReplacement(Group(fs, fs[i].start))
    requires |fs[i].ins| == |fs[j].ins| == 1 && fs[i].ins != fs[j].ins
    ensures ByPlace(t, fs) != Simultaneous(t, fs, 0)
  {
    var p := fs[i].start;
    TwoTexts(fs, i, j, p);
    assert Texts(Group(fs, p))[0] == fs[i].ins[0] && TextsReversed(Group(fs, p))[0] == fs[j].ins[0];
    OrderShows(t, fs, p);
    forall q | 0 <= q <= |t| && q != p ensures Texts(Group(fs, q)) == [] { NoTextsElsewhere(fs, i, j, q); }
    WrongAtOnePlace(t, fs, p);
  }

  lemma OrderShows(t: Text, fs: seq<Change>, p: nat)
    requires AllInBounds(t, fs) && p <= |t| && !HasReplacement(Group(fs, p))
    requires TextsReversed(Group(fs, p)) != Texts(Group(fs, p))
    ensures !PlaceMeets(t, fs, p)
  {
    var g := Group(fs, p);
    NothingToCover(t, p, TextsReversed(g));
    assert [] + TextsReversed(g) == TextsReversed(g) && Texts(g) + [] == Texts(g);
    PlaceMeetsIff(t, fs, p);
  }

  lemma {:induction false} NoTextsElsewhere(fs: seq<Change>, i: nat, j: nat, q: nat)
    requires SilentButTwo(fs, i, j)
    requires i < |fs| ==> fs[i].start != q
    requires j < |fs| ==> fs[j].start != q
    ensures Texts(Group(fs, q)) == []
  {
    if fs != [] {
      GroupFirst(fs, q);
      NoTextsElsewhere(fs[1..], if i == 0 then |fs| else i - 1, if j == 0 then |fs| else j - 1, q);
    }
  }

  // ----- distinct starts -----

  lemma {:induction false} AtMostOne(fs: seq<Change>, p: nat)
    requires DistinctStarts(fs)
    ensures |Group(fs, p)| <= 1
  {
    if fs != [] {
      AtMostOne(fs[1..], p);
      if fs[0].start == p { NoGroup(fs[1..], p); }
    }
  }

  lemma DistinctStartsMeet(t: Text, fs: seq<Change>, p: nat)
    requires AllInBounds(t, fs) && DistinctStarts(fs) && p <= |t|
    ensures PlaceMeets(t, fs, p)
  {
    AtMostOne(fs, p);
    var g := Group(fs, p);
    if HasReplacement(g) || g == [] {
      SilentPlaceMeets(t, fs, p);
    } else {
      NothingToCover(t, p, TextsReversed(g));
      assert g[1..] == [] && TextsReversed(g) == [] + g[0].ins && Texts(g) == g[0].ins + [];
      assert (TextsReversed(g) + t[p..p])[0..] == TextsReversed(g);
    }
  }
}
