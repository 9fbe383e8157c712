/** Replacing stretches of a sequence: one after the other from the back, and all at once. */
module Splice {

  /** Replace `del` elements from `start` on by `ins`. */
  datatype Edit<T> = Edit(start: nat, del: nat, ins: seq<T>)

  predicate InBounds<T>(s: seq<T>, e: Edit<T>) {
    e.start + e.del <= |s|
  }

  function Apply<T>(s: seq<T>, e: Edit<T>): seq<T>
    requires InBounds(s, e)
  {
    s[..e.start] + e.ins + s[e.start + e.del..]
  }

  /** From the back: every edit ends at or before the start of the one applied before it. */
  ghost predicate Backwards<T>(es: seq<Edit<T>>) {
    forall i, j :: 0 <= i < j < |es| ==> es[j].start + es[j].del <= es[i].start
  }

  ghost predicate AllInBounds<T>(s: seq<T>, es: seq<Edit<T>>) {
    forall i :: 0 <= i < |es| ==> InBounds(s, es[i])
  }

  lemma RestInBounds<T>(s: seq<T>, es: seq<Edit<T>>)
    requires es != [] && Backwards(es) && AllInBounds(s, es)
    ensures Backwards(es[1..]) && AllInBounds(Apply(s, es[0]), es[1..])
  {
  }

  function ApplyInOrder<T>(s: seq<T>, es: seq<Edit<T>>): seq<T>
    requires Backwards(es) && AllInBounds(s, es)
    decreases |es|
  {
    if es == [] then s
    else RestInBounds(s, es); ApplyInOrder(Apply(s, es[0]), es[1..])
  }

  // ----- all at once -----

  /** The text inserted before original element `i`: in array order. */
  function InsertedAt<T>(es: seq<Edit<T>>, i: nat): seq<T> {
    if es == [] then []
    else (if es[0].start == i then es[0].ins else []) + InsertedAt(es[1..], i)
  }

  predicate DeletedAt<T>(es: seq<Edit<T>>, i: nat) {
    exists k :: 0 <= k < |es| && es[k].start <= i < es[k].start + es[k].del
  }

  /** All edits applied to the original at once: before each original element what is
      inserted there, then the element itself unless some edit deletes it. */
  function Simultaneous<T>(s: seq<T>, es: seq<Edit<T>>, from: nat): seq<T>
    requires from <= |s|
    decreases |s| - from
  {
    InsertedAt(es, from) +
    (if from == |s| then []
     else (if DeletedAt(es, from) then [] else [s[from]]) + Simultaneous(s, es, from + 1))
  }

  /** The same with the insertions at one place in the reverse of array order. */
  function SimultaneousReversed<T>(s: seq<T>, es: seq<Edit<T>>, from: nat): seq<T>
    requires from <= |s|
    decreases |s| - from
  {
    InsertedReversed(es, from) +
    (if from == |s| then []
     else (if DeletedAt(es, from) then [] else [s[from]]) + SimultaneousReversed(s, es, from + 1))
  }

  function InsertedReversed<T>(es: seq<Edit<T>>, i: nat): seq<T> {
    if es == [] then []
    else InsertedReversed(es[1..], i) + (if es[0].start == i then es[0].ins else [])
  }

  lemma {:induction false} NothingInserted<T>(es: seq<Edit<T>>, i: nat)
    requires forall k :: 0 <= k < |es| ==> es[k].start != i
    ensures InsertedAt(es, i) == [] && InsertedReversed(es, i) == []
  {
    if es != [] {
      NothingInserted(es[1..], i);
    }
  }

  /** Past the last edit the original is untouched. */
  lemma {:induction false} UntouchedTail<T>(s: seq<T>, es: seq<Edit<T>>, from: nat)
    requires from <= |s|
    requires forall k :: 0 <= k < |es| ==> es[k].start < from && es[k].start + es[k].del <= from
    ensures SimultaneousReversed(s, es, from) == s[from..]
    decreases |s| - from
  {
    NothingInserted(es, from);
    if from < |s| {
      UntouchedTail(s, es, from + 1);
      assert !DeletedAt(es, from);
    }
  }

  /** Edits that end by `at` insert at `at` and leave everything from there on. */
  lemma {:induction false} TailOfRest<T>(s: seq<T>, es: seq<Edit<T>>, at: nat)
    requires at <= |s|
    requires forall k :: 0 <= k < |es| ==> es[k].start + es[k].del <= at
    ensures SimultaneousReversed(s, es, at) == InsertedReversed(es, at) + s[at..]
  {
    if at < |s| {
      assert !DeletedAt(es, at);
      UntouchedTail(s, es, at + 1);
    }
  }

  lemma NothingLeft<T>(s: seq<T>, es: seq<Edit<T>>, p: nat, q: nat)
    requires p < |s| && DeletedAt(es, p) && (forall k :: 0 <= k < |es| ==> es[k].start != p) && q == p + 1
    ensures SimultaneousReversed(s, es, p) == SimultaneousReversed(s, es, q)
  {
    NothingInserted(es, p);
    assert [] + ([] + SimultaneousReversed(s, es, q)) == SimultaneousReversed(s, es, q);
  }

  /** From inside the last edit's deletion on, where it ends. */
  ghost predicate InsideLast<T>(s: seq<T>, es: seq<Edit<T>>, end: nat, from: nat) {
    && es != [] && es[0].start < from <= end == es[0].start + es[0].del <= |s|
    && forall k :: 0 <= k < |es| ==> es[k].start < from && es[k].start + es[k].del <= end
  }

  lemma StillInside<T>(s: seq<T>, es: seq<Edit<T>>, end: nat, from: nat, next: nat)
    requires InsideLast(s, es, end, from) && from < end && next == from + 1
    ensures InsideLast(s, es, end, next)
    ensures SimultaneousReversed(s, es, from) == SimultaneousReversed(s, es, next)
  {
    assert DeletedAt(es, from);
    NothingLeft(s, es, from, next);
  }

  /** Inside the last edit's deletion nothing of the original is left. */
  lemma {:induction false} DeletedStretch<T>(s: seq<T>, es: seq<Edit<T>>, end: nat, from: nat)
    requires InsideLast(s, es, end, from)
    ensures SimultaneousReversed(s, es, from) == s[end..]
    decreases |s| - from
  {
    if from == end {
      UntouchedTail(s, es, from);
    } else {
      var next := from + 1;
      StillInside(s, es, end, from, next);
      DeletedStretch(s, es, end, next);
    }
  }

  /** At the start of the last edit. */
  lemma {:induction false} AtLastEdit<T>(s: seq<T>, es: seq<Edit<T>>)
    requires es != [] && Backwards(es) && AllInBounds(s, es)
    ensures SimultaneousReversed(s, es, es[0].start)
         == InsertedReversed(es, es[0].start) + s[es[0].start + es[0].del..]
  {
    if es[0].del == 0 {
      TailOfRest(s, es, es[0].start);
    } else {
      assert DeletedAt(es, es[0].start);
      DeletedStretch(s, es, es[0].start + es[0].del, es[0].start + 1);
    }
  }

  lemma DeletedBeforeLast<T>(es: seq<Edit<T>>, from: nat)
    requires es != [] && from < es[0].start
    ensures DeletedAt(es[1..], from) <==> DeletedAt(es, from)
  {
    if DeletedAt(es, from) {
      var k :| 0 <= k < |es| && es[k].start <= from < es[k].start + es[k].del;
      assert es[1..][k - 1] == es[k];
    }
  }

  lemma BehindApplied<T>(s: seq<T>, e: Edit<T>)
    requires InBounds(s, e)
    ensures Apply(s, e)[e.start..] == e.ins + s[e.start + e.del..]
  {
  }

  lemma InOrder<T>(a: seq<T>, b: seq<T>, c: seq<T>)
    ensures a + (b + c) == a + b + c
  {
  }

  /** At its start: what the rest inserts there, what it inserts, and the text behind it. */
  lemma AfterLastEditHere<T>(s: seq<T>, s1: seq<T>, es: seq<Edit<T>>, e: Edit<T>, rest: seq<Edit<T>>)
    requires es != [] && Backwards(es) && AllInBounds(s, es) && e == es[0] && rest == es[1..] && s1 == Apply(s, e)
    ensures SimultaneousReversed(s1, rest, e.start) == SimultaneousReversed(s, es, e.start)
  {
    AtLastEdit(s, es);
    TailOfRest(s1, rest, e.start);
    BehindApplied(s, e);
    InOrder(InsertedReversed(rest, e.start), e.ins, s[e.start + e.del..]);
  }

  lemma NotHere<T>(es: seq<Edit<T>>, i: nat)
    requires es != [] && es[0].start != i
    ensures InsertedReversed(es, i) == InsertedReversed(es[1..], i)
  {
    assert InsertedReversed(es[1..], i) + [] == InsertedReversed(es[1..], i);
  }

  lemma BeforeLastEdit<T>(s: seq<T>, s1: seq<T>, es: seq<Edit<T>>, from: nat)
    requires es != [] && AllInBounds(s, es) && s1 == Apply(s, es[0]) && from < es[0].start
    ensures from < |s1| && s1[from] == s[from]
    ensures InsertedReversed(es, from) == InsertedReversed(es[1..], from)
    ensures DeletedAt(es[1..], from) <==> DeletedAt(es, from)
  {
    DeletedBeforeLast(es, from);
    NotHere(es, from);
  }

  /** The remaining edits see the text up to the last edit unchanged. */
  lemma {:induction false} AfterLastEdit<T>(s: seq<T>, s1: seq<T>, es: seq<Edit<T>>, from: nat)
    requires es != [] && Backwards(es) && AllInBounds(s, es)
    requires s1 == Apply(s, es[0]) && from <= es[0].start
    ensures SimultaneousReversed(s1, es[1..], from) == SimultaneousReversed(s, es, from)
    decreases es[0].start - from
  {
    if from == es[0].start {
      AfterLastEditHere(s, s1, es, es[0], es[1..]);
    } else {
      AfterLastEdit(s, s1, es, from + 1);
      BeforeLastEdit(s, s1, es, from);
    }
  }

  /** Applying edits one after the other from the back, each to the result of the previous
      one, is applying them all at once, with insertions at one place coming out in the
      reverse of the order they were applied in. */
  lemma {:induction false} BackwardsIsSimultaneousReversed<T>(s: seq<T>, es: seq<Edit<T>>)
    requires Backwards(es) && AllInBounds(s, es)
    ensures ApplyInOrder(s, es) == SimultaneousReversed(s, es, 0)
    decreases |es|
  {
    if es == [] {
      NoEdits(s, 0);
    } else {
      RestInBounds(s, es);
      BackwardsIsSimultaneousReversed(Apply(s, es[0]), es[1..]);
      AfterLastEdit(s, Apply(s, es[0]), es, 0);
    }
  }

  lemma {:induction false} NoEdits<T>(s: seq<T>, from: nat)
    requires from <= |s|
    ensures SimultaneousReversed(s, [], from) == s[from..]
    decreases |s| - from
  {
    if from < |s| { NoEdits(s, from + 1); }
  }

  // ----- when the order of the edits does not matter -----

  ghost predicate DistinctStarts<T>(es: seq<Edit<T>>) {
    forall i, j :: 0 <= i < j < |es| ==> es[i].start != es[j].start
  }

  /** With distinct starts at most one edit inserts at a place. */
  lemma {:induction false} InsertedByOne<T>(es: seq<Edit<T>>, k: nat)
    requires DistinctStarts(es) && k < |es|
    ensures InsertedAt(es, es[k].start) == es[k].ins == InsertedReversed(es, es[k].start)
  {
    if k == 0 {
      NothingInserted(es[1..], es[0].start);
    } else {
      InsertedByOne(es[1..], k - 1);
    }
  }

  lemma {:induction false} InsertedUnordered<T>(es: seq<Edit<T>>, fs: seq<Edit<T>>, i: nat)
    requires DistinctStarts(es) && DistinctStarts(fs)
    requires forall e :: e in es <==> e in fs
    ensures InsertedReversed(fs, i) == InsertedAt(es, i)
  {
    if k :| 0 <= k < |es| && es[k].start == i {
      InsertedByOne(es, k);
      assert es[k] in fs;
      var l :| 0 <= l < |fs| && fs[l] == es[k];
      InsertedByOne(fs, l);
    } else {
      NothingInserted(es, i);
      forall l | 0 <= l < |fs| ensures fs[l].start != i { assert fs[l] in es; }
      NothingInserted(fs, i);
    }
  }

  lemma DeletedUnordered<T>(es: seq<Edit<T>>, fs: seq<Edit<T>>, i: nat)
    requires forall e :: e in es ==> e in fs
    ensures DeletedAt(es, i) ==> DeletedAt(fs, i)
  {
    if DeletedAt(es, i) {
      var k :| 0 <= k < |es| && es[k].start <= i < es[k].start + es[k].del;
      assert es[k] in fs;
      var l :| 0 <= l < |fs| && fs[l] == es[k];
    }
  }

  /** The same edits in any array order have the same simultaneous effect. */
  lemma {:induction false} SimultaneousUnordered<T>(s: seq<T>, es: seq<Edit<T>>, fs: seq<Edit<T>>, from: nat)
    requires from <= |s|
    requires DistinctStarts(es) && DistinctStarts(fs)
    requires forall e :: e in es <==> e in fs
    ensures SimultaneousReversed(s, fs, from) == Simultaneous(s, es, from)
    decreases |s| - from
  {
    InsertedUnordered(es, fs, from);
    if from < |s| {
      DeletedUnordered(es, fs, from);
      DeletedUnordered(fs, es, from);
      SimultaneousUnordered(s, es, fs, from + 1);
    }
  }

  /** Sorted from the back and applied one by one, edits with distinct starts have exactly
      the effect of applying the unsorted edits to the original all at once. */
  lemma {:induction false} BackwardsIsSimultaneous<T>(s: seq<T>, es: seq<Edit<T>>, sorted: seq<Edit<T>>)
    requires DistinctStarts(es) && DistinctStarts(sorted)
    requires forall e :: e in es <==> e in sorted
    requires Backwards(sorted) && AllInBounds(s, sorted)
    ensures ApplyInOrder(s, sorted) == Simultaneous(s, es, 0)
  {
    BackwardsIsSimultaneousReversed(s, sorted);
    SimultaneousUnordered(s, es, sorted, 0);
  }

  // ----- insertions at the same place -----

  lemma {:induction false} InsertedLength<T>(es: seq<Edit<T>>, i: nat)
    ensures |InsertedAt(es, i)| == |InsertedReversed(es, i)|
  {
    if es != [] { InsertedLength(es[1..], i); }
  }

  lemma SplitWholes<T>(a: seq<T>, b: seq<T>, x: seq<T>, c: seq<T>, d: seq<T>)
    requires |a| == |b| && |c| == |d|
    ensures |a + (x + c)| == |b + (x + d)|
    ensures a + (x + c) == b + (x + d) <==> a == b && c == d
  {
    SameLengthParts(a, x + c, b, x + d);
    SameLengthParts(x, c, x, d);
  }

  ghost predicate ReversedAlike<T>(s: seq<T>, es: seq<Edit<T>>, from: nat) {
    forall i :: from <= i <= |s| ==> InsertedAt(es, i) == InsertedReversed(es, i)
  }

  lemma ReversedAlikeStep<T>(s: seq<T>, es: seq<Edit<T>>, from: nat)
    requires from <= |s|
    ensures ReversedAlike(s, es, from) <==>
      InsertedAt(es, from) == InsertedReversed(es, from) && (from < |s| ==> ReversedAlike(s, es, from + 1))
  {
  }

  /** Reversing the insertions at every place makes no difference to the whole exactly when
      it makes none at any single place. */
  lemma {:induction false} ReversalHarmlessIff<T>(s: seq<T>, es: seq<Edit<T>>, from: nat)
    requires from <= |s|
    ensures |Simultaneous(s, es, from)| == |SimultaneousReversed(s, es, from)|
    ensures Simultaneous(s, es, from) == SimultaneousReversed(s, es, from) <==> ReversedAlike(s, es, from)
    decreases |s| - from
  {
    var a, b := InsertedAt(es, from), InsertedReversed(es, from);
    InsertedLength(es, from);
    if from < |s| {
      ReversalHarmlessIff(s, es, from + 1);
      var x := if DeletedAt(es, from) then [] else [s[from]];
      SplitWholes(a, b, x, Simultaneous(s, es, from + 1), SimultaneousReversed(s, es, from + 1));
    } else {
      assert a + [] == a && b + [] == b;
    }
    ReversedAlikeStep(s, es, from);
  }

  lemma SameLengthParts<T>(a: seq<T>, b: seq<T>, c: seq<T>, d: seq<T>)
    requires |a| == |c|
    ensures a + b == c + d <==> a == c && b == d
  {
    if a + b == c + d {
      assert a == (a + b)[..|a|] == (c + d)[..|a|] == c;
      assert b == (a + b)[|a|..] == (c + d)[|a|..] == d;
    }
  }

  lemma PairInserted<T>(a: Edit<T>, b: Edit<T>, i: nat)
    ensures
      var x := if a.start == i then a.ins else [];
      var y := if b.start == i then b.ins else [];
      InsertedAt([a, b], i) == x + y && InsertedReversed([a, b], i) == y + x
  {
    var es := [a, b];
    assert es[1..] == [b] && es[1..][1..] == [];
    assert InsertedAt(es[1..], i) == (if b.start == i then b.ins else []) + [];
    assert InsertedReversed(es[1..], i) == [] + (if b.start == i then b.ins else []);
  }
}
