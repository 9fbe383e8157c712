/** A sequence with something written in front of each place and stretches left out, and how
    two such layouts of one sequence compare. */
module Layouts {
  import opened Splice

  /** What is written in front of each place, the end included, and how many elements are
      left out from there on. */
  datatype Layout<T> = Layout(written: seq<seq<T>>, gone: seq<nat>)

  ghost predicate Fits<T>(s: seq<T>, l: Layout<T>) {
    |l.written| == |l.gone| == |s| + 1 && forall p :: 0 <= p <= |s| ==> p + l.gone[p] <= |s|
  }

  /** The whole from a place on. */
  ghost function Laid<T>(s: seq<T>, l: Layout<T>, p: nat): seq<T>
    requires Fits(s, l) && p <= |s|
    decreases |s| - p
  {
    if p == |s| then l.written[p]
    else if l.gone[p] == 0 then l.written[p] + [s[p]] + Laid(s, l, p + 1)
    else l.written[p] + Laid(s, l, p + l.gone[p])
  }

  // ----- one place -----

  lemma LaidKept<T>(s: seq<T>, l: Layout<T>, p: nat, q: nat)
    requires Fits(s, l) && p < |s| && l.gone[p] == 0 && q == p + 1
    ensures Laid(s, l, p) == l.written[p] + [s[p]] + Laid(s, l, q)
  {
  }

  lemma LaidGone<T>(s: seq<T>, l: Layout<T>, p: nat, q: nat)
    requires Fits(s, l) && p < |s| && l.gone[p] > 0 && q == p + l.gone[p]
    ensures Laid(s, l, p) == l.written[p] + Laid(s, l, q)
  {
  }

  // ----- stretches without anything -----

  ghost predicate Quiet<T>(l: Layout<T>, from: nat, to: nat) {
    |l.written| == |l.gone| && forall k :: from <= k < to && k < |l.written| ==> l.written[k] == [] && l.gone[k] == 0
  }

  lemma OneMore<T>(s: seq<T>, from: nat, to: nat, rest: seq<T>)
    requires from < to <= |s|
    ensures [] + [s[from]] + (s[from + 1..to] + rest) == s[from..to] + rest
  {
  }

  lemma {:induction false} LaidQuiet<T>(s: seq<T>, l: Layout<T>, from: nat, to: nat)
    requires Fits(s, l) && from <= to <= |s| && Quiet(l, from, to)
    ensures Laid(s, l, from) == s[from..to] + Laid(s, l, to)
    decreases |s| - from
  {
    if from == to {
      assert s[from..to] == [];
    } else {
      LaidKept(s, l, from, from + 1);
      LaidQuiet(s, l, from + 1, to);
      OneMore(s, from, to, Laid(s, l, to));
    }
  }

  lemma LaidQuietToEnd<T>(s: seq<T>, l: Layout<T>, from: nat, end: nat)
    requires Fits(s, l) && from <= |s| && end == |s| && Quiet(l, from, |s| + 1)
    ensures Laid(s, l, from) == s[from..]
  {
    LaidQuiet(s, l, from, end);
    assert s[from..end] + [] == s[from..];
  }

  // ----- layouts that differ at one place -----

  ghost predicate SameFrom<T>(l: Layout<T>, m: Layout<T>, from: nat) {
    && |l.written| == |m.written| == |l.gone| == |m.gone|
    && forall k :: from <= k < |l.written| ==> l.written[k] == m.written[k] && l.gone[k] == m.gone[k]
  }

  lemma {:induction false} LaidSame<T>(s: seq<T>, l: Layout<T>, m: Layout<T>, from: nat)
    requires Fits(s, l) && Fits(s, m) && from <= |s| && SameFrom(l, m, from)
    ensures Laid(s, l, from) == Laid(s, m, from)
    decreases |s| - from
  {
    if from < |s| { LaidSame(s, l, m, if l.gone[from] == 0 then from + 1 else from + l.gone[from]); }
  }

  lemma FrontOf<T>(a: seq<T>, b: seq<T>, c: seq<T>, d: seq<T>)
    ensures a + b + c + d == a + (b + c + d)
  {
  }

  /** Writing more in front of a place puts it in front of the rest. */
  lemma LaidInsertion<T>(s: seq<T>, l: Layout<T>, m: Layout<T>, p: nat, q: nat, ins: seq<T>)
    requires Fits(s, l) && Fits(s, m) && p <= |s| && q == p + 1 && SameFrom(l, m, q)
    requires l.gone[p] == 0 == m.gone[p] && m.written[p] == ins + l.written[p]
    ensures Laid(s, m, p) == ins + Laid(s, l, p)
  {
    if p < |s| {
      LaidKept(s, l, p, q);
      LaidKept(s, m, p, q);
      LaidSame(s, l, m, q);
      FrontOf(ins, l.written[p], [s[p]], Laid(s, l, q));
    }
  }

  lemma Regroup<T>(g: seq<T>, s: seq<T>, p: nat, q: nat, rest: seq<T>)
    requires p < q <= |s|
    ensures g + [s[p]] + (s[p + 1..q] + rest) == g + s[p..q] + rest
  {
    assert s[p..q] == [s[p]] + s[p + 1..q];
  }

  /** Leaving a stretch out: the text before and after. */
  lemma LaidDeletion<T>(s: seq<T>, l: Layout<T>, m: Layout<T>, p: nat, q: nat)
    requires Fits(s, l) && Fits(s, m) && p < q <= |s| && SameFrom(l, m, q)
    requires l.gone[p] == 0 && Quiet(l, p + 1, q) && p + m.gone[p] == q
    ensures Laid(s, l, p) == l.written[p] + s[p..q] + Laid(s, l, q)
    ensures Laid(s, m, p) == m.written[p] + Laid(s, l, q)
  {
    LaidKept(s, l, p, p + 1);
    LaidQuiet(s, l, p + 1, q);
    Regroup(l.written[p], s, p, q, Laid(s, l, q));
    LaidGone(s, m, p, q);
    LaidSame(s, l, m, q);
  }

  // ----- layouts that leave out the same -----

  lemma PartsAgreeIff<T>(a: seq<T>, b: seq<T>, kept: seq<T>, x: seq<T>, y: seq<T>)
    requires |b| <= |a| && |y| <= |x|
    ensures |b + kept + y| <= |a + kept + x|
    ensures a + kept + x == b + kept + y <==> a == b && x == y
  {
    if a + kept + x == b + kept + y {
      assert |a + kept + x| == |b + kept + y|;
      SameLengthParts(a + kept, x, b + kept, y);
      SameLengthParts(a, kept, b, kept);
    }
  }

  ghost predicate AgreeFrom<T>(a: seq<seq<T>>, b: seq<seq<T>>, p: nat)
    requires |a| == |b|
  {
    forall k :: p <= k < |a| ==> a[k] == b[k]
  }

  /** Nothing is written where something is left out. */
  ghost predicate SilentInside<T>(s: seq<T>, l: Layout<T>)
    requires Fits(s, l)
  {
    forall p, k :: 0 <= p <= |s| && p < k < p + l.gone[p] ==> l.written[k] == []
  }

  lemma LaidStep<T>(s: seq<T>, l: Layout<T>, p: nat, q: nat)
    requires Fits(s, l) && p < |s| && q == if l.gone[p] == 0 then p + 1 else p + l.gone[p]
    ensures Laid(s, l, p) == l.written[p] + (if l.gone[p] == 0 then [s[p]] else []) + Laid(s, l, q)
  {
    assert l.gone[p] > 0 ==> l.written[p] + [] == l.written[p];
  }

  /** The wholes agree just when every place does, if one side never writes less. */
  lemma {:induction false} LaidAgreeIff<T>(s: seq<T>, l: Layout<T>, m: Layout<T>, p: nat)
    requires Fits(s, l) && Fits(s, m) && p <= |s| && l.gone == m.gone && SilentInside(s, l) && SilentInside(s, m)
    requires forall k :: 0 <= k <= |s| ==> |m.written[k]| <= |l.written[k]|
    ensures |Laid(s, m, p)| <= |Laid(s, l, p)|
    ensures Laid(s, l, p) == Laid(s, m, p) <==> AgreeFrom(l.written, m.written, p)
    decreases |s| - p
  {
    if p < |s| {
      var q := if l.gone[p] == 0 then p + 1 else p + l.gone[p];
      var kept := if l.gone[p] == 0 then [s[p]] else [];
      LaidStep(s, l, p, q);
      LaidStep(s, m, p, q);
      LaidAgreeIff(s, l, m, q);
      PartsAgreeIff(l.written[p], m.written[p], kept, Laid(s, l, q), Laid(s, m, q));
      AgreeStep(s, l, m, p, q);
    }
  }

  lemma AgreeStep<T>(s: seq<T>, l: Layout<T>, m: Layout<T>, p: nat, q: nat)
    requires Fits(s, l) && Fits(s, m) && p < |s| && l.gone == m.gone && SilentInside(s, l) && SilentInside(s, m)
    requires q == if l.gone[p] == 0 then p + 1 else p + l.gone[p]
    ensures AgreeFrom(l.written, m.written, p) <==> l.written[p] == m.written[p] && AgreeFrom(l.written, m.written, q)
  {
    forall k | p < k < q ensures l.written[k] == m.written[k] {
      assert 0 <= p < k < p + l.gone[p] && k < p + m.gone[p];
    }
  }
}
