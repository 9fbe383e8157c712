/** Stable sorting by a comparison function, as g_ptr_array_sort does it: a result of at
    most zero means the first argument may come first. */
module Sorting {

  predicate MayPrecede<T>(cmp: (T, T) -> int, a: T, b: T) {
    cmp(a, b) <= 0
  }

  ghost predicate TotalPreorder<T(!new)>(cmp: (T, T) -> int) {
    && (forall a, b :: MayPrecede(cmp, a, b) || MayPrecede(cmp, b, a))
    && (forall a, b, c :: MayPrecede(cmp, a, b) && MayPrecede(cmp, b, c) ==> MayPrecede(cmp, a, c))
  }

  ghost predicate Sorted<T>(cmp: (T, T) -> int, s: seq<T>) {
    forall i, j :: 0 <= i < j < |s| ==> MayPrecede(cmp, s[i], s[j])
  }

  function Insert<T>(cmp: (T, T) -> int, x: T, s: seq<T>): seq<T> {
    if s == [] || MayPrecede(cmp, x, s[0]) then [x] + s else [s[0]] + Insert(cmp, x, s[1..])
  }

  function Sort<T>(cmp: (T, T) -> int, s: seq<T>): seq<T> {
    if s == [] then [] else Insert(cmp, s[0], Sort(cmp, s[1..]))
  }

  lemma {:induction false} InsertIsPermutation<T>(cmp: (T, T) -> int, x: T, s: seq<T>)
    ensures multiset(Insert(cmp, x, s)) == multiset{x} + multiset(s)
  {
    if s == [] || MayPrecede(cmp, x, s[0]) {
    } else {
      InsertIsPermutation(cmp, x, s[1..]);
      assert s == [s[0]] + s[1..];
    }
  }

  lemma {:induction false} SortIsPermutation<T>(cmp: (T, T) -> int, s: seq<T>)
    ensures multiset(Sort(cmp, s)) == multiset(s)
    ensures |Sort(cmp, s)| == |s|
    ensures forall x :: x in Sort(cmp, s) <==> x in s
  {
    if s == [] {
    } else {
      SortIsPermutation(cmp, s[1..]);
      InsertIsPermutation(cmp, s[0], Sort(cmp, s[1..]));
      assert s == [s[0]] + s[1..];
    }
    var t := Sort(cmp, s);
    assert |t| == |multiset(t)| == |multiset(s)| == |s|;
    forall x ensures x in t <==> x in s { assert x in multiset(t) <==> x in multiset(s); }
  }

  lemma {:induction false} InsertIsSorted<T(!new)>(cmp: (T, T) -> int, x: T, s: seq<T>)
    requires TotalPreorder(cmp) && Sorted(cmp, s)
    ensures Sorted(cmp, Insert(cmp, x, s))
  {
    if s == [] || MayPrecede(cmp, x, s[0]) {
      if s != [] {
        forall j | 0 <= j < |s| ensures MayPrecede(cmp, x, s[j]) {
          assert 0 < j ==> MayPrecede(cmp, s[0], s[j]);
        }
      }
    } else {
      var t := Insert(cmp, x, s[1..]);
      InsertIsSorted(cmp, x, s[1..]);
      InsertIsPermutation(cmp, x, s[1..]);
      forall j | 0 <= j < |t| ensures MayPrecede(cmp, s[0], t[j]) {
        assert t[j] in multiset(t);
        if t[j] != x {
          assert t[j] in multiset(s[1..]);
          assert t[j] in s[1..];
        }
      }
    }
  }

  lemma {:induction false} SortIsSorted<T(!new)>(cmp: (T, T) -> int, s: seq<T>)
    requires TotalPreorder(cmp)
    ensures Sorted(cmp, Sort(cmp, s))
  {
    if s != [] {
      SortIsSorted(cmp, s[1..]);
      InsertIsSorted(cmp, s[0], Sort(cmp, s[1..]));
    }
  }

  // ----- stability -----

  function Filter<T>(p: T -> bool, s: seq<T>): seq<T> {
    if s == [] then [] else (if p(s[0]) then [s[0]] else []) + Filter(p, s[1..])
  }

  lemma FilterCons<T>(p: T -> bool, x: T, s: seq<T>)
    ensures Filter(p, [x] + s) == (if p(x) then [x] else []) + Filter(p, s)
  {
    assert ([x] + s)[1..] == s;
  }

  lemma {:induction false} FilterInsert<T>(cmp: (T, T) -> int, p: T -> bool, x: T, s: seq<T>)
    requires p(x) ==> forall a :: a in s && p(a) ==> MayPrecede(cmp, x, a)
    ensures Filter(p, Insert(cmp, x, s)) == (if p(x) then [x] else []) + Filter(p, s)
  {
    if s == [] || MayPrecede(cmp, x, s[0]) {
      FilterCons(p, x, s);
    } else {
      FilterInsert(cmp, p, x, s[1..]);
      FilterCons(p, s[0], Insert(cmp, x, s[1..]));
      NotBoth(p, x, s[0], Filter(p, s[1..]));
    }
  }

  /** At most one of two elements is taken, so their order does not show. */
  lemma NotBoth<T>(p: T -> bool, x: T, y: T, rest: seq<T>)
    requires !(p(x) && p(y))
    ensures (if p(y) then [y] else []) + ((if p(x) then [x] else []) + rest)
         == (if p(x) then [x] else []) + ((if p(y) then [y] else []) + rest)
  {
  }

  /** Elements that compare equal keep their order. */
  lemma {:induction false} SortIsStable<T>(cmp: (T, T) -> int, p: T -> bool, s: seq<T>)
    requires forall a, b :: a in s && b in s && p(a) && p(b) ==> MayPrecede(cmp, a, b)
    ensures Filter(p, Sort(cmp, s)) == Filter(p, s)
  {
    if s != [] {
      SortIsStable(cmp, p, s[1..]);
      SortIsPermutation(cmp, s[1..]);
      var rest := Sort(cmp, s[1..]);
      forall a | a in rest ensures a in s {
        assert a in multiset(s[1..]);
        assert a in s[1..];
      }
      FilterInsert(cmp, p, s[0], rest);
    }
  }

  // ----- permutations -----

  /** Two places of a sequence have two places in any permutation of it. */
  lemma {:induction false} TwoPlaces<T>(a: seq<T>, b: seq<T>, i: nat, j: nat) returns (k: nat, l: nat)
    requires multiset(a) == multiset(b) && i < j < |a|
    ensures k < |b| && l < |b| && k != l && b[k] == a[i] && b[l] == a[j]
  {
    assert a[i] in multiset(b) && a[j] in multiset(b);
    k :| 0 <= k < |b| && b[k] == a[i];
    if a[i] != a[j] {
      l :| 0 <= l < |b| && b[l] == a[j];
    } else {
      SecondPlace(a, b, i, j, k);
      l :| 0 <= l < |b| && l != k && b[l] == a[j];
    }
  }

  lemma CountedTwice<T>(a: seq<T>, i: nat, j: nat)
    requires i < j < |a| && a[i] == a[j]
    ensures multiset(a)[a[i]] >= 2
  {
    assert a == a[..j] + a[j..];
    assert a[i] in a[..j] && a[j] in a[j..];
  }

  lemma CountedOnce<T>(b: seq<T>, k: nat)
    requires k < |b| && b[k] !in b[..k] && b[k] !in b[k + 1..]
    ensures multiset(b)[b[k]] == 1
  {
    assert b == b[..k] + [b[k]] + b[k + 1..];
  }

  lemma SecondPlace<T>(a: seq<T>, b: seq<T>, i: nat, j: nat, k: nat)
    requires multiset(a) == multiset(b) && i < j < |a| && a[i] == a[j] && k < |b| && b[k] == a[i]
    ensures exists l :: 0 <= l < |b| && l != k && b[l] == a[i]
  {
    CountedTwice(a, i, j);
    if b[k] in b[..k] {
      var l :| 0 <= l < k && b[l] == b[k];
    } else if b[k] in b[k + 1..] {
      var l :| 0 <= l < |b| - k - 1 && b[k + 1..][l] == b[k];
      assert b[k + 1 + l] == b[k];
    } else {
      CountedOnce(b, k);
    }
  }
}
