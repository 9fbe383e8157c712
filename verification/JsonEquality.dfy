/** Equality and hashing of JSON trees (json-node.c, json-object.c, json-array.c, json-value.c).
    `round` is the conversion of a 64-bit integer to a double, which may round. */
module JsonEquality {
  import opened Wrappers
  import opened JsonTree

  type Rounding = int -> real

  /** json_type_is_a: an integer is a kind of double. */
  predicate IsA(sub: Json, super: Json) {
    match (sub, super)
    case (Null, Null) => true
    case (Bool(_), Bool(_)) => true
    case (Str(_), Str(_)) => true
    case (Int(_), Int(_)) => true
    case (Double(_), Double(_)) => true
    case (Int(_), Double(_)) => true
    case (Arr(_), Arr(_)) => true
    case (Obj(_), Obj(_)) => true
    case _ => false
  }

  /** The place of a name, or the end. */
  function Find(ms: seq<Member>, name: string): (k: nat)
    ensures k <= |ms| && (k < |ms| ==> ms[k].name == name)
    ensures forall i :: 0 <= i < k ==> ms[i].name != name
  {
    if ms == [] || ms[0].name == name then 0 else 1 + Find(ms[1..], name)
  }

  predicate Has(ms: seq<Member>, name: string) {
    Find(ms, name) < |ms|
  }

  /** json_node_equal, without the shortcut for identical pointers */
  predicate Equal(round: Rounding, a: Json, b: Json)
    decreases a
  {
    if !IsA(a, b) && !IsA(b, a) then false
    else
      match a
      case Null => true
      case Arr(es) => |es| == |b.elements| && ElementsEqual(round, es, b.elements)
      case Obj(ms) => |ms| == |b.members| && NamesIn(ms, b.members) && ValuesEqual(round, ms, b.members)
      case Bool(x) => x == b.b
      case Str(x) => x == b.s
      case Int(m) => if b.Int? then m == b.n else round(m) == b.d
      case Double(d) => if b.Int? then d == round(b.n) else d == b.d
  }

  predicate ElementsEqual(round: Rounding, es: seq<Json>, fs: seq<Json>)
    requires |es| == |fs|
    decreases es
  {
    es == [] || (Equal(round, es[0], fs[0]) && ElementsEqual(round, es[1..], fs[1..]))
  }

  predicate NamesIn(ms: seq<Member>, ns: seq<Member>) {
    forall i :: 0 <= i < |ms| ==> Has(ns, ms[i].name)
  }

  predicate ValuesEqual(round: Rounding, ms: seq<Member>, ns: seq<Member>)
    requires NamesIn(ms, ns)
    decreases ms
  {
    if ms == [] then true
    else
      assert Has(ns, ms[0].name) && forall i :: 0 <= i < |ms[1..]| ==> ms[1..][i] == ms[i + 1];
      Equal(round, ms[0].value, ns[Find(ns, ms[0].name)].value) && ValuesEqual(round, ms[1..], ns)
  }

  // ----- what equality means -----

  /** A number as a value: an integer apart from all doubles, or where it is rounded to. */
  datatype Num = Whole(n: int) | Fraction(d: real)

  /** A tree without the order of its members. */
  datatype Meaning =
    | MNull
    | MBool(b: bool)
    | MStr(s: string)
    | MNum(n: Num)
    | MArr(elements: seq<Meaning>)
    | MObj(members: map<string, Meaning>)

  type Numbering = int -> Num

  function Means(num: Numbering, j: Json): Meaning {
    match j
    case Null => MNull
    case Bool(b) => MBool(b)
    case Str(s) => MStr(s)
    case Int(n) => MNum(num(n))
    case Double(d) => MNum(Fraction(d))
    case Arr(es) => MArr(ElementsMean(num, es))
    case Obj(ms) => MObj(MembersMean(num, ms))
  }

  function ElementsMean(num: Numbering, es: seq<Json>): (r: seq<Meaning>)
    ensures |r| == |es|
  {
    if es == [] then [] else [Means(num, es[0])] + ElementsMean(num, es[1..])
  }

  function MembersMean(num: Numbering, ms: seq<Member>): map<string, Meaning> {
    if ms == [] then map[] else MembersMean(num, ms[1..])[ms[0].name := Means(num, ms[0].value)]
  }

  ghost predicate NoDoubles(j: Json) {
    match j
    case Double(_) => false
    case Arr(es) => forall i :: 0 <= i < |es| ==> NoDoubles(es[i])
    case Obj(ms) => forall i :: 0 <= i < |ms| ==> NoDoubles(ms[i].value)
    case _ => true
  }

  /** The integer is in the tree. */
  ghost predicate Occurs(n: int, j: Json) {
    match j
    case Int(m) => m == n
    case Arr(es) => exists i :: 0 <= i < |es| && Occurs(n, es[i])
    case Obj(ms) => exists i :: 0 <= i < |ms| && Occurs(n, ms[i].value)
    case _ => false
  }

  ghost predicate Injective(num: Numbering, a: Json, b: Json) {
    forall m, n :: (Occurs(m, a) || Occurs(m, b)) && (Occurs(n, a) || Occurs(n, b)) && num(m) == num(n) ==> m == n
  }

  /** Integers meet doubles where rounding takes them. */
  ghost predicate Follows(num: Numbering, round: Rounding, a: Json, b: Json) {
    forall n :: Occurs(n, a) || Occurs(n, b) ==> num(n) == Fraction(round(n))
  }

  /** Numbers of the two trees are told apart just as the comparison does: their integers are,
      and each is where rounding puts it, unless there are no doubles to compare it with. */
  ghost predicate Faithful(num: Numbering, round: Rounding, a: Json, b: Json) {
    Injective(num, a, b) && (Follows(num, round, a, b) || (NoDoubles(a) && NoDoubles(b)))
  }

  /** The integers of one tree are among those of the other, and so are its doubles. */
  ghost predicate Part(part: Json, whole: Json) {
    (forall n :: Occurs(n, part) ==> Occurs(n, whole)) && (NoDoubles(whole) ==> NoDoubles(part))
  }

  lemma FaithfulParts(num: Numbering, round: Rounding, a: Json, b: Json, x: Json, y: Json)
    requires Faithful(num, round, a, b) && Part(x, a) && Part(y, b)
    ensures Faithful(num, round, x, y)
  {
  }

  lemma ElementIsPart(es: seq<Json>, i: nat)
    requires i < |es|
    ensures Part(es[i], Arr(es))
  {
  }

  lemma LaterElementsArePart(es: seq<Json>)
    requires es != []
    ensures Part(Arr(es[1..]), Arr(es))
  {
    forall n | Occurs(n, Arr(es[1..])) ensures Occurs(n, Arr(es)) {
      var i :| 0 <= i < |es[1..]| && Occurs(n, es[1..][i]);
      assert Occurs(n, es[i + 1]);
    }
  }

  lemma MemberIsPart(ms: seq<Member>, i: nat)
    requires i < |ms|
    ensures Part(ms[i].value, Obj(ms))
  {
  }

  lemma LaterMembersArePart(ms: seq<Member>)
    requires ms != []
    ensures Part(Obj(ms[1..]), Obj(ms))
  {
    forall n | Occurs(n, Obj(ms[1..])) ensures Occurs(n, Obj(ms)) {
      var i :| 0 <= i < |ms[1..]| && Occurs(n, ms[1..][i].value);
      assert Occurs(n, ms[i + 1].value);
    }
  }

  lemma {:induction false} MembersMeanAt(num: Numbering, ms: seq<Member>)
    requires UniqueNames(ms)
    ensures forall i :: 0 <= i < |ms| ==> ms[i].name in MembersMean(num, ms) && MembersMean(num, ms)[ms[i].name] == Means(num, ms[i].value)
    ensures forall n :: n in MembersMean(num, ms) ==> Has(ms, n)
    ensures |MembersMean(num, ms)| == |ms|
  {
    if ms != [] {
      MembersMeanAt(num, ms[1..]);
      var rest := MembersMean(num, ms[1..]);
      forall n | n in rest ensures n != ms[0].name {
        assert Has(ms[1..], n);
        assert ms[1..][Find(ms[1..], n)] == ms[Find(ms[1..], n) + 1];
      }
      forall i | 0 <= i < |ms|
        ensures ms[i].name in MembersMean(num, ms) && MembersMean(num, ms)[ms[i].name] == Means(num, ms[i].value)
      {
        if i > 0 { assert ms[i] == ms[1..][i - 1]; }
      }
    }
  }

  /** Two maps of equal size, one within the other, are equal. */
  lemma SameSizeSubmap(a: map<string, Meaning>, b: map<string, Meaning>)
    requires |a| == |b| && forall n :: n in a ==> n in b && a[n] == b[n]
    ensures a == b
  {
    assert a.Keys <= b.Keys;
    if a.Keys != b.Keys {
      var n :| n in b.Keys && n !in a.Keys;
      assert a.Keys <= b.Keys - {n};
      SmallerSubset(a.Keys, b.Keys - {n});
    }
  }

  lemma {:induction false} SmallerSubset(a: set<string>, b: set<string>)
    requires a <= b
    ensures |a| <= |b|
  {
    if a != {} {
      var x :| x in a;
      SmallerSubset(a - {x}, b - {x});
    }
  }

  /** Equality is equality of meanings: members count as a map, whatever their order. It holds
      of all trees without doubles, and of all trees whose integers rounding keeps apart. */
  lemma {:induction false} EqualIff(num: Numbering, round: Rounding, a: Json, b: Json)
    requires WellFormed(a) && WellFormed(b) && Faithful(num, round, a, b)
    ensures Equal(round, a, b) <==> Means(num, a) == Means(num, b)
    decreases a, 1
  {
    match (a, b)
    case (Arr(es), Arr(fs)) => ElementsEqualIff(num, round, es, fs);
    case (Obj(ms), Obj(ns)) => MembersEqualIff(num, round, ms, ns);
    case _ => ScalarEqualIff(num, round, a, b);
  }

  lemma ScalarEqualIff(num: Numbering, round: Rounding, a: Json, b: Json)
    requires Faithful(num, round, a, b)
    requires !(a.Arr? && b.Arr?) && !(a.Obj? && b.Obj?)
    ensures Equal(round, a, b) <==> Means(num, a) == Means(num, b)
  {
  }

  lemma {:induction false} ElementsEqualIff(num: Numbering, round: Rounding, es: seq<Json>, fs: seq<Json>)
    requires WellFormed(Arr(es)) && WellFormed(Arr(fs)) && Faithful(num, round, Arr(es), Arr(fs))
    ensures (|es| == |fs| && ElementsEqual(round, es, fs)) <==> ElementsMean(num, es) == ElementsMean(num, fs)
    decreases es, 0
  {
    if |es| == |fs| && es != [] {
      ElementIsPart(es, 0);
      ElementIsPart(fs, 0);
      FaithfulParts(num, round, Arr(es), Arr(fs), es[0], fs[0]);
      LaterElementsArePart(es);
      LaterElementsArePart(fs);
      FaithfulParts(num, round, Arr(es), Arr(fs), Arr(es[1..]), Arr(fs[1..]));
      EqualIff(num, round, es[0], fs[0]);
      ElementsEqualIff(num, round, es[1..], fs[1..]);
      var m, n := ElementsMean(num, es), ElementsMean(num, fs);
      assert m[0] == Means(num, es[0]) && m[1..] == ElementsMean(num, es[1..]);
      assert n[0] == Means(num, fs[0]) && n[1..] == ElementsMean(num, fs[1..]);
      assert m == [m[0]] + m[1..] && n == [n[0]] + n[1..];
    }
  }

  lemma {:induction false} MembersEqualIff(num: Numbering, round: Rounding, ms: seq<Member>, ns: seq<Member>)
    requires WellFormed(Obj(ms)) && WellFormed(Obj(ns)) && Faithful(num, round, Obj(ms), Obj(ns))
    ensures Equal(round, Obj(ms), Obj(ns)) <==> MembersMean(num, ms) == MembersMean(num, ns)
    decreases ms, 1
  {
    MembersMeanAt(num, ms);
    MembersMeanAt(num, ns);
    if |ms| == |ns| {
      if NamesIn(ms, ns) {
        ValuesEqualIff(num, round, ms, ns);
        SameMapIff(num, ms, ns);
      } else {
        var i :| 0 <= i < |ms| && !Has(ns, ms[i].name);
        assert ms[i].name in MembersMean(num, ms) && ms[i].name !in MembersMean(num, ns);
      }
    }
  }

  /** Each member means the same as its namesake. */
  ghost predicate NamesakesMeanTheSame(num: Numbering, ms: seq<Member>, ns: seq<Member>)
    requires NamesIn(ms, ns)
  {
    forall i :: 0 <= i < |ms| ==> Means(num, ms[i].value) == Means(num, Namesake(ms, ns, i).value)
  }

  function Namesake(ms: seq<Member>, ns: seq<Member>, i: nat): Member
    requires i < |ms| && NamesIn(ms, ns)
  {
    assert Has(ns, ms[i].name);
    ns[Find(ns, ms[i].name)]
  }

  lemma {:induction false} ValuesEqualIff(num: Numbering, round: Rounding, ms: seq<Member>, ns: seq<Member>)
    requires NamesIn(ms, ns) && Faithful(num, round, Obj(ms), Obj(ns))
    requires forall i :: 0 <= i < |ms| ==> WellFormed(ms[i].value)
    requires WellFormed(Obj(ns))
    ensures ValuesEqual(round, ms, ns) <==> NamesakesMeanTheSame(num, ms, ns)
    decreases ms, 0
  {
    if ms != [] {
      var later := ms[1..];
      assert forall i :: 0 <= i < |later| ==> later[i] == ms[i + 1];
      MemberIsPart(ms, 0);
      MemberIsPart(ns, Find(ns, ms[0].name));
      FaithfulParts(num, round, Obj(ms), Obj(ns), ms[0].value, Namesake(ms, ns, 0).value);
      EqualIff(num, round, ms[0].value, Namesake(ms, ns, 0).value);
      LaterMembersArePart(ms);
      FaithfulParts(num, round, Obj(ms), Obj(ns), Obj(later), Obj(ns));
      ValuesEqualIff(num, round, later, ns);
      FirstAndLaterNamesakes(num, ms, ns);
    }
  }

  lemma FirstAndLaterNamesakes(num: Numbering, ms: seq<Member>, ns: seq<Member>)
    requires ms != [] && NamesIn(ms, ns) && NamesIn(ms[1..], ns)
    ensures NamesakesMeanTheSame(num, ms, ns)
       <==> Means(num, ms[0].value) == Means(num, Namesake(ms, ns, 0).value) && NamesakesMeanTheSame(num, ms[1..], ns)
  {
    var later := ms[1..];
    forall i | 0 <= i < |later| ensures later[i] == ms[i + 1] && Namesake(later, ns, i) == Namesake(ms, ns, i + 1) {
    }
    if NamesakesMeanTheSame(num, later, ns) && Means(num, ms[0].value) == Means(num, Namesake(ms, ns, 0).value) {
      forall i | 0 <= i < |ms| ensures Means(num, ms[i].value) == Means(num, Namesake(ms, ns, i).value) {
        if i > 0 { assert later[i - 1] == ms[i]; }
      }
    }
  }

  lemma SameMapIff(num: Numbering, ms: seq<Member>, ns: seq<Member>)
    requires UniqueNames(ms) && UniqueNames(ns) && |ms| == |ns| && NamesIn(ms, ns)
    ensures NamesakesMeanTheSame(num, ms, ns) <==> MembersMean(num, ms) == MembersMean(num, ns)
  {
    MembersMeanAt(num, ms);
    MembersMeanAt(num, ns);
    if NamesakesMeanTheSame(num, ms, ns) {
      forall n | n in MembersMean(num, ms) ensures n in MembersMean(num, ns) && MembersMean(num, ms)[n] == MembersMean(num, ns)[n] {
        assert Has(ms, n);
        var k := Find(ms, n);
        assert Means(num, ms[k].value) == Means(num, Namesake(ms, ns, k).value);
      }
      SameSizeSubmap(MembersMean(num, ms), MembersMean(num, ns));
    }
  }

  // ----- consequences -----

  function Exact(): Numbering { n => Whole(n) }

  function Rounded(round: Rounding): Numbering { n => Fraction(round(n)) }

  /** On trees without doubles equality is reflexive, symmetric and transitive. */
  lemma EquivalenceWithoutDoubles(round: Rounding, a: Json, b: Json, c: Json)
    requires WellFormed(a) && WellFormed(b) && WellFormed(c)
    requires NoDoubles(a) && NoDoubles(b) && NoDoubles(c)
    ensures Equal(round, a, a)
    ensures Equal(round, a, b) ==> Equal(round, b, a)
    ensures Equal(round, a, b) && Equal(round, b, c) ==> Equal(round, a, c)
  {
    var num := Exact();
    EqualIff(num, round, a, a);
    EqualIff(num, round, a, b);
    EqualIff(num, round, b, a);
    EqualIff(num, round, b, c);
    EqualIff(num, round, a, c);
  }

  // ----- element by element, member by member -----

  lemma {:induction false} ElementsEqualAt(round: Rounding, es: seq<Json>, fs: seq<Json>)
    requires |es| == |fs|
    ensures ElementsEqual(round, es, fs) <==> forall i :: 0 <= i < |es| ==> Equal(round, es[i], fs[i])
  {
    if es != [] {
      ElementsEqualAt(round, es[1..], fs[1..]);
      assert forall i :: 0 < i < |es| ==> es[i] == es[1..][i - 1] && fs[i] == fs[1..][i - 1];
    }
  }

  ghost predicate NamesakesEqual(round: Rounding, ms: seq<Member>, ns: seq<Member>)
    requires NamesIn(ms, ns)
  {
    forall i :: 0 <= i < |ms| ==> Equal(round, ms[i].value, Namesake(ms, ns, i).value)
  }

  lemma {:induction false} ValuesEqualAt(round: Rounding, ms: seq<Member>, ns: seq<Member>)
    requires NamesIn(ms, ns)
    ensures ValuesEqual(round, ms, ns) <==> NamesakesEqual(round, ms, ns)
  {
    if ms != [] {
      var later := ms[1..];
      assert forall i :: 0 <= i < |later| ==> later[i] == ms[i + 1];
      ValuesEqualAt(round, later, ns);
      LaterNamesakesEqual(round, ms, ns);
    }
  }

  lemma LaterNamesakesEqual(round: Rounding, ms: seq<Member>, ns: seq<Member>)
    requires ms != [] && NamesIn(ms, ns) && NamesIn(ms[1..], ns)
    ensures NamesakesEqual(round, ms, ns)
       <==> Equal(round, ms[0].value, Namesake(ms, ns, 0).value) && NamesakesEqual(round, ms[1..], ns)
  {
    var later := ms[1..];
    forall i | 0 <= i < |later| ensures later[i] == ms[i + 1] && Namesake(later, ns, i) == Namesake(ms, ns, i + 1) {
    }
    if NamesakesEqual(round, later, ns) && Equal(round, ms[0].value, Namesake(ms, ns, 0).value) {
      forall i | 0 <= i < |ms| ensures Equal(round, ms[i].value, Namesake(ms, ns, i).value) {
        if i > 0 { assert later[i - 1] == ms[i]; }
      }
    }
  }

  // ----- reflexive and symmetric on all trees -----

  lemma {:induction false} EqualReflexive(round: Rounding, a: Json)
    requires WellFormed(a)
    ensures Equal(round, a, a)
  {
    match a
    case Arr(es) =>
      forall i | 0 <= i < |es| ensures Equal(round, es[i], es[i]) { EqualReflexive(round, es[i]); }
      ElementsEqualAt(round, es, es);
    case Obj(ms) =>
      forall i | 0 <= i < |ms| ensures Has(ms, ms[i].name) && ms[Find(ms, ms[i].name)] == ms[i] {
        assert Find(ms, ms[i].name) <= i;
      }
      forall i | 0 <= i < |ms| ensures Equal(round, ms[i].value, Namesake(ms, ms, i).value) {
        EqualReflexive(round, ms[i].value);
      }
      ValuesEqualAt(round, ms, ms);
    case _ =>
  }

  ghost function Names(ms: seq<Member>): set<string> {
    set i | 0 <= i < |ms| :: ms[i].name
  }

  lemma {:induction false} NamesCount(ms: seq<Member>)
    requires UniqueNames(ms)
    ensures |Names(ms)| == |ms|
  {
    if ms != [] {
      var last := |ms| - 1;
      NamesCount(ms[..last]);
      assert Names(ms) == Names(ms[..last]) + {ms[last].name};
    }
  }

  /** Of two objects of one size whose names are different each, either has the names of the
      other, and a member and its namesake are each other's. */
  lemma NamesBothWays(ms: seq<Member>, ns: seq<Member>)
    requires UniqueNames(ms) && UniqueNames(ns) && |ms| == |ns| && NamesIn(ms, ns)
    ensures NamesIn(ns, ms)
    ensures forall i :: 0 <= i < |ns| ==>
      var k := Find(ms, ns[i].name);
      k < |ms| && ms[k].name == ns[i].name && Namesake(ms, ns, k) == ns[i]
  {
    NamesCount(ms);
    NamesCount(ns);
    forall n | n in Names(ms) ensures n in Names(ns) {
      var i :| 0 <= i < |ms| && ms[i].name == n;
      assert Has(ns, ms[i].name);
    }
    SameSizeSubset(Names(ms), Names(ns));
    forall i | 0 <= i < |ns| ensures Has(ms, ns[i].name) && Namesake(ms, ns, Find(ms, ns[i].name)) == ns[i] {
      assert ns[i].name in Names(ms);
      var k :| 0 <= k < |ms| && ms[k].name == ns[i].name;
      assert Find(ms, ns[i].name) <= k;
      assert Find(ns, ns[i].name) <= i;
    }
  }

  lemma SameSizeSubset(a: set<string>, b: set<string>)
    requires a <= b && |a| == |b|
    ensures a == b
  {
    if n :| n in b && n !in a {
      SmallerSubset(a, b - {n});
    }
  }

  /** Whichever tree is asked, the answer is the same. */
  lemma {:induction false} EqualSymmetric(round: Rounding, a: Json, b: Json)
    requires WellFormed(a) && WellFormed(b) && Equal(round, a, b)
    ensures Equal(round, b, a)
    decreases a
  {
    match (a, b)
    case (Arr(es), Arr(fs)) =>
      ElementsEqualAt(round, es, fs);
      forall i | 0 <= i < |fs| ensures Equal(round, fs[i], es[i]) { EqualSymmetric(round, es[i], fs[i]); }
      ElementsEqualAt(round, fs, es);
    case (Obj(ms), Obj(ns)) =>
      ObjectsSymmetric(round, ms, ns);
    case _ =>
  }

  lemma {:induction false} ObjectsSymmetric(round: Rounding, ms: seq<Member>, ns: seq<Member>)
    requires WellFormed(Obj(ms)) && WellFormed(Obj(ns)) && Equal(round, Obj(ms), Obj(ns))
    ensures Equal(round, Obj(ns), Obj(ms))
    decreases ms
  {
    ValuesEqualAt(round, ms, ns);
    NamesBothWays(ms, ns);
    forall i | 0 <= i < |ns| ensures Equal(round, ns[i].value, Namesake(ns, ms, i).value) {
      var k := Find(ms, ns[i].name);
      assert Equal(round, ms[k].value, Namesake(ms, ns, k).value);
      EqualSymmetric(round, ms[k].value, ns[i].value);
    }
    ValuesEqualAt(round, ns, ms);
  }

  /** Two objects that differ only in the order of their members are equal. */
  lemma OrderIsIgnored(round: Rounding, ms: seq<Member>, ns: seq<Member>)
    requires WellFormed(Obj(ms)) && WellFormed(Obj(ns)) && multiset(ms) == multiset(ns)
    ensures Equal(round, Obj(ms), Obj(ns))
  {
    assert |ms| == |multiset(ms)| == |ns|;
    forall i | 0 <= i < |ms| ensures Has(ns, ms[i].name) { NamesakeInPermutation(ms, ns, i); }
    forall i | 0 <= i < |ms| ensures Equal(round, ms[i].value, Namesake(ms, ns, i).value) {
      NamesakeInPermutation(ms, ns, i);
      EqualReflexive(round, ms[i].value);
    }
    ValuesEqualAt(round, ms, ns);
  }

  lemma NamesakeInPermutation(ms: seq<Member>, ns: seq<Member>, i: nat)
    requires UniqueNames(ns) && multiset(ms) == multiset(ns) && i < |ms|
    ensures Has(ns, ms[i].name) && ns[Find(ns, ms[i].name)] == ms[i]
  {
    assert ms[i] in multiset(ns);
    var k :| 0 <= k < |ns| && ns[k] == ms[i];
    assert Find(ns, ms[i].name) <= k;
  }

  // ----- exactly when it is transitive -----

  /** At no place do different integers of the outer trees meet a double of the middle one. */
  ghost predicate NoBridge(a: Json, b: Json, c: Json)
    decreases a
  {
    match a
    case Int(m) => b.Double? && c.Int? ==> m == c.n
    case Arr(es) => b.Arr? && c.Arr? ==>
      forall i :: 0 <= i < |es| && i < |b.elements| && i < |c.elements| ==> NoBridge(es[i], b.elements[i], c.elements[i])
    case Obj(ms) => b.Obj? && c.Obj? ==>
      forall i :: 0 <= i < |ms| && Has(b.members, ms[i].name) && Has(c.members, ms[i].name) ==>
        NoBridge(ms[i].value, b.members[Find(b.members, ms[i].name)].value, c.members[Find(c.members, ms[i].name)].value)
    case _ => true
  }

  /** Of three trees, the first two and the last two equal, the outer ones are equal exactly
      when no double in the middle stands for different integers. */
  lemma {:induction false} TransitiveIff(round: Rounding, a: Json, b: Json, c: Json)
    requires WellFormed(a) && WellFormed(b) && WellFormed(c)
    requires Equal(round, a, b) && Equal(round, b, c)
    ensures Equal(round, a, c) <==> NoBridge(a, b, c)
    decreases a
  {
    match (a, b, c)
    case (Arr(es), Arr(fs), Arr(gs)) =>
      ElementsEqualAt(round, es, fs);
      ElementsEqualAt(round, fs, gs);
      ElementsEqualAt(round, es, gs);
      forall i | 0 <= i < |es| ensures Equal(round, es[i], gs[i]) <==> NoBridge(es[i], fs[i], gs[i]) {
        TransitiveIff(round, es[i], fs[i], gs[i]);
      }
    case (Obj(ms), Obj(ns), Obj(ls)) =>
      ObjectsTransitiveIff(round, ms, ns, ls);
    case _ =>
  }

  lemma NamesInTransitive(ms: seq<Member>, ns: seq<Member>, ls: seq<Member>)
    requires NamesIn(ms, ns) && NamesIn(ns, ls)
    ensures NamesIn(ms, ls)
    ensures forall i :: 0 <= i < |ms| ==>
      var k := Find(ns, ms[i].name);
      k < |ns| && Namesake(ns, ls, k) == Namesake(ms, ls, i)
  {
    forall i | 0 <= i < |ms| ensures Has(ns, ms[i].name) && Has(ls, ms[i].name) {
      assert Has(ns, ms[i].name);
      assert Has(ls, ns[Find(ns, ms[i].name)].name);
    }
  }

  lemma {:induction false} ObjectsTransitiveIff(round: Rounding, ms: seq<Member>, ns: seq<Member>, ls: seq<Member>)
    requires WellFormed(Obj(ms)) && WellFormed(Obj(ns)) && WellFormed(Obj(ls))
    requires Equal(round, Obj(ms), Obj(ns)) && Equal(round, Obj(ns), Obj(ls))
    ensures Equal(round, Obj(ms), Obj(ls)) <==> NoBridge(Obj(ms), Obj(ns), Obj(ls))
    decreases ms
  {
    NamesInTransitive(ms, ns, ls);
    ValuesEqualAt(round, ms, ns);
    ValuesEqualAt(round, ns, ls);
    ValuesEqualAt(round, ms, ls);
    forall i | 0 <= i < |ms|
      ensures Has(ns, ms[i].name) && Has(ls, ms[i].name)
      ensures Equal(round, ms[i].value, Namesake(ms, ls, i).value)
         <==> NoBridge(ms[i].value, Namesake(ms, ns, i).value, Namesake(ms, ls, i).value)
    {
      var k := Find(ns, ms[i].name);
      assert Equal(round, ms[i].value, Namesake(ms, ns, i).value);
      assert Equal(round, ns[k].value, Namesake(ns, ls, k).value);
      TransitiveIff(round, ms[i].value, ns[k].value, Namesake(ms, ls, i).value);
    }
  }

  ghost predicate Transitive(round: Rounding) {
    forall a, b, c :: WellFormed(a) && WellFormed(b) && WellFormed(c) && Equal(round, a, b) && Equal(round, b, c)
      ==> Equal(round, a, c)
  }

  /** Over all trees equality is transitive just when no two integers round to one double,
      which is not so of 64-bit integers. */
  lemma TransitiveThroughoutIff(round: Rounding)
    ensures Transitive(round) <==> forall m, n :: round(m) == round(n) ==> m == n
  {
    if Transitive(round) {
      forall m, n | round(m) == round(n) ensures m == n {
        var d := Double(round(m));
        assert Equal(round, Int(m), d) && Equal(round, d, Int(n));
        assert Equal(round, Int(m), Int(n));
      }
    }
    if forall m, n :: round(m) == round(n) ==> m == n {
      var num := Rounded(round);
      assert forall m, n :: num(m) == num(n) ==> round(m) == round(n);
      forall a, b, c | WellFormed(a) && WellFormed(b) && WellFormed(c) && Equal(round, a, b) && Equal(round, b, c)
        ensures Equal(round, a, c)
      {
        EqualIff(num, round, a, b);
        EqualIff(num, round, b, c);
        EqualIff(num, round, a, c);
      }
    }
  }

  // ----- the loops -----

  /** json_node_equal */
  method EqualNodes(round: Rounding, a: Json, b: Json) returns (r: bool)
    ensures r == Equal(round, a, b)
    decreases a, 1
  {
    if !IsA(a, b) && !IsA(b, a) {
      return false;
    }
    match a
    case Null => r := true;
    case Arr(es) => r := EqualArrays(round, es, b.elements);
    case Obj(ms) => r := EqualObjects(round, ms, b.members);
    case Bool(x) => r := x == b.b;
    case Str(x) => r := x == b.s;
    case Int(m) => r := if b.Int? then m == b.n else round(m) == b.d;
    case Double(d) => r := if b.Int? then d == round(b.n) else d == b.d;
  }

  /** json_array_equal */
  method EqualArrays(round: Rounding, es: seq<Json>, fs: seq<Json>) returns (r: bool)
    ensures r == Equal(round, Arr(es), Arr(fs))
    decreases es, 0
  {
    if |es| != |fs| {
      return false;
    }
    for i := 0 to |es|
      invariant ElementsEqual(round, es, fs) == ElementsEqual(round, es[i..], fs[i..])
    {
      assert es[i..][1..] == es[i + 1..] && fs[i..][1..] == fs[i + 1..];
      var equal := EqualNodes(round, es[i], fs[i]);
      if !equal {
        return false;
      }
    }
    r := true;
  }

  /** json_object_equal: all names are looked up before any value is compared. */
  method EqualObjects(round: Rounding, ms: seq<Member>, ns: seq<Member>) returns (r: bool)
    ensures r == Equal(round, Obj(ms), Obj(ns))
    decreases ms, 0
  {
    if |ms| != |ns| {
      return false;
    }
    for i := 0 to |ms|
      invariant NamesIn(ms[..i], ns)
    {
      if !Has(ns, ms[i].name) {
        return false;
      }
      assert ms[..i + 1] == ms[..i] + [ms[i]];
    }
    assert ms[..|ms|] == ms;
    for i := 0 to |ms|
      invariant NamesIn(ms[i..], ns)
      invariant ValuesEqual(round, ms, ns) == ValuesEqual(round, ms[i..], ns)
    {
      LaterNamesIn(ms, ns, i);
      var equal := EqualNodes(round, ms[i].value, ns[Find(ns, ms[i].name)].value);
      if !equal {
        return false;
      }
    }
    r := true;
  }

  lemma LaterNamesIn(ms: seq<Member>, ns: seq<Member>, i: nat)
    requires NamesIn(ms, ns) && i < |ms|
    ensures Has(ns, ms[i].name) && NamesIn(ms[i..], ns) && NamesIn(ms[i + 1..], ns)
    ensures ms[i..][0] == ms[i] && ms[i..][1..] == ms[i + 1..]
  {
  }
}
