/** Hash values (json-node.c, json-value.c, json-array.c, json-object.c). Objects are hashed in
    the order in which their hash table happens to iterate. */
module JsonHash {
  import opened Wrappers
  import opened JsonTree
  import opened JsonEquality

  const VALUE_HASH: bv32 := 0xc19e75ad
  const ARRAY_HASH: bv32 := 0x865acfc2
  const OBJECT_HASH: bv32 := 0x3c8f3135

  /** json_string_hash, g_int64_hash and g_double_hash */
  datatype Hashes = Hashes(str: string -> bv32, whole: int -> bv32, fraction: real -> bv32)

  /** The numbers of the value types in the enumeration. */
  const INT_TYPE: bv32 := 1
  const DOUBLE_TYPE: bv32 := 2
  const BOOLEAN_TYPE: bv32 := 3
  const STRING_TYPE: bv32 := 4

  /** json_value_hash: the type in the top three bits, the value's hash in the others. */
  function Tagged(tag: bv32, h: bv32): bv32 {
    (tag << 29) | (h & 0x1fff_ffff)
  }

  /** json_node_hash */
  function Hash(hs: Hashes, j: Json): bv32
    decreases j, 1
  {
    match j
    case Null => 0
    case Bool(b) => VALUE_HASH ^ Tagged(BOOLEAN_TYPE, if b then 1 else 0)
    case Str(s) => VALUE_HASH ^ Tagged(STRING_TYPE, hs.str(s))
    case Int(n) => VALUE_HASH ^ Tagged(INT_TYPE, hs.whole(n))
    case Double(d) => VALUE_HASH ^ Tagged(DOUBLE_TYPE, hs.fraction(d))
    case Arr(es) => ARRAY_HASH ^ HashElements(hs, es)
    case Obj(ms) => OBJECT_HASH ^ HashMembers(hs, ms)
  }

  /** A 32-bit index. */
  function Index(i: nat): bv32 {
    (i % 0x1_0000_0000) as bv32
  }

  /** json_array_hash */
  function HashElements(hs: Hashes, es: seq<Json>): bv32
    decreases es, 0
  {
    if es == [] then 0
    else HashElements(hs, es[..|es| - 1]) ^ (Index(|es| - 1) ^ Hash(hs, es[|es| - 1]))
  }

  function HashMember(hs: Hashes, m: Member): bv32
    decreases m, 2
  {
    hs.str(m.name) ^ Hash(hs, m.value)
  }

  /** json_object_hash, for one order of the members */
  function HashMembers(hs: Hashes, ms: seq<Member>): bv32
    decreases ms, 0
  {
    if ms == [] then 0 else HashMember(hs, ms[0]) ^ HashMembers(hs, ms[1..])
  }

  lemma Swap(a: bv32, b: bv32, c: bv32)
    ensures a ^ (b ^ c) == b ^ (a ^ c)
  {
  }

  // ----- the order of the members does not matter -----

  lemma {:induction false} TakeOut(hs: Hashes, ms: seq<Member>, k: nat)
    requires k < |ms|
    ensures HashMembers(hs, ms) == HashMember(hs, ms[k]) ^ HashMembers(hs, ms[..k] + ms[k + 1..])
  {
    var others := ms[..k] + ms[k + 1..];
    if k == 0 {
      assert others == ms[1..];
    } else {
      TakeOut(hs, ms[1..], k - 1);
      assert others[0] == ms[0] && others[1..] == ms[1..][..k - 1] + ms[1..][k..];
      Swap(HashMember(hs, ms[0]), HashMember(hs, ms[k]), HashMembers(hs, others[1..]));
    }
  }

  /** Taking one member out leaves every other name with its member. */
  lemma NamesakeSurvives(ns: seq<Member>, k: nat, name: string)
    requires UniqueNames(ns) && k < |ns| && name != ns[k].name && Has(ns, name)
    ensures
      var others := ns[..k] + ns[k + 1..];
      Has(others, name) && others[Find(others, name)] == ns[Find(ns, name)]
  {
    var others, f := ns[..k] + ns[k + 1..], Find(ns, name);
    var g := if f < k then f else f - 1;
    assert others[g] == ns[f];
    var h := Find(others, name);
    assert h <= g;
    assert others[h] == ns[if h < k then h else h + 1];
  }

  /** Objects whose members hash the same name by name hash the same. */
  ghost predicate Matched(hs: Hashes, ms: seq<Member>, ns: seq<Member>) {
    && |ms| == |ns| && UniqueNames(ms) && UniqueNames(ns) && NamesIn(ms, ns)
    && forall i :: 0 <= i < |ms| ==> HashMember(hs, ms[i]) == HashMember(hs, Namesake(ms, ns, i))
  }

  lemma UniqueWithoutOne(ns: seq<Member>, k: nat)
    requires UniqueNames(ns) && k < |ns|
    ensures UniqueNames(ns[..k] + ns[k + 1..])
  {
    var others := ns[..k] + ns[k + 1..];
    forall i, j | 0 <= i < j < |others| ensures others[i].name != others[j].name {
      assert others[i] == ns[if i < k then i else i + 1] && others[j] == ns[if j < k then j else j + 1];
    }
  }

  lemma FewerNamesakes(ms: seq<Member>, ns: seq<Member>, k: nat)
    requires UniqueNames(ms) && UniqueNames(ns) && NamesIn(ms, ns) && ms != []
    requires k == Find(ns, ms[0].name) < |ns|
    ensures NamesIn(ms[1..], ns[..k] + ns[k + 1..])
    ensures forall i :: 0 <= i < |ms[1..]| ==>
      ms[1..][i] == ms[i + 1] && Namesake(ms[1..], ns[..k] + ns[k + 1..], i) == Namesake(ms, ns, i + 1)
  {
    var later, others := ms[1..], ns[..k] + ns[k + 1..];
    forall i | 0 <= i < |later| ensures Has(others, later[i].name) && others[Find(others, later[i].name)] == Namesake(ms, ns, i + 1) {
      assert later[i] == ms[i + 1] && Has(ns, ms[i + 1].name);
      NamesakeSurvives(ns, k, ms[i + 1].name);
    }
  }

  lemma FewerMatched(hs: Hashes, ms: seq<Member>, ns: seq<Member>)
    requires Matched(hs, ms, ns) && ms != []
    ensures
      var k := Find(ns, ms[0].name);
      k < |ns| && Matched(hs, ms[1..], ns[..k] + ns[k + 1..])
  {
    assert Has(ns, ms[0].name);
    var k := Find(ns, ms[0].name);
    UniqueWithoutOne(ns, k);
    FewerNamesakes(ms, ns, k);
    var later, others := ms[1..], ns[..k] + ns[k + 1..];
    forall i | 0 <= i < |later| ensures HashMember(hs, later[i]) == HashMember(hs, Namesake(later, others, i)) {
      assert HashMember(hs, ms[i + 1]) == HashMember(hs, Namesake(ms, ns, i + 1));
    }
  }

  lemma {:induction false} MatchedHash(hs: Hashes, ms: seq<Member>, ns: seq<Member>)
    requires Matched(hs, ms, ns)
    ensures HashMembers(hs, ms) == HashMembers(hs, ns)
    decreases |ms|
  {
    if ms != [] {
      FewerMatched(hs, ms, ns);
      var k := Find(ns, ms[0].name);
      TakeOut(hs, ns, k);
      MatchedHash(hs, ms[1..], ns[..k] + ns[k + 1..]);
      assert HashMember(hs, ms[0]) == HashMember(hs, Namesake(ms, ns, 0));
    }
  }

  /** The order in which the table iterates does not show in the hash. */
  lemma OrderDoesNotShow(hs: Hashes, ms: seq<Member>, ns: seq<Member>)
    requires UniqueNames(ms) && UniqueNames(ns) && multiset(ms) == multiset(ns)
    ensures HashMembers(hs, ms) == HashMembers(hs, ns)
  {
    assert |ms| == |multiset(ms)| == |ns|;
    forall i | 0 <= i < |ms| ensures Has(ns, ms[i].name) && ns[Find(ns, ms[i].name)] == ms[i] { NamesakeInPermutation(ms, ns, i); }
    MatchedHash(hs, ms, ns);
  }

  // ----- equal trees -----

  /** Numbers at corresponding places, by index and by name, have one type. */
  ghost predicate SameTypes(a: Json, b: Json)
    decreases a
  {
    match a
    case Int(_) => !b.Double?
    case Double(_) => !b.Int?
    case Arr(es) => b.Arr? ==>
      forall i :: 0 <= i < |es| && i < |b.elements| ==> SameTypes(es[i], b.elements[i])
    case Obj(ms) => b.Obj? ==>
      forall i :: 0 <= i < |ms| && Has(b.members, ms[i].name) ==>
        SameTypes(ms[i].value, b.members[Find(b.members, ms[i].name)].value)
    case _ => true
  }

  /** Equal trees hash equally if integers are never held against doubles. */
  lemma {:induction false} EqualTreesHashEqually(hs: Hashes, round: Rounding, a: Json, b: Json)
    requires WellFormed(a) && WellFormed(b) && Equal(round, a, b) && SameTypes(a, b)
    ensures Hash(hs, a) == Hash(hs, b)
    decreases a, 2
  {
    match (a, b)
    case (Arr(es), Arr(fs)) =>
      ElementsEqualAt(round, es, fs);
      assert forall i :: 0 <= i < |es| ==> Pair(round, es[i], fs[i]);
      EqualArraysHashEqually(hs, round, es, fs);
    case (Obj(ms), Obj(ns)) =>
      EqualObjectsMatch(hs, round, ms, ns);
      MatchedHash(hs, ms, ns);
    case _ =>
      EqualScalarsAreSame(round, a, b);
  }

  lemma EqualScalarsAreSame(round: Rounding, a: Json, b: Json)
    requires Equal(round, a, b) && SameTypes(a, b) && !a.Arr? && !a.Obj?
    ensures a == b
  {
  }

  /** Elements that are equal pair by pair, with numbers of one type. */
  ghost predicate Paired(round: Rounding, es: seq<Json>, fs: seq<Json>) {
    |es| == |fs| && forall i :: 0 <= i < |es| ==> Pair(round, es[i], fs[i])
  }

  ghost predicate Pair(round: Rounding, a: Json, b: Json) {
    WellFormed(a) && WellFormed(b) && Equal(round, a, b) && SameTypes(a, b)
  }

  lemma AllButLastPaired(round: Rounding, es: seq<Json>, fs: seq<Json>)
    requires Paired(round, es, fs) && es != []
    ensures Paired(round, es[..|es| - 1], fs[..|es| - 1]) && Pair(round, es[|es| - 1], fs[|es| - 1])
  {
  }

  lemma {:induction false} EqualArraysHashEqually(hs: Hashes, round: Rounding, es: seq<Json>, fs: seq<Json>)
    requires Paired(round, es, fs)
    ensures HashElements(hs, es) == HashElements(hs, fs)
    decreases es, 0
  {
    if es != [] {
      AllButLastPaired(round, es, fs);
      EqualArraysHashEqually(hs, round, es[..|es| - 1], fs[..|es| - 1]);
      EqualTreesHashEqually(hs, round, es[|es| - 1], fs[|es| - 1]);
    }
  }

  lemma {:induction false} EqualObjectsMatch(hs: Hashes, round: Rounding, ms: seq<Member>, ns: seq<Member>)
    requires WellFormed(Obj(ms)) && WellFormed(Obj(ns)) && Equal(round, Obj(ms), Obj(ns)) && SameTypes(Obj(ms), Obj(ns))
    ensures Matched(hs, ms, ns)
    decreases ms, 0
  {
    ValuesEqualAt(round, ms, ns);
    forall i | 0 <= i < |ms| ensures HashMember(hs, ms[i]) == HashMember(hs, Namesake(ms, ns, i)) {
      EqualTreesHashEqually(hs, round, ms[i].value, Namesake(ms, ns, i).value);
    }
  }

  // ----- what the hash depends on -----

  /** All that the hasher is fed: values with their types, elements with their indices, and
      members with their names. */
  function Input(j: Json): Meaning {
    Means(Exact(), j)
  }

  lemma {:induction false} ElementsMeanAt(num: Numbering, es: seq<Json>)
    ensures forall i :: 0 <= i < |es| ==> ElementsMean(num, es)[i] == Means(num, es[i])
  {
    if es != [] {
      ElementsMeanAt(num, es[1..]);
      assert forall i :: 0 < i < |es| ==> es[i] == es[1..][i - 1];
    }
  }

  /** Trees that are equal with numbers of one type are those that feed the hasher the same. */
  lemma {:induction false} SameInputIff(round: Rounding, a: Json, b: Json)
    requires WellFormed(a) && WellFormed(b)
    ensures Input(a) == Input(b) <==> Equal(round, a, b) && SameTypes(a, b)
    decreases a, 1
  {
    match (a, b)
    case (Arr(es), Arr(fs)) => SameArrayInputIff(round, es, fs);
    case (Obj(ms), Obj(ns)) => SameObjectInputIff(round, ms, ns);
    case _ =>
  }

  lemma {:induction false} SameArrayInputIff(round: Rounding, es: seq<Json>, fs: seq<Json>)
    requires WellFormed(Arr(es)) && WellFormed(Arr(fs))
    ensures Input(Arr(es)) == Input(Arr(fs)) <==> Equal(round, Arr(es), Arr(fs)) && SameTypes(Arr(es), Arr(fs))
    decreases es, 0
  {
    ElementsMeanAt(Exact(), es);
    ElementsMeanAt(Exact(), fs);
    if |es| == |fs| {
      ElementsEqualAt(round, es, fs);
      forall i | 0 <= i < |es| ensures Input(es[i]) == Input(fs[i]) <==> Equal(round, es[i], fs[i]) && SameTypes(es[i], fs[i]) {
        SameInputIff(round, es[i], fs[i]);
      }
      var m, n := ElementsMean(Exact(), es), ElementsMean(Exact(), fs);
      assert m == n <==> forall i :: 0 <= i < |es| ==> m[i] == n[i];
    }
  }

  lemma OtherNamesOtherInput(ms: seq<Member>, ns: seq<Member>)
    requires UniqueNames(ms) && UniqueNames(ns) && !(|ms| == |ns| && NamesIn(ms, ns))
    ensures MembersMean(Exact(), ms) != MembersMean(Exact(), ns)
  {
    MembersMeanAt(Exact(), ms);
    MembersMeanAt(Exact(), ns);
    if |ms| == |ns| {
      var i :| 0 <= i < |ms| && !Has(ns, ms[i].name);
      assert ms[i].name in MembersMean(Exact(), ms) && ms[i].name !in MembersMean(Exact(), ns);
    }
  }

  ghost predicate SameTypesByName(ms: seq<Member>, ns: seq<Member>)
    requires NamesIn(ms, ns)
  {
    forall i :: 0 <= i < |ms| ==> SameTypes(ms[i].value, Namesake(ms, ns, i).value)
  }

  lemma ObjectsBySameTypes(ms: seq<Member>, ns: seq<Member>)
    requires NamesIn(ms, ns)
    ensures SameTypes(Obj(ms), Obj(ns)) <==> SameTypesByName(ms, ns)
  {
    forall i | 0 <= i < |ms| ensures Has(ns, ms[i].name) && Namesake(ms, ns, i) == ns[Find(ns, ms[i].name)] {
    }
  }

  lemma {:induction false} SameObjectInputIff(round: Rounding, ms: seq<Member>, ns: seq<Member>)
    requires WellFormed(Obj(ms)) && WellFormed(Obj(ns))
    ensures Input(Obj(ms)) == Input(Obj(ns)) <==> Equal(round, Obj(ms), Obj(ns)) && SameTypes(Obj(ms), Obj(ns))
    decreases ms, 0
  {
    if |ms| == |ns| && NamesIn(ms, ns) {
      forall i | 0 <= i < |ms|
        ensures Means(Exact(), ms[i].value) == Means(Exact(), Namesake(ms, ns, i).value)
           <==> Equal(round, ms[i].value, Namesake(ms, ns, i).value) && SameTypes(ms[i].value, Namesake(ms, ns, i).value)
      {
        SameInputIff(round, ms[i].value, Namesake(ms, ns, i).value);
      }
      assert NamesakesMeanTheSame(Exact(), ms, ns) <==> NamesakesEqual(round, ms, ns) && SameTypesByName(ms, ns);
      SameMapIff(Exact(), ms, ns);
      ValuesEqualAt(round, ms, ns);
      ObjectsBySameTypes(ms, ns);
    } else {
      OtherNamesOtherInput(ms, ns);
    }
  }

  /** Of equal trees just those feed the hasher the same whose corresponding numbers have one
      type; and what feeds it the same hashes the same. */
  lemma EqualTreesFeedTheSameIff(hs: Hashes, round: Rounding, a: Json, b: Json)
    requires WellFormed(a) && WellFormed(b)
    ensures Equal(round, a, b) ==> (Input(a) == Input(b) <==> SameTypes(a, b))
    ensures Input(a) == Input(b) ==> Hash(hs, a) == Hash(hs, b)
  {
    SameInputIff(round, a, b);
    if Input(a) == Input(b) { EqualTreesHashEqually(hs, round, a, b); }
  }

  lemma TypesKeepHashesApart(h1: bv32, h2: bv32)
    ensures VALUE_HASH ^ Tagged(INT_TYPE, h1) != VALUE_HASH ^ Tagged(DOUBLE_TYPE, h2)
  {
  }

  /** An integer and the double it rounds to are equal but never hash equally: of two equal
      numbers the hashes agree exactly when both are of one type. */
  lemma EqualNumbersHashEquallyIff(hs: Hashes, round: Rounding, a: Json, b: Json)
    requires (a.Int? || a.Double?) && (b.Int? || b.Double?) && Equal(round, a, b)
    ensures Hash(hs, a) == Hash(hs, b) <==> (a.Int? <==> b.Int?)
    ensures forall n :: Equal(round, Int(n), Double(round(n)))
  {
    match (a, b)
    case (Int(n), Double(d)) => TypesKeepHashesApart(hs.whole(n), hs.fraction(d));
    case (Double(d), Int(n)) => TypesKeepHashesApart(hs.whole(n), hs.fraction(d));
    case _ =>
  }

  // ----- the loops -----

  lemma MemberHashed(hs: Hashes, h: bv32, m: Member, seen: seq<Member>)
    requires h == HashMembers(hs, seen)
    ensures h ^ HashMember(hs, m) == HashMembers(hs, [m] + seen)
  {
    assert ([m] + seen)[1..] == seen;
  }

  lemma MovedOver(seen: seq<Member>, rest: seq<Member>, k: nat)
    requires k < |rest|
    ensures multiset([rest[k]] + seen) + multiset(rest[..k] + rest[k + 1..]) == multiset(seen) + multiset(rest)
  {
    assert rest == rest[..k] + [rest[k]] + rest[k + 1..];
  }

  lemma SeenInSomeOrder(hs: Hashes, seen: seq<Member>, ms: seq<Member>)
    requires UniqueNames(ms) && multiset(seen) == multiset(ms)
    ensures HashMembers(hs, seen) == HashMembers(hs, ms)
  {
    PermutedNamesAreUnique(ms, seen);
    OrderDoesNotShow(hs, seen, ms);
  }

  lemma PermutedNamesAreUnique(ms: seq<Member>, seen: seq<Member>)
    requires UniqueNames(ms) && multiset(seen) == multiset(ms)
    ensures UniqueNames(seen)
  {
    forall i, j | 0 <= i < j < |seen| ensures seen[i].name != seen[j].name {
      if seen[i].name == seen[j].name {
        assert seen[i] in multiset(ms) && seen[j] in multiset(ms);
        var k :| 0 <= k < |ms| && ms[k] == seen[i];
        var l :| 0 <= l < |ms| && ms[l] == seen[j];
        assert k == l;
        TwoPlaces(seen, i, j);
        OnePlace(ms, k);
      }
    }
  }

  lemma TwoPlaces(s: seq<Member>, i: nat, j: nat)
    requires i < j < |s| && s[i] == s[j]
    ensures multiset(s)[s[i]] >= 2
  {
    assert s == s[..i] + [s[i]] + s[i + 1..j] + [s[j]] + s[j + 1..];
  }

  lemma OnePlace(ms: seq<Member>, k: nat)
    requires UniqueNames(ms) && k < |ms|
    ensures multiset(ms)[ms[k]] == 1
  {
    assert ms == ms[..k] + [ms[k]] + ms[k + 1..];
    assert ms[k] !in ms[..k] && ms[k] !in ms[k + 1..];
  }

  ghost predicate Among(rest: seq<Member>, ms: seq<Member>) {
    forall i :: 0 <= i < |rest| ==> rest[i] in ms
  }

  lemma StillAmong(rest: seq<Member>, ms: seq<Member>, k: nat)
    requires Among(rest, ms) && k < |rest|
    ensures Among(rest[..k] + rest[k + 1..], ms)
  {
  }

  /** The hash of the members seen so far in some order, and what is left. */
  ghost predicate Halfway(hs: Hashes, h: bv32, seen: seq<Member>, rest: seq<Member>, ms: seq<Member>) {
    && Among(rest, ms)
    && multiset(seen) + multiset(rest) == multiset(ms)
    && h == HashMembers(hs, seen)
  }

  lemma OneOfThem(rest: seq<Member>, ms: seq<Member>, k: nat)
    requires Among(rest, ms) && WellFormed(Obj(ms)) && k < |rest|
    ensures rest[k] in ms && WellFormed(rest[k].value)
  {
  }

  lemma NextHashed(hs: Hashes, h: bv32, v: bv32, seen: seq<Member>, rest: seq<Member>, ms: seq<Member>, k: nat)
    requires Halfway(hs, h, seen, rest, ms) && k < |rest| && v == HashMember(hs, rest[k])
    ensures Halfway(hs, h ^ v, [rest[k]] + seen, rest[..k] + rest[k + 1..], ms)
  {
    MemberHashed(hs, h, rest[k], seen);
    StillAmong(rest, ms, k);
    MovedOver(seen, rest, k);
  }

  lemma OneMoreHashed(hs: Hashes, h: bv32, es: seq<Json>, i: nat, e: bv32)
    requires i < |es| && h == HashElements(hs, es[..i]) && e == Hash(hs, es[i])
    ensures h ^ (Index(i) ^ e) == HashElements(hs, es[..i + 1])
  {
    assert es[..i + 1][..i] == es[..i];
  }

  class Hasher {
    const hashes: Hashes

    constructor (hs: Hashes)
      ensures hashes == hs
    {
      hashes := hs;
    }

    method HashNode(j: Json) returns (h: bv32)
      requires WellFormed(j)
      ensures h == Hash(hashes, j)
      decreases j, 1
    {
      match j
      case Null => h := 0;
      case Bool(b) => h := VALUE_HASH ^ Tagged(BOOLEAN_TYPE, if b then 1 else 0);
      case Str(s) => h := VALUE_HASH ^ Tagged(STRING_TYPE, hashes.str(s));
      case Int(n) => h := VALUE_HASH ^ Tagged(INT_TYPE, hashes.whole(n));
      case Double(d) => h := VALUE_HASH ^ Tagged(DOUBLE_TYPE, hashes.fraction(d));
      case Arr(es) =>
        h := HashArray(es);
        h := ARRAY_HASH ^ h;
      case Obj(ms) =>
        h := HashObject(ms);
        h := OBJECT_HASH ^ h;
    }

    /** json_array_hash */
    method HashArray(es: seq<Json>) returns (h: bv32)
      requires WellFormed(Arr(es))
      ensures h == HashElements(hashes, es)
      decreases es, 0
    {
      h := 0;
      for i := 0 to |es|
        invariant h == HashElements(hashes, es[..i])
      {
        var e := HashNode(es[i]);
        OneMoreHashed(hashes, h, es, i, e);
        h := h ^ (Index(i) ^ e);
      }
      assert es[..|es|] == es;
    }

    method HashOneMember(m: Member) returns (h: bv32)
      requires WellFormed(m.value)
      ensures h == HashMember(hashes, m)
      decreases m, 2
    {
      h := HashNode(m.value);
      h := hashes.str(m.name) ^ h;
    }

    method HashNext(h: bv32, ghost seen: seq<Member>, rest: seq<Member>, ghost ms: seq<Member>)
      returns (next: bv32, ghost nowSeen: seq<Member>, left: seq<Member>)
      requires WellFormed(Obj(ms)) && rest != [] && Halfway(hashes, h, seen, rest, ms)
      ensures Halfway(hashes, next, nowSeen, left, ms) && |left| < |rest|
      decreases ms, 0
    {
      var k :| 0 <= k < |rest|;
      OneOfThem(rest, ms, k);
      var v := HashOneMember(rest[k]);
      NextHashed(hashes, h, v, seen, rest, ms, k);
      nowSeen := [rest[k]] + seen;
      left := rest[..k] + rest[k + 1..];
      next := h ^ v;
    }

    /** json_object_hash: the table hands out its members in any order. */
    method HashObject(ms: seq<Member>) returns (h: bv32)
      requires WellFormed(Obj(ms))
      ensures h == HashMembers(hashes, ms)
      decreases ms, 1
    {
      h := 0;
      var rest := ms;
      ghost var seen: seq<Member> := [];
      while rest != []
        invariant Halfway(hashes, h, seen, rest, ms)
        decreases |rest|
      {
        h, seen, rest := HashNext(h, seen, rest, ms);
      }
      SeenInSomeOrder(hashes, seen, ms);
    }
  }
}
