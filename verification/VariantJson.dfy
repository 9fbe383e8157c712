/** Conversion between variants and JSON trees (json-gvariant.c). Reading numbers out of
    strings and checking object paths are GLib's and become parameters. */
module VariantJson {
  import opened Wrappers
  import opened JsonTree
  import opened VariantTypes
  import opened Selections

  /** A value carries the type string of its elements where they may be missing. */
  datatype Value =
    | VBool(b: bool)
    | VInt(kind: IntKind, n: int)
    | VDouble(d: real)
    | VString(str: StringKind, s: string)
    | VArray(elem: string, items: seq<Value>)
    | VMaybe(elem: string, value: Option<Value>)
    | VTuple(items: seq<Value>)
    | VEntry(key: string, entry: Value)

  datatype Library = Library(
    toDouble: int -> real,
    strtoll: string -> Option<int>,
    strtoull: string -> Option<int>,
    strtol: string -> Option<int>,
    strtod: string -> Option<real>,
    isObjectPath: string -> bool,
    isSignature: string -> bool)

  // ----- integers of a width -----

  function Modulus(k: IntKind): nat
    ensures Modulus(k) > 0
  {
    match k
    case Byte => 0x100
    case Int16 => 0x1_0000 case Uint16 => 0x1_0000
    case Int32 => 0x1_0000_0000 case Uint32 => 0x1_0000_0000 case Handle => 0x1_0000_0000
    case Int64 => 0x1_0000_0000_0000_0000 case Uint64 => 0x1_0000_0000_0000_0000
  }

  predicate Signed(k: IntKind) {
    k == Int16 || k == Int32 || k == Int64 || k == Handle
  }

  function Low(k: IntKind): int {
    if Signed(k) then -(Modulus(k) / 2) else 0
  }

  predicate InRange(k: IntKind, n: int) {
    Low(k) <= n < Low(k) + Modulus(k)
  }

  /** The conversion of C: the value in range that differs by a multiple of the modulus. */
  function Wrap(k: IntKind, n: int): (r: int)
    ensures InRange(k, r)
    ensures InRange(k, n) ==> r == n
  {
    (n - Low(k)) % Modulus(k) + Low(k)
  }

  lemma WrapBack(n: int)
    requires InRange(Uint64, n)
    ensures Wrap(Uint64, Wrap(Int64, n)) == n
  {
  }

  // ----- types of values -----

  ghost predicate HasType(lib: Library, v: Value, t: Type)
    decreases v
  {
    match (v, t)
    case (VBool(_), TBool) => true
    case (VInt(k, n), TInt(k2)) => k == k2 && InRange(k, n)
    case (VDouble(_), TDouble) => true
    case (VString(k, s), TString(k2)) =>
      k == k2 && (k == ObjectPath ==> lib.isObjectPath(s)) && (k == Signature ==> lib.isSignature(s))
    case (VArray(e, items), TArray(elem)) =>
      e == TypeString(elem) && forall i :: 0 <= i < |items| ==> HasType(lib, items[i], elem)
    case (VMaybe(e, x), TMaybe(elem)) =>
      e == TypeString(elem) && (x.Some? ==> HasType(lib, x.value, elem))
    case (VTuple(items), TTuple(ts)) =>
      |items| == |ts| && forall i :: 0 <= i < |items| ==> HasType(lib, items[i], ts[i])
    case (VEntry(_, x), TEntry(value)) => HasType(lib, x, value)
    case _ => false
  }

  // ----- to JSON -----

  /** An array of entries is told by its type string. */
  predicate OfEntries(elem: string) {
    elem != [] && elem[0] == '{'
  }

  /** json_gvariant_serialize */
  function Serialize(v: Value): Json {
    match v
    case VBool(b) => Bool(b)
    case VInt(_, n) => Int(Wrap(Int64, n))
    case VDouble(d) => Double(d)
    case VString(_, s) => Str(s)
    case VMaybe(_, None) => Null
    case VMaybe(_, Some(x)) => Serialize(x)
    case VArray(e, items) => if OfEntries(e) then Obj(SerializeEntries(items, [])) else Arr(SerializeItems(items))
    case VTuple(items) => Arr(SerializeItems(items))
    case VEntry(key, x) => Obj([Member(key, Serialize(x))])
  }

  function SerializeItems(items: seq<Value>): (es: seq<Json>)
    ensures |es| == |items|
  {
    if items == [] then [] else [Serialize(items[0])] + SerializeItems(items[1..])
  }

  /** A name that occurs again keeps its place and gets the later value. */
  function SerializeEntries(items: seq<Value>, ms: seq<Member>): seq<Member>
    decreases items
  {
    if items == [] then ms
    else if items[0].VEntry? then SerializeEntries(items[1..], SetMember(ms, items[0].key, Serialize(items[0].entry)))
    else SerializeEntries(items[1..], ms)
  }

  // ----- from JSON, by the type -----

  function ParseInt(lib: Library, k: IntKind, s: string): Option<int> {
    var parsed := match k
      case Uint32 => lib.strtoull(s)
      case Uint64 => lib.strtoull(s)
      case Handle => lib.strtol(s)
      case _ => lib.strtoll(s);
    if parsed.None? then None else Some(Wrap(k, parsed.value))
  }

  function ReadBool(j: Json): Option<Value> {
    match j
    case Bool(b) => Some(VBool(b))
    case Str(s) => if s == "true" then Some(VBool(true)) else if s == "false" then Some(VBool(false)) else None
    case _ => None
  }

  function ReadInt(lib: Library, k: IntKind, j: Json): Option<Value> {
    match j
    case Int(n) => Some(VInt(k, Wrap(k, n)))
    case Str(s) =>
      var n := ParseInt(lib, k, s);
      if n.None? then None else Some(VInt(k, n.value))
    case _ => None
  }

  function ReadDouble(lib: Library, j: Json): Option<Value> {
    match j
    case Double(d) => Some(VDouble(d))
    case Int(n) => Some(VDouble(lib.toDouble(n)))
    case Str(s) =>
      var d := lib.strtod(s);
      if d.None? then None else Some(VDouble(d.value))
    case _ => None
  }

  function ReadString(lib: Library, k: StringKind, j: Json): Option<Value> {
    if !j.Str? || (k == ObjectPath && !lib.isObjectPath(j.s)) || (k == Signature && !lib.isSignature(j.s)) then None
    else Some(VString(k, j.s))
  }

  /** What a tree becomes as a value of a type, if it can. */
  function Typed(lib: Library, j: Json, t: Type): Option<Value>
    decreases t, 1, 0
  {
    match t
    case TBool => ReadBool(j)
    case TInt(k) => ReadInt(lib, k, j)
    case TDouble => ReadDouble(lib, j)
    case TString(k) => ReadString(lib, k, j)
    case TMaybe(e) =>
      if j == Null then Some(VMaybe(TypeString(e), None))
      else
        var x := Typed(lib, j, e);
        if x.None? then None else Some(VMaybe(TypeString(e), x))
    case TArray(e) =>
      if e.TEntry? then
        if !j.Obj? then None
        else
          var xs := TypedMembers(lib, j.members, e.value);
          if xs.None? then None else Some(VArray(TypeString(e), xs.value))
      else if !j.Arr? then None
      else
        var xs := TypedElements(lib, j.elements, e);
        if xs.None? then None else Some(VArray(TypeString(e), xs.value))
    case TTuple(ts) =>
      if !j.Arr? || |j.elements| != |ts| then None
      else
        var xs := TypedComponents(lib, j.elements, ts);
        if xs.None? then None else Some(VTuple(xs.value))
    case TEntry(e) =>
      if !j.Obj? || |j.members| != 1 then None
      else
        var x := Typed(lib, j.members[0].value, e);
        if x.None? then None else Some(VEntry(j.members[0].name, x.value))
  }

  function TypedElements(lib: Library, es: seq<Json>, e: Type): (r: Option<seq<Value>>)
    ensures r.Some? ==> |r.value| == |es|
    decreases e, 2, |es|
  {
    if es == [] then Some([])
    else
      var x, xs := Typed(lib, es[0], e), TypedElements(lib, es[1..], e);
      if x.None? || xs.None? then None else Some([x.value] + xs.value)
  }

  function TypedMembers(lib: Library, ms: seq<Member>, e: Type): (r: Option<seq<Value>>)
    ensures r.Some? ==> |r.value| == |ms|
    decreases e, 2, |ms|
  {
    if ms == [] then Some([])
    else
      var x, xs := Typed(lib, ms[0].value, e), TypedMembers(lib, ms[1..], e);
      if x.None? || xs.None? then None else Some([VEntry(ms[0].name, x.value)] + xs.value)
  }

  function TypedComponents(lib: Library, es: seq<Json>, ts: seq<Type>): (r: Option<seq<Value>>)
    requires |es| == |ts|
    ensures r.Some? ==> |r.value| == |es|
    decreases ts, 0, 0
  {
    if es == [] then Some([])
    else
      var x, xs := Typed(lib, es[0], ts[0]), TypedComponents(lib, es[1..], ts[1..]);
      if x.None? || xs.None? then None else Some([x.value] + xs.value)
  }

  // ----- every conversion has the type asked for -----

  lemma {:induction false} TypedHasType(lib: Library, j: Json, t: Type)
    ensures Typed(lib, j, t).Some? ==> HasType(lib, Typed(lib, j, t).value, t)
    decreases t, 1, 0
  {
    match t
    case TMaybe(e) => TypedHasType(lib, j, e);
    case TArray(e) =>
      if e.TEntry? {
        if j.Obj? { MembersHaveType(lib, j.members, e.value); }
      } else {
        if j.Arr? { ElementsHaveType(lib, j.elements, e); }
      }
    case TTuple(ts) =>
      if j.Arr? && |j.elements| == |ts| { ComponentsHaveType(lib, j.elements, ts); }
    case TEntry(e) =>
      if j.Obj? && |j.members| == 1 { TypedHasType(lib, j.members[0].value, e); }
    case _ =>
  }

  lemma {:induction false} ElementsHaveType(lib: Library, es: seq<Json>, e: Type)
    ensures
      var r := TypedElements(lib, es, e);
      r.Some? ==> forall i :: 0 <= i < |r.value| ==> HasType(lib, r.value[i], e)
    decreases e, 2, |es|
  {
    if es != [] {
      TypedHasType(lib, es[0], e);
      ElementsHaveType(lib, es[1..], e);
      var r, later := TypedElements(lib, es, e), TypedElements(lib, es[1..], e);
      if r.Some? {
        forall i | 0 <= i < |r.value| ensures HasType(lib, r.value[i], e) {
          assert i == 0 || r.value[i] == later.value[i - 1];
        }
      }
    }
  }

  lemma {:induction false} MembersHaveType(lib: Library, ms: seq<Member>, e: Type)
    ensures
      var r := TypedMembers(lib, ms, e);
      r.Some? ==> forall i :: 0 <= i < |r.value| ==> HasType(lib, r.value[i], TEntry(e))
    decreases e, 2, |ms|
  {
    if ms != [] {
      TypedHasType(lib, ms[0].value, e);
      MembersHaveType(lib, ms[1..], e);
      var r, later := TypedMembers(lib, ms, e), TypedMembers(lib, ms[1..], e);
      if r.Some? {
        forall i | 0 <= i < |r.value| ensures HasType(lib, r.value[i], TEntry(e)) {
          assert i == 0 || r.value[i] == later.value[i - 1];
        }
      }
    }
  }

  lemma {:induction false} ComponentsHaveType(lib: Library, es: seq<Json>, ts: seq<Type>)
    requires |es| == |ts|
    ensures
      var r := TypedComponents(lib, es, ts);
      r.Some? ==> forall i :: 0 <= i < |r.value| ==> HasType(lib, r.value[i], ts[i])
    decreases ts, 0, 0
  {
    if es != [] {
      TypedHasType(lib, es[0], ts[0]);
      ComponentsHaveType(lib, es[1..], ts[1..]);
      var r, later := TypedComponents(lib, es, ts), TypedComponents(lib, es[1..], ts[1..]);
      if r.Some? {
        forall i | 0 <= i < |r.value| ensures HasType(lib, r.value[i], ts[i]) {
          assert i == 0 || (r.value[i] == later.value[i - 1] && ts[i] == ts[1..][i - 1]);
        }
      }
    }
  }

  // ----- which value a tree stands for -----

  /** The number a tree gives for an integer of a kind: an integer gives itself, and a string
      what the library reads in it, without sign for 'u' and 't'. */
  ghost predicate GivesNumber(lib: Library, k: IntKind, j: Json, n: int) {
    || j == Int(n)
    || (j.Str? && (k == Uint32 || k == Uint64) && lib.strtoull(j.s) == Some(n))
    || (j.Str? && k == Handle && lib.strtol(j.s) == Some(n))
    || (j.Str? && k != Uint32 && k != Uint64 && k != Handle && lib.strtoll(j.s) == Some(n))
  }

  /** `r` is `n` cut to the width of the kind. */
  ghost predicate CutTo(k: IntKind, n: int, r: int) {
    InRange(k, r) && (n - r) % Modulus(k) == 0
  }

  /** The tree stands for the value, as one of the type. */
  ghost predicate StandsFor(lib: Library, j: Json, t: Type, v: Value)
    decreases t, 1
  {
    match t
    case TBool =>
      || (v == VBool(true) && (j == Bool(true) || j == Str("true")))
      || (v == VBool(false) && (j == Bool(false) || j == Str("false")))
    case TInt(k) => v.VInt? && v.kind == k && exists n :: GivesNumber(lib, k, j, n) && CutTo(k, n, v.n)
    case TDouble =>
      && v.VDouble?
      && (j == Double(v.d) || (j.Int? && v.d == lib.toDouble(j.n)) || (j.Str? && lib.strtod(j.s) == Some(v.d)))
    case TString(k) =>
      && v.VString? && v.str == k && j == Str(v.s)
      && (k == ObjectPath ==> lib.isObjectPath(v.s)) && (k == Signature ==> lib.isSignature(v.s))
    case TMaybe(e) =>
      && v.VMaybe? && v.elem == TypeString(e) && (v.value.None? <==> j == Null)
      && (v.value.Some? ==> StandsFor(lib, j, e, v.value.value))
    case TArray(e) =>
      && v.VArray? && v.elem == TypeString(e)
      && if e.TEntry? then j.Obj? && MembersStandFor(lib, j.members, e, v.items)
         else j.Arr? && ElementsStandFor(lib, j.elements, e, v.items)
    case TTuple(ts) => v.VTuple? && j.Arr? && ComponentsStandFor(lib, j.elements, ts, v.items)
    case TEntry(_) => j.Obj? && MembersStandFor(lib, j.members, t, [v])
  }

  ghost predicate MembersStandFor(lib: Library, ms: seq<Member>, t: Type, vs: seq<Value>)
    requires t.TEntry?
    decreases t, 0
  {
    && |ms| == |vs|
    && forall i :: 0 <= i < |ms| ==> vs[i].VEntry? && vs[i].key == ms[i].name && StandsFor(lib, ms[i].value, t.value, vs[i].entry)
  }

  ghost predicate ElementsStandFor(lib: Library, es: seq<Json>, t: Type, vs: seq<Value>)
    decreases t, 2
  {
    |es| == |vs| && forall i :: 0 <= i < |es| ==> StandsFor(lib, es[i], t, vs[i])
  }

  ghost predicate ComponentsStandFor(lib: Library, es: seq<Json>, ts: seq<Type>, vs: seq<Value>)
    decreases ts
  {
    |es| == |ts| == |vs| && forall i :: 0 <= i < |es| ==> StandsFor(lib, es[i], ts[i], vs[i])
  }

  lemma WrapIsCut(k: IntKind, n: int, r: int)
    ensures CutTo(k, n, r) <==> r == Wrap(k, n)
  {
    CutOnce(Modulus(k), Low(k), n, r);
  }

  lemma CutOnce(m: int, low: int, n: int, r: int)
    requires m > 0
    ensures low <= r < low + m && (n - r) % m == 0 <==> r == (n - low) % m + low
  {
    var q, rest := (n - low) / m, (n - low) % m;
    assert n - low == m * q + rest;
    if low <= r < low + m && (n - r) % m == 0 {
      var p := (n - r) / m;
      assert n - r == m * p;
      assert m * (p - q) == rest - (r - low);
      SmallMultiple(m, p - q, rest - (r - low));
    }
    if r == rest + low {
      assert n - r == m * q;
      MultipleOf(m, q);
    }
  }

  lemma AtLeastOnce(m: int, x: int)
    requires m > 0
    ensures x >= 1 ==> m * x >= m
    ensures x <= -1 ==> m * x <= -m
  {
    if x >= 1 { assert m * (x - 1) >= 0; }
    if x <= -1 { assert m * (x + 1) <= 0; }
  }

  lemma SmallMultiple(m: int, x: int, d: int)
    requires m * x == d && -m < d < m
    ensures d == 0
  {
    AtLeastOnce(m, x);
  }

  lemma MultipleOf(m: int, q: int)
    requires m > 0
    ensures (m * q) % m == 0
  {
    var r := (m * q) % m;
    var p := (m * q) / m;
    assert m * (q - p) == r;
    SmallMultiple(m, q - p, r);
  }

  lemma IntStandsFor(lib: Library, j: Json, k: IntKind, v: Value)
    ensures ReadInt(lib, k, j) == Some(v) <==> StandsFor(lib, j, Type.TInt(k), v)
  {
    if v.VInt? {
      forall n | GivesNumber(lib, k, j, n) ensures CutTo(k, n, v.n) <==> v.n == Wrap(k, n) {
        WrapIsCut(k, n, v.n);
      }
      if j.Int? {
        assert GivesNumber(lib, k, j, j.n);
      } else if j.Str? {
        var parsed := match k
          case Uint32 => lib.strtoull(j.s)
          case Uint64 => lib.strtoull(j.s)
          case Handle => lib.strtol(j.s)
          case _ => lib.strtoll(j.s);
        assert parsed.Some? ==> GivesNumber(lib, k, j, parsed.value);
      }
    }
  }

  /** The conversion gives a value exactly when the tree stands for it; there is no other. */
  lemma {:induction false} TypedIff(lib: Library, j: Json, t: Type, v: Value)
    ensures Typed(lib, j, t) == Some(v) <==> StandsFor(lib, j, t, v)
    decreases t, 1, 0
  {
    match t
    case TInt(k) => IntStandsFor(lib, j, k, v);
    case TMaybe(e) =>
      if v.VMaybe? && v.value.Some? { TypedIff(lib, j, e, v.value.value); }
      if j != Null && Typed(lib, j, e).Some? { TypedIff(lib, j, e, Typed(lib, j, e).value); }
    case TArray(e) =>
      if e.TEntry? {
        if j.Obj? && v.VArray? { MembersIff(lib, j.members, e, v.items); }
      } else {
        if j.Arr? && v.VArray? { ElementsIff(lib, j.elements, e, v.items); }
      }
    case TTuple(ts) =>
      if j.Arr? && |j.elements| == |ts| && v.VTuple? { ComponentsIff(lib, j.elements, ts, v.items); }
    case TEntry(e) =>
      if j.Obj? && |j.members| == 1 && v.VEntry? { TypedIff(lib, j.members[0].value, e, v.entry); }
    case _ =>
  }

  lemma {:induction false} ElementsIff(lib: Library, es: seq<Json>, e: Type, vs: seq<Value>)
    ensures TypedElements(lib, es, e) == Some(vs) <==> ElementsStandFor(lib, es, e, vs)
    decreases e, 2, |es|
  {
    if es != [] && vs != [] {
      TypedIff(lib, es[0], e, vs[0]);
      ElementsIff(lib, es[1..], e, vs[1..]);
      assert vs == [vs[0]] + vs[1..];
      ElementsFirst(lib, es, e, vs);
    }
  }

  lemma ElementsFirst(lib: Library, es: seq<Json>, e: Type, vs: seq<Value>)
    requires es != [] && vs != []
    ensures ElementsStandFor(lib, es, e, vs) <==> StandsFor(lib, es[0], e, vs[0]) && ElementsStandFor(lib, es[1..], e, vs[1..])
  {
    if StandsFor(lib, es[0], e, vs[0]) && ElementsStandFor(lib, es[1..], e, vs[1..]) {
      forall i | 0 <= i < |es| ensures StandsFor(lib, es[i], e, vs[i]) {
        if i > 0 { assert es[i] == es[1..][i - 1] && vs[i] == vs[1..][i - 1]; }
      }
    }
  }

  lemma {:induction false} MembersIff(lib: Library, ms: seq<Member>, t: Type, vs: seq<Value>)
    requires t.TEntry?
    ensures TypedMembers(lib, ms, t.value) == Some(vs) <==> MembersStandFor(lib, ms, t, vs)
    decreases t, 2, |ms|
  {
    if ms != [] && vs != [] {
      if vs[0].VEntry? { TypedIff(lib, ms[0].value, t.value, vs[0].entry); }
      MembersIff(lib, ms[1..], t, vs[1..]);
      assert vs == [vs[0]] + vs[1..];
      MembersFirst(lib, ms, t, vs);
    }
  }

  lemma MembersFirst(lib: Library, ms: seq<Member>, t: Type, vs: seq<Value>)
    requires t.TEntry? && ms != [] && vs != []
    ensures MembersStandFor(lib, ms, t, vs) <==>
      && vs[0].VEntry? && vs[0].key == ms[0].name && StandsFor(lib, ms[0].value, t.value, vs[0].entry)
      && MembersStandFor(lib, ms[1..], t, vs[1..])
  {
    if vs[0].VEntry? && vs[0].key == ms[0].name && StandsFor(lib, ms[0].value, t.value, vs[0].entry)
       && MembersStandFor(lib, ms[1..], t, vs[1..]) {
      forall i | 0 <= i < |ms|
        ensures vs[i].VEntry? && vs[i].key == ms[i].name && StandsFor(lib, ms[i].value, t.value, vs[i].entry)
      {
        if i > 0 { assert ms[i] == ms[1..][i - 1] && vs[i] == vs[1..][i - 1]; }
      }
    }
  }

  lemma {:induction false} ComponentsIff(lib: Library, es: seq<Json>, ts: seq<Type>, vs: seq<Value>)
    requires |es| == |ts|
    ensures TypedComponents(lib, es, ts) == Some(vs) <==> ComponentsStandFor(lib, es, ts, vs)
    decreases ts, 0, 0
  {
    if es != [] && vs != [] {
      TypedIff(lib, es[0], ts[0], vs[0]);
      ComponentsIff(lib, es[1..], ts[1..], vs[1..]);
      assert vs == [vs[0]] + vs[1..];
      ComponentsFirst(lib, es, ts, vs);
    }
  }

  lemma ComponentsFirst(lib: Library, es: seq<Json>, ts: seq<Type>, vs: seq<Value>)
    requires |es| == |ts| && es != [] && vs != []
    ensures ComponentsStandFor(lib, es, ts, vs) <==>
      StandsFor(lib, es[0], ts[0], vs[0]) && ComponentsStandFor(lib, es[1..], ts[1..], vs[1..])
  {
    if StandsFor(lib, es[0], ts[0], vs[0]) && ComponentsStandFor(lib, es[1..], ts[1..], vs[1..]) {
      forall i | 0 <= i < |es| ensures StandsFor(lib, es[i], ts[i], vs[i]) {
        if i > 0 { assert es[i] == es[1..][i - 1] && ts[i] == ts[1..][i - 1] && vs[i] == vs[1..][i - 1]; }
      }
    }
  }

  // ----- what a value prints as -----

  predicate IsEntryOf(v: Value, key: string) {
    v.VEntry? && v.key == key
  }

  /** The first of the first `n` items with this key. */
  ghost predicate IsFirst(items: seq<Value>, n: nat, i: nat, key: string)
    requires n <= |items|
  {
    i < n && IsEntryOf(items[i], key) && forall l :: 0 <= l < i ==> !IsEntryOf(items[l], key)
  }

  ghost predicate IsLast(items: seq<Value>, n: nat, i: nat, key: string)
    requires n <= |items|
  {
    i < n && IsEntryOf(items[i], key) && forall l :: i < l < n ==> !IsEntryOf(items[l], key)
  }

  ghost predicate MemberPrinted(items: seq<Value>, n: nat, m: Member, first: nat, last: nat)
    requires n <= |items|
    decreases items, 0
  {
    IsFirst(items, n, first, m.name) && IsLast(items, n, last, m.name) && PrintsAs(items[last].entry, m.value)
  }

  /** The first `n` entries of a dictionary print as these members: one for each key, where the
      key occurs first, with what the last entry of the key prints as. */
  ghost predicate EntriesPrinted(items: seq<Value>, n: nat, ms: seq<Member>, firsts: seq<nat>, lasts: seq<nat>)
    requires n <= |items|
    decreases items, 1
  {
    && |firsts| == |lasts| == |ms| && Ascending(firsts)
    && (forall k :: 0 <= k < |ms| ==> MemberPrinted(items, n, ms[k], firsts[k], lasts[k]))
    && forall i :: 0 <= i < n && items[i].VEntry? ==> HasName(ms, items[i].key)
  }

  ghost predicate HasName(ms: seq<Member>, name: string) {
    exists k :: 0 <= k < |ms| && ms[k].name == name
  }

  /** The tree is what the value prints as; integers are cut to 64 bits with sign. */
  ghost predicate PrintsAs(v: Value, j: Json)
    decreases v
  {
    match v
    case VBool(b) => j == Bool(b)
    case VInt(_, n) => j.Int? && CutTo(Int64, n, j.n)
    case VDouble(d) => j == Double(d)
    case VString(_, s) => j == Str(s)
    case VMaybe(_, None) => j == Null
    case VMaybe(_, Some(x)) => PrintsAs(x, j)
    case VArray(e, items) =>
      if OfEntries(e) then j.Obj? && exists firsts, lasts :: EntriesPrinted(items, |items|, j.members, firsts, lasts)
      else j.Arr? && |j.elements| == |items| && forall i :: 0 <= i < |items| ==> PrintsAs(items[i], j.elements[i])
    case VTuple(items) =>
      j.Arr? && |j.elements| == |items| && forall i :: 0 <= i < |items| ==> PrintsAs(items[i], j.elements[i])
    case VEntry(key, x) => j.Obj? && |j.members| == 1 && j.members[0].name == key && PrintsAs(x, j.members[0].value)
  }

  lemma {:induction false} SerializePrints(v: Value)
    ensures PrintsAs(v, Serialize(v))
    decreases v, 1
  {
    match v
    case VInt(_, n) => WrapIsCut(Int64, n, Wrap(Int64, n));
    case VMaybe(_, Some(x)) => SerializePrints(x);
    case VArray(e, items) =>
      if OfEntries(e) {
        assert items[0..] == items;
        var firsts, lasts := EntriesPrint(items, 0, [], [], []);
      } else {
        ItemsPrint(items);
      }
    case VTuple(items) => ItemsPrint(items);
    case VEntry(_, x) => SerializePrints(x);
    case _ =>
  }

  lemma {:induction false} ItemsPrint(items: seq<Value>)
    ensures forall i :: 0 <= i < |items| ==> PrintsAs(items[i], SerializeItems(items)[i])
    decreases items, 0
  {
    if items != [] {
      SerializePrints(items[0]);
      ItemsPrint(items[1..]);
      forall i | 0 <= i < |items| ensures PrintsAs(items[i], SerializeItems(items)[i]) {
        if i > 0 { assert items[i] == items[1..][i - 1] && SerializeItems(items)[i] == SerializeItems(items[1..])[i - 1]; }
      }
    }
  }

  lemma {:induction false} EntriesPrint(items: seq<Value>, n: nat, ms: seq<Member>, firsts: seq<nat>, lasts: seq<nat>)
    returns (firsts': seq<nat>, lasts': seq<nat>)
    requires n <= |items| && EntriesPrinted(items, n, ms, firsts, lasts)
    ensures EntriesPrinted(items, |items|, SerializeEntries(items[n..], ms), firsts', lasts')
    decreases items, 0, |items| - n
  {
    if n == |items| {
      firsts', lasts' := firsts, lasts;
      return;
    }
    assert items[n..][0] == items[n] && items[n..][1..] == items[n + 1..];
    if items[n].VEntry? {
      var key, j := items[n].key, Serialize(items[n].entry);
      SerializePrints(items[n].entry);
      if HasName(ms, key) {
        var k :| 0 <= k < |ms| && ms[k].name == key;
        KnownEntryPrinted(items, n, n + 1, ms, firsts, lasts, k, j);
        FirstsDiffer(items, n, ms, firsts, lasts, k);
        SetKnownMember(ms, key, j, k);
        firsts', lasts' := EntriesPrint(items, n + 1, ms[k := Member(key, j)], firsts, lasts[k := n]);
      } else {
        NewEntryPrinted(items, n, n + 1, ms, firsts, lasts, j);
        SetNewMember(ms, key, j);
        firsts', lasts' := EntriesPrint(items, n + 1, ms + [Member(key, j)], firsts + [n], lasts + [n]);
      }
    } else {
      OtherPrinted(items, n, n + 1, ms, firsts, lasts);
      firsts', lasts' := EntriesPrint(items, n + 1, ms, firsts, lasts);
    }
  }

  lemma {:induction false} SetKnownMember(ms: seq<Member>, name: string, j: Json, k: nat)
    requires k < |ms| && ms[k].name == name && forall l :: 0 <= l < k ==> ms[l].name != name
    ensures SetMember(ms, name, j) == ms[k := Member(name, j)]
  {
    if k > 0 {
      SetKnownMember(ms[1..], name, j, k - 1);
    }
  }

  /** The names before a member are others. */
  lemma FirstsDiffer(items: seq<Value>, n: nat, ms: seq<Member>, firsts: seq<nat>, lasts: seq<nat>, k: nat)
    requires n <= |items| && EntriesPrinted(items, n, ms, firsts, lasts) && k < |ms|
    ensures forall l :: 0 <= l < |ms| && l != k ==> ms[l].name != ms[k].name
  {
    forall l | 0 <= l < |ms| && l != k ensures ms[l].name != ms[k].name {
      assert MemberPrinted(items, n, ms[l], firsts[l], lasts[l]) && MemberPrinted(items, n, ms[k], firsts[k], lasts[k]);
      assert if l < k then firsts[l] < firsts[k] else firsts[k] < firsts[l];
    }
  }

  lemma StillPrinted(items: seq<Value>, n: nat, next: nat, m: Member, first: nat, last: nat)
    requires next == n + 1 && next <= |items| && MemberPrinted(items, n, m, first, last) && !IsEntryOf(items[n], m.name)
    ensures MemberPrinted(items, next, m, first, last)
  {
  }

  lemma OtherPrinted(items: seq<Value>, n: nat, next: nat, ms: seq<Member>, firsts: seq<nat>, lasts: seq<nat>)
    requires next == n + 1 && next <= |items| && EntriesPrinted(items, n, ms, firsts, lasts) && !items[n].VEntry?
    ensures EntriesPrinted(items, next, ms, firsts, lasts)
  {
    forall k | 0 <= k < |ms| ensures MemberPrinted(items, next, ms[k], firsts[k], lasts[k]) {
      StillPrinted(items, n, next, ms[k], firsts[k], lasts[k]);
    }
  }

  lemma NameKept(ms: seq<Member>, more: seq<Member>, name: string)
    requires |ms| <= |more| && forall k :: 0 <= k < |ms| ==> more[k].name == ms[k].name
    ensures HasName(ms, name) ==> HasName(more, name)
  {
    if HasName(ms, name) {
      var k :| 0 <= k < |ms| && ms[k].name == name;
      assert more[k].name == name;
    }
  }

  lemma KnownEntryPrinted(items: seq<Value>, n: nat, next: nat, ms: seq<Member>, firsts: seq<nat>, lasts: seq<nat>, k: nat, j: Json)
    requires next == n + 1 && next <= |items| && EntriesPrinted(items, n, ms, firsts, lasts) && k < |ms|
    requires IsEntryOf(items[n], ms[k].name) && PrintsAs(items[n].entry, j)
    ensures EntriesPrinted(items, next, ms[k := Member(ms[k].name, j)], firsts, lasts[k := n])
  {
    var more := ms[k := Member(ms[k].name, j)];
    FirstsDiffer(items, n, ms, firsts, lasts, k);
    forall l | 0 <= l < |more| ensures MemberPrinted(items, next, more[l], firsts[l], lasts[k := n][l]) {
      assert MemberPrinted(items, n, ms[l], firsts[l], lasts[l]);
      if l != k { StillPrinted(items, n, next, ms[l], firsts[l], lasts[l]); }
    }
    forall i | 0 <= i < next && items[i].VEntry? ensures HasName(more, items[i].key) {
      if i == n { assert HasName(ms, ms[k].name); }
      NameKept(ms, more, items[i].key);
    }
  }

  lemma NewEntryPrinted(items: seq<Value>, n: nat, next: nat, ms: seq<Member>, firsts: seq<nat>, lasts: seq<nat>, j: Json)
    requires next == n + 1 && next <= |items| && EntriesPrinted(items, n, ms, firsts, lasts)
    requires items[n].VEntry? && !HasName(ms, items[n].key) && PrintsAs(items[n].entry, j)
    ensures EntriesPrinted(items, next, ms + [Member(items[n].key, j)], firsts + [n], lasts + [n])
  {
    var m := Member(items[n].key, j);
    var more := ms + [m];
    forall l | 0 <= l < |more| ensures MemberPrinted(items, next, more[l], (firsts + [n])[l], (lasts + [n])[l]) {
      if l < |ms| {
        assert MemberPrinted(items, n, ms[l], firsts[l], lasts[l]);
        StillPrinted(items, n, next, ms[l], firsts[l], lasts[l]);
      }
    }
    forall i | 0 <= i < next && items[i].VEntry? ensures HasName(more, items[i].key) {
      if i == n { assert more[|ms|].name == items[n].key; }
      NameKept(ms, more, items[i].key);
    }
    AscendingEnd(items, n, ms, firsts, lasts);
  }

  lemma AscendingEnd(items: seq<Value>, n: nat, ms: seq<Member>, firsts: seq<nat>, lasts: seq<nat>)
    requires n <= |items| && EntriesPrinted(items, n, ms, firsts, lasts)
    ensures Ascending(firsts + [n])
  {
    forall k | 0 <= k < |firsts| ensures firsts[k] < n {
      assert MemberPrinted(items, n, ms[k], firsts[k], lasts[k]);
    }
  }

  // ----- the round trip -----

  /** What survives: a maybe of something printed as null is nothing, and of the entries of
      a dictionary with one key the last counts, in the place of the first. */
  function Canon(v: Value): Value {
    match v
    case VMaybe(e, Some(x)) => if Serialize(x) == Null then VMaybe(e, None) else VMaybe(e, Some(Canon(x)))
    case VArray(e, items) => VArray(e, if OfEntries(e) then CanonEntries(items, []) else CanonItems(items))
    case VTuple(items) => VTuple(CanonItems(items))
    case VEntry(key, x) => VEntry(key, Canon(x))
    case _ => v
  }

  function CanonItems(items: seq<Value>): (r: seq<Value>)
    ensures |r| == |items|
  {
    if items == [] then [] else [Canon(items[0])] + CanonItems(items[1..])
  }

  function SetEntry(entries: seq<Value>, key: string, v: Value): seq<Value> {
    if entries == [] then [VEntry(key, v)]
    else if entries[0].VEntry? && entries[0].key == key then [VEntry(key, v)] + entries[1..]
    else [entries[0]] + SetEntry(entries[1..], key, v)
  }

  function CanonEntries(items: seq<Value>, done: seq<Value>): seq<Value>
    decreases items
  {
    if items == [] then done
    else if items[0].VEntry? then CanonEntries(items[1..], SetEntry(done, items[0].key, Canon(items[0].entry)))
    else CanonEntries(items[1..], done)
  }

  /** Printed as null: nothing, at any depth of maybes. */
  predicate IsNothing(v: Value) {
    match v
    case VMaybe(_, None) => true
    case VMaybe(_, Some(x)) => IsNothing(x)
    case _ => false
  }

  lemma {:induction false} NullIsNothing(v: Value)
    ensures Serialize(v) == Null <==> IsNothing(v)
  {
    match v
    case VMaybe(_, Some(x)) => NullIsNothing(x);
    case _ =>
  }

  lemma EntriesByTypeString(t: Type)
    ensures OfEntries(TypeString(t)) <==> t.TEntry?
  {
    FirstLetter(t);
  }

  lemma IntRoundTrip(k: IntKind, n: int)
    requires InRange(k, n)
    ensures Wrap(k, Wrap(Int64, n)) == n
  {
    if k == Uint64 { WrapBack(n); }
  }

  /** Reading back what was printed for a value, with its own type, gives the value with
      nested nothings collapsed and repeated keys merged. */
  lemma {:induction false} RoundTrip(lib: Library, v: Value, t: Type)
    requires HasType(lib, v, t)
    ensures Typed(lib, Serialize(v), t) == Some(Canon(v))
    decreases v, 1
  {
    match v
    case VInt(k, n) => IntRoundTrip(k, n);
    case VMaybe(_, Some(x)) => RoundTrip(lib, x, t.elem);
    case VArray(_, items) =>
      EntriesByTypeString(t.elem);
      if t.elem.TEntry? {
        EntriesRoundTrip(lib, items, t.elem.value, [], []);
      } else {
        ItemsRoundTrip(lib, items, t.elem);
      }
    case VTuple(items) => ComponentsRoundTrip(lib, items, t.items);
    case VEntry(key, x) => RoundTrip(lib, x, t.value);
    case _ =>
  }

  lemma {:induction false} ItemsRoundTrip(lib: Library, items: seq<Value>, e: Type)
    requires forall i :: 0 <= i < |items| ==> HasType(lib, items[i], e)
    ensures TypedElements(lib, SerializeItems(items), e) == Some(CanonItems(items))
    decreases items, 0
  {
    if items != [] {
      RoundTrip(lib, items[0], e);
      ItemsRoundTrip(lib, items[1..], e);
      assert SerializeItems(items)[1..] == SerializeItems(items[1..]);
    }
  }

  lemma {:induction false} ComponentsRoundTrip(lib: Library, items: seq<Value>, ts: seq<Type>)
    requires |items| == |ts| && forall i :: 0 <= i < |items| ==> HasType(lib, items[i], ts[i])
    ensures TypedComponents(lib, SerializeItems(items), ts) == Some(CanonItems(items))
    decreases items, 0
  {
    if items != [] {
      RoundTrip(lib, items[0], ts[0]);
      ComponentsRoundTrip(lib, items[1..], ts[1..]);
      assert SerializeItems(items)[1..] == SerializeItems(items[1..]);
    }
  }

  lemma {:induction false} TypedSetMember(lib: Library, ms: seq<Member>, done: seq<Value>, key: string, j: Json, v: Value, e: Type)
    requires TypedMembers(lib, ms, e) == Some(done) && Typed(lib, j, e) == Some(v)
    ensures TypedMembers(lib, SetMember(ms, key, j), e) == Some(SetEntry(done, key, v))
  {
    if ms != [] {
      assert done[0].VEntry? && done[0].key == ms[0].name;
      assert TypedMembers(lib, ms[1..], e) == Some(done[1..]);
      if ms[0].name == key {
        assert SetMember(ms, key, j)[1..] == ms[1..];
      } else {
        TypedSetMember(lib, ms[1..], done[1..], key, j, v, e);
        assert SetMember(ms, key, j)[1..] == SetMember(ms[1..], key, j);
      }
    } else {
      var one := [Member(key, j)];
      assert one[1..] == [] && TypedMembers(lib, [], e) == Some([]);
      assert [VEntry(key, v)] + [] == [VEntry(key, v)];
    }
  }

  lemma {:induction false} EntriesRoundTrip(lib: Library, items: seq<Value>, e: Type, ms: seq<Member>, done: seq<Value>)
    requires forall i :: 0 <= i < |items| ==> HasType(lib, items[i], TEntry(e))
    requires TypedMembers(lib, ms, e) == Some(done)
    ensures TypedMembers(lib, SerializeEntries(items, ms), e) == Some(CanonEntries(items, done))
    decreases items, 0
  {
    if items != [] {
      assert HasType(lib, items[0], TEntry(e));
      var key, x := items[0].key, items[0].entry;
      RoundTrip(lib, x, e);
      TypedSetMember(lib, ms, done, key, Serialize(x), Canon(x), e);
      EntriesRoundTrip(lib, items[1..], e, SetMember(ms, key, Serialize(x)), SetEntry(done, key, Canon(x)));
    }
  }

  // ----- when nothing is lost -----

  ghost predicate UniqueKeys(items: seq<Value>) {
    forall i, j :: 0 <= i < j < |items| && items[i].VEntry? && items[j].VEntry? ==> items[i].key != items[j].key
  }

  /** No maybe holds a nothing and no dictionary has one key twice. */
  ghost predicate Lossless(v: Value) {
    match v
    case VMaybe(_, Some(x)) => !IsNothing(x) && Lossless(x)
    case VArray(e, items) => (OfEntries(e) ==> UniqueKeys(items)) && forall i :: 0 <= i < |items| ==> Lossless(items[i])
    case VTuple(items) => forall i :: 0 <= i < |items| ==> Lossless(items[i])
    case VEntry(_, x) => Lossless(x)
    case _ => true
  }

  lemma {:induction false} CanonIff(lib: Library, v: Value, t: Type)
    requires HasType(lib, v, t)
    ensures Canon(v) == v <==> Lossless(v)
    decreases v, 1
  {
    match v
    case VMaybe(_, Some(x)) =>
      NullIsNothing(x);
      CanonIff(lib, x, t.elem);
    case VArray(_, items) =>
      EntriesByTypeString(t.elem);
      forall i | 0 <= i < |items| ensures Canon(items[i]) == items[i] <==> Lossless(items[i]) {
        CanonIff(lib, items[i], t.elem);
      }
      if t.elem.TEntry? {
        assert forall i :: 0 <= i < |items| ==> HasType(lib, items[i], t.elem);
        CanonEntriesIff(items);
      } else {
        CanonItemsIff(items);
      }
    case VTuple(items) =>
      forall i | 0 <= i < |items| ensures Canon(items[i]) == items[i] <==> Lossless(items[i]) {
        CanonIff(lib, items[i], t.items[i]);
      }
      CanonItemsIff(items);
    case VEntry(key, x) => CanonIff(lib, x, t.value);
    case _ =>
  }

  lemma {:induction false} CanonItemsAt(items: seq<Value>)
    ensures forall i :: 0 <= i < |items| ==> CanonItems(items)[i] == Canon(items[i])
  {
    if items != [] { CanonItemsAt(items[1..]); }
  }

  lemma CanonItemsIff(items: seq<Value>)
    ensures CanonItems(items) == items <==> forall i :: 0 <= i < |items| ==> Canon(items[i]) == items[i]
  {
    CanonItemsAt(items);
    var r := CanonItems(items);
    if r == items {
      forall i | 0 <= i < |items| ensures Canon(items[i]) == items[i] { assert r[i] == Canon(items[i]); }
    }
    if forall i :: 0 <= i < |items| ==> Canon(items[i]) == items[i] {
      forall i | 0 <= i < |items| ensures r[i] == items[i] { assert r[i] == Canon(items[i]); }
    }
  }

  lemma {:induction false} SetNewEntry(entries: seq<Value>, key: string, v: Value)
    requires forall i :: 0 <= i < |entries| ==> entries[i].VEntry? && entries[i].key != key
    ensures SetEntry(entries, key, v) == entries + [VEntry(key, v)]
  {
    if entries != [] { SetNewEntry(entries[1..], key, v); }
  }

  ghost predicate AllEntries(items: seq<Value>) {
    forall i :: 0 <= i < |items| ==> items[i].VEntry?
  }

  lemma {:induction false} SetEntryUnique(entries: seq<Value>, key: string, v: Value)
    requires AllEntries(entries) && UniqueKeys(entries)
    ensures AllEntries(SetEntry(entries, key, v)) && UniqueKeys(SetEntry(entries, key, v))
    ensures forall i :: 0 <= i < |SetEntry(entries, key, v)| ==>
      SetEntry(entries, key, v)[i] in entries || SetEntry(entries, key, v)[i] == VEntry(key, v)
  {
    if entries != [] && entries[0].key != key {
      var later := entries[1..];
      assert forall i :: 0 <= i < |later| ==> later[i] == entries[i + 1];
      SetEntryUnique(later, key, v);
      var r := SetEntry(later, key, v);
      forall j | 0 <= j < |r| ensures r[j].key != entries[0].key {
        if r[j] in later {
          var k :| 0 <= k < |later| && later[k] == r[j];
          assert entries[k + 1] == r[j];
        }
      }
    }
  }

  lemma {:induction false} CanonEntriesUnique(items: seq<Value>, done: seq<Value>)
    requires AllEntries(items) && AllEntries(done) && UniqueKeys(done)
    ensures AllEntries(CanonEntries(items, done)) && UniqueKeys(CanonEntries(items, done))
    decreases items
  {
    if items != [] {
      SetEntryUnique(done, items[0].key, Canon(items[0].entry));
      CanonEntriesUnique(items[1..], SetEntry(done, items[0].key, Canon(items[0].entry)));
    }
  }

  lemma Associative(a: seq<Value>, b: seq<Value>, c: seq<Value>)
    ensures a + (b + c) == a + b + c
  {
  }

  ghost predicate KeysApart(done: seq<Value>, items: seq<Value>) {
    && AllEntries(done) && AllEntries(items)
    && forall i, k :: 0 <= i < |done| && 0 <= k < |items| ==> done[i].key != items[k].key
  }

  lemma LaterKeysApart(done: seq<Value>, items: seq<Value>, v: Value)
    requires KeysApart(done, items) && UniqueKeys(items) && items != []
    ensures KeysApart(done + [VEntry(items[0].key, v)], items[1..]) && UniqueKeys(items[1..])
  {
    var later := items[1..];
    assert forall i :: 0 <= i < |later| ==> later[i] == items[i + 1];
  }

  lemma {:induction false} CanonUniqueEntries(items: seq<Value>, done: seq<Value>)
    requires KeysApart(done, items) && UniqueKeys(items)
    ensures CanonEntries(items, done) == done + CanonItems(items)
    decreases items
  {
    if items == [] {
      assert done + CanonItems(items) == done;
    } else {
      var x := Canon(items[0].entry);
      SetNewEntry(done, items[0].key, x);
      LaterKeysApart(done, items, x);
      CanonUniqueEntries(items[1..], done + [VEntry(items[0].key, x)]);
      Associative(done, [VEntry(items[0].key, x)], CanonItems(items[1..]));
    }
  }

  lemma CanonEntriesIff(items: seq<Value>)
    requires AllEntries(items)
    ensures CanonEntries(items, []) == items
       <==> UniqueKeys(items) && forall i :: 0 <= i < |items| ==> Canon(items[i]) == items[i]
  {
    CanonEntriesUnique(items, []);
    if UniqueKeys(items) {
      CanonUniqueEntries(items, []);
      assert [] + CanonItems(items) == CanonItems(items);
      CanonItemsIff(items);
    }
  }

  /** The round trip gives the value itself exactly when no maybe holds a nothing and no
      dictionary repeats a key. */
  lemma RoundTripIff(lib: Library, v: Value, t: Type)
    requires HasType(lib, v, t)
    ensures Typed(lib, Serialize(v), t) == Some(v) <==> Lossless(v)
  {
    RoundTrip(lib, v, t);
    CanonIff(lib, v, t);
  }

  // ----- the conversion with a moving cursor -----

  /** The type string of `t` starts at a position of a signature. */
  ghost predicate StartsAt(text: string, pos: nat, t: Type) {
    pos + |TypeString(t)| <= |text| && text[pos..pos + |TypeString(t)|] == TypeString(t)
  }

  /** So do the type strings of `ts`, followed by the closing bracket of a tuple. */
  ghost predicate ComponentsAt(text: string, pos: nat, ts: seq<Type>) {
    pos + |TypeStrings(ts)| < |text| && text[pos..pos + |TypeStrings(ts)| + 1] == TypeStrings(ts) + ")"
  }

  lemma StartsWithType(text: string, pos: nat, t: Type)
    requires StartsAt(text, pos, t) && Nesting(t) <= MAX_STACK
    ensures NextType(text[pos..]) == Some(text[pos + |TypeString(t)|..])
  {
    assert text[pos..] == TypeString(t) + text[pos + |TypeString(t)|..];
    NextTypeIsFirst(t, text[pos + |TypeString(t)|..]);
  }

  /** Takes the type at the cursor. */
  method TakeType(cursor: Cursor, ghost t: Type) returns (s: string)
    requires StartsAt(cursor.text, cursor.pos, t) && Nesting(t) <= MAX_STACK
    modifies cursor
    ensures s == TypeString(t) && cursor.pos == old(cursor.pos) + |TypeString(t)|
  {
    StartsWithType(cursor.text, cursor.pos, t);
    s := cursor.NextCompleteType();
  }

  lemma SliceCons(text: string, pos: nat, end: nat, c: char, s: string)
    requires pos < end <= |text| && text[pos..end] == [c] + s
    ensures text[pos] == c && text[pos + 1..end] == s
  {
    var slice := text[pos..end];
    assert slice[0] == c && slice[1..] == s;
    assert text[pos + 1..end] == slice[1..];
  }

  lemma WrappedAt(text: string, pos: nat, t: Type, c: char, e: Type)
    requires StartsAt(text, pos, t) && TypeString(t) == [c] + TypeString(e)
    ensures text[pos] == c && StartsAt(text, pos + 1, e) && |TypeString(t)| == 1 + |TypeString(e)|
  {
    SliceCons(text, pos, pos + |TypeString(t)|, c, TypeString(e));
  }

  lemma WholeStartsAt(t: Type)
    ensures StartsAt(TypeString(t), 0, t)
  {
    assert TypeString(t)[0..|TypeString(t)|] == TypeString(t);
  }

  lemma {:induction false} TypedConcat(lib: Library, es: seq<Json>, fs: seq<Json>, e: Type)
    ensures
      var a, b := TypedElements(lib, es, e), TypedElements(lib, fs, e);
      TypedElements(lib, es + fs, e) == if a.None? || b.None? then None else Some(a.value + b.value)
    decreases |es|
  {
    if es == [] {
      assert es + fs == fs;
      var b := TypedElements(lib, fs, e);
      if b.Some? { assert [] + b.value == b.value; }
    } else {
      assert (es + fs)[1..] == es[1..] + fs;
      TypedConcat(lib, es[1..], fs, e);
      var x, later, b := Typed(lib, es[0], e), TypedElements(lib, es[1..], e), TypedElements(lib, fs, e);
      if x.Some? && later.Some? && b.Some? {
        Associative([x.value], later.value, b.value);
      }
    }
  }

  /** The first elements decide, one after the other. */
  lemma OneMoreElementTyped(lib: Library, es: seq<Json>, i: nat, e: Type)
    requires i < |es|
    ensures
      var a, b := TypedElements(lib, es[..i], e), Typed(lib, es[i], e);
      && TypedElements(lib, es[..i + 1], e) == (if a.None? || b.None? then None else Some(a.value + [b.value]))
      && (b.None? ==> TypedElements(lib, es, e).None?)
  {
    assert es[..i + 1] == es[..i] + [es[i]] && es == es[..i + 1] + es[i + 1..];
    OneElementTyped(lib, es[i], e);
    TypedConcat(lib, es[..i], [es[i]], e);
    TypedConcat(lib, es[..i + 1], es[i + 1..], e);
  }

  lemma OneElementTyped(lib: Library, j: Json, e: Type)
    ensures TypedElements(lib, [j], e) == match Typed(lib, j, e) case None => None case Some(x) => Some([x])
  {
    assert [j][1..] == [] && TypedElements(lib, [], e) == Some([]);
    var x := Typed(lib, j, e);
    if x.Some? { assert [x.value] + [] == [x.value]; }
  }

  /** json_to_gvariant_maybe */
  method ReadMaybe(lib: Library, j: Json, cursor: Cursor, ghost t: Type) returns (v: Option<Value>)
    requires t.TMaybe? && StartsAt(cursor.text, cursor.pos, t) && Nesting(t) <= MAX_STACK
    modifies cursor
    ensures v == Typed(lib, j, t)
    ensures v.Some? ==> cursor.pos + 1 == old(cursor.pos) + |TypeString(t)|
    decreases j, t, 0
  {
    WrappedAt(cursor.text, cursor.pos, t, 'm', t.elem);
    cursor.pos := cursor.pos + 1;
    var signature := TakeType(cursor, t.elem);
    if j == Null {
      v := Some(VMaybe(signature, None));
    } else {
      var inner := new Cursor(signature);
      WholeStartsAt(t.elem);
      var x := Recurse(lib, j, inner, t.elem);
      v := if x.None? then None else Some(VMaybe(signature, x));
    }
    cursor.pos := cursor.pos - 1;
  }

  /** json_to_gvariant_array */
  method ReadArray(lib: Library, es: seq<Json>, cursor: Cursor, ghost t: Type) returns (v: Option<Value>)
    requires t.TArray? && !t.elem.TEntry? && StartsAt(cursor.text, cursor.pos, t) && Nesting(t) <= MAX_STACK
    modifies cursor
    ensures v == Typed(lib, Arr(es), t)
    ensures v.Some? ==> cursor.pos + 1 == old(cursor.pos) + |TypeString(t)|
    decreases es, t, 0
  {
    WrappedAt(cursor.text, cursor.pos, t, 'a', t.elem);
    cursor.pos := cursor.pos + 1;
    var signature := TakeType(cursor, t.elem);
    ghost var end := cursor.pos;
    WholeStartsAt(t.elem);
    var children: seq<Value> := [];
    for i := 0 to |es|
      invariant cursor.pos == end
      invariant TypedElements(lib, es[..i], t.elem) == Some(children)
    {
      var inner := new Cursor(signature);
      var child := Recurse(lib, es[i], inner, t.elem);
      OneMoreElementTyped(lib, es, i, t.elem);
      if child.None? {
        return None;
      }
      children := children + [child.value];
    }
    assert es[..|es|] == es;
    v := Some(VArray(signature, children));
    cursor.pos := cursor.pos - 1;
  }

  lemma {:induction false} TypedMembersConcat(lib: Library, ms: seq<Member>, ns: seq<Member>, e: Type)
    ensures
      var a, b := TypedMembers(lib, ms, e), TypedMembers(lib, ns, e);
      TypedMembers(lib, ms + ns, e) == if a.None? || b.None? then None else Some(a.value + b.value)
    decreases |ms|
  {
    if ms == [] {
      assert ms + ns == ns;
      var b := TypedMembers(lib, ns, e);
      if b.Some? { assert [] + b.value == b.value; }
    } else {
      assert (ms + ns)[1..] == ms[1..] + ns;
      TypedMembersConcat(lib, ms[1..], ns, e);
      var x, later, b := Typed(lib, ms[0].value, e), TypedMembers(lib, ms[1..], e), TypedMembers(lib, ns, e);
      if x.Some? && later.Some? && b.Some? {
        Associative([VEntry(ms[0].name, x.value)], later.value, b.value);
      }
    }
  }

  lemma OneMemberTyped(lib: Library, m: Member, e: Type)
    ensures TypedMembers(lib, [m], e) == match Typed(lib, m.value, e) case None => None case Some(x) => Some([VEntry(m.name, x)])
  {
    assert [m][1..] == [] && TypedMembers(lib, [], e) == Some([]);
    var x := Typed(lib, m.value, e);
    if x.Some? { assert [VEntry(m.name, x.value)] + [] == [VEntry(m.name, x.value)]; }
  }

  lemma OneMoreMemberTyped(lib: Library, ms: seq<Member>, i: nat, e: Type)
    requires i < |ms|
    ensures
      var a, b := TypedMembers(lib, ms[..i], e), Typed(lib, ms[i].value, e);
      && TypedMembers(lib, ms[..i + 1], e) == (if a.None? || b.None? then None else Some(a.value + [VEntry(ms[i].name, b.value)]))
      && (b.None? ==> TypedMembers(lib, ms, e).None?)
  {
    assert ms[..i + 1] == ms[..i] + [ms[i]] && ms == ms[..i + 1] + ms[i + 1..];
    OneMemberTyped(lib, ms[i], e);
    TypedMembersConcat(lib, ms[..i], [ms[i]], e);
    TypedMembersConcat(lib, ms[..i + 1], ms[i + 1..], e);
  }

  lemma EntryAt(t: Type)
    requires t.TEntry?
    ensures TypeString(t)[0] == '{' && StartsAt(TypeString(t), 1, Type.TString(Text)) && StartsAt(TypeString(t), 2, t.value)
  {
    var s, v := TypeString(t), TypeString(t.value);
    assert s == "{" + ("s" + v) + "}";
    assert s[1..2] == "s" && s[2..2 + |v|] == v;
  }

  /** parse_dict_entry_signature: an entry's own type and the types of its key and value. */
  method ParseEntrySignature(cursor: Cursor, ghost t: Type) returns (entry: string, key: string, value: string)
    requires t.TEntry? && StartsAt(cursor.text, cursor.pos, t) && Nesting(t) <= MAX_STACK
    modifies cursor
    ensures entry == TypeString(t) && key == "s" && value == TypeString(t.value)
    ensures cursor.pos == old(cursor.pos) + |TypeString(t)|
  {
    entry := TakeType(cursor, t);
    EntryAt(t);
    var inner := new Cursor(entry);
    inner.pos := 1;
    key := TakeType(inner, Type.TString(Text));
    value := TakeType(inner, t.value);
  }

  /** json_to_gvariant_dict_entry */
  method ReadEntry(lib: Library, ms: seq<Member>, cursor: Cursor, ghost t: Type) returns (v: Option<Value>)
    requires t.TEntry? && StartsAt(cursor.text, cursor.pos, t) && Nesting(t) <= MAX_STACK
    modifies cursor
    ensures v == Typed(lib, Obj(ms), t)
    ensures v.Some? ==> cursor.pos + 1 == old(cursor.pos) + |TypeString(t)|
    decreases ms, t, 0
  {
    if |ms| != 1 {
      return None;
    }
    var entry, key, value := ParseEntrySignature(cursor, t);
    WholeStartsAt(t.value);
    var inner := new Cursor(value);
    var x := Recurse(lib, ms[0].value, inner, t.value);
    v := if x.None? then None else Some(VEntry(ms[0].name, x.value));
    cursor.pos := cursor.pos - 1;
  }

  /** json_to_gvariant_dictionary */
  method ReadDictionary(lib: Library, ms: seq<Member>, cursor: Cursor, ghost t: Type) returns (v: Option<Value>)
    requires t.TArray? && t.elem.TEntry? && StartsAt(cursor.text, cursor.pos, t) && Nesting(t) <= MAX_STACK
    modifies cursor
    ensures v == Typed(lib, Obj(ms), t)
    ensures v.Some? ==> cursor.pos + 1 == old(cursor.pos) + |TypeString(t)|
    decreases ms, t, 0
  {
    WrappedAt(cursor.text, cursor.pos, t, 'a', t.elem);
    cursor.pos := cursor.pos + 1;
    var entry, key, value := ParseEntrySignature(cursor, t.elem);
    ghost var end := cursor.pos;
    WholeStartsAt(t.elem.value);
    var entries: seq<Value> := [];
    for i := 0 to |ms|
      invariant cursor.pos == end
      invariant TypedMembers(lib, ms[..i], t.elem.value) == Some(entries)
    {
      var inner := new Cursor(value);
      var x := Recurse(lib, ms[i].value, inner, t.elem.value);
      OneMoreMemberTyped(lib, ms, i, t.elem.value);
      if x.None? {
        return None;
      }
      entries := entries + [VEntry(ms[i].name, x.value)];
    }
    assert ms[..|ms|] == ms;
    v := Some(VArray(entry, entries));
    cursor.pos := cursor.pos - 1;
  }

  // ----- tuples -----

  lemma {:induction false} AllComponentsTyped(lib: Library, es: seq<Json>, ts: seq<Type>, children: seq<Value>)
    requires |es| == |ts| == |children|
    requires forall k :: 0 <= k < |es| ==> Typed(lib, es[k], ts[k]) == Some(children[k])
    ensures TypedComponents(lib, es, ts) == Some(children)
  {
    if es != [] {
      AllComponentsTyped(lib, es[1..], ts[1..], children[1..]);
      assert children == [children[0]] + children[1..];
    }
  }

  lemma {:induction false} OneComponentFails(lib: Library, es: seq<Json>, ts: seq<Type>, k: nat)
    requires |es| == |ts| && k < |es| && Typed(lib, es[k], ts[k]).None?
    ensures TypedComponents(lib, es, ts).None?
  {
    if k > 0 { OneComponentFails(lib, es[1..], ts[1..], k - 1); }
  }

  lemma TupleAt(text: string, pos: nat, t: Type)
    requires t.TTuple? && StartsAt(text, pos, t)
    ensures text[pos] == '(' && ComponentsAt(text, pos + 1, t.items)
    ensures |TypeString(t)| == 2 + |TypeStrings(t.items)|
  {
    var s, n := TypeString(t), |TypeString(t)|;
    assert s == "(" + TypeStrings(t.items) + ")";
    assert text[pos..pos + n][0] == '(';
    assert text[pos + 1..pos + n] == text[pos..pos + n][1..];
  }

  lemma SplitAt(text: string, pos: nat, a: string, b: string)
    requires pos + |a| + |b| <= |text| && text[pos..pos + |a| + |b|] == a + b
    ensures text[pos..pos + |a|] == a && text[pos + |a|..pos + |a| + |b|] == b
  {
    var both := text[pos..pos + |a| + |b|];
    assert text[pos..pos + |a|] == both[..|a|];
    assert text[pos + |a|..pos + |a| + |b|] == both[|a|..];
  }

  lemma NoComponentAt(text: string, pos: nat, ts: seq<Type>)
    requires ComponentsAt(text, pos, ts) && ts == []
    ensures text[pos] == ')'
  {
    assert text[pos..pos + 1][0] == text[pos];
    assert TypeStrings(ts) + ")" == ")";
  }

  lemma NextComponentAt(text: string, pos: nat, ts: seq<Type>)
    requires ComponentsAt(text, pos, ts) && ts != []
    ensures StartsAt(text, pos, ts[0]) && ComponentsAt(text, pos + |TypeString(ts[0])|, ts[1..])
    ensures |TypeStrings(ts)| == |TypeString(ts[0])| + |TypeStrings(ts[1..])|
    ensures text[pos] == TypeString(ts[0])[0]
  {
    var first, later := TypeString(ts[0]), TypeStrings(ts[1..]);
    assert TypeStrings(ts) + ")" == first + (later + ")");
    SplitAt(text, pos, first, later + ")");
    assert text[pos..pos + |first|][0] == text[pos];
  }

  /** What the loop over a tuple sees at the cursor. */
  lemma AtComponent(text: string, pos: nat, ts: seq<Type>)
    requires ComponentsAt(text, pos, ts)
    ensures text[pos] != '\0' && (text[pos] == ')' <==> ts == [])
  {
    if ts == [] {
      NoComponentAt(text, pos, ts);
    } else {
      NextComponentAt(text, pos, ts);
      FirstLetter(ts[0]);
      NoNul(ts[0]);
    }
  }

  lemma NoNul(t: Type)
    ensures TypeString(t)[0] != '\0'
  {
  }

  lemma {:induction false} NestingAt(ts: seq<Type>, k: nat)
    requires k < |ts|
    ensures Nesting(ts[k]) <= NestingOfAll(ts)
  {
    if k > 0 { NestingAt(ts[1..], k - 1); }
  }

  /** The first `n` components have been read; the rest of the tuple type is at `pos`. */
  ghost predicate InTuple(lib: Library, es: seq<Json>, ts: seq<Type>, n: nat, children: seq<Value>, text: string, pos: nat, end: nat) {
    && n <= |ts| && n <= |es| && |children| == n
    && (forall k :: 0 <= k < n ==> Typed(lib, es[k], ts[k]) == Some(children[k]))
    && ComponentsAt(text, pos, ts[n..]) && pos + |TypeStrings(ts[n..])| == end
  }

  lemma ComponentInTuple(lib: Library, es: seq<Json>, ts: seq<Type>, n: nat, children: seq<Value>, text: string, pos: nat, end: nat)
    requires InTuple(lib, es, ts, n, children, text, pos, end) && n < |ts|
    ensures StartsAt(text, pos, ts[n]) && Nesting(ts[n]) <= NestingOfAll(ts)
  {
    NestingAt(ts, n);
    NextComponentAt(text, pos, ts[n..]);
  }

  lemma ComponentRead(lib: Library, es: seq<Json>, ts: seq<Type>, n: nat, next: nat, children: seq<Value>, child: Value,
                      text: string, pos: nat, end: nat)
    requires InTuple(lib, es, ts, n, children, text, pos, end) && n < |ts| && n < |es| && next == n + 1
    requires Typed(lib, es[n], ts[n]) == Some(child)
    ensures InTuple(lib, es, ts, next, children + [child], text, pos + |TypeString(ts[n])|, end)
  {
    assert ts[n..][1..] == ts[next..];
    NextComponentAt(text, pos, ts[n..]);
  }

  /** What the loop keeps: `i - 1` components are read, and the cursor stands on the closing
      bracket just when these are all. */
  ghost predicate TupleLoop(lib: Library, es: seq<Json>, ts: seq<Type>, i: nat, children: seq<Value>, text: string, pos: nat, end: nat) {
    && 1 <= i && InTuple(lib, es, ts, i - 1, children, text, pos, end)
    && pos < |text| && text[pos] != '\0' && (text[pos] == ')' <==> i == |ts| + 1)
  }

  lemma TupleGoesOn(lib: Library, es: seq<Json>, ts: seq<Type>, i: nat, children: seq<Value>, text: string, pos: nat, end: nat)
    requires 1 <= i && InTuple(lib, es, ts, i - 1, children, text, pos, end)
    ensures TupleLoop(lib, es, ts, i, children, text, pos, end)
  {
    AtComponent(text, pos, ts[i - 1..]);
  }

  lemma TupleTurn(lib: Library, es: seq<Json>, ts: seq<Type>, i: nat, next: nat, children: seq<Value>, text: string, pos: nat, end: nat)
    requires TupleLoop(lib, es, ts, i, children, text, pos, end) && text[pos] != ')' && i <= |es| && next == i + 1
    ensures i <= |ts| && StartsAt(text, pos, ts[i - 1]) && Nesting(ts[i - 1]) <= NestingOfAll(ts)
    ensures var child := Typed(lib, es[i - 1], ts[i - 1]);
      child.Some? ==> TupleLoop(lib, es, ts, next, children + [child.value], text, pos + |TypeString(ts[i - 1])|, end)
  {
    ComponentInTuple(lib, es, ts, i - 1, children, text, pos, end);
    var child := Typed(lib, es[i - 1], ts[i - 1]);
    if child.Some? {
      ComponentRead(lib, es, ts, i - 1, i, children, child.value, text, pos, end);
      TupleGoesOn(lib, es, ts, next, children + [child.value], text, pos + |TypeString(ts[i - 1])|, end);
    }
  }

  lemma TupleFails(lib: Library, es: seq<Json>, t: Type, k: nat)
    requires t.TTuple? && k < |t.items| && k < |es| && Typed(lib, es[k], t.items[k]).None?
    ensures Typed(lib, Arr(es), t).None?
  {
    if |es| == |t.items| { OneComponentFails(lib, es, t.items, k); }
  }

  lemma TupleDone(lib: Library, es: seq<Json>, t: Type, children: seq<Value>, text: string, pos: nat, end: nat)
    requires t.TTuple? && |es| == |t.items| && InTuple(lib, es, t.items, |es|, children, text, pos, end)
    ensures Typed(lib, Arr(es), t) == Some(VTuple(children)) && pos == end
  {
    AllComponentsTyped(lib, es, t.items, children);
    assert t.items[|es|..] == [];
  }

  /** The elements run out before the component types do. */
  lemma TupleTooLong(lib: Library, es: seq<Json>, t: Type, i: nat, children: seq<Value>, text: string, pos: nat, end: nat)
    requires t.TTuple? && TupleLoop(lib, es, t.items, i, children, text, pos, end) && text[pos] != ')' && i - 1 >= |es|
    ensures Typed(lib, Arr(es), t).None?
  {
  }

  /** The component types are all read: the value is there if the elements are all read too. */
  lemma TupleIsDone(lib: Library, es: seq<Json>, t: Type, i: nat, children: seq<Value>, text: string, pos: nat, end: nat)
    requires t.TTuple? && TupleLoop(lib, es, t.items, i, children, text, pos, end) && text[pos] == ')'
    ensures |es| >= i ==> Typed(lib, Arr(es), t).None?
    ensures |es| < i ==> Typed(lib, Arr(es), t) == Some(VTuple(children)) && pos == end
  {
    if |es| < i { TupleDone(lib, es, t, children, text, pos, end); }
  }

  /** The body of the loop over a tuple. */
  method ReadComponent(lib: Library, es: seq<Json>, cursor: Cursor, ghost t: Type, i: nat, ghost children: seq<Value>, ghost end: nat)
    returns (child: Option<Value>)
    requires t.TTuple? && TupleLoop(lib, es, t.items, i, children, cursor.text, cursor.pos, end)
    requires cursor.text[cursor.pos] != ')' && i <= |es| && Nesting(t) <= MAX_STACK
    modifies cursor
    ensures child.Some? ==> TupleLoop(lib, es, t.items, i + 1, children + [child.value], cursor.text, cursor.pos, end)
    ensures child.None? ==> Typed(lib, Arr(es), t).None?
    decreases es, t, 0
  {
    TupleTurn(lib, es, t.items, i, i + 1, children, cursor.text, cursor.pos, end);
    child := Recurse(lib, es[i - 1], cursor, t.items[i - 1]);
    if child.None? { TupleFails(lib, es, t, i - 1); }
  }

  /** json_to_gvariant_tuple */
  method ReadTuple(lib: Library, es: seq<Json>, cursor: Cursor, ghost t: Type) returns (v: Option<Value>)
    requires t.TTuple? && StartsAt(cursor.text, cursor.pos, t) && Nesting(t) <= MAX_STACK
    modifies cursor
    ensures v == Typed(lib, Arr(es), t)
    ensures v.Some? ==> cursor.pos + 1 == old(cursor.pos) + |TypeString(t)|
    decreases es, t, 1
  {
    ghost var end := cursor.pos + |TypeString(t)| - 1;
    TupleAt(cursor.text, cursor.pos, t);
    cursor.pos := cursor.pos + 1;
    var i: nat := 1;
    var children: seq<Value> := [];
    TupleGoesOn(lib, es, t.items, i, children, cursor.text, cursor.pos, end);
    while cursor.Current() != ')' && cursor.Current() != '\0'
      invariant TupleLoop(lib, es, t.items, i, children, cursor.text, cursor.pos, end)
      decreases |es| + 1 - i
    {
      if i - 1 >= |es| {
        TupleTooLong(lib, es, t, i, children, cursor.text, cursor.pos, end);
        return None;
      }
      var child := ReadComponent(lib, es, cursor, t, i, children, end);
      if child.None? {
        return None;
      }
      children := children + [child.value];
      i := i + 1;
    }
    TupleIsDone(lib, es, t, i, children, cursor.text, cursor.pos, end);
    if cursor.Current() != ')' {
      return None;
    }
    if |es| >= i {
      return None;
    }
    v := Some(VTuple(children));
  }

  // ----- any type -----

  /** json_to_gvariant_recurse: the cursor moves past exactly one type, in spite of the steps
      back in the readers above. */
  method Recurse(lib: Library, j: Json, cursor: Cursor, ghost t: Type) returns (v: Option<Value>)
    requires StartsAt(cursor.text, cursor.pos, t) && Nesting(t) <= MAX_STACK
    modifies cursor
    ensures v == Typed(lib, j, t)
    ensures v.Some? ==> cursor.pos == old(cursor.pos) + |TypeString(t)|
    decreases j, t, 1
  {
    v := None;
    ClassOf(cursor.text, cursor.pos, t);
    var class_ := cursor.Current();
    if class_ == 'a' && cursor.pos + 1 < |cursor.text| && cursor.text[cursor.pos + 1] == '{' {
      if j.Obj? { v := ReadDictionary(lib, j.members, cursor, t); }
    } else if class_ == 'm' {
      v := ReadMaybe(lib, j, cursor, t);
    } else if class_ == 'a' {
      if j.Arr? { v := ReadArray(lib, j.elements, cursor, t); }
    } else if class_ == '(' {
      if j.Arr? { v := ReadTuple(lib, j.elements, cursor, t); }
    } else if class_ == '{' {
      if j.Obj? { v := ReadEntry(lib, j.members, cursor, t); }
    } else {
      v := ReadBasic(lib, j, class_, t);
    }
    cursor.pos := cursor.pos + 1;
  }

  /** The first letters tell the kind of a type. */
  lemma ClassOf(text: string, pos: nat, t: Type)
    requires StartsAt(text, pos, t)
    ensures text[pos] == TypeString(t)[0]
    ensures text[pos] == 'a' <==> t.TArray?
    ensures text[pos] == 'm' <==> t.TMaybe?
    ensures text[pos] == '(' <==> t.TTuple?
    ensures text[pos] == '{' <==> t.TEntry?
    ensures t.TArray? ==> pos + 1 < |text| && (text[pos + 1] == '{' <==> t.elem.TEntry?)
  {
    assert text[pos] == text[pos..pos + |TypeString(t)|][0];
    if t.TArray? {
      assert text[pos + 1] == text[pos..pos + |TypeString(t)|][1];
      FirstLetter(t.elem);
      EntriesByTypeString(t.elem);
    }
  }

  /** The cases of json_to_gvariant_recurse that read no further type. */
  method ReadBasic(lib: Library, j: Json, class_: char, ghost t: Type) returns (v: Option<Value>)
    requires class_ == TypeString(t)[0] && !t.TArray? && !t.TMaybe? && !t.TTuple? && !t.TEntry?
    ensures v == Typed(lib, j, t)
  {
    match class_
    case 'b' => v := ReadBool(j);
    case 'y' => v := ReadInt(lib, Byte, j);
    case 'n' => v := ReadInt(lib, Int16, j);
    case 'q' => v := ReadInt(lib, Uint16, j);
    case 'i' => v := ReadInt(lib, Int32, j);
    case 'u' => v := ReadInt(lib, Uint32, j);
    case 'x' => v := ReadInt(lib, Int64, j);
    case 't' => v := ReadInt(lib, Uint64, j);
    case 'h' => v := ReadInt(lib, Handle, j);
    case 'd' => v := ReadDouble(lib, j);
    case 's' => v := ReadString(lib, Text, j);
    case 'o' => v := ReadString(lib, ObjectPath, j);
    case _ => v := ReadString(lib, Signature, j);
  }

  /** json_gvariant_deserialize, for a valid signature */
  method Deserialize(lib: Library, j: Json, signature: string, ghost t: Type) returns (v: Option<Value>)
    requires signature == TypeString(t) && Nesting(t) <= MAX_STACK
    ensures v == Typed(lib, j, t)
    ensures v.Some? ==> HasType(lib, v.value, t)
    ensures forall x :: v == Some(x) <==> StandsFor(lib, j, t, x)
  {
    var cursor := new Cursor(signature);
    WholeStartsAt(t);
    v := Recurse(lib, j, cursor, t);
    TypedHasType(lib, j, t);
    forall x ensures v == Some(x) <==> StandsFor(lib, j, t, x) {
      TypedIff(lib, j, t, x);
    }
  }
}
