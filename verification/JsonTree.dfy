/** JSON trees as the library holds them, and the token-level grammar of sections 2 to 5 of
    RFC 8259. Doubles are kept as reals that printing and scanning preserve. */
module JsonTree {
  import opened Wrappers

  datatype Json =
    | Null
    | Bool(b: bool)
    | Int(n: int)
    | Double(d: real)
    | Str(s: string)
    | Arr(elements: seq<Json>)
    | Obj(members: seq<Member>)

  /** The members of an object are listed in the order of the member queue. */
  datatype Member = Member(name: string, value: Json)

  function Names(ms: seq<Member>): seq<string> {
    seq(|ms|, i requires 0 <= i < |ms| => ms[i].name)
  }

  ghost predicate UniqueNames(ms: seq<Member>) {
    forall i, j :: 0 <= i < j < |ms| ==> ms[i].name != ms[j].name
  }

  ghost predicate WellFormed(j: Json) {
    match j
    case Arr(es) => forall i :: 0 <= i < |es| ==> WellFormed(es[i])
    case Obj(ms) => UniqueNames(ms) && forall i :: 0 <= i < |ms| ==> WellFormed(ms[i].value)
    case _ => true
  }

  /** json_object_set_member: a known name keeps its place and gets the new value. */
  function SetMember(ms: seq<Member>, name: string, value: Json): seq<Member> {
    if ms == [] then [Member(name, value)]
    else if ms[0].name == name then [Member(name, value)] + ms[1..]
    else [ms[0]] + SetMember(ms[1..], name, value)
  }

  lemma {:induction false} SetNewMember(ms: seq<Member>, name: string, value: Json)
    requires forall i :: 0 <= i < |ms| ==> ms[i].name != name
    ensures SetMember(ms, name, value) == ms + [Member(name, value)]
  {
    if ms != [] { SetNewMember(ms[1..], name, value); }
  }

  lemma {:induction false} SetMemberUnique(ms: seq<Member>, name: string, value: Json)
    requires UniqueNames(ms)
    ensures UniqueNames(SetMember(ms, name, value))
    ensures forall m :: m in SetMember(ms, name, value) ==> m == Member(name, value) || m in ms
  {
    if ms != [] && ms[0].name != name {
      SetMemberUnique(ms[1..], name, value);
      var rest := SetMember(ms[1..], name, value);
      forall j | 0 <= j < |rest| ensures rest[j].name != ms[0].name {
        if rest[j] != Member(name, value) {
          assert rest[j] in rest && rest[j] in ms[1..];
          var k :| 0 <= k < |ms[1..]| && ms[1..][k] == rest[j];
          assert ms[k + 1] == rest[j];
        }
      }
    }
  }

  // ----- tokens -----

  datatype Token =
    | LeftBrace | RightBrace          // the square brackets, as the scanner names them
    | LeftCurly | RightCurly
    | Comma | Colon
    | TString(s: string)
    | TInt(n: int)
    | TFloat(d: real)
    | TTrue | TFalse | TNull
    | Identifier(s: string) | Var | Other(c: char) | ScanError

  /** A parse tree of the grammar: like a tree, but a name may occur more than once. */
  datatype Syntax =
    | SNull
    | SBool(b: bool)
    | SInt(n: int)
    | SFloat(d: real)
    | SString(s: string)
    | SArray(items: seq<Syntax>)
    | SObject(fields: seq<Field>)

  datatype Field = Field(name: string, value: Syntax)

  function Tokens(s: Syntax): (ts: seq<Token>)
    ensures |ts| >= 1
  {
    match s
    case SNull => [TNull]
    case SBool(b) => [if b then TTrue else TFalse]
    case SInt(n) => [TInt(n)]
    case SFloat(d) => [TFloat(d)]
    case SString(t) => [TString(t)]
    case SArray(items) => [LeftBrace] + ItemTokens(items) + [RightBrace]
    case SObject(fields) => [LeftCurly] + FieldTokens(fields) + [RightCurly]
  }

  /** value *( "," value ), or nothing. */
  function ItemTokens(items: seq<Syntax>): seq<Token> {
    if items == [] then []
    else Tokens(items[0]) + (if |items| == 1 then [] else [Comma] + ItemTokens(items[1..]))
  }

  /** string ":" value, separated by commas, or nothing. */
  function FieldTokens(fields: seq<Field>): seq<Token> {
    if fields == [] then []
    else
      [TString(fields[0].name), Colon] + Tokens(fields[0].value)
      + (if |fields| == 1 then [] else [Comma] + FieldTokens(fields[1..]))
  }

  /** The tree a parse tree stands for: of several members with one name the last value
      counts, in the place of the first. */
  function Meaning(s: Syntax): Json {
    match s
    case SNull => Null
    case SBool(b) => Bool(b)
    case SInt(n) => Int(n)
    case SFloat(d) => Double(d)
    case SString(t) => Str(t)
    case SArray(items) => Arr(ItemMeanings(items))
    case SObject(fields) => Obj(FieldMeanings(fields, []))
  }

  function ItemMeanings(items: seq<Syntax>): seq<Json> {
    if items == [] then [] else [Meaning(items[0])] + ItemMeanings(items[1..])
  }

  function FieldMeanings(fields: seq<Field>, ms: seq<Member>): seq<Member>
    decreases fields
  {
    if fields == [] then ms
    else FieldMeanings(fields[1..], SetMember(ms, fields[0].name, Meaning(fields[0].value)))
  }

  function Max(a: nat, b: nat): nat { if a > b then a else b }

  /** How many containers are open at the deepest point. */
  function Depth(s: Syntax): nat {
    match s
    case SArray(items) => 1 + ItemsDepth(items)
    case SObject(fields) => 1 + FieldsDepth(fields)
    case _ => 0
  }

  function ItemsDepth(items: seq<Syntax>): nat {
    if items == [] then 0 else Max(Depth(items[0]), ItemsDepth(items[1..]))
  }

  function FieldsDepth(fields: seq<Field>): nat {
    if fields == [] then 0 else Max(Depth(fields[0].value), FieldsDepth(fields[1..]))
  }

  // ----- depth, counted in brackets -----

  function Opened(t: Token): int {
    if t == LeftBrace || t == LeftCurly then 1 else if t == RightBrace || t == RightCurly then -1 else 0
  }

  function HigherOf(a: int, b: int): int { if a > b then a else b }

  /** The most brackets open at once while reading the tokens, `open` being open before. */
  function Peak(ts: seq<Token>, open: int): (most: int)
    ensures most >= open
  {
    if ts == [] then open else HigherOf(open, Peak(ts[1..], open + Opened(ts[0])))
  }

  lemma PeakFirst(t: Token, rest: seq<Token>, open: int)
    ensures Peak([t] + rest, open) == HigherOf(open, Peak(rest, open + Opened(t)))
  {
    assert ([t] + rest)[1..] == rest;
  }

  /** Read anywhere, the tokens open `depth` brackets at most and close every one of them. */
  ghost predicate Reaches(ts: seq<Token>, depth: nat) {
    forall rest, open :: Peak(ts + rest, open) == HigherOf(open + depth, Peak(rest, open))
  }

  lemma NothingReaches()
    ensures Reaches([], 0)
  {
    forall rest, open ensures Peak([] + rest, open) == HigherOf(open, Peak(rest, open)) {
      assert [] + rest == rest;
    }
  }

  lemma OneReaches(t: Token)
    requires Opened(t) == 0
    ensures Reaches([t], 0)
  {
    forall rest, open ensures Peak([t] + rest, open) == HigherOf(open, Peak(rest, open)) {
      PeakFirst(t, rest, open);
    }
  }

  lemma BothReach(a: seq<Token>, da: nat, b: seq<Token>, db: nat)
    requires Reaches(a, da) && Reaches(b, db)
    ensures Reaches(a + b, Max(da, db))
  {
    forall rest, open ensures Peak(a + b + rest, open) == HigherOf(open + Max(da, db), Peak(rest, open)) {
      assert a + b + rest == a + (b + rest);
    }
  }

  lemma BracketedReaches(opening: Token, inside: seq<Token>, closing: Token, depth: nat)
    requires Opened(opening) == 1 && Opened(closing) == -1 && Reaches(inside, depth)
    ensures Reaches([opening] + inside + [closing], 1 + depth)
  {
    var ts := [opening] + inside + [closing];
    forall rest, open ensures Peak(ts + rest, open) == HigherOf(open + (1 + depth), Peak(rest, open)) {
      var after := inside + ([closing] + rest);
      assert ts + rest == [opening] + after;
      PeakFirst(opening, after, open);
      PeakFirst(closing, rest, open + 1);
    }
  }

  /** The depth of a parse tree shows in its tokens: it is the highest bracket count. */
  lemma {:induction false} TokensReachDepth(s: Syntax)
    ensures Reaches(Tokens(s), Depth(s))
    decreases s, 1
  {
    match s
    case SArray(items) =>
      ItemsReach(items);
      BracketedReaches(LeftBrace, ItemTokens(items), RightBrace, ItemsDepth(items));
    case SObject(fields) =>
      FieldsReach(fields);
      BracketedReaches(LeftCurly, FieldTokens(fields), RightCurly, FieldsDepth(fields));
    case _ =>
      OneReaches(Tokens(s)[0]);
      assert Tokens(s) == [Tokens(s)[0]];
  }

  lemma {:induction false} ItemsReach(items: seq<Syntax>)
    ensures Reaches(ItemTokens(items), ItemsDepth(items))
    decreases items, 0
  {
    NothingReaches();
    if items != [] {
      var others := items[1..];
      TokensReachDepth(items[0]);
      ItemsReach(others);
      OneReaches(Comma);
      BothReach([Comma], 0, ItemTokens(others), ItemsDepth(others));
      BothReach(Tokens(items[0]), Depth(items[0]),
                if |items| == 1 then [] else [Comma] + ItemTokens(others), ItemsDepth(others));
    }
  }

  lemma {:induction false} FieldsReach(fields: seq<Field>)
    ensures Reaches(FieldTokens(fields), FieldsDepth(fields))
    decreases fields, 0
  {
    NothingReaches();
    if fields != [] {
      var others, name, value := fields[1..], [TString(fields[0].name), Colon], fields[0].value;
      TokensReachDepth(value);
      FieldsReach(others);
      OneReaches(Comma);
      OneReaches(TString(fields[0].name));
      OneReaches(Colon);
      BothReach([TString(fields[0].name)], 0, [Colon], 0);
      assert [TString(fields[0].name)] + [Colon] == name;
      BothReach(name, 0, Tokens(value), Depth(value));
      BothReach([Comma], 0, FieldTokens(others), FieldsDepth(others));
      BothReach(name + Tokens(value), Depth(value),
                if |fields| == 1 then [] else [Comma] + FieldTokens(others), FieldsDepth(others));
    }
  }

  lemma SameTokensSameDepth(s: Syntax, t: Syntax)
    requires Tokens(s) == Tokens(t)
    ensures Depth(s) == Depth(t)
  {
    TokensReachDepth(s);
    TokensReachDepth(t);
    assert Peak(Tokens(s) + [], 0) == Peak(Tokens(t) + [], 0);
  }

  // ----- trees as parse trees -----

  function AsSyntax(j: Json): Syntax {
    match j
    case Null => SNull
    case Bool(b) => SBool(b)
    case Int(n) => SInt(n)
    case Double(d) => SFloat(d)
    case Str(t) => SString(t)
    case Arr(es) => SArray(AsItems(es))
    case Obj(ms) => SObject(AsFields(ms))
  }

  function AsItems(es: seq<Json>): (items: seq<Syntax>)
    ensures |items| == |es|
  {
    if es == [] then [] else [AsSyntax(es[0])] + AsItems(es[1..])
  }

  function AsFields(ms: seq<Member>): (fields: seq<Field>)
    ensures |fields| == |ms|
  {
    if ms == [] then [] else [Field(ms[0].name, AsSyntax(ms[0].value))] + AsFields(ms[1..])
  }

  function TreeDepth(j: Json): nat {
    Depth(AsSyntax(j))
  }

  /** A well-formed tree is what its own parse tree stands for, member order included. */
  lemma {:induction false} MeaningOfTree(j: Json)
    requires WellFormed(j)
    ensures Meaning(AsSyntax(j)) == j
    decreases j, 1
  {
    match j
    case Arr(es) => MeaningOfItems(es);
    case Obj(ms) =>
      assert [] + ms == ms;
      MeaningOfFields(ms, []);
    case _ =>
  }

  lemma {:induction false} MeaningOfItems(es: seq<Json>)
    requires forall i :: 0 <= i < |es| ==> WellFormed(es[i])
    ensures ItemMeanings(AsItems(es)) == es
    decreases es, 0
  {
    if es != [] {
      MeaningOfTree(es[0]);
      MeaningOfItems(es[1..]);
      assert AsItems(es)[1..] == AsItems(es[1..]);
    }
  }

  lemma {:induction false} MeaningOfFields(ms: seq<Member>, done: seq<Member>)
    requires UniqueNames(done + ms)
    requires forall i :: 0 <= i < |ms| ==> WellFormed(ms[i].value)
    ensures FieldMeanings(AsFields(ms), done) == done + ms
    decreases ms, 0
  {
    if ms == [] {
      assert done + ms == done;
    } else {
      MeaningOfTree(ms[0].value);
      forall i | 0 <= i < |done| ensures done[i].name != ms[0].name {
        assert (done + ms)[i] == done[i] && (done + ms)[|done|] == ms[0];
      }
      SetNewMember(done, ms[0].name, ms[0].value);
      assert (done + [ms[0]]) + ms[1..] == done + ms;
      MeaningOfFields(ms[1..], done + [ms[0]]);
      assert AsFields(ms)[1..] == AsFields(ms[1..]);
      assert Member(ms[0].name, ms[0].value) == ms[0];
    }
  }
}
