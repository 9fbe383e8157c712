/** The recursive-descent parser (json-parser.c), at the level of tokens. */
module JsonParser {
  import opened Wrappers
  import opened JsonTree

  const MAX_RECURSION_DEPTH := 1024

  datatype ErrorCode =
    | ErrorParse
    | ErrorTrailingComma
    | ErrorMissingComma
    | ErrorMissingColon
    | ErrorInvalidBareword
    | ErrorNesting
    | ErrorInvalidStructure

  /** A parsed value and the tokens after it. */
  datatype Parsed = Parsed(value: Json, rest: seq<Token>)

  type Parse = Result<Parsed, ErrorCode>

  /** The next token; None is the end of the input. */
  function Peek(ts: seq<Token>): Option<Token> {
    if ts == [] then None else Some(ts[0])
  }

  /** json_parse_value: anything but a scalar token is an error, whose code depends on
      whether a container is open. */
  function ValueOf(t: Option<Token>, inContainer: bool): Result<Json, ErrorCode> {
    match t
    case Some(TInt(n)) => Ok(Int(n))
    case Some(TFloat(d)) => Ok(Double(d))
    case Some(TString(s)) => Ok(Str(s))
    case Some(TTrue) => Ok(Bool(true))
    case Some(TFalse) => Ok(Bool(false))
    case Some(TNull) => Ok(Null)
    case Some(Identifier(_)) => Err(ErrorInvalidBareword)
    case _ => Err(if inContainer then ErrorParse else ErrorInvalidBareword)
  }

  /** An element of an array or the value of a member. */
  function ParseElement(ts: seq<Token>, nesting: nat): (r: Parse)
    ensures r.Ok? ==> |r.value.rest| < |ts|
    decreases |ts|, 2
  {
    if Peek(ts) == Some(LeftBrace) then ParseArray(ts, nesting)
    else if Peek(ts) == Some(LeftCurly) then ParseObject(ts, nesting)
    else
      match ValueOf(Peek(ts), true)
      case Err(e) => Err(e)
      case Ok(v) => Ok(Parsed(v, ts[1..]))
  }

  function ParseArray(ts: seq<Token>, nesting: nat): (r: Parse)
    requires Peek(ts) == Some(LeftBrace)
    ensures r.Ok? ==> |r.value.rest| < |ts|
    decreases |ts|, 1
  {
    if nesting >= MAX_RECURSION_DEPTH then Err(ErrorNesting) else ParseElements(ts[1..], [], nesting)
  }

  /** From the peek at an element on: at the closing bracket the array is done. */
  function ParseElements(ts: seq<Token>, done: seq<Json>, nesting: nat): (r: Parse)
    ensures r.Ok? ==> |r.value.rest| < |ts|
    decreases |ts|, 3
  {
    if Peek(ts) == Some(RightBrace) then Ok(Parsed(Arr(done), ts[1..]))
    else
      match ParseElement(ts, nesting + 1)
      case Err(e) => Err(e)
      case Ok(Parsed(v, rest)) =>
        if Peek(rest) == Some(RightBrace) then Ok(Parsed(Arr(done + [v]), rest[1..]))
        else if Peek(rest) != Some(Comma) then Err(ErrorMissingComma)
        else if Peek(rest[1..]) == Some(RightBrace) then Err(ErrorTrailingComma)
        else ParseElements(rest[1..], done + [v], nesting)
  }

  function ParseObject(ts: seq<Token>, nesting: nat): (r: Parse)
    requires Peek(ts) == Some(LeftCurly)
    ensures r.Ok? ==> |r.value.rest| < |ts|
    decreases |ts|, 1
  {
    if nesting >= MAX_RECURSION_DEPTH then Err(ErrorNesting) else ParseMembers(ts[1..], [], nesting)
  }

  /** From the peek at a member on. After a member anything but a comma or a string goes
      round the loop again, where only the closing bracket is accepted. */
  function ParseMembers(ts: seq<Token>, done: seq<Member>, nesting: nat): (r: Parse)
    ensures r.Ok? ==> |r.value.rest| < |ts|
    decreases |ts|, 3
  {
    if Peek(ts) == Some(RightCurly) then Ok(Parsed(Obj(done), ts[1..]))
    else if Peek(ts).None? || !Peek(ts).value.TString? then Err(ErrorInvalidBareword)
    else if Peek(ts[1..]) != Some(Colon) then Err(ErrorMissingColon)
    else
      var name := ts[0].s;
      match ParseElement(ts[2..], nesting + 1)
      case Err(e) => Err(e)
      case Ok(Parsed(v, rest)) =>
        if Peek(rest) == Some(Comma) then
          if Peek(rest[1..]) == Some(RightCurly) then Err(ErrorTrailingComma)
          else ParseMembers(rest[1..], SetMember(done, name, v), nesting)
        else if Peek(rest).Some? && Peek(rest).value.TString? then Err(ErrorMissingComma)
        else ParseMembers(rest, SetMember(done, name, v), nesting)
  }

  // ----- one turn of each loop -----

  lemma LastElement(ts: seq<Token>, done: seq<Json>, nesting: nat, v: Json, rest: seq<Token>)
    requires Peek(ts) != Some(RightBrace)
    requires ParseElement(ts, nesting + 1) == Ok(Parsed(v, [RightBrace] + rest))
    ensures ParseElements(ts, done, nesting) == Ok(Parsed(Arr(done + [v]), rest))
  {
    assert ([RightBrace] + rest)[1..] == rest;
  }

  lemma OneMoreElement(ts: seq<Token>, done: seq<Json>, nesting: nat, v: Json, rest: seq<Token>)
    requires Peek(ts) != Some(RightBrace)
    requires ParseElement(ts, nesting + 1) == Ok(Parsed(v, [Comma] + rest)) && Peek(rest) != Some(RightBrace)
    ensures ParseElements(ts, done, nesting) == ParseElements(rest, done + [v], nesting)
  {
    assert ([Comma] + rest)[1..] == rest;
  }

  lemma NoMoreElements(rest: seq<Token>, done: seq<Json>, nesting: nat)
    ensures ParseElements([RightBrace] + rest, done, nesting) == Ok(Parsed(Arr(done), rest))
  {
    assert ([RightBrace] + rest)[1..] == rest;
  }

  lemma NoMoreMembers(rest: seq<Token>, done: seq<Member>, nesting: nat)
    ensures ParseMembers([RightCurly] + rest, done, nesting) == Ok(Parsed(Obj(done), rest))
  {
    assert ([RightCurly] + rest)[1..] == rest;
  }

  lemma LastMember(name: string, ts: seq<Token>, done: seq<Member>, nesting: nat, v: Json, rest: seq<Token>)
    requires ParseElement(ts, nesting + 1) == Ok(Parsed(v, [RightCurly] + rest))
    ensures ParseMembers([TString(name), Colon] + ts, done, nesting) == Ok(Parsed(Obj(SetMember(done, name, v)), rest))
  {
    var all := [TString(name), Colon] + ts;
    assert all[1..][0] == Colon && all[2..] == ts;
    NoMoreMembers(rest, SetMember(done, name, v), nesting);
  }

  lemma OneMoreMember(name: string, ts: seq<Token>, done: seq<Member>, nesting: nat, v: Json, rest: seq<Token>)
    requires ParseElement(ts, nesting + 1) == Ok(Parsed(v, [Comma] + rest)) && Peek(rest) != Some(RightCurly)
    ensures ParseMembers([TString(name), Colon] + ts, done, nesting) == ParseMembers(rest, SetMember(done, name, v), nesting)
  {
    var all := [TString(name), Colon] + ts;
    assert all[1..][0] == Colon && all[2..] == ts;
    assert ([Comma] + rest)[1..] == rest;
  }

  // ----- what derives parses -----

  lemma StartOfTokens(s: Syntax, rest: seq<Token>)
    ensures
      var t := Tokens(s)[0];
      && Peek(Tokens(s) + rest) == Some(t)
      && (t == LeftBrace <==> s.SArray?) && (t == LeftCurly <==> s.SObject?)
      && t != RightBrace && t != RightCurly && t != Comma
  {
    assert (Tokens(s) + rest)[0] == Tokens(s)[0];
  }

  lemma {:induction false} ElementParses(s: Syntax, rest: seq<Token>, nesting: nat)
    requires nesting + Depth(s) <= MAX_RECURSION_DEPTH
    ensures ParseElement(Tokens(s) + rest, nesting) == Ok(Parsed(Meaning(s), rest))
    decreases s, 1
  {
    match s
    case SArray(items) =>
      ItemsParse(items, rest, [], nesting);
      ArrayParses(items, rest, nesting);
    case SObject(fields) =>
      FieldsParse(fields, rest, [], nesting);
      ObjectParses(fields, rest, nesting);
    case _ =>
      ScalarParses(s, rest, nesting);
  }

  lemma ArrayParses(items: seq<Syntax>, rest: seq<Token>, nesting: nat)
    requires nesting < MAX_RECURSION_DEPTH
    requires ParseElements(ItemTokens(items) + ([RightBrace] + rest), [], nesting) == Ok(Parsed(Arr([] + ItemMeanings(items)), rest))
    ensures ParseElement(Tokens(SArray(items)) + rest, nesting) == Ok(Parsed(Arr(ItemMeanings(items)), rest))
  {
    var body := ItemTokens(items) + ([RightBrace] + rest);
    var all := [LeftBrace] + body;
    assert Tokens(SArray(items)) + rest == all;
    assert all[1..] == body;
    assert [] + ItemMeanings(items) == ItemMeanings(items);
  }

  lemma ObjectParses(fields: seq<Field>, rest: seq<Token>, nesting: nat)
    requires nesting < MAX_RECURSION_DEPTH
    requires ParseMembers(FieldTokens(fields) + ([RightCurly] + rest), [], nesting) == Ok(Parsed(Obj(FieldMeanings(fields, [])), rest))
    ensures ParseElement(Tokens(SObject(fields)) + rest, nesting) == Ok(Parsed(Obj(FieldMeanings(fields, [])), rest))
  {
    var body := FieldTokens(fields) + ([RightCurly] + rest);
    var all := [LeftCurly] + body;
    assert Tokens(SObject(fields)) + rest == all;
    assert all[1..] == body;
  }

  lemma ScalarParses(s: Syntax, rest: seq<Token>, nesting: nat)
    requires !s.SArray? && !s.SObject?
    ensures ParseElement(Tokens(s) + rest, nesting) == Ok(Parsed(Meaning(s), rest))
  {
    StartOfTokens(s, rest);
    assert (Tokens(s) + rest)[1..] == rest;
  }

  lemma {:induction false} ItemsParse(items: seq<Syntax>, rest: seq<Token>, done: seq<Json>, nesting: nat)
    requires nesting < MAX_RECURSION_DEPTH && nesting + 1 + ItemsDepth(items) <= MAX_RECURSION_DEPTH
    ensures ParseElements(ItemTokens(items) + ([RightBrace] + rest), done, nesting)
         == Ok(Parsed(Arr(done + ItemMeanings(items)), rest))
    decreases items, 0
  {
    var end := [RightBrace] + rest;
    if items == [] {
      assert ItemTokens(items) + end == end && done + [] == done;
      NoMoreElements(rest, done, nesting);
      return;
    }
    var v, others := Meaning(items[0]), items[1..];
    assert done + [v] + ItemMeanings(others) == done + ItemMeanings(items);
    if |items| == 1 {
      assert ItemTokens(items) + end == Tokens(items[0]) + end;
      StartOfTokens(items[0], end);
      ElementParses(items[0], end, nesting + 1);
      LastElement(Tokens(items[0]) + end, done, nesting, v, rest);
      assert ItemMeanings(items) == [v];
    } else {
      var tail := ItemTokens(others) + end;
      assert ItemTokens(items) + end == Tokens(items[0]) + ([Comma] + tail);
      StartOfTokens(items[0], [Comma] + tail);
      ElementParses(items[0], [Comma] + tail, nesting + 1);
      StartOfItems(others, end);
      OneMoreElement(Tokens(items[0]) + ([Comma] + tail), done, nesting, v, tail);
      ItemsParse(others, rest, done + [v], nesting);
    }
  }

  lemma StartOfItems(items: seq<Syntax>, end: seq<Token>)
    requires items != []
    ensures Peek(ItemTokens(items) + end) != Some(RightBrace)
  {
    var more := (if |items| == 1 then [] else [Comma] + ItemTokens(items[1..])) + end;
    assert ItemTokens(items) + end == Tokens(items[0]) + more;
    StartOfTokens(items[0], more);
  }

  lemma {:induction false} FieldsParse(fields: seq<Field>, rest: seq<Token>, done: seq<Member>, nesting: nat)
    requires nesting < MAX_RECURSION_DEPTH && nesting + 1 + FieldsDepth(fields) <= MAX_RECURSION_DEPTH
    ensures ParseMembers(FieldTokens(fields) + ([RightCurly] + rest), done, nesting)
         == Ok(Parsed(Obj(FieldMeanings(fields, done)), rest))
    decreases fields, 0
  {
    var end := [RightCurly] + rest;
    if fields == [] {
      assert FieldTokens(fields) + end == end;
      NoMoreMembers(rest, done, nesting);
      return;
    }
    var name, v, others := fields[0].name, Meaning(fields[0].value), fields[1..];
    if |fields| == 1 {
      assert FieldTokens(fields) + end == [TString(name), Colon] + (Tokens(fields[0].value) + end);
      ElementParses(fields[0].value, end, nesting + 1);
      LastMember(name, Tokens(fields[0].value) + end, done, nesting, v, rest);
      assert FieldMeanings(others, SetMember(done, name, v)) == SetMember(done, name, v);
    } else {
      var tail := FieldTokens(others) + end;
      assert FieldTokens(fields) + end == [TString(name), Colon] + (Tokens(fields[0].value) + ([Comma] + tail));
      ElementParses(fields[0].value, [Comma] + tail, nesting + 1);
      StartOfFields(others, end);
      OneMoreMember(name, Tokens(fields[0].value) + ([Comma] + tail), done, nesting, v, tail);
      FieldsParse(others, rest, SetMember(done, name, v), nesting);
    }
  }

  lemma StartOfFields(fields: seq<Field>, end: seq<Token>)
    requires fields != []
    ensures Peek(FieldTokens(fields) + end) == Some(TString(fields[0].name))
  {
  }

  // ----- what parses derives -----

  /** `s` derives the tokens consumed, means the value built, and is not nested too deeply. */
  ghost predicate Derives(s: Syntax, ts: seq<Token>, nesting: nat, p: Parsed) {
    && ts == Tokens(s) + p.rest
    && p.value == Meaning(s)
    && nesting + Depth(s) <= MAX_RECURSION_DEPTH
  }

  lemma {:induction false} ParsedElementDerives(ts: seq<Token>, nesting: nat) returns (s: Syntax)
    requires nesting <= MAX_RECURSION_DEPTH && ParseElement(ts, nesting).Ok?
    ensures Derives(s, ts, nesting, ParseElement(ts, nesting).value)
    decreases |ts|, 2
  {
    var first, later := ts[0], ts[1..];
    assert ts == [first] + later;
    match first
    case LeftBrace =>
      var items := ParsedItemsDerive(later, [], nesting);
      s := SArray(items);
      assert [] + ItemMeanings(items) == ItemMeanings(items);
    case LeftCurly =>
      var fields := ParsedFieldsDerive(later, [], nesting);
      s := SObject(fields);
    case TInt(n) => s := SInt(n);
    case TFloat(d) => s := SFloat(d);
    case TString(t) => s := SString(t);
    case TTrue => s := SBool(true);
    case TFalse => s := SBool(false);
    case _ => s := SNull;
  }

  /** The items derive the tokens up to the closing bracket and continue the elements done. */
  ghost predicate ItemsDerive(items: seq<Syntax>, ts: seq<Token>, done: seq<Json>, nesting: nat, p: Parsed) {
    && ts == ItemTokens(items) + [RightBrace] + p.rest
    && p.value == Arr(done + ItemMeanings(items))
    && nesting + 1 + ItemsDepth(items) <= MAX_RECURSION_DEPTH
    && (Peek(ts) != Some(RightBrace) ==> items != [])
  }

  lemma LastItemDerives(first: Syntax, ts: seq<Token>, done: seq<Json>, nesting: nat, e: Parsed)
    requires Derives(first, ts, nesting + 1, e) && Peek(e.rest) == Some(RightBrace)
    ensures ItemsDerive([first], ts, done, nesting, Parsed(Arr(done + [e.value]), e.rest[1..]))
  {
    assert [first][1..] == [];
    assert e.rest == [RightBrace] + e.rest[1..];
    assert ItemMeanings([first]) == [e.value] && ItemTokens([first]) == Tokens(first);
  }

  lemma NextItemDerives(first: Syntax, others: seq<Syntax>, ts: seq<Token>, done: seq<Json>, nesting: nat, e: Parsed, p: Parsed)
    requires Derives(first, ts, nesting + 1, e) && Peek(e.rest) == Some(Comma) && others != []
    requires ItemsDerive(others, e.rest[1..], done + [e.value], nesting, p)
    ensures ItemsDerive([first] + others, ts, done, nesting, p)
  {
    var items := [first] + others;
    assert items[1..] == others;
    assert e.rest == [Comma] + e.rest[1..];
    assert done + [e.value] + ItemMeanings(others) == done + ItemMeanings(items);
    assert ItemTokens(items) == Tokens(first) + ([Comma] + ItemTokens(others));
  }

  lemma {:induction false} ParsedItemsDerive(ts: seq<Token>, done: seq<Json>, nesting: nat) returns (items: seq<Syntax>)
    requires nesting < MAX_RECURSION_DEPTH && ParseElements(ts, done, nesting).Ok?
    ensures ItemsDerive(items, ts, done, nesting, ParseElements(ts, done, nesting).value)
    decreases |ts|, 3
  {
    if Peek(ts) == Some(RightBrace) {
      items := [];
      assert ts == [RightBrace] + ts[1..] && done + [] == done;
      return;
    }
    var e := ParseElement(ts, nesting + 1).value;
    var first := ParsedElementDerives(ts, nesting + 1);
    if Peek(e.rest) == Some(RightBrace) {
      items := [first];
      LastItemDerives(first, ts, done, nesting, e);
    } else {
      var others := ParsedItemsDerive(e.rest[1..], done + [e.value], nesting);
      items := [first] + others;
      NextItemDerives(first, others, ts, done, nesting, e, ParseElements(ts, done, nesting).value);
    }
  }

  ghost predicate FieldsDerive(fields: seq<Field>, ts: seq<Token>, done: seq<Member>, nesting: nat, p: Parsed) {
    && ts == FieldTokens(fields) + [RightCurly] + p.rest
    && p.value == Obj(FieldMeanings(fields, done))
    && nesting + 1 + FieldsDepth(fields) <= MAX_RECURSION_DEPTH
    && (Peek(ts) != Some(RightCurly) ==> fields != [])
  }

  /** The name, colon and value of a member are the first tokens of `ts`. */
  ghost predicate FieldDerives(f: Field, ts: seq<Token>, nesting: nat, e: Parsed) {
    && ts == [TString(f.name), Colon] + (Tokens(f.value) + e.rest)
    && e.value == Meaning(f.value)
    && nesting + 1 + Depth(f.value) <= MAX_RECURSION_DEPTH
  }

  lemma LastFieldDerives(f: Field, ts: seq<Token>, done: seq<Member>, nesting: nat, e: Parsed)
    requires FieldDerives(f, ts, nesting, e) && Peek(e.rest) == Some(RightCurly)
    ensures FieldsDerive([f], ts, done, nesting, Parsed(Obj(SetMember(done, f.name, e.value)), e.rest[1..]))
  {
    assert [f][1..] == [];
    assert e.rest == [RightCurly] + e.rest[1..];
    assert FieldTokens([f]) == [TString(f.name), Colon] + Tokens(f.value);
    assert FieldMeanings([f], done) == FieldMeanings([], SetMember(done, f.name, e.value));
  }

  lemma NextFieldDerives(f: Field, others: seq<Field>, ts: seq<Token>, done: seq<Member>, nesting: nat, e: Parsed, p: Parsed)
    requires FieldDerives(f, ts, nesting, e) && Peek(e.rest) == Some(Comma) && others != []
    requires FieldsDerive(others, e.rest[1..], SetMember(done, f.name, e.value), nesting, p)
    ensures FieldsDerive([f] + others, ts, done, nesting, p)
  {
    var fields := [f] + others;
    assert fields[1..] == others;
    assert e.rest == [Comma] + e.rest[1..];
    assert FieldTokens(fields) == [TString(f.name), Colon] + Tokens(f.value) + ([Comma] + FieldTokens(others));
  }

  /** The name, colon and value at the front of `ts`, as a member. */
  lemma {:induction false} ParsedFieldDerives(ts: seq<Token>, nesting: nat) returns (f: Field)
    requires nesting < MAX_RECURSION_DEPTH && |ts| >= 2 && ts[0].TString? && ts[1] == Colon
    requires ParseElement(ts[2..], nesting + 1).Ok?
    ensures f.name == ts[0].s && FieldDerives(f, ts, nesting, ParseElement(ts[2..], nesting + 1).value)
    decreases |ts|, 2
  {
    var value := ParsedElementDerives(ts[2..], nesting + 1);
    f := Field(ts[0].s, value);
    assert ts == [ts[0], ts[1]] + ts[2..];
    assert ts[0] == TString(f.name);
  }

  lemma {:induction false} ParsedFieldsDerive(ts: seq<Token>, done: seq<Member>, nesting: nat) returns (fields: seq<Field>)
    requires nesting < MAX_RECURSION_DEPTH && ParseMembers(ts, done, nesting).Ok?
    ensures FieldsDerive(fields, ts, done, nesting, ParseMembers(ts, done, nesting).value)
    decreases |ts|, 3
  {
    if Peek(ts) == Some(RightCurly) {
      fields := [];
      assert ts == [RightCurly] + ts[1..];
      return;
    }
    var f := ParsedFieldDerives(ts, nesting);
    var e := ParseElement(ts[2..], nesting + 1).value;
    if Peek(e.rest) == Some(Comma) {
      var others := ParsedFieldsDerive(e.rest[1..], SetMember(done, f.name, e.value), nesting);
      fields := [f] + others;
      NextFieldDerives(f, others, ts, done, nesting, e, ParseMembers(ts, done, nesting).value);
    } else {
      // Only the closing bracket gets past the next turn of the loop.
      fields := [f];
      LastFieldDerives(f, ts, done, nesting, e);
    }
  }

  /** Parsing a container succeeds, with value `j` and remaining tokens `rest`, exactly when
      the consumed tokens derive a parse tree with that meaning that opens at most 1024
      containers at a time. */
  lemma {:induction false} ContainerParsesIff(ts: seq<Token>, j: Json, rest: seq<Token>)
    requires Peek(ts) == Some(LeftBrace) || Peek(ts) == Some(LeftCurly)
    ensures ParseElement(ts, 0) == Ok(Parsed(j, rest)) <==> exists s :: Derives(s, ts, 0, Parsed(j, rest))
  {
    if ParseElement(ts, 0) == Ok(Parsed(j, rest)) {
      var s := ParsedElementDerives(ts, 0);
      assert Derives(s, ts, 0, Parsed(j, rest));
    }
    if s :| Derives(s, ts, 0, Parsed(j, rest)) {
      ElementParses(s, rest, 0);
    }
  }

  /** No token sequence derives two values, and no derived sequence is the start of another. */
  lemma {:induction false} DerivationIsUnique(s1: Syntax, rest1: seq<Token>, s2: Syntax, rest2: seq<Token>)
    requires Tokens(s1) + rest1 == Tokens(s2) + rest2
    requires Depth(s1) <= MAX_RECURSION_DEPTH && Depth(s2) <= MAX_RECURSION_DEPTH
    ensures Meaning(s1) == Meaning(s2) && rest1 == rest2
  {
    ElementParses(s1, rest1, 0);
    ElementParses(s2, rest2, 0);
  }

  // ----- the parser's own loops -----

  class Scanner {
    var input: seq<Token>

    constructor (tokens: seq<Token>)
      ensures input == tokens
    {
      input := tokens;
    }

    method PeekNextToken() returns (t: Option<Token>)
      ensures t == Peek(input)
    {
      t := Peek(input);
    }

    /** At the end of the input the scanner stays where it is. */
    method GetNextToken() returns (t: Option<Token>)
      modifies this
      ensures t == Peek(old(input))
      ensures input == if old(input) == [] then [] else old(input)[1..]
    {
      t := Peek(input);
      if input != [] {
        input := input[1..];
      }
    }
  }

  type Outcome = Result<Json, ErrorCode>

  /** The outcome of a method, and the tokens it left, are those of a parse. */
  ghost predicate Agrees(o: Outcome, left: seq<Token>, p: Parse) {
    match p
    case Ok(Parsed(v, rest)) => o == Ok(v) && left == rest
    case Err(e) => o == Err(e)
  }

  method ScanElement(scanner: Scanner, nesting: nat) returns (o: Outcome)
    modifies scanner
    ensures Agrees(o, scanner.input, ParseElement(old(scanner.input), nesting))
    decreases |scanner.input|, 2
  {
    var next := scanner.PeekNextToken();
    match next
    case Some(LeftBrace) => o := ScanArray(scanner, nesting);
    case Some(LeftCurly) => o := ScanObject(scanner, nesting);
    case _ =>
      var token := scanner.GetNextToken();
      o := ValueOf(token, true);
  }

  /** json_parse_array */
  method ScanArray(scanner: Scanner, nesting: nat) returns (o: Outcome)
    requires Peek(scanner.input) == Some(LeftBrace)
    modifies scanner
    ensures Agrees(o, scanner.input, ParseArray(old(scanner.input), nesting))
    decreases |scanner.input|, 1
  {
    if nesting >= MAX_RECURSION_DEPTH {
      return Err(ErrorNesting);
    }
    ghost var whole := ParseArray(scanner.input, nesting);
    var token := scanner.GetNextToken();
    var elements: seq<Json> := [];
    while token != Some(RightBrace)
      invariant |scanner.input| < |old(scanner.input)|
      invariant token == Some(RightBrace) ==> Peek(scanner.input) == Some(RightBrace)
      invariant whole == ParseElements(scanner.input, elements, nesting)
      decreases |scanner.input|, token != Some(RightBrace)
    {
      var next := scanner.PeekNextToken();
      if next == Some(RightBrace) {
        break;
      }
      var element := ScanElement(scanner, nesting + 1);
      if element.Err? {
        return element;
      }
      next := scanner.PeekNextToken();
      if next != Some(Comma) && next != Some(RightBrace) {
        return Err(ErrorMissingComma);
      }
      if next == Some(Comma) {
        token := scanner.GetNextToken();
        next := scanner.PeekNextToken();
        if next == Some(RightBrace) {
          return Err(ErrorTrailingComma);
        }
      }
      elements := elements + [element.value];
      token := next;
    }
    token := scanner.GetNextToken();
    o := Ok(Arr(elements));
  }

  /** json_parse_object */
  method ScanObject(scanner: Scanner, nesting: nat) returns (o: Outcome)
    requires Peek(scanner.input) == Some(LeftCurly)
    modifies scanner
    ensures Agrees(o, scanner.input, ParseObject(old(scanner.input), nesting))
    decreases |scanner.input|, 1
  {
    if nesting >= MAX_RECURSION_DEPTH {
      return Err(ErrorNesting);
    }
    ghost var whole := ParseObject(scanner.input, nesting);
    var token := scanner.GetNextToken();
    var members: seq<Member> := [];
    while token != Some(RightCurly)
      invariant |scanner.input| < |old(scanner.input)|
      invariant token == Some(RightCurly) ==> Peek(scanner.input) == Some(RightCurly)
      invariant whole == ParseMembers(scanner.input, members, nesting)
      decreases |scanner.input|, token != Some(RightCurly)
    {
      var next := scanner.PeekNextToken();
      if next == Some(RightCurly) {
        break;
      }
      if next.None? || !next.value.TString? {
        return Err(ErrorInvalidBareword);
      }
      token := scanner.GetNextToken();
      var name := token.value.s;
      next := scanner.PeekNextToken();
      if next != Some(Colon) {
        return Err(ErrorMissingColon);
      }
      token := scanner.GetNextToken();
      var member := ScanElement(scanner, nesting + 1);
      if member.Err? {
        return member;
      }
      next := scanner.PeekNextToken();
      if next == Some(Comma) {
        token := scanner.GetNextToken();
        next := scanner.PeekNextToken();
        if next == Some(RightCurly) {
          return Err(ErrorTrailingComma);
        }
      } else if next.Some? && next.value.TString? {
        return Err(ErrorMissingComma);
      }
      members := SetMember(members, name, member.value);
      token := next;
    }
    token := scanner.GetNextToken();
    o := Ok(Obj(members));
  }
}
