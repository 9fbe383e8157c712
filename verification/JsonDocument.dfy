/** Whole documents: the statement loop of json_parser_load (json-parser.c), without the
    `var name =` assignments of the lenient mode. */
module JsonDocument {
  import opened Wrappers
  import opened JsonTree
  import opened JsonParser

  datatype DocumentError = Empty | Syntax(code: ErrorCode) | SecondValue | SecondContainer | Assignment | Unknown

  /** The root after a statement and the tokens after it. */
  datatype Progress = Progress(root: Option<Json>, rest: seq<Token>)

  predicate OpensContainer(t: Token) {
    t == LeftBrace || t == LeftCurly
  }

  predicate StartsScalar(t: Token) {
    t.TNull? || t.TTrue? || t.TFalse? || t == Other('-') || t.TInt? || t.TFloat? || t.TString? || t.Identifier?
  }

  /** The value of a lone scalar, or the error json_parse_value gives for it. */
  function ParseScalar(ts: seq<Token>): (r: Parse)
    requires ts != []
    ensures r.Ok? ==> r.value.rest == ts[1..]
  {
    match ValueOf(Some(ts[0]), false)
    case Err(e) => Err(e)
    case Ok(v) => Ok(Parsed(v, ts[1..]))
  }

  /** The first value becomes the root; a later one is parsed and dropped. */
  function Keep(p: Parse, root: Option<Json>): Result<Progress, DocumentError> {
    match p
    case Err(e) => Err(Syntax(e))
    case Ok(Parsed(v, rest)) => Ok(Progress(if root.None? then Some(v) else root, rest))
  }

  /** json_parse_statement. The strict mode stops at a second container; the lenient one
      reads it and drops it. */
  function ParseStatement(ts: seq<Token>, root: Option<Json>, strict: bool): (r: Result<Progress, DocumentError>)
    requires ts != [] && (strict || Var !in ts)
    ensures r.Ok? ==> |r.value.rest| < |ts|
  {
    if OpensContainer(ts[0]) then
      if strict && root.Some? then Err(SecondContainer) else Keep(ParseElement(ts, 0), root)
    else if ts[0] == Var then Err(Assignment)
    else if StartsScalar(ts[0]) then
      if root.Some? then Err(SecondValue) else Keep(ParseScalar(ts), root)
    else Err(Unknown)
  }

  /** The loop of json_parser_load, from a statement on. */
  function LoadFrom(ts: seq<Token>, root: Option<Json>, strict: bool): Result<Option<Json>, DocumentError>
    requires strict || Var !in ts
    decreases |ts|
  {
    if ts == [] then Ok(root)
    else
      match ParseStatement(ts, root, strict)
      case Err(e) => Err(e)
      case Ok(Progress(next, rest)) =>
        StatementLeavesASuffix(ts, root, strict);
        LoadFrom(rest, next, strict)
  }

  /** json_parser_load on the tokens of a text: the strict mode refuses a text that holds nothing
      but white space. */
  function LoadDocument(ts: seq<Token>, strict: bool): Result<Option<Json>, DocumentError>
    requires strict || Var !in ts
  {
    if strict && ts == [] then Err(Empty) else LoadFrom(ts, None, strict)
  }

  lemma StatementLeavesASuffix(ts: seq<Token>, root: Option<Json>, strict: bool)
    requires ts != [] && (strict || Var !in ts) && ParseStatement(ts, root, strict).Ok?
    ensures strict || Var !in ParseStatement(ts, root, strict).value.rest
  {
    if OpensContainer(ts[0]) {
      var s := ParsedElementDerives(ts, 0);
      assert ts == Tokens(s) + ParseElement(ts, 0).value.rest;
    }
  }

  // ----- the grammar of documents -----

  function Document(ss: seq<Syntax>): seq<Token> {
    if ss == [] then [] else Tokens(ss[0]) + Document(ss[1..])
  }

  predicate IsContainer(s: Syntax) {
    s.SArray? || s.SObject?
  }

  /** After the first value only containers follow, in strict mode none at all; no value opens
      more than 1024 containers. */
  ghost predicate Acceptable(ss: seq<Syntax>, root: Option<Json>, strict: bool) {
    && (forall i :: 0 <= i < |ss| ==> Depth(ss[i]) <= MAX_RECURSION_DEPTH)
    && (forall i :: (if root.None? then 1 else 0) <= i < |ss| ==> IsContainer(ss[i]))
    && (strict ==> |ss| <= if root.None? then 1 else 0)
  }

  function RootOf(ss: seq<Syntax>, root: Option<Json>): Option<Json> {
    if root.None? && ss != [] then Some(Meaning(ss[0])) else root
  }

  ghost predicate IsDocument(ss: seq<Syntax>, ts: seq<Token>, root: Option<Json>, strict: bool, result: Option<Json>) {
    ts == Document(ss) && Acceptable(ss, root, strict) && result == RootOf(ss, root)
  }

  lemma StatementParses(s: Syntax, rest: seq<Token>, root: Option<Json>, strict: bool)
    requires Depth(s) <= MAX_RECURSION_DEPTH
    requires strict || Var !in Tokens(s) + rest
    requires root.None? || (IsContainer(s) && !strict)
    ensures ParseStatement(Tokens(s) + rest, root, strict)
         == Ok(Progress(if root.None? then Some(Meaning(s)) else root, rest))
  {
    var ts := Tokens(s) + rest;
    StartOfTokens(s, rest);
    if IsContainer(s) {
      ElementParses(s, rest, 0);
    } else {
      assert ts[0] == Tokens(s)[0] && ts[1..] == rest;
    }
  }

  lemma {:induction false} DocumentLoads(ss: seq<Syntax>, root: Option<Json>, strict: bool)
    requires strict || Var !in Document(ss)
    requires Acceptable(ss, root, strict)
    ensures LoadFrom(Document(ss), root, strict) == Ok(RootOf(ss, root))
    decreases |ss|
  {
    if ss != [] {
      var next := if root.None? then Some(Meaning(ss[0])) else root;
      var rest := Document(ss[1..]);
      StatementParses(ss[0], rest, root, strict);
      assert Document(ss) == Tokens(ss[0]) + rest;
      DocumentLoads(ss[1..], next, strict);
    }
  }

  lemma StatementDerives(ts: seq<Token>, root: Option<Json>, strict: bool) returns (s: Syntax)
    requires ts != [] && (strict || Var !in ts) && ParseStatement(ts, root, strict).Ok?
    ensures
      var p := ParseStatement(ts, root, strict).value;
      && ts == Tokens(s) + p.rest && Depth(s) <= MAX_RECURSION_DEPTH
      && p.root == (if root.None? then Some(Meaning(s)) else root)
      && (root.Some? ==> IsContainer(s) && !strict)
  {
    if OpensContainer(ts[0]) {
      s := ParsedElementDerives(ts, 0);
      StartOfTokens(s, ParseElement(ts, 0).value.rest);
    } else {
      s := ScalarDerives(ts);
    }
  }

  lemma ScalarDerives(ts: seq<Token>) returns (s: Syntax)
    requires ts != [] && ParseScalar(ts).Ok?
    ensures ts == Tokens(s) + ts[1..] && Depth(s) == 0 && ParseScalar(ts).value.value == Meaning(s)
  {
    assert ts == [ts[0]] + ts[1..];
    match ts[0]
    case TInt(n) => s := SInt(n);
    case TFloat(d) => s := SFloat(d);
    case TString(t) => s := SString(t);
    case TTrue => s := SBool(true);
    case TFalse => s := SBool(false);
    case _ => s := SNull;
  }

  lemma {:induction false} LoadedDerives(ts: seq<Token>, root: Option<Json>, strict: bool) returns (ss: seq<Syntax>)
    requires strict || Var !in ts
    requires LoadFrom(ts, root, strict).Ok?
    ensures IsDocument(ss, ts, root, strict, LoadFrom(ts, root, strict).value)
    decreases |ts|
  {
    if ts == [] {
      return [];
    }
    var p := ParseStatement(ts, root, strict).value;
    var s := StatementDerives(ts, root, strict);
    StatementLeavesASuffix(ts, root, strict);
    var others := LoadedDerives(p.rest, p.root, strict);
    ss := [s] + others;
    assert ss[1..] == others;
    MoreIsAcceptable(s, others, root, strict);
  }

  lemma MoreIsAcceptable(s: Syntax, others: seq<Syntax>, root: Option<Json>, strict: bool)
    requires Depth(s) <= MAX_RECURSION_DEPTH && (root.Some? ==> IsContainer(s) && !strict)
    requires Acceptable(others, Some(Null), strict)
    ensures Acceptable([s] + others, root, strict)
  {
  }

  /** A document loads exactly when it is a first value followed, in the lenient mode, by any
      number of containers; the first value is the root and the later ones leave no trace.
      The empty document loads too, without a root, but only in the lenient mode. */
  lemma LoadsIff(ts: seq<Token>, strict: bool, result: Option<Json>)
    requires strict || Var !in ts
    ensures LoadDocument(ts, strict) == Ok(result)
       <==> !(strict && ts == []) && exists ss :: IsDocument(ss, ts, None, strict, result)
  {
    if LoadDocument(ts, strict) == Ok(result) {
      var ss := LoadedDerives(ts, None, strict);
      assert IsDocument(ss, ts, None, strict, result);
    }
    if !(strict && ts == []) && exists ss :: IsDocument(ss, ts, None, strict, result) {
      var ss :| IsDocument(ss, ts, None, strict, result);
      DocumentLoads(ss, None, strict);
    }
  }

  /** In strict mode exactly the single values load, and there is always a root. */
  lemma StrictLoadsIff(ts: seq<Token>, j: Json)
    ensures LoadDocument(ts, true) == Ok(Some(j)) <==> exists s :: Derives(s, ts, 0, Parsed(j, []))
    ensures LoadDocument(ts, true) != Ok(None)
  {
    LoadsIff(ts, true, Some(j));
    if LoadDocument(ts, true) == Ok(Some(j)) {
      var ss :| IsDocument(ss, ts, None, true, Some(j));
      assert ss == [ss[0]] && Document(ss[1..]) == [];
      assert Derives(ss[0], ts, 0, Parsed(j, []));
    }
    if s :| Derives(s, ts, 0, Parsed(j, [])) {
      var ss := [s];
      assert Document(ss) == Tokens(s) + Document(ss[1..]);
      StartOfTokens(s, []);
      assert Tokens(s) + [] == Tokens(s);
      assert IsDocument(ss, ts, None, true, Some(j));
    }
    RootIsThere(ts);
  }

  lemma RootIsThere(ts: seq<Token>)
    ensures LoadDocument(ts, true) != Ok(None)
  {
    LoadsIff(ts, true, None);
    forall ss | IsDocument(ss, ts, None, true, None) ensures ts == [] {
    }
  }

  // ----- the parser object -----

  class Parser {
    const strict: bool
    var root: Option<Json>

    constructor (isStrict: bool)
      ensures strict == isStrict && root == None
    {
      strict := isStrict;
      root := None;
    }

    method Statement(scanner: Scanner) returns (error: Option<DocumentError>)
      requires scanner.input != [] && (strict || Var !in scanner.input)
      modifies this, scanner
      ensures match ParseStatement(old(scanner.input), old(root), strict)
              case Ok(p) => error == None && root == p.root && scanner.input == p.rest
              case Err(e) => error == Some(e) && root == old(root)
    {
      var next := scanner.PeekNextToken();
      var token := next.value;
      if OpensContainer(token) {
        if strict && root.Some? {
          next := scanner.GetNextToken();
          return Some(SecondContainer);
        }
        var parsed := ScanElement(scanner, 0);
        match parsed
        case Err(e) => return Some(Syntax(e));
        case Ok(v) =>
          if root.None? {
            root := Some(v);
          }
          return None;
      }
      next := scanner.GetNextToken();
      if token == Var {
        return Some(Assignment);
      }
      if !StartsScalar(token) {
        return Some(Unknown);
      }
      if root.Some? {
        return Some(SecondValue);
      }
      match ValueOf(next, false)
      case Err(e) => return Some(Syntax(e));
      case Ok(v) =>
        root := Some(v);
        return None;
    }

    /** json_parser_load. In the strict mode a text of no length is refused before the last root
        is cleared, one of white space only afterwards. */
    method Load(scanner: Scanner, length: nat) returns (error: Option<DocumentError>)
      requires strict || Var !in scanner.input
      requires length == 0 ==> scanner.input == []
      modifies this, scanner
      ensures match LoadDocument(old(scanner.input), strict)
              case Ok(r) => error == None && root == r
              case Err(e) => error == Some(e)
      ensures strict && length == 0 ==> root == old(root)
    {
      if strict && length == 0 {
        return Some(Empty);
      }
      root := None;
      error := None;
      if strict && scanner.input == [] {
        return Some(Empty);
      }
      ghost var whole := LoadFrom(scanner.input, None, strict);
      var done := false;
      while !done
        invariant !done ==> error == None && (strict || Var !in scanner.input)
        invariant !done ==> whole == LoadFrom(scanner.input, root, strict)
        invariant done ==> if error == None then whole == Ok(root) else whole == Err(error.value)
        decreases !done, |scanner.input|
      {
        var next := scanner.PeekNextToken();
        if next.None? {
          done := true;
        } else {
          ghost var input, previous := scanner.input, root;
          error := Statement(scanner);
          if error.Some? {
            done := true;
          } else {
            StatementLeavesASuffix(input, previous, strict);
          }
        }
      }
    }
  }
}
