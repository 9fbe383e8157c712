/** Which error the parser gives (json-parser.c): the tokens up to the place where reading
    stops start some document, and what stands there decides the error. */
module JsonErrors {
  import opened Wrappers
  import opened JsonTree
  import opened JsonParser
  import opened JsonDocument

  /** The place where a text goes wrong, with what was read before it. `items` and `fields`
      are the children that are followed by a comma. */
  datatype Fault =
    | NoValue                                                        // no value starts here
    | TooDeep                                                        // one container too many opens
    | InElement(items: seq<Syntax>, inner: Fault)
    | NoCommaAfterElement(items: seq<Syntax>, last: Syntax)
    | CommaAfterLastElement(items: seq<Syntax>, last: Syntax)
    | NoName(fields: seq<Field>)
    | NoColon(fields: seq<Field>, name: string)
    | InMember(fields: seq<Field>, name: string, inner: Fault)
    | NoCommaAfterMember(fields: seq<Field>, name: string, value: Syntax)
    | JunkAfterMember(fields: seq<Field>, name: string, value: Syntax)
    | CommaAfterLastMember(fields: seq<Field>, name: string, value: Syntax)

  function ItemsText(items: seq<Syntax>): seq<Token> {
    if items == [] then [] else Tokens(items[0]) + ([Comma] + ItemsText(items[1..]))
  }

  function FieldsText(fields: seq<Field>): seq<Token> {
    if fields == [] then []
    else MemberText(fields[0].name, Tokens(fields[0].value) + ([Comma] + FieldsText(fields[1..])))
  }

  function MemberText(name: string, value: seq<Token>): seq<Token> {
    [TString(name), Colon] + value
  }

  /** The tokens read before the fault. */
  function Before(f: Fault): seq<Token> {
    match f
    case NoValue => []
    case TooDeep => []
    case InElement(items, inner) => [LeftBrace] + (ItemsText(items) + Before(inner))
    case NoCommaAfterElement(items, last) => [LeftBrace] + (ItemsText(items) + Tokens(last))
    case CommaAfterLastElement(items, last) => [LeftBrace] + (ItemsText(items) + (Tokens(last) + [Comma]))
    case NoName(fields) => [LeftCurly] + FieldsText(fields)
    case NoColon(fields, name) => [LeftCurly] + (FieldsText(fields) + [TString(name)])
    case InMember(fields, name, inner) => [LeftCurly] + (FieldsText(fields) + MemberText(name, Before(inner)))
    case NoCommaAfterMember(fields, name, value) => [LeftCurly] + (FieldsText(fields) + MemberText(name, Tokens(value)))
    case JunkAfterMember(fields, name, value) => [LeftCurly] + (FieldsText(fields) + MemberText(name, Tokens(value)))
    case CommaAfterLastMember(fields, name, value) =>
      [LeftCurly] + (FieldsText(fields) + MemberText(name, Tokens(value) + [Comma]))
  }

  predicate StartsValue(t: Option<Token>) {
    && t.Some?
    && (|| OpensContainer(t.value) || t.value.TInt? || t.value.TFloat? || t.value.TString?
        || t.value.TTrue? || t.value.TFalse? || t.value.TNull?)
  }

  predicate IsString(t: Option<Token>) {
    t.Some? && t.value.TString?
  }

  /** What stands at the fault, or None at the end of the text. */
  predicate IsAt(f: Fault, next: Option<Token>) {
    match f
    case NoValue => !StartsValue(next)
    case TooDeep => next.Some? && OpensContainer(next.value)
    case InElement(_, inner) => IsAt(inner, next) && (inner.NoValue? ==> next != Some(RightBrace))
    case NoCommaAfterElement(_, _) => next != Some(Comma) && next != Some(RightBrace)
    case CommaAfterLastElement(_, _) => next == Some(RightBrace)
    case NoName(_) => next != Some(RightCurly) && !IsString(next)
    case NoColon(_, _) => next != Some(Colon)
    case InMember(_, _, inner) => IsAt(inner, next)
    case NoCommaAfterMember(_, _, _) => IsString(next)
    case JunkAfterMember(_, _, _) => next != Some(Comma) && next != Some(RightCurly) && !IsString(next)
    case CommaAfterLastMember(_, _, _) => next == Some(RightCurly)
  }

  /** Only the fault itself is nested too deep. */
  predicate Within(f: Fault, nesting: nat) {
    match f
    case NoValue => true
    case TooDeep => nesting >= MAX_RECURSION_DEPTH
    case InElement(items, inner) => ItemsWithin(items, nesting) && Within(inner, nesting + 1)
    case NoCommaAfterElement(items, last) => ItemsWithin(items, nesting) && ValueWithin(last, nesting)
    case CommaAfterLastElement(items, last) => ItemsWithin(items, nesting) && ValueWithin(last, nesting)
    case NoName(fields) => FieldsWithin(fields, nesting)
    case NoColon(fields, _) => FieldsWithin(fields, nesting)
    case InMember(fields, _, inner) => FieldsWithin(fields, nesting) && Within(inner, nesting + 1)
    case NoCommaAfterMember(fields, _, value) => FieldsWithin(fields, nesting) && ValueWithin(value, nesting)
    case JunkAfterMember(fields, _, value) => FieldsWithin(fields, nesting) && ValueWithin(value, nesting)
    case CommaAfterLastMember(fields, _, value) => FieldsWithin(fields, nesting) && ValueWithin(value, nesting)
  }

  predicate ValueWithin(s: Syntax, nesting: nat) {
    nesting + 1 + Depth(s) <= MAX_RECURSION_DEPTH
  }

  predicate ItemsWithin(items: seq<Syntax>, nesting: nat) {
    nesting + 1 + ItemsDepth(items) <= MAX_RECURSION_DEPTH
  }

  predicate FieldsWithin(fields: seq<Field>, nesting: nat) {
    nesting + 1 + FieldsDepth(fields) <= MAX_RECURSION_DEPTH
  }

  /** The error of a fault. A bare word is told apart only where a value should start. */
  function Code(f: Fault, next: Option<Token>): ErrorCode {
    match f
    case NoValue => if next.Some? && next.value.Identifier? then ErrorInvalidBareword else ErrorParse
    case TooDeep => ErrorNesting
    case InElement(_, inner) => Code(inner, next)
    case NoCommaAfterElement(_, _) => ErrorMissingComma
    case CommaAfterLastElement(_, _) => ErrorTrailingComma
    case NoName(_) => ErrorInvalidBareword
    case NoColon(_, _) => ErrorMissingColon
    case InMember(_, _, inner) => Code(inner, next)
    case NoCommaAfterMember(_, _, _) => ErrorMissingComma
    case JunkAfterMember(_, _, _) => ErrorInvalidBareword
    case CommaAfterLastMember(_, _, _) => ErrorTrailingComma
  }

  /** The text goes wrong at `f`, with `rest` standing there, and the error is `e`. */
  ghost predicate GoesWrong(f: Fault, rest: seq<Token>, ts: seq<Token>, nesting: nat, e: ErrorCode) {
    ts == Before(f) + rest && IsAt(f, Peek(rest)) && Within(f, nesting) && e == Code(f, Peek(rest))
  }

  // ----- at a fault the parser fails -----

  lemma {:induction false} PastItems(items: seq<Syntax>, tail: seq<Token>, done: seq<Json>, nesting: nat)
    requires ItemsWithin(items, nesting) && Peek(tail) != Some(RightBrace)
    ensures ParseElements(ItemsText(items) + tail, done, nesting) == ParseElements(tail, done + ItemMeanings(items), nesting)
    decreases items
  {
    if items == [] {
      assert [] + tail == tail && done + [] == done;
    } else {
      var others := items[1..];
      var later := ItemsText(others) + tail;
      PastItems(others, tail, done + [Meaning(items[0])], nesting);
      ItemsStart(others, tail);
      PastItem(items[0], later, done, nesting);
      ItemsRegroup(Tokens(items[0]), ItemsText(others), tail);
      assert done + [Meaning(items[0])] + ItemMeanings(others) == done + ItemMeanings(items);
    }
  }

  lemma ItemsRegroup(first: seq<Token>, others: seq<Token>, tail: seq<Token>)
    ensures first + ([Comma] + others) + tail == first + ([Comma] + (others + tail))
  {
  }

  /** The next item or the tail does not start with the closing bracket. */
  lemma ItemsStart(items: seq<Syntax>, tail: seq<Token>)
    requires Peek(tail) != Some(RightBrace)
    ensures Peek(ItemsText(items) + tail) != Some(RightBrace)
  {
    if items == [] {
      assert [] + tail == tail;
    } else {
      ItemsRegroup(Tokens(items[0]), ItemsText(items[1..]), tail);
      StartOfTokens(items[0], [Comma] + (ItemsText(items[1..]) + tail));
    }
  }

  lemma PastItem(s: Syntax, later: seq<Token>, done: seq<Json>, nesting: nat)
    requires ValueWithin(s, nesting) && Peek(later) != Some(RightBrace)
    ensures ParseElements(Tokens(s) + ([Comma] + later), done, nesting) == ParseElements(later, done + [Meaning(s)], nesting)
  {
    StartOfTokens(s, [Comma] + later);
    ElementParses(s, [Comma] + later, nesting + 1);
    OneMoreElement(Tokens(s) + ([Comma] + later), done, nesting, Meaning(s), later);
  }

  lemma MemberRegroup(name: string, value: seq<Token>, tail: seq<Token>)
    ensures MemberText(name, value) + tail == MemberText(name, value + tail)
  {
  }

  lemma FieldsRegroup(name: string, value: seq<Token>, others: seq<Token>, tail: seq<Token>)
    ensures MemberText(name, value + ([Comma] + others)) + tail == MemberText(name, value + ([Comma] + (others + tail)))
  {
  }

  lemma FieldsStart(fields: seq<Field>, tail: seq<Token>)
    requires Peek(tail) != Some(RightCurly)
    ensures Peek(FieldsText(fields) + tail) != Some(RightCurly)
  {
    if fields == [] {
      assert [] + tail == tail;
    } else {
      FieldsRegroup(fields[0].name, Tokens(fields[0].value), FieldsText(fields[1..]), tail);
    }
  }

  lemma PastMember(name: string, s: Syntax, later: seq<Token>, done: seq<Member>, nesting: nat)
    requires ValueWithin(s, nesting) && Peek(later) != Some(RightCurly)
    ensures ParseMembers(MemberText(name, Tokens(s) + ([Comma] + later)), done, nesting)
         == ParseMembers(later, SetMember(done, name, Meaning(s)), nesting)
  {
    ElementParses(s, [Comma] + later, nesting + 1);
    OneMoreMember(name, Tokens(s) + ([Comma] + later), done, nesting, Meaning(s), later);
  }

  lemma {:induction false} PastFields(fields: seq<Field>, tail: seq<Token>, done: seq<Member>, nesting: nat)
    requires FieldsWithin(fields, nesting) && Peek(tail) != Some(RightCurly)
    ensures ParseMembers(FieldsText(fields) + tail, done, nesting) == ParseMembers(tail, FieldMeanings(fields, done), nesting)
    decreases fields
  {
    if fields == [] {
      assert [] + tail == tail;
    } else {
      var name, value, others := fields[0].name, fields[0].value, fields[1..];
      FieldsStart(others, tail);
      PastMember(name, value, FieldsText(others) + tail, done, nesting);
      FieldsRegroup(name, Tokens(value), FieldsText(others), tail);
      PastFields(others, tail, SetMember(done, name, Meaning(value)), nesting);
    }
  }

  lemma OpenArray(before: seq<Token>, at: seq<Token>, rest: seq<Token>, nesting: nat)
    requires nesting < MAX_RECURSION_DEPTH
    ensures ParseElement([LeftBrace] + (before + at) + rest, nesting) == ParseElements(before + (at + rest), [], nesting)
  {
    var body := before + (at + rest);
    assert [LeftBrace] + (before + at) + rest == [LeftBrace] + body;
    assert ([LeftBrace] + body)[1..] == body;
  }

  lemma OpenObject(before: seq<Token>, at: seq<Token>, rest: seq<Token>, nesting: nat)
    requires nesting < MAX_RECURSION_DEPTH
    ensures ParseElement([LeftCurly] + (before + at) + rest, nesting) == ParseMembers(before + (at + rest), [], nesting)
  {
    var body := before + (at + rest);
    assert [LeftCurly] + (before + at) + rest == [LeftCurly] + body;
    assert ([LeftCurly] + body)[1..] == body;
  }

  /** A fault inside an array does not look like the end of the array. */
  lemma FaultStart(f: Fault, rest: seq<Token>)
    requires IsAt(f, Peek(rest)) && (f.NoValue? ==> Peek(rest) != Some(RightBrace))
    ensures Peek(Before(f) + rest) != Some(RightBrace)
  {
    if Before(f) == [] {
      assert [] + rest == rest;
    } else {
      assert (Before(f) + rest)[0] == Before(f)[0];
    }
  }

  lemma BadElementEnd(s: Syntax, rest: seq<Token>, done: seq<Json>, nesting: nat)
    requires ValueWithin(s, nesting) && Peek(rest) != Some(Comma) && Peek(rest) != Some(RightBrace)
    ensures Peek(Tokens(s) + rest) != Some(RightBrace)
    ensures ParseElements(Tokens(s) + rest, done, nesting) == Err(ErrorMissingComma)
  {
    StartOfTokens(s, rest);
    ElementParses(s, rest, nesting + 1);
  }

  lemma BehindComma(first: seq<Token>, rest: seq<Token>)
    ensures first + [Comma] + rest == first + ([Comma] + rest)
    ensures ([Comma] + rest)[1..] == rest
  {
  }

  lemma CommaThenEnd(s: Syntax, rest: seq<Token>, done: seq<Json>, nesting: nat)
    requires ValueWithin(s, nesting) && Peek(rest) == Some(RightBrace)
    ensures Peek(Tokens(s) + [Comma] + rest) != Some(RightBrace)
    ensures ParseElements(Tokens(s) + [Comma] + rest, done, nesting) == Err(ErrorTrailingComma)
  {
    BehindComma(Tokens(s), rest);
    StartOfTokens(s, [Comma] + rest);
    ElementParses(s, [Comma] + rest, nesting + 1);
  }

  lemma MemberValue(name: string, tail: seq<Token>, done: seq<Member>, nesting: nat)
    ensures Peek(MemberText(name, tail)) != Some(RightCurly)
    ensures ParseMembers(MemberText(name, tail), done, nesting) ==
      match ParseElement(tail, nesting + 1)
      case Err(e) => Err(e)
      case Ok(Parsed(v, rest)) =>
        if Peek(rest) == Some(Comma) then
          if Peek(rest[1..]) == Some(RightCurly) then Err(ErrorTrailingComma)
          else ParseMembers(rest[1..], SetMember(done, name, v), nesting)
        else if IsString(Peek(rest)) then Err(ErrorMissingComma)
        else ParseMembers(rest, SetMember(done, name, v), nesting)
  {
    var all := MemberText(name, tail);
    assert all[1..][0] == Colon && all[2..] == tail;
  }

  lemma BadMemberEnd(name: string, s: Syntax, rest: seq<Token>, done: seq<Member>, nesting: nat)
    requires ValueWithin(s, nesting) && Peek(rest) != Some(Comma) && Peek(rest) != Some(RightCurly)
    ensures ParseMembers(MemberText(name, Tokens(s) + rest), done, nesting)
         == Err(if IsString(Peek(rest)) then ErrorMissingComma else ErrorInvalidBareword)
  {
    MemberValue(name, Tokens(s) + rest, done, nesting);
    ElementParses(s, rest, nesting + 1);
  }

  lemma MemberCommaThenEnd(name: string, s: Syntax, rest: seq<Token>, done: seq<Member>, nesting: nat)
    requires ValueWithin(s, nesting) && Peek(rest) == Some(RightCurly)
    ensures ParseMembers(MemberText(name, Tokens(s) + [Comma] + rest), done, nesting) == Err(ErrorTrailingComma)
  {
    MemberValue(name, Tokens(s) + [Comma] + rest, done, nesting);
    BehindComma(Tokens(s), rest);
    ElementParses(s, [Comma] + rest, nesting + 1);
  }

  lemma {:induction false} FaultFails(f: Fault, rest: seq<Token>, nesting: nat)
    requires IsAt(f, Peek(rest)) && Within(f, nesting)
    ensures ParseElement(Before(f) + rest, nesting) == Err(Code(f, Peek(rest)))
    decreases f
  {
    match f
    case NoValue => assert [] + rest == rest;
    case TooDeep => assert [] + rest == rest;
    case InElement(items, inner) =>
      FaultFails(inner, rest, nesting + 1);
      FaultStart(inner, rest);
      OpenArray(ItemsText(items), Before(inner), rest, nesting);
      PastItems(items, Before(inner) + rest, [], nesting);
    case NoCommaAfterElement(items, last) =>
      OpenArray(ItemsText(items), Tokens(last), rest, nesting);
      BadElementEnd(last, rest, [] + ItemMeanings(items), nesting);
      PastItems(items, Tokens(last) + rest, [], nesting);
    case CommaAfterLastElement(items, last) =>
      OpenArray(ItemsText(items), Tokens(last) + [Comma], rest, nesting);
      CommaThenEnd(last, rest, [] + ItemMeanings(items), nesting);
      PastItems(items, Tokens(last) + [Comma] + rest, [], nesting);
    case _ => MemberFaultFails(f, rest, nesting);
  }

  lemma {:induction false} MemberFaultFails(f: Fault, rest: seq<Token>, nesting: nat)
    requires IsAt(f, Peek(rest)) && Within(f, nesting)
    requires f.NoName? || f.NoColon? || f.InMember? || f.NoCommaAfterMember? || f.JunkAfterMember? || f.CommaAfterLastMember?
    ensures ParseElement(Before(f) + rest, nesting) == Err(Code(f, Peek(rest)))
    decreases f, 0
  {
    var fields := f.fields;
    var done := FieldMeanings(fields, []);
    match f
    case NoName(_) =>
      NoNameFails(fields, rest, nesting);
    case NoColon(_, name) =>
      OpenObject(FieldsText(fields), [TString(name)], rest, nesting);
      PastFields(fields, [TString(name)] + rest, [], nesting);
      NoColonFails(name, rest, done, nesting);
    case InMember(_, name, inner) =>
      FaultFails(inner, rest, nesting + 1);
      ReachMember(fields, name, Before(inner), rest, nesting);
      MemberValue(name, Before(inner) + rest, done, nesting);
    case NoCommaAfterMember(_, name, value) =>
      ReachMember(fields, name, Tokens(value), rest, nesting);
      BadMemberEnd(name, value, rest, done, nesting);
    case JunkAfterMember(_, name, value) =>
      ReachMember(fields, name, Tokens(value), rest, nesting);
      BadMemberEnd(name, value, rest, done, nesting);
    case CommaAfterLastMember(_, name, value) =>
      ReachMember(fields, name, Tokens(value) + [Comma], rest, nesting);
      MemberCommaThenEnd(name, value, rest, done, nesting);
  }

  lemma ReachMember(fields: seq<Field>, name: string, value: seq<Token>, rest: seq<Token>, nesting: nat)
    requires FieldsWithin(fields, nesting)
    ensures ParseElement([LeftCurly] + (FieldsText(fields) + MemberText(name, value)) + rest, nesting)
         == ParseMembers(MemberText(name, value + rest), FieldMeanings(fields, []), nesting)
  {
    OpenObject(FieldsText(fields), MemberText(name, value), rest, nesting);
    MemberRegroup(name, value, rest);
    PastFields(fields, MemberText(name, value + rest), [], nesting);
  }

  lemma NoNameFails(fields: seq<Field>, rest: seq<Token>, nesting: nat)
    requires FieldsWithin(fields, nesting) && Peek(rest) != Some(RightCurly) && !IsString(Peek(rest))
    ensures ParseElement([LeftCurly] + FieldsText(fields) + rest, nesting) == Err(ErrorInvalidBareword)
  {
    assert FieldsText(fields) + [] == FieldsText(fields) && [] + rest == rest;
    OpenObject(FieldsText(fields), [], rest, nesting);
    PastFields(fields, rest, [], nesting);
  }

  lemma NoColonFails(name: string, rest: seq<Token>, done: seq<Member>, nesting: nat)
    requires Peek(rest) != Some(Colon)
    ensures ParseMembers([TString(name)] + rest, done, nesting) == Err(ErrorMissingColon)
  {
    assert ([TString(name)] + rest)[1..] == rest;
  }

  // ----- where the parser fails there is a fault -----

  lemma {:induction false} FindFault(ts: seq<Token>, nesting: nat) returns (f: Fault, rest: seq<Token>)
    requires ParseElement(ts, nesting).Err?
    ensures GoesWrong(f, rest, ts, nesting, ParseElement(ts, nesting).error)
    decreases |ts|, 1
  {
    f, rest := NoValue, ts;
    assert [] + ts == ts;
    if StartsValue(Peek(ts)) {
      assert ts == [ts[0]] + ts[1..];
      if nesting >= MAX_RECURSION_DEPTH {
        f := TooDeep;
      } else if ts[0] == LeftBrace {
        assert [] + ts[1..] == ts[1..];
        f, rest := FindArrayFault(ts[1..], [], [], nesting);
      } else {
        assert [] + ts[1..] == ts[1..];
        f, rest := FindObjectFault(ts[1..], [], [], nesting);
      }
    }
  }

  lemma {:induction false} OneMoreItemText(items: seq<Syntax>, s: Syntax, rest: seq<Token>)
    ensures ItemsText(items) + (Tokens(s) + ([Comma] + rest)) == ItemsText(items + [s]) + rest
    ensures ItemsDepth(items + [s]) == Max(ItemsDepth(items), Depth(s))
    decreases items
  {
    if items == [] {
      assert [s][1..] == [] && [] + [s] == [s];
      EndOfText(Tokens(s), rest);
    } else {
      assert (items + [s])[1..] == items[1..] + [s];
      OneMoreItemText(items[1..], s, rest);
      ItemsRegroup(Tokens(items[0]), ItemsText(items[1..]), Tokens(s) + ([Comma] + rest));
      ItemsRegroup(Tokens(items[0]), ItemsText(items[1..] + [s]), rest);
    }
  }

  lemma EndOfText(first: seq<Token>, rest: seq<Token>)
    ensures [] + (first + ([Comma] + rest)) == first + ([Comma] + []) + rest
  {
  }

  /** The text of a fault in an array that starts with the elements seen. */
  lemma ArrayText(before: seq<Token>, at: seq<Token>, rest: seq<Token>, ts: seq<Token>)
    requires ts == at + rest
    ensures [LeftBrace] + (before + ts) == [LeftBrace] + (before + at) + rest
    ensures [LeftCurly] + (before + ts) == [LeftCurly] + (before + at) + rest
  {
  }

  /** From an element on, `seen` being the elements before it. */
  lemma {:induction false} FindArrayFault(ts: seq<Token>, seen: seq<Syntax>, done: seq<Json>, nesting: nat)
    returns (f: Fault, rest: seq<Token>)
    requires ItemsWithin(seen, nesting) && ParseElements(ts, done, nesting).Err?
    ensures GoesWrong(f, rest, [LeftBrace] + (ItemsText(seen) + ts), nesting, ParseElements(ts, done, nesting).error)
    decreases |ts|, 2
  {
    if ParseElement(ts, nesting + 1).Err? {
      var inner;
      inner, rest := FindFault(ts, nesting + 1);
      assert inner.NoValue? ==> [] + rest == rest;
      f := InElement(seen, inner);
      ArrayText(ItemsText(seen), Before(inner), rest, ts);
    } else {
      var e := ParseElement(ts, nesting + 1).value;
      var s := ParsedElementDerives(ts, nesting + 1);
      f, rest := FindFaultBehind(ts, seen, done, nesting, s, e);
    }
  }

  lemma {:induction false} FindFaultBehind(ts: seq<Token>, seen: seq<Syntax>, done: seq<Json>, nesting: nat, s: Syntax, e: Parsed)
    returns (f: Fault, rest: seq<Token>)
    requires ItemsWithin(seen, nesting) && ParseElements(ts, done, nesting).Err?
    requires ParseElement(ts, nesting + 1) == Ok(e) && Derives(s, ts, nesting + 1, e)
    ensures GoesWrong(f, rest, [LeftBrace] + (ItemsText(seen) + ts), nesting, ParseElements(ts, done, nesting).error)
    decreases |ts|, 1
  {
    if Peek(e.rest) != Some(Comma) {
      f, rest := NoCommaAfterElement(seen, s), e.rest;
      ArrayText(ItemsText(seen), Tokens(s), rest, ts);
    } else {
      rest := e.rest[1..];
      assert e.rest == [Comma] + rest;
      if Peek(rest) == Some(RightBrace) {
        f := CommaAfterLastElement(seen, s);
        assert ts == Tokens(s) + [Comma] + rest;
        ArrayText(ItemsText(seen), Tokens(s) + [Comma], rest, ts);
      } else {
        OneMoreItemText(seen, s, rest);
        f, rest := FindArrayFault(rest, seen + [s], done + [e.value], nesting);
      }
    }
  }

  lemma {:induction false} OneMoreFieldText(fields: seq<Field>, name: string, s: Syntax, rest: seq<Token>)
    ensures FieldsText(fields) + MemberText(name, Tokens(s) + ([Comma] + rest)) == FieldsText(fields + [Field(name, s)]) + rest
    ensures FieldsDepth(fields + [Field(name, s)]) == Max(FieldsDepth(fields), Depth(s))
    decreases fields
  {
    var m := Field(name, s);
    if fields == [] {
      assert [m][1..] == [] && [] + [m] == [m];
      FieldsRegroup(name, Tokens(s), [], rest);
      assert [] + rest == rest && [] + MemberText(name, Tokens(s) + ([Comma] + rest)) == MemberText(name, Tokens(s) + ([Comma] + rest));
    } else {
      assert (fields + [m])[1..] == fields[1..] + [m];
      OneMoreFieldText(fields[1..], name, s, rest);
      var value := Tokens(fields[0].value);
      FieldsRegroup(fields[0].name, value, FieldsText(fields[1..]), MemberText(name, Tokens(s) + ([Comma] + rest)));
      FieldsRegroup(fields[0].name, value, FieldsText(fields[1..] + [m]), rest);
    }
  }

  /** From a member on, `seen` being the members before it. */
  lemma {:induction false} FindObjectFault(ts: seq<Token>, seen: seq<Field>, done: seq<Member>, nesting: nat)
    returns (f: Fault, rest: seq<Token>)
    requires FieldsWithin(seen, nesting) && ParseMembers(ts, done, nesting).Err?
    ensures GoesWrong(f, rest, [LeftCurly] + (FieldsText(seen) + ts), nesting, ParseMembers(ts, done, nesting).error)
    decreases |ts|, 2
  {
    if !IsString(Peek(ts)) {
      f, rest := NoName(seen), ts;
      assert [LeftCurly] + (FieldsText(seen) + ts) == [LeftCurly] + FieldsText(seen) + ts;
    } else if Peek(ts[1..]) != Some(Colon) {
      f, rest := NoColon(seen, ts[0].s), ts[1..];
      assert ts == [TString(ts[0].s)] + rest;
      ArrayText(FieldsText(seen), [TString(ts[0].s)], rest, ts);
    } else {
      var name, value := ts[0].s, ts[2..];
      assert ts == MemberText(name, value);
      f, rest := FindMemberFault(name, value, ts, seen, done, nesting);
    }
  }

  lemma {:induction false} FindMemberFault(name: string, value: seq<Token>, ts: seq<Token>, seen: seq<Field>, done: seq<Member>, nesting: nat)
    returns (f: Fault, rest: seq<Token>)
    requires FieldsWithin(seen, nesting) && ts == MemberText(name, value) && ParseMembers(ts, done, nesting).Err?
    ensures GoesWrong(f, rest, [LeftCurly] + (FieldsText(seen) + ts), nesting, ParseMembers(ts, done, nesting).error)
    decreases |ts|, 1
  {
    MemberValue(name, value, done, nesting);
    if ParseElement(value, nesting + 1).Err? {
      var inner;
      inner, rest := FindFault(value, nesting + 1);
      f := InMember(seen, name, inner);
      MemberRegroup(name, Before(inner), rest);
      ArrayText(FieldsText(seen), MemberText(name, Before(inner)), rest, ts);
    } else {
      var e := ParseElement(value, nesting + 1).value;
      var s := ParsedElementDerives(value, nesting + 1);
      f, rest := FindFaultBehindMember(name, value, ts, seen, done, nesting, s, e);
    }
  }

  lemma {:induction false} FindFaultBehindMember(name: string, value: seq<Token>, ts: seq<Token>, seen: seq<Field>, done: seq<Member>,
                                                 nesting: nat, s: Syntax, e: Parsed)
    returns (f: Fault, rest: seq<Token>)
    requires FieldsWithin(seen, nesting) && ts == MemberText(name, value) && ParseMembers(ts, done, nesting).Err?
    requires ParseElement(value, nesting + 1) == Ok(e) && Derives(s, value, nesting + 1, e)
    ensures GoesWrong(f, rest, [LeftCurly] + (FieldsText(seen) + ts), nesting, ParseMembers(ts, done, nesting).error)
    decreases |ts|, 0
  {
    MemberValue(name, value, done, nesting);
    if Peek(e.rest) != Some(Comma) {
      rest := e.rest;
      f := if IsString(Peek(rest)) then NoCommaAfterMember(seen, name, s) else JunkAfterMember(seen, name, s);
      MemberRegroup(name, Tokens(s), rest);
      ArrayText(FieldsText(seen), MemberText(name, Tokens(s)), rest, ts);
    } else {
      rest := e.rest[1..];
      BehindComma(Tokens(s), rest);
      assert e.rest == [Comma] + rest;
      if Peek(rest) == Some(RightCurly) {
        f := CommaAfterLastMember(seen, name, s);
        MemberRegroup(name, Tokens(s) + [Comma], rest);
        ArrayText(FieldsText(seen), MemberText(name, Tokens(s) + [Comma]), rest, ts);
      } else {
        OneMoreFieldText(seen, name, s, rest);
        MoreFieldsWithin(seen, name, s, nesting);
        f, rest := FindObjectFault(rest, seen + [Field(name, s)], SetMember(done, name, e.value), nesting);
      }
    }
  }

  lemma MoreFieldsWithin(fields: seq<Field>, name: string, s: Syntax, nesting: nat)
    requires FieldsWithin(fields, nesting) && ValueWithin(s, nesting)
    ensures FieldsWithin(fields + [Field(name, s)], nesting)
  {
    OneMoreFieldText(fields, name, s, []);
  }

  /** Parsing an element fails with an error exactly when the text goes wrong at a place with
      that error. */
  lemma {:induction false} FailsIff(ts: seq<Token>, nesting: nat, e: ErrorCode)
    ensures ParseElement(ts, nesting) == Err(e) <==> exists f, rest :: GoesWrong(f, rest, ts, nesting, e)
  {
    if ParseElement(ts, nesting) == Err(e) {
      var f, rest := FindFault(ts, nesting);
    }
    forall f, rest | GoesWrong(f, rest, ts, nesting, e) ensures ParseElement(ts, nesting) == Err(e) {
      FaultFails(f, rest, nesting);
    }
  }

  // ----- whole documents -----

  /** The error of a statement that starts with `next`, where it is not that of its container. */
  ghost predicate IsRefusedAt(next: Token, hasRoot: bool, strict: bool, e: DocumentError) {
    if OpensContainer(next) then strict && hasRoot && e == SecondContainer
    else if next == Var then e == Assignment
    else if StartsValue(Some(next)) then hasRoot && e == SecondValue
    else if next.Identifier? || next == Other('-') then e == if hasRoot then SecondValue else DocumentError.Syntax(ErrorInvalidBareword)
    else e == Unknown
  }

  /** Behind the values `ss` stands something that is refused, or a container that goes wrong
      where one may still stand. */
  ghost predicate DocumentGoesWrong(ss: seq<Syntax>, rest: seq<Token>, root: Option<Json>, strict: bool, e: DocumentError) {
    && Acceptable(ss, root, strict) && rest != []
    && (|| IsRefusedAt(rest[0], root.Some? || ss != [], strict, e)
        || (&& OpensContainer(rest[0]) && !(strict && (root.Some? || ss != []))
            && exists f, tail, code :: e == DocumentError.Syntax(code) && GoesWrong(f, tail, rest, 0, code)))
  }

  lemma StatementFailsIff(ts: seq<Token>, root: Option<Json>, strict: bool, e: DocumentError)
    requires ts != [] && (strict || Var !in ts)
    ensures ParseStatement(ts, root, strict) == Err(e) <==> DocumentGoesWrong([], ts, root, strict, e)
  {
    if OpensContainer(ts[0]) {
      var p := ParseElement(ts, 0);
      if p.Err? {
        FailsIff(ts, 0, p.error);
      }
      forall f, tail, code | GoesWrong(f, tail, ts, 0, code) ensures p == Err(code) {
        FailsIff(ts, 0, code);
      }
    }
  }

  lemma VarAhead(s: seq<Token>, rest: seq<Token>)
    ensures Var in rest ==> Var in s + rest
  {
  }

  lemma {:induction false} PastValues(ss: seq<Syntax>, rest: seq<Token>, root: Option<Json>, strict: bool)
    requires Acceptable(ss, root, strict) && (strict || Var !in Document(ss) + rest)
    ensures strict || Var !in rest
    ensures LoadFrom(Document(ss) + rest, root, strict) == LoadFrom(rest, RootOf(ss, root), strict)
    decreases |ss|
  {
    if ss == [] {
      assert [] + rest == rest;
    } else {
      var next := if root.None? then Some(Meaning(ss[0])) else root;
      var later := Document(ss[1..]) + rest;
      assert Document(ss) + rest == Tokens(ss[0]) + later;
      VarAhead(Tokens(ss[0]), later);
      StatementParses(ss[0], later, root, strict);
      PastValues(ss[1..], rest, next, strict);
    }
  }

  lemma {:induction false} FindRefused(ts: seq<Token>, root: Option<Json>, strict: bool) returns (ss: seq<Syntax>, rest: seq<Token>)
    requires (strict || Var !in ts) && LoadFrom(ts, root, strict).Err?
    ensures ts == Document(ss) + rest && Acceptable(ss, root, strict)
    ensures rest != [] && (strict || Var !in rest)
    ensures ParseStatement(rest, RootOf(ss, root), strict) == Err(LoadFrom(ts, root, strict).error)
    decreases |ts|
  {
    ss, rest := [], ts;
    assert [] + ts == ts;
    if ParseStatement(ts, root, strict).Ok? {
      var p := ParseStatement(ts, root, strict).value;
      var s := StatementDerives(ts, root, strict);
      StatementLeavesASuffix(ts, root, strict);
      var others;
      others, rest := FindRefused(p.rest, p.root, strict);
      ss := [s] + others;
      assert ss[1..] == others;
      assert Tokens(s) + (Document(others) + rest) == Tokens(s) + Document(others) + rest;
      MoreIsAcceptable(s, others, root, strict);
    }
  }

  lemma WithRoot(ss: seq<Syntax>, rest: seq<Token>, strict: bool, e: DocumentError)
    requires Acceptable(ss, None, strict)
    ensures DocumentGoesWrong(ss, rest, None, strict, e) <==> DocumentGoesWrong([], rest, RootOf(ss, None), strict, e)
  {
  }

  /** Loading fails with an error exactly when the text is empty in the strict mode, or goes
      wrong with that error behind values that would load. */
  lemma LoadFailsIff(ts: seq<Token>, strict: bool, e: DocumentError)
    requires strict || Var !in ts
    ensures LoadDocument(ts, strict) == Err(e) <==>
      || (strict && ts == [] && e == Empty)
      || exists ss, rest :: ts == Document(ss) + rest && DocumentGoesWrong(ss, rest, None, strict, e)
  {
    if LoadDocument(ts, strict) == Err(e) && !(strict && ts == []) {
      var ss, rest := FindRefused(ts, None, strict);
      StatementFailsIff(rest, RootOf(ss, None), strict, e);
      WithRoot(ss, rest, strict, e);
    }
    forall ss, rest | ts == Document(ss) + rest && DocumentGoesWrong(ss, rest, None, strict, e)
      ensures LoadDocument(ts, strict) == Err(e)
    {
      PastValues(ss, rest, None, strict);
      WithRoot(ss, rest, strict, e);
      StatementFailsIff(rest, RootOf(ss, None), strict, e);
    }
  }
}
