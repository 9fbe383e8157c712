/** Compiling JSONPath expressions (json-path.c). A pointer into the expression is kept as the
    rest of the string it points to. Slices, and quoted names that do not end in a quote and
    one more character, are not part of this model. */
module JsonPathCompile {
  import opened Wrappers

  datatype PathNode =
    | Root
    | ChildMember(name: string)
    | ChildElement(index: nat)        // a guint
    | Descend
    | WildcardMember
    | WildcardElement
    | ElementSet(indices: seq<int>)

  /** The number at the front of a string and how many characters it takes: strtoll. */
  datatype Number = Number(value: int, used: nat)
  type Reader = string -> Number

  /** The outcome of one turn: the rest and the nodes so far, a syntax error, or a construct
      that is not modelled. */
  datatype Turn = Next(rest: string, nodes: seq<PathNode>) | Failed | Outside

  datatype Compiled = Path(nodes: seq<PathNode>) | Rejected | NotModelled

  /** Behind its end a string has its terminator. */
  function At(s: string, i: nat): char {
    if i < |s| then s[i] else '\0'
  }

  function Drop(s: string, n: nat): string {
    if n <= |s| then s[n..] else ""
  }

  /** The length of the name after a dot. */
  function NameLength(s: string): (n: nat)
    ensures n <= |s|
  {
    if s == "" || s[0] == '.' || s[0] == '[' then 0 else 1 + NameLength(s[1..])
  }

  /** strchr for a quote */
  function FindQuote(s: string): (q: Option<nat>)
    ensures q.Some? ==> q.value < |s|
  {
    if s == "" then None
    else if s[0] == '\'' then Some(0)
    else
      match FindQuote(s[1..])
      case None => None
      case Some(q) => Some(q + 1)
  }

  function ToInt32(n: int): int {
    (n + 0x8000_0000) % 0x1_0000_0000 - 0x8000_0000
  }

  /** A number with an optional sign in front, and the rest after it. */
  function ReadIndex(read: Reader, s: string): (r: (int, string))
    ensures |r.1| <= |s|
  {
    if At(s, 0) == '-' then
      var n := read(s[1..]);
      (ToInt32(-n.value), Drop(s[1..], n.used))
    else
      var n := read(s);
      (ToInt32(n.value), Drop(s, n.used))
  }

  /** The loop over a set, from a comma or the closing bracket on; what is left starts with
      the closing bracket. */
  function ReadSet(read: Reader, s: string, indices: seq<int>): (r: Option<(seq<int>, string)>)
    requires s != "" && (s[0] == ',' || s[0] == ']')
    ensures r.Some? ==> r.value.1 != "" && |r.value.1| <= |s|
    decreases |s|
  {
    if s[0] == ']' then Some((indices, s))
    else
      var (n, rest) := ReadIndex(read, s[1..]);
      if rest != "" && (rest[0] == ',' || rest[0] == ']') then ReadSet(read, rest, indices + [n]) else None
  }

  function AfterDollar(s: string, nodes: seq<PathNode>): Turn
    requires s != ""
  {
    if Root in nodes then Failed
    else if At(s, 1) == '.' || At(s, 1) == '[' || At(s, 1) == '\0' then Next(s[1..], [Root])
    else Failed
  }

  /** The second dot of a descent is looked at again. */
  function AfterDot(s: string, nodes: seq<PathNode>): Turn
    requires s != ""
  {
    if At(s, 1) == '.' then Next(s[1..], nodes + [Descend])
    else if At(s, 1) == '*' then Next(Drop(s, 2), nodes + [WildcardMember])
    else
      var n := NameLength(s[1..]);
      if n == 0 then Failed else Next(s[1 + n..], nodes + [ChildMember(s[1..1 + n])])
  }

  function AfterQuote(s: string, nodes: seq<PathNode>): Turn
    requires |s| >= 2
  {
    if At(s, 2) == '*' && At(s, 3) == '\'' && At(s, 4) == ']' then Next(Drop(s, 5), nodes + [WildcardMember])
    else
      match FindQuote(s[2..])
      case None => Outside
      case Some(q) =>
        if 2 + q + 1 >= |s| then Outside else Next(s[2 + q + 2..], nodes + [ChildMember(s[2..2 + q])])
  }

  function AfterNumber(read: Reader, s: string, nodes: seq<PathNode>): Turn
    requires s != ""
  {
    if At(s, if At(s, 1) == '-' then 2 else 1) == ':' then Outside
    else
      var (n, rest) := ReadIndex(read, s[1..]);
      if rest == "" then Failed
      else if rest[0] == ',' then
        match ReadSet(read, rest, [n])
        case None => Failed
        case Some((indices, closing)) => Next(closing[1..], nodes + [ElementSet(indices)])
      else if rest[0] == ':' then Outside
      else if rest[0] == ']' then Next(rest[1..], nodes + [ChildElement(n % 0x1_0000_0000)])
      else Failed
  }

  /** One turn of the loop of json_path_compile, with the closing `p += 1`. */
  function TurnOn(read: Reader, s: string, nodes: seq<PathNode>): (t: Turn)
    requires s != ""
    ensures t.Next? ==> |t.rest| < |s|
  {
    match s[0]
    case '$' => AfterDollar(s, nodes)
    case '.' => AfterDot(s, nodes)
    case '[' =>
      if |s| >= 2 && s[1] == '\'' then AfterQuote(s, nodes)
      else if At(s, 1) == '*' && At(s, 2) == ']' then Next(Drop(s, 2), nodes + [WildcardElement])
      else AfterNumber(read, s, nodes)
    case _ => if nodes == [] then Failed else Next(s[1..], nodes)
  }

  /** json_path_compile, from some point on. An expression without nodes is rejected. */
  function CompileFrom(read: Reader, s: string, nodes: seq<PathNode>): Compiled
    decreases |s|
  {
    if s == "" then (if nodes == [] then Rejected else Path(nodes))
    else
      match TurnOn(read, s, nodes)
      case Failed => Rejected
      case Outside => NotModelled
      case Next(rest, more) => CompileFrom(read, rest, more)
  }

  // ----- what follows a recursive descent -----

  /** The only nodes that can follow one: another, a wildcard, or a name. */
  predicate MayFollowDescend(n: PathNode) {
    n.Descend? || n.WildcardMember? || n.ChildMember?
  }

  ghost predicate DescentsFollowed(nodes: seq<PathNode>) {
    forall i, j {:trigger nodes[i], nodes[j]} :: 0 <= i && j == i + 1 && j < |nodes| && nodes[i].Descend? ==> MayFollowDescend(nodes[j])
  }

  predicate EndsInDescent(nodes: seq<PathNode>) {
    nodes != [] && nodes[|nodes| - 1].Descend?
  }

  /** A path that json_path_compile accepts: a descent is always followed by a node. */
  ghost predicate WellFormedPath(nodes: seq<PathNode>) {
    nodes != [] && DescentsFollowed(nodes) && !EndsInDescent(nodes)
  }

  /** Between turns a descent at the end has its second dot still to come. */
  ghost predicate Between(s: string, nodes: seq<PathNode>) {
    DescentsFollowed(nodes) && (EndsInDescent(nodes) ==> At(s, 0) == '.')
  }

  lemma AppendNode(nodes: seq<PathNode>, n: PathNode)
    requires DescentsFollowed(nodes) && (EndsInDescent(nodes) ==> MayFollowDescend(n))
    ensures DescentsFollowed(nodes + [n])
  {
  }

  lemma TurnKeeps(read: Reader, s: string, nodes: seq<PathNode>)
    requires s != "" && Between(s, nodes)
    ensures
      var t := TurnOn(read, s, nodes);
      t.Next? ==> Between(t.rest, t.nodes)
  {
    var t := TurnOn(read, s, nodes);
    if t.Next? && t.nodes != nodes && t.nodes != [Root] {
      var n := t.nodes[|t.nodes| - 1];
      assert t.nodes == nodes + [n];
      AppendNode(nodes, n);
    }
  }

  lemma {:induction false} CompiledIsWellFormed(read: Reader, s: string, nodes: seq<PathNode>)
    requires Between(s, nodes)
    ensures
      var c := CompileFrom(read, s, nodes);
      c.Path? ==> WellFormedPath(c.nodes)
    decreases |s|
  {
    if s != "" {
      var t := TurnOn(read, s, nodes);
      if t.Next? {
        TurnKeeps(read, s, nodes);
        CompiledIsWellFormed(read, t.rest, t.nodes);
      }
    }
  }

  // ----- compiling what is written out -----

  /** Names that can be written after a dot. */
  predicate Plain(name: string) {
    name != "" && name[0] != '*' && forall i :: 0 <= i < |name| ==> name[i] != '.' && name[i] != '['
  }

  /** Names that can be written in quotes. */
  predicate Quotable(name: string) {
    name != "*" && forall i :: 0 <= i < |name| ==> name[i] != '\''
  }

  /** How a number is spelled. */
  type Speller = int -> string

  /** The indices after the first, each behind a comma, and the closing bracket. */
  function WrittenTail(spell: Speller, indices: seq<int>): string {
    if indices == [] then "]" else "," + spell(indices[0]) + WrittenTail(spell, indices[1..])
  }

  predicate Int32(n: int) { -0x8000_0000 <= n < 0x8000_0000 }

  /** The text is a way to write the step: names after a dot or in quotes, indices of 32 bits,
      and sets of at least two. */
  ghost predicate IsWritten(spell: Speller, n: PathNode, text: string) {
    match n
    case Root => false
    case Descend => text == "."
    case WildcardMember => text == ".*" || text == "['*']"
    case WildcardElement => text == "[*]"
    case ChildMember(name) => (Plain(name) && text == "." + name) || (Quotable(name) && text == "['" + name + "']")
    case ChildElement(i) => Int32(i) && text == "[" + spell(i) + "]"
    case ElementSet(indices) =>
      && |indices| >= 2 && (forall i :: 0 <= i < |indices| ==> Int32(indices[i]))
      && text == "[" + spell(indices[0]) + WrittenTail(spell, indices[1..])
  }

  /** The texts are ways to write the steps; after a descent only one with a dot will do. */
  ghost predicate AreWritten(spell: Speller, nodes: seq<PathNode>, texts: seq<string>) {
    && |nodes| == |texts|
    && (forall i :: 0 <= i < |nodes| ==> IsWritten(spell, nodes[i], texts[i]))
    && forall i, j {:trigger nodes[i], texts[j]} :: 0 <= i && j == i + 1 && j < |nodes| && nodes[i].Descend? ==> At(texts[j], 0) == '.'
  }

  function Joined(texts: seq<string>): string {
    if texts == [] then "" else texts[0] + Joined(texts[1..])
  }

  /** The spelling of a number is read back up to a comma or a closing bracket. */
  ghost predicate Spells(read: Reader, spell: Speller) {
    forall n, rest {:trigger spell(n) + rest} :: Int32(n) && rest != "" && (rest[0] == ',' || rest[0] == ']') ==>
      SpelledAs(read, spell(n), rest, n)
  }

  ghost predicate SpelledAs(read: Reader, s: string, rest: string, n: int) {
    && s != "" && (s[0] == '-' <==> n < 0) && s[0] != '*' && s[0] != '\'' && s[0] != ':'
    && (n < 0 ==> |s| > 1 && s[1] != ':' && read(s[1..] + rest) == Number(-n, |s| - 1))
    && (n >= 0 ==> read(s + rest) == Number(n, |s|))
  }

  lemma {:induction false} NameLengthIs(name: string, rest: string)
    requires forall i :: 0 <= i < |name| ==> name[i] != '.' && name[i] != '['
    requires rest == "" || rest[0] == '.' || rest[0] == '['
    ensures NameLength(name + rest) == |name|
  {
    if name == "" {
      assert name + rest == rest;
    } else {
      assert (name + rest)[1..] == name[1..] + rest;
      NameLengthIs(name[1..], rest);
    }
  }

  lemma {:induction false} FindQuoteIs(name: string, rest: string)
    requires forall i :: 0 <= i < |name| ==> name[i] != '\''
    requires rest != "" && rest[0] == '\''
    ensures FindQuote(name + rest) == Some(|name|)
  {
    if name == "" {
      assert name + rest == rest;
    } else {
      assert (name + rest)[1..] == name[1..] + rest;
      FindQuoteIs(name[1..], rest);
    }
  }

  lemma IndexIs(read: Reader, spell: Speller, n: int, rest: string)
    requires Spells(read, spell) && Int32(n) && rest != "" && (rest[0] == ',' || rest[0] == ']')
    ensures ReadIndex(read, spell(n) + rest) == (n, rest)
    ensures SpelledAs(read, spell(n), rest, n)
  {
    var s := spell(n);
    assert spell(n) + rest == s + rest && SpelledAs(read, s, rest, n);
    if n < 0 {
      assert (s + rest)[1..] == s[1..] + rest;
      assert (s[1..] + rest)[|s| - 1..] == rest;
    } else {
      assert (s + rest)[|s|..] == rest;
    }
  }

  lemma TailStart(spell: Speller, more: seq<int>, rest: string)
    ensures
      var after := WrittenTail(spell, more) + rest;
      after != "" && after[0] == if more == [] then ']' else ','
  {
  }

  lemma {:induction false} SetIs(read: Reader, spell: Speller, before: seq<int>, more: seq<int>, rest: string)
    requires Spells(read, spell) && forall i :: 0 <= i < |more| ==> Int32(more[i])
    ensures
      var s := WrittenTail(spell, more) + rest;
      s != "" && (s[0] == ',' || s[0] == ']') && ReadSet(read, s, before) == Some((before + more, "]" + rest))
    decreases |more|
  {
    if more == [] {
      assert before + more == before;
    } else {
      var first, after := spell(more[0]), WrittenTail(spell, more[1..]) + rest;
      TailStart(spell, more[1..], rest);
      IndexIs(read, spell, more[0], after);
      OneMoreIndex(read, before, more[0], first, after);
      CommaThen(first, WrittenTail(spell, more[1..]), rest);
      SetIs(read, spell, before + [more[0]], more[1..], rest);
      IndexMovedOver(before, more);
    }
  }

  lemma IndexMovedOver(before: seq<int>, more: seq<int>)
    requires more != []
    ensures before + [more[0]] + more[1..] == before + more
  {
  }

  lemma OneMoreIndex(read: Reader, before: seq<int>, n: int, first: string, after: string)
    requires ReadIndex(read, first + after) == (n, after) && after != "" && (after[0] == ',' || after[0] == ']')
    ensures ReadSet(read, "," + (first + after), before) == ReadSet(read, after, before + [n])
  {
    assert ("," + (first + after))[1..] == first + after;
  }

  lemma CommaThen(first: string, tail: string, rest: string)
    ensures "," + first + tail + rest == "," + (first + (tail + rest))
  {
  }

  /** Between two steps the text ends or goes on with one of the two characters that start a
      step. */
  predicate StepStart(rest: string) {
    rest == "" || rest[0] == '.' || rest[0] == '['
  }

  lemma PlainTurn(read: Reader, nodes: seq<PathNode>, name: string, rest: string)
    requires Plain(name) && StepStart(rest)
    ensures TurnOn(read, "." + name + rest, nodes) == Next(rest, nodes + [ChildMember(name)])
  {
    var s := "." + name + rest;
    assert s[1..] == name + rest;
    NameLengthIs(name, rest);
    assert s[1..1 + |name|] == name && s[1 + |name|..] == rest;
  }

  lemma NotTheWildcard(name: string, rest: string)
    requires Quotable(name)
    ensures
      var s := name + ("']" + rest);
      s[0] != '*' || s[1] != '\''
  {
    if |name| == 1 { assert name == [name[0]]; }
  }

  lemma QuotedTurn(read: Reader, nodes: seq<PathNode>, name: string, rest: string)
    requires Quotable(name)
    ensures TurnOn(read, "['" + name + "']" + rest, nodes) == Next(rest, nodes + [ChildMember(name)])
  {
    var s, after := "['" + name + "']" + rest, name + ("']" + rest);
    assert s == "['" + after;
    assert s[2..] == after;
    assert s[2] == after[0] && s[3] == after[1];
    NotTheWildcard(name, rest);
    FindQuoteIs(name, "']" + rest);
    assert s[2..2 + |name|] == name && s[2 + |name| + 2..] == rest;
  }

  lemma NumberTurn(read: Reader, spell: Speller, nodes: seq<PathNode>, i: nat, rest: string)
    requires Spells(read, spell) && Int32(i)
    ensures TurnOn(read, "[" + spell(i) + "]" + rest, nodes) == Next(rest, nodes + [ChildElement(i)])
  {
    var s := "[" + spell(i) + "]" + rest;
    IndexIs(read, spell, i, "]" + rest);
    assert s[1..] == spell(i) + ("]" + rest);
    assert s[1] == spell(i)[0];
  }

  lemma SetTurnOn(read: Reader, nodes: seq<PathNode>, n: int, first: string, after: string, indices: seq<int>, rest: string)
    requires SpelledAs(read, first, after, n) && ReadIndex(read, first + after) == (n, after)
    requires after != "" && after[0] == ',' && ReadSet(read, after, [n]) == Some((indices, "]" + rest))
    ensures TurnOn(read, "[" + (first + after), nodes) == Next(rest, nodes + [ElementSet(indices)])
  {
    var s := "[" + (first + after);
    assert s[1..] == first + after && s[1] == first[0] && (|first| > 1 ==> s[2] == first[1]);
    assert ("]" + rest)[1..] == rest;
  }

  lemma BracketThen(first: string, tail: string, rest: string)
    ensures "[" + first + tail + rest == "[" + (first + (tail + rest))
  {
  }

  lemma SetTurn(read: Reader, spell: Speller, nodes: seq<PathNode>, indices: seq<int>, text: string, rest: string)
    requires Spells(read, spell) && IsWritten(spell, ElementSet(indices), text)
    ensures TurnOn(read, text + rest, nodes) == Next(rest, nodes + [ElementSet(indices)])
  {
    var first, after := spell(indices[0]), WrittenTail(spell, indices[1..]) + rest;
    TailStart(spell, indices[1..], rest);
    IndexIs(read, spell, indices[0], after);
    SetIs(read, spell, [indices[0]], indices[1..], rest);
    assert [indices[0]] + indices[1..] == indices;
    SetTurnOn(read, nodes, indices[0], first, after, indices, rest);
    BracketThen(first, WrittenTail(spell, indices[1..]), rest);
  }

  lemma WildcardElementCompiles(read: Reader, nodes: seq<PathNode>, rest: string)
    ensures CompileFrom(read, "[*]" + rest, nodes) == CompileFrom(read, rest, nodes + [WildcardElement])
  {
    var s := "[*]" + rest;
    assert s[2..] == "]" + rest && ("]" + rest)[1..] == rest;
    assert TurnOn(read, s, nodes) == Next("]" + rest, nodes + [WildcardElement]);
  }

  lemma DotTurn(read: Reader, nodes: seq<PathNode>, n: PathNode, rest: string)
    requires n.Descend? || n.WildcardMember?
    requires n.Descend? ==> rest != "" && rest[0] == '.'
    ensures TurnOn(read, (if n.Descend? then "." else ".*") + rest, nodes) == Next(rest, nodes + [n])
  {
    if n.Descend? {
      assert ("." + rest)[1..] == rest;
    } else {
      assert (".*" + rest)[2..] == rest;
    }
  }

  lemma QuotedWildcardTurn(read: Reader, nodes: seq<PathNode>, rest: string)
    ensures TurnOn(read, "['*']" + rest, nodes) == Next(rest, nodes + [WildcardMember])
  {
    assert ("['*']" + rest)[5..] == rest;
  }

  /** Compiling goes past a written step and adds its node. */
  lemma StepCompiles(read: Reader, spell: Speller, nodes: seq<PathNode>, n: PathNode, text: string, rest: string)
    requires Spells(read, spell) && IsWritten(spell, n, text)
    requires StepStart(rest) && (n.Descend? ==> rest != "" && rest[0] == '.')
    ensures CompileFrom(read, text + rest, nodes) == CompileFrom(read, rest, nodes + [n])
  {
    match n
    case WildcardElement => WildcardElementCompiles(read, nodes, rest);
    case ChildMember(name) =>
      if Plain(name) && text == "." + name { PlainTurn(read, nodes, name, rest); } else { QuotedTurn(read, nodes, name, rest); }
    case ChildElement(i) => NumberTurn(read, spell, nodes, i, rest);
    case ElementSet(indices) => SetTurn(read, spell, nodes, indices, text, rest);
    case WildcardMember =>
      if text == ".*" { DotTurn(read, nodes, n, rest); } else { QuotedWildcardTurn(read, nodes, rest); }
    case _ => DotTurn(read, nodes, n, rest);
  }

  /** Every step starts with one of the two characters. */
  lemma StepsStart(spell: Speller, nodes: seq<PathNode>, texts: seq<string>, tail: string)
    requires AreWritten(spell, nodes, texts) && StepStart(tail)
    ensures StepStart(Joined(texts) + tail)
    ensures texts != [] ==> Joined(texts) + tail != "" && (Joined(texts) + tail)[0] == At(texts[0], 0)
    ensures texts == [] ==> Joined(texts) + tail == tail
  {
    if nodes != [] {
      assert IsWritten(spell, nodes[0], texts[0]) && texts[0] != "";
      assert (texts[0] + Joined(texts[1..]) + tail)[0] == texts[0][0];
    }
  }

  lemma LaterSteps(spell: Speller, nodes: seq<PathNode>, texts: seq<string>)
    requires AreWritten(spell, nodes, texts) && nodes != []
    ensures AreWritten(spell, nodes[1..], texts[1..]) && IsWritten(spell, nodes[0], texts[0])
    ensures nodes[0].Descend? && |nodes| > 1 ==> At(texts[1..][0], 0) == '.'
    ensures |nodes| > 1 ==> EndsInDescent(nodes[1..]) == EndsInDescent(nodes)
  {
    assert forall i :: 0 <= i < |nodes[1..]| ==> nodes[1..][i] == nodes[i + 1];
    assert forall i :: 0 <= i < |texts[1..]| ==> texts[1..][i] == texts[i + 1];
  }

  /** What follows a written path: the end or another step, one with a dot behind a descent. */
  predicate Follows(nodes: seq<PathNode>, tail: string) {
    StepStart(tail) && (EndsInDescent(nodes) ==> At(tail, 0) == '.')
  }

  lemma {:induction false} StepsCompile(read: Reader, spell: Speller, done: seq<PathNode>, nodes: seq<PathNode>, texts: seq<string>, tail: string)
    requires Spells(read, spell) && AreWritten(spell, nodes, texts) && Follows(nodes, tail)
    ensures CompileFrom(read, Joined(texts) + tail, done) == CompileFrom(read, tail, done + nodes)
    decreases |nodes|
  {
    if nodes == [] {
      assert done + nodes == done && "" + tail == tail;
    } else {
      LaterSteps(spell, nodes, texts);
      FirstStepCompiles(read, spell, done, nodes, texts, tail);
      StepsCompile(read, spell, done + [nodes[0]], nodes[1..], texts[1..], tail);
      MovedOver(done, nodes);
    }
  }

  lemma MovedOver(done: seq<PathNode>, nodes: seq<PathNode>)
    requires nodes != []
    ensures done + [nodes[0]] + nodes[1..] == done + nodes
  {
  }

  lemma FirstText(texts: seq<string>, tail: string)
    requires texts != []
    ensures Joined(texts) + tail == texts[0] + (Joined(texts[1..]) + tail)
  {
  }

  lemma FirstStepCompiles(read: Reader, spell: Speller, done: seq<PathNode>, nodes: seq<PathNode>, texts: seq<string>, tail: string)
    requires Spells(read, spell) && AreWritten(spell, nodes, texts) && nodes != [] && Follows(nodes, tail)
    ensures CompileFrom(read, Joined(texts) + tail, done)
         == CompileFrom(read, Joined(texts[1..]) + tail, done + [nodes[0]])
  {
    LaterSteps(spell, nodes, texts);
    StepsStart(spell, nodes[1..], texts[1..], tail);
    FirstText(texts, tail);
    StepCompiles(read, spell, done, nodes[0], texts[0], Joined(texts[1..]) + tail);
  }

  /** Behind the root, written steps add their nodes. */
  lemma RootThenSteps(read: Reader, spell: Speller, steps: seq<PathNode>, texts: seq<string>, tail: string)
    requires Spells(read, spell) && AreWritten(spell, steps, texts) && Follows(steps, tail)
    ensures CompileFrom(read, "$" + (Joined(texts) + tail), []) == CompileFrom(read, tail, [Root] + steps)
  {
    var rest := Joined(texts) + tail;
    StepsStart(spell, steps, texts, tail);
    assert ("$" + rest)[1..] == rest;
    StepsCompile(read, spell, [Root], steps, texts, tail);
  }

  /** Compiling an expression written for a path, in any of the ways, gives that path. */
  lemma WrittenCompiles(read: Reader, spell: Speller, steps: seq<PathNode>, texts: seq<string>)
    requires Spells(read, spell) && AreWritten(spell, steps, texts) && !EndsInDescent(steps)
    ensures CompileFrom(read, "$" + Joined(texts), []) == Path([Root] + steps)
  {
    RootThenSteps(read, spell, steps, texts, "");
    assert Joined(texts) + "" == Joined(texts);
  }

  /** A dot without a name, or a bracket with a number that ends in none of the three characters
      that may follow it. */
  ghost predicate Malformed(read: Reader, tail: string) {
    || tail == "."
    || (|tail| >= 2 && tail[0] == '.' && tail[1] == '[')
    || (&& |tail| >= 2 && tail[0] == '[' && tail[1] != '-' && tail[1] != '\'' && tail[1] != ':' && tail[1] != '*'
        && var end := At(tail, 1 + read(tail[1..]).used); end != ',' && end != ':' && end != ']')
  }

  /** A malformed step behind written ones makes the expression refused. */
  lemma MalformedIsRejected(read: Reader, spell: Speller, steps: seq<PathNode>, texts: seq<string>, tail: string)
    requires Spells(read, spell) && AreWritten(spell, steps, texts) && Follows(steps, tail) && Malformed(read, tail)
    ensures CompileFrom(read, "$" + (Joined(texts) + tail), []) == Rejected
  {
    RootThenSteps(read, spell, steps, texts, tail);
    MalformedTurn(read, tail, [Root] + steps);
  }

  lemma MalformedTurn(read: Reader, tail: string, nodes: seq<PathNode>)
    requires Malformed(read, tail)
    ensures CompileFrom(read, tail, nodes) == Rejected
  {
    if tail[0] == '.' {
      assert |tail| >= 2 ==> tail[1..][0] == '[';
      assert NameLength(tail[1..]) == 0;
    } else {
      var n := read(tail[1..]);
      assert 1 + n.used < |tail| ==> tail[1..][n.used..][0] == tail[1 + n.used];
    }
    assert TurnOn(read, tail, nodes) == Failed;
  }

  /** An expression has to start with a root or a step, and a root is followed by a step or
      nothing. */
  lemma BadStartIsRejected(read: Reader, s: string)
    requires
      || s == "" || (s[0] != '$' && s[0] != '.' && s[0] != '[')
      || (s[0] == '$' && |s| > 1 && s[1] != '.' && s[1] != '[' && s[1] != '\0')
    ensures CompileFrom(read, s, []) == Rejected
  {
  }

  /** A bracket right after a descent is refused, whatever follows. */
  lemma BracketAfterDescentRefused(read: Reader, tail: string, nodes: seq<PathNode>)
    ensures CompileFrom(read, "..[" + tail, nodes) == Rejected
    ensures CompileFrom(read, "$..[" + tail, []) == Rejected
  {
    var s, first := "..[" + tail, "$..[" + tail;
    BracketTurns(read, s, tail, nodes);
    BracketTurns(read, s, tail, [Root]);
    assert first[0] == '$' && first[1..] == s;
    assert TurnOn(read, first, []) == Next(s, [] + [Root]);
  }

  lemma BracketTurns(read: Reader, s: string, tail: string, nodes: seq<PathNode>)
    requires s == "..[" + tail
    ensures CompileFrom(read, s, nodes) == Rejected
  {
    var dot := ".[" + tail;
    assert s[1..] == dot;
    assert TurnOn(read, s, nodes) == Next(dot, nodes + [Descend]);
    assert dot[1..][0] == '[' && NameLength(dot[1..]) == 0;
    assert TurnOn(read, dot, nodes + [Descend]) == Failed;
  }

  // ----- the compiler's own loops -----

  function Reversed(nodes: seq<PathNode>): seq<PathNode> {
    if nodes == [] then [] else Reversed(nodes[1..]) + [nodes[0]]
  }

  lemma ReversedPrepend(n: PathNode, nodes: seq<PathNode>)
    ensures Reversed([n] + nodes) == Reversed(nodes) + [n]
  {
    assert ([n] + nodes)[1..] == nodes;
  }

  lemma {:induction false} ReversedMembers(nodes: seq<PathNode>)
    ensures |Reversed(nodes)| == |nodes|
    ensures forall n :: n in Reversed(nodes) <==> n in nodes
  {
    if nodes != [] {
      ReversedMembers(nodes[1..]);
      assert nodes == [nodes[0]] + nodes[1..];
    }
  }

  method ScanName(s: string) returns (end: nat)
    ensures end == NameLength(s)
  {
    end := 0;
    while end < |s| && s[end] != '.' && s[end] != '['
      invariant end <= |s| && NameLength(s) == end + NameLength(s[end..])
    {
      assert s[end..][1..] == s[end + 1..];
      end := end + 1;
    }
  }

  method ScanSet(read: Reader, s: string, first: int) returns (r: Option<(seq<int>, string)>)
    requires s != "" && s[0] == ','
    ensures r == ReadSet(read, s, [first])
  {
    var indices, end := [first], s;
    while end[0] != ']'
      invariant end != "" && (end[0] == ',' || end[0] == ']')
      invariant ReadSet(read, end, indices) == ReadSet(read, s, [first])
      decreases |end|
    {
      var (n, rest) := ReadIndex(read, end[1..]);
      if rest == "" || !(rest[0] == ',' || rest[0] == ']') {
        return None;
      }
      indices := indices + [n];
      end := rest;
    }
    r := Some((indices, end));
  }

  /** The body of the outer loop; nodes are put in front of the list. */
  method TakeTurn(read: Reader, p: string, list: seq<PathNode>) returns (t: Turn)
    requires p != ""
    ensures TurnOn(read, p, Reversed(list))
         == if t.Next? then Next(t.rest, Reversed(t.nodes)) else t
  {
    ReversedMembers(list);
    match p[0]
    case '$' =>
      if Root in list || !(At(p, 1) == '.' || At(p, 1) == '[' || At(p, 1) == '\0') {
        return Failed;
      }
      t := Next(p[1..], [Root]);
    case '.' =>
      if At(p, 1) == '.' {
        t := Added(p[1..], Descend, list);
      } else if At(p, 1) == '*' {
        t := Added(Drop(p, 2), WildcardMember, list);
      } else {
        var end := ScanName(p[1..]);
        if end == 0 {
          return Failed;
        }
        t := Added(p[1 + end..], ChildMember(p[1..1 + end]), list);
      }
    case '[' =>
      if |p| >= 2 && p[1] == '\'' {
        if At(p, 2) == '*' && At(p, 3) == '\'' && At(p, 4) == ']' {
          t := Added(Drop(p, 5), WildcardMember, list);
        } else {
          var q := FindQuote(p[2..]);
          if q.None? || 2 + q.value + 1 >= |p| {
            return Outside;
          }
          t := Added(p[2 + q.value + 2..], ChildMember(p[2..2 + q.value]), list);
        }
      } else if At(p, 1) == '*' && At(p, 2) == ']' {
        t := Added(Drop(p, 2), WildcardElement, list);
      } else {
        t := TakeNumber(read, p, list);
      }
    case _ =>
      t := if list == [] then Failed else Next(p[1..], list);
  }

  method Added(rest: string, n: PathNode, list: seq<PathNode>) returns (t: Turn)
    ensures t.Next? && t.rest == rest && Reversed(t.nodes) == Reversed(list) + [n]
  {
    ReversedPrepend(n, list);
    t := Next(rest, [n] + list);
  }

  method TakeNumber(read: Reader, p: string, list: seq<PathNode>) returns (t: Turn)
    requires p != ""
    ensures AfterNumber(read, p, Reversed(list))
         == if t.Next? then Next(t.rest, Reversed(t.nodes)) else t
  {
    if At(p, if At(p, 1) == '-' then 2 else 1) == ':' {
      return Outside;
    }
    var (n, end) := ReadIndex(read, p[1..]);
    if end == "" {
      return Failed;
    }
    if end[0] == ',' {
      var set_ := ScanSet(read, end, n);
      if set_.None? {
        return Failed;
      }
      var (indices, closing) := set_.value;
      t := Added(closing[1..], ElementSet(indices), list);
    } else if end[0] == ':' {
      t := Outside;
    } else if end[0] == ']' {
      t := Added(end[1..], ChildElement(n % 0x1_0000_0000), list);
    } else {
      t := Failed;
    }
  }

  /** json_path_compile */
  method Compile(read: Reader, expression: string) returns (c: Compiled)
    ensures c == CompileFrom(read, expression, [])
    ensures c.Path? ==> WellFormedPath(c.nodes)
  {
    CompiledIsWellFormed(read, expression, []);
    var p, list := expression, [];
    while p != ""
      invariant CompileFrom(read, p, Reversed(list)) == CompileFrom(read, expression, [])
      decreases |p|
    {
      var t := TakeTurn(read, p, list);
      match t
      case Failed => return Rejected;
      case Outside => return NotModelled;
      case Next(rest, more) => p, list := rest, more;
    }
    ReversedMembers(list);
    c := if list == [] then Rejected else Path(Reversed(list));
  }
}
