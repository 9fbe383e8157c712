/** The printer (json-generator.c). What it appends is kept as tokens and single characters;
    the spelling of strings and numbers inside a token is not modelled. */
module JsonGenerator {
  import opened Wrappers
  import opened JsonTree
  import opened JsonParser

  datatype Piece = Tok(token: Token) | Char(c: char)

  /** pretty, indent (a 32-bit guint) and indent_char */
  datatype Style = Style(pretty: bool, indent: nat, indentChar: char)

  predicate IsWhitespace(c: char) {
    c == ' ' || c == '\t' || c == '\n' || c == '\r'
  }

  /** The characters a style can put between tokens are white space. */
  predicate Blank(style: Style) {
    style.pretty ==> IsWhitespace(style.indentChar) || style.indent == 0
  }

  /** What a reader gets: white space disappears, any other stray character does not. */
  function Scan(out: seq<Piece>): seq<Token> {
    if out == [] then []
    else
      (match out[0]
       case Tok(t) => [t]
       case Char(c) => if IsWhitespace(c) then [] else [Other(c)])
      + Scan(out[1..])
  }

  function Repeat(n: nat, c: char): (s: seq<Piece>)
    ensures |s| == n && forall i :: 0 <= i < n ==> s[i] == Char(c)
  {
    if n == 0 then [] else Repeat(n - 1, c) + [Char(c)]
  }

  /** The loop bound level * indent, in 32 bits. */
  function Width(style: Style, level: nat): nat {
    (level * style.indent) % 0x1_0000_0000
  }

  function Indentation(style: Style, level: nat): seq<Piece> {
    if style.pretty then Repeat(Width(style, level), style.indentChar) else []
  }

  function Newline(style: Style): seq<Piece> {
    if style.pretty then [Char('\n')] else []
  }

  function Label(style: Style, name: Option<string>): seq<Piece> {
    match name
    case None => []
    case Some(s) => if style.pretty then [Tok(TString(s)), Char(' '), Tok(Colon), Char(' ')] else [Tok(TString(s)), Tok(Colon)]
  }

  function DumpValue(j: Json): seq<Piece>
    requires !j.Arr? && !j.Obj?
  {
    match j
    case Null => [Tok(TNull)]
    case Bool(b) => [Tok(if b then TTrue else TFalse)]
    case Int(n) => [Tok(TInt(n))]
    case Double(d) => [Tok(TFloat(d))]
    case Str(s) => [Tok(TString(s))]
  }

  function DumpNode(style: Style, level: nat, name: Option<string>, j: Json): seq<Piece>
    decreases j, 2
  {
    Indentation(style, level) + Label(style, name) + DumpBody(style, level, j)
  }

  function DumpBody(style: Style, level: nat, j: Json): seq<Piece>
    decreases j, 1
  {
    match j
    case Arr(es) => DumpArray(style, level, es)
    case Obj(ms) => DumpObject(style, level, ms)
    case _ => DumpValue(j)
  }

  /** One turn of either loop, around a printed node. */
  function Turn(style: Style, first: bool, node: seq<Piece>, last: bool): seq<Piece> {
    (if first then Newline(style) else []) + node + (if last then [] else [Tok(Comma)]) + Newline(style)
  }

  /** An empty array has no white space inside, even when pretty. */
  function DumpArray(style: Style, level: nat, es: seq<Json>): seq<Piece>
    decreases es, 1
  {
    if es == [] then [Tok(LeftBrace)] + [Tok(RightBrace)]
    else [Tok(LeftBrace)] + DumpElements(style, level, es, true) + Indentation(style, level) + [Tok(RightBrace)]
  }

  function DumpElements(style: Style, level: nat, es: seq<Json>, first: bool): seq<Piece>
    decreases es, 0
  {
    if es == [] then []
    else
      Turn(style, first, DumpNode(style, level + 1, None, es[0]), |es| == 1)
      + DumpElements(style, level, es[1..], false)
  }

  /** An empty object is indented before its closing bracket, when pretty. */
  function DumpObject(style: Style, level: nat, ms: seq<Member>): seq<Piece>
    decreases ms, 1
  {
    [Tok(LeftCurly)] + DumpMembers(style, level, ms, true) + Indentation(style, level) + [Tok(RightCurly)]
  }

  function DumpMembers(style: Style, level: nat, ms: seq<Member>, first: bool): seq<Piece>
    decreases ms, 0
  {
    if ms == [] then []
    else
      Turn(style, first, DumpNode(style, level + 1, Some(ms[0].name), ms[0].value), |ms| == 1)
      + DumpMembers(style, level, ms[1..], false)
  }

  // ----- reading it back -----

  lemma {:induction false} ScanConcat(a: seq<Piece>, b: seq<Piece>)
    ensures Scan(a + b) == Scan(a) + Scan(b)
  {
    if a == [] {
      assert a + b == b;
    } else {
      assert (a + b)[1..] == a[1..] + b;
      ScanConcat(a[1..], b);
    }
  }

  lemma ScanThree(a: seq<Piece>, b: seq<Piece>, c: seq<Piece>)
    ensures Scan(a + b + c) == Scan(a) + Scan(b) + Scan(c)
  {
    ScanConcat(a + b, c);
    ScanConcat(a, b);
  }

  lemma ScanOne(p: Piece)
    ensures Scan([p]) == match p case Tok(t) => [t] case Char(c) => if IsWhitespace(c) then [] else [Other(c)]
  {
    assert [p][1..] == [];
  }

  lemma {:induction false} ScanRepeat(n: nat, c: char)
    requires IsWhitespace(c) || n == 0
    ensures Scan(Repeat(n, c)) == []
  {
    if n > 0 {
      ScanRepeat(n - 1, c);
      ScanConcat(Repeat(n - 1, c), [Char(c)]);
      ScanOne(Char(c));
    }
  }

  lemma ScanIndentation(style: Style, level: nat)
    requires Blank(style)
    ensures Scan(Indentation(style, level)) == []
  {
    if style.pretty {
      if style.indent == 0 { assert level * style.indent == 0; }
      ScanRepeat(Width(style, level), style.indentChar);
    }
  }

  lemma ScanNewline(style: Style)
    ensures Scan(Newline(style)) == []
  {
    ScanOne(Char('\n'));
  }

  lemma ScanLabel(style: Style, name: Option<string>)
    ensures Scan(Label(style, name)) == if name.None? then [] else [TString(name.value), Colon]
  {
    if name.Some? {
      var t, b, c := Tok(TString(name.value)), Char(' '), Tok(Colon);
      ScanOne(t); ScanOne(b); ScanOne(c);
      ScanThree([t], [b], [c]);
      ScanConcat([t], [c]);
      ScanConcat([t, b, c], [b]);
      assert [t] + [b] + [c] == [t, b, c] && [t] + [c] == [t, c] && [t, b, c] + [b] == [t, b, c, b];
    }
  }

  /** What is printed for a node scans as its name, if it has one, and the tokens of its
      value; in every style that separates tokens by white space. */
  lemma {:induction false} DumpScans(style: Style, level: nat, name: Option<string>, j: Json)
    requires Blank(style)
    ensures Scan(DumpNode(style, level, name, j))
         == (if name.None? then [] else [TString(name.value), Colon]) + Tokens(AsSyntax(j))
    decreases j, 2
  {
    ScanThree(Indentation(style, level), Label(style, name), DumpBody(style, level, j));
    ScanIndentation(style, level);
    ScanLabel(style, name);
    BodyScans(style, level, j);
  }

  lemma {:induction false} BodyScans(style: Style, level: nat, j: Json)
    requires Blank(style)
    ensures Scan(DumpBody(style, level, j)) == Tokens(AsSyntax(j))
    decreases j, 1
  {
    match j
    case Arr(es) =>
      ElementsScan(style, level, es, true);
      Bracketed(style, level, LeftBrace, DumpElements(style, level, es, true), RightBrace);
      ScanOne(Tok(LeftBrace));
      ScanOne(Tok(RightBrace));
      ScanConcat([Tok(LeftBrace)], [Tok(RightBrace)]);
    case Obj(ms) =>
      MembersScan(style, level, ms, true);
      Bracketed(style, level, LeftCurly, DumpMembers(style, level, ms, true), RightCurly);
    case _ =>
      ScanOne(DumpValue(j)[0]);
  }

  lemma Bracketed(style: Style, level: nat, opening: Token, inside: seq<Piece>, closing: Token)
    requires Blank(style)
    ensures Scan([Tok(opening)] + inside + Indentation(style, level) + [Tok(closing)]) == [opening] + Scan(inside) + [closing]
  {
    ScanThree([Tok(opening)] + inside, Indentation(style, level), [Tok(closing)]);
    ScanConcat([Tok(opening)], inside);
    ScanIndentation(style, level);
    ScanOne(Tok(opening));
    ScanOne(Tok(closing));
  }

  /** Of a turn only the node and the comma are read. */
  lemma TurnScans(style: Style, first: bool, node: seq<Piece>, last: bool)
    ensures Scan(Turn(style, first, node, last)) == Scan(node) + (if last then [] else [Comma])
  {
    var before := if first then Newline(style) else [];
    var comma := if last then [] else [Tok(Comma)];
    ScanNewline(style);
    ScanOne(Tok(Comma));
    ScanConcat(before + node + comma, Newline(style));
    ScanThree(before, node, comma);
  }

  lemma FirstItemTokens(es: seq<Json>)
    requires es != []
    ensures ItemTokens(AsItems(es))
         == Tokens(AsSyntax(es[0])) + (if |es| == 1 then [] else [Comma] + ItemTokens(AsItems(es[1..])))
  {
    assert AsItems(es)[1..] == AsItems(es[1..]) && AsItems(es)[0] == AsSyntax(es[0]);
  }

  lemma FirstFieldTokens(ms: seq<Member>)
    requires ms != []
    ensures FieldTokens(AsFields(ms))
         == [TString(ms[0].name), Colon] + Tokens(AsSyntax(ms[0].value))
            + (if |ms| == 1 then [] else [Comma] + FieldTokens(AsFields(ms[1..])))
  {
    assert AsFields(ms)[1..] == AsFields(ms[1..]) && AsFields(ms)[0] == Field(ms[0].name, AsSyntax(ms[0].value));
  }

  /** A turn and the turns after it, if there are any. */
  lemma TurnAndMore(style: Style, first: bool, node: seq<Piece>, last: bool, more: seq<Piece>)
    requires last ==> more == []
    ensures Scan(Turn(style, first, node, last) + more) == Scan(node) + (if last then [] else [Comma] + Scan(more))
  {
    TurnScans(style, first, node, last);
    ScanConcat(Turn(style, first, node, last), more);
    if last {
      assert Scan(more) == [] && Scan(node) + [] + [] == Scan(node) + [];
    } else {
      assert Scan(node) + [Comma] + Scan(more) == Scan(node) + ([Comma] + Scan(more));
    }
  }

  lemma {:induction false} ElementsScan(style: Style, level: nat, es: seq<Json>, first: bool)
    requires Blank(style)
    ensures Scan(DumpElements(style, level, es, first)) == ItemTokens(AsItems(es))
    decreases es, 0
  {
    if es != [] {
      DumpScans(style, level + 1, None, es[0]);
      ElementsScan(style, level, es[1..], false);
      var node := DumpNode(style, level + 1, None, es[0]);
      assert [] + Tokens(AsSyntax(es[0])) == Tokens(AsSyntax(es[0]));
      TurnAndMore(style, first, node, |es| == 1, DumpElements(style, level, es[1..], false));
      FirstElementDumped(style, level, es, first, node);
      FirstItemTokens(es);
    }
  }

  lemma FirstElementDumped(style: Style, level: nat, es: seq<Json>, first: bool, node: seq<Piece>)
    requires es != [] && node == DumpNode(style, level + 1, None, es[0])
    ensures DumpElements(style, level, es, first)
         == Turn(style, first, node, |es| == 1) + DumpElements(style, level, es[1..], false)
  {
  }

  lemma {:induction false} MembersScan(style: Style, level: nat, ms: seq<Member>, first: bool)
    requires Blank(style)
    ensures Scan(DumpMembers(style, level, ms, first)) == FieldTokens(AsFields(ms))
    decreases ms, 0
  {
    if ms != [] {
      DumpScans(style, level + 1, Some(ms[0].name), ms[0].value);
      MembersScan(style, level, ms[1..], false);
      var node, more := DumpNode(style, level + 1, Some(ms[0].name), ms[0].value), DumpMembers(style, level, ms[1..], false);
      TurnAndMore(style, first, node, |ms| == 1, more);
      FirstFieldTokens(ms);
    }
  }

  /** Printing and parsing gives the tree back, member order included, however it is laid
      out; a tree nested more than 1024 deep cannot be read back. */
  lemma {:induction false} RoundTripIff(style: Style, j: Json)
    requires Blank(style) && WellFormed(j)
    ensures ParseElement(Scan(DumpNode(style, 0, None, j)), 0) == Ok(Parsed(j, [])) <==> TreeDepth(j) <= MAX_RECURSION_DEPTH
  {
    var s := AsSyntax(j);
    DumpScans(style, 0, None, j);
    assert Tokens(s) + [] == Tokens(s) && [] + Tokens(s) == Tokens(s);
    if TreeDepth(j) <= MAX_RECURSION_DEPTH {
      ElementParses(s, [], 0);
      MeaningOfTree(j);
    } else if ParseElement(Tokens(s), 0) == Ok(Parsed(j, [])) {
      var t := ParsedElementDerives(Tokens(s), 0);
      assert Tokens(t) + [] == Tokens(t);
      SameTokensSameDepth(s, t);
    }
  }

  /** Without pretty there is no white space at all. */
  lemma {:induction false} CompactIsTokens(style: Style, level: nat, name: Option<string>, j: Json)
    requires !style.pretty
    ensures forall p :: p in DumpNode(style, level, name, j) ==> p.Tok?
    decreases j, 2
  {
    match j
    case Arr(es) =>
      CompactElements(style, level, es, true);
      assert forall p :: p in DumpArray(style, level, es) ==> p.Tok?;
    case Obj(ms) =>
      CompactMembers(style, level, ms, true);
      assert forall p :: p in DumpObject(style, level, ms) ==> p.Tok?;
    case _ =>
  }

  lemma {:induction false} CompactElements(style: Style, level: nat, es: seq<Json>, first: bool)
    requires !style.pretty
    ensures forall p :: p in DumpElements(style, level, es, first) ==> p.Tok?
    decreases es, 0
  {
    if es != [] {
      CompactIsTokens(style, level + 1, None, es[0]);
      CompactElements(style, level, es[1..], false);
    }
  }

  lemma {:induction false} CompactMembers(style: Style, level: nat, ms: seq<Member>, first: bool)
    requires !style.pretty
    ensures forall p :: p in DumpMembers(style, level, ms, first) ==> p.Tok?
    decreases ms, 0
  {
    if ms != [] {
      CompactIsTokens(style, level + 1, Some(ms[0].name), ms[0].value);
      CompactMembers(style, level, ms[1..], false);
    }
  }

  // ----- the layout -----

  /** level * indent characters, counted in 32 bits */
  function Blanks(style: Style, level: int): seq<Piece> {
    seq((level * style.indent) % 0x1_0000_0000, _ => Char(style.indentChar))
  }

  /** What a reader of a pretty text expects between two tokens, `open` containers being open
      behind the first: each child and the closing bracket stand on a line of their own,
      indented by the number of containers around them; a colon has a blank on either side.
      Only an empty array is written in one piece. */
  function Gap(style: Style, open: int, t: Token, next: Token): seq<Piece> {
    if next == Comma then []
    else if Opened(next) < 0 then
      if t == LeftBrace then []
      else (if t == LeftCurly then [] else [Char('\n')]) + Blanks(style, open - 1)
    else if Opened(t) > 0 || t == Comma then [Char('\n')] + Blanks(style, open)
    else if t == Colon || next == Colon then [Char(' ')]
    else []
  }

  /** The tokens with the gaps between them, behind the token `last`. */
  function LaidOut(style: Style, open: int, last: Token, ts: seq<Token>): seq<Piece>
    decreases |ts|
  {
    if ts == [] then []
    else Gap(style, open, last, ts[0]) + [Tok(ts[0])] + LaidOut(style, open + Opened(ts[0]), ts[0], ts[1..])
  }

  lemma LaidOutFirst(style: Style, open: int, last: Token, t: Token, rest: seq<Token>)
    ensures LaidOut(style, open, last, [t] + rest)
         == Gap(style, open, last, t) + [Tok(t)] + LaidOut(style, open + Opened(t), t, rest)
  {
    assert ([t] + rest)[1..] == rest;
  }

  predicate Starts(t: Token) {
    Opened(t) >= 0 && t != Comma && t != Colon
  }

  predicate Ends(t: Token) {
    Opened(t) <= 0 && t != Comma && t != Colon
  }

  lemma GapToValue(style: Style, open: int, last: Token, t: Token)
    requires Starts(t)
    ensures Gap(style, open, last, t) == Gap(style, open, last, TNull)
  {
  }

  /** Behind the token `last` and before `rest`, the tokens of a value are laid out as `out`. */
  ghost predicate LaysAt(style: Style, open: int, ts: seq<Token>, out: seq<Piece>, end: Token, last: Token, rest: seq<Token>) {
    LaidOut(style, open, last, ts + rest) == Gap(style, open, last, TNull) + out + LaidOut(style, open, end, rest)
  }

  /** The same wherever they stand. */
  ghost predicate Lays(style: Style, open: int, ts: seq<Token>, out: seq<Piece>, end: Token) {
    Ends(end) && forall last, rest :: LaysAt(style, open, ts, out, end, last, rest)
  }

  lemma OneLays(style: Style, open: int, t: Token)
    requires Opened(t) == 0 && Starts(t)
    ensures Lays(style, open, [t], [Tok(t)], t)
  {
    forall last, rest ensures LaysAt(style, open, [t], [Tok(t)], t, last, rest) {
      LaidOutFirst(style, open, last, t, rest);
      GapToValue(style, open, last, t);
    }
  }

  lemma BlanksAreIndentation(style: Style, level: nat)
    requires style.pretty
    ensures Blanks(style, level) == Indentation(style, level)
  {
  }

  // Four ways to regroup what a value's parts leave.

  lemma Bracketing(a: Token, ts: seq<Token>, b: Token, rest: seq<Token>)
    ensures [a] + ts + [b] + rest == [a] + (ts + ([b] + rest))
  {
  }

  lemma FullParts(whole: seq<Piece>, g: seq<Piece>, a: seq<Piece>, inside: seq<Piece>, before: seq<Piece>, out: seq<Piece>,
                  behind: seq<Piece>, after: seq<Piece>, b: seq<Piece>, r: seq<Piece>)
    requires whole == g + a + inside && inside == before + out + behind && behind == after + b + r
    ensures whole == g + (a + before + out + after + b) + r
  {
  }

  lemma FullContainerAt(style: Style, level: nat, opening: Token, ts: seq<Token>, out: seq<Piece>, end: Token, closing: Token,
                        last: Token, rest: seq<Token>)
    requires style.pretty && Opened(opening) == 1 && Opened(closing) == -1 && Ends(end)
    requires LaysAt(style, level + 1, ts, out, end, opening, [closing] + rest)
    ensures LaysAt(style, level, [opening] + ts + [closing],
                   [Tok(opening)] + ([Char('\n')] + Blanks(style, level + 1)) + out + ([Char('\n')] + Blanks(style, level)) + [Tok(closing)],
                   closing, last, rest)
  {
    Bracketing(opening, ts, closing, rest);
    var behind := LaidOut(style, level + 1, end, [closing] + rest);
    var inside := LaidOut(style, level + 1, opening, ts + ([closing] + rest));
    LaidOutFirst(style, level, last, opening, ts + ([closing] + rest));
    GapToValue(style, level, last, opening);
    LaidOutFirst(style, level + 1, end, closing, rest);
    FullParts(LaidOut(style, level, last, [opening] + (ts + ([closing] + rest))), Gap(style, level, last, TNull), [Tok(opening)],
              inside, Gap(style, level + 1, opening, TNull), out, behind, Gap(style, level + 1, end, closing), [Tok(closing)],
              LaidOut(style, level, closing, rest));
  }

  function ContainerText(style: Style, level: nat, opening: Token, inside: seq<Piece>, closing: Token): seq<Piece> {
    [Tok(opening)] + inside + Indentation(style, level) + [Tok(closing)]
  }

  lemma TextParts(a: seq<Piece>, n: seq<Piece>, i: seq<Piece>, out: seq<Piece>, k: seq<Piece>, b: seq<Piece>)
    ensures a + (n + i) + out + (n + k) + b == a + (n + i + out + n) + k + b
  {
  }

  lemma FullContainerLays(style: Style, level: nat, opening: Token, ts: seq<Token>, out: seq<Piece>, end: Token, closing: Token)
    requires style.pretty && Opened(opening) == 1 && Opened(closing) == -1
    requires Lays(style, level + 1, ts, out, end)
    ensures Lays(style, level, [opening] + ts + [closing],
                 ContainerText(style, level, opening, Children(style, level + 1, out, true), closing), closing)
  {
    BlanksAreIndentation(style, level);
    BlanksAreIndentation(style, level + 1);
    TextParts([Tok(opening)], Newline(style), Indentation(style, level + 1), out, Indentation(style, level), [Tok(closing)]);
    var text := ContainerText(style, level, opening, Children(style, level + 1, out, true), closing);
    forall last, rest ensures LaysAt(style, level, [opening] + ts + [closing], text, closing, last, rest) {
      assert LaysAt(style, level + 1, ts, out, end, opening, [closing] + rest);
      FullContainerAt(style, level, opening, ts, out, end, closing, last, rest);
    }
  }

  lemma EmptyParts(whole: seq<Piece>, g: seq<Piece>, a: seq<Piece>, behind: seq<Piece>, k: seq<Piece>, b: seq<Piece>, r: seq<Piece>)
    requires whole == g + a + behind && behind == k + b + r
    ensures whole == g + (a + k + b) + r
  {
  }

  lemma EmptyContainerAt(style: Style, level: nat, opening: Token, closing: Token, last: Token, rest: seq<Token>)
    requires Opened(opening) == 1 && Opened(closing) == -1
    ensures LaysAt(style, level, [opening] + [closing],
                   [Tok(opening)] + Gap(style, level + 1, opening, closing) + [Tok(closing)], closing, last, rest)
  {
    assert [opening] + [closing] + rest == [opening] + ([closing] + rest);
    LaidOutFirst(style, level, last, opening, [closing] + rest);
    GapToValue(style, level, last, opening);
    LaidOutFirst(style, level + 1, opening, closing, rest);
    EmptyParts(LaidOut(style, level, last, [opening] + ([closing] + rest)), Gap(style, level, last, TNull), [Tok(opening)],
               LaidOut(style, level + 1, opening, [closing] + rest), Gap(style, level + 1, opening, closing), [Tok(closing)],
               LaidOut(style, level, closing, rest));
  }

  lemma EmptyContainerLays(style: Style, level: nat, opening: Token, closing: Token)
    requires Opened(opening) == 1 && Opened(closing) == -1
    ensures Lays(style, level, [opening] + [closing],
                 [Tok(opening)] + Gap(style, level + 1, opening, closing) + [Tok(closing)], closing)
  {
    var text := [Tok(opening)] + Gap(style, level + 1, opening, closing) + [Tok(closing)];
    forall last, rest ensures LaysAt(style, level, [opening] + [closing], text, closing, last, rest) {
      EmptyContainerAt(style, level, opening, closing, last, rest);
    }
  }

  lemma NameParts(whole: seq<Piece>, g: seq<Piece>, n: Piece, colon: seq<Piece>, b: Piece, c: Piece, value: seq<Piece>,
                  out: seq<Piece>, r: seq<Piece>)
    requires whole == g + [n] + colon && colon == [b] + [c] + value && value == [b] + out + r
    ensures whole == g + ([n, b, c, b] + out) + r
  {
  }

  lemma NamedAt(style: Style, open: int, name: string, ts: seq<Token>, out: seq<Piece>, end: Token, last: Token, rest: seq<Token>)
    requires style.pretty && LaysAt(style, open, ts, out, end, Colon, rest)
    ensures LaysAt(style, open, [TString(name), Colon] + ts, Label(style, Some(name)) + out, end, last, rest)
  {
    var after := ts + rest;
    assert [TString(name), Colon] + ts + rest == [TString(name)] + ([Colon] + after);
    LaidOutFirst(style, open, last, TString(name), [Colon] + after);
    GapToValue(style, open, last, TString(name));
    LaidOutFirst(style, open, TString(name), Colon, after);
    NameParts(LaidOut(style, open, last, [TString(name)] + ([Colon] + after)), Gap(style, open, last, TNull), Tok(TString(name)),
              LaidOut(style, open, TString(name), [Colon] + after), Char(' '), Tok(Colon), LaidOut(style, open, Colon, after), out,
              LaidOut(style, open, end, rest));
  }

  /** A name in front of a value. */
  lemma NamedLays(style: Style, open: int, name: string, ts: seq<Token>, out: seq<Piece>, end: Token)
    requires style.pretty && Lays(style, open, ts, out, end)
    ensures Lays(style, open, [TString(name), Colon] + ts, Label(style, Some(name)) + out, end)
  {
    var text := Label(style, Some(name)) + out;
    forall last, rest ensures LaysAt(style, open, [TString(name), Colon] + ts, text, end, last, rest) {
      assert LaysAt(style, open, ts, out, end, Colon, rest);
      NamedAt(style, open, name, ts, out, end, last, rest);
    }
  }

  lemma CommaParts(whole: seq<Piece>, g: seq<Piece>, out: seq<Piece>, behind: seq<Piece>, c: seq<Piece>, more: seq<Piece>,
                   n: seq<Piece>, i: seq<Piece>, tail: seq<Piece>, r: seq<Piece>)
    requires whole == g + out + behind && behind == [] + c + more && more == n + i + tail + r
    ensures whole == g + (out + c + n + i + tail) + r
  {
  }

  lemma CommaRegroup(ts: seq<Token>, more: seq<Token>, rest: seq<Token>)
    ensures ts + ([Comma] + more) + rest == ts + ([Comma] + (more + rest))
  {
  }

  lemma CommaAt(style: Style, open: nat, ts: seq<Token>, out: seq<Piece>, mid: Token, more: seq<Token>, tail: seq<Piece>, end: Token,
                last: Token, rest: seq<Token>)
    requires style.pretty
    requires LaysAt(style, open, ts, out, mid, last, [Comma] + (more + rest)) && LaysAt(style, open, more, tail, end, Comma, rest)
    ensures LaysAt(style, open, ts + ([Comma] + more), out + [Tok(Comma)] + Newline(style) + Indentation(style, open) + tail, end, last, rest)
  {
    BlanksAreIndentation(style, open);
    assert Gap(style, open, Comma, TNull) == Newline(style) + Indentation(style, open);
    CommaRegroup(ts, more, rest);
    LaidOutFirst(style, open, mid, Comma, more + rest);
    CommaParts(LaidOut(style, open, last, ts + ([Comma] + (more + rest))), Gap(style, open, last, TNull), out,
               LaidOut(style, open, mid, [Comma] + (more + rest)), [Tok(Comma)], LaidOut(style, open, Comma, more + rest),
               Newline(style), Indentation(style, open), tail, LaidOut(style, open, end, rest));
  }

  /** A value, a comma and more values. */
  lemma CommaLays(style: Style, open: nat, ts: seq<Token>, out: seq<Piece>, mid: Token, more: seq<Token>, tail: seq<Piece>, end: Token)
    requires style.pretty && Lays(style, open, ts, out, mid) && Lays(style, open, more, tail, end)
    ensures Lays(style, open, ts + ([Comma] + more), out + [Tok(Comma)] + Newline(style) + Indentation(style, open) + tail, end)
  {
    var text := out + [Tok(Comma)] + Newline(style) + Indentation(style, open) + tail;
    forall last, rest ensures LaysAt(style, open, ts + ([Comma] + more), text, end, last, rest) {
      assert LaysAt(style, open, ts, out, mid, last, [Comma] + (more + rest));
      assert LaysAt(style, open, more, tail, end, Comma, rest);
      CommaAt(style, open, ts, out, mid, more, tail, end, last, rest);
    }
  }

  /** What the turns over one or more children print, without the white space around it. */
  function Children(style: Style, level: nat, inner: seq<Piece>, first: bool): seq<Piece> {
    (if first then Newline(style) else []) + Indentation(style, level) + inner + Newline(style)
  }

  lemma LastTurn(style: Style, level: nat, first: bool, head: seq<Piece>, body: seq<Piece>)
    ensures Turn(style, first, Indentation(style, level) + head + body, true) + []
         == Children(style, level, head + body, first)
  {
  }

  lemma TurnParts(f: seq<Piece>, i: seq<Piece>, head: seq<Piece>, body: seq<Piece>, c: seq<Piece>, n: seq<Piece>, tail: seq<Piece>)
    ensures f + (i + head + body) + c + n + ([] + i + tail + n) == f + i + (head + body + c + n + i + tail) + n
  {
  }

  lemma TurnThenChildren(style: Style, level: nat, first: bool, head: seq<Piece>, body: seq<Piece>, tail: seq<Piece>)
    ensures Turn(style, first, Indentation(style, level) + head + body, false) + Children(style, level, tail, false)
         == Children(style, level, head + body + [Tok(Comma)] + Newline(style) + Indentation(style, level) + tail, first)
  {
    TurnParts(if first then Newline(style) else [], Indentation(style, level), head, body, [Tok(Comma)], Newline(style), tail);
  }

  lemma {:induction false} ElementsLaidOut(style: Style, level: nat, es: seq<Json>, first: bool) returns (inner: seq<Piece>, end: Token)
    requires style.pretty && es != []
    ensures Lays(style, level + 1, ItemTokens(AsItems(es)), inner, end)
    ensures DumpElements(style, level, es, first) == Children(style, level + 1, inner, first)
    decreases es, 0
  {
    var body := DumpBody(style, level + 1, es[0]);
    inner := body;
    end := BodyLaidOut(style, level + 1, es[0]);
    FirstItemTokens(es);
    assert [] + body == body;
    if |es| == 1 {
      LastTurn(style, level + 1, first, [], body);
      assert Tokens(AsSyntax(es[0])) + [] == Tokens(AsSyntax(es[0]));
    } else {
      var tail, last := ElementsLaidOut(style, level, es[1..], false);
      TurnThenChildren(style, level + 1, first, [], body, tail);
      CommaLays(style, level + 1, Tokens(AsSyntax(es[0])), body, end, ItemTokens(AsItems(es[1..])), tail, last);
      inner, end := body + [Tok(Comma)] + Newline(style) + Indentation(style, level + 1) + tail, last;
    }
  }

  lemma {:induction false} MembersLaidOut(style: Style, level: nat, ms: seq<Member>, first: bool) returns (inner: seq<Piece>, end: Token)
    requires style.pretty && ms != []
    ensures Lays(style, level + 1, FieldTokens(AsFields(ms)), inner, end)
    ensures DumpMembers(style, level, ms, first) == Children(style, level + 1, inner, first)
    decreases ms, 0
  {
    var head, body := Label(style, Some(ms[0].name)), DumpBody(style, level + 1, ms[0].value);
    var ts := Tokens(AsSyntax(ms[0].value));
    end := BodyLaidOut(style, level + 1, ms[0].value);
    NamedLays(style, level + 1, ms[0].name, ts, body, end);
    inner := head + body;
    FirstFieldTokens(ms);
    var named := [TString(ms[0].name), Colon] + ts;
    if |ms| == 1 {
      LastTurn(style, level + 1, first, head, body);
      assert named + [] == named;
    } else {
      var tail, last := MembersLaidOut(style, level, ms[1..], false);
      TurnThenChildren(style, level + 1, first, head, body, tail);
      CommaLays(style, level + 1, named, inner, end, FieldTokens(AsFields(ms[1..])), tail, last);
      inner, end := inner + [Tok(Comma)] + Newline(style) + Indentation(style, level + 1) + tail, last;
    }
  }

  lemma {:induction false} BodyLaidOut(style: Style, level: nat, j: Json) returns (end: Token)
    requires style.pretty
    ensures Lays(style, level, Tokens(AsSyntax(j)), DumpBody(style, level, j), end)
    decreases j, 1
  {
    match j
    case Arr(es) => end := ArrayLaidOut(style, level, es);
    case Obj(ms) => end := ObjectLaidOut(style, level, ms);
    case _ => end := ValueLaidOut(style, level, j);
  }

  lemma ValueLaidOut(style: Style, level: nat, j: Json) returns (end: Token)
    requires !j.Arr? && !j.Obj?
    ensures Lays(style, level, Tokens(AsSyntax(j)), DumpValue(j), end)
  {
    end := DumpValue(j)[0].token;
    assert DumpValue(j) == [Tok(end)] && Tokens(AsSyntax(j)) == [end];
    OneLays(style, level, end);
  }

  lemma {:induction false} ArrayLaidOut(style: Style, level: nat, es: seq<Json>) returns (end: Token)
    requires style.pretty
    ensures Lays(style, level, [LeftBrace] + ItemTokens(AsItems(es)) + [RightBrace], DumpArray(style, level, es), end)
    decreases es, 1
  {
    end := RightBrace;
    if es == [] {
      EmptyContainerLays(style, level, LeftBrace, RightBrace);
      assert [LeftBrace] + [] + [RightBrace] == [LeftBrace] + [RightBrace];
      assert [Tok(LeftBrace)] + [] + [Tok(RightBrace)] == [Tok(LeftBrace)] + [Tok(RightBrace)];
    } else {
      var inner, last := ElementsLaidOut(style, level, es, true);
      FullContainerLays(style, level, LeftBrace, ItemTokens(AsItems(es)), inner, last, RightBrace);
    }
  }

  lemma {:induction false} ObjectLaidOut(style: Style, level: nat, ms: seq<Member>) returns (end: Token)
    requires style.pretty
    ensures Lays(style, level, [LeftCurly] + FieldTokens(AsFields(ms)) + [RightCurly], DumpObject(style, level, ms), end)
    decreases ms, 1
  {
    end := RightCurly;
    if ms == [] {
      EmptyContainerLays(style, level, LeftCurly, RightCurly);
      BlanksAreIndentation(style, level);
      assert [LeftCurly] + [] + [RightCurly] == [LeftCurly] + [RightCurly];
      assert [Tok(LeftCurly)] + [] == [Tok(LeftCurly)];
      assert Gap(style, level + 1, LeftCurly, RightCurly) == Indentation(style, level);
    } else {
      var inner, last := MembersLaidOut(style, level, ms, true);
      FullContainerLays(style, level, LeftCurly, FieldTokens(AsFields(ms)), inner, last, RightCurly);
    }
  }

  lemma RootParts(i: seq<Piece>, body: seq<Piece>, first: seq<Piece>, rest: seq<Piece>)
    requires [] + body + [] == [] + first + rest
    ensures i + [] + body == i + (first + rest)
  {
    assert body == [] + body + [] && [] + first + rest == first + rest;
  }

  /** A pretty text is its indentation and the tokens of the tree, with the gap between any
      two of them that the tokens alone decide. */
  lemma {:induction false} PrettyIsLaidOut(style: Style, level: nat, j: Json)
    requires style.pretty
    ensures
      var ts := Tokens(AsSyntax(j));
      DumpNode(style, level, None, j)
        == Blanks(style, level) + ([Tok(ts[0])] + LaidOut(style, level + Opened(ts[0]), ts[0], ts[1..]))
  {
    var ts := Tokens(AsSyntax(j));
    var end := BodyLaidOut(style, level, j);
    BlanksAreIndentation(style, level);
    assert LaysAt(style, level, ts, DumpBody(style, level, j), end, TNull, []);
    assert ts + [] == ts && ts == [ts[0]] + ts[1..];
    LaidOutFirst(style, level, TNull, ts[0], ts[1..]);
    RootParts(Indentation(style, level), DumpBody(style, level, j), [Tok(ts[0])], LaidOut(style, level + Opened(ts[0]), ts[0], ts[1..]));
  }

  // ----- the printer's own loops -----

  lemma FourParts(t: seq<Piece>, a: seq<Piece>, b: seq<Piece>, c: seq<Piece>, d: seq<Piece>)
    ensures t + a + b + c + d == t + (a + b + c + d)
  {
  }

  lemma ThreeParts(t: seq<Piece>, a: seq<Piece>, b: seq<Piece>, c: seq<Piece>)
    ensures t + a + b + c == t + (a + b + c)
  {
  }

  lemma OneMoreElementDumped(style: Style, level: nat, es: seq<Json>, i: nat, t: seq<Piece>)
    requires i < |es|
    ensures t + DumpElements(style, level, es[i..], i == 0)
         == t + Turn(style, i == 0, DumpNode(style, level + 1, None, es[i]), i + 1 == |es|)
            + DumpElements(style, level, es[i + 1..], false)
  {
    assert es[i..][1..] == es[i + 1..];
  }

  lemma OneMoreMemberDumped(style: Style, level: nat, ms: seq<Member>, i: nat, t: seq<Piece>)
    requires i < |ms|
    ensures t + DumpMembers(style, level, ms[i..], i == 0)
         == t + Turn(style, i == 0, DumpNode(style, level + 1, Some(ms[i].name), ms[i].value), i + 1 == |ms|)
            + DumpMembers(style, level, ms[i + 1..], false)
  {
    assert ms[i..][1..] == ms[i + 1..];
  }

  /** GString */
  class Buffer {
    var text: seq<Piece>

    constructor ()
      ensures text == []
    {
      text := [];
    }

    method Append(piece: Piece)
      modifies this
      ensures text == old(text) + [piece]
    {
      text := text + [piece];
    }
  }

  class Generator {
    const style: Style

    constructor (s: Style)
      ensures style == s
    {
      style := s;
    }

    method AppendIndentation(buffer: Buffer, level: nat)
      modifies buffer
      ensures buffer.text == old(buffer.text) + Indentation(style, level)
    {
      if style.pretty {
        var i := 0;
        while i < Width(style, level)
          invariant i <= Width(style, level)
          invariant buffer.text == old(buffer.text) + Repeat(i, style.indentChar)
        {
          buffer.Append(Char(style.indentChar));
          i := i + 1;
        }
      }
    }

    method AppendNewline(buffer: Buffer)
      modifies buffer
      ensures buffer.text == old(buffer.text) + Newline(style)
    {
      if style.pretty {
        buffer.Append(Char('\n'));
      }
    }

    method AppendLabel(buffer: Buffer, name: Option<string>)
      modifies buffer
      ensures buffer.text == old(buffer.text) + Label(style, name)
    {
      if name.Some? {
        buffer.Append(Tok(TString(name.value)));
        if style.pretty {
          buffer.Append(Char(' '));
        }
        buffer.Append(Tok(Colon));
        if style.pretty {
          buffer.Append(Char(' '));
        }
      }
    }

    /** dump_node */
    method WriteNode(buffer: Buffer, level: nat, name: Option<string>, j: Json)
      modifies buffer
      ensures buffer.text == old(buffer.text) + DumpNode(style, level, name, j)
      decreases j, 2
    {
      ghost var text := buffer.text;
      AppendIndentation(buffer, level);
      AppendLabel(buffer, name);
      WriteBody(buffer, level, j);
      ThreeParts(text, Indentation(style, level), Label(style, name), DumpBody(style, level, j));
    }

    method WriteBody(buffer: Buffer, level: nat, j: Json)
      modifies buffer
      ensures buffer.text == old(buffer.text) + DumpBody(style, level, j)
      decreases j, 1
    {
      match j
      case Arr(es) => WriteArray(buffer, level, es);
      case Obj(ms) => WriteObject(buffer, level, ms);
      case _ => buffer.text := buffer.text + DumpValue(j);
    }

    /** The body of either loop. */
    method WriteTurn(buffer: Buffer, level: nat, first: bool, name: Option<string>, j: Json, last: bool)
      modifies buffer
      ensures buffer.text == old(buffer.text) + Turn(style, first, DumpNode(style, level, name, j), last)
      decreases j, 3
    {
      ghost var text, node := buffer.text, DumpNode(style, level, name, j);
      ghost var opening, comma := if first then Newline(style) else [], if last then [] else [Tok(Comma)];
      FourParts(text, opening, node, comma, Newline(style));
      if first {
        AppendNewline(buffer);
      }
      assert buffer.text == text + opening;
      WriteNode(buffer, level, name, j);
      assert buffer.text == text + opening + node;
      if !last {
        buffer.Append(Tok(Comma));
      }
      assert buffer.text == text + opening + node + comma;
      AppendNewline(buffer);
    }

    /** dump_array */
    method WriteArray(buffer: Buffer, level: nat, es: seq<Json>)
      modifies buffer
      ensures buffer.text == old(buffer.text) + DumpArray(style, level, es)
      decreases es, 1
    {
      FourParts(buffer.text, [Tok(LeftBrace)], DumpElements(style, level, es, true), Indentation(style, level), [Tok(RightBrace)]);
      buffer.Append(Tok(LeftBrace));
      if |es| != 0 {
        WriteElements(buffer, level, es);
        AppendIndentation(buffer, level);
      }
      buffer.Append(Tok(RightBrace));
    }

    method WriteElements(buffer: Buffer, level: nat, es: seq<Json>)
      modifies buffer
      ensures buffer.text == old(buffer.text) + DumpElements(style, level, es, true)
      decreases es, 0
    {
      ghost var all := buffer.text + DumpElements(style, level, es, true);
      var i := 0;
      while i < |es|
        invariant i <= |es|
        invariant buffer.text + DumpElements(style, level, es[i..], i == 0) == all
      {
        OneMoreElementDumped(style, level, es, i, buffer.text);
        WriteTurn(buffer, level + 1, i == 0, None, es[i], i + 1 == |es|);
        i := i + 1;
      }
      assert es[i..] == [];
    }

    /** dump_object */
    method WriteObject(buffer: Buffer, level: nat, ms: seq<Member>)
      modifies buffer
      ensures buffer.text == old(buffer.text) + DumpObject(style, level, ms)
      decreases ms, 1
    {
      FourParts(buffer.text, [Tok(LeftCurly)], DumpMembers(style, level, ms, true), Indentation(style, level), [Tok(RightCurly)]);
      buffer.Append(Tok(LeftCurly));
      WriteMembers(buffer, level, ms);
      AppendIndentation(buffer, level);
      buffer.Append(Tok(RightCurly));
    }

    method WriteMembers(buffer: Buffer, level: nat, ms: seq<Member>)
      modifies buffer
      ensures buffer.text == old(buffer.text) + DumpMembers(style, level, ms, true)
      decreases ms, 0
    {
      ghost var all := buffer.text + DumpMembers(style, level, ms, true);
      var i := 0;
      while i < |ms|
        invariant i <= |ms|
        invariant buffer.text + DumpMembers(style, level, ms[i..], i == 0) == all
      {
        OneMoreMemberDumped(style, level, ms, i, buffer.text);
        WriteTurn(buffer, level + 1, i == 0, Some(ms[i].name), ms[i].value, i + 1 == |ms|);
        i := i + 1;
      }
      assert ms[i..] == [];
    }
  }
}
