/** GVariant type strings and the scan for the next complete type (json-gvariant.c). The type
    `v` and dictionary keys other than strings are not part of this model. */
module VariantTypes {
  import opened Wrappers

  datatype IntKind = Byte | Int16 | Uint16 | Int32 | Uint32 | Int64 | Uint64 | Handle
  datatype StringKind = Text | ObjectPath | Signature

  datatype Type =
    | TBool
    | TInt(kind: IntKind)
    | TDouble
    | TString(str: StringKind)
    | TArray(elem: Type)
    | TMaybe(elem: Type)
    | TTuple(items: seq<Type>)
    | TEntry(value: Type)             // a dictionary entry with a string key

  function IntLetter(k: IntKind): char {
    match k
    case Byte => 'y' case Int16 => 'n' case Uint16 => 'q' case Int32 => 'i'
    case Uint32 => 'u' case Int64 => 'x' case Uint64 => 't' case Handle => 'h'
  }

  function StringLetter(k: StringKind): char {
    match k
    case Text => 's' case ObjectPath => 'o' case Signature => 'g'
  }

  function TypeString(t: Type): (s: string)
    ensures s != []
  {
    match t
    case TBool => "b"
    case TInt(k) => [IntLetter(k)]
    case TDouble => "d"
    case TString(k) => [StringLetter(k)]
    case TArray(e) => "a" + TypeString(e)
    case TMaybe(e) => "m" + TypeString(e)
    case TTuple(ts) => "(" + TypeStrings(ts) + ")"
    case TEntry(v) => "{" + ("s" + TypeString(v)) + "}"
  }

  function TypeStrings(ts: seq<Type>): (s: string)
    ensures s == [] <==> ts == []
  {
    if ts == [] then "" else TypeString(ts[0]) + TypeStrings(ts[1..])
  }

  function Larger(a: nat, b: nat): nat { if a > b then a else b }

  /** How many brackets are open at the deepest point of the type string. */
  function Nesting(t: Type): nat {
    match t
    case TArray(e) => Nesting(e)
    case TMaybe(e) => Nesting(e)
    case TTuple(ts) => 1 + NestingOfAll(ts)
    case TEntry(v) => 1 + Nesting(v)
    case _ => 0
  }

  function NestingOfAll(ts: seq<Type>): nat {
    if ts == [] then 0 else Larger(Nesting(ts[0]), NestingOfAll(ts[1..]))
  }

  const MAX_STACK := 256

  // ----- the scan, on the rest of the string -----

  predicate Opens(c: char) { c == '(' || c == '{' }
  predicate Closes(c: char) { c == ')' || c == '}' }

  /** The bracket expected next goes on the stack. */
  function Push(c: char, stack: seq<char>): seq<char> {
    if c == '(' then stack + [')'] else if c == '{' then stack + ['}'] else stack
  }

  /** After the cursor has moved, a bracket that matches the top is popped. */
  function Settle(rest: string, stack: seq<char>): seq<char> {
    if stack != [] && rest != [] && rest[0] == stack[|stack| - 1] then stack[..|stack| - 1] else stack
  }

  /** The turns of the loop while the stack is not empty; None is a string that ends inside a
      bracket, or one that needs more room than the stack has. */
  function Scan(rest: string, stack: seq<char>): Option<string>
    decreases |rest|
  {
    if stack == [] then Some(rest)
    else if rest == [] then None
    else if |Push(rest[0], stack)| > MAX_STACK then None
    else Scan(rest[1..], Settle(rest[1..], Push(rest[0], stack)))
  }

  /** What signature_get_next_complete_type leaves of the string. */
  function NextType(rest: string): Option<string>
    decreases |rest|
  {
    if rest == [] then None
    else if Opens(rest[0]) then
      match Scan(rest[1..], Settle(rest[1..], Push(rest[0], [])))
      case Some(closing) => if closing == [] then None else Some(closing[1..])
      case None => None
    else if rest[0] == 'a' || rest[0] == 'm' then NextType(rest[1..])
    else Some(rest[1..])
  }

  // ----- complete types are skipped as a whole -----

  ghost predicate Brackets(stack: seq<char>) {
    forall i :: 0 <= i < |stack| ==> Closes(stack[i])
  }

  /** Inside brackets the scan passes over `s` as over a single plain character, if the stack
      has room for `depth` more. */
  ghost predicate Passes(s: string, depth: nat) {
    forall rest, stack {:trigger Scan(s + rest, stack)} :: stack != [] && Brackets(stack) && |stack| + depth <= MAX_STACK
      ==> Scan(s + rest, stack) == Scan(rest, Settle(rest, stack))
  }

  lemma PlainPasses(c: char)
    requires !Opens(c)
    ensures Passes([c], 0)
  {
    forall rest, stack: seq<char> | stack != [] && Brackets(stack) && |stack| <= MAX_STACK
      ensures Scan([c] + rest, stack) == Scan(rest, Settle(rest, stack))
    {
      assert ([c] + rest)[1..] == rest;
    }
  }

  /** A string that starts with no closing bracket leaves the stack alone before it. */
  lemma BothPass(a: string, da: nat, b: string, db: nat)
    requires Passes(a, da) && Passes(b, db) && b != [] && !Closes(b[0])
    ensures Passes(a + b, Larger(da, db))
  {
    forall rest, stack: seq<char> | stack != [] && Brackets(stack) && |stack| + Larger(da, db) <= MAX_STACK
      ensures Scan(a + b + rest, stack) == Scan(rest, Settle(rest, stack))
    {
      assert a + b + rest == a + (b + rest);
      assert Settle(b + rest, stack) == stack;
    }
  }

  /** From behind an opening bracket the scan comes to its closing bracket with the stack it
      had before. */
  lemma InsideScans(inside: string, depth: nat, closing: char, rest: string, stack: seq<char>)
    requires inside == [] || (Passes(inside, depth) && !Closes(inside[0]))
    requires Closes(closing) && Brackets(stack) && |stack| + 1 + depth <= MAX_STACK
    ensures
      var after := inside + ([closing] + rest);
      Scan(after, Settle(after, stack + [closing])) == Scan([closing] + rest, stack)
  {
    var after := inside + ([closing] + rest);
    if inside == [] {
      assert after == [closing] + rest && Settle(after, stack + [closing]) == stack;
    } else {
      assert Settle(after, stack + [closing]) == stack + [closing];
      assert Settle([closing] + rest, stack + [closing]) == stack;
    }
  }

  lemma OpeningScans(opening: char, closing: char, after: string, stack: seq<char>)
    requires (opening == '(' && closing == ')') || (opening == '{' && closing == '}')
    requires stack != [] && |stack| < MAX_STACK
    ensures Scan([opening] + after, stack) == Scan(after, Settle(after, stack + [closing]))
  {
    assert ([opening] + after)[1..] == after;
  }

  lemma ClosingScans(closing: char, rest: string, stack: seq<char>)
    requires Closes(closing) && stack != [] && |stack| <= MAX_STACK
    ensures Scan([closing] + rest, stack) == Scan(rest, Settle(rest, stack))
  {
    assert ([closing] + rest)[1..] == rest;
  }

  lemma BracketScans(opening: char, inside: string, closing: char, depth: nat, rest: string, stack: seq<char>)
    requires inside == [] || (Passes(inside, depth) && !Closes(inside[0]))
    requires (opening == '(' && closing == ')') || (opening == '{' && closing == '}')
    requires stack != [] && Brackets(stack) && |stack| + 1 + depth <= MAX_STACK
    ensures Scan([opening] + inside + [closing] + rest, stack) == Scan(rest, Settle(rest, stack))
  {
    var after := inside + ([closing] + rest);
    assert [opening] + inside + [closing] + rest == [opening] + after;
    OpeningScans(opening, closing, after, stack);
    InsideScans(inside, depth, closing, rest, stack);
    ClosingScans(closing, rest, stack);
  }

  lemma BracketedPasses(opening: char, inside: string, closing: char, depth: nat)
    requires inside == [] || (Passes(inside, depth) && !Closes(inside[0]))
    requires (opening == '(' && closing == ')') || (opening == '{' && closing == '}')
    ensures Passes([opening] + inside + [closing], 1 + depth)
  {
    forall rest, stack: seq<char> | stack != [] && Brackets(stack) && |stack| + (1 + depth) <= MAX_STACK
      ensures Scan([opening] + inside + [closing] + rest, stack) == Scan(rest, Settle(rest, stack))
    {
      BracketScans(opening, inside, closing, depth, rest, stack);
    }
  }

  lemma FirstLetter(t: Type)
    ensures !Closes(TypeString(t)[0])
    ensures Opens(TypeString(t)[0]) <==> t.TTuple? || t.TEntry?
    ensures TypeString(t)[0] == 'a' <==> t.TArray?
    ensures TypeString(t)[0] == 'm' <==> t.TMaybe?
  {
  }

  lemma {:induction false} TypePasses(t: Type)
    ensures Passes(TypeString(t), Nesting(t))
    decreases t, 1
  {
    match t
    case TArray(e) =>
      PlainPasses('a');
      TypePasses(e);
      FirstLetter(e);
      BothPass("a", 0, TypeString(e), Nesting(e));
    case TMaybe(e) =>
      PlainPasses('m');
      TypePasses(e);
      FirstLetter(e);
      BothPass("m", 0, TypeString(e), Nesting(e));
    case TTuple(ts) =>
      TypesPass(ts);
      BracketedPasses('(', TypeStrings(ts), ')', NestingOfAll(ts));
    case TEntry(v) =>
      TypePasses(v);
      EntryPasses(v);
    case _ => PlainPasses(TypeString(t)[0]);
  }

  lemma EntryPasses(v: Type)
    requires Passes(TypeString(v), Nesting(v))
    ensures Passes("s" + TypeString(v), Nesting(v))
    ensures Passes(TypeString(TEntry(v)), Nesting(TEntry(v)))
  {
    PlainPasses('s');
    FirstLetter(v);
    BothPass("s", 0, TypeString(v), Nesting(v));
    BracketedPasses('{', "s" + TypeString(v), '}', Nesting(v));
  }

  lemma {:induction false} TypesPass(ts: seq<Type>)
    ensures TypeStrings(ts) == [] || (Passes(TypeStrings(ts), NestingOfAll(ts)) && !Closes(TypeStrings(ts)[0]))
    decreases ts, 0
  {
    if ts != [] {
      var first, others := TypeString(ts[0]), TypeStrings(ts[1..]);
      TypePasses(ts[0]);
      FirstLetter(ts[0]);
      TypesPass(ts[1..]);
      if others == [] {
        assert first + others == first;
      } else {
        BothPass(first, Nesting(ts[0]), others, NestingOfAll(ts[1..]));
      }
    }
  }

  /** For every type whose brackets nest at most 256 deep, the scan takes exactly its type
      string and leaves whatever follows. */
  lemma {:induction false} NextTypeIsFirst(t: Type, rest: string)
    requires Nesting(t) <= MAX_STACK
    ensures NextType(TypeString(t) + rest) == Some(rest)
  {
    FirstLetter(t);
    var whole := TypeString(t) + rest;
    match t
    case TArray(e) =>
      assert whole[1..] == TypeString(e) + rest;
      NextTypeIsFirst(e, rest);
    case TMaybe(e) =>
      assert whole[1..] == TypeString(e) + rest;
      NextTypeIsFirst(e, rest);
    case TTuple(ts) =>
      TypesPass(ts);
      NextBracketed('(', TypeStrings(ts), ')', NestingOfAll(ts), rest);
    case TEntry(v) =>
      TypePasses(v);
      EntryPasses(v);
      NextBracketed('{', "s" + TypeString(v), '}', Nesting(v), rest);
    case _ =>
      assert whole[1..] == rest;
  }

  lemma NextBracketed(opening: char, inside: string, closing: char, depth: nat, rest: string)
    requires inside == [] || (Passes(inside, depth) && !Closes(inside[0]))
    requires (opening == '(' && closing == ')') || (opening == '{' && closing == '}')
    requires 1 + depth <= MAX_STACK
    ensures NextType([opening] + inside + [closing] + rest) == Some(rest)
  {
    var after := inside + ([closing] + rest);
    assert [opening] + inside + [closing] + rest == [opening] + after;
    assert ([opening] + after)[1..] == after;
    InsideScans(inside, depth, closing, rest, []);
    assert Push(opening, []) == [] + [closing];
    assert ([closing] + rest)[1..] == rest;
  }

  /** The type strings are prefix-free: no type string starts another. */
  lemma TypeStringsArePrefixFree(t: Type, u: Type, rest: string)
    requires Nesting(t) <= MAX_STACK && Nesting(u) <= MAX_STACK
    requires TypeString(t) + rest == TypeString(u)
    ensures rest == [] && TypeString(t) == TypeString(u)
  {
    NextTypeIsFirst(t, rest);
    NextTypeIsFirst(u, []);
    assert TypeString(u) + [] == TypeString(u);
    assert TypeString(t) + [] == TypeString(t);
  }

  // ----- the scan in place -----

  /** `const gchar **signature`: a string and a position in it; past the end it reads NUL. */
  class Cursor {
    const text: string
    var pos: nat

    constructor (signature: string)
      ensures text == signature && pos == 0
    {
      text := signature;
      pos := 0;
    }

    function Rest(): string
      requires pos <= |text|
      reads this
    {
      text[pos..]
    }

    function Current(): char
      reads this
    {
      if pos < |text| then text[pos] else '\0'
    }

    /** signature_get_next_complete_type */
    method NextCompleteType() returns (s: string)
      requires pos <= |text| && NextType(Rest()).Some?
      modifies this
      ensures old(pos) < pos <= |text|
      ensures NextType(old(Rest())) == Some(Rest())
      ensures s == text[old(pos)..pos]
      decreases |text| - pos
    {
      var initial := pos;
      var class_ := Current();
      if Opens(class_) {
        SkipBrackets();
      } else if class_ == 'a' || class_ == 'm' {
        pos := pos + 1;
        assert text[initial..][1..] == text[pos..];
        var inner := NextCompleteType();
      } else {
        pos := pos + 1;
        assert text[initial..][1..] == text[pos..];
      }
      s := text[initial..pos];
    }

    method PushBracket(stack: array<char>, length: nat) returns (more: nat)
      requires pos < |text| && length <= stack.Length && |Push(text[pos], stack[..length])| <= stack.Length
      modifies stack
      ensures more <= stack.Length && stack[..more] == Push(text[pos], old(stack[..length]))
    {
      more := length;
      if Current() == '(' {
        stack[length] := ')';
        more := length + 1;
      } else if Current() == '{' {
        stack[length] := '}';
        more := length + 1;
      }
    }

    /** One turn of the loop with the explicit stack. */
    method Turn(stack: array<char>, length: nat, ghost whole: Option<string>) returns (left: nat)
      requires length <= stack.Length == MAX_STACK && Turning(text, pos, stack[..length], whole)
      modifies this, stack
      ensures pos == old(pos) + 1 <= |text| && left <= stack.Length && Brackets(stack[..left])
      ensures Closed(whole, Scan(Rest(), stack[..left]))
    {
      left := PushBracket(stack, length);
      ghost var pushed := stack[..left];
      pos := pos + 1;
      if Current() == stack[left - 1] {
        left := left - 1;
      }
      Settled(text, pos, pushed, stack[..left]);
    }

    /** The loop with the stack of 256 brackets. */
    method SkipBrackets()
      requires pos < |text| && Opens(text[pos]) && NextType(Rest()).Some?
      modifies this
      ensures old(pos) < pos <= |text|
      ensures NextType(old(Rest())) == Some(Rest())
    {
      var stack := new char[MAX_STACK];
      ghost var whole := NextType(Rest());
      FirstTurn(text, pos, stack[..0]);
      var length: nat := Turn(stack, 0, whole);
      while length > 0
        invariant old(pos) < pos <= |text| && length <= stack.Length && Brackets(stack[..length])
        invariant Closed(whole, Scan(Rest(), stack[..length]))
        decreases |text| - pos
      {
        LaterTurn(text, pos, stack[..length], whole);
        length := Turn(stack, length, whole);
      }
      LastTurn(text, pos, stack[..length], whole);
      pos := pos + 1;
    }
  }

  /** A turn can be taken: the bracket at the cursor fits on the stack, and the scan goes on
      from behind it to the end of the whole. */
  ghost predicate Turning(text: string, pos: nat, stack: seq<char>, whole: Option<string>) {
    && pos < |text| && Brackets(stack) && |Push(text[pos], stack)| <= MAX_STACK
    && Push(text[pos], stack) != [] && Brackets(Push(text[pos], stack))
    && Closed(whole, Scan(text[pos + 1..], Settle(text[pos + 1..], Push(text[pos], stack))))
  }

  /** Comparing the current character with the top of the stack. */
  lemma Settled(text: string, pos: nat, pushed: seq<char>, left: seq<char>)
    requires pos <= |text| && pushed != [] && Brackets(pushed)
    requires left == if pos < |text| && text[pos] == pushed[|pushed| - 1] then pushed[..|pushed| - 1] else pushed
    ensures left == Settle(text[pos..], pushed) && Brackets(left)
  {
  }

  lemma FirstTurn(text: string, pos: nat, stack: seq<char>)
    requires pos < |text| && Opens(text[pos]) && NextType(text[pos..]).Some? && stack == []
    ensures Turning(text, pos, stack, NextType(text[pos..]))
  {
    assert text[pos..][1..] == text[pos + 1..];
  }

  lemma LaterTurn(text: string, pos: nat, stack: seq<char>, whole: Option<string>)
    requires pos <= |text| && stack != [] && Brackets(stack) && Closed(whole, Scan(text[pos..], stack))
    ensures Turning(text, pos, stack, whole)
  {
    assert text[pos..] != [] ==> text[pos..][1..] == text[pos + 1..];
  }

  lemma LastTurn(text: string, pos: nat, stack: seq<char>, whole: Option<string>)
    requires pos <= |text| && stack == [] && Closed(whole, Scan(text[pos..], stack))
    ensures pos < |text| && whole == Some(text[pos + 1..])
  {
    assert text[pos..] != [] ==> text[pos..][1..] == text[pos + 1..];
  }

  /** What is left after the closing bracket the scan stops at. */
  ghost predicate Closed(whole: Option<string>, scanned: Option<string>) {
    scanned.Some? && scanned.value != [] && whole == Some(scanned.value[1..])
  }
}
