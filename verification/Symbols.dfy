/** Symbols reported by a language server, as lsp-symbol.c stores them. */
module Symbols {
  import opened Wrappers

  const SCOPE_SEPARATOR := "->"

  datatype Symbol = Symbol(
    name: string,
    detail: Option<string>,
    scope: Option<string>,
    file: Option<string>,
    fileType: int,
    line: nat,
    pos: nat,
    kind: int,
    icon: int)

  /** The fields two symbols must share to be entries of the same hash bucket. */
  datatype Key = Key(kind: int, name: string, scope: Option<string>, detail: Option<string>)

  function KeyOf(s: Symbol): Key {
    Key(s.kind, s.name, s.scope, s.detail)
  }

  /** A missing string and the empty string both count as empty. */
  predicate Empty(s: Option<string>) {
    s.None? || s.value == ""
  }

  /** The name of the row a symbol wants to hang under, if it wants one. */
  function ParentName(s: Symbol): Option<string> {
    if Empty(s.scope) then None else s.scope
  }

  function NameWithScope(s: Symbol): string {
    if Empty(s.scope) then s.name else s.scope.value + SCOPE_SEPARATOR + s.name
  }

  /** A symbol without its icon: exactly what symbol equality looks at. */
  function Core(s: Symbol): Symbol {
    s.(icon := 0)
  }

  predicate Equal(a: Symbol, b: Symbol) {
    && a.line == b.line && a.pos == b.pos
    && a.kind == b.kind && a.fileType == b.fileType
    && a.name == b.name && a.file == b.file
    && a.scope == b.scope && a.detail == b.detail
  }

  /** Symbol equality is equality of everything but the icon, and the bucket key
      already fixes the full name, so updating a row never moves it to another parent. */
  lemma EqualMeansSameCore(a: Symbol, b: Symbol)
    ensures Equal(a, b) <==> Core(a) == Core(b)
    ensures KeyOf(a) == KeyOf(b) ==> NameWithScope(a) == NameWithScope(b) && a.scope == b.scope
  {
    if Equal(a, b) {
      assert a.(icon := 0) == b.(icon := 0);
    }
    if Core(a) == Core(b) {
      assert a == Core(a).(icon := a.icon) && b == Core(a).(icon := b.icon);
    }
  }
}
