/** Reconciliation of the symbol tree with a new list of symbols (update_symbols of
    lsp-symbol-tree.c): a first pass keeps, updates or removes the rows, a second pass adds
    the symbols that no row took. */
module SymbolTree {
  import opened Wrappers
  import opened Symbols
  import opened LineTree
  import opened SymbolTables
  import opened RowStore
  import opened Survival

  // ----- the invariants of the forest -----

  /** Every row with a symbol below a row with a symbol has that row's full name as scope. */
  ghost predicate ScopesMatch(rows: Rows) {
    forall k {:trigger ScopeMatches(rows, k)} :: 0 <= k < |rows| ==> ScopeMatches(rows, k)
  }

  ghost predicate ScopeMatches(rows: Rows, k: nat)
    requires k < |rows|
  {
    var p := ParentRow(rows, k);
    rows[k].sym.Some? && p.Some? && p.value.sym.Some? ==>
      rows[k].sym.value.scope == Some(NameWithScope(p.value.sym.value))
  }

  ghost function ParentId(rows: Rows, k: nat): Option<nat>
    requires k < |rows|
  {
    match ParentRow(rows, k) case None => None case Some(p) => Some(p.id)
  }

  /** Row `k` is the old row `o`: same identity, same depth, same parent, and a symbol that
      is the same entry (kind, name, scope, detail) as the old one. */
  ghost predicate Continues(rows: Rows, k: nat, before: Rows, o: nat)
    requires k < |rows| && o < |before|
  {
    && rows[k].id == before[o].id && rows[k].depth == before[o].depth
    && ParentId(rows, k) == ParentId(before, o)
    && SameEntry(rows[k].sym, before[o].sym)
  }

  /** Every row below `bound` in `rows` continues a row of `before`. */
  ghost predicate Inherits(rows: Rows, before: Rows, bound: nat) {
    forall k {:trigger Continued(rows, k, before)} :: 0 <= k < |rows| && rows[k].id < bound ==> Continued(rows, k, before)
  }

  ghost predicate Continued(rows: Rows, k: nat, before: Rows)
    requires k < |rows|
  {
    exists o :: 0 <= o < |before| && Continues(rows, k, before, o)
  }

  lemma {:induction false} InheritsTransitive(a: Rows, b: Rows, c: Rows, bound: nat)
    requires Inherits(a, b, bound) && Inherits(b, c, bound)
    ensures Inherits(a, c, bound)
  {
    forall k | 0 <= k < |a| && a[k].id < bound
      ensures Continued(a, k, c)
    {
      assert Continued(a, k, b);
      var m :| 0 <= m < |b| && Continues(a, k, b, m);
      assert Continued(b, m, c);
      var o :| 0 <= o < |c| && Continues(b, m, c, o);
      assert Continues(a, k, c, o);
    }
  }

  lemma InheritsItself(rows: Rows, bound: nat)
    ensures Inherits(rows, rows, bound)
  {
    forall k | 0 <= k < |rows| && rows[k].id < bound
      ensures Continued(rows, k, rows)
    {
      assert Continues(rows, k, rows, k);
    }
  }

  lemma {:induction false} RemovalInherits(rows: Rows, i: nat, bound: nat)
    requires i < |rows|
    ensures Inherits(Without(rows, i), rows, bound)
    ensures ScopesMatch(rows) ==> ScopesMatch(Without(rows, i))
  {
    var w := Without(rows, i);
    forall k | 0 <= k < |w|
      ensures w[k].id < bound ==> Continued(w, k, rows)
      ensures ScopesMatch(rows) ==> ScopeMatches(w, k)
    {
      ParentAfterRemoval(rows, i, k);
      var o := if k < i then k else k - i + End(rows, i);
      assert Continues(w, k, rows, o);
      assert ScopeMatches(rows, o) ==> ScopeMatches(w, k);
    }
  }

  lemma {:induction false} UpdateInherits(rows: Rows, i: nat, sym: Symbol, bound: nat)
    requires i < |rows| && SameEntry(rows[i].sym, Some(sym))
    ensures
      var w := rows[i := rows[i].(sym := Some(sym))];
      Inherits(w, rows, bound) && (ScopesMatch(rows) ==> ScopesMatch(w))
  {
    var w := rows[i := rows[i].(sym := Some(sym))];
    EqualMeansSameCore(rows[i].sym.value, sym);
    forall k | 0 <= k < |w|
      ensures w[k].id < bound ==> Continued(w, k, rows)
      ensures ScopesMatch(rows) ==> ScopeMatches(w, k)
    {
      SameParent(rows, w, k);
      assert Continues(w, k, rows, k);
      assert ScopeMatches(rows, k) ==> ScopeMatches(w, k);
    }
  }

  /** Parents depend on the depths only. */
  lemma SameParent(a: Rows, b: Rows, k: nat)
    requires |a| == |b| && k < |a|
    requires forall m :: 0 <= m < |a| ==> a[m].depth == b[m].depth
    ensures Parent(a, k) == Parent(b, k)
  {
    var p := Parent(a, k);
    if p.Some? { ParentIsUnique(b, k, p.value); }
  }

  /** A row other than the new one still is the row it was, under the same parent. */
  lemma OtherRowContinues(rows: Rows, parent: Option<nat>, id: nat, sym: Symbol, w: Rows, k: nat, o: nat)
    requires Forest(rows) && (parent.Some? ==> parent.value < |rows|) && w == WithFirstChild(rows, parent, id, Some(sym))
    requires o < |rows| && k == if o < InsertionPoint(parent) then o else o + 1
    ensures k < |w| && Continues(w, k, rows, o) && (ScopeMatches(rows, o) ==> ScopeMatches(w, k))
  {
    ParentAfterInsertion(rows, parent, id, Some(sym), o);
  }

  lemma NewRowMatches(rows: Rows, parent: Option<nat>, id: nat, sym: Symbol, w: Rows, at: nat)
    requires Forest(rows) && (parent.Some? ==> parent.value < |rows|) && w == WithFirstChild(rows, parent, id, Some(sym))
    requires at == InsertionPoint(parent)
    requires parent.Some? ==> rows[parent.value].sym.Some? && sym.scope == Some(NameWithScope(rows[parent.value].sym.value))
    ensures at < |w| && w[at].id == id && ScopeMatches(w, at)
  {
    WithFirstChildIsSpliced(rows, parent, id, Some(sym));
    ParentOfInserted(rows, parent, id, Some(sym));
  }

  lemma InsertionInherits(rows: Rows, parent: Option<nat>, id: nat, sym: Symbol, bound: nat)
    requires Forest(rows) && (parent.Some? ==> parent.value < |rows|)
    requires bound <= id
    requires parent.Some? ==> rows[parent.value].sym.Some? && sym.scope == Some(NameWithScope(rows[parent.value].sym.value))
    ensures Inherits(WithFirstChild(rows, parent, id, Some(sym)), rows, bound)
    ensures ScopesMatch(rows) ==> ScopesMatch(WithFirstChild(rows, parent, id, Some(sym)))
  {
    var w := WithFirstChild(rows, parent, id, Some(sym));
    var at := InsertionPoint(parent);
    NewRowMatches(rows, parent, id, sym, w, at);
    forall k | 0 <= k < |w|
      ensures w[k].id < bound ==> Continued(w, k, rows)
      ensures ScopesMatch(rows) ==> ScopeMatches(w, k)
    {
      if k != at { OtherRowContinues(rows, parent, id, sym, w, k, if k < at then k else k - 1); }
    }
  }

  // ----- the parents table -----

  /** Full name to line to the handle of a row with that name and line. A name some symbol
      has as its scope is known from the start, with no tree until a row turns up. */
  type Parents = map<string, Option<Tree<nat>>>

  /** The row with this handle is live and carries this full name and line. */
  ghost predicate Denotes(rows: Rows, id: nat, name: string, line: int) {
    exists i :: 0 <= i < |rows| && rows[i].id == id && rows[i].sym.Some? &&
      NameWithScope(rows[i].sym.value) == name && rows[i].sym.value.line == line
  }

  ghost predicate ValidParentTree(rows: Rows, name: string, t: Tree<nat>) {
    && t != Leaf && Bst(t)
    && forall line :: line in Keys(t) ==> Get(t, line).Some? && Denotes(rows, Get(t, line).value, name, line)
  }

  /** Every saved handle denotes a live row whose full name is the key it is saved under. */
  ghost predicate HandlesLive(rows: Rows, parents: Parents) {
    forall name :: name in parents && parents[name].Some? ==> ValidParentTree(rows, name, parents[name].value)
  }

  /** Every row whose full name is wanted as a parent has its line in the table. */
  ghost predicate Covers(rows: Rows, parents: Parents) {
    forall k :: 0 <= k < |rows| && rows[k].sym.Some? && NameWithScope(rows[k].sym.value) in parents ==>
      HasLine(parents, NameWithScope(rows[k].sym.value), rows[k].sym.value.line)
  }

  ghost predicate HasLine(parents: Parents, name: string, line: int) {
    name in parents && parents[name].Some? && line in Keys(parents[name].value)
  }

  method UpdateParents(parents: Parents, sym: Symbol, id: nat, ghost rows: Rows) returns (parents': Parents)
    requires HandlesLive(rows, parents)
    requires Denotes(rows, id, NameWithScope(sym), sym.line)
    ensures HandlesLive(rows, parents')
    ensures parents'.Keys == parents.Keys
    ensures forall name, line :: HasLine(parents, name, line) ==> HasLine(parents', name, line)
    ensures NameWithScope(sym) in parents ==> HasLine(parents', NameWithScope(sym), sym.line)
  {
    var name := NameWithScope(sym);
    if name !in parents {
      return parents;
    }
    var tree := if parents[name].Some? then parents[name].value else Leaf;
    var tree' := LineTree.Insert(tree, sym.line, id);
    assert ValidParentTree(rows, name, tree') by {
      forall line | line in Keys(tree')
        ensures Get(tree', line).Some? && Denotes(rows, Get(tree', line).value, name, line)
      {
        if line != sym.line { assert line in Keys(tree); }
      }
    }
    parents' := parents[name := Some(tree')];
  }

  method LookupParent(parents: Parents, name: string, line: nat, ghost rows: Rows) returns (id: Option<nat>)
    requires HandlesLive(rows, parents)
    ensures id.None? <==> name !in parents || parents[name].None?
    ensures id.Some? ==> exists l :: FoundAt(parents, name, line, id.value, l, rows)
  {
    if name !in parents || parents[name].None? {
      return None;
    }
    var tree := parents[name].value;
    var found := Search(tree, line, true);
    id := Get(tree, found);
    assert FoundAt(parents, name, line, id.value, found, rows);
  }

  /** The handle is filed under a line the search for `line` can return, and denotes a row
      with that line. */
  ghost predicate FoundAt(parents: Parents, name: string, line: int, id: nat, l: int, rows: Rows) {
    && name in parents && parents[name].Some? && parents[name].value.Node?
    && LowerResult(parents[name].value, line, l) && Get(parents[name].value, l) == Some(id)
    && Denotes(rows, id, name, l)
  }

  /** The index of a live row, from its handle. */
  method FindRow(rows: Rows, id: nat) returns (i: nat)
    requires Live(rows, id)
    ensures i < |rows| && rows[i].id == id
  {
    i := 0;
    while rows[i].id != id
      invariant 0 <= i < |rows|
      invariant forall k :: 0 <= k < i ==> rows[k].id != id
      decreases |rows| - i
    {
      i := i + 1;
    }
  }

  // ----- the first pass -----

  ghost predicate DistinctLinks(items: seq<Item>) {
    forall i, j :: 0 <= i < j < |items| ==> items[i].link != items[j].link
  }

  /** What the line-aware lookup can tell two symbols apart by. */
  function Mark(s: Symbol): (Key, int) {
    (KeyOf(s), s.line)
  }

  /** Same rows under the same parents; only the symbols may differ. */
  ghost predicate SameShape(a: Rows, b: Rows) {
    |a| == |b| && forall k :: 0 <= k < |a| ==> a[k].id == b[k].id && a[k].depth == b[k].depth
  }

  /** The rows from `i` on are the last rows of `start`. */
  ghost predicate Untouched(start: Rows, rows: Rows, i: nat) {
    i <= |rows| <= |start| && rows[i..] == start[|start| - (|rows| - i)..]
  }

  /** One row fewer is untouched once row `i` is replaced or passed over. */
  lemma UntouchedNext(start: Rows, rows: Rows, w: Rows, i: nat)
    requires Untouched(start, rows, i) && i < |rows|
    requires |w| == |rows| && w[i + 1..] == rows[i + 1..]
    ensures Untouched(start, w, i + 1)
  {
    assert w[i + 1..] == rows[i..][1..];
    assert start[|start| - (|rows| - i)..][1..] == start[|start| - (|w| - (i + 1))..];
  }

  /** Halfway through the first pass over `start`: rows before `i` are done, the rest are
      untouched, and the done rows and the links still listed hold all of `list` between them. */
  ghost predicate Halfway(start: Rows, list: seq<Item>, bound: nat, rows: Rows, i: nat, items: seq<Item>) {
    && Untouched(start, rows, i)
    && RowBag(Core, rows[..i]) + ItemBag(Core, items) == ItemBag(Core, list)
    && DistinctLinks(items)
    && Inherits(rows, start, bound)
    && (ScopesMatch(start) ==> ScopesMatch(rows))
    && Steady(start, list, rows, i, items)
    && Sieving(start, list, rows, i, items)
  }

  /** The rows before `i` are those of the old ones dealt with so far that stay, and they and
      the links still listed hold all listed entries between them. */
  ghost predicate Sieving(start: Rows, list: seq<Item>, rows: Rows, i: nat, items: seq<Item>) {
    && i <= |rows| <= |start| && DistinctIds(start)
    && RowBag(KeyOf, rows[..i]) + ItemBag(KeyOf, items) == ItemBag(KeyOf, list)
    && Sieved(start, ItemBag(KeyOf, list), |start| - (|rows| - i), rows[..i])
  }

  /** The row at `i` is an old one that nothing has changed. */
  lemma UntouchedHere(start: Rows, rows: Rows, i: nat, n: nat)
    requires Untouched(start, rows, i) && i < |rows| && n == |start| - (|rows| - i)
    ensures n < |start| && rows[i] == start[n] && End(rows, i) - i == End(start, n) - n
  {
    var e := End(rows, i);
    assert forall k :: i <= k < |rows| ==> rows[k] == rows[i..][k - i] == start[n..][k - i] == start[n + (k - i)];
    assert forall k :: n < k < n + (e - i) ==> start[k] == rows[i + (k - n)];
    EndIsUnique(start, n, n + (e - i));
  }

  lemma SieveMovesOn(start: Rows, list: seq<Item>, rows: Rows, i: nat, items: seq<Item>, w: Rows, rest: seq<Item>, r: Row)
    requires Untouched(start, rows, i) && i < |rows| && Sieving(start, list, rows, i, items)
    requires r.id == rows[i].id && SameEntry(r.sym, rows[i].sym)
    requires rows[i].sym.Some? ==> exists it :: it in items && KeyOf(it.sym) == KeyOf(rows[i].sym.value)
    requires |w| == |rows| && w[..i + 1] == rows[..i] + [r]
    requires RowBag(KeyOf, w[..i + 1]) + ItemBag(KeyOf, rest) == ItemBag(KeyOf, list)
    ensures Sieving(start, list, w, i + 1, rest)
  {
    var keys, n := ItemBag(KeyOf, list), |start| - (|rows| - i);
    UntouchedHere(start, rows, i, n);
    NextSurvivesIff(start, keys, n, rows[..i], items);
    SieveKeeps(start, keys, n, n + 1, rows[..i], r);
  }

  lemma NextIsDropped(start: Rows, list: seq<Item>, rows: Rows, i: nat, items: seq<Item>, n: nat)
    requires Untouched(start, rows, i) && i < |rows| && Sieving(start, list, rows, i, items) && n == |start| - (|rows| - i)
    requires rows[i].sym.Some? && IsUnlisted(items, rows[i].sym.value)
    ensures n < |start| && !Survives(start, ItemBag(KeyOf, list), n)
  {
    UntouchedHere(start, rows, i, n);
    NextSurvivesIff(start, ItemBag(KeyOf, list), n, rows[..i], items);
  }

  lemma SieveDrops(start: Rows, list: seq<Item>, rows: Rows, i: nat, items: seq<Item>, w: Rows)
    requires Untouched(start, rows, i) && i < |rows| && Sieving(start, list, rows, i, items)
    requires rows[i].sym.Some? && IsUnlisted(items, rows[i].sym.value)
    requires w == Without(rows, i) && w[..i] == rows[..i]
    ensures Sieving(start, list, w, i, items)
  {
    var n := |start| - (|rows| - i);
    NextIsDropped(start, list, rows, i, items, n);
    UntouchedHere(start, rows, i, n);
    SieveRemoves(start, ItemBag(KeyOf, list), n, rows[..i]);
  }

  /** When the old rows carry the listed marks to start with, no row goes and the untouched
      rows carry the marks still listed. */
  ghost predicate Steady(start: Rows, list: seq<Item>, rows: Rows, i: nat, items: seq<Item>)
    requires i <= |rows|
  {
    RowBag(Mark, start) == ItemBag(Mark, list) ==>
      SameShape(rows, start) && RowBag(Mark, rows[i..]) == ItemBag(Mark, items)
  }

  lemma HandlesLiveIn(a: Rows, b: Rows, parents: Parents)
    requires HandlesLive(a, parents)
    requires forall r :: r in a ==> r in b
    ensures HandlesLive(b, parents)
  {
    forall name | name in parents && parents[name].Some?
      ensures ValidParentTree(b, name, parents[name].value)
    {
      var t := parents[name].value;
      forall line | line in Keys(t) ensures Denotes(b, Get(t, line).value, name, line) {
        var i :| 0 <= i < |a| && a[i].id == Get(t, line).value && a[i].sym.Some? &&
          NameWithScope(a[i].sym.value) == name && a[i].sym.value.line == line;
        assert a[i] in b;
      }
    }
  }

  function Unlink(items: seq<Item>, j: nat): seq<Item>
    requires j < |items|
  {
    items[..j] + items[j + 1..]
  }

  lemma UnlinkBag<T>(f: Symbol -> T, items: seq<Item>, j: nat)
    requires j < |items|
    ensures ItemBag(f, items) == ItemBag(f, Unlink(items, j)) + multiset{f(items[j].sym)}
  {
    assert items == items[..j] + items[j..];
    ItemBagAppend(f, items[..j], items[j..]);
    ItemBagAppend(f, items[..j], items[j + 1..]);
    assert items[j..][1..] == items[j + 1..];
  }

  lemma UnlinkMembers(items: seq<Item>, j: nat)
    requires j < |items| && DistinctLinks(items)
    ensures DistinctLinks(Unlink(items, j))
    ensures forall it :: it in Unlink(items, j) <==> it in items && it != items[j]
  {
    var u := Unlink(items, j);
    assert forall k :: 0 <= k < |u| ==> u[k] == items[if k < j then k else k + 1];
    forall it | it in items && it != items[j] ensures it in u {
      var k :| 0 <= k < |items| && items[k] == it;
      assert u[if k < j then k else k - 1] == it;
    }
  }

  /** A row without a symbol counts for nothing. */
  lemma BlankCounts<T>(f: Symbol -> T, rows: Rows, i: nat)
    requires i < |rows| && rows[i].sym.None?
    ensures RowBag(f, rows[..i + 1]) == RowBag(f, rows[..i])
    ensures RowBag(f, rows[i..]) == RowBag(f, rows[i + 1..])
  {
    assert rows[..i + 1] == rows[..i] + [rows[i]];
    assert [rows[i]][1..] == [];
    RowBagAppend(f, rows[..i], [rows[i]]);
    assert rows[i..][1..] == rows[i + 1..];
  }

  lemma BlankSieve(start: Rows, list: seq<Item>, rows: Rows, i: nat, items: seq<Item>)
    requires Untouched(start, rows, i) && i < |rows| && Sieving(start, list, rows, i, items) && rows[i].sym.None?
    ensures Sieving(start, list, rows, i + 1, items)
  {
    BlankCounts(KeyOf, rows, i);
    assert rows[..i + 1] == rows[..i] + [rows[i]];
    SieveMovesOn(start, list, rows, i, items, rows, items, rows[i]);
  }

  lemma SkipStep(start: Rows, list: seq<Item>, bound: nat, rows: Rows, i: nat, items: seq<Item>)
    requires Halfway(start, list, bound, rows, i, items) && i < |rows| && rows[i].sym.None?
    ensures Halfway(start, list, bound, rows, i + 1, items)
  {
    BlankCounts(Core, rows, i);
    BlankCounts(Mark, rows, i);
    UntouchedNext(start, rows, rows, i);
    BlankSieve(start, list, rows, i, items);
  }

  lemma RemovalUntouched(start: Rows, rows: Rows, i: nat, w: Rows)
    requires Untouched(start, rows, i) && i < |rows| && w == Without(rows, i)
    ensures Untouched(start, w, i) && w[..i] == rows[..i]
  {
    var e := End(rows, i);
    assert w[i..] == rows[i..][e - i..] == start[|start| - (|rows| - i)..][e - i..] == start[|start| - (|w| - i)..];
  }

  /** The row's mark would be listed, so its key would have been found. */
  lemma UnlistedIsUnsteady(start: Rows, list: seq<Item>, rows: Rows, i: nat, items: seq<Item>)
    requires i < |rows| && Steady(start, list, rows, i, items) && rows[i].sym.Some?
    requires IsUnlisted(items, rows[i].sym.value)
    ensures RowBag(Mark, start) != ItemBag(Mark, list)
  {
    if RowBag(Mark, rows[i..]) == ItemBag(Mark, items) {
      assert Mark(rows[i].sym.value) in RowBag(Mark, rows[i..]);
      ItemBagHas(Mark, items, Mark(rows[i].sym.value));
    }
  }

  lemma RemoveStep(start: Rows, list: seq<Item>, bound: nat, rows: Rows, i: nat, items: seq<Item>)
    requires Halfway(start, list, bound, rows, i, items) && i < |rows| && rows[i].sym.Some?
    requires IsUnlisted(items, rows[i].sym.value)
    ensures Halfway(start, list, bound, Without(rows, i), i, items)
  {
    var w := Without(rows, i);
    RemovalUntouched(start, rows, i, w);
    RemovalInherits(rows, i, bound);
    InheritsTransitive(w, rows, start, bound);
    SieveDrops(start, list, rows, i, items, w);
    UnlistedIsUnsteady(start, list, rows, i, items);
  }

  /** The rows after row `i` took over `sym`. */
  function Updated(rows: Rows, i: nat, sym: Symbol): Rows
    requires i < |rows|
  {
    rows[i := rows[i].(sym := Some(sym))]
  }

  lemma UpdatedSlices(rows: Rows, i: nat, sym: Symbol)
    requires i < |rows|
    ensures Updated(rows, i, sym)[..i + 1] == rows[..i] + [rows[i].(sym := Some(sym))]
    ensures Updated(rows, i, sym)[i + 1..] == rows[i + 1..] == rows[i..][1..]
  {
  }

  lemma CancelOne<T>(a: multiset<T>, b: multiset<T>, x: T)
    requires multiset{x} + a == b + multiset{x}
    ensures a == b
  {
    assert a == (multiset{x} + a) - multiset{x};
    assert b == (b + multiset{x}) - multiset{x};
  }

  /** A link with the row's own line is listed if the marks agree, so the nearest one has that line too. */
  lemma NearestHasTheMark(rows: Rows, i: nat, items: seq<Item>, j: nat)
    requires i < |rows| && rows[i].sym.Some? && j < |items|
    requires IsNearest(items, rows[i].sym.value, items[j])
    requires RowBag(Mark, rows[i..]) == ItemBag(Mark, items)
    ensures Mark(items[j].sym) == Mark(rows[i].sym.value)
  {
    var m := Mark(rows[i].sym.value);
    assert m in RowBag(Mark, rows[i..]);
    ItemBagHas(Mark, items, m);
    var it :| it in items && Mark(it.sym) == m;
    assert Abs(rows[i].sym.value.line - it.sym.line) == 0;
  }

  lemma FirstRowCounts(rows: Rows, i: nat)
    requires i < |rows| && rows[i].sym.Some?
    ensures RowBag(Mark, rows[i..]) == multiset{Mark(rows[i].sym.value)} + RowBag(Mark, rows[i + 1..])
  {
    assert rows[i..][1..] == rows[i + 1..];
  }

  lemma KeepKeepsMarks(rows: Rows, i: nat, items: seq<Item>, j: nat)
    requires i < |rows| && rows[i].sym.Some? && j < |items|
    requires IsNearest(items, rows[i].sym.value, items[j])
    requires RowBag(Mark, rows[i..]) == ItemBag(Mark, items)
    ensures RowBag(Mark, rows[i + 1..]) == ItemBag(Mark, Unlink(items, j))
  {
    NearestHasTheMark(rows, i, items, j);
    FirstRowCounts(rows, i);
    UnlinkBag(Mark, items, j);
    CancelOne(RowBag(Mark, rows[i + 1..]), ItemBag(Mark, Unlink(items, j)), Mark(items[j].sym));
  }

  lemma KeepKeepsBag<T>(f: Symbol -> T, rows: Rows, i: nat, items: seq<Item>, j: nat, sym: Symbol)
    requires i < |rows| && j < |items| && f(sym) == f(items[j].sym)
    ensures RowBag(f, Updated(rows, i, sym)[..i + 1]) + ItemBag(f, Unlink(items, j))
         == RowBag(f, rows[..i]) + ItemBag(f, items)
  {
    var row := [rows[i].(sym := Some(sym))];
    UpdatedSlices(rows, i, sym);
    RowBagAppend(f, rows[..i], row);
    assert row[1..] == [];
    UnlinkBag(f, items, j);
  }

  lemma {:induction false} KeepInherits(start: Rows, bound: nat, rows: Rows, i: nat, sym: Symbol)
    requires i < |rows| && SameEntry(rows[i].sym, Some(sym))
    requires Inherits(rows, start, bound) && (ScopesMatch(start) ==> ScopesMatch(rows))
    ensures Inherits(Updated(rows, i, sym), start, bound)
    ensures ScopesMatch(start) ==> ScopesMatch(Updated(rows, i, sym))
  {
    UpdateInherits(rows, i, sym, bound);
    InheritsTransitive(Updated(rows, i, sym), rows, start, bound);
  }

  lemma {:induction false} KeepSteady(start: Rows, list: seq<Item>, rows: Rows, i: nat, items: seq<Item>, j: nat, sym: Symbol)
    requires i < |rows| && rows[i].sym.Some? && j < |items|
    requires Steady(start, list, rows, i, items)
    requires IsNearest(items, rows[i].sym.value, items[j])
    ensures Steady(start, list, Updated(rows, i, sym), i + 1, Unlink(items, j))
  {
    if RowBag(Mark, start) == ItemBag(Mark, list) {
      UpdatedSlices(rows, i, sym);
      KeepKeepsMarks(rows, i, items, j);
    }
  }

  lemma {:induction false} KeepStep(start: Rows, list: seq<Item>, bound: nat, rows: Rows, i: nat, items: seq<Item>, j: nat, sym: Symbol)
    requires Halfway(start, list, bound, rows, i, items) && i < |rows| && rows[i].sym.Some? && j < |items|
    requires IsNearest(items, rows[i].sym.value, items[j])
    requires KeyOf(sym) == KeyOf(items[j].sym) && Core(sym) == Core(items[j].sym)
    ensures Halfway(start, list, bound, Updated(rows, i, sym), i + 1, Unlink(items, j))
  {
    var w := Updated(rows, i, sym);
    UpdatedSlices(rows, i, sym);
    UntouchedNext(start, rows, w, i);
    KeepKeepsBag(Core, rows, i, items, j, sym);
    KeepKeepsBag(KeyOf, rows, i, items, j, sym);
    assert items[j] in items;
    SieveMovesOn(start, list, rows, i, items, w, Unlink(items, j), rows[i].(sym := Some(sym)));
    UnlinkMembers(items, j);
    KeepInherits(start, bound, rows, i, sym);
    KeepSteady(start, list, rows, i, items, j, sym);
  }

  lemma StartOfFirstPass(start: Rows, list: seq<Item>, bound: nat)
    requires DistinctLinks(list) && DistinctIds(start)
    ensures Halfway(start, list, bound, start, 0, list)
  {
    InheritsItself(start, bound);
    NothingSieved(start, ItemBag(KeyOf, list));
    assert start[..0] == [] && start[0..] == start;
  }

  /** The lookup table holds exactly the links still on the list. */
  ghost predicate Mirrors(t: Table, items: seq<Item>) {
    forall it :: Has(t, it) <==> it in items
  }

  ghost predicate Among(some: seq<Item>, all: seq<Item>) {
    forall it :: it in some ==> it in all
  }

  method FindLink(items: seq<Item>, it: Item) returns (j: nat)
    requires it in items
    ensures j < |items| && items[j] == it
  {
    j := 0;
    while items[j] != it
      invariant 0 <= j < |items| && it !in items[..j]
      decreases |items| - j
    {
      j := j + 1;
    }
  }

  /** Gives row `i` the symbol of a listed link of the same entry and takes the link off
      the list, the table and, as a possible parent, into the parents table. */
  method KeepRow(store: TreeStore, table: SymbolTable, i: nat, found: Item, items0: seq<Item>, parents0: Parents)
    returns (items: seq<Item>, parents: Parents, ghost sym: Symbol, ghost j: nat)
    requires store.Valid() && table.Valid()
    requires i < |store.rows| && store.rows[i].sym.Some?
    requires DistinctLinks(items0) && found in items0
    requires Mirrors(table.table, items0)
    requires KeyOf(found.sym) == KeyOf(store.rows[i].sym.value)
    requires HandlesLive(store.rows[..i], parents0) && Covers(store.rows[..i], parents0)
    modifies store`rows, table
    ensures store.Valid() && table.Valid()
    ensures j < |items0| && items0[j] == found && items == Unlink(items0, j) && Among(items, items0)
    ensures KeyOf(sym) == KeyOf(found.sym) && Core(sym) == Core(found.sym)
    ensures store.rows == Updated(old(store.rows), i, sym)
    ensures Mirrors(table.table, items)
    ensures HandlesLive(store.rows[..i + 1], parents) && Covers(store.rows[..i + 1], parents)
    ensures parents.Keys == parents0.Keys
  {
    var symbol := store.rows[i].sym.value;
    EqualMeansSameCore(symbol, found.sym);
    sym := symbol;
    if !Equal(symbol, found.sym) {
      sym := found.sym;
      store.SetSymbol(i, found.sym);
    }
    UpdatedSlices(old(store.rows), i, sym);
    EqualMeansSameCore(sym, found.sym);
    ghost var done := store.rows[..i + 1];
    assert done[i].id == store.rows[i].id && done[i].sym == Some(sym);
    HandlesLiveIn(old(store.rows)[..i], done, parents0);
    parents := UpdateParents(parents0, found.sym, store.rows[i].id, done);
    assert forall k :: 0 <= k < i ==> done[k] == old(store.rows)[..i][k];
    table.Remove(found);
    var at := FindLink(items0, found);
    j := at;
    UnlinkMembers(items0, j);
    items := Unlink(items0, at);
  }

  /** Everything the first pass keeps, at row `i` of the store. */
  ghost predicate Progress(start: Rows, list: seq<Item>, bound: nat, rows: Rows, i: nat, items: seq<Item>, parents: Parents) {
    && Halfway(start, list, bound, rows, i, items)
    && HandlesLive(rows[..i], parents)
    && Covers(rows[..i], parents)
  }

  lemma SkipProgress(start: Rows, list: seq<Item>, bound: nat, rows: Rows, i: nat, items: seq<Item>, parents: Parents)
    requires Progress(start, list, bound, rows, i, items, parents) && i < |rows| && rows[i].sym.None?
    ensures Progress(start, list, bound, rows, i + 1, items, parents)
  {
    SkipStep(start, list, bound, rows, i, items);
    assert rows[..i + 1] == rows[..i] + [rows[i]];
    HandlesLiveIn(rows[..i], rows[..i + 1], parents);
  }

  lemma RemoveProgress(start: Rows, list: seq<Item>, bound: nat, rows: Rows, i: nat, items: seq<Item>, parents: Parents)
    requires Progress(start, list, bound, rows, i, items, parents) && i < |rows| && rows[i].sym.Some?
    requires IsUnlisted(items, rows[i].sym.value)
    ensures Progress(start, list, bound, Without(rows, i), i, items, parents)
  {
    RemoveStep(start, list, bound, rows, i, items);
    assert Without(rows, i)[..i] == rows[..i];
  }

  /** The walk is at `iter`, or past the last row when there is none. */
  ghost predicate At(start: Rows, list: seq<Item>, bound: nat, rows: Rows, iter: Option<nat>, items: seq<Item>, parents: Parents) {
    && (iter.Some? ==> iter.value < |rows|)
    && Progress(start, list, bound, rows, Position(iter, rows), items, parents)
  }

  function Position(iter: Option<nat>, rows: Rows): nat {
    if iter.Some? then iter.value else |rows|
  }

  /** `found` is listed, is the same entry as `sym`, and no listed link of the entry is nearer. */
  ghost predicate IsNearest(items: seq<Item>, sym: Symbol, found: Item) {
    && found in items && KeyOf(found.sym) == KeyOf(sym)
    && forall it :: it in items && KeyOf(it.sym) == KeyOf(sym) ==>
         Abs(sym.line - found.sym.line) <= Abs(sym.line - it.sym.line)
  }

  ghost predicate IsUnlisted(items: seq<Item>, sym: Symbol) {
    forall it :: it in items ==> KeyOf(it.sym) != KeyOf(sym)
  }

  /** The table answers for the list it mirrors. */
  method LookupListed(table: SymbolTable, sym: Symbol, ghost items: seq<Item>) returns (found: Option<Item>)
    requires table.Valid() && Mirrors(table.table, items)
    ensures found.None? ==> IsUnlisted(items, sym)
    ensures found.Some? ==> IsNearest(items, sym, found.value)
  {
    found := table.Lookup(sym);
    assert forall it :: it in items ==> Has(table.table, it);
  }

  lemma KeepProgress(start: Rows, list: seq<Item>, bound: nat, rows: Rows, i: nat, items: seq<Item>, j: nat, sym: Symbol, parents: Parents)
    requires Halfway(start, list, bound, rows, i, items) && i < |rows| && rows[i].sym.Some? && j < |items|
    requires KeyOf(sym) == KeyOf(items[j].sym) && Core(sym) == Core(items[j].sym)
    requires IsNearest(items, rows[i].sym.value, items[j])
    requires HandlesLive(Updated(rows, i, sym)[..i + 1], parents) && Covers(Updated(rows, i, sym)[..i + 1], parents)
    ensures Progress(start, list, bound, Updated(rows, i, sym), i + 1, Unlink(items, j), parents)
  {
    KeepStep(start, list, bound, rows, i, items, j, sym);
  }

  lemma WalkMovesOn(start: Rows, list: seq<Item>, bound: nat, rows: Rows, next: nat, iter: Option<nat>, items: seq<Item>, parents: Parents)
    requires next <= |rows| && Progress(start, list, bound, rows, next, items, parents)
    requires iter == if next < |rows| then Some(next) else None
    ensures At(start, list, bound, rows, iter, items, parents) && Position(iter, rows) == next
  {
  }

  /** The branch of the walk for a row without a symbol. */
  method VisitBlank(store: TreeStore, i: nat, ghost items: seq<Item>, ghost parents: Parents,
                    ghost start: Rows, ghost list: seq<Item>)
    returns (iter: Option<nat>)
    requires store.Valid() && i < |store.rows| && store.rows[i].sym.None?
    requires At(start, list, store.nextId, store.rows, Some(i), items, parents)
    ensures At(start, list, store.nextId, store.rows, iter, items, parents)
    ensures Position(iter, store.rows) == i + 1
  {
    SkipProgress(start, list, store.nextId, store.rows, i, items, parents);
    iter := AnyNext(store.rows, i, true);
    WalkMovesOn(start, list, store.nextId, store.rows, i + 1, iter, items, parents);
  }

  /** The branch of the walk for a row whose symbol is still listed. */
  method VisitListed(store: TreeStore, table: SymbolTable, i: nat, found: Item, items0: seq<Item>, parents0: Parents,
                     ghost start: Rows, ghost list: seq<Item>)
    returns (iter: Option<nat>, items: seq<Item>, parents: Parents)
    requires store.Valid() && table.Valid() && i < |store.rows| && store.rows[i].sym.Some?
    requires At(start, list, store.nextId, store.rows, Some(i), items0, parents0)
    requires IsNearest(items0, store.rows[i].sym.value, found)
    requires Mirrors(table.table, items0)
    modifies store`rows, table
    ensures store.Valid() && table.Valid()
    ensures At(start, list, store.nextId, store.rows, iter, items, parents)
    ensures |store.rows| == |old(store.rows)| && Position(iter, store.rows) == i + 1
    ensures Mirrors(table.table, items) && Among(items, items0)
    ensures parents.Keys == parents0.Keys
    ensures exists j, sym :: TakesOver(old(store.rows), i, items0, j, sym, store.rows, items)
  {
    ghost var sym, j;
    items, parents, sym, j := KeepRow(store, table, i, found, items0, parents0);
    KeepProgress(start, list, store.nextId, old(store.rows), i, items0, j, sym, parents);
    iter := AnyNext(store.rows, i, true);
    WalkMovesOn(start, list, store.nextId, store.rows, i + 1, iter, items, parents);
    assert TakesOver(old(store.rows), i, items0, j, sym, store.rows, items);
  }

  /** The branch of the walk for a row whose symbol is no longer listed. */
  method VisitObsolete(store: TreeStore, i: nat, ghost items: seq<Item>, ghost parents: Parents,
                       ghost start: Rows, ghost list: seq<Item>)
    returns (iter: Option<nat>)
    requires store.Valid() && i < |store.rows| && store.rows[i].sym.Some?
    requires At(start, list, store.nextId, store.rows, Some(i), items, parents)
    requires IsUnlisted(items, store.rows[i].sym.value)
    modifies store`rows
    ensures store.Valid()
    ensures At(start, list, store.nextId, store.rows, iter, items, parents)
    ensures |store.rows| < |old(store.rows)| && Position(iter, store.rows) == i
    ensures store.rows == Without(old(store.rows), i)
  {
    RemoveProgress(start, list, store.nextId, store.rows, i, items, parents);
    iter := store.RemoveRow(i);
  }

  /** What one turn does: a row without a symbol is passed over; one whose entry is not listed
      goes with what is below it; any other takes over a nearest link of its entry, which
      leaves the list. */
  ghost predicate Turned(rows: Rows, i: nat, items: seq<Item>, after: Rows, next: nat, left: seq<Item>)
    requires i < |rows|
  {
    if rows[i].sym.None? then after == rows && next == i + 1 && left == items
    else if IsUnlisted(items, rows[i].sym.value) then after == Without(rows, i) && next == i && left == items
    else exists j, sym :: TakesOver(rows, i, items, j, sym, after, left) && next == i + 1
  }

  ghost predicate TakesOver(rows: Rows, i: nat, items: seq<Item>, j: nat, sym: Symbol, after: Rows, left: seq<Item>)
    requires i < |rows|
  {
    && rows[i].sym.Some? && j < |items| && IsNearest(items, rows[i].sym.value, items[j])
    && Core(sym) == Core(items[j].sym) && after == Updated(rows, i, sym) && left == Unlink(items, j)
  }

  /** One turn of the walk. A row whose symbol is still listed keeps its place and takes
      over the nearest listed symbol of the same entry; any other row goes, with its
      descendants, none of which has been visited yet. */
  method VisitRow(store: TreeStore, table: SymbolTable, i: nat, items0: seq<Item>, parents0: Parents,
                  ghost start: Rows, ghost list: seq<Item>)
    returns (iter: Option<nat>, items: seq<Item>, parents: Parents)
    requires store.Valid() && table.Valid()
    requires At(start, list, store.nextId, store.rows, Some(i), items0, parents0)
    requires Mirrors(table.table, items0)
    modifies store`rows, table
    ensures store.Valid() && table.Valid()
    ensures At(start, list, store.nextId, store.rows, iter, items, parents)
    ensures Mirrors(table.table, items) && Among(items, items0)
    ensures parents.Keys == parents0.Keys
    ensures |store.rows| - Position(iter, store.rows) < |old(store.rows)| - i
    ensures Turned(old(store.rows), i, items0, store.rows, Position(iter, store.rows), items)
  {
    items, parents := items0, parents0;
    var symbol := store.rows[i].sym;
    if symbol.None? {
      iter := VisitBlank(store, i, items, parents, start, list);
      return;
    }
    var found := LookupListed(table, symbol.value, items);
    assert found.Some? ==> !IsUnlisted(items, symbol.value);
    if found.None? {
      iter := VisitObsolete(store, i, items, parents, start, list);
    } else {
      iter, items, parents := VisitListed(store, table, i, found.value, items0, parents0, start, list);
    }
  }

  method FirstPass(store: TreeStore, table: SymbolTable, list: seq<Item>, parents0: Parents)
    returns (items: seq<Item>, parents: Parents)
    requires store.Valid() && table.Valid()
    requires DistinctLinks(list)
    requires Mirrors(table.table, list)
    requires forall name :: name in parents0 ==> parents0[name].None?
    modifies store`rows, table
    ensures store.Valid()
    ensures At(old(store.rows), list, store.nextId, store.rows, None, items, parents)
    ensures Among(items, list)
    ensures parents.Keys == parents0.Keys
  {
    items, parents := list, parents0;
    StartOfFirstPass(store.rows, list, store.nextId);
    var iter := if store.rows == [] then None else Some(0);
    while iter.Some?
      invariant store.Valid() && table.Valid()
      invariant Mirrors(table.table, items) && Among(items, list)
      invariant At(old(store.rows), list, store.nextId, store.rows, iter, items, parents)
      invariant parents.Keys == parents0.Keys
      decreases |store.rows| - Position(iter, store.rows)
    {
      iter, items, parents := VisitRow(store, table, iter.value, items, parents, old(store.rows), list);
    }
  }

  // ----- the second pass -----

  /** A new row hangs under a row whose full name is its scope, and none of the rows of that
      name that were there when it was added and lie at or before its line is nearer; it is at
      the top level only if it has no scope or no row of that name was there. */
  ghost predicate PlacedRow(rows: Rows, k: nat)
    requires k < |rows|
  {
    PlacedUnder(rows, rows[k], ParentRow(rows, k))
  }

  ghost predicate PlacedUnder(rows: Rows, row: Row, parent: Option<Row>) {
    && row.sym.Some?
    && match parent
       case Some(p) =>
         && p.sym.Some? && ParentName(row.sym.value) == Some(NameWithScope(p.sym.value))
         && NoneNearer(rows, row.id, ParentName(row.sym.value).value, row.sym.value.line, p.sym.value.line)
       case None => ParentName(row.sym.value).None? || NotNamed(rows, row.id, ParentName(row.sym.value).value)
  }

  /** No row older than `id` has this full name. Ids grow, so they order rows by age. */
  ghost predicate NotNamed(rows: Rows, id: nat, name: string) {
    forall m :: 0 <= m < |rows| && rows[m].id < id && rows[m].sym.Some? ==> NameWithScope(rows[m].sym.value) != name
  }

  ghost predicate Placed(rows: Rows, bound: nat) {
    forall k {:trigger PlacedRow(rows, k)} :: 0 <= k < |rows| && bound <= rows[k].id ==> PlacedRow(rows, k)
  }

  /** What the second pass keeps while `todo` is still to be added. */
  ghost predicate Adding(start: Rows, list: seq<Item>, bound: nat, rows: Rows, todo: seq<Item>) {
    && RowBag(Core, rows) + ItemBag(Core, todo) == ItemBag(Core, list)
    && Inherits(rows, start, bound)
    && (ScopesMatch(start) ==> ScopesMatch(rows))
    && Placed(rows, bound)
    && Settled(start, list, bound, rows)
  }

  /** Of the old rows just those are there that stay. */
  ghost predicate Settled(start: Rows, list: seq<Item>, bound: nat, rows: Rows) {
    forall k :: 0 <= k < |start| ==> start[k].id < bound && StaysLive(start, ItemBag(KeyOf, list), k, rows)
  }

  lemma InsertionSettles(start: Rows, list: seq<Item>, bound: nat, rows: Rows, parent: Option<nat>, id: nat, sym: Symbol)
    requires Settled(start, list, bound, rows) && bound <= id && (parent.Some? ==> parent.value < |rows|)
    ensures Settled(start, list, bound, WithFirstChild(rows, parent, id, Some(sym)))
  {
    var w, at := WithFirstChild(rows, parent, id, Some(sym)), InsertionPoint(parent);
    WithFirstChildIsSpliced(rows, parent, id, Some(sym));
    forall k | 0 <= k < |start| ensures StaysLive(start, ItemBag(KeyOf, list), k, w) {
      assert StaysLive(start, ItemBag(KeyOf, list), k, rows);
      LiveAfterSplice(rows, w, at, start[k].id);
    }
  }

  lemma LiveAfterSplice(rows: Rows, w: Rows, at: nat, id: nat)
    requires Spliced(rows, w, at)
    ensures Live(w, id) <==> Live(rows, id) || w[at].id == id
  {
    if Live(rows, id) {
      var m :| 0 <= m < |rows| && rows[m].id == id;
      assert w[if m < at then m else m + 1].id == id;
    }
    if Live(w, id) {
      var m :| 0 <= m < |w| && w[m].id == id;
      assert m == at || w[m] == rows[if m < at then m else m - 1];
    }
  }

  /** A younger row says nothing about older ones. */
  lemma NotNamedAfter(rows: Rows, w: Rows, at: nat, id: nat, name: string)
    requires Spliced(rows, w, at) && id <= w[at].id
    requires NotNamed(rows, id, name)
    ensures NotNamed(w, id, name)
  {
    forall m | 0 <= m < |w| && w[m].id < id && w[m].sym.Some? ensures NameWithScope(w[m].sym.value) != name {
      assert w[m] == rows[if m < at then m else m - 1];
    }
  }

  lemma NoneNearerAfter(rows: Rows, w: Rows, at: nat, id: nat, name: string, line: int, l: int)
    requires Spliced(rows, w, at) && id <= w[at].id
    requires NoneNearer(rows, id, name, line, l)
    ensures NoneNearer(w, id, name, line, l)
  {
    forall m | 0 <= m < |w| && w[m].id < id && NamedBy(w[m], name, line)
      ensures Abs(line - l) <= line - w[m].sym.value.line
    {
      assert w[m] == rows[if m < at then m else m - 1];
    }
  }

  lemma StaysPlaced(rows: Rows, w: Rows, at: nat, row: Row, parent: Option<Row>)
    requires Spliced(rows, w, at) && row.id <= w[at].id
    requires PlacedUnder(rows, row, parent)
    ensures PlacedUnder(w, row, parent)
  {
    if parent.None? && ParentName(row.sym.value).Some? {
      NotNamedAfter(rows, w, at, row.id, ParentName(row.sym.value).value);
    }
    if parent.Some? {
      NoneNearerAfter(rows, w, at, row.id, ParentName(row.sym.value).value, row.sym.value.line, parent.value.sym.value.line);
    }
  }

  /** The row at an index, or none, is the right one for a symbol that is about to be added. */
  ghost predicate RightParent(rows: Rows, parent: Option<nat>, id: nat, sym: Symbol)
    requires parent.Some? ==> parent.value < |rows|
  {
    PlacedUnder(rows, Row(id, 0, Some(sym)), if parent.Some? then Some(rows[parent.value]) else None)
  }

  lemma {:induction false} RowPlacedAfterInsertion(rows: Rows, parent: Option<nat>, id: nat, sym: Symbol, o: nat)
    requires Forest(rows) && (parent.Some? ==> parent.value < |rows|)
    requires o < |rows| && rows[o].id < id && PlacedRow(rows, o)
    ensures
      var w := WithFirstChild(rows, parent, id, Some(sym));
      var k := if o < InsertionPoint(parent) then o else o + 1;
      k < |w| && PlacedRow(w, k)
  {
    WithFirstChildIsSpliced(rows, parent, id, Some(sym));
    ParentAfterInsertion(rows, parent, id, Some(sym), o);
    StaysPlaced(rows, WithFirstChild(rows, parent, id, Some(sym)), InsertionPoint(parent), rows[o], ParentRow(rows, o));
  }

  lemma OtherRowPlaced(rows: Rows, parent: Option<nat>, id: nat, sym: Symbol, bound: nat, w: Rows, k: nat, o: nat)
    requires Forest(rows) && (parent.Some? ==> parent.value < |rows|) && w == WithFirstChild(rows, parent, id, Some(sym))
    requires Placed(rows, bound) && k < |w| && bound <= w[k].id
    requires o < |rows| && rows[o].id < id && k == if o < InsertionPoint(parent) then o else o + 1
    ensures PlacedRow(w, k)
  {
    WithFirstChildIsSpliced(rows, parent, id, Some(sym));
    assert PlacedRow(rows, o);
    RowPlacedAfterInsertion(rows, parent, id, sym, o);
  }

  lemma NewRowPlaced(rows: Rows, parent: Option<nat>, id: nat, sym: Symbol, w: Rows, at: nat)
    requires Forest(rows) && (parent.Some? ==> parent.value < |rows|)
    requires w == WithFirstChild(rows, parent, id, Some(sym)) && at == InsertionPoint(parent)
    requires RightParent(rows, parent, id, sym)
    ensures at < |w| && PlacedRow(w, at)
  {
    WithFirstChildIsSpliced(rows, parent, id, Some(sym));
    ParentOfInserted(rows, parent, id, Some(sym));
    StaysPlaced(rows, w, at, w[at], ParentRow(w, at));
  }

  lemma {:induction false} InsertionPlaced(rows: Rows, parent: Option<nat>, id: nat, sym: Symbol, bound: nat)
    requires Forest(rows) && (parent.Some? ==> parent.value < |rows|)
    requires forall k :: 0 <= k < |rows| ==> rows[k].id < id
    requires Placed(rows, bound)
    requires RightParent(rows, parent, id, sym)
    ensures Placed(WithFirstChild(rows, parent, id, Some(sym)), bound)
  {
    var w := WithFirstChild(rows, parent, id, Some(sym));
    var at := InsertionPoint(parent);
    forall k | 0 <= k < |w| && bound <= w[k].id ensures PlacedRow(w, k) {
      if k == at {
        NewRowPlaced(rows, parent, id, sym, w, at);
      } else {
        OtherRowPlaced(rows, parent, id, sym, bound, w, k, if k < at then k else k - 1);
      }
    }
  }

  lemma {:induction false} AddStep(start: Rows, list: seq<Item>, bound: nat, rows: Rows, todo: seq<Item>, parent: Option<nat>, id: nat)
    requires Forest(rows) && (parent.Some? ==> parent.value < |rows|)
    requires bound <= id && (forall k :: 0 <= k < |rows| ==> rows[k].id < id)
    requires Adding(start, list, bound, rows, todo) && todo != []
    requires RightParent(rows, parent, id, todo[0].sym)
    ensures Adding(start, list, bound, WithFirstChild(rows, parent, id, Some(todo[0].sym)), todo[1..])
  {
    var sym := todo[0].sym;
    RowBagInsert(Core, rows, parent, id, sym);
    InsertionPlaced(rows, parent, id, sym, bound);
    InsertionSettles(start, list, bound, rows, parent, id, sym);
    InsertionInherits(rows, parent, id, sym, bound);
    InheritsTransitive(WithFirstChild(rows, parent, id, Some(sym)), rows, start, bound);
  }

  lemma InsertionHandles(rows: Rows, parent: Option<nat>, id: nat, sym: Symbol, parents: Parents)
    requires parent.Some? ==> parent.value < |rows|
    requires HandlesLive(rows, parents)
    ensures HandlesLive(WithFirstChild(rows, parent, id, Some(sym)), parents)
    ensures Denotes(WithFirstChild(rows, parent, id, Some(sym)), id, NameWithScope(sym), sym.line)
  {
    var w := WithFirstChild(rows, parent, id, Some(sym));
    var at := InsertionPoint(parent);
    WithFirstChildIsSpliced(rows, parent, id, Some(sym));
    forall r | r in rows ensures r in w {
      var m :| 0 <= m < |rows| && rows[m] == r;
      assert w[if m < at then m else m + 1] == r;
    }
    HandlesLiveIn(rows, w, parents);
    assert w[at].id == id;
  }

  /** The rows and the table once a row for `sym` is in both. */
  lemma InsertionCovers(rows: Rows, parent: Option<nat>, id: nat, sym: Symbol, parents: Parents, parents': Parents)
    requires parent.Some? ==> parent.value < |rows|
    requires Covers(rows, parents) && parents'.Keys == parents.Keys
    requires forall name, line :: HasLine(parents, name, line) ==> HasLine(parents', name, line)
    requires NameWithScope(sym) in parents ==> HasLine(parents', NameWithScope(sym), sym.line)
    ensures Covers(WithFirstChild(rows, parent, id, Some(sym)), parents')
  {
    var w := WithFirstChild(rows, parent, id, Some(sym));
    var at := InsertionPoint(parent);
    WithFirstChildIsSpliced(rows, parent, id, Some(sym));
    forall k | 0 <= k < |w| && w[k].sym.Some? && NameWithScope(w[k].sym.value) in parents'
      ensures HasLine(parents', NameWithScope(w[k].sym.value), w[k].sym.value.line)
    {
      if k != at { assert w[k] == rows[if k < at then k else k - 1]; }
    }
  }

  /** Of the rows older than `id` with this full name none that is on the line or before it is
      strictly nearer to the line than `l`. */
  ghost predicate NoneNearer(rows: Rows, id: nat, name: string, line: int, l: int) {
    forall m :: 0 <= m < |rows| && rows[m].id < id && NamedBy(rows[m], name, line) ==> Abs(line - l) <= line - rows[m].sym.value.line
  }

  /** The row has this full name and lies on the line or before it. */
  ghost predicate NamedBy(r: Row, name: string, line: int) {
    r.sym.Some? && NameWithScope(r.sym.value) == name && r.sym.value.line <= line
  }

  lemma FoundIsNearest(rows: Rows, parents: Parents, name: string, line: int, id: nat, l: int)
    requires Covers(rows, parents) && FoundAt(parents, name, line, id, l, rows)
    ensures forall before :: NoneNearer(rows, before, name, line, l)
  {
    forall m | 0 <= m < |rows| && NamedBy(rows[m], name, line)
      ensures Abs(line - l) <= line - rows[m].sym.value.line
    {
      assert HasLine(parents, name, rows[m].sym.value.line);
    }
  }

  lemma OneRowOfAnId(rows: Rows, id: nat, name: string, l: int, i: nat)
    requires DistinctIds(rows) && Denotes(rows, id, name, l) && i < |rows| && rows[i].id == id
    ensures rows[i].sym.Some? && NameWithScope(rows[i].sym.value) == name && rows[i].sym.value.line == l
  {
  }

  /** The row a symbol goes under: one with its scope as full name if the table knows any, and
      of those none at or before the symbol's line is strictly nearer to it. */
  method ChooseParent(rows: Rows, sym: Symbol, parents: Parents) returns (parent: Option<nat>)
    requires HandlesLive(rows, parents) && Covers(rows, parents) && DistinctIds(rows)
    requires ParentName(sym).Some? ==> ParentName(sym).value in parents
    ensures parent.Some? ==> parent.value < |rows| && rows[parent.value].sym.Some?
    ensures parent.Some? ==> ParentName(sym) == Some(NameWithScope(rows[parent.value].sym.value))
    ensures parent.Some? ==>
      forall id :: NoneNearer(rows, id, ParentName(sym).value, sym.line, rows[parent.value].sym.value.line)
    ensures parent.None? ==> ParentName(sym).None? || forall id :: NotNamed(rows, id, ParentName(sym).value)
  {
    var name := ParentName(sym);
    if name.None? {
      return None;
    }
    var handle := LookupParent(parents, name.value, sym.line, rows);
    if handle.None? {
      return None;
    }
    ghost var l :| FoundAt(parents, name.value, sym.line, handle.value, l, rows);
    FoundIsNearest(rows, parents, name.value, sym.line, handle.value, l);
    var i := FindRow(rows, handle.value);
    OneRowOfAnId(rows, handle.value, name.value, l, i);
    parent := Some(i);
  }

  // ----- where new rows go among their siblings -----

  /** New rows come before the older rows under the same parent. */
  ghost predicate NewestFirst(rows: Rows, bound: nat) {
    forall k, m :: 0 <= k < |rows| && 0 <= m < |rows| ==> InTurn(rows, bound, k, m)
  }

  ghost predicate InTurn(rows: Rows, bound: nat, k: nat, m: nat)
    requires k < |rows| && m < |rows|
  {
    bound <= rows[k].id && rows[m].id < rows[k].id && ParentId(rows, k) == ParentId(rows, m) ==> k < m
  }

  /** The first child comes before the other rows under its parent. */
  lemma FirstAmongSiblings(rows: Rows, parent: Option<nat>, id: nat, sym: Symbol, w: Rows, m: nat)
    requires parent.Some? ==> parent.value < |rows|
    requires w == WithFirstChild(rows, parent, id, Some(sym)) && DistinctIds(w)
    requires m < |w| && InsertionPoint(parent) < |w| && m != InsertionPoint(parent)
    requires ParentId(w, m) == ParentId(w, InsertionPoint(parent))
    ensures InsertionPoint(parent) < m
  {
    ParentOfInserted(rows, parent, id, Some(sym));
    WithFirstChildIsSpliced(rows, parent, id, Some(sym));
    if parent.Some? {
      assert w[parent.value] == rows[parent.value];
      assert Parent(w, m).Some? && w[Parent(w, m).value].id == w[parent.value].id;
      assert Parent(w, m).value == parent.value;
    }
  }

  lemma OthersStayInTurn(rows: Rows, parent: Option<nat>, id: nat, sym: Symbol, bound: nat, w: Rows, k: nat, m: nat)
    requires Forest(rows) && (parent.Some? ==> parent.value < |rows|) && NewestFirst(rows, bound)
    requires w == WithFirstChild(rows, parent, id, Some(sym)) && |w| == |rows| + 1
    requires k < |w| && m < |w| && k != InsertionPoint(parent) && m != InsertionPoint(parent)
    ensures InTurn(w, bound, k, m)
  {
    var at := InsertionPoint(parent);
    var o, q := if k < at then k else k - 1, if m < at then m else m - 1;
    OtherRowContinues(rows, parent, id, sym, w, k, o);
    OtherRowContinues(rows, parent, id, sym, w, m, q);
    assert InTurn(rows, bound, o, q);
  }

  lemma NewestInTurn(rows: Rows, parent: Option<nat>, id: nat, sym: Symbol, bound: nat, w: Rows, k: nat, m: nat)
    requires (parent.Some? ==> parent.value < |rows|) && forall i :: 0 <= i < |rows| ==> rows[i].id < id
    requires w == WithFirstChild(rows, parent, id, Some(sym)) && DistinctIds(w)
    requires k < |w| && m < |w| && (k == InsertionPoint(parent) || m == InsertionPoint(parent))
    ensures InTurn(w, bound, k, m)
  {
    var at := InsertionPoint(parent);
    WithFirstChildIsSpliced(rows, parent, id, Some(sym));
    if m == at {
      assert k != at ==> w[k] == rows[if k < at then k else k - 1];
    } else if ParentId(w, m) == ParentId(w, at) {
      FirstAmongSiblings(rows, parent, id, sym, w, m);
    }
  }

  lemma InsertionKeepsNewestFirst(rows: Rows, parent: Option<nat>, id: nat, sym: Symbol, bound: nat, w: Rows)
    requires Forest(rows) && (parent.Some? ==> parent.value < |rows|) && NewestFirst(rows, bound)
    requires forall k :: 0 <= k < |rows| ==> rows[k].id < id
    requires w == WithFirstChild(rows, parent, id, Some(sym)) && DistinctIds(w)
    ensures NewestFirst(w, bound)
  {
    var at := InsertionPoint(parent);
    WithFirstChildIsSpliced(rows, parent, id, Some(sym));
    forall k, m | 0 <= k < |w| && 0 <= m < |w| ensures InTurn(w, bound, k, m) {
      if k == at || m == at {
        NewestInTurn(rows, parent, id, sym, bound, w, k, m);
      } else {
        OthersStayInTurn(rows, parent, id, sym, bound, w, k, m);
      }
    }
  }

  /** A row with this identity holds the symbol. */
  ghost predicate Holds(rows: Rows, id: nat, sym: Symbol) {
    exists m :: 0 <= m < |rows| && rows[m].id == id && rows[m].sym == Some(sym)
  }

  lemma InsertionHolds(rows: Rows, parent: Option<nat>, id: nat, sym: Symbol)
    requires parent.Some? ==> parent.value < |rows|
    ensures Holds(WithFirstChild(rows, parent, id, Some(sym)), id, sym)
    ensures forall i, s :: Holds(rows, i, s) ==> Holds(WithFirstChild(rows, parent, id, Some(sym)), i, s)
  {
    var w, at := WithFirstChild(rows, parent, id, Some(sym)), InsertionPoint(parent);
    WithFirstChildIsSpliced(rows, parent, id, Some(sym));
    assert w[at].id == id;
    forall i, s | Holds(rows, i, s) ensures Holds(w, i, s) {
      var m :| 0 <= m < |rows| && rows[m].id == i && rows[m].sym == Some(s);
      assert w[if m < at then m else m + 1] == rows[m];
    }
  }

  /** The first `j` of the symbols are in rows numbered in their order, each in front of what
      was there under its parent. */
  ghost predicate Entered(rows: Rows, bound: nat, items: seq<Item>, j: nat)
    requires j <= |items|
  {
    NewestFirst(rows, bound) && forall k :: 0 <= k < j ==> Holds(rows, bound + k, items[k].sym)
  }

  lemma NoneEntered(rows: Rows, bound: nat, items: seq<Item>)
    requires forall k :: 0 <= k < |rows| ==> rows[k].id < bound
    ensures Entered(rows, bound, items, 0)
  {
  }

  lemma OneMoreHeld(rows: Rows, parent: Option<nat>, bound: nat, items: seq<Item>, j: nat, id: nat, w: Rows)
    requires (parent.Some? ==> parent.value < |rows|) && j < |items| && id == bound + j
    requires forall k :: 0 <= k < j ==> Holds(rows, bound + k, items[k].sym)
    requires w == WithFirstChild(rows, parent, id, Some(items[j].sym))
    ensures forall k :: 0 <= k < j + 1 ==> Holds(w, bound + k, items[k].sym)
  {
    InsertionHolds(rows, parent, id, items[j].sym);
  }

  /** What the second pass keeps of the rows. */
  ghost predicate Filling(start: Rows, list: seq<Item>, bound: nat, rows: Rows, todo: seq<Item>, items: seq<Item>, j: nat)
    requires j <= |items|
  {
    Adding(start, list, bound, rows, todo) && Entered(rows, bound, items, j) && todo == items[j..]
  }

  ghost predicate SoundRows(rows: Rows, bound: nat) {
    Forest(rows) && DistinctIds(rows) && forall k :: 0 <= k < |rows| ==> rows[k].id < bound
  }

  lemma SymbolEnters(start: Rows, list: seq<Item>, bound: nat, rows: Rows, parent: Option<nat>, id: nat, todo: seq<Item>,
                     items: seq<Item>, j: nat, w: Rows)
    requires j < |items| && id == bound + j && SoundRows(rows, id) && Filling(start, list, bound, rows, todo, items, j)
    requires (parent.Some? ==> parent.value < |rows|) && RightParent(rows, parent, id, items[j].sym)
    requires w == WithFirstChild(rows, parent, id, Some(items[j].sym)) && DistinctIds(w)
    ensures todo != [] && Filling(start, list, bound, w, todo[1..], items, j + 1)
  {
    assert todo[0] == items[j] && todo[1..] == items[j + 1..];
    AddStep(start, list, bound, rows, todo, parent, id);
    InsertionKeepsNewestFirst(rows, parent, id, items[j].sym, bound, w);
    OneMoreHeld(rows, parent, bound, items, j, id, w);
  }

  /** The table answers for the rows. */
  ghost predicate Answers(rows: Rows, parents: Parents) {
    HandlesLive(rows, parents) && Covers(rows, parents)
  }

  method AddSymbol(store: TreeStore, items: seq<Item>, j: nat, parents0: Parents,
                   ghost start: Rows, ghost list: seq<Item>, ghost bound: nat, ghost todo: seq<Item>)
    returns (parents: Parents, ghost parent: Option<nat>)
    requires store.Valid() && j < |items| && store.nextId == bound + j
    requires Filling(start, list, bound, store.rows, todo, items, j) && Answers(store.rows, parents0)
    requires ParentName(items[j].sym).Some? ==> ParentName(items[j].sym).value in parents0
    modifies store
    ensures store.Valid() && store.nextId == bound + (j + 1)
    ensures todo != [] && Filling(start, list, bound, store.rows, todo[1..], items, j + 1) && Answers(store.rows, parents)
    ensures parents.Keys == parents0.Keys
    ensures parent.Some? ==> parent.value < |old(store.rows)|
    ensures RightParent(old(store.rows), parent, old(store.nextId), items[j].sym)
    ensures store.rows == WithFirstChild(old(store.rows), parent, old(store.nextId), Some(items[j].sym))
  {
    var sym := items[j].sym;
    var under := ChooseParent(store.rows, sym, parents0);
    parent := under;
    ghost var rows, id0 := store.rows, store.nextId;
    var id := store.InsertFirstChild(under, sym);
    SymbolEnters(start, list, bound, rows, parent, id0, todo, items, j, store.rows);
    InsertionHandles(rows, parent, id0, sym, parents0);
    parents := UpdateParents(parents0, sym, id, store.rows);
    InsertionCovers(rows, parent, id, sym, parents0, parents);
  }

  /** The table knows every name that one of the symbols has as its scope. */
  ghost predicate ParentsKnown(items: seq<Item>, parents: Parents) {
    forall it :: it in items && ParentName(it.sym).Some? ==> ParentName(it.sym).value in parents
  }

  lemma RestOf(items: seq<Item>, j: nat, parents: Parents)
    requires j < |items| && ParentsKnown(items, parents)
    ensures ParentName(items[j].sym).Some? ==> ParentName(items[j].sym).value in parents
  {
  }

  /** Adds the symbols that no row took, in list order, each as the first child of its parent. */
  method SecondPass(store: TreeStore, items: seq<Item>, parents0: Parents,
                    ghost start: Rows, ghost list: seq<Item>)
    requires store.Valid()
    requires Adding(start, list, store.nextId, store.rows, items)
    requires HandlesLive(store.rows, parents0) && Covers(store.rows, parents0)
    requires ParentsKnown(items, parents0)
    modifies store
    ensures store.Valid()
    ensures Adding(start, list, old(store.nextId), store.rows, [])
    ensures items == [] ==> store.rows == old(store.rows)
    ensures Entered(store.rows, old(store.nextId), items, |items|) && store.nextId == old(store.nextId) + |items|
  {
    var parents := parents0;
    var j := 0;
    ghost var todo := items;
    NoneEntered(store.rows, store.nextId, items);
    while j < |items|
      invariant 0 <= j <= |items|
      invariant store.Valid() && store.nextId == old(store.nextId) + j
      invariant Filling(start, list, old(store.nextId), store.rows, todo, items, j) && Answers(store.rows, parents)
      invariant parents.Keys == parents0.Keys
      invariant items == [] ==> store.rows == old(store.rows)
    {
      RestOf(items, j, parents0);
      ghost var parent;
      parents, parent := AddSymbol(store, items, j, parents, start, list, old(store.nextId), todo);
      todo := todo[1..];
      j := j + 1;
    }
    assert todo == [];
  }

  // ----- the whole update -----

  lemma BetweenPasses(start: Rows, list: seq<Item>, bound: nat, rows: Rows, items: seq<Item>, parents: Parents)
    requires At(start, list, bound, rows, None, items, parents)
    requires forall k :: 0 <= k < |rows| ==> rows[k].id < bound
    requires forall k :: 0 <= k < |start| ==> start[k].id < bound
    ensures Adding(start, list, bound, rows, items)
    ensures HandlesLive(rows, parents) && Covers(rows, parents)
    ensures RowBag(Mark, start) == ItemBag(Mark, list) ==> items == [] && SameShape(rows, start)
  {
    assert rows[..|rows|] == rows;
    assert RowBag(Mark, rows[|rows|..]) == multiset{};
  }

  method BuildTables(list: seq<Item>) returns (table: SymbolTable, parents: Parents)
    requires DistinctLinks(list)
    ensures fresh(table) && table.Valid() && Mirrors(table.table, list)
    ensures forall it :: it in list && ParentName(it.sym).Some? ==> ParentName(it.sym).value in parents
    ensures forall name :: name in parents ==> parents[name].None?
  {
    table := new SymbolTable();
    parents := map[];
    var j := 0;
    while j < |list|
      invariant 0 <= j <= |list|
      invariant fresh(table) && table.Valid() && Mirrors(table.table, list[..j])
      invariant forall it :: it in list[..j] && ParentName(it.sym).Some? ==> ParentName(it.sym).value in parents
      invariant forall name :: name in parents ==> parents[name].None?
    {
      var it := list[j];
      assert it !in list[..j];
      table.Insert(it);
      var name := ParentName(it.sym);
      if name.Some? {
        parents := parents[name.value := None];
      }
      assert list[..j + 1] == list[..j] + [it];
      j := j + 1;
    }
    assert list[..j] == list;
  }

  /** Old row `k` is still there, with its identity, depth, parent and entry. */
  ghost predicate KeptRow(before: Rows, k: nat, rows: Rows)
    requires k < |before|
  {
    exists m :: 0 <= m < |rows| && Continues(rows, m, before, k)
  }

  lemma LiveIsKept(start: Rows, bound: nat, rows: Rows, k: nat)
    requires k < |start| && start[k].id < bound && DistinctIds(start) && Inherits(rows, start, bound) && Live(rows, start[k].id)
    ensures KeptRow(start, k, rows)
  {
    var m :| 0 <= m < |rows| && rows[m].id == start[k].id;
    assert Continued(rows, m, start);
    var o :| 0 <= o < |start| && Continues(rows, m, start, o);
    assert o == k;
  }

  lemma SurvivorsKept(start: Rows, list: seq<Item>, bound: nat, rows: Rows)
    requires DistinctIds(start) && Inherits(rows, start, bound) && Settled(start, list, bound, rows)
    ensures forall k :: 0 <= k < |start| ==>
      if Survives(start, ItemBag(KeyOf, list), k) then KeptRow(start, k, rows) else !Live(rows, start[k].id)
    ensures RowBag(KeyOf, start) <= ItemBag(KeyOf, list) ==> forall k :: 0 <= k < |start| ==> KeptRow(start, k, rows)
  {
    var keys := ItemBag(KeyOf, list);
    forall k | 0 <= k < |start|
      ensures if Survives(start, keys, k) then KeptRow(start, k, rows) else !Live(rows, start[k].id)
      ensures RowBag(KeyOf, start) <= keys ==> Survives(start, keys, k)
    {
      assert StaysLive(start, keys, k, rows);
      if Survives(start, keys, k) { LiveIsKept(start, bound, rows, k); }
      if RowBag(KeyOf, start) <= keys { AllSurvive(start, keys, k); }
    }
  }

  /** After an update the rows hold exactly the listed symbols, as symbol equality sees
      them: nothing lost, repeated or left over, although removing a row silently removes
      its unvisited descendants. An old row stays, with identity, depth, parent and entry,
      exactly when its parent does and a listed link of its entry is left for it, whatever the
      lines. New rows hang under the row their scope names, before older ones, and when the old rows already had
      the listed entries on the listed lines no row is removed, added or moved. */
  method UpdateSymbols(store: TreeStore, list: seq<Item>)
    requires store.Valid()
    requires DistinctLinks(list)
    modifies store
    ensures store.Valid()
    ensures RowBag(Core, store.rows) == ItemBag(Core, list)
    ensures Inherits(store.rows, old(store.rows), old(store.nextId))
    ensures Placed(store.rows, old(store.nextId)) && NewestFirst(store.rows, old(store.nextId))
    ensures ScopesMatch(old(store.rows)) ==> ScopesMatch(store.rows)
    ensures RowBag(Mark, old(store.rows)) == ItemBag(Mark, list) ==> SameShape(store.rows, old(store.rows))
    ensures forall k :: 0 <= k < |old(store.rows)| ==>
      if Survives(old(store.rows), ItemBag(KeyOf, list), k) then KeptRow(old(store.rows), k, store.rows)
      else !Live(store.rows, old(store.rows)[k].id)
    ensures RowBag(KeyOf, old(store.rows)) <= ItemBag(KeyOf, list) ==>
      forall k :: 0 <= k < |old(store.rows)| ==> KeptRow(old(store.rows), k, store.rows)
  {
    ghost var start, bound := store.rows, store.nextId;
    var table, parents := BuildTables(list);
    var items;
    items, parents := FirstPass(store, table, list, parents);
    BetweenPasses(start, list, bound, store.rows, items, parents);
    SecondPass(store, items, parents, start, list);
    SurvivorsKept(start, list, bound, store.rows);
  }

  // ----- icons -----

  function Self(s: Symbol): Symbol { s }

  lemma {:induction false} RowsWithIcons(rows: Rows, icon: int -> int, s: Symbol)
    requires forall r :: r in rows && r.sym.Some? ==> r.sym.value.icon == icon(r.sym.value.kind)
    ensures RowBag(Self, rows)[s] == if s.icon == icon(s.kind) then RowBag(Core, rows)[Core(s)] else 0
  {
    if rows != [] {
      RowsWithIcons(rows[1..], icon, s);
      if rows[0].sym.Some? { IconRestored(rows[0].sym.value, s, icon); }
    }
  }

  lemma {:induction false} ItemsWithIcons(items: seq<Item>, icon: int -> int, s: Symbol)
    requires forall it :: it in items ==> it.sym.icon == icon(it.sym.kind)
    ensures ItemBag(Self, items)[s] == if s.icon == icon(s.kind) then ItemBag(Core, items)[Core(s)] else 0
  {
    if items != [] {
      ItemsWithIcons(items[1..], icon, s);
      IconRestored(items[0].sym, s, icon);
    }
  }

  lemma IconRestored(a: Symbol, b: Symbol, icon: int -> int)
    requires a.icon == icon(a.kind)
    ensures a == b <==> b.icon == icon(b.kind) && Core(a) == Core(b)
  {
    if Core(a) == Core(b) {
      assert b.kind == Core(b).kind == a.kind;
      assert a == Core(a).(icon := a.icon) && b == Core(b).(icon := b.icon);
    }
  }

  /** Symbol equality ignores icons, so a row may keep an old one; when icons are a function
      of the kind, as the symbols built from a server's answer have them, the rows hold the
      listed symbols exactly. */
  lemma {:induction false} IconsFollowKinds(rows: Rows, list: seq<Item>, icon: int -> int)
    requires RowBag(Core, rows) == ItemBag(Core, list)
    requires forall r :: r in rows && r.sym.Some? ==> r.sym.value.icon == icon(r.sym.value.kind)
    requires forall it :: it in list ==> it.sym.icon == icon(it.sym.kind)
    ensures RowBag(Self, rows) == ItemBag(Self, list)
  {
    forall s ensures RowBag(Self, rows)[s] == ItemBag(Self, list)[s] {
      RowsWithIcons(rows, icon, s);
      ItemsWithIcons(list, icon, s);
    }
  }
}
