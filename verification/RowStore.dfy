/** GtkTreeStore as an ordered forest: the rows in pre-order, each with its depth. The
    rows that follow a row and lie deeper, up to the first that does not, are its
    descendants, so removing a row removes a contiguous stretch. */
module RowStore {
  import opened Wrappers
  import opened Symbols

  /** `id` is the row's identity: a handle to a row stays good until the row is removed. */
  datatype Row = Row(id: nat, depth: nat, sym: Option<Symbol>)

  type Rows = seq<Row>

  /** A sequence of depths lists a forest in pre-order when it starts at the top level
      and never goes down by more than one level at a time. */
  ghost predicate Forest(rows: Rows) {
    && (rows != [] ==> rows[0].depth == 0)
    && forall i, j :: 0 <= i && i + 1 == j < |rows| ==> rows[j].depth <= rows[i].depth + 1
  }

  ghost predicate DistinctIds(rows: Rows) {
    forall i, j :: 0 <= i < j < |rows| ==> rows[i].id != rows[j].id
  }

  ghost predicate Live(rows: Rows, id: nat) {
    exists i :: 0 <= i < |rows| && rows[i].id == id
  }

  /** The end of a row's subtree: the first later row that is not deeper. */
  function End(rows: Rows, i: nat): (e: nat)
    requires i < |rows|
    ensures i < e <= |rows|
    ensures forall k :: i < k < e ==> rows[i].depth < rows[k].depth
    ensures e < |rows| ==> rows[e].depth <= rows[i].depth
  {
    EndFrom(rows, rows[i].depth, i + 1)
  }

  function EndFrom(rows: Rows, depth: nat, from: nat): (e: nat)
    requires from <= |rows|
    ensures from <= e <= |rows|
    ensures forall k :: from <= k < e ==> depth < rows[k].depth
    ensures e < |rows| ==> rows[e].depth <= depth
    decreases |rows| - from
  {
    if from == |rows| || rows[from].depth <= depth then from else EndFrom(rows, depth, from + 1)
  }

  /** gtk_tree_model_iter_children: the first child, if any. */
  function FirstChild(rows: Rows, i: nat): Option<nat>
    requires i < |rows|
  {
    if i + 1 < |rows| && rows[i].depth < rows[i + 1].depth then Some(i + 1) else None
  }

  /** gtk_tree_model_iter_next: the next row at the same level under the same parent. */
  function NextSibling(rows: Rows, i: nat): Option<nat>
    requires i < |rows|
  {
    var e := End(rows, i);
    if e < |rows| && rows[e].depth == rows[i].depth then Some(e) else None
  }

  /** gtk_tree_model_iter_parent: the nearest earlier row that is less deep. */
  function Parent(rows: Rows, i: nat): (p: Option<nat>)
    requires i < |rows|
    ensures p.Some? ==> p.value < i && rows[p.value].depth < rows[i].depth
    ensures p.Some? ==> forall k :: p.value < k < i ==> rows[i].depth <= rows[k].depth
    ensures p.None? ==> forall k :: 0 <= k < i ==> rows[i].depth <= rows[k].depth
  {
    ParentBefore(rows, rows[i].depth, i)
  }

  function ParentBefore(rows: Rows, depth: nat, before: nat): (p: Option<nat>)
    requires before <= |rows|
    ensures p.Some? ==> p.value < before && rows[p.value].depth < depth
    ensures p.Some? ==> forall k :: p.value < k < before ==> depth <= rows[k].depth
    ensures p.None? ==> forall k :: 0 <= k < before ==> depth <= rows[k].depth
  {
    if before == 0 then None
    else if rows[before - 1].depth < depth then Some(before - 1)
    else ParentBefore(rows, depth, before - 1)
  }

  /** In a forest a parent is exactly one level up, and only top-level rows have none. */
  lemma {:induction false} ParentIsOneLevelUp(rows: Rows, i: nat)
    requires Forest(rows) && i < |rows|
    ensures Parent(rows, i).None? <==> rows[i].depth == 0
    ensures Parent(rows, i).Some? ==> rows[Parent(rows, i).value].depth + 1 == rows[i].depth
  {
    var p := Parent(rows, i);
    if p.Some? {
      assert rows[p.value + 1].depth <= rows[p.value].depth + 1;
    }
  }

  /** A row without a next sibling ends where its parent ends. */
  lemma {:induction false} LastChildEndsWithParent(rows: Rows, i: nat)
    requires Forest(rows) && i < |rows|
    requires NextSibling(rows, i).None?
    ensures Parent(rows, i).Some? ==> End(rows, Parent(rows, i).value) == End(rows, i)
    ensures Parent(rows, i).None? ==> End(rows, i) == |rows|
  {
    ParentIsOneLevelUp(rows, i);
    var e := End(rows, i);
    var p := Parent(rows, i);
    if p.Some? {
      var f := End(rows, p.value);
      assert forall k :: p.value < k < e ==> rows[p.value].depth < rows[k].depth;
      assert f >= e;
    }
  }

  /** Moves an iterator to the following row: down into the children if asked to, else to
      the next sibling, else to the next sibling of the nearest ancestor that has one.
      Together these are the next row in pre-order, over the row's descendants if not `down`. */
  method AnyNext(rows: Rows, i: nat, down: bool) returns (next: Option<nat>)
    requires Forest(rows) && i < |rows|
    ensures next == var e := if down then i + 1 else End(rows, i);
                    if e < |rows| then Some(e) else None
  {
    var child := FirstChild(rows, i);
    if down && child.Some? {
      return child;
    }
    var sibling := NextSibling(rows, i);
    if sibling.Some? {
      return sibling;
    }
    LastChildEndsWithParent(rows, i);
    var guess := Parent(rows, i);
    while guess.Some?
      invariant guess.Some? ==> 0 <= guess.value < i && End(rows, guess.value) == End(rows, i)
      invariant guess.None? ==> End(rows, i) == |rows|
      decreases guess.Some?, if guess.Some? then guess.value else 0
    {
      sibling := NextSibling(rows, guess.value);
      if sibling.Some? {
        return sibling;
      }
      LastChildEndsWithParent(rows, guess.value);
      guess := Parent(rows, guess.value);
    }
    next := None;
  }

  /** The rows without row `i` and its descendants. */
  function Without(rows: Rows, i: nat): Rows
    requires i < |rows|
  {
    rows[..i] + rows[End(rows, i)..]
  }

  lemma WithoutIsForest(rows: Rows, i: nat)
    requires Forest(rows) && i < |rows|
    ensures Forest(Without(rows, i))
    ensures DistinctIds(rows) ==> DistinctIds(Without(rows, i))
  {
    var e := End(rows, i);
    var w := Without(rows, i);
    if e < |rows| && 0 < i {
      assert w[i] == rows[e] && w[i - 1] == rows[i - 1];
    }
    forall k | i < k < |w| ensures w[k].depth <= w[k - 1].depth + 1 {
      assert w[k] == rows[k - i + e] && w[k - 1] == rows[k - 1 - i + e];
    }
  }

  /** A new first child of a row, or a new first row of the whole forest. */
  function WithFirstChild(rows: Rows, parent: Option<nat>, id: nat, sym: Option<Symbol>): Rows
    requires parent.Some? ==> parent.value < |rows|
  {
    match parent
    case None => [Row(id, 0, sym)] + rows
    case Some(p) => rows[..p + 1] + [Row(id, rows[p].depth + 1, sym)] + rows[p + 1..]
  }

  lemma WithFirstChildIsForest(rows: Rows, parent: Option<nat>, id: nat, sym: Option<Symbol>)
    requires Forest(rows) && (parent.Some? ==> parent.value < |rows|)
    requires DistinctIds(rows) && !Live(rows, id)
    ensures Forest(WithFirstChild(rows, parent, id, sym))
    ensures DistinctIds(WithFirstChild(rows, parent, id, sym))
  {
    var w := WithFirstChild(rows, parent, id, sym);
    var at := if parent.Some? then parent.value + 1 else 0;
    assert forall k :: 0 <= k < at ==> w[k] == rows[k];
    assert forall k :: at < k < |w| ==> w[k] == rows[k - 1];
    forall k | 0 < k < |w| ensures w[k].depth <= w[k - 1].depth + 1 {
      if at + 1 < k { assert w[k] == rows[k - 1] && w[k - 1] == rows[k - 2]; }
    }
    forall k, l | 0 <= k < l < |w| ensures w[k].id != w[l].id {
      if k == at { assert w[l] == rows[l - 1]; }
      if l == at { assert w[k] == rows[k]; }
    }
  }

  function ParentRow(rows: Rows, i: nat): Option<Row>
    requires i < |rows|
  {
    match Parent(rows, i)
    case None => None
    case Some(p) => Some(rows[p])
  }

  /** The three properties in Parent's contract determine it. */
  lemma {:induction false} ParentIsUnique(rows: Rows, i: nat, p: nat)
    requires p < i < |rows| && rows[p].depth < rows[i].depth
    requires forall k :: p < k < i ==> rows[i].depth <= rows[k].depth
    ensures Parent(rows, i) == Some(p)
  {
  }

  lemma EndIsUnique(rows: Rows, i: nat, e: nat)
    requires i < e <= |rows|
    requires forall k :: i < k < e ==> rows[i].depth < rows[k].depth
    requires e < |rows| ==> rows[e].depth <= rows[i].depth
    ensures End(rows, i) == e
  {
  }

  /** `w` is `rows` without the stretch from `i` to `e`. */
  ghost predicate Cut(rows: Rows, w: Rows, i: nat, e: nat) {
    && i <= e <= |rows| && |w| == |rows| - (e - i)
    && (forall m :: 0 <= m < i ==> w[m] == rows[m])
    && (forall m :: i <= m < |w| ==> w[m] == rows[m + (e - i)])
  }

  lemma WithoutIsCut(rows: Rows, i: nat)
    requires i < |rows|
    ensures Cut(rows, Without(rows, i), i, End(rows, i))
  {
  }

  lemma {:induction false} ParentAfterCut(rows: Rows, w: Rows, i: nat, e: nat, k: nat, p: Option<nat>)
    requires Cut(rows, w, i, e) && k < |w|
    requires forall m :: i < m < e ==> rows[i].depth < rows[m].depth
    requires i < e && (e < |rows| ==> rows[e].depth <= rows[i].depth)
    requires p == Parent(rows, if k < i then k else k + (e - i))
    ensures p.None? ==> Parent(w, k) == None
    ensures p.Some? ==> p.value < i || e <= p.value
    ensures p.Some? ==> Parent(w, k) == Some(if p.value < i then p.value else p.value - (e - i))
  {
    var k0 := if k < i then k else k + (e - i);
    if p.Some? {
      var q := if p.value < i then p.value else p.value - (e - i);
      // The parent is not among the removed rows: the row at `e`, at or before `k0`, is not deeper than them.
      assert p.value < i || e <= p.value;
      forall m | q < m < k ensures w[k].depth <= w[m].depth {
        assert w[m] == rows[if m < i then m else m + (e - i)];
      }
      ParentIsUnique(w, k, q);
    } else {
      forall m | 0 <= m < k ensures w[k].depth <= w[m].depth {
        assert w[m] == rows[if m < i then m else m + (e - i)];
      }
    }
  }

  /** The subtree a row was last in now ends where the row was. */
  lemma EndAfterCut(rows: Rows, w: Rows, i: nat, e: nat, p: nat)
    requires Cut(rows, w, i, e) && p < i < e
    requires e == End(rows, p)
    ensures End(w, p) == i
  {
    EndIsUnique(w, p, i);
  }

  /** Removing a subtree leaves every remaining row under the row it was under. */
  lemma {:induction false} ParentAfterRemoval(rows: Rows, i: nat, k: nat)
    requires i < |rows| && k < |Without(rows, i)|
    ensures
      var k0 := if k < i then k else k - i + End(rows, i);
      && Without(rows, i)[k] == rows[k0]
      && ParentRow(Without(rows, i), k) == ParentRow(rows, k0)
  {
    var e := End(rows, i);
    var k0 := if k < i then k else k + (e - i);
    WithoutIsCut(rows, i);
    ParentAfterCut(rows, Without(rows, i), i, e, k, Parent(rows, k0));
  }

  function InsertionPoint(parent: Option<nat>): nat {
    if parent.Some? then parent.value + 1 else 0
  }

  /** `w` is `rows` with one more row at `at`. */
  ghost predicate Spliced(rows: Rows, w: Rows, at: nat) {
    && at <= |rows| && |w| == |rows| + 1
    && (forall m :: 0 <= m < at ==> w[m] == rows[m])
    && (forall m :: at <= m < |rows| ==> w[m + 1] == rows[m])
  }

  lemma WithFirstChildIsSpliced(rows: Rows, parent: Option<nat>, id: nat, sym: Option<Symbol>)
    requires parent.Some? ==> parent.value < |rows|
    ensures
      var w := WithFirstChild(rows, parent, id, sym);
      var at := InsertionPoint(parent);
      && Spliced(rows, w, at)
      && w[at] == Row(id, if parent.Some? then rows[parent.value].depth + 1 else 0, sym)
  {
    var at := InsertionPoint(parent);
    var row := Row(id, if parent.Some? then rows[parent.value].depth + 1 else 0, sym);
    assert WithFirstChild(rows, parent, id, sym) == rows[..at] + [row] + rows[at..];
    SplicedByConcatenation(rows, at, row);
  }

  lemma SplicedByConcatenation(rows: Rows, at: nat, row: Row)
    requires at <= |rows|
    ensures Spliced(rows, rows[..at] + [row] + rows[at..], at)
    ensures (rows[..at] + [row] + rows[at..])[at] == row
  {
  }

  /** A new first child has the chosen parent. */
  lemma {:induction false} ParentOfInserted(rows: Rows, parent: Option<nat>, id: nat, sym: Option<Symbol>)
    requires parent.Some? ==> parent.value < |rows|
    ensures
      var w := WithFirstChild(rows, parent, id, sym);
      ParentRow(w, InsertionPoint(parent)) == if parent.Some? then Some(rows[parent.value]) else None
  {
    var w := WithFirstChild(rows, parent, id, sym);
    WithFirstChildIsSpliced(rows, parent, id, sym);
    if parent.Some? { ParentIsUnique(w, parent.value + 1, parent.value); }
  }

  lemma {:induction false} ParentAfterSplice(rows: Rows, w: Rows, at: nat, k0: nat, p: Option<nat>)
    requires Spliced(rows, w, at) && k0 < |rows|
    requires at < |rows| ==> rows[at].depth <= w[at].depth
    requires p == Parent(rows, k0)
    requires p.None? ==> rows[k0].depth == 0
    ensures
      var k := if k0 < at then k0 else k0 + 1;
      Parent(w, k) == if p.None? then None else Some(if p.value < at then p.value else p.value + 1)
  {
    var k := if k0 < at then k0 else k0 + 1;
    if p.Some? {
      var q := if p.value < at then p.value else p.value + 1;
      forall m | q < m < k ensures w[k].depth <= w[m].depth {
        if m == at {
          // The row that followed the insertion point is not deeper than the new one, so neither is row k.
          assert rows[k0].depth <= rows[at].depth;
        } else {
          assert w[m] == rows[if m < at then m else m - 1];
        }
      }
      ParentIsUnique(w, k, q);
    }
  }

  lemma ParentRowAfterSplice(rows: Rows, w: Rows, at: nat, k0: nat, k: nat)
    requires Forest(rows) && Spliced(rows, w, at) && k0 < |rows| && k == if k0 < at then k0 else k0 + 1
    requires at < |rows| ==> rows[at].depth <= w[at].depth
    ensures w[k] == rows[k0] && ParentRow(w, k) == ParentRow(rows, k0)
  {
    ParentIsOneLevelUp(rows, k0);
    ParentAfterSplice(rows, w, at, k0, Parent(rows, k0));
  }

  /** A new first child moves no other row to another parent. */
  lemma ParentAfterInsertion(rows: Rows, parent: Option<nat>, id: nat, sym: Option<Symbol>, k0: nat)
    requires Forest(rows) && (parent.Some? ==> parent.value < |rows|)
    requires k0 < |rows|
    ensures
      var w := WithFirstChild(rows, parent, id, sym);
      var k := if k0 < InsertionPoint(parent) then k0 else k0 + 1;
      k < |w| && w[k] == rows[k0] && ParentRow(w, k) == ParentRow(rows, k0)
  {
    var at := InsertionPoint(parent);
    WithFirstChildIsSpliced(rows, parent, id, sym);
    ParentRowAfterSplice(rows, WithFirstChild(rows, parent, id, sym), at, k0, if k0 < at then k0 else k0 + 1);
  }

  /** The store itself. Handles to rows are their ids, which are never reused. */
  class TreeStore {
    var rows: Rows
    var nextId: nat

    ghost predicate Valid()
      reads this
    {
      && Forest(rows)
      && DistinctIds(rows)
      && forall i :: 0 <= i < |rows| ==> rows[i].id < nextId
    }

    constructor ()
      ensures Valid() && rows == []
    {
      rows, nextId := [], 0;
    }

    method SetSymbol(i: nat, sym: Symbol)
      requires Valid() && i < |rows|
      modifies this`rows
      ensures Valid()
      ensures rows == old(rows)[i := old(rows)[i].(sym := Some(sym))]
    {
      rows := rows[i := rows[i].(sym := Some(sym))];
    }

    /** What is left of a valid store is valid. */
    lemma RemovalKeepsValid(i: nat)
      requires Valid() && i < |rows|
      ensures Forest(Without(rows, i)) && DistinctIds(Without(rows, i))
      ensures forall k :: 0 <= k < |Without(rows, i)| ==> Without(rows, i)[k].id < nextId
    {
      WithoutIsForest(rows, i);
      forall k | 0 <= k < |Without(rows, i)| ensures Without(rows, i)[k] in rows {
      }
    }

    /** Removes a row with everything below it and moves on to the row that followed. */
    method RemoveRow(i: nat) returns (next: Option<nat>)
      requires Valid() && i < |rows|
      modifies this`rows
      ensures Valid()
      ensures rows == Without(old(rows), i)
      ensures next == if i < |rows| then Some(i) else None
    {
      var parent := Parent(rows, i);
      var sibling := NextSibling(rows, i);
      RemovalKeepsValid(i);
      WithoutIsCut(rows, i);
      if sibling.None? {
        LastChildEndsWithParent(rows, i);
      }
      ghost var before := rows;
      rows := Without(rows, i);
      if sibling.Some? {
        next := Some(i);
      } else if parent.Some? {
        EndAfterCut(before, rows, i, End(before, i), parent.value);
        next := AnyNext(rows, parent.value, false);
      } else {
        next := None;
      }
    }

    method InsertFirstChild(parent: Option<nat>, sym: Symbol) returns (id: nat)
      requires Valid() && (parent.Some? ==> parent.value < |rows|)
      modifies this
      ensures Valid()
      ensures id == old(nextId) && nextId == id + 1
      ensures rows == WithFirstChild(old(rows), parent, id, Some(sym))
    {
      id := nextId;
      WithFirstChildIsForest(rows, parent, id, Some(sym));
      rows := WithFirstChild(rows, parent, id, Some(sym));
      nextId := nextId + 1;
    }
  }
}
