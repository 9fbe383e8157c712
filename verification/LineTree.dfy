/** GTree as a binary search tree of any shape, keyed by line number, and the
    search callback of lsp-symbol-tree.c that walks it towards the nearest line. */
module LineTree {
  import opened Wrappers

  datatype Tree<V> = Leaf | Node(left: Tree<V>, key: int, value: V, right: Tree<V>)

  /** "No line found yet"; line numbers themselves are never negative. */
  const UNSET := -1

  function Abs(x: int): nat { if x < 0 then -x else x }

  ghost function Keys<V>(t: Tree<V>): set<int> {
    match t
    case Leaf => {}
    case Node(l, k, _, r) => Keys(l) + {k} + Keys(r)
  }

  ghost predicate Bst<V>(t: Tree<V>) {
    match t
    case Leaf => true
    case Node(l, k, _, r) =>
      && Bst(l) && Bst(r)
      && 0 <= k
      && (forall x :: x in Keys(l) ==> x < k)
      && (forall x :: x in Keys(r) ==> k < x)
  }

  /** What the tree maps a line to; this is all that its users can observe. */
  function Get<V>(t: Tree<V>, k: int): Option<V> {
    match t
    case Leaf => None
    case Node(l, key, v, r) =>
      if k < key then Get(l, k) else if key < k then Get(r, k) else Some(v)
  }

  ghost predicate Same<V>(t: Tree<V>, m: map<int, V>) {
    && Keys(t) == m.Keys
    && forall k :: k in m ==> Get(t, k) == Some(m[k])
  }

  lemma {:induction false} GetIffKey<V>(t: Tree<V>, k: int)
    requires Bst(t)
    ensures Get(t, k).Some? <==> k in Keys(t)
  {
    match t
    case Leaf =>
    case Node(l, key, v, r) =>
      GetIffKey(l, k);
      GetIffKey(r, k);
  }

  /** Insert or replace. GTree rebalances in ways that are not part of this model:
      the contract fixes the contents only, so every user of it is proved for any shape. */
  method Insert<V>(t: Tree<V>, k: int, v: V) returns (t': Tree<V>)
    requires Bst(t) && 0 <= k
    ensures Bst(t')
    ensures Keys(t') == Keys(t) + {k}
    ensures Get(t', k) == Some(v)
    ensures forall x :: x != k ==> Get(t', x) == Get(t, x)
  {
    match t
    case Leaf => t' := Node(Leaf, k, v, Leaf);
    case Node(l, key, w, r) =>
      if k < key {
        var l' := Insert(l, k, v);
        t' := Node(l', key, w, r);
      } else if key < k {
        var r' := Insert(r, k, v);
        t' := Node(l, key, w, r');
      } else {
        t' := Node(l, k, v, r);
      }
  }

  method Remove<V>(t: Tree<V>, k: int) returns (t': Tree<V>)
    requires Bst(t)
    ensures Bst(t')
    ensures Keys(t') == Keys(t) - {k}
    ensures Get(t', k) == None
    ensures forall x :: x != k ==> Get(t', x) == Get(t, x)
  {
    match t
    case Leaf => t' := Leaf;
    case Node(l, key, w, r) =>
      GetIffKey(l, k);
      GetIffKey(r, k);
      if k < key {
        var l' := Remove(l, k);
        t' := Node(l', key, w, r);
      } else if key < k {
        var r' := Remove(r, k);
        t' := Node(l, key, w, r');
      } else {
        t' := Join(l, key, r);
      }
  }

  method Join<V>(l: Tree<V>, key: int, r: Tree<V>) returns (t: Tree<V>)
    requires Bst(l) && Bst(r) && 0 <= key
    requires forall x :: x in Keys(l) ==> x < key
    requires forall x :: x in Keys(r) ==> key < x
    ensures Bst(t)
    ensures Keys(t) == Keys(l) + Keys(r)
    ensures Get(t, key) == None
    ensures forall x :: x < key ==> Get(t, x) == Get(l, x)
    ensures forall x :: key < x ==> Get(t, x) == Get(r, x)
    decreases l
  {
    match l
    case Leaf =>
      t := r;
      GetIffKey(r, key);
      forall x | x < key ensures Get(t, x) == None { GetIffKey(r, x); }
    case Node(ll, k, v, lr) =>
      assert k in Keys(l) && Keys(lr) <= Keys(l) && Keys(ll) <= Keys(l);
      var right := Join(lr, key, r);
      t := Node(ll, k, v, right);
      forall x | key < x ensures Get(t, x) == Get(r, x) { assert k < x; }
  }

  /** One call of the search callback: the line to remember and the direction to go. */
  function TreeSearchFunc(key: int, found: int, line: int, lower: bool): (int, int) {
    var found0 := if found == UNSET then key else found;
    var newNearest := Abs(line - key) < Abs(line - found0);
    if key > line then
      (if newNearest && !lower then key else found0, -1)
    else
      (if newNearest then key else found0, if key < line then 1 else 0)
  }

  /** The keys passed by so far: those outside the subtree still to be searched, or all. */
  ghost predicate Passed<V>(k: int, t: Tree<V>, node: Tree<V>, stop: bool) {
    k in Keys(t) && (k !in Keys(node) || stop)
  }

  /** Without `lower`: no key passed by is nearer. */
  ghost predicate NearestSoFar<V>(t: Tree<V>, node: Tree<V>, stop: bool, line: int, found: int) {
    forall k :: Passed(k, t, node, stop) ==> Abs(line - found) <= Abs(line - k)
  }

  /** With `lower`: the root, or a strictly nearer key not above the line; no key passed by and
      not above the line is nearer. */
  ghost predicate LowerSoFar<V>(t: Tree<V>, node: Tree<V>, stop: bool, line: int, found: int)
    requires t.Node?
  {
    && (found == t.key || (found <= line && line - found < Abs(line - t.key)))
    && forall k :: Passed(k, t, node, stop) && k <= line ==> Abs(line - found) <= line - k
  }

  ghost predicate SoFar<V>(t: Tree<V>, node: Tree<V>, stop: bool, line: int, lower: bool, found: int)
    requires t.Node?
  {
    found in Keys(t) && (if lower then LowerSoFar(t, node, stop, line, found) else NearestSoFar(t, node, stop, line, found))
  }

  /** Where the walk goes on. */
  function Onwards<V>(node: Tree<V>, cmp: int): Tree<V>
    requires node.Node?
  {
    if cmp < 0 then node.left else if cmp > 0 then node.right else node
  }

  /** What is passed by in one turn lies on the far side of the key. */
  lemma PassedByTurn<V>(t: Tree<V>, node: Tree<V>, cmp: int, next: Tree<V>, stop: bool, k: int)
    requires Bst(node) && node.Node? && next == Onwards(node, cmp) && stop == (cmp == 0)
    requires Passed(k, t, next, stop)
    ensures Passed(k, t, node, false) || (cmp < 0 && node.key <= k) || (cmp > 0 && k <= node.key) || cmp == 0
  {
    assert k in Keys(node) <==> k in Keys(node.left) || k == node.key || k in Keys(node.right);
  }

  lemma FirstTurn<V>(t: Tree<V>, line: int, lower: bool, found: int, cmp: int, next: Tree<V>, stop: bool)
    requires Bst(t) && t.Node? && (found, cmp) == TreeSearchFunc(t.key, UNSET, line, lower)
    requires next == Onwards(t, cmp) && stop == (cmp == 0)
    ensures SoFar(t, next, stop, line, lower, found)
  {
    assert found == t.key && t.key in Keys(t);
    forall k | Passed(k, t, next, stop)
      ensures !lower ==> Abs(line - found) <= Abs(line - k)
      ensures lower && k <= line ==> Abs(line - found) <= line - k
    {
      PassedByTurn(t, t, cmp, next, stop, k);
    }
  }

  lemma LaterTurn<V>(t: Tree<V>, node: Tree<V>, line: int, lower: bool, before: int, found: int, cmp: int, next: Tree<V>, stop: bool)
    requires t.Node? && Bst(node) && node.Node? && Keys(node) <= Keys(t)
    requires before != UNSET && SoFar(t, node, false, line, lower, before)
    requires (found, cmp) == TreeSearchFunc(node.key, before, line, lower)
    requires next == Onwards(node, cmp) && stop == (cmp == 0)
    ensures SoFar(t, next, stop, line, lower, found)
  {
    assert node.key in Keys(node);
    forall k | Passed(k, t, next, stop)
      ensures !lower ==> Abs(line - found) <= Abs(line - k)
      ensures lower && k <= line ==> Abs(line - found) <= line - k
    {
      PassedByTurn(t, node, cmp, next, stop, k);
    }
  }

  lemma KeysAreNotUnset<V>(t: Tree<V>)
    requires Bst(t)
    ensures UNSET !in Keys(t)
  {
  }

  /** The walk of g_tree_search driven by the callback. With `lower` false it ends on a
      nearest key whatever the shape of the tree. With `lower` true it ends on the greatest
      key not above the line when that key is strictly nearer than the root, and on the
      root otherwise, even if the root is above the line. */
  method Search<V>(t: Tree<V>, line: int, lower: bool) returns (found: int)
    requires Bst(t)
    ensures t == Leaf ==> found == UNSET
    ensures t != Leaf ==> found in Keys(t)
    ensures t != Leaf && !lower ==> forall k :: k in Keys(t) ==> Abs(line - found) <= Abs(line - k)
    ensures t != Leaf && lower ==> LowerResult(t, line, found)
  {
    found := UNSET;
    var node := t;
    var stop := false;
    KeysAreNotUnset(t);
    while node.Node? && !stop
      invariant Bst(node) && Keys(node) <= Keys(t)
      invariant found == UNSET ==> node == t && !stop
      invariant found != UNSET ==> t.Node? && SoFar(t, node, stop, line, lower, found)
      decreases node, !stop
    {
      var (nearest, cmp) := TreeSearchFunc(node.key, found, line, lower);
      if found == UNSET {
        FirstTurn(t, line, lower, nearest, cmp, Onwards(node, cmp), cmp == 0);
      } else {
        LaterTurn(t, node, line, lower, found, nearest, cmp, Onwards(node, cmp), cmp == 0);
      }
      found := nearest;
      if cmp == 0 {
        stop := true;
      } else if cmp < 0 {
        node := node.left;
      } else {
        node := node.right;
      }
    }
    assert t.Node? ==> forall k :: k in Keys(t) ==> Passed(k, t, node, stop);
  }

  /** What the search with `lower` set returns: it never passes over a strictly nearer
      lower key, but it keeps the root when no lower key is strictly nearer. */
  ghost predicate LowerResult<V>(t: Tree<V>, line: int, found: int)
    requires t.Node?
  {
    && (found == t.key || (found <= line && line - found < Abs(line - t.key)))
    && forall k :: k in Keys(t) && k <= line ==> Abs(line - found) <= line - k
  }

  /** The documented intent of the search with `lower` set: the nearest key not above the line. */
  ghost predicate Floor<V>(t: Tree<V>, line: int, found: int) {
    found in Keys(t) && found <= line && forall k :: k in Keys(t) && k <= line ==> k <= found
  }

  /** The search with `lower` meets its documented intent exactly when the root is not
      above the line, or some key not above the line is strictly nearer than the root. */
  lemma LowerMeetsIntentIff<V>(t: Tree<V>, line: int, found: int)
    requires t.Node? && found in Keys(t)
    requires LowerResult(t, line, found)
    ensures Floor(t, line, found) <==>
      (t.key <= line || exists k :: k in Keys(t) && k <= line && line - k < Abs(line - t.key))
  {
    if t.key <= line {
      assert t.key in Keys(t);
    }
  }

  /** A parent below the wanted line exists, yet a later line is chosen. */
  lemma LowerCanReturnALaterLine()
    ensures
      var t := Node(Node(Leaf, 3, 0, Leaf), 10, 1, Leaf);
      && Bst(t)
      && (forall found :: found in Keys(t) && LowerResult(t, 8, found) ==> found == 10)
      && Floor(t, 8, 3)
  {
    var l := Node(Leaf, 3, 0, Leaf);
    assert Keys(l) == {3};
    var t := Node(l, 10, 1, Leaf);
    assert Keys(t) == {3, 10};
    assert Bst(l);
  }
}
