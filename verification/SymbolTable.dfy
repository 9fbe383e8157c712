/** The lookup table of the first reconciliation pass: bucket key to tree of lines to
    the list links that hold matching symbols. */
module SymbolTables {
  import opened Wrappers
  import opened Symbols
  import opened LineTree

  /** A link of the symbol list; `link` is its identity, two links never share it. */
  datatype Item = Item(link: nat, sym: Symbol)

  type Table = map<Key, Tree<seq<Item>>>

  /** The symbols listed for a bucket and line, the most recently inserted first. */
  function Bucket(t: Table, k: Key, line: int): seq<Item> {
    if k in t && Get(t[k], line).Some? then Get(t[k], line).value else []
  }

  ghost predicate Has(t: Table, it: Item) {
    it in Bucket(t, KeyOf(it.sym), it.sym.line)
  }

  ghost predicate Distinct(s: seq<Item>) {
    forall i, j :: 0 <= i < j < |s| ==> s[i] != s[j]
  }

  ghost predicate ValidTree(k: Key, t: Tree<seq<Item>>) {
    && Bst(t)
    && forall line :: line in Keys(t) ==> Get(t, line).Some? && ValidBucket(k, line, Get(t, line).value)
  }

  ghost predicate ValidBucket(k: Key, line: int, b: seq<Item>) {
    && b != [] && Distinct(b)
    && forall it :: it in b ==> KeyOf(it.sym) == k && it.sym.line == line
  }

  ghost predicate ValidTable(t: Table) {
    forall k :: k in t ==> ValidTree(k, t[k])
  }

  lemma BucketIsValid(t: Table, k: Key, line: int)
    requires ValidTable(t) && k in t
    ensures Get(t[k], line).Some? <==> line in Keys(t[k])
    ensures Bucket(t, k, line) != [] ==> ValidBucket(k, line, Bucket(t, k, line))
  {
    GetIffKey(t[k], line);
  }

  /** A tree that is as before except at one line is valid if its bucket there is. */
  lemma ChangedTreeIsValid(k: Key, before: Tree<seq<Item>>, after: Tree<seq<Item>>, line: int)
    requires ValidTree(k, before) && Bst(after)
    requires forall l :: l in Keys(after) && l != line ==> l in Keys(before)
    requires forall l :: l != line ==> Get(after, l) == Get(before, l)
    requires line in Keys(after) ==> Get(after, line).Some? && ValidBucket(k, line, Get(after, line).value)
    ensures ValidTree(k, after)
  {
    forall l | l in Keys(after) ensures Get(after, l).Some? && ValidBucket(k, l, Get(after, l).value) {
      if l != line { assert l in Keys(before); }
    }
  }

  /** Then the table has what it had elsewhere, and the new bucket. */
  lemma ChangedBucket(t: Table, k: Key, after: Tree<seq<Item>>, line: int, list: seq<Item>, x: Item)
    requires forall l :: l != line ==> Get(after, l) == if k in t then Get(t[k], l) else None
    requires list == if Get(after, line).Some? then Get(after, line).value else []
    ensures Has(t[k := after], x) <==> if KeyOf(x.sym) == k && x.sym.line == line then x in list else Has(t, x)
  {
  }

  /** A bucket without one of its items. */
  lemma ShorterBucket(k: Key, line: int, list: seq<Item>, i: nat, rest: seq<Item>)
    requires ValidBucket(k, line, list) && i < |list| && rest == list[..i] + list[i + 1..]
    ensures forall x :: x in rest <==> x in list && x != list[i]
    ensures rest != [] ==> ValidBucket(k, line, rest)
  {
    forall m, n | 0 <= m < n < |rest| ensures rest[m] != rest[n] {
      assert rest[m] == list[if m < i then m else m + 1] && rest[n] == list[if n < i then n else n + 1];
    }
    forall x | x in list && x != list[i] ensures x in rest {
      var m :| 0 <= m < |list| && list[m] == x;
      assert rest[if m < i then m else m - 1] == x;
    }
    forall m | 0 <= m < |rest| ensures rest[m] in list && rest[m] != list[i] {
      assert rest[m] == list[if m < i then m else m + 1];
    }
  }

  class SymbolTable {
    var table: Table

    ghost predicate Valid()
      reads this
    {
      ValidTable(table)
    }

    constructor ()
      ensures Valid() && forall it :: !Has(table, it)
    {
      table := map[];
    }

    /** Links with equal buckets and lines are kept together, not overwritten. */
    method Insert(it: Item)
      requires Valid() && !Has(table, it)
      modifies this
      ensures Valid()
      ensures forall x :: Has(table, x) <==> old(Has(table, x)) || x == it
    {
      var k := KeyOf(it.sym);
      var tree := if k in table then table[k] else Leaf;
      var found := Get(tree, it.sym.line);
      var list := if found.Some? then found.value else [];
      if k in table {
        BucketIsValid(table, k, it.sym.line);
      }
      var tree' := LineTree.Insert(tree, it.sym.line, [it] + list);
      ChangedTreeIsValid(k, tree, tree', it.sym.line);
      forall x ensures Has(table[k := tree'], x) <==> Has(table, x) || x == it {
        ChangedBucket(table, k, tree', it.sym.line, [it] + list, x);
      }
      table := table[k := tree'];
    }

    /** An item of the same bucket, on a line as near to the symbol's line as any. */
    method Lookup(sym: Symbol) returns (r: Option<Item>)
      requires Valid()
      ensures r.None? ==> forall it :: Has(table, it) ==> KeyOf(it.sym) != KeyOf(sym)
      ensures r.Some? ==> Has(table, r.value) && KeyOf(r.value.sym) == KeyOf(sym)
      ensures r.Some? ==> forall it :: Has(table, it) && KeyOf(it.sym) == KeyOf(sym) ==>
        Abs(sym.line - r.value.sym.line) <= Abs(sym.line - it.sym.line)
    {
      var k := KeyOf(sym);
      if k !in table {
        return None;
      }
      var line := Search(table[k], sym.line, false);
      forall it | Has(table, it) && KeyOf(it.sym) == k
        ensures it.sym.line in Keys(table[k])
      {
        GetIffKey(table[k], it.sym.line);
      }
      BucketIsValid(table, k, line);
      var list := Get(table[k], line);
      if list.Some? {
        assert list.value == Bucket(table, k, line);
        r := Some(list.value[0]);
      } else {
        r := None;
      }
    }

    /** Unlinks exactly this item; a line whose last item goes leaves the tree. */
    method Remove(it: Item)
      requires Valid() && Has(table, it)
      modifies this
      ensures Valid()
      ensures forall x :: Has(table, x) <==> old(Has(table, x)) && x != it
    {
      var k := KeyOf(it.sym);
      var line := it.sym.line;
      var tree := table[k];
      BucketIsValid(table, k, line);
      var list := Get(tree, line).value;
      var i := 0;
      while list[i] != it
        invariant 0 <= i < |list| && it !in list[..i]
        decreases |list| - i
      {
        i := i + 1;
      }
      var list' := list[..i] + list[i + 1..];
      ShorterBucket(k, line, list, i, list');
      var tree';
      if list' == [] {
        tree' := LineTree.Remove(tree, line);
      } else {
        tree' := LineTree.Insert(tree, line, list');
      }
      ChangedTreeIsValid(k, tree, tree', line);
      forall x ensures Has(table[k := tree'], x) <==> Has(table, x) && x != it {
        ChangedBucket(table, k, tree', line, list', x);
      }
      table := table[k := tree'];
    }
  }
}
