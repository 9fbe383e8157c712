/** What a forest of rows and a list of symbols hold, as bags, and which rows of the symbol tree
    stay when it is brought in line with a new list (update_symbols of lsp-symbol-tree.c). */
module Survival {
  import opened Wrappers
  import opened Symbols
  import opened SymbolTables
  import opened RowStore

  // ----- what a forest of rows and a list of links hold -----

  /** The bag of symbols of the rows, each seen through `f`; rows without a symbol do not count. */
  ghost function RowBag<T>(f: Symbol -> T, rows: Rows): multiset<T> {
    if rows == [] then multiset{}
    else SymBag(f, rows[0].sym) + RowBag(f, rows[1..])
  }

  ghost function SymBag<T>(f: Symbol -> T, s: Option<Symbol>): multiset<T> {
    if s.Some? then multiset{f(s.value)} else multiset{}
  }

  ghost function ItemBag<T>(f: Symbol -> T, items: seq<Item>): multiset<T> {
    if items == [] then multiset{} else multiset{f(items[0].sym)} + ItemBag(f, items[1..])
  }

  lemma {:induction false} RowBagAppend<T>(f: Symbol -> T, a: Rows, b: Rows)
    ensures RowBag(f, a + b) == RowBag(f, a) + RowBag(f, b)
  {
    if a == [] {
      assert a + b == b;
    } else {
      assert (a + b)[1..] == a[1..] + b;
      RowBagAppend(f, a[1..], b);
    }
  }

  lemma {:induction false} ItemBagAppend<T>(f: Symbol -> T, a: seq<Item>, b: seq<Item>)
    ensures ItemBag(f, a + b) == ItemBag(f, a) + ItemBag(f, b)
  {
    if a == [] {
      assert a + b == b;
    } else {
      assert (a + b)[1..] == a[1..] + b;
      ItemBagAppend(f, a[1..], b);
    }
  }

  lemma {:induction false} ItemBagHas<T>(f: Symbol -> T, items: seq<Item>, x: T)
    requires x in ItemBag(f, items)
    ensures exists it :: it in items && f(it.sym) == x
  {
    if f(items[0].sym) == x {
      assert items[0] in items;
    } else {
      ItemBagHas(f, items[1..], x);
      var it :| it in items[1..] && f(it.sym) == x;
      assert it in items;
    }
  }

  lemma {:induction false} RowBagInsert<T>(f: Symbol -> T, rows: Rows, parent: Option<nat>, id: nat, sym: Symbol)
    requires parent.Some? ==> parent.value < |rows|
    ensures RowBag(f, WithFirstChild(rows, parent, id, Some(sym))) == RowBag(f, rows) + multiset{f(sym)}
  {
    var at := InsertionPoint(parent);
    var depth := if parent.Some? then rows[parent.value].depth + 1 else 0;
    var added := [Row(id, depth, Some(sym))];
    assert WithFirstChild(rows, parent, id, Some(sym)) == rows[..at] + (added + rows[at..]);
    assert rows == rows[..at] + rows[at..];
    RowBagAppend(f, rows[..at], added + rows[at..]);
    RowBagAppend(f, added, rows[at..]);
    RowBagAppend(f, rows[..at], rows[at..]);
    assert added[1..] == [];
  }

  ghost predicate SameEntry(a: Option<Symbol>, b: Option<Symbol>) {
    (a.None? && b.None?) || (a.Some? && b.Some? && KeyOf(a.value) == KeyOf(b.value))
  }

  // ----- which rows stay -----

  /** Row `k` stays if its parent does and one of the listed links of its entry is left for
      it: the rows of one entry are served in tree order. Rows without a symbol need no link. */
  ghost predicate Survives(start: Rows, keys: multiset<Key>, k: nat)
    requires k < |start|
    decreases k, 1
  {
    && (Parent(start, k).Some? ==> Survives(start, keys, Parent(start, k).value))
    && (start[k].sym.Some? ==> Served(start, keys, k, KeyOf(start[k].sym.value)) < keys[KeyOf(start[k].sym.value)])
  }

  /** The rows of an entry, among the first `n`, that stay. */
  ghost function Served(start: Rows, keys: multiset<Key>, n: nat, key: Key): nat
    requires n <= |start|
    decreases n, 0
  {
    if n == 0 then 0
    else
      Served(start, keys, n - 1, key) + (if HasKey(start[n - 1], key) && Survives(start, keys, n - 1) then 1 else 0)
  }

  predicate HasKey(r: Row, key: Key) {
    r.sym.Some? && KeyOf(r.sym.value) == key
  }

  /** The first `n` rows have been dealt with: those that stay are the rows `done`, and the
      others are gone with all that was below them. */
  ghost predicate Sieved(start: Rows, keys: multiset<Key>, n: nat, done: Rows) {
    && n <= |start|
    && (forall k :: 0 <= k < n ==> StaysLive(start, keys, k, done))
    && (forall k :: 0 <= k < n && !Survives(start, keys, k) ==> End(start, k) <= n)
    && ComeFrom(start, n, done)
    && (forall key :: Served(start, keys, n, key) == RowBag(KeyOf, done)[key])
  }

  ghost predicate ComeFrom(start: Rows, n: nat, done: Rows)
    requires n <= |start|
  {
    forall r :: r in done ==> exists k :: 0 <= k < n && start[k].id == r.id
  }

  lemma NothingSieved(start: Rows, keys: multiset<Key>)
    ensures Sieved(start, keys, 0, [])
  {
  }

  /** A row lies within the subtree of its parent. */
  lemma InParentsSubtree(rows: Rows, n: nat)
    requires n < |rows|
    ensures Parent(rows, n).Some? ==> n < End(rows, Parent(rows, n).value)
  {
    var p := Parent(rows, n);
    if p.Some? {
      assert forall k :: p.value < k <= n ==> rows[p.value].depth < rows[k].depth;
    }
  }

  /** The parent of the next row has not been removed. */
  lemma NextHasItsParent(start: Rows, keys: multiset<Key>, n: nat, done: Rows)
    requires Sieved(start, keys, n, done) && n < |start|
    ensures Parent(start, n).Some? ==> Survives(start, keys, Parent(start, n).value)
  {
    InParentsSubtree(start, n);
  }

  lemma LiveWithOneMore(done: Rows, more: Rows, r: Row, id: nat)
    requires more == done + [r]
    ensures Live(more, id) <==> Live(done, id) || r.id == id
  {
    if Live(done, id) {
      var i :| 0 <= i < |done| && done[i].id == id;
      assert more[i].id == id;
    }
    assert more[|done|] == r;
    if Live(more, id) {
      var i :| 0 <= i < |more| && more[i].id == id;
      assert i < |done| ==> done[i].id == id;
    }
  }

  lemma NotYetLive(start: Rows, keys: multiset<Key>, n: nat, done: Rows, k: nat)
    requires Sieved(start, keys, n, done) && n <= k < |start| && DistinctIds(start)
    ensures !Live(done, start[k].id)
  {
    forall i | 0 <= i < |done| ensures done[i].id != start[k].id {
      assert done[i] in done;
      var j :| 0 <= j < n && start[j].id == done[i].id;
    }
  }

  ghost predicate StaysLive(start: Rows, keys: multiset<Key>, k: nat, done: Rows)
    requires k < |start|
  {
    Survives(start, keys, k) <==> Live(done, start[k].id)
  }

  lemma OneMoreStays(start: Rows, keys: multiset<Key>, n: nat, done: Rows, r: Row, more: Rows, k: nat)
    requires Sieved(start, keys, n, done) && k <= n < |start| && DistinctIds(start)
    requires r.id == start[n].id && more == done + [r] && Survives(start, keys, n)
    ensures StaysLive(start, keys, k, more)
  {
    LiveWithOneMore(done, more, r, start[k].id);
    if k < n { assert StaysLive(start, keys, k, done); }
  }

  lemma OneMoreComesFrom(start: Rows, n: nat, next: nat, done: Rows, r: Row, more: Rows)
    requires n < |start| && ComeFrom(start, n, done) && next == n + 1 && r.id == start[n].id && more == done + [r]
    ensures ComeFrom(start, next, more)
  {
    forall x | x in more ensures exists k :: 0 <= k < next && start[k].id == x.id {
      if x in done {
        var k :| 0 <= k < n && start[k].id == x.id;
      } else {
        assert start[n].id == x.id;
      }
    }
  }

  lemma OneMoreServed(start: Rows, keys: multiset<Key>, n: nat, next: nat, done: Rows, r: Row, key: Key)
    requires n < |start| && next == n + 1 && Survives(start, keys, n) && SameEntry(r.sym, start[n].sym)
    requires Served(start, keys, n, key) == RowBag(KeyOf, done)[key]
    ensures Served(start, keys, next, key) == RowBag(KeyOf, done + [r])[key]
  {
    OneMoreInBag(done, r, key);
  }

  lemma OneMoreInBag(done: Rows, r: Row, key: Key)
    ensures RowBag(KeyOf, done + [r])[key] == RowBag(KeyOf, done)[key] + (if HasKey(r, key) then 1 else 0)
  {
    assert [r][1..] == [];
    RowBagAppend(KeyOf, done, [r]);
  }

  /** One row more stays. */
  lemma SieveKeeps(start: Rows, keys: multiset<Key>, n: nat, next: nat, done: Rows, r: Row)
    requires Sieved(start, keys, n, done) && n < |start| && next == n + 1 && DistinctIds(start)
    requires r.id == start[n].id && SameEntry(r.sym, start[n].sym)
    requires Survives(start, keys, n)
    ensures Sieved(start, keys, next, done + [r])
  {
    forall k | 0 <= k < next ensures StaysLive(start, keys, k, done + [r]) { OneMoreStays(start, keys, n, done, r, done + [r], k); }
    OneMoreComesFrom(start, n, next, done, r, done + [r]);
    forall key ensures Served(start, keys, next, key) == RowBag(KeyOf, done + [r])[key] {
      OneMoreServed(start, keys, n, next, done, r, key);
    }
  }

  /** A row whose entry has no link left goes, and all below it. */
  lemma {:induction false} NoneBelowStays(start: Rows, keys: multiset<Key>, n: nat, k: nat)
    requires n < |start| && !Survives(start, keys, n) && n <= k < End(start, n)
    ensures !Survives(start, keys, k) && End(start, k) <= End(start, n)
    decreases k
  {
    if n < k {
      var p := Parent(start, k);
      assert start[n].depth < start[k].depth;
      assert p.Some? && n <= p.value;
      NoneBelowStays(start, keys, n, p.value);
    }
  }

  lemma {:induction false} ServedStays(start: Rows, keys: multiset<Key>, n: nat, m: nat, key: Key)
    requires n <= m <= |start| && forall k :: n <= k < m ==> !Survives(start, keys, k)
    ensures Served(start, keys, m, key) == Served(start, keys, n, key)
    decreases m
  {
    if n < m { ServedStays(start, keys, n, m - 1, key); }
  }

  lemma SieveRemoves(start: Rows, keys: multiset<Key>, n: nat, done: Rows)
    requires Sieved(start, keys, n, done) && n < |start| && DistinctIds(start)
    requires !Survives(start, keys, n)
    ensures Sieved(start, keys, End(start, n), done)
  {
    var m := End(start, n);
    forall k | n <= k < m ensures !Survives(start, keys, k) && End(start, k) <= m { NoneBelowStays(start, keys, n, k); }
    forall k | 0 <= k < m ensures StaysLive(start, keys, k, done) {
      if n <= k { NotYetLive(start, keys, n, done, k); }
    }
    forall key ensures Served(start, keys, m, key) == Served(start, keys, n, key) { ServedStays(start, keys, n, m, key); }
  }

  /** Whether the next row stays can be told from the links that are left. */
  lemma NextSurvivesIff(start: Rows, keys: multiset<Key>, n: nat, done: Rows, items: seq<Item>)
    requires Sieved(start, keys, n, done) && n < |start|
    requires RowBag(KeyOf, done) + ItemBag(KeyOf, items) == keys
    ensures Survives(start, keys, n) <==>
      (start[n].sym.Some? ==> exists it :: it in items && KeyOf(it.sym) == KeyOf(start[n].sym.value))
  {
    NextHasItsParent(start, keys, n, done);
    if start[n].sym.Some? {
      var key := KeyOf(start[n].sym.value);
      assert keys[key] == RowBag(KeyOf, done)[key] + ItemBag(KeyOf, items)[key];
      ItemBagHasIff(items, key);
    }
  }

  lemma {:induction false} ItemBagHasIff(items: seq<Item>, key: Key)
    ensures ItemBag(KeyOf, items)[key] > 0 <==> exists it :: it in items && KeyOf(it.sym) == key
  {
    if ItemBag(KeyOf, items)[key] > 0 { ItemBagHas(KeyOf, items, key); }
    if it :| it in items && KeyOf(it.sym) == key { ItemCounts(items, it); }
  }

  lemma {:induction false} ItemCounts(items: seq<Item>, it: Item)
    requires it in items
    ensures ItemBag(KeyOf, items)[KeyOf(it.sym)] > 0
  {
    if items[0] != it { ItemCounts(items[1..], it); }
  }

  // ----- simpler conditions for staying -----

  lemma {:induction false} ServedAtMost(start: Rows, keys: multiset<Key>, n: nat, key: Key)
    requires n <= |start|
    ensures Served(start, keys, n, key) <= RowBag(KeyOf, start[..n])[key]
  {
    if n > 0 {
      ServedAtMost(start, keys, n - 1, key);
      assert start[..n] == start[..n - 1] + [start[n - 1]];
      OneMoreInBag(start[..n - 1], start[n - 1], key);
    }
  }

  /** If every entry is listed at least as often as there are rows of it, every row stays,
      whatever the lines. */
  lemma {:induction false} AllSurvive(start: Rows, keys: multiset<Key>, k: nat)
    requires RowBag(KeyOf, start) <= keys && k < |start|
    ensures Survives(start, keys, k)
    decreases k
  {
    if Parent(start, k).Some? { AllSurvive(start, keys, Parent(start, k).value); }
    if start[k].sym.Some? {
      var key := KeyOf(start[k].sym.value);
      ServedAtMost(start, keys, k, key);
      assert start == start[..k] + start[k..];
      RowBagAppend(KeyOf, start[..k], start[k..]);
      assert RowBag(KeyOf, start)[key] == RowBag(KeyOf, start[..k])[key] + RowBag(KeyOf, start[k..])[key];
      assert RowBag(KeyOf, start[k..])[key] >= 1;
    }
  }

  ghost predicate DistinctKeys(rows: Rows) {
    forall i, j :: 0 <= i < j < |rows| && rows[i].sym.Some? && rows[j].sym.Some? ==>
      KeyOf(rows[i].sym.value) != KeyOf(rows[j].sym.value)
  }

  /** The row's own entry and those of all rows above it are listed. */
  ghost predicate ListedUpwards(start: Rows, keys: multiset<Key>, k: nat)
    requires k < |start|
    decreases k
  {
    && (start[k].sym.Some? ==> KeyOf(start[k].sym.value) in keys)
    && (Parent(start, k).Some? ==> ListedUpwards(start, keys, Parent(start, k).value))
  }

  lemma {:induction false} NoneServed(start: Rows, keys: multiset<Key>, n: nat, key: Key)
    requires n <= |start| && forall i :: 0 <= i < n ==> !HasKey(start[i], key)
    ensures Served(start, keys, n, key) == 0
  {
    if n > 0 { NoneServed(start, keys, n - 1, key); }
  }

  /** Where no two rows are the same entry, a row stays exactly when it and every row above it
      are still listed. */
  lemma {:induction false} SurvivesIffListed(start: Rows, keys: multiset<Key>, k: nat)
    requires DistinctKeys(start) && k < |start|
    ensures Survives(start, keys, k) <==> ListedUpwards(start, keys, k)
    decreases k
  {
    if Parent(start, k).Some? { SurvivesIffListed(start, keys, Parent(start, k).value); }
    if start[k].sym.Some? { NoneServed(start, keys, k, KeyOf(start[k].sym.value)); }
  }
}
