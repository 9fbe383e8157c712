/** The completion list (lsp-autocomplete.c): two sorts with a filter between them. Strings are
    sequences of bytes; folding and lowercasing are the libraries' and become parameters. */
module Completion {
  import opened Wrappers
  import opened Sorting

  /** A parsed item. `filterText` is what the server sent; the program does not keep it. */
  datatype Item = Item(
    name: Option<string>,
    editText: Option<string>,
    insertText: Option<string>,
    sortText: Option<string>,
    filterText: Option<string>,
    isSnippet: bool)

  /** `fold` is the case folding of utils_str_casecmp, `lower` that of lsp_utils_lowercase_cmp. */
  datatype Env = Env(fold: string -> string, lower: string -> string, useLabel: bool, wordChars: string)

  // ----- labels -----

  /** get_label */
  function Label(env: Env, item: Item): string {
    if env.useLabel && item.name.Some? then item.name.value
    else if item.editText.Some? then item.editText.value
    else if item.insertText.Some? then item.insertText.value
    else if item.name.Some? then item.name.value
    else ""
  }

  function CutAt(s: string, c: char): string {
    if s == "" || s[0] == c then "" else [s[0]] + CutAt(s[1..], c)
  }

  function ReplaceFirst(s: string, c: char): string {
    if s == "" then "" else if s[0] == c then " " + s[1..] else [s[0]] + ReplaceFirst(s[1..], c)
  }

  /** get_symbol_label: only the first question mark and the first tab are replaced. */
  function DisplayLabel(env: Env, item: Item): string {
    ReplaceFirst(ReplaceFirst(CutAt(CutAt(Label(env, item), '\n'), '\r'), '?'), '\t')
  }

  // ----- the comparison -----

  /** strcmp, as the sign of the first difference */
  function Compare(a: string, b: string): int {
    if a == "" then (if b == "" then 0 else -1)
    else if b == "" then 1
    else if a[0] != b[0] then (if a[0] < b[0] then -1 else 1)
    else Compare(a[1..], b[1..])
  }

  predicate StartsWith(s: string, prefix: string) {
    |prefix| <= |s| && s[..|prefix|] == prefix
  }

  /** strstr_delta: where `s2` first occurs, or -1 */
  function Delta(s1: string, s2: string): (r: int)
    ensures -1 <= r
  {
    if StartsWith(s1, s2) then 0
    else if s1 == "" then -1
    else
      var later := Delta(s1[1..], s2);
      if later == -1 then -1 else later + 1
  }

  predicate IsIdentifier(s: string, wordChars: string) {
    forall i :: 0 <= i < |s| ==> s[i] in wordChars
  }

  /** The pattern of all the pairs of tests: the one that passes comes first. */
  function Either(first: bool, second: bool): int {
    if first && !second then -1 else if !first && second then 1 else 0
  }

  function ByDelta(d1: int, d2: int): int {
    if d1 != -1 && d2 == -1 then -1
    else if d1 == -1 && d2 != -1 then 1
    else if d1 != -1 && d2 != -1 && d1 != d2 then d1 - d2
    else 0
  }

  function ByPrefix(env: Env, label1: string, label2: string, prefix: string): int {
    var exact := Either(label1 == prefix, label2 == prefix);
    var starts := Either(StartsWith(label1, prefix), StartsWith(label2, prefix));
    var folded := Either(env.fold(label1) == env.fold(prefix), env.fold(label2) == env.fold(prefix));
    var low := env.lower(prefix);
    var lowered := Either(StartsWith(env.lower(label1), low), StartsWith(env.lower(label2), low));
    var anywhere := ByDelta(Delta(env.lower(label1), low), Delta(env.lower(label2), low));
    if exact != 0 then exact
    else if starts != 0 then starts
    else if folded != 0 then folded
    else if lowered != 0 then lowered
    else if anywhere != 0 then anywhere
    else Either(IsIdentifier(label1, env.wordChars), IsIdentifier(label2, env.wordChars))
  }

  /** sort_autocomplete_symbols; without a prefix for the first pass. */
  function CompareItems(env: Env, prefix: Option<string>, a: Item, b: Item): int {
    var byPrefix := if prefix.Some? then ByPrefix(env, Label(env, a), Label(env, b), prefix.value) else 0;
    if byPrefix != 0 then byPrefix
    else if a.sortText.Some? && b.sortText.Some? then Compare(a.sortText.value, b.sortText.value)
    else Compare(env.fold(Label(env, a)), env.fold(Label(env, b)))
  }

  // ----- the same order by a key -----

  function Lex(a: seq<int>, b: seq<int>): int {
    if a == [] then (if b == [] then 0 else -1)
    else if b == [] then 1
    else if a[0] != b[0] then (if a[0] < b[0] then -1 else 1)
    else Lex(a[1..], b[1..])
  }

  lemma {:induction false} LexFlips(a: seq<int>, b: seq<int>)
    ensures Lex(a, b) == -Lex(b, a)
  {
    if a != [] && b != [] { LexFlips(a[1..], b[1..]); }
  }

  lemma {:induction false} LexTransitive(a: seq<int>, b: seq<int>, c: seq<int>)
    requires Lex(a, b) <= 0 && Lex(b, c) <= 0
    ensures Lex(a, c) <= 0
  {
    if a != [] && b != [] && c != [] && a[0] == b[0] == c[0] { LexTransitive(a[1..], b[1..], c[1..]); }
  }

  function Codes(s: string): seq<int> {
    if s == "" then [] else [s[0] as int] + Codes(s[1..])
  }

  lemma {:induction false} CompareIsLex(a: string, b: string)
    ensures Compare(a, b) == Lex(Codes(a), Codes(b))
  {
    if a != "" && b != "" { CompareIsLex(a[1..], b[1..]); }
  }

  function Rank(first: bool): int { if first then 0 else 1 }

  /** How well a label fits the prefix: the tests in order, and the place of the prefix. */
  function Fit(env: Env, text: string, prefix: Option<string>): seq<int> {
    if prefix.None? then []
    else
      var p, low := prefix.value, env.lower(prefix.value);
      var d := Delta(env.lower(text), low);
      [Rank(text == p), Rank(StartsWith(text, p)), Rank(env.fold(text) == env.fold(p)),
       Rank(StartsWith(env.lower(text), low)), Rank(d != -1), d, Rank(IsIdentifier(text, env.wordChars))]
  }

  function Key(env: Env, prefix: Option<string>, bySortText: bool, item: Item): seq<int> {
    var tie := if bySortText then (if item.sortText.Some? then item.sortText.value else "") else env.fold(Label(env, item));
    Fit(env, Label(env, item), prefix) + Codes(tie)
  }

  lemma {:induction false} LexAppend(x: seq<int>, y: seq<int>, u: seq<int>, v: seq<int>)
    requires |x| == |y|
    ensures Lex(x + u, y + v) == if Lex(x, y) != 0 then Lex(x, y) else Lex(u, v)
  {
    if x == [] {
      assert x + u == u && y + v == v;
    } else {
      assert (x + u)[1..] == x[1..] + u && (y + v)[1..] == y[1..] + v;
      LexAppend(x[1..], y[1..], u, v);
    }
  }

  predicate SameSign(a: int, b: int) {
    (a < 0 <==> b < 0) && (a == 0 <==> b == 0)
  }

  /** The tests one after the other compare like the ranks. */
  lemma FitIsByPrefix(env: Env, label1: string, label2: string, prefix: string)
    ensures |Fit(env, label1, Some(prefix))| == |Fit(env, label2, Some(prefix))| == 7
    ensures SameSign(Lex(Fit(env, label1, Some(prefix)), Fit(env, label2, Some(prefix))), ByPrefix(env, label1, label2, prefix))
  {
    var a, b := Fit(env, label1, Some(prefix)), Fit(env, label2, Some(prefix));
    LexSeven(a, b);
  }

  lemma LexFrom(a: seq<int>, b: seq<int>, i: nat)
    requires |a| == |b| && i < |a|
    ensures Lex(a[i..], b[i..]) == if a[i] < b[i] then -1 else if a[i] > b[i] then 1 else Lex(a[i + 1..], b[i + 1..])
  {
    assert a[i..][1..] == a[i + 1..] && b[i..][1..] == b[i + 1..];
  }

  function Sign(n: int): int { if n < 0 then -1 else if n > 0 then 1 else 0 }

  /** Sequences of seven compare at the first place where they differ. */
  lemma LexSeven(a: seq<int>, b: seq<int>)
    requires |a| == |b| == 7
    ensures Lex(a, b) == Sign(
      if a[0] != b[0] then a[0] - b[0]
      else if a[1] != b[1] then a[1] - b[1]
      else if a[2] != b[2] then a[2] - b[2]
      else if a[3] != b[3] then a[3] - b[3]
      else if a[4] != b[4] then a[4] - b[4]
      else if a[5] != b[5] then a[5] - b[5]
      else a[6] - b[6])
  {
    assert a[0..] == a && b[0..] == b;
    LexFrom(a, b, 0);
    LexFrom(a, b, 1);
    LexFrom(a, b, 2);
    LexFrom(a, b, 3);
    LexFrom(a, b, 4);
    LexFrom(a, b, 5);
    LexFrom(a, b, 6);
  }

  /** Of two items that both have a sort text, or if the labels decide, the comparison is that
      of the keys. */
  lemma CompareIsKeyOrder(env: Env, prefix: Option<string>, bySortText: bool, a: Item, b: Item)
    requires if bySortText then a.sortText.Some? && b.sortText.Some? else a.sortText.None? || b.sortText.None?
    ensures SameSign(CompareItems(env, prefix, a, b), Lex(Key(env, prefix, bySortText, a), Key(env, prefix, bySortText, b)))
  {
    var label1, label2 := Label(env, a), Label(env, b);
    if prefix.Some? { FitIsByPrefix(env, label1, label2, prefix.value); }
    if bySortText {
      CompareIsLex(a.sortText.value, b.sortText.value);
      LexAppend(Fit(env, label1, prefix), Fit(env, label2, prefix), Codes(a.sortText.value), Codes(b.sortText.value));
    } else {
      CompareIsLex(env.fold(label1), env.fold(label2));
      LexAppend(Fit(env, label1, prefix), Fit(env, label2, prefix), Codes(env.fold(label1)), Codes(env.fold(label2)));
    }
  }

  // ----- when the comparison is an order -----

  /** All items carry a sort text, or none does. */
  ghost predicate AllOrNone(items: seq<Item>) {
    || (forall i :: 0 <= i < |items| ==> items[i].sortText.Some?)
    || (forall i :: 0 <= i < |items| ==> items[i].sortText.None?)
  }

  function Comparison(env: Env, prefix: Option<string>): (Item, Item) -> int {
    (a, b) => CompareItems(env, prefix, a, b)
  }

  function KeyComparison(env: Env, prefix: Option<string>, bySortText: bool): (Item, Item) -> int {
    (a, b) => Lex(Key(env, prefix, bySortText, a), Key(env, prefix, bySortText, b))
  }

  lemma KeyOrderIsTotal(env: Env, prefix: Option<string>, bySortText: bool)
    ensures TotalPreorder(KeyComparison(env, prefix, bySortText))
  {
    var cmp := KeyComparison(env, prefix, bySortText);
    forall a, b ensures MayPrecede(cmp, a, b) || MayPrecede(cmp, b, a) {
      LexFlips(Key(env, prefix, bySortText, a), Key(env, prefix, bySortText, b));
    }
    forall a, b, c | MayPrecede(cmp, a, b) && MayPrecede(cmp, b, c) ensures MayPrecede(cmp, a, c) {
      LexTransitive(Key(env, prefix, bySortText, a), Key(env, prefix, bySortText, b), Key(env, prefix, bySortText, c));
    }
  }

  ghost predicate Agree(c1: (Item, Item) -> int, c2: (Item, Item) -> int, items: seq<Item>) {
    forall a, b :: a in items && b in items ==> (MayPrecede(c1, a, b) <==> MayPrecede(c2, a, b))
  }

  lemma {:induction false} InsertAgrees(c1: (Item, Item) -> int, c2: (Item, Item) -> int, x: Item, s: seq<Item>)
    requires Agree(c1, c2, [x] + s)
    ensures Insert(c1, x, s) == Insert(c2, x, s)
  {
    if s != [] {
      assert x in [x] + s && s[0] in [x] + s;
      assert MayPrecede(c1, x, s[0]) <==> MayPrecede(c2, x, s[0]);
      assert forall y :: y in [x] + s[1..] ==> y in [x] + s;
      InsertAgrees(c1, c2, x, s[1..]);
    }
  }

  lemma {:induction false} SortAgrees(c1: (Item, Item) -> int, c2: (Item, Item) -> int, s: seq<Item>)
    requires Agree(c1, c2, s)
    ensures Sort(c1, s) == Sort(c2, s)
  {
    if s != [] {
      assert forall y :: y in s[1..] ==> y in s;
      SortAgrees(c1, c2, s[1..]);
      SortIsPermutation(c2, s[1..]);
      assert forall y :: y in [s[0]] + Sort(c2, s[1..]) ==> y in s;
      InsertAgrees(c1, c2, s[0], Sort(c2, s[1..]));
    }
  }

  lemma ComparisonsAgree(env: Env, prefix: Option<string>, items: seq<Item>, bySortText: bool)
    requires if bySortText then forall i :: 0 <= i < |items| ==> items[i].sortText.Some? else forall i :: 0 <= i < |items| ==> items[i].sortText.None?
    ensures Agree(Comparison(env, prefix), KeyComparison(env, prefix, bySortText), items)
  {
    forall a, b | a in items && b in items
      ensures MayPrecede(Comparison(env, prefix), a, b) <==> MayPrecede(KeyComparison(env, prefix, bySortText), a, b)
    {
      CompareIsKeyOrder(env, prefix, bySortText, a, b);
    }
  }

  /** If all items carry a sort text, or none does, each pass leaves its items in the order of
      the comparison. */
  lemma PassSorts(env: Env, prefix: Option<string>, items: seq<Item>)
    requires AllOrNone(items)
    ensures Sorted(Comparison(env, prefix), Sort(Comparison(env, prefix), items))
  {
    var bySortText := items == [] || items[0].sortText.Some?;
    var c1, c2 := Comparison(env, prefix), KeyComparison(env, prefix, bySortText);
    ComparisonsAgree(env, prefix, items, bySortText);
    KeyOrderIsTotal(env, prefix, bySortText);
    SortAgrees(c1, c2, items);
    SortIsSorted(c2, items);
    SortIsPermutation(c2, items);
    var t := Sort(c2, items);
    forall i, j | 0 <= i < j < |t| ensures MayPrecede(c1, t[i], t[j]) {
      assert t[i] in items && t[j] in items;
    }
  }

  function Plain(name: string, sortText: Option<string>): Item {
    Item(Some(name), None, None, sortText, None, false)
  }

  /** Sort texts on some items only can make the comparison go round in a circle. */
  lemma MixedSortTextsCanCycle(env: Env, prefix: Option<string>)
    requires env.fold("a") == "a" && env.fold("b") == "b" && env.fold("c") == "c" && prefix.None?
    ensures
      var x, y, z := Plain("c", Some("1")), Plain("a", Some("2")), Plain("b", None);
      CompareItems(env, prefix, x, y) < 0 && CompareItems(env, prefix, y, z) < 0 && CompareItems(env, prefix, z, x) < 0
  {
    assert Compare("1", "2") == -1 && Compare("a", "b") == -1 && Compare("b", "c") == -1;
  }

  // ----- exactly when the first pass has an order to sort by -----

  lemma CompareFlips(a: string, b: string)
    ensures Compare(a, b) == -Compare(b, a)
  {
    CompareIsLex(a, b);
    CompareIsLex(b, a);
    LexFlips(Codes(a), Codes(b));
  }

  lemma CompareTransitive(a: string, b: string, c: string)
    ensures Compare(a, b) <= 0 && Compare(b, c) <= 0 ==> Compare(a, c) <= 0
  {
    CompareIsLex(a, b);
    CompareIsLex(b, c);
    CompareIsLex(a, c);
    if Compare(a, b) <= 0 && Compare(b, c) <= 0 { LexTransitive(Codes(a), Codes(b), Codes(c)); }
  }

  /** Folded labels */
  function Folded(env: Env, item: Item): string {
    env.fold(Label(env, item))
  }

  /** An item without sort text divides those with one by their labels: items on different
      sides of it are in the same order by their sort texts, and strictly so unless both have
      its label. */
  ghost predicate Divides(env: Env, u: Item, x: Item, y: Item) {
    u.sortText.None? && x.sortText.Some? && y.sortText.Some?
    && Compare(Folded(env, x), Folded(env, u)) <= 0 && Compare(Folded(env, u), Folded(env, y)) <= 0 ==>
      && Compare(x.sortText.value, y.sortText.value) <= 0
      && (Compare(Folded(env, x), Folded(env, u)) < 0 || Compare(Folded(env, u), Folded(env, y)) < 0 ==>
        Compare(x.sortText.value, y.sortText.value) < 0)
  }

  ghost predicate TransitiveAt(env: Env, a: Item, b: Item, c: Item) {
    CompareItems(env, None, a, b) <= 0 && CompareItems(env, None, b, c) <= 0 ==> CompareItems(env, None, a, c) <= 0
  }

  lemma DividedIsTransitive(env: Env, a: Item, b: Item, c: Item)
    requires Divides(env, a, c, b) && Divides(env, b, a, c) && Divides(env, c, b, a)
    ensures TransitiveAt(env, a, b, c)
  {
    var la, lb, lc := Folded(env, a), Folded(env, b), Folded(env, c);
    CompareTransitive(la, lb, lc);
    CompareFlips(la, lb);
    CompareFlips(la, lc);
    CompareFlips(lb, lc);
    if a.sortText.Some? && b.sortText.Some? { CompareFlips(a.sortText.value, b.sortText.value); }
    if b.sortText.Some? && c.sortText.Some? { CompareFlips(b.sortText.value, c.sortText.value); }
    if a.sortText.Some? && b.sortText.Some? && c.sortText.Some? {
      CompareTransitive(a.sortText.value, b.sortText.value, c.sortText.value);
    }
  }

  lemma TransitiveDivides(env: Env, u: Item, x: Item, y: Item)
    requires TransitiveAt(env, x, u, y) && TransitiveAt(env, u, y, x) && TransitiveAt(env, y, x, u)
    ensures Divides(env, u, x, y)
  {
    CompareFlips(Folded(env, x), Folded(env, u));
    CompareFlips(Folded(env, u), Folded(env, y));
    if x.sortText.Some? && y.sortText.Some? { CompareFlips(x.sortText.value, y.sortText.value); }
  }

  /** The comparison of the first pass is transitive on a list exactly when every item without
      sort text divides the others. */
  lemma FirstPassTransitiveIff(env: Env, items: set<Item>)
    ensures (forall a, b, c :: a in items && b in items && c in items ==> TransitiveAt(env, a, b, c))
       <==> (forall u, x, y :: u in items && x in items && y in items ==> Divides(env, u, x, y))
  {
    if forall u, x, y :: u in items && x in items && y in items ==> Divides(env, u, x, y) {
      forall a, b, c | a in items && b in items && c in items ensures TransitiveAt(env, a, b, c) {
        DividedIsTransitive(env, a, b, c);
      }
    }
    if forall a, b, c :: a in items && b in items && c in items ==> TransitiveAt(env, a, b, c) {
      forall u, x, y | u in items && x in items && y in items ensures Divides(env, u, x, y) {
        TransitiveDivides(env, u, x, y);
      }
    }
  }

  // ----- and any pass -----

  /** The tests on the prefix, none in the first pass */
  function PrefixTests(env: Env, prefix: Option<string>, a: Item, b: Item): int {
    if prefix.Some? then ByPrefix(env, Label(env, a), Label(env, b), prefix.value) else 0
  }

  lemma PrefixTestsAreFit(env: Env, prefix: Option<string>, a: Item, b: Item)
    ensures SameSign(Lex(Fit(env, Label(env, a), prefix), Fit(env, Label(env, b), prefix)), PrefixTests(env, prefix, a, b))
  {
    if prefix.Some? { FitIsByPrefix(env, Label(env, a), Label(env, b), prefix.value); }
  }

  lemma {:induction false} LexZero(a: seq<int>, b: seq<int>)
    ensures Lex(a, b) == 0 <==> a == b
  {
    if a != [] && b != [] {
      LexZero(a[1..], b[1..]);
      assert a == [a[0]] + a[1..] && b == [b[0]] + b[1..];
    }
  }

  /** The prefix tests order the labels into classes. */
  lemma PrefixTestsOrder(env: Env, prefix: Option<string>, a: Item, b: Item, c: Item)
    requires PrefixTests(env, prefix, a, b) <= 0 && PrefixTests(env, prefix, b, c) <= 0
    ensures PrefixTests(env, prefix, a, c) <= 0
    ensures PrefixTests(env, prefix, a, c) == 0 ==> PrefixTests(env, prefix, a, b) == 0 == PrefixTests(env, prefix, b, c)
  {
    var x, y, z := Fit(env, Label(env, a), prefix), Fit(env, Label(env, b), prefix), Fit(env, Label(env, c), prefix);
    PrefixTestsAreFit(env, prefix, a, b);
    PrefixTestsAreFit(env, prefix, b, c);
    PrefixTestsAreFit(env, prefix, a, c);
    LexTransitive(x, y, z);
    LexZero(x, z);
    LexFlips(x, y);
  }

  lemma SameClass(env: Env, prefix: Option<string>, a: Item, b: Item, c: Item)
    requires PrefixTests(env, prefix, a, b) == 0 == PrefixTests(env, prefix, a, c)
    ensures PrefixTests(env, prefix, b, a) == 0 == PrefixTests(env, prefix, c, a)
    ensures PrefixTests(env, prefix, b, c) == 0 == PrefixTests(env, prefix, c, b)
  {
    PrefixTestsFlip(env, prefix, a, b);
    PrefixTestsFlip(env, prefix, a, c);
    PrefixTestsOrder(env, prefix, b, a, c);
    PrefixTestsOrder(env, prefix, c, a, b);
    PrefixTestsFlip(env, prefix, b, c);
  }

  lemma PrefixTestsFlip(env: Env, prefix: Option<string>, a: Item, b: Item)
    ensures PrefixTests(env, prefix, a, b) <= 0 <==> PrefixTests(env, prefix, b, a) >= 0
    ensures PrefixTests(env, prefix, a, b) == 0 <==> PrefixTests(env, prefix, b, a) == 0
  {
    PrefixTestsAreFit(env, prefix, a, b);
    PrefixTestsAreFit(env, prefix, b, a);
    LexFlips(Fit(env, Label(env, a), prefix), Fit(env, Label(env, b), prefix));
  }

  /** An item without sort text divides those that fit the prefix as well as it does. */
  ghost predicate DividesItsClass(env: Env, prefix: Option<string>, u: Item, x: Item, y: Item) {
    PrefixTests(env, prefix, u, x) == 0 == PrefixTests(env, prefix, u, y) ==> Divides(env, u, x, y)
  }

  ghost predicate TransitiveIn(env: Env, prefix: Option<string>, a: Item, b: Item, c: Item) {
    CompareItems(env, prefix, a, b) <= 0 && CompareItems(env, prefix, b, c) <= 0 ==> CompareItems(env, prefix, a, c) <= 0
  }

  lemma ClassDividedIsTransitive(env: Env, prefix: Option<string>, a: Item, b: Item, c: Item)
    requires DividesItsClass(env, prefix, a, c, b) && DividesItsClass(env, prefix, b, a, c) && DividesItsClass(env, prefix, c, b, a)
    ensures TransitiveIn(env, prefix, a, b, c)
  {
    if CompareItems(env, prefix, a, b) <= 0 && CompareItems(env, prefix, b, c) <= 0 {
      PrefixTestsOrder(env, prefix, a, b, c);
      if PrefixTests(env, prefix, a, c) == 0 {
        SameClass(env, prefix, a, b, c);
        DividedIsTransitive(env, a, b, c);
      }
    }
  }

  lemma TransitiveDividesClass(env: Env, prefix: Option<string>, u: Item, x: Item, y: Item)
    requires TransitiveIn(env, prefix, x, u, y) && TransitiveIn(env, prefix, u, y, x) && TransitiveIn(env, prefix, y, x, u)
    ensures DividesItsClass(env, prefix, u, x, y)
  {
    if PrefixTests(env, prefix, u, x) == 0 == PrefixTests(env, prefix, u, y) {
      SameClass(env, prefix, u, x, y);
      TransitiveDivides(env, u, x, y);
    }
  }

  /** The comparison of either pass is transitive on a list exactly when every item without
      sort text divides those that fit the prefix as well as it does. */
  lemma PassTransitiveIff(env: Env, prefix: Option<string>, items: set<Item>)
    ensures (forall a, b, c :: a in items && b in items && c in items ==> TransitiveIn(env, prefix, a, b, c))
       <==> (forall u, x, y :: u in items && x in items && y in items ==> DividesItsClass(env, prefix, u, x, y))
  {
    if forall u, x, y :: u in items && x in items && y in items ==> DividesItsClass(env, prefix, u, x, y) {
      forall a, b, c | a in items && b in items && c in items ensures TransitiveIn(env, prefix, a, b, c) {
        ClassDividedIsTransitive(env, prefix, a, b, c);
      }
    }
    if forall a, b, c :: a in items && b in items && c in items ==> TransitiveIn(env, prefix, a, b, c) {
      forall u, x, y | u in items && x in items && y in items ensures DividesItsClass(env, prefix, u, x, y) {
        TransitiveDividesClass(env, prefix, u, x, y);
      }
    }
  }

  // ----- the filter -----

  predicate IsLetter(c: char) { 'a' <= c <= 'z' }

  function Count(s: string, c: char): nat {
    if s == "" then 0 else (if s[0] == c then 1 else 0) + Count(s[1..], c)
  }

  /** strstr */
  predicate Contains(s: string, t: string) {
    exists i {:trigger s[i..]} :: 0 <= i <= |s| && StartsWith(s[i..], t)
  }

  /** should_filter: a letter of the prefix is missing, or its first two characters are. */
  ghost predicate ShouldFilter(name: string, prefix: string) {
    || (exists c :: IsLetter(c) && Count(name, c) < Count(prefix, c))
    || (|prefix| >= 2 && !Contains(name, prefix[..2]))
  }

  lemma {:induction false} CountConcat(a: string, b: string, c: char)
    ensures Count(a + b, c) == Count(a, c) + Count(b, c)
  {
    if a == "" {
      assert a + b == b;
    } else {
      assert (a + b)[1..] == a[1..] + b;
      CountConcat(a[1..], b, c);
    }
  }

  /** A name that contains the prefix is never dropped. */
  lemma ContainingIsKept(name: string, prefix: string)
    requires Contains(name, prefix)
    ensures !ShouldFilter(name, prefix)
  {
    var i :| 0 <= i <= |name| && StartsWith(name[i..], prefix);
    var rest := name[i..][|prefix|..];
    forall c ensures Count(name, c) >= Count(prefix, c) {
      assert name == name[..i] + (prefix + rest);
      CountConcat(name[..i], prefix + rest, c);
      CountConcat(prefix, rest, c);
    }
    if |prefix| >= 2 {
      assert name[i..][..2] == name[i..][..|prefix|][..2];
      assert StartsWith(name[i..], prefix[..2]);
    }
  }

  /** filter_autocomplete_symbols: the filter text is never stored, so the label is used. */
  ghost predicate Filtered(env: Env, prefix: Option<string>, item: Item) {
    prefix.Some? && prefix.value != "" && ShouldFilter(env.lower(Label(env, item)), env.lower(prefix.value))
  }

  /** What LSP 3.17 asks for in section "Completion Request": the filter text, if there is one,
      stands in for the label. */
  ghost predicate FilteredByFilterText(env: Env, prefix: Option<string>, item: Item) {
    prefix.Some? && prefix.value != ""
    && ShouldFilter(env.lower(if item.filterText.Some? then item.filterText.value else Label(env, item)), env.lower(prefix.value))
  }

  /** An item whose label contains what was typed is shown or is a duplicate; case does not
      matter. */
  lemma MatchingLabelIsKept(env: Env, prefix: string, item: Item)
    requires Contains(env.lower(Label(env, item)), env.lower(prefix))
    ensures !Filtered(env, Some(prefix), item)
  {
    ContainingIsKept(env.lower(Label(env, item)), env.lower(prefix));
  }

  /** But the filter text does not help: a name that only it contains is dropped. */
  lemma MatchingFilterTextIsDropped(env: Env)
    requires forall s :: env.lower(s) == s
    ensures
      var item := Item(Some("x"), None, None, None, Some("y"), false);
      Contains(env.lower("y"), env.lower("y")) && Filtered(env, Some("y"), item) && !FilteredByFilterText(env, Some("y"), item)
  {
    assert "y"[0..] == "y" && StartsWith("y"[0..], "y");
    ContainingIsKept("y", "y");
    assert Count("x", 'y') == 0 && Count("y", 'y') == 1 && IsLetter('y');
  }

  /** Lowercasing leaves lowercased text and its parts alone. */
  ghost predicate Settled(env: Env) {
    forall s, i, j {:trigger env.lower(s)[i..j]} :: 0 <= i <= j <= |env.lower(s)| ==> env.lower(env.lower(s)[i..j]) == env.lower(s)[i..j]
  }

  ghost predicate SameLetters(a: string, b: string) {
    forall c :: IsLetter(c) ==> Count(a, c) == Count(b, c)
  }

  ghost predicate SamePairs(a: string, b: string) {
    forall p: string :: |p| == 2 ==> (Contains(a, p) <==> Contains(b, p))
  }

  ghost predicate FilterTextWouldNotMatter(env: Env, item: Item) {
    forall typed: string :: Filtered(env, Some(typed), item) <==> FilteredByFilterText(env, Some(typed), item)
  }

  lemma ContainsItself(s: string)
    ensures Contains(s, s)
  {
    assert s[0..] == s && StartsWith(s[0..], s);
  }

  lemma LettersFollow(env: Env, a: string, b: string)
    requires a != "" ==> !ShouldFilter(b, a)
    ensures forall c :: IsLetter(c) ==> Count(b, c) >= Count(a, c)
  {
  }

  lemma PairsFollow(env: Env, text: string, b: string)
    requires Settled(env)
    requires forall typed: string :: typed != "" && !ShouldFilter(env.lower(text), env.lower(typed)) ==> !ShouldFilter(b, env.lower(typed))
    ensures forall p: string :: |p| == 2 && Contains(env.lower(text), p) ==> Contains(b, p)
  {
    var a := env.lower(text);
    forall p: string | |p| == 2 && Contains(a, p) ensures Contains(b, p) {
      var i :| 0 <= i <= |a| && StartsWith(a[i..], p);
      assert p == a[i..i + 2] && env.lower(env.lower(text)[i..i + 2]) == p;
      ContainingIsKept(a, p);
      assert p[..2] == p;
    }
  }

  lemma WholeIsSettled(env: Env, text: string)
    requires Settled(env)
    ensures env.lower(env.lower(text)) == env.lower(text)
  {
    var a := env.lower(text);
    assert env.lower(text)[0..|a|] == a;
  }

  /** Ignoring the filter text makes no difference, whatever is typed, exactly when it has the
      letters of the label and the same pairs of neighbouring characters. */
  lemma FilterTextWouldNotMatterIff(env: Env, item: Item)
    requires Settled(env) && item.filterText.Some?
    ensures
      var a, b := env.lower(item.filterText.value), env.lower(Label(env, item));
      FilterTextWouldNotMatter(env, item) <==> SameLetters(a, b) && SamePairs(a, b)
  {
    var text, name := item.filterText.value, Label(env, item);
    var a, b := env.lower(text), env.lower(name);
    if FilterTextWouldNotMatter(env, item) {
      forall typed: string | typed != "" ensures ShouldFilter(a, env.lower(typed)) <==> ShouldFilter(b, env.lower(typed)) {
        assert Filtered(env, Some(typed), item) <==> FilteredByFilterText(env, Some(typed), item);
      }
      WholeIsSettled(env, text);
      WholeIsSettled(env, name);
      ContainsItself(a);
      ContainsItself(b);
      ContainingIsKept(a, a);
      ContainingIsKept(b, b);
      LettersFollow(env, a, b);
      LettersFollow(env, b, a);
      PairsFollow(env, text, b);
      PairsFollow(env, name, a);
    }
    if SameLetters(a, b) && SamePairs(a, b) {
      forall typed: string ensures Filtered(env, Some(typed), item) <==> FilteredByFilterText(env, Some(typed), item) {
        SameFilter(a, b, env.lower(typed));
      }
    }
  }

  /** An item whose filter text contains what was typed is shown or is a duplicate. */
  ghost predicate MatchingFilterTextIsKept(env: Env, item: Item)
    requires item.filterText.Some?
  {
    forall typed: string :: Contains(env.lower(item.filterText.value), env.lower(typed)) ==> !Filtered(env, Some(typed), item)
  }

  ghost predicate NoMoreLetters(a: string, b: string) {
    forall c :: IsLetter(c) ==> Count(a, c) <= Count(b, c)
  }

  ghost predicate NoOtherPairs(a: string, b: string) {
    forall p: string :: |p| == 2 && Contains(a, p) ==> Contains(b, p)
  }

  lemma FilterTextCovered(a: string, b: string, prefix: string)
    requires NoMoreLetters(a, b) && NoOtherPairs(a, b) && Contains(a, prefix)
    ensures !ShouldFilter(b, prefix)
  {
    ContainingIsKept(a, prefix);
    if |prefix| >= 2 { assert |prefix[..2]| == 2 && Contains(a, prefix[..2]); }
  }

  lemma KeptLetters(env: Env, item: Item)
    requires Settled(env) && item.filterText.Some? && MatchingFilterTextIsKept(env, item)
    ensures NoMoreLetters(env.lower(item.filterText.value), env.lower(Label(env, item)))
  {
    var a := env.lower(item.filterText.value);
    WholeIsSettled(env, item.filterText.value);
    ContainsItself(a);
    assert !Filtered(env, Some(a), item);
    LettersFollow(env, a, env.lower(Label(env, item)));
  }

  lemma KeptPairs(env: Env, item: Item)
    requires Settled(env) && item.filterText.Some? && MatchingFilterTextIsKept(env, item)
    ensures NoOtherPairs(env.lower(item.filterText.value), env.lower(Label(env, item)))
  {
    var text := item.filterText.value;
    var a := env.lower(text);
    forall p: string | |p| == 2 && Contains(a, p) ensures Contains(env.lower(Label(env, item)), p) {
      var i :| 0 <= i <= |a| && StartsWith(a[i..], p);
      assert p == a[i..i + 2] && env.lower(env.lower(text)[i..i + 2]) == p;
      assert !Filtered(env, Some(p), item) && p[..2] == p;
    }
  }

  /** No matching filter text is ever dropped exactly when the filter text has no letter more
      often than the label, and no pair of neighbouring characters that the label lacks. */
  lemma MatchingFilterTextIsKeptIff(env: Env, item: Item)
    requires Settled(env) && item.filterText.Some?
    ensures
      var a, b := env.lower(item.filterText.value), env.lower(Label(env, item));
      MatchingFilterTextIsKept(env, item) <==> NoMoreLetters(a, b) && NoOtherPairs(a, b)
  {
    var a, b := env.lower(item.filterText.value), env.lower(Label(env, item));
    if MatchingFilterTextIsKept(env, item) {
      KeptLetters(env, item);
      KeptPairs(env, item);
    }
    if NoMoreLetters(a, b) && NoOtherPairs(a, b) {
      forall typed: string | Contains(a, env.lower(typed)) ensures !Filtered(env, Some(typed), item) {
        FilterTextCovered(a, b, env.lower(typed));
      }
    }
  }

  lemma SameFilter(a: string, b: string, prefix: string)
    requires SameLetters(a, b) && SamePairs(a, b)
    ensures ShouldFilter(a, prefix) <==> ShouldFilter(b, prefix)
  {
    if |prefix| >= 2 { assert |prefix[..2]| == 2; }
  }

  // ----- duplicates -----

  /** Not filtered, and no item before it with the same display label is left. */
  ghost predicate FirstUnfiltered(env: Env, prefix: Option<string>, items: seq<Item>, i: nat)
    requires i < |items|
  {
    && !Filtered(env, prefix, items[i])
    && forall j :: 0 <= j < i && DisplayLabel(env, items[j]) == DisplayLabel(env, items[i]) ==> Filtered(env, prefix, items[j])
  }

  /** The first `n` items without duplicates and filtered ones. */
  ghost function Selected(env: Env, prefix: Option<string>, items: seq<Item>, n: nat): seq<Item>
    requires n <= |items|
  {
    if n == 0 then []
    else Selected(env, prefix, items, n - 1) + (if FirstUnfiltered(env, prefix, items, n - 1) then [items[n - 1]] else [])
  }

  /** The display label belongs to an item before `n` that is not filtered. */
  ghost predicate Used(env: Env, prefix: Option<string>, items: seq<Item>, n: nat, text: string)
    requires n <= |items|
  {
    exists i :: 0 <= i < n && DisplayLabel(env, items[i]) == text && !Filtered(env, prefix, items[i])
  }

  ghost predicate DistinctLabels(env: Env, items: seq<Item>) {
    forall i, j :: 0 <= i < j < |items| ==> DisplayLabel(env, items[i]) != DisplayLabel(env, items[j])
  }

  ghost predicate ComesFirst(env: Env, prefix: Option<string>, items: seq<Item>, x: Item) {
    exists i :: 0 <= i < |items| && items[i] == x && FirstUnfiltered(env, prefix, items, i)
  }

  /** Every item selected comes first with its label and is not filtered. */
  ghost predicate AllFirst(env: Env, prefix: Option<string>, items: seq<Item>, n: nat, some: seq<Item>)
    requires n <= |items|
  {
    forall x :: x in some ==> ComesFirst(env, prefix, items, x) && Used(env, prefix, items, n, DisplayLabel(env, x))
  }

  lemma StillFirst(env: Env, prefix: Option<string>, items: seq<Item>, n: nat, some: seq<Item>)
    requires 0 < n <= |items| && AllFirst(env, prefix, items, n - 1, some)
    ensures AllFirst(env, prefix, items, n, some)
  {
    forall x | x in some ensures Used(env, prefix, items, n, DisplayLabel(env, x)) {
      assert Used(env, prefix, items, n - 1, DisplayLabel(env, x));
    }
  }

  lemma OneMoreSelected(env: Env, prefix: Option<string>, items: seq<Item>, n: nat, before: seq<Item>, last: Item)
    requires 0 < n <= |items| && last == items[n - 1] && FirstUnfiltered(env, prefix, items, n - 1)
    requires DistinctLabels(env, before) && AllFirst(env, prefix, items, n - 1, before)
    ensures DistinctLabels(env, before + [last]) && AllFirst(env, prefix, items, n, before + [last])
  {
    StillFirst(env, prefix, items, n, before);
    assert ComesFirst(env, prefix, items, last) && Used(env, prefix, items, n, DisplayLabel(env, last));
    forall i | 0 <= i < |before| ensures DisplayLabel(env, before[i]) != DisplayLabel(env, last) {
      assert before[i] in before && Used(env, prefix, items, n - 1, DisplayLabel(env, before[i]));
    }
  }

  lemma {:induction false} SelectedLabels(env: Env, prefix: Option<string>, items: seq<Item>, n: nat)
    requires n <= |items|
    ensures DistinctLabels(env, Selected(env, prefix, items, n))
    ensures AllFirst(env, prefix, items, n, Selected(env, prefix, items, n))
  {
    if n > 0 {
      SelectedLabels(env, prefix, items, n - 1);
      var before := Selected(env, prefix, items, n - 1);
      if FirstUnfiltered(env, prefix, items, n - 1) {
        OneMoreSelected(env, prefix, items, n, before, items[n - 1]);
      } else {
        StillFirst(env, prefix, items, n, before);
        assert before + [] == before;
      }
    }
  }

  ghost predicate HasLabel(env: Env, items: seq<Item>, text: string) {
    exists x :: x in items && DisplayLabel(env, x) == text
  }

  lemma LabelsGrow(env: Env, prefix: Option<string>, items: seq<Item>, n: nat, text: string)
    requires 0 < n <= |items|
    ensures HasLabel(env, Selected(env, prefix, items, n - 1), text) ==> HasLabel(env, Selected(env, prefix, items, n), text)
    ensures FirstUnfiltered(env, prefix, items, n - 1) ==>
      HasLabel(env, Selected(env, prefix, items, n), DisplayLabel(env, items[n - 1]))
  {
    var all, before := Selected(env, prefix, items, n), Selected(env, prefix, items, n - 1);
    if HasLabel(env, before, text) {
      var x :| x in before && DisplayLabel(env, x) == text;
      assert x in all;
    }
    if FirstUnfiltered(env, prefix, items, n - 1) { assert items[n - 1] in all; }
  }

  /** Every display label of an item that is not filtered is there. */
  lemma {:induction false} SelectedCovers(env: Env, prefix: Option<string>, items: seq<Item>, n: nat, i: nat)
    requires i < n <= |items| && !Filtered(env, prefix, items[i])
    ensures HasLabel(env, Selected(env, prefix, items, n), DisplayLabel(env, items[i]))
  {
    LabelsGrow(env, prefix, items, n, DisplayLabel(env, items[i]));
    if i < n - 1 {
      SelectedCovers(env, prefix, items, n - 1, i);
    } else if !FirstUnfiltered(env, prefix, items, i) {
      var j :| 0 <= j < i && DisplayLabel(env, items[j]) == DisplayLabel(env, items[i]) && !Filtered(env, prefix, items[j]);
      SelectedCovers(env, prefix, items, n - 1, j);
    }
  }

  // ----- the list that is shown -----

  /** process_response, once the items are parsed */
  ghost function Shown(env: Env, prefix: Option<string>, items: seq<Item>): seq<Item> {
    var inOrder := Sort(Comparison(env, None), items);
    Sort(Comparison(env, prefix), Selected(env, prefix, inOrder, |inOrder|))
  }

  lemma SubsetAllOrNone(items: seq<Item>, some: seq<Item>)
    requires AllOrNone(items) && forall x :: x in some ==> x in items
    ensures AllOrNone(some)
  {
    if forall i :: 0 <= i < |items| ==> items[i].sortText.Some? {
      forall i | 0 <= i < |some| ensures some[i].sortText.Some? { assert some[i] in items; }
    } else {
      forall i | 0 <= i < |some| ensures some[i].sortText.None? { assert some[i] in items; }
    }
  }

  /** If all items carry a sort text, or none does, the list is in the order of the comparison. */
  lemma ShownInOrder(env: Env, prefix: Option<string>, items: seq<Item>)
    requires AllOrNone(items)
    ensures Sorted(Comparison(env, prefix), Shown(env, prefix, items))
    ensures Sorted(Comparison(env, None), Sort(Comparison(env, None), items))
  {
    var inOrder := Sort(Comparison(env, None), items);
    var some := Selected(env, prefix, inOrder, |inOrder|);
    SortIsPermutation(Comparison(env, None), items);
    SelectedLabels(env, prefix, inOrder, |inOrder|);
    forall x | x in some ensures x in items {
      assert ComesFirst(env, prefix, inOrder, x);
    }
    SubsetAllOrNone(items, some);
    PassSorts(env, None, items);
    PassSorts(env, prefix, some);
  }

  /** No display label is shown twice; what is shown for a label is the first item with it, in
      the order of the first pass, that is not filtered; and no label of an unfiltered item is
      missing. */
  lemma ShownOncePerLabel(env: Env, prefix: Option<string>, items: seq<Item>)
    ensures
      var inOrder, shown := Sort(Comparison(env, None), items), Shown(env, prefix, items);
      && DistinctLabels(env, shown)
      && (forall x :: x in shown ==> x in items && ComesFirst(env, prefix, inOrder, x))
      && (forall y :: y in items && !Filtered(env, prefix, y) ==> HasLabel(env, shown, DisplayLabel(env, y)))
  {
    var inOrder := Sort(Comparison(env, None), items);
    var some := Selected(env, prefix, inOrder, |inOrder|);
    var shown := Shown(env, prefix, items);
    SortIsPermutation(Comparison(env, None), items);
    SortIsPermutation(Comparison(env, prefix), some);
    SelectedLabels(env, prefix, inOrder, |inOrder|);
    forall x | x in shown ensures x in items && ComesFirst(env, prefix, inOrder, x) {
      assert x in some && ComesFirst(env, prefix, inOrder, x);
    }
    forall y | y in items && !Filtered(env, prefix, y) ensures HasLabel(env, shown, DisplayLabel(env, y)) {
      assert y in inOrder;
      var i :| 0 <= i < |inOrder| && inOrder[i] == y;
      SelectedCovers(env, prefix, inOrder, |inOrder|, i);
      var x :| x in some && DisplayLabel(env, x) == DisplayLabel(env, y);
      assert x in shown;
    }
    PermutationKeepsLabelsDistinct(env, some, shown);
  }

  lemma PermutationKeepsLabelsDistinct(env: Env, some: seq<Item>, shown: seq<Item>)
    requires multiset(shown) == multiset(some) && DistinctLabels(env, some)
    ensures DistinctLabels(env, shown)
  {
    forall i, j | 0 <= i < j < |shown| ensures DisplayLabel(env, shown[i]) != DisplayLabel(env, shown[j]) {
      var k, l := TwoPlaces(shown, some, i, j);
      assert k < l || l < k;
    }
  }

  // ----- what the texts are -----

  /** The texts in their order: the label if it is preferred, the edit's text, the text to
      insert, the label. */
  lemma FirstPresentText(env: Env, item: Item)
    ensures env.useLabel && item.name.Some? ==> Label(env, item) == item.name.value
    ensures !(env.useLabel && item.name.Some?) && item.editText.Some? ==> Label(env, item) == item.editText.value
    ensures !(env.useLabel && item.name.Some?) && item.editText.None? && item.insertText.Some? ==> Label(env, item) == item.insertText.value
    ensures item.editText.None? && item.insertText.None? && item.name.Some? ==> Label(env, item) == item.name.value
    ensures item.editText.None? && item.insertText.None? && item.name.None? ==> Label(env, item) == ""
  {
  }

  /** Line breaks, and the two characters that the popup cannot show */
  predicate Breaks(c: char) { c == '\n' || c == '\r' }

  /** `n` is where the first line of the text ends. */
  ghost predicate FirstLine(text: string, n: nat) {
    n <= |text| && (forall i :: 0 <= i < n ==> !Breaks(text[i])) && (n < |text| ==> Breaks(text[n]))
  }

  ghost predicate FirstOf(text: string, c: char, i: nat)
    requires i < |text|
  {
    text[i] == c && forall j :: 0 <= j < i ==> text[j] != c
  }

  lemma {:induction false} CutAtIs(s: string, c: char)
    ensures |CutAt(s, c)| <= |s| && CutAt(s, c) == s[..|CutAt(s, c)|]
    ensures forall i :: 0 <= i < |CutAt(s, c)| ==> s[i] != c
    ensures |CutAt(s, c)| < |s| ==> s[|CutAt(s, c)|] == c
  {
    if s != "" && s[0] != c {
      CutAtIs(s[1..], c);
      var rest := CutAt(s[1..], c);
      assert CutAt(s, c) == [s[0]] + rest;
      assert forall i :: 0 < i < |s| ==> s[i] == s[1..][i - 1];
    }
  }

  lemma {:induction false} ReplaceFirstIs(s: string, c: char)
    ensures |ReplaceFirst(s, c)| == |s|
    ensures forall i :: 0 <= i < |s| ==> ReplaceFirst(s, c)[i] == if FirstOf(s, c, i) then ' ' else s[i]
  {
    if s != "" && s[0] != c {
      ReplaceFirstIs(s[1..], c);
      forall i | 0 < i < |s| ensures FirstOf(s, c, i) <==> FirstOf(s[1..], c, i - 1) {
        assert forall j :: 0 <= j < i - 1 ==> s[1..][j] == s[j + 1];
        assert forall j :: 0 < j < i ==> s[j] == s[1..][j - 1];
      }
    }
  }

  lemma CutLines(text: string, n: nat)
    requires FirstLine(text, n)
    ensures CutAt(CutAt(text, '\n'), '\r') == text[..n]
  {
    var line := CutAt(text, '\n');
    CutAtIs(text, '\n');
    CutAtIs(line, '\r');
    var m := |CutAt(line, '\r')|;
    assert CutAt(line, '\r') == text[..m];
    assert m < n ==> Breaks(text[m]);
    assert n < m ==> !Breaks(text[n]);
  }

  lemma ReplacedTwice(line: string, i: nat)
    requires i < |line|
    ensures |ReplaceFirst(ReplaceFirst(line, '?'), '\t')| == |line|
    ensures ReplaceFirst(ReplaceFirst(line, '?'), '\t')[i]
         == if FirstOf(line, '?', i) || FirstOf(line, '\t', i) then ' ' else line[i]
  {
    var once := ReplaceFirst(line, '?');
    ReplaceFirstIs(line, '?');
    ReplaceFirstIs(once, '\t');
    assert FirstOf(once, '\t', i) <==> FirstOf(line, '\t', i);
  }

  lemma FirstInLine(text: string, n: nat, c: char, i: nat)
    requires i < n <= |text|
    ensures FirstOf(text[..n], c, i) <==> FirstOf(text, c, i)
  {
  }

  /** What is shown of an item is the first line of its text, with its first question mark and
      its first tab turned into blanks. */
  lemma DisplayedIs(env: Env, item: Item, n: nat)
    requires FirstLine(Label(env, item), n)
    ensures |DisplayLabel(env, item)| == n
    ensures forall i :: 0 <= i < n ==>
      DisplayLabel(env, item)[i] ==
        if FirstOf(Label(env, item), '?', i) || FirstOf(Label(env, item), '\t', i) then ' ' else Label(env, item)[i]
  {
    var text := Label(env, item);
    CutLines(text, n);
    ReplaceFirstIs(text[..n], '?');
    ReplaceFirstIs(ReplaceFirst(text[..n], '?'), '\t');
    forall i | 0 <= i < n
      ensures DisplayLabel(env, item)[i] == if FirstOf(text, '?', i) || FirstOf(text, '\t', i) then ' ' else text[i]
    {
      ReplacedTwice(text[..n], i);
      FirstInLine(text, n, '?', i);
      FirstInLine(text, n, '\t', i);
    }
  }

  ghost predicate PlainText(text: string) {
    forall i :: 0 <= i < |text| ==> !Breaks(text[i]) && text[i] != '?' && text[i] != '\t'
  }

  /** A text of one line without question marks and tabs is shown as it is. */
  lemma PlainIsShown(env: Env, item: Item)
    requires PlainText(Label(env, item))
    ensures DisplayLabel(env, item) == Label(env, item)
  {
    DisplayedIs(env, item, |Label(env, item)|);
  }

  /** The shown list has an entry that reads like this. */
  ghost predicate Reads(env: Env, shown: seq<Item>, k: nat, text: string) {
    k < |shown| && DisplayLabel(env, shown[k]) == text
  }

  /** Two items that are not filtered and have different plain texts are both represented, by
      different entries that read like them. */
  lemma DifferentTextsAreBothShown(env: Env, prefix: Option<string>, items: seq<Item>, a: Item, b: Item)
    requires a in items && b in items && !Filtered(env, prefix, a) && !Filtered(env, prefix, b)
    requires PlainText(Label(env, a)) && PlainText(Label(env, b)) && Label(env, a) != Label(env, b)
    ensures exists k, l ::
      k != l && Reads(env, Shown(env, prefix, items), k, Label(env, a)) && Reads(env, Shown(env, prefix, items), l, Label(env, b))
  {
    var shown := Shown(env, prefix, items);
    ShownOncePerLabel(env, prefix, items);
    PlainIsShown(env, a);
    PlainIsShown(env, b);
    var k := EntryFor(env, shown, Label(env, a));
    var l := EntryFor(env, shown, Label(env, b));
    assert Reads(env, shown, k, Label(env, a)) && Reads(env, shown, l, Label(env, b));
  }

  lemma EntryFor(env: Env, shown: seq<Item>, text: string) returns (k: nat)
    requires HasLabel(env, shown, text)
    ensures Reads(env, shown, k, text)
  {
    var x :| x in shown && DisplayLabel(env, x) == text;
    k :| 0 <= k < |shown| && shown[k] == x;
  }

  // ----- what the tests are -----

  /** strstr_delta is the first place where the second string occurs, or -1. */
  lemma {:induction false} DeltaIsFirst(s: string, t: string)
    ensures Delta(s, t) == -1 <==> !Contains(s, t)
    ensures Delta(s, t) >= 0 ==> Delta(s, t) <= |s| && StartsWith(s[Delta(s, t)..], t)
    ensures forall i {:trigger s[i..]} :: 0 <= i < Delta(s, t) ==> !StartsWith(s[i..], t)
  {
    assert s[0..] == s;
    if !StartsWith(s, t) && s != "" {
      DeltaIsFirst(s[1..], t);
      forall i {:trigger s[i..]} | 0 < i <= |s| ensures s[i..] == s[1..][i - 1..] {
      }
      if Contains(s, t) {
        var i :| 0 <= i <= |s| && StartsWith(s[i..], t);
        assert s[1..][i - 1..] == s[i..];
      }
      if Contains(s[1..], t) {
        var i :| 0 <= i <= |s[1..]| && StartsWith(s[1..][i..], t);
        assert s[i + 1..] == s[1..][i..];
      }
    }
  }

  /** strcmp is the order of dictionaries: the first difference decides, or the length. */
  lemma {:induction false} CompareIsAlphabetical(a: string, b: string, n: nat)
    requires n <= |a| && n <= |b| && a[..n] == b[..n] && (n < |a| && n < |b| ==> a[n] != b[n])
    ensures Compare(a, b) < 0 <==> (n < |b| && (n == |a| || a[n] < b[n]))
    ensures Compare(a, b) == 0 <==> a == b
    decreases n
  {
    if n > 0 {
      assert a[0] == a[..n][0] == b[..n][0] == b[0];
      assert a[1..][..n - 1] == a[..n][1..] == b[..n][1..] == b[1..][..n - 1];
      CompareIsAlphabetical(a[1..], b[1..], n - 1);
      assert a == [a[0]] + a[1..] && b == [b[0]] + b[1..];
    }
  }

  /** The letter counts are multiplicities. */
  lemma {:induction false} CountIsMultiplicity(s: string, c: char)
    ensures Count(s, c) == multiset(s)[c]
  {
    if s != "" {
      CountIsMultiplicity(s[1..], c);
      assert s == [s[0]] + s[1..];
    }
  }

  /** The second pass: the typed text itself, what starts with it, the same two without regard
      to case, what contains it, the earlier the better, and identifiers; then the sort texts,
      or the labels if one is missing. Each test counts only if those before it do not tell the
      two items apart. */
  lemma TestsInOrder(env: Env, typed: string, a: Item, b: Item)
    ensures
      var x, y, low := Label(env, a), Label(env, b), env.lower(typed);
      var lx, ly := env.lower(x), env.lower(y);
      var cmp := CompareItems(env, Some(typed), a, b);
      && (x == typed && y != typed ==> cmp < 0)
      && ((x == typed <==> y == typed) ==>
        && (StartsWith(x, typed) && !StartsWith(y, typed) ==> cmp < 0)
        && ((StartsWith(x, typed) <==> StartsWith(y, typed)) ==>
          && (env.fold(x) == env.fold(typed) && env.fold(y) != env.fold(typed) ==> cmp < 0)
          && ((env.fold(x) == env.fold(typed) <==> env.fold(y) == env.fold(typed)) ==>
            && (StartsWith(lx, low) && !StartsWith(ly, low) ==> cmp < 0)
            && ((StartsWith(lx, low) <==> StartsWith(ly, low)) ==>
              && (Contains(lx, low) && !Contains(ly, low) ==> cmp < 0)
              && ((Contains(lx, low) <==> Contains(ly, low)) ==>
                && (Contains(lx, low) && Delta(lx, low) < Delta(ly, low) ==> cmp < 0)
                && (Delta(lx, low) == Delta(ly, low) ==>
                  && (IsIdentifier(x, env.wordChars) && !IsIdentifier(y, env.wordChars) ==> cmp < 0)
                  && ((IsIdentifier(x, env.wordChars) <==> IsIdentifier(y, env.wordChars)) ==>
                    cmp == if a.sortText.Some? && b.sortText.Some? then Compare(a.sortText.value, b.sortText.value)
                           else Compare(env.fold(x), env.fold(y)))))))))
  {
    DeltaIsFirst(env.lower(Label(env, a)), env.lower(typed));
    DeltaIsFirst(env.lower(Label(env, b)), env.lower(typed));
  }

  // ----- the loops -----

  function LetterAt(k: nat): char
    requires k < 26
  {
    ('a' as int + k) as char
  }

  /** get_letter_counts */
  method GetLetterCounts(counts: array<int>, str: string)
    requires counts.Length == 26
    modifies counts
    ensures forall k :: 0 <= k < 26 ==> counts[k] == old(counts[k]) + Count(str, LetterAt(k))
  {
    var i := 0;
    while i < |str|
      invariant i <= |str|
      invariant forall k :: 0 <= k < 26 ==> counts[k] + Count(str[i..], LetterAt(k)) == old(counts[k]) + Count(str, LetterAt(k))
    {
      var c := str[i];
      assert str[i..][1..] == str[i + 1..] && str[i..][0] == c;
      if 'a' <= c <= 'z' {
        counts[c as int - 'a' as int] := counts[c as int - 'a' as int] + 1;
      }
      i := i + 1;
    }
    assert str[i..] == "";
  }

  /** should_filter */
  method ShouldFilterLoop(name: string, prefix: string) returns (r: bool)
    ensures r == ShouldFilter(name, prefix)
  {
    var nameLetters := new int[26](_ => 0);
    var prefixLetters := new int[26](_ => 0);
    GetLetterCounts(nameLetters, name);
    GetLetterCounts(prefixLetters, prefix);
    for k := 0 to 26
      invariant forall j :: 0 <= j < k ==> Count(name, LetterAt(j)) >= Count(prefix, LetterAt(j))
    {
      if nameLetters[k] < prefixLetters[k] {
        assert IsLetter(LetterAt(k)) && Count(name, LetterAt(k)) < Count(prefix, LetterAt(k));
        return true;
      }
    }
    forall c | IsLetter(c) ensures Count(name, c) >= Count(prefix, c) {
      assert c == LetterAt(c as int - 'a' as int);
    }
    if |prefix| >= 2 {
      var found := Strstr(name, prefix[..2]);
      if !found {
        return true;
      }
    }
    r := false;
  }

  method Strstr(s: string, t: string) returns (r: bool)
    ensures r == Contains(s, t)
  {
    for i := 0 to |s| + 1
      invariant forall j {:trigger s[j..]} :: 0 <= j < i ==> !StartsWith(s[j..], t)
    {
      if StartsWith(s[i..], t) {
        return true;
      }
    }
    r := false;
  }

  /** filter_autocomplete_symbols */
  method FilterSymbol(env: Env, item: Item, prefix: Option<string>) returns (r: bool)
    ensures r == Filtered(env, prefix, item)
  {
    if prefix.None? || prefix.value == "" {
      return false;
    }
    r := ShouldFilterLoop(env.lower(Label(env, item)), env.lower(prefix.value));
  }

  /** The loop of process_response over the sorted items */
  method DedupeAndFilter(env: Env, prefix: Option<string>, symbols: seq<Item>) returns (kept: seq<Item>)
    ensures kept == Selected(env, prefix, symbols, |symbols|)
  {
    kept := [];
    var entrySet: set<string> := {};
    for i := 0 to |symbols|
      invariant kept == Selected(env, prefix, symbols, i)
      invariant forall text :: text in entrySet <==> Used(env, prefix, symbols, i, text)
    {
      var displayLabel := DisplayLabel(env, symbols[i]);
      var filtered := FilterSymbol(env, symbols[i], prefix);
      UsedNext(env, prefix, symbols, i);
      if !(displayLabel in entrySet || filtered) {
        kept := kept + [symbols[i]];
        entrySet := entrySet + {displayLabel};
      }
    }
  }

  lemma UsedNext(env: Env, prefix: Option<string>, items: seq<Item>, i: nat)
    requires i < |items|
    ensures forall text :: (Used(env, prefix, items, i + 1, text) <==>
      Used(env, prefix, items, i, text) || (text == DisplayLabel(env, items[i]) && !Filtered(env, prefix, items[i])))
    ensures FirstUnfiltered(env, prefix, items, i)
      <==> !Filtered(env, prefix, items[i]) && !Used(env, prefix, items, i, DisplayLabel(env, items[i]))
  {
  }

  /** should_add: a single item that is already typed is not offered, unless it is a snippet. */
  predicate ShouldAdd(env: Env, symbols: seq<Item>, prefix: Option<string>) {
    |symbols| > 1 || (|symbols| == 1 && (prefix != Some(Label(env.(useLabel := false), symbols[0])) || symbols[0].isSnippet))
  }

  method ProcessResponse(env: Env, prefix: Option<string>, items: seq<Item>) returns (list: Option<seq<Item>>)
    ensures list == if ShouldAdd(env, Shown(env, prefix, items), prefix) then Some(Shown(env, prefix, items)) else None
    ensures list.Some? <==>
      var shown := Shown(env, prefix, items);
      shown != [] && !(|shown| == 1 && prefix == Some(Label(env.(useLabel := false), shown[0])) && !shown[0].isSnippet)
  {
    var symbols := Sort(Comparison(env, None), items);
    symbols := DedupeAndFilter(env, prefix, symbols);
    symbols := Sort(Comparison(env, prefix), symbols);
    list := if ShouldAdd(env, symbols, prefix) then Some(symbols) else None;
  }
}
