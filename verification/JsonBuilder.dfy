/** The builder (json-builder.c). Containers are shared: an open one is on the stack and
    already inside its parent, so the containers live in a heap and refer to each other by
    their index in it. */
module JsonBuilder {
  import opened Wrappers
  import opened JsonTree

  datatype Ref = Leaf(j: Json) | Box(id: nat)
  datatype Slot = Slot(name: string, ref: Ref)
  datatype Container = Items(items: seq<Ref>) | Slots(slots: seq<Slot>)
  type Heap = seq<Container>

  datatype Mode = InObject | InArray | InMember(name: string)
  datatype State = State(mode: Mode, id: nat)

  /** The builder's fields; the head of the stack is the innermost open container. */
  datatype Build = Build(heap: Heap, stack: seq<State>, root: Option<Ref>)

  datatype Call = BeginObject | BeginArray | EndObject | EndArray | SetName(name: string) | Add(j: Json)

  predicate AddMode(m: Mode) {
    m.InArray? || m.InMember?
  }

  function SetSlot(slots: seq<Slot>, name: string, r: Ref): seq<Slot> {
    if slots == [] then [Slot(name, r)]
    else if slots[0].name == name then [Slot(name, r)] + slots[1..]
    else [slots[0]] + SetSlot(slots[1..], name, r)
  }

  /** Adds a reference to the container on top of the stack. */
  function Attach(c: Container, m: Mode, r: Ref): Container {
    match (c, m)
    case (Items(items), InArray) => Items(items + [r])
    case (Slots(slots), InMember(n)) => Slots(SetSlot(slots, n, r))
    case _ => c
  }

  /** A member that got its value leaves its object open. */
  function AfterAdd(s: State): State {
    if s.mode.InMember? then s.(mode := InObject) else s
  }

  /** Every state refers to a container of the heap, and every open container but the first
      is inside the one below it. */
  ghost predicate Open(heap: Heap, stack: seq<State>) {
    && (forall i :: 0 <= i < |stack| ==> stack[i].id < |heap| && KindFits(heap[stack[i].id], stack[i].mode))
    && (forall i, j :: 0 <= i && j == i + 1 && j < |stack| ==> Holds(heap[stack[j].id], Box(stack[i].id)))
  }

  predicate KindFits(c: Container, m: Mode) {
    c.Items? <==> m.InArray?
  }

  ghost predicate Holds(c: Container, r: Ref) {
    match c
    case Items(items) => r in items
    case Slots(slots) => exists i :: 0 <= i < |slots| && slots[i].ref == r
  }

  predicate RefIn(r: Ref, low: nat, high: nat) {
    r.Box? ==> low <= r.id < high
  }

  predicate RefsIn(c: Container, low: nat, high: nat) {
    match c
    case Items(items) => forall i :: 0 <= i < |items| ==> RefIn(items[i], low, high)
    case Slots(slots) => forall i :: 0 <= i < |slots| ==> RefIn(slots[i].ref, low, high)
  }

  /** A container only refers to ones made after it. */
  ghost predicate Grounded(heap: Heap) {
    forall k {:trigger heap[k]} :: 0 <= k < |heap| ==> RefsIn(heap[k], k + 1, |heap|)
  }

  /** The root exists just when something was built and nothing is open; it is the first
      container made. */
  ghost predicate RootWhenDone(b: Build) {
    && (b.root.Some? <==> b.stack == [] && b.heap != [])
    && (b.root.Some? ==> b.root == Some(Box(0)))
    && (b.stack != [] ==> b.stack[|b.stack| - 1].id == 0)
  }

  /** Deeper states have smaller ids. */
  ghost predicate Stacked(stack: seq<State>) {
    forall i, j :: 0 <= i < j < |stack| ==> stack[j].id < stack[i].id
  }

  ghost predicate Inv(b: Build) {
    Grounded(b.heap) && Open(b.heap, b.stack) && Stacked(b.stack) && RootWhenDone(b)
  }

  // ----- the calls -----

  function Put(b: Build, r: Ref): Build
    requires b.stack != [] && b.stack[0].id < |b.heap|
  {
    var top := b.stack[0];
    Build(b.heap[top.id := Attach(b.heap[top.id], top.mode, r)], [AfterAdd(top)] + b.stack[1..], b.root)
  }

  function Begin(b: Build, c: Container, m: Mode): Option<Build> {
    if b.root.Some? then None
    else if b.stack == [] then Some(Build(b.heap + [c], [State(m, |b.heap|)], None))
    else if !AddMode(b.stack[0].mode) || b.stack[0].id >= |b.heap| then None
    else
      var p := Put(b, Box(|b.heap|));
      Some(Build(p.heap + [c], [State(m, |b.heap|)] + p.stack, None))
  }

  function End(b: Build, m: Mode): Option<Build> {
    if b.stack == [] || b.stack[0].mode != m then None
    else Some(Build(b.heap, b.stack[1..], if |b.stack| == 1 then Some(Box(b.stack[0].id)) else b.root))
  }

  /** None when the call is refused; the builder is then unchanged. */
  function Step(b: Build, call: Call): Option<Build> {
    match call
    case BeginObject => Begin(b, Slots([]), InObject)
    case BeginArray => Begin(b, Items([]), InArray)
    case EndObject => End(b, InObject)
    case EndArray => End(b, InArray)
    case SetName(n) =>
      if b.stack == [] || b.stack[0].mode != InObject then None
      else Some(b.(stack := [b.stack[0].(mode := InMember(n))] + b.stack[1..]))
    case Add(j) =>
      if b.stack == [] || !AddMode(b.stack[0].mode) || b.stack[0].id >= |b.heap| then None
      else Some(Put(b, Leaf(j)))
  }

  function Run(b: Build, calls: seq<Call>): Option<Build>
    decreases |calls|
  {
    if calls == [] then Some(b)
    else
      match Step(b, calls[0])
      case None => None
      case Some(next) => Run(next, calls[1..])
  }

  // ----- every call keeps the invariant -----

  lemma {:induction false} SetSlotRefs(slots: seq<Slot>, name: string, r: Ref, low: nat, high: nat)
    requires RefsIn(Slots(slots), low, high) && RefIn(r, low, high)
    ensures RefsIn(Slots(SetSlot(slots, name, r)), low, high)
    ensures Holds(Slots(SetSlot(slots, name, r)), r)
  {
    var result := SetSlot(slots, name, r);
    if slots == [] || slots[0].name == name {
      assert result[0].ref == r;
      forall i | 0 <= i < |result| ensures RefIn(result[i].ref, low, high) {
        if i > 0 { assert result[i] == slots[i]; }
      }
    } else {
      var later := slots[1..];
      assert forall i :: 0 <= i < |later| ==> later[i] == slots[i + 1];
      SetSlotRefs(later, name, r, low, high);
      var k :| 0 <= k < |SetSlot(later, name, r)| && SetSlot(later, name, r)[k].ref == r;
      assert result[k + 1].ref == r;
      forall i | 0 <= i < |result| ensures RefIn(result[i].ref, low, high) {
        if i > 0 { assert result[i] == SetSlot(later, name, r)[i - 1]; }
      }
    }
  }

  lemma AttachHolds(c: Container, m: Mode, r: Ref, low: nat, high: nat)
    requires RefsIn(c, low, high) && RefIn(r, low, high) && KindFits(c, m) && AddMode(m)
    ensures RefsIn(Attach(c, m, r), low, high) && Holds(Attach(c, m, r), r)
    ensures Attach(c, m, r).Items? == c.Items?
  {
    match (c, m)
    case (Items(items), InArray) => assert (items + [r])[|items|] == r;
    case (Slots(slots), InMember(n)) => SetSlotRefs(slots, n, r, low, high);
  }

  lemma Widen(c: Container, low: nat, high: nat)
    requires RefsIn(c, low, high)
    ensures RefsIn(c, low, high + 1)
  {
  }

  /** A reference put into the top container. The container it refers to may be the one
      about to be made. */
  lemma PutKeeps(b: Build, r: Ref)
    requires Inv(b) && b.stack != [] && AddMode(b.stack[0].mode)
    requires r.Leaf? || r == Box(|b.heap|)
    ensures
      var p := Put(b, r);
      && |p.heap| == |b.heap| && Open(p.heap, p.stack) && Stacked(p.stack)
      && (forall k {:trigger p.heap[k]} :: 0 <= k < |p.heap| ==> RefsIn(p.heap[k], k + 1, |p.heap| + 1))
      && Holds(p.heap[b.stack[0].id], r)
  {
    var p, t := Put(b, r), b.stack[0].id;
    forall k {:trigger p.heap[k]} | 0 <= k < |p.heap| ensures RefsIn(p.heap[k], k + 1, |p.heap| + 1) {
      Widen(b.heap[k], k + 1, |b.heap|);
      if k == t {
        AttachHolds(b.heap[t], b.stack[0].mode, r, t + 1, |b.heap| + 1);
      }
    }
    Widen(b.heap[t], t + 1, |b.heap|);
    AttachHolds(b.heap[t], b.stack[0].mode, r, t + 1, |b.heap| + 1);
    PutKeepsOpen(b, r);
  }

  lemma PutKeepsOpen(b: Build, r: Ref)
    requires Open(b.heap, b.stack) && Stacked(b.stack) && b.stack != [] && AddMode(b.stack[0].mode)
    requires b.stack[0].id < |b.heap|
    requires Attach(b.heap[b.stack[0].id], b.stack[0].mode, r).Items? == b.heap[b.stack[0].id].Items?
    ensures Open(Put(b, r).heap, Put(b, r).stack) && Stacked(Put(b, r).stack)
  {
    var p, t := Put(b, r), b.stack[0].id;
    forall i | 0 <= i < |p.stack| ensures p.stack[i].id == b.stack[i].id && KindFits(p.heap[p.stack[i].id], p.stack[i].mode) {
      if i > 0 { assert p.stack[i] == b.stack[i] && b.stack[i].id != t; }
    }
    forall i, j | 0 <= i && j == i + 1 && j < |p.stack| ensures Holds(p.heap[p.stack[j].id], Box(p.stack[i].id)) {
      assert b.stack[j].id != t && Holds(b.heap[b.stack[j].id], Box(b.stack[i].id));
    }
  }

  /** What Inv says when nothing is added to the heap. */
  lemma AddKeeps(b: Build, j: Json)
    requires Inv(b) && b.stack != [] && AddMode(b.stack[0].mode)
    ensures Inv(Put(b, Leaf(j)))
  {
    PutKeeps(b, Leaf(j));
    var p, t := Put(b, Leaf(j)), b.stack[0].id;
    AttachHolds(b.heap[t], b.stack[0].mode, Leaf(j), t + 1, |b.heap|);
    assert forall k {:trigger p.heap[k]} :: 0 <= k < |p.heap| && k != t ==> p.heap[k] == b.heap[k];
    assert Grounded(p.heap);
    assert p.stack[|p.stack| - 1].id == b.stack[|b.stack| - 1].id;
  }

  lemma PushKeepsOpen(heap: Heap, stack: seq<State>, c: Container, m: Mode)
    requires Open(heap, stack) && Stacked(stack) && KindFits(c, m)
    requires stack != [] ==> Holds(heap[stack[0].id], Box(|heap|))
    ensures Open(heap + [c], [State(m, |heap|)] + stack) && Stacked([State(m, |heap|)] + stack)
  {
    var more, deeper := heap + [c], [State(m, |heap|)] + stack;
    assert forall i :: 0 < i < |deeper| ==> deeper[i] == stack[i - 1];
    forall i, j | 0 <= i && j == i + 1 && j < |deeper| ensures Holds(more[deeper[j].id], Box(deeper[i].id)) {
      if i > 0 { assert Holds(heap[stack[i].id], Box(stack[i - 1].id)); }
    }
  }

  /** The container at the bottom stays there. */
  lemma BottomStays(b: Build, p: Build, next: Build)
    requires b.stack != [] && b.stack[|b.stack| - 1].id == 0 && |p.stack| == |b.stack| && p.stack[0].id == b.stack[0].id
    requires p.stack[1..] == b.stack[1..] && |next.stack| == |p.stack| + 1 && next.stack[1..] == p.stack
    ensures next.stack[|next.stack| - 1].id == 0
  {
    assert next.stack[|next.stack| - 1] == p.stack[|p.stack| - 1];
    if |p.stack| > 1 { assert p.stack[|p.stack| - 1] == p.stack[1..][|p.stack| - 2] == b.stack[1..][|p.stack| - 2]; }
  }

  lemma StillGrounded(heap: Heap, c: Container, more: Heap)
    requires forall k {:trigger heap[k]} :: 0 <= k < |heap| ==> RefsIn(heap[k], k + 1, |heap| + 1)
    requires RefsIn(c, |heap| + 1, |heap| + 1) && more == heap + [c]
    ensures Grounded(more)
  {
    forall k {:trigger more[k]} | 0 <= k < |more| ensures RefsIn(more[k], k + 1, |more|) {
      assert more[k] == if k < |heap| then heap[k] else c;
    }
  }

  lemma BeginInsideKeeps(b: Build, c: Container, m: Mode, p: Build, next: Build)
    requires Inv(b) && KindFits(c, m) && RefsIn(c, |b.heap| + 1, |b.heap| + 1) && b.stack != []
    requires Begin(b, c, m) == Some(next) && p == Put(b, Box(|b.heap|))
    ensures Inv(next)
  {
    PutKeeps(b, Box(|b.heap|));
    PushKeepsOpen(p.heap, p.stack, c, m);
    assert next.stack[1..] == p.stack && p.stack[1..] == b.stack[1..];
    BottomStays(b, p, next);
    StillGrounded(p.heap, c, next.heap);
  }

  lemma BeginKeeps(b: Build, c: Container, m: Mode)
    requires Inv(b) && KindFits(c, m) && RefsIn(c, |b.heap| + 1, |b.heap| + 1)
    ensures Begin(b, c, m).Some? ==> Inv(Begin(b, c, m).value)
  {
    if Begin(b, c, m).Some? {
      var next := Begin(b, c, m).value;
      if b.stack == [] {
        assert b.heap == [];
        assert next.heap == [c] && next.stack == [State(m, 0)];
      } else {
        BeginInsideKeeps(b, c, m, Put(b, Box(|b.heap|)), next);
      }
    }
  }

  lemma EndKeeps(b: Build, m: Mode)
    requires Inv(b)
    ensures End(b, m).Some? ==> Inv(End(b, m).value)
  {
    if End(b, m).Some? {
      var next := End(b, m).value;
      assert forall i :: 0 <= i < |next.stack| ==> next.stack[i] == b.stack[i + 1];
      forall i, j | 0 <= i && j == i + 1 && j < |next.stack| ensures Holds(next.heap[next.stack[j].id], Box(next.stack[i].id)) {
        assert Holds(b.heap[b.stack[j + 1].id], Box(b.stack[i + 1].id));
      }
    }
  }

  lemma SetNameKeeps(b: Build, n: string)
    requires Inv(b) && b.stack != [] && b.stack[0].mode == InObject
    ensures Inv(b.(stack := [b.stack[0].(mode := InMember(n))] + b.stack[1..]))
  {
    var next := b.(stack := [b.stack[0].(mode := InMember(n))] + b.stack[1..]);
    assert forall i :: 0 <= i < |next.stack| ==> next.stack[i].id == b.stack[i].id;
    assert forall i :: 0 < i < |next.stack| ==> next.stack[i] == b.stack[i];
    forall i, j | 0 <= i && j == i + 1 && j < |next.stack| ensures Holds(next.heap[next.stack[j].id], Box(next.stack[i].id)) {
      assert Holds(b.heap[b.stack[j].id], Box(b.stack[i].id));
    }
  }

  lemma StepKeeps(b: Build, call: Call)
    requires Inv(b)
    ensures Step(b, call).Some? ==> Inv(Step(b, call).value)
  {
    match call
    case BeginObject => BeginKeeps(b, Slots([]), InObject);
    case BeginArray => BeginKeeps(b, Items([]), InArray);
    case EndObject => EndKeeps(b, InObject);
    case EndArray => EndKeeps(b, InArray);
    case SetName(n) =>
      if Step(b, call).Some? { SetNameKeeps(b, n); }
    case Add(j) =>
      if Step(b, call).Some? { AddKeeps(b, j); }
  }

  const EMPTY := Build([], [], None)

  /** In every reachable state each open container is attached inside the one below it, and
      the root exists only when none is open. */
  lemma {:induction false} EveryRun(b: Build, calls: seq<Call>)
    requires Inv(b)
    ensures Run(b, calls).Some? ==> Inv(Run(b, calls).value)
    decreases |calls|
  {
    if calls != [] && Step(b, calls[0]).Some? {
      StepKeeps(b, calls[0]);
      EveryRun(Step(b, calls[0]).value, calls[1..]);
    }
  }

  // ----- the tree in the heap -----

  /** The number of containers at or after a reference. */
  function Above(heap: Heap, r: Ref): nat
    requires RefIn(r, 0, |heap|)
  {
    if r.Leaf? then 0 else |heap| - r.id
  }

  /** The tree a reference stands for. */
  function Resolve(heap: Heap, r: Ref): Json
    requires Grounded(heap) && RefIn(r, 0, |heap|)
    decreases Above(heap, r), 0
  {
    match r
    case Leaf(j) => j
    case Box(k) =>
      assert RefsIn(heap[k], k + 1, |heap|);
      match heap[k]
      case Items(items) => Arr(ResolveItems(heap, items, k + 1))
      case Slots(slots) => Obj(ResolveSlots(heap, slots, k + 1))
  }

  function ResolveItems(heap: Heap, items: seq<Ref>, low: nat): (es: seq<Json>)
    requires Grounded(heap) && low <= |heap| && RefsIn(Items(items), low, |heap|)
    ensures |es| == |items|
    decreases |heap| - low, 1 + |items|
  {
    if items == [] then [] else [Resolve(heap, items[0])] + ResolveItems(heap, items[1..], low)
  }

  function ResolveSlots(heap: Heap, slots: seq<Slot>, low: nat): (ms: seq<Member>)
    requires Grounded(heap) && low <= |heap| && RefsIn(Slots(slots), low, |heap|)
    ensures |ms| == |slots|
    decreases |heap| - low, 1 + |slots|
  {
    if slots == [] then [] else [Member(slots[0].name, Resolve(heap, slots[0].ref))] + ResolveSlots(heap, slots[1..], low)
  }

  /** The later heap has the containers of the earlier one from `low` on. */
  ghost predicate Agree(h1: Heap, h2: Heap, low: nat) {
    |h1| <= |h2| && forall k :: low <= k < |h1| ==> h1[k] == h2[k]
  }

  /** A tree does not change when containers before it change and others are made. */
  lemma {:induction false} ResolveFrame(h1: Heap, h2: Heap, low: nat, r: Ref)
    requires Grounded(h1) && Grounded(h2) && Agree(h1, h2, low) && RefIn(r, low, |h1|)
    ensures RefIn(r, low, |h2|) && Resolve(h1, r) == Resolve(h2, r)
    decreases Above(h1, r), 0
  {
    match r
    case Leaf(j) =>
    case Box(k) =>
      assert RefsIn(h1[k], k + 1, |h1|) && h1[k] == h2[k];
      match h1[k]
      case Items(items) => ItemsFrame(h1, h2, k + 1, items);
      case Slots(slots) => SlotsFrame(h1, h2, k + 1, slots);
  }

  lemma {:induction false} ItemsFrame(h1: Heap, h2: Heap, low: nat, items: seq<Ref>)
    requires Grounded(h1) && Grounded(h2) && Agree(h1, h2, low) && low <= |h1| && RefsIn(Items(items), low, |h1|)
    ensures RefsIn(Items(items), low, |h2|) && ResolveItems(h1, items, low) == ResolveItems(h2, items, low)
    decreases |h1| - low, 1 + |items|
  {
    if items != [] {
      ResolveFrame(h1, h2, low, items[0]);
      ItemsFrame(h1, h2, low, items[1..]);
    }
  }

  lemma {:induction false} SlotsFrame(h1: Heap, h2: Heap, low: nat, slots: seq<Slot>)
    requires Grounded(h1) && Grounded(h2) && Agree(h1, h2, low) && low <= |h1| && RefsIn(Slots(slots), low, |h1|)
    ensures RefsIn(Slots(slots), low, |h2|) && ResolveSlots(h1, slots, low) == ResolveSlots(h2, slots, low)
    decreases |h1| - low, 1 + |slots|
  {
    if slots != [] {
      ResolveFrame(h1, h2, low, slots[0].ref);
      SlotsFrame(h1, h2, low, slots[1..]);
    }
  }

  // ----- what a sequence of calls builds -----

  /** Calls that belong together: one value, or all between a Begin and its End. */
  datatype Script = Value(j: Json) | ArrayOf(items: seq<Script>) | ObjectOf(entries: seq<Entry>)
  datatype Entry = Entry(name: string, script: Script)

  function Calls(s: Script): seq<Call> {
    match s
    case ArrayOf(items) => [BeginArray] + ItemCalls(items) + [EndArray]
    case ObjectOf(entries) => [BeginObject] + EntryCalls(entries) + [EndObject]
    case Value(j) => [Add(j)]
  }

  function ItemCalls(items: seq<Script>): seq<Call> {
    if items == [] then [] else Calls(items[0]) + ItemCalls(items[1..])
  }

  function EntryCalls(entries: seq<Entry>): seq<Call> {
    if entries == [] then [] else [SetName(entries[0].name)] + Calls(entries[0].script) + EntryCalls(entries[1..])
  }

  /** The tree of a script: a name that is set again keeps its place and gets the later value. */
  function Tree(s: Script): Json {
    match s
    case ArrayOf(items) => Arr(ItemTrees(items))
    case ObjectOf(entries) => Obj(EntryTrees(entries, []))
    case Value(j) => j
  }

  function ItemTrees(items: seq<Script>): (es: seq<Json>)
    ensures |es| == |items|
  {
    if items == [] then [] else [Tree(items[0])] + ItemTrees(items[1..])
  }

  function EntryTrees(entries: seq<Entry>, ms: seq<Member>): seq<Member>
    decreases entries
  {
    if entries == [] then ms
    else EntryTrees(entries[1..], SetMember(ms, entries[0].name, Tree(entries[0].script)))
  }

  /** The builder takes a value next. */
  ghost predicate Ready(b: Build) {
    Inv(b) && b.root.None? && (b.stack != [] ==> AddMode(b.stack[0].mode))
  }

  /** `b2` is `b` with one reference added and, possibly, new containers. */
  ghost predicate Grew(b: Build, b2: Build, r: Ref) {
    && Inv(b2)
    && |b.heap| <= |b2.heap|
    && RefIn(r, |b.heap|, |b2.heap|)
    && if b.stack == [] then b2.stack == [] && b2.root == Some(r)
       else
         && b.stack[0].id < |b.heap|
         && b2.stack == Put(b, r).stack && b2.root.None?
         && Agree(Put(b, r).heap, b2.heap, 0)
  }

  lemma RunFirst(b: Build, call: Call, calls: seq<Call>)
    ensures Run(b, [call] + calls) == match Step(b, call) case None => None case Some(next) => Run(next, calls)
  {
    assert ([call] + calls)[1..] == calls;
  }

  lemma {:induction false} TreeBuilds(b: Build, s: Script, rest: seq<Call>) returns (b2: Build, r: Ref)
    requires Ready(b) && (b.stack == [] ==> !s.Value?)
    ensures Grew(b, b2, r) && Resolve(b2.heap, r) == Tree(s)
    ensures Run(b, Calls(s) + rest) == Run(b2, rest)
    decreases s, 2
  {
    match s
    case ArrayOf(items) => b2, r := ArrayBuilds(b, items, rest);
    case ObjectOf(entries) => b2, r := ObjectBuilds(b, entries, rest);
    case Value(j) =>
      r := Leaf(j);
      b2 := Put(b, r);
      AddKeeps(b, j);
      RunFirst(b, Add(j), rest);
  }

  lemma {:induction false} ArrayBuilds(b: Build, items: seq<Script>, rest: seq<Call>) returns (b2: Build, r: Ref)
    requires Ready(b)
    ensures Grew(b, b2, r) && Resolve(b2.heap, r) == Arr(ItemTrees(items))
    ensures Run(b, Calls(ArrayOf(items)) + rest) == Run(b2, rest)
    decreases items, 1
  {
    ContainerCalls(BeginArray, ItemCalls(items), EndArray, rest);
    var b1 := ArrayOpens(b, ItemCalls(items) + ([EndArray] + rest));
    var full, refs := ItemsBuild(b1, items, [EndArray] + rest);
    b2, r := ArrayCloses(b, b1, full, refs, items, rest);
  }

  lemma ContainerCalls(begin: Call, inner: seq<Call>, end: Call, rest: seq<Call>)
    ensures [begin] + inner + [end] + rest == [begin] + (inner + ([end] + rest))
  {
  }

  lemma ArrayOpens(b: Build, rest: seq<Call>) returns (b1: Build)
    requires Ready(b)
    ensures Begin(b, Items([]), InArray) == Some(b1) && Inv(b1) && b1.root.None?
    ensures |b1.heap| == |b.heap| + 1 && b1.heap[|b.heap|] == Items([])
    ensures b1.stack != [] && b1.stack[0] == State(InArray, |b.heap|)
    ensures Run(b, [BeginArray] + rest) == Run(b1, rest)
  {
    b1 := Begin(b, Items([]), InArray).value;
    BeginKeeps(b, Items([]), InArray);
    RunFirst(b, BeginArray, rest);
  }

  lemma BuiltArray(heap: Heap, k: nat, next: nat, refs: seq<Ref>, items: seq<Script>)
    requires Grounded(heap) && k < |heap| && heap[k] == Items([] + refs) && next == k + 1
    requires RefsIn(Items(refs), next, |heap|) && ResolveItems(heap, refs, next) == ItemTrees(items)
    ensures Resolve(heap, Box(k)) == Arr(ItemTrees(items))
  {
    assert [] + refs == refs;
    ResolvedArray(heap, k, next, refs);
  }

  /** The array just begun, closed again. */
  lemma ArrayCloses(b: Build, b1: Build, full: Build, refs: seq<Ref>, items: seq<Script>, rest: seq<Call>) returns (b2: Build, r: Ref)
    requires Ready(b) && Begin(b, Items([]), InArray) == Some(b1) && ItemsBuilt(b1, [], full, refs, items)
    requires b1.stack != [] && b1.stack[0] == State(InArray, |b.heap|)
    ensures Grew(b, b2, r) && Resolve(b2.heap, r) == Arr(ItemTrees(items))
    ensures Run(full, [EndArray] + rest) == Run(b2, rest)
  {
    r := Box(|b.heap|);
    FilledBehind(b, Items([]), InArray, b1, full);
    b2 := EndedGrew(b, Items([]), InArray, full, EndArray, rest);
    BuiltArray(full.heap, |b.heap|, |b.heap| + 1, refs, items);
  }

  /** What was there before the container was begun is as it was then. */
  lemma FilledBehind(b: Build, c: Container, m: Mode, b1: Build, full: Build)
    requires Ready(b) && Begin(b, c, m) == Some(b1) && b1.stack != [] && b1.stack[0] == State(m, |b.heap|)
    requires Filled(b1, full)
    ensures Inv(full) && full.stack == b1.stack && full.root.None? && |b.heap| < |full.heap|
    ensures forall k :: 0 <= k < |b.heap| ==> full.heap[k] == b1.heap[k]
  {
    assert |b1.heap| == |b.heap| + 1;
  }

  lemma ResolvedArray(heap: Heap, k: nat, next: nat, refs: seq<Ref>)
    requires Grounded(heap) && k < |heap| && heap[k] == Items(refs) && next == k + 1
    requires RefsIn(Items(refs), next, |heap|)
    ensures Resolve(heap, Box(k)) == Arr(ResolveItems(heap, refs, next))
  {
  }

  /** Closing the container that was begun leaves the one below as if it had been put there. */
  lemma EndedGrew(b: Build, c: Container, m: Mode, full: Build, call: Call, rest: seq<Call>) returns (b2: Build)
    requires Ready(b) && Begin(b, c, m).Some?
    requires (m == InArray && call == EndArray) || (m == InObject && call == EndObject)
    requires Inv(full) && full.stack == Begin(b, c, m).value.stack && full.root.None?
    requires |b.heap| < |full.heap|
    requires forall k :: 0 <= k < |b.heap| ==> full.heap[k] == Begin(b, c, m).value.heap[k]
    ensures Grew(b, b2, Box(|b.heap|)) && b2.heap == full.heap
    ensures Run(full, [call] + rest) == Run(b2, rest)
  {
    EndKeeps(full, m);
    assert full.stack[0] == State(m, |b.heap|);
    b2 := End(full, m).value;
    RunFirst(full, call, rest);
    if b.stack == [] {
      assert b.heap == [];
    } else {
      assert full.stack[1..] == Put(b, Box(|b.heap|)).stack;
    }
  }

  /** Only the open container has changed, besides the new ones. */
  ghost predicate Filled(b: Build, full: Build) {
    && Inv(b) && Inv(full) && b.stack != [] && full.stack == b.stack && full.root.None?
    && |b.heap| <= |full.heap|
    && forall k :: 0 <= k < |b.heap| && k != b.stack[0].id ==> full.heap[k] == b.heap[k]
  }

  lemma FilledFrame(b: Build, full: Build, r: Ref)
    requires Filled(b, full) && RefIn(r, b.stack[0].id + 1, |b.heap|)
    ensures RefIn(r, b.stack[0].id + 1, |full.heap|) && Resolve(b.heap, r) == Resolve(full.heap, r)
  {
    ResolveFrame(b.heap, full.heap, b.stack[0].id + 1, r);
  }

  /** The open array had `before` and has got the references `refs`, which stand for the items. */
  ghost predicate ItemsBuilt(b: Build, before: seq<Ref>, full: Build, refs: seq<Ref>, items: seq<Script>) {
    && Filled(b, full)
    && full.heap[b.stack[0].id] == Items(before + refs)
    && RefsIn(Items(refs), b.stack[0].id + 1, |full.heap|)
    && ResolveItems(full.heap, refs, b.stack[0].id + 1) == ItemTrees(items)
  }

  lemma {:induction false} ItemsBuild(b: Build, items: seq<Script>, rest: seq<Call>) returns (full: Build, refs: seq<Ref>)
    requires Inv(b) && b.root.None? && b.stack != [] && b.stack[0].mode == InArray
    ensures b.heap[b.stack[0].id].Items?
    ensures ItemsBuilt(b, b.heap[b.stack[0].id].items, full, refs, items)
    ensures Run(b, ItemCalls(items) + rest) == Run(full, rest)
    decreases items, 0
  {
    if items == [] {
      full, refs := b, [];
      assert ItemCalls(items) + rest == rest;
      assert b.heap[b.stack[0].id].items + [] == b.heap[b.stack[0].id].items;
      return;
    }
    ItemCallsFirst(items, rest);
    var b1, r := TreeBuilds(b, items[0], ItemCalls(items[1..]) + rest);
    FirstItemFills(b, b1, r);
    var others: seq<Ref>;
    full, others := ItemsBuild(b1, items[1..], rest);
    refs := [r] + others;
    MoreItemsBuilt(b, b1, r, full, others, items);
  }

  lemma ItemCallsFirst(items: seq<Script>, rest: seq<Call>)
    requires items != []
    ensures ItemCalls(items) + rest == Calls(items[0]) + (ItemCalls(items[1..]) + rest)
  {
  }

  lemma FilledTwice(b: Build, b1: Build, full: Build)
    requires Filled(b, b1) && Filled(b1, full)
    ensures Filled(b, full)
  {
  }

  lemma MoreItemsBuilt(b: Build, b1: Build, r: Ref, full: Build, others: seq<Ref>, items: seq<Script>)
    requires Filled(b, b1) && items != [] && b.heap[b.stack[0].id].Items? && RefIn(r, b.stack[0].id + 1, |b1.heap|)
    requires Resolve(b1.heap, r) == Tree(items[0])
    requires ItemsBuilt(b1, b.heap[b.stack[0].id].items + [r], full, others, items[1..])
    ensures ItemsBuilt(b, b.heap[b.stack[0].id].items, full, [r] + others, items)
  {
    FilledTwice(b, b1, full);
    FilledFrame(b1, full, r);
    var refs := [r] + others;
    assert b.heap[b.stack[0].id].items + refs == (b.heap[b.stack[0].id].items + [r]) + others;
    assert refs[1..] == others;
  }

  lemma FirstItemFills(b: Build, b1: Build, r: Ref)
    requires Inv(b) && b.root.None? && b.stack != [] && b.stack[0].mode == InArray && Grew(b, b1, r)
    ensures Filled(b, b1) && b1.stack == b.stack
    ensures b1.heap[b.stack[0].id] == Items(b.heap[b.stack[0].id].items + [r])
    ensures RefIn(r, b.stack[0].id + 1, |b1.heap|)
  {
    assert b1.stack == [b.stack[0]] + b.stack[1..];
  }

  lemma {:induction false} ObjectBuilds(b: Build, entries: seq<Entry>, rest: seq<Call>) returns (b2: Build, r: Ref)
    requires Ready(b)
    ensures Grew(b, b2, r) && Resolve(b2.heap, r) == Obj(EntryTrees(entries, []))
    ensures Run(b, Calls(ObjectOf(entries)) + rest) == Run(b2, rest)
    decreases entries, 1
  {
    ContainerCalls(BeginObject, EntryCalls(entries), EndObject, rest);
    var b1 := ObjectOpens(b, EntryCalls(entries) + ([EndObject] + rest));
    var full := EntriesBuild(b1, [], entries, [EndObject] + rest);
    b2, r := ObjectCloses(b, b1, full, entries, rest);
  }

  lemma ObjectOpens(b: Build, rest: seq<Call>) returns (b1: Build)
    requires Ready(b)
    ensures Begin(b, Slots([]), InObject) == Some(b1) && Inv(b1) && b1.root.None?
    ensures |b1.heap| == |b.heap| + 1 && b1.heap[|b.heap|] == Slots([])
    ensures b1.stack != [] && b1.stack[0] == State(InObject, |b.heap|)
    ensures HoldsMembers(b1, [])
    ensures Run(b, [BeginObject] + rest) == Run(b1, rest)
  {
    b1 := Begin(b, Slots([]), InObject).value;
    BeginKeeps(b, Slots([]), InObject);
    RunFirst(b, BeginObject, rest);
    ResolvedObject(b1.heap, |b.heap|, |b.heap| + 1, []);
  }

  lemma ObjectCloses(b: Build, b1: Build, full: Build, entries: seq<Entry>, rest: seq<Call>) returns (b2: Build, r: Ref)
    requires Ready(b) && Begin(b, Slots([]), InObject) == Some(b1) && Filled(b1, full) && HoldsMembers(full, EntryTrees(entries, []))
    requires b1.stack != [] && b1.stack[0] == State(InObject, |b.heap|)
    ensures Grew(b, b2, r) && Resolve(b2.heap, r) == Obj(EntryTrees(entries, []))
    ensures Run(full, [EndObject] + rest) == Run(b2, rest)
  {
    r := Box(|b.heap|);
    FilledBehind(b, Slots([]), InObject, b1, full);
    b2 := EndedGrew(b, Slots([]), InObject, full, EndObject, rest);
  }

  /** The innermost open container is an object with these members. */
  ghost predicate HoldsMembers(b: Build, ms: seq<Member>) {
    && Inv(b) && b.stack != [] && b.stack[0].id < |b.heap|
    && Resolve(b.heap, Box(b.stack[0].id)) == Obj(ms)
  }

  lemma SlotsAreGrounded(heap: Heap, k: nat, next: nat, slots: seq<Slot>)
    requires Grounded(heap) && k < |heap| && heap[k] == Slots(slots) && next == k + 1
    ensures RefsIn(Slots(slots), next, |heap|)
  {
  }

  lemma ResolvedObject(heap: Heap, k: nat, next: nat, slots: seq<Slot>)
    requires Grounded(heap) && k < |heap| && heap[k] == Slots(slots) && next == k + 1
    requires RefsIn(Slots(slots), next, |heap|)
    ensures Resolve(heap, Box(k)) == Obj(ResolveSlots(heap, slots, next))
  {
  }

  lemma {:induction false} ResolvedSetSlot(heap: Heap, slots: seq<Slot>, low: nat, name: string, r: Ref)
    requires Grounded(heap) && low <= |heap| && RefsIn(Slots(slots), low, |heap|) && RefIn(r, low, |heap|)
    ensures RefsIn(Slots(SetSlot(slots, name, r)), low, |heap|)
    ensures ResolveSlots(heap, SetSlot(slots, name, r), low) == SetMember(ResolveSlots(heap, slots, low), name, Resolve(heap, r))
    decreases |slots|
  {
    SetSlotRefs(slots, name, r, low, |heap|);
    if slots == [] {
      assert [Slot(name, r)][1..] == [] && ResolveSlots(heap, [], low) == [];
    } else if slots[0].name == name {
      assert ([Slot(name, r)] + slots[1..])[1..] == slots[1..];
    } else {
      assert ([slots[0]] + SetSlot(slots[1..], name, r))[1..] == SetSlot(slots[1..], name, r);
      ResolvedSetSlot(heap, slots[1..], low, name, r);
    }
  }

  lemma {:induction false} EntriesBuild(b: Build, ms: seq<Member>, entries: seq<Entry>, rest: seq<Call>) returns (full: Build)
    requires Inv(b) && b.root.None? && b.stack != [] && b.stack[0].mode == InObject && HoldsMembers(b, ms)
    ensures Filled(b, full) && HoldsMembers(full, EntryTrees(entries, ms))
    ensures Run(b, EntryCalls(entries) + rest) == Run(full, rest)
    decreases entries, 0
  {
    if entries == [] {
      full := b;
      assert EntryCalls(entries) + rest == rest;
      return;
    }
    var name, s := entries[0].name, entries[0].script;
    EntryCallsFirst(entries, rest);
    var named := EntryNamed(b, name, Calls(s) + (EntryCalls(entries[1..]) + rest));
    var b1, r := TreeBuilds(named, s, EntryCalls(entries[1..]) + rest);
    FirstEntryFills(b, ms, named, name, b1, r);
    full := EntriesBuild(b1, SetMember(ms, name, Tree(s)), entries[1..], rest);
    FilledTwice(b, b1, full);
  }

  lemma EntryNamed(b: Build, name: string, rest: seq<Call>) returns (named: Build)
    requires Inv(b) && b.root.None? && b.stack != [] && b.stack[0].mode == InObject
    ensures named == b.(stack := [b.stack[0].(mode := InMember(name))] + b.stack[1..]) && Ready(named)
    ensures Run(b, [SetName(name)] + rest) == Run(named, rest)
  {
    named := b.(stack := [b.stack[0].(mode := InMember(name))] + b.stack[1..]);
    SetNameKeeps(b, name);
    RunFirst(b, SetName(name), rest);
  }

  lemma EntryCallsFirst(entries: seq<Entry>, rest: seq<Call>)
    requires entries != []
    ensures EntryCalls(entries) + rest
         == [SetName(entries[0].name)] + (Calls(entries[0].script) + (EntryCalls(entries[1..]) + rest))
  {
  }

  /** What putting a reference into an object does to its tree. */
  lemma SlotSet(h1: Heap, h2: Heap, k: nat, next: nat, slots: seq<Slot>, name: string, r: Ref)
    requires Grounded(h1) && Grounded(h2) && k < |h1| && next == k + 1 && Agree(h1, h2, next)
    requires h1[k] == Slots(slots) && h2[k] == Slots(SetSlot(slots, name, r)) && RefIn(r, next, |h2|)
    ensures Resolve(h1, Box(k)).Obj? && Resolve(h2, Box(k)) == Obj(SetMember(Resolve(h1, Box(k)).members, name, Resolve(h2, r)))
  {
    SlotsAreGrounded(h1, k, next, slots);
    SlotsAreGrounded(h2, k, next, SetSlot(slots, name, r));
    ResolvedObject(h1, k, next, slots);
    SlotsFrame(h1, h2, next, slots);
    ResolvedSetSlot(h2, slots, next, name, r);
    ResolvedObject(h2, k, next, SetSlot(slots, name, r));
  }

  lemma FirstEntryFills(b: Build, ms: seq<Member>, named: Build, name: string, b1: Build, r: Ref)
    requires Inv(b) && b.root.None? && b.stack != [] && b.stack[0].mode == InObject && HoldsMembers(b, ms)
    requires named == b.(stack := [b.stack[0].(mode := InMember(name))] + b.stack[1..]) && Grew(named, b1, r)
    ensures Filled(b, b1) && b1.stack == b.stack
    ensures HoldsMembers(b1, SetMember(ms, name, Resolve(b1.heap, r)))
  {
    var k := b.stack[0].id;
    var slots := b.heap[k].slots;
    assert b1.stack == [b.stack[0]] + b.stack[1..];
    assert b1.heap[k] == Slots(SetSlot(slots, name, r));
    SlotSet(b.heap, b1.heap, k, k + 1, slots, name, r);
  }

  lemma {:induction false} RunConcat(b: Build, first: seq<Call>, later: seq<Call>)
    ensures Run(b, first + later) == match Run(b, first) case None => None case Some(c) => Run(c, later)
    decreases |first|
  {
    if first == [] {
      assert first + later == later;
    } else {
      assert (first + later)[1..] == first[1..] + later;
      if Step(b, first[0]).Some? { RunConcat(Step(b, first[0]).value, first[1..], later); }
    }
  }

  /** A builder with a root refuses every call. */
  lemma RootStops(b: Build, call: Call)
    requires Inv(b) && b.root.Some?
    ensures Step(b, call).None?
  {
  }

  /** In a run that succeeds the root is missing until the last call. */
  lemma RootOnlyAtTheEnd(calls: seq<Call>, n: nat)
    requires n < |calls| && Run(EMPTY, calls).Some?
    ensures Run(EMPTY, calls[..n]).Some? && Run(EMPTY, calls[..n]).value.root.None?
  {
    assert calls == calls[..n] + calls[n..];
    RunConcat(EMPTY, calls[..n], calls[n..]);
    EveryRun(EMPTY, calls[..n]);
    var b := Run(EMPTY, calls[..n]).value;
    assert Step(b, calls[n..][0]).Some?;
    if b.root.Some? {
      RootStops(b, calls[n..][0]);
    }
  }

  // ----- only such calls succeed -----

  lemma RunSplit(b: Build, calls: seq<Call>)
    requires calls != []
    ensures calls == [calls[0]] + calls[1..]
    ensures Run(b, calls) == match Step(b, calls[0]) case None => None case Some(next) => Run(next, calls[1..])
  {
  }

  ghost predicate Finishes(b: Build, calls: seq<Call>) {
    Run(b, calls).Some? && Run(b, calls).value.root.Some?
  }

  /** Calls that finish the root start with those of one value, where a value is due. */
  lemma {:induction false} FindScript(b: Build, calls: seq<Call>) returns (s: Script, rest: seq<Call>)
    requires Ready(b) && Finishes(b, calls)
    requires calls != [] && (b.stack != [] ==> calls[0] != EndArray)
    ensures calls == Calls(s) + rest && (b.stack == [] ==> !s.Value?)
    decreases |calls|, 0
  {
    RunSplit(b, calls);
    match calls[0]
    case BeginArray =>
      var b1 := ArrayOpens(b, calls[1..]);
      var items;
      items, rest := FindItems(b1, calls[1..]);
      s := ArrayOf(items);
      ContainerCalls(BeginArray, ItemCalls(items), EndArray, rest);
    case BeginObject =>
      var b1 := ObjectOpens(b, calls[1..]);
      var entries;
      entries, rest := FindEntries(b1, [], calls[1..]);
      s := ObjectOf(entries);
      ContainerCalls(BeginObject, EntryCalls(entries), EndObject, rest);
    case Add(j) =>
      s, rest := Value(j), calls[1..];
  }

  lemma {:induction false} FindItems(b: Build, calls: seq<Call>) returns (items: seq<Script>, rest: seq<Call>)
    requires Inv(b) && b.root.None? && b.stack != [] && b.stack[0].mode == InArray && Finishes(b, calls)
    ensures calls == ItemCalls(items) + ([EndArray] + rest)
    decreases |calls|, 1
  {
    RunSplit(b, calls);
    if calls[0] == EndArray {
      items, rest := [], calls[1..];
      return;
    }
    var s, later := FindScript(b, calls);
    var b1, r := TreeBuilds(b, s, later);
    FirstItemFills(b, b1, r);
    CallsNotEmpty(s);
    items, rest := FindItems(b1, later);
    items := [s] + items;
    ItemCallsFirst(items, [EndArray] + rest);
  }

  lemma CallsNotEmpty(s: Script)
    ensures |Calls(s)| > 0
  {
  }

  lemma {:induction false} FindEntries(b: Build, ms: seq<Member>, calls: seq<Call>) returns (entries: seq<Entry>, rest: seq<Call>)
    requires Inv(b) && b.root.None? && b.stack != [] && b.stack[0].mode == InObject && HoldsMembers(b, ms) && Finishes(b, calls)
    ensures calls == EntryCalls(entries) + ([EndObject] + rest)
    decreases |calls|, 1
  {
    RunSplit(b, calls);
    if calls[0] == EndObject {
      entries, rest := [], calls[1..];
      return;
    }
    var name := calls[0].name;
    var named := EntryNamed(b, name, calls[1..]);
    assert calls[1..] != [] && calls[1..][0] != EndArray;
    var s, later := FindScript(named, calls[1..]);
    var b1, r := TreeBuilds(named, s, later);
    FirstEntryFills(b, ms, named, name, b1, r);
    entries, rest := FindEntries(b1, SetMember(ms, name, Resolve(b1.heap, r)), later);
    entries := [Entry(name, s)] + entries;
    EntryCallsFirst(entries, [EndObject] + rest);
  }

  /** Calls give the root `j` exactly when they are those of a container, each Begin with its
      End, each member with its name, whose tree is `j`. */
  lemma {:induction false} BuildsIff(calls: seq<Call>, j: Json)
    ensures
      (Finishes(EMPTY, calls) && Grounded(Run(EMPTY, calls).value.heap) && |Run(EMPTY, calls).value.heap| > 0
       && Run(EMPTY, calls).value.root == Some(Box(0)) && Resolve(Run(EMPTY, calls).value.heap, Box(0)) == j)
      <==> exists s: Script :: !s.Value? && calls == Calls(s) && Tree(s) == j
  {
    assert Ready(EMPTY);
    if Finishes(EMPTY, calls) {
      var s, rest := FindScript(EMPTY, calls);
      var done, r := TreeBuilds(EMPTY, s, rest);
      if rest != [] {
        RootStops(done, rest[0]);
        RunSplit(done, rest);
      }
      assert Calls(s) + [] == Calls(s);
    }
    forall s: Script | !s.Value? && calls == Calls(s) && Tree(s) == j
      ensures Finishes(EMPTY, calls) && Inv(Run(EMPTY, calls).value) && Resolve(Run(EMPTY, calls).value.heap, Box(0)) == j
    {
      var done, r := TreeBuilds(EMPTY, s, []);
      assert Calls(s) + [] == Calls(s);
    }
  }

  // ----- traversing a tree -----

  function AsScript(j: Json): Script {
    match j
    case Arr(es) => ArrayOf(AsItems(es))
    case Obj(ms) => ObjectOf(AsEntries(ms))
    case _ => Value(j)
  }

  function AsItems(es: seq<Json>): seq<Script> {
    if es == [] then [] else [AsScript(es[0])] + AsItems(es[1..])
  }

  function AsEntries(ms: seq<Member>): seq<Entry> {
    if ms == [] then [] else [Entry(ms[0].name, AsScript(ms[0].value))] + AsEntries(ms[1..])
  }

  lemma {:induction false} TreeOfTraversal(j: Json)
    requires WellFormed(j)
    ensures Tree(AsScript(j)) == j
    decreases j, 1
  {
    match j
    case Arr(es) => TreesOfItems(es);
    case Obj(ms) =>
      TreesOfEntries(ms, []);
      assert [] + ms == ms;
    case _ =>
  }

  lemma {:induction false} TreesOfItems(es: seq<Json>)
    requires forall i :: 0 <= i < |es| ==> WellFormed(es[i])
    ensures ItemTrees(AsItems(es)) == es
    decreases es, 0
  {
    if es != [] {
      TreeOfTraversal(es[0]);
      TreesOfItems(es[1..]);
      assert AsItems(es)[1..] == AsItems(es[1..]);
    }
  }

  lemma {:induction false} TreesOfEntries(ms: seq<Member>, done: seq<Member>)
    requires UniqueNames(done + ms) && forall i :: 0 <= i < |ms| ==> WellFormed(ms[i].value)
    ensures EntryTrees(AsEntries(ms), done) == done + ms
    decreases ms, 0
  {
    if ms == [] {
      assert done + ms == done;
    } else {
      TreeOfTraversal(ms[0].value);
      forall i | 0 <= i < |done| ensures done[i].name != ms[0].name {
        assert (done + ms)[i].name != (done + ms)[|done|].name;
      }
      SetNewMember(done, ms[0].name, ms[0].value);
      assert done + [ms[0]] + ms[1..] == done + ms;
      assert AsEntries(ms)[1..] == AsEntries(ms[1..]);
      TreesOfEntries(ms[1..], done + [ms[0]]);
    }
  }

  /** Replaying the traversal of any container tree with unique member names gives exactly
      that tree. */
  lemma TraversalRebuilds(j: Json)
    requires WellFormed(j) && (j.Arr? || j.Obj?)
    ensures
      var done := Run(EMPTY, Calls(AsScript(j)));
      && done.Some? && Inv(done.value) && done.value.stack == []
      && done.value.root == Some(Box(0)) && |done.value.heap| > 0
      && Resolve(done.value.heap, Box(0)) == j
  {
    assert Ready(EMPTY);
    var done, r := TreeBuilds(EMPTY, AsScript(j), []);
    TreeOfTraversal(j);
    assert Calls(AsScript(j)) + [] == Calls(AsScript(j));
  }

  // ----- the builder object -----

  /** A call either does its step or returns NULL and changes nothing. */
  ghost predicate Obeys(before: Build, call: Call, ok: bool, after: Build) {
    match Step(before, call)
    case Some(next) => ok && after == next
    case None => !ok && after == before
  }

  class Builder {
    var heap: Heap
    var stack: seq<State>
    var root: Option<Ref>

    ghost function Now(): Build
      reads this
    {
      Build(heap, stack, root)
    }

    constructor ()
      ensures Now() == EMPTY && Inv(Now())
    {
      heap, stack, root := [], [], None;
    }

    /** Hands the new value to the open array or to the member named last. */
    method PutOnTop(r: Ref)
      requires Inv(Now()) && stack != [] && AddMode(stack[0].mode)
      modifies this
      ensures Now() == Put(old(Now()), r)
    {
      var top := stack[0];
      assert stack == [stack[0]] + stack[1..];
      match top.mode
      case InArray => heap := heap[top.id := Items(heap[top.id].items + [r])];
      case InMember(n) =>
        heap := heap[top.id := Slots(SetSlot(heap[top.id].slots, n, r))];
        stack := [State(InObject, top.id)] + stack[1..];
      case InObject =>
    }

    method BeginContainer(c: Container, m: Mode) returns (ok: bool)
      requires Inv(Now())
      modifies this
      ensures match Begin(old(Now()), c, m)
              case Some(next) => ok && Now() == next
              case None => !ok && Now() == old(Now())
    {
      if root.Some? || !(stack == [] || AddMode(stack[0].mode)) {
        return false;
      }
      var id := |heap|;
      if stack != [] {
        PutOnTop(Box(id));
      }
      heap := heap + [c];
      stack := [State(m, id)] + stack;
      ok := true;
    }

    method BeginObjectCall() returns (ok: bool)
      requires Inv(Now())
      modifies this
      ensures Obeys(old(Now()), BeginObject, ok, Now())
    {
      ok := BeginContainer(Slots([]), InObject);
    }

    method BeginArrayCall() returns (ok: bool)
      requires Inv(Now())
      modifies this
      ensures Obeys(old(Now()), BeginArray, ok, Now())
    {
      ok := BeginContainer(Items([]), InArray);
    }

    method EndContainer(m: Mode) returns (ok: bool)
      requires Inv(Now())
      modifies this
      ensures match End(old(Now()), m)
              case Some(next) => ok && Now() == next
              case None => !ok && Now() == old(Now())
    {
      if stack == [] || stack[0].mode != m {
        return false;
      }
      var state := stack[0];
      stack := stack[1..];
      if stack == [] {
        root := Some(Box(state.id));
      }
      ok := true;
    }

    method EndObjectCall() returns (ok: bool)
      requires Inv(Now())
      modifies this
      ensures Obeys(old(Now()), EndObject, ok, Now())
    {
      ok := EndContainer(InObject);
    }

    method EndArrayCall() returns (ok: bool)
      requires Inv(Now())
      modifies this
      ensures Obeys(old(Now()), EndArray, ok, Now())
    {
      ok := EndContainer(InArray);
    }

    method SetMemberNameCall(name: string) returns (ok: bool)
      requires Inv(Now())
      modifies this
      ensures Obeys(old(Now()), SetName(name), ok, Now())
    {
      if stack == [] || stack[0].mode != InObject {
        return false;
      }
      stack := [State(InMember(name), stack[0].id)] + stack[1..];
      ok := true;
    }

    method AddValueCall(j: Json) returns (ok: bool)
      requires Inv(Now())
      modifies this
      ensures Obeys(old(Now()), Add(j), ok, Now())
    {
      if stack == [] || !AddMode(stack[0].mode) {
        return false;
      }
      PutOnTop(Leaf(j));
      ok := true;
    }

    /** json_builder_get_root */
    method GetRoot() returns (j: Option<Json>)
      requires Inv(Now())
      ensures j.Some? <==> stack == [] && heap != []
      ensures j.Some? ==> root == Some(Box(0)) && j == Some(Resolve(heap, Box(0)))
    {
      if root.Some? {
        j := Some(Resolve(heap, root.value));
      } else {
        j := None;
      }
    }
  }
}
