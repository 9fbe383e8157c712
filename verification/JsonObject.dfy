/** The object type: a hash table from names to values, and a queue of the names in the order
    of insertion (json-object.c). The queue borrows the name strings owned by the table, so a
    string is kept as its text together with its address. */
module JsonObject {
  import opened Wrappers
  import opened JsonTree

  function Without(ms: seq<Member>, name: string): seq<Member> {
    if ms == [] then []
    else if ms[0].name == name then ms[1..]
    else [ms[0]] + Without(ms[1..], name)
  }

  lemma UpdateBehindFirst(ms: seq<Member>, k: nat, m: Member)
    requires 0 < k < |ms|
    ensures [ms[0]] + ms[1..][k - 1 := m] == ms[k := m]
  {
  }

  lemma {:induction false} SetMemberAt(ms: seq<Member>, k: nat, value: Json)
    requires k < |ms| && UniqueNames(ms)
    ensures SetMember(ms, ms[k].name, value) == ms[k := Member(ms[k].name, value)]
  {
    if k > 0 {
      assert ms[0].name != ms[k].name;
      SetMemberAt(ms[1..], k - 1, value);
      UpdateBehindFirst(ms, k, Member(ms[k].name, value));
    }
  }

  lemma DropBehindFirst(ms: seq<Member>, k: nat)
    requires 0 < k < |ms|
    ensures [ms[0]] + (ms[1..][..k - 1] + ms[1..][k..]) == ms[..k] + ms[k + 1..]
  {
  }

  lemma {:induction false} WithoutAt(ms: seq<Member>, k: nat)
    requires k < |ms| && UniqueNames(ms)
    ensures Without(ms, ms[k].name) == ms[..k] + ms[k + 1..]
  {
    if k > 0 {
      assert ms[0].name != ms[k].name;
      WithoutAt(ms[1..], k - 1);
      DropBehindFirst(ms, k);
    }
  }

  lemma {:induction false} WithoutAbsent(ms: seq<Member>, name: string)
    requires forall i :: 0 <= i < |ms| ==> ms[i].name != name
    ensures Without(ms, name) == ms
  {
    if ms != [] { WithoutAbsent(ms[1..], name); }
  }

  // ----- any sequence of operations -----

  datatype Op = Set(name: string, value: Json) | Remove(name: string)

  function Apply(ms: seq<Member>, op: Op): seq<Member> {
    match op
    case Set(n, v) => SetMember(ms, n, v)
    case Remove(n) => Without(ms, n)
  }

  function Run(ops: seq<Op>): seq<Member> {
    if ops == [] then [] else Apply(Run(ops[..|ops| - 1]), ops[|ops| - 1])
  }

  /** The operation that introduced a name: the first that set it since it was last removed. */
  function Born(ops: seq<Op>, name: string): Option<nat> {
    if ops == [] then None
    else
      var last, before := ops[|ops| - 1], Born(ops[..|ops| - 1], name);
      if last.name != name then before
      else if last.Remove? then None
      else if before.None? then Some(|ops| - 1)
      else before
  }

  /** The value a name has: the last one set, unless it was removed after that. */
  function Current(ops: seq<Op>, name: string): Option<Json> {
    if ops == [] then None
    else
      var last := ops[|ops| - 1];
      if last.name != name then Current(ops[..|ops| - 1], name)
      else if last.Remove? then None
      else Some(last.value)
  }

  /** The members are exactly the names now set, each with its last value, in the order in
      which they were first inserted. */
  ghost predicate Describes(ms: seq<Member>, ops: seq<Op>) {
    && (forall i :: 0 <= i < |ms| ==>
      Born(ops, ms[i].name).Some? && Current(ops, ms[i].name) == Some(ms[i].value))
    && (forall i, j :: 0 <= i < j < |ms| ==> Earlier(ops, ms[i].name, ms[j].name))
    && (forall n :: Born(ops, n).Some? ==> HasName(ms, n))
  }

  ghost predicate Earlier(ops: seq<Op>, a: string, b: string) {
    Born(ops, a).Some? && Born(ops, b).Some? && Born(ops, a).value < Born(ops, b).value
  }

  predicate HasName(ms: seq<Member>, name: string) {
    exists i :: 0 <= i < |ms| && ms[i].name == name
  }

  lemma {:induction false} BornInRange(ops: seq<Op>, name: string)
    ensures Born(ops, name).Some? ==> Born(ops, name).value < |ops|
  {
    if ops != [] { BornInRange(ops[..|ops| - 1], name); }
  }

  lemma DescribedNamesAreUnique(ms: seq<Member>, ops: seq<Op>)
    requires Describes(ms, ops)
    ensures UniqueNames(ms)
  {
    forall i, j | 0 <= i < j < |ms| ensures ms[i].name != ms[j].name {
      assert Earlier(ops, ms[i].name, ms[j].name);
    }
  }

  lemma {:induction false} RunInInsertionOrder(ops: seq<Op>)
    ensures UniqueNames(Run(ops)) && Describes(Run(ops), ops)
  {
    if ops != [] {
      var before, op := ops[..|ops| - 1], ops[|ops| - 1];
      RunInInsertionOrder(before);
      if k :| 0 <= k < |Run(before)| && Run(before)[k].name == op.name {
        StepOnPresent(before, op, k);
      } else {
        StepOnAbsent(before, op);
      }
      assert before + [op] == ops;
      DescribedNamesAreUnique(Run(ops), ops);
    }
  }

  lemma OneMoreOp(before: seq<Op>, op: Op)
    ensures
      var ops := before + [op];
      && ops != [] && ops[..|ops| - 1] == before && ops[|ops| - 1] == op
  {
  }

  lemma StepOnPresent(before: seq<Op>, op: Op, k: nat)
    requires Describes(Run(before), before) && UniqueNames(Run(before))
    requires k < |Run(before)| && Run(before)[k].name == op.name
    ensures Describes(Apply(Run(before), op), before + [op])
  {
    OneMoreOp(before, op);
    var ms, ops := Run(before), before + [op];
    if op.Set? {
      SetMemberAt(ms, k, op.value);
      SetPresent(ms, before, op, k);
    } else {
      WithoutAt(ms, k);
      RemovePresent(ms, before, op, k);
    }
  }

  lemma SetPresent(ms: seq<Member>, before: seq<Op>, op: Op, k: nat)
    requires Describes(ms, before) && UniqueNames(ms) && op.Set?
    requires k < |ms| && ms[k].name == op.name
    ensures Describes(ms[k := Member(op.name, op.value)], before + [op])
  {
    OneMoreOp(before, op);
    var ops, after := before + [op], ms[k := Member(op.name, op.value)];
    forall n ensures Born(ops, n) == Born(before, n) {
    }
    forall i, j | 0 <= i < j < |after| ensures Earlier(ops, after[i].name, after[j].name) {
      assert Earlier(before, ms[i].name, ms[j].name);
    }
    forall n | Born(ops, n).Some? ensures HasName(after, n) {
      assert HasName(ms, n);
      var i :| 0 <= i < |ms| && ms[i].name == n;
      assert after[i].name == n;
    }
  }

  lemma RemovePresent(ms: seq<Member>, before: seq<Op>, op: Op, k: nat)
    requires Describes(ms, before) && UniqueNames(ms) && op.Remove?
    requires k < |ms| && ms[k].name == op.name
    ensures Describes(ms[..k] + ms[k + 1..], before + [op])
  {
    OneMoreOp(before, op);
    var ops, after := before + [op], ms[..k] + ms[k + 1..];
    forall i | 0 <= i < |after| ensures after[i].name != op.name && Born(ops, after[i].name) == Born(before, after[i].name) {
      var o := if i < k then i else i + 1;
      assert after[i] == ms[o] && o != k;
    }
    forall i, j | 0 <= i < j < |after| ensures Earlier(ops, after[i].name, after[j].name) {
      assert Earlier(before, ms[if i < k then i else i + 1].name, ms[if j < k then j else j + 1].name);
    }
    forall n | Born(ops, n).Some? ensures HasName(after, n) {
      assert HasName(ms, n);
      var i :| 0 <= i < |ms| && ms[i].name == n;
      assert after[if i < k then i else i - 1].name == n;
    }
  }

  lemma StepOnAbsent(before: seq<Op>, op: Op)
    requires Describes(Run(before), before)
    requires forall k :: 0 <= k < |Run(before)| ==> Run(before)[k].name != op.name
    ensures Describes(Apply(Run(before), op), before + [op])
  {
    OneMoreOp(before, op);
    var ms, ops := Run(before), before + [op];
    assert Born(before, op.name).None? by {
      if Born(before, op.name).Some? { assert HasName(ms, op.name); }
    }
    if op.Set? {
      SetNewMember(ms, op.name, op.value);
      SetAbsent(ms, before, op);
    } else {
      WithoutAbsent(ms, op.name);
      RemoveAbsent(ms, before, op);
    }
  }

  lemma SetAbsent(ms: seq<Member>, before: seq<Op>, op: Op)
    requires Describes(ms, before) && op.Set? && Born(before, op.name).None?
    ensures Describes(ms + [Member(op.name, op.value)], before + [op])
  {
    OneMoreOp(before, op);
    var ops, after := before + [op], ms + [Member(op.name, op.value)];
    forall i | 0 <= i < |ms| ensures ms[i].name != op.name && Born(ops, ms[i].name) == Born(before, ms[i].name) {
    }
    forall i, j | 0 <= i < j < |after| ensures Earlier(ops, after[i].name, after[j].name) {
      if j < |ms| {
        assert Earlier(before, ms[i].name, ms[j].name);
      } else {
        BornInRange(before, ms[i].name);
      }
    }
    forall n | Born(ops, n).Some? ensures HasName(after, n) {
      if n == op.name {
        assert after[|ms|].name == n;
      } else {
        assert HasName(ms, n);
        var i :| 0 <= i < |ms| && ms[i].name == n;
        assert after[i].name == n;
      }
    }
  }

  lemma RemoveAbsent(ms: seq<Member>, before: seq<Op>, op: Op)
    requires Describes(ms, before) && op.Remove? && Born(before, op.name).None?
    ensures Describes(ms, before + [op])
  {
    OneMoreOp(before, op);
    var ops := before + [op];
    forall n ensures Born(ops, n) == Born(before, n) {
    }
    forall i, j | 0 <= i < j < |ms| ensures Earlier(ops, ms[i].name, ms[j].name) {
      assert Earlier(before, ms[i].name, ms[j].name);
    }
  }

  // ----- the object -----

  datatype Key = Key(address: nat, text: string)
  datatype Entry = Entry(key: Key, value: Json)

  type Table = map<string, Entry>

  ghost predicate InQueue(queue: seq<Key>, name: string) {
    exists i :: 0 <= i < |queue| && queue[i].text == name
  }

  /** Every string in the queue is the very one the table owns. */
  ghost predicate Owned(queue: seq<Key>, table: Table) {
    forall i :: 0 <= i < |queue| ==> queue[i].text in table && table[queue[i].text].key == queue[i]
  }

  /** The queue holds each name of the table exactly once. */
  ghost predicate Linked(queue: seq<Key>, table: Table) {
    && (forall i, j :: 0 <= i < j < |queue| ==> queue[i].text != queue[j].text)
    && Owned(queue, table)
    && (forall n :: n in table ==> InQueue(queue, n))
  }

  function Listed(queue: seq<Key>, table: Table): (ms: seq<Member>)
    requires Owned(queue, table)
    ensures |ms| == |queue|
    ensures forall i :: 0 <= i < |ms| ==> ms[i] == Member(queue[i].text, table[queue[i].text].value)
  {
    seq(|queue|, i requires 0 <= i < |queue| => Member(queue[i].text, table[queue[i].text].value))
  }

  /** Every name is still in the queue if its strings only change places or addresses. */
  lemma StillInQueue(queue: seq<Key>, more: seq<Key>, name: string)
    requires InQueue(queue, name) && |queue| <= |more|
    requires forall i :: 0 <= i < |queue| ==> more[i].text == queue[i].text
    ensures InQueue(more, name)
  {
    var i :| 0 <= i < |queue| && queue[i].text == name;
    assert more[i].text == name;
  }

  lemma AddKeyLinked(queue: seq<Key>, table: Table, more: seq<Key>, key: Key, value: Json)
    requires Linked(queue, table) && key.text !in table && more == queue + [key]
    ensures Linked(more, table[key.text := Entry(key, value)])
  {
    assert more[|queue|].text == key.text;
    forall n | n in table ensures InQueue(more, n) { StillInQueue(queue, more, n); }
  }

  lemma AddKey(queue: seq<Key>, table: Table, key: Key, value: Json)
    requires Linked(queue, table) && key.text !in table
    ensures Linked(queue + [key], table[key.text := Entry(key, value)])
    ensures Listed(queue + [key], table[key.text := Entry(key, value)]) == SetMember(Listed(queue, table), key.text, value)
  {
    AddKeyLinked(queue, table, queue + [key], key, value);
    SetNewMember(Listed(queue, table), key.text, value);
  }

  lemma ReplaceKeyLinked(queue: seq<Key>, table: Table, more: seq<Key>, k: nat, key: Key, value: Json)
    requires Linked(queue, table) && k < |queue| && queue[k].text == key.text && more == queue[k := key]
    ensures Linked(more, table[key.text := Entry(key, value)])
  {
    forall n | n in table ensures InQueue(more, n) { StillInQueue(queue, more, n); }
  }

  /** The table frees the old string of the name, so the queue must not keep it. */
  lemma ReplaceKey(queue: seq<Key>, table: Table, k: nat, key: Key, value: Json)
    requires Linked(queue, table) && k < |queue| && queue[k].text == key.text
    ensures Linked(queue[k := key], table[key.text := Entry(key, value)])
    ensures Listed(queue[k := key], table[key.text := Entry(key, value)]) == SetMember(Listed(queue, table), key.text, value)
    ensures queue[k] != key ==> !Owned(queue, table[key.text := Entry(key, value)])
  {
    ReplaceKeyLinked(queue, table, queue[k := key], k, key, value);
    ReplacedIsSet(queue, table, queue[k := key], k, key, value);
  }

  lemma ReplacedIsSet(queue: seq<Key>, table: Table, more: seq<Key>, k: nat, key: Key, value: Json)
    requires Linked(queue, table) && k < |queue| && queue[k].text == key.text && more == queue[k := key]
    requires Owned(more, table[key.text := Entry(key, value)])
    ensures Listed(more, table[key.text := Entry(key, value)]) == SetMember(Listed(queue, table), key.text, value)
  {
    assert Listed(queue, table)[k].name == key.text;
    SetMemberAt(Listed(queue, table), k, value);
  }

  lemma DropKey(queue: seq<Key>, table: Table, k: nat)
    requires Linked(queue, table) && k < |queue|
    ensures Linked(queue[..k] + queue[k + 1..], table - {queue[k].text})
    ensures Listed(queue[..k] + queue[k + 1..], table - {queue[k].text}) == Without(Listed(queue, table), queue[k].text)
  {
    DropKeyLinked(queue, table, k);
    var ms := Listed(queue, table);
    assert ms[k].name == queue[k].text;
    WithoutAt(ms, k);
  }

  lemma DropKeyLinked(queue: seq<Key>, table: Table, k: nat)
    requires Linked(queue, table) && k < |queue|
    ensures Linked(queue[..k] + queue[k + 1..], table - {queue[k].text})
  {
    var fewer := queue[..k] + queue[k + 1..];
    forall i | 0 <= i < |fewer| ensures fewer[i] == queue[if i < k then i else i + 1] {
    }
    forall n | n in table - {queue[k].text} ensures InQueue(fewer, n) {
      assert InQueue(queue, n);
      var i :| 0 <= i < |queue| && queue[i].text == n;
      assert fewer[if i < k then i else i - 1].text == n;
    }
  }

  lemma DropNothing(queue: seq<Key>, table: Table, name: string)
    requires Linked(queue, table) && name !in table
    ensures table - {name} == table && Without(Listed(queue, table), name) == Listed(queue, table)
  {
    WithoutAbsent(Listed(queue, table), name);
  }

  class Object {
    var members: Table
    var queue: seq<Key>
    var nextAddress: nat

    ghost predicate Valid()
      reads this
    {
      && Linked(queue, members)
      && (forall n :: n in members ==> members[n].key.address < nextAddress)
    }

    ghost function Contents(): (ms: seq<Member>)
      requires Valid()
      reads this
      ensures UniqueNames(ms)
    {
      Listed(queue, members)
    }

    constructor ()
      ensures Valid() && Contents() == []
    {
      members := map[];
      queue := [];
      nextAddress := 0;
    }

    /** The place of a name in the queue, or its end. */
    method FindInQueue(name: string) returns (k: nat)
      requires Valid()
      ensures k <= |queue|
      ensures k < |queue| ==> queue[k].text == name
      ensures k < |queue| <==> name in members
    {
      assert name in members ==> InQueue(queue, name);
      k := 0;
      while k < |queue| && queue[k].text != name
        invariant k <= |queue|
        invariant forall i :: 0 <= i < k ==> queue[i].text != name
      {
        k := k + 1;
      }
    }

    /** json_object_set_member */
    method SetMemberValue(name: string, value: Json)
      requires Valid()
      modifies this
      ensures Valid() && Contents() == SetMember(old(Contents()), name, value)
    {
      if name in members && members[name].value == value {
        ghost var at := FindInQueue(name);
        SetMemberAt(Contents(), at, value);
        return;
      }
      SetMemberInternal(name, value);
    }

    /** object_set_member_internal: the new string takes the place of the old one in the
        queue before the table frees it. */
    method SetMemberInternal(name: string, value: Json)
      requires Valid()
      modifies this
      ensures Valid() && Contents() == SetMember(old(Contents()), name, value)
    {
      var key := Key(nextAddress, name);
      nextAddress := nextAddress + 1;
      if name !in members {
        AddKey(queue, members, key, value);
        queue := queue + [key];
      } else {
        var k := FindInQueue(name);
        ReplaceKey(queue, members, k, key, value);
        queue := queue[k := key];
      }
      members := members[name := Entry(key, value)];
    }

    /** json_object_remove_member */
    method RemoveMember(name: string)
      requires Valid()
      modifies this
      ensures Valid() && Contents() == Without(old(Contents()), name)
    {
      var k := FindInQueue(name);
      if k < |queue| {
        DropKey(queue, members, k);
        queue := queue[..k] + queue[k + 1..];
      } else {
        DropNothing(queue, members, name);
      }
      members := members - {name};
    }
  }
}
