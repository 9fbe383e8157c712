/** Matching a compiled JSONPath against a tree (json-path.c). The node walked may be missing:
    json_array_get_element gives NULL outside an array. */
module JsonPathWalk {
  import opened Wrappers
  import opened JsonTree
  import opened JsonPathCompile
  import opened Selections

  function ElementAt(es: seq<Json>, i: int): Option<Json> {
    var index := i % 0x1_0000_0000;
    if index < |es| then Some(es[index]) else None
  }

  function Find(ms: seq<Member>, name: string): Option<Json> {
    if ms == [] then None else if ms[0].name == name then Some(ms[0].value) else Find(ms[1..], name)
  }

  /** A bound on the depth of the walk below a node. */
  function Below(root: Option<Json>): Json {
    if root.Some? then root.value else Null
  }

  /** json_array_add_element after json_node_copy: a missing node is not added. */
  function Added(x: Option<Json>): seq<Json> {
    if x.Some? then [x.value] else []
  }

  lemma LaterPath(path: seq<PathNode>)
    requires WellFormedPath(path) && |path| > 1
    ensures WellFormedPath(path[1..])
  {
    assert forall i :: 0 <= i < |path[1..]| ==> path[1..][i] == path[i + 1];
  }

  /** At the end of the path the node is a result, otherwise the walk goes on. */
  function Onward(path: seq<PathNode>, x: Option<Json>): seq<Json>
    requires WellFormedPath(path)
    decreases |path|, 0, 0, 0
  {
    if |path| == 1 then Added(x)
    else
      LaterPath(path);
      Walk(path[1..], x)
  }

  /** What walk_path_node appends to the results. */
  function Walk(path: seq<PathNode>, root: Option<Json>): seq<Json>
    requires WellFormedPath(path)
    decreases |path|, 1, Below(root)
  {
    match path[0]
    case Root => Onward(path, root)
    case ChildMember(name) =>
      if root.Some? && root.value.Obj? && Find(root.value.members, name).Some? then
        Onward(path, Find(root.value.members, name))
      else []
    case ChildElement(index) =>
      if root.Some? && root.value.Arr? && |root.value.elements| >= index then
        Onward(path, ElementAt(root.value.elements, index))
      else []
    case Descend =>
      if root.Some? && root.value.Obj? then DescendMembers(path, root.value.members, root.value)
      else if root.Some? && root.value.Arr? then DescendElements(path, root.value.elements, 0, root.value)
      else []
    case WildcardMember =>
      if root.Some? && root.value.Obj? then EachMember(path, root.value.members) else Added(root)
    case WildcardElement =>
      if root.Some? && root.value.Arr? then EachElement(path, root.value.elements) else Added(root)
    case ElementSet(indices) =>
      if root.Some? && root.value.Arr? then EachIndex(path, root.value.elements, indices) else []
  }

  /** The loop of a descent over the members of `whole`: a member of the name looked for is
      entered from the object itself and not searched further. */
  function DescendMembers(path: seq<PathNode>, ms: seq<Member>, whole: Json): seq<Json>
    requires WellFormedPath(path) && path[0].Descend?
    decreases |path|, 1, ms
  {
    if ms == [] then []
    else
      LookAhead(path);
      (if path[1] == ChildMember(ms[0].name) then Walk(path[1..], Some(whole)) else Walk(path, Some(ms[0].value)))
      + DescendMembers(path, ms[1..], whole)
  }

  function DescendElements(path: seq<PathNode>, es: seq<Json>, i: nat, whole: Json): seq<Json>
    requires WellFormedPath(path) && path[0].Descend?
    decreases |path|, 1, es
  {
    if es == [] then []
    else
      LookAhead(path);
      (if path[1] == ChildElement(i) then Walk(path[1..], Some(whole)) else Walk(path, Some(es[0])))
      + DescendElements(path, es[1..], i + 1, whole)
  }

  /** Behind a descent there always is a node to look at. */
  lemma LookAhead(path: seq<PathNode>)
    requires WellFormedPath(path) && path[0].Descend?
    ensures |path| > 1 && WellFormedPath(path[1..]) && MayFollowDescend(path[1])
  {
    assert !EndsInDescent(path);
    LaterPath(path);
  }

  function EachMember(path: seq<PathNode>, ms: seq<Member>): seq<Json>
    requires WellFormedPath(path)
    decreases |path|, 0, 1, |ms|
  {
    if ms == [] then [] else Onward(path, Some(ms[0].value)) + EachMember(path, ms[1..])
  }

  function EachElement(path: seq<PathNode>, es: seq<Json>): seq<Json>
    requires WellFormedPath(path)
    decreases |path|, 0, 1, |es|
  {
    if es == [] then [] else Onward(path, Some(es[0])) + EachElement(path, es[1..])
  }

  function EachIndex(path: seq<PathNode>, es: seq<Json>, indices: seq<int>): seq<Json>
    requires WellFormedPath(path)
    decreases |path|, 0, 1, |indices|
  {
    if indices == [] then [] else Onward(path, ElementAt(es, indices[0])) + EachIndex(path, es, indices[1..])
  }

  // ----- a missing node -----

  /** Walking on from a missing node finds nothing. */
  lemma {:induction false} NothingBelowNothing(path: seq<PathNode>)
    requires WellFormedPath(path)
    ensures Walk(path, None) == []
    decreases |path|
  {
    if path[0].Root? && |path| > 1 {
      LaterPath(path);
      NothingBelowNothing(path[1..]);
    }
  }

  /** The bound check of an element step lets the length itself through; that finds nothing,
      so the step is as good as with the strict check. */
  lemma ElementStepIsStrict(path: seq<PathNode>, es: seq<Json>)
    requires WellFormedPath(path) && path[0].ChildElement? && |es| < 0x1_0000_0000
    ensures Walk(path, Some(Arr(es)))
         == if path[0].index < |es| then Onward(path, Some(es[path[0].index])) else []
  {
    if path[0].index == |es| && |path| > 1 {
      LaterPath(path);
      NothingBelowNothing(path[1..]);
    }
  }

  // ----- what the other steps choose -----

  /** The node a set's index leads to: the index is converted to 32 bits without sign. */
  ghost predicate LeadsTo(es: seq<Json>, index: int, v: Json) {
    index % 0x1_0000_0000 < |es| && v == es[index % 0x1_0000_0000]
  }

  ghost predicate IsPicked(es: seq<Json>, indices: seq<int>, vs: seq<Json>, at: seq<nat>, k: nat)
    requires k < |at| == |vs|
  {
    at[k] < |indices| && LeadsTo(es, indices[at[k]], vs[k])
  }

  /** `vs[k]` is what index number `at[k]` of the set leads to; the indices left out, if any,
      lead nowhere. */
  ghost predicate Picks(es: seq<Json>, indices: seq<int>, vs: seq<Json>, at: seq<nat>) {
    && |at| == |vs|
    && Ascending(at)
    && (forall k :: 0 <= k < |at| ==> IsPicked(es, indices, vs, at, k))
    && forall i :: 0 <= i < |indices| && indices[i] % 0x1_0000_0000 < |es| ==> i in at
  }

  /** The nodes that a step chooses at a node, in order. */
  ghost predicate Chooses(step: PathNode, j: Json, vs: seq<Json>) {
    match step
    case Root => vs == [j]
    case ChildMember(name) =>
      if j.Obj? && exists v :: Member(name, v) in j.members then |vs| == 1 && Member(name, vs[0]) in j.members
      else vs == []
    case ChildElement(index) => vs == if j.Arr? && index < |j.elements| then [j.elements[index]] else []
    case WildcardMember =>
      if j.Obj? then |vs| == |j.members| && forall i :: 0 <= i < |vs| ==> vs[i] == j.members[i].value
      else vs == [j]
    case WildcardElement => vs == if j.Arr? then j.elements else [j]
    case ElementSet(indices) => if j.Arr? then exists at :: Picks(j.elements, indices, vs, at) else vs == []
    case Descend => false
  }

  /** A wildcard that meets a node of another kind takes that node as a result, whatever the
      rest of the path says. */
  predicate StopsAt(step: PathNode, j: Json) {
    (step.WildcardMember? && !j.Obj?) || (step.WildcardElement? && !j.Arr?)
  }

  function Concat(parts: seq<seq<Json>>): seq<Json> {
    if parts == [] then [] else parts[0] + Concat(parts[1..])
  }

  /** What the path finds behind its first step, taken at node `v`. */
  ghost predicate IsFoundBehind(path: seq<PathNode>, v: Json, found: seq<Json>)
    requires WellFormedPath(path)
  {
    if |path| == 1 then found == [v] else WellFormedPath(path[1..]) && found == Walk(path[1..], Some(v))
  }

  /** The results are what the rest of the path finds at each of the nodes, one after another. */
  ghost predicate FoundFrom(path: seq<PathNode>, vs: seq<Json>, results: seq<Json>)
    requires WellFormedPath(path)
  {
    exists parts :: |parts| == |vs| && Concat(parts) == results &&
                    forall i :: 0 <= i < |vs| ==> IsFoundBehind(path, vs[i], parts[i])
  }

  lemma FindGives(ms: seq<Member>, name: string)
    ensures Find(ms, name).Some? ==> Member(name, Find(ms, name).value) in ms
    ensures Find(ms, name).None? ==> forall m :: m in ms ==> m.name != name
  {
    if ms != [] { FindGives(ms[1..], name); }
  }

  lemma {:induction false} FoundFromAll(path: seq<PathNode>, vs: seq<Json>) returns (parts: seq<seq<Json>>)
    requires WellFormedPath(path)
    ensures |parts| == |vs| && Concat(parts) == OnwardFromAll(path, vs)
    ensures forall i :: 0 <= i < |vs| ==> IsFoundBehind(path, vs[i], parts[i])
  {
    parts := [];
    if vs != [] {
      var rest := FoundFromAll(path, vs[1..]);
      if |path| > 1 { LaterPath(path); }
      parts := [Onward(path, Some(vs[0]))] + rest;
      assert parts[1..] == rest;
    }
  }

  lemma {:induction false} GlobbedMembers(path: seq<PathNode>, ms: seq<Member>) returns (vs: seq<Json>)
    requires WellFormedPath(path)
    ensures |vs| == |ms| && forall i :: 0 <= i < |vs| ==> vs[i] == ms[i].value
    ensures EachMember(path, ms) == OnwardFromAll(path, vs)
  {
    vs := [];
    if ms != [] {
      var rest := GlobbedMembers(path, ms[1..]);
      vs := [ms[0].value] + rest;
      assert vs[1..] == rest;
    }
  }

  lemma {:induction false} GlobbedElements(path: seq<PathNode>, es: seq<Json>)
    requires WellFormedPath(path)
    ensures EachElement(path, es) == OnwardFromAll(path, es)
  {
    if es != [] { GlobbedElements(path, es[1..]); }
  }

  lemma OnwardFromNothing(path: seq<PathNode>)
    requires WellFormedPath(path)
    ensures Onward(path, None) == []
  {
    if |path| > 1 {
      LaterPath(path);
      NothingBelowNothing(path[1..]);
    }
  }

  lemma PicksNothing(es: seq<Json>, indices: seq<int>, vs: seq<Json>, at: seq<nat>)
    requires indices != [] && indices[0] % 0x1_0000_0000 >= |es| && Picks(es, indices[1..], vs, at)
    ensures Picks(es, indices, vs, Moved(at))
  {
    MovedIsAscending(at);
    forall k | 0 <= k < |at| ensures IsPicked(es, indices, vs, Moved(at), k) {
      assert IsPicked(es, indices[1..], vs, at, k);
    }
    forall i | 0 <= i < |indices| && indices[i] % 0x1_0000_0000 < |es| ensures i in Moved(at) {
      assert i > 0 && indices[1..][i - 1] == indices[i];
      MovedListed(at, i);
    }
  }

  lemma PickMoved(es: seq<Json>, indices: seq<int>, v: Json, vs: seq<Json>, at: seq<nat>, k: nat)
    requires indices != [] && |at| == |vs| && k <= |at|
    requires if k == 0 then LeadsTo(es, indices[0], v) else IsPicked(es, indices[1..], vs, at, k - 1)
    ensures IsPicked(es, indices, [v] + vs, [0] + Moved(at), k)
  {
  }

  lemma PicksOneMore(es: seq<Json>, indices: seq<int>, v: Json, vs: seq<Json>, at: seq<nat>)
    requires indices != [] && LeadsTo(es, indices[0], v) && Picks(es, indices[1..], vs, at)
    ensures Picks(es, indices, [v] + vs, [0] + Moved(at))
  {
    MovedIsAscending(at);
    forall k | 0 <= k <= |at| ensures IsPicked(es, indices, [v] + vs, [0] + Moved(at), k) {
      PickMoved(es, indices, v, vs, at, k);
    }
    forall i | 0 <= i < |indices| && indices[i] % 0x1_0000_0000 < |es| ensures i in [0] + Moved(at) {
      assert i > 0 ==> indices[1..][i - 1] == indices[i];
      MovedListed(at, i);
    }
  }

  lemma {:induction false} PickedElements(path: seq<PathNode>, es: seq<Json>, indices: seq<int>)
    returns (vs: seq<Json>, at: seq<nat>)
    requires WellFormedPath(path)
    ensures Picks(es, indices, vs, at)
    ensures EachIndex(path, es, indices) == OnwardFromAll(path, vs)
  {
    vs, at := [], [];
    if indices != [] {
      var rest, places := PickedElements(path, es, indices[1..]);
      var x := ElementAt(es, indices[0]);
      if x.Some? {
        PicksOneMore(es, indices, x.value, rest, places);
        vs, at := [x.value] + rest, [0] + Moved(places);
        assert vs[1..] == rest;
      } else {
        PicksNothing(es, indices, rest, places);
        OnwardFromNothing(path);
        vs, at := rest, Moved(places);
      }
    }
  }

  /** A step that is not a descent goes on from the nodes it chooses, in their order; a
      wildcard at a node of another kind ends the walk with that node. */
  lemma {:induction false} StepGoesOn(path: seq<PathNode>, j: Json)
    requires WellFormedPath(path) && !path[0].Descend? && !StopsAt(path[0], j)
    requires j.Arr? ==> |j.elements| < 0x1_0000_0000
    ensures exists vs :: Chooses(path[0], j, vs) && FoundFrom(path, vs, Walk(path, Some(j)))
  {
    var vs := ChosenBy(path, j);
    var parts := FoundFromAll(path, vs);
  }

  lemma {:induction false} ChosenBy(path: seq<PathNode>, j: Json) returns (vs: seq<Json>)
    requires WellFormedPath(path) && !path[0].Descend? && !StopsAt(path[0], j)
    requires j.Arr? ==> |j.elements| < 0x1_0000_0000
    ensures Chooses(path[0], j, vs) && Walk(path, Some(j)) == OnwardFromAll(path, vs)
  {
    vs := [];
    match path[0]
    case Root =>
      vs := [j];
      OnwardFromOne(path, j);
    case ChildMember(name) =>
      if j.Obj? {
        FindGives(j.members, name);
        var found := Find(j.members, name);
        if found.Some? {
          vs := [found.value];
          OnwardFromOne(path, found.value);
        }
      }
    case ChildElement(index) =>
      if j.Arr? {
        ElementStepIsStrict(path, j.elements);
        if index < |j.elements| {
          vs := [j.elements[index]];
          OnwardFromOne(path, j.elements[index]);
        }
      }
    case WildcardMember => vs := GlobbedMembers(path, j.members);
    case WildcardElement =>
      vs := j.elements;
      GlobbedElements(path, j.elements);
    case ElementSet(indices) =>
      if j.Arr? {
        var at;
        vs, at := PickedElements(path, j.elements, indices);
      }
  }

  lemma StoppedWalk(path: seq<PathNode>, j: Json)
    requires WellFormedPath(path) && StopsAt(path[0], j)
    ensures Walk(path, Some(j)) == [j]
  {
  }

  /** An expression of one step behind the root, as in `$.name`, `$[2]`, `$[1,3]`, `$.*` or
      `$[*]`, finds exactly what the step chooses, in that order. */
  lemma {:induction false} OneStepFindsChosen(step: PathNode, j: Json)
    requires !step.Descend? && (j.Arr? ==> |j.elements| < 0x1_0000_0000)
    requires WellFormedPath([Root, step])
    ensures Chooses(step, j, Walk([Root, step], Some(j)))
  {
    var path := [Root, step];
    LaterPath(path);
    var last := path[1..];
    assert last == [step];
    assert Walk(path, Some(j)) == Walk(last, Some(j));
    if StopsAt(step, j) {
      StoppedWalk(last, j);
    } else {
      var vs := ChosenBy(last, j);
      OnwardAtEnd(last, vs);
    }
  }

  // ----- what a descent finds -----

  datatype Step = Name(name: string) | Index(i: nat)

  /** A node below another one, with the steps that lead to it. */
  datatype Place = Place(trail: seq<Step>, node: Json)

  function Under(step: Step, ps: seq<Place>): (r: seq<Place>)
    ensures |r| == |ps|
  {
    if ps == [] then [] else [Place([step] + ps[0].trail, ps[0].node)] + Under(step, ps[1..])
  }

  /** All nodes below a node, in document order. */
  function Descendants(j: Json): seq<Place>
    decreases j
  {
    match j
    case Obj(ms) => MemberPlaces(ms)
    case Arr(es) => ElementPlaces(es, 0)
    case _ => []
  }

  function MemberPlaces(ms: seq<Member>): seq<Place>
    decreases ms
  {
    if ms == [] then []
    else
      [Place([Name(ms[0].name)], ms[0].value)] + Under(Name(ms[0].name), Descendants(ms[0].value))
      + MemberPlaces(ms[1..])
  }

  function ElementPlaces(es: seq<Json>, i: nat): seq<Place>
    decreases es
  {
    if es == [] then []
    else [Place([Index(i)], es[0])] + Under(Index(i), Descendants(es[0])) + ElementPlaces(es[1..], i + 1)
  }

  /** The node is a member of this name, and inside no other one. */
  predicate Outermost(name: string, trail: seq<Step>) {
    trail != [] && trail[|trail| - 1] == Name(name) && Name(name) !in trail[..|trail| - 1]
  }

  function OutermostIn(name: string, ps: seq<Place>): seq<Json> {
    if ps == [] then []
    else (if Outermost(name, ps[0].trail) then [ps[0].node] else []) + OutermostIn(name, ps[1..])
  }

  /** Going on from each of some nodes. */
  function OnwardFromAll(path: seq<PathNode>, vs: seq<Json>): seq<Json>
    requires WellFormedPath(path)
  {
    if vs == [] then [] else Onward(path, Some(vs[0])) + OnwardFromAll(path, vs[1..])
  }

  lemma {:induction false} OnwardConcat(path: seq<PathNode>, a: seq<Json>, b: seq<Json>)
    requires WellFormedPath(path)
    ensures OnwardFromAll(path, a + b) == OnwardFromAll(path, a) + OnwardFromAll(path, b)
  {
    if a == [] {
      assert a + b == b;
    } else {
      assert (a + b)[1..] == a[1..] + b;
      OnwardConcat(path, a[1..], b);
    }
  }

  lemma {:induction false} OutermostConcat(name: string, a: seq<Place>, b: seq<Place>)
    ensures OutermostIn(name, a + b) == OutermostIn(name, a) + OutermostIn(name, b)
  {
    if a == [] {
      assert a + b == b;
    } else {
      assert (a + b)[1..] == a[1..] + b;
      OutermostConcat(name, a[1..], b);
      Associative(if Outermost(name, a[0].trail) then [a[0].node] else [], OutermostIn(name, a[1..]), OutermostIn(name, b));
    }
  }

  lemma Associative(a: seq<Json>, b: seq<Json>, c: seq<Json>)
    ensures a + (b + c) == a + b + c
  {
  }

  ghost predicate Proper(ps: seq<Place>) {
    forall i :: 0 <= i < |ps| ==> ps[i].trail != []
  }

  lemma {:induction false} UnderProper(step: Step, ps: seq<Place>)
    ensures Proper(Under(step, ps))
  {
    if ps != [] { UnderProper(step, ps[1..]); }
  }

  lemma {:induction false} DescendantsProper(j: Json)
    ensures Proper(Descendants(j))
    decreases j
  {
    match j
    case Obj(ms) => MembersProper(ms);
    case Arr(es) => ElementsProper(es, 0);
    case _ =>
  }

  lemma {:induction false} MembersProper(ms: seq<Member>)
    ensures Proper(MemberPlaces(ms))
    decreases ms
  {
    if ms != [] {
      UnderProper(Name(ms[0].name), Descendants(ms[0].value));
      MembersProper(ms[1..]);
    }
  }

  lemma {:induction false} ElementsProper(es: seq<Json>, i: nat)
    ensures Proper(ElementPlaces(es, i))
    decreases es
  {
    if es != [] {
      UnderProper(Index(i), Descendants(es[0]));
      ElementsProper(es[1..], i + 1);
    }
  }

  lemma OneStepDeeper(name: string, step: Step, trail: seq<Step>)
    requires trail != []
    ensures Outermost(name, [step] + trail) <==> step != Name(name) && Outermost(name, trail)
  {
    var t := [step] + trail;
    assert t[|t| - 1] == trail[|trail| - 1];
    assert t[..|t| - 1] == [step] + trail[..|trail| - 1];
  }

  /** Below a member of the name there is nothing more to find; below anything else, what is
      found without that step. */
  lemma {:induction false} OutermostUnder(name: string, step: Step, ps: seq<Place>)
    requires Proper(ps)
    ensures OutermostIn(name, Under(step, ps)) == if step == Name(name) then [] else OutermostIn(name, ps)
  {
    if ps != [] {
      OneStepDeeper(name, step, ps[0].trail);
      OutermostUnder(name, step, ps[1..]);
    }
  }

  /** One child and all below it. */
  lemma OutermostChild(name: string, step: Step, child: Json, rest: seq<Place>)
    ensures
      OutermostIn(name, [Place([step], child)] + Under(step, Descendants(child)) + rest)
      == (if step == Name(name) then [child] else OutermostIn(name, Descendants(child))) + OutermostIn(name, rest)
  {
    var first := [Place([step], child)];
    DescendantsProper(child);
    OutermostUnder(name, step, Descendants(child));
    OutermostConcat(name, first + Under(step, Descendants(child)), rest);
    OutermostConcat(name, first, Under(step, Descendants(child)));
    OutermostOne(name, step, child);
  }

  lemma OutermostOne(name: string, step: Step, child: Json)
    ensures OutermostIn(name, [Place([step], child)]) == if step == Name(name) then [child] else []
  {
    assert [Place([step], child)][1..] == [];
    assert [step][..0] == [];
  }

  ghost predicate DescendsTo(path: seq<PathNode>, name: string) {
    WellFormedPath(path) && path[0].Descend? && |path| > 1 && path[1] == ChildMember(name)
  }

  /** A descent to a name goes on from exactly the members of that name that are not inside
      another one, in document order. */
  lemma {:induction false} DescentFindsOutermost(path: seq<PathNode>, name: string, j: Json)
    requires DescendsTo(path, name) && WellFormedPath(path[1..]) && WellFormed(j)
    ensures Walk(path, Some(j)) == OnwardFromAll(path[1..], OutermostIn(name, Descendants(j)))
    decreases j, 1
  {
    match j
    case Obj(ms) => DescentInMembers(path, name, ms, ms);
    case Arr(es) => DescentInElements(path, name, es, 0, j);
    case _ =>
  }

  lemma {:induction false} FindMember(ms: seq<Member>, i: nat)
    requires UniqueNames(ms) && i < |ms|
    ensures Find(ms, ms[i].name) == Some(ms[i].value)
  {
    if i > 0 {
      assert ms[0].name != ms[i].name;
      FindMember(ms[1..], i - 1);
    }
  }

  ghost predicate Suffix(ms: seq<Member>, all: seq<Member>) {
    |ms| <= |all| && ms == all[|all| - |ms|..]
  }

  lemma {:induction false} DescentInMembers(path: seq<PathNode>, name: string, ms: seq<Member>, all: seq<Member>)
    requires DescendsTo(path, name) && WellFormedPath(path[1..]) && WellFormed(Obj(all)) && Suffix(ms, all)
    ensures DescendMembers(path, ms, Obj(all)) == OnwardFromAll(path[1..], OutermostIn(name, MemberPlaces(ms)))
    decreases ms, 0
  {
    if ms != [] {
      var m, k := ms[0], |all| - |ms|;
      assert all[k] == m && Suffix(ms[1..], all);
      DescentInMembers(path, name, ms[1..], all);
      OutermostChild(name, Name(m.name), m.value, MemberPlaces(ms[1..]));
      if m.name == name {
        FindMember(all, k);
        OnwardFromOne(path[1..], m.value);
        OnwardConcat(path[1..], [m.value], OutermostIn(name, MemberPlaces(ms[1..])));
      } else {
        DescentFindsOutermost(path, name, m.value);
        OnwardConcat(path[1..], OutermostIn(name, Descendants(m.value)), OutermostIn(name, MemberPlaces(ms[1..])));
      }
    }
  }

  lemma OnwardFromOne(path: seq<PathNode>, v: Json)
    requires WellFormedPath(path)
    ensures OnwardFromAll(path, [v]) == Onward(path, Some(v))
  {
    assert [v][1..] == [] && Onward(path, Some(v)) + [] == Onward(path, Some(v));
  }

  lemma {:induction false} DescentInElements(path: seq<PathNode>, name: string, es: seq<Json>, i: nat, whole: Json)
    requires DescendsTo(path, name) && WellFormedPath(path[1..]) && forall k :: 0 <= k < |es| ==> WellFormed(es[k])
    ensures DescendElements(path, es, i, whole) == OnwardFromAll(path[1..], OutermostIn(name, ElementPlaces(es, i)))
    decreases es, 0
  {
    if es != [] {
      DescentInElements(path, name, es[1..], i + 1, whole);
      OutermostChild(name, Index(i), es[0], ElementPlaces(es[1..], i + 1));
      DescentFindsOutermost(path, name, es[0]);
      OnwardConcat(path[1..], OutermostIn(name, Descendants(es[0])), OutermostIn(name, ElementPlaces(es[1..], i + 1)));
    }
  }

  /** `..name` collects exactly the outermost members of the name. */
  lemma DescentCollects(name: string, j: Json)
    requires WellFormed(j)
    ensures WellFormedPath([Descend, ChildMember(name)])
    ensures Walk([Descend, ChildMember(name)], Some(j)) == OutermostIn(name, Descendants(j))
  {
    var path := [Descend, ChildMember(name)];
    var last := path[1..];
    assert last == [ChildMember(name)];
    DescentFindsOutermost(path, name, j);
    OnwardAtEnd(last, OutermostIn(name, Descendants(j)));
  }

  lemma {:induction false} OnwardAtEnd(path: seq<PathNode>, vs: seq<Json>)
    requires WellFormedPath(path) && |path| == 1
    ensures OnwardFromAll(path, vs) == vs
  {
    if vs != [] {
      OnwardAtEnd(path, vs[1..]);
      assert [vs[0]] + vs[1..] == vs;
    }
  }

  /** A descent followed by a wildcard or by another descent finds nothing at all. */
  lemma {:induction false} OtherDescentsFindNothing(path: seq<PathNode>, j: Json)
    requires WellFormedPath(path) && path[0].Descend? && |path| > 1 && !path[1].ChildMember?
    ensures Walk(path, Some(j)) == []
    decreases j, 1
  {
    LookAhead(path);
    match j
    case Obj(ms) => NothingInMembers(path, ms, j);
    case Arr(es) => NothingInElements(path, es, 0, j);
    case _ =>
  }

  lemma {:induction false} NothingInMembers(path: seq<PathNode>, ms: seq<Member>, whole: Json)
    requires WellFormedPath(path) && path[0].Descend? && |path| > 1 && !path[1].ChildMember?
    ensures DescendMembers(path, ms, whole) == []
    decreases ms, 0
  {
    if ms != [] {
      OtherDescentsFindNothing(path, ms[0].value);
      NothingInMembers(path, ms[1..], whole);
    }
  }

  lemma {:induction false} NothingInElements(path: seq<PathNode>, es: seq<Json>, i: nat, whole: Json)
    requires WellFormedPath(path) && path[0].Descend? && |path| > 1 && !path[1].ChildMember?
    ensures DescendElements(path, es, i, whole) == []
    decreases es, 0
  {
    if es != [] {
      LookAhead(path);
      OtherDescentsFindNothing(path, es[0]);
      NothingInElements(path, es[1..], i + 1, whole);
    }
  }

  // ----- the walk itself -----

  /** The array the matches are added to. */
  class Results {
    var elements: seq<Json>

    constructor ()
      ensures elements == []
    {
      elements := [];
    }

    /** The end of the path, or the rest of it. */
    method GoOn(path: seq<PathNode>, x: Option<Json>)
      requires WellFormedPath(path)
      modifies this
      ensures elements == old(elements) + Onward(path, x)
      decreases |path|, 0, 0, 0
    {
      if |path| == 1 {
        if x.Some? {
          elements := elements + [x.value];
        }
      } else {
        LaterPath(path);
        WalkNode(path[1..], x);
      }
    }

    /** walk_path_node */
    method WalkNode(path: seq<PathNode>, root: Option<Json>)
      requires WellFormedPath(path)
      modifies this
      ensures elements == old(elements) + Walk(path, root)
      decreases |path|, 1, Below(root), 1
    {
      match path[0]
      case Root => GoOn(path, root);
      case ChildMember(name) =>
        if root.Some? && root.value.Obj? && Find(root.value.members, name).Some? {
          GoOn(path, Find(root.value.members, name));
        }
      case ChildElement(index) =>
        if root.Some? && root.value.Arr? && |root.value.elements| >= index {
          GoOn(path, ElementAt(root.value.elements, index));
        }
      case Descend =>
        if root.Some? && root.value.Obj? {
          WalkMembers(path, root.value.members);
        } else if root.Some? && root.value.Arr? {
          WalkElements(path, root.value.elements);
        }
      case WildcardMember =>
        if root.Some? && root.value.Obj? {
          GlobMembers(path, root.value.members);
        } else if root.Some? {
          elements := elements + [root.value];
        }
      case WildcardElement =>
        if root.Some? && root.value.Arr? {
          GlobElements(path, root.value.elements);
        } else if root.Some? {
          elements := elements + [root.value];
        }
      case ElementSet(indices) =>
        if root.Some? && root.value.Arr? {
          PickElements(path, root.value.elements, indices);
        }
    }

    method WalkMembers(path: seq<PathNode>, ms: seq<Member>)
      requires WellFormedPath(path) && path[0].Descend?
      modifies this
      ensures elements == old(elements) + DescendMembers(path, ms, Obj(ms))
      decreases |path|, 1, ms, 0
    {
      LookAhead(path);
      ghost var all := elements + DescendMembers(path, ms, Obj(ms));
      for i := 0 to |ms|
        invariant elements + DescendMembers(path, ms[i..], Obj(ms)) == all
      {
        assert ms[i..][1..] == ms[i + 1..];
        if path[1] == ChildMember(ms[i].name) {
          Associative(elements, Walk(path[1..], Some(Obj(ms))), DescendMembers(path, ms[i + 1..], Obj(ms)));
          WalkNode(path[1..], Some(Obj(ms)));
        } else {
          Associative(elements, Walk(path, Some(ms[i].value)), DescendMembers(path, ms[i + 1..], Obj(ms)));
          WalkNode(path, Some(ms[i].value));
        }
      }
      assert ms[|ms|..] == [];
    }

    method WalkElements(path: seq<PathNode>, es: seq<Json>)
      requires WellFormedPath(path) && path[0].Descend?
      modifies this
      ensures elements == old(elements) + DescendElements(path, es, 0, Arr(es))
      decreases |path|, 1, es, 0
    {
      LookAhead(path);
      ghost var all := elements + DescendElements(path, es, 0, Arr(es));
      for i := 0 to |es|
        invariant elements + DescendElements(path, es[i..], i, Arr(es)) == all
      {
        assert es[i..][1..] == es[i + 1..];
        if path[1] == ChildElement(i) {
          // No compiled path has an element step behind a descent.
          assert false;
        } else {
          Associative(elements, Walk(path, Some(es[i])), DescendElements(path, es[i + 1..], i + 1, Arr(es)));
          WalkNode(path, Some(es[i]));
        }
      }
      assert es[|es|..] == [];
    }

    method GlobMembers(path: seq<PathNode>, ms: seq<Member>)
      requires WellFormedPath(path)
      modifies this
      ensures elements == old(elements) + EachMember(path, ms)
      decreases |path|, 0, 1, 0
    {
      ghost var all := elements + EachMember(path, ms);
      for i := 0 to |ms|
        invariant elements + EachMember(path, ms[i..]) == all
      {
        assert ms[i..][1..] == ms[i + 1..];
        Associative(elements, Onward(path, Some(ms[i].value)), EachMember(path, ms[i + 1..]));
        GoOn(path, Some(ms[i].value));
      }
      assert ms[|ms|..] == [];
    }

    method GlobElements(path: seq<PathNode>, es: seq<Json>)
      requires WellFormedPath(path)
      modifies this
      ensures elements == old(elements) + EachElement(path, es)
      decreases |path|, 0, 1, 0
    {
      ghost var all := elements + EachElement(path, es);
      for i := 0 to |es|
        invariant elements + EachElement(path, es[i..]) == all
      {
        assert es[i..][1..] == es[i + 1..];
        Associative(elements, Onward(path, Some(es[i])), EachElement(path, es[i + 1..]));
        GoOn(path, Some(es[i]));
      }
      assert es[|es|..] == [];
    }

    method PickElements(path: seq<PathNode>, es: seq<Json>, indices: seq<int>)
      requires WellFormedPath(path)
      modifies this
      ensures elements == old(elements) + EachIndex(path, es, indices)
      decreases |path|, 0, 1, 0
    {
      ghost var all := elements + EachIndex(path, es, indices);
      for i := 0 to |indices|
        invariant elements + EachIndex(path, es, indices[i..]) == all
      {
        assert indices[i..][1..] == indices[i + 1..];
        Associative(elements, Onward(path, ElementAt(es, indices[i])), EachIndex(path, es, indices[i + 1..]));
        GoOn(path, ElementAt(es, indices[i]));
      }
      assert indices[|indices|..] == [];
    }
  }

  /** json_path_match */
  method Match(path: seq<PathNode>, root: Json) returns (matches: seq<Json>)
    requires WellFormedPath(path)
    ensures matches == Walk(path, Some(root))
  {
    var results := new Results();
    results.WalkNode(path, Some(root));
    matches := results.elements;
  }
}
