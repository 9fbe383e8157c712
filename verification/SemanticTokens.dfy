/** The cached semantic tokens of a document (lsp-semtokens.c): patched by the server's
    deltas and decoded from their relative encoding. The reference is LSP 3.17, section
    "Semantic Tokens". */
module SemanticTokens {
  import opened Wrappers
  import opened Text
  import opened Splice
  import opened Sorting
  import opened Selections

  // ----- patching the cached array -----

  /** An edit as it arrives; `data` may be missing. */
  datatype TokenEdit = TokenEdit(start: nat, deleteCount: nat, data: Option<seq<nat>>)

  function ToSplice(e: TokenEdit): Edit<nat> {
    Edit(e.start, e.deleteCount, if e.data.Some? then e.data.value else [])
  }

  function Splices(es: seq<TokenEdit>): (fs: seq<Edit<nat>>)
    ensures |fs| == |es|
    ensures forall i :: 0 <= i < |es| ==> fs[i] == ToSplice(es[i])
  {
    seq(|es|, i requires 0 <= i < |es| => ToSplice(es[i]))
  }

  /** The edits the parsing loop accepts: those that carry data. */
  function Accepted(es: seq<TokenEdit>): seq<Edit<nat>> {
    if es == [] then []
    else (if es[0].data.Some? then [ToSplice(es[0])] else []) + Accepted(es[1..])
  }

  /** sort_edits: by start, latest first. */
  function StartOrder(e1: Edit<nat>, e2: Edit<nat>): int {
    e2.start - e1.start
  }

  lemma StartOrderIsBackwards()
    ensures TotalPreorder(StartOrder)
    ensures forall e, f :: MayPrecede(StartOrder, e, f) <==> f.start <= e.start
  {
  }

  /** Edits a server may send: within the array, pairwise apart, with distinct starts. */
  ghost predicate Legal(s: seq<nat>, fs: seq<Edit<nat>>) {
    && AllInBounds(s, fs)
    && forall i, j :: 0 <= i < j < |fs| ==> Apart(fs[i], fs[j])
  }

  ghost predicate Apart(f: Edit<nat>, g: Edit<nat>) {
    f.start != g.start && (f.start + f.del <= g.start || g.start + g.del <= f.start)
  }

  /** Sorted, legal edits run backwards through the array. */
  lemma {:induction false} SortedLegal(s: seq<nat>, fs: seq<Edit<nat>>)
    requires Legal(s, fs)
    ensures
      var sorted := Sort(StartOrder, fs);
      && Backwards(sorted) && AllInBounds(s, sorted) && DistinctStarts(sorted) && DistinctStarts(fs)
      && forall f :: f in fs <==> f in sorted
  {
    var sorted := Sort(StartOrder, fs);
    StartOrderIsBackwards();
    SortIsSorted(StartOrder, fs);
    SortIsPermutation(StartOrder, fs);
    forall i | 0 <= i < |sorted| ensures InBounds(s, sorted[i]) {
      var f := sorted[i];
      assert f in fs;
    }
    forall i, j | 0 <= i < j < |sorted|
      ensures sorted[j].start + sorted[j].del <= sorted[i].start && sorted[i].start != sorted[j].start
    {
      assert MayPrecede(StartOrder, sorted[i], sorted[j]);
      var k, l := TwoPlaces(sorted, fs, i, j);
      assert if k < l then Apart(fs[k], fs[l]) else Apart(fs[l], fs[k]);
    }
  }

  /** sem_tokens_edit_apply, with its guard. */
  function GuardedApply(s: seq<nat>, e: Edit<nat>): seq<nat> {
    if InBounds(s, e) then Apply(s, e) else s
  }

  function GuardedInOrder(s: seq<nat>, es: seq<Edit<nat>>): seq<nat>
    decreases |es|
  {
    if es == [] then s else GuardedInOrder(GuardedApply(s, es[0]), es[1..])
  }

  /** Backwards over edits within the array, the guard never fires. */
  lemma {:induction false} GuardNeverFires(s: seq<nat>, es: seq<Edit<nat>>)
    requires Backwards(es) && AllInBounds(s, es)
    ensures GuardedInOrder(s, es) == ApplyInOrder(s, es)
    decreases |es|
  {
    if es != [] {
      RestInBounds(s, es);
      GuardNeverFires(Apply(s, es[0]), es[1..]);
    }
  }

  /** What a delta does to the cached array. */
  function Patched(s: seq<nat>, es: seq<TokenEdit>): seq<nat> {
    GuardedInOrder(s, Sort(StartOrder, Accepted(es)))
  }

  /** What the server means by a delta: all edits applied to the previous array at once. */
  function Meant(s: seq<nat>, es: seq<TokenEdit>): seq<nat> {
    Simultaneous(s, Splices(es), 0)
  }

  lemma {:induction false} AllAccepted(es: seq<TokenEdit>)
    requires forall i :: 0 <= i < |es| ==> es[i].data.Some?
    ensures Accepted(es) == Splices(es)
  {
    if es != [] {
      AllAccepted(es[1..]);
      assert Splices(es) == [ToSplice(es[0])] + Splices(es[1..]);
    }
  }

  /** The cached array after a delta whose edits all carry data is the server's array. */
  lemma {:induction false} PatchIsMeant(s: seq<nat>, es: seq<TokenEdit>)
    requires Legal(s, Splices(es))
    requires forall i :: 0 <= i < |es| ==> es[i].data.Some?
    ensures Patched(s, es) == Meant(s, es)
  {
    AllAccepted(es);
    PatchOfAccepted(s, es);
  }

  lemma {:induction false} PatchOfAccepted(s: seq<nat>, es: seq<TokenEdit>)
    requires Legal(s, Accepted(es))
    ensures Patched(s, es) == Simultaneous(s, Accepted(es), 0)
  {
    var fs := Accepted(es);
    SortedLegal(s, fs);
    GuardNeverFires(s, Sort(StartOrder, fs));
    BackwardsIsSimultaneous(s, fs, Sort(StartOrder, fs));
  }

  // ----- edits without data -----

  function Removed(fs: seq<Edit<nat>>): nat {
    if fs == [] then 0 else fs[0].del + Removed(fs[1..])
  }

  function Added(fs: seq<Edit<nat>>): nat {
    if fs == [] then 0 else |fs[0].ins| + Added(fs[1..])
  }

  lemma {:induction false} LengthInOrder(s: seq<nat>, es: seq<Edit<nat>>)
    requires Backwards(es) && AllInBounds(s, es)
    ensures |ApplyInOrder(s, es)| + Removed(es) == |s| + Added(es)
    decreases |es|
  {
    if es != [] {
      RestInBounds(s, es);
      LengthInOrder(Apply(s, es[0]), es[1..]);
    }
  }

  lemma {:induction false} InsertTotals(e: Edit<nat>, fs: seq<Edit<nat>>)
    ensures Removed(Insert(StartOrder, e, fs)) == e.del + Removed(fs)
    ensures Added(Insert(StartOrder, e, fs)) == |e.ins| + Added(fs)
  {
    if fs == [] || MayPrecede(StartOrder, e, fs[0]) {
      assert ([e] + fs)[1..] == fs;
    } else {
      InsertTotals(e, fs[1..]);
      assert ([fs[0]] + Insert(StartOrder, e, fs[1..]))[1..] == Insert(StartOrder, e, fs[1..]);
    }
  }

  lemma {:induction false} SortTotals(fs: seq<Edit<nat>>)
    ensures Removed(Sort(StartOrder, fs)) == Removed(fs) && Added(Sort(StartOrder, fs)) == Added(fs)
  {
    if fs != [] {
      SortTotals(fs[1..]);
      InsertTotals(fs[0], Sort(StartOrder, fs[1..]));
    }
  }

  lemma {:induction false} SimultaneousLength(s: seq<nat>, fs: seq<Edit<nat>>)
    requires Legal(s, fs)
    ensures |Simultaneous(s, fs, 0)| + Removed(fs) == |s| + Added(fs)
  {
    SortedLegal(s, fs);
    BackwardsIsSimultaneous(s, fs, Sort(StartOrder, fs));
    LengthInOrder(s, Sort(StartOrder, fs));
    SortTotals(fs);
  }

  lemma {:induction false} AcceptedAmong(es: seq<TokenEdit>, f: Edit<nat>)
    requires f in Accepted(es)
    ensures f in Splices(es)
  {
    assert Splices(es) == [ToSplice(es[0])] + Splices(es[1..]);
    if f in Accepted(es[1..]) { AcceptedAmong(es[1..], f); }
  }

  /** An accepted edit of a legal list is apart from the first, if it is another one. */
  lemma ApartFromFirst(s: seq<nat>, es: seq<TokenEdit>, f: Edit<nat>)
    requires es != [] && Legal(s, Splices(es)) && f in Accepted(es[1..])
    ensures Apart(ToSplice(es[0]), f) && InBounds(s, f)
  {
    var all := Splices(es);
    AcceptedAmong(es[1..], f);
    var k :| 0 <= k < |es[1..]| && Splices(es[1..])[k] == f;
    assert all[k + 1] == f && Apart(all[0], all[k + 1]);
  }

  lemma MoreLegal(s: seq<nat>, f: Edit<nat>, rest: seq<Edit<nat>>)
    requires Legal(s, rest) && InBounds(s, f) && forall j :: 0 <= j < |rest| ==> Apart(f, rest[j])
    ensures Legal(s, [f] + rest)
  {
  }

  /** The accepted edits are legal if all are. */
  lemma {:induction false} AcceptedLegal(s: seq<nat>, es: seq<TokenEdit>)
    requires Legal(s, Splices(es))
    ensures Legal(s, Accepted(es))
  {
    if es != [] {
      var rest := Accepted(es[1..]);
      assert Splices(es[1..]) == Splices(es)[1..];
      AcceptedLegal(s, es[1..]);
      forall j | 0 <= j < |rest| ensures Apart(ToSplice(es[0]), rest[j]) { ApartFromFirst(s, es, rest[j]); }
      assert InBounds(s, Splices(es)[0]);
      MoreLegal(s, ToSplice(es[0]), rest);
      assert [] + rest == rest;
    }
  }

  ghost predicate DroppedDeleteNothing(es: seq<TokenEdit>) {
    forall i :: 0 <= i < |es| && es[i].data.None? ==> es[i].deleteCount == 0
  }

  lemma {:induction false} DroppedTotals(es: seq<TokenEdit>)
    ensures Added(Splices(es)) == Added(Accepted(es))
    ensures Removed(Splices(es)) >= Removed(Accepted(es))
    ensures Removed(Splices(es)) == Removed(Accepted(es)) <==> DroppedDeleteNothing(es)
  {
    if es != [] {
      assert Splices(es)[1..] == Splices(es[1..]);
      DroppedTotals(es[1..]);
      var rest := Accepted(es[1..]);
      if es[0].data.Some? {
        assert ([ToSplice(es[0])] + rest)[1..] == rest;
      } else {
        assert [] + rest == rest;
      }
      assert DroppedDeleteNothing(es) <==> (es[0].data.None? ==> es[0].deleteCount == 0) && DroppedDeleteNothing(es[1..]) by {
        assert forall i :: 0 < i < |es| ==> es[i] == es[1..][i - 1];
        assert forall i :: 0 <= i < |es[1..]| ==> es[1..][i] == es[i + 1];
      }
    }
  }

  /** Dropping edits that neither delete nor insert changes nothing. */
  lemma {:induction false} DroppedInsertNothing(es: seq<TokenEdit>, i: nat)
    ensures InsertedAt(Splices(es), i) == InsertedAt(Accepted(es), i)
  {
    if es != [] {
      assert Splices(es)[1..] == Splices(es[1..]);
      DroppedInsertNothing(es[1..], i);
      var rest := Accepted(es[1..]);
      if es[0].data.Some? {
        assert ([ToSplice(es[0])] + rest)[1..] == rest;
      } else {
        assert [] + rest == rest;
        assert [] + InsertedAt(rest, i) == InsertedAt(rest, i);
      }
    }
  }

  lemma {:induction false} AcceptedMembers(es: seq<TokenEdit>, k: nat)
    requires k < |es| && es[k].data.Some?
    ensures ToSplice(es[k]) in Accepted(es)
  {
    if k > 0 { AcceptedMembers(es[1..], k - 1); }
  }

  lemma {:induction false} DroppedHarmless(s: seq<nat>, es: seq<TokenEdit>, from: nat)
    requires from <= |s| && DroppedDeleteNothing(es)
    requires forall f :: f in Accepted(es) ==> f in Splices(es)
    ensures Simultaneous(s, Splices(es), from) == Simultaneous(s, Accepted(es), from)
    decreases |s| - from
  {
    DroppedInsertNothing(es, from);
    if from < |s| {
      DroppedHarmless(s, es, from + 1);
      DeletedUnordered(Accepted(es), Splices(es), from);
      if DeletedAt(Splices(es), from) {
        var k :| 0 <= k < |es| && Splices(es)[k].start <= from < Splices(es)[k].start + Splices(es)[k].del;
        AcceptedMembers(es, k);
        var l :| 0 <= l < |Accepted(es)| && Accepted(es)[l] == ToSplice(es[k]);
        assert DeletedAt(Accepted(es), from);
      }
    }
  }

  /** The standard lets an edit omit its data; such edits are skipped. The cached array still
      ends up as the server's exactly when every edit without data deletes nothing. */
  lemma {:induction false} PatchIsMeantIff(s: seq<nat>, es: seq<TokenEdit>)
    requires Legal(s, Splices(es))
    ensures Patched(s, es) == Meant(s, es) <==> DroppedDeleteNothing(es)
  {
    AcceptedLegal(s, es);
    PatchOfAccepted(s, es);
    SimultaneousLength(s, Splices(es));
    SimultaneousLength(s, Accepted(es));
    DroppedTotals(es);
    if DroppedDeleteNothing(es) {
      forall f | f in Accepted(es) ensures f in Splices(es) { AcceptedAmong(es, f); }
      DroppedHarmless(s, es, 0);
    }
  }

  lemma PatchedIfLegal(s: seq<nat>, es: seq<TokenEdit>)
    ensures Legal(s, Splices(es)) && DroppedDeleteNothing(es) ==> Patched(s, es) == Meant(s, es)
  {
    if Legal(s, Splices(es)) { PatchIsMeantIff(s, es); }
  }

  /** A plain deletion sent without data leaves the cache out of step. */
  lemma DeletionWithoutDataIsLost()
    ensures
      var es := [TokenEdit(0, 5, None)];
      var s: seq<nat> := [1, 2, 3, 4, 5];
      Legal(s, Splices(es)) && Patched(s, es) != Meant(s, es)
  {
    var es := [TokenEdit(0, 5, None)];
    assert !DroppedDeleteNothing(es) by { assert es[0].data.None?; }
    PatchIsMeantIff([1, 2, 3, 4, 5], es);
  }

  // ----- the cache over a run of requests and responses -----

  datatype Cached = Cached(tokens: seq<nat>, resultId: Option<string>)

  datatype Request = RequestFull | RequestRange | RequestDelta(previousResultId: string)

  /** What a response carries; a member that is missing is None. */
  datatype Response = Response(resultId: Option<string>, data: Option<seq<nat>>, edits: Option<seq<TokenEdit>>)

  /** lsp_semtokens_send_request: a delta only on top of a cached array with a result id. */
  function ChooseRequest(cache: Option<Cached>, supportsDelta: bool, forceFull: bool, rangeOnly: bool): Request {
    if cache.Some? && cache.value.resultId.Some? && supportsDelta && !forceFull then
      RequestDelta(cache.value.resultId.value)
    else if rangeOnly then RequestRange
    else RequestFull
  }

  /** semtokens_cb: a response with data replaces the array, any other is taken as a delta;
      a delta without edits or result id drops the cache. */
  function Received(cache: Option<Cached>, r: Response): Option<Cached> {
    if r.data.Some? then Some(Cached(r.data.value, r.resultId))
    else if cache.None? then None
    else if r.edits.None? || r.resultId.None? then None
    else Some(Cached(Patched(cache.value.tokens, r.edits.value), r.resultId))
  }

  class TokenCache {
    var cache: Option<Cached>

    constructor ()
      ensures cache == None
    {
      cache := None;
    }

    method ApplyEdit(edit: Edit<nat>)
      requires cache.Some?
      modifies this
      ensures cache == Some(old(cache).value.(tokens := GuardedApply(old(cache).value.tokens, edit)))
    {
      var tokens := cache.value.tokens;
      if edit.start + edit.del > |tokens| {
        return;
      }
      tokens := tokens[..edit.start] + tokens[edit.start + edit.del..];
      tokens := tokens[..edit.start] + edit.ins + tokens[edit.start..];
      assert tokens == Apply(cache.value.tokens, edit);
      cache := Some(cache.value.(tokens := tokens));
    }

    /** The loop that collects the edits that parse. */
    static method ParseEdits(es: seq<TokenEdit>) returns (fs: seq<Edit<nat>>)
      ensures fs == Accepted(es)
    {
      fs := [];
      var i := 0;
      while i < |es|
        invariant 0 <= i <= |es| && fs + Accepted(es[i..]) == Accepted(es)
      {
        assert es[i..][1..] == es[i + 1..];
        if es[i].data.Some? {
          fs := fs + [ToSplice(es[i])];
        }
        i := i + 1;
      }
    }

    method ProcessDeltaResult(r: Response) returns (ok: bool)
      requires r.data.None?
      modifies this
      ensures cache == Received(old(cache), r)
      ensures ok <==> old(cache).Some? && r.edits.Some? && r.resultId.Some?
      ensures ok && Legal(old(cache).value.tokens, Splices(r.edits.value)) && DroppedDeleteNothing(r.edits.value) ==>
        cache == Some(Cached(Meant(old(cache).value.tokens, r.edits.value), r.resultId))
      ensures !ok ==> cache == None
    {
      ok := false;
      if cache.Some? && (r.edits.None? || r.resultId.None?) {
        cache := None;
      } else if cache.Some? {
        var edits := ParseEdits(r.edits.value);
        var sorted := Sort(StartOrder, edits);
        var i := 0;
        while i < |sorted|
          invariant 0 <= i <= |sorted| && cache.Some?
          invariant GuardedInOrder(cache.value.tokens, sorted[i..]) == GuardedInOrder(old(cache).value.tokens, sorted)
        {
          assert sorted[i..][1..] == sorted[i + 1..];
          ApplyEdit(sorted[i]);
          i := i + 1;
        }
        assert sorted[i..] == [];
        cache := Some(cache.value.(resultId := r.resultId));
        ok := true;
        PatchedIfLegal(old(cache).value.tokens, r.edits.value);
      }
    }

    method ProcessFullResult(r: Response)
      requires r.data.Some?
      modifies this
      ensures cache == Received(old(cache), r)
      ensures cache == Some(Cached(r.data.value, r.resultId))
    {
      cache := Some(Cached(r.data.value, r.resultId));
    }

    method Callback(r: Response)
      modifies this
      ensures cache == Received(old(cache), r)
    {
      if r.data.Some? {
        ProcessFullResult(r);
      } else {
        var ok := ProcessDeltaResult(r);
      }
    }

    method SendRequest(supportsDelta: bool, forceFull: bool, rangeOnly: bool) returns (q: Request)
      ensures q == ChooseRequest(cache, supportsDelta, forceFull, rangeOnly)
      ensures q.RequestDelta? <==> cache.Some? && cache.value.resultId.Some? && supportsDelta && !forceFull
      ensures q.RequestDelta? ==> cache.value.resultId == Some(q.previousResultId)
      ensures !q.RequestDelta? ==> q == if rangeOnly then RequestRange else RequestFull
    {
      var delta := cache.Some? && cache.value.resultId.Some? && supportsDelta && !forceFull;
      if delta {
        q := RequestDelta(cache.value.resultId.value);
      } else if rangeOnly {
        q := RequestRange;
      } else {
        q := RequestFull;
      }
    }
  }

  /** `results` is what the server remembers: the full array behind every result id it gave. */
  datatype Session = Session(cache: Option<Cached>, pending: Option<Request>, results: map<string, seq<nat>>)

  datatype Event =
    | Ask(supportsDelta: bool, forceFull: bool, rangeOnly: bool)
    | Answer(response: Response)
    | Failure                                   // an error response, or one that never comes
    | Forget                                    // the document was closed or its cache cleared

  /** The array a legal answer stands for. */
  function Stands(se: Session, r: Response): seq<nat> {
    if r.data.Some? then r.data.value
    else if se.pending.Some? && se.pending.value.RequestDelta? && se.pending.value.previousResultId in se.results && r.edits.Some? then
      Meant(se.results[se.pending.value.previousResultId], r.edits.value)
    else []
  }

  /** A server may answer any request in full, or a delta request by a delta against the
      array behind the id it was asked about, with data in every edit. An id it used before
      stands for the same array. */
  ghost predicate LegalAnswer(se: Session, r: Response) {
    && se.pending.Some?
    && (r.data.None? ==>
          && se.pending.value.RequestDelta? && r.edits.Some? && r.resultId.Some?
          && se.pending.value.previousResultId in se.results
          && Legal(se.results[se.pending.value.previousResultId], Splices(r.edits.value))
          && forall i :: 0 <= i < |r.edits.value| ==> r.edits.value[i].data.Some?)
    && (r.resultId.Some? && r.resultId.value in se.results ==> se.results[r.resultId.value] == Stands(se, r))
  }

  ghost predicate Possible(se: Session, e: Event) {
    match e
    case Ask(_, _, _) => se.pending.None?
    case Answer(r) => LegalAnswer(se, r)
    case _ => true
  }

  function Step(se: Session, e: Event): Session {
    match e
    case Ask(d, f, o) => se.(pending := Some(ChooseRequest(se.cache, d, f, o)))
    case Answer(r) =>
      Session(Received(se.cache, r), None,
              if r.resultId.Some? then se.results[r.resultId.value := Stands(se, r)] else se.results)
    case Failure => se.(pending := None)
    case Forget => se.(cache := None)
  }

  /** The cached array is the server's array for the cached id, and an outstanding delta
      request names the cached id unless the cache was forgotten meanwhile. */
  ghost predicate Agrees(se: Session) {
    && (se.cache.Some? && se.cache.value.resultId.Some? ==>
          && se.cache.value.resultId.value in se.results
          && se.results[se.cache.value.resultId.value] == se.cache.value.tokens)
    && (se.pending.Some? && se.pending.value.RequestDelta? ==>
          && se.pending.value.previousResultId in se.results
          && (se.cache.Some? ==> se.cache.value.resultId == Some(se.pending.value.previousResultId)))
  }

  lemma {:induction false} StepAgrees(se: Session, e: Event)
    requires Agrees(se) && Possible(se, e)
    ensures Agrees(Step(se, e))
    ensures e.Answer? && Step(se, e).cache.Some? ==> Step(se, e).cache.value.tokens == Stands(se, e.response)
  {
    if e.Answer? && e.response.data.None? && se.cache.Some? {
      PatchIsMeant(se.cache.value.tokens, e.response.edits.value);
    }
  }

  ghost predicate PossibleRun(se: Session, events: seq<Event>)
    decreases |events|
  {
    events == [] || (Possible(se, events[0]) && PossibleRun(Step(se, events[0]), events[1..]))
  }

  function RunFrom(se: Session, events: seq<Event>): Session
    decreases |events|
  {
    if events == [] then se else RunFrom(Step(se, events[0]), events[1..])
  }

  /** Over every run with one request outstanding the cached array stays the server's array
      for the cached result id. */
  lemma {:induction false} EveryRun(se: Session, events: seq<Event>)
    requires Agrees(se) && PossibleRun(se, events)
    ensures Agrees(RunFrom(se, events))
    decreases |events|
  {
    if events != [] {
      StepAgrees(se, events[0]);
      EveryRun(Step(se, events[0]), events[1..]);
    }
  }

  lemma {:induction false} EveryRunFromStart(events: seq<Event>)
    requires PossibleRun(Session(None, None, map[]), events)
    ensures Agrees(RunFrom(Session(None, None, map[]), events))
  {
    EveryRun(Session(None, None, map[]), events);
  }

  // ----- decoding -----

  datatype Token = Token(position: Position, length: nat, tokenType: nat, modifiers: nat)

  /** Where a token starts, given where the one before it started. */
  function Shift(last: Position, deltaLine: nat, deltaChar: nat): Position {
    Position(last.line + deltaLine, if deltaLine == 0 then last.character + deltaChar else deltaChar)
  }

  /** Five numbers a token; an incomplete group at the end is ignored. */
  function Decode(tokens: seq<nat>, last: Position): seq<Token>
    decreases |tokens|
  {
    if |tokens| < 5 then []
    else
      var p := Shift(last, tokens[0], tokens[1]);
      [Token(p, tokens[2], tokens[3], tokens[4])] + Decode(tokens[5..], p)
  }

  /** The standard's relative encoding of tokens in position order. */
  function Encode(ts: seq<Token>, last: Position): seq<int> {
    if ts == [] then []
    else
      var t := ts[0];
      var deltaLine := t.position.line - last.line;
      var deltaChar := if deltaLine == 0 then t.position.character - last.character else t.position.character;
      [deltaLine, deltaChar, t.length, t.tokenType, t.modifiers] + Encode(ts[1..], t.position)
  }

  ghost predicate InOrder(ts: seq<Token>, last: Position) {
    ts == [] || (!Before(ts[0].position, last) && InOrder(ts[1..], ts[0].position))
  }

  /** Tokens in position order encode to non-negative numbers, and decoding those numbers
      recovers exactly the absolute positions. */
  lemma {:induction false} DecodeEncode(ts: seq<Token>, last: Position)
    requires InOrder(ts, last)
    ensures forall i :: 0 <= i < |Encode(ts, last)| ==> Encode(ts, last)[i] >= 0
    ensures |Encode(ts, last)| == 5 * |ts|
    ensures Decode(Encode(ts, last), last) == ts
  {
    if ts != [] {
      var t := ts[0];
      DecodeEncode(ts[1..], t.position);
      var code := Encode(ts, last);
      var rest := Encode(ts[1..], t.position);
      assert code[5..] == rest;
      assert forall i :: 5 <= i < |code| ==> code[i] == rest[i - 5];
      assert Shift(last, code[0], code[1]) == t.position;
    }
  }

  lemma EncodeGroup(d: nat, c: nat, length: nat, tokenType: nat, modifiers: nat, last: Position, ts: seq<Token>)
    ensures
      var p := Shift(last, d, c);
      Encode([Token(p, length, tokenType, modifiers)] + ts, last) == [d, c, length, tokenType, modifiers] + Encode(ts, p)
  {
    assert ([Token(Shift(last, d, c), length, tokenType, modifiers)] + ts)[1..] == ts;
  }

  lemma WholeGroups(tokens: seq<nat>)
    requires |tokens| >= 5
    ensures tokens[..|tokens| / 5 * 5] ==
      [tokens[0], tokens[1], tokens[2], tokens[3], tokens[4]] + tokens[5..][..|tokens[5..]| / 5 * 5]
  {
  }

  lemma InOrderStep(last: Position, d: nat, c: nat, t: Token, ts: seq<Token>)
    requires t.position == Shift(last, d, c) && InOrder(ts, t.position)
    ensures InOrder([t] + ts, last)
  {
    assert ([t] + ts)[1..] == ts;
  }

  /** Every array is, up to an incomplete group at its end, the encoding of the tokens it
      decodes to. */
  lemma {:induction false} EncodeDecode(tokens: seq<nat>, last: Position)
    ensures InOrder(Decode(tokens, last), last)
    ensures Encode(Decode(tokens, last), last) == tokens[..|tokens| / 5 * 5]
    decreases |tokens|
  {
    if |tokens| >= 5 {
      var p := Shift(last, tokens[0], tokens[1]);
      EncodeDecode(tokens[5..], p);
      var ts := Decode(tokens[5..], p);
      InOrderStep(last, tokens[0], tokens[1], Token(p, tokens[2], tokens[3], tokens[4]), ts);
      EncodeGroup(tokens[0], tokens[1], tokens[2], tokens[3], tokens[4], last, ts);
      WholeGroups(tokens);
    }
  }

  /** The styles of a server: `masks[i]` holds the token types of style `i`, style 0 being
      the default; `shown[i]` says whether the style has an indicator. */
  datatype Styles = Styles(masks: seq<set<nat>>, shown: seq<bool>)

  /** get_style_index: the first shown custom style that has the type, else the default if it
      has it. Types of 64 and more have no bit and so no style. */
  function StyleIndex(s: Styles, tokenType: nat): (i: int)
    requires |s.masks| == |s.shown| >= 1
    ensures -1 <= i < |s.masks|
    ensures i >= 0 ==> tokenType < 64 && tokenType in s.masks[i]
    ensures i > 0 ==> s.shown[i]
    ensures forall k :: 1 <= k < |s.masks| && tokenType < 64 && s.shown[k] && tokenType in s.masks[k] ==> 0 < i <= k
    ensures i == -1 ==> tokenType >= 64 || tokenType !in s.masks[0]
  {
    StyleFrom(s, tokenType, 1)
  }

  function StyleFrom(s: Styles, tokenType: nat, k: nat): (i: int)
    requires |s.masks| == |s.shown| && 1 <= k <= |s.masks|
    ensures i == -1 || i == 0 || k <= i < |s.masks|
    ensures i >= 0 ==> tokenType < 64 && tokenType in s.masks[i]
    ensures i > 0 ==> s.shown[i]
    ensures forall l :: k <= l < |s.masks| && tokenType < 64 && s.shown[l] && tokenType in s.masks[l] ==> 0 < i <= l
    ensures i == -1 ==> tokenType >= 64 || tokenType !in s.masks[0]
    decreases |s.masks| - k
  {
    if k == |s.masks| then (if tokenType < 64 && tokenType in s.masks[0] then 0 else -1)
    else if s.shown[k] && tokenType < 64 && tokenType in s.masks[k] then k
    else StyleFrom(s, tokenType, k + 1)
  }

  datatype Mark = Mark(start: Position, end: Position, style: nat)

  function MarksOf(s: Styles, ts: seq<Token>): seq<Mark>
    requires |s.masks| == |s.shown| >= 1
  {
    if ts == [] then []
    else MarkOf(s, ts[0].position, ts[0].length, ts[0].tokenType) + MarksOf(s, ts[1..])
  }

  /** A token without a style leaves no mark. */
  function MarkOf(s: Styles, p: Position, length: nat, tokenType: nat): seq<Mark>
    requires |s.masks| == |s.shown| >= 1
  {
    var style := StyleIndex(s, tokenType);
    if style >= 0 then [Mark(p, Position(p.line, p.character + length), style)] else []
  }

  /** Style `k` is shown for the type; the default style needs no indicator. */
  ghost predicate Carries(s: Styles, k: nat, tokenType: nat)
    requires |s.masks| == |s.shown| >= 1
  {
    k < |s.masks| && tokenType < 64 && tokenType in s.masks[k] && (k > 0 ==> s.shown[k])
  }

  /** The style of a type is the lowest custom one that carries it, else the default. */
  ghost predicate StyledBy(s: Styles, tokenType: nat, style: nat)
    requires |s.masks| == |s.shown| >= 1
  {
    Carries(s, style, tokenType) && forall k :: 1 <= k && Carries(s, k, tokenType) ==> 1 <= style <= k
  }

  /** The mark covers the token on its line and has the style of its type. */
  ghost predicate Covers(s: Styles, t: Token, m: Mark)
    requires |s.masks| == |s.shown| >= 1
  {
    && m.start == t.position
    && m.end.line == t.position.line && m.end.character == t.position.character + t.length
    && StyledBy(s, t.tokenType, m.style)
  }

  ghost predicate HasStyle(s: Styles, t: Token)
    requires |s.masks| == |s.shown| >= 1
  {
    exists k :: Carries(s, k, t.tokenType)
  }

  ghost predicate CoversAt(s: Styles, ts: seq<Token>, marks: seq<Mark>, at: seq<nat>, j: nat)
    requires |s.masks| == |s.shown| >= 1 && j < |at| == |marks|
  {
    at[j] < |ts| && Covers(s, ts[at[j]], marks[j])
  }

  /** Mark `j` covers token `at[j]`; the tokens at these places, in this order, are all the
      tokens whose type has a style. */
  ghost predicate MarksAt(s: Styles, ts: seq<Token>, marks: seq<Mark>, at: seq<nat>)
    requires |s.masks| == |s.shown| >= 1
  {
    && |at| == |marks|
    && Ascending(at)
    && (forall j :: 0 <= j < |at| ==> CoversAt(s, ts, marks, at, j))
    && forall i :: 0 <= i < |ts| && HasStyle(s, ts[i]) ==> i in at
  }

  lemma StyleIsIt(s: Styles, tokenType: nat)
    requires |s.masks| == |s.shown| >= 1
    ensures StyleIndex(s, tokenType) >= 0 ==> StyledBy(s, tokenType, StyleIndex(s, tokenType))
    ensures StyleIndex(s, tokenType) < 0 ==> forall k :: !Carries(s, k, tokenType)
  {
  }

  /** A token in front that has no style. */
  lemma SkippedInFront(s: Styles, ts: seq<Token>, all: seq<Token>, marks: seq<Mark>, at: seq<nat>)
    requires |s.masks| == |s.shown| >= 1 && MarksAt(s, ts, marks, at)
    requires all != [] && all[1..] == ts && !HasStyle(s, all[0])
    ensures MarksAt(s, all, marks, Moved(at))
  {
    forall j | 0 <= j < |at| ensures CoversAt(s, all, marks, Moved(at), j) {
      assert CoversAt(s, ts, marks, at, j);
    }
    MovedIsAscending(at);
    forall i | 0 <= i < |all| && HasStyle(s, all[i]) ensures i in Moved(at) {
      assert i > 0 && all[i] == ts[i - 1];
      MovedListed(at, i);
    }
  }

  lemma CoversMoved(s: Styles, ts: seq<Token>, all: seq<Token>, m: Mark, marks: seq<Mark>, at: seq<nat>, j: nat)
    requires |s.masks| == |s.shown| >= 1 && |at| == |marks| && j <= |at|
    requires all != [] && all[1..] == ts
    requires if j == 0 then Covers(s, all[0], m) else CoversAt(s, ts, marks, at, j - 1)
    ensures CoversAt(s, all, [m] + marks, [0] + Moved(at), j)
  {
  }

  /** A token in front that gets a mark. */
  lemma MarkedInFront(s: Styles, ts: seq<Token>, all: seq<Token>, m: Mark, marks: seq<Mark>, at: seq<nat>)
    requires |s.masks| == |s.shown| >= 1 && MarksAt(s, ts, marks, at)
    requires all != [] && all[1..] == ts && Covers(s, all[0], m)
    ensures MarksAt(s, all, [m] + marks, [0] + Moved(at))
  {
    MovedIsAscending(at);
    forall j | 0 <= j <= |at| ensures CoversAt(s, all, [m] + marks, [0] + Moved(at), j) {
      CoversMoved(s, ts, all, m, marks, at, j);
    }
    forall i | 0 <= i < |all| && HasStyle(s, all[i]) ensures i in [0] + Moved(at) {
      assert i > 0 ==> all[i] == ts[i - 1];
      MovedListed(at, i);
    }
  }

  /** The marks cover, in order, exactly the tokens whose type has a style. */
  lemma {:induction false} MarksAreAt(s: Styles, ts: seq<Token>) returns (at: seq<nat>)
    requires |s.masks| == |s.shown| >= 1
    ensures MarksAt(s, ts, MarksOf(s, ts), at)
  {
    if ts == [] {
      at := [];
    } else {
      var rest := MarksAreAt(s, ts[1..]);
      var t := ts[0];
      var style := StyleIndex(s, t.tokenType);
      StyleIsIt(s, t.tokenType);
      if style >= 0 {
        var m := Mark(t.position, Position(t.position.line, t.position.character + t.length), style);
        MarkedInFront(s, ts[1..], ts, m, MarksOf(s, ts[1..]), rest);
        at := [0] + Moved(rest);
      } else {
        SkippedInFront(s, ts[1..], ts, MarksOf(s, ts[1..]), rest);
        assert [] + MarksOf(s, ts[1..]) == MarksOf(s, ts[1..]);
        at := Moved(rest);
      }
    }
  }

  /** The tokens that an array encodes, an incomplete group at its end aside, are marked. */
  lemma EncodedAreMarked(s: Styles, tokens: seq<nat>, ts: seq<Token>)
    requires |s.masks| == |s.shown| >= 1
    requires InOrder(ts, Position(0, 0)) && Encode(ts, Position(0, 0)) == tokens[..|tokens| / 5 * 5]
    ensures exists at :: MarksAt(s, ts, MarksOf(s, Decode(tokens, Position(0, 0))), at)
  {
    var start := Position(0, 0);
    EncodeDecode(tokens, start);
    DecodeEncode(ts, start);
    DecodeEncode(Decode(tokens, start), start);
    var at := MarksAreAt(s, ts);
  }

  /** The numbers of the group that starts at `base`, as far as they have been read. */
  ghost predicate Registers(tokens: seq<nat>, base: nat, i: nat, deltaLine: nat, deltaChar: nat, length: nat, tokenType: nat)
    requires i <= |tokens|
  {
    && (base < i ==> deltaLine == tokens[base])
    && (base + 1 < i ==> deltaChar == tokens[base + 1])
    && (base + 2 < i ==> length == tokens[base + 2])
    && (base + 3 < i ==> tokenType == tokens[base + 3])
  }

  lemma SlotIs(i: nat, base: nat)
    requires base % 5 == 0 && base <= i < base + 5
    ensures i % 5 == i - base && (base + 5) % 5 == 0
  {
  }

  /** process_tokens: the running registers of the loop over the numbers. */
  method ProcessTokens(tokens: seq<nat>, s: Styles) returns (marks: seq<Mark>)
    requires |s.masks| == |s.shown| >= 1
    ensures marks == MarksOf(s, Decode(tokens, Position(0, 0)))
    ensures forall ts: seq<Token> :: InOrder(ts, Position(0, 0)) && Encode(ts, Position(0, 0)) == tokens[..|tokens| / 5 * 5] ==>
              exists at :: MarksAt(s, ts, marks, at)
  {
    marks := [];
    var deltaLine: nat, deltaChar: nat, length: nat, tokenType: nat := 0, 0, 0, 0;
    var last := Position(0, 0);
    var i := 0;
    ghost var base := 0;  // where the current group of five starts
    while i < |tokens|
      invariant 0 <= base <= i <= |tokens| && i < base + 5 && base % 5 == 0
      invariant Registers(tokens, base, i, deltaLine, deltaChar, length, tokenType)
      invariant marks + MarksOf(s, Decode(tokens[base..], last)) == MarksOf(s, Decode(tokens, Position(0, 0)))
    {
      SlotIs(i, base);
      var slot := i % 5;
      match slot {
        case 0 => deltaLine := tokens[i];
        case 1 => deltaChar := tokens[i];
        case 2 => length := tokens[i];
        case 3 => tokenType := tokens[i];
        case _ =>
      }
      assert Registers(tokens, base, i + 1, deltaLine, deltaChar, length, tokenType);
      if slot == 4 {
        DecodeGroup(s, tokens, base, last, marks);
        last, marks := FinishToken(s, last, marks, deltaLine, deltaChar, length, tokenType);
        base := base + 5;
      }
      i := i + 1;
    }
    assert |tokens[base..]| < 5;
    assert marks + [] == marks == MarksOf(s, Decode(tokens, Position(0, 0)));
    forall ts: seq<Token> | InOrder(ts, Position(0, 0)) && Encode(ts, Position(0, 0)) == tokens[..|tokens| / 5 * 5]
      ensures exists at :: MarksAt(s, ts, marks, at)
    {
      EncodedAreMarked(s, tokens, ts);
    }
  }

  /** The fifth number of a group: move on and mark the token if it has a style. */
  method FinishToken(s: Styles, last0: Position, marks0: seq<Mark>, deltaLine: nat, deltaChar: nat, length: nat, tokenType: nat)
    returns (last: Position, marks: seq<Mark>)
    requires |s.masks| == |s.shown| >= 1
    ensures last == Shift(last0, deltaLine, deltaChar)
    ensures marks == marks0 + MarkOf(s, last, length, tokenType)
  {
    var style := StyleIndex(s, tokenType);
    last := last0.(line := last0.line + deltaLine);
    if deltaLine == 0 {
      last := last.(character := last.character + deltaChar);
    } else {
      last := last.(character := deltaChar);
    }
    marks := marks0;
    if style >= 0 {
      var end := last.(character := last.character + length);
      marks := marks + [Mark(last, end, style)];
    }
  }

  lemma {:induction false} DecodeGroup(s: Styles, tokens: seq<nat>, base: nat, last: Position, marks: seq<Mark>)
    requires |s.masks| == |s.shown| >= 1 && base + 5 <= |tokens|
    ensures
      var p := Shift(last, tokens[base], tokens[base + 1]);
      marks + MarksOf(s, Decode(tokens[base..], last)) ==
        marks + MarkOf(s, p, tokens[base + 2], tokens[base + 3]) + MarksOf(s, Decode(tokens[base + 5..], p))
  {
    var p := Shift(last, tokens[base], tokens[base + 1]);
    var t := Token(p, tokens[base + 2], tokens[base + 3], tokens[base + 4]);
    assert tokens[base..][5..] == tokens[base + 5..];
    var rest := Decode(tokens[base + 5..], p);
    assert Decode(tokens[base..], last) == [t] + rest;
    assert ([t] + rest)[1..] == rest;
  }
}
