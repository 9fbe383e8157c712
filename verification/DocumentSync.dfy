/** Keeping the server's copies of the open documents equal to the editor's buffers: the
    didOpen, didChange and didClose messages of lsp-sync.c and the editor notifications of
    lsp-main.c that trigger them. The server's side is LSP 3.17, sections
    "DidOpenTextDocument Notification" and "DidChangeTextDocument Notification". */
module DocumentSync {
  import opened Wrappers
  import opened Text

  type Doc = nat

  const MRU_SIZE := 50

  const GUINT_RANGE := 0x1_0000_0000

  datatype Change =
    | Full(text: Text)
    | Ranged(start: Position, end: Position, rangeLength: nat, newText: Text)

  /** What one server receives; NewServer marks the point where a fresh one took over. */
  datatype Message =
    | DidOpen(doc: Doc, version: int, text: Text)
    | DidChange(doc: Doc, version: int, change: Change)
    | DidClose(doc: Doc)
    | NewServer

  // ----- the server's side -----

  /** The server's copies after a message, or nothing if the message breaks the protocol:
      opening an open document, changing or closing one that is not open, a range that does
      not lie in the copy, or a range length that is not the number of code units replaced. */
  ghost function Deliver(copies: map<Doc, Text>, m: Message): Option<map<Doc, Text>> {
    match m
    case NewServer => Some(map[])
    case DidOpen(d, _, t) => if d in copies then None else Some(copies[d := t])
    case DidClose(d) => if d in copies then Some(copies - {d}) else None
    case DidChange(d, _, c) =>
      if d !in copies then None
      else
        match ChangedCopy(copies[d], c)
        case None => None
        case Some(t) => Some(copies[d := t])
  }

  ghost function ChangedCopy(copy: Text, c: Change): Option<Text> {
    match c
    case Full(t) => Some(t)
    case Ranged(start, end, length, t) =>
      if !ValidPosition(copy, start) || !ValidPosition(copy, end) then None
      else
        var i, j := IndexOf(copy, start), IndexOf(copy, end);
        if i <= j && length == Units(copy[i..j]) then Some(copy[..i] + t + copy[j..]) else None
  }

  ghost function Replay(sent: seq<Message>): Option<map<Doc, Text>> {
    if sent == [] then Some(map[])
    else
      match Replay(sent[..|sent| - 1])
      case None => None
      case Some(copies) => Deliver(copies, sent[|sent| - 1])
  }

  lemma ReplayNext(sent: seq<Message>, m: Message)
    requires Replay(sent).Some?
    ensures Replay(sent + [m]) == Deliver(Replay(sent).value, m)
  {
    assert (sent + [m])[..|sent|] == sent;
  }

  // ----- the client's side -----

  /** The server's open set and list of open documents, the version counter kept with each
      document, the sync mode, and everything sent so far. */
  datatype State = State(
    running: bool,
    incremental: bool,
    openDocs: set<Doc>,
    mruDocs: seq<Doc>,
    versions: map<Doc, nat>,
    sent: seq<Message>)

  datatype Notification =
    | BeforeInsert(pos: nat)
    | InsertText(pos: nat, text: Text)
    | BeforeDelete(pos: nat, length: nat)
    | DeleteText(pos: nat)

  function VersionOf(s: State, d: Doc): nat {
    if d in s.versions then s.versions[d] else 0
  }

  /** get_next_doc_version_num: a 32-bit counter. */
  function NextVersion(s: State, d: Doc): nat {
    (VersionOf(s, d) + 1) % GUINT_RANGE
  }

  /** The number a message carries: the counter's bits read as a signed number. */
  function AsSigned(num: nat): int {
    if num < GUINT_RANGE / 2 then num else num - GUINT_RANGE
  }

  function NextSent(s: State, d: Doc): int {
    AsSigned(NextVersion(s, d))
  }

  function WithNextVersion(s: State, d: Doc, m: Message): State {
    s.(versions := s.versions[d := NextVersion(s, d)], sent := s.sent + [m])
  }

  /** g_slist_remove: the first occurrence goes. */
  function RemoveFirst(docs: seq<Doc>, d: Doc): seq<Doc> {
    if docs == [] then [] else if docs[0] == d then docs[1..] else [docs[0]] + RemoveFirst(docs[1..], d)
  }

  function CloseStep(s: State, d: Doc): State {
    var s1 := s.(mruDocs := RemoveFirst(s.mruDocs, d));
    if d !in s.openDocs then s1
    else s1.(openDocs := s.openDocs - {d}, sent := s.sent + [DidClose(d)])
  }

  function OpenStep(s: State, d: Doc, text: Text): State {
    if d in s.openDocs then s
    else
      var s1 := if |s.mruDocs| >= MRU_SIZE then CloseStep(s, s.mruDocs[0]) else s;
      var s2 := s1.(openDocs := s1.openDocs + {d}, mruDocs := s1.mruDocs + [d]);
      WithNextVersion(s2, d, DidOpen(d, NextSent(s2, d), text))
  }

  /** A range with its length in code units, counted in the buffer as it is now. */
  function RangedChange(buffer: Text, start: Position, end: Position, text: Text): Change {
    var length := CountCodeUnits(buffer, LspPosToScintilla(buffer, start), LspPosToScintilla(buffer, end));
    Ranged(start, end, length, text)
  }

  function ChangeStep(s: State, d: Doc, start: Position, end: Position, text: Text, buffer: Text): State {
    var change := if s.incremental then RangedChange(buffer, start, end, text) else Full(text);
    WithNextVersion(s, d, DidChange(d, NextSent(s, d), change))
  }

  /** on_editor_notify for one modification notice, with the buffer as it is at that moment. */
  function NotifyStep(s: State, d: Doc, n: Notification, buffer: Text): State {
    if !s.running then s
    else
      var s1 := if d !in s.openDocs && (n.BeforeInsert? || n.BeforeDelete?) then OpenStep(s, d, buffer) else s;
      SendStep(s1, d, n, buffer)
  }

  /** Insertions are sent after they happened; deletions before in incremental mode, after in full mode. */
  function SendStep(s: State, d: Doc, n: Notification, buffer: Text): State {
    match n
    case InsertText(pos, text) =>
      var start := ScintillaPosToLsp(buffer, pos);
      ChangeStep(s, d, start, start, if s.incremental then text else buffer, buffer)
    case BeforeDelete(pos, length) =>
      if s.incremental then
        ChangeStep(s, d, ScintillaPosToLsp(buffer, pos), ScintillaPosToLsp(buffer, pos + length), [], buffer)
      else s
    case DeleteText(_) =>
      if s.incremental then s
      else ChangeStep(s, d, ScintillaPosToLsp(buffer, 0), ScintillaPosToLsp(buffer, 0), buffer, buffer)
    case BeforeInsert(_) => s
  }

  /** One server object: the fields lsp-sync.c keeps, and what it has sent. */
  class LspServer {
    var running: bool
    var incremental: bool
    var openDocs: set<Doc>
    var mruDocs: seq<Doc>
    var versions: map<Doc, nat>
    var sent: seq<Message>

    function Snapshot(): State
      reads this
    {
      State(running, incremental, openDocs, mruDocs, versions, sent)
    }

    constructor ()
      ensures Snapshot() == State(false, false, {}, [], map[], [])
    {
      running, incremental, openDocs, mruDocs, versions, sent := false, false, {}, [], map[], [];
    }

    method GetNextDocVersionNum(d: Doc) returns (num: nat)
      modifies this`versions
      ensures num == NextVersion(old(Snapshot()), d)
      ensures versions == old(versions)[d := num]
    {
      num := if d in versions then versions[d] else 0;
      num := (num + 1) % GUINT_RANGE;
      versions := versions[d := num];
    }

    method DidCloseDocument(d: Doc)
      modifies this
      ensures Snapshot() == CloseStep(old(Snapshot()), d)
      ensures d !in openDocs && (d !in old(openDocs) ==> sent == old(sent))
    {
      mruDocs := RemoveFirst(mruDocs, d);
      if d !in openDocs {
        return;
      }
      openDocs := openDocs - {d};
      sent := sent + [DidClose(d)];
    }

    method DidOpenDocument(d: Doc, text: Text)
      modifies this
      ensures Snapshot() == OpenStep(old(Snapshot()), d, text)
      ensures d in openDocs && openDocs - {d} <= old(openDocs)
      ensures d !in old(openDocs) && |old(mruDocs)| < 50 ==>
        && openDocs == old(openDocs) + {d} && mruDocs == old(mruDocs) + [d]
        && |sent| == |old(sent)| + 1 && sent[..|old(sent)|] == old(sent)
        && sent[|old(sent)|].DidOpen? && sent[|old(sent)|].doc == d && sent[|old(sent)|].text == text
      ensures d in old(openDocs) ==> Snapshot() == old(Snapshot())
    {
      if d in openDocs {
        return;
      }
      if |mruDocs| >= MRU_SIZE {
        DidCloseDocument(mruDocs[0]);
      }
      openDocs := openDocs + {d};
      mruDocs := mruDocs + [d];
      var version := GetNextDocVersionNum(d);
      sent := sent + [DidOpen(d, AsSigned(version), text)];
    }

    method DidChangeDocument(d: Doc, start: Position, end: Position, text: Text, buffer: Text)
      modifies this
      ensures Snapshot() == ChangeStep(old(Snapshot()), d, start, end, text, buffer)
      ensures openDocs == old(openDocs) && mruDocs == old(mruDocs)
      ensures |sent| == |old(sent)| + 1 && sent[..|old(sent)|] == old(sent)
      ensures sent[|old(sent)|].DidChange? && sent[|old(sent)|].doc == d && sent[|old(sent)|].change.Ranged? == incremental
    {
      var version := GetNextDocVersionNum(d);
      if incremental {
        var range := CountCodeUnits(buffer, LspPosToScintilla(buffer, start), LspPosToScintilla(buffer, end));
        sent := sent + [DidChange(d, AsSigned(version), Ranged(start, end, range, text))];
      } else {
        sent := sent + [DidChange(d, AsSigned(version), Full(text))];
      }
    }

    method OnEditorNotify(d: Doc, n: Notification, buffer: Text)
      modifies this
      ensures Snapshot() == NotifyStep(old(Snapshot()), d, n, buffer)
      ensures if running then (n.BeforeInsert? || n.BeforeDelete? ==> d in openDocs) else Snapshot() == old(Snapshot())
    {
      if !running {
        return;
      }
      if d !in openDocs && (n.BeforeInsert? || n.BeforeDelete?) {
        DidOpenDocument(d, buffer);
      }
      SendChange(d, n, buffer);
    }

    method SendChange(d: Doc, n: Notification, buffer: Text)
      modifies this
      ensures Snapshot() == SendStep(old(Snapshot()), d, n, buffer)
      ensures openDocs == old(openDocs) && |old(sent)| <= |sent| && sent[..|old(sent)|] == old(sent)
      ensures |sent| == |old(sent)| +
        (if n.InsertText? || (n.BeforeDelete? && incremental) || (n.DeleteText? && !incremental) then 1 else 0)
    {
      if n.InsertText? {
        var start := ScintillaPosToLsp(buffer, n.pos);
        DidChangeDocument(d, start, start, if incremental then n.text else buffer, buffer);
      } else if incremental && n.BeforeDelete? {
        var start := ScintillaPosToLsp(buffer, n.pos);
        var end := ScintillaPosToLsp(buffer, n.pos + n.length);
        DidChangeDocument(d, start, end, [], buffer);
      } else if !incremental && n.DeleteText? {
        var zero := ScintillaPosToLsp(buffer, 0);
        DidChangeDocument(d, zero, zero, buffer, buffer);
      }
    }
  }

  // ----- whole runs -----

  datatype Event =
    | Load(doc: Doc, text: Text)        // a document gets (new) contents outside the server's sight
    | Visible(doc: Doc)                 // the document is shown, or needed for a request
    | Closed(doc: Doc)
    | Insert(doc: Doc, at: nat, text: Text)
    | Delete(doc: Doc, from: nat, to: nat)
    | Restart                           // a fresh server object takes the place of the old one
    | Ready(incremental: bool)          // the handshake is over

  datatype World = World(client: State, buffers: map<Doc, Text>)

  function Inserted(t: Text, at: nat, text: Text): Text
    requires at <= |t|
  {
    t[..at] + text + t[at..]
  }

  function Deleted(t: Text, from: nat, to: nat): Text
    requires from <= to <= |t|
  {
    t[..from] + t[to..]
  }

  /** Insertions and deletions notify before and after the buffer changes. */
  function Step(w: World, e: Event): World {
    match e
    case Load(d, t) => if d in w.client.openDocs then w else w.(buffers := w.buffers[d := t])
    case Visible(d) =>
      if w.client.running && d in w.buffers then w.(client := OpenStep(w.client, d, w.buffers[d])) else w
    case Closed(d) => if w.client.running then w.(client := CloseStep(w.client, d)) else w
    case Insert(d, at, text) =>
      if d !in w.buffers || at > |w.buffers[d]| then w
      else
        var t := w.buffers[d];
        var u := Inserted(t, at, text);
        var s1 := NotifyStep(w.client, d, BeforeInsert(Offset(t, at)), t);
        World(NotifyStep(s1, d, InsertText(Offset(t, at), text), u), w.buffers[d := u])
    case Delete(d, from, to) =>
      if d !in w.buffers || from > to || to > |w.buffers[d]| then w
      else
        var t := w.buffers[d];
        var u := Deleted(t, from, to);
        var s1 := NotifyStep(w.client, d, BeforeDelete(Offset(t, from), Bytes(t[from..to])), t);
        World(NotifyStep(s1, d, DeleteText(Offset(t, from)), u), w.buffers[d := u])
    case Restart =>
      w.(client := w.client.(running := false, openDocs := {}, mruDocs := [], sent := w.client.sent + [NewServer]))
    case Ready(inc) =>
      if w.client.running then w else w.(client := w.client.(running := true, incremental := inc))
  }

  const START := World(State(false, false, {}, [], map[], []), map[])

  function Run(events: seq<Event>): World {
    if events == [] then START else Step(Run(events[..|events| - 1]), events[|events| - 1])
  }

  // ----- what holds after every event -----

  ghost predicate NoDuplicates(docs: seq<Doc>) {
    forall i, j :: 0 <= i < j < |docs| ==> docs[i] != docs[j]
  }

  /** The list of open documents is the open set, once each, and bounded. */
  ghost predicate ListsOpenSet(s: State) {
    && NoDuplicates(s.mruDocs)
    && (forall d :: d in s.mruDocs <==> d in s.openDocs)
    && |s.mruDocs| <= MRU_SIZE
    && (!s.running ==> s.openDocs == {})
  }

  /** One past the place of the last didOpen of a document, 0 if there is none. */
  function LastOpened(sent: seq<Message>, d: Doc): (k: nat)
    ensures k <= |sent|
  {
    if sent == [] then 0
    else
      var m := sent[|sent| - 1];
      if m.DidOpen? && m.doc == d then |sent| else LastOpened(sent[..|sent| - 1], d)
  }

  /** Every listed document was last opened before all that follow it. */
  ghost predicate OldestFirst(sent: seq<Message>, docs: seq<Doc>) {
    docs == [] ||
    ((forall x :: x in docs[1..] ==> LastOpened(sent, docs[0]) < LastOpened(sent, x)) && OldestFirst(sent, docs[1..]))
  }

  /** The versions sent for one document, in order, over the lives of all servers. */
  function VersionsSent(sent: seq<Message>, d: Doc): seq<int> {
    if sent == [] then []
    else
      var m := sent[|sent| - 1];
      VersionsSent(sent[..|sent| - 1], d) +
      (if (m.DidOpen? || m.DidChange?) && m.doc == d then [m.version] else [])
  }

  /** The k-th version of a document is k + 1, wrapped to 32 bits and sent as a signed number, and the
      counter counts them. */
  ghost predicate Numbered(s: State) {
    forall d :: NumberedDoc(s, d)
  }

  ghost predicate NumberedDoc(s: State, d: Doc) {
    var vs := VersionsSent(s.sent, d);
    && VersionOf(s, d) == |vs| % GUINT_RANGE
    && forall k :: 0 <= k < |vs| ==> vs[k] == AsSigned((k + 1) % GUINT_RANGE)
  }

  /** What the copies of the open documents should be. */
  function Copies(open: set<Doc>, buffers: map<Doc, Text>): map<Doc, Text> {
    map d | d in open && d in buffers :: buffers[d]
  }

  /** Every message so far was legal, and the server's copies are the buffers of the open documents. */
  ghost predicate InSync(s: State, buffers: map<Doc, Text>) {
    && s.openDocs <= buffers.Keys
    && Replay(s.sent) == Some(Copies(s.openDocs, buffers))
  }

  ghost predicate Inv(w: World) {
    && ListsOpenSet(w.client) && OldestFirst(w.client.sent, w.client.mruDocs) && Numbered(w.client)
    && InSync(w.client, w.buffers)
  }

  // ----- one message more -----

  lemma LastOpenedNext(sent: seq<Message>, m: Message, d: Doc)
    ensures LastOpened(sent + [m], d) == if m.DidOpen? && m.doc == d then |sent| + 1 else LastOpened(sent, d)
  {
    assert (sent + [m])[..|sent|] == sent;
  }

  lemma VersionsSentNext(sent: seq<Message>, m: Message, d: Doc)
    ensures VersionsSent(sent + [m], d) ==
      VersionsSent(sent, d) + (if (m.DidOpen? || m.DidChange?) && m.doc == d then [m.version] else [])
  {
    assert (sent + [m])[..|sent|] == sent;
  }

  /** A message without a version leaves the numbering alone. */
  lemma UnversionedKeepsNumbers(s: State, s': State, m: Message)
    requires Numbered(s) && !m.DidOpen? && !m.DidChange?
    requires s'.sent == s.sent + [m] && s'.versions == s.versions
    ensures Numbered(s')
  {
    forall d ensures NumberedDoc(s', d) {
      VersionsSentNext(s.sent, m, d);
      assert NumberedDoc(s, d);
      assert VersionsSent(s'.sent, d) == VersionsSent(s.sent, d) + [] == VersionsSent(s.sent, d);
    }
  }

  lemma OneMoreNumbered(vs: seq<int>, counter: nat)
    requires counter == |vs| % GUINT_RANGE && forall k :: 0 <= k < |vs| ==> vs[k] == AsSigned((k + 1) % GUINT_RANGE)
    ensures
      var more, next := vs + [AsSigned((counter + 1) % GUINT_RANGE)], (counter + 1) % GUINT_RANGE;
      next == |more| % GUINT_RANGE && forall k :: 0 <= k < |more| ==> more[k] == AsSigned((k + 1) % GUINT_RANGE)
  {
    Successor(|vs|);
  }

  /** The next version is one more than the number of versions sent for the document. */
  lemma VersionedKeepsNumbers(s: State, d: Doc, m: Message)
    requires Numbered(s)
    requires (m.DidOpen? || m.DidChange?) && m.doc == d && m.version == NextSent(s, d)
    ensures Numbered(WithNextVersion(s, d, m))
  {
    var s' := WithNextVersion(s, d, m);
    forall x ensures NumberedDoc(s', x) {
      VersionsSentNext(s.sent, m, x);
      assert NumberedDoc(s, x);
      var vs := VersionsSent(s.sent, x);
      if x == d {
        OneMoreNumbered(vs, VersionOf(s, d));
      } else {
        assert vs + [] == vs;
      }
    }
  }

  lemma Successor(n: nat)
    ensures (n % GUINT_RANGE + 1) % GUINT_RANGE == (n + 1) % GUINT_RANGE
  {
  }

  lemma {:induction false} RemoveFirstMembers(docs: seq<Doc>, d: Doc)
    requires NoDuplicates(docs)
    ensures NoDuplicates(RemoveFirst(docs, d))
    ensures forall x :: x in RemoveFirst(docs, d) <==> x in docs && x != d
    ensures |RemoveFirst(docs, d)| == if d in docs then |docs| - 1 else |docs|
  {
    if docs != [] {
      var rest := RemoveFirst(docs[1..], d);
      assert NoDuplicates(docs[1..]) && docs[0] !in docs[1..];
      RemoveFirstMembers(docs[1..], d);
      forall j | 0 <= j < |rest| ensures rest[j] != docs[0] { assert rest[j] in docs[1..]; }
    }
  }

  lemma {:induction false} RemoveFirstOldestFirst(sent: seq<Message>, docs: seq<Doc>, d: Doc)
    requires OldestFirst(sent, docs)
    ensures OldestFirst(sent, RemoveFirst(docs, d))
    ensures forall x :: x in RemoveFirst(docs, d) ==> x in docs
  {
    if docs != [] {
      RemoveFirstOldestFirst(sent, docs[1..], d);
      var rest := RemoveFirst(docs[1..], d);
      assert ([docs[0]] + rest)[1..] == rest;
    }
  }

  lemma {:induction false} SameOpenings(sent: seq<Message>, sent': seq<Message>, docs: seq<Doc>)
    requires OldestFirst(sent, docs)
    requires forall x :: x in docs ==> LastOpened(sent', x) == LastOpened(sent, x)
    ensures OldestFirst(sent', docs)
  {
    if docs != [] { SameOpenings(sent, sent', docs[1..]); }
  }

  lemma {:induction false} AppendNewest(sent: seq<Message>, docs: seq<Doc>, d: Doc)
    requires OldestFirst(sent, docs)
    requires forall x :: x in docs ==> LastOpened(sent, x) < LastOpened(sent, d)
    ensures OldestFirst(sent, docs + [d])
  {
    if docs == [] {
      assert [d][1..] == [];
    } else {
      AppendNewest(sent, docs[1..], d);
      assert (docs + [d])[1..] == docs[1..] + [d];
    }
  }

  // ----- closing and opening -----

  lemma {:induction false} CloseKeepsList(s: State, d: Doc)
    requires ListsOpenSet(s) && OldestFirst(s.sent, s.mruDocs)
    ensures ListsOpenSet(CloseStep(s, d)) && OldestFirst(CloseStep(s, d).sent, CloseStep(s, d).mruDocs)
    ensures CloseStep(s, d).openDocs == s.openDocs - {d}
    ensures |CloseStep(s, d).mruDocs| == if d in s.openDocs then |s.mruDocs| - 1 else |s.mruDocs|
  {
    RemoveFirstMembers(s.mruDocs, d);
    RemoveFirstOldestFirst(s.sent, s.mruDocs, d);
    forall x ensures LastOpened(s.sent + [DidClose(d)], x) == LastOpened(s.sent, x) {
      LastOpenedNext(s.sent, DidClose(d), x);
    }
    SameOpenings(s.sent, s.sent + [DidClose(d)], RemoveFirst(s.mruDocs, d));
  }

  lemma {:induction false} CloseKeeps(s: State, buffers: map<Doc, Text>, d: Doc)
    requires Inv(World(s, buffers))
    ensures Inv(World(CloseStep(s, d), buffers))
  {
    var s' := CloseStep(s, d);
    CloseKeepsList(s, d);
    if d in s.openDocs {
      UnversionedKeepsNumbers(s, s', DidClose(d));
      ReplayNext(s.sent, DidClose(d));
      assert Copies(s.openDocs, buffers) - {d} == Copies(s'.openDocs, buffers);
    } else {
      assert forall x :: NumberedDoc(s, x) ==> NumberedDoc(s', x);
    }
  }

  /** Opening a document closes the one opened longest ago when the list is full. */
  lemma {:induction false} OpenKeeps(s: State, buffers: map<Doc, Text>, d: Doc)
    requires Inv(World(s, buffers)) && s.running && d in buffers
    ensures Inv(World(OpenStep(s, d, buffers[d]), buffers))
    ensures d in OpenStep(s, d, buffers[d]).openDocs && OpenStep(s, d, buffers[d]).running
    ensures OpenStep(s, d, buffers[d]).incremental == s.incremental
  {
    if d in s.openDocs { return; }
    var s1 := if |s.mruDocs| >= MRU_SIZE then CloseStep(s, s.mruDocs[0]) else s;
    if |s.mruDocs| >= MRU_SIZE {
      CloseKeeps(s, buffers, s.mruDocs[0]);
      CloseKeepsList(s, s.mruDocs[0]);
    }
    AddKeeps(s1, buffers, d);
  }

  function AddStep(s: State, d: Doc, text: Text): State {
    var s2 := s.(openDocs := s.openDocs + {d}, mruDocs := s.mruDocs + [d]);
    WithNextVersion(s2, d, DidOpen(d, NextSent(s2, d), text))
  }

  lemma {:induction false} AddKeepsList(s: State, d: Doc, text: Text)
    requires ListsOpenSet(s) && OldestFirst(s.sent, s.mruDocs)
    requires s.running && d !in s.openDocs && |s.mruDocs| < MRU_SIZE
    ensures ListsOpenSet(AddStep(s, d, text)) && OldestFirst(AddStep(s, d, text).sent, AddStep(s, d, text).mruDocs)
  {
    var s' := AddStep(s, d, text);
    forall x ensures LastOpened(s'.sent, x) == if x == d then |s.sent| + 1 else LastOpened(s.sent, x) {
      LastOpenedNext(s.sent, s'.sent[|s.sent|], x);
    }
    SameOpenings(s.sent, s'.sent, s.mruDocs);
    AppendNewest(s'.sent, s.mruDocs, d);
  }

  lemma {:induction false} AddKeepsNumbers(s: State, d: Doc, text: Text)
    requires Numbered(s)
    ensures Numbered(AddStep(s, d, text))
  {
    var s2 := s.(openDocs := s.openDocs + {d}, mruDocs := s.mruDocs + [d]);
    assert Numbered(s2) by { assert forall x :: NumberedDoc(s, x) ==> NumberedDoc(s2, x); }
    VersionedKeepsNumbers(s2, d, DidOpen(d, NextSent(s2, d), text));
  }

  lemma {:induction false} AddKeeps(s: State, buffers: map<Doc, Text>, d: Doc)
    requires Inv(World(s, buffers)) && s.running && d in buffers && d !in s.openDocs && |s.mruDocs| < MRU_SIZE
    ensures Inv(World(AddStep(s, d, buffers[d]), buffers))
  {
    var s' := AddStep(s, d, buffers[d]);
    AddKeepsList(s, d, buffers[d]);
    AddKeepsNumbers(s, d, buffers[d]);
    ReplayNext(s.sent, DidOpen(d, NextSent(s, d), buffers[d]));
    assert Copies(s.openDocs, buffers)[d := buffers[d]] == Copies(s'.openDocs, buffers);
  }

  // ----- changing -----

  /** A change the server can apply, and that turns its copy into the new buffer, keeps everything. */
  lemma {:induction false} ChangeKeeps(s: State, buffers: map<Doc, Text>, d: Doc, c: Change, u: Text)
    requires Inv(World(s, buffers)) && d in s.openDocs
    requires ChangedCopy(buffers[d], c) == Some(u)
    ensures Inv(World(WithNextVersion(s, d, DidChange(d, NextSent(s, d), c)), buffers[d := u]))
  {
    var m := DidChange(d, NextSent(s, d), c);
    var s' := WithNextVersion(s, d, m);
    VersionedKeepsNumbers(s, d, m);
    forall x ensures LastOpened(s'.sent, x) == LastOpened(s.sent, x) { LastOpenedNext(s.sent, m, x); }
    SameOpenings(s.sent, s'.sent, s.mruDocs);
    ReplayNext(s.sent, m);
    assert Copies(s.openDocs, buffers)[d := u] == Copies(s'.openDocs, buffers[d := u]);
  }

  /** The position of an insertion, computed after it, still points at the same place of the
      server's copy, which has not changed yet. */
  lemma {:induction false} InsertionRange(t: Text, at: nat, text: Text)
    requires at <= |t|
    ensures
      var u := Inserted(t, at, text);
      var start := ScintillaPosToLsp(u, Offset(t, at));
      ChangedCopy(t, RangedChange(u, start, start, text)) == Some(u)
  {
    var u := Inserted(t, at, text);
    assert u[..at] == t[..at];
    assert Offset(u, at) == Offset(t, at);
    ConversionsMeetStandard(u, at);
    var start := ScintillaPosToLsp(u, Offset(t, at));
    PointsAtInPrefix(u, t, start, at);
    PositionsOrdered(t, start, at, start, IndexOf(t, start));
    BoundaryIndex(u, at);
    assert u[at..at] == [] && t[at..at] == [];
  }

  /** The byte range that the notices of a deletion give. */
  ghost predicate Deletes(t: Text, u: Text, from: nat, to: nat, pos: nat, length: nat) {
    && from <= to <= |t| && u == Deleted(t, from, to)
    && pos == Offset(t, from) && length == Bytes(t[from..to])
  }

  /** A deletion is announced before it happens, in positions of the buffer as it still is. */
  lemma DeletionRange(t: Text, u: Text, from: nat, to: nat, pos: nat, length: nat)
    requires Deletes(t, u, from, to, pos, length)
    ensures ChangedCopy(t, RangedChange(t, ScintillaPosToLsp(t, pos), ScintillaPosToLsp(t, pos + length), [])) == Some(u)
  {
    OffsetAfter(t, from, to);
    DeletionRangeAt(t, from, to, ScintillaPosToLsp(t, pos), ScintillaPosToLsp(t, pos + length));
  }

  lemma OffsetAfter(t: Text, from: nat, to: nat)
    requires from <= to <= |t|
    ensures Offset(t, to) == Offset(t, from) + Bytes(t[from..to])
  {
    assert t[..to] == t[..from] + t[from..to];
    Additive(t[..from], t[from..to]);
  }

  lemma CodeUnitsBetween(t: Text, start: Position, end: Position, from: nat, to: nat)
    requires from <= to <= |t|
    requires LspPosToScintilla(t, start) == Offset(t, from) && LspPosToScintilla(t, end) == Offset(t, to)
    ensures RangedChange(t, start, end, []).rangeLength == Units(t[from..to])
  {
    BoundaryIndex(t, from);
    BoundaryIndex(t, to);
  }

  lemma DeletionRangeAt(t: Text, from: nat, to: nat, start: Position, end: Position)
    requires from <= to <= |t|
    requires start == ScintillaPosToLsp(t, Offset(t, from)) && end == ScintillaPosToLsp(t, Offset(t, to))
    ensures ChangedCopy(t, RangedChange(t, start, end, [])) == Some(Deleted(t, from, to))
  {
    ConversionsMeetStandard(t, from);
    ConversionsMeetStandard(t, to);
    CodeUnitsBetween(t, start, end, from, to);
    PositionsOrdered(t, start, from, start, IndexOf(t, start));
    PositionsOrdered(t, end, to, end, IndexOf(t, end));
    assert t[..from] + [] + t[to..] == t[..from] + t[to..];
  }

  /** The notice after an insertion sends it, or the whole text. */
  lemma InsertionSent(s: State, buffers: map<Doc, Text>, d: Doc, at: nat, text: Text, u: Text)
    requires Inv(World(s, buffers)) && d in s.openDocs && at <= |buffers[d]| && u == Inserted(buffers[d], at, text)
    ensures Inv(World(SendStep(s, d, InsertText(Offset(buffers[d], at), text), u), buffers[d := u]))
  {
    var t := buffers[d];
    if s.incremental {
      InsertionRange(t, at, text);
      var start := ScintillaPosToLsp(u, Offset(t, at));
      ChangeKeeps(s, buffers, d, RangedChange(u, start, start, text), u);
    } else {
      ChangeKeeps(s, buffers, d, Full(u), u);
    }
  }

  lemma InsertKeeps(w: World, d: Doc, at: nat, text: Text)
    requires Inv(w) && d in w.buffers && at <= |w.buffers[d]|
    ensures Inv(Step(w, Insert(d, at, text)))
    ensures w.client.running ==> d in Step(w, Insert(d, at, text)).client.openDocs
  {
    var t := w.buffers[d];
    var u := Inserted(t, at, text);
    if w.client.running {
      OpenKeeps(w.client, w.buffers, d);
      var s1 := NotifyStep(w.client, d, BeforeInsert(Offset(t, at)), t);
      assert s1 == OpenStep(w.client, d, t);
      InsertionSent(s1, w.buffers, d, at, text, u);
    } else {
      UnopenedBuffer(w, d, u);
    }
  }

  /** The two notices of a deletion, when the document is open. */
  function DeletionSteps(s: State, d: Doc, t: Text, u: Text, pos: nat, length: nat): State {
    SendStep(SendStep(s, d, BeforeDelete(pos, length), t), d, DeleteText(pos), u)
  }

  /** In incremental mode the first notice sends the range, and the second nothing. */
  lemma IncrementalDeletionSteps(s: State, d: Doc, t: Text, u: Text, pos: nat, length: nat)
    requires s.incremental
    ensures
      var change := RangedChange(t, ScintillaPosToLsp(t, pos), ScintillaPosToLsp(t, pos + length), []);
      DeletionSteps(s, d, t, u, pos, length) == WithNextVersion(s, d, DidChange(d, NextSent(s, d), change))
  {
  }

  lemma RangeSent(s: State, buffers: map<Doc, Text>, d: Doc, u: Text, pos: nat, length: nat, change: Change)
    requires Inv(World(s, buffers)) && d in s.openDocs && s.incremental
    requires change == RangedChange(buffers[d], ScintillaPosToLsp(buffers[d], pos), ScintillaPosToLsp(buffers[d], pos + length), [])
    requires ChangedCopy(buffers[d], change) == Some(u)
    ensures Inv(World(DeletionSteps(s, d, buffers[d], u, pos, length), buffers[d := u]))
  {
    ChangeKeeps(s, buffers, d, change, u);
    IncrementalDeletionSteps(s, d, buffers[d], u, pos, length);
  }

  lemma DeletionSentIncrementally(s: State, buffers: map<Doc, Text>, d: Doc, u: Text, from: nat, to: nat, pos: nat, length: nat)
    requires Inv(World(s, buffers)) && d in s.openDocs && s.incremental && Deletes(buffers[d], u, from, to, pos, length)
    ensures Inv(World(DeletionSteps(s, d, buffers[d], u, pos, length), buffers[d := u]))
  {
    var t := buffers[d];
    DeletionRange(t, u, from, to, pos, length);
    RangeSent(s, buffers, d, u, pos, length, RangedChange(t, ScintillaPosToLsp(t, pos), ScintillaPosToLsp(t, pos + length), []));
  }

  lemma {:induction false} DeletionSentInFull(s: State, buffers: map<Doc, Text>, d: Doc, t: Text, u: Text, pos: nat, length: nat)
    requires Inv(World(s, buffers)) && d in s.openDocs && !s.incremental
    ensures Inv(World(DeletionSteps(s, d, t, u, pos, length), buffers[d := u]))
  {
    ChangeKeeps(s, buffers, d, Full(u), u);
  }

  lemma NotifiedWhenOpen(s: State, d: Doc, n: Notification, buffer: Text)
    requires s.running && d in s.openDocs
    ensures NotifyStep(s, d, n, buffer) == SendStep(s, d, n, buffer)
    ensures SendStep(s, d, n, buffer).running && d in SendStep(s, d, n, buffer).openDocs
  {
  }

  lemma {:induction false} DeleteKeeps(w: World, d: Doc, from: nat, to: nat)
    requires Inv(w) && d in w.buffers && from <= to <= |w.buffers[d]|
    ensures Inv(Step(w, Delete(d, from, to)))
    ensures w.client.running ==> d in Step(w, Delete(d, from, to)).client.openDocs
  {
    var t := w.buffers[d];
    var u := Deleted(t, from, to);
    if w.client.running {
      OpenKeeps(w.client, w.buffers, d);
      var s := OpenStep(w.client, d, t);
      var pos, length := Offset(t, from), Bytes(t[from..to]);
      NotifiedWhenOpen(s, d, BeforeDelete(pos, length), t);
      NotifiedWhenOpen(SendStep(s, d, BeforeDelete(pos, length), t), d, DeleteText(pos), u);
      if s.incremental {
        DeletionSentIncrementally(s, w.buffers, d, u, from, to, pos, length);
      } else {
        DeletionSentInFull(s, w.buffers, d, t, u, pos, length);
      }
    } else {
      UnopenedBuffer(w, d, u);
    }
  }

  /** Without a running server nothing is open, so buffers may change freely. */
  lemma UnopenedBuffer(w: World, d: Doc, u: Text)
    requires Inv(w) && d !in w.client.openDocs
    ensures Inv(w.(buffers := w.buffers[d := u]))
  {
    var b := w.buffers[d := u];
    assert Copies(w.client.openDocs, w.buffers) == Copies(w.client.openDocs, b);
  }

  lemma {:induction false} StepKeeps(w: World, e: Event)
    requires Inv(w)
    ensures Inv(Step(w, e))
  {
    match e
    case Load(d, t) => if d !in w.client.openDocs { UnopenedBuffer(w, d, t); }
    case Visible(d) => if w.client.running && d in w.buffers { OpenKeeps(w.client, w.buffers, d); }
    case Closed(d) => CloseKeeps(w.client, w.buffers, d);
    case Insert(d, at, text) => if d in w.buffers && at <= |w.buffers[d]| { InsertKeeps(w, d, at, text); }
    case Delete(d, from, to) => if d in w.buffers && from <= to <= |w.buffers[d]| { DeleteKeeps(w, d, from, to); }
    case Restart => RestartKeeps(w);
    case Ready(incremental) => ReadyKeeps(w, incremental);
  }

  lemma RestartKeeps(w: World)
    requires Inv(w)
    ensures Inv(Step(w, Restart))
  {
    UnversionedKeepsNumbers(w.client, Step(w, Restart).client, NewServer);
    RestartForgets(w);
  }

  /** A new server has no copies, and none are expected of it. */
  lemma RestartForgets(w: World)
    requires Replay(w.client.sent).Some?
    ensures InSync(Step(w, Restart).client, w.buffers)
  {
    ReplayNext(w.client.sent, NewServer);
    assert Copies({}, w.buffers) == map[];
  }

  lemma ReadyKeeps(w: World, incremental: bool)
    requires Inv(w)
    ensures Inv(Step(w, Ready(incremental)))
  {
    assert forall x :: NumberedDoc(w.client, x) ==> NumberedDoc(Step(w, Ready(incremental)).client, x);
  }

  /** Over every run of editing, opening, closing and restarting, in either sync mode: no
      message breaks the protocol, the server's copy of every open document is the editor's
      buffer, the list of open documents is the open set without repetition and never longer
      than its bound, oldest first, and the versions of each document count up by one. */
  lemma {:induction false} EveryRun(events: seq<Event>)
    ensures Inv(Run(events))
  {
    if events == [] {
      assert forall d :: NumberedDoc(START.client, d);
      assert Copies({}, map[]) == map[];
    } else {
      EveryRun(events[..|events| - 1]);
      StepKeeps(Run(events[..|events| - 1]), events[|events| - 1]);
    }
  }

  /** An edit while a server runs leaves the document open there, with the new text. */
  lemma {:induction false} EditReachesServer(events: seq<Event>, d: Doc, at: nat, text: Text)
    requires var w := Run(events); w.client.running && d in w.buffers && at <= |w.buffers[d]|
    ensures
      var w := Run(events);
      var copies := Replay(Run(events + [Insert(d, at, text)]).client.sent);
      copies.Some? && d in copies.value && copies.value[d] == Inserted(w.buffers[d], at, text)
  {
    var e := Insert(d, at, text);
    assert (events + [e])[..|events|] == events;
    EveryRun(events);
    InsertKeeps(Run(events), d, at, text);
    EveryRun(events + [e]);
  }

  /** So does a deletion. */
  lemma {:induction false} DeletionReachesServer(events: seq<Event>, d: Doc, from: nat, to: nat)
    requires var w := Run(events); w.client.running && d in w.buffers && from <= to <= |w.buffers[d]|
    ensures
      var w := Run(events);
      var copies := Replay(Run(events + [Delete(d, from, to)]).client.sent);
      copies.Some? && d in copies.value && copies.value[d] == Deleted(w.buffers[d], from, to)
  {
    var e := Delete(d, from, to);
    assert (events + [e])[..|events|] == events;
    EveryRun(events);
    DeleteKeeps(Run(events), d, from, to);
    EveryRun(events + [e]);
  }

  // ----- what opens and what closes -----

  /** A document that is shown while a server runs is open there afterwards. */
  lemma VisibleIsOpen(events: seq<Event>, d: Doc)
    requires Run(events).client.running && d in Run(events).buffers
    ensures d in Run(events + [Visible(d)]).client.openDocs
  {
    assert (events + [Visible(d)])[..|events|] == events;
  }

  /** The document an event opens if it is not open yet. */
  function Wanted(w: World, e: Event): Option<Doc> {
    match e
    case Visible(d) => if d in w.buffers then Some(d) else None
    case Insert(d, at, _) => if d in w.buffers && at <= |w.buffers[d]| then Some(d) else None
    case Delete(d, from, to) => if d in w.buffers && from <= to <= |w.buffers[d]| then Some(d) else None
    case _ => None
  }

  /** An open document stops being open only by being closed, by a restart, or as the first of
      50 on the list when another one is opened. */
  ghost predicate MayClose(w: World, e: Event, d: Doc) {
    || e == Closed(d) || e == Restart
    || (w.client.running && Wanted(w, e).Some? && Wanted(w, e).value !in w.client.openDocs
        && |w.client.mruDocs| == 50 && w.client.mruDocs[0] == d)
  }

  lemma OpeningKeepsOthers(s: State, d: Doc, text: Text, other: Doc)
    requires ListsOpenSet(s) && other in s.openDocs && (d in s.openDocs || |s.mruDocs| < 50 || s.mruDocs[0] != other)
    ensures other in OpenStep(s, d, text).openDocs
  {
  }

  lemma SendingKeepsOpen(s: State, d: Doc, n: Notification, buffer: Text)
    ensures SendStep(s, d, n, buffer).openDocs == s.openDocs && SendStep(s, d, n, buffer).mruDocs == s.mruDocs
    ensures SendStep(s, d, n, buffer).running == s.running
  {
  }

  lemma NotifyingKeepsOthers(s: State, d: Doc, n: Notification, buffer: Text, other: Doc)
    requires ListsOpenSet(s) && other in s.openDocs && (d in s.openDocs || |s.mruDocs| < 50 || s.mruDocs[0] != other)
    ensures other in NotifyStep(s, d, n, buffer).openDocs
  {
    if s.running {
      OpeningKeepsOthers(s, d, buffer, other);
      var s1 := if d !in s.openDocs && (n.BeforeInsert? || n.BeforeDelete?) then OpenStep(s, d, buffer) else s;
      SendingKeepsOpen(s1, d, n, buffer);
    }
  }

  /** The second notice of an edit opens nothing more. */
  lemma SecondNotice(s: State, d: Doc, first: Notification, second: Notification, t: Text, u: Text, other: Doc)
    requires ListsOpenSet(s) && other in s.openDocs && (!s.running || d in s.openDocs || |s.mruDocs| < 50 || s.mruDocs[0] != other)
    requires (first.BeforeInsert? && second.InsertText?) || (first.BeforeDelete? && second.DeleteText?)
    ensures other in NotifyStep(NotifyStep(s, d, first, t), d, second, u).openDocs
  {
    if s.running {
      NotifyingKeepsOthers(s, d, first, t, other);
      var s1 := NotifyStep(s, d, first, t);
      if s1.running { SendingKeepsOpen(s1, d, second, u); }
    }
  }

  lemma StepClosesOnly(w: World, e: Event, d: Doc)
    requires Inv(w) && d in w.client.openDocs
    ensures d in Step(w, e).client.openDocs || MayClose(w, e, d)
  {
    if !MayClose(w, e, d) {
      match e
      case Visible(x) => if Wanted(w, e).Some? && w.client.running { OpeningKeepsOthers(w.client, x, w.buffers[x], d); }
      case Insert(x, at, text) =>
        if Wanted(w, e).Some? {
          var t := w.buffers[x];
          var u := Inserted(t, at, text);
          SecondNotice(w.client, x, BeforeInsert(Offset(t, at)), InsertText(Offset(t, at), text), t, u, d);
        }
      case Delete(x, from, to) =>
        if Wanted(w, e).Some? {
          var t := w.buffers[x];
          var u := Deleted(t, from, to);
          SecondNotice(w.client, x, BeforeDelete(Offset(t, from), Bytes(t[from..to])), DeleteText(Offset(t, from)), t, u, d);
        }
      case _ =>
    }
  }

  lemma OpenUntilClosed(events: seq<Event>, e: Event, d: Doc)
    requires d in Run(events).client.openDocs
    ensures d in Run(events + [e]).client.openDocs || MayClose(Run(events), e, d)
  {
    assert (events + [e])[..|events|] == events;
    EveryRun(events);
    StepClosesOnly(Run(events), e, d);
  }

  /** When the list is full the document closed to make room is the one whose last opening
      lies furthest back. */
  lemma {:induction false} EvictsOldest(events: seq<Event>, d: Doc, text: Text)
    requires var s := Run(events).client; |s.mruDocs| >= MRU_SIZE && d !in s.openDocs
    ensures var s := Run(events).client; exists v :: Evicts(s, OpenStep(s, d, text), v, d, text)
  {
    EveryRun(events);
    OpeningEvicts(Run(events).client, d, text);
  }

  lemma {:induction false} OpeningEvicts(s: State, d: Doc, text: Text)
    requires ListsOpenSet(s) && OldestFirst(s.sent, s.mruDocs) && |s.mruDocs| >= MRU_SIZE && d !in s.openDocs
    ensures Evicts(s, OpenStep(s, d, text), s.mruDocs[0], d, text)
  {
    var v := s.mruDocs[0];
    var s1 := CloseStep(s, v);
    assert v in s.openDocs;
    assert [DidClose(v)] + [DidOpen(d, NextSent(s, d), text)] == [DidClose(v), DidOpen(d, NextSent(s, d), text)];
    forall x | x in s.openDocs && x != v ensures LastOpened(s.sent, v) < LastOpened(s.sent, x) {
      assert x in s.mruDocs;
    }
  }

  /** Opening `d` closed `v`, the open document opened longest ago, and nothing else. */
  ghost predicate Evicts(s: State, s': State, v: Doc, d: Doc, text: Text) {
    && v in s.openDocs && s'.openDocs == s.openDocs - {v} + {d}
    && s'.sent == s.sent + [DidClose(v), DidOpen(d, NextSent(s, d), text)]
    && forall x :: x in s.openDocs && x != v ==> LastOpened(s.sent, v) < LastOpened(s.sent, x)
  }

  lemma SentVersion(events: seq<Event>, d: Doc, k: nat)
    requires k < |VersionsSent(Run(events).client.sent, d)|
    ensures VersionsSent(Run(events).client.sent, d)[k] == AsSigned((k + 1) % GUINT_RANGE)
  {
    EveryRun(events);
    assert NumberedDoc(Run(events).client, d);
  }

  lemma SignedStep(n: nat)
    ensures AsSigned(n % GUINT_RANGE) >= AsSigned((n + 1) % GUINT_RANGE) <==> (n + 1) % GUINT_RANGE == GUINT_RANGE / 2
  {
    Successor(n);
    var m := n % GUINT_RANGE;
    assert (n + 1) % GUINT_RANGE == if m + 1 == GUINT_RANGE then 0 else m + 1;
  }

  lemma SmallIsItself(n: nat)
    requires n <= GUINT_RANGE / 2
    ensures AsSigned(n % GUINT_RANGE) == if n < GUINT_RANGE / 2 then n else n - GUINT_RANGE
  {
    assert n % GUINT_RANGE == n;
  }

  ghost predicate Counted(vs: seq<int>) {
    forall k :: 0 <= k < |vs| ==> vs[k] == AsSigned((k + 1) % GUINT_RANGE)
  }

  ghost predicate Increasing(vs: seq<int>) {
    forall i, j :: 0 <= i < j < |vs| ==> vs[i] < vs[j]
  }

  lemma ShortIncreases(vs: seq<int>)
    requires Counted(vs) && |vs| < GUINT_RANGE / 2
    ensures Increasing(vs)
  {
    forall k | 0 <= k < |vs| ensures vs[k] == k + 1 { SmallIsItself(k + 1); }
  }

  lemma LongFallsBack(vs: seq<int>, last: nat)
    requires Counted(vs) && last + 1 == GUINT_RANGE / 2 && last < |vs|
    ensures !Increasing(vs)
  {
    SmallIsItself(1);
    SmallIsItself(last + 1);
    assert vs[last] < 0 < vs[0];
  }

  /** The versions sent for a document strictly increase exactly as long as there are fewer
      than 2^31 of them. */
  lemma VersionsIncreaseIff(events: seq<Event>, d: Doc)
    ensures Increasing(VersionsSent(Run(events).client.sent, d))
       <==> |VersionsSent(Run(events).client.sent, d)| < 0x8000_0000
  {
    EveryRun(events);
    assert NumberedDoc(Run(events).client, d);
    var vs := VersionsSent(Run(events).client.sent, d);
    if |vs| < GUINT_RANGE / 2 {
      ShortIncreases(vs);
    } else {
      LongFallsBack(vs, GUINT_RANGE / 2 - 1);
    }
  }

  /** One version to the next falls back only where the sign changes. */
  lemma VersionFallsBackIff(events: seq<Event>, d: Doc, k: nat)
    requires k + 1 < |VersionsSent(Run(events).client.sent, d)|
    ensures
      var vs := VersionsSent(Run(events).client.sent, d);
      vs[k] >= vs[k + 1] <==> (k + 2) % GUINT_RANGE == GUINT_RANGE / 2
  {
    SentVersion(events, d, k);
    SentVersion(events, d, k + 1);
    SignedStep(k + 1);
  }
}
