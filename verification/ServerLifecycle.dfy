/** The life of server processes (lsp-server.c) and the gate in front of response callbacks
    (lsp-rpc.c). Processes, signals and the transport are outside; what they do arrives as
    events. Servers shared between file types are not part of this model. */
module ServerLifecycle {
  import opened Wrappers

  type Id = nat
  type Client = nat

  const MAX_RESTARTS := 10
  const GIVEN_UP := 100

  /** `pid` is 0 while there is no process; `starting` is startup_shutdown. */
  datatype Server = Server(ft: nat, pid: nat, restarts: nat, starting: bool, notUsed: bool, client: Option<Client>)

  /** Every server not freed yet, the slot of each file type, the servers being shut down, the
      servers with a timer that will free them, the client table, the clients whose initialize
      request is open, those with ordinary requests open, and the processes spawned for each
      file type since the slots were made. */
  datatype State = State(
    servers: map<Id, Server>,
    next: Id,
    slots: Option<seq<Id>>,
    shutdown: set<Id>,
    delayed: set<Id>,
    clients: map<Client, Id>,
    nextClient: Client,
    initializing: set<Client>,
    ordinary: multiset<Client>,
    spawned: seq<nat>)

  predicate IsDead(sv: Server) {
    sv.restarts >= MAX_RESTARTS
  }

  // ----- what the functions of lsp-server.c do -----

  /** free_server, with lsp_rpc_destroy */
  function Free(s: State, id: Id): State
    requires id in s.servers
  {
    s.(servers := s.servers - {id},
       clients := if s.servers[id].client.Some? then s.clients - {s.servers[id].client.value} else s.clients)
  }

  /** start_lsp_server: `pid` is the new process, or 0 if it could not be spawned. */
  function Start(s: State, id: Id, pid: nat): State
    requires id in s.servers && s.servers[id].ft < |s.spawned|
  {
    var sv := s.servers[id];
    if pid == 0 then s.(servers := s.servers[id := sv.(restarts := GIVEN_UP)])
    else
      s.(servers := s.servers[id := sv.(pid := pid, starting := true, client := Some(s.nextClient))],
         clients := s.clients[s.nextClient := id],
         nextClient := s.nextClient + 1,
         initializing := s.initializing + {s.nextClient},
         spawned := s.spawned[sv.ft := s.spawned[sv.ft] + 1])
  }

  /** A crashed server's slot gets a new server with one more restart on its account. */
  function Replace(s: State, ft: nat, restarts: nat): State
    requires s.slots.Some? && ft < |s.slots.value|
  {
    s.(servers := s.servers[s.next := NewServer(ft, restarts)],
       next := s.next + 1,
       slots := Some(s.slots.value[ft := s.next]))
  }

  /** process_stopped; `pid` is what a restart would spawn. */
  function Stopped(s: State, id: Id, pid: nat): State
    requires id in s.servers
    requires s.slots.Some? ==> |s.spawned| == |s.slots.value| && (id !in s.shutdown ==> s.servers[id].ft < |s.spawned|)
  {
    var sv := s.servers[id];
    var s0 := s.(servers := s.servers[id := sv.(pid := 0)]);
    if id in s.shutdown then Free(s0.(shutdown := s.shutdown - {id}), id)
    else
      var s1 := s0.(delayed := s.delayed + {id});
      if s.slots.None? then s1
      else
        var s2 := Replace(s1, sv.ft, sv.restarts + 1);
        if sv.restarts + 1 >= MAX_RESTARTS then s2 else Start(s2, s.next, pid)
  }

  /** free_server_after_delay */
  function DelayOver(s: State, id: Id): State
    requires id in s.servers
  {
    Free(s.(delayed := s.delayed - {id}), id)
  }

  /** server_get_or_start_for_ft; `command` tells whether one is configured. */
  function GetOrStart(s: State, ft: nat, launch: bool, command: bool, pid: nat): (r: (State, Option<Id>))
    requires s.slots.Some? ==> |s.spawned| == |s.slots.value|
    requires s.slots.Some? && ft < |s.slots.value| ==> s.slots.value[ft] in s.servers && s.servers[s.slots.value[ft]].ft == ft
  {
    if s.slots.None? || ft >= |s.slots.value| then (s, None)
    else
      var id := s.slots.value[ft];
      var sv := s.servers[id];
      if sv.starting then (s, None)
      else if sv.pid != 0 then (s, Some(id))
      else if sv.notUsed || IsDead(sv) || !launch then (s, None)
      else if !command then (s.(servers := s.servers[id := sv.(notUsed := true)]), None)
      else (Start(s, id, pid), None)
  }

  predicate InSlot(s: State, id: Id) {
    && id in s.servers && s.slots.Some?
    && s.servers[id].ft < |s.slots.value| && s.slots.value[s.servers[id].ft] == id
  }

  /** stop_and_free_server for the slots before `k`: a running server goes on the shutdown list
      with the gate closed, another one is freed. */
  function StopFirst(s: State, k: nat): State {
    var stopped := set id | id in s.servers && InSlot(s, id) && s.servers[id].ft < k && s.servers[id].pid != 0;
    var gone := set id | id in s.servers && InSlot(s, id) && s.servers[id].ft < k && s.servers[id].pid == 0;
    s.(servers := (map id | id in s.servers && id !in gone ::
                     if id in stopped then s.servers[id].(starting := true) else s.servers[id]),
       shutdown := s.shutdown + stopped,
       clients := map c | c in s.clients && s.clients[c] !in gone :: s.clients[c])
  }

  /** lsp_server_stop_all: the table is gone before its servers are stopped. */
  function StopAll(s: State): State {
    if s.slots.None? then s else StopFirst(s, |s.slots.value|).(slots := None)
  }

  function NewServer(ft: nat, restarts: nat): Server {
    Server(ft, 0, restarts, false, false, None)
  }

  /** One new server for each of the first `n` file types. */
  function WithNewServers(servers: map<Id, Server>, next: Id, n: nat): (r: map<Id, Server>)
    ensures forall id {:trigger id in r} :: id in r <==> id in servers || next <= id < next + n
    ensures forall id {:trigger r[id]} :: next <= id < next + n ==> id in r && r[id] == NewServer(id - next, 0)
    ensures forall id {:trigger r[id]} :: id in servers && id < next ==> id in r && r[id] == servers[id]
  {
    if n == 0 then servers else WithNewServers(servers, next, n - 1)[next + n - 1 := NewServer(n - 1, 0)]
  }

  /** lsp_server_init_all, with one new server for each of `n` file types */
  function InitAll(s: State, n: nat): State {
    var s0 := StopAll(s);
    s0.(servers := WithNewServers(s0.servers, s0.next, n),
        next := s0.next + n,
        slots := Some(seq(n, i => s0.next + i)),
        spawned := seq(n, i => 0))
  }

  /** lsp_rpc_call for a server that server_get_or_start_for_ft has just returned. */
  function Call(s: State, id: Id): State
    requires id in s.servers && s.servers[id].client.Some?
  {
    s.(ordinary := s.ordinary + multiset{s.servers[id].client.value})
  }

  /** call_cb: an ordinary callback runs if the client is known and its server is neither
      starting up nor shutting down. */
  predicate CallbackRuns(s: State, c: Client)
    requires c in s.clients ==> s.clients[c] in s.servers
  {
    c in s.clients && !s.servers[s.clients[c]].starting
  }

  function Responded(s: State, c: Client): State {
    s.(ordinary := s.ordinary - multiset{c})
  }

  /** initialize_cb: success opens the gate. */
  function Initialized(s: State, c: Client, ok: bool): State
    requires c in s.clients ==> s.clients[c] in s.servers
  {
    var s0 := s.(initializing := s.initializing - {c});
    if ok && c in s.clients then
      var id := s.clients[c];
      s0.(servers := s.servers[id := s.servers[id].(starting := false)])
    else s0
  }

  // ----- the invariant -----

  /** The slot of a file type holds a server of that type, owned by nothing else. */
  ghost predicate Slotted(s: State) {
    s.slots.Some? ==>
      && |s.spawned| == |s.slots.value|
      && forall ft {:trigger s.slots.value[ft]} :: 0 <= ft < |s.slots.value| ==> SlotHolds(s, s.slots.value[ft], ft)
  }

  ghost predicate SlotHolds(s: State, id: Id, ft: nat) {
    && id in s.servers && s.servers[id].ft == ft && id !in s.shutdown && id !in s.delayed
    && (s.servers[id].pid == 0 ==> s.servers[id].client.None?)
  }

  /** Servers in shutdown still run, servers that wait for their timer do not, and none is in
      both lists. */
  ghost predicate Listed(s: State) {
    && (forall id {:trigger id in s.shutdown} :: id in s.shutdown ==> id in s.servers && s.servers[id].pid != 0 && id !in s.delayed)
    && (forall id {:trigger id in s.delayed} :: id in s.delayed ==> id in s.servers && s.servers[id].pid == 0)
  }

  /** Every server has an owner: nothing is leaked. */
  ghost predicate Owned(s: State) {
    forall id {:trigger id in s.servers} :: id in s.servers ==> id in s.shutdown || id in s.delayed || InSlot(s, id)
  }

  ghost predicate Numbered(s: State) {
    && (forall id {:trigger id in s.servers} :: id in s.servers ==> id < s.next)
    && (forall c {:trigger c in s.clients} :: c in s.clients ==> c < s.nextClient)
    && (forall c {:trigger c in s.initializing} :: c in s.initializing ==> c < s.nextClient)
    && (forall c {:trigger s.ordinary[c]} :: s.ordinary[c] > 0 ==> c < s.nextClient)
  }

  /** The client table and the servers agree. */
  ghost predicate Linked(s: State) {
    && (forall c {:trigger c in s.clients} :: c in s.clients ==>
      s.clients[c] in s.servers && s.servers[s.clients[c]].client == Some(c))
    && (forall id {:trigger id in s.servers} :: id in s.servers ==> HasClient(s, id))
  }

  ghost predicate HasClient(s: State, id: Id)
    requires id in s.servers
  {
    var sv := s.servers[id];
    && (sv.pid != 0 ==> sv.client.Some?)
    && (sv.client.Some? ==> sv.client.value in s.clients && s.clients[sv.client.value] == id)
  }

  /** While the initialize request is open the gate is closed and nothing ordinary is open;
      in shutdown the gate is closed, or nothing ordinary is open. */
  ghost predicate Gated(s: State) {
    forall id {:trigger id in s.servers} :: id in s.servers ==> GateHolds(s, id)
  }

  ghost predicate GateHolds(s: State, id: Id)
    requires id in s.servers
  {
    s.servers[id].client.Some? ==>
      var c := s.servers[id].client.value;
      && (c in s.initializing ==> s.servers[id].starting && s.ordinary[c] == 0)
      && (id in s.shutdown ==> s.servers[id].starting || s.ordinary[c] == 0)
  }

  /** A slot has used one process for each restart and one more for the process it has. */
  ghost predicate WithinBudget(sv: Server, spawned: nat) {
    if sv.restarts == GIVEN_UP then sv.pid == 0 && spawned < MAX_RESTARTS
    else if sv.pid != 0 then sv.restarts < MAX_RESTARTS && spawned == sv.restarts + 1
    else (sv.restarts == 0 || sv.restarts == MAX_RESTARTS) && spawned == sv.restarts
  }

  ghost predicate Budgeted(s: State) {
    && (forall ft {:trigger s.spawned[ft]} :: 0 <= ft < |s.spawned| ==> s.spawned[ft] <= MAX_RESTARTS)
    && (s.slots.Some? ==> |s.spawned| == |s.slots.value|)
    && (s.slots.Some? ==> forall ft {:trigger SlotWithinBudget(s, ft)} :: 0 <= ft < |s.slots.value| ==> SlotWithinBudget(s, ft))
  }

  ghost predicate SlotWithinBudget(s: State, ft: nat)
    requires s.slots.Some? && ft < |s.slots.value| && ft < |s.spawned|
  {
    s.slots.value[ft] in s.servers && WithinBudget(s.servers[s.slots.value[ft]], s.spawned[ft])
  }

  ghost predicate Inv(s: State) {
    Slotted(s) && Listed(s) && Owned(s) && Numbered(s) && Linked(s) && Gated(s) && Budgeted(s)
  }

  // ----- each step keeps it -----

  lemma FreeKeeps(s: State, id: Id)
    requires Slotted(s) && Listed(s) && Numbered(s) && Linked(s) && Gated(s) && Budgeted(s)
    requires id in s.servers && id !in s.shutdown && id !in s.delayed && !InSlot(s, id)
    requires forall o {:trigger o in s.servers} :: o in s.servers && o != id ==> o in s.shutdown || o in s.delayed || InSlot(s, o)
    ensures Inv(Free(s, id))
  {
    var t := Free(s, id);
    assert forall o {:trigger o in t.servers} :: o in t.servers ==> o in s.servers && o != id && t.servers[o] == s.servers[o];
    forall o | o in t.servers ensures HasClient(t, o) && GateHolds(t, o) && (o in t.shutdown || o in t.delayed || InSlot(t, o)) {
      assert HasClient(s, o) && GateHolds(s, o) && HasClient(s, id);
    }
    assert HasClient(s, id);
    if s.slots.Some? {
      forall ft | 0 <= ft < |s.slots.value| ensures SlotHolds(t, t.slots.value[ft], ft) && SlotWithinBudget(t, ft) {
        assert SlotHolds(s, s.slots.value[ft], ft) && SlotWithinBudget(s, ft);
      }
    }
  }

  lemma DelayOverKeeps(s: State, id: Id)
    requires Inv(s) && id in s.delayed
    ensures Inv(DelayOver(s, id))
  {
    var t := s.(delayed := s.delayed - {id});
    SlotsElsewhere(s, id);
    assert forall o {:trigger o in t.servers} :: o in t.servers ==> HasClient(s, o) && GateHolds(s, o);
    SlotsKept(s, t);
    FreeKeeps(t, id);
  }

  /** A listed server is in no slot. */
  lemma SlotsElsewhere(s: State, id: Id)
    requires Slotted(s) && (id in s.shutdown || id in s.delayed)
    ensures !InSlot(s, id)
  {
    if id in s.servers && s.slots.Some? && s.servers[id].ft < |s.slots.value| {
      assert SlotHolds(s, s.slots.value[s.servers[id].ft], s.servers[id].ft);
    }
  }

  /** Slots whose servers are as before are still in order. */
  lemma SlotsKept(s: State, t: State)
    requires Slotted(s) && Budgeted(s) && t.slots == s.slots && t.spawned == s.spawned
    requires s.slots.Some? ==> forall ft {:trigger s.slots.value[ft]} :: 0 <= ft < |s.slots.value| ==>
      s.slots.value[ft] in t.servers && t.servers[s.slots.value[ft]] == s.servers[s.slots.value[ft]]
      && s.slots.value[ft] !in t.shutdown && s.slots.value[ft] !in t.delayed
    ensures Slotted(t) && Budgeted(t)
  {
    if s.slots.Some? {
      forall ft | 0 <= ft < |s.slots.value| ensures SlotHolds(t, t.slots.value[ft], ft) && SlotWithinBudget(t, ft) {
        assert SlotHolds(s, s.slots.value[ft], ft) && SlotWithinBudget(s, ft);
      }
    }
  }

  lemma ShutdownStoppedKeeps(s: State, id: Id, pid: nat)
    requires Inv(s) && id in s.shutdown
    ensures Inv(Stopped(s, id, pid))
  {
    var t := s.(servers := s.servers[id := s.servers[id].(pid := 0)], shutdown := s.shutdown - {id});
    SlotsElsewhere(s, id);
    assert s.slots.Some? ==> forall ft {:trigger s.slots.value[ft]} :: 0 <= ft < |s.slots.value| ==> SlotHolds(s, s.slots.value[ft], ft);
    SlotsKept(s, t);
    forall o | o in t.servers ensures HasClient(t, o) && GateHolds(t, o) {
      assert HasClient(s, o) && GateHolds(s, o);
    }
    FreeKeeps(t, id);
  }

  /** Ready to be started: no process yet, and restarts to spare. */
  ghost predicate Startable(s: State, ft: nat) {
    && s.slots.Some? && ft < |s.slots.value| && ft < |s.spawned| && s.slots.value[ft] in s.servers
    && var sv := s.servers[s.slots.value[ft]];
       sv.pid == 0 && sv.client.None? && sv.restarts < MAX_RESTARTS && s.spawned[ft] == sv.restarts
  }

  /** The invariant, but for the budget of one slot. */
  ghost predicate InvBut(s: State, ft: nat) {
    && Slotted(s) && Listed(s) && Owned(s) && Numbered(s) && Linked(s) && Gated(s)
    && (forall k {:trigger s.spawned[k]} :: 0 <= k < |s.spawned| ==> s.spawned[k] <= MAX_RESTARTS)
    && (s.slots.Some? ==> forall k {:trigger SlotWithinBudget(s, k)} :: 0 <= k < |s.slots.value| && k != ft ==> SlotWithinBudget(s, k))
  }

  lemma StartKeepsSlots(s: State, ft: nat, pid: nat)
    requires InvBut(s, ft) && Startable(s, ft)
    ensures s.servers[s.slots.value[ft]].ft == ft
    ensures Slotted(Start(s, s.slots.value[ft], pid)) && Budgeted(Start(s, s.slots.value[ft], pid))
  {
    var id := s.slots.value[ft];
    assert SlotHolds(s, id, ft);
    var t := Start(s, id, pid);
    forall k | 0 <= k < |s.slots.value| ensures SlotHolds(t, t.slots.value[k], k) && SlotWithinBudget(t, k) {
      assert SlotHolds(s, s.slots.value[k], k);
      if k != ft { assert SlotWithinBudget(s, k); }
    }
  }

  lemma StartKeeps(s: State, ft: nat, pid: nat)
    requires InvBut(s, ft) && Startable(s, ft)
    ensures s.servers[s.slots.value[ft]].ft == ft
    ensures Inv(Start(s, s.slots.value[ft], pid))
  {
    StartKeepsSlots(s, ft, pid);
    var id := s.slots.value[ft];
    assert SlotHolds(s, id, ft);
    var t := Start(s, id, pid);
    forall o | o in t.servers ensures o in s.servers && HasClient(t, o) && GateHolds(t, o) && (o in t.shutdown || o in t.delayed || InSlot(t, o)) {
      assert HasClient(s, o) && GateHolds(s, o);
      if o == id && pid != 0 { assert s.ordinary[s.nextClient] == 0; }
    }
  }

  /** A running server outside the shutdown list is in its slot. */
  lemma RunningIsSlotted(s: State, id: Id)
    requires Inv(s) && id in s.servers && s.servers[id].pid != 0 && id !in s.shutdown
    ensures InSlot(s, id) && SlotWithinBudget(s, s.servers[id].ft)
    ensures s.servers[id].restarts < MAX_RESTARTS && s.spawned[s.servers[id].ft] == s.servers[id].restarts + 1
  {
    assert id !in s.delayed;
    assert SlotWithinBudget(s, s.servers[id].ft);
  }

  /** The state after a crash, before the new server is started. */
  function Crashed(s: State, id: Id): State
    requires id in s.servers && s.slots.Some? && s.servers[id].ft < |s.slots.value|
  {
    var t := s.(servers := s.servers[id := s.servers[id].(pid := 0)], delayed := s.delayed + {id});
    Replace(t, s.servers[id].ft, s.servers[id].restarts + 1)
  }

  lemma CrashedSlots(s: State, id: Id)
    requires Inv(s) && InSlot(s, id) && s.servers[id].pid != 0 && id !in s.shutdown
    ensures Slotted(Crashed(s, id))
    ensures forall k {:trigger SlotWithinBudget(Crashed(s, id), k)} :: 0 <= k < |s.slots.value| && k != s.servers[id].ft ==>
      SlotWithinBudget(Crashed(s, id), k)
  {
    var t, ft := Crashed(s, id), s.servers[id].ft;
    forall k | 0 <= k < |s.slots.value| ensures SlotHolds(t, t.slots.value[k], k) {
      assert SlotHolds(s, s.slots.value[k], k);
    }
    forall k | 0 <= k < |s.slots.value| && k != ft ensures SlotWithinBudget(t, k) {
      assert SlotHolds(s, s.slots.value[k], k) && SlotWithinBudget(s, k);
    }
  }

  lemma CrashedKeeps(s: State, id: Id)
    requires Inv(s) && InSlot(s, id) && s.servers[id].pid != 0 && id !in s.shutdown
    ensures InvBut(Crashed(s, id), s.servers[id].ft)
  {
    var t := Crashed(s, id);
    CrashedSlots(s, id);
    CrashedServers(s, id);
  }

  lemma CrashedServers(s: State, id: Id)
    requires Inv(s) && InSlot(s, id) && s.servers[id].pid != 0 && id !in s.shutdown
    ensures var t := Crashed(s, id); Listed(t) && Owned(t) && Numbered(t) && Linked(t) && Gated(t)
  {
    var t := Crashed(s, id);
    assert s.next !in s.shutdown && s.next !in s.delayed;
    forall o | o in t.servers ensures HasClient(t, o) && GateHolds(t, o) && (o in t.shutdown || o in t.delayed || InSlot(t, o)) {
      if o != s.next { assert HasClient(s, o) && GateHolds(s, o); }
    }
  }

  /** The new server in the slot, and whether it is started. */
  lemma StoppedByCrash(s: State, id: Id, pid: nat, t: State, ft: nat)
    requires InSlot(s, id) && id !in s.shutdown && |s.spawned| == |s.slots.value| && ft == s.servers[id].ft && t == Crashed(s, id)
    ensures t.slots.Some? && |t.spawned| == |t.slots.value| == |s.slots.value| && t.slots.value[ft] == s.next
    ensures s.next in t.servers && t.servers[s.next] == NewServer(ft, s.servers[id].restarts + 1) && t.spawned == s.spawned
    ensures Stopped(s, id, pid) == if s.servers[id].restarts + 1 >= MAX_RESTARTS then t else Start(t, s.next, pid)
  {
  }

  lemma CrashKeeps(s: State, id: Id, pid: nat)
    requires Inv(s) && id in s.servers && s.servers[id].pid != 0 && id !in s.shutdown
    ensures s.slots.Some? && s.servers[id].ft < |s.slots.value|
    ensures Inv(Stopped(s, id, pid))
  {
    RunningIsSlotted(s, id);
    CrashedKeeps(s, id);
    StoppedByCrash(s, id, pid, Crashed(s, id), s.servers[id].ft);
    NewServerKeeps(Crashed(s, id), s.servers[id].ft, s.servers[id].restarts + 1, pid);
  }

  lemma NewServerKeeps(t: State, ft: nat, restarts: nat, pid: nat)
    requires InvBut(t, ft) && t.slots.Some? && ft < |t.slots.value| && ft < |t.spawned| && t.slots.value[ft] in t.servers
    requires t.servers[t.slots.value[ft]] == NewServer(ft, restarts) && t.spawned[ft] == restarts && 0 < restarts <= MAX_RESTARTS
    ensures Inv(if restarts >= MAX_RESTARTS then t else Start(t, t.slots.value[ft], pid))
  {
    if restarts < MAX_RESTARTS {
      StartKeeps(t, ft, pid);
    } else {
      BudgetOfAll(t, ft);
    }
  }

  lemma BudgetOfAll(t: State, ft: nat)
    requires InvBut(t, ft) && t.slots.Some? && ft < |t.slots.value| && SlotWithinBudget(t, ft)
    ensures Inv(t)
  {
    forall k | 0 <= k < |t.slots.value| ensures SlotWithinBudget(t, k) {
      if k != ft { assert SlotHolds(t, t.slots.value[k], k); }
    }
  }

  lemma AllButOne(s: State, ft: nat)
    requires Inv(s)
    ensures InvBut(s, ft)
  {
  }

  lemma GetOrStartKeeps(s: State, ft: nat, launch: bool, command: bool, pid: nat)
    requires Inv(s)
    ensures s.slots.Some? && ft < |s.slots.value| ==> SlotHolds(s, s.slots.value[ft], ft)
    ensures Inv(GetOrStart(s, ft, launch, command, pid).0)
  {
    if s.slots.Some? && ft < |s.slots.value| {
      var id := s.slots.value[ft];
      var sv := s.servers[id];
      assert SlotHolds(s, id, ft) && SlotWithinBudget(s, ft);
      if !sv.starting && sv.pid == 0 && !sv.notUsed && !IsDead(sv) && launch {
        if command {
          AllButOne(s, ft);
          StartKeeps(s, ft, pid);
        } else {
          FlagKeeps(s, id, sv.(notUsed := true));
        }
      }
    }
  }

  /** Marking a server as unused changes nothing else. */
  lemma FlagKeeps(s: State, id: Id, sv: Server)
    requires Inv(s) && id in s.servers
    requires sv == s.servers[id].(notUsed := sv.notUsed)
    ensures Inv(s.(servers := s.servers[id := sv]))
  {
    FlagKeepsSlots(s, id, sv);
    FlagKeepsClients(s, id, sv);
  }

  lemma FlagKeepsClients(s: State, id: Id, sv: Server)
    requires Inv(s) && id in s.servers
    requires sv == s.servers[id].(notUsed := sv.notUsed)
    ensures var t := s.(servers := s.servers[id := sv]); Linked(t) && Gated(t)
  {
    var t := s.(servers := s.servers[id := sv]);
    forall o | o in t.servers ensures HasClient(t, o) && GateHolds(t, o) {
      assert HasClient(s, o) && GateHolds(s, o);
    }
  }

  lemma FlagKeepsSlots(s: State, id: Id, sv: Server)
    requires Inv(s) && id in s.servers
    requires sv == s.servers[id].(notUsed := sv.notUsed)
    ensures var t := s.(servers := s.servers[id := sv]); Slotted(t) && Budgeted(t)
  {
    var t := s.(servers := s.servers[id := sv]);
    if s.slots.Some? {
      forall k | 0 <= k < |s.slots.value| ensures SlotHolds(t, t.slots.value[k], k) && SlotWithinBudget(t, k) {
        assert SlotHolds(s, s.slots.value[k], k) && SlotWithinBudget(s, k);
      }
    }
  }

  lemma CallKeeps(s: State, id: Id)
    requires Inv(s) && InSlot(s, id) && s.servers[id].pid != 0 && !s.servers[id].starting
    ensures s.servers[id].client.Some? && Inv(Call(s, id))
  {
    assert HasClient(s, id);
    var t, c := Call(s, id), s.servers[id].client.value;
    assert SlotHolds(s, s.slots.value[s.servers[id].ft], s.servers[id].ft);
    assert s.slots.Some? ==> forall ft {:trigger s.slots.value[ft]} :: 0 <= ft < |s.slots.value| ==> SlotHolds(s, s.slots.value[ft], ft);
    SlotsKept(s, t);
    forall o | o in t.servers ensures HasClient(t, o) && GateHolds(t, o) && (o in t.shutdown || o in t.delayed || InSlot(t, o)) {
      assert HasClient(s, o) && GateHolds(s, o);
    }
  }

  lemma RespondedKeeps(s: State, c: Client)
    requires Inv(s)
    ensures Inv(Responded(s, c))
  {
    var t := Responded(s, c);
    assert s.slots.Some? ==> forall ft {:trigger s.slots.value[ft]} :: 0 <= ft < |s.slots.value| ==> SlotHolds(s, s.slots.value[ft], ft);
    SlotsKept(s, t);
    forall o | o in t.servers ensures HasClient(t, o) && GateHolds(t, o) && (o in t.shutdown || o in t.delayed || InSlot(t, o)) {
      assert HasClient(s, o) && GateHolds(s, o);
    }
  }

  lemma InitializedKeeps(s: State, c: Client, ok: bool)
    requires Inv(s) && c in s.initializing
    ensures Inv(Initialized(s, c, ok))
  {
    var t := Initialized(s, c, ok);
    if s.slots.Some? {
      forall k | 0 <= k < |s.slots.value| ensures SlotHolds(t, t.slots.value[k], k) && SlotWithinBudget(t, k) {
        assert SlotHolds(s, s.slots.value[k], k) && SlotWithinBudget(s, k);
      }
    }
    forall o | o in t.servers ensures HasClient(t, o) && GateHolds(t, o) && (o in t.shutdown || o in t.delayed || InSlot(t, o)) {
      assert HasClient(s, o) && GateHolds(s, o);
    }
  }

  lemma StopAllKeeps(s: State)
    requires Inv(s)
    ensures Inv(StopAll(s))
  {
    if s.slots.Some? {
      var t := StopAll(s);
      assert forall ft {:trigger s.slots.value[ft]} :: 0 <= ft < |s.slots.value| ==> SlotHolds(s, s.slots.value[ft], ft);
      forall o | o in t.servers ensures o in s.servers && t.servers[o].pid == s.servers[o].pid && (o in t.shutdown || o in t.delayed) {
      }
      StoppedClients(s);
    }
  }

  lemma StoppedClients(s: State)
    requires Inv(s) && s.slots.Some?
    ensures Linked(StopAll(s)) && Gated(StopAll(s))
  {
    var t := StopAll(s);
    forall o | o in t.servers ensures HasClient(t, o) && GateHolds(t, o) {
      assert HasClient(s, o) && GateHolds(s, o);
    }
  }

  lemma InitAllKeeps(s: State, n: nat)
    requires Inv(s)
    ensures Inv(InitAll(s, n))
  {
    StopAllKeeps(s);
    var s0, t := StopAll(s), InitAll(s, n);
    forall ft | 0 <= ft < n ensures SlotHolds(t, t.slots.value[ft], ft) && SlotWithinBudget(t, ft) {
      assert t.slots.value[ft] == s0.next + ft;
      assert t.servers[s0.next + ft] == NewServer(ft, 0);
    }
    forall o | o in t.servers ensures HasClient(t, o) && GateHolds(t, o) && (o in t.shutdown || o in t.delayed || InSlot(t, o)) {
      if o in s0.servers {
        assert HasClient(s0, o) && GateHolds(s0, o);
      } else {
        assert t.servers[o] == NewServer(o - s0.next, 0);
      }
    }
  }

  // ----- whole runs -----

  /** What can happen. A process can stop at any time, timers run out, and answers arrive in
      any order or never. */
  datatype Event =
    | DoInitAll(n: nat)
    | DoStopAll
    | DoGetOrStart(ft: nat, launch: bool, command: bool, pid: nat)
    | ProcessStopped(id: Id, pid: nat)
    | TimerRunsOut(id: Id)
    | OrdinaryCall(ft: nat)
    | OrdinaryAnswer(client: Client)
    | InitializeAnswer(client: Client, ok: bool)

  /** The server that server_get_or_start_for_ft returns for a request; when it returns one it
      changes nothing. */
  ghost function Returned(s: State, ft: nat): Option<Id>
    requires Slotted(s)
  {
    if s.slots.Some? && ft < |s.slots.value| then
      assert SlotHolds(s, s.slots.value[ft], ft);
      GetOrStart(s, ft, false, false, 0).1
    else None
  }

  ghost predicate Possible(s: State, e: Event) {
    match e
    case ProcessStopped(id, _) => id in s.servers && s.servers[id].pid != 0
    case TimerRunsOut(id) => id in s.delayed
    case OrdinaryCall(ft) => Slotted(s) && Returned(s, ft).Some?
    case OrdinaryAnswer(c) => s.ordinary[c] > 0
    case InitializeAnswer(c, _) => c in s.initializing
    case _ => true
  }

  ghost function Step(s: State, e: Event): State
    requires Inv(s) && Possible(s, e)
  {
    match e
    case DoInitAll(n) => InitAll(s, n)
    case DoStopAll => StopAll(s)
    case DoGetOrStart(ft, launch, command, pid) =>
      GetOrStartKeeps(s, ft, launch, command, pid);
      GetOrStart(s, ft, launch, command, pid).0
    case ProcessStopped(id, pid) =>
      StoppedMeaningful(s, id);
      Stopped(s, id, pid)
    case TimerRunsOut(id) => DelayOver(s, id)
    case OrdinaryCall(ft) =>
      ReturnedRuns(s, ft, false, false, 0);
      CallKeeps(s, Returned(s, ft).value);
      Call(s, Returned(s, ft).value)
    case OrdinaryAnswer(c) => Responded(s, c)
    case InitializeAnswer(c, ok) => Initialized(s, c, ok)
  }

  // ----- which server is returned, and when one is started -----

  /** The file type's server, in its slot */
  ghost predicate HasServer(s: State, ft: nat, id: Id) {
    s.slots.Some? && ft < |s.slots.value| && s.slots.value[ft] == id && id in s.servers
  }

  /** A server is returned exactly when it is in the slot, runs, and is neither starting up nor
      shutting down; then nothing changes. */
  lemma ReturnedRuns(s: State, ft: nat, launch: bool, command: bool, pid: nat)
    requires Slotted(s)
    ensures s.slots.Some? && ft < |s.slots.value| ==> SlotHolds(s, s.slots.value[ft], ft)
    ensures forall id :: GetOrStart(s, ft, launch, command, pid).1 == Some(id) <==>
      HasServer(s, ft, id) && s.servers[id].pid != 0 && !s.servers[id].starting
    ensures GetOrStart(s, ft, launch, command, pid).1.Some? ==> GetOrStart(s, ft, launch, command, pid).0 == s
    ensures Returned(s, ft) == GetOrStart(s, ft, launch, command, pid).1
  {
    if s.slots.Some? && ft < |s.slots.value| { assert SlotHolds(s, s.slots.value[ft], ft); }
  }

  /** A start is tried: the server is idle, has been stopped fewer than 10 times, is wanted and
      has a command. */
  ghost predicate Tries(s: State, ft: nat, launch: bool, command: bool, id: Id) {
    && HasServer(s, ft, id) && launch && command
    && s.servers[id].pid == 0 && !s.servers[id].starting && !s.servers[id].notUsed && s.servers[id].restarts < 10
  }

  /** Servers, processes and clients are as before. */
  ghost predicate NothingStarted(s: State, t: State) {
    && t.nextClient == s.nextClient && t.clients == s.clients && t.servers.Keys == s.servers.Keys && t.spawned == s.spawned
    && forall id :: id in s.servers ==>
      t.servers[id].pid == s.servers[id].pid && t.servers[id].restarts == s.servers[id].restarts
  }

  /** If a start is tried the new process is the server's, with a client of its own that is
      being initialized, or the server is given up for good; in all other cases nothing is
      started, and at most a server without a command is marked as not used. */
  lemma StartsIff(s: State, ft: nat, launch: bool, command: bool, pid: nat)
    requires Slotted(s)
    ensures s.slots.Some? && ft < |s.slots.value| ==> SlotHolds(s, s.slots.value[ft], ft)
    ensures
      var t := GetOrStart(s, ft, launch, command, pid).0;
      && (forall id :: Tries(s, ft, launch, command, id) && pid != 0 ==> Launched(s, t, id, pid))
      && (forall id :: Tries(s, ft, launch, command, id) && pid == 0 ==>
        id in t.servers && t.servers[id].pid == 0 && t.servers[id].restarts >= 10 && t.nextClient == s.nextClient)
      && ((forall id :: !Tries(s, ft, launch, command, id)) ==> NothingStarted(s, t))
      && (forall id :: Tries(s, ft, launch, true, id) && !command ==> id in t.servers && t.servers[id].notUsed)
  {
    if s.slots.Some? && ft < |s.slots.value| {
      var id := s.slots.value[ft];
      assert SlotHolds(s, id, ft);
      assert HasServer(s, ft, id);
      if !Tries(s, ft, launch, command, id) {
        assert forall o :: !Tries(s, ft, launch, command, o);
      }
    }
  }

  /** A process now runs for the server, its initialize request is open and its gate shut. */
  ghost predicate Launched(s: State, t: State, id: Id, pid: nat) {
    && id in t.servers && t.servers[id].pid == pid && t.servers[id].starting && t.servers[id].client == Some(s.nextClient)
    && t.nextClient == s.nextClient + 1 && s.nextClient in t.clients && t.clients[s.nextClient] == id
    && s.nextClient in t.initializing
  }

  // ----- what becomes of a server that stops -----

  /** After a crash the slot has a new server with one more restart on its account. Below 10 it
      is started, and given up if that fails; at 10 it is not. The old one waits for its timer. */
  lemma CrashIsFollowedBy(s: State, id: Id, pid: nat)
    requires Inv(s) && id in s.servers && s.servers[id].pid != 0 && id !in s.shutdown
    ensures s.slots.Some? && s.servers[id].ft < |s.slots.value| == |s.spawned|
    ensures
      var t, ft, n := Stopped(s, id, pid), s.servers[id].ft, s.servers[id].restarts + 1;
      && id in t.servers && t.servers[id].pid == 0 && id in t.delayed
      && HasServer(t, ft, s.next) && s.next !in s.servers && t.servers[s.next].ft == ft
      && (n < 10 && pid != 0 ==> Launched(s, t, s.next, pid) && t.servers[s.next].restarts == n)
      && (n < 10 && pid == 0 ==> t.servers[s.next].pid == 0 && t.servers[s.next].restarts >= 10)
      && (n >= 10 ==> t.servers[s.next] == Server(ft, 0, n, false, false, None) && t.nextClient == s.nextClient)
  {
    RunningIsSlotted(s, id);
    StoppedByCrash(s, id, pid, Crashed(s, id), s.servers[id].ft);
  }

  /** A server that stops during shutdown is freed, and its slot's server is another. */
  lemma ShutdownIsFollowedBy(s: State, id: Id, pid: nat)
    requires Inv(s) && id in s.shutdown
    ensures s.slots.Some? ==> |s.spawned| == |s.slots.value|
    ensures
      var t := Stopped(s, id, pid);
      && id !in t.servers && id !in t.shutdown && t.slots == s.slots && t.nextClient == s.nextClient
      && forall o :: o in s.servers && o != id ==> o in t.servers && t.servers[o] == s.servers[o]
  {
  }

  /** Stopping all servers puts each running one on the shutdown list with its gate shut, frees
      the idle ones, and leaves those that are in no slot alone. */
  lemma AllAreStopped(s: State)
    requires Inv(s) && s.slots.Some?
    ensures StopAll(s).slots.None?
    ensures forall ft {:trigger s.slots.value[ft]} :: 0 <= ft < |s.slots.value| ==> IsStopped(s, StopAll(s), s.slots.value[ft])
    ensures forall id {:trigger id in s.servers} :: id in s.servers && !InSlot(s, id) ==>
      id in StopAll(s).servers && StopAll(s).servers[id] == s.servers[id]
  {
    forall ft | 0 <= ft < |s.slots.value| ensures IsStopped(s, StopAll(s), s.slots.value[ft]) {
      assert SlotHolds(s, s.slots.value[ft], ft);
      assert InSlot(s, s.slots.value[ft]);
    }
  }

  ghost predicate IsStopped(s: State, t: State, id: Id) {
    && id in s.servers
    && if s.servers[id].pid == 0 then id !in t.servers
       else id in t.servers && id in t.shutdown && t.servers[id] == s.servers[id].(starting := true)
  }

  /** An initialisation gives each of `n` file types an idle server that did not exist before. */
  lemma AllAreMade(s: State, n: nat)
    requires Inv(s)
    ensures InitAll(s, n).slots.Some? && |InitAll(s, n).slots.value| == n
    ensures forall ft :: 0 <= ft < n ==> IsMade(s, InitAll(s, n), ft)
  {
    StopAllKeeps(s);
    var s0, t := StopAll(s), InitAll(s, n);
    forall ft | 0 <= ft < n ensures IsMade(s, t, ft) {
      assert t.slots.value[ft] == s0.next + ft;
    }
  }

  ghost predicate IsMade(s: State, t: State, ft: nat) {
    && t.slots.Some? && ft < |t.slots.value|
    && var id := t.slots.value[ft];
       id !in s.servers && id in t.servers && t.servers[id] == Server(ft, 0, 0, false, false, None)
  }

  lemma StoppedMeaningful(s: State, id: Id)
    requires Inv(s) && id in s.servers && s.servers[id].pid != 0
    ensures s.slots.Some? ==> |s.spawned| == |s.slots.value| && (id !in s.shutdown ==> s.servers[id].ft < |s.spawned|)
    ensures id !in s.shutdown ==> s.slots.Some?
  {
    if id !in s.shutdown { RunningIsSlotted(s, id); }
  }

  lemma StoppedKeeps(s: State, id: Id, pid: nat)
    requires Inv(s) && id in s.servers && s.servers[id].pid != 0
    ensures s.slots.Some? ==> |s.spawned| == |s.slots.value| && (id !in s.shutdown ==> s.servers[id].ft < |s.spawned|)
    ensures Inv(Stopped(s, id, pid))
  {
    StoppedMeaningful(s, id);
    if id in s.shutdown { ShutdownStoppedKeeps(s, id, pid); } else { CrashKeeps(s, id, pid); }
  }

  lemma StepKeeps(s: State, e: Event)
    requires Inv(s) && Possible(s, e)
    ensures Inv(Step(s, e))
  {
    match e
    case DoInitAll(n) => InitAllKeeps(s, n);
    case DoStopAll => StopAllKeeps(s);
    case DoGetOrStart(ft, launch, command, pid) => GetOrStartKeeps(s, ft, launch, command, pid);
    case ProcessStopped(id, pid) => StoppedKeeps(s, id, pid);
    case TimerRunsOut(id) => DelayOverKeeps(s, id);
    case OrdinaryCall(ft) =>
      ReturnedRuns(s, ft, false, false, 0);
      CallKeeps(s, Returned(s, ft).value);
    case OrdinaryAnswer(c) => RespondedKeeps(s, c);
    case InitializeAnswer(c, ok) => InitializedKeeps(s, c, ok);
  }

  const START := State(map[], 0, None, {}, {}, map[], 0, {}, multiset{}, [])

  /** The state after a run, or None if one of its events cannot happen. */
  ghost function Run(events: seq<Event>): (s: Option<State>)
    ensures s.Some? ==> Inv(s.value)
  {
    if events == [] then Some(START)
    else
      match Run(events[..|events| - 1])
      case None => None
      case Some(s) =>
        var e := events[|events| - 1];
        if Possible(s, e) then
          StepKeeps(s, e);
          Some(Step(s, e))
        else None
  }

  /** Every live process is owned by exactly one of the slots and the shutdown list, every
      other server by a slot or a timer: none is lost, and none has two owners that could
      free it twice. */
  lemma OneOwner(events: seq<Event>, id: Id)
    requires Run(events).Some? && id in Run(events).value.servers
    ensures
      var s := Run(events).value;
      && (s.servers[id].pid != 0 ==> (InSlot(s, id) <==> id !in s.shutdown) && id !in s.delayed)
      && (s.servers[id].pid == 0 ==> (InSlot(s, id) <==> id !in s.delayed) && id !in s.shutdown)
  {
    var s := Run(events).value;
    if s.slots.Some? && s.servers[id].ft < |s.slots.value| {
      assert SlotHolds(s, s.slots.value[s.servers[id].ft], s.servers[id].ft);
    }
  }

  /** Between two states a process was spawned for a file type: a client was registered for a
      server of that type, which runs. */
  ghost predicate Spawned(s: State, t: State, ft: nat) {
    && s.nextClient < t.nextClient && s.nextClient in t.clients
    && t.clients[s.nextClient] in t.servers
    && t.servers[t.clients[s.nextClient]].ft == ft && t.servers[t.clients[s.nextClient]].pid != 0
  }

  /** How often that happened since the last initialisation. */
  ghost function Spawns(events: seq<Event>, ft: nat): nat
    requires Run(events).Some?
  {
    if events == [] || events[|events| - 1].DoInitAll? then 0
    else
      var before := events[..|events| - 1];
      Spawns(before, ft) + (if Spawned(Run(before).value, Run(events).value, ft) then 1 else 0)
  }

  lemma StartCounts(s: State, id: Id, pid: nat, ft: nat)
    requires id in s.servers && s.servers[id].ft < |s.spawned| && ft < |s.spawned|
    ensures
      var t := Start(s, id, pid);
      && |t.spawned| == |s.spawned|
      && t.spawned[ft] == s.spawned[ft] + (if Spawned(s, t, ft) then 1 else 0)
  {
  }

  lemma StoppedCounts(s: State, id: Id, pid: nat, ft: nat)
    requires Inv(s) && id in s.servers && s.servers[id].pid != 0 && ft < |s.spawned|
    requires s.slots.Some? ==> |s.spawned| == |s.slots.value| && (id !in s.shutdown ==> s.servers[id].ft < |s.spawned|)
    ensures
      var t := Stopped(s, id, pid);
      && |t.spawned| == |s.spawned|
      && t.spawned[ft] == s.spawned[ft] + (if Spawned(s, t, ft) then 1 else 0)
  {
    if id !in s.shutdown {
      RunningIsSlotted(s, id);
      if s.servers[id].restarts + 1 < MAX_RESTARTS {
        var c := Crashed(s, id);
        StartCounts(c, s.next, pid, ft);
        assert c.nextClient == s.nextClient && c.spawned == s.spawned;
      }
    }
  }

  lemma StepCounts(s: State, e: Event, ft: nat)
    requires Inv(s) && Possible(s, e) && !e.DoInitAll? && ft < |s.spawned|
    ensures
      var t := Step(s, e);
      && |t.spawned| == |s.spawned|
      && t.spawned[ft] == s.spawned[ft] + (if Spawned(s, t, ft) then 1 else 0)
  {
    match e
    case DoGetOrStart(k, launch, command, pid) =>
      GetOrStartKeeps(s, k, launch, command, pid);
      if s.slots.Some? && k < |s.slots.value| { StartCounts(s, s.slots.value[k], pid, ft); }
    case ProcessStopped(id, pid) =>
      StoppedMeaningful(s, id);
      StoppedCounts(s, id, pid, ft);
    case _ =>
  }

  lemma {:induction false} CounterIsSpawns(events: seq<Event>, ft: nat)
    requires Run(events).Some? && ft < |Run(events).value.spawned|
    ensures Run(events).value.spawned[ft] == Spawns(events, ft)
  {
    if events != [] {
      var before, e := events[..|events| - 1], events[|events| - 1];
      if !e.DoInitAll? {
        if ft < |Run(before).value.spawned| { StepCounts(Run(before).value, e, ft); }
        SameFileTypes(Run(before).value, e);
        CounterIsSpawns(before, ft);
      }
    }
  }

  lemma SameFileTypes(s: State, e: Event)
    requires Inv(s) && Possible(s, e) && !e.DoInitAll?
    ensures |Step(s, e).spawned| == |s.spawned|
  {
  }

  /** Between two initialisations no file type uses more than ten processes, whatever crashes
      and whatever cannot be spawned. */
  lemma AtMostTenProcesses(events: seq<Event>, ft: nat)
    requires Run(events).Some? && ft < |Run(events).value.spawned|
    ensures Spawns(events, ft) <= MAX_RESTARTS
  {
    CounterIsSpawns(events, ft);
  }

  /** An ordinary callback only runs while its server exists, has been initialized, and is not
      being shut down. */
  lemma CallbackGate(events: seq<Event>, c: Client)
    requires Run(events).Some? && Run(events).value.ordinary[c] > 0
    ensures
      var s := Run(events).value;
      && (c in s.clients ==> s.clients[c] in s.servers)
      && (CallbackRuns(s, c) ==>
        c in s.clients && c !in s.initializing && !s.servers[s.clients[c]].starting && s.clients[c] !in s.shutdown)
  {
    var s := Run(events).value;
    if c in s.clients {
      assert GateHolds(s, s.clients[c]);
    }
  }

  /** The client, once initialized, has its gate open, unless its server is being shut down. */
  ghost predicate OpenUnlessShutDown(s: State, c: Client) {
    && c < s.nextClient
    && (c in s.clients && s.clients[c] in s.servers && s.clients[c] !in s.shutdown ==> !s.servers[s.clients[c]].starting)
  }

  lemma StartLeavesOpen(s: State, id: Id, pid: nat, c: Client)
    requires id in s.servers && s.servers[id].ft < |s.spawned| && s.servers[id].client.None? && Linked(s)
    requires OpenUnlessShutDown(s, c)
    ensures OpenUnlessShutDown(Start(s, id, pid), c)
  {
    if c in s.clients { assert s.servers[s.clients[c]].client == Some(c); }
  }

  lemma StoppingLeavesOpen(s: State, id: Id, pid: nat, c: Client)
    requires Inv(s) && id in s.servers && s.servers[id].pid != 0 && OpenUnlessShutDown(s, c)
    requires s.slots.Some? ==> |s.spawned| == |s.slots.value| && (id !in s.shutdown ==> s.servers[id].ft < |s.spawned|)
    ensures OpenUnlessShutDown(Stopped(s, id, pid), c)
  {
    if id !in s.shutdown {
      RunningIsSlotted(s, id);
      var t := Crashed(s, id);
      CrashedKeeps(s, id);
      StoppedByCrash(s, id, pid, t, s.servers[id].ft);
      assert OpenUnlessShutDown(t, c);
      StartLeavesOpen(t, s.next, pid, c);
    } else if c in s.clients {
      assert s.servers[s.clients[c]].client == Some(c);
    }
  }

  lemma StopAllLeavesOpen(s: State, c: Client)
    requires Inv(s) && OpenUnlessShutDown(s, c)
    ensures OpenUnlessShutDown(StopAll(s), c)
  {
  }

  lemma InitAllLeavesOpen(s: State, n: nat, c: Client)
    requires Inv(s) && OpenUnlessShutDown(s, c)
    ensures OpenUnlessShutDown(InitAll(s, n), c)
  {
    StopAllLeavesOpen(s, c);
    StopAllKeeps(s);
    var s0 := StopAll(s);
    if c in s0.clients { assert s0.clients[c] in s0.servers && s0.clients[c] < s0.next; }
  }

  lemma StepLeavesOpen(s: State, e: Event, c: Client)
    requires Inv(s) && Possible(s, e) && OpenUnlessShutDown(s, c)
    ensures OpenUnlessShutDown(Step(s, e), c)
  {
    match e
    case DoInitAll(n) => InitAllLeavesOpen(s, n, c);
    case DoStopAll => StopAllLeavesOpen(s, c);
    case DoGetOrStart(ft, launch, command, pid) =>
      GetOrStartKeeps(s, ft, launch, command, pid);
      if s.slots.Some? && ft < |s.slots.value| && s.servers[s.slots.value[ft]].pid == 0 {
        StartLeavesOpen(s, s.slots.value[ft], pid, c);
      }
    case ProcessStopped(id, pid) =>
      StoppedMeaningful(s, id);
      StoppingLeavesOpen(s, id, pid, c);
    case _ =>
  }

  /** The converse: once the initialize request was answered with success the callbacks of the
      client run, whatever happens, until its server is shut down or freed. */
  lemma {:induction false} GateStaysOpen(before: seq<Event>, c: Client, after: seq<Event>)
    requires Run(before + [InitializeAnswer(c, true)] + after).Some?
    ensures
      var s := Run(before + [InitializeAnswer(c, true)] + after).value;
      && OpenUnlessShutDown(s, c)
      && (c in s.clients ==> s.clients[c] in s.servers)
      && (c in s.clients && s.clients[c] !in s.shutdown ==> CallbackRuns(s, c))
    decreases |after|
  {
    var first := before + [InitializeAnswer(c, true)];
    if after == [] {
      assert first + after == first;
      RunLast(before, InitializeAnswer(c, true));
    } else {
      var n := |after| - 1;
      LastEvent(first, after);
      RunLast(first + after[..n], after[n]);
      GateStaysOpen(before, c, after[..n]);
      StepLeavesOpen(Run(first + after[..n]).value, after[n], c);
    }
  }

  lemma StepAddsOnlyNewIds(s: State, e: Event, id: Id)
    requires Inv(s) && Possible(s, e)
    requires id < s.next && id !in s.servers
    ensures id < Step(s, e).next && id !in Step(s, e).servers
  {
  }

  lemma RunLast(events: seq<Event>, e: Event)
    requires Run(events + [e]).Some?
    ensures Run(events).Some? && Possible(Run(events).value, e)
    ensures Run(events + [e]).value == Step(Run(events).value, e)
  {
    assert (events + [e])[..|events + [e]| - 1] == events;
  }

  lemma LastEvent(before: seq<Event>, after: seq<Event>)
    requires after != []
    ensures before + after == (before + after[..|after| - 1]) + [after[|after| - 1]]
  {
  }

  /** A server that has been freed never exists again, so no step can free it a second time. */
  lemma {:induction false} FreedForGood(before: seq<Event>, after: seq<Event>, id: Id)
    requires Run(before).Some? && Run(before + after).Some?
    requires id < Run(before).value.next && id !in Run(before).value.servers
    ensures id < Run(before + after).value.next && id !in Run(before + after).value.servers
    decreases |after|
  {
    if after == [] {
      assert before + after == before;
    } else {
      var n := |after| - 1;
      LastEvent(before, after);
      RunLast(before + after[..n], after[n]);
      FreedForGood(before, after[..n], id);
      StepAddsOnlyNewIds(Run(before + after[..n]).value, after[n], id);
    }
  }

  /** If the answer to the initialize request comes after the shutdown began, it opens the
      gate again; but such a server has no ordinary request open. */
  lemma LateAnswerOpensGate(s: State, c: Client)
    requires Inv(s) && c in s.initializing && c in s.clients && s.clients[c] in s.shutdown
    ensures
      var t := Initialized(s, c, true);
      s.clients[c] in t.shutdown && !t.servers[s.clients[c]].starting && t.ordinary[c] == 0
  {
    assert GateHolds(s, s.clients[c]);
  }

  // ----- the functions step by step -----

  /** stop_and_free_server, once the table is gone */
  function StopOne(s: State, id: Id): State
    requires id in s.servers
  {
    if s.servers[id].pid == 0 then Free(s, id)
    else if id in s.shutdown then s
    else s.(servers := s.servers[id := s.servers[id].(starting := true)], shutdown := s.shutdown + {id})
  }

  lemma StopFirstNone(s: State)
    ensures StopFirst(s, 0) == s
  {
  }

  /** Stopping the first servers one after the other is what StopFirst says at once. */
  lemma StopOneMore(s: State, k: nat)
    requires Slotted(s) && Linked(s) && s.slots.Some? && k < |s.slots.value|
    ensures s.slots.value[k] in StopFirst(s, k).servers
    ensures StopOne(StopFirst(s, k).(slots := None), s.slots.value[k]) == StopFirst(s, k + 1).(slots := None)
  {
    assert SlotHolds(s, s.slots.value[k], k);
    assert HasClient(s, s.slots.value[k]);
    if s.servers[s.slots.value[k]].pid != 0 {
      StopOneRunning(s, k);
    } else {
      StopOneIdle(s, k);
    }
  }

  lemma StopOneRunning(s: State, k: nat)
    requires s.slots.Some? && k < |s.slots.value| && SlotHolds(s, s.slots.value[k], k) && s.servers[s.slots.value[k]].pid != 0
    ensures
      var id, before, after := s.slots.value[k], StopFirst(s, k), StopFirst(s, k + 1);
      && id in before.servers && id !in before.shutdown && before.servers[id] == s.servers[id]
      && after.shutdown == before.shutdown + {id}
      && after.servers == before.servers[id := before.servers[id].(starting := true)]
      && after.clients == before.clients
  {
    var id, before, after := s.slots.value[k], StopFirst(s, k), StopFirst(s, k + 1);
    assert forall o {:trigger InSlot(s, o)} :: InSlot(s, o) && s.servers[o].ft == k ==> o == id;
    assert after.shutdown == before.shutdown + {id};
    assert after.servers == before.servers[id := before.servers[id].(starting := true)];
    assert after.clients == before.clients;
  }

  lemma StopOneIdle(s: State, k: nat)
    requires Linked(s) && s.slots.Some? && k < |s.slots.value| && SlotHolds(s, s.slots.value[k], k) && s.servers[s.slots.value[k]].pid == 0
    ensures
      var id, before, after := s.slots.value[k], StopFirst(s, k), StopFirst(s, k + 1);
      && id in before.servers && before.servers[id] == s.servers[id]
      && after.shutdown == before.shutdown && after.servers == before.servers - {id} && after.clients == before.clients
  {
    var id, before, after := s.slots.value[k], StopFirst(s, k), StopFirst(s, k + 1);
    assert forall o {:trigger InSlot(s, o)} :: InSlot(s, o) && s.servers[o].ft == k ==> o == id;
    assert after.shutdown == before.shutdown;
    assert after.servers == before.servers - {id};
    StopOneClients(s, k);
  }

  lemma StopOneClients(s: State, k: nat)
    requires Linked(s) && s.slots.Some? && k < |s.slots.value|
    requires SlotHolds(s, s.slots.value[k], k) && s.servers[s.slots.value[k]].pid == 0
    ensures StopFirst(s, k + 1).clients == StopFirst(s, k).clients
  {
    var id := s.slots.value[k];
    assert forall o {:trigger InSlot(s, o)} :: InSlot(s, o) && s.servers[o].ft == k ==> o == id;
    forall c | c in s.clients ensures s.clients[c] != id {
      assert s.servers[s.clients[c]].client == Some(c);
    }
  }

  class Plugin {
    var servers: map<Id, Server>
    var next: Id
    var slots: Option<seq<Id>>
    var shutdown: set<Id>
    var delayed: set<Id>
    var clients: map<Client, Id>
    var nextClient: Client
    var initializing: set<Client>
    var ordinary: multiset<Client>
    var spawned: seq<nat>

    ghost function Now(): State
      reads this
    {
      State(servers, next, slots, shutdown, delayed, clients, nextClient, initializing, ordinary, spawned)
    }

    constructor ()
      ensures Now() == START && Inv(Now())
    {
      servers, next, slots, shutdown, delayed := map[], 0, None, {}, {};
      clients, nextClient, initializing, ordinary, spawned := map[], 0, {}, multiset{}, [];
    }

    method FreeServer(id: Id)
      requires id in servers
      modifies this
      ensures Now() == Free(old(Now()), id)
      ensures id !in servers
      ensures old(Linked(Now())) ==> forall c :: c in clients ==> c in old(clients) && clients[c] != id
    {
      if servers[id].client.Some? {
        clients := clients - {servers[id].client.value};
      }
      servers := servers - {id};
    }

    method StartLspServer(id: Id, pid: nat)
      requires id in servers && servers[id].ft < |spawned|
      modifies this
      ensures Now() == Start(old(Now()), id, pid)
    {
      if pid == 0 {
        servers := servers[id := servers[id].(restarts := GIVEN_UP)];
        return;
      }
      var ft := servers[id].ft;
      spawned := spawned[ft := spawned[ft] + 1];
      // lsp_rpc_new and perform_initialize
      clients := clients[nextClient := id];
      initializing := initializing + {nextClient};
      servers := servers[id := servers[id].(pid := pid, client := Some(nextClient), starting := true)];
      nextClient := nextClient + 1;
    }

    method LspServerInit(ft: nat, restarts: nat) returns (id: Id)
      modifies this`servers, this`next
      ensures id == old(next) && next == old(next) + 1 && servers == old(servers)[id := NewServer(ft, restarts)]
    {
      id := next;
      next := next + 1;
      servers := servers[id := NewServer(ft, restarts)];
    }

    /** The crash branch of process_stopped */
    method RestartAfterCrash(ft: nat, restarts: nat, pid: nat)
      requires slots.Some? && ft < |slots.value| == |spawned|
      modifies this
      ensures
        var replaced := Replace(old(Now()), ft, restarts);
        Now() == if restarts >= MAX_RESTARTS then replaced else Start(replaced, old(next), pid)
    {
      var id := LspServerInit(ft, restarts);
      slots := Some(slots.value[ft := id]);
      if !IsDead(servers[id]) {
        StartLspServer(id, pid);
      }
    }

    /** process_stopped */
    method ProcessHasStopped(id: Id, pid: nat)
      requires Inv(Now()) && id in servers && servers[id].pid != 0
      modifies this
      ensures old(slots.Some? ==> |spawned| == |slots.value| && (id !in shutdown ==> servers[id].ft < |spawned|))
      ensures Now() == Stopped(old(Now()), id, pid)
      ensures Inv(Now())
    {
      StoppedKeeps(Now(), id, pid);
      TakeStopped(id, pid);
    }

    method TakeStopped(id: Id, pid: nat)
      requires id in servers
      requires slots.Some? ==> |spawned| == |slots.value| && (id !in shutdown ==> servers[id].ft < |spawned|)
      modifies this
      ensures Now() == Stopped(old(Now()), id, pid)
    {
      var ft, restarts := servers[id].ft, servers[id].restarts;
      servers := servers[id := servers[id].(pid := 0)];
      if id in shutdown {
        shutdown := shutdown - {id};
        FreeServer(id);
      } else {
        delayed := delayed + {id};
        if slots.Some? {
          RestartAfterCrash(ft, restarts + 1, pid);
        }
      }
    }

    method StopAndFreeServer(id: Id)
      requires id in servers
      modifies this
      ensures Now() == StopOne(old(Now()), id)
    {
      if servers[id].pid == 0 {
        FreeServer(id);
        return;
      }
      if id in shutdown {
        return;
      }
      servers := servers[id := servers[id].(starting := true)];
      shutdown := shutdown + {id};
    }

    /** lsp_server_stop_all */
    method StopAllServers()
      requires Inv(Now())
      modifies this
      ensures Now() == StopAll(old(Now())) && Inv(Now())
    {
      ghost var s := Now();
      StopAllKeeps(s);
      if slots.None? {
        return;
      }
      var table := slots.value;
      slots := None;
      FreeTable(table, s);
    }

    /** The destructor of the table: `s` is the state before the table was taken away. */
    method FreeTable(table: seq<Id>, ghost s: State)
      requires Slotted(s) && Linked(s) && s.slots == Some(table) && Now() == s.(slots := None)
      modifies this
      ensures Now() == StopFirst(s, |table|).(slots := None)
    {
      StopFirstNone(s);
      for i := 0 to |table|
        invariant Now() == StopFirst(s, i).(slots := None)
      {
        StopOneMore(s, i);
        StopAndFreeServer(table[i]);
      }
    }

    /** lsp_server_init_all */
    method InitAllServers(n: nat)
      requires Inv(Now())
      modifies this
      ensures Now() == InitAll(old(Now()), n) && Inv(Now())
    {
      InitAllKeeps(Now(), n);
      StopAllServers();
      var table := MakeServers(n);
      slots := Some(table);
      spawned := seq(n, i => 0);
    }

    method MakeServers(n: nat) returns (table: seq<Id>)
      modifies this`servers, this`next
      ensures servers == WithNewServers(old(servers), old(next), n) && next == old(next) + n
      ensures table == seq(n, i => old(next) + i)
    {
      table := [];
      for ft := 0 to n
        invariant servers == WithNewServers(old(servers), old(next), ft) && next == old(next) + ft
        invariant table == seq(ft, i => old(next) + i)
      {
        var id := LspServerInit(ft, 0);
        table := table + [id];
      }
    }

    /** server_get_or_start_for_ft */
    method GetOrStartForFt(ft: nat, launch: bool, command: bool, pid: nat) returns (srv: Option<Id>)
      requires Inv(Now())
      modifies this
      ensures old(slots.Some? && ft < |slots.value| ==> slots.value[ft] in servers && servers[slots.value[ft]].ft == ft)
      ensures (Now(), srv) == GetOrStart(old(Now()), ft, launch, command, pid)
      ensures Inv(Now())
      ensures forall id :: srv == Some(id) <==>
        old(slots.Some? && ft < |slots.value| && slots.value[ft] == id && id in servers && servers[id].pid != 0 && !servers[id].starting)
    {
      GetOrStartKeeps(Now(), ft, launch, command, pid);
      ReturnedRuns(Now(), ft, launch, command, pid);
      if slots.None? || ft >= |slots.value| {
        return None;
      }
      var id := slots.value[ft];
      var s := servers[id];
      if s.starting {
        return None;
      }
      if s.pid != 0 {
        return Some(id);
      }
      if s.notUsed || IsDead(s) || !launch {
        return None;
      }
      if !command {
        servers := servers[id := s.(notUsed := true)];
      } else {
        StartLspServer(id, pid);
      }
      srv := None;
    }

    /** call_cb for an ordinary request */
    method CallCb(c: Client) returns (runs: bool)
      requires Inv(Now()) && ordinary[c] > 0
      modifies this
      ensures old(c in clients ==> clients[c] in servers)
      ensures runs == CallbackRuns(old(Now()), c)
      ensures Now() == Responded(old(Now()), c) && Inv(Now())
    {
      RespondedKeeps(Now(), c);
      var isStartupShutdown := true;
      if c in clients {
        isStartupShutdown := servers[clients[c]].starting;
      }
      runs := !isStartupShutdown;
      ordinary := ordinary - multiset{c};
    }

    /** initialize_cb, as far as it changes the state */
    method InitializeCb(c: Client, success: bool)
      requires Inv(Now()) && c in initializing
      modifies this
      ensures old(c in clients ==> clients[c] in servers)
      ensures Now() == Initialized(old(Now()), c, success) && Inv(Now())
    {
      InitializedKeeps(Now(), c, success);
      initializing := initializing - {c};
      if success && c in clients {
        servers := servers[clients[c] := servers[clients[c]].(starting := false)];
      }
    }

    /** free_server_after_delay */
    method FreeServerAfterDelay(id: Id)
      requires Inv(Now()) && id in delayed
      modifies this
      ensures old(id in servers)
      ensures Now() == DelayOver(old(Now()), id) && Inv(Now())
    {
      DelayOverKeeps(Now(), id);
      delayed := delayed - {id};
      FreeServer(id);
    }
  }
}
