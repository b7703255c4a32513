/** `MCSupervisor`: the registry of server instances in insertion order, the
    deferred handler lists and their distribution when the supervisor
    starts, the supervisor's own bus and console output, `broadcast`, the
    two start-up barriers and `stop`. */
module Supervisor {
  import opened Wrappers
  import opened Errors
  import opened Text
  import opened Paths
  import opened Events
  import opened EventArgs
  import opened EventBus
  import opened Loader
  import opened Server
  import Logger
  import Regex

  /** `servers` and `_server_buses` are dicts: `ids` is their shared key
      order. `serverHandlers` and `selfHandlers` hold the registrations the
      makers deferred; `aware` the supervisor's aware tasks. */
  datatype Supervisor = Supervisor(
    ids: seq<string>, servers: map<string, Instance>, buses: map<string, Bus>,
    serverHandlers: seq<Handler>, selfHandlers: seq<Handler>, selfBus: Bus,
    aware: set<TaskId>)

  /** The key order lists each server once and both dicts have the same
      keys, each bus being valid. */
  ghost predicate Registry(ids: seq<string>, servers: map<string, Instance>, buses: map<string, Bus>) {
    (forall i, j :: 0 <= i < j < |ids| ==> ids[i] != ids[j])
    && (forall id :: id in servers <==> id in ids)
    && buses.Keys == servers.Keys
    && (forall id :: id in buses ==> EventBus.Valid(buses[id]))
  }

  ghost predicate Consistent(s: Supervisor) {
    Registry(s.ids, s.servers, s.buses) && EventBus.Valid(s.selfBus)
  }

  /** Changing servers in place keeps the registry. */
  lemma SameKeysRegistry(ids: seq<string>, servers: map<string, Instance>, servers': map<string, Instance>,
                         buses: map<string, Bus>)
    requires Registry(ids, servers, buses) && servers'.Keys == servers.Keys
    ensures Registry(ids, servers', buses)
  {
    assert forall id :: id in servers' <==> id in servers;
  }

  /** Replacing every bus by a valid one under the same key keeps the registry. */
  lemma SameKeysBuses(ids: seq<string>, servers: map<string, Instance>, buses: map<string, Bus>,
                      buses': map<string, Bus>)
    requires Registry(ids, servers, buses) && buses'.Keys == buses.Keys
    requires forall id :: id in buses' ==> EventBus.Valid(buses'[id])
    ensures Registry(ids, servers, buses')
  {
  }

  /** Storing an instance and a new bus under `id` keeps the registry; a new
      id goes to the end of the key order. */
  lemma PutKeepsRegistry(ids: seq<string>, servers: map<string, Instance>, buses: map<string, Bus>,
                         id: string, inst: Instance)
    requires Registry(ids, servers, buses)
    ensures Registry(if id in servers then ids else ids + [id], servers[id := inst], buses[id := EmptyBus])
  {
    var ids' := if id in servers then ids else ids + [id];
    assert forall x :: x in ids' <==> x in ids || x == id;
  }

  /** `MCSupervisor.__init__`: no servers, no deferred handlers. */
  const Initial: Supervisor := Supervisor([], map[], map[], [], [], EmptyBus, {})

  lemma InitialConsistent()
    ensures Consistent(Initial) && Initial.ids == []
  {
  }

  /** The console prefix of the supervisor's logger. */
  const Prefix: string := "MCSR"

  // ---------------------------------------------------------------------
  // Server registry

  /** `add_server`: builds the loader, then the instance (either may raise,
      leaving the supervisor as it was), and stores the instance and its new,
      empty bus under `id`. Re-using an id replaces the instance and its bus
      but keeps the id's place in the key order. */
  function AddServer(s: Supervisor, id: string, java: string, jar: string, args: ArgList, noGui: bool,
                     workPath: Option<string>, world: string): (r: Result<Supervisor, Error>)
    requires Consistent(s)
    ensures r.Failure? <==> !IsAbs(jar) || (workPath.Some? && workPath.value != "" && !IsAbs(workPath.value))
    ensures r.Failure? ==> r.error == (if !IsAbs(jar) then RelativeJarPath else RelativeWorkPath)
    ensures r.Success? ==> Consistent(r.value)
    ensures r.Success? ==> r.value.ids == (if id in s.servers then s.ids else s.ids + [id])
    ensures r.Success? ==>
              id in r.value.servers
              && r.value.servers == s.servers[id := r.value.servers[id]]
              && r.value.buses == s.buses[id := EmptyBus]
    ensures r.Success? ==>
              var inst := r.value.servers[id];
              inst.id == id && inst.worldName == world && inst.loader.jarPath == jar
              && inst.stopped && !inst.running && !inst.loaded && inst.stdin.None?
    ensures r.Success? ==>
              r.value.serverHandlers == s.serverHandlers && r.value.selfHandlers == s.selfHandlers
              && r.value.selfBus == s.selfBus && r.value.aware == s.aware
  {
    match NewLoader(java, jar, args, noGui, workPath)
    case Failure(e) => Failure(e)
    case Success(loader) =>
      DirNameOfAbsIsAbs(jar);
      match NewInstance(id, loader, world)
      case Failure(e) => Failure(e)
      case Success(inst) =>
        Success(Store(s, id, inst))
  }

  /** Stores `inst` and a new, empty bus under `id`, appending a new id to
      the key order. */
  function Store(s: Supervisor, id: string, inst: Instance): (r: Supervisor)
    requires Consistent(s)
    ensures Consistent(r)
    ensures r.ids == (if id in s.servers then s.ids else s.ids + [id])
    ensures r.servers == s.servers[id := inst] && r.buses == s.buses[id := EmptyBus]
    ensures r.serverHandlers == s.serverHandlers && r.selfHandlers == s.selfHandlers
            && r.selfBus == s.selfBus && r.aware == s.aware
  {
    PutKeepsRegistry(s.ids, s.servers, s.buses, id, inst);
    var ids := if id in s.servers then s.ids else s.ids + [id];
    s.(ids := ids, servers := s.servers[id := inst], buses := s.buses[id := EmptyBus])
  }

  /** `server_ids`: every server id once, in insertion order. */
  function ServerIds(s: Supervisor): (r: seq<string>)
    requires Consistent(s)
    ensures forall id :: id in r <==> id in s.servers
    ensures forall i, j :: 0 <= i < j < |r| ==> r[i] != r[j]
  {
    s.ids
  }

  /** The ids are listed in insertion order: adding a new id appends it,
      re-adding a known one leaves the order as it was. */
  lemma ServerIdsInsertionOrder(s: Supervisor, id: string, java: string, jar: string, args: ArgList,
                                noGui: bool, workPath: Option<string>, world: string)
    requires Consistent(s) && IsAbs(jar) && (workPath.Some? && workPath.value != "" ==> IsAbs(workPath.value))
    ensures AddServer(s, id, java, jar, args, noGui, workPath, world).Success?
    ensures ServerIds(AddServer(s, id, java, jar, args, noGui, workPath, world).value)
            == ServerIds(s) + (if id in s.servers then [] else [id])
  {
  }

  /** `get_server(id)`: `None` for an unknown id. */
  function GetServer(s: Supervisor, id: string): (r: Option<Instance>)
    ensures r.None? <==> id !in s.servers
    ensures r.Some? ==> r.value == s.servers[id]
  {
    if id in s.servers then Some(s.servers[id]) else None
  }

  /** `default_sever()`: a maker bound to the first server id; with no
      server the list index raises. */
  function DefaultServerMaker(s: Supervisor): (r: Result<string, Error>)
    requires Consistent(s)
    ensures r.Failure? <==> s.ids == []
    ensures r.Failure? ==> r.error == NoServers
    ensures r.Success? ==> r.value in s.servers && r.value == s.ids[0]
  {
    if |s.ids| == 0 then Failure(NoServers)
    else
      assert s.ids[0] in s.ids;
      Success(s.ids[0])
  }

  // ---------------------------------------------------------------------
  // Registration

  /** `server(makerId).register(event, aware)(cb)`: the handler is only
      recorded; no bus changes until the supervisor starts. */
  function DeferServer(s: Supervisor, makerId: Option<string>, spec: EventSpec, callback: nat,
                       aware: bool): (r: Supervisor)
    ensures r.serverHandlers == s.serverHandlers + [Handler(Instantiate(spec), makerId, callback, aware)]
    ensures r.(serverHandlers := s.serverHandlers) == s
  {
    s.(serverHandlers := DeferServerHandler(s.serverHandlers, makerId, spec, callback, aware))
  }

  /** `register(event, aware)(cb)`: deferred like a server handler. */
  function DeferSelf(s: Supervisor, spec: EventSpec, callback: nat, aware: bool): (r: Supervisor)
    ensures r.selfHandlers == s.selfHandlers + [Handler(Instantiate(spec), None, callback, aware)]
    ensures r.(selfHandlers := s.selfHandlers) == s
  {
    s.(selfHandlers := DeferSupervisorHandler(s.selfHandlers, spec, callback, aware))
  }

  /** `on(event, func, aware)`: registers on the supervisor's bus at once. */
  function OnSelf(s: Supervisor, spec: EventSpec, callback: nat, aware: bool): (r: Supervisor)
    requires Consistent(s)
    ensures Consistent(r)
    ensures forall kind :: HandlersOf(r.selfBus, kind)
              == HandlersOf(s.selfBus, kind)
                 + (if Instantiate(spec).kind == kind then [Handler(Instantiate(spec), None, callback, aware)] else [])
    ensures r.(selfBus := s.selfBus) == s
  {
    var h := Handler(Instantiate(spec), None, callback, aware);
    forall kind ensures HandlersOf(Register(s.selfBus, h), kind)
                        == HandlersOf(s.selfBus, kind) + (if h.event.kind == kind then [h] else []) {
      RegisterHandlersOf(s.selfBus, h, kind);
    }
    s.(selfBus := Register(s.selfBus, h))
  }

  // ---------------------------------------------------------------------
  // Console output and the stdin forwarder

  /** Swapping in another valid supervisor bus keeps the supervisor consistent. */
  lemma WithSelfBus(s: Supervisor, b: Bus)
    requires Consistent(s) && EventBus.Valid(b)
    ensures Consistent(s.(selfBus := b))
  {
  }

  /** What one `stdout`/`stderr` call produces: the logged line, the handler
      coroutines scheduled on the supervisor's bus (in order) and the futures
      resolved. */
  datatype Echoed = Echoed(sup: Supervisor, line: string, invocations: seq<Invocation>,
                           resolved: seq<FutureId>)

  /** `stdout(msg, prefix)` (`isErr` false) and `stderr(msg, prefix)`: log the
      line, then emit `MCSR_Stdout` (or `MCSR_Stderr`) and then `MCSR_Output`,
      each with a new args object holding `output=msg`. */
  function Echo(s: Supervisor, msg: string, custom: Option<string>, isErr: bool): (r: Echoed)
    requires Consistent(s)
    ensures Consistent(r.sup) && r.sup.(selfBus := s.selfBus) == s
    ensures r.line == Logger.Log(Prefix, msg, custom)
    ensures var k := if isErr then McsrStderr else McsrStdout;
            var a := map["output" := Text(msg)];
            r.invocations == Schedule(HandlersOf(s.selfBus, k), a) + Schedule(HandlersOf(s.selfBus, McsrOutput), a)
            && r.resolved == PendingOf(s.selfBus, k) + PendingOf(s.selfBus, McsrOutput)
            && PendingOf(r.sup.selfBus, k) == [] && PendingOf(r.sup.selfBus, McsrOutput) == []
  {
    var k := if isErr then McsrStderr else McsrStdout;
    var e := EmitBoth(s.selfBus, k, McsrOutput, map["output" := Text(msg)]);
    WithSelfBus(s, e.bus);
    Echoed(s.(selfBus := e.bus), Logger.Log(Prefix, msg, custom), e.invocations, e.resolved)
  }

  /** `_forward_stdin`, one console line: the trailing newlines are cut and
      `MCSR_Stdin` is emitted with `output=` the rest. */
  function ForwardLine(s: Supervisor, raw: string): (r: (Supervisor, Emitted))
    requires Consistent(s)
    ensures Consistent(r.0) && r.0.(selfBus := s.selfBus) == s && r.0.selfBus == r.1.bus
    ensures |r.1.invocations| == |HandlersOf(s.selfBus, McsrStdin)|
    ensures forall i :: 0 <= i < |r.1.invocations| ==>
              r.1.invocations[i].handler == HandlersOf(s.selfBus, McsrStdin)[i]
              && r.1.invocations[i].args == map["output" := Text(TrimRight(raw, '\n'))]
  {
    var e := Emit(s.selfBus, McsrStdin, Some(map["output" := Text(TrimRight(raw, '\n'))]));
    (s.(selfBus := e.bus), e)
  }

  // ---------------------------------------------------------------------
  // broadcast

  /** Sends `msg` to the servers named by `order`, in order, leaving out
      `skip`. The first send that raises ends the loop; the sends before it
      have happened. */
  function SendAll(servers: map<string, Instance>, order: seq<string>, skip: Option<string>,
                   msg: string): (r: (map<string, Instance>, Option<Error>))
    requires forall i :: 0 <= i < |order| ==> order[i] in servers
    ensures r.0.Keys == servers.Keys
    ensures r.1.Some? ==> r.1.value == NotLaunched
    decreases |order|
  {
    if |order| == 0 then (servers, None)
    else if skip == Some(order[0]) then SendAll(servers, order[1..], skip, msg)
    else
      match Send(servers[order[0]], msg)
      case Failure(e) => (servers, Some(e))
      case Success(i) => SendAll(servers[order[0] := i], order[1..], skip, msg)
  }

  /** Whether `broadcast` writes to server `id`. */
  predicate Addressed(order: seq<string>, skip: Option<string>, id: string) {
    id in order && skip != Some(id)
  }

  /** The server after one write of `msg`. */
  function Written(inst: Instance, msg: string): Instance
    requires inst.stdin.Some?
  {
    inst.(stdin := Some(inst.stdin.value + [msg + "\n"]))
  }

  /** `SendAll` against a reference: it fails exactly when some addressed
      server was never launched; otherwise every addressed server received
      one line and every other server is unchanged. */
  lemma {:induction false} SendAllReference(servers: map<string, Instance>, order: seq<string>,
                                            skip: Option<string>, msg: string)
    requires forall i :: 0 <= i < |order| ==> order[i] in servers
    requires forall i, j :: 0 <= i < j < |order| ==> order[i] != order[j]
    ensures var r := SendAll(servers, order, skip, msg);
            r.1.None? <==> forall id :: Addressed(order, skip, id) ==> servers[id].stdin.Some?
    ensures var r := SendAll(servers, order, skip, msg);
            r.1.None? ==>
              forall id :: id in servers ==>
                r.0[id] == if Addressed(order, skip, id) then Written(servers[id], msg) else servers[id]
    decreases |order|
  {
    if |order| > 0 {
      var id0 := order[0];
      var rest := order[1..];
      assert forall id :: Addressed(order, skip, id) <==> (id == id0 && skip != Some(id0)) || Addressed(rest, skip, id);
      assert id0 !in rest;
      if skip == Some(id0) {
        SendAllReference(servers, rest, skip, msg);
      } else if servers[id0].stdin.Some? {
        var next := servers[id0 := Written(servers[id0], msg)];
        SendAllReference(next, rest, skip, msg);
        assert forall id :: Addressed(rest, skip, id) ==> next[id].stdin == servers[id].stdin;
      } else {
        assert Addressed(order, skip, id0);
      }
    }
  }

  /** The index in `order` of the first addressed server that was never
      launched: where the loop raises. */
  function FirstUnlaunched(servers: map<string, Instance>, order: seq<string>, skip: Option<string>): (k: Option<nat>)
    requires forall i :: 0 <= i < |order| ==> order[i] in servers
    ensures k.Some? ==> k.value < |order| && skip != Some(order[k.value]) && servers[order[k.value]].stdin.None?
    ensures forall j :: 0 <= j < |order| && (k.Some? ==> j < k.value) && skip != Some(order[j])
                        ==> servers[order[j]].stdin.Some?
    decreases |order|
  {
    if |order| == 0 then None
    else if skip != Some(order[0]) && servers[order[0]].stdin.None? then Some(0)
    else match FirstUnlaunched(servers, order[1..], skip)
      case None => None
      case Some(k) => Some(k + 1)
  }

  /** The part of `order` the loop gets through before raising, if it raises. */
  function Reached(order: seq<string>, k: Option<nat>): seq<string> {
    if k.Some? && k.value <= |order| then order[..k.value] else order
  }

  /** The same prefix, computed along the loop. */
  function Reach(servers: map<string, Instance>, order: seq<string>, skip: Option<string>): (r: seq<string>)
    requires forall i :: 0 <= i < |order| ==> order[i] in servers
    ensures r <= order
    decreases |order|
  {
    if |order| == 0 then []
    else if skip != Some(order[0]) && servers[order[0]].stdin.None? then []
    else [order[0]] + Reach(servers, order[1..], skip)
  }

  lemma {:induction false} ReachIsPrefix(servers: map<string, Instance>, order: seq<string>, skip: Option<string>)
    requires forall i :: 0 <= i < |order| ==> order[i] in servers
    ensures Reach(servers, order, skip) == Reached(order, FirstUnlaunched(servers, order, skip))
    decreases |order|
  {
    if |order| > 0 && !(skip != Some(order[0]) && servers[order[0]].stdin.None?) {
      ReachIsPrefix(servers, order[1..], skip);
      var k' := FirstUnlaunched(servers, order[1..], skip);
      if k'.Some? {
        assert order[..k'.value + 1] == [order[0]] + order[1..][..k'.value];
      } else {
        assert order == [order[0]] + order[1..];
      }
    }
  }

  /** Only which servers are launched decides where the loop raises. */
  lemma {:induction false} ReachLaunchedOnly(servers: map<string, Instance>, servers': map<string, Instance>,
                                             order: seq<string>, skip: Option<string>)
    requires forall i :: 0 <= i < |order| ==> order[i] in servers && order[i] in servers'
    requires forall i :: 0 <= i < |order| ==> servers[order[i]].stdin.Some? == servers'[order[i]].stdin.Some?
    ensures Reach(servers, order, skip) == Reach(servers', order, skip)
    ensures FirstUnlaunched(servers, order, skip).Some? == FirstUnlaunched(servers', order, skip).Some?
    decreases |order|
  {
    if |order| > 0 {
      ReachLaunchedOnly(servers, servers', order[1..], skip);
    }
  }

  /** `SendAll` raises exactly when some addressed server in `order` was
      never launched. */
  lemma {:induction false} SendAllRaises(servers: map<string, Instance>, order: seq<string>,
                                         skip: Option<string>, msg: string)
    requires forall i :: 0 <= i < |order| ==> order[i] in servers
    ensures SendAll(servers, order, skip, msg).1.Some? <==> FirstUnlaunched(servers, order, skip).Some?
    decreases |order|
  {
    if |order| > 0 {
      if skip == Some(order[0]) {
        SendAllRaises(servers, order[1..], skip, msg);
      } else if servers[order[0]].stdin.Some? {
        var next := servers[order[0] := Written(servers[order[0]], msg)];
        SendAllRaises(next, order[1..], skip, msg);
        ReachLaunchedOnly(servers, next, order[1..], skip);
      }
    }
  }

  /** What `SendAll` leaves at one server, failure included: a server the
      loop got through before the first unlaunched addressed one received
      one line, and every other server is untouched. */
  lemma {:induction false} SendAllAt(servers: map<string, Instance>, order: seq<string>,
                                     skip: Option<string>, msg: string, id: string)
    requires forall i :: 0 <= i < |order| ==> order[i] in servers
    requires forall i, j :: 0 <= i < j < |order| ==> order[i] != order[j]
    requires id in servers
    ensures SendAll(servers, order, skip, msg).0[id]
            == if Addressed(Reach(servers, order, skip), skip, id) && servers[id].stdin.Some?
               then Written(servers[id], msg) else servers[id]
    decreases |order|
  {
    if |order| > 0 {
      var id0 := order[0];
      var rest := order[1..];
      if skip == Some(id0) {
        SendAllAt(servers, rest, skip, msg, id);
      } else if servers[id0].stdin.Some? {
        var next := servers[id0 := Written(servers[id0], msg)];
        assert id0 !in rest;
        SendAllAt(next, rest, skip, msg, id);
        ReachLaunchedOnly(servers, next, rest, skip);
        assert Reach(servers, order, skip) == [id0] + Reach(servers, rest, skip);
        if id == id0 {
          assert id0 !in Reach(servers, rest, skip);
        }
      }
    }
  }

  /** What `SendAll` leaves behind, failure included, against the first
      unlaunched addressed server `k` in `order`: it raises exactly when
      there is one; the addressed servers before `k` received one line, and
      every other server, `k`'s own and those after it included, is
      untouched. */
  lemma SendAllStops(servers: map<string, Instance>, order: seq<string>, skip: Option<string>, msg: string)
    requires forall i :: 0 <= i < |order| ==> order[i] in servers
    requires forall i, j :: 0 <= i < j < |order| ==> order[i] != order[j]
    ensures var r := SendAll(servers, order, skip, msg);
            var k := FirstUnlaunched(servers, order, skip);
            (r.1.Some? <==> k.Some?)
            && forall id :: id in servers ==>
                 r.0[id] == if Addressed(Reached(order, k), skip, id) && servers[id].stdin.Some?
                            then Written(servers[id], msg) else servers[id]
  {
    SendAllRaises(servers, order, skip, msg);
    ReachIsPrefix(servers, order, skip);
    forall id | id in servers
      ensures SendAll(servers, order, skip, msg).0[id]
              == if Addressed(Reach(servers, order, skip), skip, id) && servers[id].stdin.Some?
                 then Written(servers[id], msg) else servers[id]
    {
      SendAllAt(servers, order, skip, msg, id);
    }
  }

  /** `broadcast(msg, exclude_self)` as written: every iteration first reads
      the id of the ambient current server, even when `exclude_self` is
      false, so outside a server handler (`current` unbound) the call raises
      before any write whenever a server exists. */
  function BroadcastAsWritten(s: Supervisor, current: Option<string>, msg: string,
                              excludeSelf: bool): (r: (Supervisor, Option<Error>))
    requires Consistent(s)
    ensures current.None? && s.ids != [] ==> r == (s, Some(NoCurrentServer))
    ensures current.Some? || s.ids == [] ==> r == Broadcast(s, current, msg, excludeSelf)
  {
    if current.None? && |s.ids| > 0 then (s, Some(NoCurrentServer))
    else Broadcast(s, current, msg, excludeSelf)
  }

  /** `broadcast(msg, exclude_self)` as intended: the current server is only
      consulted when it is to be excluded. */
  function Broadcast(s: Supervisor, current: Option<string>, msg: string, excludeSelf: bool): (r: (Supervisor, Option<Error>))
    requires Consistent(s)
    ensures Consistent(r.0) && r.0.(servers := s.servers) == s
    ensures var skip := if excludeSelf then current else None;
            r.1.None? <==> forall id :: Addressed(s.ids, skip, id) ==> s.servers[id].stdin.Some?
    ensures var skip := if excludeSelf then current else None;
            r.1.None? ==>
              forall id :: id in s.servers ==>
                r.0.servers[id] == if Addressed(s.ids, skip, id) then Written(s.servers[id], msg) else s.servers[id]
    ensures r.1.Some? ==> r.1.value == NotLaunched
    ensures var skip := if excludeSelf then current else None;
            var k := FirstUnlaunched(s.servers, s.ids, skip);
            (r.1.Some? <==> k.Some?)
            && forall id :: id in s.servers ==>
                 r.0.servers[id] == if Addressed(Reached(s.ids, k), skip, id) && s.servers[id].stdin.Some?
                                    then Written(s.servers[id], msg) else s.servers[id]
  {
    var skip := if excludeSelf then current else None;
    SendAllReference(s.servers, s.ids, skip, msg);
    SendAllStops(s.servers, s.ids, skip, msg);
    var (servers, err) := SendAll(s.servers, s.ids, skip, msg);
    SameKeysRegistry(s.ids, s.servers, servers, s.buses);
    (s.(servers := servers), err)
  }

  /** The discrepancy: from a supervisor handler, `broadcast("hi")` to one
      launched server raises as written, yet the intended call writes. */
  lemma BroadcastOutsideServerHandler()
    ensures var loader := ServerLoader("java", "/s.jar", ArgString(""), true, "/", "", []);
            var inst := Instance("a", loader, "/", "world", true, false, false, [], [], false, None, Some([]), {});
            var s := Initial.(ids := ["a"], servers := map["a" := inst], buses := map["a" := EmptyBus]);
            Consistent(s)
            && BroadcastAsWritten(s, None, "hi", false).1 == Some(NoCurrentServer)
            && Broadcast(s, None, "hi", false).1.None?
            && Broadcast(s, None, "hi", false).0.servers["a"].stdin == Some(["hi" + "\n"])
  {
    var loader := ServerLoader("java", "/s.jar", ArgString(""), true, "/", "", []);
    var inst := Instance("a", loader, "/", "world", true, false, false, [], [], false, None, Some([]), {});
    var s := Initial.(ids := ["a"], servers := map["a" := inst], buses := map["a" := EmptyBus]);
    assert Addressed(s.ids, None, "a");
    assert forall x :: x in s.servers <==> x in s.ids;
    assert Consistent(s);
    assert forall id :: Addressed(s.ids, None, id) ==> id == "a";
    assert Broadcast(s, None, "hi", false).1.None?;
    assert Broadcast(s, None, "hi", false).0.servers["a"] == Written(inst, "hi");
    assert [] + ["hi" + "\n"] == ["hi" + "\n"];
  }

  // ---------------------------------------------------------------------
  // Start: distributing the deferred handlers

  /** The deferred server handlers that target `id`: those bound to it and
      those bound to no server, in order. */
  function Aimed(hs: seq<Handler>, id: string): seq<Handler>
    decreases |hs|
  {
    if |hs| == 0 then []
    else (if hs[0].serverId.None? || hs[0].serverId == Some(id) then [hs[0]] else []) + Aimed(hs[1..], id)
  }

  /** The first server id a deferred handler names that is not known. */
  function FirstStray(hs: seq<Handler>, known: set<string>): (r: Option<string>)
    ensures r.Some? ==> r.value !in known && exists i :: 0 <= i < |hs| && hs[i].serverId == Some(r.value)
    ensures r.Some? ==>
              exists i :: 0 <= i < |hs| && hs[i].serverId == Some(r.value)
                && forall j :: 0 <= j < i ==> hs[j].serverId.None? || hs[j].serverId.value in known
    ensures r.None? ==> forall i :: 0 <= i < |hs| && hs[i].serverId.Some? ==> hs[i].serverId.value in known
    decreases |hs|
  {
    if |hs| == 0 then None
    else if hs[0].serverId.Some? && hs[0].serverId.value !in known then hs[0].serverId
    else
      var r := FirstStray(hs[1..], known);
      if r.Some? then assert hs[1..][0] == hs[1]; r else r
  }

  /** One deferred handler: bound to no server it goes to every bus, bound
      to a known server to that server's bus only. */
  function RegisterEach(buses: map<string, Bus>, h: Handler): (r: map<string, Bus>)
    requires h.serverId.Some? ==> h.serverId.value in buses
    ensures r.Keys == buses.Keys
    ensures forall id :: id in buses ==>
              r[id] == if h.serverId.None? || h.serverId == Some(id) then Register(buses[id], h) else buses[id]
  {
    if h.serverId.None? then map id | id in buses :: Register(buses[id], h)
    else buses[h.serverId.value := Register(buses[h.serverId.value], h)]
  }

  /** The loop over the deferred server handlers; an unknown id raises and
      ends the start. */
  function DistributeAll(buses: map<string, Bus>, hs: seq<Handler>): (r: Result<map<string, Bus>, Error>)
    ensures r.Success? ==> r.value.Keys == buses.Keys
    ensures r.Failure? ==> r.error.UnknownServerId? && r.error.id !in buses
    decreases |hs|
  {
    if |hs| == 0 then Success(buses)
    else if hs[0].serverId.Some? && hs[0].serverId.value !in buses then Failure(UnknownServerId(hs[0].serverId.value))
    else DistributeAll(RegisterEach(buses, hs[0]), hs[1..])
  }

  lemma RegisterAllCons(b: Bus, h: Handler, rest: seq<Handler>)
    ensures RegisterAll(b, [h] + rest) == RegisterAll(Register(b, h), rest)
  {
    var a := [h] + rest;
    assert a[0] == h && a[1..] == rest;
  }

  /** The distribution fails exactly on the first unknown id. */
  lemma {:induction false} DistributeFails(buses: map<string, Bus>, hs: seq<Handler>)
    ensures DistributeAll(buses, hs).Failure? <==> FirstStray(hs, buses.Keys).Some?
    ensures DistributeAll(buses, hs).Failure? ==>
              DistributeAll(buses, hs).error == UnknownServerId(FirstStray(hs, buses.Keys).value)
    decreases |hs|
  {
    if |hs| > 0 && !(hs[0].serverId.Some? && hs[0].serverId.value !in buses) {
      var next := RegisterEach(buses, hs[0]);
      DistributeFails(next, hs[1..]);
    }
  }

  /** A successful distribution leaves each bus as if the handlers aimed at
      it had been registered on it alone, in order. */
  lemma {:induction false} DistributeReference(buses: map<string, Bus>, hs: seq<Handler>, r: map<string, Bus>)
    requires DistributeAll(buses, hs) == Success(r)
    ensures r.Keys == buses.Keys && forall id :: id in buses ==> r[id] == RegisterAll(buses[id], Aimed(hs, id))
    decreases |hs|
  {
    if |hs| > 0 {
      var next := RegisterEach(buses, hs[0]);
      assert DistributeAll(next, hs[1..]) == Success(r);
      DistributeReference(next, hs[1..], r);
      forall id | id in buses
        ensures r[id] == RegisterAll(buses[id], Aimed(hs, id))
      {
        assert id in next;
        assert r[id] == RegisterAll(next[id], Aimed(hs[1..], id));
        if hs[0].serverId.None? || hs[0].serverId == Some(id) {
          assert Aimed(hs, id) == [hs[0]] + Aimed(hs[1..], id);
          RegisterAllCons(buses[id], hs[0], Aimed(hs[1..], id));
        } else {
          assert Aimed(hs, id) == [] + Aimed(hs[1..], id);
          assert [] + Aimed(hs[1..], id) == Aimed(hs[1..], id);
        }
      }
    }
  }

  /** The start of `_run` up to `MCSR_ExtsLoaded`. */
  datatype Started = Started(sup: Supervisor, extsLoaded: Emitted)

  /** `_run` until the servers are launched: the deferred supervisor handlers
      are registered on the supervisor's bus, the deferred server handlers
      distributed, and `MCSR_ExtsLoaded` emitted. */
  function Start(s: Supervisor): (r: Result<Started, Error>)
    requires Consistent(s)
    ensures r.Failure? <==> FirstStray(s.serverHandlers, s.servers.Keys).Some?
    ensures r.Failure? ==> r.error == UnknownServerId(FirstStray(s.serverHandlers, s.servers.Keys).value)
    ensures r.Success? ==>
              Consistent(r.value.sup) && r.value.sup.ids == s.ids && r.value.sup.servers == s.servers
              && r.value.sup.aware == s.aware
              && (forall id :: id in s.buses ==> r.value.sup.buses[id] == RegisterAll(s.buses[id], Aimed(s.serverHandlers, id)))
              && r.value.sup.selfBus == r.value.extsLoaded.bus
              && r.value.extsLoaded == Emit(RegisterAll(s.selfBus, s.selfHandlers), McsrExtsLoaded, None)
  {
    var selfBus := RegisterAll(s.selfBus, s.selfHandlers);
    DistributeFails(s.buses, s.serverHandlers);
    match DistributeAll(s.buses, s.serverHandlers)
    case Failure(e) => Failure(e)
    case Success(buses) =>
      DistributeReference(s.buses, s.serverHandlers, buses);
      assert forall id :: id in buses ==> EventBus.Valid(buses[id]) by {
        forall id | id in buses ensures EventBus.Valid(buses[id]) {
          assert buses[id] == RegisterAll(s.buses[id], Aimed(s.serverHandlers, id));
        }
      }
      SameKeysBuses(s.ids, s.servers, s.buses, buses);
      var e := Emit(selfBus, McsrExtsLoaded, None);
      Success(Started(s.(selfBus := e.bus, buses := buses), e))
  }

  /** After a successful start every bus holds, under every kind, its earlier
      handlers and then the aimed handlers of that kind; the supervisor's bus
      likewise with the deferred supervisor handlers. */
  lemma StartHandlers(s: Supervisor, kind: Kind)
    requires Consistent(s) && Start(s).Success?
    ensures forall id :: id in s.buses ==>
              HandlersOf(Start(s).value.sup.buses[id], kind)
              == HandlersOf(s.buses[id], kind) + OfKind(Aimed(s.serverHandlers, id), kind)
    ensures HandlersOf(Start(s).value.sup.selfBus, kind) == HandlersOf(s.selfBus, kind) + OfKind(s.selfHandlers, kind)
  {
    forall id | id in s.buses
      ensures HandlersOf(Start(s).value.sup.buses[id], kind)
              == HandlersOf(s.buses[id], kind) + OfKind(Aimed(s.serverHandlers, id), kind)
    {
      RegisterAllHandlersOf(s.buses[id], Aimed(s.serverHandlers, id), kind);
    }
    RegisterAllHandlersOf(s.selfBus, s.selfHandlers, kind);
  }

  // ---------------------------------------------------------------------
  // The barriers

  predicate AllLoaded(s: Supervisor) {
    forall id :: id in s.servers ==> s.servers[id].loaded
  }

  predicate AllStopped(s: Supervisor) {
    forall id :: id in s.servers ==> s.servers[id].stopped
  }

  predicate AllCoherent(s: Supervisor) {
    forall id :: id in s.servers ==> Coherent(s.servers[id])
  }

  /** The first barrier: once every server is loaded, `MCSR_AllLoaded` is
      emitted on the supervisor's bus. */
  function LoadedBarrier(s: Supervisor): (r: Option<Echoed>)
    requires Consistent(s)
    ensures r.Some? <==> AllLoaded(s)
    ensures r.Some? ==>
              Consistent(r.value.sup) && r.value.sup.(selfBus := s.selfBus) == s
              && |r.value.invocations| == |HandlersOf(s.selfBus, McsrAllLoaded)|
              && r.value.resolved == PendingOf(s.selfBus, McsrAllLoaded)
  {
    if !AllLoaded(s) then None
    else
      var e := Emit(s.selfBus, McsrAllLoaded, None);
      Some(Echoed(s.(selfBus := e.bus), "", e.invocations, e.resolved))
  }

  /** The second barrier: once every server is stopped, `MCSR_AllStopped` is
      emitted (waiting for its handlers), and then every aware task of the
      supervisor is cancelled (the third component). */
  function StoppedBarrier(s: Supervisor): (r: Option<(Echoed, set<TaskId>)>)
    requires Consistent(s)
    ensures r.Some? <==> AllStopped(s)
    ensures r.Some? ==>
              Consistent(r.value.0.sup) && r.value.0.sup.(selfBus := s.selfBus) == s
              && |r.value.0.invocations| == |HandlersOf(s.selfBus, McsrAllStopped)|
              && r.value.0.resolved == PendingOf(s.selfBus, McsrAllStopped)
              && r.value.1 == s.aware
  {
    if !AllStopped(s) then None
    else
      var e := Emit(s.selfBus, McsrAllStopped, None);
      Some((Echoed(s.(selfBus := e.bus), "", e.invocations, e.resolved), s.aware))
  }

  /** One action on one server; an unknown id changes nothing. */
  datatype Move = Move(id: string, action: Action)

  function Run(s: Supervisor, moves: seq<Move>, find: Regex.Finder): (r: Supervisor)
    ensures r.servers.Keys == s.servers.Keys && r.(servers := s.servers) == s
    decreases |moves|
  {
    if |moves| == 0 then s
    else
      var m := moves[0];
      var s1 := if m.id in s.servers then s.(servers := s.servers[m.id := Apply(s.servers[m.id], m.action, find)]) else s;
      Run(s1, moves[1..], find)
  }

  /** Whatever the servers do meanwhile, a loaded server stays loaded and a
      loaded, stopped server stays stopped. This is why `_run` may wait for
      the flags one server after another: by the time the last wait returns,
      every earlier flag still holds. */
  lemma {:induction false} FlagsPersist(s: Supervisor, moves: seq<Move>, find: Regex.Finder)
    requires AllCoherent(s)
    ensures AllCoherent(Run(s, moves, find))
    ensures forall id :: id in s.servers && s.servers[id].loaded ==> Run(s, moves, find).servers[id].loaded
    ensures forall id :: id in s.servers && s.servers[id].loaded && s.servers[id].stopped ==>
              Run(s, moves, find).servers[id].stopped
    decreases |moves|
  {
    if |moves| > 0 {
      var m := moves[0];
      if m.id in s.servers {
        ApplyKeepsFlags(s.servers[m.id], m.action, find);
        var s1 := s.(servers := s.servers[m.id := Apply(s.servers[m.id], m.action, find)]);
        FlagsPersist(s1, moves[1..], find);
      } else {
        FlagsPersist(s, moves[1..], find);
      }
    }
  }

  /** Both barriers are stable: once passed, no server activity undoes them. */
  lemma BarriersStable(s: Supervisor, moves: seq<Move>, find: Regex.Finder)
    requires AllCoherent(s)
    ensures AllLoaded(s) ==> AllLoaded(Run(s, moves, find))
    ensures AllLoaded(s) && AllStopped(s) ==> AllStopped(Run(s, moves, find))
  {
    FlagsPersist(s, moves, find);
  }

  // ---------------------------------------------------------------------
  // stop

  /** What `stop()` leaves: the servers after their stop requests, the
      emissions each server's bus received, and the servers whose `/stop`
      raised (the raise stays inside that server's task). */
  datatype Stopping = Stopping(sup: Supervisor, notices: map<string, seq<Emission>>, failed: set<string>)

  /** `stop()`: every server gets its own `stop()` task; waiting on no task
      at all raises. */
  function Stop(s: Supervisor): (r: Result<Stopping, Error>)
    requires Consistent(s)
    ensures r.Failure? <==> s.ids == []
    ensures r.Failure? ==> r.error == NothingToWait
    ensures r.Success? ==>
              var t := r.value;
              Consistent(t.sup) && t.sup.(servers := s.servers) == s
              && t.notices.Keys == s.servers.Keys
              && (forall id :: id in s.servers ==>
                    t.notices[id] == [Emission(ServerBeforeStop, None, true)]
                    && (id in t.failed <==> s.servers[id].stdin.None?)
                    && t.sup.servers[id] == if s.servers[id].stdin.Some? then Written(s.servers[id], "/stop") else s.servers[id])
              && t.failed <= s.servers.Keys
  {
    if |s.ids| == 0 then Failure(NothingToWait)
    else
      var servers := map id | id in s.servers :: StopRequest(s.servers[id]).0.inst;
      SameKeysRegistry(s.ids, s.servers, servers, s.buses);
      var notices := map id | id in s.servers :: StopRequest(s.servers[id]).0.out;
      var failed := set id | id in s.servers && StopRequest(s.servers[id]).1.Some?;
      Success(Stopping(s.(servers := servers), notices, failed))
  }
}
