/** `EventBus`: the per-bus registry of handlers and of one-shot futures,
    emission, and the output-filter wrapper that decides whether a
    scheduled handler body actually runs. */
module EventBus {
  import opened Wrappers
  import opened Events
  import opened EventArgs
  import Text
  import Regex

  type FutureId = nat

  /** `handler_map` and `fut_map`, both keyed by the event class name;
      `nextFuture` stands for the identity of the next `Future()` created. */
  datatype Bus = Bus(handlerMap: map<string, seq<Handler>>, futMap: map<string, seq<FutureId>>,
                     nextFuture: FutureId)

  const EmptyBus: Bus := Bus(map[], map[], 0)

  /** Every pending future was created by this bus. */
  predicate Valid(bus: Bus) {
    forall key, i :: key in bus.futMap && 0 <= i < |bus.futMap[key]| ==>
      bus.futMap[key][i] < bus.nextFuture
  }

  function HandlersOf(bus: Bus, kind: Kind): seq<Handler> {
    if TypeName(kind) in bus.handlerMap then bus.handlerMap[TypeName(kind)] else []
  }

  function PendingOf(bus: Bus, kind: Kind): seq<FutureId> {
    if TypeName(kind) in bus.futMap then bus.futMap[TypeName(kind)] else []
  }

  /** `register(handler)`: appends the handler to the list under its
      event's class name, creating the list if needed; nothing else changes. */
  function Register(bus: Bus, h: Handler): (b: Bus)
    ensures var key := TypeName(h.event.kind);
            key in b.handlerMap && b.handlerMap[key] == HandlersOf(bus, h.event.kind) + [h]
            && (forall k :: k != key ==> (k in b.handlerMap <==> k in bus.handlerMap))
            && (forall k :: k != key && k in bus.handlerMap ==> b.handlerMap[k] == bus.handlerMap[k])
    ensures b.futMap == bus.futMap && b.nextFuture == bus.nextFuture
  {
    var key := TypeName(h.event.kind);
    bus.(handlerMap := bus.handlerMap[key := HandlersOf(bus, h.event.kind) + [h]])
  }

  /** The handlers of `hs` whose event is of `kind`, in order. */
  function OfKind(hs: seq<Handler>, kind: Kind): seq<Handler>
    decreases |hs|
  {
    if |hs| == 0 then []
    else (if hs[0].event.kind == kind then [hs[0]] else []) + OfKind(hs[1..], kind)
  }

  /** Registering one handler extends exactly the list of its own kind. */
  lemma RegisterHandlersOf(bus: Bus, h: Handler, kind: Kind)
    ensures HandlersOf(Register(bus, h), kind)
            == HandlersOf(bus, kind) + (if h.event.kind == kind then [h] else [])
  {
    TypeNameInjective(h.event.kind, kind);
  }

  /** Registering one handler leaves every other kind's list as it was. */
  lemma RegisterOthers(bus: Bus, h: Handler)
    ensures forall k :: k != h.event.kind ==> HandlersOf(Register(bus, h), k) == HandlersOf(bus, k)
  {
    forall k | k != h.event.kind
      ensures HandlersOf(Register(bus, h), k) == HandlersOf(bus, k)
    {
      RegisterHandlersOf(bus, h, k);
    }
  }

  /** Registers a list of handlers one after another; the futures are not
      touched. */
  function RegisterAll(bus: Bus, hs: seq<Handler>): (b: Bus)
    ensures b.futMap == bus.futMap && b.nextFuture == bus.nextFuture
    decreases |hs|
  {
    if |hs| == 0 then bus else RegisterAll(Register(bus, hs[0]), hs[1..])
  }

  /** Registering a list appends, under every kind, the listed handlers of
      that kind in list order. */
  lemma {:induction false} RegisterAllHandlersOf(bus: Bus, hs: seq<Handler>, kind: Kind)
    ensures HandlersOf(RegisterAll(bus, hs), kind) == HandlersOf(bus, kind) + OfKind(hs, kind)
    decreases |hs|
  {
    if |hs| > 0 {
      var b1 := Register(bus, hs[0]);
      var here := if hs[0].event.kind == kind then [hs[0]] else [];
      RegisterHandlersOf(bus, hs[0], kind);
      RegisterAllHandlersOf(b1, hs[1..], kind);
      assert RegisterAll(bus, hs) == RegisterAll(b1, hs[1..]);
      assert OfKind(hs, kind) == here + OfKind(hs[1..], kind);
      Text.ConcatAssoc(HandlersOf(bus, kind), here, OfKind(hs[1..], kind));
    }
  }

  /** `EventBus.register_fut(cls)`: creates one fresh future and appends it to
      the pending list under the class name; it is what the caller awaits. */
  function RegisterFut(bus: Bus, kind: Kind): (r: (Bus, FutureId))
    requires Valid(bus)
    ensures Valid(r.0)
    ensures PendingOf(r.0, kind) == PendingOf(bus, kind) + [r.1]
    ensures forall i :: 0 <= i < |PendingOf(bus, kind)| ==> PendingOf(bus, kind)[i] != r.1
    ensures forall k :: k != TypeName(kind) ==>
              (k in r.0.futMap <==> k in bus.futMap)
              && (k in bus.futMap ==> r.0.futMap[k] == bus.futMap[k])
    ensures r.0.handlerMap == bus.handlerMap
  {
    var f := bus.nextFuture;
    (bus.(futMap := bus.futMap[TypeName(kind) := PendingOf(bus, kind) + [f]],
          nextFuture := f + 1), f)
  }

  /** `ServerEventBus.register_fut` / `SupervisorEventBus.register_fut` as
      written: the override calls the base method but drops its result, so
      the caller receives `None` while a future it can never await is left
      pending. */
  function RegisterFutAsWritten(bus: Bus, kind: Kind): (r: (Bus, Option<FutureId>))
    requires Valid(bus)
    ensures r.1 == None
    ensures |PendingOf(r.0, kind)| == |PendingOf(bus, kind)| + 1
  {
    (RegisterFut(bus, kind).0, None)
  }

  /** The discrepancy: after `at(cls)` the bus holds one more pending future,
      yet the caller was handed nothing to wait on. */
  lemma RegisterFutAsWrittenLosesFuture()
    ensures var (b, r) := RegisterFutAsWritten(EmptyBus, ServerLoaded);
            r.None? && PendingOf(b, ServerLoaded) == [0]
    ensures var (b, f) := RegisterFut(EmptyBus, ServerLoaded);
            f == 0 && PendingOf(b, ServerLoaded) == [f]
  {
  }

  /** One scheduled handler coroutine and the args object it was given. */
  datatype Invocation = Invocation(handler: Handler, args: Args)

  /** The outcome of one `emit`: the new bus, the coroutines scheduled (in
      order) and the futures resolved with `True` (in order). */
  datatype Emitted = Emitted(bus: Bus, invocations: seq<Invocation>, resolved: seq<FutureId>)

  function Schedule(hs: seq<Handler>, args: Args): (invs: seq<Invocation>)
    ensures |invs| == |hs|
    ensures forall i :: 0 <= i < |hs| ==> invs[i] == Invocation(hs[i], args)
  {
    seq(|hs|, i requires 0 <= i < |hs| => Invocation(hs[i], args))
  }

  /** Resolves and clears every future pending under `kind`. */
  function ResolvePending(bus: Bus, kind: Kind): Bus {
    if TypeName(kind) in bus.futMap then bus.(futMap := bus.futMap[TypeName(kind) := []])
    else bus
  }

  /** `emit(cls, args)` with the intended behaviour: one invocation per
      registered handler, in registration order, all sharing one args object
      (a fresh empty one when none is given); then every future pending under
      the class name is resolved, in order, and that list is emptied, even
      when no handler is registered. Other keys are untouched. */
  function Emit(bus: Bus, kind: Kind, args: Option<Args>): (r: Emitted)
    requires Valid(bus)
    ensures Valid(r.bus)
    ensures |r.invocations| == |HandlersOf(bus, kind)|
    ensures forall i :: 0 <= i < |r.invocations| ==>
              r.invocations[i].handler == HandlersOf(bus, kind)[i]
              && r.invocations[i].args == (if args.Some? then args.value else map[])
    ensures r.resolved == PendingOf(bus, kind)
    ensures PendingOf(r.bus, kind) == []
    ensures forall k :: k != TypeName(kind) ==>
              (k in r.bus.futMap <==> k in bus.futMap)
              && (k in bus.futMap ==> r.bus.futMap[k] == bus.futMap[k])
    ensures r.bus.handlerMap == bus.handlerMap && r.bus.nextFuture == bus.nextFuture
  {
    var a := args.GetOr(map[]);
    Emitted(ResolvePending(bus, kind), Schedule(HandlersOf(bus, kind), a), PendingOf(bus, kind))
  }

  /** Two emissions of distinct kinds in a row, with equal args: the first
      kind's handlers are scheduled before the second's, and the futures of
      both kinds are resolved, the first kind's first. */
  function EmitBoth(bus: Bus, k1: Kind, k2: Kind, args: Args): (r: Emitted)
    requires Valid(bus) && k1 != k2
    ensures Valid(r.bus) && r.bus.handlerMap == bus.handlerMap && r.bus.nextFuture == bus.nextFuture
    ensures r.invocations == Schedule(HandlersOf(bus, k1), args) + Schedule(HandlersOf(bus, k2), args)
    ensures r.resolved == PendingOf(bus, k1) + PendingOf(bus, k2)
    ensures PendingOf(r.bus, k1) == [] && PendingOf(r.bus, k2) == []
  {
    TypeNameInjective(k1, k2);
    var e1 := Emit(bus, k1, Some(args));
    var e2 := Emit(e1.bus, k2, Some(args));
    assert HandlersOf(e1.bus, k2) == HandlersOf(bus, k2);
    assert PendingOf(e1.bus, k2) == PendingOf(bus, k2);
    Emitted(e2.bus, e1.invocations + e2.invocations, e1.resolved + e2.resolved)
  }

  /** `ServerEventBus.emit` / `SupervisorEventBus.emit` as written: when no
      handler list exists under the class name the method returns before the
      future step, so pending futures stay unresolved; otherwise it behaves
      as `Emit`. */
  function EmitAsWritten(bus: Bus, kind: Kind, args: Option<Args>): (r: Emitted)
    requires Valid(bus)
    ensures TypeName(kind) !in bus.handlerMap ==> r == Emitted(bus, [], [])
    ensures TypeName(kind) in bus.handlerMap ==> r == Emit(bus, kind, args)
  {
    if TypeName(kind) !in bus.handlerMap then Emitted(bus, [], [])
    else Emit(bus, kind, args)
  }

  /** With no future pending under the kind, the code as written and the
      intended emission agree in every respect. */
  lemma EmitAsWrittenAgrees(bus: Bus, kind: Kind, args: Option<Args>)
    requires Valid(bus) && PendingOf(bus, kind) == []
    ensures EmitAsWritten(bus, kind, args) == Emit(bus, kind, args)
  {
    if TypeName(kind) !in bus.handlerMap {
      if TypeName(kind) in bus.futMap {
        assert bus.futMap[TypeName(kind) := []] == bus.futMap;
      }
    }
  }

  /** The discrepancy: a future awaited on a kind nobody handles is never
      resolved by the code as written, but is by the intended emission. */
  lemma EmitAsWrittenStrandsFutures()
    ensures var b := RegisterFut(EmptyBus, ServerLoaded).0;
            EmitAsWritten(b, ServerLoaded, None).resolved == []
            && PendingOf(EmitAsWritten(b, ServerLoaded, None).bus, ServerLoaded) == [0]
            && Emit(b, ServerLoaded, None).resolved == [0]
  {
    var b := RegisterFut(EmptyBus, ServerLoaded).0;
    assert TypeName(ServerLoaded) !in b.handlerMap;
  }

  /** What a `make_coroutine` wrapper does before calling the handler: the
      args the body observes, or `None` when the body does not run. An
      unfiltered kind or an absent pattern always runs; otherwise the body
      runs iff `findall(pattern, args.output)` is non-empty, after `matched`
      is set to the first hit. A missing or non-text `output` makes the
      wrapper raise, so the body does not run. */
  function Filter(inv: Invocation, find: Regex.Finder): (r: Option<Args>)
    ensures var ev := inv.handler.event;
            r.Some? <==> !ev.kind.Filterable() || ev.pattern.None?
                         || ("output" in inv.args && inv.args["output"].Text?
                             && Regex.Found(find, ev.pattern.value, inv.args["output"].s))
    ensures var ev := inv.handler.event;
            !ev.kind.Filterable() || ev.pattern.None? ==> r == Some(inv.args)
    ensures var ev := inv.handler.event;
            r.Some? && ev.kind.Filterable() && ev.pattern.Some? ==>
              r.value == inv.args["matched" := Groups(find(ev.pattern.value, inv.args["output"].s)[0])]
  {
    var ev := inv.handler.event;
    if !ev.kind.Filterable() || ev.pattern.None? then Some(inv.args)
    else if "output" !in inv.args || !inv.args["output"].Text? then None
    else
      var hits := find(ev.pattern.value, inv.args["output"].s);
      if |hits| == 0 then None
      else
        AddOne(inv.args, "matched", Groups(hits[0]));
        Some(Add(inv.args, [("matched", Groups(hits[0]))]))
  }

  /** A handler body that runs and the args it observes. */
  datatype Delivery = Delivery(handler: Handler, args: Args)

  /** The body observes its own filter's first hit in `matched`. */
  predicate SeesOwnMatch(d: Delivery, find: Regex.Finder) {
    var ev := d.handler.event;
    ev.kind.Filterable() && ev.pattern.Some? ==>
      "output" in d.args && d.args["output"].Text?
      && Regex.Found(find, ev.pattern.value, d.args["output"].s)
      && "matched" in d.args
      && d.args["matched"] == Groups(find(ev.pattern.value, d.args["output"].s)[0])
  }

  /** The intended delivery: every invocation is filtered on its own args,
      in order, and each running body sees its own match. */
  function Deliver(invs: seq<Invocation>, find: Regex.Finder): (ds: seq<Delivery>)
    ensures |ds| <= |invs|
    ensures forall j :: 0 <= j < |ds| ==> SeesOwnMatch(ds[j], find)
    ensures forall j :: 0 <= j < |ds| ==>
              exists i :: 0 <= i < |invs| && ds[j].handler == invs[i].handler
                          && Filter(invs[i], find) == Some(ds[j].args)
    decreases |invs|
  {
    if |invs| == 0 then []
    else
      var rest := Deliver(invs[1..], find);
      match Filter(invs[0], find)
      case None => rest
      case Some(a) => [Delivery(invs[0].handler, a)] + rest
  }

  /** A single invocation's body runs exactly when its filter lets it
      through, and it observes what the filter produced. */
  lemma DeliverOne(inv: Invocation, find: Regex.Finder)
    ensures Deliver([inv], find)
            == if Filter(inv, find).Some? then [Delivery(inv.handler, Filter(inv, find).value)] else []
  {
    assert [inv][1..] == [];
  }

  /** Delivery is compositional: the bodies of a concatenation of
      invocations are those of the first part, then those of the second. */
  lemma {:induction false} DeliverConcat(a: seq<Invocation>, b: seq<Invocation>, find: Regex.Finder)
    ensures Deliver(a + b, find) == Deliver(a, find) + Deliver(b, find)
    decreases |a|
  {
    if |a| == 0 {
      assert a + b == b;
    } else {
      assert (a + b)[0] == a[0];
      assert (a + b)[1..] == a[1..] + b;
      DeliverConcat(a[1..], b, find);
      var here := Deliver([a[0]], find);
      DeliverOne(a[0], find);
      assert Deliver(a, find) == here + Deliver(a[1..], find);
      assert Deliver(a + b, find) == here + Deliver(a[1..] + b, find);
      Text.ConcatAssoc(here, Deliver(a[1..], find), Deliver(b, find));
    }
  }

  /** The filters of one emission as written: every wrapper task reaches its
      `args.add(matched=...)` before any handler body is started, because each
      body is a further task created at the end of its wrapper's first step.
      All wrappers share one args object, so the filters run in order on it;
      the result is that shared object after the last filter, and the
      handlers whose bodies run. */
  function SharedFilters(invs: seq<Invocation>, shared: Args, find: Regex.Finder): (Args, seq<Handler>)
    decreases |invs|
  {
    if |invs| == 0 then (shared, [])
    else
      var h := invs[0].handler;
      match Filter(Invocation(h, shared), find)
      case None => SharedFilters(invs[1..], shared, find)
      case Some(a) =>
        var (fin, hs) := SharedFilters(invs[1..], a, find);
        (fin, [h] + hs)
  }

  /** Delivery as written: every running body observes the shared args as
      the last filter left them. */
  function DeliverAsWritten(invs: seq<Invocation>, find: Regex.Finder): (ds: seq<Delivery>)
    ensures forall i, j :: 0 <= i < j < |ds| ==> ds[i].args == ds[j].args
  {
    if |invs| == 0 then []
    else
      var (fin, hs) := SharedFilters(invs, invs[0].args, find);
      seq(|hs|, i requires 0 <= i < |hs| => Delivery(hs[i], fin))
  }

  /** The discrepancy: two `ServerOutput` handlers whose patterns both hit
      the same line. As written the first body reads the second handler's
      match; with per-handler filtering it reads its own. */
  lemma SharedArgsLeakMatch()
    ensures var find: Regex.Finder := (p: string, s: string) => if p == "a" then [["x"]] else [["y"]];
            var h1 := Handler(Event(ServerOutput, Some("a")), None, 1, false);
            var h2 := Handler(Event(ServerOutput, Some("b")), None, 2, false);
            var invs := Schedule([h1, h2], map["output" := Text("ab")]);
            DeliverAsWritten(invs, find)[0].handler == h1
            && DeliverAsWritten(invs, find)[0].args["matched"] == Groups(["y"])
            && Deliver(invs, find)[0].handler == h1
            && Deliver(invs, find)[0].args["matched"] == Groups(["x"])
  {
    var find: Regex.Finder := (p: string, s: string) => if p == "a" then [["x"]] else [["y"]];
    var h1 := Handler(Event(ServerOutput, Some("a")), None, 1, false);
    var h2 := Handler(Event(ServerOutput, Some("b")), None, 2, false);
    var a := map["output" := Text("ab")];
    var invs := Schedule([h1, h2], a);
    var a1 := a["matched" := Groups(["x"])];
    AddOne(a, "matched", Groups(["x"]));
    AddOne(a1, "matched", Groups(["y"]));
    AddOne(a, "matched", Groups(["y"]));
    assert Filter(Invocation(h1, a), find) == Some(a1);
    assert Filter(Invocation(h2, a1), find) == Some(a1["matched" := Groups(["y"])]);
    assert invs[1..][1..] == [];
    assert Deliver(invs[1..], find) == [Delivery(h2, a["matched" := Groups(["y"])])];
  }

  /** One emission request: kind, args, and `force_wait` (which only decides
      whether the emitter waits for the handler tasks). */
  datatype Emission = Emission(kind: Kind, args: Option<Args>, forceWait: bool)

  /** A `ServerOutput`/`MCSR_*` emission carrying `output=line`. */
  function OutputEmission(kind: Kind, line: string): Emission {
    Emission(kind, Some(map["output" := Text(line)]), false)
  }
}
