/** The closed catalogue of event kinds, event instances (a kind plus an
    optional output filter), handlers and the two handler makers that defer
    registrations until the supervisor runs. */
module Events {
  import opened Wrappers

  datatype Scope = ServerScope | SupervisorScope

  datatype Kind =
    | ServerBeforeStart | ServerLoaded | ServerOutput | ServerBeforeStop | ServerStopped
    | McsrStdin | McsrExtsLoaded | McsrAllLoaded | McsrStdout | McsrStderr | McsrOutput
    | McsrAllStopped
  {
    function Scope(): Scope {
      match this
      case ServerBeforeStart | ServerLoaded | ServerOutput | ServerBeforeStop | ServerStopped =>
        ServerScope
      case _ => SupervisorScope
    }

    /** The kinds whose coroutine factory consults an output filter. */
    predicate Filterable() {
      ServerOutput? || McsrStdout? || McsrStderr? || McsrOutput?
    }
  }

  /** `Event.type`: the class name, which keys both registries of a bus.
      Exactly the supervisor-side classes carry the `MCSR_` prefix. */
  function TypeName(k: Kind): (n: string)
    ensures k.Scope() == SupervisorScope ==> "MCSR_" <= n
    ensures k.Scope() == ServerScope ==> |n| > 0 && n[0] == 'S'
  {
    match k
    case ServerBeforeStart => "ServerBeforeStart"
    case ServerLoaded => "ServerLoaded"
    case ServerOutput => "ServerOutput"
    case ServerBeforeStop => "ServerBeforeStop"
    case ServerStopped => "ServerStopped"
    case McsrStdin => "MCSR_Stdin"
    case McsrExtsLoaded => "MCSR_ExtsLoaded"
    case McsrAllLoaded => "MCSR_AllLoaded"
    case McsrStdout => "MCSR_Stdout"
    case McsrStderr => "MCSR_Stderr"
    case McsrOutput => "MCSR_Output"
    case McsrAllStopped => "MCSR_AllStopped"
  }

  /** Distinct kinds never share a registry key. */
  lemma TypeNameInjective(a: Kind, b: Kind)
    ensures TypeName(a) == TypeName(b) ==> a == b
  {
    if TypeName(a) == TypeName(b) {
      var n := TypeName(a);
      assert n[0] == TypeName(b)[0];
      assert |n| == |TypeName(b)|;
    }
  }

  /** An event instance. Only the filterable kinds take a pattern. */
  datatype Event = Event(kind: Kind, pattern: Option<string>) {
    predicate WellFormed() {
      pattern.Some? ==> kind.Filterable()
    }
  }

  /** What a registration call is given: an event class or an instance. */
  datatype EventSpec = ClassRef(kind: Kind) | ObjectRef(event: Event)

  /** A class is instantiated with no arguments, so it carries no filter. */
  function Instantiate(spec: EventSpec): (e: Event)
    ensures spec.ClassRef? ==> e == Event(spec.kind, None)
    ensures spec.ObjectRef? ==> e == spec.event
  {
    match spec
    case ClassRef(k) => Event(k, None)
    case ObjectRef(e) => e
  }

  /** A registered callback. `serverId` is the targeted instance for a
      server handler (`None` targets every instance) and `None` for a
      supervisor handler; the callback itself is an opaque identity. */
  datatype Handler = Handler(event: Event, serverId: Option<string>, callback: nat, aware: bool)

  /** `ServerHandlerMaker(id).register(event, aware)(cb)`: appends one
      deferred server handler targeting the maker's id. */
  function DeferServerHandler(deferred: seq<Handler>, makerId: Option<string>, spec: EventSpec,
                              callback: nat, aware: bool): (r: seq<Handler>)
    ensures |r| == |deferred| + 1 && r[..|deferred|] == deferred
    ensures r[|deferred|] == Handler(Instantiate(spec), makerId, callback, aware)
  {
    deferred + [Handler(Instantiate(spec), makerId, callback, aware)]
  }

  /** `SupervisorHandlerMaker.register(event, aware)(cb)`: appends one
      deferred supervisor handler. */
  function DeferSupervisorHandler(deferred: seq<Handler>, spec: EventSpec, callback: nat,
                                  aware: bool): (r: seq<Handler>)
    ensures |r| == |deferred| + 1 && r[..|deferred|] == deferred
    ensures r[|deferred|] == Handler(Instantiate(spec), None, callback, aware)
  {
    deferred + [Handler(Instantiate(spec), None, callback, aware)]
  }
}
