/** Scoped invocation of one handler (`ServerHandler.handle` and
    `SupervisorHandler.handle`): the ambient "current args" and "current
    server" variables are bound for the body and restored afterwards, and an
    aware handler's task sits in the owner's aware set while it runs. */
module Context {
  import opened Events
  import opened EventArgs

  type TaskId = nat

  /** The two context variables, each as a stack of bindings (the top is the
      current value); a token is the stack height before the binding. */
  datatype Ambient = Ambient(argsVar: seq<Args>, serverVar: seq<string>)

  /** How the body finished: the cleanup runs the same way for each. */
  datatype Exit = Returned | Raised | Cancelled

  /** What one `handle` call looks like from outside: the ambient values and
      aware set the body runs under, and those left once `handle` returns. */
  datatype Trace = Trace(inside: Ambient, awareInside: set<TaskId>,
                         after: Ambient, awareAfter: set<TaskId>, exit: Exit)

  /** `ContextVar.set`: makes `v` the current value and returns a token
      that, given back to `reset`, restores the bindings as they were. */
  function Bind<T>(stack: seq<T>, v: T): (r: (seq<T>, nat))
    ensures |r.0| > 0 && r.0[|r.0| - 1] == v
    ensures r.1 <= |r.0| && Unbind(r.0, r.1) == stack
  {
    (stack + [v], |stack|)
  }

  /** `ContextVar.reset(token)`: drops every binding made since the token. */
  function Unbind<T>(stack: seq<T>, token: nat): (r: seq<T>)
    requires token <= |stack|
    ensures |r| == token && r <= stack
  {
    stack[..token]
  }

  /** Two bindings reset in reverse order, as `handle` does with its two
      tokens in the `finally`, restore the stack; the inner reset alone
      restores the outer binding as the current value. */
  lemma UnbindBind<T>(stack: seq<T>, a: T, b: T)
    ensures var (s1, t1) := Bind(stack, a);
            var (s2, t2) := Bind(s1, b);
            t2 <= |s2| && Unbind(s2, t2) == s1 && s1[|s1| - 1] == a
            && t1 <= |Unbind(s2, t2)| && Unbind(Unbind(s2, t2), t1) == stack
  {
  }

  /** `ServerHandler.handle(server, args)` whose body runs as task `t`. The
      body runs in a copy of the context, so its own bindings never reach
      ours; other tasks may change the shared aware set while it runs
      (`awareAtExit`). Whatever the exit, the previous bindings come back and
      `t` leaves the aware set. */
  function ServerHandle(amb: Ambient, aware: set<TaskId>, h: Handler, server: string, args: Args,
                        t: TaskId, awareAtExit: set<TaskId>, exit: Exit): (r: Trace)
    requires t !in aware
    ensures |r.inside.argsVar| > 0 && r.inside.argsVar[|r.inside.argsVar| - 1] == args
    ensures |r.inside.serverVar| > 0 && r.inside.serverVar[|r.inside.serverVar| - 1] == server
    ensures (t in r.awareInside <==> h.aware) && r.awareInside - {t} == aware
    ensures r.after == amb
    ensures t !in r.awareAfter && r.awareAfter + {t} == awareAtExit + {t}
    ensures r.exit == exit
  {
    var (argsStack, argsToken) := Bind(amb.argsVar, args);
    var (serverStack, serverToken) := Bind(amb.serverVar, server);
    var inside := Ambient(argsStack, serverStack);
    var awareInside := if h.aware then aware + {t} else aware;
    // the `finally` resets the server binding, then the args binding
    var after := Ambient(Unbind(inside.argsVar, argsToken), Unbind(inside.serverVar, serverToken));
    Trace(inside, awareInside, after, awareAtExit - {t}, exit)
  }

  /** `SupervisorHandler.handle(supervisor, args)`: as `ServerHandle`, but
      only the args variable is bound. */
  function SupervisorHandle(amb: Ambient, aware: set<TaskId>, h: Handler, args: Args,
                            t: TaskId, awareAtExit: set<TaskId>, exit: Exit): (r: Trace)
    requires t !in aware
    ensures |r.inside.argsVar| > 0 && r.inside.argsVar[|r.inside.argsVar| - 1] == args
    ensures r.inside.serverVar == amb.serverVar
    ensures (t in r.awareInside <==> h.aware) && r.awareInside - {t} == aware
    ensures r.after == amb
    ensures t !in r.awareAfter && r.awareAfter + {t} == awareAtExit + {t}
    ensures r.exit == exit
  {
    var (argsStack, argsToken) := Bind(amb.argsVar, args);
    var inside := Ambient(argsStack, amb.serverVar);
    var awareInside := if h.aware then aware + {t} else aware;
    var after := Ambient(Unbind(inside.argsVar, argsToken), inside.serverVar);
    Trace(inside, awareInside, after, awareAtExit - {t}, exit)
  }
}
