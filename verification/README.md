# MCSR core in Dafny

MCSR supervises a set of Minecraft server processes. Each server instance
has a launch configuration (`ServerLoader`) and three lifecycle flags
(`running`, `loaded`, `stopped`). Two stream watchers push the process's
output lines into one shared queue. A drain loop delivers those lines as
`ServerOutput` events whenever nobody holds the instance's lock. The
`interact` protocol writes a command and consumes lines until a pattern
matches. Lines it does not want go to a side queue and are replayed later.

Handlers are registered on per-instance event buses and on the
supervisor's own bus. Registrations made through the makers are deferred
and distributed when the supervisor starts. Output-kind events can carry
a regex filter: the handler runs only when the filter hits, and the hit
is put into the event args as `matched`. A handler runs with two ambient
context variables bound (the current args and the current server). An
"aware" handler's task is tracked, so it can be cancelled when its owner
stops.

The model is a set of pure functions over immutable values:

- `EventArgs`, `Events`, `EventBus` and `Context`: the event model (event
  args, the closed catalogue of kinds, registration, futures, emission,
  output filters, scoped invocation of a handler).
- `Loader` and `Server`: one server instance (loader, watchers, drain,
  `interact`, `send`, lifecycle).
- `Supervisor`: the registry of instances, deferred registration,
  `broadcast`, the start-up barriers, `stop`, console output.
- `CmdParser`: the command-line parser.
- `Logger`: the message shaping of `BasicLogger.log`.
- `Text`, `Paths` and `Regex`: the Python built-ins the code relies on.
  `str.split`, `strip`, `rstrip` and POSIX `isabs`/`dirname` are written
  out. `re.findall` is an oracle passed in as a function parameter.

When `interact` times out, the side queue is already empty, because
`find()` re-emits the whole side queue at the top of every round, before
it blocks on the shared queue (server.py:133-137). So when the deadline
passes, every line that was set aside has already been delivered
(`Server.InteractReference`). The drain loop never reads the side queue.
A line kept by `match_reuse` therefore surfaces only at the start of the
next `interact` (`Server.ReusedLineReplayedNext`).

`find()` does not suspend while lines are queued: emitting without
`force_wait`, taking a free lock and reading a non-empty queue all run
without yielding. `Server.Interact` is one call that runs until the queue
is empty. There, a call with a deadline returns no match, and a call
without one stays pending and keeps the lock (`Outcome.Pending`). Over a
run of actions (`Server.Apply`) an exchange that empties the queue
suspends and keeps the lock (`Instance.waiting`). Each later non-empty
line is queued by the watcher and taken up by the suspended exchange
(`Server.Resume`), so a reply that arrives after its command reaches the
exchange (`Server.ReplyReachesAsk`). The `Deadline` action is the timeout
passing: it ends a suspended exchange that has a deadline and frees the
lock.

## Model

| member | source | states |
|---|---|---|
| `Text.Split` | mcsr/utils/parser.py:27 | `str.split(sep)`: at least one piece, and no piece contains the separator |
| `Text.SplitPieceCount` | mcsr/utils/parser.py:27-31 | the number of pieces is one more than the number of separators in the string |
| `Text.SplitThenJoin` | mcsr/core/server.py:26-28 | joining the split pieces with the separator gives back the original string |
| `Text.JoinThenSplit` | mcsr/utils/parser.py:27-31 | splitting a join of separator-free pieces gives back the pieces |
| `Text.SplitConcat` | mcsr/core/server.py:27-28 | splitting `x + sep + y` is the split of `x` followed by the split of `y` |
| `Text.TrimRight` | mcsr/core/server.py:68 | `rstrip(c)`: the result is a prefix, everything cut off is `c`, and the result does not end with `c` |
| `Text.Strip` | mcsr/utils/parser.py:22 | `strip(c)`: the result is an infix with only `c` outside it, and it neither starts nor ends with `c` |
| `Text.NatToDecimal` | mcsr/interface.py:50 | the decimal rendering of a count: digits only, with a leading `0` exactly for zero |
| `Text.DecimalRoundTrip` | mcsr/interface.py:50 | reading the rendered digits back gives the count |
| `Paths.IsAbs` | mcsr/utils/tools.py:9-13 | definition: POSIX `isabs`, the path starts with a slash; its use is carried by `Paths.DirNameOfAbsIsAbs` |
| `Paths.AfterLastSlash` | mcsr/utils/tools.py:15-17 | the `rfind('/') + 1` inside `dirname`: the position just after the last slash, 0 when there is none, and no slash follows it |
| `Paths.DirName` | mcsr/utils/tools.py:15-17 | `dirname`: a prefix of the path up to its last slash, with the trailing slashes cut; a head made of slashes only (`/s.jar` gives `/`) is kept whole |
| `Paths.DirNameOfAbsIsAbs` | mcsr/core/server.py:24 | the directory of an absolute jar path is absolute |
| `CmdParser.Cut` | mcsr/utils/parser.py:26-31 | the command and args joined with the separator rebuild the text after the start char; there are no args exactly when that text holds no separator, and then the command is all of it; otherwise the command and every arg are separator-free and there are as many args as separators |
| `CmdParser.Parse` | mcsr/utils/parser.py:21-31 | no command exactly when the stripped string is empty or does not start with the start char; otherwise the pieces rejoined give back the stripped string after the start char, there are args exactly when it holds a separator, and as many args as separators |
| `CmdParser.Verify` | mcsr/utils/parser.py:10-15 | `verify(c, n)` holds exactly when the command is `c` and there are `n` args, absent args counting as zero |
| `CmdParser.ParseVerify` | mcsr/utils/parser.py:10-15 | on a parsed line, `verify(c, n)` holds exactly when the text before the first separator is `c` and the line holds `n` separators (no args counting as zero) |
| `Logger.ChoosePrefix` | mcsr/interface.py:44-47 | definition, split by case: a non-empty custom prefix wins, otherwise the default prefix is used; the evidence about the logged text is in `Logger.BodyRoundTrip` |
| `Logger.Body` | mcsr/interface.py:43-52 | messages of at most 2000 characters are unchanged; longer ones keep their first 2000 characters and are followed by a notice |
| `Logger.Log` | mcsr/interface.py:42-52 | the line is `[prefix] ` followed by the body |
| `Logger.BodyRoundTrip` | mcsr/interface.py:49-52 | the body can be read back: the kept text is the first `min(n, 2000)` characters and the notice reports exactly how many characters were cut |
| `EventArgs.Add` | mcsr/model/event.py:23-25 | the added fields get their values, the keys grow by the added names, and the other fields are untouched |
| `EventArgs.AddOne` | mcsr/model/event.py:23-25 | adding one field is a single map update |
| `EventArgs.Remove` | mcsr/model/event.py:27-29 | pops in order; it succeeds exactly when every name is present and named once, removing all of them; otherwise it reports the first name `names[k]` that is missing, all names before it having been present, and exactly those earlier names stay removed; the other fields keep their values |
| `EventArgs.RemoveAfterAdd` | mcsr/model/event.py:23-29 | removing the names just added succeeds and leaves exactly the earlier fields that were not overwritten |
| `Events.TypeName` | mcsr/model/event.py:165-167 | the class name; supervisor-side classes start with `MCSR_` and server-side ones with `S`, so the two sides never share a name |
| `Events.TypeNameInjective` | mcsr/model/event.py:165-167 | distinct event kinds have distinct class names, so they never share a registry key |
| `Events.Instantiate` | mcsr/model/event.py:139-141 | definition, split by case: an event class becomes an instance without a filter, and an instance is used as given |
| `Events.DeferServerHandler` | mcsr/model/event.py:139-145 | a maker appends exactly one server handler bound to its id |
| `Events.DeferSupervisorHandler` | mcsr/model/event.py:152-158 | a maker appends exactly one supervisor handler |
| `EventBus.Register` | mcsr/model/event.py:323-328 | appends the handler under its class name; other keys and the futures are untouched |
| `EventBus.RegisterHandlersOf` | mcsr/model/event.py:323-328 | registering extends exactly the list of the handler's own kind |
| `EventBus.RegisterAll` | mcsr/core/supervisor.py:102-103 | registering a list leaves the futures untouched |
| `EventBus.RegisterAllHandlersOf` | mcsr/core/supervisor.py:102-103 | registering a list appends, under every kind, the listed handlers of that kind in list order |
| `EventBus.RegisterFut` | mcsr/model/event.py:315-321 | a fresh future, distinct from every pending one, is appended under the class name and returned |
| `EventBus.RegisterFutAsWritten` | mcsr/model/event.py:341-342 | the override registers a future but hands back `None` |
| `EventBus.RegisterFutAsWrittenLosesFuture` | mcsr/model/event.py:379-380 | after `at(cls)` one future is pending that the caller never received |
| `EventBus.Schedule` | mcsr/model/event.py:355-359 | definition: one task per handler, in registration order, all given the same args object; what the tasks deliver is carried by `EventBus.DeliverOne` and `EventBus.DeliverConcat` |
| `EventBus.Emit` | mcsr/model/event.py:347-370 | one invocation per registered handler, in order, with the given args or fresh empty ones; every future pending under the kind is resolved in order and the list is emptied; other keys are untouched |
| `EventBus.EmitBoth` | mcsr/core/supervisor.py:75-76 | two emissions of distinct kinds: the first kind's handlers are scheduled before the second's, and the pending futures of both kinds (under the corrected emission) are resolved and cleared |
| `EventBus.EmitAsWritten` | mcsr/model/event.py:351-353 | definition of the code as written: with no handler list under the kind, the emission does nothing at all; compared with `EventBus.Emit` by `EventBus.EmitAsWrittenAgrees` and `EventBus.EmitAsWrittenStrandsFutures` |
| `EventBus.EmitAsWrittenStrandsFutures` | mcsr/model/event.py:351-353 | a future awaited on an unhandled kind stays pending as written, but is resolved by the corrected emission |
| `EventBus.EmitAsWrittenAgrees` | mcsr/model/event.py:347-370 | with no future pending under the kind, the emission as written and the corrected one are identical |
| `EventBus.Filter` | mcsr/model/event.py:200-209 | a body runs exactly when it has no filter or the pattern hits a text `output`; unfiltered it sees the args as given, filtered it sees them with `matched` set to the first hit |
| `EventBus.Deliver` | mcsr/model/event.py:200-209 | every body that runs comes from an invocation whose filter let it through, carries that filter's args, and observes its own filter's first hit in `matched` |
| `EventBus.DeliverOne` | mcsr/model/event.py:200-209 | one invocation yields a running body exactly when its filter lets it through, observing what the filter produced |
| `EventBus.DeliverConcat` | mcsr/model/event.py:200-209 | the bodies of a run of invocations are those of its first part followed by those of the rest, so with `DeliverOne` every invocation that passes its filter runs, in invocation order |
| `EventBus.DeliverAsWritten` | mcsr/model/event.py:348-359 | as written, every running body of one emission observes the same args object |
| `EventBus.SharedArgsLeakMatch` | mcsr/model/event.py:205-207 | with two hitting filters, the first body reads the second handler's match |
| `Context.Bind` | mcsr/model/event.py:47-48 | `ContextVar.set` makes the value current, and resetting with the returned token gives back exactly the bindings from before the set |
| `Context.Unbind` | mcsr/model/event.py:50-51 | `reset(token)` keeps the bindings made before the token, in order, and drops every later one |
| `Context.UnbindBind` | mcsr/model/event.py:47-51 | two sets reset in reverse order, as `handle` does: the inner reset makes the outer value current again, and the outer reset restores the original stack |
| `Context.ServerHandle` | mcsr/model/event.py:102-113 | inside the body the args and the server are the current values, and the task is aware exactly when the handler is; whatever the exit, both variables are restored and the task leaves the aware set |
| `Context.SupervisorHandle` | mcsr/model/event.py:122-131 | the same for a supervisor handler, which binds only the args and leaves the server variable alone |
| `Loader.NewLoader` | mcsr/core/server.py:16-28 | fails exactly for a relative jar path; the working directory is the given one when non-empty, else the jar's directory; the split command is `cmd.split(' ')`, which joins back to the command; the last token is `nogui` or empty |
| `Loader.LastWord` | mcsr/core/server.py:27-28 | whatever precedes it, the last token of the command is the GUI word |
| `Loader.SplitCmdShape` | mcsr/core/server.py:26-28 | with space-free parts the command splits into exactly java, args, `-jar`, jar and the GUI word |
| `Server.NewInstance` | mcsr/core/server.py:36-61 | fails exactly for a relative working directory; a new instance is stopped, not running, not loaded, with empty queues, a free lock and no process |
| `Server.NewInstanceCoherent` | mcsr/core/server.py:52-55 | a new instance's flags are coherent |
| `Server.DefaultWorkPathAccepted` | mcsr/core/server.py:24 | a loader that defaulted its working directory always yields an instance |
| `Server.Send` | mcsr/core/server.py:124-125 | definition, split by case: before launch the write raises; after launch exactly one line, the content and a newline, is written |
| `Server.On` | mcsr/core/server.py:113-117 | registers one handler bound to the instance's id on its bus, under its own kind; every other kind's list and the futures are untouched |
| `Server.OutputsOf` | mcsr/core/server.py:82-84 | one `ServerOutput` emission per drained line |
| `Server.OutputLinesConcat` | mcsr/core/server.py:82-84 | the lines delivered by two runs of emissions are the lines of the first followed by those of the second |
| `Server.OutputsOfLines` | mcsr/core/server.py:82-84 | the drain delivers exactly the queued lines, in order |
| `Server.LineOf` | mcsr/core/server.py:68 | definition: the raw line through `rstrip('\n')`; what that yields is stated by `Server.LineOfTrims` |
| `Server.LineOfTrims` | mcsr/core/server.py:68 | the decoded line is a prefix of the raw line that does not end in a newline, and only newlines were cut off |
| `Server.WatcherStep` | mcsr/core/server.py:65-86 | an empty line changes nothing; `loaded` latches on the first `Done.` line, which emits `ServerLoaded` once; the line is queued; with the lock free the whole queue is delivered, with the lock held it stays queued; nothing but `loaded` and the queue changes |
| `Server.WatchAll` | mcsr/core/server.py:65-86 | a run of watcher lines changes only `loaded` and the shared queue, and `loaded` never resets |
| `Server.WatchConservation` | mcsr/core/server.py:77-84 | over any run of watcher lines, the lines delivered plus the lines still queued are the old queue plus the non-empty lines, in order |
| `Server.WatchDrains` | mcsr/core/server.py:79-84 | without an exchange holding the lock the queue ends empty |
| `Server.NoLossNoDuplication` | mcsr/core/server.py:77-84 | from an empty queue with the lock free, the delivered lines are exactly the non-empty input lines |
| `Server.LoadedAtMostOnce` | mcsr/core/server.py:73-75 | `ServerLoaded` is emitted at most once, exactly once when a `Done.` line arrives before `loaded` is set, and `loaded` never resets |
| `Server.FindLoop` | mcsr/core/server.py:129-147 | the loop touches only the two queues and never grows the shared queue |
| `Server.Interact` | mcsr/core/server.py:128-157 | the exchange once the lock is taken (it requires the lock free): before launch the write raises; otherwise the command is written once, and the lock is held afterwards exactly while the exchange is still pending |
| `Server.FirstHit` | mcsr/core/server.py:137-143 | the index of the first queued line the pattern hits; no line before it hits |
| `Server.PassThroughPartition` | mcsr/core/server.py:145-147 | every line that misses is either delivered or dropped by the block pattern, never both |
| `Server.FindLoopMiss` | mcsr/core/server.py:144-147 | one missed line: it is set aside unless blocked, and the loop goes on with the rest of the queue |
| `Server.PassThroughCons` | mcsr/core/server.py:144-147 | the lines let through before index `k+1` are the first line's share followed by those before `k` of the rest |
| `Server.FindLoopHit` | mcsr/core/server.py:137-143 | with a hit at index `k`, the outcome is its groups, the lines after it stay queued, the hit is set aside iff reused, and the earlier lines are delivered unless blocked |
| `Server.FindLoopNoHit` | mcsr/core/server.py:132-147 | with no hit, the queue is used up, every unblocked line is delivered, and the side queue ends empty |
| `Server.InteractReference` | mcsr/core/server.py:128-157 | `interact` against the first-hit reference: the hit decides the outcome, the rest stays queued, earlier unblocked lines are delivered after the old side queue, and the lock is released unless the call is still pending |
| `Server.ReusedLineReplayedNext` | mcsr/core/server.py:141-142 | a line kept by `match_reuse` is the first `ServerOutput` of the next exchange |
| `Server.Launched` | mcsr/core/server.py:168-177 | a failed spawn raises; otherwise the process exists, `running` is set, `stopped` is cleared, and nothing else of the instance changes |
| `Server.Exited` | mcsr/core/server.py:179-189 | on exit `loaded` is forced set, `running` cleared, `stopped` set, `ServerStopped` emitted, and every aware task cancelled; nothing else of the instance changes |
| `Server.StopRequest` | mcsr/core/server.py:192-194 | the forced-wait `ServerBeforeStop` comes first, then `/stop` is written, which raises before launch |
| `Server.Resume` | mcsr/core/server.py:77-80 | a line reaching a suspended exchange is queued by the watcher because the lock is held. The exchange takes it up: on a hit it ends and frees the lock, otherwise it keeps waiting with the lock held. It never times out on a line, and only the queues, the lock, the waiting exchange and `loaded` change |
| `Server.ResumeReference` | mcsr/core/server.py:128-147 | a resumed exchange against the first-hit reference over the queue with the new line appended: the hit's groups, the lines before it delivered unless blocked, the later lines kept queued |
| `Server.ReplyReachesAsk` | mcsr/core/server.py:149-157 | an `interact` issued on an empty queue suspends with the lock held, and its reply, arriving afterwards, ends it with the reply's groups and frees the lock, with or without a deadline |
| `Server.Apply` | mcsr/core/server.py:128-195 | no action changes the instance's id, loader, working directory or world; an `interact` issued while the lock is held waits, so the instance is unchanged; the deadline ends exactly a suspended exchange that has one, freeing the lock |
| `Server.ApplyKeepsFlags` | mcsr/core/server.py:176-186 | every action keeps `stopped` equal to not `running` and the lock held exactly while an exchange is suspended; `loaded` never resets; a loaded, stopped instance stays stopped |
| `Supervisor.InitialConsistent` | mcsr/core/supervisor.py:19-28 | a new supervisor has no servers and a consistent registry |
| `Supervisor.PutKeepsRegistry` | mcsr/core/supervisor.py:37-43 | storing under an id keeps each id once in the key order, and a new id goes last |
| `Supervisor.AddServer` | mcsr/core/supervisor.py:36-43 | fails exactly for a relative jar path or a given relative working directory; stores a fresh instance and an empty bus under the id; a reused id keeps its place in the order; other servers are untouched |
| `Supervisor.Store` | mcsr/core/supervisor.py:37-43 | the two dict assignments: the instance and a new, empty bus are stored under the id, a new id goes last in the key order and a known one keeps its place, the registry stays consistent, and nothing else changes |
| `Supervisor.ServerIds` | mcsr/core/supervisor.py:31-33 | every server id exactly once |
| `Supervisor.ServerIdsInsertionOrder` | mcsr/core/supervisor.py:31-43 | the ids come in insertion order: adding a new id appends it, re-adding a known one keeps the order |
| `Supervisor.GetServer` | mcsr/core/supervisor.py:92-93 | definition: `dict.get`, `None` exactly for an unknown id |
| `Supervisor.DefaultServerMaker` | mcsr/core/supervisor.py:57-59 | the first id in insertion order; with no server the index raises |
| `Supervisor.DeferServer` | mcsr/core/supervisor.py:52-54 | a server registration is only recorded, and no bus changes before the start |
| `Supervisor.DeferSelf` | mcsr/core/supervisor.py:62-63 | a supervisor registration is only recorded |
| `Supervisor.OnSelf` | mcsr/core/supervisor.py:66-70 | `on` registers on the supervisor's bus at once, under the event's own kind only |
| `Supervisor.Echo` | mcsr/core/supervisor.py:73-82 | the message is logged, then the stream kind's handlers are scheduled and after them the `MCSR_Output` handlers, each given an args object holding just `output=msg`; under the corrected emission the futures of both kinds are resolved |
| `Supervisor.ForwardLine` | mcsr/core/supervisor.py:139-144 | each console line, without its trailing newlines, goes to every `MCSR_Stdin` handler in order |
| `Supervisor.SendAll` | mcsr/core/supervisor.py:85-89 | the loop keeps the server set, and the only error it can raise is an unlaunched server |
| `Supervisor.SendAllReference` | mcsr/core/supervisor.py:85-89 | fails exactly when some addressed server is unlaunched; otherwise every addressed server got one line and no other server changed |
| `Supervisor.SendAllRaises` | mcsr/core/supervisor.py:86-89 | the loop raises exactly when some addressed server in the key order was never launched |
| `Supervisor.SendAllAt` | mcsr/core/supervisor.py:86-89 | failure included: a server the loop got through before the first unlaunched addressed server received one line, and every other server is untouched |
| `Supervisor.SendAllStops` | mcsr/core/supervisor.py:86-89 | failure included, against the first addressed server in the key order that was never launched: the loop raises exactly when there is one; the addressed servers before it received one line, and it and every later server are untouched |
| `Supervisor.ReachIsPrefix` | mcsr/core/supervisor.py:86-89 | the servers the loop gets through are the key order up to the first unlaunched addressed server |
| `Supervisor.BroadcastAsWritten` | mcsr/core/supervisor.py:85-89 | definition of the code as written: outside a server handler, with any server present, the call raises before writing anything; compared with `Supervisor.Broadcast` by `Supervisor.BroadcastOutsideServerHandler` |
| `Supervisor.Broadcast` | mcsr/core/supervisor.py:85-89 | every server except the excluded current one gets the message exactly once, or the call reports an unlaunched server. On that failure, the addressed servers before the first unlaunched one in insertion order got the message and no other server changed |
| `Supervisor.BroadcastOutsideServerHandler` | mcsr/core/supervisor.py:87 | with one launched server and no current server, the code as written raises, while the corrected call writes `hi` |
| `Supervisor.FirstStray` | mcsr/core/supervisor.py:110-112 | the first id named by a deferred handler that is not a known server: every handler before it names no server or a known one |
| `Supervisor.RegisterEach` | mcsr/core/supervisor.py:106-114 | a handler bound to no server goes to every bus, one bound to a server goes to that bus only |
| `Supervisor.RegisterAllCons` | mcsr/core/supervisor.py:105-114 | registering `h` then the rest is registering the list `h` plus the rest |
| `Supervisor.DistributeAll` | mcsr/core/supervisor.py:105-114 | on success the same servers keep a bus each; a failure names an id that is not a known server |
| `Supervisor.DistributeFails` | mcsr/core/supervisor.py:110-112 | the distribution raises exactly at the first unknown server id |
| `Supervisor.DistributeReference` | mcsr/core/supervisor.py:105-114 | on success each bus ends as if the handlers aimed at it were registered on it alone, in order |
| `Supervisor.Start` | mcsr/core/supervisor.py:101-115 | fails exactly at an unknown id; otherwise the supervisor handlers are registered, the server handlers distributed, and `MCSR_ExtsLoaded` emitted |
| `Supervisor.StartHandlers` | mcsr/core/supervisor.py:101-114 | after the start, every bus lists under every kind its earlier handlers and then the aimed handlers of that kind |
| `Supervisor.LoadedBarrier` | mcsr/core/supervisor.py:121-123 | `MCSR_AllLoaded` is emitted exactly when every server is loaded |
| `Supervisor.StoppedBarrier` | mcsr/core/supervisor.py:125-129 | `MCSR_AllStopped` is emitted exactly when every server is stopped, and then every aware task of the supervisor is cancelled |
| `Supervisor.Run` | mcsr/core/supervisor.py:117-118 | the servers act one step at a time; only their own state changes |
| `Supervisor.FlagsPersist` | mcsr/core/supervisor.py:121-126 | whatever the servers do, a loaded server stays loaded and a loaded, stopped server stays stopped |
| `Supervisor.BarriersStable` | mcsr/core/supervisor.py:121-127 | once passed, neither barrier is undone by server activity, so waiting one server after another equals waiting for all |
| `Supervisor.Stop` | mcsr/core/supervisor.py:132-136 | every server gets `ServerBeforeStop` and, if launched, `/stop`; the unlaunched ones raise inside their own task; with no server the wait raises |

## Left out

- Scheduling, timing and `force_wait`. asyncio task interleaving, the 0.1 s sleeps of the watchers and the wall-clock timeout are not modelled. An emission is its ordered list of invocations. `force_wait` is only recorded, because it decides whether the emitter waits for the handlers, not what they receive.
- The two watchers are not run as concurrent tasks. They are modelled by one interleaved sequence of raw lines (`Server.WatchAll`).
- The regex engine. `re.findall` is the oracle `Regex.Finder`, so the `Done.` marker is matched through the oracle.
- The process itself. Reading streams, decoding bytes, spawning, `proc.wait`, `terminate` (and so `force_stop`) are outside the model. Spawning is a boolean parameter, and a line or an exit is an `Action`.
- `load_extension`, because it imports and runs arbitrary Python files.
- `aware_task`, because it only records a task handle. The aware set is modelled through `Context.ServerHandle` and `Server.Exited`.
- Printing, the timestamp and custom logger objects. A custom logger is an arbitrary object, so only `BasicLogger`'s text is modelled.
- The waiting in `stop()`, since it only waits for the exit that `Server.Exited` models.
- The Windows branch of `PathUtils.isabs`. Only POSIX paths are modelled.
- `formatter.py`, because its file is not part of this model.
- `CmdParser`'s start and separator are single characters. A longer separator string is not modelled.
- A launch failure is modelled as leaving the instance unchanged. In the code the exception ends the server's `_run` task, `loaded` is never set, and `MCSR_AllLoaded` then waits forever. The model shows this as `Supervisor.LoadedBarrier` never passing.
- The `finally: return` in `interact` also swallows exceptions other than the timeout. No other exception can arise inside the modelled loop.
- `Server.FindLoop`: its own contract only frames what it touches. What it computes is stated by `Server.FindLoopHit`, `Server.FindLoopNoHit` and `Server.InteractReference`.
- `EventBus.EmitBoth`, `Supervisor.Echo`, `Supervisor.ForwardLine`, `Supervisor.Start`, `Supervisor.LoadedBarrier` and `Supervisor.StoppedBarrier` are built on the corrected `EventBus.Emit`, not on the early return of event.py:351-353. The two differ only when a future is pending under the emitted kind (`EventBus.EmitAsWrittenAgrees`). The supervisor never registers a future on its own bus, because it has no `at`, so on that bus they always agree.
- `Server.Apply`: an `interact` issued while another exchange holds the lock waits for the lock in the code. The model leaves the instance unchanged and does not queue the waiting call for later. A suspended exchange is resumed by later lines (`Server.Resume`). The interleaving of its emissions with the watcher's `ServerLoaded` is not modelled, because `Apply` returns only the instance.
- `EventBus.Deliver`: a filtered handler whose args lack a text `output` is modelled as not running. In the code the wrapper task raises, and the exception stays inside that task.

## Findings

| source | as written | input that shows it | evidently intended | confidence | as-written member | corrected member |
|---|---|---|---|---|---|---|
| mcsr/model/event.py:351-353 | `emit` returns as soon as no handler list exists, before it resolves the futures | `at(ServerLoaded)` on an instance with no `ServerLoaded` handler, then the server loads | futures are resolved on every emission, as `register_fut` promises | not executed | `EventBus.EmitAsWrittenStrandsFutures` | `EventBus.Emit` |
| mcsr/model/event.py:341-342 | both `register_fut` overrides call the base method but do not return its future | `server.at(ServerLoaded)` returns `None`, so `await` on it fails | return the new future | not executed | `EventBus.RegisterFutAsWrittenLosesFuture` | `EventBus.RegisterFut` |
| mcsr/core/supervisor.py:87 | the condition reads the current server's id before `exclude_self`, and the id is unbound outside a server handler | `broadcast("hi")` from an `MCSR_AllLoaded` handler with one launched server raises `LookupError` | the current server is consulted only when it is to be excluded | not executed | `Supervisor.BroadcastOutsideServerHandler` | `Supervisor.Broadcast` |
| mcsr/model/event.py:205-207 | one args object is shared by all filtered handlers of an emission, and every filter runs before any body | two `ServerOutput` handlers with patterns `a` and `b` and the line `ab`: the first body reads `matched` from `b` | each body reads its own filter's match | not executed (depends on asyncio's FIFO task order) | `EventBus.SharedArgsLeakMatch` | `EventBus.Deliver` |
