/** One supervised server instance: lifecycle flags, the output pipeline
    (two stream watchers sharing one line queue and a drain lock), the
    interact protocol, and `send`. Emissions are returned rather than
    performed; the bus semantics live in `EventBus`. */
module Server {
  import opened Wrappers
  import opened Errors
  import opened Text
  import opened Paths
  import opened Events
  import opened EventArgs
  import opened EventBus
  import opened Loader
  import Regex

  type TaskId = nat

  /** An `interact` call suspended in its `find()` loop on an empty queue:
      its pattern, reuse flag, block pattern and whether a deadline can end
      it. */
  datatype Waiting = Waiting(pattern: string, reuse: bool, block: Option<string>, hasTimeout: bool)

  /** `Server`: `buf` is the shared line queue, `passed` the side queue of
      lines an exchange set aside for replay, `locked` the state of the one
      lock, `waiting` the exchange holding it while suspended, and `stdin`
      every write made to the process (`None` until the process is
      launched). */
  datatype Instance = Instance(
    id: string, loader: ServerLoader, cwd: string, worldName: string,
    running: bool, loaded: bool, stopped: bool,
    buf: seq<string>, passed: seq<string>, locked: bool, waiting: Option<Waiting>,
    stdin: Option<seq<string>>, aware: set<TaskId>)

  /** `Server.__init__`: the working directory comes from the loader and
      must be absolute. A new instance is stopped, neither running nor
      loaded, with empty queues, a free lock and no process. */
  function NewInstance(id: string, loader: ServerLoader, worldName: string): (r: Result<Instance, Error>)
    ensures r.Failure? <==> !IsAbs(loader.workPath)
    ensures r.Failure? ==> r.error == RelativeWorkPath
    ensures r.Success? ==>
              var s := r.value;
              s.id == id && s.loader == loader && s.cwd == loader.workPath && s.worldName == worldName
              && s.stopped && !s.running && !s.loaded
              && s.buf == [] && s.passed == [] && !s.locked && s.waiting.None?
              && s.stdin.None? && s.aware == {}
  {
    if !IsAbs(loader.workPath) then Failure(RelativeWorkPath)
    else Success(Instance(id, loader, loader.workPath, worldName, false, false, true,
                          [], [], false, None, None, {}))
  }

  /** A loader built with a defaulted working directory always yields an
      instance: the jar path was absolute, hence so is its directory. */
  lemma DefaultWorkPathAccepted(java: string, jar: string, args: ArgList, noGui: bool, id: string, world: string)
    requires NewLoader(java, jar, args, noGui, None).Success?
    ensures NewInstance(id, NewLoader(java, jar, args, noGui, None).value, world).Success?
  {
    DirNameOfAbsIsAbs(jar);
  }

  /** `send(content)`: one write of `content` and a newline; before launch
      `stdin` is `None` and the write raises. */
  function Send(inst: Instance, content: string): (r: Result<Instance, Error>)
    ensures r.Failure? <==> inst.stdin.None?
    ensures r.Failure? ==> r.error == NotLaunched
    ensures r.Success? ==> r.value == inst.(stdin := Some(inst.stdin.value + [content + "\n"]))
  {
    if inst.stdin.None? then Failure(NotLaunched)
    else Success(inst.(stdin := Some(inst.stdin.value + [content + "\n"])))
  }

  /** `on(event, func, aware)`: registers a handler bound to this instance's
      id directly on its bus. */
  function On(bus: Bus, inst: Instance, spec: EventSpec, callback: nat, aware: bool): (b: Bus)
    ensures HandlersOf(b, Instantiate(spec).kind)
            == HandlersOf(bus, Instantiate(spec).kind) + [Handler(Instantiate(spec), Some(inst.id), callback, aware)]
    ensures forall k :: k != Instantiate(spec).kind ==> HandlersOf(b, k) == HandlersOf(bus, k)
    ensures b.futMap == bus.futMap
  {
    RegisterOthers(bus, Handler(Instantiate(spec), Some(inst.id), callback, aware));
    Register(bus, Handler(Instantiate(spec), Some(inst.id), callback, aware))
  }

  // ---------------------------------------------------------------------
  // Output pipeline

  /** `ServerOutput` emissions for `lines`, in order. */
  function OutputsOf(lines: seq<string>): (es: seq<Emission>)
    ensures |es| == |lines|
    ensures forall i :: 0 <= i < |lines| ==> es[i] == OutputEmission(ServerOutput, lines[i])
  {
    seq(|lines|, i requires 0 <= i < |lines| => OutputEmission(ServerOutput, lines[i]))
  }

  /** The lines delivered as `ServerOutput` by a sequence of emissions. */
  function OutputLines(es: seq<Emission>): seq<string>
    decreases |es|
  {
    if |es| == 0 then []
    else
      var e := es[0];
      var here := if e.kind == ServerOutput && e.args.Some? && "output" in e.args.value
                     && e.args.value["output"].Text?
                  then [e.args.value["output"].s] else [];
      here + OutputLines(es[1..])
  }

  /** How many `ServerLoaded` emissions a sequence holds. */
  function LoadedCount(es: seq<Emission>): nat
    decreases |es|
  {
    if |es| == 0 then 0
    else (if es[0].kind == ServerLoaded then 1 else 0) + LoadedCount(es[1..])
  }

  lemma {:induction false} OutputLinesConcat(a: seq<Emission>, b: seq<Emission>)
    ensures OutputLines(a + b) == OutputLines(a) + OutputLines(b)
    ensures LoadedCount(a + b) == LoadedCount(a) + LoadedCount(b)
    decreases |a|
  {
    if |a| > 0 {
      assert (a + b)[0] == a[0];
      assert (a + b)[1..] == a[1..] + b;
      OutputLinesConcat(a[1..], b);
    } else {
      assert a + b == b;
    }
  }

  /** The emissions of a list of lines deliver exactly those lines, and no
      `ServerLoaded`. */
  lemma {:induction false} OutputsOfLines(lines: seq<string>)
    ensures OutputLines(OutputsOf(lines)) == lines
    ensures LoadedCount(OutputsOf(lines)) == 0
    decreases |lines|
  {
    if |lines| > 0 {
      assert OutputsOf(lines)[1..] == OutputsOf(lines[1..]);
      OutputsOfLines(lines[1..]);
    }
  }

  /** At most one `ServerLoaded` notice, which delivers no output line. */
  lemma LoadedNotice(marks: bool, es: seq<Emission>)
    requires es == if marks then [Emission(ServerLoaded, None, false)] else []
    ensures OutputLines(es) == [] && LoadedCount(es) == (if marks then 1 else 0)
  {
    if marks {
      assert es[1..] == [];
    }
  }

  /** The outcome of one step: the new instance and what it emitted, in order. */
  datatype Step = Step(inst: Instance, out: seq<Emission>)

  /** The decoded line a watcher works with (`rstrip('\n')`). */
  function LineOf(raw: string): string {
    TrimRight(raw, '\n')
  }

  /** The decoded line is the raw line with its trailing newlines cut off:
      a prefix not ending in a newline, followed in `raw` by newlines only. */
  lemma LineOfTrims(raw: string)
    ensures LineOf(raw) <= raw && (|LineOf(raw)| > 0 ==> LineOf(raw)[|LineOf(raw)| - 1] != '\n')
    ensures forall i :: |LineOf(raw)| <= i < |raw| ==> raw[i] == '\n'
  {
  }

  /** One iteration of `_stdout_watcher` / `_stderr_watcher` for one raw line.
      An empty line is skipped. Otherwise: if not yet loaded and the marker
      pattern hits, set `loaded` and emit `ServerLoaded`; enqueue the line;
      if the lock is held, leave it queued for the holder; else drain the
      whole queue, in order, one `ServerOutput` per line. */
  function WatcherStep(inst: Instance, raw: string, find: Regex.Finder): (r: Step)
    ensures LineOf(raw) == "" ==> r == Step(inst, [])
    ensures LineOf(raw) != "" ==>
              && r.inst.loaded == (inst.loaded || Regex.Found(find, Regex.LoadedMarker, LineOf(raw)))
              && LoadedCount(r.out)
                 == (if !inst.loaded && Regex.Found(find, Regex.LoadedMarker, LineOf(raw)) then 1 else 0)
              && OutputLines(r.out) + r.inst.buf == inst.buf + [LineOf(raw)]
              && (inst.locked ==> r.inst.buf == inst.buf + [LineOf(raw)])
              && (!inst.locked ==> r.inst.buf == [])
    ensures r.inst == inst.(loaded := r.inst.loaded, buf := r.inst.buf)
  {
    var line := LineOf(raw);
    if line == "" then Step(inst, [])
    else
      var marks := !inst.loaded && Regex.Found(find, Regex.LoadedMarker, line);
      var loadedOut := if marks then [Emission(ServerLoaded, None, false)] else [];
      var queued := inst.buf + [line];
      var i1 := inst.(loaded := inst.loaded || marks);
      OutputsOfLines(queued);
      LoadedNotice(marks, loadedOut);
      OutputLinesConcat(loadedOut, OutputsOf(queued));
      if inst.locked then
        assert OutputLines(loadedOut) + queued == queued;
        Step(i1.(buf := queued), loadedOut)
      else
        assert OutputLines(loadedOut + OutputsOf(queued)) + [] == queued;
        Step(i1.(buf := []), loadedOut + OutputsOf(queued))
  }

  /** Both watchers' iterations for a sequence of raw lines, in arrival order. */
  function WatchAll(inst: Instance, raws: seq<string>, find: Regex.Finder): (r: Step)
    ensures r.inst == inst.(loaded := r.inst.loaded, buf := r.inst.buf)
    ensures inst.loaded ==> r.inst.loaded
    decreases |raws|
  {
    if |raws| == 0 then Step(inst, [])
    else
      var s := WatcherStep(inst, raws[0], find);
      var rest := WatchAll(s.inst, raws[1..], find);
      Step(rest.inst, s.out + rest.out)
  }

  /** The non-empty decoded lines, in order. */
  function NonEmptyLines(raws: seq<string>): seq<string>
    decreases |raws|
  {
    if |raws| == 0 then []
    else (if LineOf(raws[0]) == "" then [] else [LineOf(raws[0])]) + NonEmptyLines(raws[1..])
  }

  /** Some non-empty line hits the marker pattern. */
  predicate AnyMarker(raws: seq<string>, find: Regex.Finder)
    decreases |raws|
  {
    |raws| > 0
    && ((LineOf(raws[0]) != "" && Regex.Found(find, Regex.LoadedMarker, LineOf(raws[0])))
        || AnyMarker(raws[1..], find))
  }

  /** Sequence bookkeeping for chaining two conservation facts. */
  lemma Chain(a: seq<string>, b: seq<string>, rb: seq<string>, sb: seq<string>, ne: seq<string>,
              buf: seq<string>, here: seq<string>)
    requires b + rb == sb + ne && a + sb == buf + here
    ensures (a + b) + rb == buf + (here + ne)
  {
    calc {
      (a + b) + rb;
      a + (b + rb);
      a + (sb + ne);
      (a + sb) + ne;
      (buf + here) + ne;
    }
  }

  /** No line is lost or duplicated by the watchers: what they delivered
      followed by what is still queued is the old queue followed by the
      non-empty lines, in order. The lock and the side queue are untouched. */
  lemma {:induction false} WatchConservation(inst: Instance, raws: seq<string>, find: Regex.Finder)
    ensures var r := WatchAll(inst, raws, find);
            OutputLines(r.out) + r.inst.buf == inst.buf + NonEmptyLines(raws)
            && r.inst.locked == inst.locked && r.inst.passed == inst.passed
            && r.inst.stdin == inst.stdin
    decreases |raws|
  {
    if |raws| > 0 {
      var s := WatcherStep(inst, raws[0], find);
      var rest := WatchAll(s.inst, raws[1..], find);
      WatchConservation(s.inst, raws[1..], find);
      OutputLinesConcat(s.out, rest.out);
      var here := if LineOf(raws[0]) == "" then [] else [LineOf(raws[0])];
      assert OutputLines(s.out) + s.inst.buf == inst.buf + here by {
        if LineOf(raws[0]) == "" {
          assert s.out == [] && s.inst.buf == inst.buf;
        }
      }
      Chain(OutputLines(s.out), OutputLines(rest.out), rest.inst.buf, s.inst.buf,
            NonEmptyLines(raws[1..]), inst.buf, here);
    }
  }

  /** With the lock free, any non-empty line leaves the queue drained to
      empty; with it held, nothing is delivered and every line stays queued. */
  lemma {:induction false} WatchDrains(inst: Instance, raws: seq<string>, find: Regex.Finder)
    ensures var r := WatchAll(inst, raws, find);
            (!inst.locked && NonEmptyLines(raws) != [] ==> r.inst.buf == [])
            && (inst.locked ==> OutputLines(r.out) == [] && r.inst.buf == inst.buf + NonEmptyLines(raws))
    decreases |raws|
  {
    if |raws| > 0 {
      var s := WatcherStep(inst, raws[0], find);
      var rest := WatchAll(s.inst, raws[1..], find);
      var here := if LineOf(raws[0]) == "" then [] else [LineOf(raws[0])];
      assert WatchAll(inst, raws, find) == Step(rest.inst, s.out + rest.out);
      assert NonEmptyLines(raws) == here + NonEmptyLines(raws[1..]);
      assert s.inst.locked == inst.locked;
      WatchDrains(s.inst, raws[1..], find);
      if inst.locked {
        assert s.inst.buf == inst.buf + here;
        assert OutputLines(s.out) == [] by {
          if LineOf(raws[0]) != "" {
            assert |OutputLines(s.out) + s.inst.buf| == |inst.buf + here|;
          }
        }
        OutputLinesConcat(s.out, rest.out);
        ConcatAssoc(inst.buf, here, NonEmptyLines(raws[1..]));
      } else if NonEmptyLines(raws[1..]) == [] && here != [] {
        WatchConservation(s.inst, raws[1..], find);
        assert OutputLines(rest.out) + rest.inst.buf == s.inst.buf;
      }
    }
  }

  /** While no exchange holds the lock and nothing is queued, every
      non-empty line is delivered as `ServerOutput` exactly once, in arrival
      order. */
  lemma NoLossNoDuplication(inst: Instance, raws: seq<string>, find: Regex.Finder)
    requires !inst.locked && inst.buf == []
    ensures OutputLines(WatchAll(inst, raws, find).out) == NonEmptyLines(raws)
  {
    WatchConservation(inst, raws, find);
    WatchDrains(inst, raws, find);
    var r := WatchAll(inst, raws, find);
    if NonEmptyLines(raws) == [] {
      assert OutputLines(r.out) + r.inst.buf == [];
      assert |OutputLines(r.out)| + |r.inst.buf| == 0;
    } else {
      assert r.inst.buf == [];
      assert OutputLines(r.out) + [] == OutputLines(r.out);
    }
  }

  /** The loaded latch flips at most once: `ServerLoaded` is emitted once
      when the instance was not loaded and some line hits the marker, and
      never otherwise; once set, `loaded` stays set. */
  lemma {:induction false} LoadedAtMostOnce(inst: Instance, raws: seq<string>, find: Regex.Finder)
    ensures var r := WatchAll(inst, raws, find);
            r.inst.loaded == (inst.loaded || AnyMarker(raws, find))
            && LoadedCount(r.out) == (if !inst.loaded && AnyMarker(raws, find) then 1 else 0)
    decreases |raws|
  {
    if |raws| > 0 {
      var s := WatcherStep(inst, raws[0], find);
      var rest := WatchAll(s.inst, raws[1..], find);
      LoadedAtMostOnce(s.inst, raws[1..], find);
      OutputLinesConcat(s.out, rest.out);
    }
  }

  // ---------------------------------------------------------------------
  // Interact

  /** How an exchange ends: the first hit's groups; the deadline passing
      with no hit; or, with no deadline, still waiting for a line. */
  datatype Outcome = Matched(groups: Regex.Match) | TimedOut | Pending

  datatype Exchange = Exchange(inst: Instance, outcome: Outcome, out: seq<Emission>)

  /** `if block_pattern and findall(block_pattern, line)`: an empty pattern
      is falsy and blocks nothing. */
  predicate Blocks(block: Option<string>, line: string, find: Regex.Finder) {
    block.Some? && block.value != "" && Regex.Found(find, block.value, line)
  }

  /** The inner `find()` loop. Each round first re-emits the whole side
      queue as `ServerOutput`, then pulls the next queued line: a hit ends
      the loop (the line is set aside again iff `reuse`); a blocked line is
      dropped; any other line is set aside. With the queue empty the loop
      would suspend, which ends it by the deadline if there is one. */
  function FindLoop(inst: Instance, pattern: string, reuse: bool, block: Option<string>,
                    hasTimeout: bool, find: Regex.Finder): (r: Exchange)
    ensures r.inst == inst.(buf := r.inst.buf, passed := r.inst.passed)
    ensures |r.inst.buf| <= |inst.buf|
    ensures r.outcome.TimedOut? ==> hasTimeout
    decreases |inst.buf|
  {
    var flushed := OutputsOf(inst.passed);
    var i0 := inst.(passed := []);
    if |i0.buf| == 0 then Exchange(i0, if hasTimeout then TimedOut else Pending, flushed)
    else
      var line := i0.buf[0];
      var i1 := i0.(buf := i0.buf[1..]);
      var hits := find(pattern, line);
      if |hits| > 0 then
        Exchange(i1.(passed := if reuse then [line] else []), Matched(hits[0]), flushed)
      else
        var next := if Blocks(block, line, find) then i1 else i1.(passed := [line]);
        var r := FindLoop(next, pattern, reuse, block, hasTimeout, find);
        Exchange(r.inst, r.outcome, flushed + r.out)
  }

  /** `interact(sent, pattern, timeout, match_reuse, block_pattern)`: under
      the lock, write `sent` and a newline, then run the loop; the lock is
      released when the call returns, and stays held while it is pending.
      Writing before launch raises. */
  function Interact(inst: Instance, sent: string, pattern: string, hasTimeout: bool, reuse: bool,
                    block: Option<string>, find: Regex.Finder): (r: Result<Exchange, Error>)
    requires !inst.locked
    ensures r.Failure? <==> inst.stdin.None?
    ensures r.Success? ==>
              r.value.inst.stdin == Some(inst.stdin.value + [sent + "\n"])
              && r.value.inst.locked == r.value.outcome.Pending?
  {
    if inst.stdin.None? then Failure(NotLaunched)
    else
      var i1 := inst.(stdin := Some(inst.stdin.value + [sent + "\n"]), locked := true);
      var r := FindLoop(i1, pattern, reuse, block, hasTimeout, find);
      Success(r.(inst := r.inst.(locked := r.outcome.Pending?)))
  }

  /** The index of the first queued line the pattern hits, if any. */
  function FirstHit(lines: seq<string>, pattern: string, find: Regex.Finder): (k: Option<nat>)
    ensures k.Some? ==> k.value < |lines| && Regex.Found(find, pattern, lines[k.value])
                        && forall j :: 0 <= j < k.value ==> !Regex.Found(find, pattern, lines[j])
    ensures k.None? ==> forall j :: 0 <= j < |lines| ==> !Regex.Found(find, pattern, lines[j])
    decreases |lines|
  {
    if |lines| == 0 then None
    else if Regex.Found(find, pattern, lines[0]) then Some(0)
    else match FirstHit(lines[1..], pattern, find)
      case None => None
      case Some(k) => Some(k + 1)
  }

  /** The lines a block pattern lets through, in order. */
  function PassThrough(lines: seq<string>, block: Option<string>, find: Regex.Finder): seq<string>
    decreases |lines|
  {
    if |lines| == 0 then []
    else (if Blocks(block, lines[0], find) then [] else [lines[0]]) + PassThrough(lines[1..], block, find)
  }

  /** The lines a block pattern drops, in order. */
  function Dropped(lines: seq<string>, block: Option<string>, find: Regex.Finder): seq<string>
    decreases |lines|
  {
    if |lines| == 0 then []
    else (if Blocks(block, lines[0], find) then [lines[0]] else []) + Dropped(lines[1..], block, find)
  }

  /** Every line is either let through or dropped, never both nor neither. */
  lemma {:induction false} PassThroughPartition(lines: seq<string>, block: Option<string>, find: Regex.Finder)
    ensures multiset(PassThrough(lines, block, find)) + multiset(Dropped(lines, block, find)) == multiset(lines)
    decreases |lines|
  {
    if |lines| > 0 {
      var rest := lines[1..];
      var t := PassThrough(rest, block, find);
      var d := Dropped(rest, block, find);
      var x := lines[0];
      PassThroughPartition(rest, block, find);
      assert lines == [x] + rest;
      if Blocks(block, x, find) {
        assert PassThrough(lines, block, find) == [] + t;
        assert Dropped(lines, block, find) == [x] + d;
        assert multiset([x] + d) == multiset([x]) + multiset(d);
      } else {
        assert PassThrough(lines, block, find) == [x] + t;
        assert Dropped(lines, block, find) == [] + d;
        assert multiset([x] + t) == multiset([x]) + multiset(t);
      }
    }
  }

  /** One round on a line the pattern misses: the side queue is flushed,
      then the loop continues with the line set aside unless blocked. */
  lemma FindLoopMiss(inst: Instance, pattern: string, reuse: bool, block: Option<string>,
                     hasTimeout: bool, find: Regex.Finder)
    requires |inst.buf| > 0 && !Regex.Found(find, pattern, inst.buf[0])
    ensures var line := inst.buf[0];
            var next := inst.(passed := if Blocks(block, line, find) then [] else [line], buf := inst.buf[1..]);
            var r := FindLoop(next, pattern, reuse, block, hasTimeout, find);
            var whole := FindLoop(inst, pattern, reuse, block, hasTimeout, find);
            whole.inst == r.inst && whole.outcome == r.outcome
            && OutputLines(whole.out) == inst.passed + OutputLines(r.out)
  {
    var line := inst.buf[0];
    var next := inst.(passed := if Blocks(block, line, find) then [] else [line], buf := inst.buf[1..]);
    var r := FindLoop(next, pattern, reuse, block, hasTimeout, find);
    OutputsOfLines(inst.passed);
    OutputLinesConcat(OutputsOf(inst.passed), r.out);
  }

  /** Sequence bookkeeping for the lines before the first hit. */
  lemma PassThroughCons(q: seq<string>, k: nat, block: Option<string>, find: Regex.Finder)
    requires k < |q|
    ensures PassThrough(q[..k + 1], block, find)
            == (if Blocks(block, q[0], find) then [] else [q[0]]) + PassThrough(q[1..][..k], block, find)
  {
    assert q[..k + 1][1..] == q[1..][..k];
  }

  /** The loop when some queued line hits, at index `k`. */
  lemma {:induction false} FindLoopHit(inst: Instance, pattern: string, reuse: bool, block: Option<string>,
                                       hasTimeout: bool, find: Regex.Finder, k: nat)
    requires FirstHit(inst.buf, pattern, find) == Some(k)
    ensures var r := FindLoop(inst, pattern, reuse, block, hasTimeout, find);
            var q := inst.buf;
            r.outcome == Matched(find(pattern, q[k])[0]) && r.inst.buf == q[k + 1..]
            && r.inst.passed == (if reuse then [q[k]] else [])
            && OutputLines(r.out) == inst.passed + PassThrough(q[..k], block, find)
    decreases |inst.buf|
  {
    var q := inst.buf;
    if k == 0 {
      OutputsOfLines(inst.passed);
      assert q[..0] == [];
    } else {
      assert !Regex.Found(find, pattern, q[0]);
      assert FirstHit(q[1..], pattern, find) == Some(k - 1);
      var line := q[0];
      var here := if Blocks(block, line, find) then [] else [line];
      var next := inst.(passed := here, buf := q[1..]);
      var r := FindLoop(next, pattern, reuse, block, hasTimeout, find);
      var whole := FindLoop(inst, pattern, reuse, block, hasTimeout, find);
      FindLoopMiss(inst, pattern, reuse, block, hasTimeout, find);
      FindLoopHit(next, pattern, reuse, block, hasTimeout, find, k - 1);
      assert whole.inst == r.inst && whole.outcome == r.outcome;
      assert q[1..][k - 1] == q[k] && q[1..][k..] == q[k + 1..];
      PassThroughCons(q, k - 1, block, find);
      ConcatAssoc(inst.passed, here, PassThrough(q[1..][..k - 1], block, find));
      assert OutputLines(whole.out) == inst.passed + (here + PassThrough(q[1..][..k - 1], block, find));
    }
  }

  /** The loop when no queued line hits. */
  lemma {:induction false} FindLoopNoHit(inst: Instance, pattern: string, reuse: bool, block: Option<string>,
                                         hasTimeout: bool, find: Regex.Finder)
    requires FirstHit(inst.buf, pattern, find).None?
    ensures var r := FindLoop(inst, pattern, reuse, block, hasTimeout, find);
            r.outcome == (if hasTimeout then TimedOut else Pending) && r.inst.buf == []
            && r.inst.passed == []
            && OutputLines(r.out) == inst.passed + PassThrough(inst.buf, block, find)
    decreases |inst.buf|
  {
    var q := inst.buf;
    if |q| == 0 {
      OutputsOfLines(inst.passed);
    } else {
      assert !Regex.Found(find, pattern, q[0]);
      assert FirstHit(q[1..], pattern, find).None?;
      var line := q[0];
      var here := if Blocks(block, line, find) then [] else [line];
      var next := inst.(passed := here, buf := q[1..]);
      FindLoopMiss(inst, pattern, reuse, block, hasTimeout, find);
      FindLoopNoHit(next, pattern, reuse, block, hasTimeout, find);
      assert PassThrough(q, block, find) == here + PassThrough(q[1..], block, find);
      ConcatAssoc(inst.passed, here, PassThrough(q[1..], block, find));
    }
  }

  /** `interact` against an independent reference: the outcome is decided by
      the first queued line the pattern hits. Lines before it are delivered
      (after the old side queue) unless blocked; lines after it stay queued;
      the hit line is set aside iff `reuse`. Without a hit the queue is used
      up and every line let through has already been delivered, so the side
      queue ends empty. */
  lemma InteractReference(inst: Instance, sent: string, pattern: string, hasTimeout: bool, reuse: bool,
                          block: Option<string>, find: Regex.Finder)
    requires inst.stdin.Some? && !inst.locked
    ensures var r := Interact(inst, sent, pattern, hasTimeout, reuse, block, find).value;
            var q := inst.buf;
            match FirstHit(q, pattern, find)
            case Some(k) =>
              r.outcome == Matched(find(pattern, q[k])[0]) && !r.inst.locked
              && r.inst.buf == q[k + 1..]
              && r.inst.passed == (if reuse then [q[k]] else [])
              && OutputLines(r.out) == inst.passed + PassThrough(q[..k], block, find)
            case None =>
              r.outcome == (if hasTimeout then TimedOut else Pending)
              && r.inst.locked == !hasTimeout
              && r.inst.buf == [] && r.inst.passed == []
              && OutputLines(r.out) == inst.passed + PassThrough(q, block, find)
  {
    match FirstHit(inst.buf, pattern, find)
    case Some(k) => InteractHit(inst, sent, pattern, hasTimeout, reuse, block, find, k);
    case None => InteractNoHit(inst, sent, pattern, hasTimeout, reuse, block, find);
  }

  lemma InteractHit(inst: Instance, sent: string, pattern: string, hasTimeout: bool, reuse: bool,
                    block: Option<string>, find: Regex.Finder, k: nat)
    requires inst.stdin.Some? && !inst.locked && FirstHit(inst.buf, pattern, find) == Some(k)
    ensures var r := Interact(inst, sent, pattern, hasTimeout, reuse, block, find).value;
            var q := inst.buf;
            r.outcome == Matched(find(pattern, q[k])[0]) && !r.inst.locked
            && r.inst.buf == q[k + 1..]
            && r.inst.passed == (if reuse then [q[k]] else [])
            && OutputLines(r.out) == inst.passed + PassThrough(q[..k], block, find)
  {
    var i1 := inst.(stdin := Some(inst.stdin.value + [sent + "\n"]), locked := true);
    FindLoopHit(i1, pattern, reuse, block, hasTimeout, find, k);
  }

  lemma InteractNoHit(inst: Instance, sent: string, pattern: string, hasTimeout: bool, reuse: bool,
                      block: Option<string>, find: Regex.Finder)
    requires inst.stdin.Some? && !inst.locked && FirstHit(inst.buf, pattern, find).None?
    ensures var r := Interact(inst, sent, pattern, hasTimeout, reuse, block, find).value;
            r.outcome == (if hasTimeout then TimedOut else Pending)
            && r.inst.locked == !hasTimeout
            && r.inst.buf == [] && r.inst.passed == []
            && OutputLines(r.out) == inst.passed + PassThrough(inst.buf, block, find)
  {
    var i1 := inst.(stdin := Some(inst.stdin.value + [sent + "\n"]), locked := true);
    FindLoopNoHit(i1, pattern, reuse, block, hasTimeout, find);
  }

  /** A line set aside by `match_reuse` surfaces as the first `ServerOutput`
      of the next exchange on the same instance. */
  lemma ReusedLineReplayedNext(inst: Instance, sent: string, pattern: string, hasTimeout: bool,
                               block: Option<string>, sent2: string, pattern2: string, hasTimeout2: bool,
                               reuse2: bool, block2: Option<string>, find: Regex.Finder)
    requires inst.stdin.Some? && !inst.locked
    requires FirstHit(inst.buf, pattern, find).Some?
    ensures var r := Interact(inst, sent, pattern, hasTimeout, true, block, find).value;
            !r.inst.locked
            && var r2 := Interact(r.inst, sent2, pattern2, hasTimeout2, reuse2, block2, find).value;
               |OutputLines(r2.out)| > 0
               && OutputLines(r2.out)[0] == inst.buf[FirstHit(inst.buf, pattern, find).value]
  {
    InteractReference(inst, sent, pattern, hasTimeout, true, block, find);
    var r := Interact(inst, sent, pattern, hasTimeout, true, block, find).value;
    InteractReference(r.inst, sent2, pattern2, hasTimeout2, reuse2, block2, find);
  }

  /** A line reaching a suspended exchange `w`: the watcher queues it,
      since the lock is held, and the waiting `find()` takes up the queue
      again. A hit ends the exchange and frees the lock; otherwise the
      exchange keeps waiting. An empty line never reaches the queue. */
  function Resume(inst: Instance, w: Waiting, raw: string, find: Regex.Finder): (r: Exchange)
    ensures !r.outcome.TimedOut?
    ensures r.inst.locked == r.outcome.Pending?
    ensures r.inst.waiting == (if r.outcome.Pending? then Some(w) else None)
    ensures r.inst == inst.(loaded := r.inst.loaded, buf := r.inst.buf, passed := r.inst.passed,
                            locked := r.inst.locked, waiting := r.inst.waiting)
  {
    if LineOf(raw) == "" then Exchange(inst.(locked := true, waiting := Some(w)), Pending, [])
    else
      var s := WatcherStep(inst.(locked := true), raw, find);
      var x := FindLoop(s.inst, w.pattern, w.reuse, w.block, false, find);
      var pending := x.outcome.Pending?;
      Exchange(x.inst.(locked := pending, waiting := if pending then Some(w) else None), x.outcome, s.out + x.out)
  }

  /** A resumed exchange is the loop run over the queue with the new line
      appended; the watcher's own emissions deliver no line. */
  lemma ResumeIsLoop(inst: Instance, w: Waiting, raw: string, find: Regex.Finder)
    requires LineOf(raw) != ""
    ensures var s := WatcherStep(inst.(locked := true), raw, find);
            var x := FindLoop(s.inst, w.pattern, w.reuse, w.block, false, find);
            var r := Resume(inst, w, raw, find);
            s.inst.buf == inst.buf + [LineOf(raw)] && s.inst.passed == inst.passed
            && r.outcome == x.outcome && r.inst.buf == x.inst.buf && r.inst.passed == x.inst.passed
            && OutputLines(r.out) == OutputLines(x.out)
  {
    var s := WatcherStep(inst.(locked := true), raw, find);
    assert OutputLines(s.out) == [] by {
      assert |OutputLines(s.out) + s.inst.buf| == |inst.buf + [LineOf(raw)]|;
    }
    var x := FindLoop(s.inst, w.pattern, w.reuse, w.block, false, find);
    OutputLinesConcat(s.out, x.out);
  }

  /** A resumed exchange against the first-hit reference over the queue
      with the new line appended: the hit's groups come back and the lock
      is freed, lines before it are delivered (after the side queue) unless
      blocked, later lines stay queued; without a hit every let-through
      line is delivered and the exchange waits on an empty queue. */
  lemma ResumeReference(inst: Instance, w: Waiting, raw: string, find: Regex.Finder)
    requires LineOf(raw) != ""
    ensures var r := Resume(inst, w, raw, find);
            var q := inst.buf + [LineOf(raw)];
            match FirstHit(q, w.pattern, find)
            case Some(k) =>
              r.outcome == Matched(find(w.pattern, q[k])[0]) && !r.inst.locked && r.inst.waiting.None?
              && r.inst.buf == q[k + 1..]
              && r.inst.passed == (if w.reuse then [q[k]] else [])
              && OutputLines(r.out) == inst.passed + PassThrough(q[..k], w.block, find)
            case None =>
              r.outcome == Pending && r.inst.locked && r.inst.waiting == Some(w)
              && r.inst.buf == [] && r.inst.passed == []
              && OutputLines(r.out) == inst.passed + PassThrough(q, w.block, find)
  {
    match FirstHit(inst.buf + [LineOf(raw)], w.pattern, find)
    case Some(k) => ResumeHit(inst, w, raw, find, k);
    case None => ResumeNoHit(inst, w, raw, find);
  }

  lemma ResumeHit(inst: Instance, w: Waiting, raw: string, find: Regex.Finder, k: nat)
    requires LineOf(raw) != "" && FirstHit(inst.buf + [LineOf(raw)], w.pattern, find) == Some(k)
    ensures var r := Resume(inst, w, raw, find);
            var q := inst.buf + [LineOf(raw)];
            r.outcome == Matched(find(w.pattern, q[k])[0]) && !r.inst.locked && r.inst.waiting.None?
            && r.inst.buf == q[k + 1..]
            && r.inst.passed == (if w.reuse then [q[k]] else [])
            && OutputLines(r.out) == inst.passed + PassThrough(q[..k], w.block, find)
  {
    var s := WatcherStep(inst.(locked := true), raw, find);
    ResumeIsLoop(inst, w, raw, find);
    FindLoopHit(s.inst, w.pattern, w.reuse, w.block, false, find, k);
  }

  lemma ResumeNoHit(inst: Instance, w: Waiting, raw: string, find: Regex.Finder)
    requires LineOf(raw) != "" && FirstHit(inst.buf + [LineOf(raw)], w.pattern, find).None?
    ensures var r := Resume(inst, w, raw, find);
            r.outcome == Pending && r.inst.locked && r.inst.waiting == Some(w)
            && r.inst.buf == [] && r.inst.passed == []
            && OutputLines(r.out) == inst.passed + PassThrough(inst.buf + [LineOf(raw)], w.block, find)
  {
    var s := WatcherStep(inst.(locked := true), raw, find);
    ResumeIsLoop(inst, w, raw, find);
    FindLoopNoHit(s.inst, w.pattern, w.reuse, w.block, false, find);
  }

  // ---------------------------------------------------------------------
  // Lifecycle

  /** What `_run`, `interact` and `stop` do to one instance, step by step.
      `Deadline` is the moment the timeout of a suspended exchange passes. */
  datatype Action =
    | Launch(spawned: bool)
    | Line(raw: string)
    | Ask(sent: string, pattern: string, hasTimeout: bool, reuse: bool, block: Option<string>)
    | Deadline
    | Write(content: string)
    | ProcessExit

  /** `_run` after the forced-wait `ServerBeforeStart`: the loader spawns the
      process (failure is fatal and changes nothing), the pipes are taken,
      then `running` is set and `stopped` cleared. */
  function Launched(inst: Instance, spawned: bool): (r: Result<Instance, Error>)
    ensures r.Failure? <==> !spawned
    ensures r.Success? ==>
              r.value.running && !r.value.stopped && r.value.stdin == Some([])
              && r.value == inst.(stdin := r.value.stdin, running := r.value.running, stopped := r.value.stopped)
  {
    if !spawned then Failure(LaunchFailed)
    else Success(inst.(stdin := Some([]), running := true, stopped := false))
  }

  /** `_run` after the process exits: `loaded` is forced set so no barrier
      waits forever, `running` cleared, `stopped` set, `ServerStopped`
      emitted, then every aware task is cancelled (returned here). */
  function Exited(inst: Instance): (r: (Step, set<TaskId>))
    ensures r.0.inst.loaded && !r.0.inst.running && r.0.inst.stopped
    ensures r.0.inst == inst.(loaded := r.0.inst.loaded, running := r.0.inst.running, stopped := r.0.inst.stopped)
    ensures r.0.out == [Emission(ServerStopped, None, false)]
    ensures r.1 == inst.aware
  {
    (Step(inst.(loaded := true, running := false, stopped := true), [Emission(ServerStopped, None, false)]),
     inst.aware)
  }

  /** `stop()`: the forced-wait `ServerBeforeStop` is emitted first, then
      `/stop` is sent; a send before launch raises after the emission. */
  function StopRequest(inst: Instance): (r: (Step, Option<Error>))
    ensures r.0.out == [Emission(ServerBeforeStop, None, true)]
    ensures r.1.None? <==> inst.stdin.Some?
    ensures r.1.None? ==> r.0.inst.stdin == Some(inst.stdin.value + ["/stop" + "\n"])
    ensures r.1.Some? ==> r.0.inst == inst
    ensures r.0.inst.(stdin := inst.stdin) == inst
  {
    match Send(inst, "/stop")
    case Success(i) => (Step(i, [Emission(ServerBeforeStop, None, true)]), None)
    case Failure(e) => (Step(inst, [Emission(ServerBeforeStop, None, true)]), Some(e))
  }

  /** One action. Watcher lines arrive only while the process runs, the
      process exits only after it was launched, and `_run` launches once;
      a raising action leaves the instance as it was. An exchange that uses
      up the queue suspends holding the lock; later lines resume it, and
      only its deadline, if it has one, ends it without a hit. */
  function Apply(inst: Instance, a: Action, find: Regex.Finder): (r: Instance)
    ensures r.id == inst.id && r.loader == inst.loader && r.cwd == inst.cwd && r.worldName == inst.worldName
    ensures inst.locked && a.Ask? ==> r == inst
    ensures a.Deadline? ==>
              r == (if inst.locked && inst.waiting.Some? && inst.waiting.value.hasTimeout
                    then inst.(locked := false, waiting := None) else inst)
  {
    match a
    case Launch(spawned) =>
      if inst.stdin.Some? then inst
      else (match Launched(inst, spawned) case Success(i) => i case Failure(_) => inst)
    case Line(raw) =>
      if !inst.running then inst
      else if inst.locked && inst.waiting.Some? then Resume(inst, inst.waiting.value, raw, find).inst
      else WatcherStep(inst, raw, find).inst
    case Ask(sent, pattern, t, reuse, block) =>
      if inst.locked then inst
      else (match Interact(inst, sent, pattern, false, reuse, block, find)
       case Success(x) =>
         x.inst.(waiting := if x.outcome.Pending? then Some(Waiting(pattern, reuse, block, t)) else None)
       case Failure(_) => inst)
    case Deadline =>
      if inst.locked && inst.waiting.Some? && inst.waiting.value.hasTimeout
      then inst.(locked := false, waiting := None) else inst
    case Write(content) => (match Send(inst, content) case Success(i) => i case Failure(_) => inst)
    case ProcessExit => if inst.running then Exited(inst).0.inst else inst
  }

  /** An `interact` issued with the lock free and nothing queued, whose
      reply arrives after the command: the exchange suspends holding the
      lock, and the reply line ends it with the reply's groups and frees
      the lock, whatever the timeout. */
  lemma ReplyReachesAsk(inst: Instance, sent: string, pattern: string, hasTimeout: bool, reuse: bool,
                        block: Option<string>, raw: string, find: Regex.Finder)
    requires inst.stdin.Some? && inst.running && !inst.locked && inst.buf == []
    requires LineOf(raw) != "" && Regex.Found(find, pattern, LineOf(raw))
    ensures var i1 := Apply(inst, Ask(sent, pattern, hasTimeout, reuse, block), find);
            i1.locked && i1.waiting == Some(Waiting(pattern, reuse, block, hasTimeout)) && i1.buf == []
            && Resume(i1, i1.waiting.value, raw, find).outcome == Matched(find(pattern, LineOf(raw))[0])
            && Apply(i1, Line(raw), find) == Resume(i1, i1.waiting.value, raw, find).inst
            && !Apply(i1, Line(raw), find).locked
  {
    var w := Waiting(pattern, reuse, block, hasTimeout);
    InteractNoHit(inst, sent, pattern, false, reuse, block, find);
    var x := Interact(inst, sent, pattern, false, reuse, block, find).value;
    var i1 := x.inst.(waiting := Some(w));
    assert Apply(inst, Ask(sent, pattern, hasTimeout, reuse, block), find) == i1;
    assert i1.buf + [LineOf(raw)] == [LineOf(raw)];
    assert FirstHit([LineOf(raw)], pattern, find) == Some(0);
    ResumeHit(i1, w, raw, find, 0);
  }

  /** `stopped` is clear exactly while `running` is set, neither the
      process nor the loaded latch exists before launch, and the lock is
      held exactly while an exchange is suspended. */
  predicate Coherent(inst: Instance) {
    (inst.stopped <==> !inst.running)
    && (inst.running ==> inst.stdin.Some?)
    && (inst.loaded ==> inst.stdin.Some?)
    && (inst.locked <==> inst.waiting.Some?)
  }

  /** Every action keeps the flags coherent; `loaded` never resets; and once
      an instance is loaded and stopped it stays stopped, which is why the
      supervisor may wait for the flags one instance at a time. */
  lemma ApplyKeepsFlags(inst: Instance, a: Action, find: Regex.Finder)
    requires Coherent(inst)
    ensures Coherent(Apply(inst, a, find))
    ensures inst.loaded ==> Apply(inst, a, find).loaded
    ensures inst.loaded && inst.stopped ==> Apply(inst, a, find).stopped
  {
  }

  lemma NewInstanceCoherent(id: string, loader: ServerLoader, worldName: string)
    requires NewInstance(id, loader, worldName).Success?
    ensures Coherent(NewInstance(id, loader, worldName).value)
  {
  }
}
