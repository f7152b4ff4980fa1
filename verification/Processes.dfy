/** The pipeline as the program holds it: processes whose streams are pipes and buffers, wired up
    stage to stage, run under an arbitrary scheduler, and asked for their errors. */
module Processes {

  import opened PipelineSpec
  import opened PipelineMoves
  import opened PipelineRuns
  import opened PipelineConfluence
  import opened PipelineProgress

  /** A synchronous in-memory pipe; `closed` is about its writer's end. */
  class Pipe {
    var closed: bool

    constructor ()
      ensures !closed
    {
      closed := false;
    }
  }

  class Buffer {
    var bytes: Bytes

    constructor ()
      ensures bytes == []
    {
      bytes := [];
    }
  }

  datatype Sink = ToBuffer(buffer: Buffer) | ToPipe(pipe: Pipe)

  datatype Streams = Streams(input: Pipe, output: Sink, errors: Sink, isPiped: bool)

  /** A runner, if there is one, and the streams it will be given. */
  class Process<S> {
    const runner: Maybe<Runner<S>>
    var input: Pipe?
    var output: Maybe<Sink>
    var errors: Maybe<Sink>
    var stdinPipe: Pipe?
    var stdoutPipe: Pipe?
    var stderrPipe: Pipe?
    var outBuf: Buffer?
    var errBuf: Buffer?

    constructor (runner: Maybe<Runner<S>>)
      ensures this.runner == runner && Untouched()
    {
      this.runner := runner;
      input, output, errors := null, Nothing, Nothing;
      stdinPipe, stdoutPipe, stderrPipe, outBuf, errBuf := null, null, null, null, null;
    }

    ghost predicate Untouched()
      reads this
    {
      && input == null && output == Nothing && errors == Nothing
      && stdinPipe == null && stdoutPipe == null && stderrPipe == null && outBuf == null && errBuf == null
    }

    twostate predicate OutputsKept()
      reads this
    {
      output == old(output) && stdinPipe == old(stdinPipe) && stderrPipe == old(stderrPipe) && outBuf == old(outBuf)
    }

    method StdoutPipe() returns (r: Pipe)
      modifies this`stdoutPipe
      ensures r == stdoutPipe
      ensures if old(stdoutPipe) == null then fresh(r) && !r.closed else r == old(stdoutPipe)
    {
      if stdoutPipe == null {
        stdoutPipe := new Pipe();
      }
      r := stdoutPipe;
    }

    method SetStdin(r: Pipe)
      modifies this`input
      ensures input == r
    {
      input := r;
    }

    /** The input that was set, or else a pipe of the process's own. */
    twostate predicate InputChosen(new s: Streams)
      reads this
    {
      && s.input == input && (s.isPiped <==> old(input) != null)
      && if old(input) != null then input == old(input) && stdinPipe == old(stdinPipe)
         else input == stdinPipe && if old(stdinPipe) == null then fresh(stdinPipe) else stdinPipe == old(stdinPipe)
    }

    /** A sink that was set comes before a buffer, a buffer before a pipe, and with none of them there
        is a new buffer. */
    twostate predicate Chosen(sink: Maybe<Sink>, oldBuf: Buffer?, new buf: Buffer?, pipe: Pipe?, new got: Sink)
    {
      match Preferred(sink, oldBuf, pipe)
      case Just(first) => got == first && buf == oldBuf
      case Nothing => buf != null && fresh(buf) && got == ToBuffer(buf)
    }

    static function Preferred(sink: Maybe<Sink>, buf: Buffer?, pipe: Pipe?): Maybe<Sink> {
      if sink.Just? then sink
      else if buf != null then Just(ToBuffer(buf))
      else if pipe != null then Just(ToPipe(pipe))
      else Nothing
    }

    /** The streams for a run. Without a runner or a runtime there are none, and nothing has changed:
        no pipe will be closed. */
    method Begin(hasRuntime: bool) returns (r: Maybe<Streams>)
      modifies this`input, this`stdinPipe, this`outBuf, this`errBuf
      ensures r.Just? <==> runner.Just? && hasRuntime
      ensures r == Nothing ==> unchanged(this)
      ensures r.Just? ==> InputChosen(r.value)
      ensures r.Just? ==> Chosen(old(output), old(outBuf), outBuf, old(stdoutPipe), r.value.output)
      ensures r.Just? ==> Chosen(old(errors), old(errBuf), errBuf, old(stderrPipe), r.value.errors)
    {
      if runner == Nothing || !hasRuntime {
        return Nothing;
      }
      var isPiped := input != null;
      if input == null {
        if stdinPipe == null {
          stdinPipe := new Pipe();
        }
        input := stdinPipe;
      }
      var out: Sink;
      if output.Just? {
        out := output.value;
      } else if outBuf != null {
        out := ToBuffer(outBuf);
      } else if stdoutPipe != null {
        out := ToPipe(stdoutPipe);
      } else {
        outBuf := new Buffer();
        out := ToBuffer(outBuf);
      }
      var err: Sink;
      if errors.Just? {
        err := errors.value;
      } else if errBuf != null {
        err := ToBuffer(errBuf);
      } else if stderrPipe != null {
        err := ToPipe(stderrPipe);
      } else {
        errBuf := new Buffer();
        err := ToBuffer(errBuf);
      }
      r := Just(Streams(input, out, err, isPiped));
    }

    /** After the runner has returned: the writers' ends this process holds are closed, no other is;
        its readers' ends stay open, so whoever writes to one waits for ever. */
    method CloseWriters()
      modifies stdoutPipe, stderrPipe, stdinPipe
      ensures forall p :: p in {stdoutPipe, stderrPipe, stdinPipe} && p != null ==> p.closed
    {
      if stdoutPipe != null { stdoutPipe.closed := true; }
      if stderrPipe != null { stderrPipe.closed := true; }
      if stdinPipe != null { stdinPipe.closed := true; }
    }
  }

  /** A stage made from a runner, or from none: its process is made by the run. */
  datatype Command<!S> = Command(runner: Maybe<Runner<S>>, start: S)

  function Started<S>(stages: seq<Command<S>>): (r: seq<Stage<S>>)
    ensures |r| == |stages|
  {
    seq(|stages|, i requires 0 <= i < |stages| =>
      if stages[i].runner.Just? then At(stages[i].runner.value, stages[i].start) else Idle)
  }

  /** Before the first step: everything sent so far through the last buffer is in it. */
  function Initial<S>(stages: seq<Command<S>>, out: Bytes): (c: Config<S>)
    requires stages != []
    ensures Shaped(c)
  {
    var nothing := seq(|stages|, _ => []);
    Config(Started(stages), out, multiset{}, nothing[|stages| - 1 := out], nothing)
  }

  /** What a command does alone on this source: fl, within this much fuel. Without a runner it writes
      nothing, reads nothing and returns an error with its pipe left open. */
  ghost predicate Behaves<S>(cmd: Command<S>, src: Source, fuel: nat, fl: Flow) {
    match cmd.runner
    case Nothing => fl == Flow([], src.chunks, Just(Outcome(1, true, false)), 1)
    case Just(act) => Exec(At(act, cmd.start), src, fuel) == Just(fl)
  }

  /** What the commands do one after the other, each alone on what the one before it wrote; the first one
      has nothing to read. */
  ghost predicate InTurn<S>(stages: seq<Command<S>>, fuel: nat, fls: seq<Flow>) {
    && |fls| == |stages| > 0 && Behaves(stages[0], Source([], false), fuel, fls[0])
    && forall i :: 0 < i < |stages| ==> Behaves(stages[i], Output(fls[i - 1]), fuel, fls[i])
  }

  /** The composition of the started stages is just that. */
  lemma InTurnIsExecAll<S>(stages: seq<Command<S>>, fuel: nat, fls: seq<Flow>)
    requires stages != []
    ensures InTurn(stages, fuel, fls) <==> ExecAll(Started(stages), SILENT, fuel) == Just(fls)
  {
    hide Exec;
    ChainIsExecAll(Started(stages), SILENT, fuel, fls);
    assert forall k, src, fl {:trigger Behaves(stages[k], src, fuel, fl)} :: 0 <= k < |stages| ==>
        (Behaves(stages[k], src, fuel, fl) <==> Exec(Started(stages)[k], src, fuel) == Just(fl)) by {
      forall k, src, fl | 0 <= k < |stages|
        ensures Behaves(stages[k], src, fuel, fl) <==> Exec(Started(stages)[k], src, fuel) == Just(fl)
      {
        ExecOfIdle<S>(src, fuel);
      }
    }
  }

  lemma ExecOfIdle<S>(src: Source, fuel: nat)
    ensures Exec<S>(Idle, src, fuel) == Just(Flow([], src.chunks, Just(REFUSED), 1))
  {
  }

  lemma {:induction false} StartedFlags<S>(stages: seq<Stage<S>>)
    requires forall j :: 0 <= j < |stages| ==> !stages[j].Done?
    ensures Flags(stages) == multiset{}
  {
    if stages != [] {
      StartedFlags(stages[1..]);
    }
  }

  lemma InitialLedger<S>(stages: seq<Command<S>>, out: Bytes)
    requires stages != []
    ensures Ledger(Initial(stages, out))
  {
    StartedFlags(Started(stages));
  }

  /** The runs of one pipeline share its output buffer. */
  class Pipeline<S> {
    const stages: seq<Command<S>>
    var outBuf: Buffer?
    var errBuf: Buffer?

    constructor (stages: seq<Command<S>>)
      ensures this.stages == stages && outBuf == null && errBuf == null
    {
      this.stages := stages;
      outBuf, errBuf := null, null;
    }

    function Captured(): Bytes
      reads this, outBuf
    {
      if outBuf == null then [] else outBuf.bytes
    }

    function Inputs(procs: seq<Process<S>>): (r: seq<Pipe?>)
      reads procs
      ensures |r| == |procs|
    {
      seq(|procs|, i requires 0 <= i < |procs| reads procs => procs[i].input)
    }

    /** A process in its place in the chain, when stage i reads inputs[i]: its output is the pipe that
        the next one reads, or else this buffer. */
    ghost predicate Placed(k: nat, p: Process<S>, inputs: seq<Pipe?>, buf: Buffer?)
      requires k < |inputs| == |stages|
      reads p
    {
      && p.runner == stages[k].runner && p.output == Nothing && p.stdinPipe == null && p.stderrPipe == null
      && p.input == inputs[k] && (p.input == null <==> k == 0)
      && if k + 1 < |inputs| then p.outBuf == null && p.stdoutPipe == inputs[k + 1] != null
         else p.outBuf == buf && p.stdoutPipe == null
    }

    /** Each process reads the pipe that the one before writes, and no other does. */
    ghost predicate Wired(procs: seq<Process<S>>, buf: Buffer?)
      reads procs
    {
      && |procs| == |stages| > 0
      && (forall i :: 0 <= i < |procs| ==> Placed(i, procs[i], Inputs(procs), buf))
      && (forall i, j :: 0 <= i < j < |procs| ==> procs[i] != procs[j] && procs[i].input != procs[j].input)
    }

    method MakeProcesses() returns (procs: seq<Process<S>>)
      ensures |procs| == |stages|
      ensures forall i :: 0 <= i < |procs| ==>
          fresh(procs[i]) && procs[i].Untouched() && procs[i].runner == stages[i].runner
      ensures forall i, j :: 0 <= i < j < |procs| ==> procs[i] != procs[j]
    {
      procs := [];
      for k := 0 to |stages|
        invariant |procs| == k
        invariant forall i :: 0 <= i < k ==>
            fresh(procs[i]) && procs[i].Untouched() && procs[i].runner == stages[i].runner
        invariant forall i, j :: 0 <= i < j < k ==> procs[i] != procs[j]
      {
        var p := new Process<S>(stages[k].runner);
        procs := procs + [p];
      }
    }

    ghost predicate Joined(procs: seq<Process<S>>)
      reads procs
    {
      && |procs| == |stages| > 0 && procs[0].input == null && procs[|procs| - 1].stdoutPipe == null
      && (forall i :: 0 < i < |procs| ==> procs[i].input != null && procs[i].input == procs[i - 1].stdoutPipe)
      && (forall i, j :: 0 <= i < j < |procs| ==> procs[i] != procs[j] && procs[i].input != procs[j].input)
    }

    method JoinProcesses(procs: seq<Process<S>>)
      requires |procs| == |stages| > 0
      requires forall i :: 0 <= i < |procs| ==> procs[i].input == null && procs[i].stdoutPipe == null
      requires forall i, j :: 0 <= i < j < |procs| ==> procs[i] != procs[j]
      modifies procs
      ensures Joined(procs) && forall i :: 0 <= i < |procs| ==> procs[i].OutputsKept()
      ensures forall i :: 0 < i < |procs| ==> fresh(procs[i].input) && !procs[i].input.closed
    {
      for k := 0 to |procs| - 1
        invariant forall i :: 0 <= i < |procs| ==> procs[i].OutputsKept()
        invariant forall i :: 0 <= i < |procs| ==>
          (i >= k ==> procs[i].stdoutPipe == null) && (i > k || i == 0 ==> procs[i].input == null)
        invariant forall i :: 0 < i <= k ==>
          procs[i].input != null && procs[i].input == procs[i - 1].stdoutPipe && fresh(procs[i].input)
            && !procs[i].input.closed
        invariant forall i, j :: 0 < i < j <= k ==> procs[i].input != procs[j].input
      {
        var r := procs[k].StdoutPipe();
        procs[k + 1].SetStdin(r);
      }
    }

    lemma JoinedIsWired(procs: seq<Process<S>>)
      requires Joined(procs)
      requires forall i :: 0 <= i < |procs| ==>
        && procs[i].runner == stages[i].runner && procs[i].output == Nothing && procs[i].outBuf == null
        && procs[i].stdinPipe == null && procs[i].stderrPipe == null
      ensures Wired(procs, null)
    {
      forall i | 0 <= i < |procs| ensures Placed(i, procs[i], Inputs(procs), null) {
        assert i + 1 < |procs| ==> procs[i + 1].input == procs[i].stdoutPipe;
        assert i > 0 ==> procs[i].input != null;
      }
    }

    /** The processes, joined, with the last one not yet captured. */
    method Chain() returns (procs: seq<Process<S>>)
      requires stages != []
      ensures Wired(procs, null) && forall i :: 0 <= i < |procs| ==> fresh(procs[i])
      ensures forall i :: 0 < i < |procs| ==> fresh(procs[i].input) && !procs[i].input.closed
    {
      hide Wired, Placed, Inputs;
      procs := MakeProcesses();
      JoinProcesses(procs);
      JoinedIsWired(procs);
    }

    method Wire() returns (procs: seq<Process<S>>, ghost inputs: seq<Pipe?>)
      requires stages != [] && outBuf != null && errBuf != null
      ensures Wired(procs, outBuf) && |procs| == |stages| && inputs == Inputs(procs)
      ensures forall i :: 0 <= i < |procs| ==> fresh(procs[i])
      ensures forall i :: 0 < i < |inputs| ==> inputs[i] != null && fresh(inputs[i]) && !inputs[i].closed
      ensures forall i, j :: 0 < i < j < |inputs| ==> inputs[i] != inputs[j]
    {
      hide Placed;
      procs := Chain();
      inputs := Inputs(procs);
      assert forall i :: 0 <= i < |procs| ==> procs[i].input == inputs[i];
      Capture(procs);
    }

    method Capture(procs: seq<Process<S>>)
      requires Wired(procs, null)
      modifies procs
      ensures Wired(procs, outBuf) && Inputs(procs) == old(Inputs(procs))
    {
      hide Placed;
      var last := procs[|procs| - 1];
      ghost var inputs := Inputs(procs);
      CaptureLast(last, inputs);
      assert Inputs(procs) == inputs;
      forall i | 0 <= i < |procs| - 1 ensures Placed(i, procs[i], inputs, outBuf) {
        assert procs[i] != last && Placed(i, procs[i], inputs, null);
        BufferIsForTheLast(i, procs[i], inputs, null, outBuf);
      }
    }

    lemma BufferIsForTheLast(k: nat, p: Process<S>, inputs: seq<Pipe?>, buf: Buffer?, other: Buffer?)
      requires k + 1 < |inputs| == |stages| && Placed(k, p, inputs, buf)
      ensures Placed(k, p, inputs, other)
    {
    }

    method CaptureLast(last: Process<S>, ghost inputs: seq<Pipe?>)
      requires |inputs| == |stages| > 0 && Placed(|inputs| - 1, last, inputs, null)
      modifies last`outBuf, last`errBuf
      ensures Placed(|inputs| - 1, last, inputs, outBuf)
    {
      last.outBuf := outBuf;
      last.errBuf := errBuf;
    }

    /** Every process with a runner is given the streams of its place in the chain: what stage i writes is what
        stage i + 1 reads, the first stage reads a pipe of its own that no other process has, and the
        last one writes the pipeline's buffer. */
    method BeginAll(procs: seq<Process<S>>) returns (streams: seq<Maybe<Streams>>)
      requires Wired(procs, outBuf) && outBuf != null
      modifies procs
      ensures |streams| == |procs| && (streams[0].Just? ==> fresh(streams[0].value.input))
      ensures forall i :: 0 <= i < |procs| ==>
          Fits(i, streams[i], old(Inputs(procs))) && Holds(i, procs[i], old(Inputs(procs)))
      ensures forall i :: 0 <= i < |procs| && procs[i].stdinPipe != null ==> fresh(procs[i].stdinPipe)
    {
      hide Placed, Fits, Holds, Inputs;
      ghost var inputs := Inputs(procs);
      streams := [];
      for k := 0 to |procs|
        invariant |streams| == k
        invariant forall i :: k <= i < |procs| ==> Placed(i, procs[i], inputs, outBuf)
        invariant k > 0 && streams[0].Just? ==> fresh(streams[0].value.input)
        invariant forall i :: 0 <= i < k ==> Fits(i, streams[i], inputs) && Holds(i, procs[i], inputs)
        invariant forall i :: 0 <= i < k && procs[i].stdinPipe != null ==> fresh(procs[i].stdinPipe)
      {
        var s := BeginOne(k, procs[k], inputs);
        streams := streams + [s];
      }
    }

    /** The streams of stage k, if it has a runner, when stage i reads inputs[i]: the first one reads no
        pipe of the chain, every other one what the stage before it writes. */
    ghost predicate Fits(k: nat, s: Maybe<Streams>, inputs: seq<Pipe?>)
      requires k < |inputs| == |stages|
      reads this
    {
      && (s.Just? <==> stages[k].runner.Just?)
      && (s.Just? ==>
            && (s.value.isPiped <==> k > 0) && (k > 0 ==> s.value.input == inputs[k])
            && if k + 1 < |inputs| then inputs[k + 1] != null && s.value.output == ToPipe(inputs[k + 1])
               else outBuf != null && s.value.output == ToBuffer(outBuf))
    }

    /** The writers' ends that a process of the chain will close: that of the next one's input, and one
        that is nobody else's. */
    ghost predicate Holds(k: nat, p: Process<S>, inputs: seq<Pipe?>)
      requires k < |inputs|
      reads p
    {
      && p.stderrPipe == null && p.stdoutPipe == (if k + 1 < |inputs| then inputs[k + 1] else null)
      && (p.stdinPipe != null ==> p.stdinPipe !in inputs)
    }

    method BeginOne(ghost k: nat, p: Process<S>, ghost inputs: seq<Pipe?>) returns (s: Maybe<Streams>)
      requires k < |inputs| == |stages| && Placed(k, p, inputs, outBuf) && outBuf != null
      modifies p
      ensures Fits(k, s, inputs) && (k == 0 && s.Just? ==> fresh(s.value.input)) && Holds(k, p, inputs)
      ensures p.stdinPipe != null ==> fresh(p.stdinPipe)
    {
      s := p.Begin(true);
    }

    /** Runs the stages, in any order they can move in, and collects their errors. The output of an
        earlier run stays in front of this one's; a runner's own exit code is not looked at. Where the
        program waits for ever, `finished` is false. Some run halts; then all do. */
    method Run(hasRuntime: bool, ghost halting: seq<nat>) returns (finished: bool, exitCode: nat, stdout: Bytes)
      requires hasRuntime && stages != [] ==> Halts(Initial(stages, Captured()), halting)
      modifies this, outBuf
      ensures !hasRuntime || stages == [] ==>
        finished && exitCode == 1 && stdout == [] && unchanged(this) && Captured() == old(Captured())
      ensures hasRuntime && stages != [] ==>
        && (finished <==> exists fuel: nat, fls: seq<Flow> :: InTurn(stages, fuel, fls) && AllEnd(fls))
        && forall fuel: nat, fls: seq<Flow> :: InTurn(stages, fuel, fls) ==>
             && (finished <==> AllEnd(fls))
             && (finished ==>
                   && stdout == Captured() == old(Captured()) + Flatten(fls[|fls| - 1].out)
                   && exitCode == if exists j :: 0 <= j < |fls| && Errs(fls[j]) then 1 else 0)
    {
      hide InTurn, AllEnd, Flatten, Initial, Holds, Ends, ClosedWhenDone, Errs, Halts;
      if !hasRuntime || stages == [] {
        return true, 1, [];
      }
      ghost var before := Captured();
      if outBuf == null { outBuf := new Buffer(); }
      if errBuf == null { errBuf := new Buffer(); }
      var procs;
      ghost var inputs;
      procs, inputs := Prepare();
      var errs;
      finished, outBuf.bytes, errs := RunStages(procs, inputs, outBuf.bytes, halting);
      var failures := CountErrors(errs);
      exitCode, stdout := if failures > 0 then 1 else 0, outBuf.bytes;
    }

    ghost function Ends(procs: seq<Process<S>>): set<Pipe?>
      reads procs
    {
      (set i | 0 <= i < |procs| :: procs[i].stdoutPipe) + set i | 0 <= i < |procs| :: procs[i].stdinPipe
    }

    /** A pipe of the chain is closed when the stage that writes it has returned from its runner: what
        its reader sees as the end of input. */
    ghost predicate ClosedWhenDone(inputs: seq<Pipe?>, now: seq<Stage<S>>)
      requires |inputs| == |now|
      reads inputs
    {
      forall i :: 0 < i < |inputs| ==> inputs[i] != null && (inputs[i].closed <==> Closed(now[i - 1]))
    }

    /** Makes the processes and gives them their streams. */
    method Prepare() returns (procs: seq<Process<S>>, ghost inputs: seq<Pipe?>)
      requires stages != [] && outBuf != null && errBuf != null
      ensures |procs| == |inputs| == |stages| && forall i :: 0 <= i < |procs| ==> Holds(i, procs[i], inputs)
      ensures forall i :: 0 <= i < |procs| ==> procs[i].runner == stages[i].runner
      ensures forall i, j :: 0 < i < j < |inputs| ==> inputs[i] != inputs[j]
      ensures ClosedWhenDone(inputs, Started(stages))
      ensures forall p: Pipe :: p in Ends(procs) ==> fresh(p)
    {
      hide Wired, Placed, Fits, Inputs, Holds, Ends;
      procs, inputs := Wire();
      WiredRunners(procs, outBuf);
      var streams := BeginAll(procs);
      forall p: Pipe | p in Ends(procs) ensures fresh(p) {
        var i := EndBelongsTo(procs, inputs, p);
      }
    }

    lemma WiredRunners(procs: seq<Process<S>>, buf: Buffer?)
      requires Wired(procs, buf)
      ensures forall i :: 0 <= i < |procs| ==> procs[i].runner == stages[i].runner
    {
      assert forall i :: 0 <= i < |procs| ==> Placed(i, procs[i], Inputs(procs), buf);
    }

    lemma EndBelongsTo(procs: seq<Process<S>>, inputs: seq<Pipe?>, p: Pipe) returns (i: nat)
      requires |procs| == |inputs| && forall k :: 0 <= k < |procs| ==> Holds(k, procs[k], inputs)
      requires p in Ends(procs)
      ensures i < |procs| && (procs[i].stdinPipe == p || (i + 1 < |procs| && inputs[i + 1] == p))
    {
      i :| 0 <= i < |procs| && (procs[i].stdoutPipe == p || procs[i].stdinPipe == p);
    }

    /** The stage at st is its process's: it runs the process's runner, and if there is none, it is idle. */
    ghost predicate Drives(p: Process<S>, st: Stage<S>) {
      match st
      case Idle => p.runner == Nothing
      case At(act, _) => p.runner == Just(act)
      case Writing(act, _, _) => p.runner == Just(act)
      case Done(_) => true
    }

    lemma StartedDrives(procs: seq<Process<S>>, out: Bytes)
      requires |procs| == |stages| > 0 && forall i :: 0 <= i < |procs| ==> procs[i].runner == stages[i].runner
      ensures forall i :: 0 <= i < |procs| ==> Drives(procs[i], Initial(stages, out).stages[i])
    {
    }

    lemma StepDrives(procs: seq<Process<S>>, c: Config<S>, i: nat)
      requires Shaped(c) && Enabled(c, i) && |procs| == |c.stages|
      requires forall k :: 0 <= k < |procs| ==> Drives(procs[k], c.stages[k])
      ensures forall k :: 0 <= k < |procs| ==> Drives(procs[k], Step(c, i).stages[k])
    {
    }

    /** The stages run concurrently: which of those that can move does so next is left open. A stage
        whose runner returns closes its ends. */
    method RunStages(procs: seq<Process<S>>, ghost inputs: seq<Pipe?>, out: Bytes, ghost halting: seq<nat>)
      returns (finished: bool, finalOut: Bytes, errs: multiset<bool>)
      requires stages != [] && Halts(Initial(stages, out), halting)
      requires |procs| == |inputs| == |stages| && forall i :: 0 <= i < |procs| ==> Holds(i, procs[i], inputs)
      requires forall i :: 0 <= i < |procs| ==> procs[i].runner == stages[i].runner
      requires ClosedWhenDone(inputs, Started(stages)) && forall i, j :: 0 < i < j < |inputs| ==> inputs[i] != inputs[j]
      modifies Ends(procs)
      ensures finished <==> exists fuel: nat, fls: seq<Flow> :: InTurn(stages, fuel, fls) && AllEnd(fls)
      ensures forall fuel: nat, fls: seq<Flow> :: InTurn(stages, fuel, fls) ==>
        && |fls| == |stages| && (finished <==> AllEnd(fls))
        && (finished ==>
              && |errs| == |fls| && finalOut == out + Flatten(fls[|fls| - 1].out)
              && (true in errs <==> exists j :: 0 <= j < |fls| && Errs(fls[j]))
              && forall i :: 0 < i < |inputs| ==>
                  inputs[i] != null && (inputs[i].closed <==> Output(fls[i - 1]).closed))
    {
      hide Step, Enabled, Flags, Flatten, AllEnd, CanMove, Holds, Ends, Errs, Halts, InTurn, Drives;
      var c := Initial(stages, out);
      ghost var first, schedule: seq<nat> := c, [];
      StartedDrives(procs, out);
      while exists i :: 0 <= i < |c.stages| && Enabled(c, i)
        invariant Shaped(c) && Shaped(first) && |c.stages| == |stages| && ClosedWhenDone(inputs, c.stages)
        invariant forall i :: 0 <= i < |procs| ==> Drives(procs[i], c.stages[i])
        invariant PipelineRuns.Run(first, schedule) == Just(c) && |schedule| <= |halting|
        decreases |halting| - |schedule|
      {
        hide ClosedWhenDone;
        var i :| 0 <= i < |c.stages| && Enabled(c, i);
        RunThenStep(first, schedule, i);
        StepDrives(procs, c, i);
        CloseIfDone(procs, inputs, c, i);
        schedule := schedule + [i];
        c := Step(c, i);
        HaltingRunsAgree(first, halting, schedule);
      }
      finished := forall i :: 0 <= i < |c.stages| ==> c.stages[i].Done?;
      finalOut, errs := c.out, c.errs;
      EndOfRun(stages, out, schedule);
    }

    method CloseIfDone(procs: seq<Process<S>>, ghost inputs: seq<Pipe?>, c: Config<S>, i: nat)
      requires Shaped(c) && Enabled(c, i) && |procs| == |inputs| == |c.stages|
      requires forall k :: 0 <= k < |procs| ==> Holds(k, procs[k], inputs)
      requires ClosedWhenDone(inputs, c.stages) && forall i, j :: 0 < i < j < |inputs| ==> inputs[i] != inputs[j]
      modifies Ends(procs)
      ensures ClosedWhenDone(inputs, Step(c, i).stages)
    {
      hide Step, Enabled, Holds;
      OnlyTheMoverCloses(c, i);
      if Closed(Step(c, i).stages[i]) {
        CloseEnds(i, procs[i], procs, inputs);
        assert forall k :: 0 < k < |inputs| ==> inputs[k] in inputs;
      }
    }

    method CloseEnds(ghost i: nat, p: Process<S>, ghost procs: seq<Process<S>>, ghost inputs: seq<Pipe?>)
      requires i < |procs| == |inputs| && p == procs[i] && Holds(i, p, inputs)
      modifies p.stdoutPipe, p.stdinPipe
      ensures i + 1 < |inputs| && inputs[i + 1] != null ==> inputs[i + 1].closed
      ensures forall q :: q in inputs && q != null && (i + 1 < |inputs| ==> q != inputs[i + 1]) ==>
          q.closed == old(q.closed)
    {
      p.CloseWriters();
    }
  }

  /** Of the stages, only the one that moves can close its pipe, and it had not. */
  lemma OnlyTheMoverCloses<S>(c: Config<S>, i: nat)
    requires Shaped(c) && Enabled(c, i)
    ensures i < |c.stages| && !Closed(c.stages[i])
    ensures forall j :: 0 <= j < |c.stages| && j != i ==> (Closed(Step(c, i).stages[j]) <==> Closed(c.stages[j]))
  {
  }

  lemma SomeFlag(left: multiset<bool>)
    requires |left| > 0
    ensures true in left || false in left
  {
    if true !in left && false !in left {
      assert forall b: bool :: left[b] == 0;
    }
  }

  /** Empties the error channel, in whatever order its entries come. */
  method CountErrors(errs: multiset<bool>) returns (failures: nat)
    ensures failures == errs[true]
  {
    var left := errs;
    failures := 0;
    while |left| > 0
      invariant failures + left[true] == errs[true]
      decreases |left|
    {
      SomeFlag(left);
      var err :| err in left;
      left := left - multiset{err};
      if err { failures := failures + 1; }
    }
  }

  lemma StuckWhenNoneCan<S>(c: Config<S>)
    requires !exists i :: 0 <= i < |c.stages| && Enabled(c, i)
    ensures Stuck(c)
  {
  }

  /** What a freshly started pipeline leaves behind when none of its stages can move any more. */
  lemma EndOfRun<S>(stages: seq<Command<S>>, out: Bytes, schedule: seq<nat>)
    requires stages != [] && Run(Initial(stages, out), schedule).Just?
    requires var d := Run(Initial(stages, out), schedule).value; !exists i :: 0 <= i < |d.stages| && Enabled(d, i)
    ensures AllDone(Run(Initial(stages, out), schedule).value.stages)
       <==> exists fuel: nat, fls: seq<Flow> :: InTurn(stages, fuel, fls) && AllEnd(fls)
    ensures forall fuel: nat, fls: seq<Flow> :: InTurn(stages, fuel, fls) ==>
              Leaves(Run(Initial(stages, out), schedule).value, out, fls)
  {
    hide Run, ExecAll, AllEnd, AllDone, Enabled, Leaves, InTurn;
    var c := Initial(stages, out);
    StuckWhenNoneCan(Run(c, schedule).value);
    assert Halts(c, schedule);
    BlocksIff(c);
    if fuel: nat :| Composes(c, fuel) {
      InTurnIsExecAll(stages, fuel, ExecAll(c.stages, SILENT, fuel).value);
    }
    forall fuel: nat, fls: seq<Flow> | InTurn(stages, fuel, fls)
      ensures Leaves(Run(c, schedule).value, out, fls) && (AllEnd(fls) ==> Composes(c, fuel))
    {
      InTurnIsExecAll(stages, fuel, fls);
      EndWithFuel(stages, out, schedule, fuel);
    }
  }

  /** d is what a run leaves whose stages alone behave as fls say. */
  ghost predicate Leaves<S>(d: Config<S>, out: Bytes, fls: seq<Flow>) {
    && |fls| == |d.stages| > 0 && (AllDone(d.stages) <==> AllEnd(fls))
    && (AllDone(d.stages) ==>
          && |fls| == |d.errs|
          && d.out == out + Flatten(fls[|fls| - 1].out)
          && (true in d.errs <==> exists j :: 0 <= j < |fls| && Errs(fls[j]))
          && forall j :: 0 <= j < |fls| ==> (Closed(d.stages[j]) <==> Output(fls[j]).closed))
  }

  lemma EndWithFuel<S>(stages: seq<Command<S>>, out: Bytes, schedule: seq<nat>, fuel: nat)
    requires stages != [] && ExecAll(Started(stages), SILENT, fuel).Just? && Halts(Initial(stages, out), schedule)
    ensures Leaves(Run(Initial(stages, out), schedule).value, out, ExecAll(Started(stages), SILENT, fuel).value)
  {
    hide Run, ExecAll, AllEnd, AllDone, Stuck, Leaves, Ledger;
    var c := Initial(stages, out);
    BlocksIff(c);
    ExecAllLength(c.stages, SILENT, fuel);
    InitialLedger(stages, out);
    if Completes(c, schedule) {
      CompletedLeaves(c, schedule, fuel);
    } else {
      BlockedLeaves(Run(c, schedule).value, out, ExecAll(c.stages, SILENT, fuel).value);
    }
  }

  lemma BlockedLeaves<S>(d: Config<S>, out: Bytes, fls: seq<Flow>)
    requires |fls| == |d.stages| > 0 && !AllDone(d.stages) && !AllEnd(fls)
    ensures Leaves(d, out, fls)
  {
  }

  lemma CompletedLeaves<S>(c: Config<S>, schedule: seq<nat>, fuel: nat)
    requires Ledger(c) && Completes(c, schedule) && ExecAll(c.stages, SILENT, fuel).Just?
    ensures Leaves(Run(c, schedule).value, c.out, ExecAll(c.stages, SILENT, fuel).value)
  {
    hide Run, ExecAll, Flags, Flatten, AllDone, Errs;
    var f := CompletedRunIsComposition(c, schedule);
    var g := ExitCodeIff(c, schedule);
    ExecAllIsUnique(c.stages, SILENT, f, fuel);
    ExecAllIsUnique(c.stages, SILENT, g, fuel);
    LedgerHolds(c, schedule);
  }
}
