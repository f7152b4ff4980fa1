/** A pipeline of stages joined by synchronous pipes, as an interleaved transition system, and what
    each stage computes on its own. */
module PipelineSpec {

  type Bytes = seq<int>

  /** What a runner does next: it returns an exit code and possibly an error, writes, or reads. A read
      hands over at most `size` bytes, or reports the end of input. */
  datatype Action<!S> =
    | Return(code: int, failed: bool)
    | Write(chunk: Bytes, next: S)
    | Read(size: nat, onData: Bytes -> S, onEof: S)

  /** A runner: a deterministic step machine. */
  type Runner<!S> = S -> Action<S>

  /** How a stage ended, and whether it closed its end of the pipe. */
  datatype Outcome = Outcome(code: int, failed: bool, closed: bool)

  /** A process without a runner returns at once, with an error, and closes nothing. */
  const REFUSED := Outcome(1, true, false)

  /** Where a stage is: without a runner, at a state of its runner, inside a write with some bytes not
      yet taken, or returned. */
  datatype Stage<!S> =
    | Idle
    | At(act: Runner<S>, s: S)
    | Writing(act: Runner<S>, rest: Bytes, s: S)
    | Done(outcome: Outcome)

  /** The stages; the buffer behind the last one; the error channel; and, for the record, the bytes
      every stage has sent and got. */
  datatype Config<!S> = Config(
    stages: seq<Stage<S>>, out: Bytes, errs: multiset<bool>, sent: seq<Bytes>, got: seq<Bytes>)

  function Min(a: nat, b: nat): nat {
    if a <= b then a else b
  }

  /** A stage after the reader has taken m bytes of its write: a write ends with its last byte, an
      empty one as soon as it is seen. */
  function Taken<S>(st: Stage<S>, m: nat): Stage<S>
    requires st.Writing? && m <= |st.rest|
  {
    if m == |st.rest| then At(st.act, st.s) else Writing(st.act, st.rest[m..], st.s)
  }

  ghost predicate Shaped<S>(c: Config<S>) {
    |c.sent| == |c.got| == |c.stages| > 0 && !c.stages[|c.stages| - 1].Writing?
  }

  predicate WantsInput<S>(st: Stage<S>) {
    st.At? && st.act(st.s).Read?
  }

  predicate Closed<S>(st: Stage<S>) {
    st.Done? && st.outcome.closed
  }

  /** Stage i can move: every move belongs to one stage, a transfer to the writer. A stage sees the end
      of its input once the stage before it has closed its pipe; the first stage sees it only if `src`
      says so. */
  predicate CanMove<S>(stages: seq<Stage<S>>, i: nat, src: Source)
    requires i < |stages|
  {
    match stages[i]
    case Done(_) => false
    case Idle => true
    case Writing(_, _, _) => i + 1 < |stages| && WantsInput(stages[i + 1])
    case At(act, s) => act(s).Read? ==> if i == 0 then src == Source([], true) else Closed(stages[i - 1])
  }

  /** The bytes a transfer out of stage i hands over. */
  function Transfer<S>(stages: seq<Stage<S>>, i: nat): (m: nat)
    requires i + 1 < |stages| && stages[i].Writing? && WantsInput(stages[i + 1])
    ensures m <= |stages[i].rest|
  {
    Min(stages[i + 1].act(stages[i + 1].s).size, |stages[i].rest|)
  }

  function Move<S>(stages: seq<Stage<S>>, i: nat, ghost src: Source): (r: seq<Stage<S>>)
    requires i < |stages| && CanMove(stages, i, src)
    ensures |r| == |stages|
  {
    match stages[i]
    case Done(_) => stages
    case Idle => stages[i := Done(REFUSED)]
    case Writing(_, rest, _) =>
      var (reader, m) := (stages[i + 1], Transfer(stages, i));
      stages[i := Taken(stages[i], m)][i + 1 := At(reader.act, reader.act(reader.s).onData(rest[..m]))]
    case At(act, s) =>
      match act(s)
      case Return(code, failed) => stages[i := Done(Outcome(code, failed, true))]
      case Write(chunk, next) => stages[i := if i + 1 == |stages| then At(act, next) else Writing(act, chunk, next)]
      case Read(_, _, onEof) => stages[i := At(act, onEof)]
  }

  /** Nobody ever writes to the first stage's standard input, or closes it before the stage returns. */
  predicate Enabled<S>(c: Config<S>, i: nat) {
    i < |c.stages| && CanMove(c.stages, i, SILENT)
  }

  function Step<S>(c: Config<S>, i: nat): (d: Config<S>)
    requires Shaped(c) && Enabled(c, i)
    ensures Shaped(d) && |d.stages| == |c.stages|
  {
    var moved := c.(stages := Move(c.stages, i, SILENT));
    match c.stages[i]
    case Done(_) => c
    case Idle => moved.(errs := c.errs + multiset{true})
    case Writing(_, rest, _) => moved.(got := c.got[i + 1 := c.got[i + 1] + rest[..Transfer(c.stages, i)]])
    case At(act, s) =>
      match act(s)
      case Return(_, failed) => moved.(errs := c.errs + multiset{failed})
      case Write(chunk, next) =>
        moved.(sent := c.sent[i := c.sent[i] + chunk], out := if i + 1 == |c.stages| then c.out + chunk else c.out)
      case Read(_, _, _) => moved
  }

  // ----- a stage on its own

  /** What a stage reads from: these chunks, and then the end or, if nobody closes it, nothing. */
  datatype Source = Source(chunks: seq<Bytes>, closed: bool)

  const SILENT := Source([], false)

  /** A whole run of one stage: the chunks it wrote, those it left unread, how it ended, unless it reads
      on where nothing more comes, and how many actions it took. */
  datatype Flow = Flow(out: seq<Bytes>, left: seq<Bytes>, ending: Maybe<Outcome>, actions: nat)

  /** What the next stage reads from. */
  function Output(f: Flow): Source {
    Source(f.out, f.ending.Just? && f.ending.value.closed)
  }

  datatype Maybe<T> = Nothing | Just(value: T)

  function Prepend(chunk: Bytes, f: Maybe<Flow>, actions: nat): Maybe<Flow> {
    match f
    case Nothing => Nothing
    case Just(fl) => Just(fl.(out := [chunk] + fl.out, actions := fl.actions + actions))
  }

  function Count(f: Maybe<Flow>): Maybe<Flow> {
    match f
    case Nothing => Nothing
    case Just(fl) => Just(fl.(actions := fl.actions + 1))
  }

  /** The chunks after m bytes of the first one are gone. */
  function Rest(chunks: seq<Bytes>, m: nat): seq<Bytes>
    requires chunks != [] && m <= |chunks[0]|
  {
    if m == |chunks[0]| then chunks[1..] else [chunks[0][m..]] + chunks[1..]
  }

  /** The stream function of a stage: it runs alone on all of its input. Nothing, if it needs more than
      `fuel` actions. */
  function Exec<S>(st: Stage<S>, src: Source, fuel: nat): Maybe<Flow>
    decreases fuel, if st.Writing? then 1 else 0
  {
    match st
    case Done(outcome) => Just(Flow([], src.chunks, Just(outcome), 0))
    case Idle => Just(Flow([], src.chunks, Just(REFUSED), 1))
    case Writing(act, rest, s) => Prepend(rest, Exec(At(act, s), src, fuel), 0)
    case At(act, s) =>
      if fuel == 0 then Nothing
      else
        match act(s)
        case Return(code, failed) => Just(Flow([], src.chunks, Just(Outcome(code, failed, true)), 1))
        case Write(chunk, next) => Prepend(chunk, Exec(At(act, next), src, fuel - 1), 1)
        case Read(size, onData, onEof) =>
          if src.chunks == [] then
            if src.closed then Count(Exec(At(act, onEof), src, fuel - 1)) else Just(Flow([], [], Nothing, 0))
          else
            var m := Min(size, |src.chunks[0]|);
            Count(Exec(At(act, onData(src.chunks[0][..m])), src.(chunks := Rest(src.chunks, m)), fuel - 1))
  }

  /** The composition of the stages' stream functions: each runs on the output of the one before. */
  function ExecAll<S>(stages: seq<Stage<S>>, src: Source, fuel: nat): Maybe<seq<Flow>> {
    if stages == [] then Just([])
    else
      match Exec(stages[0], src, fuel)
      case Nothing => Nothing
      case Just(fl) =>
        match ExecAll(stages[1..], Output(fl), fuel)
        case Nothing => Nothing
        case Just(fls) => Just([fl] + fls)
  }

  function Flatten(chunks: seq<Bytes>): Bytes {
    if chunks == [] then [] else chunks[0] + Flatten(chunks[1..])
  }

  function Actions(fls: seq<Flow>): nat {
    if fls == [] then 0 else fls[0].actions + Actions(fls[1..])
  }

  // ----- fuel

  lemma {:induction false} MoreFuel<S>(st: Stage<S>, src: Source, fuel: nat, more: nat)
    requires Exec(st, src, fuel).Just? && fuel <= more
    ensures Exec(st, src, more) == Exec(st, src, fuel)
    decreases fuel, if st.Writing? then 1 else 0
  {
    match st
    case Done(_) =>
    case Idle =>
    case Writing(act, rest, s) => MoreFuel(At(act, s), src, fuel, more);
    case At(act, s) =>
      match act(s)
      case Return(_, _) =>
      case Write(chunk, next) => MoreFuel(At(act, next), src, fuel - 1, more - 1);
      case Read(size, onData, onEof) =>
        if src.chunks == [] {
          if src.closed { MoreFuel(At(act, onEof), src, fuel - 1, more - 1); }
        } else {
          var m := Min(size, |src.chunks[0]|);
          MoreFuel(At(act, onData(src.chunks[0][..m])), src.(chunks := Rest(src.chunks, m)), fuel - 1, more - 1);
        }
  }

  lemma {:induction false} MoreFuelAll<S>(stages: seq<Stage<S>>, src: Source, fuel: nat, more: nat)
    requires ExecAll(stages, src, fuel).Just? && fuel <= more
    ensures ExecAll(stages, src, more) == ExecAll(stages, src, fuel)
    decreases |stages|
  {
    if stages != [] {
      MoreFuel(stages[0], src, fuel, more);
      MoreFuelAll(stages[1..], Output(Exec(stages[0], src, fuel).value), fuel, more);
    }
  }

  /** With any fuel that suffices, the composition is the same. */
  lemma ExecAllIsUnique<S>(stages: seq<Stage<S>>, src: Source, f: nat, g: nat)
    requires ExecAll(stages, src, f).Just? && ExecAll(stages, src, g).Just?
    ensures ExecAll(stages, src, f) == ExecAll(stages, src, g)
  {
    if f <= g { MoreFuelAll(stages, src, f, g); } else { MoreFuelAll(stages, src, g, f); }
  }
}
