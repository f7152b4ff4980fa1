/** When a pipeline finishes: exactly when its stages' composition is defined and no stage leaves input
    unread. Stages that return only at the end of their input, and the first of which reads none, do. */
module PipelineProgress {

  import opened PipelineSpec
  import opened PipelineMoves
  import opened PipelineRuns
  import opened PipelineConfluence
  import opened PipelineLiveness

  ghost predicate CanCompose<S>(c: Config<S>) {
    exists fuel: nat :: Composes(c, fuel)
  }

  lemma StepCounts<S>(c: Config<S>, i: nat, fuel: nat)
    requires Shaped(c) && Enabled(c, i) && ExecAll(c.stages, SILENT, fuel).Just?
    ensures Actions(ExecAll(c.stages, SILENT, fuel).value) > 0
  {
    hide ExecAll, Actions;
    StepAdvances(c, i, fuel);
  }

  lemma RunComposes<S>(c: Config<S>, schedule: seq<nat>, fuel: nat)
    requires Shaped(c) && Composes(c, fuel) && Run(c, schedule).Just?
    ensures
      var d := Run(c, schedule).value;
      && Composes(d, fuel)
      && Actions(ExecAll(c.stages, SILENT, fuel).value) == |schedule| + Actions(ExecAll(d.stages, SILENT, fuel).value)
  {
    hide Run, ExecAll, Actions;
    RunAdvances(c, schedule, fuel);
  }

  /** Every run of a pipeline that composes is at most as long as its stages have actions; it can be
      continued until it is exactly that long, and then all stages are done. */
  lemma NeverStuck<S>(c: Config<S>, schedule: seq<nat>, fuel: nat)
    requires Shaped(c) && Composes(c, fuel) && Run(c, schedule).Just?
    ensures
      var (d, n) := (Run(c, schedule).value, Actions(ExecAll(c.stages, SILENT, fuel).value));
      && Composes(d, fuel) && |schedule| <= n
      && (Stuck(d) <==> AllDone(d.stages)) && (|schedule| == n <==> AllDone(d.stages))
  {
    hide Run, ExecAll, Actions, AllEnd, Step, CanMove;
    RunComposes(c, schedule, fuel);
    var d := Run(c, schedule).value;
    if AllDone(d.stages) {
      DoneIsStuck(d);
      DoneComposes(d.stages, SILENT, fuel);
    } else {
      var i := SomeStageCanMove(d.stages, SILENT, fuel);
      StepCounts(d, i, fuel);
    }
  }

  lemma {:induction false} RunToHalt<S>(c: Config<S>, fuel: nat) returns (schedule: seq<nat>)
    requires Shaped(c) && ExecAll(c.stages, SILENT, fuel).Just?
    ensures Halts(c, schedule)
    decreases Actions(ExecAll(c.stages, SILENT, fuel).value)
  {
    hide ExecAll, Actions, CanMove, Step;
    if Stuck(c) {
      schedule := [];
    } else {
      var i: nat :| Enabled(c, i);
      StepAdvances(c, i, fuel);
      var rest := RunToHalt(Step(c, i), fuel);
      schedule := [i] + rest;
      assert schedule[0] == i && schedule[1..] == rest;
    }
  }

  /** A pipeline can finish exactly when its stages compose. */
  lemma FinishesIff<S>(c: Config<S>)
    requires Shaped(c)
    ensures (exists schedule :: Completes(c, schedule)) <==> CanCompose(c)
  {
    hide Run, ExecAll, Actions, Stuck, AllDone, AllEnd;
    if schedule :| Completes(c, schedule) {
      var fuel := CompletedRunIsComposition(c, schedule);
    }
    if fuel: nat :| Composes(c, fuel) {
      var schedule := RunToHalt(c, fuel);
      NeverStuck(c, schedule, fuel);
      assert Completes(c, schedule);
    }
  }

  /** Of any pipeline, a run that has halted has finished if and only if the stages compose. When each stage
      ends alone, a run does halt, and they compose unless there is a stage that leaves input unread
      or reads on where nothing more comes. */
  lemma BlocksIff<S>(c: Config<S>)
    requires Shaped(c)
    ensures forall schedule :: Halts(c, schedule) ==> (Completes(c, schedule) <==> CanCompose(c))
    ensures forall fuel: nat :: ExecAll(c.stages, SILENT, fuel).Just? ==>
              (exists schedule :: Halts(c, schedule))
              && (CanCompose(c) <==> AllEnd(ExecAll(c.stages, SILENT, fuel).value))
  {
    hide Run, ExecAll, Actions, Stuck, AllDone, AllEnd;
    FinishesIff(c);
    forall schedule | Halts(c, schedule) ensures Completes(c, schedule) <==> CanCompose(c) {
      if fuel: nat :| Composes(c, fuel) { NeverStuck(c, schedule, fuel); }
    }
    forall fuel: nat | ExecAll(c.stages, SILENT, fuel).Just?
      ensures (exists schedule :: Halts(c, schedule))
      ensures CanCompose(c) <==> AllEnd(ExecAll(c.stages, SILENT, fuel).value)
    {
      var halting := RunToHalt(c, fuel);
      assert Halts(c, halting);
      if enough: nat :| Composes(c, enough) { ExecAllIsUnique(c.stages, SILENT, fuel, enough); }
      if AllEnd(ExecAll(c.stages, SILENT, fuel).value) { assert Composes(c, fuel); }
    }
  }

  // ----- stages that read all of their input

  /** Alone on this source, the stage reads all of it, returns and closes its pipe. */
  ghost predicate Drains<S>(st: Stage<S>, src: Source, fuel: nat) {
    Exec(st, src, fuel).Just? && Exec(st, src, fuel).value.left == [] && Output(Exec(st, src, fuel).value).closed
  }

  ghost predicate CanDrain<S>(st: Stage<S>, src: Source) {
    exists fuel: nat :: Drains(st, src, fuel)
  }

  ghost predicate DrainsAnyInput<S>(st: Stage<S>) {
    forall src: Source :: src.closed ==> CanDrain(st, src)
  }

  lemma AllEndJoins(first: Flow, rest: seq<Flow>)
    requires first.left == [] && first.ending.Just? && AllEnd(rest)
    ensures AllEnd([first] + rest)
  {
  }

  lemma {:induction false} DrainingTailComposes<S>(stages: seq<Stage<S>>, src: Source) returns (fuel: nat)
    requires src.closed && forall j :: 0 <= j < |stages| ==> DrainsAnyInput(stages[j])
    ensures ExecAll(stages, src, fuel).Just? && AllEnd(ExecAll(stages, src, fuel).value)
    decreases |stages|
  {
    hide Exec;
    if stages == [] {
      fuel := 0;
    } else {
      hide ExecAll, AllEnd;
      assert DrainsAnyInput(stages[0]) && CanDrain(stages[0], src);
      var own: nat :| Drains(stages[0], src, own);
      var first := Exec(stages[0], src, own).value;
      var rest := DrainingTailComposes(stages[1..], Output(first));
      fuel := own + rest;
      MoreFuel(stages[0], src, own, fuel);
      MoreFuelAll(stages[1..], Output(first), rest, fuel);
      AllEndJoins(first, ExecAll(stages[1..], Output(first), fuel).value);
      ExecAllJoins(stages, src, fuel, first, ExecAll(stages[1..], Output(first), fuel).value);
    }
  }

  /** When the first stage returns alone without input, and every other one alone reads all of any input
      that ends and returns: every run is at most as long as the stages have actions, and every run
      that halts has finished. */
  lemma DrainingPipelineFinishes<S>(c: Config<S>) returns (fuel: nat)
    requires Shaped(c) && CanDrain(c.stages[0], SILENT)
    requires forall j :: 0 < j < |c.stages| ==> DrainsAnyInput(c.stages[j])
    ensures Composes(c, fuel)
    ensures forall schedule :: Run(c, schedule).Just? ==> |schedule| <= Actions(ExecAll(c.stages, SILENT, fuel).value)
    ensures forall schedule :: Halts(c, schedule) ==> Completes(c, schedule)
  {
    hide Run, Exec, ExecAll, Actions, Stuck, AllDone, AllEnd, DrainsAnyInput;
    var stages := c.stages;
    var own: nat :| Drains(stages[0], SILENT, own);
    var first := Exec(stages[0], SILENT, own).value;
    var rest := DrainingTailComposes(stages[1..], Output(first));
    fuel := own + rest;
    MoreFuel(stages[0], SILENT, own, fuel);
    MoreFuelAll(stages[1..], Output(first), rest, fuel);
    AllEndJoins(first, ExecAll(stages[1..], Output(first), fuel).value);
    ExecAllJoins(stages, SILENT, fuel, first, ExecAll(stages[1..], Output(first), fuel).value);
    forall schedule | Run(c, schedule).Just?
      ensures |schedule| <= Actions(ExecAll(c.stages, SILENT, fuel).value)
      ensures Halts(c, schedule) ==> Completes(c, schedule)
    {
      NeverStuck(c, schedule, fuel);
    }
  }

  // ----- a discipline under which they do

  /** What a stage's author promises: `reading` holds until the runner has seen the end of its input;
      `rank` falls with every write and at the end of input, and rises with a read by at most `gain`
      for it and for every byte it gets. */
  datatype Discipline<!S> = Discipline(reading: S -> bool, rank: S -> nat, gain: nat)

  ghost predicate Finite<S(!new)>(act: Runner<S>, d: Discipline<S>) {
    forall s {:trigger act(s)} ::
      match act(s)
      case Return(_, _) => true
      case Write(_, next) => d.rank(next) < d.rank(s)
      case Read(size, onData, onEof) =>
        && size > 0 && d.rank(onEof) < d.rank(s)
        && forall b: Bytes :: |b| <= size ==> d.rank(onData(b)) <= d.rank(s) + d.gain * (|b| + 1)
  }

  lemma {:induction false} PatientReadsAll<S(!new)>(act: Runner<S>, reading: S -> bool, s: S, src: Source, fuel: nat)
    requires Patient(act, reading) && reading(s) && Exec(At(act, s), src, fuel).Just?
    ensures Exec(At(act, s), src, fuel).value.left == []
    decreases fuel
  {
    match act(s)
    case Return(_, _) =>
    case Write(_, next) => PatientReadsAll(act, reading, next, src, fuel - 1);
    case Read(size, onData, onEof) =>
      if src.chunks == [] {
        if src.closed { NothingLeftToRead(At(act, onEof), true, fuel - 1); }
      } else {
        var m := Min(size, |src.chunks[0]|);
        PatientReadsAll(act, reading, onData(src.chunks[0][..m]), src.(chunks := Rest(src.chunks, m)), fuel - 1);
      }
  }

  lemma {:induction false} NothingLeftToRead<S>(st: Stage<S>, closed: bool, fuel: nat)
    requires Exec(st, Source([], closed), fuel).Just?
    ensures Exec(st, Source([], closed), fuel).value.left == []
    decreases fuel, if st.Writing? then 1 else 0
  {
    match st
    case Done(_) =>
    case Idle =>
    case Writing(act, _, s) => NothingLeftToRead(At(act, s), closed, fuel);
    case At(act, s) =>
      match act(s)
      case Return(_, _) =>
      case Write(_, next) => NothingLeftToRead(At(act, next), closed, fuel - 1);
      case Read(_, _, onEof) => if closed { NothingLeftToRead(At(act, onEof), closed, fuel - 1); }
  }

  /** The bytes of these chunks, and one more for each. */
  function Load(chunks: seq<Bytes>): nat {
    if chunks == [] then 0 else |chunks[0]| + 1 + Load(chunks[1..])
  }

  /** A read of m bytes lowers the load by m and, if it ends a chunk, by one more; of no bytes it can
      only be if it ends one. */
  lemma LoadFalls(chunks: seq<Bytes>, size: nat)
    requires chunks != [] && size > 0
    ensures
      var m := Min(size, |chunks[0]|);
      Load(chunks) == Load(Rest(chunks, m)) + m + (if m == |chunks[0]| then 1 else 0)
        && Load(chunks) > Load(Rest(chunks, m))
  {
    var m := Min(size, |chunks[0]|);
    if m < |chunks[0]| {
      assert Rest(chunks, m)[1..] == chunks[1..];
    }
  }

  /** A bound on the actions of a finite runner. */
  function Bound<S>(d: Discipline<S>, s: S, chunks: seq<Bytes>): nat {
    d.rank(s) + (2 * d.gain + 1) * Load(chunks)
  }

  lemma TimesGrows(a: nat, x: nat, y: nat)
    requires x <= y
    ensures a * x <= a * y
  {
  }

  lemma GainIsPaid(gain: nat, m: nat, less: nat, more: nat)
    requires more >= less + m && more > less
    ensures gain * (m + 1) + (2 * gain + 1) * less < (2 * gain + 1) * more
  {
    var k := more - less;
    TimesGrows(gain, m, k);
    TimesGrows(gain, 1, k);
    assert gain * (m + 1) == gain * m + gain;
    assert gain * more == gain * less + gain * k by { assert more == less + k; }
    assert (2 * gain + 1) * more == 2 * (gain * more) + more;
    assert (2 * gain + 1) * less == 2 * (gain * less) + less;
  }

  lemma BoundFalls<S(!new)>(act: Runner<S>, d: Discipline<S>, s: S, chunks: seq<Bytes>)
    requires Finite(act, d) && act(s).Read? && chunks != []
    ensures
      var m := Min(act(s).size, |chunks[0]|);
      Bound(d, act(s).onData(chunks[0][..m]), Rest(chunks, m)) < Bound(d, s, chunks)
  {
    hide Load, Rest;
    var m := Min(act(s).size, |chunks[0]|);
    var got := chunks[0][..m];
    LoadFalls(chunks, act(s).size);
    GainIsPaid(d.gain, m, Load(Rest(chunks, m)), Load(chunks));
    assert |got| == m && d.rank(act(s).onData(got)) <= d.rank(s) + d.gain * (m + 1);
  }

  /** A finite runner returns within rank + (2 * gain + 1) * load actions. */
  lemma {:induction false} FiniteReturns<S(!new)>(act: Runner<S>, d: Discipline<S>, s: S, src: Source, fuel: nat)
    requires src.closed && Finite(act, d) && fuel > Bound(d, s, src.chunks)
    ensures Exec(At(act, s), src, fuel).Just?
    ensures Output(Exec(At(act, s), src, fuel).value).closed
    decreases fuel
  {
    hide Load, Rest;
    match act(s)
    case Return(_, _) =>
    case Write(_, next) => FiniteReturns(act, d, next, src, fuel - 1);
    case Read(size, onData, onEof) =>
      if src.chunks == [] {
        FiniteReturns(act, d, onEof, src, fuel - 1);
      } else {
        hide Finite, Bound;
        var m := Min(size, |src.chunks[0]|);
        BoundFalls(act, d, s, src.chunks);
        FiniteReturns(act, d, onData(src.chunks[0][..m]), src.(chunks := Rest(src.chunks, m)), fuel - 1);
      }
  }

  lemma {:induction false} QuietReturns<S(!new)>(act: Runner<S>, d: Discipline<S>, quiet: S -> bool, s: S, fuel: nat)
    requires Finite(act, d) && ReadsNothing(act, quiet) && quiet(s) && fuel > d.rank(s)
    ensures Exec(At(act, s), SILENT, fuel).Just?
    ensures var f := Exec(At(act, s), SILENT, fuel).value; f.left == [] && Output(f).closed
    decreases fuel
  {
    match act(s)
    case Return(_, _) =>
    case Write(_, next) => QuietReturns(act, d, quiet, next, fuel - 1);
  }

  ghost predicate Disciplined<S(!new)>(st: Stage<S>, d: Discipline<S>) {
    st.At? && Finite(st.act, d) && Patient(st.act, d.reading) && d.reading(st.s)
  }

  ghost predicate QuietSource<S(!new)>(st: Stage<S>, d: Discipline<S>, quiet: S -> bool) {
    st.At? && Finite(st.act, d) && ReadsNothing(st.act, quiet) && quiet(st.s)
  }

  /** A disciplined stage is one that reads all of its input. */
  lemma DisciplinedDrains<S(!new)>(st: Stage<S>, d: Discipline<S>)
    requires Disciplined(st, d)
    ensures DrainsAnyInput(st)
  {
    hide Exec, Load, Finite, Patient;
    forall src: Source | src.closed ensures CanDrain(st, src) {
      var fuel := Bound(d, st.s, src.chunks) + 1;
      FiniteReturns(st.act, d, st.s, src, fuel);
      PatientReadsAll(st.act, d.reading, st.s, src, fuel);
      assert Drains(st, src, fuel);
    }
  }

  lemma QuietSourceDrains<S(!new)>(st: Stage<S>, d: Discipline<S>, quiet: S -> bool)
    requires QuietSource(st, d, quiet)
    ensures CanDrain(st, SILENT)
  {
    hide Exec, Finite, ReadsNothing;
    QuietReturns(st.act, d, quiet, st.s, d.rank(st.s) + 1);
    assert Drains(st, SILENT, d.rank(st.s) + 1);
  }

  /** A disciplined pipeline is calm. */
  lemma DisciplinedIsCalm<S(!new)>(c: Config<S>, ds: seq<Discipline<S>>, quiet: S -> bool)
      returns (readings: seq<S -> bool>)
    requires Shaped(c) && |ds| == |c.stages| && QuietSource(c.stages[0], ds[0], quiet)
    requires forall j :: 0 < j < |c.stages| ==> Disciplined(c.stages[j], ds[j])
    ensures Calm(c.stages, quiet, readings)
  {
    hide Finite, Patient, ReadsNothing, Calm;
    readings := seq(|ds|, j requires 0 <= j < |ds| => ds[j].reading);
    forall j | 0 < j < |c.stages|
      ensures c.stages[j].At? && Patient(c.stages[j].act, readings[j]) && readings[j](c.stages[j].s)
    {
      assert Disciplined(c.stages[j], ds[j]);
    }
    StartIsCalm(c.stages, quiet, readings);
  }

  /** A pipeline whose first stage reads nothing and whose other stages return only at the end of their
      input, all of them finite, finishes: being calm it is never stuck, and being finite it is never longer
      than its stages have actions. */
  lemma DisciplinedPipelineFinishes<S(!new)>(c: Config<S>, ds: seq<Discipline<S>>, quiet: S -> bool) returns (fuel: nat)
    requires Shaped(c) && |ds| == |c.stages| && QuietSource(c.stages[0], ds[0], quiet)
    requires forall j :: 0 < j < |c.stages| ==> Disciplined(c.stages[j], ds[j])
    ensures Composes(c, fuel)
    ensures forall schedule :: Run(c, schedule).Just? ==>
              && |schedule| <= Actions(ExecAll(c.stages, SILENT, fuel).value)
              && (Stuck(Run(c, schedule).value) <==> AllDone(Run(c, schedule).value.stages))
  {
    hide CanDrain, Disciplined, QuietSource, Calm, Run, Stuck, AllDone, ExecAll, Actions, AllEnd;
    var readings := DisciplinedIsCalm(c, ds, quiet);
    QuietSourceDrains(c.stages[0], ds[0], quiet);
    forall j | 0 < j < |c.stages| ensures DrainsAnyInput(c.stages[j]) {
      DisciplinedDrains(c.stages[j], ds[j]);
    }
    fuel := DrainingPipelineFinishes(c);
    forall schedule | Run(c, schedule).Just?
      ensures Stuck(Run(c, schedule).value) <==> AllDone(Run(c, schedule).value.stages)
    {
      CalmIsNeverStuck(c, schedule, quiet, readings);
    }
  }

  /** From s on, the runner writes what it reads and returns at the end of its input. */
  ghost predicate Copies<S>(act: Runner<S>, s: S) {
    && act(s).Read? && act(s).size > 0 && act(act(s).onEof).Return?
    && forall b: Bytes :: act(act(s).onData(b)) == Write(b, s)
  }

  /** A stage that copies passes on just the bytes it is given, whatever chunks they come in. */
  lemma {:induction false} CopierCopies<S>(act: Runner<S>, s: S, src: Source, fuel: nat)
    requires Copies(act, s) && src.closed && Exec(At(act, s), src, fuel).Just?
    ensures var f := Exec(At(act, s), src, fuel).value;
            Flatten(f.out) == Flatten(src.chunks) && f.left == [] && Output(f).closed
    decreases fuel
  {
    if src.chunks != [] {
      var m := Min(act(s).size, |src.chunks[0]|);
      var got := src.chunks[0][..m];
      var later := src.(chunks := Rest(src.chunks, m));
      var writes := act(s).onData(got);
      assert act(writes) == Write(got, s);
      assert Exec(At(act, writes), later, fuel - 1).Just?;
      CopierCopies(act, s, later, fuel - 2);
      FlattenRest(src.chunks, m);
      FlattenFront(got, Exec(At(act, s), later, fuel - 2).value.out);
    }
  }

  lemma {:induction false} ReturnLeavesUnread<S>(stages: seq<Stage<S>>, j: nat, src: Source, fuel: nat)
    requires j + 1 < |stages| && stages[j].At? && stages[j + 1].At?
    requires stages[j].act(stages[j].s).Write? && stages[j + 1].act(stages[j + 1].s).Return?
    requires ExecAll(stages, src, fuel).Just?
    ensures !AllEnd(ExecAll(stages, src, fuel).value)
    decreases j
  {
    var first := Exec(stages[0], src, fuel).value;
    var (fls, rest) := (ExecAll(stages, src, fuel).value, ExecAll(stages[1..], Output(first), fuel).value);
    assert fls[1..] == rest;
    if j == 0 {
      assert rest[0] == Exec(stages[1], Output(first), fuel).value;
      assert fls[1].left == first.out;
    } else {
      ReturnLeavesUnread(stages[1..], j - 1, Output(first), fuel);
    }
  }

  /** The discipline is needed: behind a stage that starts by writing, even nothing at all, one that
      returns at once leaves the pipeline hanging in every run. */
  lemma EarlyReturnHangs<S>(c: Config<S>, j: nat, schedule: seq<nat>)
    requires Shaped(c) && j + 1 < |c.stages| && c.stages[j].At? && c.stages[j + 1].At?
    requires c.stages[j].act(c.stages[j].s).Write? && c.stages[j + 1].act(c.stages[j + 1].s).Return?
    ensures !Completes(c, schedule)
  {
    hide Run, ExecAll, Stuck, AllDone;
    if Completes(c, schedule) {
      var fuel := CompletedRunIsComposition(c, schedule);
      ReturnLeavesUnread(c.stages, j, SILENT, fuel);
    }
  }

  // ----- the result

  /** The pipeline's exit code, from its error channel: the stages' own codes are not looked at. */
  function ExitCode<S>(c: Config<S>): nat {
    if true in c.errs then 1 else 0
  }

  predicate Errs(f: Flow) {
    f.ending.Just? && f.ending.value.failed
  }

  predicate Nonzero(f: Flow) {
    f.ending.Just? && f.ending.value.code != 0
  }

  /** A completed run exits with 1 exactly when some stage, run alone on its input, returns an error. So its
      code tells whether some stage's is other than 0 exactly when this and an error go together. */
  lemma ExitCodeIff<S>(c: Config<S>, schedule: seq<nat>) returns (fuel: nat)
    requires Ledger(c) && Completes(c, schedule)
    ensures Composes(c, fuel)
    ensures
      var (code, fls) := (ExitCode(Run(c, schedule).value), ExecAll(c.stages, SILENT, fuel).value);
      && (code == 1 <==> exists j :: 0 <= j < |fls| && Errs(fls[j]))
      && ((code != 0 <==> exists j :: 0 <= j < |fls| && Nonzero(fls[j]))
          <==> ((exists j :: 0 <= j < |fls| && Errs(fls[j])) <==> exists j :: 0 <= j < |fls| && Nonzero(fls[j])))
  {
    hide Run, ExecAll, Flags, Flatten, Actions, AllEnd;
    fuel := CompletedRunIsComposition(c, schedule);
    LedgerHolds(c, schedule);
    var (d, fls) := (Run(c, schedule).value, ExecAll(c.stages, SILENT, fuel).value);
    FailuresShow(d.stages);
    assert forall j :: 0 <= j < |fls| ==> (Failed(d.stages[j]) <==> Errs(fls[j]));
  }

  /** A stage that returns a code without an error: whatever the code, the pipeline exits with 0. */
  lemma CodeWithoutErrorIsLost<S>(act: Runner<S>, s: S, code: int)
    requires act(s) == Return(code, false)
    ensures
      var c := Config([At(act, s)], [], multiset{}, [[]], [[]]);
      && Shaped(c) && Completes(c, [0])
      && Run(c, [0]).value.stages == [Done(Outcome(code, false, true))] && ExitCode(Run(c, [0]).value) == 0
  {
    var c := Config([At(act, s)], [], multiset{}, [[]], [[]]);
    assert [0][1..] == [];
  }
}
