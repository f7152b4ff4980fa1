/** Progress without any bound: stages may write or work for ever. A pipeline whose first stage reads
    nothing and whose other stages return only at the end of their input is never stuck. */
module PipelineLiveness {

  import opened PipelineSpec
  import opened PipelineRuns

  /** The runner returns only after the end of its input: `reading` holds until it has seen that. */
  ghost predicate Patient<S(!new)>(act: Runner<S>, reading: S -> bool) {
    forall s {:trigger act(s)} :: reading(s) ==>
      match act(s)
      case Return(_, _) => false
      case Write(_, next) => reading(next)
      case Read(size, onData, _) => forall b: Bytes :: |b| <= size ==> reading(onData(b))
  }

  /** The runner never reads from a state where `quiet` holds. */
  ghost predicate ReadsNothing<S(!new)>(act: Runner<S>, quiet: S -> bool) {
    forall s {:trigger act(s)} :: quiet(s) ==>
      match act(s)
      case Return(_, _) => true
      case Write(_, next) => quiet(next)
      case Read(_, _, _) => false
  }

  predicate Active<S>(st: Stage<S>) {
    st.At? || st.Writing?
  }

  /** The first stage, whose runner never reads: still at it, or returned. */
  ghost predicate CalmFirst<S(!new)>(st: Stage<S>, quiet: S -> bool) {
    Closed(st) || (Active(st) && ReadsNothing(st.act, quiet) && quiet(st.s))
  }

  /** A later stage, whose runner is patient: it has not seen the end of its input, or what it reads
      from is closed; when it has returned, that is so. */
  ghost predicate CalmNext<S(!new)>(previous: Stage<S>, st: Stage<S>, reading: S -> bool) {
    if Closed(previous) then Closed(st) || (Active(st) && Patient(st.act, reading))
    else Active(st) && Patient(st.act, reading) && reading(st.s)
  }

  ghost predicate Calm<S(!new)>(stages: seq<Stage<S>>, quiet: S -> bool, readings: seq<S -> bool>) {
    && |readings| == |stages| > 0 && CalmFirst(stages[0], quiet)
    && forall j {:trigger readings[j]} :: 0 < j < |stages| ==> CalmNext(stages[j - 1], stages[j], readings[j])
  }

  /** A pipeline that starts with such runners is calm. */
  lemma StartIsCalm<S(!new)>(stages: seq<Stage<S>>, quiet: S -> bool, readings: seq<S -> bool>)
    requires |readings| == |stages| > 0 && forall j :: 0 <= j < |stages| ==> stages[j].At?
    requires ReadsNothing(stages[0].act, quiet) && quiet(stages[0].s)
    requires forall j :: 0 < j < |stages| ==> Patient(stages[j].act, readings[j]) && readings[j](stages[j].s)
    ensures Calm(stages, quiet, readings)
  {
    hide Patient, ReadsNothing;
  }

  // ----- calm is kept

  lemma FirstStaysCalm<S(!new)>(stages: seq<Stage<S>>, i: nat, quiet: S -> bool)
    requires i < |stages| && CanMove(stages, i, SILENT) && CalmFirst(stages[0], quiet)
    ensures CalmFirst(Move(stages, i, SILENT)[0], quiet)
  {
  }

  lemma NextStaysCalm<S(!new)>(stages: seq<Stage<S>>, i: nat, j: nat, reading: S -> bool)
    requires i < |stages| && CanMove(stages, i, SILENT) && 0 < j < |stages|
        && CalmNext(stages[j - 1], stages[j], reading)
    ensures var moved := Move(stages, i, SILENT); CalmNext(moved[j - 1], moved[j], reading)
  {
    var moved := Move(stages, i, SILENT);
    if stages[i].Writing? && i + 1 == j {
      var read := stages[j].act(stages[j].s);
      var got := stages[i].rest[..Transfer(stages, i)];
      assert |got| <= read.size && moved[j].s == read.onData(got);
    }
  }

  lemma StepStaysCalm<S(!new)>(c: Config<S>, i: nat, quiet: S -> bool, readings: seq<S -> bool>)
    requires Shaped(c) && Enabled(c, i) && Calm(c.stages, quiet, readings)
    ensures Calm(Step(c, i).stages, quiet, readings)
  {
    hide CalmFirst, CalmNext, Move, CanMove;
    FirstStaysCalm(c.stages, i, quiet);
    forall j: nat | 0 < j < |c.stages|
      ensures CalmNext(Step(c, i).stages[j - 1], Step(c, i).stages[j], readings[j])
    {
      NextStaysCalm(c.stages, i, j, readings[j]);
    }
  }

  lemma {:induction false} RunStaysCalm<S(!new)>(c: Config<S>, schedule: seq<nat>, quiet: S -> bool,
                                                 readings: seq<S -> bool>)
    requires Shaped(c) && Calm(c.stages, quiet, readings) && Run(c, schedule).Just?
    ensures Calm(Run(c, schedule).value.stages, quiet, readings)
    decreases |schedule|
  {
    hide Calm, Step, Enabled;
    if schedule != [] {
      StepStaysCalm(c, schedule[0], quiet, readings);
      RunStaysCalm(Step(c, schedule[0]), schedule[1..], quiet, readings);
    }
  }

  // ----- and never stuck

  /** From a stage that is writing on there is one that can move. */
  lemma {:induction false} WritersAreServed<S(!new)>(stages: seq<Stage<S>>, quiet: S -> bool, readings: seq<S -> bool>,
      k: nat)
    returns (i: nat)
    requires Calm(stages, quiet, readings) && !stages[|stages| - 1].Writing?
    requires k < |stages| && stages[k].Writing?
    ensures i < |stages| && CanMove(stages, i, SILENT)
    decreases |stages| - k
  {
    assert CalmNext(stages[k], stages[k + 1], readings[k + 1]);
    if stages[k + 1].Writing? {
      i := WritersAreServed(stages, quiet, readings, k + 1);
    } else {
      i := if WantsInput(stages[k + 1]) then k else k + 1;
    }
  }

  /** The first of the stages that is not done. */
  lemma FirstNotDone<S>(stages: seq<Stage<S>>) returns (k: nat)
    requires !AllDone(stages)
    ensures k < |stages| && !stages[k].Done? && forall j :: 0 <= j < k ==> stages[j].Done?
  {
    k := 0;
    while k < |stages| && stages[k].Done?
      invariant k <= |stages| && forall j :: 0 <= j < k ==> stages[j].Done?
    {
      k := k + 1;
    }
  }

  lemma CalmCanMove<S(!new)>(stages: seq<Stage<S>>, quiet: S -> bool, readings: seq<S -> bool>) returns (i: nat)
    requires Calm(stages, quiet, readings) && !stages[|stages| - 1].Writing? && !AllDone(stages)
    ensures i < |stages| && CanMove(stages, i, SILENT)
  {
    var k := FirstNotDone(stages);
    if stages[k].Writing? {
      i := WritersAreServed(stages, quiet, readings, k);
    } else {
      DoneIsClosed(stages, quiet, readings, k);
      i := k;
    }
  }

  lemma DoneIsClosed<S(!new)>(stages: seq<Stage<S>>, quiet: S -> bool, readings: seq<S -> bool>, k: nat)
    requires Calm(stages, quiet, readings) && k < |stages| && !stages[k].Done?
    ensures Active(stages[k]) && (k == 0 ==> ReadsNothing(stages[0].act, quiet) && quiet(stages[0].s))
    ensures k > 0 && stages[k - 1].Done? ==> Closed(stages[k - 1])
  {
    if k > 0 {
      assert CalmNext(stages[k - 1], stages[k], readings[k]);
      if k > 1 { assert CalmNext(stages[k - 2], stages[k - 1], readings[k - 1]); }
    }
  }

  /** No reachable state of a calm pipeline is stuck before all stages are done, however long its stages
      run and whatever the interleaving. */
  lemma CalmIsNeverStuck<S(!new)>(c: Config<S>, schedule: seq<nat>, quiet: S -> bool, readings: seq<S -> bool>)
    requires Shaped(c) && Calm(c.stages, quiet, readings) && Run(c, schedule).Just?
    ensures Stuck(Run(c, schedule).value) <==> AllDone(Run(c, schedule).value.stages)
  {
    hide Calm, Run, CanMove;
    RunStaysCalm(c, schedule, quiet, readings);
    var d := Run(c, schedule).value;
    if !AllDone(d.stages) {
      var i := CalmCanMove(d.stages, quiet, readings);
      assert Enabled(d, i);
    } else {
      DoneIsStuck(d);
    }
  }

  lemma DoneIsStuck<S>(c: Config<S>)
    requires AllDone(c.stages)
    ensures Stuck(c)
  {
  }
}
