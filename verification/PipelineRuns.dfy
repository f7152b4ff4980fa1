/** Kahn's theorem for a pipeline: what its runs compute does not depend on how its stages are
    interleaved, and a run gets stuck only when a stage leaves input unread. */
module PipelineRuns {

  import opened PipelineSpec
  import opened PipelineMoves

  /** The configuration after the stages have moved in this order; Nothing, if one of them cannot. */
  function Run<S>(c: Config<S>, schedule: seq<nat>): (r: Maybe<Config<S>>)
    requires Shaped(c)
    ensures r.Just? ==> Shaped(r.value) && |r.value.stages| == |c.stages|
    decreases |schedule|
  {
    if schedule == [] then Just(c)
    else if Enabled(c, schedule[0]) then Run(Step(c, schedule[0]), schedule[1..])
    else Nothing
  }

  ghost predicate AllDone<S>(stages: seq<Stage<S>>) {
    forall j :: 0 <= j < |stages| ==> stages[j].Done?
  }

  ghost predicate Stuck<S>(c: Config<S>) {
    forall i: nat :: !Enabled(c, i)
  }

  /** What has come out of stage j: what the next stage got, and for the last one the final output. */
  function Received<S>(c: Config<S>, j: nat): Bytes
    requires Shaped(c) && j < |c.stages|
  {
    if j + 1 < |c.stages| then c.got[j + 1] else c.out
  }

  /** The composition is defined, and in it every stage reads all of its input and returns. */
  ghost predicate Composes<S>(c: Config<S>, fuel: nat) {
    ExecAll(c.stages, SILENT, fuel).Just? && AllEnd(ExecAll(c.stages, SILENT, fuel).value)
  }

  ghost predicate AllEnd(fls: seq<Flow>) {
    forall j :: 0 <= j < |fls| ==> fls[j].left == [] && fls[j].ending.Just?
  }

  // ----- forward along a run

  lemma ReceivedGrows<S>(c: Config<S>, i: nat)
    requires Shaped(c) && Enabled(c, i)
    ensures Step(c, i).stages == Move(c.stages, i, SILENT) && Step(c, i).got[0] == c.got[0]
    ensures forall j :: 0 <= j < |c.stages| ==>
              Received(Step(c, i), j) == Received(c, j) + Handed(c.stages, i, SILENT, j)
  {
  }

  lemma StepAdvances<S>(c: Config<S>, i: nat, fuel: nat)
    requires Shaped(c) && Enabled(c, i) && ExecAll(c.stages, SILENT, fuel).Just?
    ensures ExecAll(Step(c, i).stages, SILENT, fuel).Just?
    ensures Ahead(c, Step(c, i), 1, ExecAll(c.stages, SILENT, fuel).value,
        ExecAll(Step(c, i).stages, SILENT, fuel).value)
  {
    hide ExecAll, Flatten, Actions, Step, Move, Handed, Received, CanMove;
    ReceivedGrows(c, i);
    MoveForward(c.stages, i, SILENT, fuel);
    var d := Step(c, i);
    var (before, after) := (ExecAll(c.stages, SILENT, fuel).value, ExecAll(d.stages, SILENT, fuel).value);
    forall j: nat | j < |c.stages|
      ensures Received(c, j) + Flatten(before[j].out) == Received(d, j) + Flatten(after[j].out)
    {
      assert Flatten(before[j].out) == Handed(c.stages, i, SILENT, j) + Flatten(after[j].out);
    }
  }

  /** n actions later: that many fewer to come, and the same bytes in all. */
  ghost predicate Ahead<S>(c: Config<S>, d: Config<S>, n: nat, before: seq<Flow>, after: seq<Flow>)
    requires Shaped(c) && Shaped(d)
  {
    && |before| == |after| == |c.stages| == |d.stages|
    && Actions(before) == Actions(after) + n
    && d.got[0] == c.got[0]
    && forall j :: 0 <= j < |c.stages| ==>
         && after[j].left == before[j].left && after[j].ending == before[j].ending
         && Received(c, j) + Flatten(before[j].out) == Received(d, j) + Flatten(after[j].out)
  }

  lemma {:induction false} RunAdvances<S>(c: Config<S>, schedule: seq<nat>, fuel: nat)
    requires Shaped(c) && ExecAll(c.stages, SILENT, fuel).Just?
    requires Run(c, schedule).Just?
    ensures
      var d := Run(c, schedule).value;
      && ExecAll(d.stages, SILENT, fuel).Just?
      && Ahead(c, d, |schedule|, ExecAll(c.stages, SILENT, fuel).value, ExecAll(d.stages, SILENT, fuel).value)
    decreases |schedule|
  {
    hide ExecAll, Flatten, Actions, Step, Enabled;
    ExecAllLength(c.stages, SILENT, fuel);
    if schedule != [] {
      StepAdvances(c, schedule[0], fuel);
      RunAdvances(Step(c, schedule[0]), schedule[1..], fuel);
    }
  }

  lemma {:induction false} RunThenStep<S>(c: Config<S>, schedule: seq<nat>, i: nat)
    requires Shaped(c) && Run(c, schedule).Just? && Enabled(Run(c, schedule).value, i)
    ensures Run(c, schedule + [i]) == Just(Step(Run(c, schedule).value, i))
    decreases |schedule|
  {
    hide Step, Enabled;
    if schedule != [] {
      RunThenStep(Step(c, schedule[0]), schedule[1..], i);
      assert (schedule + [i])[1..] == schedule[1..] + [i];
    }
  }

  // ----- backward from the end of a run

  lemma {:induction false} DoneComposes<S>(stages: seq<Stage<S>>, src: Source, fuel: nat)
    requires AllDone(stages) && src.chunks == []
    ensures
      var r := ExecAll(stages, src, fuel);
      && r.Just? && |r.value| == |stages| && Actions(r.value) == 0
      && forall j :: 0 <= j < |stages| ==> r.value[j] == Flow([], [], Just(stages[j].outcome), 0)
  {
    if stages != [] {
      DoneComposes(stages[1..], Source([], stages[0].outcome.closed), fuel);
    }
  }

  lemma {:induction false} CompletedComposes<S>(c: Config<S>, schedule: seq<nat>) returns (fuel: nat)
    requires Shaped(c) && Run(c, schedule).Just? && AllDone(Run(c, schedule).value.stages)
    ensures ExecAll(c.stages, SILENT, fuel).Just?
    decreases |schedule|
  {
    hide ExecAll;
    if schedule == [] {
      DoneComposes(c.stages, SILENT, 0);
      fuel := 0;
    } else {
      var before := CompletedComposes(Step(c, schedule[0]), schedule[1..]);
      MoveBackward(c.stages, schedule[0], SILENT, before);
      fuel := before + 1;
    }
  }

  /** d is where c ends if the stages do what these flows say. */
  ghost predicate EndsAs<S>(c: Config<S>, d: Config<S>, fls: seq<Flow>)
    requires Shaped(c) && Shaped(d)
  {
    && |fls| == |c.stages| == |d.stages| && d.got[0] == c.got[0]
    && forall j :: 0 <= j < |fls| ==>
         fls[j].ending.Just? && d.stages[j] == Done(fls[j].ending.value)
           && Received(d, j) == Received(c, j) + Flatten(fls[j].out)
  }

  /** A completed run computes the composition of its stages' stream functions: the output, the bytes
      over every pipe, the failures; nothing is left unread. */
  lemma CompletedRunIsComposition<S>(c: Config<S>, schedule: seq<nat>) returns (fuel: nat)
    requires Shaped(c) && Run(c, schedule).Just? && AllDone(Run(c, schedule).value.stages)
    ensures Composes(c, fuel)
    ensures |schedule| == Actions(ExecAll(c.stages, SILENT, fuel).value)
    ensures EndsAs(c, Run(c, schedule).value, ExecAll(c.stages, SILENT, fuel).value)
  {
    hide ExecAll, Run;
    fuel := CompletedComposes(c, schedule);
    RunAdvances(c, schedule, fuel);
    DoneComposes(Run(c, schedule).value.stages, SILENT, fuel);
  }

  // ----- what every step keeps

  function Pending<S>(st: Stage<S>): Bytes {
    if st.Writing? then st.rest else []
  }

  function Flag<S>(st: Stage<S>): multiset<bool> {
    if st.Done? then multiset{st.outcome.failed} else multiset{}
  }

  predicate Failed<S>(st: Stage<S>) {
    st.Done? && st.outcome.failed
  }

  /** What the stages that are done have put into the error channel. */
  function Flags<S>(stages: seq<Stage<S>>): multiset<bool> {
    if stages == [] then multiset{} else Flag(stages[0]) + Flags(stages[1..])
  }

  /** Every byte sent has been received or is in the write that is going on; the error channel holds
      one entry for each stage that is done. */
  ghost predicate Ledger<S>(c: Config<S>) {
    && Shaped(c) && c.got[0] == [] && c.errs == Flags(c.stages)
    && forall j :: 0 <= j < |c.stages| ==> c.sent[j] == Received(c, j) + Pending(c.stages[j])
  }

  lemma {:induction false} FlagsUpdate<S>(stages: seq<Stage<S>>, i: nat, st: Stage<S>)
    requires i < |stages| && !stages[i].Done?
    ensures Flags(stages[i := st]) == Flags(stages) + Flag(st)
  {
    var updated := stages[i := st];
    if i == 0 {
      assert updated[1..] == stages[1..];
    } else {
      assert updated[1..] == stages[1..][i - 1 := st];
      FlagsUpdate(stages[1..], i - 1, st);
    }
  }

  lemma {:induction false} FlagsCount<S>(stages: seq<Stage<S>>)
    ensures |Flags(stages)| <= |stages|
    ensures |Flags(stages)| == |stages| <==> AllDone(stages)
  {
    if stages != [] {
      FlagsCount(stages[1..]);
      assert forall j :: 0 < j < |stages| ==> stages[j] == stages[1..][j - 1];
    }
  }

  lemma {:induction false} FailuresShow<S>(stages: seq<Stage<S>>)
    ensures true in Flags(stages) <==> exists j :: 0 <= j < |stages| && Failed(stages[j])
  {
    if stages != [] {
      FailuresShow(stages[1..]);
      assert Failed(stages[0]) <==> true in Flag(stages[0]);
      assert forall j :: 0 < j < |stages| ==> stages[j] == stages[1..][j - 1];
    }
  }

  lemma TransferKeepsFlags<S>(c: Config<S>, i: nat)
    requires Shaped(c) && Enabled(c, i) && c.stages[i].Writing? && c.errs == Flags(c.stages)
    ensures Step(c, i).errs == Flags(Step(c, i).stages)
  {
    hide Flags;
    var taken := Taken(c.stages[i], Transfer(c.stages, i));
    FlagsUpdate(c.stages, i, taken);
    FlagsUpdate(c.stages[i := taken], i + 1, Move(c.stages, i, SILENT)[i + 1]);
  }

  lemma OwnStep<S>(c: Config<S>, i: nat)
    requires Shaped(c) && Enabled(c, i) && !c.stages[i].Writing?
    ensures Step(c, i).stages == c.stages[i := Own(c.stages[i], i + 1 == |c.stages|)]
    ensures Step(c, i).errs == c.errs + Flag(Own(c.stages[i], i + 1 == |c.stages|))
  {
  }

  lemma OwnKeepsFlags<S>(c: Config<S>, i: nat)
    requires Shaped(c) && Enabled(c, i) && !c.stages[i].Writing? && c.errs == Flags(c.stages)
    ensures Step(c, i).errs == Flags(Step(c, i).stages)
  {
    hide Flags, Step, Own, Flag;
    OwnStep(c, i);
    FlagsUpdate(c.stages, i, Own(c.stages[i], i + 1 == |c.stages|));
  }

  lemma SentIsKept<S>(c: Config<S>, i: nat, j: nat)
    requires Shaped(c) && Enabled(c, i) && j < |c.stages| && c.sent[j] == Received(c, j) + Pending(c.stages[j])
    ensures var d := Step(c, i); d.sent[j] == Received(d, j) + Pending(d.stages[j])
  {
    if c.stages[i].Writing? {
      TransferSentIsKept(c, i, j);
    } else {
      hide Own;
      OwnStep(c, i);
    }
  }

  lemma TransferSentIsKept<S>(c: Config<S>, i: nat, j: nat)
    requires Shaped(c) && Enabled(c, i) && c.stages[i].Writing?
    requires j < |c.stages| && c.sent[j] == Received(c, j) + Pending(c.stages[j])
    ensures var d := Step(c, i); d.sent[j] == Received(d, j) + Pending(d.stages[j])
  {
    var rest := c.stages[i].rest;
    assert rest == rest[..Transfer(c.stages, i)] + Pending(Step(c, i).stages[i]);
  }

  lemma StepKeepsLedger<S>(c: Config<S>, i: nat)
    requires Ledger(c) && Enabled(c, i)
    ensures Ledger(Step(c, i))
  {
    hide Flags, Received, Pending;
    if c.stages[i].Writing? { TransferKeepsFlags(c, i); } else { OwnKeepsFlags(c, i); }
    forall j: nat | j < |c.stages|
      ensures var d := Step(c, i); d.sent[j] == Received(d, j) + Pending(d.stages[j])
    {
      SentIsKept(c, i, j);
    }
  }

  /** At every step of every run: what a stage has got is a prefix of what the one before has sent,
      and the error channel, as long as there are stages, has room for every stage that returns. */
  lemma {:induction false} LedgerHolds<S>(c: Config<S>, schedule: seq<nat>)
    requires Ledger(c) && Run(c, schedule).Just?
    ensures
      var d := Run(c, schedule).value;
      && Ledger(d)
      && (forall j :: 0 < j < |d.stages| ==> d.got[j] <= d.sent[j - 1])
      && |d.errs| <= |d.stages| && (|d.errs| < |d.stages| <==> !AllDone(d.stages))
    decreases |schedule|
  {
    hide Step, Enabled, Flags;
    if schedule == [] {
      FlagsCount(c.stages);
      forall j | 0 < j < |c.stages| ensures c.got[j] <= c.sent[j - 1] {
        assert c.sent[j - 1] == Received(c, j - 1) + Pending(c.stages[j - 1]);
      }
    } else {
      StepKeepsLedger(c, schedule[0]);
      LedgerHolds(Step(c, schedule[0]), schedule[1..]);
    }
  }

  // ----- progress

  /** Behind a stage that is writing there is one that can move, or one that is done and has not read
      it all. */
  lemma {:induction false} WriterIsServed<S>(stages: seq<Stage<S>>, src: Source, fuel: nat) returns (i: nat)
    requires stages != [] && stages[0].Writing? && !stages[|stages| - 1].Writing?
    requires ExecAll(stages, src, fuel).Just? && AllEnd(ExecAll(stages, src, fuel).value)
    ensures i < |stages| && CanMove(stages, i, src)
    decreases |stages|
  {
    var first := Exec(stages[0], src, fuel).value;
    var rest := ExecAll(stages[1..], Output(first), fuel).value;
    assert ExecAll(stages, src, fuel).value[1..] == rest;
    assert AllEnd(rest);
    var next := stages[1..][0];
    assert rest[0].left == [] != first.out;
    if next.Done? {
      assert false;
    } else if next.Writing? {
      var k := WriterIsServed(stages[1..], Output(first), fuel);
      i := k + 1;
    } else {
      i := if WantsInput(next) then 0 else 1;
    }
  }

  /** When the composition is defined and leaves nothing unread, then either all stages are done or
      one of them can move. */
  lemma {:induction false} SomeStageCanMove<S>(stages: seq<Stage<S>>, src: Source, fuel: nat) returns (i: nat)
    requires stages != [] && !stages[|stages| - 1].Writing? && src.chunks == [] && !AllDone(stages)
    requires ExecAll(stages, src, fuel).Just? && AllEnd(ExecAll(stages, src, fuel).value)
    ensures i < |stages| && CanMove(stages, i, src)
    decreases |stages|
  {
    assert ExecAll(stages, src, fuel).value[0] == Exec(stages[0], src, fuel).value;
    match stages[0]
    case Done(_) =>
      DoneIsSilent(stages[0], src, fuel);
      var (fls, next) := (ExecAll(stages, src, fuel).value, Source([], stages[0].outcome.closed));
      assert fls[1..] == ExecAll(stages[1..], next, fuel).value;
      assert AllEnd(fls[1..]);
      var k := SomeStageCanMove(stages[1..], next, fuel);
      i := k + 1;
    case Writing(_, _, _) =>
      i := WriterIsServed(stages, src, fuel);
    case _ =>
      i := 0;
  }
}
