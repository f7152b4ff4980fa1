/** Runs of any pipeline, also of one whose stages may run for ever or leave input unread: moves of
    different stages commute, so the order of the moves decides neither whether a run halts, nor when, nor
    where. */
module PipelineConfluence {

  import opened PipelineSpec
  import opened PipelineRuns

  ghost predicate Completes<S>(c: Config<S>, schedule: seq<nat>)
    requires Shaped(c)
  {
    Run(c, schedule).Just? && AllDone(Run(c, schedule).value.stages)
  }

  ghost predicate Halts<S>(c: Config<S>, schedule: seq<nat>)
    requires Shaped(c)
  {
    Run(c, schedule).Just? && Stuck(Run(c, schedule).value)
  }

  // ----- two moves

  /** The stages whose state a move of stage i reads or changes, besides the end of its input. */
  predicate Touches<S>(stages: seq<Stage<S>>, i: nat, k: nat)
    requires i < |stages|
  {
    k == i || (stages[i].Writing? && k == i + 1)
  }

  /** Stages that can both move do not share a stage, and neither waits for the other. */
  lemma MoversAreApart<S>(stages: seq<Stage<S>>, i: nat, j: nat)
    requires i < |stages| && j < |stages| && i != j && CanMove(stages, i, SILENT) && CanMove(stages, j, SILENT)
    ensures forall k: nat :: !(Touches(stages, i, k) && Touches(stages, j, k))
    ensures WantsInput(stages[i]) && i > 0 ==> !Touches(stages, j, i - 1)
  {
  }

  lemma OthersStay<S>(stages: seq<Stage<S>>, i: nat, k: nat)
    requires i < |stages| && k < |stages| && CanMove(stages, i, SILENT) && !Touches(stages, i, k)
    ensures Move(stages, i, SILENT)[k] == stages[k]
  {
  }

  lemma StillCanMove<S>(stages: seq<Stage<S>>, i: nat, j: nat)
    requires i < |stages| && j < |stages| && i != j && CanMove(stages, i, SILENT) && CanMove(stages, j, SILENT)
    ensures CanMove(Move(stages, i, SILENT), j, SILENT)
  {
    MoversAreApart(stages, i, j);
    MoversAreApart(stages, j, i);
    assert forall k: nat :: k < |stages| && !Touches(stages, i, k) ==> Move(stages, i, SILENT)[k] == stages[k] by {
      forall k: nat | k < |stages| && !Touches(stages, i, k) ensures Move(stages, i, SILENT)[k] == stages[k] {
        OthersStay(stages, i, k);
      }
    }
    hide Move;
    assert Touches(stages, j, j);
    assert stages[j].Writing? ==> Touches(stages, j, j + 1);
  }

  lemma MovesCommute<S>(stages: seq<Stage<S>>, i: nat, j: nat)
    requires i < |stages| && j < |stages| && i != j && CanMove(stages, i, SILENT) && CanMove(stages, j, SILENT)
    ensures CanMove(Move(stages, i, SILENT), j, SILENT) && CanMove(Move(stages, j, SILENT), i, SILENT)
    ensures Move(Move(stages, i, SILENT), j, SILENT) == Move(Move(stages, j, SILENT), i, SILENT)
  {
    StillCanMove(stages, i, j);
    StillCanMove(stages, j, i);
    MoversAreApart(stages, i, j);
    var (left, right) := (Move(stages, i, SILENT), Move(stages, j, SILENT));
    assert |Move(left, j, SILENT)| == |Move(right, i, SILENT)|;
    forall k: nat | k < |stages| ensures Move(left, j, SILENT)[k] == Move(right, i, SILENT)[k] {
      if !Touches(stages, i, k) { MovesFirstOrLast(stages, i, j, k); } else { MovesFirstOrLast(stages, j, i, k); }
    }
  }

  /** A stage that j alone may touch is moved alike before i and after. */
  lemma MovesFirstOrLast<S>(stages: seq<Stage<S>>, i: nat, j: nat, k: nat)
    requires i < |stages| && j < |stages| && i != j && CanMove(stages, i, SILENT) && CanMove(stages, j, SILENT)
    requires k < |stages| && !Touches(stages, i, k)
    ensures CanMove(Move(stages, i, SILENT), j, SILENT) && CanMove(Move(stages, j, SILENT), i, SILENT)
    ensures Move(Move(stages, i, SILENT), j, SILENT)[k] == Move(Move(stages, j, SILENT), i, SILENT)[k]
  {
  }

  // ----- what a move adds to the record

  function SentBy<S>(stages: seq<Stage<S>>, i: nat): Bytes
    requires i < |stages|
  {
    var st := stages[i];
    if st.At? && st.act(st.s).Write? then st.act(st.s).chunk else []
  }

  function GotFrom<S>(stages: seq<Stage<S>>, i: nat): Bytes
    requires i < |stages| && CanMove(stages, i, SILENT)
  {
    if stages[i].Writing? then stages[i].rest[..Transfer(stages, i)] else []
  }

  function FlagBy<S>(stages: seq<Stage<S>>, i: nat): multiset<bool>
    requires i < |stages|
  {
    match stages[i]
    case Idle => multiset{true}
    case At(act, s) => (match act(s) case Return(_, failed) => multiset{failed} case _ => multiset{})
    case _ => multiset{}
  }

  function Plus(all: seq<Bytes>, k: nat, more: Bytes): (r: seq<Bytes>)
    ensures |r| == |all|
  {
    if k < |all| then all[k := all[k] + more] else all
  }

  lemma PlusNothing(all: seq<Bytes>, k: nat)
    ensures Plus(all, k, []) == all
  {
    if k < |all| { assert all[k] + [] == all[k]; }
  }

  lemma StepAdds<S>(c: Config<S>, i: nat)
    requires Shaped(c) && Enabled(c, i)
    ensures Step(c, i) == Config(Move(c.stages, i, SILENT),
                                 if i + 1 == |c.stages| then c.out + SentBy(c.stages, i) else c.out,
                                 c.errs + FlagBy(c.stages, i), Plus(c.sent, i, SentBy(c.stages, i)),
                                 Plus(c.got, i + 1, GotFrom(c.stages, i)))
  {
    hide Move;
    PlusNothing(c.sent, i);
    PlusNothing(c.got, i + 1);
    assert c.out + [] == c.out;
    assert c.errs + multiset{} == c.errs;
  }

  lemma AddsTheSame<S>(stages: seq<Stage<S>>, i: nat, j: nat)
    requires i < |stages| && j < |stages| && i != j && CanMove(stages, i, SILENT) && CanMove(stages, j, SILENT)
    ensures CanMove(Move(stages, i, SILENT), j, SILENT)
    ensures var moved := Move(stages, i, SILENT);
            SentBy(moved, j) == SentBy(stages, j) && GotFrom(moved, j) == GotFrom(stages, j)
              && FlagBy(moved, j) == FlagBy(stages, j)
  {
    StillCanMove(stages, i, j);
    MoversAreApart(stages, i, j);
    assert Touches(stages, j, j);
    OthersStay(stages, i, j);
    if stages[j].Writing? {
      assert Touches(stages, j, j + 1);
      OthersStay(stages, i, j + 1);
    }
    hide Move;
  }

  lemma PlusCommutes(all: seq<Bytes>, k: nat, a: Bytes, l: nat, b: Bytes)
    requires k != l
    ensures Plus(Plus(all, k, a), l, b) == Plus(Plus(all, l, b), k, a)
  {
  }

  lemma StepsCommute<S>(c: Config<S>, i: nat, j: nat)
    requires Shaped(c) && Enabled(c, i) && Enabled(c, j) && i != j
    ensures Enabled(Step(c, i), j) && Enabled(Step(c, j), i)
    ensures Step(Step(c, i), j) == Step(Step(c, j), i)
  {
    hide Move, Step, CanMove, SentBy, GotFrom, FlagBy, Plus, Touches;
    MovesCommute(c.stages, i, j);
    AddsTheSame(c.stages, i, j);
    AddsTheSame(c.stages, j, i);
    StepAdds(c, i);
    StepAdds(c, j);
    StepAdds(Step(c, i), j);
    StepAdds(Step(c, j), i);
    PlusCommutes(c.sent, i, SentBy(c.stages, i), j, SentBy(c.stages, j));
    PlusCommutes(c.got, i + 1, GotFrom(c.stages, i), j + 1, GotFrom(c.stages, j));
  }

  // ----- runs

  /** A stage that can move at the start of a halting run moves in it; it may as well do so first. */
  lemma {:induction false} MayGoFirst<S>(c: Config<S>, schedule: seq<nat>, i: nat) returns (rest: seq<nat>)
    requires Shaped(c) && Halts(c, schedule) && Enabled(c, i)
    ensures |schedule| == |rest| + 1 && Run(Step(c, i), rest) == Run(c, schedule)
    decreases |schedule|
  {
    hide Step, Enabled, Stuck;
    assert schedule != [] by { StuckStays(c, i); }
    var k := schedule[0];
    if k == i {
      rest := schedule[1..];
    } else {
      StepsCommute(c, i, k);
      var after := MayGoFirst(Step(c, k), schedule[1..], i);
      rest := [k] + after;
      assert rest[0] == k && rest[1..] == after;
    }
  }

  lemma StuckStays<S>(c: Config<S>, i: nat)
    requires Enabled(c, i)
    ensures !Stuck(c)
  {
  }

  /** If one run halts, any other can be continued to the same end in the same number of moves. */
  lemma {:induction false} HaltingRunsMeet<S>(c: Config<S>, halting: seq<nat>, other: seq<nat>) returns (rest: seq<nat>)
    requires Shaped(c) && Halts(c, halting) && Run(c, other).Just?
    ensures |halting| == |other| + |rest| && Run(Run(c, other).value, rest) == Run(c, halting)
    decreases |other|
  {
    hide Step, Enabled, Stuck;
    if other == [] {
      rest := halting;
    } else {
      var later := MayGoFirst(c, halting, other[0]);
      rest := HaltingRunsMeet(Step(c, other[0]), later, other[1..]);
    }
  }

  /** For every pipeline, whether or not its stages end on their own or read all of their input: if one
      run halts, no run is longer, and every run that halts has as many moves and ends in the same
      configuration; so if one of them completes, all do. */
  lemma HaltingRunsAgree<S>(c: Config<S>, halting: seq<nat>, other: seq<nat>)
    requires Shaped(c) && Halts(c, halting) && Run(c, other).Just?
    ensures |other| <= |halting|
    ensures Halts(c, other) <==> |other| == |halting|
    ensures Halts(c, other) ==> Run(c, other) == Run(c, halting) && (Completes(c, other) <==> Completes(c, halting))
  {
    var rest := HaltingRunsMeet(c, halting, other);
    hide Step, Enabled, Shaped;
    if rest != [] && Halts(c, other) {
      StuckStays(Run(c, other).value, rest[0]);
    }
  }
}
