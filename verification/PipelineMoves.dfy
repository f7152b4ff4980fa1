/** How one move of one stage changes what all stages together will compute: the move and the
    composition of the stages commute, in both directions. */
module PipelineMoves {

  import opened PipelineSpec

  // ----- one move against the composition of the stages

  /** The bytes that leave stage j's hands when stage i moves. */
  function Handed<S>(stages: seq<Stage<S>>, i: nat, src: Source, j: nat): Bytes
    requires i < |stages| && CanMove(stages, i, src)
  {
    if j != i then [] else
      match stages[i]
      case Done(_) => []
      case Idle => []
      case Writing(_, rest, _) => rest[..Transfer(stages, i)]
      case At(act, s) => if act(s).Write? && i + 1 == |stages| then act(s).chunk else []
  }

  /** After a move of stage i, one action less is to come, the bytes just handed over no longer are,
      and all else is as it was. */
  ghost predicate Advanced<S>(stages: seq<Stage<S>>, i: nat, src: Source, before: seq<Flow>, after: seq<Flow>)
    requires i < |stages| && CanMove(stages, i, src)
  {
    && |after| == |before| == |stages|
    && Actions(before) == Actions(after) + 1
    && forall j :: 0 <= j < |stages| ==>
         && after[j].left == before[j].left && after[j].ending == before[j].ending
         && Flatten(before[j].out) == Handed(stages, i, src, j) + Flatten(after[j].out)
  }

  lemma {:induction false} ExecAllLength<S>(stages: seq<Stage<S>>, src: Source, fuel: nat)
    requires ExecAll(stages, src, fuel).Just?
    ensures |ExecAll(stages, src, fuel).value| == |stages|
  {
    if stages != [] {
      ExecAllLength(stages[1..], Output(Exec(stages[0], src, fuel).value), fuel);
    }
  }

  /** What a stage that is not writing becomes when it moves without an input chunk. */
  function Own<S>(st: Stage<S>, last: bool): Stage<S>
    requires st.At? || st.Idle?
  {
    match st
    case Idle => Done(REFUSED)
    case At(act, s) =>
      match act(s)
      case Return(code, failed) => Done(Outcome(code, failed, true))
      case Write(chunk, next) => if last then At(act, next) else Writing(act, chunk, next)
      case Read(_, _, onEof) => At(act, onEof)
  }

  lemma OwnForward<S>(st: Stage<S>, src: Source, fuel: nat, last: bool)
    requires (st.At? || st.Idle?) && (WantsInput(st) ==> src == Source([], true)) && Exec(st, src, fuel).Just?
    ensures Exec(Own(st, last), src, fuel).Just?
    ensures
      var (f, g) := (Exec(st, src, fuel).value, Exec(Own(st, last), src, fuel).value);
      && f == g.(actions := g.actions + 1, out := f.out)
      && f.out == if st.At? && st.act(st.s).Write? && last then [st.act(st.s).chunk] + g.out else g.out
  {
    if st.At? {
      match st.act(st.s)
      case Return(_, _) =>
      case Write(_, next) => MoreFuel(At(st.act, next), src, fuel - 1, fuel);
      case Read(_, _, onEof) => MoreFuel(At(st.act, onEof), src, fuel - 1, fuel);
    }
  }

  /** The writer of a transfer of m bytes: its first chunk gives them up. */
  lemma GiveForward<S>(st: Stage<S>, m: nat, src: Source, fuel: nat)
    requires st.Writing? && m <= |st.rest| && Exec(st, src, fuel).Just?
    ensures Exec(Taken(st, m), src, fuel).Just?
    ensures
      var (f, g) := (Exec(st, src, fuel).value, Exec(Taken(st, m), src, fuel).value);
      f.out != [] && f.out[0] == st.rest && f == g.(out := f.out) && g.out == Rest(f.out, m)
  {
  }

  /** The reader of a transfer: it is one action further, with that much less to read. */
  lemma TakeForward<S>(st: Stage<S>, src: Source, fuel: nat)
    requires WantsInput(st) && src.chunks != [] && Exec(st, src, fuel).Just?
    ensures
      var read := st.act(st.s);
      var m := Min(read.size, |src.chunks[0]|);
      var g := Exec(At(st.act, read.onData(src.chunks[0][..m])), src.(chunks := Rest(src.chunks, m)), fuel);
      g.Just? && Exec(st, src, fuel).value == g.value.(actions := g.value.actions + 1)
  {
    var read := st.act(st.s);
    var m := Min(read.size, |src.chunks[0]|);
    MoreFuel(At(st.act, read.onData(src.chunks[0][..m])), src.(chunks := Rest(src.chunks, m)), fuel - 1, fuel);
  }

  lemma FlattenFront(chunk: Bytes, chunks: seq<Bytes>)
    ensures Flatten([chunk] + chunks) == chunk + Flatten(chunks)
  {
  }

  lemma FlattenRest(chunks: seq<Bytes>, m: nat)
    requires chunks != [] && m <= |chunks[0]|
    ensures Flatten(chunks) == chunks[0][..m] + Flatten(Rest(chunks, m))
  {
    hide Flatten;
    FlattenFront(chunks[0], chunks[1..]);
    assert chunks == [chunks[0]] + chunks[1..];
    if m < |chunks[0]| {
      FlattenFront(chunks[0][m..], chunks[1..]);
      assert chunks[0] == chunks[0][..m] + chunks[0][m..];
    } else {
      assert chunks[0][..m] == chunks[0];
    }
  }

  lemma ExecAllSplits<S>(stages: seq<Stage<S>>, src: Source, fuel: nat)
    requires stages != [] && ExecAll(stages, src, fuel).Just?
    ensures Exec(stages[0], src, fuel).Just?
    ensures ExecAll(stages[1..], Output(Exec(stages[0], src, fuel).value), fuel).Just?
  {
  }

  lemma ExecAllJoins<S>(stages: seq<Stage<S>>, src: Source, fuel: nat, f: Flow, rest: seq<Flow>)
    requires stages != [] && Exec(stages[0], src, fuel) == Just(f)
    requires ExecAll(stages[1..], Output(f), fuel) == Just(rest)
    ensures ExecAll(stages, src, fuel) == Just([f] + rest)
  {
  }

  /** What the i-th stage reads from, if the stages do what fls say. */
  function SourceOf(src: Source, fls: seq<Flow>, i: nat): Source
    requires i <= |fls|
  {
    if i == 0 then src else Output(fls[i - 1])
  }

  /** Each stage alone, on the output of the one before. */
  ghost predicate Chain<S>(stages: seq<Stage<S>>, src: Source, fuel: nat, fls: seq<Flow>) {
    && |fls| == |stages|
    && forall i :: 0 <= i < |fls| ==> Exec(stages[i], SourceOf(src, fls, i), fuel) == Just(fls[i])
  }

  lemma ChainSplits<S>(stages: seq<Stage<S>>, src: Source, fuel: nat, fls: seq<Flow>)
    requires stages != [] && fls != []
    ensures Chain(stages, src, fuel, fls) <==>
              Exec(stages[0], src, fuel) == Just(fls[0]) && Chain(stages[1..], Output(fls[0]), fuel, fls[1..])
  {
    hide Exec, Output;
    var (tail, rest) := (stages[1..], fls[1..]);
    assert forall i :: 0 < i < |fls| ==> fls[i] == rest[i - 1];
    assert forall i :: 0 < i < |stages| ==> stages[i] == tail[i - 1];
    assert forall i :: 0 < i < |fls| ==> SourceOf(src, fls, i) == SourceOf(Output(fls[0]), rest, i - 1);
    if Exec(stages[0], src, fuel) == Just(fls[0]) && Chain(tail, Output(fls[0]), fuel, rest) {
      forall i | 0 <= i < |fls| ensures Exec(stages[i], SourceOf(src, fls, i), fuel) == Just(fls[i]) {
        if i > 0 { assert Exec(tail[i - 1], SourceOf(Output(fls[0]), rest, i - 1), fuel) == Just(rest[i - 1]); }
      }
    }
    if Chain(stages, src, fuel, fls) {
      forall i | 0 <= i < |rest| ensures Exec(tail[i], SourceOf(Output(fls[0]), rest, i), fuel) == Just(rest[i]) {
        assert Exec(stages[i + 1], SourceOf(src, fls, i + 1), fuel) == Just(fls[i + 1]);
      }
    }
  }

  /** The composition is defined when the stages can be run one after the other, and gives their flows. */
  lemma {:induction false} ChainIsExecAll<S>(stages: seq<Stage<S>>, src: Source, fuel: nat, fls: seq<Flow>)
    ensures ExecAll(stages, src, fuel) == Just(fls) <==> Chain(stages, src, fuel, fls)
    decreases |stages|
  {
    hide Exec, Output;
    if stages != [] && fls != [] {
      ChainSplits(stages, src, fuel, fls);
      hide Chain;
      ChainIsExecAll(stages[1..], Output(fls[0]), fuel, fls[1..]);
      assert fls == [fls[0]] + fls[1..];
    }
  }

  /** A transfer from the first of the stages to the second. */
  lemma TransferForward<S>(stages: seq<Stage<S>>, src: Source, fuel: nat)
    requires |stages| > 1 && stages[0].Writing? && WantsInput(stages[1])
    requires ExecAll(stages, src, fuel).Just?
    ensures ExecAll(Move(stages, 0, src), src, fuel).Just?
    ensures Advanced(stages, 0, src, ExecAll(stages, src, fuel).value, ExecAll(Move(stages, 0, src), src, fuel).value)
  {
    hide Exec, ExecAll, Flatten, Rest, Actions;
    var (moved, m) := (Move(stages, 0, src), Transfer(stages, 0));
    var (f, tail) := (Exec(stages[0], src, fuel), stages[1..]);
    ExecAllSplits(stages, src, fuel);
    ExecAllSplits(tail, Output(f.value), fuel);
    var g := Exec(tail[0], Output(f.value), fuel).value;
    var rest := ExecAll(tail[1..], Output(g), fuel).value;
    GiveForward(stages[0], m, src, fuel);
    TakeForward(tail[0], Output(f.value), fuel);
    FlattenRest(f.value.out, m);
    var f' := Exec(moved[0], src, fuel).value;
    var g' := Exec(moved[1], Output(f'), fuel).value;
    assert moved[1..][1..] == tail[1..];
    ExecAllJoins(tail, Output(f.value), fuel, g, rest);
    ExecAllJoins(stages, src, fuel, f.value, [g] + rest);
    ExecAllJoins(moved[1..], Output(f'), fuel, g', rest);
    ExecAllJoins(moved, src, fuel, f', [g'] + rest);
    TransferAdvances(stages, src, f.value, g, f', g', rest);
    ExecAllLength(stages, src, fuel);
  }

  lemma TransferAdvances<S>(stages: seq<Stage<S>>, src: Source, f: Flow, g: Flow, f': Flow, g': Flow, rest: seq<Flow>)
    requires |stages| > 1 && stages[0].Writing? && WantsInput(stages[1])
    requires f == f'.(out := f.out) && Flatten(f.out) == stages[0].rest[..Transfer(stages, 0)] + Flatten(f'.out)
    requires g == g'.(actions := g'.actions + 1)
    ensures |stages| == |[f] + ([g] + rest)| ==> Advanced(stages, 0, src, [f] + ([g] + rest), [f'] + ([g'] + rest))
  {
    var (before, after) := ([f] + ([g] + rest), [f'] + ([g'] + rest));
    assert before[1..] == [g] + rest && after[1..] == [g'] + rest;
    assert ([g] + rest)[1..] == rest && ([g'] + rest)[1..] == rest;
  }

  /** A move of the first stage that hands nothing to another one. */
  lemma AloneForward<S>(stages: seq<Stage<S>>, src: Source, fuel: nat)
    requires stages != [] && (stages[0].At? || stages[0].Idle?) && CanMove(stages, 0, src)
    requires ExecAll(stages, src, fuel).Just?
    ensures ExecAll(Move(stages, 0, src), src, fuel).Just?
    ensures Advanced(stages, 0, src, ExecAll(stages, src, fuel).value, ExecAll(Move(stages, 0, src), src, fuel).value)
  {
    ExecAllLength(stages, src, fuel);
    var moved := Move(stages, 0, src);
    OwnForward(stages[0], src, fuel, |stages| == 1);
    assert moved[0] == Own(stages[0], |stages| == 1);
    assert moved[1..] == stages[1..];
    var (before, after) := (ExecAll(stages, src, fuel).value, ExecAll(moved, src, fuel).value);
    assert before[1..] == after[1..];
    forall j | 0 < j < |stages| ensures before[j] == after[j] {
      assert before[j] == before[1..][j - 1] && after[j] == after[1..][j - 1];
    }
  }

  lemma DoneIsSilent<S>(st: Stage<S>, src: Source, fuel: nat)
    requires st.Done?
    ensures Exec(st, src, fuel) == Just(Flow([], src.chunks, Just(st.outcome), 0))
  {
  }

  lemma AdvancedAfter<S>(stages: seq<Stage<S>>, i: nat, src: Source, first: Flow, before: seq<Flow>, after: seq<Flow>)
    requires 0 < i < |stages| && CanMove(stages, i, src)
    requires CanMove(stages[1..], i - 1, Output(first))
    requires Advanced(stages[1..], i - 1, Output(first), before, after)
    ensures Advanced(stages, i, src, [first] + before, [first] + after)
  {
    hide Flatten;
    assert ([first] + before)[1..] == before && ([first] + after)[1..] == after;
    forall j: nat | 0 < j < |stages|
      ensures Handed(stages, i, src, j) == Handed(stages[1..], i - 1, Output(first), j - 1)
    {
    }
  }

  /** Forward: a move keeps the composition defined, and changes it only as Advanced says. */
  lemma {:induction false} MoveForward<S>(stages: seq<Stage<S>>, i: nat, src: Source, fuel: nat)
    requires i < |stages| && CanMove(stages, i, src)
    requires ExecAll(stages, src, fuel).Just?
    ensures ExecAll(Move(stages, i, src), src, fuel).Just?
    ensures Advanced(stages, i, src, ExecAll(stages, src, fuel).value, ExecAll(Move(stages, i, src), src, fuel).value)
    decreases |stages|
  {
    hide Exec, ExecAll, Flatten, Actions;
    if i > 0 {
      ExecAllSplits(stages, src, fuel);
      var (first, moved) := (Exec(stages[0], src, fuel).value, Move(stages, i, src));
      var (tail, tailSrc) := (stages[1..], Output(first));
      if stages[0].Done? { DoneIsSilent(stages[0], src, fuel); }
      assert moved[0] == stages[0];
      assert Move(tail, i - 1, tailSrc) == moved[1..];
      MoveForward(tail, i - 1, tailSrc, fuel);
      var (before, after) := (ExecAll(tail, tailSrc, fuel).value, ExecAll(moved[1..], tailSrc, fuel).value);
      ExecAllJoins(stages, src, fuel, first, before);
      ExecAllJoins(moved, src, fuel, first, after);
      AdvancedAfter(stages, i, src, first, before, after);
    } else if stages[0].Writing? {
      TransferForward(stages, src, fuel);
    } else {
      AloneForward(stages, src, fuel);
    }
  }

  // ----- the other way

  lemma OwnBackward<S>(st: Stage<S>, src: Source, fuel: nat, last: bool)
    requires (st.At? || st.Idle?) && (WantsInput(st) ==> src == Source([], true))
        && Exec(Own(st, last), src, fuel).Just?
    ensures Exec(st, src, fuel + 1).Just?
    ensures !last ==> Output(Exec(st, src, fuel + 1).value) == Output(Exec(Own(st, last), src, fuel).value)
  {
  }

  lemma GiveBackward<S>(st: Stage<S>, m: nat, src: Source, fuel: nat)
    requires st.Writing? && m <= |st.rest| && Exec(Taken(st, m), src, fuel).Just?
    ensures Exec(st, src, fuel + 1).Just?
    ensures
      var f := Exec(st, src, fuel + 1).value;
      f.out != [] && f.out[0] == st.rest && Output(Exec(Taken(st, m), src, fuel).value)
        == Output(f).(chunks := Rest(f.out, m))
  {
    var f' := Exec(Taken(st, m), src, fuel).value;
    MoreFuel(Taken(st, m), src, fuel, fuel + 1);
    var g := Exec(At(st.act, st.s), src, fuel + 1);
    assert Taken(st, m).Writing? ==> f'.out == [st.rest[m..]] + g.value.out;
    assert Exec(st, src, fuel + 1) == Prepend(st.rest, g, 0);
  }

  lemma TakeBackward<S>(st: Stage<S>, src: Source, fuel: nat)
    requires WantsInput(st) && src.chunks != []
    requires
      var read := st.act(st.s);
      var m := Min(read.size, |src.chunks[0]|);
      Exec(At(st.act, read.onData(src.chunks[0][..m])), src.(chunks := Rest(src.chunks, m)), fuel).Just?
    ensures Exec(st, src, fuel + 1).Just?
    ensures
      var read := st.act(st.s);
      var m := Min(read.size, |src.chunks[0]|);
      Output(Exec(st, src, fuel + 1).value)
      == Output(Exec(At(st.act, read.onData(src.chunks[0][..m])), src.(chunks := Rest(src.chunks, m)), fuel).value)
  {
  }

  lemma TransferBackward<S>(stages: seq<Stage<S>>, src: Source, fuel: nat)
    requires |stages| > 1 && stages[0].Writing? && WantsInput(stages[1])
    requires ExecAll(Move(stages, 0, src), src, fuel).Just?
    ensures ExecAll(stages, src, fuel + 1).Just?
  {
    hide Exec, ExecAll, Flatten, Rest, Actions;
    var (moved, m, tail) := (Move(stages, 0, src), Transfer(stages, 0), stages[1..]);
    ExecAllSplits(moved, src, fuel);
    var f' := Exec(moved[0], src, fuel).value;
    ExecAllSplits(moved[1..], Output(f'), fuel);
    var g' := Exec(moved[1..][0], Output(f'), fuel).value;
    GiveBackward(stages[0], m, src, fuel);
    var f := Exec(stages[0], src, fuel + 1).value;
    TakeBackward(tail[0], Output(f), fuel);
    var g := Exec(tail[0], Output(f), fuel + 1).value;
    assert moved[1..][1..] == tail[1..];
    MoreFuelAll(tail[1..], Output(g), fuel, fuel + 1);
    var rest := ExecAll(tail[1..], Output(g), fuel + 1).value;
    ExecAllJoins(tail, Output(f), fuel + 1, g, rest);
    ExecAllJoins(stages, src, fuel + 1, f, [g] + rest);
  }

  lemma AloneBackward<S>(stages: seq<Stage<S>>, src: Source, fuel: nat)
    requires stages != [] && (stages[0].At? || stages[0].Idle?) && CanMove(stages, 0, src)
    requires ExecAll(Move(stages, 0, src), src, fuel).Just?
    ensures ExecAll(stages, src, fuel + 1).Just?
  {
    hide Exec;
    var moved := Move(stages, 0, src);
    assert moved[0] == Own(stages[0], |stages| == 1) && moved[1..] == stages[1..];
    OwnBackward(stages[0], src, fuel, |stages| == 1);
    if |stages| > 1 {
      MoreFuelAll(stages[1..], Output(Exec(moved[0], src, fuel).value), fuel, fuel + 1);
    }
  }

  /** Backward: when the composition is defined after a move, it was before. */
  lemma {:induction false} MoveBackward<S>(stages: seq<Stage<S>>, i: nat, src: Source, fuel: nat)
    requires i < |stages| && CanMove(stages, i, src)
    requires ExecAll(Move(stages, i, src), src, fuel).Just?
    ensures ExecAll(stages, src, fuel + 1).Just?
    decreases |stages|
  {
    hide Exec, ExecAll;
    if i > 0 {
      var moved := Move(stages, i, src);
      assert moved[0] == stages[0];
      ExecAllSplits(moved, src, fuel);
      MoreFuel(stages[0], src, fuel, fuel + 1);
      var first := Exec(stages[0], src, fuel + 1).value;
      var (tail, tailSrc) := (stages[1..], Output(first));
      if stages[0].Done? { DoneIsSilent(stages[0], src, fuel); }
      assert Move(tail, i - 1, tailSrc) == moved[1..];
      MoveBackward(tail, i - 1, tailSrc, fuel);
      ExecAllJoins(stages, src, fuel + 1, first, ExecAll(tail, tailSrc, fuel + 1).value);
    } else if stages[0].Writing? {
      TransferBackward(stages, src, fuel);
    } else {
      AloneBackward(stages, src, fuel);
    }
  }
}
