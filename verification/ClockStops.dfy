/** Stopping, over runs: the ticks that can still arrive after a ticker's Stop, and what a timer's Stop
    and Reset answer in terms of the operations since it was armed. */
module ClockStops {
  import opened ScheduleSpec
  import opened ScheduleLaws
  import opened ClockMachine
  import opened ClockInvariant
  import opened ClockRuns

  // ----- tickers

  ghost predicate Stopped(w: World, t: nat) {
    t in w.s.tickers && w.s.tickers[t].stopped
  }

  /** No running Advance holds a tick of t that it has yet to deliver. */
  ghost predicate NoTickInFlight(w: World, t: nat) {
    forall i :: 0 <= i < |w.inflight| ==> TickTimes(w.inflight[i], t) == []
  }

  lemma CollectIsSilent(w: World, d: int, t: nat)
    requires WellFormed(w.s) && Stopped(w, t)
    ensures var v := Gather(w, d);
            && Stopped(v, t) && TickTimes(v.hist, t) == TickTimes(w.hist, t)
            && (NoTickInFlight(w, t) ==> NoTickInFlight(v, t))
  {
    hide WellFormed, TickTimes, Insert;
    StoppedTickersStaySilent(w.s, w.s.now + d, t);
    DrainFrame(w.s, w.s.now + d);
    TickTimesConcat(w.hist, Drain(w.s, w.s.now + d).fires, t);
  }

  lemma HandOverIsSilent(w: World, i: nat, t: nat)
    requires i < |w.inflight| && w.inflight[i] != [] && NoTickInFlight(w, t)
    ensures var v := HandOver(w, i); NoTickInFlight(v, t) && TickTimes(v.delivered, t) == TickTimes(w.delivered, t)
  {
    var fires := w.inflight[i];
    assert fires == [fires[0]] + fires[1..];
    TickTimesConcat([fires[0]], fires[1..], t);
    TickTimesConcat(w.delivered, [fires[0]], t);
  }

  lemma StoppedStep(w: World, op: Op, t: nat)
    requires Invariant(w) && Stopped(w, t)
    ensures WellFormed(w.s)
    ensures Stopped(Apply(w, op), t) && TickTimes(Apply(w, op).hist, t) == TickTimes(w.hist, t)
    ensures NoTickInFlight(w, t) ==> NoTickInFlight(Apply(w, op), t)
    ensures NoTickInFlight(w, t) ==> TickTimes(Apply(w, op).delivered, t) == TickTimes(w.delivered, t)
  {
    hide Invariant, WellFormed, TickTimes, Collect, Insert;
    Parts(w);
    FreshName(w);
    if op.CollectStep? { CollectIsSilent(w, op.d, t); }
    if op.DeliverStep? && op.thread < |w.inflight| && w.inflight[op.thread] != [] && NoTickInFlight(w, t) {
      HandOverIsSilent(w, op.thread, t);
    }
  }

  /** After a ticker's Stop no tick of it is collected any more, whatever happens; and if no Advance was
      holding one back, none is delivered. */
  lemma {:induction false} StoppedRun(w: World, ops: seq<Op>, t: nat)
    requires Invariant(w) && Stopped(w, t)
    ensures TickTimes(Run(w, ops).hist, t) == TickTimes(w.hist, t)
    ensures NoTickInFlight(w, t) ==> TickTimes(Run(w, ops).delivered, t) == TickTimes(w.delivered, t)
    decreases ops
  {
    hide Stopped, NoTickInFlight, TickTimes, Apply;
    if ops != [] {
      StepKeeps(w, ops[0]);
      StoppedStep(w, ops[0], t);
      StoppedRun(Apply(w, ops[0]), ops[1..], t);
    }
  }

  /** A ticker's Stop keeps its promise that no more ticks are delivered, in every run that follows, if
      and only if no Advance is holding one back when it is called. */
  lemma StopIsFinalIff(w: World, t: nat)
    requires Invariant(w) && t in w.s.tickers
    ensures Invariant(HaltTicker(w, t))
    ensures (forall ops :: TickTimes(Run(HaltTicker(w, t), ops).delivered, t) == TickTimes(w.delivered, t))
        <==> NoTickInFlight(w, t)
  {
    StopTickerKeeps(w, HaltTicker(w, t), t);
    var v := HaltTicker(w, t);
    hide Invariant, Run, TickTimes;
    forall ops | NoTickInFlight(w, t) ensures TickTimes(Run(v, ops).delivered, t) == TickTimes(w.delivered, t) {
      StoppedRun(v, ops, t);
    }
    if i :| 0 <= i < |w.inflight| && TickTimes(w.inflight[i], t) != [] {
      DeliverAll(v, i);
      TickTimesConcat(w.delivered, w.inflight[i], t);
      assert TickTimes(Run(v, Deliveries(i, |w.inflight[i]|)).delivered, t) != TickTimes(w.delivered, t);
    }
  }

  // ----- timers

  /** Some Advance reaches the deadline before the timer is stopped or reset. */
  function Reaches(now: int, ops: seq<Op>, tm: nat, deadline: int): bool
    decreases |ops|
  {
    if ops == [] then false
    else
      match ops[0]
      case CollectStep(d) => now + d >= deadline || Reaches(now + d, ops[1..], tm, deadline)
      case SetClock(t) => Reaches(t, ops[1..], tm, deadline)
      case StopTimer(x) => x != tm && Reaches(now, ops[1..], tm, deadline)
      case ResetTimer(x, _) => x != tm && Reaches(now, ops[1..], tm, deadline)
      case _ => Reaches(now, ops[1..], tm, deadline)
  }

  /** e is the queued, untombstoned entry of timer tm's current generation. */
  ghost predicate Armed(w: World, tm: nat, e: Entry) {
    tm in w.timers && w.timers[tm].current == e.id && e in w.s.queue && e.id !in w.s.dead
  }

  lemma ArmedFacts(w: World, tm: nat, e: Entry)
    requires Invariant(w) && Armed(w, tm, e)
    ensures !e.src.Tick? && !HasId(w.hist, e.id) && e.id <= w.s.nextID && WellFormed(w.s)
    ensures forall x :: x in w.timers && x != tm ==> w.timers[x].current != e.id
  {
    HandedOut(w);
    Parts(w);
    forall f | f in w.hist ensures f.id != e.id {
      assert !HasId(w.s.queue, f.id);
    }
  }

  lemma CollectedStaysCollected(w: World, op: Op, id: nat)
    requires Invariant(w)
    ensures WellFormed(w.s) && (HasId(w.hist, id) ==> HasId(Apply(w, op).hist, id))
  {
    Parts(w);
    hide Invariant, WellFormed;
    assert forall f :: f in w.hist ==> f in Apply(w, op).hist;
  }

  lemma {:induction false} FiredStaysFired(w: World, ops: seq<Op>, id: nat)
    requires Invariant(w) && HasId(w.hist, id)
    ensures HasId(Run(w, ops).hist, id)
    decreases ops
  {
    hide Invariant, Apply, HasId;
    if ops != [] {
      StepKeeps(w, ops[0]);
      CollectedStaysCollected(w, ops[0], id);
      FiredStaysFired(Apply(w, ops[0]), ops[1..], id);
    }
  }

  /** An operation that neither fires, stops nor resets the timer leaves it armed. */
  lemma StaysArmed(w: World, op: Op, tm: nat, e: Entry)
    requires Invariant(w) && Armed(w, tm, e) && op != StopTimer(tm) && !(op.ResetTimer? && op.timer == tm)
    requires op.CollectStep? ==> e.deadline > w.s.now + op.d
    ensures WellFormed(w.s) && Armed(Apply(w, op), tm, e)
    ensures Apply(w, op).s.now == match op case CollectStep(d) => w.s.now + d case SetClock(t) => t case _ => w.s.now
  {
    ArmedFacts(w, tm, e);
    hide Invariant, WellFormed, Collect, Insert;
    if op.CollectStep? {
      StaysQueued(w, op.d, e);
    } else {
      QueueOnlyGrows(w, op, e);
    }
  }

  lemma StaysQueued(w: World, d: int, e: Entry)
    requires WellFormed(w.s) && e in w.s.queue && !e.src.Tick? && e.deadline > w.s.now + d
    ensures var v := Gather(w, d);
            e in v.s.queue && v.s.dead == w.s.dead && v.timers == w.timers && v.s.now == w.s.now + d
  {
    OneShotsFireWhenDue(w.s, w.s.now + d, e);
    DrainFrame(w.s, w.s.now + d);
  }

  lemma QueueOnlyGrows(w: World, op: Op, e: Entry)
    requires WellFormed(w.s) && !op.CollectStep? && e in w.s.queue
    ensures e in Apply(w, op).s.queue
  {
    forall deadline, src ensures e in Add(w.s, deadline, src).queue { AddElements(w.s, deadline, src); }
    hide Insert;
    match op
    case NewTicker(period) =>
      AddElements(w.s.(tickers := w.s.tickers[w.s.nextID + 1 := Ticker(period, false)]), w.s.now + period,
        Tick(w.s.nextID + 1));
    case ResetTimer(tm, d) =>
      if tm in w.timers { AddElements(Kill(w.s, w.timers[tm].current), w.s.now + d, Call(w.timers[tm].fn)); }
    case _ =>
  }

  lemma FiresNow(w: World, d: int, tm: nat, e: Entry)
    requires Invariant(w) && Armed(w, tm, e) && e.deadline <= w.s.now + d
    ensures WellFormed(w.s) && HasId(Gather(w, d).hist, e.id)
  {
    ArmedFacts(w, tm, e);
    OneShotsFireWhenDue(w.s, w.s.now + d, e);
    assert e in Gather(w, d).hist;
  }

  lemma DisarmedStep(w: World, op: Op, tm: nat, e: Entry)
    requires Invariant(w) && Armed(w, tm, e) && (op == StopTimer(tm) || (op.ResetTimer? && op.timer == tm))
    ensures WellFormed(w.s) && e.id in Apply(w, op).s.dead && !HasId(Apply(w, op).hist, e.id)
  {
    ArmedFacts(w, tm, e);
  }

  /** An armed generation fires in a run if and only if the run advances to its deadline before it
      stops or resets the timer. */
  lemma {:induction false} FiresIff(w: World, ops: seq<Op>, tm: nat, e: Entry)
    requires Invariant(w) && Armed(w, tm, e)
    ensures HasId(Run(w, ops).hist, e.id) <==> Reaches(w.s.now, ops, tm, e.deadline)
    decreases |ops|
  {
    hide Invariant, Armed, HasId, Apply;
    if ops == [] {
      ArmedFacts(w, tm, e);
    } else {
      var (op, rest) := (ops[0], ops[1..]);
      ArmedFacts(w, tm, e);
      StepKeeps(w, op);
      var v := Apply(w, op);
      if op == StopTimer(tm) || (op.ResetTimer? && op.timer == tm) {
        DisarmedStep(w, op, tm, e);
        TombstonedNeverFires(v, rest, e.id);
      } else if op.CollectStep? && e.deadline <= w.s.now + op.d {
        FiresNow(w, op.d, tm, e);
        CollectStepApplied(w, op.d);
        FiredStaysFired(v, rest, e.id);
      } else {
        StaysArmed(w, op, tm, e);
        FiresIff(v, rest, tm, e);
      }
    }
  }

  lemma CollectStepApplied(w: World, d: int)
    requires WellFormed(w.s)
    ensures Apply(w, CollectStep(d)) == Gather(w, d)
  {
  }

  // ----- what Stop and Reset answer, by operations

  predicate IsReset(op: Op, tm: nat) {
    op.ResetTimer? && op.timer == tm
  }

  lemma TombstoneStepIff(w: World, op: Op, tm: nat)
    requires Invariant(w) && tm in w.timers && !IsReset(op, tm)
    ensures WellFormed(w.s)
    ensures var v := Apply(w, op);
            && tm in v.timers && v.timers[tm].current == w.timers[tm].current
            && (w.timers[tm].current in v.s.dead <==> w.timers[tm].current in w.s.dead || op == StopTimer(tm))
  {
    hide Invariant, WellFormed, Collected, Generations, Conserved, Insert, Drain;
    Parts(w);
    HandedOut(w);
    if op.CollectStep? { DrainFrame(w.s, w.s.now + op.d); }
  }

  /** What the operations since a timer was made have left it as. */
  datatype Phase = Waiting(deadline: int) | Fired | Halted

  function NextPhase(ph: Phase, now: int, op: Op, tm: nat): Phase {
    match op
    case CollectStep(d) => if ph.Waiting? && now + d >= ph.deadline then Fired else ph
    case StopTimer(x) => if x == tm then Halted else ph
    case ResetTimer(x, d) => if x == tm then Waiting(now + d) else ph
    case _ => ph
  }

  function NextNow(now: int, op: Op): int {
    match op case CollectStep(d) => now + d case SetClock(t) => t case _ => now
  }

  function PhaseAfter(ph: Phase, now: int, ops: seq<Op>, tm: nat): Phase
    decreases |ops|
  {
    if ops == [] then ph else PhaseAfter(NextPhase(ph, now, ops[0], tm), NextNow(now, ops[0]), ops[1..], tm)
  }

  ghost predicate PhaseHolds(w: World, tm: nat, ph: Phase) {
    && tm in w.timers
    && match ph
       case Waiting(deadline) => exists e :: Armed(w, tm, e) && e.deadline == deadline
       case Fired => w.timers[tm].current !in w.s.dead && HasId(w.hist, w.timers[tm].current)
       case Halted => w.timers[tm].current in w.s.dead
  }

  lemma StepPhase(w: World, op: Op, tm: nat, ph: Phase)
    requires Invariant(w) && PhaseHolds(w, tm, ph)
    ensures Invariant(Apply(w, op))
    ensures PhaseHolds(Apply(w, op), tm, NextPhase(ph, w.s.now, op, tm))
    ensures Apply(w, op).s.now == NextNow(w.s.now, op)
  {
    hide Invariant, Armed, HasId, Apply;
    StepKeeps(w, op);
    NowMoves(w, op);
    if IsReset(op, tm) {
      ResetArms(w, tm, op.d);
    } else {
      TombstoneStepIff(w, op, tm);
      CollectedStaysCollected(w, op, w.timers[tm].current);
      if ph.Waiting? && op != StopTimer(tm) {
        var e :| Armed(w, tm, e) && e.deadline == ph.deadline;
        WaitingStep(w, op, tm, e);
      }
    }
  }

  lemma NowMoves(w: World, op: Op)
    requires Invariant(w)
    ensures WellFormed(w.s) && Apply(w, op).s.now == NextNow(w.s.now, op)
  {
    Parts(w);
    hide Invariant, WellFormed, Insert;
    if op.CollectStep? { DrainFrame(w.s, w.s.now + op.d); }
  }

  /** An Advance to the deadline fires the timer; without one it stays armed. */
  lemma WaitingStep(w: World, op: Op, tm: nat, e: Entry)
    requires Invariant(w) && Armed(w, tm, e) && op != StopTimer(tm) && !IsReset(op, tm)
    ensures WellFormed(w.s)
    ensures if op.CollectStep? && w.s.now + op.d >= e.deadline then
              tm in w.timers && w.timers[tm].current == e.id && e.id !in w.s.dead && HasId(Apply(w, op).hist, e.id)
            else Armed(Apply(w, op), tm, e)
  {
    ArmedFacts(w, tm, e);
    hide Invariant;
    if op.CollectStep? && w.s.now + op.d >= e.deadline {
      FiresNow(w, op.d, tm, e);
      CollectStepApplied(w, op.d);
    } else {
      StaysArmed(w, op, tm, e);
    }
  }

  lemma ResetArms(w: World, tm: nat, d: int)
    requires Invariant(w) && tm in w.timers
    ensures WellFormed(w.s) && PhaseHolds(Apply(w, ResetTimer(tm, d)), tm, Waiting(w.s.now + d))
  {
    Parts(w);
    FreshName(w);
    HandedOut(w);
    var (was, v) := (w.timers[tm], Apply(w, ResetTimer(tm, d)));
    AddElements(Kill(w.s, was.current), w.s.now + d, Call(was.fn));
    assert Armed(v, tm, Entry(w.s.now + d, w.s.nextID + 1, Call(was.fn)));
  }

  lemma {:induction false} RunPhase(w: World, ops: seq<Op>, tm: nat, ph: Phase)
    requires Invariant(w) && PhaseHolds(w, tm, ph)
    ensures PhaseHolds(Run(w, ops), tm, PhaseAfter(ph, w.s.now, ops, tm))
    decreases |ops|
  {
    hide Invariant, PhaseHolds, Apply;
    if ops != [] {
      Parts(w);
      StepPhase(w, ops[0], tm, ph);
      RunPhase(Apply(w, ops[0]), ops[1..], tm, NextPhase(ph, w.s.now, ops[0], tm));
    }
  }

  lemma PhaseAnswers(w: World, tm: nat, ph: Phase)
    requires Invariant(w) && PhaseHolds(w, tm, ph)
    ensures tm in w.timers && (Answer(w, tm) <==> ph != Halted) && (IsPending(w, tm) <==> ph.Waiting?)
  {
    AnswersArePromisedUnlessFired(w, tm);
    if ph.Waiting? {
      var e :| Armed(w, tm, e) && e.deadline == ph.deadline;
      ArmedFacts(w, tm, e);
    }
  }

  /** A timer made by AfterFunc(d), after any operations whatever, resets included. Stop and Reset answer
      true if and only if it has not been stopped since it was last armed; it is pending if and only if also
      no Advance has reached its deadline since. So they answer as the interface promises if and only if,
      since it was last armed, it has been stopped or no Advance has reached its deadline. */
  lemma AnswersArePromisedIff(w: World, d: int, fn: int, ops: seq<Op>)
    requires Invariant(w)
    ensures Invariant(MakeTimer(w, d, fn))
    ensures var (tm, v) := (w.s.nextID + 1, Run(MakeTimer(w, d, fn), ops));
            var ph := PhaseAfter(Waiting(w.s.now + d), w.s.now, ops, tm);
            && tm in v.timers
            && (Answer(v, tm) <==> ph != Halted)
            && (IsPending(v, tm) <==> ph.Waiting?)
            && (Answer(v, tm) == IsPending(v, tm) <==> ph != Fired)
  {
    hide Invariant, Run, HasId, Answer, IsPending, Add, Insert, Armed, PhaseAfter;
    var (u, tm, e) := (MakeTimer(w, d, fn), w.s.nextID + 1, Entry(w.s.now + d, w.s.nextID + 1, Call(fn)));
    NewTimerIsArmed(w, d, fn);
    AfterFuncKeeps(w, u, d, fn);
    assert PhaseHolds(u, tm, Waiting(w.s.now + d));
    RunPhase(u, ops, tm, Waiting(w.s.now + d));
    RunKeeps(u, ops);
    PhaseAnswers(Run(u, ops), tm, PhaseAfter(Waiting(w.s.now + d), w.s.now, ops, tm));
  }

  lemma NewTimerIsArmed(w: World, d: int, fn: int)
    requires Invariant(w)
    ensures var u := MakeTimer(w, d, fn);
            && Armed(u, w.s.nextID + 1, Entry(w.s.now + d, w.s.nextID + 1, Call(fn)))
            && w.s.nextID + 1 in u.timers && u.timers[w.s.nextID + 1].current == w.s.nextID + 1
            && u.s.now == w.s.now && w.s.nextID + 1 !in u.s.dead
  {
    Parts(w);
    FreshName(w);
    AddElements(w.s, w.s.now + d, Call(fn));
  }
}
