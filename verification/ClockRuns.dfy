/** Runs of the test clock: what holds in every reachable state, what Stop and Reset answer, and
    Advance as one operation. */
module ClockRuns {
  import opened ScheduleSpec
  import opened ScheduleLaws
  import opened ClockMachine
  import opened ClockInvariant

  function Run(w: World, ops: seq<Op>): World
    requires Invariant(w)
    decreases ops
  {
    if ops == [] then w
    else
      StepKeeps(w, ops[0]);
      Run(Apply(w, ops[0]), ops[1..])
  }

  lemma {:induction false} RunKeeps(w: World, ops: seq<Op>)
    requires Invariant(w)
    ensures Invariant(Run(w, ops))
    decreases ops
  {
    if ops != [] {
      StepKeeps(w, ops[0]);
      RunKeeps(Apply(w, ops[0]), ops[1..]);
    }
  }

  lemma FreshIsInvariant(now: int)
    ensures Invariant(Fresh(now))
  {
    assert Conserved(Fresh(now));
  }

  /** The state reached from a new clock by a run. */
  function Reach(now: int, ops: seq<Op>): World {
    FreshIsInvariant(now);
    Run(Fresh(now), ops)
  }

  // ----- what holds in every reachable state

  /** Tickers never drift. In every reachable state ticker t, made at time b with period p, has fired
      exactly at b + p, b + 2p, ..., b + np; live, its one queued entry is due at b + (n + 1)p;
      stopped, it has at most one entry left. */
  lemma TickersNeverDrift(now: int, ops: seq<Op>, t: nat)
    requires t in Reach(now, ops).s.tickers
    ensures var w := Reach(now, ops);
            var p := w.s.tickers[t].period;
            var times := TickTimes(w.hist, t);
            && t in w.born
            && (forall k :: 0 <= k < |times| ==> times[k] == w.born[t] + (k + 1) * p)
            && (!w.s.tickers[t].stopped ==>
                  exists e :: e in w.s.queue && e.src == Tick(t) && e.deadline == w.born[t] + (|times| + 1) * p)
            && (forall e, f :: e in w.s.queue && f in w.s.queue && e.src == f.src == Tick(t) ==> e == f)
  {
    FreshIsInvariant(now);
    RunKeeps(Fresh(now), ops);
    assert OnTime(Reach(now, ops), t);
  }

  /** Each timer has at most one untombstoned entry in the queue, however often it was reset, and no
      entry is ever collected twice, however the steps of concurrent Advances interleave. */
  lemma OneLiveGeneration(now: int, ops: seq<Op>)
    ensures var w := Reach(now, ops);
            && DistinctIds(w.hist)
            && (forall e, f | e in w.s.queue && f in w.s.queue && e.id in w.owner && f.id in w.owner
                              && w.owner[e.id] == w.owner[f.id] && e.id !in w.s.dead && f.id !in w.s.dead :: e == f)
            && (forall f :: f in w.hist ==> !HasId(w.s.queue, f.id))
  {
    FreshIsInvariant(now);
    RunKeeps(Fresh(now), ops);
    var w := Reach(now, ops);
    forall e, f | e in w.s.queue && f in w.s.queue && e.id in w.owner && f.id in w.owner
                  && w.owner[e.id] == w.owner[f.id] && e.id !in w.s.dead && f.id !in w.s.dead
      ensures e == f
    {
      assert Generation(w, e.id) && Generation(w, f.id);
    }
  }

  /** Nothing is lost or duplicated between collection and delivery. */
  lemma FiresAreConserved(now: int, ops: seq<Op>)
    ensures var w := Reach(now, ops); multiset(w.hist) == multiset(w.delivered) + Pending(w.inflight)
  {
    FreshIsInvariant(now);
    RunKeeps(Fresh(now), ops);
  }

  lemma TombstoneStep(w: World, op: Op, id: nat)
    requires Invariant(w) && id in w.s.dead && !HasId(w.hist, id)
    ensures id in Apply(w, op).s.dead && !HasId(Apply(w, op).hist, id)
  {
    hide Invariant, WellFormed, HasId, Collect, Insert;
    Parts(w);
    if op.CollectStep? { CollectSpares(w, op.d, id); }
  }

  lemma CollectSpares(w: World, d: int, id: nat)
    requires WellFormed(w.s) && id in w.s.dead && !HasId(w.hist, id)
    ensures id in Gather(w, d).s.dead && !HasId(Gather(w, d).hist, id)
  {
    hide WellFormed;
    FiresUseEachIdOnce(w.s, w.s.now + d);
    DrainFrame(w.s, w.s.now + d);
    forall e | e in w.hist + Drain(w.s, w.s.now + d).fires ensures e.id != id {
      if e in w.hist { assert HasId(w.hist, e.id); }
    }
  }

  /** A generation tombstoned before it is collected never fires, whatever happens afterwards. */
  lemma {:induction false} TombstonedNeverFires(w: World, ops: seq<Op>, id: nat)
    requires Invariant(w) && id in w.s.dead && !HasId(w.hist, id)
    ensures id in Run(w, ops).s.dead && !HasId(Run(w, ops).hist, id)
    decreases ops
  {
    if ops != [] {
      StepKeeps(w, ops[0]);
      TombstoneStep(w, ops[0], id);
      TombstonedNeverFires(Apply(w, ops[0]), ops[1..], id);
    }
  }

  // ----- what Stop and Reset answer

  /** The answer of `cancel` and of `resetTimer`: the current generation is not yet tombstoned. */
  predicate Answer(w: World, tm: nat)
    requires tm in w.timers
  {
    w.timers[tm].current !in w.s.dead
  }

  /** The answer the Timer interface promises: the timer is still pending. */
  predicate IsPending(w: World, tm: nat)
    requires tm in w.timers
  {
    w.timers[tm].current !in w.s.dead && HasId(w.s.queue, w.timers[tm].current)
  }

  /** Stop and Reset keep the interface's promise exactly when the current generation has been
      stopped or has not fired. A timer that has fired unstopped is reported as still active. */
  lemma AnswersArePromisedUnlessFired(w: World, tm: nat)
    requires Invariant(w) && tm in w.timers
    ensures Answer(w, tm) == IsPending(w, tm)
       <==> (w.timers[tm].current in w.s.dead || !HasId(w.hist, w.timers[tm].current))
  {
    HandedOut(w);
    var id := w.timers[tm].current;
    assert Generation(w, id);
    if HasId(w.hist, id) {
      var f :| f in w.hist && f.id == id;
      assert !HasId(w.s.queue, f.id);
    }
  }

  lemma RunStep(w: World, op: Op, ops: seq<Op>)
    requires Invariant(w)
    ensures Invariant(Apply(w, op)) && Run(w, [op] + ops) == Run(Apply(w, op), ops)
  {
    StepKeeps(w, op);
    assert ([op] + ops)[1..] == ops;
  }

  lemma OneCallFires(s: State, e: Entry, limit: int)
    requires WellFormed(s) && s.queue == [e] && !e.src.Tick? && e.id !in s.dead && e.deadline <= limit
    ensures Drain(s, limit) == Drained(s.(queue := []), [e])
  {
    assert PopLeast(s) == Drained(s.(queue := []), [e]);
    DrainStep(s, limit);
  }

  lemma TimerIsCollected(w: World, d: int, fn: int)
    requires Invariant(w) && w.s.queue == [] && d >= 0
    ensures var v := MakeTimer(w, d, fn);
            && WellFormed(v.s)
            && Gather(v, d) == v.(s := v.s.(queue := [], now := w.s.now + d),
                                  hist := w.hist + [Entry(w.s.now + d, w.s.nextID + 1, Call(fn))],
                                  inflight := w.inflight + [[Entry(w.s.now + d, w.s.nextID + 1, Call(fn))]])
  {
    var v := MakeTimer(w, d, fn);
    hide Invariant, WellFormed, Drain;
    Parts(w);
    FreshName(w);
    AfterFuncKeeps(w, v, d, fn);
    Parts(v);
    OneCallFires(v.s, Entry(w.s.now + d, w.s.nextID + 1, Call(fn)), w.s.now + d);
  }

  lemma RunThree(w: World, a: Op, b: Op, c: Op)
    requires Invariant(w)
    ensures Invariant(Apply(w, a)) && Invariant(Apply(Apply(w, a), b))
    ensures Run(w, [a, b, c]) == Apply(Apply(Apply(w, a), b), c)
  {
    hide Apply;
    assert [a] + [b, c] == [a, b, c];
    RunStep(w, a, [b, c]);
    assert [b] + [c] == [b, c];
    RunStep(Apply(w, a), b, [c]);
    assert [c] + [] == [c];
    RunStep(Apply(Apply(w, a), b), c, []);
  }

  /** AfterFunc(d), Advance(d), Stop on a new clock: the callback has been launched, yet Stop answers
      true. */
  lemma StopAfterFiringAnswersTrue(now: int, d: nat, fn: int)
    ensures var w := Reach(now, [AfterFunc(d, fn), CollectStep(d), DeliverStep(0)]);
            && 1 in w.timers && w.delivered == [Entry(now + d, 1, Call(fn))]
            && Answer(w, 1) && !IsPending(w, 1)
  {
    hide Invariant, WellFormed, Run, Collect, Gather;
    var w0 := Fresh(now);
    var e := Entry(now + d, 1, Call(fn));
    FreshIsInvariant(now);
    RunThree(w0, AfterFunc(d, fn), CollectStep(d), DeliverStep(0));
    TimerIsCollected(w0, d, fn);
    var w2 := Gather(MakeTimer(w0, d, fn), d);
    assert w2.inflight == [[e]];
    assert Reach(now, [AfterFunc(d, fn), CollectStep(d), DeliverStep(0)]) == HandOver(w2, 0);
  }

  // ----- Advance as one operation

  /** Collects and then delivers everything collected, with nothing in between. */
  function Advance(w: World, d: int): World
    requires WellFormed(w.s)
  {
    var r := Collect(w.s, d);
    w.(s := r.state, hist := w.hist + r.fires, delivered := w.delivered + r.fires, slots := Deliver(w.slots, r.fires))
  }

  function Deliveries(thread: nat, n: nat): seq<Op> {
    seq(n, i => DeliverStep(thread))
  }

  lemma {:induction false} DeliverAll(w: World, i: nat)
    requires Invariant(w) && i < |w.inflight|
    ensures Run(w, Deliveries(i, |w.inflight[i]|))
         == w.(inflight := w.inflight[i := []], delivered := w.delivered + w.inflight[i],
           slots := Deliver(w.slots, w.inflight[i]))
    decreases |w.inflight[i]|
  {
    hide Invariant, WellFormed;
    var fires := w.inflight[i];
    if fires == [] {
      assert w.inflight[i := []] == w.inflight;
      assert w.delivered + [] == w.delivered;
    } else {
      var v := HandOver(w, i);
      assert Deliveries(i, |fires|) == [DeliverStep(i)] + Deliveries(i, |fires| - 1);
      RunStep(w, DeliverStep(i), Deliveries(i, |fires| - 1));
      DeliverAll(v, i);
      assert v.inflight[i := []] == w.inflight[i := []];
      assert (w.delivered + [fires[0]]) + fires[1..] == w.delivered + fires;
    }
  }

  /** An undisturbed Advance is the run of its collect step and its delivery steps. */
  lemma AdvanceIsARun(w: World, d: int)
    requires Invariant(w)
    ensures var n := |Collect(w.s, d).fires|;
            Run(w, [CollectStep(d)] + Deliveries(|w.inflight|, n)) == Advance(w, d).(inflight := w.inflight + [[]])
  {
    hide Invariant, WellFormed, Collect, Deliver, Run, Deliveries;
    Parts(w);
    var v := Gather(w, d);
    RunStep(w, CollectStep(d), Deliveries(|w.inflight|, |Collect(w.s, d).fires|));
    DeliverAll(v, |w.inflight|);
    assert v.inflight[|w.inflight| := []] == w.inflight + [[]];
  }

  lemma AdvanceKeepsWellFormed(w: World, d: int)
    requires WellFormed(w.s)
    ensures WellFormed(Advance(w, d).s)
  {
    DrainFrame(w.s, w.s.now + d);
  }

  /** Advance(a) and then Advance(b), b >= 0, is Advance(a + b): same queue, ids and clock, same
      fires in the same order, same channel contents. */
  lemma AdvancesCompose(w: World, a: int, b: int)
    requires WellFormed(w.s) && b >= 0
    ensures WellFormed(Advance(w, a).s)
    ensures Advance(Advance(w, a), b) == Advance(w, a + b)
  {
    AdvanceKeepsWellFormed(w, a);
    AdvanceComposes(w.s, a, b);
    hide WellFormed, Collect, Deliver;
    var r := Collect(w.s, a);
    var q := Collect(r.state, b);
    DeliverConcat(w.slots, r.fires, q.fires);
    ConcatAssoc(w.hist, r.fires, q.fires);
    ConcatAssoc(w.delivered, r.fires, q.fires);
  }
}
