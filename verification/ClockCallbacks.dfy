/** Which callback a timer runs, over runs: the one it was made with, however often it is reset. */
module ClockCallbacks {
  import opened ScheduleSpec
  import opened ScheduleLaws
  import opened ClockMachine
  import opened ClockInvariant
  import opened ClockRuns

  /** The calls queued and collected are of the callbacks of the timers they were made for. */
  ghost predicate OwnCallbacks(w: World) {
    forall f :: (f in w.s.queue || f in w.hist) && f.src.Call? ==> IsOwn(w, f)
  }

  predicate IsOwn(w: World, f: Entry) {
    f.id in w.owner && w.owner[f.id] in w.timers && f.src == Call(w.timers[w.owner[f.id]].fn)
  }

  /** A step changes neither an entry's timer nor a timer's callback. */
  lemma OwnStaysOwn(w: World, op: Op, f: Entry)
    requires Invariant(w) && IsOwn(w, f)
    ensures WellFormed(w.s) && IsOwn(Apply(w, op), f)
    ensures Apply(w, op).owner[f.id] == w.owner[f.id]
  {
    Parts(w);
    HandedOut(w);
    hide Invariant, WellFormed, Insert, Collect;
  }

  lemma QueuedCallIsOwn(w: World, op: Op, f: Entry)
    requires Invariant(w) && !op.CollectStep?
    ensures WellFormed(w.s)
    ensures f in Apply(w, op).s.queue && f !in w.s.queue && f.src.Call? ==> IsOwn(Apply(w, op), f)
  {
    Parts(w);
    HandedOut(w);
    hide Invariant, WellFormed, Insert;
    if f in Apply(w, op).s.queue && f !in w.s.queue { NewEntry(w, op, f); }
  }

  lemma CollectedCallWasQueued(w: World, d: int, f: Entry)
    requires WellFormed(w.s) && f.src.Call? && (f in Gather(w, d).s.queue || f in Gather(w, d).hist)
    ensures f in w.s.queue || f in w.hist
  {
    OneShotsFireWhenDue(w.s, w.s.now + d, f);
    DrainFrame(w.s, w.s.now + d);
  }

  lemma StepKeepsOwnCallbacks(w: World, op: Op)
    requires Invariant(w) && OwnCallbacks(w)
    ensures WellFormed(w.s) && OwnCallbacks(Apply(w, op))
  {
    Parts(w);
    hide Invariant, WellFormed, Insert, Collect, IsOwn;
    forall f | (f in Apply(w, op).s.queue || f in Apply(w, op).hist) && f.src.Call? ensures IsOwn(Apply(w, op), f) {
      if op.CollectStep? { CollectedCallWasQueued(w, op.d, f); } else { QueuedCallIsOwn(w, op, f); }
      if f in w.s.queue || f in w.hist { OwnStaysOwn(w, op, f); }
    }
  }

  lemma StepKeepsFn(w: World, op: Op, tm: nat)
    requires Invariant(w) && tm in w.timers
    ensures WellFormed(w.s) && tm in Apply(w, op).timers && Apply(w, op).timers[tm].fn == w.timers[tm].fn
  {
    Parts(w);
    HandedOut(w);
    hide Invariant, WellFormed, Insert, Collect;
  }

  lemma {:induction false} RunKeepsCallbacks(w: World, ops: seq<Op>)
    requires Invariant(w) && OwnCallbacks(w)
    ensures OwnCallbacks(Run(w, ops))
    ensures forall tm :: tm in w.timers ==> tm in Run(w, ops).timers && Run(w, ops).timers[tm].fn == w.timers[tm].fn
    decreases ops
  {
    hide Invariant, OwnCallbacks, Apply;
    if ops != [] {
      StepKeeps(w, ops[0]);
      StepKeepsOwnCallbacks(w, ops[0]);
      forall tm | tm in w.timers
        ensures tm in Apply(w, ops[0]).timers && Apply(w, ops[0]).timers[tm].fn == w.timers[tm].fn
      {
        StepKeepsFn(w, ops[0], tm);
      }
      RunKeepsCallbacks(Apply(w, ops[0]), ops[1..]);
    }
  }

  /** Whatever is done with a timer made by AfterFunc(d, fn), all that fires for it is fn. */
  lemma TimersKeepTheirCallback(now: int, before: seq<Op>, d: int, fn: int, ops: seq<Op>)
    ensures Invariant(Reach(now, before)) && Invariant(Apply(Reach(now, before), AfterFunc(d, fn)))
    ensures var w := Reach(now, before);
            var (tm, v) := (w.s.nextID + 1, Run(Apply(w, AfterFunc(d, fn)), ops));
            forall f :: f in v.hist && f.id in v.owner && v.owner[f.id] == tm ==> f.src == Call(fn)
  {
    FreshIsInvariant(now);
    RunKeeps(Fresh(now), before);
    RunKeepsCallbacks(Fresh(now), before);
    var w := Reach(now, before);
    StepKeeps(w, AfterFunc(d, fn));
    StepKeepsOwnCallbacks(w, AfterFunc(d, fn));
    var u := Apply(w, AfterFunc(d, fn));
    assert w.s.nextID + 1 in u.timers && u.timers[w.s.nextID + 1].fn == fn;
    RunKeeps(u, ops);
    RunKeepsCallbacks(u, ops);
    var v := Run(u, ops);
    assert KindsMatch(v, v.hist);
    hide Invariant, Run, Apply;
  }
}
