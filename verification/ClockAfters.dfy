/** After, over runs: when the channel gets its time, which time, how often, and how long it holds it. */
module ClockAfters {
  import opened ScheduleSpec
  import opened ScheduleLaws
  import opened ClockMachine
  import opened ClockInvariant
  import opened ClockRuns
  import opened ClockStops

  // ----- channels belong to one entry

  /** The entry that sends on a channel is the one the channel is named after. */
  ghost predicate OwnSlots(w: World) {
    forall f :: (f in w.s.queue || f in w.hist) && f.src.Send? ==> f.src.slot == f.id
  }

  lemma CollectKeepsOwnSlots(w: World, d: int)
    requires WellFormed(w.s) && OwnSlots(w)
    ensures OwnSlots(Gather(w, d))
  {
    var r := Drain(w.s, w.s.now + d);
    forall f | (f in r.state.queue || f in r.fires) && f.src.Send? ensures f in w.s.queue {
      OneShotsFireWhenDue(w.s, w.s.now + d, f);
    }
  }

  lemma StepKeepsOwnSlots(w: World, op: Op)
    requires Invariant(w) && OwnSlots(w)
    ensures WellFormed(w.s) && OwnSlots(Apply(w, op))
  {
    hide Invariant, WellFormed, Insert, Collect;
    Parts(w);
    if op.CollectStep? {
      CollectKeepsOwnSlots(w, op.d);
    } else {
      forall f | f in Apply(w, op).s.queue && f !in w.s.queue ensures f.src.Send? ==> f.src.slot == f.id {
        NewEntry(w, op, f);
      }
    }
  }

  lemma {:induction false} RunKeepsOwnSlots(w: World, ops: seq<Op>)
    requires Invariant(w) && OwnSlots(w)
    ensures OwnSlots(Run(w, ops))
    decreases ops
  {
    hide Invariant, OwnSlots, Apply;
    if ops != [] {
      StepKeeps(w, ops[0]);
      StepKeepsOwnSlots(w, ops[0]);
      RunKeepsOwnSlots(Apply(w, ops[0]), ops[1..]);
    }
  }

  // ----- one After

  /** e, the entry of an After, is queued or has been collected; its channel holds its time from the
      delivery until that has been taken out. */
  ghost predicate Awaited(w: World, e: Entry, fired: bool, taken: bool) {
    && e.src == Send(e.id) && e.id !in w.s.tickers && e.id in w.slots
    && (if fired then e in w.hist else e in w.s.queue)
    && (taken ==> e in w.delivered)
    && w.slots[e.id] == if e in w.delivered && !taken then Full(e.deadline) else Empty
  }

  /** What is delivered or in flight was collected; what was delivered is not in flight. */
  lemma DeliveredOnce(w: World, i: nat)
    requires Invariant(w) && i < |w.inflight| && w.inflight[i] != []
    ensures var f := w.inflight[i][0]; f in w.hist && f !in w.delivered
  {
    var f := w.inflight[i][0];
    hide Invariant;
    Parts(w);
    PendingHead(w.inflight, i);
    assert multiset(w.hist)[f] == multiset(w.delivered)[f] + Pending(w.inflight)[f];
    OnceOnly(w.hist, f);
  }

  lemma {:induction false} OnceOnly(q: seq<Entry>, f: Entry)
    requires DistinctIds(q)
    ensures multiset(q)[f] <= 1
  {
    if q != [] {
      assert q == [q[0]] + q[1..];
      OnceOnly(q[1..], f);
      if q[0] == f { assert f !in q[1..]; }
    }
  }

  lemma OnlyItsEntry(w: World, e: Entry, fired: bool, taken: bool, f: Entry)
    requires Invariant(w) && OwnSlots(w) && Awaited(w, e, fired, taken) && f in w.hist && For(f, e.id)
    ensures f == e && fired
  {
    Parts(w);
    assert f.id == e.id;
    assert !HasId(w.s.queue, f.id);
  }

  lemma AwaitedIsPlain(w: World, e: Entry, fired: bool, taken: bool)
    requires Invariant(w) && Awaited(w, e, fired, taken)
    ensures WellFormed(w.s) && e.id !in w.s.dead && e.id <= w.s.nextID
    ensures !fired ==> e !in w.hist && e !in w.delivered
  {
    Parts(w);
    hide Invariant;
    assert e in w.hist ==> !HasId(w.s.queue, e.id);
    assert e in w.delivered ==> multiset(w.delivered)[e] > 0 && multiset(w.hist)[e] > 0;
  }

  lemma CollectAwaited(w: World, d: int, e: Entry, fired: bool, taken: bool)
    requires Invariant(w) && Awaited(w, e, fired, taken)
    ensures WellFormed(w.s) && Awaited(Gather(w, d), e, fired || w.s.now + d >= e.deadline, taken)
  {
    AwaitedIsPlain(w, e, fired, taken);
    hide Invariant, WellFormed;
    DrainFrame(w.s, w.s.now + d);
    if !fired { OneShotsFireWhenDue(w.s, w.s.now + d, e); }
  }

  lemma DeliverAwaited(w: World, i: nat, e: Entry, fired: bool, taken: bool)
    requires Invariant(w) && OwnSlots(w) && Awaited(w, e, fired, taken) && i < |w.inflight| && w.inflight[i] != []
    ensures Awaited(HandOver(w, i), e, fired, taken)
  {
    var f := w.inflight[i][0];
    DeliveredOnce(w, i);
    OfferOne(w.slots, f, e.id);
    if For(f, e.id) { OnlyItsEntry(w, e, fired, taken, f); }
    hide Invariant, Offer;
  }

  lemma OtherAwaited(w: World, op: Op, e: Entry, fired: bool, taken: bool)
    requires Invariant(w) && Awaited(w, e, fired, taken) && !op.CollectStep? && !op.DeliverStep?
    ensures WellFormed(w.s)
    ensures Awaited(Apply(w, op), e, fired, taken || (op == Receive(e.id) && e in w.delivered))
  {
    AwaitedIsPlain(w, e, fired, taken);
    hide Invariant, WellFormed, Insert;
    if !fired { QueueOnlyGrows(w, op, e); }
  }

  lemma StepAwaited(w: World, op: Op, e: Entry, fired: bool, taken: bool)
    requires Invariant(w) && OwnSlots(w) && Awaited(w, e, fired, taken)
    ensures Invariant(Apply(w, op))
    ensures Awaited(Apply(w, op), e, fired || (op.CollectStep? && w.s.now + op.d >= e.deadline),
                    taken || (op == Receive(e.id) && e in w.delivered))
  {
    StepKeeps(w, op);
    Parts(w);
    hide Invariant, WellFormed, Awaited, Collect;
    if op.CollectStep? {
      CollectAwaited(w, op.d, e, fired, taken);
    } else if op.DeliverStep? {
      if op.thread < |w.inflight| && w.inflight[op.thread] != [] {
        DeliverAwaited(w, op.thread, e, fired, taken);
      }
    } else {
      OtherAwaited(w, op, e, fired, taken);
    }
  }

  /** Some Advance of the run reaches the deadline. */
  function AnAdvanceReaches(now: int, ops: seq<Op>, deadline: int): bool
    decreases |ops|
  {
    ops != [] && ((ops[0].CollectStep? && now + ops[0].d >= deadline)
                  || AnAdvanceReaches(NextNow(now, ops[0]), ops[1..], deadline))
  }

  /** In this run something has been received from e's channel after e was delivered. */
  ghost function TakenIn(w: World, ops: seq<Op>, e: Entry): bool
    requires Invariant(w)
    decreases |ops|
  {
    ops != [] && ((ops[0] == Receive(e.id) && e in w.delivered)
                  || (StepKeeps(w, ops[0]); TakenIn(Apply(w, ops[0]), ops[1..], e)))
  }

  lemma {:induction false} RunAwaited(w: World, ops: seq<Op>, e: Entry, fired: bool, taken: bool)
    requires Invariant(w) && OwnSlots(w) && Awaited(w, e, fired, taken)
    ensures Awaited(Run(w, ops), e, fired || AnAdvanceReaches(w.s.now, ops, e.deadline), taken || TakenIn(w, ops, e))
    decreases |ops|
  {
    hide Invariant, OwnSlots, Awaited, Apply;
    if ops != [] {
      StepKeepsOwnSlots(w, ops[0]);
      StepAwaited(w, ops[0], e, fired, taken);
      NowMoves(w, ops[0]);
      RunAwaited(Apply(w, ops[0]), ops[1..], e,
        fired || (ops[0].CollectStep? && w.s.now + ops[0].d >= e.deadline),
        taken || (ops[0] == Receive(e.id) && e in w.delivered));
    }
  }

  lemma NewAfterIsAwaited(w: World, d: int)
    requires Invariant(w)
    ensures WellFormed(w.s)
    ensures Awaited(Apply(w, After(d)), Entry(w.s.now + d, w.s.nextID + 1, Send(w.s.nextID + 1)), false, false)
    ensures Apply(w, After(d)).s.now == w.s.now
  {
    Parts(w);
    FreshName(w);
    var e := Entry(w.s.now + d, w.s.nextID + 1, Send(w.s.nextID + 1));
    AddElements(w.s, w.s.now + d, Send(w.s.nextID + 1));
    assert e !in w.delivered by {
      assert multiset(w.delivered)[e] > 0 ==> multiset(w.hist)[e] > 0;
    }
  }

  /** The channel of an After(d) made at time b, in every reachable state and after any operations. Its entry
      is collected if and only if some Advance since has reached b + d, and then once; nothing else is ever
      sent on the channel; and the channel holds b + d from the delivery of the entry until that is received, and
      is empty before and after. */
  lemma AfterSendsOnTime(now: int, before: seq<Op>, d: int, ops: seq<Op>)
    ensures Invariant(Reach(now, before)) && Invariant(Apply(Reach(now, before), After(d)))
    ensures
      var w := Reach(now, before);
      var (c, u) := (w.s.nextID + 1, Apply(w, After(d)));
      var (e, v) := (Entry(w.s.now + d, c, Send(c)), Run(u, ops));
      && (e in v.hist <==> AnAdvanceReaches(w.s.now, ops, w.s.now + d))
      && (forall f :: f in v.hist && For(f, c) ==> f == e) && multiset(v.hist)[e] <= 1
      && c in v.slots && v.slots[c] == if e in v.delivered && !TakenIn(u, ops, e) then Full(w.s.now + d) else Empty
  {
    hide Invariant, Awaited, OwnSlots, Run, Apply, HasId;
    var w := Reach(now, before);
    assert Invariant(w) && OwnSlots(w) by { SinceStart(now, before); }
    Parts(w);
    var u := Apply(w, After(d));
    var e := Entry(w.s.now + d, w.s.nextID + 1, Send(w.s.nextID + 1));
    StepKeeps(w, After(d));
    StepKeepsOwnSlots(w, After(d));
    NewAfterIsAwaited(w, d);
    RunAwaited(u, ops, e, false, false);
    RunKeeps(u, ops);
    RunKeepsOwnSlots(u, ops);
    AwaitedMeans(Run(u, ops), e, AnAdvanceReaches(w.s.now, ops, e.deadline), TakenIn(u, ops, e));
  }

  lemma SinceStart(now: int, before: seq<Op>)
    ensures Invariant(Reach(now, before)) && OwnSlots(Reach(now, before))
  {
    FreshIsInvariant(now);
    RunKeeps(Fresh(now), before);
    RunKeepsOwnSlots(Fresh(now), before);
  }

  lemma AwaitedMeans(v: World, e: Entry, fired: bool, taken: bool)
    requires Invariant(v) && OwnSlots(v) && Awaited(v, e, fired, taken)
    ensures e in v.hist <==> fired
    ensures (forall f :: f in v.hist && For(f, e.id) ==> f == e) && multiset(v.hist)[e] <= 1
    ensures e.id in v.slots && v.slots[e.id] == if e in v.delivered && !taken then Full(e.deadline) else Empty
  {
    Parts(v);
    OnceOnly(v.hist, e);
    AwaitedIsPlain(v, e, fired, taken);
    forall f | f in v.hist && For(f, e.id) ensures f == e { OnlyItsEntry(v, e, fired, taken, f); }
  }
}
