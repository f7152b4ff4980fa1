/** What one Advance of the test clock does, for every queue. */
module ScheduleLaws {
  import opened ScheduleSpec

  // ----- the frame of a drain

  /** The collect phase keeps the queue well formed, touches neither the clock, the tombstones nor
      the tickers, and leaves only entries beyond the limit. */
  lemma {:induction false} DrainFrame(s: State, limit: int)
    requires WellFormed(s)
    ensures var r := Drain(s, limit).state;
            && WellFormed(r) && r.nextID >= s.nextID
            && r.now == s.now && r.dead == s.dead && r.tickers == s.tickers
            && forall e :: e in r.queue ==> e.deadline > limit
    decreases Work(s, limit)
  {
    if Due(s, limit) {
      PopCostsOne(s, limit);
      DrainFrame(PopLeast(s).state, limit);
    } else {
      forall e | e in s.queue ensures e.deadline > limit {
        var k :| 0 <= k < |s.queue| && s.queue[k] == e;
        assert k > 0 ==> Before(s.queue[0], s.queue[k]);
      }
    }
  }

  /** The number of iterations the drain loop makes. */
  function Iterations(s: State, limit: int): nat
    requires WellFormed(s)
    decreases Work(s, limit)
  {
    if !Due(s, limit) then 0
    else
      PopCostsOne(s, limit);
      1 + Iterations(PopLeast(s).state, limit)
  }

  lemma {:induction false} NothingDueNothingToDo(s: State, q: seq<Entry>, limit: int)
    requires forall e :: e in q ==> e.deadline > limit
    ensures QueueWork(s, q, limit) == 0
  {
    if q != [] {
      assert q[0] in q;
      NothingDueNothingToDo(s, q[1..], limit);
    }
  }

  /** The loop runs once for every due entry, and `(limit - deadline) / period` times more for every
      live due ticker: no more and no fewer. */
  lemma {:induction false} IterationsAreExact(s: State, limit: int)
    requires WellFormed(s)
    ensures Iterations(s, limit) == Work(s, limit)
    decreases Work(s, limit)
  {
    if Due(s, limit) {
      PopCostsOne(s, limit);
      IterationsAreExact(PopLeast(s).state, limit);
    } else {
      DrainFrame(s, limit);
      NothingDueNothingToDo(s, s.queue, limit);
    }
  }

  // ----- advancing in two steps

  lemma DrainStep(s: State, limit: int)
    requires WellFormed(s) && Due(s, limit)
    ensures WellFormed(PopLeast(s).state)
    ensures Work(PopLeast(s).state, limit) == Work(s, limit) - 1
    ensures Drain(s, limit) == Drained(Drain(PopLeast(s).state, limit).state,
        PopLeast(s).fires + Drain(PopLeast(s).state, limit).fires)
  {
    PopCostsOne(s, limit);
  }

  ghost predicate Splits(s: State, a: int, b: int)
    requires WellFormed(s)
  {
    var lo := Drain(s, a);
    WellFormed(lo.state) && Drain(s, b) == Drained(Drain(lo.state, b).state, lo.fires + Drain(lo.state, b).fires)
  }

  lemma ConcatAssoc<T>(x: seq<T>, y: seq<T>, z: seq<T>)
    ensures x + (y + z) == (x + y) + z
  {
  }

  lemma SplitsStep(s: State, a: int, b: int)
    requires WellFormed(s) && a <= b && Due(s, a)
    requires WellFormed(PopLeast(s).state) && Splits(PopLeast(s).state, a, b)
    ensures Splits(s, a, b)
  {
    hide WellFormed;
    var step := PopLeast(s);
    var lo := Drain(step.state, a);
    var hi := Drain(lo.state, b);
    assert Drain(s, a) == Drained(lo.state, step.fires + lo.fires) by { DrainStep(s, a); }
    assert Drain(s, b) == Drained(hi.state, step.fires + (lo.fires + hi.fires)) by { DrainStep(s, b); }
    ConcatAssoc(step.fires, lo.fires, hi.fires);
  }

  /** Draining to a and then to b drains to b. */
  lemma {:induction false} DrainSplits(s: State, a: int, b: int)
    requires WellFormed(s) && a <= b
    ensures Splits(s, a, b)
    decreases Work(s, a)
  {
    if Due(s, a) {
      PopCostsOne(s, a);
      DrainSplits(PopLeast(s).state, a, b);
      SplitsStep(s, a, b);
    } else {
      assert [] + Drain(s, b).fires == Drain(s, b).fires;
    }
  }

  lemma {:induction false} DrainIgnoresClock(s: State, limit: int, now: int)
    requires WellFormed(s)
    ensures WellFormed(s.(now := now))
    ensures Drain(s.(now := now), limit) == Drained(Drain(s, limit).state.(now := now), Drain(s, limit).fires)
    decreases Work(s, limit)
  {
    if Due(s, limit) {
      PopCostsOne(s, limit);
      var step := PopLeast(s);
      assert PopLeast(s.(now := now)) == Drained(step.state.(now := now), step.fires);
      DrainIgnoresClock(step.state, limit, now);
    }
  }

  /** With nothing in between and b >= 0, Advance(a) and then Advance(b) collect the same entries in
      the same order, and leave the same queue, ids and clock, as Advance(a + b). */
  lemma AdvanceComposes(s: State, a: int, b: int)
    requires WellFormed(s) && b >= 0
    ensures WellFormed(Collect(s, a).state)
    ensures Collect(s, a + b) == Drained(Collect(Collect(s, a).state, b).state,
        Collect(s, a).fires + Collect(Collect(s, a).state, b).fires)
  {
    hide WellFormed;
    var limit := s.now + a;
    DrainFrame(s, limit);
    DrainSplits(s, limit, limit + b);
    DrainIgnoresClock(Drain(s, limit).state, limit + b, limit);
    assert limit + b == s.now + (a + b);
  }

  // ----- order of the fires

  ghost predicate NotBefore(e: Entry, low: Entry) {
    e == low || Before(low, e)
  }

  lemma PoppedIsLeast(s: State)
    requires WellFormed(s) && s.queue != []
    ensures forall e :: e in PopLeast(s).state.queue ==> Before(s.queue[0], e)
  {
    TailOfQueue(s);
    PopQueue(s);
  }

  /** The queue after one iteration. */
  lemma PopQueue(s: State)
    requires WellFormed(s) && s.queue != []
    ensures var top := s.queue[0];
            forall e :: e in PopLeast(s).state.queue <==>
              (e in s.queue[1..]
               || (Live(s, top) && top.src.Tick? && e
                 == Entry(top.deadline + s.tickers[top.src.ticker].period, s.nextID + 1, top.src)))
  {
    var top := s.queue[0];
    if Live(s, top) && top.src.Tick? {
      InsertElements(s.queue[1..], Entry(top.deadline + s.tickers[top.src.ticker].period, s.nextID + 1, top.src));
    }
  }

  /** One Advance fires in strictly increasing (deadline, id) order, and nothing beyond its limit. */
  lemma {:induction false} FiresAreOrdered(s: State, limit: int)
    requires WellFormed(s)
    ensures var fires := Drain(s, limit).fires;
            && Sorted(fires)
            && (forall f :: f in fires ==> f.deadline <= limit && s.queue != [] && NotBefore(f, s.queue[0]))
    decreases Work(s, limit)
  {
    if Due(s, limit) {
      PopCostsOne(s, limit);
      PoppedIsLeast(s);
      var step := PopLeast(s);
      FiresAreOrdered(step.state, limit);
      var rest := Drain(step.state, limit).fires;
      forall f | f in rest ensures Before(s.queue[0], f) {
        assert step.state.queue[0] in step.state.queue;
      }
    }
  }

  // ----- one-shots

  lemma PopOneShot(s: State, e: Entry)
    requires WellFormed(s) && s.queue != [] && !e.src.Tick?
    ensures e in PopLeast(s).state.queue <==> e in s.queue && e != s.queue[0]
    ensures e in PopLeast(s).fires <==> e == s.queue[0] && e.id !in s.dead
  {
    var top := s.queue[0];
    PoppedIsLeast(s);
    assert s.queue == [top] + s.queue[1..];
    PopQueue(s);
  }

  /** A one-shot fires exactly when it is queued, due and not tombstoned; it stays queued exactly
      when it is not due. */
  lemma {:induction false} OneShotsFireWhenDue(s: State, limit: int, e: Entry)
    requires WellFormed(s) && !e.src.Tick?
    ensures e in Drain(s, limit).fires <==> e in s.queue && e.deadline <= limit && e.id !in s.dead
    ensures e in Drain(s, limit).state.queue <==> e in s.queue && e.deadline > limit
    decreases Work(s, limit)
  {
    if Due(s, limit) {
      PopCostsOne(s, limit);
      PopOneShot(s, e);
      OneShotsFireWhenDue(PopLeast(s).state, limit, e);
    } else {
      DrainFrame(s, limit);
    }
  }

  // ----- ids

  predicate DistinctIds(q: seq<Entry>) {
    forall i, j :: 0 <= i < j < |q| ==> q[i].id != q[j].id
  }

  /** No id fires twice, and what has fired has left the queue. */
  lemma {:induction false} FiresUseEachIdOnce(s: State, limit: int)
    requires WellFormed(s)
    ensures var r := Drain(s, limit);
            && DistinctIds(r.fires)
            && (forall f :: f in r.fires ==> f in s.queue || s.nextID < f.id <= r.state.nextID)
            && (forall f :: f in r.fires ==> f.id !in s.dead)
            && (forall e :: e in r.state.queue ==> e in s.queue || s.nextID < e.id)
            && (forall e, f :: e in r.state.queue && f in r.fires ==> e.id != f.id)
    decreases Work(s, limit)
  {
    if Due(s, limit) {
      PopCostsOne(s, limit);
      var step := PopLeast(s);
      var top := s.queue[0];
      FiresUseEachIdOnce(step.state, limit);
      DrainFrame(step.state, limit);
      PoppedIsLeast(s);
      TailOfQueue(s);
      PopQueue(s);
      assert top in s.queue;
    }
  }

  // ----- tickers

  /** The times at which ticker t fires in a list of fires. */
  function TickTimes(fires: seq<Entry>, t: nat): seq<int> {
    if fires == [] then []
    else (if fires[0].src == Tick(t) then [fires[0].deadline] else []) + TickTimes(fires[1..], t)
  }

  lemma {:induction false} TickTimesConcat(a: seq<Entry>, b: seq<Entry>, t: nat)
    ensures TickTimes(a + b, t) == TickTimes(a, t) + TickTimes(b, t)
  {
    if a == [] {
      assert a + b == b;
    } else {
      assert (a + b)[0] == a[0] && (a + b)[1..] == a[1..] + b;
      TickTimesConcat(a[1..], b, t);
      var head := if a[0].src == Tick(t) then [a[0].deadline] else [];
      ConcatAssoc(head, TickTimes(a[1..], t), TickTimes(b, t));
    }
  }

  /** first, first + p, first + 2p, ... up to the limit. */
  function Schedule(first: int, p: int, limit: int): seq<int>
    requires p > 0
    decreases limit - first
  {
    if first > limit then [] else [first] + Schedule(first + p, p, limit)
  }

  /** There are `(limit - first) / p + 1` of them, the k-th at `first + k * p`; the next one lies
      beyond the limit. */
  lemma {:induction false} ScheduleIsArithmetic(first: int, p: int, limit: int)
    requires p > 0
    ensures var times := Schedule(first, p, limit);
            && |times| == (if first <= limit then (limit - first) / p + 1 else 0)
            && (forall k :: 0 <= k < |times| ==> times[k] == first + k * p)
    decreases limit - first
  {
    if first <= limit {
      ScheduleIsArithmetic(first + p, p, limit);
      if first + p <= limit { DivDropsByOne(limit - first, p); } else { DivOfSmall(limit - first, p); }
      var rest := Schedule(first + p, p, limit);
      var times := Schedule(first, p, limit);
      forall k | 0 <= k < |times| ensures times[k] == first + k * p {
        if k > 0 { assert times[k] == rest[k - 1] == first + p + (k - 1) * p; }
      }
    }
  }

  /** The first multiple beyond the limit. */
  function NextAfter(first: int, p: int, limit: int): int
    requires p > 0
  {
    first + |Schedule(first, p, limit)| * p
  }

  lemma NextAfterStep(first: int, p: int, limit: int)
    requires p > 0 && first <= limit
    ensures NextAfter(first, p, limit) == NextAfter(first + p, p, limit)
  {
    var n := |Schedule(first + p, p, limit)|;
    assert first + (n + 1) * p == first + p + n * p;
  }

  lemma PopTicker(s: State, t: nat)
    requires WellFormed(s) && s.queue != [] && t in s.tickers
    ensures TickTimes(PopLeast(s).fires, t)
         == if s.queue[0].src == Tick(t) && Live(s, s.queue[0]) then [s.queue[0].deadline] else []
    ensures s.queue[0].src != Tick(t) ==>
              forall e: Entry :: e.src == Tick(t) ==> (e in PopLeast(s).state.queue <==> e in s.queue)
    ensures s.queue[0].src == Tick(t) ==> forall e :: e in PopLeast(s).state.queue && e.src == Tick(t) ==>
              Live(s, s.queue[0]) && e == Entry(s.queue[0].deadline + s.tickers[t].period, s.nextID + 1, Tick(t))
    ensures s.queue[0].src == Tick(t) && Live(s, s.queue[0]) ==>
              Entry(s.queue[0].deadline + s.tickers[t].period, s.nextID + 1, Tick(t)) in PopLeast(s).state.queue
  {
    var top := s.queue[0];
    assert s.queue == [top] + s.queue[1..];
    assert [top][1..] == [];
    TailOfQueue(s);
    PopQueue(s);
  }

  /** A ticker with no entry in the queue never fires again and gets no entry back. */
  lemma {:induction false} AbsentTickersStaySilent(s: State, limit: int, t: nat)
    requires WellFormed(s) && t in s.tickers && forall e :: e in s.queue ==> e.src != Tick(t)
    ensures TickTimes(Drain(s, limit).fires, t) == []
    ensures forall e :: e in Drain(s, limit).state.queue ==> e.src != Tick(t)
    decreases Work(s, limit)
  {
    if Due(s, limit) {
      PopCostsOne(s, limit);
      PopTicker(s, t);
      var step := PopLeast(s);
      AbsentTickersStaySilent(step.state, limit, t);
      TickTimesConcat(step.fires, Drain(step.state, limit).fires, t);
    }
  }

  /** A stopped ticker fires nothing, whether or not its last entry is still queued. */
  lemma {:induction false} StoppedTickersStaySilent(s: State, limit: int, t: nat)
    requires WellFormed(s) && t in s.tickers && s.tickers[t].stopped
    ensures TickTimes(Drain(s, limit).fires, t) == []
    decreases Work(s, limit)
  {
    if Due(s, limit) {
      PopCostsOne(s, limit);
      PopTicker(s, t);
      var step := PopLeast(s);
      StoppedTickersStaySilent(step.state, limit, t);
      TickTimesConcat(step.fires, Drain(step.state, limit).fires, t);
    }
  }

  /** The entry of ticker t after one iteration that started with entry e. */
  function NextEntry(s: State, t: nat, e: Entry): Entry
    requires s.queue != [] && t in s.tickers
  {
    if s.queue[0] == e then Entry(e.deadline + s.tickers[t].period, s.nextID + 1, Tick(t)) else e
  }

  lemma LiveTickerStep(s: State, t: nat, e: Entry)
    requires WellFormed(s) && t in s.tickers && !s.tickers[t].stopped
    requires e in s.queue && e.src == Tick(t) && e.id !in s.dead
    ensures var step := PopLeast(s);
            var next := NextEntry(s, t, e);
            && step.state.tickers == s.tickers
            && next in step.state.queue && next.src == Tick(t) && next.id !in step.state.dead
            && TickTimes(step.fires, t) == if s.queue[0] == e then [e.deadline] else []
  {
    PopTicker(s, t);
    assert s.queue[0] in s.queue;
  }

  /** A live ticker due next at d fires at d, d + p, d + 2p, ... up to the limit, without a gap or
      a repeat, and is queued again at the first multiple beyond it. */
  lemma {:induction false} TickersKeepTime(s: State, limit: int, t: nat, p: int, e: Entry)
    requires WellFormed(s) && t in s.tickers && s.tickers[t] == Ticker(p, false) && p > 0
    requires e in s.queue && e.src == Tick(t) && e.id !in s.dead
    ensures TickTimes(Drain(s, limit).fires, t) == Schedule(e.deadline, p, limit)
    ensures exists f :: f in Drain(s, limit).state.queue && f.src == Tick(t) && f.id !in s.dead
                     && f.deadline == NextAfter(e.deadline, p, limit)
    decreases Work(s, limit)
  {
    hide WellFormed, PopLeast;
    if Due(s, limit) {
      DrainStep(s, limit);
      LiveTickerStep(s, t, e);
      var step := PopLeast(s);
      TickersKeepTime(step.state, limit, t, p, NextEntry(s, t, e));
      TickTimesConcat(step.fires, Drain(step.state, limit).fires, t);
      assert step.state.dead == s.dead by { PopFrame(s); }
      if s.queue[0] == e { NextAfterStep(e.deadline, p, limit); }
    } else {
      DrainFrame(s, limit);
      assert Schedule(e.deadline, p, limit) == [];
    }
  }

  lemma PopFrame(s: State)
    requires WellFormed(s) && s.queue != []
    ensures var after := PopLeast(s).state; after.dead == s.dead && after.tickers == s.tickers && after.now == s.now
  {
  }

  // ----- ties

  lemma {:induction false} TickTimesMembers(fires: seq<Entry>, t: nat, d: int)
    ensures d in TickTimes(fires, t) <==> exists f :: f in fires && f.src == Tick(t) && f.deadline == d
  {
    if fires != [] {
      assert fires == [fires[0]] + fires[1..];
      TickTimesMembers(fires[1..], t, d);
    }
  }

  /** x fires ahead of a tick of ticker t that is due at the same instant. */
  ghost predicate FiresAheadOfTick(fires: seq<Entry>, x: Entry, t: nat) {
    exists i, j :: 0 <= i < j < |fires| && fires[i] == x && fires[j].src == Tick(t) && fires[j].deadline == x.deadline
  }

  /** The ticks of one Advance are the queued entry itself and later, freshly numbered ones. */
  lemma {:induction false} TicksStartAtEntry(s: State, limit: int, t: nat, p: int, e: Entry)
    requires WellFormed(s) && t in s.tickers && s.tickers[t] == Ticker(p, false) && p > 0
    requires e in s.queue && e.src == Tick(t) && e.id !in s.dead
    ensures forall f :: f in Drain(s, limit).fires && f.src == Tick(t) ==>
        f == e || (f.deadline > e.deadline && f.id > s.nextID)
    decreases Work(s, limit)
  {
    assert PopLeast(s).state.nextID >= s.nextID;
    assert forall f :: f in PopLeast(s).fires ==> f == s.queue[0];
    assert s.queue[0].src == Tick(t) ==> s.queue[0] == e;
    hide WellFormed, PopLeast;
    if Due(s, limit) {
      DrainStep(s, limit);
      LiveTickerStep(s, t, e);
      TicksStartAtEntry(PopLeast(s).state, limit, t, p, NextEntry(s, t, e));
    }
  }

  /** Equal deadlines fire in the order of insertion, not of registration: a due one-shot x
      overtakes ticker t, even one registered long before x, exactly when x falls on a tick of this
      Advance and that tick is not the one already queued ahead of x. */
  lemma TiesFollowInsertion(s: State, limit: int, x: Entry, t: nat, p: int, e: Entry)
    requires WellFormed(s) && t in s.tickers && s.tickers[t] == Ticker(p, false) && p > 0
    requires e in s.queue && e.src == Tick(t) && e.id !in s.dead
    requires x in s.queue && !x.src.Tick? && x.id !in s.dead
    ensures FiresAheadOfTick(Drain(s, limit).fires, x, t)
       <==> x.deadline in Schedule(e.deadline, p, limit) && (x.deadline > e.deadline || x.id < e.id)
  {
    var fires := Drain(s, limit).fires;
    assert x.id <= s.nextID;
    FiresAreOrdered(s, limit);
    TickersKeepTime(s, limit, t, p, e);
    TickTimesMembers(fires, t, x.deadline);
    TicksStartAtEntry(s, limit, t, p, e);
    ScheduleBounds(e.deadline, p, limit, x.deadline);
    OneShotsFireWhenDue(s, limit, x);
    hide *;
    if FiresAheadOfTick(fires, x, t) {
      TieForward(fires, x, t);
    }
    if x.deadline in Schedule(e.deadline, p, limit) && (x.deadline > e.deadline || x.id < e.id) {
      var f :| f in fires && f.src == Tick(t) && f.deadline == x.deadline;
      TieBackward(fires, x, t, f);
    }
  }

  lemma {:induction false} ScheduleBounds(first: int, p: int, limit: int, d: int)
    requires p > 0
    ensures d in Schedule(first, p, limit) ==> first <= d <= limit
    decreases limit - first
  {
    if first <= limit { ScheduleBounds(first + p, p, limit, d); }
  }

  lemma TieForward(fires: seq<Entry>, x: Entry, t: nat)
    requires Sorted(fires) && FiresAheadOfTick(fires, x, t)
    ensures exists f :: f in fires && f.src == Tick(t) && f.deadline == x.deadline && x.id < f.id
  {
    var i, j :| 0 <= i < j < |fires| && fires[i] == x && fires[j].src == Tick(t) && fires[j].deadline == x.deadline;
    assert fires[j] in fires && Before(fires[i], fires[j]);
  }

  lemma TieBackward(fires: seq<Entry>, x: Entry, t: nat, f: Entry)
    requires Sorted(fires) && x in fires && f in fires && f.src == Tick(t) && f.deadline == x.deadline && x.id < f.id
    ensures FiresAheadOfTick(fires, x, t)
  {
    var i :| 0 <= i < |fires| && fires[i] == x;
    var j :| 0 <= j < |fires| && fires[j] == f;
    assert j < i ==> Before(f, x);
  }

  lemma SecondTick(first: int, p: int)
    requires p > 0
    ensures first + p in Schedule(first, p, first + p)
  {
    var times := Schedule(first, p, first + p);
    assert Schedule(first + p, p, first + p) == [first + p] + Schedule(first + p + p, p, first + p);
    assert times[1] == first + p;
  }

  lemma TickerThenCall(s0: State, p: int, fn: int)
    requires WellFormed(s0) && s0.queue == [] && s0.dead == {} && p > 0
    ensures
      var (s, n) := (AddAfterFunc(AddTicker(s0, p), 2 * p, fn), s0.nextID);
      && WellFormed(s) && s.dead == {} && s.tickers == s0.tickers[n + 1 := Ticker(p, false)]
      && s.queue == [Entry(s0.now + p, n + 1, Tick(n + 1)), Entry(s0.now + 2 * p, n + 2, Call(fn))]
  {
    hide WellFormed;
    var e := Entry(s0.now + p, s0.nextID + 1, Tick(s0.nextID + 1));
    AddTickerKeepsWellFormed(s0, p);
    AddKeepsWellFormed(AddTicker(s0, p), s0.now + 2 * p, Call(fn));
    var x := Entry(s0.now + 2 * p, s0.nextID + 2, Call(fn));
    assert Insert([e], x) == [e] + Insert([], x);
  }

  /** NewTicker(p), AfterFunc(2p), Advance(2p): the callback, registered second, fires ahead of the
      ticker's tick for the same instant. */
  lemma RegistrationOrderIsBroken(now: int, p: int, fn: int)
    requires p > 0
    ensures var s := AddAfterFunc(AddTicker(State(now, 0, [], {}, map[]), p), 2 * p, fn);
            && WellFormed(s) && FiresAheadOfTick(Drain(s, now + 2 * p).fires, Entry(now + 2 * p, 2, Call(fn)), 1)
  {
    hide Drain, FiresAheadOfTick, Schedule, Insert;
    var s0 := State(now, 0, [], {}, map[]);
    var s := AddAfterFunc(AddTicker(s0, p), 2 * p, fn);
    TickerThenCall(s0, p, fn);
    var e := s.queue[0];
    SecondTick(now + p, p);
    TiesFollowInsertion(s, now + 2 * p, s.queue[1], 1, p, e);
  }

  // ----- delivery

  /** A channel with room for one time. */
  datatype Slot = Empty | Full(time: int)

  /** A non-blocking send: dropped when the slot is taken. */
  function Offer(slots: map<nat, Slot>, f: Entry): map<nat, Slot> {
    match f.src
    case Call(_) => slots
    case Tick(c) => if c in slots && slots[c].Empty? then slots[c := Full(f.deadline)] else slots
    case Send(c) => if c in slots && slots[c].Empty? then slots[c := Full(f.deadline)] else slots
  }

  /** The firing phase of `advance`, after the lock is released. */
  function Deliver(slots: map<nat, Slot>, fires: seq<Entry>): map<nat, Slot> {
    if fires == [] then slots else Deliver(Offer(slots, fires[0]), fires[1..])
  }

  lemma {:induction false} DeliverConcat(slots: map<nat, Slot>, a: seq<Entry>, b: seq<Entry>)
    ensures Deliver(slots, a + b) == Deliver(Deliver(slots, a), b)
  {
    if a == [] {
      assert a + b == b;
    } else {
      assert (a + b)[1..] == a[1..] + b;
      DeliverConcat(Offer(slots, a[0]), a[1..], b);
    }
  }

  predicate For(f: Entry, c: nat) {
    f.src == Tick(c) || f.src == Send(c)
  }

  lemma OfferOne(slots: map<nat, Slot>, f: Entry, c: nat)
    requires c in slots
    ensures Offer(slots, f).Keys == slots.Keys
    ensures Offer(slots, f)[c] == if slots[c].Empty? && For(f, c) then Full(f.deadline) else slots[c]
  {
  }

  /** A slot that is full keeps its time, and one for which nothing fires keeps what it has. */
  lemma {:induction false} SlotsStay(slots: map<nat, Slot>, fires: seq<Entry>, c: nat)
    requires c in slots
    ensures Deliver(slots, fires).Keys == slots.Keys
    ensures slots[c].Full? || (forall f :: f in fires ==> !For(f, c)) ==> Deliver(slots, fires)[c] == slots[c]
  {
    hide Offer, For;
    if fires != [] {
      OfferOne(slots, fires[0], c);
      SlotsStay(Offer(slots, fires[0]), fires[1..], c);
    }
  }

  /** After an Advance an empty slot holds the first time fired for it; later times are dropped. */
  lemma {:induction false} FirstOneStays(slots: map<nat, Slot>, fires: seq<Entry>, c: nat, k: nat)
    requires c in slots && slots[c].Empty?
    requires k < |fires| && For(fires[k], c) && forall i :: 0 <= i < k ==> !For(fires[i], c)
    ensures c in Deliver(slots, fires) && Deliver(slots, fires)[c] == Full(fires[k].deadline)
  {
    hide Offer, For;
    OfferOne(slots, fires[0], c);
    if k == 0 {
      SlotsStay(Offer(slots, fires[0]), fires[1..], c);
    } else {
      assert forall i :: 0 <= i < k ==> fires[1..][i] == fires[i + 1];
      FirstOneStays(Offer(slots, fires[0]), fires[1..], c, k - 1);
    }
  }
}
