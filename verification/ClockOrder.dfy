/** Events with equal deadlines, over runs: when they fire in the order in which they were registered.
    A ticker is registered once and named by its first entry; a one-shot is registered with its entry,
    and a reset registers it anew. */
module ClockOrder {
  import opened ScheduleSpec
  import opened ScheduleLaws
  import opened ScheduleTies
  import opened ClockMachine
  import opened ClockInvariant
  import opened ClockRuns

  function Registered(e: Entry): nat {
    match e.src
    case Tick(t) => t
    case _ => e.id
  }

  /** A ticker's entries are no older than the ticker, and no one-shot's id is a ticker's name. */
  ghost predicate Named(s: State) {
    forall e :: e in s.queue ==> if e.src.Tick? then e.src.ticker <= e.id else e.id !in s.tickers
  }

  lemma PopKeepsNames(s: State)
    requires WellFormed(s) && s.queue != [] && Named(s)
    ensures Named(PopLeast(s).state)
  {
    assert s.queue == [s.queue[0]] + s.queue[1..];
    PopQueue(s);
    PopFrame(s);
  }

  lemma {:induction false} DrainKeepsNames(s: State, limit: int)
    requires WellFormed(s) && Named(s)
    ensures Named(Drain(s, limit).state)
    decreases Work(s, limit)
  {
    hide Named, WellFormed, PopLeast;
    if Due(s, limit) {
      DrainStep(s, limit);
      PopKeepsNames(s);
      DrainKeepsNames(PopLeast(s).state, limit);
    }
  }

  lemma AddKeepsNames(s: State, deadline: int, src: Source)
    requires WellFormed(s) && Named(s) && (src.Tick? ==> src.ticker <= s.nextID + 1)
    ensures Named(Add(s, deadline, src))
  {
    AddElements(s, deadline, src);
  }

  lemma TickerKeepsNames(s: State, period: int)
    requires WellFormed(s) && Named(s)
    ensures Named(AddTicker(s, period))
  {
    AddElements(s.(tickers := s.tickers[s.nextID + 1 := Ticker(period, false)]), s.now + period, Tick(s.nextID + 1));
  }

  lemma StepKeepsNames(w: World, op: Op)
    requires Invariant(w) && Named(w.s)
    ensures Named(Apply(w, op).s)
  {
    hide Invariant, WellFormed, Insert;
    Parts(w);
    match op
    case NewTicker(period) => TickerKeepsNames(w.s, period);
    case After(d) => AddKeepsNames(w.s, w.s.now + d, Send(w.s.nextID + 1));
    case AfterFunc(d, fn) => AddKeepsNames(w.s, w.s.now + d, Call(fn));
    case ResetTimer(tm, d) =>
      if tm in w.timers {
        var was := w.timers[tm];
        HandedOut(w);
        KillKeepsWellFormed(w.s, was.current);
        AddKeepsNames(Kill(w.s, was.current), w.s.now + d, Call(was.fn));
      }
    case CollectStep(d) => DrainKeepsNames(w.s, w.s.now + d);
    case _ =>
  }

  lemma {:induction false} RunKeepsNames(w: World, ops: seq<Op>)
    requires Invariant(w) && Named(w.s)
    ensures Named(Run(w, ops).s)
    decreases ops
  {
    hide Invariant, Named, Apply;
    if ops != [] {
      Parts(w);
      StepKeeps(w, ops[0]);
      StepKeepsNames(w, ops[0]);
      RunKeepsNames(Apply(w, ops[0]), ops[1..]);
    }
  }

  lemma Reached(now: int, ops: seq<Op>)
    ensures var s := Reach(now, ops).s; WellFormed(s) && Named(s)
  {
    hide Invariant, WellFormed;
    FreshIsInvariant(now);
    RunKeeps(Fresh(now), ops);
    RunKeepsNames(Fresh(now), ops);
    Parts(Reach(now, ops));
  }

  /** What the next Advance(d) fires. */
  function Fires(w: World, d: int): seq<Entry>
    requires WellFormed(w.s)
  {
    Collect(w.s, d).fires
  }

  ghost predicate LiveOneShot(w: World, x: Entry, d: int) {
    x in w.s.queue && !x.src.Tick? && x.id !in w.s.dead && x.deadline <= w.s.now + d
  }

  /** Two one-shots: always in order of registration. */
  lemma OneShotsKeepOrder(now: int, ops: seq<Op>, d: int, x: Entry, y: Entry)
    requires var w := Reach(now, ops); LiveOneShot(w, x, d) && LiveOneShot(w, y, d) && x.deadline == y.deadline
    ensures WellFormed(Reach(now, ops).s)
    ensures FiresBefore(Fires(Reach(now, ops), d), x, y) <==> Registered(x) < Registered(y)
  {
    hide WellFormed, Named;
    Reached(now, ops);
    var w := Reach(now, ops);
    OneShotsInOrder(w.s, w.s.now + d, x, y);
  }

  /** A one-shot and a ticker that are due at the same instant: in order of registration, unless the
      one-shot was registered later and that tick is not queued yet, or was queued again since. */
  lemma OneShotKeepsOrderIff(now: int, ops: seq<Op>, d: int, x: Entry, t: nat, p: int, e: Entry)
    requires var w := Reach(now, ops); LiveOneShot(w, x, d) && LiveAt(w.s, t, p, e)
    requires x.deadline in Schedule(e.deadline, p, Reach(now, ops).s.now + d)
    ensures WellFormed(Reach(now, ops).s)
    ensures (FiresAheadOfTick(Fires(Reach(now, ops), d), x, t) <==> Registered(x) < t)
       <==> !(t < Registered(x) && (x.deadline > e.deadline || x.id < e.id))
  {
    Reached(now, ops);
    var w := Reach(now, ops);
    assert t <= e.id && x.id !in w.s.tickers && t in w.s.tickers;
    hide *;
    TiesFollowInsertion(w.s, w.s.now + d, x, t, p, e);
    CollectFires(w.s, d);
  }

  lemma CollectFires(s: State, d: int)
    requires WellFormed(s)
    ensures Collect(s, d).fires == Drain(s, s.now + d).fires
  {
  }

  /** Two tickers that are due at the same instant: in order of registration if and only if the one
      registered first is ahead by deadline, id and period. In terms of the run, its queued entry is
      due at born + (n + 1) periods, after n ticks. */
  lemma TickersKeepOrderIff(now: int, ops: seq<Op>, d: int, a: nat, b: nat, at: int) returns (ea: Entry, eb: Entry)
    requires var w := Reach(now, ops);
             a < b && a in w.s.tickers && b in w.s.tickers && !w.s.tickers[a].stopped && !w.s.tickers[b].stopped
    ensures var w := Reach(now, ops);
            && WellFormed(w.s) && a in w.born && b in w.born
            && LiveAt(w.s, a, w.s.tickers[a].period, ea) && LiveAt(w.s, b, w.s.tickers[b].period, eb)
            && ea.deadline == w.born[a] + (|TickTimes(w.hist, a)| + 1) * w.s.tickers[a].period
            && eb.deadline == w.born[b] + (|TickTimes(w.hist, b)| + 1) * w.s.tickers[b].period
    ensures var w := Reach(now, ops);
            var (pa, pb) := (w.s.tickers[a].period, w.s.tickers[b].period);
            at in Schedule(ea.deadline, pa, w.s.now + d) && at in Schedule(eb.deadline, pb, w.s.now + d) ==>
              (TickAhead(Fires(w, d), a, b, at) <==> Ahead(ea, pa, eb, pb, at))
  {
    var w := Reach(now, ops);
    ea := QueuedEntry(now, ops, a);
    eb := QueuedEntry(now, ops, b);
    hide *;
    Reached(now, ops);
    var (pa, pb) := (w.s.tickers[a].period, w.s.tickers[b].period);
    if at in Schedule(ea.deadline, pa, w.s.now + d) && at in Schedule(eb.deadline, pb, w.s.now + d) {
      TickersTie(w.s, w.s.now + d, a, pa, ea, b, pb, eb, at);
      CollectFires(w.s, d);
    }
  }

  lemma QueuedEntry(now: int, ops: seq<Op>, t: nat) returns (e: Entry)
    requires t in Reach(now, ops).s.tickers && !Reach(now, ops).s.tickers[t].stopped
    ensures var w := Reach(now, ops);
            && t in w.born && w.s.tickers[t].period > 0 && LiveAt(w.s, t, w.s.tickers[t].period, e)
            && e.deadline == w.born[t] + (|TickTimes(w.hist, t)| + 1) * w.s.tickers[t].period
  {
    FreshIsInvariant(now);
    RunKeeps(Fresh(now), ops);
    var w := Reach(now, ops);
    assert OnTime(w, t);
    e :| e in w.s.queue && e.src == Tick(t) && e.id !in w.s.dead
      && e.deadline == w.born[t] + (|TickTimes(w.hist, t)| + 1) * w.s.tickers[t].period;
  }
}
