/** Every step of the test clock keeps the invariant. */
module ClockInvariant {
  import opened ScheduleSpec
  import opened ScheduleLaws
  import opened ClockMachine

  // ----- registering entries

  lemma AddElements(s: State, deadline: int, src: Source)
    ensures forall e :: e in Add(s, deadline, src).queue <==> (e in s.queue || e == Entry(deadline, s.nextID + 1, src))
  {
    InsertElements(s.queue, Entry(deadline, s.nextID + 1, src));
  }

  /** v is w with one more queued entry under a fresh id. */
  ghost predicate Grows(w: World, v: World, added: Entry) {
    && added.id == w.s.nextID + 1 == v.s.nextID
    && v.hist == w.hist && v.delivered == w.delivered && v.inflight == w.inflight
    && (forall e :: e in v.s.queue <==> (e in w.s.queue || e == added))
  }

  lemma GrowsIds(w: World, v: World, added: Entry)
    requires Grows(w, v, added)
    ensures forall id :: HasId(v.s.queue, id) <==> (HasId(w.s.queue, id) || id == added.id)
  {
    forall id ensures HasId(v.s.queue, id) <==> (HasId(w.s.queue, id) || id == added.id) {
      if HasId(w.s.queue, id) {
        var e :| e in w.s.queue && e.id == id;
        assert e in v.s.queue;
      }
      if id == added.id { assert added in v.s.queue; }
    }
  }

  lemma GrowsCollected(w: World, v: World, added: Entry)
    requires Collected(w) && Grows(w, v, added) && w.s.tickers.Keys <= v.s.tickers.Keys
    ensures Collected(v)
  {
    GrowsIds(w, v, added);
  }

  lemma GrowsOnTime(w: World, v: World, added: Entry, t: nat)
    requires Grows(w, v, added) && t in w.s.tickers && OnTime(w, t)
    requires t in v.s.tickers && v.s.tickers[t] == w.s.tickers[t]
        && (t in w.born ==> t in v.born && v.born[t] == w.born[t])
    requires forall d :: d in v.s.dead && d !in w.s.dead ==> forall e :: e in w.s.queue && e.id == d ==> !e.src.Tick?
    ensures OnTime(v, t)
  {
  }

  lemma GrowsConserved(w: World, v: World, added: Entry)
    requires Conserved(w) && Grows(w, v, added)
    ensures Conserved(v)
  {
  }

  lemma HandedOut(w: World)
    requires Generations(w)
    ensures forall id :: id in w.owner ==> id <= w.s.nextID
    ensures forall tm :: tm in w.timers ==>
        tm <= w.s.nextID && w.timers[tm].current in w.owner && w.owner[w.timers[tm].current] == tm
  {
    forall id | id in w.owner ensures id <= w.s.nextID { assert Generation(w, id); }
    forall tm | tm in w.timers ensures tm <= w.s.nextID && w.timers[tm].current in w.owner
      && w.owner[w.timers[tm].current] == tm {
      assert Current(w, tm);
    }
  }

  /** An entry that is no timer's joins the queue. */
  lemma GrowsGenerations(w: World, v: World, added: Entry)
    requires Generations(w) && Grows(w, v, added) && !added.src.Call?
    requires v.owner == w.owner && v.timers == w.timers && v.s.dead == w.s.dead
    ensures Generations(v)
  {
    GrowsIds(w, v, added);
    HandedOut(w);
    hide HasId;
    forall id | id in v.owner ensures Generation(v, id) { assert Generation(w, id); }
    forall tm | tm in v.timers ensures Current(v, tm) { assert Current(w, tm); }
  }

  /** A fresh entry becomes the current generation of timer tm, which loses its old one. */
  lemma NextGeneration(w: World, v: World, added: Entry, tm: nat)
    requires Collected(w) && Generations(w) && Grows(w, v, added) && added.src.Call?
    requires forall e :: e in w.s.queue ==> e.id <= w.s.nextID
    requires tm in w.timers || tm == added.id
    requires v.owner == w.owner[added.id := tm] && v.timers == w.timers[tm := Timer(added.id, added.src.fn)]
    requires v.s.dead == if tm in w.timers then w.s.dead + {w.timers[tm].current} else w.s.dead
    ensures Generations(v)
  {
    hide HasId, Collected, Generations, KindsMatch, Grows;
    GenerationParts(w);
    GrowsFrame(w, v, added);
    GrowsIds(w, v, added);
    HandedOut(w);
    NextKinds(w, v, added, tm);
    forall id | id in v.owner ensures Generation(v, id) {
      if id != added.id { assert Generation(w, id); }
    }
    forall t | t in v.timers ensures Current(v, t) { if t != tm { assert Current(w, t); } }
    GenerationsFromParts(v);
  }

  lemma GenerationParts(w: World)
    requires Generations(w)
    ensures forall id :: id in w.owner ==> Generation(w, id)
    ensures forall tm :: tm in w.timers ==> Current(w, tm)
    ensures w.s.dead <= w.owner.Keys && KindsMatch(w, w.s.queue) && KindsMatch(w, w.hist)
  {
  }

  lemma GrowsFrame(w: World, v: World, added: Entry)
    requires Grows(w, v, added)
    ensures added.id == w.s.nextID + 1 == v.s.nextID && v.hist == w.hist
  {
  }

  lemma NextKinds(w: World, v: World, added: Entry, tm: nat)
    requires Collected(w) && KindsMatch(w, w.s.queue) && KindsMatch(w, w.hist) && Grows(w, v, added) && added.src.Call?
    requires v.owner == w.owner[added.id := tm] && forall e :: e in w.s.queue ==> e.id <= w.s.nextID
    ensures KindsMatch(v, v.s.queue) && KindsMatch(v, v.hist)
  {
    hide HasId;
  }

  lemma GenerationsFromParts(v: World)
    requires forall id :: id in v.owner ==> Generation(v, id)
    requires forall tm :: tm in v.timers ==> Current(v, tm)
    requires v.s.dead <= v.owner.Keys && KindsMatch(v, v.s.queue) && KindsMatch(v, v.hist)
    ensures Generations(v)
  {
  }

  lemma GrowsInvariant(w: World, v: World, added: Entry)
    requires Invariant(w) && Grows(w, v, added) && WellFormed(v.s) && Generations(v)
    requires w.s.tickers.Keys <= v.s.tickers.Keys
    requires forall t :: t in v.s.tickers && t !in w.s.tickers ==> OnTime(v, t)
    requires forall t :: t in w.s.tickers ==>
        v.s.tickers[t] == w.s.tickers[t] && (t in w.born ==> t in v.born && v.born[t] == w.born[t])
    requires forall d :: d in v.s.dead && d !in w.s.dead ==> d in w.owner
    ensures Invariant(v)
  {
    assert KindsMatch(w, w.s.queue);
    hide WellFormed, HasId, Collected, Generations, Conserved;
    GrowsCollected(w, v, added);
    GrowsConserved(w, v, added);
    forall t | t in v.s.tickers ensures OnTime(v, t) {
      if t in w.s.tickers { GrowsOnTime(w, v, added, t); }
    }
  }

  lemma AfterKeeps(w: World, v: World, d: int)
    requires Invariant(w)
    requires v == MakeAfter(w, d)
    ensures Invariant(v)
  {
    var src := Send(w.s.nextID + 1);
    var added := Entry(w.s.now + d, w.s.nextID + 1, src);
    hide WellFormed, Invariant, OnTime, Collected, Generations, Conserved, Insert, HasId;
    Parts(w);
    assert Grows(w, v, added) by { AddElements(w.s, w.s.now + d, src); }
    assert WellFormed(v.s) by { AddKeepsWellFormed(w.s, w.s.now + d, src); }
    hide Grows;
    GrowsGenerations(w, v, added);
    GrowsInvariant(w, v, added);
  }

  /** What an operation that collects nothing queues: at most one entry, under a fresh id. */
  lemma NewEntry(w: World, op: Op, f: Entry)
    requires WellFormed(w.s) && !op.CollectStep? && f in Apply(w, op).s.queue && f !in w.s.queue
    ensures f.id == w.s.nextID + 1
    ensures match op
            case NewTicker(_) => f.src == Tick(f.id)
            case After(_) => f.src == Send(f.id)
            case AfterFunc(_, fn) => f.src == Call(fn)
            case ResetTimer(tm, _) => tm in w.timers && f.src == Call(w.timers[tm].fn)
            case _ => false
  {
    hide Insert, WellFormed;
    match op
    case NewTicker(period) =>
      AddElements(w.s.(tickers := w.s.tickers[w.s.nextID + 1 := Ticker(period, false)]), w.s.now + period,
        Tick(w.s.nextID + 1));
    case After(d) => AddElements(w.s, w.s.now + d, Send(w.s.nextID + 1));
    case AfterFunc(d, fn) => AddElements(w.s, w.s.now + d, Call(fn));
    case ResetTimer(tm, d) =>
      if tm in w.timers { AddElements(Kill(w.s, w.timers[tm].current), w.s.now + d, Call(w.timers[tm].fn)); }
    case _ =>
  }

  lemma Parts(w: World)
    requires Invariant(w)
    ensures WellFormed(w.s) && Collected(w) && Generations(w) && Conserved(w)
    ensures forall e :: e in w.s.queue ==> e.id <= w.s.nextID
  {
  }

  lemma AfterFuncKeeps(w: World, v: World, d: int, fn: int)
    requires Invariant(w)
    requires v == MakeTimer(w, d, fn)
    ensures Invariant(v)
  {
    var added := Entry(w.s.now + d, w.s.nextID + 1, Call(fn));
    hide WellFormed, Invariant, OnTime, Collected, Generations, Conserved, Insert, HasId;
    Parts(w);
    assert Grows(w, v, added) by { AddElements(w.s, w.s.now + d, added.src); }
    assert WellFormed(v.s) by { AddKeepsWellFormed(w.s, w.s.now + d, added.src); }
    hide Grows;
    HandedOut(w);
    assert v.s.dead == w.s.dead && v.s.tickers == w.s.tickers && added.id !in w.timers;
    NextGeneration(w, v, added, added.id);
    GrowsInvariant(w, v, added);
  }

  lemma KillKeepsWellFormed(s: State, id: nat)
    requires WellFormed(s) && id <= s.nextID
    ensures WellFormed(Kill(s, id))
  {
  }

  lemma ResetTimerKeeps(w: World, v: World, tm: nat, d: int)
    requires Invariant(w) && tm in w.timers
    requires v == Rearm(w, tm, d)
    ensures Invariant(v)
  {
    hide WellFormed, Invariant, OnTime, Collected, Generations, Conserved, Insert, HasId, Grows;
    var added := Entry(w.s.now + d, w.s.nextID + 1, Call(w.timers[tm].fn));
    Parts(w);
    HandedOut(w);
    ResetGrows(w, tm, d);
    NextGeneration(w, v, added, tm);
    GrowsInvariant(w, v, added);
  }

  lemma ResetGrows(w: World, tm: nat, d: int)
    requires WellFormed(w.s) && tm in w.timers && w.timers[tm].current <= w.s.nextID
    ensures var v := Rearm(w, tm, d);
            WellFormed(v.s) && Grows(w, v, Entry(w.s.now + d, w.s.nextID + 1, Call(w.timers[tm].fn)))
  {
    hide WellFormed, Insert;
    var (was, src) := (w.timers[tm], Call(w.timers[tm].fn));
    var killed := Kill(w.s, was.current);
    KillKeepsWellFormed(w.s, was.current);
    AddElements(killed, w.s.now + d, src);
    AddKeepsWellFormed(killed, w.s.now + d, src);
  }

  lemma {:induction false} NoTicksYet(fires: seq<Entry>, t: nat)
    requires forall f :: f in fires ==> f.src != Tick(t)
    ensures TickTimes(fires, t) == []
  {
    if fires != [] {
      assert fires[0] in fires;
      NoTicksYet(fires[1..], t);
    }
  }

  lemma FreshTickerOnTime(v: World, t: nat, e: Entry)
    requires t in v.s.tickers && t in v.born && (forall f :: f in v.hist ==> f.src != Tick(t))
    requires e in v.s.queue && e.src == Tick(t) && e.id !in v.s.dead && e.deadline == v.born[t] + v.s.tickers[t].period
    ensures OnTime(v, t)
  {
    NoTicksYet(v.hist, t);
  }

  lemma FreshName(w: World)
    requires WellFormed(w.s) && Collected(w)
    ensures w.s.nextID + 1 !in w.s.tickers && w.s.nextID + 1 !in w.s.dead
    ensures forall f :: f in w.hist ==> f.src != Tick(w.s.nextID + 1)
  {
  }

  lemma NewTickerKeeps(w: World, v: World, period: int)
    requires Invariant(w) && period > 0
    requires v == MakeTicker(w, period)
    ensures Invariant(v)
  {
    var name := w.s.nextID + 1;
    var added := Entry(w.s.now + period, name, Tick(name));
    hide WellFormed, Invariant, OnTime, Collected, Generations, Conserved, Insert, HasId;
    Parts(w);
    FreshName(w);
    assert Grows(w, v, added) by {
      AddElements(w.s.(tickers := w.s.tickers[name := Ticker(period, false)]), w.s.now + period, added.src);
    }
    assert WellFormed(v.s) by { AddTickerKeepsWellFormed(w.s, period); }
    FreshTickerOnTime(v, name, added);
    hide Grows;
    GrowsGenerations(w, v, added);
    GrowsInvariant(w, v, added);
  }

  // ----- stopping

  lemma SameHistory(w: World, v: World)
    requires Collected(w) && Conserved(w)
    requires v.hist == w.hist && v.inflight == w.inflight && v.delivered == w.delivered
    requires v.s.queue == w.s.queue && v.s.nextID == w.s.nextID && v.s.tickers.Keys == w.s.tickers.Keys
    ensures Collected(v) && Conserved(v)
  {
  }

  lemma SameGenerations(w: World, v: World)
    requires Generations(w) && v.owner == w.owner && v.timers == w.timers
    requires w.s.dead <= v.s.dead <= w.owner.Keys
    requires v.hist == w.hist && v.s.queue == w.s.queue && v.s.nextID == w.s.nextID
    ensures Generations(v)
  {
    hide HasId;
    forall id | id in v.owner ensures Generation(v, id) { assert Generation(w, id); }
    forall tm | tm in v.timers ensures Current(v, tm) { assert Current(w, tm); }
  }

  lemma StopTimerKeeps(w: World, v: World, tm: nat)
    requires Invariant(w) && tm in w.timers && v == HaltTimer(w, tm)
    ensures Invariant(v)
  {
    HandedOut(w);
    var id := w.timers[tm].current;
    assert id in w.owner && id <= w.s.nextID;
    KillKeepsWellFormed(w.s, id);
    SameHistory(w, v);
    SameGenerations(w, v);
    assert KindsMatch(w, w.s.queue);
    forall t | t in v.s.tickers ensures OnTime(v, t) { assert OnTime(w, t); }
  }

  lemma StopTickerKeeps(w: World, v: World, t: nat)
    requires Invariant(w) && t in w.s.tickers && v == HaltTicker(w, t)
    ensures Invariant(v)
  {
    SameHistory(w, v);
    SameGenerations(w, v);
    hide HasId, Generation, Current;
    forall u | u in v.s.tickers ensures OnTime(v, u) { assert OnTime(w, u); }
  }

  lemma SetClockKeeps(w: World, v: World, now: int)
    requires Invariant(w) && v == w.(s := w.s.(now := now))
    ensures Invariant(v)
  {
    SameHistory(w, v);
    SameGenerations(w, v);
    forall u | u in v.s.tickers ensures OnTime(v, u) { assert OnTime(w, u); }
  }

  // ----- delivering

  lemma {:induction false} PendingHead(threads: seq<seq<Entry>>, i: nat)
    requires i < |threads| && threads[i] != []
    ensures Pending(threads) == Pending(threads[i := threads[i][1..]]) + multiset{threads[i][0]}
  {
    var rest := threads[i := threads[i][1..]];
    if i == 0 {
      assert rest[1..] == threads[1..];
      assert threads[0] == [threads[0][0]] + threads[0][1..];
    } else {
      assert rest[1..] == threads[1..][i - 1 := threads[1..][i - 1][1..]];
      PendingHead(threads[1..], i - 1);
    }
  }

  lemma {:induction false} PendingGrows(threads: seq<seq<Entry>>, fires: seq<Entry>)
    ensures Pending(threads + [fires]) == Pending(threads) + multiset(fires)
  {
    if threads == [] {
      assert [fires][1..] == [];
    } else {
      assert (threads + [fires])[1..] == threads[1..] + [fires];
      PendingGrows(threads[1..], fires);
    }
  }

  lemma DeliverStepKeeps(w: World, v: World, i: nat)
    requires Invariant(w) && i < |w.inflight| && w.inflight[i] != [] && v == HandOver(w, i)
    ensures Invariant(v)
  {
    PendingHead(w.inflight, i);
    SameGenerations(w, v);
    forall u | u in v.s.tickers ensures OnTime(v, u) { assert OnTime(w, u); }
  }

  // ----- collecting

  /** v is w after an Advance to `limit` has collected `fires`. */
  ghost predicate Drains(w: World, v: World, limit: int, fires: seq<Entry>)
    requires WellFormed(w.s)
  {
    && Drain(w.s, limit).fires == fires && v.s == Drain(w.s, limit).state.(now := v.s.now)
    && v.hist == w.hist + fires && v.owner == w.owner && v.timers == w.timers && v.born == w.born
  }

  lemma CollectedMore(w: World, v: World, limit: int, fires: seq<Entry>)
    requires WellFormed(w.s) && Collected(w) && Drains(w, v, limit, fires)
    ensures Collected(v)
  {
    FiresUseEachIdOnce(w.s, limit);
    DrainFrame(w.s, limit);
    FiresKnowTheirTickers(w.s, limit);
    forall f | f in w.hist ensures !HasId(v.s.queue, f.id) && forall g :: g in fires ==> g.id != f.id {
      assert !HasId(w.s.queue, f.id);
    }
  }

  lemma {:induction false} FiresKnowTheirTickers(s: State, limit: int)
    requires WellFormed(s)
    ensures forall f :: f in Drain(s, limit).fires && f.src.Tick? ==> f.src.ticker in s.tickers
    decreases Work(s, limit)
  {
    if Due(s, limit) {
      assert s.queue[0] in s.queue;
      DrainStep(s, limit);
      PopFrame(s);
      FiresKnowTheirTickers(PopLeast(s).state, limit);
    }
  }

  lemma GenerationsSurviveCollect(w: World, v: World, limit: int, fires: seq<Entry>)
    requires WellFormed(w.s) && Generations(w) && Drains(w, v, limit, fires)
    ensures Generations(v)
  {
    DrainFrame(w.s, limit);
    HandedOut(w);
    assert KindsMatch(v, fires + v.s.queue) by { KindsAfterDrain(w, v, limit, fires); }
    assert KindsMatch(w, w.hist) && KindsMatch(w, w.s.queue);
    assert KindsMatch(v, v.s.queue) && KindsMatch(v, v.hist);
    forall id | id in v.owner ensures Generation(v, id) {
      assert Generation(w, id);
      if HasId(w.hist, id) {
        var e :| e in w.hist && e.id == id;
        assert e in v.hist;
      } else if id !in v.s.dead {
        var e :| e in w.s.queue && e.id == id;
        OneShotsFireWhenDue(w.s, limit, e);
      }
    }
    forall tm | tm in v.timers ensures Current(v, tm) { assert Current(w, tm); }
    GenerationsFromParts(v);
  }

  lemma KindsAfterDrain(w: World, v: World, limit: int, fires: seq<Entry>)
    requires WellFormed(w.s) && KindsMatch(w, w.s.queue) && Drains(w, v, limit, fires)
    requires forall id :: id in w.owner ==> id <= w.s.nextID
    ensures KindsMatch(v, fires + v.s.queue)
  {
    FiresUseEachIdOnce(w.s, limit);
    forall e | e in fires + v.s.queue ensures e.src.Call? <==> e.id in v.owner {
      if !e.src.Tick? { OneShotsFireWhenDue(w.s, limit, e); }
    }
  }

  lemma {:induction false} ArithmeticContinues(born: int, p: int, n: nat, times: seq<int>, first: int)
    requires first == born + (n + 1) * p
    requires forall k :: 0 <= k < |times| ==> times[k] == first + k * p
    ensures forall k :: 0 <= k < |times| ==> times[k] == born + (n + k + 1) * p
    ensures first + |times| * p == born + (n + |times| + 1) * p
  {
    forall k: int ensures first + k * p == born + (n + k + 1) * p {
      assert (n + 1) * p + k * p == (n + k + 1) * p;
    }
  }

  lemma TickersStayOnTime(w: World, v: World, limit: int, fires: seq<Entry>, t: nat)
    requires WellFormed(w.s) && Drains(w, v, limit, fires) && t in w.s.tickers && OnTime(w, t)
    ensures t in v.s.tickers && OnTime(v, t)
  {
    hide TickTimes, Drain;
    DrainFrame(w.s, limit);
    TickTimesConcat(w.hist, fires, t);
    if w.s.tickers[t].stopped {
      StoppedTickersStaySilent(w.s, limit, t);
    } else {
      LiveTickerStaysOnTime(w, v, limit, fires, t);
    }
  }

  lemma LiveTickerStaysOnTime(w: World, v: World, limit: int, fires: seq<Entry>, t: nat)
    requires WellFormed(w.s) && Drains(w, v, limit, fires) && t in w.s.tickers && OnTime(w, t)
    requires !w.s.tickers[t].stopped && v.s.tickers == w.s.tickers && v.s.dead == w.s.dead
    requires TickTimes(v.hist, t) == TickTimes(w.hist, t) + TickTimes(fires, t)
    ensures OnTime(v, t)
  {
    hide TickTimes, Drain;
    var p := w.s.tickers[t].period;
    assert w.s.tickers[t] == Ticker(p, false) && p > 0;
    hide WellFormed;
    var (before, times) := (TickTimes(w.hist, t), TickTimes(fires, t));
    var first := w.born[t] + (|before| + 1) * p;
    var e :| e in w.s.queue && e.src == Tick(t) && e.id !in w.s.dead && e.deadline == first;
    TickersKeepTime(w.s, limit, t, p, e);
    ScheduleIsArithmetic(first, p, limit);
    ArithmeticContinues(w.born[t], p, |before|, times, first);
    OnTimeFromParts(v, t, p, before, times);
  }

  lemma OnTimeFromParts(v: World, t: nat, p: int, before: seq<int>, times: seq<int>)
    requires t in v.s.tickers && t in v.born && v.s.tickers[t].period == p && TickTimes(v.hist, t) == before + times
    requires forall k :: 0 <= k < |before| ==> before[k] == v.born[t] + (k + 1) * p
    requires forall k :: 0 <= k < |times| ==> times[k] == v.born[t] + (|before| + k + 1) * p
    requires exists f :: f in v.s.queue && f.src == Tick(t) && f.id !in v.s.dead
                          && f.deadline == v.born[t] + (|before| + |times| + 1) * p
    ensures OnTime(v, t)
  {
    var all := before + times;
    forall k | 0 <= k < |all| ensures all[k] == v.born[t] + (k + 1) * p {
      if k >= |before| { assert all[k] == times[k - |before|]; }
    }
  }

  lemma CollectStepKeeps(w: World, v: World, d: int)
    requires Invariant(w) && v == Gather(w, d)
    ensures Invariant(v)
  {
    hide Drain, Collected, Generations, OnTime;
    var limit := w.s.now + d;
    var fires := Drain(w.s, limit).fires;
    DrainFrame(w.s, limit);
    CollectedMore(w, v, limit, fires);
    GenerationsSurviveCollect(w, v, limit, fires);
    PendingGrows(w.inflight, fires);
    forall t | t in v.s.tickers ensures OnTime(v, t) { TickersStayOnTime(w, v, limit, fires, t); }
  }

  lemma SlotsKeep(w: World, v: World)
    requires Invariant(w) && v == w.(slots := v.slots)
    ensures Invariant(v)
  {
    SameHistory(w, v);
    SameGenerations(w, v);
    forall u | u in v.s.tickers ensures OnTime(v, u) { assert OnTime(w, u); }
  }

  // ----- every step

  lemma StepKeeps(w: World, op: Op)
    requires Invariant(w)
    ensures Invariant(Apply(w, op))
  {
    var v := Apply(w, op);
    match op
    case NewTicker(p) => if p > 0 { NewTickerKeeps(w, v, p); }
    case After(d) => AfterKeeps(w, v, d);
    case AfterFunc(d, fn) => AfterFuncKeeps(w, v, d, fn);
    case StopTicker(t) => if t in w.s.tickers { StopTickerKeeps(w, v, t); }
    case StopTimer(tm) => if tm in w.timers { StopTimerKeeps(w, v, tm); }
    case ResetTimer(tm, d) => if tm in w.timers { ResetTimerKeeps(w, v, tm, d); }
    case CollectStep(d) => CollectStepKeeps(w, v, d);
    case DeliverStep(i) => if i < |w.inflight| && w.inflight[i] != [] { DeliverStepKeeps(w, v, i); }
    case SetClock(now) => SetClockKeeps(w, v, now);
    case Receive(c) => SlotsKeep(w, v);
  }
}
