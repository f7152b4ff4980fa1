/** Two tickers that are due at the same instant: which of them fires first. */
module ScheduleTies {
  import opened ScheduleSpec
  import opened ScheduleLaws

  /** The tick of ticker a at instant d fires ahead of the one of ticker b. */
  ghost predicate TickAhead(fires: seq<Entry>, a: nat, b: nat, d: int) {
    exists i, j ::
      && 0 <= i < j < |fires|
      && fires[i].src == Tick(a) && fires[i].deadline == d && fires[j].src == Tick(b) && fires[j].deadline == d
  }

  /** A live ticker of period p and its queued entry. */
  ghost predicate LiveAt(s: State, t: nat, p: int, e: Entry) {
    && t in s.tickers && s.tickers[t] == Ticker(p, false) && p > 0
    && e in s.queue && e.src == Tick(t) && e.id !in s.dead
  }

  /** The tick that is queued already is ahead of one that is not; of two that are not, that of the
      longer period is, and with equal periods that of the ticker due later or inserted earlier. */
  predicate Ahead(ea: Entry, pa: int, eb: Entry, pb: int, d: int) {
    || (d == ea.deadline && (d > eb.deadline || ea.id < eb.id))
    || (d > ea.deadline && d > eb.deadline
        && (pa > pb || (pa == pb && (ea.deadline > eb.deadline || (ea.deadline == eb.deadline && ea.id < eb.id)))))
  }

  lemma LaterTicks(first: int, p: int, limit: int, d: int)
    requires p > 0 && d in Schedule(first, p, limit)
    ensures first <= d <= limit
    ensures d != first ==> d >= first + p && d in Schedule(first + p, p, limit)
  {
    ScheduleBounds(first, p, limit, d);
    if d != first { ScheduleBounds(first + p, p, limit, d); }
  }

  /** Schedules of one period that meet are the same from there on. */
  lemma {:induction false} SamePhase(x: int, y: int, p: int, limit: int, d: int)
    requires p > 0 && x <= y < x + p && d in Schedule(x, p, limit) && d in Schedule(y, p, limit)
    ensures x == y
    decreases limit - x
  {
    LaterTicks(x, p, limit, d);
    LaterTicks(y, p, limit, d);
    if d != x && d != y {
      SamePhase(x + p, y + p, p, limit, d);
    }
  }

  lemma AheadIsTotal(ea: Entry, pa: int, eb: Entry, pb: int, d: int)
    requires ea.id != eb.id && d >= ea.deadline && d >= eb.deadline
    ensures Ahead(ea, pa, eb, pb, d) <==> !Ahead(eb, pb, ea, pa, d)
  {
  }

  /** Firing a's queued entry, which is before b's, and putting a back in under a new id does not
      change who is ahead at a later instant. */
  lemma AheadIsKept(ea: Entry, pa: int, eb: Entry, pb: int, d: int, limit: int, next: Entry)
    requires pa > 0 && pb > 0 && ea.id != eb.id && Before(ea, eb) && d > ea.deadline
    requires d in Schedule(ea.deadline, pa, limit) && d in Schedule(eb.deadline, pb, limit)
    requires next.deadline == ea.deadline + pa && next.id > eb.id
    ensures Ahead(next, pa, eb, pb, d) <==> Ahead(ea, pa, eb, pb, d)
    ensures Ahead(eb, pb, next, pa, d) <==> Ahead(eb, pb, ea, pa, d)
  {
    LaterTicks(ea.deadline, pa, limit, d);
    LaterTicks(eb.deadline, pb, limit, d);
    if pa == pb && eb.deadline < ea.deadline + pa {
      SamePhase(ea.deadline, eb.deadline, pa, limit, d);
    }
    AheadIsTotal(ea, pa, eb, pb, d);
    AheadIsTotal(next, pa, eb, pb, d);
  }

  lemma TickIsFired(fires: seq<Entry>, t: nat, d: int)
    requires d in TickTimes(fires, t)
    ensures exists j :: 0 <= j < |fires| && fires[j].src == Tick(t) && fires[j].deadline == d
  {
    TickTimesMembers(fires, t, d);
    var f :| f in fires && f.src == Tick(t) && f.deadline == d;
  }

  /** A fire that is none of the two ticks may be left out. */
  lemma TickAheadBehind(x: seq<Entry>, fires: seq<Entry>, a: nat, b: nat, d: int)
    requires forall f :: f in x && f.deadline == d ==> f.src != Tick(a) && f.src != Tick(b)
    ensures TickAhead(x + fires, a, b, d) <==> TickAhead(fires, a, b, d)
  {
    var all := x + fires;
    if i, j :| 0 <= i < j < |fires| && fires[i].src == Tick(a) && fires[i].deadline == d
               && fires[j].src == Tick(b) && fires[j].deadline == d {
      assert all[|x| + i] == fires[i] && all[|x| + j] == fires[j];
    }
    if i, j :| 0 <= i < j < |all| && all[i].src == Tick(a) && all[i].deadline == d
               && all[j].src == Tick(b) && all[j].deadline == d {
      assert forall k :: 0 <= k < |x| ==> all[k] == x[k] && x[k] in x;
      assert fires[i - |x|] == all[i] && fires[j - |x|] == all[j];
    }
  }

  lemma FirstFires(s: State, limit: int, a: nat, pa: int, ea: Entry, b: nat, pb: int, eb: Entry, d: int)
    requires WellFormed(s) && a != b && LiveAt(s, a, pa, ea) && LiveAt(s, b, pb, eb) && Due(s, limit)
    requires s.queue[0] == ea && d == ea.deadline && d in Schedule(eb.deadline, pb, limit)
    ensures TickAhead(Drain(s, limit).fires, a, b, d) && !TickAhead(Drain(s, limit).fires, b, a, d)
  {
    hide WellFormed, PopLeast;
    DrainStep(s, limit);
    LiveTickerStep(s, a, ea);
    LiveTickerStep(s, b, eb);
    PopFrame(s);
    TopFires(s, ea);
    var (step, na, nb) := (PopLeast(s), NextEntry(s, a, ea), NextEntry(s, b, eb));
    var (fires, rest) := (Drain(s, limit).fires, Drain(step.state, limit).fires);
    assert fires == [ea] + rest;
    TickersKeepTime(step.state, limit, a, pa, na);
    TickersKeepTime(step.state, limit, b, pb, nb);
    TickIsFired(rest, b, d);
    TickTimesMembers(rest, a, d);
    ScheduleBounds(na.deadline, pa, limit, d);
    var j :| 0 <= j < |rest| && rest[j].src == Tick(b) && rest[j].deadline == d;
    assert fires[0] == ea && fires[j + 1] == rest[j];
    assert forall k :: 0 < k < |fires| ==> fires[k] in rest;
  }

  lemma TopFires(s: State, e: Entry)
    requires WellFormed(s) && s.queue != [] && s.queue[0] == e && Live(s, e)
    ensures PopLeast(s).fires == [e]
  {
  }

  lemma OtherFires(s: State, a: nat, pa: int, ea: Entry, d: int)
    requires WellFormed(s) && s.queue != [] && LiveAt(s, a, pa, ea) && (s.queue[0] == ea ==> d != ea.deadline)
    ensures forall f :: f in PopLeast(s).fires && f.deadline == d ==> f.src != Tick(a)
  {
    assert s.queue[0] in s.queue;
  }

  lemma NextIsLive(s: State, a: nat, pa: int, ea: Entry)
    requires WellFormed(s) && LiveAt(s, a, pa, ea)
    ensures s.queue != [] && LiveAt(PopLeast(s).state, a, pa, NextEntry(s, a, ea))
  {
    hide WellFormed, PopLeast;
    LiveTickerStep(s, a, ea);
    PopFrame(s);
  }

  /** One iteration that fires neither of the two ticks changes nothing about them. */
  lemma TieCarries(s: State, a: nat, pa: int, ea: Entry, b: nat, pb: int, eb: Entry, d: int, limit: int)
    requires WellFormed(s) && a != b && LiveAt(s, a, pa, ea) && LiveAt(s, b, pb, eb)
    requires d in Schedule(ea.deadline, pa, limit) && d in Schedule(eb.deadline, pb, limit)
    requires s.queue[0] == ea ==> d != ea.deadline
    requires s.queue[0] == eb ==> d != eb.deadline
    ensures Ahead(NextEntry(s, a, ea), pa, NextEntry(s, b, eb), pb, d) <==> Ahead(ea, pa, eb, pb, d)
    ensures d in Schedule(NextEntry(s, a, ea).deadline, pa, limit)
        && d in Schedule(NextEntry(s, b, eb).deadline, pb, limit)
  {
    hide WellFormed, Ahead, Schedule;
    QueuedTogether(s, ea, eb);
    LaterTicks(ea.deadline, pa, limit, d);
    LaterTicks(eb.deadline, pb, limit, d);
    if s.queue[0] == ea {
      AheadIsKept(ea, pa, eb, pb, d, limit, NextEntry(s, a, ea));
    } else if s.queue[0] == eb {
      AheadIsKept(eb, pb, ea, pa, d, limit, NextEntry(s, b, eb));
    }
  }

  /** Between two live tickers, the tick at an instant in both schedules that fires first. */
  lemma {:induction false} TickersTie(s: State, limit: int, a: nat, pa: int, ea: Entry, b: nat, pb: int, eb: Entry,
      d: int)
    requires WellFormed(s) && a != b && LiveAt(s, a, pa, ea) && LiveAt(s, b, pb, eb)
    requires d in Schedule(ea.deadline, pa, limit) && d in Schedule(eb.deadline, pb, limit)
    ensures TickAhead(Drain(s, limit).fires, a, b, d) <==> Ahead(ea, pa, eb, pb, d)
    decreases Work(s, limit)
  {
    hide WellFormed, PopLeast, Ahead, Schedule, TickAhead, Drain;
    LaterTicks(ea.deadline, pa, limit, d);
    LaterTicks(eb.deadline, pb, limit, d);
    QueuedTogether(s, ea, eb);
    DrainStep(s, limit);
    if s.queue[0] == ea && d == ea.deadline {
      FirstFires(s, limit, a, pa, ea, b, pb, eb, d);
      AheadWhenFirst(ea, pa, eb, pb, d);
    } else if s.queue[0] == eb && d == eb.deadline {
      FirstFires(s, limit, b, pb, eb, a, pa, ea, d);
      AheadWhenFirst(eb, pb, ea, pa, d);
    } else {
      var step := PopLeast(s);
      NextIsLive(s, a, pa, ea);
      NextIsLive(s, b, pb, eb);
      OtherFires(s, a, pa, ea, d);
      OtherFires(s, b, pb, eb, d);
      TickAheadBehind(step.fires, Drain(step.state, limit).fires, a, b, d);
      TieCarries(s, a, pa, ea, b, pb, eb, d, limit);
      TickersTie(step.state, limit, a, pa, NextEntry(s, a, ea), b, pb, NextEntry(s, b, eb), d);
    }
  }

  lemma AheadWhenFirst(ea: Entry, pa: int, eb: Entry, pb: int, d: int)
    requires Before(ea, eb) && d == ea.deadline && d >= eb.deadline
    ensures Ahead(ea, pa, eb, pb, d) && !Ahead(eb, pb, ea, pa, d)
  {
  }

  /** The head of the queue is before both entries, and what is put back gets an id above both. */
  lemma QueuedTogether(s: State, ea: Entry, eb: Entry)
    requires WellFormed(s) && ea in s.queue && eb in s.queue && ea.src != eb.src
    ensures s.queue != [] && ea.id <= s.nextID && eb.id <= s.nextID && ea.id != eb.id
    ensures s.queue[0].deadline <= ea.deadline && s.queue[0].deadline <= eb.deadline
    ensures s.queue[0] == ea ==> Before(ea, eb)
    ensures s.queue[0] == eb ==> Before(eb, ea)
  {
    assert s.queue == [s.queue[0]] + s.queue[1..];
    TailOfQueue(s);
  }

  /** NewTicker(p), NewTicker(2p), Advance(2p): at the second tick of the first one, the other one,
      registered later, fires ahead of it. */
  lemma TickersOutOfOrder(now: int, p: int)
    requires p > 0
    ensures var s := AddTicker(AddTicker(State(now, 0, [], {}, map[]), p), 2 * p);
            && WellFormed(s) && TickAhead(Drain(s, now + 2 * p).fires, 2, 1, now + 2 * p)
  {
    hide Drain, TickAhead, Schedule, Insert;
    var s0 := State(now, 0, [], {}, map[]);
    var s := AddTicker(AddTicker(s0, p), 2 * p);
    TwoTickers(s0, p);
    SecondTick(now + p, p);
    FirstTick(now + 2 * p, 2 * p);
    TickersTie(s, now + 2 * p, 2, 2 * p, s.queue[1], 1, p, s.queue[0], now + 2 * p);
  }

  lemma FirstTick(first: int, p: int)
    requires p > 0
    ensures first in Schedule(first, p, first)
  {
    assert Schedule(first, p, first)[0] == first;
  }

  lemma TwoTickers(s0: State, p: int)
    requires WellFormed(s0) && s0.queue == [] && s0.dead == {} && p > 0
    ensures
      var (s, n) := (AddTicker(AddTicker(s0, p), 2 * p), s0.nextID);
      && WellFormed(s) && s.dead == {}
      && s.tickers == s0.tickers[n + 1 := Ticker(p, false)][n + 2 := Ticker(2 * p, false)]
      && s.queue == [Entry(s0.now + p, n + 1, Tick(n + 1)), Entry(s0.now + 2 * p, n + 2, Tick(n + 2))]
  {
    hide WellFormed;
    AddTickerKeepsWellFormed(s0, p);
    AddTickerKeepsWellFormed(AddTicker(s0, p), 2 * p);
    var (e, f) := (Entry(s0.now + p, s0.nextID + 1, Tick(s0.nextID + 1)),
      Entry(s0.now + 2 * p, s0.nextID + 2, Tick(s0.nextID + 2)));
    assert Insert([e], f) == [e] + Insert([], f);
  }

  // ----- two one-shots

  ghost predicate FiresBefore(fires: seq<Entry>, x: Entry, y: Entry) {
    exists i, j :: 0 <= i < j < |fires| && fires[i] == x && fires[j] == y
  }

  /** Of two live one-shots that are both due, the one with the earlier deadline fires first, and with
      equal deadlines the one inserted first. */
  lemma OneShotsInOrder(s: State, limit: int, x: Entry, y: Entry)
    requires WellFormed(s) && x in s.queue && y in s.queue && !x.src.Tick? && !y.src.Tick?
    requires x.id !in s.dead && y.id !in s.dead && x.deadline <= limit && y.deadline <= limit
    ensures FiresBefore(Drain(s, limit).fires, x, y) <==> Before(x, y)
  {
    FiresAreOrdered(s, limit);
    OneShotsFireWhenDue(s, limit, x);
    OneShotsFireWhenDue(s, limit, y);
    var fires := Drain(s, limit).fires;
    hide *;
    SortedMembers(fires, x, y);
  }

  lemma SortedMembers(fires: seq<Entry>, x: Entry, y: Entry)
    requires Sorted(fires) && x in fires && y in fires
    ensures FiresBefore(fires, x, y) <==> Before(x, y)
  {
    var i :| 0 <= i < |fires| && fires[i] == x;
    var j :| 0 <= j < |fires| && fires[j] == y;
  }
}
