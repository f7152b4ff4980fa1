/** The test clock as it is written: a heap of shared entry objects, changed in place. Every
    operation is proved to do to the objects what ScheduleSpec does to the abstract state. */
module TestClock {
  import opened ScheduleSpec
  import opened ScheduleLaws
  import opened SchedHeap

  /** Joining the queue under an id handed out before. */
  ghost function Queued(s: State, e: Entry): State {
    s.(queue := Insert(s.queue, e))
  }

  lemma QueuedIsWellFormed(s: State, e: Entry)
    requires WellFormed(s) && e.id <= s.nextID && (forall x :: x in s.queue ==> x.id != e.id)
    requires e.src.Tick? ==> e.src.ticker in s.tickers && forall x :: x in s.queue ==> x.src != e.src
    ensures WellFormed(Queued(s, e))
    ensures forall x :: x in Queued(s, e).queue <==> x == e || x in s.queue
  {
    InsertElements(s.queue, e);
    InsertSorts(s.queue, e);
  }

  /** The callbacks among the fires of an Advance. */
  ghost function Launches(fires: seq<Entry>): seq<int> {
    if fires == [] then [] else (if fires[0].src.Call? then [fires[0].src.fn] else []) + Launches(fires[1..])
  }

  /** The callbacks of two lists of fires are those of the first and then those of the second. */
  lemma {:induction false} LaunchesConcat(a: seq<Entry>, b: seq<Entry>)
    ensures Launches(a + b) == Launches(a) + Launches(b)
    decreases |a|
  {
    if a == [] {
      assert a + b == b;
    } else {
      assert (a + b)[0] == a[0] && (a + b)[1..] == a[1..] + b;
      LaunchesConcat(a[1..], b);
    }
  }

  /** The k-th entry, if it is a Call, is launched after the Calls ahead of it; there is nothing else among the
      launches. */
  lemma LaunchesInOrder(fires: seq<Entry>, k: nat)
    requires k < |fires|
    ensures var n := |Launches(fires[..k])|;
            if fires[k].src.Call? then n < |Launches(fires)| && Launches(fires)[n] == fires[k].src.fn
            else Launches(fires) == Launches(fires[..k]) + Launches(fires[k + 1..])
  {
    assert fires == fires[..k] + ([fires[k]] + fires[k + 1..]);
    LaunchesConcat(fires[..k], [fires[k]] + fires[k + 1..]);
    LaunchesConcat([fires[k]], fires[k + 1..]);
    assert [fires[k]][1..] == [];
  }

  /** How many of the fires call fn. */
  function CallsOf(fires: seq<Entry>, fn: int): nat {
    if fires == [] then 0 else (if fires[0].src == Call(fn) then 1 else 0) + CallsOf(fires[1..], fn)
  }

  /** Every callback is launched as often as it is called. */
  lemma {:induction false} LaunchesCount(fires: seq<Entry>, fn: int)
    ensures multiset(Launches(fires))[fn] == CallsOf(fires, fn)
  {
    if fires != [] { LaunchesCount(fires[1..], fn); }
  }

  /** The entry's kind, its shared objects and its abstract source agree. */
  ghost predicate Typed(e: SchedEntry, tickers: map<nat, TickerState>, chans: map<nat, Channel>) {
    match e.kind
    case KindTicker => e.ticker != null && e.ticker.name in tickers && tickers[e.ticker.name] == e.ticker
      && e.src == Tick(e.ticker.name)
    case KindAfterFunc => e.src == Call(e.fn)
    case KindAfter => e.afterC != null && e.src.Send? && e.src.slot in chans && chans[e.src.slot] == e.afterC
  }

  /** Every entry ever made stands for its own id. */
  ghost predicate Known(objs: map<nat, SchedEntry>, nextID: nat, tickers: map<nat, TickerState>, chans: map<nat,
      Channel>) {
    forall id :: id in objs ==> objs[id].id == id <= nextID && Typed(objs[id], tickers, chans)
  }

  /** Tickers and channels stand for their names, and no channel for two. */
  ghost predicate Handles(known: map<nat, Ticker>, nextID: nat, tickers: map<nat, TickerState>, chans: map<nat,
      Channel>) {
    && tickers.Keys == known.Keys
    && (forall t :: t in tickers ==>
          tickers[t].name == t && known[t].period == tickers[t].period && t in chans && chans[t] == tickers[t].ch)
    && (forall c :: c in chans ==> c <= nextID)
    && (forall c, d :: c in chans && d in chans && chans[c] == chans[d] ==> c == d)
  }

  /** The heap holds exactly the queued entries. */
  ghost predicate SameQueue(items: set<SchedEntry>, objs: map<nat, SchedEntry>, queue: seq<Entry>) {
    && (forall e :: e in items ==> e.id in objs && objs[e.id] == e && View(e) in queue)
    && (forall x :: x in queue ==> x.id in objs && objs[x.id] in items && View(objs[x.id]) == x)
  }

  lemma PushSameQueue(items: set<SchedEntry>, objs: map<nat, SchedEntry>, queue: seq<Entry>, e: SchedEntry)
    requires SameQueue(items, objs, queue) && e.id !in objs
    ensures SameQueue(items + {e}, objs[e.id := e], Insert(queue, View(e)))
  {
    InsertElements(queue, View(e));
  }

  lemma EnqueueFacts(items: set<SchedEntry>, objs: map<nat, SchedEntry>, s: State,
                     tickers: map<nat, TickerState>, chans: map<nat, Channel>, e: SchedEntry)
    requires SameQueue(items, objs, s.queue) && WellFormed(s) && Known(objs, s.nextID, tickers, chans)
    requires e.id !in objs && e.id <= s.nextID && Typed(e, tickers, chans) && tickers.Keys == s.tickers.Keys
    requires e.src.Tick? ==> forall x :: x in s.queue ==> x.src != e.src
    ensures e !in items && WellFormed(Queued(s, View(e)))
    ensures SameQueue(items + {e}, objs[e.id := e], Queued(s, View(e)).queue)
    ensures Known(objs[e.id := e], s.nextID, tickers, chans)
  {
    QueuedIsWellFormed(s, View(e));
    PushSameQueue(items, objs, s.queue, e);
  }

  lemma AnnounceFacts(objs: map<nat, SchedEntry>, s: State, tickers: map<nat, TickerState>, chans: map<nat, Channel>,
      ts: TickerState)
    requires WellFormed(s) && Known(objs, s.nextID, tickers, chans) && Handles(s.tickers, s.nextID, tickers, chans)
    requires s.nextID !in tickers && s.nextID !in chans && ts.ch !in chans.Values
    requires ts.name == s.nextID && ts.period > 0
    ensures var n := s.nextID;
            var v := s.(tickers := s.tickers[n := Ticker(ts.period, false)]);
            && WellFormed(v) && Known(objs, n, tickers[n := ts], chans[n := ts.ch])
            && Handles(v.tickers, n, tickers[n := ts], chans[n := ts.ch])
            && (forall x :: x in s.queue ==> x.src != Tick(n)) && n !in s.tickers
  {
  }

  lemma OpenFacts(objs: map<nat, SchedEntry>, s: State, tickers: map<nat, TickerState>, chans: map<nat, Channel>,
      ch: Channel)
    requires Known(objs, s.nextID, tickers, chans) && Handles(s.tickers, s.nextID, tickers, chans)
    requires s.nextID !in chans && ch !in chans.Values
    ensures Known(objs, s.nextID, tickers, chans[s.nextID := ch])
        && Handles(s.tickers, s.nextID, tickers, chans[s.nextID := ch])
  {
  }

  lemma KillFacts(s: State, id: nat)
    requires WellFormed(s) && id <= s.nextID
    ensures WellFormed(Kill(s, id))
  {
  }

  lemma StopFacts(s: State, t: nat, tickers: map<nat, TickerState>, chans: map<nat, Channel>)
    requires WellFormed(s) && Handles(s.tickers, s.nextID, tickers, chans) && t in s.tickers
    ensures WellFormed(ScheduleSpec.StopTicker(s, t))
    ensures Handles(ScheduleSpec.StopTicker(s, t).tickers, s.nextID, tickers, chans)
  {
  }

  /** The heap's root is the abstract queue's head. */
  lemma RootIsHead(items: set<SchedEntry>, objs: map<nat, SchedEntry>, s: State, e: SchedEntry)
    requires SameQueue(items, objs, s.queue) && WellFormed(s) && e in items
    requires forall x :: x in items ==> !LessThan(x, e)
    ensures s.queue != [] && View(e) == s.queue[0]
  {
    var k :| 0 <= k < |s.queue| && s.queue[k] == View(e);
    var top := s.queue[0];
    assert top in s.queue && objs[top.id] in items;
    assert k > 0 ==> Before(top, View(e));
  }

  lemma PopSameQueue(items: set<SchedEntry>, objs: map<nat, SchedEntry>, s: State, e: SchedEntry)
    requires SameQueue(items, objs, s.queue) && WellFormed(s) && e in items && s.queue != [] && View(e) == s.queue[0]
    ensures SameQueue(items - {e}, objs, s.queue[1..])
  {
    TailOfQueue(s);
    assert s.queue == [s.queue[0]] + s.queue[1..];
  }

  lemma PopFacts(items: set<SchedEntry>, objs: map<nat, SchedEntry>, s: State, top: SchedEntry)
    requires SameQueue(items, objs, s.queue) && WellFormed(s) && top in items
    requires forall x :: x in items ==> !LessThan(x, top)
    ensures s.queue != [] && View(top) == s.queue[0] && top.id in objs && objs[top.id] == top
    ensures SameQueue(items - {top}, objs, s.queue[1..]) && WellFormed(s.(queue := s.queue[1..]))
    ensures top.src.Tick? ==> forall x :: x in s.queue[1..] ==> x.src != top.src
  {
    TailOfQueue(s);
    RootIsHead(items, objs, s, top);
    PopSameQueue(items, objs, s, top);
    TailIsWellFormed(s);
  }

  ghost function Views(es: seq<SchedEntry>): seq<Entry> {
    seq(|es|, i requires 0 <= i < |es| => View(es[i]))
  }

  ghost predicate Extends(a: map<nat, SchedEntry>, b: map<nat, SchedEntry>) {
    forall id :: id in a ==> id in b && b[id] == a[id]
  }

  /** Draining from s0 is what has been seen and then draining from s. */
  ghost predicate DrainsOn(s0: State, s: State, limit: int, seen: seq<Entry>) {
    && WellFormed(s0) && WellFormed(s)
    && ScheduleSpec.Drain(s0, limit) == Drained(ScheduleSpec.Drain(s, limit).state,
      seen + ScheduleSpec.Drain(s, limit).fires)
  }

  lemma DrainOnStep(s0: State, s: State, limit: int, seen: seq<Entry>)
    requires DrainsOn(s0, s, limit, seen) && Due(s, limit)
    ensures WellFormed(s) && s.queue != [] && DrainsOn(s0, PopLeast(s).state, limit, seen + PopLeast(s).fires)
    ensures Work(PopLeast(s).state, limit) < Work(s, limit)
  {
    DrainStep(s, limit);
    ConcatAssoc(seen, PopLeast(s).fires, ScheduleSpec.Drain(PopLeast(s).state, limit).fires);
  }

  lemma DrainOnEnd(s0: State, s: State, limit: int, seen: seq<Entry>)
    requires DrainsOn(s0, s, limit, seen) && !Due(s, limit)
    ensures ScheduleSpec.Drain(s0, limit) == Drained(s, seen)
  {
  }

  /** What NewTicker comes back with. */
  datatype MadeTicker = Panicked | Made(ts: TickerState)

  /** A TestClock together with the scheduler it owns; the scheduler's pointer to the clock's time is
      the field `now`. */
  class Clock {
    var now: int
    var nextID: nat
    const heap: Heap
    /** The goroutines started so far, each named by its callback. */
    var launched: seq<int>

    // The abstract state, and the objects that stand for its ids.
    ghost var S: State
    ghost var objs: map<nat, SchedEntry>
    ghost var tickers: map<nat, TickerState>
    ghost var chans: map<nat, Channel>

    ghost function Repr(): set<object>
      reads this
    {
      {this, heap} + objs.Values + tickers.Values + chans.Values
    }

    /** The tombstones of the objects and of the abstract state agree. */
    ghost predicate Tombstones()
      reads this, objs.Values
    {
      S.dead <= objs.Keys && forall id :: id in objs ==> (objs[id].dead <==> id in S.dead)
    }

    /** So do the stop flags. */
    ghost predicate StopFlags()
      reads this, tickers.Values
    {
      forall t :: t in tickers && t in S.tickers ==> (tickers[t].stopped <==> S.tickers[t].stopped)
    }

    ghost predicate Valid()
      reads this, heap, heap.items, objs.Values, tickers.Values
    {
      && S.now == now && S.nextID == nextID && WellFormed(S)
      && heap.Valid() && SameQueue(heap.Objects(), objs, S.queue)
      && Known(objs, nextID, tickers, chans) && Handles(S.tickers, nextID, tickers, chans)
      && Tombstones() && StopFlags()
    }

    /** What the channels hold, by id. */
    ghost function Slots(): map<nat, Slot>
      reads this, chans.Values
    {
      map c | c in chans :: chans[c].buf
    }

    constructor (initial: int)
      ensures Valid() && fresh(Repr()) && Slots() == map[] && launched == []
      ensures S == State(initial, 0, [], {}, map[])
    {
      now, nextID, launched := initial, 0, [];
      S := State(initial, 0, [], {}, map[]);
      objs, tickers, chans := map[], map[], map[];
      heap := new Heap();
    }

    method Set(t: int)
      requires Valid()
      modifies this`now, this`S
      ensures Valid() && S == old(S).(now := t)
    {
      now := t;
      S := S.(now := t);
    }

    method AllocID() returns (id: nat)
      requires Valid()
      modifies this`nextID, this`S
      ensures Valid() && id == nextID == old(nextID) + 1 && S == old(S).(nextID := id)
      ensures id !in objs && id !in tickers && id !in chans && id !in S.dead
    {
      nextID := nextID + 1;
      id := nextID;
      S := S.(nextID := id);
    }

    /** heap.Push of a new entry. */
    method Enqueue(e: SchedEntry)
      requires Valid() && Typed(e, tickers, chans) && !e.dead && e !in objs.Values
      requires e.id <= nextID && e.id !in objs && e.id !in S.dead
      requires e.src.Tick? ==> forall x :: x in S.queue ==> x.src != e.src
      modifies this`S, this`objs, heap, heap.Objects()`index, e`index
      ensures Valid() && S == Queued(old(S), View(e)) && objs == old(objs)[e.id := e]
      ensures heap.Objects() == old(heap.Objects()) + {e}
    {
      hide WellFormed, Insert, SameQueue, Known, Typed, Ordered;
      assert tickers.Keys == S.tickers.Keys;
      hide Handles;
      EnqueueFacts(heap.Objects(), objs, S, tickers, chans, e);
      heap.Push(e);
      S := Queued(S, View(e));
      objs := objs[e.id := e];
      hide Typed, View, Queued;
      assert Tombstones() && StopFlags();
    }

    // ----- registering

    /** A new ticker and its channel take the id handed out last as their name. */
    ghost method Announce(ts: TickerState)
      requires Valid() && nextID !in tickers && nextID !in chans && ts.ch !in chans.Values && ts !in tickers.Values
      requires ts.name == nextID && ts.period > 0 && !ts.stopped
      modifies this`S, this`tickers, this`chans
      ensures Valid() && S == old(S).(tickers := old(S).tickers[nextID := Ticker(ts.period, false)])
      ensures tickers == old(tickers)[nextID := ts] && chans == old(chans)[nextID := ts.ch]
      ensures forall x :: x in S.queue ==> x.src != Tick(nextID)
    {
      hide SameQueue, Ordered, Known, Handles, WellFormed;
      AnnounceFacts(objs, S, tickers, chans, ts);
      tickers, chans := tickers[nextID := ts], chans[nextID := ts.ch];
      S := S.(tickers := S.tickers[nextID := Ticker(ts.period, false)]);
    }

    /** The shared state of a new ticker, under a new id. */
    method MakeTickerState(period: int) returns (ts: TickerState, id: nat)
      requires Valid() && period > 0
      modifies this`S, this`nextID, this`tickers, this`chans
      ensures Valid() && fresh(ts) && fresh(ts.ch) && ts.ch.buf == Empty && ts.period == period
      ensures id == nextID == old(nextID) + 1 && ts.name == nextID && nextID !in objs && nextID !in S.dead
      ensures S == old(S).(nextID := nextID, tickers := old(S).tickers[nextID := Ticker(period, false)])
      ensures tickers == old(tickers)[nextID := ts] && chans == old(chans)[nextID := ts.ch]
      ensures forall x :: x in S.queue ==> x.src != Tick(nextID)
    {
      hide SameQueue, Ordered, Known, Handles, WellFormed;
      var ch := new Channel();
      id := AllocID();
      ts := new TickerState(period, ch, id);
      Announce(ts);
    }

    method AddTicker(period: int) returns (ts: TickerState, ghost e: SchedEntry)
      requires Valid() && period > 0
      modifies this`S, this`objs, this`nextID, this`tickers, this`chans, heap, heap.Objects()`index
      ensures Valid() && S == ScheduleSpec.AddTicker(old(S), period)
      ensures fresh(ts) && fresh(ts.ch) && fresh(e) && ts.ch.buf == Empty && objs == old(objs)[nextID := e]
      ensures tickers == old(tickers)[nextID := ts] && chans == old(chans)[nextID := ts.ch]
    {
      hide SameQueue, Ordered, Known, Handles, WellFormed;
      var id;
      ts, id := MakeTickerState(period);
      var entry := new SchedEntry(now + period, id, KindTicker, ts, 0, null, Tick(id));
      Enqueue(entry);
      e := entry;
    }

    /** NewTicker panics on a non-positive interval, and then nothing has changed. */
    method NewTicker(d: int) returns (r: MadeTicker, ghost e: SchedEntry?)
      requires Valid()
      modifies this`S, this`objs, this`nextID, this`tickers, this`chans, heap, heap.Objects()`index
      ensures Valid() && (r.Panicked? <==> d <= 0)
      ensures d <= 0 ==> S == old(S) && objs == old(objs) && tickers == old(tickers) && chans == old(chans)
      ensures d > 0 ==> S == ScheduleSpec.AddTicker(old(S), d) && fresh(r.ts) && fresh(r.ts.ch) && r.ts.ch.buf == Empty
      ensures d > 0 ==> e != null && fresh(e) && objs == old(objs)[nextID := e]
      ensures d > 0 ==> tickers == old(tickers)[nextID := r.ts] && chans == old(chans)[nextID := r.ts.ch]
    {
      hide *;
      if d <= 0 {
        r, e := Panicked, null;
      } else {
        var ts;
        ts, e := AddTicker(d);
        r := Made(ts);
      }
    }

    method AddAfterFunc(d: int, fn: int) returns (e: SchedEntry)
      requires Valid()
      modifies this`S, this`objs, this`nextID, heap, heap.Objects()`index
      ensures Valid() && S == ScheduleSpec.AddAfterFunc(old(S), d, fn)
      ensures fresh(e) && e.id == nextID && e.kind == KindAfterFunc && objs == old(objs)[nextID := e]
      ensures e.deadline == now + d
    {
      hide SameQueue, Ordered, Known, Handles, WellFormed;
      var id := AllocID();
      e := new SchedEntry(now + d, id, KindAfterFunc, null, fn, null, Call(fn));
      Enqueue(e);
    }

    ghost method Open(ch: Channel)
      requires Valid() && nextID !in chans && ch !in chans.Values
      modifies this`chans
      ensures Valid() && chans == old(chans)[nextID := ch]
    {
      hide SameQueue, Ordered, Known, Handles, WellFormed;
      OpenFacts(objs, S, tickers, chans, ch);
      chans := chans[nextID := ch];
    }

    method AddAfter(d: int) returns (e: SchedEntry)
      requires Valid()
      modifies this`S, this`objs, this`nextID, this`chans, heap, heap.Objects()`index
      ensures Valid() && S == ScheduleSpec.AddAfter(old(S), d)
      ensures fresh(e) && e.kind == KindAfter && e.afterC != null && fresh(e.afterC) && e.afterC.buf == Empty
      ensures e.deadline == now + d && e.id == nextID == old(nextID) + 1
      ensures objs == old(objs)[nextID := e] && chans == old(chans)[nextID := e.afterC]
    {
      hide SameQueue, Ordered, Known, Handles, WellFormed;
      var ch := new Channel();
      var id := AllocID();
      Open(ch);
      e := new SchedEntry(now + d, id, KindAfter, null, 0, ch, Send(id));
      Enqueue(e);
    }

    // ----- stopping and resetting

    method StopTicker(ts: TickerState)
      requires Valid() && ts.name in tickers && tickers[ts.name] == ts
      modifies this`S, ts
      ensures Valid() && ts.name in old(S).tickers && S == ScheduleSpec.StopTicker(old(S), ts.name)
    {
      hide SameQueue, Ordered, Known, WellFormed;
      assert ts.name in S.tickers;
      StopFacts(S, ts.name, tickers, chans);
      ts.stopped := true;
      S := ScheduleSpec.StopTicker(S, ts.name);
      hide Handles;
      assert Tombstones();
      assert StopFlags();
    }

    method Cancel(e: SchedEntry) returns (answer: bool)
      requires Valid() && e.id in objs && objs[e.id] == e
      modifies this`S, e`dead
      ensures Valid() && S == Kill(old(S), e.id) && answer == (e.id !in old(S).dead)
    {
      assert e.id <= S.nextID;
      hide SameQueue, Ordered, Known, Handles, WellFormed;
      KillFacts(S, e.id);
      assert e.dead ==> S.dead + {e.id} == S.dead;
      if e.dead { return false; }
      e.dead := true;
      S := Kill(S, e.id);
      return true;
    }

    /** A fresh entry for the same work as e. */
    method Renew(e: SchedEntry, deadline: int) returns (next: SchedEntry)
      requires Valid() && Typed(e, tickers, chans) && (e.src.Tick? ==> forall x :: x in S.queue ==> x.src != e.src)
      modifies this`S, this`objs, this`nextID, heap, heap.Objects()`index
      ensures Valid() && S == Add(old(S), deadline, e.src)
      ensures fresh(next) && next.id == nextID && next.src == e.src && next.kind == e.kind
      ensures objs == old(objs)[nextID := next] && nextID !in old(objs)
          && heap.Objects() == old(heap.Objects()) + {next}
    {
      hide SameQueue, Ordered, Known, Handles, WellFormed;
      var id := AllocID();
      next := new SchedEntry(deadline, id, e.kind, e.ticker, e.fn, e.afterC, e.src);
      Enqueue(next);
    }

    method ResetTimer(e: SchedEntry, d: int) returns (next: SchedEntry, wasActive: bool)
      requires Valid() && e.id in objs && objs[e.id] == e && e.kind != KindTicker
      modifies this`S, this`objs, this`nextID, heap, heap.Objects()`index, e`dead
      ensures Valid() && S == Reset(old(S), e.id, e.src, d) && wasActive == (e.id !in old(S).dead)
      ensures fresh(next) && next.id == nextID && next.src == e.src && next.kind == e.kind
      ensures objs == old(objs)[nextID := next]
    {
      hide *;
      ValidFacts();
      FlagsDecide(e);
      TimersAreNotTicks(e, tickers, chans);
      wasActive := Cancel(e);
      next := Renew(e, now + d);
      assert S == Reset(old(S), e.id, e.src, d) by { ResetIsKillAndAdd(old(S), e.id, e.src, d); }
    }

    static lemma TimersAreNotTicks(e: SchedEntry, tickers: map<nat, TickerState>, chans: map<nat, Channel>)
      requires Typed(e, tickers, chans) && e.kind != KindTicker
      ensures !e.src.Tick?
    {
    }

    lemma ResetIsKillAndAdd(s: State, id: nat, src: Source, d: int)
      ensures Reset(s, id, src, d) == Add(Kill(s, id), Kill(s, id).now + d, src) && Kill(s, id).now == s.now
    {
    }

    // ----- advancing

    /** The flags the drain loop tests decide whether the entry is live. */
    lemma FlagsDecide(e: SchedEntry)
      requires Valid() && e.id in objs && objs[e.id] == e
      ensures Typed(e, tickers, chans)
      ensures e.kind == KindTicker ==> e.ticker.name in S.tickers && S.tickers[e.ticker.name].period == e.ticker.period
      ensures Live(S, View(e)) <==> !e.dead && !(e.kind == KindTicker && e.ticker.stopped)
    {
    }

    /** heap.Pop: the root leaves the heap, and it is the head of the abstract queue. */
    method PopRoot() returns (top: SchedEntry)
      requires Valid() && heap.items != []
      modifies this`S, heap, heap.Objects()`index
      ensures Valid() && old(S).queue != [] && S == old(S).(queue := old(S).queue[1..])
      ensures top.id in objs && objs[top.id] == top && View(top) == old(S).queue[0]
      ensures top.src.Tick? ==> forall x :: x in S.queue ==> x.src != top.src
      ensures heap.Objects() <= old(heap.Objects())
    {
      hide SameQueue, Ordered, Known, Handles, WellFormed;
      ghost var was := heap.Objects();
      top := TakeRoot();
      PopFacts(was, objs, S, top);
      hide View, Typed;
      S := S.(queue := S.queue[1..]);
    }

    /** heap.Pop. */
    method TakeRoot() returns (top: SchedEntry)
      requires Valid() && heap.items != []
      modifies heap, heap.Objects()`index
      ensures heap.Valid() && heap.Objects() == old(heap.Objects()) - {top} && top in old(heap.Objects())
      ensures forall x :: x in old(heap.Objects()) ==> !LessThan(x, top)
      ensures Tombstones() && StopFlags()
    {
      hide SameQueue, Ordered, Known, Handles, WellFormed, View, Typed;
      assert heap.items[0] in heap.Objects();
      top := heap.Pop();
    }

    /** The root of the heap is the head of the abstract queue. */
    lemma HeadIsRoot()
      requires Valid()
      ensures heap.items == [] <==> S.queue == []
      ensures heap.items != [] ==> View(heap.items[0]) == S.queue[0]
    {
      if S.queue != [] { assert S.queue[0] in S.queue; }
      if heap.items != [] {
        assert heap.items[0] in heap.Objects();
        forall x | x in heap.Objects() ensures !LessThan(x, heap.items[0]) {
          var k :| 0 <= k < |heap.items| && heap.items[k] == x;
          RootIsLeast(heap.items, |heap.items|, k);
        }
        RootIsHead(heap.Objects(), objs, S, heap.items[0]);
      }
    }

    /** One iteration of the drain loop. */
    method PopStep() returns (top: SchedEntry, fires: bool)
      requires Valid() && heap.items != []
      modifies this`S, this`objs, this`nextID, heap, heap.Objects()`index
      ensures Valid() && old(S).queue != [] && View(top) == old(S).queue[0] && Typed(top, tickers, chans)
      ensures PopLeast(old(S)) == Drained(S, if fires then [View(top)] else [])
      ensures Extends(old(objs), objs) && fresh(objs.Values - old(objs.Values))
      ensures fresh(heap.Objects() - old(heap.Objects()))
    {
      hide SameQueue, Ordered, Known, Handles, WellFormed, Valid, Tombstones, StopFlags, Insert;
      top := PopRoot();
      FlagsDecide(top);
      assert Live(old(S), old(S).queue[0]) <==> Live(S, View(top));
      if top.dead { return top, false; }
      if top.kind == KindTicker && top.ticker.stopped { return top, false; }
      if top.kind == KindTicker {
        var next := Renew(top, top.deadline + top.ticker.period);
        assert objs.Values - old(objs.Values) <= {next};
      }
      return top, true;
    }

    /** The collect phase: pops due entries until none is left; the fires come out in order. */
    method Drain(limit: int) returns (fires: seq<SchedEntry>)
      requires Valid()
      modifies this`S, this`objs, this`nextID, heap, heap.Objects()`index
      ensures Valid() && ScheduleSpec.Drain(old(S), limit) == Drained(S, Views(fires))
      ensures forall e :: e in fires ==> Typed(e, tickers, chans)
      ensures Extends(old(objs), objs) && fresh(objs.Values - old(objs.Values))
    {
      fires := [];
      hide SameQueue, Ordered, Known, Handles, Tombstones, StopFlags, PopLeast, Typed;
      while |heap.items| > 0
        invariant Valid() && fresh(heap.Objects() - old(heap.Objects()))
        invariant DrainsOn(old(S), S, limit, Views(fires))
        invariant forall e :: e in fires ==> Typed(e, tickers, chans)
        invariant Extends(old(objs), objs) && fresh(objs.Values - old(objs.Values))
        decreases Work(S, limit)
      {
        ghost var was, seen := S, Views(fires);
        HeadIsRoot();
        var root := heap.items[0];
        if root.deadline > limit { break; }
        var top, live := PopStep();
        if live { fires := fires + [top]; }
        assert Views(fires) == seen + if live then [View(top)] else [];
        DrainOnStep(old(S), was, limit, seen);
      }
      HeadIsRoot();
      DrainOnEnd(old(S), S, limit, Views(fires));
    }

    /** A non-blocking send on the channel named c. */
    method TrySend(ghost c: nat, ch: Channel, f: int, ghost e: Entry)
      requires c in chans && chans[c] == ch && For(e, c) && e.deadline == f
      requires forall a, b :: a in chans && b in chans && chans[a] == chans[b] ==> a == b
      modifies ch
      ensures Slots() == Offer(old(Slots()), e)
    {
      if ch.buf.Empty? { ch.buf := Full(f); }
      assert forall d :: d in chans && d != c ==> chans[d] != ch;
      assert Slots() == Offer(old(Slots()), e);
    }

    /** Delivers one entry. Its fire time is its deadline. */
    method FireOne(e: SchedEntry)
      requires Valid() && Typed(e, tickers, chans)
      modifies this`launched, chans.Values
      ensures Valid() && Slots() == Offer(old(Slots()), View(e))
      ensures launched == old(launched) + if e.src.Call? then [e.src.fn] else []
    {
      assert e.kind == KindTicker ==> e.src.ticker in chans && chans[e.src.ticker] == e.ticker.ch;
      assert forall a, b :: a in chans && b in chans && chans[a] == chans[b] ==> a == b;
      hide SameQueue, Ordered, Known, Handles, WellFormed;
      match e.kind
      case KindTicker => TrySend(e.ticker.name, e.ticker.ch, e.deadline, View(e));
      case KindAfterFunc => launched := launched + [e.fn];
      case KindAfter => TrySend(e.src.slot, e.afterC, e.deadline, View(e));
    }

    /** The firing phase, after the lock is released: every entry is delivered in order, dropping a
        time whose channel is full. */
    method Fire(fires: seq<SchedEntry>)
      requires Valid() && forall e :: e in fires ==> Typed(e, tickers, chans)
      modifies this`launched, chans.Values
      ensures Valid() && Slots() == Deliver(old(Slots()), Views(fires))
      ensures launched == old(launched) + Launches(Views(fires))
    {
      hide Valid, Typed, Offer;
      for i := 0 to |fires|
        invariant Valid() && forall e :: e in fires ==> Typed(e, tickers, chans)
        invariant Deliver(old(Slots()), Views(fires)) == Deliver(Slots(), Views(fires[i..]))
        invariant old(launched) + Launches(Views(fires)) == launched + Launches(Views(fires[i..]))
      {
        assert fires[i] in fires;
        assert Views(fires[i..])[0] == View(fires[i]) && Views(fires[i..])[1..] == Views(fires[i + 1..]);
        FireOne(fires[i]);
      }
    }

    lemma ValidFacts()
      requires Valid()
      ensures S.now == now && WellFormed(S)
    {
    }

    static lemma CollectIsDrain(s: State, d: int)
      requires WellFormed(s)
      ensures Collect(s, d) == Drained(ScheduleSpec.Drain(s, s.now + d).state.(now := s.now + d),
          ScheduleSpec.Drain(s, s.now + d).fires)
    {
    }

    /** What `advance` does while it holds the lock: collects every due entry and sets the time. */
    method CollectDue(d: int) returns (fires: seq<SchedEntry>)
      requires Valid()
      modifies this`now, this`S, this`objs, this`nextID, heap, heap.Objects()`index
      ensures Valid() && WellFormed(old(S)) && Collect(old(S), d) == Drained(S, Views(fires))
      ensures forall e :: e in fires ==> Typed(e, tickers, chans)
      ensures Extends(old(objs), objs) && fresh(objs.Values - old(objs.Values))
    {
      hide *;
      ValidFacts();
      var newNow := now + d;
      CollectIsDrain(S, d);
      fires := Drain(newNow);
      Set(newNow);
    }

    /** Moves the clock by d: collects, releases the lock, and fires. */
    method Advance(d: int)
      requires Valid()
      modifies this`now, this`S, this`objs, this`nextID, this`launched, heap, heap.Objects()`index, chans.Values
      ensures Valid() && WellFormed(old(S)) && S == Collect(old(S), d).state
      ensures Slots() == Deliver(old(Slots()), Collect(old(S), d).fires)
      ensures launched == old(launched) + Launches(Collect(old(S), d).fires)
      ensures Extends(old(objs), objs) && fresh(objs.Values - old(objs.Values))
    {
      hide Valid, WellFormed, Collect, Deliver, Launches, Views, Typed, Extends;
      var fires := CollectDue(d);
      assert Slots() == old(Slots());
      Fire(fires);
    }
  }

  /** The Timer that AfterFunc returns: a slot for its current entry. */
  class TestTimer {
    var entryRef: SchedEntry
    const clock: Clock

    constructor (e: SchedEntry, clock: Clock)
      ensures entryRef == e && this.clock == clock
    {
      entryRef, this.clock := e, clock;
    }

    ghost predicate Valid()
      reads this, clock, clock.heap, clock.heap.items, clock.objs.Values, clock.tickers.Values
    {
      clock.Valid() && entryRef.id in clock.objs && clock.objs[entryRef.id] == entryRef
        && entryRef.kind == KindAfterFunc
    }

    /** Answers whether the current generation was untombstoned, and tombstones it. */
    method Stop() returns (answer: bool)
      requires Valid()
      modifies clock`S, entryRef`dead
      ensures Valid() && answer == (entryRef.id !in old(clock.S).dead)
      ensures clock.S == Kill(old(clock.S), entryRef.id)
    {
      answer := clock.Cancel(entryRef);
    }

    /** Gives the same answer, and moves on to a fresh generation due d from now. */
    method Reset(d: int) returns (answer: bool)
      requires Valid()
      modifies this, clock`S, clock`objs, clock`nextID, clock.heap, clock.heap.Objects()`index, entryRef`dead
      ensures Valid() && answer == (old(entryRef.id) !in old(clock.S).dead)
      ensures clock.S == ScheduleSpec.Reset(old(clock.S), old(entryRef.id), Call(entryRef.fn), d)
      ensures entryRef.id == clock.nextID && entryRef.fn == old(entryRef.fn)
    {
      var next, wasActive := clock.ResetTimer(entryRef, d);
      entryRef := next;
      answer := wasActive;
    }
  }
}
