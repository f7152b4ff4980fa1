/** The test clock as a transition system, with every Advance split into its collect step (lock
    held) and one delivery step per fired entry (lock released), interleaved with all other
    operations; and the invariant every step keeps. */
module ClockMachine {
  import opened ScheduleSpec
  import opened ScheduleLaws

  /** An AfterFunc timer: the entry of its current generation and the callback every generation runs. */
  datatype Timer = Timer(current: nat, fn: int)

  /** `hist` lists every entry collected so far, `inflight` the fires each running Advance still has
      to deliver, `delivered` those it has delivered. `owner` records which timer an entry was
      made for and `born` when a ticker was made. Timers and tickers are named by their first entry. */
  datatype World = World(
    s: State, timers: map<nat, Timer>, owner: map<nat, nat>, born: map<nat, int>,
    hist: seq<Entry>, inflight: seq<seq<Entry>>, delivered: seq<Entry>, slots: map<nat, Slot>)

  datatype Op =
    | NewTicker(period: int) | After(d: int) | AfterFunc(d: int, fn: int)
    | StopTicker(ticker: nat) | StopTimer(timer: nat) | ResetTimer(timer: nat, d: int)
    | CollectStep(d: int) | DeliverStep(thread: nat) | SetClock(now: int) | Receive(slot: nat)

  function Fresh(now: int): World {
    World(State(now, 0, [], {}, map[]), map[], map[], map[], [], [], [], map[])
  }

  // The steps, one function each. A ticker, timer or slot made by a step is named by the id of the
  // entry the step registers.

  function MakeTicker(w: World, period: int): World {
    var name := w.s.nextID + 1;
    w.(s := AddTicker(w.s, period), born := w.born[name := w.s.now], slots := w.slots[name := Empty])
  }

  function MakeAfter(w: World, d: int): World {
    w.(s := AddAfter(w.s, d), slots := w.slots[w.s.nextID + 1 := Empty])
  }

  function MakeTimer(w: World, d: int, fn: int): World {
    var name := w.s.nextID + 1;
    w.(s := AddAfterFunc(w.s, d, fn), timers := w.timers[name := Timer(name, fn)], owner := w.owner[name := name])
  }

  function HaltTicker(w: World, t: nat): World
    requires t in w.s.tickers
  {
    w.(s := ScheduleSpec.StopTicker(w.s, t))
  }

  function HaltTimer(w: World, tm: nat): World
    requires tm in w.timers
  {
    w.(s := Kill(w.s, w.timers[tm].current))
  }

  function Rearm(w: World, tm: nat, d: int): World
    requires tm in w.timers
  {
    var was := w.timers[tm];
    var name := w.s.nextID + 1;
    w.(s := Reset(w.s, was.current, Call(was.fn), d),
       timers := w.timers[tm := Timer(name, was.fn)], owner := w.owner[name := tm])
  }

  function Gather(w: World, d: int): World
    requires WellFormed(w.s)
  {
    var r := Collect(w.s, d);
    w.(s := r.state, hist := w.hist + r.fires, inflight := w.inflight + [r.fires])
  }

  function HandOver(w: World, i: nat): World
    requires i < |w.inflight| && w.inflight[i] != []
  {
    var f := w.inflight[i][0];
    w.(inflight := w.inflight[i := w.inflight[i][1..]], delivered := w.delivered + [f], slots := Offer(w.slots, f))
  }

  /** One atomic step. NewTicker panics on a non-positive period; a handle nobody holds does nothing. */
  function Apply(w: World, op: Op): World
    requires WellFormed(w.s)
  {
    match op
    case NewTicker(period) => if period <= 0 then w else MakeTicker(w, period)
    case After(d) => MakeAfter(w, d)
    case AfterFunc(d, fn) => MakeTimer(w, d, fn)
    case StopTicker(t) => if t in w.s.tickers then HaltTicker(w, t) else w
    case StopTimer(tm) => if tm in w.timers then HaltTimer(w, tm) else w
    case ResetTimer(tm, d) => if tm in w.timers then Rearm(w, tm, d) else w
    case CollectStep(d) => Gather(w, d)
    case DeliverStep(i) => if i < |w.inflight| && w.inflight[i] != [] then HandOver(w, i) else w
    case SetClock(now) => w.(s := w.s.(now := now))
    case Receive(c) => if c in w.slots then w.(slots := w.slots[c := Empty]) else w
  }

  // ----- the invariant

  predicate HasId(q: seq<Entry>, id: nat) {
    exists e :: e in q && e.id == id
  }

  /** No id was collected twice, and a collected entry is not queued. */
  ghost predicate Collected(w: World) {
    && DistinctIds(w.hist)
    && (forall f :: f in w.hist ==>
        f.id <= w.s.nextID && !HasId(w.s.queue, f.id) && (f.src.Tick? ==> f.src.ticker in w.s.tickers))
  }

  /** An entry made for a timer is tombstoned unless it is the timer's current one; untombstoned it
      is queued or was collected. */
  ghost predicate Generation(w: World, id: nat)
    requires id in w.owner
  {
    && id <= w.s.nextID && w.owner[id] in w.timers
    && (w.timers[w.owner[id]].current != id ==> id in w.s.dead)
    && (id !in w.s.dead ==> HasId(w.s.queue, id) || HasId(w.hist, id))
  }

  ghost predicate Current(w: World, tm: nat)
    requires tm in w.timers
  {
    tm <= w.s.nextID && w.timers[tm].current in w.owner && w.owner[w.timers[tm].current] == tm
  }

  /** The entries of timers are exactly the callbacks, and only they are ever tombstoned. */
  ghost predicate Generations(w: World) {
    && (forall id :: id in w.owner ==> Generation(w, id))
    && (forall tm :: tm in w.timers ==> Current(w, tm))
    && w.s.dead <= w.owner.Keys
    && KindsMatch(w, w.s.queue) && KindsMatch(w, w.hist)
  }

  ghost predicate KindsMatch(w: World, q: seq<Entry>) {
    forall e :: e in q ==> (e.src.Call? <==> e.id in w.owner)
  }

  /** Ticker t has fired at born + p, born + 2p, ... and, while live, is queued for the next multiple. */
  ghost predicate OnTime(w: World, t: nat)
    requires t in w.s.tickers
  {
    && t in w.born
    && var p := w.s.tickers[t].period;
       var times := TickTimes(w.hist, t);
       && (forall k :: 0 <= k < |times| ==> times[k] == w.born[t] + (k + 1) * p)
       && (!w.s.tickers[t].stopped ==>
             exists e :: e in w.s.queue && e.src == Tick(t) && e.id !in w.s.dead
               && e.deadline == w.born[t] + (|times| + 1) * p)
  }

  function Pending(threads: seq<seq<Entry>>): multiset<Entry> {
    if threads == [] then multiset{} else multiset(threads[0]) + Pending(threads[1..])
  }

  /** What was collected is what was delivered plus what is still to be delivered. */
  ghost predicate Conserved(w: World) {
    multiset(w.hist) == multiset(w.delivered) + Pending(w.inflight)
  }

  ghost predicate Invariant(w: World) {
    match w
    case World(s, _, _, _, _, _, _, _) =>
      && WellFormed(s)
      && Collected(w)
      && Generations(w)
      && (forall t :: t in s.tickers ==> OnTime(w, t))
      && Conserved(w)
  }
}
