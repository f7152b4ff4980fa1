/** The event scheduler of the test clock as a value.

    The queue is the sorted list of pending entries; `dead` holds the ids of tombstoned
    entries and `tickers` the shared state of every ticker. `Drain` is the collect phase
    of `advance`: it pops due entries, skips tombstones, and re-inserts live tickers
    while it is still popping. */
module ScheduleSpec {

  /** What an entry does when it fires. A ticker or slot is named by the id of the entry
      that first registered it. */
  datatype Source = Tick(ticker: nat) | Call(fn: int) | Send(slot: nat)

  datatype Entry = Entry(deadline: int, id: nat, src: Source)

  datatype Ticker = Ticker(period: int, stopped: bool)

  datatype State = State(now: int, nextID: nat, queue: seq<Entry>, dead: set<nat>, tickers: map<nat, Ticker>)

  datatype Drained = Drained(state: State, fires: seq<Entry>)

  /** Deadline order, ties broken by id. */
  predicate Before(a: Entry, b: Entry) {
    a.deadline < b.deadline || (a.deadline == b.deadline && a.id < b.id)
  }

  predicate Sorted(q: seq<Entry>) {
    forall i, j :: 0 <= i < j < |q| ==> Before(q[i], q[j])
  }

  /** The entries of the queue have ids handed out so far and name known tickers, no two share
      an id, and no two belong to one ticker. */
  predicate WellFormed(s: State) {
    match s
    case State(_, nextID, queue, dead, tickers) =>
      && Sorted(queue)
      && (forall e :: e in queue ==> e.id <= nextID && (e.src.Tick? ==> e.src.ticker in tickers))
      && (forall e, f :: e in queue && f in queue && e.id == f.id ==> e == f)
      && (forall e, f :: e in queue && f in queue && e.src.Tick? && e.src == f.src ==> e == f)
      && (forall t :: t in tickers ==> t <= nextID && tickers[t].period > 0)
      && (forall d :: d in dead ==> d <= nextID)
  }

  // ----- registering, stopping, resetting

  function Insert(q: seq<Entry>, e: Entry): seq<Entry> {
    if q == [] then [e]
    else if Before(e, q[0]) then [e] + q
    else [q[0]] + Insert(q[1..], e)
  }

  /** Registers one more entry under a fresh id. */
  function Add(s: State, deadline: int, src: Source): State {
    s.(nextID := s.nextID + 1, queue := Insert(s.queue, Entry(deadline, s.nextID + 1, src)))
  }

  /** A ticker takes the id of its first entry as its name. */
  function AddTicker(s: State, period: int): State {
    Add(s.(tickers := s.tickers[s.nextID + 1 := Ticker(period, false)]), s.now + period, Tick(s.nextID + 1))
  }

  function AddAfterFunc(s: State, d: int, fn: int): State {
    Add(s, s.now + d, Call(fn))
  }

  function AddAfter(s: State, d: int): State {
    Add(s, s.now + d, Send(s.nextID + 1))
  }

  function StopTicker(s: State, t: nat): State
    requires t in s.tickers
  {
    s.(tickers := s.tickers[t := s.tickers[t].(stopped := true)])
  }

  function Kill(s: State, id: nat): State {
    s.(dead := s.dead + {id})
  }

  /** Tombstones entry `id` and registers the same work again under a fresh id. */
  function Reset(s: State, id: nat, src: Source, d: int): State {
    Add(Kill(s, id), s.now + d, src)
  }

  // ----- draining

  predicate Live(s: State, e: Entry) {
    e.id !in s.dead && (e.src.Tick? && e.src.ticker in s.tickers ==> !s.tickers[e.src.ticker].stopped)
  }

  predicate Due(s: State, limit: int) {
    s.queue != [] && s.queue[0].deadline <= limit
  }

  /** One iteration of the drain loop: the least entry leaves the queue; a live one fires, and
      a live ticker goes back in one period later under a fresh id. */
  function PopLeast(s: State): Drained
    requires WellFormed(s) && s.queue != []
  {
    var top := s.queue[0];
    var popped := s.(queue := s.queue[1..]);
    if !Live(s, top) then Drained(popped, [])
    else if top.src.Tick? then
      Drained(Add(popped, top.deadline + s.tickers[top.src.ticker].period, top.src), [top])
    else Drained(popped, [top])
  }

  /** Iterations an entry costs when the clock drains to `limit`. */
  function EntryWork(s: State, e: Entry, limit: int): nat {
    if e.deadline > limit then 0
    else if e.src.Tick? && Live(s, e) && e.src.ticker in s.tickers && s.tickers[e.src.ticker].period > 0 then
      1 + (limit - e.deadline) / s.tickers[e.src.ticker].period
    else 1
  }

  function QueueWork(s: State, q: seq<Entry>, limit: int): nat {
    if q == [] then 0 else EntryWork(s, q[0], limit) + QueueWork(s, q[1..], limit)
  }

  function Work(s: State, limit: int): nat {
    QueueWork(s, s.queue, limit)
  }

  /** The collect phase: pops until the least entry lies beyond `limit`. */
  function Drain(s: State, limit: int): (r: Drained)
    requires WellFormed(s)
    decreases Work(s, limit)
  {
    if !Due(s, limit) then Drained(s, [])
    else
      PopKeepsWellFormed(s);
      PopCostsOne(s, limit);
      var step := PopLeast(s);
      var rest := Drain(step.state, limit);
      Drained(rest.state, step.fires + rest.fires)
  }

  /** `advance` up to the point where it releases the lock. */
  function Collect(s: State, d: int): Drained
    requires WellFormed(s)
  {
    var r := Drain(s, s.now + d);
    Drained(r.state.(now := s.now + d), r.fires)
  }

  // ----- insertion

  lemma {:induction false} InsertElements(q: seq<Entry>, e: Entry)
    ensures forall x :: x in Insert(q, e) <==> x == e || x in q
  {
    if q != [] && !Before(e, q[0]) {
      InsertElements(q[1..], e);
      assert q == [q[0]] + q[1..];
    }
  }

  lemma {:induction false} InsertSorts(q: seq<Entry>, e: Entry)
    requires Sorted(q)
    requires forall x :: x in q ==> x.id != e.id
    ensures Sorted(Insert(q, e))
  {
    if q != [] && !Before(e, q[0]) {
      InsertSorts(q[1..], e);
      InsertElements(q[1..], e);
      var r := Insert(q[1..], e);
      forall j | 0 <= j < |r| ensures Before(q[0], r[j]) {
        assert r[j] in r;
      }
    }
  }

  lemma {:induction false} InsertWork(s: State, q: seq<Entry>, e: Entry, limit: int)
    ensures QueueWork(s, Insert(q, e), limit) == QueueWork(s, q, limit) + EntryWork(s, e, limit)
  {
    if q == [] {
      assert [e][1..] == [];
    } else if Before(e, q[0]) {
      assert ([e] + q)[1..] == q;
    } else {
      InsertWork(s, q[1..], e, limit);
      assert ([q[0]] + Insert(q[1..], e))[1..] == Insert(q[1..], e);
    }
  }

  /** Work depends on the tombstones and tickers only. */
  lemma {:induction false} SameWork(s: State, t: State, q: seq<Entry>, limit: int)
    requires s.tickers == t.tickers && s.dead == t.dead
    ensures QueueWork(s, q, limit) == QueueWork(t, q, limit)
  {
    if q != [] { SameWork(s, t, q[1..], limit); }
  }

  lemma AddKeepsWellFormed(s: State, deadline: int, src: Source)
    requires WellFormed(s)
    requires src.Tick? ==> src.ticker in s.tickers && forall e :: e in s.queue ==> e.src != src
    ensures WellFormed(Add(s, deadline, src))
  {
    var e := Entry(deadline, s.nextID + 1, src);
    InsertElements(s.queue, e);
    InsertSorts(s.queue, e);
  }

  lemma AddTickerKeepsWellFormed(s: State, period: int)
    requires WellFormed(s) && period > 0
    ensures WellFormed(AddTicker(s, period))
  {
    var name := s.nextID + 1;
    var e := Entry(s.now + period, name, Tick(name));
    InsertElements(s.queue, e);
    InsertSorts(s.queue, e);
  }

  // ----- the drain loop ends, and its length is known

  /** The tail of the queue holds neither the least entry nor another entry of its ticker. */
  lemma TailOfQueue(s: State)
    requires WellFormed(s) && s.queue != []
    ensures var top := s.queue[0];
            forall e :: e in s.queue[1..] ==> e in s.queue && Before(top, e) && (top.src.Tick? ==> e.src != top.src)
  {
    var top := s.queue[0];
    var tail := s.queue[1..];
    forall e | e in tail ensures e in s.queue && Before(top, e) && (top.src.Tick? ==> e.src != top.src) {
      var k :| 0 <= k < |tail| && tail[k] == e;
      assert e == s.queue[k + 1];
    }
  }

  lemma TailIsWellFormed(s: State)
    requires WellFormed(s) && s.queue != []
    ensures WellFormed(s.(queue := s.queue[1..]))
  {
    TailOfQueue(s);
  }

  lemma PopKeepsWellFormed(s: State)
    requires WellFormed(s) && s.queue != []
    ensures WellFormed(PopLeast(s).state)
  {
    var top := s.queue[0];
    var popped := s.(queue := s.queue[1..]);
    TailIsWellFormed(s);
    TailOfQueue(s);
    assert top.src.Tick? ==> top.src.ticker in popped.tickers;
    if Live(s, top) && top.src.Tick? {
      hide WellFormed;
      AddKeepsWellFormed(popped, top.deadline + s.tickers[top.src.ticker].period, top.src);
    }
  }

  lemma MulGrows(p: int, d: int)
    requires p > 0
    ensures d >= 1 ==> p * d >= p
    ensures d <= -1 ==> p * d <= -p
  {
  }

  lemma QuotientIsUnique(x: int, p: int, q: int, r: int)
    requires 0 <= r < p && x == p * q + r
    ensures x / p == q
  {
    assert p * (x / p - q) == r - x % p;
    MulGrows(p, x / p - q);
  }

  lemma DivDropsByOne(x: int, p: int)
    requires x >= p > 0
    ensures x / p == (x - p) / p + 1
  {
    assert x == p * (x / p) + x % p;
    QuotientIsUnique(x - p, p, x / p - 1, x % p);
  }

  lemma DivOfSmall(x: int, p: int)
    requires 0 <= x < p
    ensures x / p == 0
  {
  }

  /** Every iteration of the drain loop uses up exactly one unit of work: a ticker that goes
      back in for period p needs `(limit - deadline) / p` more iterations, one fewer than before. */
  lemma PopCostsOne(s: State, limit: int)
    requires WellFormed(s) && Due(s, limit)
    ensures WellFormed(PopLeast(s).state)
    ensures Work(PopLeast(s).state, limit) == Work(s, limit) - 1
  {
    PopKeepsWellFormed(s);
    var top := s.queue[0];
    var after := PopLeast(s).state;
    SameWork(s, after, s.queue[1..], limit);
    assert top in s.queue && s.nextID + 1 !in s.dead;
    if Live(s, top) && top.src.Tick? {
      var p := s.tickers[top.src.ticker].period;
      assert p > 0;
      hide WellFormed;
      var next := Entry(top.deadline + p, s.nextID + 1, top.src);
      InsertWork(after, s.queue[1..], next, limit);
      if next.deadline <= limit { DivDropsByOne(limit - top.deadline, p); }
        else { DivOfSmall(limit - top.deadline, p); }
    }
  }
}
