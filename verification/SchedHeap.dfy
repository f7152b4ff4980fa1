/** The objects of the scheduler and the binary heap that orders them. */
module SchedHeap {
  import opened ScheduleSpec
  import opened ScheduleLaws

  /** A channel with a buffer of one. */
  class Channel {
    var buf: Slot

    constructor ()
      ensures buf == Empty
    {
      buf := Empty;
    }
  }

  /** Mutable state shared by every heap entry of one ticker. */
  class TickerState {
    var stopped: bool
    const period: int
    const ch: Channel
    ghost const name: nat

    constructor (period: int, ch: Channel, ghost name: nat)
      ensures !stopped && this.period == period && this.ch == ch && this.name == name
    {
      stopped, this.period, this.ch, this.name := false, period, ch, name;
    }
  }

  datatype Kind = KindTicker | KindAfterFunc | KindAfter

  /** One scheduled event. Only `dead` and `index` ever change. */
  class SchedEntry {
    const deadline: int
    const id: nat
    const kind: Kind
    var dead: bool
    var index: int
    const ticker: TickerState?
    const fn: int
    const afterC: Channel?
    ghost const src: Source

    constructor (deadline: int, id: nat, kind: Kind, ticker: TickerState?, fn: int, afterC: Channel?, ghost src: Source)
      ensures !dead && this.deadline == deadline && this.id == id && this.kind == kind && this.ticker == ticker
      ensures this.fn == fn && this.afterC == afterC && this.src == src
    {
      this.deadline, this.id, this.kind, dead, index := deadline, id, kind, false, 0;
      this.ticker, this.fn, this.afterC, this.src := ticker, fn, afterC, src;
    }
  }

  ghost function View(e: SchedEntry): Entry {
    Entry(e.deadline, e.id, e.src)
  }

  predicate LessThan(a: SchedEntry, b: SchedEntry) {
    if a.deadline == b.deadline then a.id < b.id else a.deadline < b.deadline
  }

  function Parent(k: nat): nat {
    if k == 0 then 0 else (k - 1) / 2
  }

  /** No entry of the first n comes before its parent. */
  ghost predicate Ordered(s: seq<SchedEntry>, n: nat)
    requires n <= |s|
  {
    forall k :: 1 <= k < n ==> !LessThan(s[k], s[Parent(k)])
  }

  /** Ordered, except that entry `hole` may come before its parent. */
  ghost predicate RisingAt(s: seq<SchedEntry>, n: nat, hole: nat)
    requires n <= |s|
  {
    && (forall k :: 1 <= k < n && k != hole ==> !LessThan(s[k], s[Parent(k)]))
    && (forall k :: 1 <= k < n && Parent(k) == hole && hole > 0 ==> !LessThan(s[k], s[Parent(hole)]))
  }

  /** Ordered, except that entry `hole` may come after its children. */
  ghost predicate SinkingAt(s: seq<SchedEntry>, n: nat, hole: nat)
    requires n <= |s|
  {
    && (forall k :: 1 <= k < n && Parent(k) != hole ==> !LessThan(s[k], s[Parent(k)]))
    && (forall k :: 1 <= k < n && Parent(k) == hole && hole > 0 ==> !LessThan(s[k], s[Parent(hole)]))
  }

  lemma Children(k: nat, i: nat)
    requires k >= 1
    ensures Parent(k) == i <==> k == 2 * i + 1 || k == 2 * i + 2
  {
  }

  /** The root of an ordered heap comes before everything else. */
  lemma {:induction false} RootIsLeast(s: seq<SchedEntry>, n: nat, k: nat)
    requires k < n <= |s| && Ordered(s, n)
    ensures !LessThan(s[k], s[0])
  {
    if k > 0 { RootIsLeast(s, n, Parent(k)); }
  }

  /** The entries exchanged at i and j. */
  function Swapped(s: seq<SchedEntry>, i: nat, j: nat): seq<SchedEntry>
    requires i < |s| && j < |s|
  {
    s[i := s[j]][j := s[i]]
  }

  lemma RiseStep(s: seq<SchedEntry>, n: nat, j: nat)
    requires 0 < j < n <= |s| && RisingAt(s, n, j) && LessThan(s[j], s[Parent(j)])
    ensures RisingAt(Swapped(s, Parent(j), j), n, Parent(j))
  {
    var i := Parent(j);
    var r := Swapped(s, i, j);
    forall k | 1 <= k < n && k != i ensures !LessThan(r[k], r[Parent(k)]) {
      if Parent(k) == i && k != j { assert !LessThan(s[k], s[i]); }
    }
    forall k | 1 <= k < n && Parent(k) == i && i > 0 ensures !LessThan(r[k], r[Parent(i)]) {
      assert !LessThan(s[i], s[Parent(i)]);
      assert k != j ==> !LessThan(s[k], s[i]);
    }
  }

  lemma SinkStep(s: seq<SchedEntry>, n: nat, i: nat, j: nat)
    requires i < j < n <= |s| && Parent(j) == i && SinkingAt(s, n, i)
    requires LessThan(s[j], s[i]) && forall k :: 1 <= k < n && Parent(k) == i ==> !LessThan(s[k], s[j])
    ensures SinkingAt(Swapped(s, i, j), n, j)
  {
    var r := Swapped(s, i, j);
    forall k | 1 <= k < n && Parent(k) != j ensures !LessThan(r[k], r[Parent(k)]) {
      if k == i { assert Parent(j) == i; assert !LessThan(s[j], s[Parent(i)]); }
    }
  }

  lemma LeafSinksNoFurther(s: seq<SchedEntry>, n: nat, i: nat)
    requires n <= |s| && SinkingAt(s, n, i) && 2 * i + 1 >= n
    ensures Ordered(s, n)
  {
    forall k | 1 <= k < n ensures Parent(k) != i { Children(k, i); }
  }

  /** The child that container/heap compares with: the lesser one, the left one on a tie. */
  function LeastChild(s: seq<SchedEntry>, n: nat, i: nat): (j: nat)
    requires 2 * i + 1 < n <= |s|
    ensures i < j < n && Parent(j) == i
    ensures forall k :: 1 <= k < n && Parent(k) == i ==> !LessThan(s[k], s[j])
  {
    var left := 2 * i + 1;
    assert forall k :: 1 <= k < n && Parent(k) == i ==> k == left || k == left + 1 by {
      forall k | 1 <= k < n && Parent(k) == i ensures k == left || k == left + 1 { Children(k, i); }
    }
    if left + 1 < n && LessThan(s[left + 1], s[left]) then left + 1 else left
  }

  lemma SinkDone(s: seq<SchedEntry>, n: nat, i: nat)
    requires 2 * i + 1 < n <= |s| && SinkingAt(s, n, i) && !LessThan(s[LeastChild(s, n, i)], s[i])
    ensures Ordered(s, n)
  {
  }

  /** A min-heap of shared entries over (deadline, id), kept as container/heap keeps it. */
  class Heap {
    var items: seq<SchedEntry>

    ghost function Objects(): set<SchedEntry>
      reads this
    {
      set e | e in items
    }

    /** Every entry knows its place; so no entry occurs twice. */
    ghost predicate Indexed()
      reads this, items
    {
      forall i :: 0 <= i < |items| ==> items[i].index == i
    }

    ghost predicate Valid()
      reads this, items
    {
      Indexed() && Ordered(items, |items|)
    }

    constructor ()
      ensures items == [] && Valid()
    {
      items := [];
    }

    method Swap(i: nat, j: nat)
      requires i < |items| && j < |items| && Indexed()
      modifies this, Objects()`index
      ensures items == Swapped(old(items), i, j) && Indexed() && Objects() == old(Objects())
    {
      items := items[i := items[j]][j := items[i]];
      items[i].index := i;
      items[j].index := j;
      SwappedObjects(old(items), i, j);
    }

    lemma SwappedObjects(s: seq<SchedEntry>, i: nat, j: nat)
      requires i < |s| && j < |s|
      ensures (set e | e in Swapped(s, i, j)) == set e | e in s
    {
      var r := Swapped(s, i, j);
      forall e | e in s ensures e in r {
        var k :| 0 <= k < |s| && s[k] == e;
        assert e == if k == i then r[j] else if k == j then r[i] else r[k];
      }
    }

    /** Sifts entry j towards the root. */
    method Up(start: nat)
      requires start < |items| && Indexed() && RisingAt(items, |items|, start)
      modifies this, Objects()`index
      ensures Valid() && |items| == |old(items)| && Objects() == old(Objects())
    {
      var j: nat := start;
      while true
        invariant j < |items| == |old(items)| && Indexed() && Objects() == old(Objects())
        invariant RisingAt(items, |items|, j)
        decreases j
      {
        var i: nat := Parent(j);
        if i == j || !LessThan(items[j], items[i]) { break; }
        RiseStep(items, |items|, j);
        Swap(i, j);
        j := i;
      }
    }

    /** Sifts the root down within the first n entries. */
    method Down(n: nat)
      requires n <= |items| && Indexed() && SinkingAt(items, n, 0)
      modifies this, Objects()`index
      ensures Indexed() && |items| == |old(items)| && Ordered(items, n)
      ensures items[n..] == old(items)[n..] && Objects() == old(Objects())
    {
      var i: nat := 0;
      while true
        invariant |items| == |old(items)| && Indexed() && Objects() == old(Objects())
        invariant items[n..] == old(items)[n..]
        invariant SinkingAt(items, n, i)
        decreases n - i
      {
        if 2 * i + 1 >= n {
          LeafSinksNoFurther(items, n, i);
          break;
        }
        var j := LeastChild(items, n, i);
        if !LessThan(items[j], items[i]) {
          SinkDone(items, n, i);
          break;
        }
        SinkStep(items, n, i, j);
        Swap(i, j);
        i := j;
      }
    }

    method Push(e: SchedEntry)
      requires Valid() && e !in items
      modifies this, Objects()`index, e`index
      ensures Valid() && |items| == |old(items)| + 1 && Objects() == old(Objects()) + {e}
    {
      e.index := |items|;
      items := items + [e];
      assert Objects() == old(Objects()) + {e};
      Up(|items| - 1);
    }

    method Pop() returns (e: SchedEntry)
      requires Valid() && items != []
      modifies this, Objects()`index
      ensures Valid() && e == old(items[0]) && e.index == -1
      ensures |old(items)| == |items| + 1 && e !in Objects() && old(Objects()) == Objects() + {e}
      ensures forall x: SchedEntry :: x in old(items) ==> !LessThan(x, e)
    {
      forall k | 0 <= k < |items| ensures !LessThan(items[k], items[0]) { RootIsLeast(items, |items|, k); }
      var n := |items| - 1;
      Swap(0, n);
      Down(n);
      e := items[n];
      assert items[n..] == [e] && items == items[..n] + [e];
      items := items[..n];
      e.index := -1;
    }
  }
}
