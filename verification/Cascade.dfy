/** The configuration cascade: ranked layers are loaded from the least specific to the most specific,
    and every value found is merged over what came before. */
module CfgCascade {

  type Getenv = string -> string

  /** What a provider returns: a value, or that its source does not exist, or another error. */
  datatype Load<T> = Value(value: T) | Absent | Failed(error: string)

  datatype Layer<!T> = Layer(rank: int, name: string, load: Getenv -> Load<T>)

  datatype ProviderError = ProviderError(name: string, error: string)

  datatype Resolved<T> = Resolved(value: T, sources: seq<string>, errors: seq<ProviderError>)

  ghost predicate Sorted<T>(layers: seq<Layer<T>>) {
    forall i, j :: 0 <= i < j < |layers| ==> layers[i].rank <= layers[j].rank
  }

  ghost predicate DistinctRanks<T>(layers: seq<Layer<T>>) {
    forall i, j :: 0 <= i < j < |layers| ==> layers[i].rank != layers[j].rank
  }

  /** A possible order in which the layers are loaded: ties come in any order. */
  ghost predicate Ranked<T>(sorted: seq<Layer<T>>, layers: seq<Layer<T>>) {
    Sorted(sorted) && multiset(sorted) == multiset(layers)
  }

  // ----- what the cascade means

  function Found<T>(layers: seq<Layer<T>>, getenv: Getenv): seq<Layer<T>> {
    if layers == [] then []
    else (if layers[0].load(getenv).Value? then [layers[0]] else []) + Found(layers[1..], getenv)
  }

  function Broken<T>(layers: seq<Layer<T>>, getenv: Getenv): seq<ProviderError> {
    if layers == [] then []
    else
      var here := layers[0].load(getenv);
      (if here.Failed? then [ProviderError(layers[0].name, here.error)] else []) + Broken(layers[1..], getenv)
  }

  function Values<T>(found: seq<Layer<T>>, getenv: Getenv): (r: seq<T>)
    requires forall i :: 0 <= i < |found| ==> found[i].load(getenv).Value?
    ensures |r| == |found| && forall i :: 0 <= i < |r| ==> r[i] == found[i].load(getenv).value
  {
    seq(|found|, i requires 0 <= i < |found| => found[i].load(getenv).value)
  }

  function FoldLeft<T>(merge: (T, T) -> T, base: T, values: seq<T>): T {
    if values == [] then base else FoldLeft(merge, merge(base, values[0]), values[1..])
  }

  function Reversed(s: seq<string>): (r: seq<string>)
    ensures |r| == |s| && forall i :: 0 <= i < |s| ==> r[i] == s[|s| - 1 - i]
  {
    seq(|s|, i requires 0 <= i < |s| => s[|s| - 1 - i])
  }

  function Names<T>(layers: seq<Layer<T>>): (r: seq<string>)
    ensures |r| == |layers| && forall i :: 0 <= i < |r| ==> r[i] == layers[i].name
  {
    seq(|layers|, i requires 0 <= i < |layers| => layers[i].name)
  }

  lemma {:induction false} FoundHoldValues<T>(layers: seq<Layer<T>>, getenv: Getenv)
    ensures forall i :: 0 <= i < |Found(layers, getenv)| ==> Found(layers, getenv)[i].load(getenv).Value?
  {
    if layers != [] {
      FoundHoldValues(layers[1..], getenv);
    }
  }

  /** The outcome for layers loaded in this order. */
  function Outcome<T>(layers: seq<Layer<T>>, merge: (T, T) -> T, zero: T, getenv: Getenv): Resolved<T> {
    FoundHoldValues(layers, getenv);
    Merged(Found(layers, getenv), Broken(layers, getenv), merge, zero, getenv)
  }

  function Merged<T>(found: seq<Layer<T>>, broken: seq<ProviderError>, merge: (T, T) -> T, zero: T,
      getenv: Getenv): Resolved<T>
    requires forall i :: 0 <= i < |found| ==> found[i].load(getenv).Value?
  {
    var values := Values(found, getenv);
    Resolved(if values == [] then zero else FoldLeft(merge, values[0], values[1..]), Reversed(Names(found)), broken)
  }

  // ----- how it is computed

  /** Sorts by rank. Nothing is promised about layers of the same rank. */
  method SortByRank<T>(layers: seq<Layer<T>>) returns (sorted: seq<Layer<T>>)
    ensures Ranked(sorted, layers)
  {
    sorted := [];
    for k := 0 to |layers|
      invariant Ranked(sorted, layers[..k])
    {
      assert layers[..k + 1] == layers[..k] + [layers[k]];
      sorted := InsertByRank(sorted, layers[k]);
    }
    assert layers[..|layers|] == layers;
  }

  method InsertByRank<T>(sorted: seq<Layer<T>>, layer: Layer<T>) returns (r: seq<Layer<T>>)
    requires Sorted(sorted)
    ensures Sorted(r) && multiset(r) == multiset(sorted) + multiset{layer}
  {
    var i := |sorted|;
    while i > 0 && layer.rank < sorted[i - 1].rank
      invariant 0 <= i <= |sorted|
      invariant i < |sorted| ==> layer.rank < sorted[i].rank
    {
      i := i - 1;
    }
    hide Sorted;
    r := sorted[..i] + [layer] + sorted[i..];
    InsertedIsSorted(sorted, i, layer);
    InsertedIsMore(sorted, i, layer);
  }

  lemma InsertedIsSorted<T>(sorted: seq<Layer<T>>, i: nat, layer: Layer<T>)
    requires Sorted(sorted) && i <= |sorted|
    requires (i > 0 ==> sorted[i - 1].rank <= layer.rank) && (i < |sorted| ==> layer.rank < sorted[i].rank)
    ensures Sorted(sorted[..i] + [layer] + sorted[i..])
  {
    var r := sorted[..i] + [layer] + sorted[i..];
    assert forall j :: 0 <= j < i ==> r[j] == sorted[j] && r[j].rank <= layer.rank;
    assert forall j :: i < j < |r| ==> r[j] == sorted[j - 1] && layer.rank <= r[j].rank;
  }

  lemma InsertedIsMore<T>(sorted: seq<Layer<T>>, i: nat, layer: Layer<T>)
    requires i <= |sorted|
    ensures multiset(sorted[..i] + [layer] + sorted[i..]) == multiset(sorted) + multiset{layer}
  {
    assert sorted == sorted[..i] + sorted[i..];
  }

  lemma {:induction false} FoundAppend<T>(layers: seq<Layer<T>>, layer: Layer<T>, getenv: Getenv)
    ensures Found(layers + [layer], getenv) == Found(layers, getenv) + if layer.load(getenv).Value? then [layer] else []
    ensures Broken(layers + [layer], getenv)
         == Broken(layers, getenv)
          + if layer.load(getenv).Failed? then [ProviderError(layer.name, layer.load(getenv).error)] else []
  {
    var all := layers + [layer];
    if layers != [] {
      assert all[1..] == layers[1..] + [layer];
      FoundAppend(layers[1..], layer, getenv);
    }
  }

  lemma {:induction false} FoldAppend<T>(merge: (T, T) -> T, base: T, values: seq<T>, last: T)
    ensures FoldLeft(merge, base, values + [last]) == merge(FoldLeft(merge, base, values), last)
  {
    if values != [] {
      assert (values + [last])[1..] == values[1..] + [last];
      FoldAppend(merge, merge(base, values[0]), values[1..], last);
    }
  }

  /** Without layers the outcome is the zero value, with no sources and no errors. */
  lemma OutcomeOfNone<T>(merge: (T, T) -> T, zero: T, getenv: Getenv)
    ensures Outcome([], merge, zero, getenv) == Resolved(zero, [], [])
  {
  }

  /** The value and the names that one more layer leads to. */
  lemma OutcomeAppend<T>(layers: seq<Layer<T>>, layer: Layer<T>, merge: (T, T) -> T, zero: T, getenv: Getenv)
    ensures
      var (before, after, load) := (Outcome(layers, merge, zero, getenv),
        Outcome(layers + [layer], merge, zero, getenv), layer.load(getenv));
      match load
      case Value(v) =>
        after
        == Resolved(if before.sources == [] then v else merge(before.value, v),
                    [layer.name] + before.sources,
                    before.errors)
      case Absent => after == before
      case Failed(e) => after == before.(errors := before.errors + [ProviderError(layer.name, e)])
  {
    hide Found, Broken, Merged;
    FoundHoldValues(layers, getenv);
    FoundAppend(layers, layer, getenv);
    var (found, broken) := (Found(layers, getenv), Broken(layers, getenv));
    match layer.load(getenv)
    case Value(_) =>
      assert broken + [] == broken;
      MergedAppend(found, broken, layer, merge, zero, getenv);
    case Absent =>
      assert found + [] == found && broken + [] == broken;
    case Failed(_) =>
      assert found + [] == found;
      MergedErrors(found, broken, broken + [ProviderError(layer.name, layer.load(getenv).error)], merge, zero, getenv);
  }

  lemma MergedErrors<T>(found: seq<Layer<T>>, broken: seq<ProviderError>, more: seq<ProviderError>,
                        merge: (T, T) -> T, zero: T, getenv: Getenv)
    requires forall i :: 0 <= i < |found| ==> found[i].load(getenv).Value?
    ensures Merged(found, more, merge, zero, getenv) == Merged(found, broken, merge, zero, getenv).(errors := more)
    ensures Merged(found, broken, merge, zero, getenv).errors == broken
  {
  }

  lemma MergedAppend<T>(found: seq<Layer<T>>, broken: seq<ProviderError>, layer: Layer<T>, merge: (T, T) -> T, zero: T,
      getenv: Getenv)
    requires forall i :: 0 <= i < |found| ==> found[i].load(getenv).Value?
    requires layer.load(getenv).Value?
    ensures
      var (before, v) := (Merged(found, broken, merge, zero, getenv), layer.load(getenv).value);
      Merged(found + [layer], broken, merge, zero, getenv)
      == Resolved(if before.sources == [] then v else merge(before.value, v), [layer.name] + before.sources,
        before.errors)
  {
    var (v, vs) := (layer.load(getenv).value, Values(found, getenv));
    assert Values(found + [layer], getenv) == vs + [v];
    if vs != [] {
      assert (vs + [v])[1..] == vs[1..] + [v];
      FoldAppend(merge, vs[0], vs[1..], v);
    }
    assert Reversed(Names(found + [layer])) == [layer.name] + Reversed(Names(found));
  }

  class Cascade<T> {
    const layers: seq<Layer<T>>
    const merge: (T, T) -> T

    constructor (layers: seq<Layer<T>>, merge: (T, T) -> T)
      ensures this.layers == layers && this.merge == merge
    {
      this.layers, this.merge := layers, merge;
    }

    /** Some ranked order of the layers explains the result; when ranks are distinct, every one does. */
    method Resolve(zero: T, getenv: Getenv) returns (r: Resolved<T>, ghost order: seq<Layer<T>>)
      ensures Ranked(order, layers) && r == Outcome(order, merge, zero, getenv)
      ensures DistinctRanks(layers) ==>
        forall sorted :: Ranked(sorted, layers) ==> r == Outcome(sorted, merge, zero, getenv)
    {
      var sorted := SortByRank(layers);
      var value, haveBase := zero, false;
      var sources: seq<string>, errors: seq<ProviderError> := [], [];
      for k := 0 to |sorted|
        invariant haveBase <==> sources != []
        invariant Outcome(sorted[..k], merge, zero, getenv) == Resolved(value, Reversed(sources), errors)
      {
        var layer := sorted[k];
        OutcomeAppend(sorted[..k], layer, merge, zero, getenv);
        assert sorted[..k + 1] == sorted[..k] + [layer];
        match layer.load(getenv) {
          case Absent =>
          case Failed(e) =>
            errors := errors + [ProviderError(layer.name, e)];
          case Value(v) =>
            if !haveBase {
              value, haveBase := v, true;
            } else {
              value := merge(value, v);
            }
            assert Reversed(sources + [layer.name]) == [layer.name] + Reversed(sources);
            sources := sources + [layer.name];
        }
      }
      assert sorted[..|sorted|] == sorted;
      sources := ReverseSources(sources);
      r, order := Resolved(value, sources, errors), sorted;
      forall other | DistinctRanks(layers) && Ranked(other, layers) ensures other == sorted {
        RankedIsUnique(other, sorted, layers);
      }
    }
  }

  method ReverseSources(s: seq<string>) returns (r: seq<string>)
    ensures r == Reversed(s)
  {
    r := s;
    var i, j := 0, |r| - 1;
    while i < j
      invariant |r| == |s| && 0 <= i <= j + 1 && i + j == |s| - 1
      invariant forall k :: 0 <= k < i || j < k < |s| ==> r[k] == Reversed(s)[k]
      invariant forall k :: i <= k <= j ==> r[k] == s[k]
      decreases j - i
    {
      assert r[i] == s[i] && r[j] == s[j];
      r := r[i := s[j]][j := s[i]];
      i, j := i + 1, j - 1;
    }
  }

  lemma {:induction false} SortedIsUnique<T>(a: seq<Layer<T>>, b: seq<Layer<T>>)
    requires Sorted(a) && Sorted(b) && multiset(a) == multiset(b)
    requires forall x, y :: x in multiset(a) && y in multiset(a) && x.rank == y.rank ==> x == y
    ensures a == b
  {
    hide Sorted;
    assert |a| == |multiset(a)| == |multiset(b)| == |b|;
    if a != [] {
      LeastIsFirst(a, b);
      LeastIsFirst(b, a);
      TailOf(a);
      TailOf(b);
      forall x, y | x in multiset(a[1..]) && y in multiset(a[1..]) && x.rank == y.rank ensures x == y {
        assert x in multiset(a) && y in multiset(a);
      }
      SortedIsUnique(a[1..], b[1..]);
    }
  }

  lemma TailOf<T>(a: seq<Layer<T>>)
    requires Sorted(a) && a != []
    ensures Sorted(a[1..]) && multiset(a[1..]) == multiset(a) - multiset{a[0]}
  {
    assert a == [a[0]] + a[1..];
  }

  lemma LeastIsFirst<T>(a: seq<Layer<T>>, b: seq<Layer<T>>)
    requires Sorted(a) && multiset(a) == multiset(b) && a != [] && b != []
    ensures a[0].rank <= b[0].rank && b[0] in multiset(a)
  {
    assert b[0] in multiset(b);
    var i :| 0 <= i < |a| && a[i] == b[0];
  }

  /** With distinct ranks there is one ranked order. */
  lemma RankedIsUnique<T>(a: seq<Layer<T>>, b: seq<Layer<T>>, layers: seq<Layer<T>>)
    requires DistinctRanks(layers) && Ranked(a, layers) && Ranked(b, layers)
    ensures a == b
  {
    forall x, y | x in multiset(layers) && y in multiset(layers) && x.rank == y.rank ensures x == y {
      var i :| 0 <= i < |layers| && layers[i] == x;
      var j :| 0 <= j < |layers| && layers[j] == y;
    }
    SortedIsUnique(a, b);
  }

  /** With distinct ranks, the order in which the layers are listed does not matter. */
  lemma ListingDoesNotMatter<T>(layers: seq<Layer<T>>, listed: seq<Layer<T>>, a: seq<Layer<T>>, b: seq<Layer<T>>,
                                merge: (T, T) -> T, zero: T, getenv: Getenv)
    requires DistinctRanks(layers) && multiset(listed) == multiset(layers)
    requires Ranked(a, layers) && Ranked(b, listed)
    ensures Outcome(a, merge, zero, getenv) == Outcome(b, merge, zero, getenv)
  {
    RankedIsUnique(a, b, layers);
  }

  /** With equal ranks it does: the same two layers have ranked orders with different outcomes,
      whenever merging their values one way differs from the other. */
  lemma EqualRanksAreAmbiguous<T>(a: Layer<T>, b: Layer<T>, merge: (T, T) -> T, zero: T, getenv: Getenv)
    requires a.rank == b.rank && a.load(getenv).Value? && b.load(getenv).Value?
    requires merge(a.load(getenv).value, b.load(getenv).value) != merge(b.load(getenv).value, a.load(getenv).value)
    ensures Ranked([a, b], [a, b]) && Ranked([b, a], [a, b])
    ensures Outcome([a, b], merge, zero, getenv) != Outcome([b, a], merge, zero, getenv)
  {
    assert multiset([a, b]) == multiset{a, b} == multiset([b, a]);
    OutcomeOfTwo(a, b, merge, zero, getenv);
    OutcomeOfTwo(b, a, merge, zero, getenv);
  }

  lemma OutcomeOfTwo<T>(a: Layer<T>, b: Layer<T>, merge: (T, T) -> T, zero: T, getenv: Getenv)
    requires a.load(getenv).Value? && b.load(getenv).Value?
    ensures Outcome([a, b], merge, zero, getenv).value == merge(a.load(getenv).value, b.load(getenv).value)
  {
    OutcomeAppend([], a, merge, zero, getenv);
    OutcomeAppend([a], b, merge, zero, getenv);
    assert [] + [a] == [a] && [a] + [b] == [a, b];
  }

  /** When merging lets the overlay win, the value is that of the highest-ranked layer that has one,
      and that layer's name comes first. */
  lemma {:induction false} HighestRankWins<T(!new)>(order: seq<Layer<T>>, k: nat, merge: (T, T) -> T, zero: T,
      getenv: Getenv)
    requires k < |order| && order[k].load(getenv).Value?
    requires forall i :: k < i < |order| ==> !order[i].load(getenv).Value?
    requires forall x, y :: merge(x, y) == y
    ensures
      var r := Outcome(order, merge, zero, getenv);
      r.value == order[k].load(getenv).value && r.sources != [] && r.sources[0] == order[k].name
  {
    hide Outcome;
    var (init, last) := (order[..|order| - 1], order[|order| - 1]);
    assert order == init + [last];
    OutcomeAppend(init, last, merge, zero, getenv);
    if k < |order| - 1 {
      assert init[k] == order[k] && forall i :: k < i < |init| ==> init[i] == order[i];
      HighestRankWins(init, k, merge, zero, getenv);
    } else {
      var before := Outcome(init, merge, zero, getenv);
      assert merge(before.value, last.load(getenv).value) == last.load(getenv).value;
    }
  }
}
