/** Layers of equal rank: when the order in which the cascade loads them is not determined, and when the
    sources and errors it reports are not. */
module CascadeOrders {
  import opened CfgCascade

  // ----- ranked orders

  lemma PlaceFor<T>(sorted: seq<Layer<T>>, layer: Layer<T>) returns (i: nat)
    requires Sorted(sorted)
    ensures i <= |sorted|
    ensures (i > 0 ==> sorted[i - 1].rank <= layer.rank) && (i < |sorted| ==> layer.rank < sorted[i].rank)
  {
    i := |sorted|;
    while i > 0 && layer.rank < sorted[i - 1].rank
      invariant i <= |sorted| && (i < |sorted| ==> layer.rank < sorted[i].rank)
    {
      i := i - 1;
    }
  }

  lemma {:induction false} SomeOrder<T>(layers: seq<Layer<T>>) returns (order: seq<Layer<T>>)
    ensures Ranked(order, layers)
  {
    if layers == [] {
      order := [];
    } else {
      var (init, last) := (layers[..|layers| - 1], layers[|layers| - 1]);
      assert layers == init + [last];
      var rest := SomeOrder(init);
      var i := PlaceFor(rest, last);
      InsertedIsSorted(rest, i, last);
      InsertedIsMore(rest, i, last);
      order := rest[..i] + [last] + rest[i..];
    }
  }

  lemma SwapKeepsRanked<T>(s: seq<Layer<T>>, layers: seq<Layer<T>>, i: nat, j: nat)
    requires Ranked(s, layers) && i < j < |s| && s[i].rank == s[j].rank
    ensures Ranked(s[i := s[j]][j := s[i]], layers)
  {
  }

  /** Two different layers of equal rank stand somewhere in every order. */
  lemma StandSomewhere<T>(s: seq<Layer<T>>, layers: seq<Layer<T>>, x: Layer<T>, y: Layer<T>) returns (i: nat, j: nat)
    requires Ranked(s, layers) && x in layers && y in layers && x != y
    ensures i < j < |s| && ((s[i] == x && s[j] == y) || (s[i] == y && s[j] == x))
  {
    assert x in multiset(s) && y in multiset(s);
    var k :| 0 <= k < |s| && s[k] == x;
    var l :| 0 <= l < |s| && s[l] == y;
    i, j := if k < l then k else l, if k < l then l else k;
  }

  ghost predicate Tied<T>(layers: seq<Layer<T>>, x: Layer<T>, y: Layer<T>) {
    x in layers && y in layers && x.rank == y.rank && x != y
  }

  lemma OrdersDiffer<T>(layers: seq<Layer<T>>, a: seq<Layer<T>>, b: seq<Layer<T>>)
    requires Ranked(a, layers) && Ranked(b, layers) && a != b
    ensures exists x, y :: Tied(layers, x, y)
  {
    if forall x, y :: !Tied(layers, x, y) {
      forall x, y | x in multiset(a) && y in multiset(a) && x.rank == y.rank ensures x == y {
        assert x in multiset(layers) && y in multiset(layers);
        assert !Tied(layers, x, y);
      }
      SortedIsUnique(a, b);
    }
  }

  lemma TwoOrders<T>(layers: seq<Layer<T>>, x: Layer<T>, y: Layer<T>) returns (a: seq<Layer<T>>, b: seq<Layer<T>>)
    requires Tied(layers, x, y)
    ensures Ranked(a, layers) && Ranked(b, layers) && a != b
  {
    hide Ranked;
    a := SomeOrder(layers);
    var i, j := StandSomewhere(a, layers, x, y);
    SwapKeepsRanked(a, layers, i, j);
    b := a[i := a[j]][j := a[i]];
    assert b[i] != a[i];
  }

  /** There is more than one ranked order if and only if two different layers have the same rank. */
  lemma ManyOrdersIff<T>(layers: seq<Layer<T>>)
    ensures (exists a, b :: Ranked(a, layers) && Ranked(b, layers) && a != b) <==> (exists x, y :: Tied(layers, x, y))
  {
    hide Ranked, Tied;
    if a, b :| Ranked(a, layers) && Ranked(b, layers) && a != b {
      OrdersDiffer(layers, a, b);
    }
    if x, y :| Tied(layers, x, y) {
      var a, b := TwoOrders(layers, x, y);
    }
  }

  // ----- what an order shows

  /** What the layers contribute to a list, in order: each one item or none. */
  function Shown<T, K>(layers: seq<Layer<T>>, show: Layer<T> -> seq<K>): seq<K> {
    if layers == [] then [] else show(layers[0]) + Shown(layers[1..], show)
  }

  ghost predicate OneOrNone<T(!new), K>(show: Layer<T> -> seq<K>) {
    forall x :: |show(x)| <= 1
  }

  /** Two layers of equal rank show different items. */
  ghost predicate Differ<T, K>(x: Layer<T>, y: Layer<T>, show: Layer<T> -> seq<K>) {
    x.rank == y.rank && show(x) != [] && show(y) != [] && show(x) != show(y)
  }

  lemma {:induction false} ShownConcat<T, K>(a: seq<Layer<T>>, b: seq<Layer<T>>, show: Layer<T> -> seq<K>)
    ensures Shown(a + b, show) == Shown(a, show) + Shown(b, show)
  {
    if a == [] {
      assert a + b == b;
    } else {
      assert (a + b)[0] == a[0] && (a + b)[1..] == a[1..] + b;
      ShownConcat(a[1..], b, show);
    }
  }

  lemma {:induction false} Commutes<T, K>(layers: seq<Layer<T>>, show: Layer<T> -> seq<K>, item: seq<K>)
    requires |item| <= 1 && forall x :: x in layers ==> show(x) == [] || item == [] || show(x) == item
    ensures Shown(layers, show) + item == item + Shown(layers, show)
  {
    if layers != [] {
      Commutes(layers[1..], show, item);
      var (head, tail) := (show(layers[0]), Shown(layers[1..], show));
      assert (head + tail) + item == head + (tail + item);
      assert head + (item + tail) == (head + item) + tail;
      assert head + item == item + head;
      assert (item + head) + tail == item + (head + tail);
    }
  }

  function Without<T>(s: seq<Layer<T>>, i: nat): (r: seq<Layer<T>>)
    requires i < |s|
    ensures |r| == |s| - 1
  {
    s[..i] + s[i + 1..]
  }

  lemma TakenToFront<T, K>(b: seq<Layer<T>>, i: nat, show: Layer<T> -> seq<K>)
    requires i < |b| && |show(b[i])| <= 1
    requires forall y :: y in b[..i] ==> show(y) == [] || show(b[i]) == [] || show(y) == show(b[i])
    ensures Shown(b, show) == show(b[i]) + Shown(Without(b, i), show)
  {
    var (front, back, item) := (b[..i], b[i + 1..], show(b[i]));
    assert b == front + ([b[i]] + back);
    assert ([b[i]] + back)[1..] == back;
    ShownConcat(front, [b[i]] + back, show);
    ShownConcat(front, back, show);
    Commutes(front, show, item);
    assert Shown(front, show) + (item + Shown(back, show)) == (Shown(front, show) + item) + Shown(back, show);
    assert (item + Shown(front, show)) + Shown(back, show) == item + (Shown(front, show) + Shown(back, show));
  }

  /** When layers of equal rank show the same, every order shows the same. */
  lemma {:induction false} SameShown<T(!new), K>(a: seq<Layer<T>>, b: seq<Layer<T>>, show: Layer<T> -> seq<K>)
    requires Sorted(a) && Sorted(b) && multiset(a) == multiset(b) && OneOrNone(show)
    requires forall x, y :: x in multiset(a) && y in multiset(a) ==> !Differ(x, y, show)
    ensures Shown(a, show) == Shown(b, show)
    decreases |a|
  {
    hide Sorted, Without, Shown;
    assert |a| == |multiset(a)| == |multiset(b)| == |b|;
    if a != [] {
      assert a[0] in multiset(b);
      var i :| 0 <= i < |b| && b[i] == a[0];
      forall y | y in b[..i] ensures show(y) == [] || show(b[i]) == [] || show(y) == show(b[i]) {
        LeastInFront(a, b, i, y);
        assert !Differ(y, a[0], show);
      }
      TakenToFront(b, i, show);
      TakenToFront(a, 0, show);
      LessOne(a, 0);
      LessOne(b, i);
      SameShown(Without(a, 0), Without(b, i), show);
    }
  }

  lemma LeastInFront<T>(a: seq<Layer<T>>, b: seq<Layer<T>>, i: nat, y: Layer<T>)
    requires Sorted(a) && Sorted(b) && multiset(a) == multiset(b) && a != [] && i < |b| && b[i] == a[0] && y in b[..i]
    ensures y.rank == a[0].rank && y in multiset(a)
  {
    assert y in multiset(b);
    var k :| 0 <= k < |a| && a[k] == y;
  }

  lemma LessOne<T>(s: seq<Layer<T>>, i: nat)
    requires Sorted(s) && i < |s|
    ensures Sorted(Without(s, i)) && multiset(Without(s, i)) == multiset(s) - multiset{s[i]}
    ensures forall x :: x in multiset(Without(s, i)) ==> x in multiset(s)
  {
    assert s == s[..i] + [s[i]] + s[i + 1..];
  }

  /** Swapping two layers that show different items changes what is shown. */
  lemma SwapShows<T(!new), K>(s: seq<Layer<T>>, i: nat, j: nat, show: Layer<T> -> seq<K>)
    requires i < j < |s| && OneOrNone(show) && Differ(s[i], s[j], show)
    ensures Shown(s[i := s[j]][j := s[i]], show) != Shown(s, show)
  {
    var (front, mid, back, x, y) := (s[..i], s[i + 1..j], s[j + 1..], s[i], s[j]);
    assert s == front + ([x] + (mid + [y] + back));
    assert s[i := y][j := x] == front + ([y] + (mid + [x] + back));
    ShownConcat(front, [x] + (mid + [y] + back), show);
    ShownConcat(front, [y] + (mid + [x] + back), show);
    var (p, q) := (Shown([x] + (mid + [y] + back), show), Shown([y] + (mid + [x] + back), show));
    assert ([x] + (mid + [y] + back))[1..] == mid + [y] + back;
    assert ([y] + (mid + [x] + back))[1..] == mid + [x] + back;
    assert p == show(x) + Shown(mid + [y] + back, show);
    assert q == show(y) + Shown(mid + [x] + back, show);
    assert p[0] == show(x)[0] != show(y)[0] == q[0];
    assert (Shown(front, show) + p)[|Shown(front, show)|] != (Shown(front, show) + q)[|Shown(front, show)|];
  }

  /** Ranked orders show different lists if and only if two layers of equal rank show different items. */
  lemma ShownVariesIff<T(!new), K>(layers: seq<Layer<T>>, show: Layer<T> -> seq<K>)
    requires OneOrNone(show)
    ensures (exists a, b :: Ranked(a, layers) && Ranked(b, layers) && Shown(a, show) != Shown(b, show))
       <==> (exists x, y :: x in layers && y in layers && Differ(x, y, show))
  {
    hide Shown, Sorted, OneOrNone;
    if a, b :| Ranked(a, layers) && Ranked(b, layers) && Shown(a, show) != Shown(b, show) {
      if forall x, y :: x in layers && y in layers ==> !Differ(x, y, show) {
        assert forall x :: x in multiset(layers) <==> x in layers;
        SameShown(a, b, show);
      }
    }
    if x, y :| x in layers && y in layers && Differ(x, y, show) {
      var s := SomeOrder(layers);
      var i, j := StandSomewhere(s, layers, x, y);
      SwapKeepsRanked(s, layers, i, j);
      SwapShows(s, i, j, show);
    }
  }

  // ----- the sources and the errors of an outcome

  function NameIfFound<T>(getenv: Getenv): Layer<T> -> seq<string> {
    (layer: Layer<T>) => if layer.load(getenv).Value? then [layer.name] else []
  }

  function ErrorIfBroken<T>(getenv: Getenv): Layer<T> -> seq<ProviderError> {
    (layer: Layer<T>) => if layer.load(getenv).Failed? then [ProviderError(layer.name, layer.load(getenv).error)]
      else []
  }

  lemma {:induction false} OutcomeShows<T>(order: seq<Layer<T>>, merge: (T, T) -> T, zero: T, getenv: Getenv)
    ensures Outcome(order, merge, zero, getenv).sources == Reversed(Shown(order, NameIfFound(getenv)))
    ensures Outcome(order, merge, zero, getenv).errors == Shown(order, ErrorIfBroken(getenv))
  {
    NamesOfFound(order, getenv);
    BrokenShows(order, getenv);
  }

  lemma {:induction false} NamesOfFound<T>(order: seq<Layer<T>>, getenv: Getenv)
    ensures Names(Found(order, getenv)) == Shown(order, NameIfFound(getenv))
  {
    if order != [] {
      NamesOfFound(order[1..], getenv);
      var found := Found(order[1..], getenv);
      if order[0].load(getenv).Value? {
        assert Names([order[0]] + found) == [order[0].name] + Names(found);
      } else {
        assert [] + found == found;
      }
    }
  }

  lemma {:induction false} BrokenShows<T>(order: seq<Layer<T>>, getenv: Getenv)
    ensures Broken(order, getenv) == Shown(order, ErrorIfBroken(getenv))
  {
    if order != [] {
      BrokenShows(order[1..], getenv);
    }
  }

  lemma ReversedDiffer(a: seq<string>, b: seq<string>)
    requires a != b
    ensures Reversed(a) != Reversed(b)
  {
    if |a| == |b| {
      var k :| 0 <= k < |a| && a[k] != b[k];
      assert Reversed(a)[|a| - 1 - k] != Reversed(b)[|a| - 1 - k];
    }
  }

  /** The reported sources depend on the order of ties if and only if two layers of equal rank that are
      found have different names; and the errors, if and only if two of equal rank that fail differ in
      name or error. */
  lemma ReportVariesIff<T(!new)>(layers: seq<Layer<T>>, merge: (T, T) -> T, zero: T, getenv: Getenv)
    ensures (exists a, b :: Ranked(a, layers) && Ranked(b, layers)
                            && Outcome(a, merge, zero, getenv).sources != Outcome(b, merge, zero, getenv).sources)
       <==> (exists x, y :: x in layers && y in layers && Differ(x, y, NameIfFound(getenv)))
    ensures (exists a, b :: Ranked(a, layers) && Ranked(b, layers)
                            && Outcome(a, merge, zero, getenv).errors != Outcome(b, merge, zero, getenv).errors)
       <==> (exists x, y :: x in layers && y in layers && Differ(x, y, ErrorIfBroken(getenv)))
  {
    hide Outcome, Ranked, Shown, Differ;
    var (names, errors) := (NameIfFound<T>(getenv), ErrorIfBroken<T>(getenv));
    ShownVariesIff(layers, names);
    ShownVariesIff(layers, errors);
    forall order ensures Outcome(order, merge, zero, getenv).sources == Reversed(Shown(order, names))
                 ensures Outcome(order, merge, zero, getenv).errors == Shown(order, errors)
    {
      OutcomeShows(order, merge, zero, getenv);
    }
    forall a, b | Shown<T, string>(a, names) != Shown(b, names)
      ensures Reversed(Shown(a, names)) != Reversed(Shown(b, names)) {
      ReversedDiffer(Shown(a, names), Shown(b, names));
    }
  }

  // ----- the value

  function ValueIfFound<T>(getenv: Getenv): Layer<T> -> seq<T> {
    (layer: Layer<T>) => if layer.load(getenv).Value? then [layer.load(getenv).value] else []
  }

  lemma {:induction false} ValuesOfFound<T>(order: seq<Layer<T>>, getenv: Getenv)
    ensures forall i :: 0 <= i < |Found(order, getenv)| ==> Found(order, getenv)[i].load(getenv).Value?
    ensures Values(Found(order, getenv), getenv) == Shown(order, ValueIfFound(getenv))
  {
    FoundHoldValues(order, getenv);
    if order != [] {
      ValuesOfFound(order[1..], getenv);
      var found := Found(order[1..], getenv);
      if order[0].load(getenv).Value? {
        assert Values([order[0]] + found, getenv) == [order[0].load(getenv).value] + Values(found, getenv);
      } else {
        assert [] + found == found;
      }
    }
  }

  /** Whatever the merge, the value does not depend on how ties fall when layers of equal rank that are
      found have equal values. */
  lemma ValueIsFixed<T(!new)>(layers: seq<Layer<T>>, a: seq<Layer<T>>, b: seq<Layer<T>>, merge: (T, T) -> T, zero: T,
                              getenv: Getenv)
    requires Ranked(a, layers) && Ranked(b, layers)
    requires forall x, y :: x in layers && y in layers ==> !Differ(x, y, ValueIfFound(getenv))
    ensures Outcome(a, merge, zero, getenv).value == Outcome(b, merge, zero, getenv).value
  {
    hide Ranked, Differ, Shown, Found, Broken;
    ShownVariesIff(layers, ValueIfFound(getenv));
    ValuesOfFound(a, getenv);
    ValuesOfFound(b, getenv);
  }
}
