/** AtomicWriteFile of the jailed filesystem: the open resolver followed by atomicWriteFile. */
module AtomicInJail {
  import opened Paths
  import opened Os
  import opened Syscalls
  import opened Resolvers
  import opened Confinement
  import opened AtomicWrite
  import opened AtomicEffects
  import opened ReadAfterWrite

  /** What making the target's directory does, for the paths the open resolver returns. */
  ghost predicate Prepared(t: Tree, h: Path, j: Path, d: Done) {
    && IsTree(d.t) && AddsDirs(t, d.t) && (d.Err? ==> d.t == t)
    && (h in d.t ==> h in t && !t[h].Link?)
    && (d.Ok? ==> Up(h) in d.t && d.t[Up(h)].Dir?)
    && (j < h ==> OnlyBelow(t, d.t, j))
  }

  lemma PlainIsPrepared(t: Tree, h: Path, c: Path, missing: seq<string>, j: Path, limit: nat)
    requires IsTree(t) && Plain(t, h, c, missing) && j <= c
    ensures h != [] && Prepared(t, h, j, MkdirAll(t, Up(h), limit))
  {
    var front := missing[..|missing| - 1];
    assert Up(h) == c + front;
    MkdirAllAddsDirs(t, Up(h), limit);
    MkdirAllBelow(t, c, front, limit);
    NodesResolve(t, c, limit, true);
    var d := MkdirAll(t, Up(h), limit);
    if front == [] {
      assert Up(h) == c;
    } else {
      assert front[0] == missing[0];
      PlainMakesAll(t, c, front, limit);
      if h in t { PrefixesAreDirs(t, h, |c| + 1); assert h[..|c| + 1] == c + [missing[0]]; }
    }
    assert !(h <= c + front);
  }

  /** Making new directories fails only before the first one, because their place is a file. */
  lemma {:induction false} PlainMakesAll(t: Tree, c: Path, rest: seq<string>, limit: nat)
    requires IsTree(t) && c in t && !t[c].Link? && Names(rest) && (rest != [] ==> c + [rest[0]] !in t)
    ensures var d := MkdirAll(t, c + rest, limit); d.Err? ==> d.t == t
    decreases |rest|
  {
    hide Walk, IsTree;
    NodesResolve(t, c, limit, true);
    if rest == [] {
      assert c + rest == c;
    } else {
      var p := c + rest;
      var front, last := rest[..|rest| - 1], rest[|rest| - 1];
      assert Up(p) == c + front && p == (c + front) + [last];
      FreshDoesNotResolve(t, c, rest, limit);
      PlainMakesAll(t, c, front, limit);
      MkdirAllBelow(t, c, front, limit);
      NothingThere(t, c, rest);
      var above := MkdirAll(t, Up(p), limit);
      if above.Ok? {
        assert p !in above.t by { assert |p| > |c + front|; }
        InDirectory(above.t, c + front, last, limit);
      }
    }
  }

  lemma NothingThere(t: Tree, c: Path, rest: seq<string>)
    requires IsTree(t) && rest != [] && c + [rest[0]] !in t
    ensures c + rest !in t
  {
    assert (c + rest)[..|c| + 1] == c + [rest[0]];
    if c + rest in t { PrefixesAreDirs(t, c + rest, |c| + 1); }
  }

  lemma LinkedIsPrepared(t: Tree, h: Path, j: Path, limit: nat)
    requires IsTree(t) && h in t && !t[h].Link? && h != []
    ensures MkdirAll(t, Up(h), limit) == Ok(t) && Prepared(t, h, j, Ok(t))
  {
    assert Up(h) in t && t[Up(h)].Dir?;
    NodesResolve(t, Up(h), limit, true);
  }

  lemma DanglingIsPrepared(t: Tree, cur: Path, missing: seq<string>, j: Path, limit: nat)
    requires IsTree(t) && Located(t, cur, missing, limit) && !Walk(t, [], cur, limit, true).At?
    ensures MkdirAll(t, Up(cur + missing), limit).Err?
        && Prepared(t, cur + missing, j, MkdirAll(t, Up(cur + missing), limit))
  {
    var front := missing[..|missing| - 1];
    assert Up(cur + missing) == cur + front;
    MkdirAllDangling(t, cur, front, limit);
    BelowDangling(t, cur, missing, limit, false);
    if cur + missing in t { NodesResolve(t, cur + missing, limit, false); }
  }

  lemma OpenIsPrepared(t: Tree, j: Path, v: Path, limit: nat)
    requires IsTree(t) && Names(j) && Names(v) && v != [] && ForOpen(t, j, v, limit).Good?
    requires ForOpen(t, j, v, limit).value != []
    ensures var h := ForOpen(t, j, v, limit).value;
            && Names(h) && CanonicalJail(t, j, limit) <= h
            && Prepared(t, h, CanonicalJail(t, j, limit), MkdirAll(t, Up(h), limit))
  {
    var h := ForOpen(t, j, v, limit).value;
    var cj := CanonicalJail(t, j, limit);
    var cur, missing := OpenShapes(t, j, v, limit);
    var r := Walk(t, [], cur, limit, true);
    hide ForOpen, CanonicalJail, MkdirAll;
    if !r.At? {
      DanglingIsPrepared(t, cur, missing, cj, limit);
      assert h == j + v;
    } else if Plain(t, h, r.path, missing) {
      PlainIsPrepared(t, h, r.path, missing, cj, limit);
      PrefixesAreDirs(t, r.path, |r.path|);
    } else {
      LinkedIsPrepared(t, h, cj, limit);
      PrefixesAreDirs(t, h, |h|);
    }
  }

  /** The open resolver gives a clean path, for the root too. */
  lemma OpenIsClean(t: Tree, j: Path, v: Path, limit: nat)
    requires IsTree(t) && Names(j) && Names(v) && ForOpen(t, j, v, limit).Good?
    ensures Names(ForOpen(t, j, v, limit).value)
  {
    if v != [] && ForOpen(t, j, v, limit).value != [] {
      OpenIsPrepared(t, j, v, limit);
    } else if v == [] {
      var r := Walk(t, [], j, limit, true);
      WalkEnds(t, [], j, limit, true);
      if r.At? { PrefixesAreDirs(t, r.path, |r.path|); }
    }
  }

  /** In a jail the target is the path that the open resolver gives: no link is in its last place. */
  lemma OpenIsTarget(t: Tree, j: Path, v: Path, limit: nat)
    requires IsTree(t) && Names(j) && Names(v) && v != [] && ForOpen(t, j, v, limit).Good?
    requires ForOpen(t, j, v, limit).value != []
    ensures var h := ForOpen(t, j, v, limit).value;
            && (h in t ==> !t[h].Link?)
            && (MkdirAll(t, Up(h), limit).Ok? ==> Target(t, h, limit) == h)
  {
    var h := ForOpen(t, j, v, limit).value;
    OpenIsPrepared(t, j, v, limit);
    MkdirAllAddsDirs(t, Up(h), limit);
    hide MkdirAll, ForOpen;
    if MkdirAll(t, Up(h), limit).Ok? { PlainPathIsTarget(t, h, limit); }
  }

  /** Atomicity. In every state a run passes through, at every point of failure, the target is what
      it was before or holds all of the data. */
  lemma TargetIsOldOrNew(t: Tree, u: Tree, j: Path, v: Path, suffix: string, data: seq<int>, limit: nat)
    requires IsTree(t) && Names(j) && Names(v) && v != [] && ForOpen(t, j, v, limit).Good?
    requires ForOpen(t, j, v, limit).value != []
    requires StepState(t, u, ForOpen(t, j, v, limit).value, suffix, data, limit)
    ensures var h := ForOpen(t, j, v, limit).value;
            || ((h in u <==> h in t) && (h in t && h in u ==> u[h] == t[h]))
            || (h in u && u[h] == File(data))
  {
    OpenIsPrepared(t, j, v, limit);
    OpenIsTarget(t, j, v, limit);
    TempIsNotTarget(ForOpen(t, j, v, limit).value, suffix);
    hide MkdirAll, ForOpen, Landing;
  }

  /** In a jail no state of a run has lost a link: what a link leads to is replaced, never the link. */
  lemma LinksSurvive(t: Tree, u: Tree, j: Path, v: Path, suffix: string, data: seq<int>, limit: nat)
    requires IsTree(t) && Names(j) && Names(v) && v != [] && ForOpen(t, j, v, limit).Good?
    requires ForOpen(t, j, v, limit).value != []
    requires StepState(t, u, ForOpen(t, j, v, limit).value, suffix, data, limit)
    ensures forall p :: p in t && t[p].Link? ==> p in u && u[p] == t[p]
  {
    var h := ForOpen(t, j, v, limit).value;
    OpenIsTarget(t, j, v, limit);
    MkdirAllAddsDirs(t, Up(h), limit);
    hide MkdirAll, ForOpen, Landing;
    if MkdirAll(t, Up(h), limit).Ok? { StepTouchesTargetOnly(t, u, h, suffix, data, limit); }
  }

  /** Every state of a run is confined to the canonical jail exactly when the path does not lead to
      the jail's own root. There the temporary file is made beside the jail, if its name is free. */
  lemma StepsAreConfinedUnlessRoot(t: Tree, j: Path, v: Path, suffix: string, data: seq<int>, limit: nat)
    requires IsTree(t) && Names(j) && Names(v) && v != [] && ForOpen(t, j, v, limit).Good?
    requires ForOpen(t, j, v, limit).value != []
    ensures var h := ForOpen(t, j, v, limit).value;
            var cj := CanonicalJail(t, j, limit);
            (forall u :: StepState(t, u, h, suffix, data, limit) ==> OnlyBelow(t, u, cj))
            <==> h != cj || TempPath(h, suffix) in t
  {
    var h := ForOpen(t, j, v, limit).value;
    var cj := CanonicalJail(t, j, limit);
    OpenIsPrepared(t, j, v, limit);
    OpenIsTarget(t, j, v, limit);
    if h != cj {
      assert cj < h by { assert |cj| == |h| ==> cj == h; }
      forall u | StepState(t, u, h, suffix, data, limit) ensures OnlyBelow(t, u, cj) {
        StepIsConfined(t, u, h, cj, suffix, data, limit);
      }
    } else {
      RootIsADirectory(t, j, v, limit);
      hide ForOpen, CanonicalJail, Walk, IsTree;
      TempBesideDirectory(t, h, suffix, data, limit);
    }
  }

  /** An atomic write whose target is a directory never replaces it, but it makes its temporary file. */
  lemma TempBesideDirectory(t: Tree, h: Path, suffix: string, data: seq<int>, limit: nat)
    requires IsTree(t) && h != [] && h in t && t[h].Dir?
    ensures var tmp := TempPath(h, suffix);
            && !(h < tmp)
            && (forall u :: StepState(t, u, h, suffix, data, limit) ==>
                  u == t || (tmp !in t && exists k :: 0 <= k <= |data| && u == t[tmp := File(data[..k])]))
            && (tmp !in t ==> StepState(t, t[tmp := File(data[..0])], h, suffix, data, limit))
    ensures (forall u :: StepState(t, u, h, suffix, data, limit) ==> OnlyBelow(t, u, h)) <==> TempPath(h, suffix) in t
  {
    var tmp := TempPath(h, suffix);
    assert |tmp| == |h|;
    LinkedIsPrepared(t, h, [], limit);
    PlainPathIsTarget(t, h, limit);
    hide MkdirAll, Landing, Prepared, IsTree;
    var u := t[tmp := File(data[..0])];
    if tmp !in t {
      Witnesses(t, h, suffix, data, 0);
      assert StepState(t, u, h, suffix, data, limit) && tmp in u && !(h < tmp);
    }
  }

  lemma StepIsConfined(t: Tree, u: Tree, h: Path, j: Path, suffix: string, data: seq<int>, limit: nat)
    requires IsTree(t) && h != [] && j < h && Prepared(t, h, j, MkdirAll(t, Up(h), limit))
        && StepState(t, u, h, suffix, data, limit)
    requires MkdirAll(t, Up(h), limit).Ok? ==> Target(t, h, limit) == h
    ensures OnlyBelow(t, u, j)
  {
    hide MkdirAll, Landing;
    var tmp := TempPath(h, suffix);
    assert j <= Up(h);
    assert j < tmp;
  }

  /** If a path below the root resolves to the jail's own root, the root is a directory. */
  lemma RootIsADirectory(t: Tree, j: Path, v: Path, limit: nat)
    requires IsTree(t) && Names(j) && Names(v) && v != [] && ForOpen(t, j, v, limit) == Good(CanonicalJail(t, j, limit))
    ensures CanonicalJail(t, j, limit) in t && t[CanonicalJail(t, j, limit)].Dir?
  {
    var cj := CanonicalJail(t, j, limit);
    var cur, missing := OpenShapes(t, j, v, limit);
    var r := Walk(t, [], cur, limit, true);
    assert |cur + missing| > |cur|;
    if r.At? && !Plain(t, cj, r.path, missing) { AncestorsAreDirs(t, cj, r.path + missing); }
  }

  lemma WrittenIsBelow(t: Tree, u: Tree, j: Path, v: Path, data: seq<int>, limit: nat)
    requires IsTree(t) && Names(j) && Names(v) && v != [] && ForOpen(t, j, v, limit).Good?
        && ForOpen(t, j, v, limit).value != []
    requires WrittenAt(t, u, ForOpen(t, j, v, limit).value, data, limit)
    ensures CanonicalJail(t, j, limit) < ForOpen(t, j, v, limit).value
  {
    var h := ForOpen(t, j, v, limit).value;
    var cj := CanonicalJail(t, j, limit);
    OpenIsPrepared(t, j, v, limit);
    OpenIsTarget(t, j, v, limit);
    assert |h| == |cj| ==> cj == h;
    if cj == h {
      RootIsADirectory(t, j, v, limit);
      LinkedIsPrepared(t, h, cj, limit);
    }
  }

  /** The tree after a completed write in a jail: the new directories and the data at the path. */
  lemma WrittenInJail(t: Tree, u: Tree, j: Path, v: Path, data: seq<int>, limit: nat)
    requires IsTree(t) && Names(j) && Names(v) && v != [] && ForOpen(t, j, v, limit).Good?
        && ForOpen(t, j, v, limit).value != []
    requires WrittenAt(t, u, ForOpen(t, j, v, limit).value, data, limit)
    ensures var h := ForOpen(t, j, v, limit).value;
            IsTree(u) && h in u && u[h] == File(data) && Extends(t, u) && MkdirAll(t, Up(h), limit).Ok?
  {
    var h := ForOpen(t, j, v, limit).value;
    OpenIsPrepared(t, j, v, limit);
    OpenIsTarget(t, j, v, limit);
    hide ForOpen, Walk, Landing;
    MkdirAllAddsDirs(t, Up(h), limit);
    hide MkdirAll;
    assert IsName(h[|h| - 1]);
    PutKeepsTree(MkdirAll(t, Up(h), limit).t, h, File(data));
  }

  /** Read after AtomicWriteFile: the same answer as after WriteFile. */
  lemma ReadAfterAtomicWrite(t: Tree, u: Tree, j: Path, v: Path, data: seq<int>, limit: nat)
    requires IsTree(t) && Names(j) && Names(v) && v != [] && ForOpen(t, j, v, limit).Good?
        && ForOpen(t, j, v, limit).value != []
    requires WrittenAt(t, u, ForOpen(t, j, v, limit).value, data, limit)
    ensures IsTree(u) && CanonicalJail(t, j, limit) < ForOpen(t, j, v, limit).value
    ensures JailRead(u, j, v, limit) == ReadBack(t, j, v, data, limit)
  {
    hide ForOpen, CanonicalJail, MkdirAll, Walk, JailRead, ReadBack, IsTree, WrittenAt;
    WrittenIsBelow(t, u, j, v, data, limit);
    WrittenInJail(t, u, j, v, data, limit);
    var cur, missing := OpenShapes(t, j, v, limit);
    if !Walk(t, [], cur, limit, true).At? { DanglingIsPrepared(t, cur, missing, [], limit); }
    PlacedDataIsRead(t, u, j, v, data, limit, cur, missing);
  }

  /** A link in the jail to the jail's root: an atomic write through it makes its temporary file next to
      the jail. */
  lemma TempBesideJail(jail: string, l: string, suffix: string, data: seq<int>, limit: nat)
    requires IsName(jail) && IsName(l) && !StartsDotDot(l) && limit > 0
    ensures var t := LoopedJail(jail, l);
            var tmp := [TempName(jail, suffix)];
            && IsTree(t) && CanonicalJail(t, [jail], limit) == [jail] && ForOpen(t, [jail], [l], limit) == Good([jail])
            && StepState(t, t[tmp := File([])], [jail], suffix, data, limit)
            && !OnlyBelow(t, t[tmp := File([])], [jail])
  {
    var t := LoopedJail(jail, l);
    LoopedLinkOpens(jail, l, limit);
    hide ForOpen, CanonicalJail, StepState, Walk;
    assert [jail] in t && t[[jail]].Dir?;
    TempBesideDirectory(t, [jail], suffix, data, limit);
    assert TempPath([jail], suffix) == [TempName(jail, suffix)] && data[..0] == [];
    assert [TempName(jail, suffix)][0] != jail;
  }

  lemma LoopedLinkOpens(jail: string, l: string, limit: nat)
    requires IsName(jail) && IsName(l) && !StartsDotDot(l) && limit > 0
    ensures var t := LoopedJail(jail, l);
            IsTree(t) && CanonicalJail(t, [jail], limit) == [jail] && ForOpen(t, [jail], [l], limit) == Good([jail])
  {
    var t := LoopedJail(jail, l);
    LoopedJailResolves(jail, l, limit);
    NodesResolve(t, [jail], limit, false);
    InJailMeansUnder([jail], [jail, l]);
    InJailMeansUnder([jail], [jail]);
    var (j, v) := ([jail], [l]);
    assert j + v == [jail, l] && Up(j + v) == [jail];
    hide IsInJail, Walk;
    assert Ancestor(t, [jail], v, limit) == Good(([jail], v));
    assert ForCreate(t, j, v, limit) == Good([jail, l]);
  }
}
