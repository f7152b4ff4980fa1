/** The mutators of the jailed filesystem, as functions of the tree, and the proof that none of
    them changes anything outside the canonical jail. */
module Confinement {
  import opened Paths
  import opened Os
  import opened Syscalls
  import opened Resolvers

  // ----- the mutators, on virtual paths in jail j

  function JailMkdir(t: Tree, j: Path, v: Path, all: bool, limit: nat): Done
    requires IsTree(t)
  {
    match ForCreate(t, j, v, limit)
    case Bad(e) => Err(t, e)
    case Good(h) => if all then MkdirAll(t, h, limit) else Mkdir(t, h, limit)
  }

  function JailRemove(t: Tree, j: Path, v: Path, all: bool, limit: nat): Done
    requires IsTree(t)
  {
    match ForCreate(t, j, v, limit)
    case Bad(e) => Err(t, e)
    case Good(h) => if all then RemoveAll(t, h, limit) else Remove(t, h, limit)
  }

  function JailWrite(t: Tree, j: Path, v: Path, data: seq<int>, limit: nat): Done
    requires IsTree(t)
  {
    match ForOpen(t, j, v, limit)
    case Bad(e) => Err(t, e)
    case Good(h) => WriteFile(t, h, data, limit)
  }

  function JailRename(t: Tree, j: Path, v: Path, w: Path, limit: nat): Done
    requires IsTree(t)
  {
    match ForCreate(t, j, v, limit)
    case Bad(e) => Err(t, e)
    case Good(src) =>
      match ForCreate(t, j, w, limit)
      case Bad(e) => Err(t, e)
      case Good(dst) => Rename(t, src, dst, limit)
  }

  /** The link's text is the host path of its virtual target. */
  function JailSymlink(t: Tree, j: Path, target: Path, v: Path, limit: nat): Done
    requires IsTree(t)
  {
    if Lexical(j, target).Bad? then Err(t, Escape)
    else
      match ForCreate(t, j, v, limit)
      case Bad(e) => Err(t, e)
      case Good(h) => Create(t, h, Link(Raw(true, j + target)), limit)
  }

  // ----- confinement

  /** t and u agree everywhere but strictly below j. */
  ghost predicate OnlyBelow(t: Tree, u: Tree, j: Path) {
    forall p :: !(j < p) ==> (p in t <==> p in u) && (p in t && p in u ==> t[p] == u[p])
  }

  lemma OnlyBelowWider(t: Tree, u: Tree, j: Path, c: Path)
    requires OnlyBelow(t, u, c) && j <= c
    ensures OnlyBelow(t, u, j)
  {
  }

  /** A new node where the path leads, if it leads below j. */
  lemma CreateBelow(t: Tree, j: Path, h: Path, node: Node, limit: nat)
    requires IsTree(t) && Below(j, Walk(t, [], h, limit, false))
    ensures IsTree(Create(t, h, node, limit).t) && OnlyBelow(t, Create(t, h, node, limit).t, j)
  {
    CreateKeepsTree(t, h, node, limit);
  }

  lemma WithoutBelow(t: Tree, j: Path, q: Path)
    requires j < q
    ensures OnlyBelow(t, Without(t, q), j)
  {
  }

  lemma MovedBelow(t: Tree, j: Path, from: Path, to: Path)
    requires j < from && j < to
    ensures OnlyBelow(t, Moved(t, from, to), j)
  {
    var u := Moved(t, from, to);
    assert forall o :: from <= o ==> to <= NewPlace(o, from, to);
    forall p | !(j < p) ensures (p in t <==> p in u) && (p in t && p in u ==> t[p] == u[p]) {
      assert !(from <= p) && !(to <= p);
    }
  }

  /** What MkdirAll adds are directories, and it takes nothing away. */
  ghost predicate AddsDirs(t: Tree, u: Tree) {
    (forall p :: p in t ==> p in u && u[p] == t[p]) && (forall p :: p in u && p !in t ==> u[p].Dir?)
  }

  lemma {:induction false} MkdirAllAddsDirs(t: Tree, p: Path, limit: nat)
    requires IsTree(t)
    ensures AddsDirs(t, MkdirAll(t, p, limit).t)
    decreases |p|
  {
    if p != [] && Stat(t, p, limit).Bad? {
      MkdirAllAddsDirs(t, Up(p), limit);
      WalkEnds(MkdirAll(t, Up(p), limit).t, [], p, limit, false);
    }
  }

  /** MkdirAll of names below a directory c changes only what is below c, if the first of them is
      new; and then it makes them all, and nothing else. */
  lemma {:induction false} MkdirAllBelow(t: Tree, c: Path, rest: seq<string>, limit: nat)
    requires IsTree(t) && c in t && !t[c].Link? && Names(rest) && (|rest| > 1 ==> c + [rest[0]] !in t)
    ensures var d := MkdirAll(t, c + rest, limit);
            && OnlyBelow(t, d.t, c)
            && (forall p :: p in d.t && p !in t ==> p <= c + rest)
            && (d.Ok? && (rest == [] || c + [rest[0]] !in t) ==> c + rest in d.t && d.t[c + rest].Dir?)
    decreases |rest|
  {
    var p := c + rest;
    NodesResolve(t, c, limit, true);
    if rest == [] {
      assert p == c;
    } else {
      var front := rest[..|rest| - 1];
      var last := rest[|rest| - 1];
      assert Up(p) == c + front && p == (c + front) + [last] && IsName(last);
      if Stat(t, p, limit).Bad? {
        MkdirAllBelow(t, c, front, limit);
        var above := MkdirAll(t, Up(p), limit);
        if above.Ok? { MkdirLast(t, above.t, c, front, last, limit); }
      } else if c + [rest[0]] !in t {
        FreshDoesNotResolve(t, c, rest, limit);
      }
    }
  }

  /** The last step of MkdirAll: its parent is there. */
  lemma MkdirLast(t: Tree, u: Tree, c: Path, front: seq<string>, last: string, limit: nat)
    requires IsTree(u) && OnlyBelow(t, u, c) && c + front in u && u[c + front].Dir? && IsName(last)
    ensures OnlyBelow(t, Mkdir(u, (c + front) + [last], limit).t, c)
    ensures forall p :: p in Mkdir(u, (c + front) + [last], limit).t && p !in u ==> p == (c + front) + [last]
    ensures var d := Mkdir(u, (c + front) + [last], limit);
            (d.Ok? || Lstat(u, (c + front) + [last], limit) == Good(Dir)) ==>
              (c + front) + [last] in d.t && d.t[(c + front) + [last]].Dir?
  {
    WalkSplits(u, [], c + front, [last], limit, false);
    NodesResolve(u, c + front, limit, true);
    LastStep(u, c + front, last, limit, false);
    assert c < (c + front) + [last];
  }

  lemma FreshDoesNotResolve(t: Tree, c: Path, rest: seq<string>, limit: nat)
    requires IsTree(t) && c in t && !t[c].Link? && Names(rest) && rest != [] && c + [rest[0]] !in t
    ensures Stat(t, c + rest, limit).Bad?
  {
    WalkSplits(t, [], c, rest, limit, true);
    NodesResolve(t, c, limit, true);
    assert IsName(rest[0]);
  }

  /** MkdirAll through a dangling link makes nothing. */
  lemma {:induction false} MkdirAllDangling(t: Tree, cur: Path, missing: seq<string>, limit: nat)
    requires IsTree(t) && Lstat(t, cur, limit).Good? && !Walk(t, [], cur, limit, true).At?
    ensures MkdirAll(t, cur + missing, limit).Err? && MkdirAll(t, cur + missing, limit).t == t
    decreases |missing|
  {
    if missing == [] {
      assert cur + missing == cur;
      WalkEnds(t, [], cur, limit, false);
      FollowOnlyMattersAtLinks(t, [], cur, limit);
      assert cur != [];
      assert cur == Up(cur) + [cur[|cur| - 1]];
      WalkSplits(t, [], Up(cur), [cur[|cur| - 1]], limit, false);
      WalkEnds(t, [], Up(cur), limit, true);
    } else {
      BelowDangling(t, cur, missing, limit, true);
      assert Up(cur + missing) == cur + missing[..|missing| - 1];
      MkdirAllDangling(t, cur, missing[..|missing| - 1], limit);
    }
  }

  // ----- no mutator reaches outside the jail

  ghost predicate Confined(t: Tree, d: Done, j: Path) {
    IsTree(d.t) && OnlyBelow(t, d.t, j)
  }

  lemma MkdirIsConfined(t: Tree, j: Path, v: Path, all: bool, limit: nat)
    requires IsTree(t) && Names(j) && Names(v) && v != []
    ensures Confined(t, JailMkdir(t, j, v, all, limit), CanonicalJail(t, j, limit))
  {
    var cj := CanonicalJail(t, j, limit);
    if ForCreate(t, j, v, limit).Good? {
      var cur, missing := CreateParts(t, j, v, limit);
      CreateIsContained(t, j, v, limit);
      var h := ForCreate(t, j, v, limit).value;
      if !all {
        CreateBelow(t, cj, h, Dir, limit);
      } else if Walk(t, [], cur, limit, true).At? {
        BelowCanonical(t, cur, missing, limit);
        var c := Walk(t, [], cur, limit, true).path;
        MkdirAllBelow(t, c, missing, limit);
        OnlyBelowWider(t, MkdirAll(t, h, limit).t, cj, c);
      } else {
        MkdirAllDangling(t, cur, missing, limit);
      }
    }
  }

  lemma RemoveIsConfined(t: Tree, j: Path, v: Path, all: bool, limit: nat)
    requires IsTree(t) && Names(j) && Names(v) && v != []
    ensures Confined(t, JailRemove(t, j, v, all, limit), CanonicalJail(t, j, limit))
  {
    if ForCreate(t, j, v, limit).Good? {
      CreateIsContained(t, j, v, limit);
      var r := Walk(t, [], ForCreate(t, j, v, limit).value, limit, false);
      if r.At? && r.path != [] {
        WithoutKeepsTree(t, r.path);
        WithoutBelow(t, CanonicalJail(t, j, limit), r.path);
      }
    }
  }

  lemma SymlinkIsConfined(t: Tree, j: Path, target: Path, v: Path, limit: nat)
    requires IsTree(t) && Names(j) && Names(v) && v != []
    ensures Confined(t, JailSymlink(t, j, target, v, limit), CanonicalJail(t, j, limit))
  {
    if ForCreate(t, j, v, limit).Good? {
      CreateIsContained(t, j, v, limit);
      CreateBelow(t, CanonicalJail(t, j, limit), ForCreate(t, j, v, limit).value, Link(Raw(true, j + target)), limit);
    }
  }

  lemma RenameIsConfined(t: Tree, j: Path, v: Path, w: Path, limit: nat)
    requires IsTree(t) && Names(j) && Names(v) && Names(w) && v != [] && w != []
    ensures Confined(t, JailRename(t, j, v, w, limit), CanonicalJail(t, j, limit))
  {
    if ForCreate(t, j, v, limit).Good? && ForCreate(t, j, w, limit).Good? {
      CreateIsContained(t, j, v, limit);
      CreateIsContained(t, j, w, limit);
      RenameBelow(t, ForCreate(t, j, v, limit).value, ForCreate(t, j, w, limit).value, limit,
        CanonicalJail(t, j, limit));
    }
  }

  lemma RenameBelow(t: Tree, src: Path, dst: Path, limit: nat, j: Path)
    requires IsTree(t) && Below(j, Walk(t, [], src, limit, false)) && Below(j, Walk(t, [], dst, limit, false))
    ensures Confined(t, Rename(t, src, dst, limit), j)
  {
    var a := Walk(t, [], src, limit, false);
    var b := Walk(t, [], dst, limit, false);
    WalkEnds(t, [], src, limit, false);
    WalkEnds(t, [], dst, limit, false);
    if a.At? && !b.Fail? && Rename(t, src, dst, limit).Ok? && !(b.At? && a.path == b.path) {
      if b.At? {
        PrefixesAreDirs(t, b.path, |b.path| - 1);
        if a.path <= b.path { LeavesHaveNoChildren(t, a.path, b.path); }
        PrefixesAreDirs(t, b.path, |b.path|);
        assert Up(b.path) in t;
      }
      MovedKeepsTree(t, a.path, b.path);
      MovedBelow(t, j, a.path, b.path);
    }
  }

  /** Where the open resolver's path leads, an existing file is strictly below the jail too. */
  lemma OpenedFileIsBelow(t: Tree, j: Path, v: Path, limit: nat)
    requires IsTree(t) && Names(j) && Names(v) && v != [] && ForOpen(t, j, v, limit).Good?
    ensures var r := Walk(t, [], ForOpen(t, j, v, limit).value, limit, true);
            r.At? && r.path in t && !t[r.path].Dir? ==> CanonicalJail(t, j, limit) < r.path
  {
    OpenIsContained(t, j, v, limit);
    CreateIsContained(t, j, v, limit);
    var cj := CanonicalJail(t, j, limit);
    var host := ForCreate(t, j, v, limit).value;
    var r := Walk(t, [], host, limit, false);
    WalkEnds(t, [], host, limit, false);
    hide ForCreate, CanonicalJail;
    if r.At? && t[r.path].Link? {
      AncestorsAreDirs(t, cj, r.path);
      var q := Walk(t, [], ForOpen(t, j, v, limit).value, limit, true);
      if q.At? { assert |q.path| == |cj| ==> q.path == cj; }
    } else {
      FollowOnlyMattersAtLinks(t, [], host, limit);
    }
  }

  lemma AncestorsAreDirs(t: Tree, a: Path, p: Path)
    requires IsTree(t) && p in t && a < p
    ensures a in t && t[a].Dir?
  {
    PrefixesAreDirs(t, p, |a|);
    assert p[..|a|] == a;
  }

  lemma WriteIsConfined(t: Tree, j: Path, v: Path, data: seq<int>, limit: nat)
    requires IsTree(t) && Names(j) && Names(v) && v != []
    ensures Confined(t, JailWrite(t, j, v, data, limit), CanonicalJail(t, j, limit))
  {
    if ForOpen(t, j, v, limit).Good? {
      OpenIsContained(t, j, v, limit);
      OpenedFileIsBelow(t, j, v, limit);
      WriteBelow(t, ForOpen(t, j, v, limit).value, data, limit, CanonicalJail(t, j, limit));
    }
  }

  lemma WriteBelow(t: Tree, h: Path, data: seq<int>, limit: nat, j: Path)
    requires IsTree(t) && Within(j, Walk(t, [], h, limit, true))
    requires var r := Walk(t, [], h, limit, true); r.At? && r.path in t && !t[r.path].Dir? ==> j < r.path
    ensures Confined(t, WriteFile(t, h, data, limit), j)
  {
    var r := Walk(t, [], h, limit, true);
    WalkEnds(t, [], h, limit, true);
    if r.At? && !t[r.path].Dir? {
      assert Up(r.path) in t;
      PrefixesAreDirs(t, r.path, |r.path|);
      PutKeepsTree(t, r.path, File(data));
    } else if r.Missing? {
      PutKeepsTree(t, r.path, File(data));
    }
  }
}
