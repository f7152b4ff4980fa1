/** The mutators on the jail's own root, which the create resolver returns as it stands. With them,
    confinement for every virtual path: when exactly each mutator leaves everything outside the
    canonical jail alone. */
module RootOps {
  import opened Paths
  import opened Os
  import opened Syscalls
  import opened Resolvers
  import opened Confinement

  lemma RootIsItself(t: Tree, j: Path, limit: nat)
    requires IsTree(t)
    ensures ForCreate(t, j, [], limit) == Good(j)
  {
    InJailMeansUnder(j, j);
    assert j + [] == j;
  }

  /** Where a path leads, its last component not followed. */
  function Place(t: Tree, h: Path, limit: nat): Found {
    Walk(t, [], h, limit, false)
  }

  /** There is nothing below a jail that does not resolve. */
  lemma NothingInAMissingJail(t: Tree, j: Path, limit: nat, p: Path)
    requires IsTree(t) && !Walk(t, [], j, limit, true).At? && p in t
    ensures !(j < p) && (j <= p ==> !t[p].Dir?) && CanonicalJail(t, j, limit) == j
  {
    if j < p {
      PrefixesAreDirs(t, p, |j|);
      assert p[..|j|] == j;
      NodesResolve(t, j, limit, true);
    }
    if j <= p && t[p].Dir? { assert p == j by { assert !(j < p); } NodesResolve(t, j, limit, true); }
  }

  // ----- removing

  lemma RemovedNode(t: Tree, q: Path, cj: Path)
    requires q in t && OnlyBelow(t, Without(t, q), cj)
    ensures cj < q
  {
    assert q !in Without(t, q);
  }

  /** A call can take the node r leads to: RemoveAll any but the tree's root, Remove one with nothing below. */
  predicate CanRemove(t: Tree, r: Found, all: bool) {
    r.At? && r.path != [] && (all || !HasChild(t, r.path))
  }

  lemma RemoveChangesIff(t: Tree, h: Path, all: bool, limit: nat)
    requires IsTree(t)
    ensures var (d, r) := (if all then RemoveAll(t, h, limit) else Remove(t, h, limit), Place(t, h, limit));
            && IsTree(d.t)
            && (d.t != t <==> CanRemove(t, r, all))
            && (CanRemove(t, r, all) ==> d == Ok(Without(t, r.path)))
  {
    var r := Place(t, h, limit);
    WalkEnds(t, [], h, limit, false);
    hide Walk, IsTree;
    if r.At? && r.path != [] {
      WithoutKeepsTree(t, r.path);
      assert r.path !in Without(t, r.path);
    }
  }

  /** Remove is confined if and only if it is off the root, there is nothing it can take, or what it
      takes at the root is a link that lies below the directory it leads to. */
  lemma RemoveIsConfinedIff(t: Tree, j: Path, v: Path, all: bool, limit: nat)
    requires IsTree(t) && Names(j) && Names(v)
    ensures var (d, cj, r) := (JailRemove(t, j, v, all, limit), CanonicalJail(t, j, limit), Place(t, j, limit));
            && (v == [] ==> d == if all then RemoveAll(t, j, limit) else Remove(t, j, limit))
            && (Confined(t, d, cj) <==> v != [] || !CanRemove(t, r, all) || cj < r.path)
  {
    var (d, cj, r) := (JailRemove(t, j, v, all, limit), CanonicalJail(t, j, limit), Place(t, j, limit));
    if v != [] {
      RemoveIsConfined(t, j, v, all, limit);
    } else {
      RootIsItself(t, j, limit);
      RemoveChangesIff(t, j, all, limit);
      WalkEnds(t, [], j, limit, false);
      hide CanonicalJail, Walk, IsTree;
      if CanRemove(t, r, all) {
        if cj < r.path { WithoutBelow(t, cj, r.path); }
        if Confined(t, d, cj) { RemovedNode(t, r.path, cj); }
      }
    }
  }

  /** RemoveAll("/") takes the jail itself, with everything in it. */
  lemma RemoveTakesTheJail(t: Tree, j: Path, limit: nat)
    requires IsTree(t) && Names(j) && j != [] && j in t
    ensures JailRemove(t, j, [], true, limit) == Ok(Without(t, j))
  {
    RootIsItself(t, j, limit);
    NodesResolve(t, j, limit, false);
  }

  // ----- making

  /** A tree that adds directories adds one right under a node that was there. */
  lemma {:induction false} FirstAdded(t: Tree, u: Tree, p: Path) returns (q: Path)
    requires IsTree(t) && IsTree(u) && p in u && p !in t
    ensures q <= p && q in u && q !in t && q != [] && Up(q) in t && u[Up(q)].Dir?
    decreases |p|
  {
    assert Up(p) in u && u[Up(p)].Dir?;
    if Up(p) in t { q := p; } else { q := FirstAdded(t, u, Up(p)); }
  }

  /** What is added for a jail that does not resolve does not lie below it. */
  lemma AddedIsOutside(t: Tree, u: Tree, j: Path, limit: nat)
    requires IsTree(t) && IsTree(u) && !Walk(t, [], j, limit, true).At?
    requires forall p :: p in t ==> p in u && u[p] == t[p]
    requires OnlyBelow(t, u, CanonicalJail(t, j, limit))
    ensures u == t
  {
    NothingInAMissingJail(t, j, limit, []);
    forall p | p in u ensures p in t {
      if p !in t {
        var q := FirstAdded(t, u, p);
        assert j < q;
        assert j <= Up(q);
        NothingInAMissingJail(t, j, limit, Up(q));
      }
    }
  }

  lemma CreateAtRoot(t: Tree, j: Path, node: Node, limit: nat)
    requires IsTree(t) && OnlyBelow(t, Create(t, j, node, limit).t, CanonicalJail(t, j, limit))
    ensures !Place(t, j, limit).Missing?
  {
    WalkEnds(t, [], j, limit, false);
    CreateKeepsTree(t, j, node, limit);
    if Place(t, j, limit).Missing? {
      FollowOnlyMattersAtLinks(t, [], j, limit);
      AddedIsOutside(t, Create(t, j, node, limit).t, j, limit);
    }
  }

  /** MkdirAll makes something if and only if a prefix of the path leads to a free place in a directory. */
  ghost predicate CanMakeAll(t: Tree, h: Path, limit: nat) {
    exists k :: 0 <= k <= |h| && Place(t, h[..k], limit).Missing?
  }

  lemma {:induction false} MkdirAllChangesIff(t: Tree, h: Path, limit: nat)
    requires IsTree(t)
    ensures MkdirAll(t, h, limit).t != t <==> CanMakeAll(t, h, limit)
    decreases |h|
  {
    hide Walk;
    if Stat(t, h, limit).Good? {
      PrefixesAreThere(t, h, limit);
    } else {
      assert h != [] by { WalkOfNothing(t, limit); }
      var above := MkdirAll(t, Up(h), limit);
      MkdirAllChangesIff(t, Up(h), limit);
      PrefixesOfUp(t, h, limit);
      MkdirAllAddsDirs(t, Up(h), limit);
      WalkEnds(above.t, [], h, limit, false);
      if Place(t, h, limit).Missing? { ParentIsThere(t, h, limit); }
    }
  }

  lemma WalkOfNothing(t: Tree, limit: nat)
    ensures Walk(t, [], [], limit, true) == At([], limit) && !Walk(t, [], [], limit, false).Missing?
  {
  }

  lemma PrefixesOfUp(t: Tree, h: Path, limit: nat)
    requires h != []
    ensures CanMakeAll(t, h, limit) <==> CanMakeAll(t, Up(h), limit) || Place(t, h, limit).Missing?
  {
    assert forall k :: 0 <= k <= |Up(h)| ==> Up(h)[..k] == h[..k];
    assert h[..|h|] == h;
    if CanMakeAll(t, Up(h), limit) {
      var k :| 0 <= k <= |Up(h)| && Place(t, Up(h)[..k], limit).Missing?;
      assert Place(t, h[..k], limit).Missing?;
    }
  }

  /** Every prefix of a path that resolves does. */
  lemma PrefixesAreThere(t: Tree, h: Path, limit: nat)
    requires IsTree(t) && Walk(t, [], h, limit, true).At?
    ensures !CanMakeAll(t, h, limit)
  {
    forall k | 0 <= k <= |h| ensures !Place(t, h[..k], limit).Missing? {
      assert h == h[..k] + h[k..];
      if k < |h| { WalkSplits(t, [], h[..k], h[k..], limit, true); } else { assert h[..k] == h; }
      FollowOnlyMattersAtLinks(t, [], h[..k], limit);
    }
  }

  /** A free place lies in a directory, so there is nothing to make above it. */
  lemma ParentIsThere(t: Tree, h: Path, limit: nat)
    requires IsTree(t) && h != [] && Place(t, h, limit).Missing?
    ensures MkdirAll(t, Up(h), limit) == Ok(t)
  {
    var last := [h[|h| - 1]];
    assert h == Up(h) + last;
    WalkSplits(t, [], Up(h), last, limit, false);
  }

  /** What a making call on path h needs to make something. */
  ghost predicate CanMake(t: Tree, h: Path, all: bool, limit: nat) {
    if all then CanMakeAll(t, h, limit) else Place(t, h, limit).Missing?
  }

  /** Mkdir is confined if and only if it is off the root, or there is nothing to make there. */
  lemma MkdirIsConfinedIff(t: Tree, j: Path, v: Path, all: bool, limit: nat)
    requires IsTree(t) && Names(j) && Names(v)
    ensures var d := JailMkdir(t, j, v, all, limit);
            && (v == [] ==> d == if all then MkdirAll(t, j, limit) else Mkdir(t, j, limit))
            && (Confined(t, d, CanonicalJail(t, j, limit)) <==> v != [] || !CanMake(t, j, all, limit))
  {
    if v != [] {
      MkdirIsConfined(t, j, v, all, limit);
    } else {
      RootIsItself(t, j, limit);
      MkdirAllChangesIff(t, j, limit);
      hide Walk, CanMakeAll;
      if Confined(t, JailMkdir(t, j, v, all, limit), CanonicalJail(t, j, limit)) {
        if all { MkdirAllAtRoot(t, j, limit); } else { CreateAtRoot(t, j, Dir, limit); }
      }
    }
  }

  lemma MkdirAllAtRoot(t: Tree, j: Path, limit: nat)
    requires IsTree(t) && OnlyBelow(t, MkdirAll(t, j, limit).t, CanonicalJail(t, j, limit))
    ensures MkdirAll(t, j, limit).t == t
  {
    MkdirAllAddsDirs(t, j, limit);
    if !Walk(t, [], j, limit, true).At? { AddedIsOutside(t, MkdirAll(t, j, limit).t, j, limit); }
  }

  /** Symlink is confined if and only if it is off the root, its target is turned away, or the root's
      place is not free. */
  lemma SymlinkIsConfinedIff(t: Tree, j: Path, target: Path, v: Path, limit: nat)
    requires IsTree(t) && Names(j) && Names(v)
    ensures var d := JailSymlink(t, j, target, v, limit);
            Confined(t, d, CanonicalJail(t, j, limit))
            <==> v != [] || Lexical(j, target).Bad? || !Place(t, j, limit).Missing?
  {
    if v != [] {
      SymlinkIsConfined(t, j, target, v, limit);
    } else {
      RootIsItself(t, j, limit);
      hide Walk, Lexical;
      if Confined(t, JailSymlink(t, j, target, v, limit), CanonicalJail(t, j, limit)) && Lexical(j, target).Good? {
        CreateAtRoot(t, j, Link(Raw(true, j + target)), limit);
      }
    }
  }

  // ----- writing

  /** The root can be written: its place is free, or it leads to a file that holds other data. */
  predicate CanWrite(t: Tree, j: Path, data: seq<int>, limit: nat)
    requires IsTree(t)
  {
    WalkEnds(t, [], j, limit, true);
    var f := Walk(t, [], j, limit, true);
    Place(t, j, limit).Missing? || (f.At? && t[f.path].File? && t[f.path].data != data)
  }

  lemma WriteChangesIff(t: Tree, j: Path, data: seq<int>, limit: nat)
    requires IsTree(t) && Names(j)
    ensures JailWrite(t, j, [], data, limit).t != t <==> CanWrite(t, j, data, limit)
  {
    var (r, f) := (Place(t, j, limit), Walk(t, [], j, limit, true));
    RootIsItself(t, j, limit);
    WalkEnds(t, [], j, limit, false);
    WalkEnds(t, [], j, limit, true);
    FollowOnlyMattersAtLinks(t, [], j, limit);
    if f.At? {
      InJailMeansUnder(f.path, f.path);
      NodesResolve(t, f.path, limit, true);
    }
  }

  /** WriteFile is confined if and only if it is off the root or the root cannot be written: a jail that
      is a file is not below itself. */
  lemma WriteIsConfinedIff(t: Tree, j: Path, v: Path, data: seq<int>, limit: nat)
    requires IsTree(t) && Names(j) && Names(v)
    ensures var d := JailWrite(t, j, v, data, limit);
            Confined(t, d, CanonicalJail(t, j, limit)) <==> v != [] || !CanWrite(t, j, data, limit)
  {
    hide CanWrite;
    if v != [] {
      WriteIsConfined(t, j, v, data, limit);
    } else {
      WriteChangesIff(t, j, data, limit);
      if Confined(t, JailWrite(t, j, v, data, limit), CanonicalJail(t, j, limit)) && ForOpen(t, j, [], limit).Good? {
        RootIsItself(t, j, limit);
        WriteAtRoot(t, j, ForOpen(t, j, [], limit).value, data, limit);
      }
    }
  }

  lemma WriteAtRoot(t: Tree, j: Path, h: Path, data: seq<int>, limit: nat)
    requires IsTree(t) && (h == j || EvalSymlinks(t, j, limit) == Good(h))
    requires OnlyBelow(t, WriteFile(t, h, data, limit).t, CanonicalJail(t, j, limit))
    ensures WriteFile(t, h, data, limit).t == t
  {
    var (r, s) := (Walk(t, [], j, limit, true), Walk(t, [], h, limit, true));
    WalkEnds(t, [], j, limit, true);
    WalkEnds(t, [], h, limit, true);
    if r.At? {
      if h != j { NodesResolve(t, h, limit, true); }
      assert s.At? && s.path == CanonicalJail(t, j, limit);
    } else if s.Missing? {
      var u := WriteFile(t, h, data, limit).t;
      PutKeepsTree(t, s.path, File(data));
      AddedIsOutside(t, u, j, limit);
    }
  }

  // ----- renaming

  /** A node can be moved to this place: a free one in a directory, not below itself, or that of a file or
      link, if it is none of a directory. */
  predicate CanMove(t: Tree, from: Path, to: Path) {
    && from in t && from != [] && from != to
    && if to in t then !t[to].Dir? && !t[from].Dir?
       else !(from <= to) && to != [] && Up(to) in t && t[Up(to)].Dir? && IsName(to[|to| - 1])
  }

  lemma MovedIsTree(t: Tree, from: Path, to: Path)
    requires IsTree(t) && CanMove(t, from, to)
    ensures !(from <= to) && IsTree(Moved(t, from, to))
  {
    if to in t {
      assert Up(to) in t && t[Up(to)].Dir?;
      if from <= to { LeavesHaveNoChildren(t, from, to); }
    }
    MovedKeepsTree(t, from, to);
  }

  predicate SameNode(t: Tree, p: Path, q: Path) {
    p in t && q in t && t[p] == t[q]
  }

  /** A move is not seen from outside if and only if it starts below the jail, and ends there too or where
      the same is already. */
  lemma MovedIff(t: Tree, from: Path, to: Path, cj: Path)
    requires IsTree(t) && CanMove(t, from, to)
    ensures OnlyBelow(t, Moved(t, from, to), cj) <==> cj < from && (cj < to || SameNode(t, from, to))
  {
    var u := Moved(t, from, to);
    MovedIsTree(t, from, to);
    MovedIsThere(t, from, to, from);
    SourceIsGone(t, from, to);
    assert NewPlace(from, from, to) == to;
    if cj < from && cj < to {
      MovedBelow(t, cj, from, to);
    } else if cj < from && SameNode(t, from, to) {
      forall p | !(cj < p) ensures (p in t <==> p in u) && (p in t && p in u ==> t[p] == u[p]) {
        if p != to { LeafMovesAlone(t, from, to, p); }
      }
    }
  }

  lemma LeafMovesAlone(t: Tree, from: Path, to: Path, p: Path)
    requires IsTree(t) && from in t && !t[from].Dir? && p != to && !(from <= p)
    ensures (p in t <==> p in Moved(t, from, to)) && (p in t ==> Moved(t, from, to)[p] == t[p])
  {
    forall o | o in t && from <= o ensures NewPlace(o, from, to) == to {
      LeavesHaveNoChildren(t, from, o);
    }
  }

  lemma SourceIsGone(t: Tree, from: Path, to: Path)
    requires IsTree(t) && CanMove(t, from, to)
    ensures from !in Moved(t, from, to)
  {
    assert to <= from ==> from[..|to|] == to;
    if to <= from { PrefixesAreDirs(t, from, |to|); }
    assert forall o :: from <= o ==> to <= NewPlace(o, from, to);
  }

  /** The node at a can be renamed to b: both places are known, and one can be moved to the other. */
  predicate CanRename(t: Tree, a: Found, b: Found) {
    a.At? && !b.Fail? && CanMove(t, a.path, b.path)
  }

  lemma RenameChangesIff(t: Tree, src: Path, dst: Path, limit: nat)
    requires IsTree(t)
    ensures var (d, a, b) := (Rename(t, src, dst, limit), Place(t, src, limit), Place(t, dst, limit));
            && IsTree(d.t)
            && (d.t != t <==> CanRename(t, a, b))
            && (CanRename(t, a, b) ==> d == Ok(Moved(t, a.path, b.path)))
  {
    var (a, b) := (Place(t, src, limit), Place(t, dst, limit));
    WalkEnds(t, [], src, limit, false);
    WalkEnds(t, [], dst, limit, false);
    hide Walk, Moved;
    if CanRename(t, a, b) {
      MovedIsTree(t, a.path, b.path);
      SourceIsGone(t, a.path, b.path);
    }
  }

  /** Renaming, for every pair of paths. Off the root it is confined. Onto the root it replaces what the
      jail's path denotes, the link, if it is one; of the root it moves that; and of the root onto itself it
      changes nothing. It is confined if and only if there is nothing to move, or it moves a node from
      below the canonical jail to below it, or onto a copy of that node. */
  lemma RenameIsConfinedIff(t: Tree, j: Path, v: Path, w: Path, limit: nat)
    requires IsTree(t) && Names(j) && Names(v) && Names(w)
    ensures ForCreate(t, j, [], limit) == Good(j)
    ensures v != [] && w != [] ==> Confined(t, JailRename(t, j, v, w, limit), CanonicalJail(t, j, limit))
    ensures v == [] && w == [] ==> JailRename(t, j, v, w, limit).t == t
    ensures var (d, cj, x, y) := (JailRename(t, j, v, w, limit), CanonicalJail(t, j, limit),
                                  ForCreate(t, j, v, limit), ForCreate(t, j, w, limit));
            if x.Bad? || y.Bad? then d.t == t
            else
              var (a, b) := (Place(t, x.value, limit), Place(t, y.value, limit));
              && d == Rename(t, x.value, y.value, limit)
              && (Confined(t, d, cj)
                  <==> !CanRename(t, a, b) || (cj < a.path && (cj < b.path || SameNode(t, a.path, b.path))))
  {
    hide CanonicalJail, Walk, Moved, IsTree, OnlyBelow, Rename;
    RootIsItself(t, j, limit);
    var (cj, x, y) := (CanonicalJail(t, j, limit), ForCreate(t, j, v, limit), ForCreate(t, j, w, limit));
    if v != [] && w != [] { RenameIsConfined(t, j, v, w, limit); }
    hide ForCreate;
    if x.Good? && y.Good? {
      RenameChangesIff(t, x.value, y.value, limit);
      var (a, b) := (Place(t, x.value, limit), Place(t, y.value, limit));
      if CanRename(t, a, b) { MovedIff(t, a.path, b.path, cj); } else { SameTree(t, cj); }
    }
  }

  lemma SameTree(t: Tree, cj: Path)
    ensures OnlyBelow(t, t, cj)
  {
  }
}
