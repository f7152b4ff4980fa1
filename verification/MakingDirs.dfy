/** When MkdirAll succeeds, and what it leaves. */
module MakingDirs {
  import opened Paths
  import opened Os
  import opened Syscalls
  import opened Resolvers
  import opened Confinement
  import opened RootOps
  import opened AtomicWrite
  import opened Calls
  import opened CallEffects

  /** A resolution that ended at a free place ends there too when directories have been made, at a directory
      if one was made there. */
  lemma {:induction false} MissingAmongMore(t: Tree, u: Tree, cur: Path, rest: seq<string>, n: nat)
    requires AddsDirs(t, u) && Walk(t, cur, rest, n, true).Missing?
    ensures var (r, s) := (Walk(t, cur, rest, n, true), Walk(u, cur, rest, n, true));
            s == if r.path in u then At(r.path, r.left) else r
    ensures Walk(t, cur, rest, n, true).path !in t
    decreases n, |rest|
  {
    if rest[0] == "." {
      MissingAmongMore(t, u, cur, rest[1..], n);
    } else if rest[0] == ".." {
      MissingAmongMore(t, u, Up(cur), rest[1..], n);
    } else {
      var p := cur + [rest[0]];
      if p in t && !t[p].Link? {
        MissingAmongMore(t, u, p, rest[1..], n);
      } else if p in t {
        MissingAmongMore(t, u, if t[p].target.abs then [] else cur, t[p].target.comps + rest[1..], n - 1);
      }
    }
  }

  /** Names resolved from a new directory stay below it. */
  lemma {:induction false} BelowNewIsNew(t: Tree, u: Tree, cur: Path, rest: seq<string>, n: nat)
    requires IsTree(t) && AddsDirs(t, u) && cur !in t && Names(rest) && Walk(u, cur, rest, n, true).At?
    ensures Walk(u, cur, rest, n, true).path !in t
    decreases |rest|
  {
    if rest != [] {
      assert IsName(rest[0]);
      var p := cur + [rest[0]];
      UpOfChild(cur, rest[0]);
      assert p !in t;
      BelowNewIsNew(t, u, p, rest[1..], n);
    }
  }

  /** When something had to be made for a path, the directory it leads to is new. */
  lemma MadeIsNew(t: Tree, h: Path, limit: nat)
    requires IsTree(t) && Names(h) && CanMakeAll(t, h, limit) && MkdirAll(t, h, limit).Ok?
    ensures var r := Walk(MkdirAll(t, h, limit).t, [], h, limit, true); r.At? && r.path !in t
  {
    var u := MkdirAll(t, h, limit).t;
    MadeDirResolves(t, h, limit);
    MkdirAllAddsDirs(t, h, limit);
    var k :| 0 <= k <= |h| && Place(t, h[..k], limit).Missing?;
    FollowOnlyMattersAtLinks(t, [], h[..k], limit);
    MissingAmongMore(t, u, [], h[..k], limit);
    var s := Walk(u, [], h[..k], limit, true);
    assert h == h[..k] + h[k..];
    if k < |h| {
      WalkSplits(u, [], h[..k], h[k..], limit, true);
      BelowNewIsNew(t, u, s.path, h[k..], s.left);
    } else {
      assert h[..k] == h;
    }
  }

  /** A free place is enough for MkdirAll to succeed. */
  lemma {:induction false} RoomIsEnough(t: Tree, h: Path, limit: nat)
    requires IsTree(t) && Names(h) && CanMakeAll(t, h, limit)
    ensures MkdirAll(t, h, limit).Ok?
    decreases |h|
  {
    hide Walk, CanMakeAll, IsTree;
    if Stat(t, h, limit).Good? {
      PrefixesAreThere(t, h, limit);
    } else {
      assert h != [] by { NothingToMake(t, limit); }
      PrefixesOfUp(t, h, limit);
      if Place(t, h, limit).Missing? {
        ParentIsThere(t, h, limit);
      } else {
        RoomIsEnough(t, Up(h), limit);
        LastIsMade(t, h, limit);
      }
    }
  }

  lemma NothingToMake(t: Tree, limit: nat)
    ensures !CanMakeAll(t, [], limit)
  {
  }

  /** In a directory just made a name is free, or was just made too. */
  lemma LastIsMade(t: Tree, h: Path, limit: nat)
    requires IsTree(t) && Names(h) && h != [] && CanMakeAll(t, Up(h), limit) && MkdirAll(t, Up(h), limit).Ok?
    ensures var u := MkdirAll(t, Up(h), limit).t;
            Mkdir(u, h, limit).Ok? || Lstat(u, h, limit) == Good(Dir)
  {
    var (u, last) := (MkdirAll(t, Up(h), limit).t, h[|h| - 1]);
    MadeIsNew(t, Up(h), limit);
    MadeDirResolves(t, Up(h), limit);
    MkdirAllAddsDirs(t, Up(h), limit);
    var r := Walk(u, [], Up(h), limit, true);
    assert h == Up(h) + [last] && IsName(last);
    WalkSplits(u, [], Up(h), [last], limit, false);
    LastStep(u, r.path, last, r.left, false);
    UpOfChild(r.path, last);
    hide Walk;
    assert r.path + [last] !in t;
  }

  /** MkdirAll succeeds if and only if a directory is there already, or some prefix of the path leads to a free
      place in a directory; then the path leads to a directory, and all that is new are directories. */
  lemma MkdirAllSucceedsIff(t: Tree, h: Path, limit: nat)
    requires IsTree(t) && Names(h)
    ensures var d := MkdirAll(t, h, limit);
            && (d.Ok? <==> Stat(t, h, limit) == Good(Dir) || CanMakeAll(t, h, limit))
            && (d.Ok? ==> Stat(d.t, h, limit) == Good(Dir)) && AddsDirs(t, d.t)
  {
    hide Walk, CanMakeAll, IsTree;
    MkdirAllChangesIff(t, h, limit);
    MkdirAllAddsDirs(t, h, limit);
    if CanMakeAll(t, h, limit) { RoomIsEnough(t, h, limit); }
    if MkdirAll(t, h, limit).Ok? { MadeStat(t, h, limit); }
  }

  lemma MadeStat(t: Tree, h: Path, limit: nat)
    requires IsTree(t) && Names(h) && MkdirAll(t, h, limit).Ok?
    ensures Stat(MkdirAll(t, h, limit).t, h, limit) == Good(Dir)
  {
    MadeDirResolves(t, h, limit);
    hide Walk, MkdirAll;
  }

  // ----- in a jail

  lemma CreateIsClean(t: Tree, j: Path, v: Path, limit: nat)
    requires IsTree(t) && Names(j) && Names(v) && ForCreate(t, j, v, limit).Good?
    ensures Names(ForCreate(t, j, v, limit).value)
  {
    if v != [] {
      var cur, missing := CreateParts(t, j, v, limit);
      var r := Walk(t, [], cur, limit, true);
      if r.At? {
        WalkEnds(t, [], cur, limit, true);
        PrefixesAreDirs(t, r.path, |r.path|);
      }
    }
  }

  /** The virtual path leads to where its host path does, unless its links are too many. */
  lemma HostLeadsThere(t: Tree, u: Tree, j: Path, v: Path, limit: nat)
    requires IsTree(t) && Names(j) && Names(v) && v != [] && ForCreate(t, j, v, limit).Good? && IsTree(u)
        && Extends(t, u)
    requires MkdirAll(t, ForCreate(t, j, v, limit).value, limit) == Ok(u)
    requires Stat(u, ForCreate(t, j, v, limit).value, limit) == Good(Dir)
    ensures var s := Stat(u, j + v, limit); s == Good(Dir) || s == Bad(ELOOP)
  {
    var cur, missing := CreateParts(t, j, v, limit);
    var r := Walk(t, [], cur, limit, true);
    if !r.At? {
      MkdirAllDangling(t, cur, missing, limit);
    } else {
      WalkEnds(t, [], cur, limit, true);
      SameEnd(t, u, cur, missing, limit);
      hide Walk, ForCreate;
    }
  }

  lemma SameEnd(t: Tree, u: Tree, cur: Path, missing: seq<string>, limit: nat)
    requires IsTree(t) && IsTree(u) && Extends(t, u) && missing != []
    requires var r := Walk(t, [], cur, limit, true); r.At? && r.path in t && !t[r.path].Link? && r.left <= limit
    requires Stat(u, Walk(t, [], cur, limit, true).path + missing, limit) == Good(Dir)
    ensures var s := Stat(u, cur + missing, limit); s == Good(Dir) || s == Bad(ELOOP)
  {
    var r := Walk(t, [], cur, limit, true);
    WalkInLargerTree(t, u, [], cur, limit, true);
    WalkSplits(u, [], cur, missing, limit, true);
    WalkSplits(u, [], r.path, missing, limit, true);
    NodesResolve(u, r.path, limit, true);
    WalkWithLowerLimit(u, r.path, missing, limit, limit - r.left, true);
  }

  /** The same for every call: what there has to be is told of the path that the create resolver gives, what
      there is afterwards of the path as written. */
  lemma MkdirAllEffect(t: Tree, jail: Option<Path>, v: Path, limit: nat)
    requires IsTree(t) && CleanArgs(jail, v) && v != []
    ensures var (d, h) := (MadeDir(t, jail, v, true, limit), HostForCreate(t, jail, v, limit));
            && (d.Ok? <==> h.Good? && (Stat(t, h.value, limit) == Good(Dir) || CanMakeAll(t, h.value, limit)))
            && IsTree(d.t) && AddsDirs(t, d.t)
            && (d.Ok? ==> var s := Stat(d.t, HostPath(jail, v), limit); s == Good(Dir) || s == Bad(ELOOP))
            && (d.Err? && h.Bad? ==> d.t == t)
  {
    var h := HostForCreate(t, jail, v, limit);
    hide Walk, IsTree, CanMakeAll;
    if h.Good? {
      if jail.Some? { CreateIsClean(t, jail.value, v, limit); }
      MkdirAllSucceedsIff(t, h.value, limit);
      var d := MkdirAll(t, h.value, limit);
      if jail.Some? && d.Ok? { HostLeadsThere(t, d.t, jail.value, v, limit); }
    }
  }

  // ----- below a directory of the jail

  /** The walk up passes what is not there. */
  lemma {:induction false} AncestorPasses(t: Tree, host: Path, rest: seq<string>, after: seq<string>, limit: nat)
    requires IsTree(t) && Names(rest) && after != []
    requires var r := Walk(t, [], host, limit, true);
             r.At? && r.path in t && t[r.path].Dir? && (rest != [] ==> r.path + [rest[0]] !in t)
    ensures Ancestor(t, host + rest, after, limit) == Good((host, rest + after))
    decreases |rest|
  {
    if rest == [] {
      assert host + rest == host && rest + after == after;
      FollowedIsThere(t, host, limit);
    } else {
      var (front, last) := (rest[..|rest| - 1], rest[|rest| - 1]);
      NotThereYet(t, host, rest, limit);
      assert Up(host + rest) == host + front && rest == front + [last];
      AncestorPasses(t, host, front, [last] + after, limit);
      assert front + ([last] + after) == rest + after;
    }
  }

  lemma NotThereYet(t: Tree, host: Path, rest: seq<string>, limit: nat)
    requires IsTree(t) && Names(rest) && rest != []
    requires var r := Walk(t, [], host, limit, true);
             r.At? && r.path in t && t[r.path].Dir? && r.path + [rest[0]] !in t
    ensures Lstat(t, host + rest, limit) == Bad(ENOENT)
  {
    WalkSplits(t, [], host, rest, limit, false);
    assert IsName(rest[0]);
  }

  /** If the front of a virtual path leads to a directory of the jail and the rest is not there, the create
      resolver puts the rest below that directory, however long it is. */
  lemma CreateBelowDirectory(t: Tree, j: Path, front: Path, rest: Path, limit: nat)
    requires IsTree(t) && Names(j) && Names(front) && Names(rest) && |rest| > 0
    requires !StartsDotDot((front + rest)[0])
    requires var r := Walk(t, [], j + front, limit, true);
             && r.At? && r.path in t && t[r.path].Dir? && r.path + [rest[0]] !in t
             && IsInJail(CanonicalJail(t, j, limit), r.path)
    ensures ForCreate(t, j, front + rest, limit) == Good(Walk(t, [], j + front, limit, true).path + rest)
  {
    hide CanonicalJail, Walk, IsTree, StartsDotDot;
    var (v, last) := (front + rest, rest[|rest| - 1]);
    assert v != [] && v[|v| - 1] == last && (j + v)[|j|] == v[0];
    assert Up(j + v) == (j + front) + rest[..|rest| - 1];
    InJailMeansUnder(j, j + v);
    assert rest[..|rest| - 1] + [last] == rest;
    hide IsInJail;
    AncestorPasses(t, j + front, rest[..|rest| - 1], [last], limit);
  }

  /** There MkdirAll makes all of it. */
  lemma MkdirAllBelowDirectory(t: Tree, j: Path, front: Path, rest: Path, limit: nat)
    requires IsTree(t) && Names(j) && Names(front) && Names(rest) && |rest| > 0
    requires !StartsDotDot((front + rest)[0])
    requires var r := Walk(t, [], j + front, limit, true);
             && r.At? && r.path in t && t[r.path].Dir? && r.path + [rest[0]] !in t
             && IsInJail(CanonicalJail(t, j, limit), r.path)
    ensures MadeDir(t, Some(j), front + rest, true, limit).Ok?
  {
    hide Walk, ForCreate, MadeDir, IsTree, CanonicalJail, IsInJail, StartsDotDot;
    var d := Walk(t, [], j + front, limit, true).path;
    assert Names(front + rest);
    CreateBelowDirectory(t, j, front, rest, limit);
    MkdirAllEffect(t, Some(j), front + rest, limit);
    InDirectory(t, d, rest[0], limit);
    assert (d + rest)[..|d| + 1] == d + [rest[0]];
    assert Place(t, (d + rest)[..|d| + 1], limit).Missing?;
    assert CanMakeAll(t, d + rest, limit);
  }

  /** And there is nothing there for RemoveAll to do. */
  lemma RemoveAllOfNothing(t: Tree, j: Path, front: Path, rest: Path, limit: nat)
    requires IsTree(t) && Names(j) && Names(front) && Names(rest) && |rest| > 0
    requires !StartsDotDot((front + rest)[0])
    requires var r := Walk(t, [], j + front, limit, true);
             && r.At? && r.path in t && t[r.path].Dir? && r.path + [rest[0]] !in t
             && IsInJail(CanonicalJail(t, j, limit), r.path)
    ensures Removed(t, Some(j), front + rest, true, limit) == Ok(t)
  {
    hide Walk, ForCreate, CanonicalJail, IsInJail, StartsDotDot;
    var d := Walk(t, [], j + front, limit, true).path;
    CreateBelowDirectory(t, j, front, rest, limit);
    NodesResolve(t, d, limit, true);
    NotThereYet(t, d, rest, limit);
  }
}
