/** What each call does to the tree, told by pathname resolution alone: which node its path names, when it
    succeeds, and what the tree is afterwards. */
module CallEffects {
  import opened Paths
  import opened Os
  import opened Syscalls
  import opened Resolvers
  import opened Confinement
  import opened RootOps
  import opened AtomicWrite
  import opened Calls

  /** The jail lets virtual path v through to a node of directory d: neither begins with two dots, the one
      as written, the other as seen from the canonical jail. */
  predicate LetsThrough(t: Tree, j: Path, v: Path, d: Path, limit: nat)
    requires v != []
  {
    var cj := CanonicalJail(t, j, limit);
    !StartsDotDot(v[0]) && cj <= d && (|d| > |cj| ==> !StartsDotDot(d[|cj|]))
  }

  /** The place that v names: its last name in the directory that the rest of it leads to, if there is such a
      directory, and the jail lets it through. Nothing need be at the place. */
  function Spot(t: Tree, jail: Option<Path>, v: Path, limit: nat): Option<Path> {
    if v == [] then None
    else
      var r := Walk(t, [], HostPath(jail, Up(v)), limit, true);
      if !r.At? || r.path !in t || !t[r.path].Dir? then None
      else if jail.Some? && !LetsThrough(t, jail.value, v, r.path, limit) then None
      else Some(r.path + [v[|v| - 1]])
  }

  function HostForCreate(t: Tree, jail: Option<Path>, v: Path, limit: nat): Result<Path>
    requires IsTree(t)
  {
    match jail case None => Good(v) case Some(j) => ForCreate(t, j, v, limit)
  }

  ghost predicate CleanArgs(jail: Option<Path>, v: Path) {
    Names(v) && (jail.Some? ==> Names(jail.value))
  }

  // ----- the create resolver finds just that place

  lemma SpotInDirectory(t: Tree, jail: Option<Path>, v: Path, limit: nat)
    requires IsTree(t) && Names(v) && Spot(t, jail, v, limit).Some?
    ensures var q := Spot(t, jail, v, limit).value;
            && q != [] && Up(q) in t && t[Up(q)].Dir? && IsName(q[|q| - 1])
            && Walk(t, [], q, limit, false) == if q in t then At(q, limit) else Missing(q, limit)
  {
    var d := Walk(t, [], HostPath(jail, Up(v)), limit, true).path;
    UpOfChild(d, v[|v| - 1]);
    InDirectory(t, d, v[|v| - 1], limit);
  }

  /** What is there, followed, is there. */
  lemma FollowedIsThere(t: Tree, p: Path, limit: nat)
    requires IsTree(t) && Walk(t, [], p, limit, true).At?
    ensures Lstat(t, p, limit).Good?
  {
    FollowOnlyMattersAtLinks(t, [], p, limit);
  }

  lemma CreateFindsSpot(t: Tree, j: Path, v: Path, limit: nat)
    requires IsTree(t) && Names(j) && Names(v) && Spot(t, Some(j), v, limit).Some?
    ensures ForCreate(t, j, v, limit) == Good(Spot(t, Some(j), v, limit).value)
  {
    var (host, last) := (j + Up(v), [v[|v| - 1]]);
    var r := Walk(t, [], host, limit, true);
    var cj := CanonicalJail(t, j, limit);
    assert Up(j + v) == host && (j + v)[|j|] == v[0];
    InJailMeansUnder(j, j + v);
    InJailMeansUnder(cj, r.path);
    FollowedIsThere(t, host, limit);
    hide IsInJail, CanonicalJail, Walk;
    assert Ancestor(t, host, last, limit) == Good((host, last));
  }

  /** The create resolver gives a path that leads somewhere only if there is such a place. */
  lemma CreateNeedsSpot(t: Tree, j: Path, v: Path, limit: nat)
    requires IsTree(t) && Names(j) && Names(v) && v != [] && ForCreate(t, j, v, limit).Good?
    requires !Walk(t, [], ForCreate(t, j, v, limit).value, limit, false).Fail?
    ensures Spot(t, Some(j), v, limit).Some?
  {
    hide ForCreate, CanonicalJail, Walk, IsInJail, IsTree, StartsDotDot, Located;
    var cur, missing := CreateParts(t, j, v, limit);
    var r := Walk(t, [], cur, limit, true);
    LexicalMeans(t, j, v, limit);
    if !r.At? {
      BelowDangling(t, cur, missing, limit, false);
    } else {
      OneIsMissing(t, cur, missing, limit);
      assert cur == (j + v)[..|j + v| - 1] == j + Up(v);
      InJailMeansUnder(CanonicalJail(t, j, limit), r.path);
    }
  }

  lemma OneIsMissing(t: Tree, cur: Path, missing: seq<string>, limit: nat)
    requires IsTree(t) && Names(missing) && Located(t, cur, missing, limit) && Walk(t, [], cur, limit, true).At?
    requires !Walk(t, [], Walk(t, [], cur, limit, true).path + missing, limit, false).Fail?
    ensures var d := Walk(t, [], cur, limit, true).path; |missing| == 1 && d in t && t[d].Dir?
  {
    BelowCanonical(t, cur, missing, limit);
    OneStepDown(t, Walk(t, [], cur, limit, true).path, missing, limit);
  }

  lemma LexicalMeans(t: Tree, j: Path, v: Path, limit: nat)
    requires IsTree(t) && v != [] && ForCreate(t, j, v, limit).Good?
    ensures !StartsDotDot(v[0])
  {
    InJailMeansUnder(j, j + v);
    assert (j + v)[|j|] == v[0];
  }

  /** A resolution that ended at this place, or, if there is none, failed. */
  ghost predicate EndedAt(t: Tree, p: Found, q: Option<Path>) {
    match q
    case Some(q) => !p.Fail? && p.path == q && (p.At? <==> q in t)
    case None => p.Fail?
  }

  ghost predicate IsPlaceIn(t: Tree, q: Path) {
    q != [] && Up(q) in t && t[Up(q)].Dir? && IsName(q[|q| - 1])
  }

  /** Where the call's own path leads: to that place; and nowhere, if there is none. */
  lemma SpotIsPlace(t: Tree, jail: Option<Path>, v: Path, limit: nat)
    requires IsTree(t) && CleanArgs(jail, v) && v != []
    ensures var (h, q) := (HostForCreate(t, jail, v, limit), Spot(t, jail, v, limit));
            && (h.Good? ==> EndedAt(t, Place(t, h.value, limit), q))
            && (q.Some? ==> h.Good? && IsPlaceIn(t, q.value) && (jail.Some? ==> h.value == q.value))
  {
    match jail
    case Some(j) =>
      if Spot(t, jail, v, limit).Some? {
        SpotInDirectory(t, jail, v, limit);
        CreateFindsSpot(t, j, v, limit);
      } else if ForCreate(t, j, v, limit).Good? && !Place(t, ForCreate(t, j, v, limit).value, limit).Fail? {
        CreateNeedsSpot(t, j, v, limit);
      }
    case None => PlainSpot(t, v, limit);
  }

  lemma PlainSpot(t: Tree, v: Path, limit: nat)
    requires IsTree(t) && Names(v) && v != []
    ensures var q := Spot(t, None, v, limit);
            EndedAt(t, Place(t, v, limit), q) && (q.Some? ==> IsPlaceIn(t, q.value))
  {
    var last := v[|v| - 1];
    assert v == Up(v) + [last] && IsName(last);
    WalkSplits(t, [], Up(v), [last], limit, false);
    var r := Walk(t, [], Up(v), limit, true);
    WalkEnds(t, [], Up(v), limit, true);
    if r.At? && t[r.path].Dir? {
      UpOfChild(r.path, last);
      LastStep(t, r.path, last, r.left, false);
    }
  }

  // ----- removing

  /** t without the node at q and all below it. */
  ghost predicate IsWithout(t: Tree, u: Tree, q: Path) {
    forall p :: (p in u <==> p in t && !(q <= p)) && (p in u && p in t ==> u[p] == t[p])
  }

  /** Remove succeeds if and only if the node is there, and nothing below it unless all is to go; RemoveAll
      also if it is not there. Then it is gone with all below it, and nothing else has changed. An error, or
      a path that names no place, changes nothing. */
  ghost predicate Removes(t: Tree, u: Tree, q: Option<Path>, all: bool, ok: bool) {
    match q
    case Some(q) =>
      && (ok <==> if q in t then all || !exists p :: p in t && q < p else all)
      && if ok then IsWithout(t, u, q) else u == t
    case None => u == t && (ok ==> all)
  }

  lemma RemoveEffect(t: Tree, jail: Option<Path>, v: Path, all: bool, limit: nat)
    requires IsTree(t) && CleanArgs(jail, v) && v != []
    ensures var d := Removed(t, jail, v, all, limit); Removes(t, d.t, Spot(t, jail, v, limit), all, d.Ok?)
  {
    SpotIsPlace(t, jail, v, limit);
    var h := HostForCreate(t, jail, v, limit);
    RemovedAs(t, jail, v, all, limit);
    if h.Good? { RemoveAnswers(t, h.value, all, limit); }
    hide Spot, HostForCreate, Removed, Place, IsTree, RemoveAll, Syscalls.Remove;
  }

  lemma RemovedAs(t: Tree, jail: Option<Path>, v: Path, all: bool, limit: nat)
    requires IsTree(t)
    ensures var h := HostForCreate(t, jail, v, limit);
            Removed(t, jail, v, all, limit) == if h.Bad? then Err(t, h.e)
                                               else if all then RemoveAll(t, h.value, limit)
                                               else Syscalls.Remove(t, h.value, limit)
  {
    hide ForCreate, RemoveAll, Syscalls.Remove;
  }

  lemma RemoveAnswers(t: Tree, h: Path, all: bool, limit: nat)
    requires IsTree(t)
    ensures var (d, p) := (if all then RemoveAll(t, h, limit) else Syscalls.Remove(t, h, limit), Place(t, h, limit));
            if p.Fail? then d.t == t && (d.Ok? ==> all)
            else p.path != [] ==> Removes(t, d.t, Some(p.path), all, d.Ok?)
  {
    WalkEnds(t, [], h, limit, false);
    var p := Place(t, h, limit);
    hide Walk;
    if p.Missing? { NothingBelow(t, p.path); }
  }

  // ----- making a directory

  /** Mkdir succeeds if and only if the place is free, and then a directory is there and nothing else has
      changed. */
  ghost predicate MakesDir(t: Tree, u: Tree, q: Option<Path>, ok: bool) {
    && (ok <==> q.Some? && q.value !in t)
    && u == if ok then t[q.value := Dir] else t
  }

  lemma MkdirEffect(t: Tree, jail: Option<Path>, v: Path, limit: nat)
    requires IsTree(t) && CleanArgs(jail, v) && v != []
    ensures var d := MadeDir(t, jail, v, false, limit); MakesDir(t, d.t, Spot(t, jail, v, limit), d.Ok?)
  {
    SpotIsPlace(t, jail, v, limit);
    var (h, q) := (HostForCreate(t, jail, v, limit), Spot(t, jail, v, limit));
    if h.Good? { CreateAnswers(t, h.value, Dir, q, limit); }
    hide Spot, ForCreate, Create, Place, EndedAt;
  }

  lemma CreateAnswers(t: Tree, h: Path, node: Node, q: Option<Path>, limit: nat)
    requires EndedAt(t, Place(t, h, limit), q)
    ensures var d := Create(t, h, node, limit);
            && (d.Ok? <==> q.Some? && q.value !in t)
            && d.t == if d.Ok? then t[q.value := node] else t
  {
    hide Walk;
  }

  // ----- renaming

  /** The node at a with all below it is at b; what was at b, if anything, is gone; all else is unchanged. */
  ghost predicate IsMoved(t: Tree, u: Tree, a: Path, b: Path) {
    forall p ::
      && (p in u <==> (b <= p && a + p[|b|..] in t) || (p in t && !(a <= p) && !(b <= p)))
      && (p in u && b <= p && a + p[|b|..] in t ==> u[p] == t[a + p[|b|..]])
      && (p in u && p in t && !(b <= p) ==> u[p] == t[p])
  }

  /** Rename succeeds if and only if the node can be moved to the place, or is there already and is no
      directory. */
  ghost predicate Renames(t: Tree, u: Tree, a: Option<Path>, b: Option<Path>, ok: bool) {
    && (ok <==> a.Some? && b.Some? && (CanMove(t, a.value, b.value)
                                       || (a == b && a.value in t && !t[a.value].Dir?)))
    && if ok then IsMoved(t, u, a.value, b.value) else u == t
  }

  lemma RenameEffect(t: Tree, jail: Option<Path>, v: Path, w: Path, limit: nat)
    requires IsTree(t) && CleanArgs(jail, v) && CleanArgs(jail, w) && v != [] && w != []
    ensures var d := Renamed(t, jail, v, w, limit);
            Renames(t, d.t, Spot(t, jail, v, limit), Spot(t, jail, w, limit), d.Ok?)
  {
    SpotIsPlace(t, jail, v, limit);
    SpotIsPlace(t, jail, w, limit);
    var (h, k) := (HostForCreate(t, jail, v, limit), HostForCreate(t, jail, w, limit));
    RenamedAs(t, jail, v, w, limit);
    hide Spot, HostForCreate, Renamed, Moved, IsMoved, Rename, IsTree, Place, CanMove, Renames;
    var (a, b) := (Spot(t, jail, v, limit), Spot(t, jail, w, limit));
    if h.Good? && k.Good? {
      RenameAnswers(t, h.value, k.value, limit);
      RenameJoins(t, Rename(t, h.value, k.value, limit), Place(t, h.value, limit), Place(t, k.value, limit), a, b);
    } else {
      NotRenamed(t, a, b);
    }
  }

  lemma NotRenamed(t: Tree, a: Option<Path>, b: Option<Path>)
    requires a == None || b == None
    ensures Renames(t, t, a, b, false)
  {
  }

  lemma RenameJoins(t: Tree, d: Done, x: Found, y: Found, a: Option<Path>, b: Option<Path>)
    requires IsTree(t) && EndedAt(t, x, a) && EndedAt(t, y, b)
    requires CanRename(t, x, y) ==> d == Ok(Moved(t, x.path, y.path))
    requires !CanRename(t, x, y) ==> d.t == t
    requires d.Ok? <==> CanRename(t, x, y)
                        || (x.At? && y.At? && x.path == y.path && x.path in t && !t[x.path].Dir?)
    ensures Renames(t, d.t, a, b, d.Ok?)
  {
    hide IsTree, Moved, IsMoved;
    if CanRename(t, x, y) { MovedIsMoved(t, x.path, y.path); }
    if x.At? && y.At? && x.path == y.path { NotMoved(t, x.path); }
  }

  lemma RenamedAs(t: Tree, jail: Option<Path>, v: Path, w: Path, limit: nat)
    requires IsTree(t)
    ensures var (h, k) := (HostForCreate(t, jail, v, limit), HostForCreate(t, jail, w, limit));
            Renamed(t, jail, v, w, limit) == if h.Bad? then Err(t, h.e) else if k.Bad? then Err(t, k.e)
                                             else Rename(t, h.value, k.value, limit)
  {
    hide ForCreate, Rename;
  }

  lemma RenameAnswers(t: Tree, src: Path, dst: Path, limit: nat)
    requires IsTree(t)
    ensures var (d, a, b) := (Rename(t, src, dst, limit), Place(t, src, limit), Place(t, dst, limit));
            && (CanRename(t, a, b) ==> d == Ok(Moved(t, a.path, b.path)))
            && (!CanRename(t, a, b) ==> d.t == t)
            && (d.Ok? <==> CanRename(t, a, b)
                           || (a.At? && b.At? && a.path == b.path && a.path in t && !t[a.path].Dir?))
  {
    RenameChangesIff(t, src, dst, limit);
    WalkEnds(t, [], src, limit, false);
    WalkEnds(t, [], dst, limit, false);
    hide Walk, Moved;
  }

  lemma NotMoved(t: Tree, a: Path)
    ensures IsMoved(t, t, a, a)
  {
    forall p | a <= p ensures a + p[|a|..] == p { }
  }

  lemma MovedIsMoved(t: Tree, a: Path, b: Path)
    requires IsTree(t) && CanMove(t, a, b)
    ensures IsMoved(t, Moved(t, a, b), a, b)
  {
    var u := Moved(t, a, b);
    forall p ensures
      && (p in u <==> (b <= p && a + p[|b|..] in t) || (p in t && !(a <= p) && !(b <= p)))
      && (p in u && b <= p && a + p[|b|..] in t ==> u[p] == t[a + p[|b|..]])
      && (p in u && p in t && !(b <= p) ==> u[p] == t[p])
    {
      MovedNodeIs(t, a, b, p);
    }
  }

  lemma MovedNodeIs(t: Tree, a: Path, b: Path, p: Path)
    requires IsTree(t) && CanMove(t, a, b)
    ensures var u := Moved(t, a, b);
            && (p in u <==> (b <= p && a + p[|b|..] in t) || (p in t && !(a <= p) && !(b <= p)))
            && (p in u && b <= p && a + p[|b|..] in t ==> u[p] == t[a + p[|b|..]])
            && (p in u && p in t && !(b <= p) ==> u[p] == t[p])
  {
    MovedIsTree(t, a, b);
    if b <= p {
      var o := a + p[|b|..];
      assert o[|a|..] == p[|b|..] && NewPlace(o, a, b) == p;
      if o in t { MovedIsThere(t, a, b, o); }
      if p in t {
        NothingUnder(t, b, p);
        assert o == a;
      } else if p in Moved(t, a, b) {
        WhatMoved(t, a, b, p);
        var from :| from in t && a <= from && p == NewPlace(from, a, b);
        assert from == a + from[|a|..] && from[|a|..] == p[|b|..];
      }
    } else {
      NewPlacesDiffer(a, b);
    }
  }

  /** A place that can be moved to has nothing below it. */
  lemma NothingUnder(t: Tree, b: Path, p: Path)
    requires IsTree(t) && b <= p && p in t && (b in t ==> !t[b].Dir?)
    ensures p == b
  {
    if b in t {
      LeavesHaveNoChildren(t, b, p);
    } else {
      NothingBelow(t, b);
    }
  }

  // ----- linking

  /** What the jail asks of a link's target: its first name does not begin with two dots. */
  predicate MayPointTo(jail: Option<Path>, target: Path) {
    jail.Some? && target != [] ==> !StartsDotDot(target[0])
  }

  /** Symlink succeeds if and only if the place is free and the target is let through, and then the link
      there has this text, and nothing else has changed. */
  ghost predicate MakesLink(t: Tree, u: Tree, q: Option<Path>, text: Path, allowed: bool, ok: bool) {
    && (ok <==> q.Some? && q.value !in t && allowed)
    && u == if ok then t[q.value := Link(Raw(true, text))] else t
  }

  lemma LexicalIff(j: Path, target: Path)
    ensures Lexical(j, target).Good? <==> MayPointTo(Some(j), target)
  {
    InJailMeansUnder(j, j + target);
    assert target != [] ==> (j + target)[|j|] == target[0];
  }

  lemma SymlinkEffect(t: Tree, jail: Option<Path>, target: Path, v: Path, limit: nat)
    requires IsTree(t) && CleanArgs(jail, v) && v != []
    ensures var d := LinkMade(t, jail, target, v, limit);
            MakesLink(t, d.t, Spot(t, jail, v, limit), HostPath(jail, target), MayPointTo(jail, target), d.Ok?)
  {
    SpotIsPlace(t, jail, v, limit);
    var (h, q) := (HostForCreate(t, jail, v, limit), Spot(t, jail, v, limit));
    var node := Link(Raw(true, HostPath(jail, target)));
    if jail.Some? { LexicalIff(jail.value, target); }
    if h.Good? { CreateAnswers(t, h.value, node, q, limit); }
    hide Spot, ForCreate, Create, Place, EndedAt, Lexical, MayPointTo;
  }

  lemma LinkMadeAs(t: Tree, jail: Option<Path>, target: Path, v: Path, limit: nat)
    requires IsTree(t)
    ensures var (text, h) := (Resolve(t, jail, target, false, limit), HostForCreate(t, jail, v, limit));
            LinkMade(t, jail, target, v, limit)
            == if text.Bad? then Err(t, text.e)
               else if h.Bad? then Err(t, h.e)
               else Create(t, h.value, Link(Raw(true, HostPath(jail, text.value))), limit)
  {
    hide ForCreate, Create;
  }

  /** The link leads to its target: following its name comes to what following the target's name does, with
      one link less to spare and those on the way to the link. */
  lemma LinkLeadsToTarget(t: Tree, jail: Option<Path>, target: Path, v: Path, limit: nat)
    requires IsTree(t) && CleanArgs(jail, v) && v != [] && LinkMade(t, jail, target, v, limit).Ok?
    ensures var u := LinkMade(t, jail, target, v, limit).t;
            var way := Walk(t, [], HostPath(jail, Up(v)), limit, true);
            && way.At? && way.left <= limit
            && Walk(u, [], HostPath(jail, v), limit, true)
               == if way.left == 0 then Fail(ELOOP) else Walk(u, [], HostPath(jail, target), way.left - 1, true)
  {
    hide LinkMade, Spot, Walk, IsTree, MakesLink, HostPath;
    SpotOfLink(t, jail, target, v, limit);
    SpotMeans(t, jail, v, limit);
    HostPathSplits(jail, v);
    LinkIsFollowed(t, Spot(t, jail, v, limit).value, HostPath(jail, Up(v)), v[|v| - 1], HostPath(jail, target), limit);
  }

  lemma SpotOfLink(t: Tree, jail: Option<Path>, target: Path, v: Path, limit: nat)
    requires IsTree(t) && CleanArgs(jail, v) && v != [] && LinkMade(t, jail, target, v, limit).Ok?
    ensures var q := Spot(t, jail, v, limit);
            && q.Some? && q.value !in t
            && LinkMade(t, jail, target, v, limit).t == t[q.value := Link(Raw(true, HostPath(jail, target)))]
  {
    hide LinkMade, Spot;
    SymlinkEffect(t, jail, target, v, limit);
  }

  lemma SpotMeans(t: Tree, jail: Option<Path>, v: Path, limit: nat)
    requires Spot(t, jail, v, limit).Some?
    ensures v != []
    ensures var d := Walk(t, [], HostPath(jail, Up(v)), limit, true);
            d.At? && d.path in t && t[d.path].Dir? && Spot(t, jail, v, limit) == Some(d.path + [v[|v| - 1]])
  {
    hide Walk, HostPath, LetsThrough;
  }

  lemma HostPathSplits(jail: Option<Path>, v: Path)
    requires v != []
    ensures HostPath(jail, v) == HostPath(jail, Up(v)) + [v[|v| - 1]]
  {
    assert v == Up(v) + [v[|v| - 1]];
  }

  lemma LinkIsFollowed(t: Tree, q: Path, host: Path, last: string, text: Path, limit: nat)
    requires IsTree(t) && IsName(last) && q !in t
    requires var way := Walk(t, [], host, limit, true);
             way.At? && way.path in t && t[way.path].Dir? && q == way.path + [last]
    ensures var (u, way) := (t[q := Link(Raw(true, text))], Walk(t, [], host, limit, true));
            && way.left <= limit
            && Walk(u, [], host + [last], limit, true)
               == if way.left == 0 then Fail(ELOOP) else Walk(u, [], text, way.left - 1, true)
  {
    var (u, way) := (t[q := Link(Raw(true, text))], Walk(t, [], host, limit, true));
    WalkEnds(t, [], host, limit, true);
    WalkInLargerTree(t, u, [], host, limit, true);
    WalkSplits(u, [], host, [last], limit, true);
    assert [last][1..] == [] && text + [] == text;
  }

  /** So reading the link reads the target, unless the links on the way are too many. */
  lemma ReadThroughLink(t: Tree, jail: Option<Path>, target: Path, v: Path, limit: nat)
    requires IsTree(t) && CleanArgs(jail, v) && CleanArgs(jail, target) && v != []
    requires LinkMade(t, jail, target, v, limit).Ok?
    ensures var u := LinkMade(t, jail, target, v, limit).t;
            && IsTree(u)
            && Read(u, jail, v, limit) == if EvalSymlinks(u, HostPath(jail, v), limit) == Bad(ELOOP) then Bad(ELOOP)
                                          else Read(u, jail, target, limit)
  {
    hide LinkMade, Spot, Walk, IsTree, Lexical, MakesLink, Read, HostPath, EvalSymlinks;
    CallsKeepTree(t, jail, v, target, [], false, limit);
    LinkResolvesAsTarget(t, jail, target, v, limit);
    LinkIsLexical(t, jail, target, v, limit);
    SameResolutionReads(LinkMade(t, jail, target, v, limit).t, jail, v, target, limit);
  }

  lemma LinkResolvesAsTarget(t: Tree, jail: Option<Path>, target: Path, v: Path, limit: nat)
    requires IsTree(t) && CleanArgs(jail, v) && v != [] && LinkMade(t, jail, target, v, limit).Ok?
    ensures var u := LinkMade(t, jail, target, v, limit).t;
            EvalSymlinks(u, HostPath(jail, v), limit)
            in {Bad(ELOOP), EvalSymlinks(u, HostPath(jail, target), limit)}
  {
    hide LinkMade, Spot, Walk, IsTree, HostPath;
    LinkLeadsToTarget(t, jail, target, v, limit);
    LowerLimitResolves(LinkMade(t, jail, target, v, limit).t, HostPath(jail, target),
      Walk(t, [], HostPath(jail, Up(v)), limit, true).left, limit);
  }

  lemma LinkIsLexical(t: Tree, jail: Option<Path>, target: Path, v: Path, limit: nat)
    requires IsTree(t) && CleanArgs(jail, v) && v != [] && LinkMade(t, jail, target, v, limit).Ok?
    ensures jail.Some? ==> Lexical(jail.value, v).Good? && Lexical(jail.value, target).Good?
  {
    hide LinkMade, Walk, IsTree, Lexical, CanonicalJail;
    SymlinkEffect(t, jail, target, v, limit);
    if jail.Some? {
      LexicalIff(jail.value, v);
      LexicalIff(jail.value, target);
    }
  }

  lemma LowerLimitResolves(u: Tree, p: Path, left: nat, limit: nat)
    requires left <= limit
    ensures left > 0 ==>
              var r := Walk(u, [], p, left - 1, true);
              r == Fail(ELOOP) || (if r.At? then EvalSymlinks(u, p, limit) == Good(r.path)
                                   else EvalSymlinks(u, p, limit) == Bad(LookupError(r)))
  {
    if left > 0 { WalkWithLowerLimit(u, [], p, limit, limit - (left - 1), true); }
    hide Walk;
  }

  lemma SameResolutionReads(u: Tree, jail: Option<Path>, v: Path, w: Path, limit: nat)
    requires IsTree(u) && (jail.Some? ==> Lexical(jail.value, v).Good? && Lexical(jail.value, w).Good?)
    requires var (a, b) := (EvalSymlinks(u, HostPath(jail, v), limit), EvalSymlinks(u, HostPath(jail, w), limit));
             a == Bad(ELOOP) || a == b
    ensures Read(u, jail, v, limit) == if EvalSymlinks(u, HostPath(jail, v), limit) == Bad(ELOOP) then Bad(ELOOP)
                                       else Read(u, jail, w, limit)
  {
    hide IsTree, CanonicalJail, EvalSymlinks, Lexical;
  }

  // ----- writing

  /** Where a write to v puts the data: at the place v names if that is free or a file; if a link is there, at
      what it leads to, which in a jail has to be a file in the jail, and otherwise may be a free place. */
  function FileSpot(t: Tree, jail: Option<Path>, v: Path, limit: nat): Option<Path> {
    match Spot(t, jail, v, limit)
    case None => None
    case Some(q) =>
      if q !in t || t[q].File? then Some(q)
      else if t[q].Dir? then None
      else
        match jail
        case None =>
          var f := Walk(t, [], v, limit, true);
          if f.Missing? || (f.At? && f.path in t && t[f.path].File?) then Some(f.path) else None
        case Some(j) =>
          var f := Walk(t, [], q, limit, true);
          if f.At? && f.path in t && t[f.path].File? && IsInJail(CanonicalJail(t, j, limit), f.path) then Some(f.path)
          else None
  }

  /** WriteFile succeeds if and only if there is such a place, and then the data is there and nothing else has
      changed. */
  ghost predicate Writes(t: Tree, u: Tree, f: Option<Path>, data: seq<int>, ok: bool) {
    (ok <==> f.Some?) && u == if ok then t[f.value := File(data)] else t
  }

  lemma WriteEffect(t: Tree, jail: Option<Path>, v: Path, data: seq<int>, limit: nat)
    requires IsTree(t) && CleanArgs(jail, v) && v != []
    ensures var d := Wrote(t, jail, v, data, limit); Writes(t, d.t, FileSpot(t, jail, v, limit), data, d.Ok?)
  {
    SpotIsPlace(t, jail, v, limit);
    match jail
    case None => PlainWriteAnswers(t, v, Spot(t, jail, v, limit), data, limit);
    case Some(j) =>
      var h := ForCreate(t, j, v, limit);
      if h.Good? { JailWriteAnswers(t, j, v, h.value, Spot(t, jail, v, limit), data, limit); }
      hide Spot, ForCreate, Walk, IsInJail, CanonicalJail, IsTree;
  }

  lemma PlainWriteAnswers(t: Tree, v: Path, q: Option<Path>, data: seq<int>, limit: nat)
    requires IsTree(t) && EndedAt(t, Place(t, v, limit), q) && q == Spot(t, None, v, limit)
    ensures var d := Syscalls.WriteFile(t, v, data, limit); Writes(t, d.t, FileSpot(t, None, v, limit), data, d.Ok?)
  {
    WalkEnds(t, [], v, limit, false);
    WalkEnds(t, [], v, limit, true);
    FollowOnlyMattersAtLinks(t, [], v, limit);
    hide Walk, Spot;
  }

  lemma JailWriteAnswers(t: Tree, j: Path, v: Path, h: Path, q: Option<Path>, data: seq<int>, limit: nat)
    requires IsTree(t) && ForCreate(t, j, v, limit) == Good(h) && EndedAt(t, Place(t, h, limit), q)
    requires q == Spot(t, Some(j), v, limit) && (q.Some? ==> h == q.value)
    ensures var d := JailWrite(t, j, v, data, limit); Writes(t, d.t, FileSpot(t, Some(j), v, limit), data, d.Ok?)
  {
    OpenAnswers(t, j, v, h, limit);
    var f := Walk(t, [], h, limit, true);
    WalkEnds(t, [], h, limit, true);
    if q.Some? && q.value in t && t[q.value].Link? {
      if f.At? { PhysicalWrite(t, f.path, data, limit); }
    } else {
      FollowOnlyMattersAtLinks(t, [], h, limit);
    }
    hide Walk, Spot, ForCreate, ForOpen, IsInJail, CanonicalJail, IsTree;
  }

  lemma OpenAnswers(t: Tree, j: Path, v: Path, h: Path, limit: nat)
    requires IsTree(t) && ForCreate(t, j, v, limit) == Good(h)
    ensures var (o, a, f) := (ForOpen(t, j, v, limit), Place(t, h, limit), Walk(t, [], h, limit, true));
            if a.At? && a.path in t && t[a.path].Link? then
              (o.Good? <==> f.At? && IsInJail(CanonicalJail(t, j, limit), f.path)) && (o.Good? ==> o.value == f.path)
            else o == Good(h)
  {
    WalkEnds(t, [], h, limit, false);
    hide ForCreate, CanonicalJail, IsInJail, Walk, IsTree;
  }

  lemma PhysicalWrite(t: Tree, p: Path, data: seq<int>, limit: nat)
    requires IsTree(t) && p in t && !t[p].Link?
    ensures WriteFile(t, p, data, limit) == if t[p].Dir? then Err(t, EISDIR) else Ok(t[p := File(data)])
  {
    NodesResolve(t, p, limit, true);
  }
}
