/** What following a path finds, and what a read finds after a write: the two go through different
    resolvers, and agree but for one quirk of the jail test. */
module ReadAfterWrite {
  import opened Paths
  import opened Os
  import opened Syscalls
  import opened Resolvers
  import opened Confinement

  /** ReadFile of the jailed filesystem: the follow resolver, back to a host path, and a plain read. */
  function JailRead(t: Tree, j: Path, v: Path, limit: nat): Result<seq<int>>
    requires IsTree(t)
  {
    match Follow(t, j, v, limit)
    case Bad(e) => Bad(e)
    case Good(w) => Syscalls.ReadFile(t, j + w, limit)
  }

  /** A path under the jail resolves through the jail; so if it resolves, so does the jail, and with
      at least as many links to spare. */
  lemma ThroughJail(t: Tree, j: Path, v: Path, limit: nat)
    requires Walk(t, [], j + v, limit, true).At?
    ensures Walk(t, [], j, limit, true).At?
    ensures var r := Walk(t, [], j, limit, true);
            CanonicalJail(t, j, limit) == r.path && (v != [] ==>
              Walk(t, [], j + v, limit, true) == Walk(t, r.path, v, r.left, true))
  {
    if v == [] {
      assert j + v == j;
    } else {
      WalkSplits(t, [], j, v, limit, true);
    }
  }

  /** If the jail resolves to cj, a node below cj is found through the jail's own path. */
  lemma FoundThroughJail(t: Tree, j: Path, w: Path, limit: nat)
    requires IsTree(t) && Walk(t, [], j, limit, true).At?
    requires var cj := Walk(t, [], j, limit, true).path; cj + w in t && !t[cj + w].Link?
    ensures var r := Walk(t, [], j, limit, true); Walk(t, [], j + w, limit, true) == At(r.path + w, r.left)
  {
    var r := Walk(t, [], j, limit, true);
    if w == [] {
      assert j + w == j && r.path + w == r.path;
    } else {
      WalkSplits(t, [], j, w, limit, true);
      WalkDown(t, r.path, w, r.left, true);
    }
  }

  /** Follow-resolution agrees with the operating system and is idempotent. When Follow answers w, the
      host path of w denotes the node that the jail joined with v denotes; that node is in the
      canonical jail; and following w again answers w. The jail's own path may hold links. */
  lemma FollowAgrees(t: Tree, j: Path, v: Path, limit: nat)
    requires IsTree(t) && Names(j) && Names(v) && Follow(t, j, v, limit).Good?
    ensures var w := Follow(t, j, v, limit).value;
            var node := Walk(t, [], j + v, limit, true);
            && node.At? && CanonicalJail(t, j, limit) + w == node.path
            && (var again := Walk(t, [], j + w, limit, true); again.At? && again.path == node.path)
            && Names(w) && Follow(t, j, w, limit) == Good(w)
  {
    var cj := CanonicalJail(t, j, limit);
    var node := Walk(t, [], j + v, limit, true);
    WalkEnds(t, [], j + v, limit, true);
    ThroughJail(t, j, v, limit);
    InJailMeansUnder(cj, node.path);
    PrefixesAreDirs(t, node.path, |node.path|);
    var w := node.path[|cj|..];
    NamesOfParts(node.path, |cj|);
    assert cj + w == node.path;
    RemoveUndoesJoin(cj, w);
    FoundThroughJail(t, j, w, limit);
    InJailMeansUnder(j, j + w);
  }

  /** What a read finds at a path whose node is known. */
  lemma ReadFinds(t: Tree, j: Path, v: Path, q: Path, left: nat, limit: nat)
    requires IsTree(t) && Names(j) && Names(v) && Lexical(j, v).Good?
    requires Walk(t, [], j + v, limit, true) == At(q, left) && q in t && t[q].File? && CanonicalJail(t, j, limit) < q
    ensures JailRead(t, j, v, limit) == if StartsDotDot(q[|CanonicalJail(t, j, limit)|]) then Bad(Escape)
        else Good(t[q].data)
  {
    var cj := CanonicalJail(t, j, limit);
    InJailMeansUnder(cj, q);
    if Follow(t, j, v, limit).Good? { FollowAgrees(t, j, v, limit); }
  }

  // ----- where a successful write put the data

  /** A successful write stores the data at a node strictly below the canonical jail. */
  lemma WriteLands(t: Tree, j: Path, v: Path, data: seq<int>, limit: nat) returns (q: Path)
    requires IsTree(t) && Names(j) && Names(v) && v != [] && JailWrite(t, j, v, data, limit).Ok?
    ensures JailWrite(t, j, v, data, limit).t == t[q := File(data)] && CanonicalJail(t, j, limit) < q
    ensures ForOpen(t, j, v, limit) == Good(q) && q != [] && (q in t ==> t[q].File?)
    ensures IsTree(t[q := File(data)])
  {
    var cj := CanonicalJail(t, j, limit);
    var h := ForOpen(t, j, v, limit).value;
    var r := Walk(t, [], h, limit, true);
    WriteIsConfined(t, j, v, data, limit);
    OpenIsContained(t, j, v, limit);
    OpenedFileIsBelow(t, j, v, limit);
    OpenLandsAtItself(t, j, v, limit);
    WalkEnds(t, [], h, limit, true);
    q := r.path;
  }

  /** The open resolver's path is the place it leads to. */
  lemma OpenLandsAtItself(t: Tree, j: Path, v: Path, limit: nat)
    requires IsTree(t) && Names(j) && Names(v) && v != [] && ForOpen(t, j, v, limit).Good?
    ensures var h := ForOpen(t, j, v, limit).value;
            var r := Walk(t, [], h, limit, true); r.Fail? || r.path == h
  {
    var host := ForCreate(t, j, v, limit).value;
    var h := ForOpen(t, j, v, limit).value;
    var r := Walk(t, [], host, limit, false);
    WalkEnds(t, [], host, limit, false);
    WalkEnds(t, [], host, limit, true);
    if r.At? && t[r.path].Link? {
      NodesResolve(t, h, limit, true);
    } else {
      FollowOnlyMattersAtLinks(t, [], host, limit);
      CreateLandsAtItself(t, j, v, limit);
    }
  }

  lemma CreateLandsAtItself(t: Tree, j: Path, v: Path, limit: nat)
    requires IsTree(t) && Names(j) && Names(v) && v != [] && ForCreate(t, j, v, limit).Good?
    ensures var h := ForCreate(t, j, v, limit).value;
            var r := Walk(t, [], h, limit, false); r.Fail? || r.path == h
  {
    var cur, missing := CreateParts(t, j, v, limit);
    if Walk(t, [], cur, limit, true).At? {
      BelowCanonical(t, cur, missing, limit);
      OneStepDown(t, Walk(t, [], cur, limit, true).path, missing, limit);
    } else {
      BelowDangling(t, cur, missing, limit, false);
    }
  }

  // ----- the shapes of the open resolver's answer

  /** The ancestor resolved to c, and the last component is not a link. */
  ghost predicate Plain(t: Tree, h: Path, c: Path, missing: seq<string>) {
    && c in t && !t[c].Link? && h == c + missing && missing != [] && Names(missing)
    && (h in t ==> !t[h].Link?) && (|missing| > 1 ==> c + [missing[0]] !in t)
  }

  /** The last component is a link, at c + missing, that leads to h. */
  ghost predicate Linked(t: Tree, h: Path, c: Path, missing: seq<string>, limit: nat) {
    && c in t && !t[c].Link? && |missing| == 1 && Names(missing)
    && c + missing in t && t[c + missing].Link? && h in t && !t[h].Link?
    && Walk(t, [], c + missing, limit, true).At? && Walk(t, [], c + missing, limit, true).path == h
  }

  /** cur and missing are the ancestor and the rest that the open resolver worked with. */
  ghost predicate OpenShape(t: Tree, j: Path, v: Path, limit: nat, cur: Path, missing: seq<string>)
    requires IsTree(t) && ForOpen(t, j, v, limit).Good?
  {
    var h := ForOpen(t, j, v, limit).value;
    var cj := CanonicalJail(t, j, limit);
    var r := Walk(t, [], cur, limit, true);
    && cur + missing == j + v && Located(t, cur, missing, limit) && Names(missing)
    && (!r.At? ==> h == cur + missing && cj <= cur)
    && (r.At? ==> cj <= r.path && (Plain(t, h, r.path, missing) || (Linked(t, h, r.path, missing, limit) && cj <= h)))
  }

  /** The open resolver's answer from the create resolver's. */
  lemma OpenFromCreate(t: Tree, j: Path, v: Path, limit: nat, host: Path)
    requires IsTree(t) && ForCreate(t, j, v, limit) == Good(host) && ForOpen(t, j, v, limit).Good?
    ensures var a := Walk(t, [], host, limit, false);
            var b := Walk(t, [], host, limit, true);
            var h := ForOpen(t, j, v, limit).value;
            if a.At? && a.path in t && t[a.path].Link? then b.At? && b.path == h && CanonicalJail(t, j, limit) <= h
              else h == host
  {
    WalkEnds(t, [], host, limit, false);
    InJailMeansUnder(CanonicalJail(t, j, limit), ForOpen(t, j, v, limit).value);
  }

  lemma OpenShapes(t: Tree, j: Path, v: Path, limit: nat) returns (cur: Path, missing: seq<string>)
    requires IsTree(t) && Names(j) && Names(v) && v != [] && ForOpen(t, j, v, limit).Good?
    ensures OpenShape(t, j, v, limit, cur, missing)
  {
    cur, missing := CreateParts(t, j, v, limit);
    var host := ForCreate(t, j, v, limit).value;
    OpenFromCreate(t, j, v, limit, host);
    var r := Walk(t, [], cur, limit, true);
    hide ForCreate, ForOpen, CanonicalJail, Lstat;
    if !r.At? {
      BelowDangling(t, cur, missing, limit, false);
    } else {
      BelowCanonical(t, cur, missing, limit);
      OneStepDown(t, r.path, missing, limit);
      if host in t { NodesResolve(t, host, limit, false); }
      WalkEnds(t, [], host, limit, false);
      WalkEnds(t, [], host, limit, true);
    }
  }

  // ----- reading the data back

  /** How the path of a plain target resolves once the target is there. */
  lemma PlainResolves(t: Tree, u: Tree, cur: Path, h: Path, missing: seq<string>, limit: nat)
    requires IsTree(t) && IsTree(u) && Extends(t, u) && h in u && u[h].File?
    requires var r := Walk(t, [], cur, limit, true); r.At? && Plain(t, h, r.path, missing)
    ensures Walk(u, [], cur + missing, limit, true) == At(h, Walk(t, [], cur, limit, true).left)
    ensures Walk(t, [], cur + missing, limit, true) != Fail(ELOOP)
  {
    var r := Walk(t, [], cur, limit, true);
    WalkInLargerTree(t, u, [], cur, limit, true);
    WalkSplits(u, [], cur, missing, limit, true);
    WalkDown(u, r.path, missing, r.left, true);
    WalkSplits(t, [], cur, missing, limit, true);
    assert IsName(missing[0]);
    if |missing| == 1 {
      assert h == r.path + [missing[0]];
      if h in t && t[r.path].Dir? { LastStep(t, r.path, missing[0], r.left, true); assert missing == [missing[0]]; }
    }
  }

  /** How the path of a linked target resolves: to the target, unless links run out on the way. */
  lemma LinkedResolves(t: Tree, u: Tree, cur: Path, h: Path, missing: seq<string>, limit: nat)
    requires IsTree(t) && Extends(t, u)
    requires var r := Walk(t, [], cur, limit, true); r.At? && r.left <= limit && Linked(t, h, r.path, missing, limit)
    ensures var w := Walk(t, [], cur + missing, limit, true);
            (w == Fail(ELOOP) || (w.At? && w.path == h)) && Walk(u, [], cur + missing, limit, true) == w
  {
    var r := Walk(t, [], cur, limit, true);
    WalkSplits(t, [], cur, missing, limit, true);
    WalkSplits(t, [], r.path, missing, limit, true);
    NodesResolve(t, r.path, limit, true);
    WalkWithLowerLimit(t, r.path, missing, limit, limit - r.left, true);
    WalkInLargerTree(t, u, [], cur + missing, limit, true);
  }

  /** A canonical jail that is a prefix of a node is a resolved jail. */
  lemma JailResolves(t: Tree, j: Path, p: Path, limit: nat)
    requires IsTree(t) && p in t && !t[p].Link? && CanonicalJail(t, j, limit) <= p
    ensures Walk(t, [], j, limit, true).At?
  {
    if !Walk(t, [], j, limit, true).At? {
      PrefixesAreDirs(t, p, |j|);
      assert p[..|j|] == j;
      assert |j| == |p| ==> j == p;
      NodesResolve(t, j, limit, true);
    }
  }

  lemma ResolvedJailStays(t: Tree, u: Tree, j: Path, limit: nat)
    requires Extends(t, u) && Walk(t, [], j, limit, true).At?
    ensures CanonicalJail(u, j, limit) == CanonicalJail(t, j, limit)
  {
    WalkInLargerTree(t, u, [], j, limit, true);
  }

  /** What a read of v finds in a tree u that has the data at the place the open resolver chose. */
  function ReadBack(t: Tree, j: Path, v: Path, data: seq<int>, limit: nat): Result<seq<int>>
    requires IsTree(t) && ForOpen(t, j, v, limit).Good? && CanonicalJail(t, j, limit) < ForOpen(t, j, v, limit).value
  {
    if EvalSymlinks(t, j + v, limit) == Bad(ELOOP) then Bad(ELOOP)
    else if StartsDotDot(ForOpen(t, j, v, limit).value[|CanonicalJail(t, j, limit)|]) then Bad(Escape)
    else Good(data)
  }

  lemma PlacedDataIsRead(t: Tree, u: Tree, j: Path, v: Path, data: seq<int>, limit: nat, cur: Path,
      missing: seq<string>)
    requires IsTree(t) && IsTree(u) && Names(j) && Names(v) && v != [] && ForOpen(t, j, v, limit).Good? && Extends(t, u)
    requires OpenShape(t, j, v, limit, cur, missing) && Walk(t, [], cur, limit, true).At?
    requires var h := ForOpen(t, j, v, limit).value;
             h in u && u[h] == File(data) && CanonicalJail(t, j, limit) < h
    ensures JailRead(u, j, v, limit) == ReadBack(t, j, v, data, limit)
  {
    var h := ForOpen(t, j, v, limit).value;
    var r := Walk(t, [], cur, limit, true);
    WalkEnds(t, [], cur, limit, true);
    JailResolves(t, j, r.path, limit);
    ResolvedJailStays(t, u, j, limit);
    hide ForOpen, CanonicalJail;
    if Plain(t, h, r.path, missing) {
      PlainResolves(t, u, cur, h, missing, limit);
    } else {
      LinkedResolves(t, u, cur, h, missing, limit);
    }
    var w := Walk(u, [], j + v, limit, true);
    if w.At? { ReadFinds(u, j, v, h, w.left, limit); }
  }

  /** Read after write. After a successful WriteFile a ReadFile of the same path returns the data,
      whatever links lead to it, with two exceptions: the links on the path as written, taken
      together, exceed the limit; or the place written is a direct child of the canonical jail whose
      name begins with "..", reached through a link, and the jail test turns the read away. */
  lemma ReadAfterWrite(t: Tree, j: Path, v: Path, data: seq<int>, limit: nat)
    requires IsTree(t) && Names(j) && Names(v) && v != [] && JailWrite(t, j, v, data, limit).Ok?
    ensures IsTree(JailWrite(t, j, v, data, limit).t)
    ensures ForOpen(t, j, v, limit).Good? && CanonicalJail(t, j, limit) < ForOpen(t, j, v, limit).value
    ensures JailRead(JailWrite(t, j, v, data, limit).t, j, v, limit) == ReadBack(t, j, v, data, limit)
  {
    hide JailWrite, ForOpen, CanonicalJail, JailRead, ReadBack, OpenShape, Walk;
    var q := WriteLands(t, j, v, data, limit);
    var cur, missing := OpenShapes(t, j, v, limit);
    WriteNotDangling(t, j, v, data, limit, cur, missing);
    PlacedDataIsRead(t, t[q := File(data)], j, v, data, limit, cur, missing);
  }

  lemma WriteNotDangling(t: Tree, j: Path, v: Path, data: seq<int>, limit: nat, cur: Path, missing: seq<string>)
    requires IsTree(t) && JailWrite(t, j, v, data, limit).Ok? && OpenShape(t, j, v, limit, cur, missing)
    ensures Walk(t, [], cur, limit, true).At?
  {
    if !Walk(t, [], cur, limit, true).At? { BelowDangling(t, cur, missing, limit, true); }
  }

  // ----- a write that cannot be read back

  /** A jail with one link in it, to the jail's own root. */
  function LoopedJail(jail: string, l: string): Tree {
    map[[] := Dir, [jail] := Dir, [jail, l] := Link(Raw(true, [jail]))]
  }

  lemma LoopedJailResolves(jail: string, l: string, n: nat)
    requires IsName(jail) && IsName(l) && n > 0
    ensures var t := LoopedJail(jail, l);
            && IsTree(t)
            && Walk(t, [], [jail], n, true) == At([jail], n)
            && Walk(t, [], [jail, l], n, false) == At([jail, l], n)
            && Walk(t, [], [jail, l], n, true) == At([jail], n - 1)
  {
    var t := LoopedJail(jail, l);
    assert Up([jail]) == [] && Up([jail, l]) == [jail];
    NodesResolve(t, [jail], n, true);
    NodesResolve(t, [jail], n - 1, true);
    NodesResolve(t, [jail, l], n, false);
    assert [jail] + [l] == [jail, l] && [jail] + [] == [jail];
    WalkSplits(t, [], [jail], [l], n, true);
    assert [l][1..] == [];
  }

  lemma LoopedJailWalks(jail: string, l: string, name: string, n: nat)
    requires IsName(jail) && IsName(l) && IsName(name) && name != l && n > 0
    ensures var t := LoopedJail(jail, l);
            && IsTree(t)
            && (forall f :: Walk(t, [], [jail, name], n, f) == Missing([jail, name], n))
            && Walk(t, [], [jail] + [l, name], n, true) == Missing([jail, name], n - 1)
  {
    var t := LoopedJail(jail, l);
    LoopedJailResolves(jail, l, n);
    assert [jail] + [name] == [jail, name];
    forall f ensures Walk(t, [], [jail, name], n, f) == Missing([jail, name], n) {
      WalkSplits(t, [], [jail], [name], n, f);
      LastStep(t, [jail], name, n, f);
    }
    assert [jail, l] + [name] == [jail] + [l, name];
    WalkSplits(t, [], [jail, l], [name], n, true);
    LastStep(t, [jail], name, n - 1, true);
  }

  lemma LoopedJailOpens(jail: string, l: string, name: string, limit: nat)
    requires IsName(jail) && IsName(l) && !StartsDotDot(l) && IsName(name) && name != l && limit > 0
    ensures IsTree(LoopedJail(jail, l)) && CanonicalJail(LoopedJail(jail, l), [jail], limit) == [jail]
    ensures ForOpen(LoopedJail(jail, l), [jail], [l, name], limit) == Good([jail, name])
  {
    var t := LoopedJail(jail, l);
    var j, v := [jail], [l, name];
    LoopedJailResolves(jail, l, limit);
    LoopedJailWalks(jail, l, name, limit);
    InJailMeansUnder(j, j + v);
    InJailMeansUnder(j, j);
    assert Up(j + v) == [jail, l] && j + [name] == [jail, name];
    hide IsInJail, Walk;
    assert Ancestor(t, [jail, l], [name], limit) == Good(([jail, l], [name]));
    assert ForCreate(t, j, v, limit) == Good([jail, name]);
  }

  /** Where the link l leads to the jail's root, l/name is written at the root; a name that begins
      with ".." cannot be read back. */
  lemma WrittenButNotReadable(jail: string, l: string, name: string, data: seq<int>, limit: nat)
    requires IsName(jail) && IsName(l) && !StartsDotDot(l) && IsName(name) && StartsDotDot(name) && name != l
        && limit > 0
    ensures var t := LoopedJail(jail, l);
            && IsTree(t) && JailWrite(t, [jail], [l, name], data, limit) == Ok(t[[jail, name] := File(data)])
            && IsTree(t[[jail, name] := File(data)])
            && JailRead(t[[jail, name] := File(data)], [jail], [l, name], limit) == Bad(Escape)
  {
    LoopedJailWalks(jail, l, name, limit);
    LoopedJailOpens(jail, l, name, limit);
    hide ForOpen, CanonicalJail, LoopedJail, Walk, JailRead;
    assert Names([jail]) && Names([l, name]);
    ReadAfterWrite(LoopedJail(jail, l), [jail], [l, name], data, limit);
  }
}
