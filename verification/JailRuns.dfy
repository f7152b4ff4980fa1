/** Runs of the jailed filesystem. If the jail starts without links, then however its own
    operations change it, every link in it points into it and no resolution leaves it. */
module JailRuns {
  import opened Paths
  import opened Os
  import opened Syscalls
  import opened Resolvers
  import opened Confinement
  import opened AtomicWrite
  import opened AtomicEffects
  import opened AtomicInJail

  /** An operation on virtual paths. AtomicWriteFile may stop at any of its states. */
  datatype Op =
    | MkdirOp(v: Path, all: bool) | WriteOp(v: Path, data: seq<int>) | RemoveOp(v: Path, all: bool)
    | RenameOp(v: Path, w: Path) | SymlinkOp(target: Path, v: Path)
    | AtomicOp(v: Path, data: seq<int>, suffix: string)

  /** Clean, and not on the jail's root. */
  predicate OffRoot(op: Op) {
    match op
    case RenameOp(v, w) => Names(v) && Names(w) && v != [] && w != []
    case SymlinkOp(target, v) => Names(target) && Names(v) && v != []
    case _ => Names(op.v) && op.v != []
  }

  /** op can take tree t to tree u. */
  ghost predicate Next(t: Tree, u: Tree, j: Path, op: Op, limit: nat)
    requires IsTree(t)
  {
    match op
    case MkdirOp(v, all) => u == JailMkdir(t, j, v, all, limit).t
    case WriteOp(v, data) => u == JailWrite(t, j, v, data, limit).t
    case RemoveOp(v, all) => u == JailRemove(t, j, v, all, limit).t
    case RenameOp(v, w) => u == JailRename(t, j, v, w, limit).t
    case SymlinkOp(target, v) => u == JailSymlink(t, j, target, v, limit).t
    case AtomicOp(v, data, suffix) =>
      match ForOpen(t, j, v, limit)
      case Bad(_) => u == t
      case Good(h) => u == t || (h != [] && StepState(t, u, h, suffix, data, limit))
  }

  /** The text of a link made in jail j: absolute, clean and under j as written. */
  predicate PointsInside(target: Raw, j: Path) {
    target.abs && j <= target.comps && Names(target.comps)
  }

  predicate LinksPointInside(t: Tree, j: Path, cj: Path) {
    forall p :: p in t && cj < p && t[p].Link? ==> PointsInside(t[p].target, j)
  }

  /** `frame` holds the nodes that are not below cj and resolves the jail to cj; t keeps the frame,
      and the links of t below cj point inside. */
  ghost predicate Invariant(frame: Tree, t: Tree, j: Path, cj: Path, limit: nat) {
    && IsTree(t) && Names(j)
    && (forall p :: p in frame ==> !(cj < p) && p in t && t[p] == frame[p])
    && (var r := Walk(frame, [], j, limit, true); r.At? && r.path == cj)
    && LinksPointInside(t, j, cj)
  }

  lemma JailStays(frame: Tree, t: Tree, j: Path, cj: Path, limit: nat)
    requires Invariant(frame, t, j, cj, limit)
    ensures CanonicalJail(t, j, limit) == cj
    ensures var r := Walk(t, [], j, limit, true); r.At? && r.path == cj
  {
    WalkInLargerTree(frame, t, [], j, limit, true);
  }

  // ----- links

  lemma MovedLinks(t: Tree, from: Path, to: Path, j: Path, cj: Path)
    requires LinksPointInside(t, j, cj) && cj < from
    ensures LinksPointInside(Moved(t, from, to), j, cj)
  {
    NewPlacesDiffer(from, to);
    assert forall o :: o in t && from <= o ==> cj < o;
  }

  lemma CreatedLinks(t: Tree, h: Path, node: Node, limit: nat, j: Path, cj: Path)
    requires LinksPointInside(t, j, cj) && (node.Link? ==> PointsInside(node.target, j))
    ensures LinksPointInside(Create(t, h, node, limit).t, j, cj)
  {
  }

  lemma RenamedLinks(t: Tree, src: Path, dst: Path, limit: nat, j: Path, cj: Path)
    requires LinksPointInside(t, j, cj) && Below(cj, Walk(t, [], src, limit, false))
    ensures LinksPointInside(Rename(t, src, dst, limit).t, j, cj)
  {
    var a := Walk(t, [], src, limit, false);
    var b := Walk(t, [], dst, limit, false);
    if a.At? && !b.Fail? { MovedLinks(t, a.path, b.path, j, cj); }
  }

  lemma MkdirLinks(t: Tree, j: Path, v: Path, all: bool, limit: nat, cj: Path)
    requires IsTree(t) && LinksPointInside(t, j, cj)
    ensures LinksPointInside(JailMkdir(t, j, v, all, limit).t, j, cj)
  {
    if ForCreate(t, j, v, limit).Good? {
      var h := ForCreate(t, j, v, limit).value;
      hide ForCreate;
      if all { MkdirAllAddsDirs(t, h, limit); } else { CreatedLinks(t, h, Dir, limit, j, cj); }
    }
  }

  lemma RenameLinks(t: Tree, j: Path, v: Path, w: Path, limit: nat)
    requires IsTree(t) && Names(j) && Names(v) && v != [] && LinksPointInside(t, j, CanonicalJail(t, j, limit))
    ensures LinksPointInside(JailRename(t, j, v, w, limit).t, j, CanonicalJail(t, j, limit))
  {
    if ForCreate(t, j, v, limit).Good? && ForCreate(t, j, w, limit).Good? {
      CreateIsContained(t, j, v, limit);
      RenamedLinks(t, ForCreate(t, j, v, limit).value, ForCreate(t, j, w, limit).value, limit, j,
        CanonicalJail(t, j, limit));
    }
  }

  lemma SymlinkLinks(t: Tree, j: Path, target: Path, v: Path, limit: nat, cj: Path)
    requires IsTree(t) && Names(j) && Names(target) && LinksPointInside(t, j, cj)
    ensures LinksPointInside(JailSymlink(t, j, target, v, limit).t, j, cj)
  {
    if ForCreate(t, j, v, limit).Good? {
      assert PointsInside(Raw(true, j + target), j);
      CreatedLinks(t, ForCreate(t, j, v, limit).value, Link(Raw(true, j + target)), limit, j, cj);
    }
  }

  lemma AtomicLinks(t: Tree, u: Tree, h: Path, suffix: string, data: seq<int>, limit: nat, j: Path, cj: Path)
    requires IsTree(t) && h != [] && StepState(t, u, h, suffix, data, limit) && LinksPointInside(t, j, cj)
    ensures LinksPointInside(u, j, cj)
  {
    MkdirAllAddsDirs(t, Up(h), limit);
  }

  lemma WriteLinks(t: Tree, j: Path, v: Path, data: seq<int>, limit: nat, cj: Path)
    requires IsTree(t) && LinksPointInside(t, j, cj)
    ensures LinksPointInside(JailWrite(t, j, v, data, limit).t, j, cj)
  {
  }

  lemma RemoveLinks(t: Tree, j: Path, v: Path, all: bool, limit: nat, cj: Path)
    requires IsTree(t) && LinksPointInside(t, j, cj)
    ensures LinksPointInside(JailRemove(t, j, v, all, limit).t, j, cj)
  {
  }

  lemma LinksStayInside(t: Tree, u: Tree, j: Path, cj: Path, op: Op, limit: nat)
    requires IsTree(t) && Names(j) && OffRoot(op) && Next(t, u, j, op, limit)
    requires CanonicalJail(t, j, limit) == cj && LinksPointInside(t, j, cj)
    ensures LinksPointInside(u, j, cj)
  {
    hide LinksPointInside, JailMkdir, JailWrite, JailRemove, JailRename, JailSymlink, StepState, IsTree, CanonicalJail,
      ForOpen;
    match op
    case MkdirOp(v, all) => MkdirLinks(t, j, v, all, limit, cj);
    case WriteOp(v, data) => WriteLinks(t, j, v, data, limit, cj);
    case RemoveOp(v, all) => RemoveLinks(t, j, v, all, limit, cj);
    case RenameOp(v, w) => RenameLinks(t, j, v, w, limit);
    case SymlinkOp(target, v) => SymlinkLinks(t, j, target, v, limit, cj);
    case AtomicOp(v, data, suffix) =>
      if u != t { AtomicLinks(t, u, ForOpen(t, j, v, limit).value, suffix, data, limit, j, cj); }
  }

  // ----- nodes outside the jail

  /** Every node that is not below cj is still there, unchanged. */
  ghost predicate KeepsOutside(t: Tree, u: Tree, cj: Path) {
    forall p :: p in t && !(cj < p) ==> p in u && u[p] == t[p]
  }

  /** An atomic write through a link to the jail's own root. */
  ghost predicate OpensRoot(t: Tree, j: Path, op: Op, limit: nat)
    requires IsTree(t)
  {
    op.AtomicOp? && ForOpen(t, j, op.v, limit) == Good(CanonicalJail(t, j, limit))
  }

  /** Besides nodes below cj, the only difference is a temporary file next to cj. */
  ghost predicate OnlyTempOutside(t: Tree, u: Tree, cj: Path, suffix: string) {
    && KeepsOutside(t, u, cj)
    && forall p :: p in u && p !in t && !(cj < p) ==> cj != [] && p == TempPath(cj, suffix)
  }

  lemma AtomicStaysInside(t: Tree, u: Tree, j: Path, v: Path, suffix: string, data: seq<int>, limit: nat)
    requires IsTree(t) && Names(j) && Names(v) && v != [] && ForOpen(t, j, v, limit).Good?
        && ForOpen(t, j, v, limit).value != []
    requires StepState(t, u, ForOpen(t, j, v, limit).value, suffix, data, limit)
    ensures var cj := CanonicalJail(t, j, limit);
            && IsTree(u)
            && if ForOpen(t, j, v, limit).value == cj then OnlyTempOutside(t, u, cj, suffix) else OnlyBelow(t, u, cj)
  {
    hide StepState, MkdirAll, IsTree, Walk, ForOpen, CanonicalJail;
    var h := ForOpen(t, j, v, limit).value;
    var cj := CanonicalJail(t, j, limit);
    OpenIsPrepared(t, j, v, limit);
    StepKeepsTree(t, u, h, suffix, data, limit);
    if h != cj {
      OpenIsTarget(t, j, v, limit);
      assert cj < h by { assert |cj| == |h| ==> cj == h; }
      StepIsConfined(t, u, h, cj, suffix, data, limit);
    } else {
      RootIsADirectory(t, j, v, limit);
      TempBesideDirectory(t, h, suffix, data, limit);
    }
  }

  lemma OutsideStays(t: Tree, u: Tree, j: Path, op: Op, limit: nat)
    requires IsTree(t) && Names(j) && OffRoot(op) && Next(t, u, j, op, limit)
    ensures var cj := CanonicalJail(t, j, limit);
            && IsTree(u)
            && if OpensRoot(t, j, op, limit) then OnlyTempOutside(t, u, cj, op.suffix) else OnlyBelow(t, u, cj)
  {
    hide StepState, IsTree, ForOpen, CanonicalJail, JailMkdir, JailWrite, JailRemove, JailRename, JailSymlink;
    match op
    case MkdirOp(v, all) => MkdirIsConfined(t, j, v, all, limit);
    case WriteOp(v, data) => WriteIsConfined(t, j, v, data, limit);
    case RemoveOp(v, all) => RemoveIsConfined(t, j, v, all, limit);
    case RenameOp(v, w) => RenameIsConfined(t, j, v, w, limit);
    case SymlinkOp(target, v) => SymlinkIsConfined(t, j, target, v, limit);
    case AtomicOp(v, data, suffix) =>
      if ForOpen(t, j, v, limit).Good? && ForOpen(t, j, v, limit).value != [] && u != t {
        AtomicStaysInside(t, u, j, v, suffix, data, limit);
      }
  }

  /** Every operation keeps the invariant. */
  lemma StepKeeps(frame: Tree, t: Tree, u: Tree, j: Path, cj: Path, op: Op, limit: nat)
    requires Invariant(frame, t, j, cj, limit) && OffRoot(op) && Next(t, u, j, op, limit)
    ensures Invariant(frame, u, j, cj, limit)
  {
    JailStays(frame, t, j, cj, limit);
    OutsideStays(t, u, j, op, limit);
    LinksStayInside(t, u, j, cj, op, limit);
  }

  // ----- no resolution leaves the jail

  /** Resolution that starts in the jail ends in the jail. */
  lemma {:induction false} StaysInside(frame: Tree, t: Tree, j: Path, cj: Path, limit: nat, cur: Path,
      rest: seq<string>, n: nat, follow: bool)
    requires Invariant(frame, t, j, cj, limit) && cj <= cur && Names(rest) && n <= limit
    ensures Within(cj, Walk(t, cur, rest, n, follow))
    decreases n, |rest|
  {
    if rest != [] && cur in t && t[cur].Dir? {
      assert IsName(rest[0]);
      var p := cur + [rest[0]];
      if p in t && !t[p].Link? {
        StaysInside(frame, t, j, cj, limit, p, rest[1..], n, follow);
      } else if p in t && !(|rest| == 1 && !follow) && n > 0 {
        var w := t[p].target.comps[|j|..];
        assert t[p].target.comps == j + w;
        assert t[p].target.comps + rest[1..] == j + (w + rest[1..]);
        NamesOfParts(t[p].target.comps, |j|);
        EntersInside(frame, t, j, cj, limit, w + rest[1..], n - 1, follow);
      }
    }
  }

  /** Resolution through the jail's own path ends in the jail. */
  lemma {:induction false} EntersInside(frame: Tree, t: Tree, j: Path, cj: Path, limit: nat, w: seq<string>, n: nat,
      follow: bool)
    requires Invariant(frame, t, j, cj, limit) && Names(w) && n <= limit && (w != [] || follow)
    ensures Within(cj, Walk(t, [], j + w, n, follow))
    decreases n, |w| + 1
  {
    JailStays(frame, t, j, cj, limit);
    WalkWithLowerLimit(t, [], j, limit, limit - n, true);
    if w == [] {
      assert j + w == j;
    } else {
      WalkSplits(t, [], j, w, n, follow);
      var r := Walk(t, [], j, n, true);
      if r.At? {
        WalkEnds(t, [], j, n, true);
        StaysInside(frame, t, j, cj, limit, cj, w, r.left, follow);
      }
    }
  }

  // ----- all runs

  /** trees is the run of ops from its first tree. */
  ghost predicate IsRun(trees: seq<Tree>, ops: seq<Op>, j: Path, limit: nat) {
    && |trees| == |ops| + 1
    && forall i :: 0 <= i < |ops| ==>
        OffRoot(ops[i]) && IsTree(trees[i]) && Next(trees[i], trees[i + 1], j, ops[i], limit)
  }

  /** The nodes that are not strictly below cj. */
  function Outside(t: Tree, cj: Path): Tree {
    map p | p in t && !(cj < p) :: t[p]
  }

  /** A jail to start from: no links below it, and its path resolves without a look inside. */
  ghost predicate CleanStart(t: Tree, j: Path, cj: Path, limit: nat) {
    && IsTree(t) && Names(j)
    && (forall p :: p in t && cj < p ==> !t[p].Link?)
    && var r := Walk(Outside(t, cj), [], j, limit, true); r.At? && r.path == cj
  }

  /** A jail that is a plain directory is such a start. */
  lemma DirectoryIsCleanStart(t: Tree, j: Path, limit: nat)
    requires IsTree(t) && j in t && t[j].Dir? && forall p :: p in t && j < p ==> !t[p].Link?
    ensures CleanStart(t, j, j, limit)
  {
    PrefixesAreDirs(t, j, |j|);
    var o := Outside(t, j);
    assert IsTree(o) by {
      forall p {:trigger Up(p)} | p in o && p != [] ensures Up(p) in o && o[Up(p)].Dir? && IsName(p[|p| - 1]) {
        assert Up(p) in t && t[Up(p)].Dir?;
        assert j < Up(p) ==> j < p;
      }
    }
    NodesResolve(o, j, limit, true);
  }

  /** A clean start meets the invariant, with what is outside the jail as its frame. */
  lemma CleanStartFits(t: Tree, j: Path, cj: Path, limit: nat)
    requires CleanStart(t, j, cj, limit)
    ensures Invariant(Outside(t, cj), t, j, cj, limit)
  {
  }

  lemma {:induction false} RunKeeps(trees: seq<Tree>, ops: seq<Op>, j: Path, cj: Path, limit: nat, i: nat)
    requires IsRun(trees, ops, j, limit) && CleanStart(trees[0], j, cj, limit) && i < |trees|
    ensures Invariant(Outside(trees[0], cj), trees[i], j, cj, limit)
  {
    hide Next, IsTree, OffRoot, Walk;
    if i == 0 {
      CleanStartFits(trees[0], j, cj, limit);
    } else {
      RunKeeps(trees, ops, j, cj, limit, i - 1);
      hide Invariant, CleanStart;
      StepKeeps(Outside(trees[0], cj), trees[i - 1], trees[i], j, cj, ops[i - 1], limit);
    }
  }

  /** An earlier step of the run was an atomic write through a link to the jail's root, and p is its
      temporary file. */
  ghost predicate LeftBy(trees: seq<Tree>, ops: seq<Op>, j: Path, cj: Path, limit: nat, i: nat, p: Path)
    requires IsRun(trees, ops, j, limit) && i < |trees|
  {
    exists k :: 0 <= k < i && IsTree(trees[k]) && OpensRoot(trees[k], j, ops[k], limit) && cj != []
      && p == TempPath(cj, ops[k].suffix)
  }

  lemma {:induction false} NewOutside(trees: seq<Tree>, ops: seq<Op>, j: Path, cj: Path, limit: nat, i: nat, p: Path)
    requires IsRun(trees, ops, j, limit) && CleanStart(trees[0], j, cj, limit) && i < |trees|
    requires p in trees[i] && !(cj < p) && p !in trees[0]
    ensures LeftBy(trees, ops, j, cj, limit, i, p)
  {
    hide Next, IsTree, OffRoot, CleanStart, Invariant, OpensRoot, CanonicalJail;
    if i > 0 {
      var (t, op) := (trees[i - 1], ops[i - 1]);
      RunKeeps(trees, ops, j, cj, limit, i - 1);
      JailStays(Outside(trees[0], cj), t, j, cj, limit);
      RunFacts(trees, ops, j, cj, limit, i - 1);
      OutsideStays(t, trees[i], j, op, limit);
      if p in t {
        NewOutside(trees, ops, j, cj, limit, i - 1, p);
      }
    }
  }

  lemma RunFacts(trees: seq<Tree>, ops: seq<Op>, j: Path, cj: Path, limit: nat, i: nat)
    requires IsRun(trees, ops, j, limit) && CleanStart(trees[0], j, cj, limit) && i < |ops|
    ensures IsTree(trees[i]) && Names(j) && OffRoot(ops[i]) && Next(trees[i], trees[i + 1], j, ops[i], limit)
  {
  }

  /** Closure. From a clean start, whatever the jail's own operations do, in every state of the run
      every link below the jail is written as a path under it; the jail resolves to the same place;
      every node outside it is still there, unchanged; a new one outside it is the temporary file of
      an atomic write through a link to the jail's root; and every virtual path, followed, fails or
      ends in the jail. */
  lemma JailIsClosed(trees: seq<Tree>, ops: seq<Op>, j: Path, cj: Path, limit: nat, i: nat, v: Path)
    requires IsRun(trees, ops, j, limit) && CleanStart(trees[0], j, cj, limit) && i < |trees| && Names(v)
    ensures IsTree(trees[i]) && CanonicalJail(trees[i], j, limit) == cj
    ensures LinksPointInside(trees[i], j, cj)
    ensures forall p :: p in trees[0] && !(cj < p) ==> p in trees[i] && trees[i][p] == trees[0][p]
    ensures forall p :: p in trees[i] && !(cj < p) && p !in trees[0] ==> LeftBy(trees, ops, j, cj, limit, i, p)
    ensures Within(cj, Walk(trees[i], [], j + v, limit, true))
  {
    RunKeeps(trees, ops, j, cj, limit, i);
    JailStays(Outside(trees[0], cj), trees[i], j, cj, limit);
    EntersInside(Outside(trees[0], cj), trees[i], j, cj, limit, v, limit, true);
    forall p | p in trees[i] && !(cj < p) && p !in trees[0] ensures LeftBy(trees, ops, j, cj, limit, i, p) {
      NewOutside(trees, ops, j, cj, limit, i, p);
    }
  }

  /** Nothing outside the jail changes in a run in which no atomic write goes through a link to the
      jail's root. */
  lemma NothingOutsideChanges(trees: seq<Tree>, ops: seq<Op>, j: Path, cj: Path, limit: nat, i: nat)
    requires IsRun(trees, ops, j, limit) && CleanStart(trees[0], j, cj, limit) && i < |trees|
    requires forall k :: 0 <= k < i && IsTree(trees[k]) ==> !OpensRoot(trees[k], j, ops[k], limit)
    ensures OnlyBelow(trees[0], trees[i], cj)
  {
    hide IsRun, CleanStart, IsTree, OpensRoot, Walk, CanonicalJail;
    JailIsClosed(trees, ops, j, cj, limit, i, []);
  }
}
