/** What clients of the filesystem object see: reading back what they wrote, with or without a jail, and
    a jail that stays closed over any sequence of calls. */
module OsFsRuns {
  import opened Paths
  import opened Os
  import opened Syscalls
  import opened Resolvers
  import opened Confinement
  import opened AtomicWrite
  import opened AtomicEffects
  import opened ReadAfterWrite
  import opened PlainReads
  import opened AtomicInJail
  import opened JailRuns
  import opened Calls
  import opened CallEffects
  import opened OsFs

  // ----- read after write

  /** The jail's root is read as without a jail. */
  lemma RootRead(t: Tree, j: Path, limit: nat)
    requires IsTree(t)
    ensures JailRead(t, j, [], limit) == PlainRead(t, j, limit)
  {
    assert j + [] == j;
    InJailMeansUnder(j, j);
    WalkEnds(t, [], j, limit, true);
    var r := Walk(t, [], j, limit, true);
    if r.At? {
      assert r.path + [] == r.path;
      InJailMeansUnder(r.path, r.path);
      RemoveUndoesJoin(r.path, []);
      NodesResolve(t, r.path, limit, true);
    }
  }

  /** What the open resolver gives for the root: the jail's path, or the node it leads to through a link. */
  lemma RootOpens(t: Tree, j: Path, limit: nat)
    requires IsTree(t) && ForOpen(t, j, [], limit).Good?
    ensures var (h, r) := (ForOpen(t, j, [], limit).value, Walk(t, [], j, limit, true));
            h == j || (r.At? && r.path == h && h in t && !t[h].Link?)
  {
    assert j + [] == j;
    WalkEnds(t, [], j, limit, true);
  }

  lemma RootReadAfter(t: Tree, u: Tree, j: Path, h: Path, limit: nat)
    requires IsTree(t) && IsTree(u) && ForOpen(t, j, [], limit) == Good(h)
    requires h != j && h in t ==> Extends(t, u)
    ensures JailRead(u, j, [], limit) == PlainRead(u, h, limit)
  {
    RootRead(u, j, limit);
    RootOpens(t, j, limit);
    if h != j {
      WalkInLargerTree(t, u, [], j, limit, true);
      NodesResolve(t, h, limit, true);
      WalkInLargerTree(t, u, [], h, limit, true);
    }
  }

  /** A WriteFile at the jail's root reads back. */
  lemma ReadAfterRootWrite(t: Tree, j: Path, data: seq<int>, limit: nat)
    requires IsTree(t) && JailWrite(t, j, [], data, limit).Ok?
    ensures var u := JailWrite(t, j, [], data, limit).t; IsTree(u) && JailRead(u, j, [], limit) == Good(data)
  {
    var (u, h) := (JailWrite(t, j, [], data, limit).t, ForOpen(t, j, [], limit).value);
    RootOpens(t, j, limit);
    WalkEnds(t, [], h, limit, true);
    if h in t && h != j { NodesResolve(t, h, limit, true); }
    hide ForOpen;
    ReadAfterPlainWrite(t, h, data, limit);
    RootReadAfter(t, u, j, h, limit);
  }

  /** An AtomicWriteFile at the jail's root reads back as one without a jail does. */
  lemma ReadAfterRootAtomicWrite(t: Tree, u: Tree, j: Path, h: Path, data: seq<int>, limit: nat)
    requires IsTree(t) && IsTree(u) && ForOpen(t, j, [], limit) == Good(h) && h != []
        && WrittenAt(t, u, h, data, limit)
    ensures JailRead(u, j, [], limit) == PlainRead(u, h, limit)
  {
    RootOpens(t, j, limit);
    if h in t && h != j {
      LinkedIsPrepared(t, h, [], limit);
      PlainPathIsTarget(t, h, limit);
    }
    hide ForOpen, MkdirAll;
    RootReadAfter(t, u, j, h, limit);
  }

  /** What a read of v finds after a successful write to it. Without a jail, and at the jail's root, the data;
      below the root, all but what ReadBack turns away. */
  ghost predicate ReadsBack(t: Tree, jail: Option<Path>, v: Path, data: seq<int>, limit: nat, r: Result<seq<int>>)
    requires IsTree(t)
  {
    if jail == None || v == [] then r == Good(data)
    else
      var j := jail.value;
      && ForOpen(t, j, v, limit).Good? && CanonicalJail(t, j, limit) < ForOpen(t, j, v, limit).value
      && r == ReadBack(t, j, v, data, limit)
  }

  lemma WrittenReadsBack(t: Tree, jail: Option<Path>, v: Path, data: seq<int>, limit: nat)
    requires IsTree(t) && CleanArgs(jail, v) && Wrote(t, jail, v, data, limit).Ok?
    ensures var u := Wrote(t, jail, v, data, limit).t;
            IsTree(u) && ReadsBack(t, jail, v, data, limit, Read(u, jail, v, limit))
  {
    hide ForOpen, CanonicalJail, ReadBack, JailRead, JailWrite, PlainRead, IsTree, Syscalls.WriteFile;
    match jail
    case None => ReadAfterPlainWrite(t, v, data, limit);
    case Some(j) =>
      if v == [] { ReadAfterRootWrite(t, j, data, limit); } else {
        ReadAfterWrite.ReadAfterWrite(t, j, v, data, limit);
      }
  }

  method WriteThenRead(fs: OsFS, a: Arg, data: seq<int>) returns (ok: Result<()>, r: Result<seq<int>>)
    requires fs.Valid()
    modifies fs`wd, fs.disk
    ensures fs.Valid()
    ensures ok.Good? ==> ReadsBack(old(fs.disk.tree), fs.jail, old(fs.Of(a)), data, fs.disk.limit, r)
  {
    ghost var (t, v) := (fs.disk.tree, fs.Of(a));
    VirtualIsClean(Default(fs.jail, fs.wd, fs.cwd), a);
    ok := fs.WriteFile(a, data);
    r := fs.ReadFile(a);
    hide ReadsBack, Wrote, Read, IsTree, Virtual;
    if ok.Good? { WrittenReadsBack(t, fs.jail, v, data, fs.disk.limit); }
  }

  /** After Setwd to d, what is written as f is read as d + f. */
  method SetwdThenWrite(fs: OsFS, d: Path, f: Path, data: seq<int>)
      returns (moved: Result<()>, ok: Result<()>, r: Result<seq<int>>)
    requires fs.Valid() && Names(d) && Names(f)
    modifies fs`wd, fs.disk
    ensures fs.Valid()
    ensures moved.Good? ==> fs.wd == Some(d)
    ensures moved.Good? && ok.Good? ==> ReadsBack(old(fs.disk.tree), fs.jail, d + f, data, fs.disk.limit, r)
  {
    ghost var t := fs.disk.tree;
    CleanOfNames([], d);
    assert [] + d == d;
    moved := fs.Setwd(Given(Raw(true, d)));
    if moved.Bad? { return moved, moved, Bad(moved.e); }
    RelativeIsBelow(d, f);
    ok := fs.WriteFile(Given(Raw(false, f)), data);
    r := fs.ReadFile(Given(Raw(true, d + f)));
    hide ReadsBack, Wrote, Read, IsTree, Virtual;
    if ok.Good? { WrittenReadsBack(t, fs.jail, d + f, data, fs.disk.limit); }
  }

  /** A clean relative argument stands for the same path as the absolute one made with the directory. */
  lemma RelativeIsBelow(d: Path, f: Path)
    requires Names(d) && Names(f)
    ensures Virtual(d, Given(Raw(false, f))) == Virtual(d, Given(Raw(true, d + f))) == d + f && Names(d + f)
  {
    CleanOfNames([], d + f);
    assert [] + (d + f) == d + f;
  }

  /** Reading a link that was made is reading its target, unless the links on the way are too many. */
  method SymlinkThenRead(fs: OsFS, target: Arg, name: Arg)
      returns (ok: Result<()>, r: Result<seq<int>>, direct: Result<seq<int>>)
    requires fs.Valid()
    modifies fs`wd, fs.disk
    ensures fs.Valid()
    ensures ok.Good? && old(fs.Of(name)) != [] ==>
              r == if EvalSymlinks(fs.disk.tree, HostPath(fs.jail, old(fs.Of(name))), fs.disk.limit) == Bad(ELOOP)
                   then Bad(ELOOP) else direct
  {
    ghost var (t, v, w) := (fs.disk.tree, fs.Of(name), fs.Of(target));
    VirtualIsClean(Default(fs.jail, fs.wd, fs.cwd), name);
    VirtualIsClean(Default(fs.jail, fs.wd, fs.cwd), target);
    ok := fs.Symlink(target, name);
    r := fs.ReadFile(name);
    direct := fs.ReadFile(target);
    hide Read, IsTree, Virtual, LinkMade, MakesLink, EvalSymlinks;
    if ok.Good? && v != [] { ReadThroughLink(t, fs.jail, w, v, fs.disk.limit); }
  }

  /** The same after a successful atomic write. Without a jail, and at the jail's root, it finds the data if
      and only if the write has not cut off its own path. */
  method AtomicWriteThenRead(fs: OsFS, a: Arg, data: seq<int>, suffix: string, fault: Fault, cleanupFails: bool)
      returns (ok: Result<()>, r: Result<seq<int>>)
    requires fs.Valid()
    modifies fs`wd, fs.disk
    ensures fs.Valid()
    ensures ok.Good? ==>
              var (t, v, limit) := (old(fs.disk.tree), old(fs.Of(a)), fs.disk.limit);
              var h := HostForOpen(t, fs.jail, v, limit);
              && h.Good? && h.value != []
              && if fs.jail == None || v == [] then
                   && (r == Good(data) <==> !CutsItsOwnPath(t, h.value, limit))
                   && (r.Good? ==> r == Good(data))
                 else
                   CanonicalJail(t, fs.jail.value, limit) < h.value && r == ReadBack(t, fs.jail.value, v, data, limit)
  {
    ghost var (t, v, limit) := (fs.disk.tree, fs.Of(a), fs.disk.limit);
    VirtualIsClean(Default(fs.jail, fs.wd, fs.cwd), a);
    ok := fs.AtomicWriteFile(a, data, suffix, fault, cleanupFails);
    r := fs.ReadFile(a);
    hide ForOpen, CanonicalJail, ReadBack, JailRead, PlainRead, IsTree, Virtual, WrittenAt, StepState, Unwritten,
      CutsItsOwnPath;
    if ok.Good? {
      ghost var h := HostForOpen(t, fs.jail, v, limit).value;
      match fs.jail {
        case None => ReadAfterPlainAtomicWriteIff(t, fs.disk.tree, h, data, limit);
        case Some(j) =>
          if v == [] {
            OpenIsClean(t, j, v, limit);
            ReadAfterPlainAtomicWriteIff(t, fs.disk.tree, h, data, limit);
            ReadAfterRootAtomicWrite(t, fs.disk.tree, j, h, data, limit);
          } else {
            ReadAfterAtomicWrite(t, fs.disk.tree, j, v, data, limit);
          }
      }
    }
  }

  // ----- closure

  /** A call of a mutator, with its arguments as a client writes them. */
  datatype Call =
    | MkdirCall(a: Arg, all: bool) | WriteCall(a: Arg, data: seq<int>) | RemoveCall(a: Arg, all: bool)
    | RenameCall(a: Arg, b: Arg) | SymlinkCall(target: Arg, a: Arg)
    | AtomicCall(a: Arg, data: seq<int>, suffix: string, fault: Fault, cleanupFails: bool)

  /** The operation on virtual paths that a call is. */
  function OpOf(wd: Path, c: Call): Op {
    match c
    case MkdirCall(a, all) => MkdirOp(Virtual(wd, a), all)
    case WriteCall(a, data) => WriteOp(Virtual(wd, a), data)
    case RemoveCall(a, all) => RemoveOp(Virtual(wd, a), all)
    case RenameCall(a, b) => RenameOp(Virtual(wd, a), Virtual(wd, b))
    case SymlinkCall(target, a) => SymlinkOp(Virtual(wd, target), Virtual(wd, a))
    case AtomicCall(a, data, suffix, _, _) => AtomicOp(Virtual(wd, a), data, suffix)
  }

  /** Every tree the disk passes through in a call is one that its operation allows. */
  method Perform(fs: OsFS, c: Call) returns (ok: Result<()>)
    requires fs.Valid() && fs.jail.Some?
    modifies fs`wd, fs.disk
    ensures fs.Valid() && fs.wd == Some(Default(fs.jail, old(fs.wd), fs.cwd)) && old(fs.disk.trace) <= fs.disk.trace
    ensures var (t, j, op) := (old(fs.disk.tree), fs.jail.value, OpOf(Default(fs.jail, old(fs.wd), fs.cwd), c));
            && Next(t, fs.disk.tree, j, op, fs.disk.limit)
            && forall i :: |old(fs.disk.trace)| <= i < |fs.disk.trace| ==>
                Next(t, fs.disk.trace[i], j, op, fs.disk.limit)
  {
    hide JailMkdir, JailWrite, JailRemove, JailRename, JailSymlink, ForOpen, StepState, IsTree, Virtual;
    match c
    case MkdirCall(a, all) => ok := fs.Mkdir(a, all);
    case WriteCall(a, data) => ok := fs.WriteFile(a, data);
    case RemoveCall(a, all) => ok := fs.Remove(a, all);
    case RenameCall(a, b) => ok := fs.Rename(a, b);
    case SymlinkCall(target, a) => ok := fs.Symlink(target, a);
    case AtomicCall(a, data, suffix, fault, cleanupFails) =>
      ok := fs.AtomicWriteFile(a, data, suffix, fault, cleanupFails);
  }

  /** Closure, of the object. From a jail that fits its frame, any calls that stay off the root, whether
      they succeed or fail and wherever they are interrupted: in every tree the disk passes through every
      link in the jail points into it and every node outside is as it was; and at the end every virtual path,
      followed, fails or ends in the jail. */
  method PerformAll(fs: OsFS, calls: seq<Call>, ghost frame: Tree, ghost cj: Path)
    requires fs.Valid() && fs.jail.Some? && Invariant(frame, fs.disk.tree, fs.jail.value, cj, fs.disk.limit)
    requires forall c :: c in calls ==> OffRoot(OpOf(Default(fs.jail, fs.wd, fs.cwd), c))
    modifies fs`wd, fs.disk
    ensures fs.Valid() && old(fs.disk.trace) <= fs.disk.trace
    ensures Invariant(frame, fs.disk.tree, fs.jail.value, cj, fs.disk.limit)
    ensures forall i :: |old(fs.disk.trace)| <= i < |fs.disk.trace| ==>
              Invariant(frame, fs.disk.trace[i], fs.jail.value, cj, fs.disk.limit)
    ensures CanonicalJail(fs.disk.tree, fs.jail.value, fs.disk.limit) == cj
    ensures forall v :: Names(v) ==> Within(cj, Walk(fs.disk.tree, [], fs.jail.value + v, fs.disk.limit, true))
  {
    hide Invariant, Next, OffRoot, OpOf, IsTree, Within, Walk;
    ghost var (j, wd) := (fs.jail.value, Default(fs.jail, fs.wd, fs.cwd));
    for n := 0 to |calls|
      invariant fs.Valid() && Default(fs.jail, fs.wd, fs.cwd) == wd && old(fs.disk.trace) <= fs.disk.trace
      invariant Invariant(frame, fs.disk.tree, j, cj, fs.disk.limit)
      invariant forall i :: |old(fs.disk.trace)| <= i < |fs.disk.trace| ==>
                  Invariant(frame, fs.disk.trace[i], j, cj, fs.disk.limit)
    {
      ghost var t := fs.disk.tree;
      var _ := Perform(fs, calls[n]);
      forall u | Next(t, u, j, OpOf(wd, calls[n]), fs.disk.limit) ensures Invariant(frame, u, j, cj, fs.disk.limit) {
        StepKeeps(frame, t, u, j, cj, OpOf(wd, calls[n]), fs.disk.limit);
      }
    }
    JailStays(frame, fs.disk.tree, j, cj, fs.disk.limit);
    forall v | Names(v) ensures Within(cj, Walk(fs.disk.tree, [], j + v, fs.disk.limit, true)) {
      EntersInside(frame, fs.disk.tree, j, cj, fs.disk.limit, v, fs.disk.limit, true);
    }
  }
}
