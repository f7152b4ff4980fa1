/** The calls of the filesystem object, with or without a jail, as functions of the tree and of virtual
    paths. */
module Calls {
  import opened Paths
  import opened Os
  import opened Syscalls
  import opened Resolvers
  import opened Confinement
  import opened RootOps
  import opened ReadAfterWrite
  import opened PlainReads

  datatype Option<T> = None | Some(value: T)

  /** ResolvePath of a virtual path. */
  function Resolve(t: Tree, jail: Option<Path>, v: Path, follow: bool, limit: nat): Result<Path> {
    match jail
    case None => if follow then EvalSymlinks(t, v, limit) else Good(v)
    case Some(j) => if follow then Follow(t, j, v, limit) else Lexical(j, v)
  }

  function HostPath(jail: Option<Path>, v: Path): Path {
    match jail
    case None => v
    case Some(j) => j + v
  }

  /** The working directory, with its default: the jail's root, or the directory of the process. */
  function Default(jail: Option<Path>, wd: Option<Path>, cwd: Path): Path {
    if wd.Some? then wd.value else if jail.Some? then [] else cwd
  }

  lemma VirtualIsClean(wd: Path, a: Arg)
    requires Names(wd)
    ensures Names(Virtual(wd, a))
  {
    if a.Given? { CleanIsClean([], if a.raw.abs then a.raw.comps else wd + a.raw.comps); }
  }

  // ----- the calls that change the disk, with or without a jail

  function Wrote(t: Tree, jail: Option<Path>, v: Path, data: seq<int>, limit: nat): Done
    requires IsTree(t)
  {
    match jail case None => Syscalls.WriteFile(t, v, data, limit) case Some(j) => JailWrite(t, j, v, data, limit)
  }

  function HostForOpen(t: Tree, jail: Option<Path>, v: Path, limit: nat): Result<Path>
    requires IsTree(t)
  {
    match jail case None => Good(v) case Some(j) => ForOpen(t, j, v, limit)
  }

  function MadeDir(t: Tree, jail: Option<Path>, v: Path, all: bool, limit: nat): Done
    requires IsTree(t)
  {
    match jail
    case None => if all then MkdirAll(t, v, limit) else Syscalls.Mkdir(t, v, limit)
    case Some(j) => JailMkdir(t, j, v, all, limit)
  }

  function Removed(t: Tree, jail: Option<Path>, v: Path, all: bool, limit: nat): Done
    requires IsTree(t)
  {
    match jail
    case None => if all then RemoveAll(t, v, limit) else Syscalls.Remove(t, v, limit)
    case Some(j) => JailRemove(t, j, v, all, limit)
  }

  function Renamed(t: Tree, jail: Option<Path>, v: Path, w: Path, limit: nat): Done
    requires IsTree(t)
  {
    match jail case None => Syscalls.Rename(t, v, w, limit) case Some(j) => JailRename(t, j, v, w, limit)
  }

  function LinkMade(t: Tree, jail: Option<Path>, target: Path, v: Path, limit: nat): Done
    requires IsTree(t)
  {
    match jail
    case None => Create(t, v, Link(Raw(true, target)), limit)
    case Some(j) => JailSymlink(t, j, target, v, limit)
  }

  /** What a read of a virtual path finds. */
  function Read(t: Tree, jail: Option<Path>, v: Path, limit: nat): Result<seq<int>>
    requires IsTree(t)
  {
    match jail case None => PlainRead(t, v, limit) case Some(j) => JailRead(t, j, v, limit)
  }

  /** Every call keeps the tree a tree, on the root of a jail as anywhere else. */
  lemma CallsKeepTree(t: Tree, jail: Option<Path>, v: Path, w: Path, data: seq<int>, all: bool, limit: nat)
    requires IsTree(t)
    ensures IsTree(Wrote(t, jail, v, data, limit).t) && IsTree(MadeDir(t, jail, v, all, limit).t)
    ensures IsTree(Removed(t, jail, v, all, limit).t) && IsTree(Renamed(t, jail, v, w, limit).t)
    ensures IsTree(LinkMade(t, jail, w, v, limit).t)
  {
    hide IsTree, Walk, ForCreate, ForOpen, Syscalls.WriteFile, Create, MkdirAll, Syscalls.Remove, RemoveAll, Rename;
    forall h, data, limit ensures IsTree(Syscalls.WriteFile(t, h, data, limit).t) { WriteKeepsTree(t, h, data, limit); }
    forall h, node, limit ensures IsTree(Create(t, h, node, limit).t) { CreateKeepsTree(t, h, node, limit); }
    forall h, limit ensures IsTree(Syscalls.Remove(t, h, limit).t) && IsTree(RemoveAll(t, h, limit).t) {
      RemoveChangesIff(t, h, false, limit);
      RemoveChangesIff(t, h, true, limit);
    }
    forall h, k, limit ensures IsTree(Rename(t, h, k, limit).t) { RenameChangesIff(t, h, k, limit); }
  }

  /** In a jail, no call off the root changes anything outside it. */
  lemma CallsAreConfined(t: Tree, jail: Option<Path>, v: Path, w: Path, data: seq<int>, all: bool, limit: nat)
    requires IsTree(t) && jail.Some? && Names(jail.value) && Names(v) && v != []
    ensures var cj := CanonicalJail(t, jail.value, limit);
            && Confined(t, Wrote(t, jail, v, data, limit), cj) && Confined(t, MadeDir(t, jail, v, all, limit), cj)
            && Confined(t, Removed(t, jail, v, all, limit), cj) && Confined(t, LinkMade(t, jail, w, v, limit), cj)
            && (Names(w) && w != [] ==> Confined(t, Renamed(t, jail, v, w, limit), cj))
  {
    hide ForCreate, ForOpen, CanonicalJail, Confined, JailWrite, JailMkdir, JailRemove, JailSymlink, JailRename;
    WriteIsConfined(t, jail.value, v, data, limit);
    MkdirIsConfined(t, jail.value, v, all, limit);
    RemoveIsConfined(t, jail.value, v, all, limit);
    SymlinkIsConfined(t, jail.value, w, v, limit);
    if Names(w) && w != [] { RenameIsConfined(t, jail.value, v, w, limit); }
  }
}
