/** The jailed filesystem as it is written: an object that keeps a jail and a working directory,
    resolves path arguments with loops and system calls, and changes the disk. Every method is
    proved against the functions the jail theorems are about. */
module OsFs {
  import opened Paths
  import opened Os
  import opened Syscalls
  import opened Resolvers
  import opened Confinement
  import opened AtomicWrite
  import opened AtomicEffects
  import opened AtomicInJail
  import opened Calls
  import opened CallEffects
  import opened MakingDirs
  import opened AtomicSpots

  class OsFS {
    var jail: Option<Path>
    var wd: Option<Path>
    const disk: Disk
    const cwd: Path

    constructor (disk: Disk, cwd: Path)
      ensures jail == None && wd == None && this.disk == disk && this.cwd == cwd
    {
      jail, wd, this.disk, this.cwd := None, None, disk, cwd;
    }

    ghost predicate Valid()
      reads this, disk
    {
      IsTree(disk.tree) && Names(cwd) && (jail.Some? ==> Names(jail.value)) && (wd.Some? ==> Names(wd.value))
    }

    /** The virtual path an argument stands for. */
    ghost function Of(a: Arg): Path
      reads this
    {
      Virtual(Default(jail, wd, cwd), a)
    }

    /** A blank jail is none; any other is cleaned. */
    method SetJail(j: Arg)
      requires Valid() && (j.Given? ==> j.raw.abs)
      modifies this`jail
      ensures Valid() && jail == if j.Blank? then None else Some(Clean([], j.raw.comps))
    {
      match j {
        case Blank => jail := None;
        case Given(raw) =>
          CleanIsClean([], raw.comps);
          jail := Some(Clean([], raw.comps));
      }
    }

    /** Fixes the working directory the first time it is needed. */
    method EnsureInitialized()
      requires Valid()
      modifies this`wd
      ensures Valid() && wd == Some(Default(jail, old(wd), cwd))
    {
      if wd == None { wd := Some(if jail.Some? then [] else cwd); }
    }

    method Getwd() returns (r: Path)
      requires Valid()
      modifies this`wd
      ensures Valid() && wd == Some(r) && r == Default(jail, old(wd), cwd)
      ensures old(wd).Some? ==> r == old(wd).value
      ensures old(wd).None? ==> r == if jail.Some? then [] else cwd
    {
      EnsureInitialized();
      r := wd.value;
    }

    /** A blank argument stands for the working directory, a relative one is cleaned starting from there and
        an absolute one from the root. */
    method ResolveVirtual(a: Arg, follow: bool) returns (r: Result<Path>)
      requires Valid()
      modifies this`wd
      ensures Valid() && wd == Some(Default(jail, old(wd), cwd))
      ensures a.Blank? ==> r == Resolve(disk.tree, jail, wd.value, follow, disk.limit)
      ensures a.Given? ==> r == Resolve(disk.tree, jail, Clean(if a.raw.abs then [] else wd.value, a.raw.comps),
                                        follow, disk.limit)
      ensures Names(old(Of(a))) && r == Resolve(disk.tree, jail, old(Of(a)), follow, disk.limit)
    {
      EnsureInitialized();
      VirtualIsClean(wd.value, a);
      if a.Given? { CleanBelow(wd.value, a.raw.comps); }
      var v := Virtual(wd.value, a);
      match jail {
        case None =>
          if !follow { return Good(v); }
          r := EvalSymlinks(disk.tree, v, disk.limit);
        case Some(j) =>
          var host := j + v;
          if !IsInJail(j, host) { return Bad(Escape); }
          if !follow { return Good(v); }
          var resolved := EvalSymlinks(disk.tree, host, disk.limit);
          if resolved.Bad? { return Bad(resolved.e); }
          var cj := CanonicalJail(disk.tree, j, disk.limit);
          if !IsInJail(cj, resolved.value) { return Bad(Escape); }
          r := Good(RemoveJailPrefix(cj, resolved.value));
      }
    }

    /** Sets the working directory, unless the path is there and is not a directory. */
    method Setwd(a: Arg) returns (ok: Result<()>)
      requires Valid()
      modifies this`wd
      ensures Valid()
      ensures ok.Good? ==>
                wd == Some(old(Of(a))) && Resolve(disk.tree, jail, old(Of(a)), false, disk.limit) == Good(old(Of(a)))
      ensures ok.Good? && a.Given? ==>
                wd == Some(Clean(if a.raw.abs then [] else Default(jail, old(wd), cwd), a.raw.comps))
      ensures ok.Bad? ==> wd == Some(Default(jail, old(wd), cwd))
      ensures ok.Good? <==>
                && Resolve(disk.tree, jail, old(Of(a)), false, disk.limit).Good?
                && var s := Stat(disk.tree, HostPath(jail, old(Of(a))), disk.limit); s == Good(Dir) || s == Bad(ENOENT)
    {
      if a.Given? { CleanBelow(Default(jail, wd, cwd), a.raw.comps); }
      var resolved := ResolveVirtual(a, false);
      if resolved.Bad? { return Bad(resolved.e); }
      var info := Stat(disk.tree, HostPath(jail, resolved.value), disk.limit);
      if info.Bad? && info.e != ENOENT { return Bad(info.e); }
      if info.Good? && !info.value.Dir? { return Bad(ENOTDIR); }
      wd := Some(resolved.value);
      ok := Good(());
    }

    /** Walks up from the parent to the longest existing ancestor, resolves it, checks it, and puts
        the rest back. */
    method ResolveHostForCreate(a: Arg) returns (r: Result<Path>)
      requires Valid()
      modifies this`wd
      ensures Valid() && wd == Some(Default(jail, old(wd), cwd)) && Names(old(Of(a)))
      ensures r == match jail
                   case None => Good(old(Of(a)))
                   case Some(j) => ForCreate(disk.tree, j, old(Of(a)), disk.limit)
    {
      hide IsTree, CanonicalJail, Ancestor, IsInJail, Walk, Virtual, Clean;
      var resolved := ResolveVirtual(a, false);
      if resolved.Bad? { return Bad(resolved.e); }
      var v := resolved.value;
      if jail == None { return Good(v); }
      var j := jail.value;
      var host := j + v;
      var cj := CanonicalJail(disk.tree, j, disk.limit);
      assert |host| == |j| + |v| && (v == [] ==> host == j);
      if host == j { return Good(host); }
      assert host[|host| - 1] == v[|v| - 1];
      var found := WalkUp(Up(host), [host[|host| - 1]]);
      if found.Bad? { return Bad(found.e); }
      var (cur, missing) := found.value;
      var resolvedAncestor := EvalSymlinks(disk.tree, cur, disk.limit);
      var canonical := if resolvedAncestor.Good? then resolvedAncestor.value else cur;
      if !IsInJail(cj, canonical) { return Bad(Escape); }
      var out := Reattach(canonical, missing);
      r := Good(out);
    }

    method Reattach(base: Path, missing: seq<string>) returns (out: Path)
      ensures out == base + missing
    {
      out := base;
      for i := 0 to |missing|
        invariant out == base + missing[..i]
      {
        out := out + [missing[i]];
      }
    }

    /** Lstat on the way up; a missing component goes to the front of the rest. */
    method WalkUp(start: Path, rest: seq<string>) returns (r: Result<(Path, seq<string>)>)
      requires IsTree(disk.tree)
      ensures r == Ancestor(disk.tree, start, rest, disk.limit)
    {
      var cur, missing := start, rest;
      while true
        invariant Ancestor(disk.tree, start, rest, disk.limit) == Ancestor(disk.tree, cur, missing, disk.limit)
        decreases |cur|
      {
        var info := Lstat(disk.tree, cur, disk.limit);
        if info.Good? { break; }
        if info.e != ENOENT { return Bad(info.e); }
        if cur == [] { break; }
        missing := [cur[|cur| - 1]] + missing;
        cur := Up(cur);
      }
      r := Good((cur, missing));
    }

    method ResolveHostForOpen(a: Arg) returns (r: Result<Path>)
      requires Valid()
      modifies this`wd
      ensures Valid() && wd == Some(Default(jail, old(wd), cwd)) && Names(old(Of(a)))
      ensures r == match jail
                   case None => Good(old(Of(a)))
                   case Some(j) => ForOpen(disk.tree, j, old(Of(a)), disk.limit)
    {
      r := ResolveHostForCreate(a);
      if r.Bad? || jail == None { return; }
      var info := Lstat(disk.tree, r.value, disk.limit);
      if info.Bad? || !info.value.Link? { return; }
      var resolved := EvalSymlinks(disk.tree, r.value, disk.limit);
      if resolved.Bad? { return Bad(resolved.e); }
      if !IsInJail(CanonicalJail(disk.tree, jail.value, disk.limit), resolved.value) { return Bad(Escape); }
      r := resolved;
    }

    // ----- clients of the resolvers

    method ReadFile(a: Arg) returns (r: Result<seq<int>>)
      requires Valid()
      modifies this`wd
      ensures Valid()
      ensures wd == Some(Default(jail, old(wd), cwd))
      ensures r == Read(disk.tree, jail, old(Of(a)), disk.limit)
    {
      var resolved := ResolveVirtual(a, true);
      if resolved.Bad? { return Bad(resolved.e); }
      r := Syscalls.ReadFile(disk.tree, HostPath(jail, resolved.value), disk.limit);
    }

    /** What a finished call reports. */
    ghost predicate Reports(d: Done, ok: Result<()>)
      reads disk
    {
      disk.tree == d.t && ok == match d case Ok(_) => Good(()) case Err(_, e) => Bad(e)
    }

    /** In the jail that tree t had, and nowhere else, has the disk changed. */
    ghost predicate ChangesInJailOnly(t: Tree)
      requires jail.Some?
      reads this, disk
    {
      IsTree(disk.tree) && OnlyBelow(t, disk.tree, CanonicalJail(t, jail.value, disk.limit))
    }

    /** Stores what a system call did. */
    method Commit(d: Done) returns (ok: Result<()>)
      modifies disk
      ensures Reports(d, ok) && disk.trace == old(disk.trace) + [d.t]
    {
      disk.Store(d.t);
      ok := match d case Ok(_) => Good(()) case Err(_, e) => Bad(e);
    }

    /** In a jail, a write anywhere but at the root changes nothing outside the canonical jail. */
    method WriteFile(a: Arg, data: seq<int>) returns (ok: Result<()>)
      requires Valid()
      modifies this`wd, disk
      ensures Valid() && wd == Some(Default(jail, old(wd), cwd)) && disk.trace == old(disk.trace) + [disk.tree]
      ensures Reports(Wrote(old(disk.tree), jail, old(Of(a)), data, disk.limit), ok)
      ensures old(Of(a)) != [] ==> Writes(old(disk.tree), disk.tree,
                                          FileSpot(old(disk.tree), jail, old(Of(a)), disk.limit), data, ok.Good?)
      ensures jail.Some? && old(Of(a)) != [] ==> ChangesInJailOnly(old(disk.tree))
    {
      var r := ResolveHostForOpen(a);
      CallsKeepTree(disk.tree, jail, old(Of(a)), [], data, false, disk.limit);
      if old(Of(a)) != [] { WriteEffect(disk.tree, jail, old(Of(a)), data, disk.limit); }
      ok := Commit(if r.Bad? then Err(disk.tree, r.e) else Syscalls.WriteFile(disk.tree, r.value, data, disk.limit));
      if jail.Some? && old(Of(a)) != [] { CallsAreConfined(old(disk.tree), jail, old(Of(a)), [], data, false,
        disk.limit); }
    }

    method Mkdir(a: Arg, all: bool) returns (ok: Result<()>)
      requires Valid()
      modifies this`wd, disk
      ensures Valid() && wd == Some(Default(jail, old(wd), cwd)) && disk.trace == old(disk.trace) + [disk.tree]
      ensures Reports(MadeDir(old(disk.tree), jail, old(Of(a)), all, disk.limit), ok)
      ensures old(Of(a)) != [] && !all ==>
                MakesDir(old(disk.tree), disk.tree, Spot(old(disk.tree), jail, old(Of(a)), disk.limit), ok.Good?)
      ensures old(Of(a)) != [] && all ==>
                && AddsDirs(old(disk.tree), disk.tree)
                && (ok.Good? ==> Stat(disk.tree, HostPath(jail, old(Of(a))), disk.limit) in {Good(Dir), Bad(ELOOP)})
      ensures jail.Some? && old(Of(a)) != [] ==> ChangesInJailOnly(old(disk.tree))
    {
      var r := ResolveHostForCreate(a);
      CallsKeepTree(disk.tree, jail, old(Of(a)), [], [], all, disk.limit);
      if old(Of(a)) != [] {
        if all { MkdirAllEffect(disk.tree, jail, old(Of(a)), disk.limit); }
        else { MkdirEffect(disk.tree, jail, old(Of(a)), disk.limit); }
      }
      ok := Commit(if r.Bad? then Err(disk.tree, r.e)
                   else if all then MkdirAll(disk.tree, r.value, disk.limit)
                   else Syscalls.Mkdir(disk.tree, r.value, disk.limit));
      if jail.Some? && old(Of(a)) != [] { CallsAreConfined(old(disk.tree), jail, old(Of(a)), [], [], all, disk.limit); }
    }

    method Remove(a: Arg, all: bool) returns (ok: Result<()>)
      requires Valid()
      modifies this`wd, disk
      ensures Valid() && wd == Some(Default(jail, old(wd), cwd)) && disk.trace == old(disk.trace) + [disk.tree]
      ensures Reports(Removed(old(disk.tree), jail, old(Of(a)), all, disk.limit), ok)
      ensures old(Of(a)) != [] ==>
                Removes(old(disk.tree), disk.tree, Spot(old(disk.tree), jail, old(Of(a)), disk.limit), all, ok.Good?)
      ensures jail.Some? && old(Of(a)) != [] ==> ChangesInJailOnly(old(disk.tree))
    {
      var r := ResolveHostForCreate(a);
      CallsKeepTree(disk.tree, jail, old(Of(a)), [], [], all, disk.limit);
      if old(Of(a)) != [] { RemoveEffect(disk.tree, jail, old(Of(a)), all, disk.limit); }
      ok := Commit(if r.Bad? then Err(disk.tree, r.e)
                   else if all then RemoveAll(disk.tree, r.value, disk.limit)
                   else Syscalls.Remove(disk.tree, r.value, disk.limit));
      if jail.Some? && old(Of(a)) != [] { CallsAreConfined(old(disk.tree), jail, old(Of(a)), [], [], all, disk.limit); }
    }

    method Rename(a: Arg, b: Arg) returns (ok: Result<()>)
      requires Valid()
      modifies this`wd, disk
      ensures Valid() && wd == Some(Default(jail, old(wd), cwd)) && disk.trace == old(disk.trace) + [disk.tree]
      ensures Reports(Renamed(old(disk.tree), jail, old(Of(a)), old(Of(b)), disk.limit), ok)
      ensures old(Of(a)) != [] && old(Of(b)) != [] ==>
                Renames(old(disk.tree), disk.tree, Spot(old(disk.tree), jail, old(Of(a)), disk.limit),
                        Spot(old(disk.tree), jail, old(Of(b)), disk.limit), ok.Good?)
      ensures jail.Some? && old(Of(a)) != [] && old(Of(b)) != [] ==> ChangesInJailOnly(old(disk.tree))
    {
      hide Spot, Renames, ForCreate, Walk, Virtual, Syscalls.Rename, IsTree, CanonicalJail, OnlyBelow;
      var src := ResolveHostForCreate(a);
      CallsKeepTree(disk.tree, jail, old(Of(a)), old(Of(b)), [], false, disk.limit);
      VirtualIsClean(Default(jail, old(wd), cwd), b);
      if old(Of(a)) != [] && old(Of(b)) != [] {
        RenameEffect(disk.tree, jail, old(Of(a)), old(Of(b)), disk.limit);
      }
      if src.Bad? {
        ok := Commit(Err(disk.tree, src.e));
      } else {
        var dst := ResolveHostForCreate(b);
        ok := Commit(if dst.Bad? then Err(disk.tree, dst.e)
          else Syscalls.Rename(disk.tree, src.value, dst.value, disk.limit));
      }
      if jail.Some? && old(Of(a)) != [] { CallsAreConfined(old(disk.tree), jail, old(Of(a)), old(Of(b)), [], false,
        disk.limit); }
    }

    /** The target is resolved lexically, so the stored text is a path under the jail. */
    method Symlink(target: Arg, a: Arg) returns (ok: Result<()>)
      requires Valid()
      modifies this`wd, disk
      ensures Valid() && wd == Some(Default(jail, old(wd), cwd)) && disk.trace == old(disk.trace) + [disk.tree]
      ensures Reports(LinkMade(old(disk.tree), jail, old(Of(target)), old(Of(a)), disk.limit), ok)
      ensures old(Of(a)) != [] ==>
                MakesLink(old(disk.tree), disk.tree, Spot(old(disk.tree), jail, old(Of(a)), disk.limit),
                          HostPath(jail, old(Of(target))), MayPointTo(jail, old(Of(target))), ok.Good?)
      ensures jail.Some? && old(Of(a)) != [] ==> ChangesInJailOnly(old(disk.tree))
    {
      hide Spot, MakesLink, ForCreate, Virtual, Create, IsTree, CanonicalJail, OnlyBelow, Lexical, MayPointTo, LinkMade,
        Resolve;
      LinkMadeAs(disk.tree, jail, Of(target), Of(a), disk.limit);
      var text := ResolveVirtual(target, false);
      CallsKeepTree(disk.tree, jail, old(Of(a)), old(Of(target)), [], false, disk.limit);
      VirtualIsClean(Default(jail, old(wd), cwd), a);
      if old(Of(a)) != [] { SymlinkEffect(disk.tree, jail, old(Of(target)), old(Of(a)), disk.limit); }
      if text.Bad? {
        ok := Commit(Err(disk.tree, text.e));
      } else {
        var r := ResolveHostForCreate(a);
        ok := Commit(if r.Bad? then Err(disk.tree, r.e)
                     else Create(disk.tree, r.value, Link(Raw(true, HostPath(jail, text.value))), disk.limit));
      }
      if jail.Some? && old(Of(a)) != [] { CallsAreConfined(old(disk.tree), jail, old(Of(a)), old(Of(target)), [],
        false, disk.limit); }
    }

    /** With or without a jail, on its root or off it: every tree the disk passes through shows the
        target as it was or with all of the data; an error leaves it as it was, and, if the removal
        works, no temporary file; and there is no error but for a fault or a target that cannot be
        written. */
    method AtomicWriteFile(a: Arg, data: seq<int>, suffix: string, fault: Fault, cleanupFails: bool)
        returns (ok: Result<()>)
      requires Valid()
      modifies this`wd, disk
      ensures Valid() && wd == Some(Default(jail, old(wd), cwd)) && old(disk.trace) <= disk.trace
      ensures match HostForOpen(old(disk.tree), jail, old(Of(a)), disk.limit)
              case Bad(e) => ok == Bad(e) && disk.tree == old(disk.tree) && disk.trace == old(disk.trace)
              case Good(h) =>
                AtomicallyWritten(old(disk.tree), h, data, suffix, fault, cleanupFails, |old(disk.trace)|, ok)
      ensures var (t, v) := (old(disk.tree), old(Of(a)));
              ok.Good? && Spot(t, jail, v, disk.limit).Some? ==>
                var p := AtomicSpot(t, jail, v, disk.limit); p.Some? && disk.tree == t[p.value := File(data)]
    {
      var r := ResolveHostForOpen(a);
      if r.Bad? { return Bad(r.e); }
      if jail.Some? { OpenIsClean(disk.tree, jail.value, old(Of(a)), disk.limit); }
      forall u | r.value != [] && StepState(disk.tree, u, r.value, suffix, data, disk.limit) ensures IsTree(u) {
        StepKeepsTree(disk.tree, u, r.value, suffix, data, disk.limit);
      }
      ok := disk.AtomicWriteFile(r.value, data, suffix, fault, cleanupFails);
      if ok.Good? && Spot(old(disk.tree), jail, old(Of(a)), disk.limit).Some? {
        AtomicEffect(old(disk.tree), disk.tree, jail, old(Of(a)), r.value, data, disk.limit);
      }
    }

    /** What an atomic write to host path h of tree t has done to the disk, whose trace was `before`
        trees long. */
    ghost predicate AtomicallyWritten(t: Tree, h: Path, data: seq<int>, suffix: string, fault: Fault,
                                      cleanupFails: bool, before: nat, ok: Result<()>)
      requires IsTree(t)
      reads disk
    {
      if h == [] then
        ok.Bad? && disk.tree == t && forall i :: before <= i < |disk.trace| ==> disk.trace[i] == t
      else
        && (forall i :: before <= i < |disk.trace| ==> StepState(t, disk.trace[i], h, suffix, data, disk.limit))
        && StepState(t, disk.tree, h, suffix, data, disk.limit)
        && (ok.Good? ==> WrittenAt(t, disk.tree, h, data, disk.limit))
        && (ok.Bad? ==> Unwritten(t, disk.tree, h, suffix, data, disk.limit))
        && (ok.Bad? && !cleanupFails ==> disk.tree == t || disk.tree == MkdirAll(t, Up(h), disk.limit).t)
        && (ok.Good? <==> fault.NoFault? && CanBeWritten(t, h, suffix, disk.limit))
    }
  }
}
