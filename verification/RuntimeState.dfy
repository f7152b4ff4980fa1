/** The jail and the working directory, kept three times: in the runtime, in its environment and in
    its filesystem. */
module RuntimeState {
  import opened Paths
  import opened Os
  import opened Syscalls
  import opened Resolvers
  import opened Calls
  import opened OsFs

  /** A path with the jail's prefix taken off; without a jail, the path. */
  function Strip(jail: Option<Path>, p: Path): Path {
    match jail
    case None => p
    case Some(j) => RemoveJailPrefix(j, p)
  }

  lemma StripIsClean(jail: Option<Path>, p: Path)
    requires Names(p)
    ensures Names(Strip(jail, p))
  {
    if jail.Some? { CleanIsClean([], Rel(jail.value, p)); }
  }

  lemma StripUndoesHostPath(jail: Option<Path>, v: Path)
    requires Names(v)
    ensures Strip(jail, HostPath(jail, v)) == v
  {
    if jail.Some? { RemoveUndoesJoin(jail.value, v); }
  }

  /** The values variable expansion may depend on. */
  datatype EnvValues = EnvValues(jail: Option<Path>, home: Option<Path>, pwd: Option<Path>, vars: map<string, string>)

  /** Expansion of variables and of a leading tilde: some function of the text and the environment. */
  type Expander = (Raw, EnvValues) -> Result<Raw>

  class TestEnv {
    var jail: Option<Path>
    var home: Option<Path>
    var pwd: Option<Path>
    var vars: map<string, string>

    constructor (values: EnvValues)
      ensures Values() == values
    {
      jail, home, pwd, vars := values.jail, values.home, values.pwd, values.vars;
    }

    function Values(): EnvValues
      reads this
    {
      EnvValues(jail, home, pwd, vars)
    }

    ghost predicate Valid()
      reads this
    {
      (jail.Some? ==> Names(jail.value)) && (home.Some? ==> Names(home.value)) && (pwd.Some? ==> Names(pwd.value))
    }

    /** The home directory as seen from inside the jail. */
    function GetHome(): Option<Path>
      reads this
    {
      if home.None? then None else Some(Strip(jail, home.value))
    }

    /** Rebases the home directory onto the new jail. Whatever the home was, GetHome does not
        notice. */
    method SetJail(j: Arg)
      requires Valid() && (j.Given? ==> j.raw.abs)
      modifies this`jail, this`home
      ensures Valid() && jail == if j.Blank? then None else Some(Clean([], j.raw.comps))
      ensures GetHome() == old(GetHome())
    {
      var newJail := if j.Blank? then None else Some(Clean([], j.raw.comps));
      if j.Given? { CleanIsClean([], j.raw.comps); }
      if home.Some? {
        var virtualHome := Strip(jail, home.value);
        StripIsClean(jail, home.value);
        StripUndoesHostPath(newJail, virtualHome);
        home := Some(HostPath(newJail, virtualHome));
      }
      jail := newJail;
    }

    /** ResolvePath without following: "~" is the home directory, a relative path starts at PWD. */
    function ResolvePath(raw: Raw): Option<Path>
      reads this
    {
      var tilde := !raw.abs && raw.comps != [] && raw.comps[0] == "~";
      var p := if !tilde then raw
               else if home.Some? then Raw(true, GetHome().value + raw.comps[1..])
               else Raw(false, raw.comps[1..]);
      if p.abs then Some(Clean([], p.comps))
      else if pwd.Some? then Some(Clean([], pwd.value + p.comps)) else None
    }

    lemma ResolvedIsClean(raw: Raw)
      requires Valid() && ResolvePath(raw).Some?
      ensures Names(ResolvePath(raw).value)
    {
      forall todo ensures Names(Clean([], todo)) { CleanIsClean([], todo); }
    }

    /** An absolute path is cleaned from the root, "~" and what follows from the home directory, anything
        else from PWD. */
    lemma ResolvesFrom(raw: Raw)
      requires Valid()
      ensures var tilde := !raw.abs && raw.comps != [] && raw.comps[0] == "~";
              && (raw.abs ==> ResolvePath(raw) == Some(Clean([], raw.comps)))
              && (tilde && home.Some? ==> ResolvePath(raw) == Some(Clean(GetHome().value, raw.comps[1..])))
              && (!raw.abs && !tilde && pwd.Some? ==> ResolvePath(raw) == Some(Clean(pwd.value, raw.comps)))
              && (!raw.abs && !tilde && pwd.None? ==> ResolvePath(raw).None?)
    {
      if home.Some? {
        StripIsClean(jail, home.value);
        if raw.comps != [] { CleanBelow(GetHome().value, raw.comps[1..]); }
      }
      if pwd.Some? { CleanBelow(pwd.value, raw.comps); }
    }

    /** The home directory set is the home directory seen. */
    method SetHome(raw: Raw) returns (ok: bool)
      requires Valid()
      modifies this`home
      ensures Valid() && ok == old(ResolvePath(raw)).Some?
      ensures if ok then GetHome() == old(ResolvePath(raw)) else home == old(home)
    {
      var p := ResolvePath(raw);
      if p.None? { return false; }
      ResolvedIsClean(raw);
      StripUndoesHostPath(jail, p.value);
      home := Some(HostPath(jail, p.value));
      ok := true;
    }

    method Setwd(raw: Raw) returns (ok: bool)
      requires Valid()
      modifies this`pwd
      ensures Valid() && ok == old(ResolvePath(raw)).Some?
      ensures pwd == if ok then old(ResolvePath(raw)) else old(pwd)
    {
      var p := ResolvePath(raw);
      if p.None? { return false; }
      ResolvedIsClean(raw);
      pwd := p;
      ok := true;
    }

    method Clone() returns (c: TestEnv)
      ensures fresh(c) && c.Values() == Values()
    {
      c := new TestEnv(Values());
    }
  }

  /** Whether the filesystem agrees to make v its working directory: a directory, or nothing there. */
  ghost predicate Accepts(t: Tree, jail: Option<Path>, v: Path, limit: nat)
    requires IsTree(t) && (jail.Some? ==> Names(jail.value)) && Names(v)
  {
    && Resolve(t, jail, v, false, limit).Good?
    && var s := Stat(t, HostPath(jail, v), limit); s == Good(Dir) || s == Bad(ENOENT)
  }

  /** What Set is called with: the value as text and as a path. */
  datatype StateOp = SetwdOp(dir: Arg) | SetOp(key: string, text: string, path: Raw)

  datatype RuntimeOp = Jail(jail: Arg) | State(op: StateOp)

  class Runtime {
    const env: TestEnv
    const fs: OsFS
    const expand: Expander
    var jail: Option<Path>
    var wd: Path

    constructor (env: TestEnv, fs: OsFS, expand: Expander, jail: Option<Path>, wd: Path)
      ensures this.env == env && this.fs == fs && this.expand == expand && this.jail == jail && this.wd == wd
    {
      this.env, this.fs, this.expand, this.jail, this.wd := env, fs, expand, jail, wd;
    }

    ghost predicate Valid()
      reads this, env, fs, fs.disk
    {
      env.Valid() && fs.Valid() && Names(wd) && (jail.Some? ==> Names(jail.value))
    }

    /** The three jails are one, and so are the three working directories. */
    ghost predicate Replicated()
      reads this, env, fs
    {
      jail == env.jail == fs.jail && fs.wd == Some(wd) && env.pwd == Some(wd)
    }

    /** Moves the filesystem and then the environment; the filesystem may refuse. */
    method ApplyWorkingDir(target: Path) returns (ok: Result<()>)
      requires Valid() && Names(target)
      modifies this`wd, env`pwd, fs`wd
      ensures Valid()
      ensures ok.Good? ==> wd == target && fs.wd == Some(target) && env.pwd == Some(target)
      ensures ok.Bad? ==> wd == old(wd) && env.pwd == old(env.pwd) && (old(fs.wd).Some? ==> fs.wd == old(fs.wd))
      ensures ok.Good? <==> Accepts(fs.disk.tree, fs.jail, target, fs.disk.limit)
    {
      CleanOfNames([], target);
      assert [] + target == target;
      var moved := fs.Setwd(Given(Raw(true, target)));
      if moved.Bad? { return moved; }
      var followed := env.Setwd(Raw(true, target));
      var current := fs.Getwd();
      wd := current;
      ok := Good(());
    }

    /** The directory a runtime starts in: its own, or, when that is blank, the environment's or else the
        filesystem's. */
    function Start(blank: bool, newJail: Option<Path>): Path
      reads this, env, fs
    {
      if !blank then wd else if env.pwd.Some? then env.pwd.value else Default(newJail, fs.wd, fs.cwd)
    }

    /** Brings the three together, whatever they were: the runtime's jail counts before the
        environment's, and that before the filesystem's; so does the runtime's directory, unless it
        is blank. */
    method NormalizeState(blank: bool) returns (ok: Result<()>)
      requires Valid()
      modifies this`jail, this`wd, env`jail, env`home, env`pwd, fs`jail, fs`wd
      ensures Valid() && (ok.Good? ==> Replicated())
      ensures ok.Good? <==> Accepts(fs.disk.tree, jail, wd, fs.disk.limit)
      ensures jail == if old(jail).Some? then old(jail) else if old(env.jail).Some? then old(env.jail) else old(fs.jail)
      ensures jail == env.jail == fs.jail && wd == old(Start(blank, if jail.Some? then jail
          else if env.jail.Some? then env.jail else fs.jail))
      ensures env.GetHome() == old(env.GetHome())
    {
      if jail.None? {
        jail := env.jail;
        if jail.None? { jail := fs.jail; }
      }
      if jail.Some? {
        CleanOfNames([], jail.value);
        assert [] + jail.value == jail.value;
      }
      var clean := if jail.None? then Blank else Given(Raw(true, jail.value));
      fs.SetJail(clean);
      env.SetJail(clean);
      assert env.GetHome() == old(env.GetHome());
      if blank {
        if env.pwd.Some? {
          wd := env.pwd.value;
        } else {
          var current := fs.Getwd();
          wd := current;
        }
      }
      ok := ApplyWorkingDir(wd);
    }

    /** On success and on every error the jails and the working directories stay replicated. A
        directory the new jail refuses gives way to the root; if that is refused too, the working
        directory stays. */
    method SetJail(j: Arg) returns (ok: Result<()>)
      requires Valid() && Replicated() && (j.Given? ==> j.raw.abs)
      modifies this, env`jail, env`home, env`pwd, fs`jail, fs`wd
      ensures Valid() && Replicated()
      ensures jail == if j.Blank? then None else Some(Clean([], j.raw.comps))
      ensures env.GetHome() == old(env.GetHome())
      ensures
        var (stays, root) := (Accepts(fs.disk.tree, jail, old(wd), fs.disk.limit),
          Accepts(fs.disk.tree, jail, [], fs.disk.limit));
        (ok.Good? <==> stays || root) && wd == if !stays && root then [] else old(wd)
    {
      jail := if j.Blank? then None else Some(Clean([], j.raw.comps));
      if j.Given? {
        CleanIsClean([], j.raw.comps);
        CleanOfNames([], jail.value);
        assert [] + jail.value == jail.value;
      }
      var clean := if jail.None? then Blank else Given(Raw(true, jail.value));
      fs.SetJail(clean);
      env.SetJail(clean);
      assert env.GetHome() == old(env.GetHome());
      ok := ApplyWorkingDir(wd);
      if ok.Bad? {
        var fallback := ApplyWorkingDir([]);
        if fallback.Good? { ok := Good(()); }
      }
    }

    /** The absolute path an argument stands for: against the runtime's own directory and
        environment. */
    function Absolute(a: Arg): Result<Path>
      reads this, env
    {
      match a
      case Blank => Good(wd)
      case Given(raw) =>
        match expand(raw, env.Values())
        case Bad(e) => Bad(e)
        case Good(p) => Good(Clean([], if p.abs then p.comps else wd + p.comps))
    }

    lemma AbsoluteIsClean(a: Arg)
      requires Valid() && Absolute(a).Good?
      ensures Names(Absolute(a).value)
    {
      forall todo ensures Names(Clean([], todo)) { CleanIsClean([], todo); }
    }

    /** A relative argument, once expanded, is cleaned starting from the runtime's directory. */
    lemma StartsFrom(a: Arg)
      requires Valid()
      ensures Absolute(Blank) == Good(wd)
      ensures a.Given? && expand(a.raw, env.Values()).Good? ==>
                var p := expand(a.raw, env.Values()).value;
                Absolute(a) == Good(Clean(if p.abs then [] else wd, p.comps))
    {
      forall comps ensures Clean([], wd + comps) == Clean(wd, comps) { CleanBelow(wd, comps); }
    }

    /** ResolvePath. It uses nothing of the filesystem but its jail and its disk. */
    ghost function Resolved(a: Arg, follow: bool): Result<Path>
      reads this, env, fs, fs.disk
    {
      match Absolute(a)
      case Bad(e) => Bad(e)
      case Good(p) => Resolve(fs.disk.tree, fs.jail, p, follow, fs.disk.limit)
    }

    method ResolvePath(a: Arg, follow: bool) returns (r: Result<Path>)
      requires Valid()
      modifies fs`wd
      ensures Valid() && r == Resolved(a, follow) && (old(fs.wd).Some? ==> fs.wd == old(fs.wd))
      ensures a.Blank? ==> r == Resolve(fs.disk.tree, fs.jail, wd, follow, fs.disk.limit)
      ensures a.Given? ==>
                match expand(a.raw, env.Values())
                case Bad(e) => r == Bad(e)
                case Good(p) => r == Resolve(fs.disk.tree, fs.jail, Clean(if p.abs then [] else wd, p.comps), follow,
                                             fs.disk.limit)
    {
      StartsFrom(a);
      var p := Absolute(a);
      if p.Bad? { return Bad(p.e); }
      AbsoluteIsClean(a);
      CleanOfNames([], p.value);
      assert [] + p.value == p.value;
      r := fs.ResolveVirtual(Given(Raw(true, p.value)), follow);
    }

    ghost predicate AcceptsArg(p: Result<Path>)
      reads this, env, fs, fs.disk
      requires Valid()
    {
      p.Good? && Names(p.value) && Accepts(fs.disk.tree, fs.jail, p.value, fs.disk.limit)
    }

    /** Either all three directories move to the resolved path, or none moves. */
    method Setwd(dir: Arg) returns (ok: Result<()>)
      requires Valid()
      modifies this`wd, env`pwd, fs`wd
      ensures Valid() && (old(Replicated()) ==> Replicated())
      ensures ok.Good? <==> AcceptsArg(old(Absolute(dir)))
      ensures if ok.Good? then old(Absolute(dir)) == Good(wd) else wd == old(wd) && env.pwd == old(env.pwd)
    {
      var target := wd;
      if dir.Given? {
        var p := Absolute(dir);
        if p.Bad? { return Bad(p.e); }
        AbsoluteIsClean(dir);
        CleanOfNames([], p.value);
        assert [] + p.value == p.value;
        var resolved := fs.ResolveVirtual(Given(Raw(true, p.value)), false);
        if resolved.Bad? { return Bad(resolved.e); }
        target := resolved.value;
      }
      ok := ApplyWorkingDir(target);
    }

    /** An empty path, or ".", is the current directory. */
    function PwdArg(path: Raw): Arg {
      if !path.abs && path.comps == [] then Blank else Given(path)
    }

    /** Set of PWD moves the working directory; of HOME, the home directory; of anything else, a
        variable. */
    method Set(key: string, text: string, path: Raw) returns (ok: bool)
      requires Valid()
      modifies this`wd, env, fs`wd
      ensures Valid() && (old(Replicated()) ==> Replicated()) && env.jail == old(env.jail)
      ensures key == "PWD" ==>
        && env.vars == old(env.vars) && env.home == old(env.home)
        && (ok <==> AcceptsArg(old(Absolute(PwdArg(path)))))
        && if ok then old(Absolute(PwdArg(path))) == Good(wd) else wd == old(wd) && env.pwd == old(env.pwd)
      ensures key == "PWD" && ok && (path.abs || path.comps != []) ==>
                var p := old(expand(path, env.Values()));
                p.Good? && wd == Clean(if p.value.abs then [] else old(wd), p.value.comps)
      ensures key == "PWD" && ok && !path.abs && path.comps == [] ==> wd == old(wd)
      ensures key != "PWD" ==> wd == old(wd) && env.pwd == old(env.pwd) && fs.wd == old(fs.wd)
      ensures key == "HOME" ==>
        && env.vars == old(env.vars) && ok == old(env.ResolvePath(path)).Some?
        && if ok then env.GetHome() == old(env.ResolvePath(path)) else env.home == old(env.home)
      ensures key != "PWD" && key != "HOME" ==>
          ok && env.vars == old(env.vars)[key := text] && env.home == old(env.home)
    {
      if key == "PWD" {
        StartsFrom(PwdArg(path));
        var moved := Setwd(PwdArg(path));
        return moved.Good?;
      }
      if key == "HOME" {
        ok := env.SetHome(path);
      } else {
        env.vars := env.vars[key := text];
        ok := true;
      }
    }

    /** A clone has its own environment and shares the filesystem. */
    method Clone() returns (c: Runtime)
      requires Valid()
      ensures fresh(c) && fresh(c.env) && c.fs == fs && c.expand == expand && c.jail == jail && c.wd == wd
      ensures c.env.Values() == env.Values() && c.Valid()
    {
      var e := env.Clone();
      c := new Runtime(e, fs, expand, jail, wd);
    }
  }

  /** Clones do not interfere. Although a clone moves the working directory of the filesystem it
      shares, no sequence of Setwd and Set on it changes what the original resolves any path to. */
  method RunOnClone(original: Runtime, clone: Runtime, ops: seq<StateOp>)
    requires original.Valid() && clone.Valid()
    requires clone != original && clone.env != original.env && clone.fs == original.fs
    modifies clone`wd, clone.env, clone.fs`wd
    ensures original.Valid() && clone.Valid()
    ensures forall a, follow :: original.Resolved(a, follow) == old(original.Resolved(a, follow))
  {
    for i := 0 to |ops|
      invariant original.Valid() && clone.Valid()
      invariant forall a, follow :: original.Resolved(a, follow) == old(original.Resolved(a, follow))
    {
      label L:
      match ops[i] {
        case SetwdOp(dir) => var _ := clone.Setwd(dir);
        case SetOp(key, text, path) => var _ := clone.Set(key, text, path);
      }
      assert forall a, follow :: original.Resolved(a, follow) == old@L(original.Resolved(a, follow));
    }
  }

  /** Over any run of Setwd, Set and SetJail on a runtime that is not shared, whatever fails in it, the
      jails stay one and so do the working directories. */
  method RunOps(rt: Runtime, ops: seq<RuntimeOp>)
    requires rt.Valid() && rt.Replicated()
    requires forall i :: 0 <= i < |ops| && ops[i].Jail? && ops[i].jail.Given? ==> ops[i].jail.raw.abs
    modifies rt, rt.env, rt.fs`jail, rt.fs`wd
    ensures rt.Valid() && rt.Replicated()
  {
    for i := 0 to |ops|
      invariant rt.Valid() && rt.Replicated()
    {
      match ops[i] {
        case Jail(jail) => var _ := rt.SetJail(jail);
        case State(SetwdOp(dir)) => var _ := rt.Setwd(dir);
        case State(SetOp(key, text, path)) => var _ := rt.Set(key, text, path);
      }
    }
  }

  /** SetJail on a clone is another matter: it moves the filesystem's jail under the original, whose
      own jails stay, so they agree afterwards if and only if the new jail is the one they had. */
  method JailOnClone(original: Runtime, clone: Runtime, j: Arg)
    requires original.Valid() && original.jail == original.env.jail && clone.Valid() && clone.Replicated()
    requires clone != original && clone.env != original.env && clone.fs == original.fs
    requires j.Given? ==> j.raw.abs
    modifies clone, clone.env, clone.fs`jail, clone.fs`wd
    ensures original.jail == original.env.jail == old(original.jail)
    ensures original.fs.jail == original.jail <==> old(original.jail) == if j.Blank? then None
        else Some(Clean([], j.raw.comps))
  {
    var _ := clone.SetJail(j);
  }
}
