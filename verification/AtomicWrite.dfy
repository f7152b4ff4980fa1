/** atomicWriteFile as the sequence of filesystem effects it is, with a failure possible at every
    step: make the directory, create a temporary file in it, write, close, rename over the target,
    and on the way out remove the temporary file. */
module AtomicWrite {
  import opened Paths
  import opened Os
  import opened Syscalls

  /** The step that fails in a run, if any. A failing write has already written a part. */
  datatype Fault = NoFault | MkdirFails | TempFails | WriteFails(written: nat) | CloseFails | RenameFails

  /** Names the temporary file: the target's name between a fixed prefix and a random suffix. */
  function TempName(base: string, suffix: string): (name: string)
    ensures IsName(name) && name != base
  {
    var name := ".tmp-" + base + "." + suffix;
    assert |name| > |base| && |name| > 2;
    name
  }

  function TempPath(h: Path, suffix: string): Path
    requires h != []
  {
    Up(h) + [TempName(h[|h| - 1], suffix)]
  }

  /** The place h denotes without following its last component: in the directory that its front leads
      to. */
  function Landing(t: Tree, h: Path, limit: nat): (at: Path)
    requires h != []
    ensures at != [] && at[|at| - 1] == h[|h| - 1]
  {
    match Walk(t, [], Up(h), limit, true)
    case At(d, _) => d + [h[|h| - 1]]
    case _ => h
  }

  /** The states a run may pass through, `made` being the tree once the target's directory is there. */
  ghost predicate StepState(t: Tree, u: Tree, h: Path, suffix: string, data: seq<int>, limit: nat)
    requires IsTree(t) && h != []
  {
    var made := MkdirAll(t, Up(h), limit);
    var at := Landing(made.t, h, limit);
    || u == t
    || u == made.t
    || (made.Ok? && TempPath(at, suffix) !in made.t && FillState(made.t, u, at, suffix, data))
  }

  /** The states from the creation of the temporary file on, for the target at `at`. */
  ghost predicate FillState(made: Tree, u: Tree, at: Path, suffix: string, data: seq<int>)
    requires at != []
  {
    || u == made
    || HasTemp(made, u, at, suffix, data)
    || ((at in made ==> !made[at].Dir?) && u == made[at := File(data)])
  }

  /** The temporary file is there, with some of the data. */
  ghost predicate HasTemp(made: Tree, u: Tree, at: Path, suffix: string, data: seq<int>)
    requires at != []
  {
    exists k :: 0 <= k <= |data| && u == made[TempPath(at, suffix) := File(data[..k])]
  }

  /** The states in which the target has not been touched. */
  ghost predicate Unwritten(t: Tree, u: Tree, h: Path, suffix: string, data: seq<int>, limit: nat)
    requires IsTree(t) && h != []
  {
    var made := MkdirAll(t, Up(h), limit);
    var at := Landing(made.t, h, limit);
    || u == t
    || u == made.t
    || (made.Ok? && TempPath(at, suffix) !in made.t && HasTemp(made.t, u, at, suffix, data))
  }

  /** Nothing but a fault of a step keeps the target from being written. */
  ghost predicate CanBeWritten(t: Tree, h: Path, suffix: string, limit: nat)
    requires IsTree(t) && h != []
  {
    var made := MkdirAll(t, Up(h), limit);
    var at := Landing(made.t, h, limit);
    made.Ok? && TempPath(at, suffix) !in made.t && (at in made.t ==> !made.t[at].Dir?)
  }

  /** The directory was made, and the target holds the data. */
  ghost predicate WrittenAt(t: Tree, u: Tree, h: Path, data: seq<int>, limit: nat)
    requires IsTree(t) && h != []
  {
    var made := MkdirAll(t, Up(h), limit);
    var at := Landing(made.t, h, limit);
    made.Ok? && (at in made.t ==> !made.t[at].Dir?) && u == made.t[at := File(data)]
  }

  lemma Witnesses(made: Tree, h: Path, suffix: string, data: seq<int>, k: nat)
    requires h != [] && k <= |data|
    ensures FillState(made, made, h, suffix, data)
    ensures HasTemp(made, made[TempPath(h, suffix) := File(data[..k])], h, suffix, data)
    ensures FillState(made, made[TempPath(h, suffix) := File(data[..k])], h, suffix, data)
    ensures (h in made ==> !made[h].Dir?) ==> FillState(made, made[h := File(data)], h, suffix, data)
  {
  }

  /** A node of a directory that is physically there. */
  lemma InDirectory(t: Tree, d: Path, name: string, n: nat)
    requires IsTree(t) && d in t && t[d].Dir? && IsName(name)
    ensures Walk(t, [], d + [name], n, false) == if d + [name] in t then At(d + [name], n) else Missing(d + [name], n)
    ensures d + [name] in t && !t[d + [name]].Link? ==> Walk(t, [], d + [name], n, true) == At(d + [name], n)
    ensures d + [name] !in t ==> Walk(t, [], d + [name], n, true) == Missing(d + [name], n)
  {
    WalkSplits(t, [], d, [name], n, false);
    WalkSplits(t, [], d, [name], n, true);
    NodesResolve(t, d, n, true);
    LastStep(t, d, name, n, false);
    LastStep(t, d, name, n, true);
  }

  lemma TempInDirectory(t: Tree, h: Path, suffix: string, node: Node)
    requires IsTree(t) && h != [] && Up(h) in t && t[Up(h)].Dir? && TempPath(h, suffix) !in t
    ensures IsTree(t[TempPath(h, suffix) := node]) && TempPath(h, suffix) != h
    ensures !HasChild(t[TempPath(h, suffix) := node], TempPath(h, suffix))
  {
    var tmp := TempPath(h, suffix);
    UpOfChild(Up(h), tmp[|tmp| - 1]);
    PutKeepsTree(t, tmp, node);
    NothingBelow(t, tmp);
  }

  /** Renaming a childless file moves that one node. */
  lemma RenameFile(t: Tree, from: Path, to: Path, node: Node)
    requires from !in t && from != to && (forall p :: p in t ==> !(from <= p))
    ensures Moved(t[from := node], from, to) == t[to := node]
  {
    var u := t[from := node];
    assert NewPlace(from, from, to) == to;
    var m := Moved(u, from, to);
    forall p ensures p in m <==> p in t[to := node] {
      if p in t && p != to { assert p in u && !(from <= p); }
    }
    assert from in u && m[to] == node;
  }

  /** Removing the temporary file gives back the tree without it. */
  lemma RemoveTemp(t: Tree, tmp: Path, node: Node)
    requires tmp !in t && forall p :: p in t ==> !(tmp <= p)
    ensures Without(t[tmp := node], tmp) == t
  {
  }

  lemma NothingBelow(t: Tree, tmp: Path)
    requires IsTree(t) && tmp !in t
    ensures forall p :: p in t ==> !(tmp <= p)
  {
    forall p | p in t ensures !(tmp <= p) {
      assert tmp <= p ==> p[..|tmp|] == tmp;
      if tmp <= p { PrefixesAreDirs(t, p, |tmp|); }
    }
  }

  // ----- where a path leads

  /** A directory that MkdirAll has made resolves to a directory. */
  lemma MadeDirResolves(t: Tree, p: Path, limit: nat)
    requires IsTree(t) && Names(p) && MkdirAll(t, p, limit).Ok?
    ensures var u := MkdirAll(t, p, limit).t;
            var r := Walk(u, [], p, limit, true); r.At? && r.path in u && u[r.path].Dir?
  {
    WalkEnds(t, [], p, limit, true);
    if Stat(t, p, limit).Bad? {
      var above := MkdirAll(t, Up(p), limit).t;
      var last := p[|p| - 1];
      assert p == Up(p) + [last] && IsName(last);
      WalkSplits(above, [], Up(p), [last], limit, false);
      WalkEnds(above, [], p, limit, false);
      if Mkdir(above, p, limit).Ok? {
        NewDirResolves(above, p, limit);
      } else {
        FollowOnlyMattersAtLinks(above, [], p, limit);
      }
    }
  }

  lemma NewDirResolves(t: Tree, p: Path, limit: nat)
    requires IsTree(t) && p != [] && Names(p) && Mkdir(t, p, limit).Ok?
    ensures var u := Mkdir(t, p, limit).t;
            var r := Walk(u, [], p, limit, true); r.At? && r.path in u && u[r.path].Dir?
  {
    var (u, last) := (Mkdir(t, p, limit).t, p[|p| - 1]);
    assert p == Up(p) + [last] && IsName(last);
    WalkSplits(t, [], Up(p), [last], limit, false);
    WalkSplits(u, [], Up(p), [last], limit, true);
    var r := Walk(t, [], Up(p), limit, true);
    WalkEnds(t, [], Up(p), limit, true);
    WalkEnds(t, [], p, limit, false);
    WalkInLargerTree(t, u, [], Up(p), limit, true);
    LastStep(t, r.path, last, r.left, false);
    LastStep(u, r.path, last, r.left, true);
  }

  /** The walk from cur looks up the name of place q on its way. */
  predicate Passes(t: Tree, q: Path, cur: Path, rest: seq<string>, n: nat)
    decreases n, |rest|
  {
    if rest == [] || cur !in t || !t[cur].Dir? then false
    else if rest[0] == "." then Passes(t, q, cur, rest[1..], n)
    else if rest[0] == ".." then Passes(t, q, Up(cur), rest[1..], n)
    else
      var p := cur + [rest[0]];
      if p == q then true
      else if p !in t then false
      else if !t[p].Link? then Passes(t, q, p, rest[1..], n)
      else n > 0 && Passes(t, q, if t[p].target.abs then [] else cur, t[p].target.comps + rest[1..], n - 1)
  }

  /** When q has become a file, a walk that does not pass it is as before, and one that does ends there. */
  lemma {:induction false} WalkPastFile(t: Tree, q: Path, data: seq<int>, cur: Path, rest: seq<string>, n: nat)
    requires q in t ==> !t[q].Dir?
    ensures var r := Walk(t[q := File(data)], cur, rest, n, true);
            if Passes(t, q, cur, rest, n) then r.Fail? || (r.At? && r.path == q) else r == Walk(t, cur, rest, n, true)
    decreases n, |rest|
  {
    if rest != [] && cur in t && t[cur].Dir? {
      if rest[0] == "." {
        WalkPastFile(t, q, data, cur, rest[1..], n);
      } else if rest[0] == ".." {
        WalkPastFile(t, q, data, Up(cur), rest[1..], n);
      } else {
        var p := cur + [rest[0]];
        if p in t && p != q && !t[p].Link? {
          WalkPastFile(t, q, data, p, rest[1..], n);
        } else if p in t && p != q && n > 0 {
          WalkPastFile(t, q, data, if t[p].target.abs then [] else cur, t[p].target.comps + rest[1..], n - 1);
        }
      }
    }
  }

  /** A directory ready for target h at `at`, with room for the temporary file. */
  ghost predicate Ready(made: Tree, h: Path, at: Path, suffix: string, limit: nat) {
    && IsTree(made) && h != [] && Names(h) && at != [] && at[|at| - 1] == h[|h| - 1]
    && Up(at) in made && made[Up(at)].Dir? && TempPath(at, suffix) !in made
    && var r := Walk(made, [], Up(h), limit, true); r.At? && r.path == Up(at)
  }

  lemma MadeIsReady(t: Tree, h: Path, suffix: string, limit: nat)
    requires IsTree(t) && h != [] && Names(h) && MkdirAll(t, Up(h), limit).Ok?
    requires var made := MkdirAll(t, Up(h), limit).t; TempPath(Landing(made, h, limit), suffix) !in made
    ensures var made := MkdirAll(t, Up(h), limit).t; Ready(made, h, Landing(made, h, limit), suffix, limit)
  {
    MadeDirResolves(t, Up(h), limit);
    var made := MkdirAll(t, Up(h), limit).t;
    UpOfChild(Walk(made, [], Up(h), limit, true).path, h[|h| - 1]);
  }

  /** A name in the target's directory, looked up by the path that leads there. */
  lemma BesideTarget(u: Tree, h: Path, d: Path, name: string, limit: nat)
    requires h != [] && d in u && u[d].Dir? && IsName(name)
    requires var r := Walk(u, [], Up(h), limit, true); r.At? && r.path == d
    ensures var left := Walk(u, [], Up(h), limit, true).left;
            Walk(u, [], Up(h) + [name], limit, false)
            == if d + [name] in u then At(d + [name], left) else Missing(d + [name], left)
  {
    WalkSplits(u, [], Up(h), [name], limit, false);
    LastStep(u, d, name, Walk(u, [], Up(h), limit, true).left, false);
  }

  lemma RenameOutcome(made: Tree, h: Path, at: Path, suffix: string, data: seq<int>, limit: nat)
    requires Ready(made, h, at, suffix, limit)
    ensures var u := made[TempPath(at, suffix) := File(data)];
            IsTree(u) && Rename(u, TempPath(h, suffix), h, limit)
                      == if at in made && made[at].Dir? then Err(u, EEXIST) else Ok(made[at := File(data)])
  {
    hide Walk, Moved, IsTree;
    var (tmp, base) := (TempPath(at, suffix), h[|h| - 1]);
    var u := made[tmp := File(data)];
    TempInDirectory(made, at, suffix, File(data));
    NothingBelow(made, tmp);
    WalkInLargerTree(made, u, [], Up(h), limit, true);
    assert h == Up(h) + [base] && at == Up(at) + [base] && IsName(base);
    BesideTarget(u, h, Up(at), TempName(base, suffix), limit);
    BesideTarget(u, h, Up(at), base, limit);
    RenameFile(made, tmp, at, File(data));
    assert |tmp| == |at| && tmp != at;
    assert tmp <= at ==> tmp == at;
  }

  /** The temporary file's removal: it goes if it is there, and after the rename nothing does. */
  lemma RemoveOutcome(made: Tree, h: Path, at: Path, suffix: string, node: Node, data: seq<int>, limit: nat)
    requires Ready(made, h, at, suffix, limit)
    ensures Remove(made[TempPath(at, suffix) := node], TempPath(h, suffix), limit).t == made
    ensures (at in made ==> !made[at].Dir?) ==>
              Remove(made[at := File(data)], TempPath(h, suffix), limit).t == made[at := File(data)]
  {
    var (tmp, base) := (TempPath(at, suffix), h[|h| - 1]);
    var u := made[tmp := node];
    TempInDirectory(made, at, suffix, node);
    NothingBelow(made, tmp);
    WalkInLargerTree(made, u, [], Up(h), limit, true);
    BesideTarget(u, h, Up(at), TempName(base, suffix), limit);
    RemoveTemp(made, tmp, node);
    if at in made ==> !made[at].Dir? {
      NothingToRemove(made, h, at, suffix, data, limit);
    }
  }

  lemma NothingToRemove(made: Tree, h: Path, at: Path, suffix: string, data: seq<int>, limit: nat)
    requires Ready(made, h, at, suffix, limit) && (at in made ==> !made[at].Dir?)
    ensures Remove(made[at := File(data)], TempPath(h, suffix), limit).t == made[at := File(data)]
  {
    var (u, name) := (made[at := File(data)], TempName(h[|h| - 1], suffix));
    WalkPastFile(made, at, data, [], Up(h), limit);
    WalkSplits(u, [], Up(h), [name], limit, false);
    var r := Walk(u, [], Up(h), limit, true);
    assert Up(at) != at;
    if r.At? && r.path == Up(at) { LastStep(u, Up(at), name, r.left, false); }
    assert Up(at) + [name] != at by { assert (Up(at) + [name])[|at| - 1] == name; }
  }

  /** The disk: its tree, and every tree it has held. */
  class Disk {
    var tree: Tree
    const limit: nat
    ghost var trace: seq<Tree>

    constructor (tree: Tree, limit: nat)
      ensures this.tree == tree && this.limit == limit && trace == []
    {
      this.tree, this.limit, trace := tree, limit, [];
    }

    method Store(u: Tree)
      modifies this
      ensures tree == u && trace == old(trace) + [u]
    {
      tree := u;
      trace := trace + [u];
    }

    /** The deferred removal of the temporary file. */
    method CleanUp(tmp: Path, fails: bool)
      modifies this
      ensures if fails then tree == old(tree) && trace == old(trace)
              else tree == Remove(old(tree), tmp, limit).t && trace == old(trace) + [tree]
    {
      if !fails { Store(Remove(tree, tmp, limit).t); }
    }

    /** From the new temporary file, at `place`, on: writes, closes and renames. */
    method Fill(made: Tree, place: Path, h: Path, ghost at: Path, data: seq<int>, suffix: string, fault: Fault,
        cleanupFails: bool)
      returns (err: Result<()>)
      requires h != [] && at != [] && tree == made[place := File([])]
      modifies this
      ensures old(trace) <= trace
      ensures Ready(made, h, at, suffix, limit) && place == TempPath(at, suffix) ==>
                && (forall i :: |old(trace)| <= i < |trace| ==> FillState(made, trace[i], at, suffix, data))
                && FillState(made, tree, at, suffix, data)
                && (err.Good? ==> (at in made ==> !made[at].Dir?) && tree == made[at := File(data)])
                && (err.Bad? ==> tree == made || (cleanupFails && HasTemp(made, tree, at, suffix, data)))
                && (err.Good? <==>
                    !fault.WriteFails? && !fault.CloseFails? && !fault.RenameFails? && (at in made ==> !made[at].Dir?))
    {
      hide Ready, TempPath, FillState, HasTemp, Rename, Remove;
      var tmp := TempPath(h, suffix);
      ghost var ready := Ready(made, h, at, suffix, limit) && place == TempPath(at, suffix);
      assert data[..0] == [] && data[..|data|] == data;
      if ready { RenameOutcome(made, h, at, suffix, data, limit); }
      Witnesses(made, at, suffix, data, 0);
      if fault.WriteFails? {
        var n := if fault.written <= |data| then fault.written else |data|;
        Witnesses(made, at, suffix, data, n);
        if ready { RemoveOutcome(made, h, at, suffix, File(data[..n]), data, limit); }
        Store(made[place := File(data[..n])]);
        err := Bad(EIO);
      } else {
        Witnesses(made, at, suffix, data, |data|);
        if ready { RemoveOutcome(made, h, at, suffix, File(data), data, limit); }
        Store(made[place := File(data)]);
        if fault.CloseFails? || fault.RenameFails? {
          err := Bad(EIO);
        } else {
          var renamed := Rename(tree, tmp, h, limit);
          Store(renamed.t);
          err := if renamed.Ok? then Good(()) else Bad(renamed.e);
        }
      }
      CleanUp(tmp, cleanupFails);
    }

    /** Old or new at every step, for every clean path: every tree the disk passes through is a
        StepState; a run without an error leaves the target holding all of the data, and one with an error
        leaves it untouched, also when the removal of the temporary file fails; and no temporary file
        remains, unless its removal fails. */
    method AtomicWriteFile(h: Path, data: seq<int>, suffix: string, fault: Fault, cleanupFails: bool)
        returns (err: Result<()>)
      requires IsTree(tree) && Names(h)
      modifies this
      ensures old(trace) <= trace
      ensures h == [] ==>
                err.Bad? && tree == old(tree) && forall i :: |old(trace)| <= i < |trace| ==> trace[i] == old(tree)
      ensures h != [] ==>
                && (forall i :: |old(trace)| <= i < |trace| ==> StepState(old(tree), trace[i], h, suffix, data, limit))
                && StepState(old(tree), tree, h, suffix, data, limit)
                && (err.Good? ==> WrittenAt(old(tree), tree, h, data, limit))
                && (err.Bad? ==> Unwritten(old(tree), tree, h, suffix, data, limit))
                && (err.Bad? && !cleanupFails ==> tree == old(tree) || tree == MkdirAll(old(tree), Up(h), limit).t)
                && (err.Good? <==> fault.NoFault? && CanBeWritten(old(tree), h, suffix, limit))
    {
      if fault.MkdirFails? { return Bad(EIO); }
      var made := MkdirAll(tree, Up(h), limit);
      Store(made.t);
      if made.Err? { return Bad(made.e); }
      // The pattern for the root's name would hold a separator.
      if h == [] || fault.TempFails? { return Bad(EIO); }
      var tmp := TempPath(h, suffix);
      MadeDirResolves(old(tree), Up(h), limit);
      ghost var at := Landing(made.t, h, limit);
      UpOfChild(Walk(made.t, [], Up(h), limit, true).path, h[|h| - 1]);
      BesideTarget(made.t, h, Up(at), TempName(h[|h| - 1], suffix), limit);
      hide MkdirAll, Walk, Landing, FillState, HasTemp, Names;
      match Walk(made.t, [], tmp, limit, false) {
        case At(_, _) => return Bad(EEXIST);
        case Fail(e) => return Bad(e);
        case Missing(place, _) =>
          assert data[..0] == [];
          MadeIsReady(old(tree), h, suffix, limit);
          Store(made.t[place := File([])]);
          Witnesses(made.t, at, suffix, data, 0);
          err := Fill(made.t, place, h, at, data, suffix, fault, cleanupFails);
      }
    }
  }
}
