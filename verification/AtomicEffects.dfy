/** What an atomic write does to the tree, with or without a jail: which nodes it can touch, and which
    links it replaces. */
module AtomicEffects {
  import opened Paths
  import opened Os
  import opened Syscalls
  import opened Confinement
  import opened AtomicWrite

  /** Where the target is, once its directory has been made. */
  function Target(t: Tree, h: Path, limit: nat): (at: Path)
    requires IsTree(t) && h != []
    ensures at != []
  {
    Landing(MkdirAll(t, Up(h), limit).t, h, limit)
  }

  lemma TempIsNotTarget(h: Path, suffix: string)
    requires h != []
    ensures TempPath(h, suffix) != h
  {
    var name := TempName(h[|h| - 1], suffix);
    assert (Up(h) + [name])[|h| - 1] == name;
  }

  /** Atomicity, for every path. In every state a run passes through, at every point of failure, the
      target is what it was or holds all of the data; every other node is still there, unchanged; and
      what is new is the target, the temporary file or a directory. */
  lemma StepTouchesTargetOnly(t: Tree, u: Tree, h: Path, suffix: string, data: seq<int>, limit: nat)
    requires IsTree(t) && h != [] && StepState(t, u, h, suffix, data, limit)
    ensures var at := Target(t, h, limit);
            && (at in t ==> at in u && (u[at] == t[at] || u[at] == File(data)))
            && (forall p :: p in t && p != at ==> p in u && u[p] == t[p])
            && (forall p :: p in u && p !in t ==>
                  u[p].Dir? || (p == at && u[p] == File(data)) || p == TempPath(at, suffix))
  {
    hide MkdirAll, Landing;
    MkdirAllAddsDirs(t, Up(h), limit);
    TempIsNotTarget(Target(t, h, limit), suffix);
  }

  /** After an error every node is what it was, the target among them; what is new is a directory or the
      temporary file. */
  lemma ErrorTouchesNothing(t: Tree, u: Tree, h: Path, suffix: string, data: seq<int>, limit: nat)
    requires IsTree(t) && h != [] && Unwritten(t, u, h, suffix, data, limit)
    ensures StepState(t, u, h, suffix, data, limit)
    ensures forall p :: p in t ==> p in u && u[p] == t[p]
    ensures forall p :: p in u && p !in t ==> u[p].Dir? || p == TempPath(Target(t, h, limit), suffix)
  {
    hide MkdirAll, Landing;
    MkdirAllAddsDirs(t, Up(h), limit);
  }

  /** A completed write replaces a link if and only if the link is where the path leads, its last
      component not followed. */
  lemma LinkIsReplacedIff(t: Tree, u: Tree, h: Path, data: seq<int>, limit: nat, p: Path)
    requires IsTree(t) && h != [] && WrittenAt(t, u, h, data, limit) && p in t && t[p].Link?
    ensures p in u && (u[p] != t[p] <==> p == Target(t, h, limit)) && (u[p] != t[p] ==> u[p] == File(data))
  {
    hide MkdirAll, Landing;
    MkdirAllAddsDirs(t, Up(h), limit);
  }

  /** A path without links on the way, and none at its end, leads to itself. */
  lemma PlainPathIsTarget(t: Tree, h: Path, limit: nat)
    requires IsTree(t) && h != []
    requires var d := MkdirAll(t, Up(h), limit); Up(h) in d.t && d.t[Up(h)].Dir?
    ensures Target(t, h, limit) == h
  {
    NodesResolve(MkdirAll(t, Up(h), limit).t, Up(h), limit, true);
    assert h == Up(h) + [h[|h| - 1]];
  }

  /** In a plain directory, a link named by the path is replaced, whatever it points to. */
  lemma LinkInPlaceIsReplaced(t: Tree, u: Tree, h: Path, data: seq<int>, limit: nat)
    requires IsTree(t) && h in t && t[h].Link? && h != [] && WrittenAt(t, u, h, data, limit)
    ensures u == t[h := File(data)]
  {
    assert Up(h) in t && t[Up(h)].Dir?;
    NodesResolve(t, Up(h), limit, true);
    PlainPathIsTarget(t, h, limit);
  }

  lemma StepKeepsTree(t: Tree, u: Tree, h: Path, suffix: string, data: seq<int>, limit: nat)
    requires IsTree(t) && h != [] && Names(h) && StepState(t, u, h, suffix, data, limit)
    ensures IsTree(u)
  {
    var made := MkdirAll(t, Up(h), limit);
    if u != t && u != made.t {
      var at := Landing(made.t, h, limit);
      MadeIsReady(t, h, suffix, limit);
      hide MkdirAll, Landing, Walk;
      assert IsName(at[|at| - 1]);
      if u == made.t[at := File(data)] && (at in made.t ==> !made.t[at].Dir?) {
        PutKeepsTree(made.t, at, File(data));
      } else {
        var k :| 0 <= k <= |data| && u == made.t[TempPath(at, suffix) := File(data[..k])];
        TempInDirectory(made.t, at, suffix, File(data[..k]));
      }
    }
  }
}
