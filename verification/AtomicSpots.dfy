/** Where an atomic write puts the data, told by pathname resolution alone. */
module AtomicSpots {
  import opened Paths
  import opened Os
  import opened Syscalls
  import opened Resolvers
  import opened AtomicWrite
  import opened Calls
  import opened CallEffects

  /** In a jail, where a plain write would put it; without one, at the very place the path names, even if a
      link is there. */
  function AtomicSpot(t: Tree, jail: Option<Path>, v: Path, limit: nat): Option<Path> {
    if jail.Some? then FileSpot(t, jail, v, limit)
    else
      match Spot(t, jail, v, limit)
      case Some(q) => if q in t && t[q].Dir? then None else Some(q)
      case None => None
  }

  lemma WrittenBeside(t: Tree, u: Tree, h: Path, data: seq<int>, limit: nat)
    requires IsTree(t) && h != [] && WrittenAt(t, u, h, data, limit)
    requires var r := Walk(t, [], Up(h), limit, true); r.At? && r.path in t && t[r.path].Dir?
    ensures var q := Walk(t, [], Up(h), limit, true).path + [h[|h| - 1]];
            u == t[q := File(data)] && (q in t ==> !t[q].Dir?)
  {
    assert MkdirAll(t, Up(h), limit) == Ok(t);
  }

  /** A completed atomic write to a path that names a place has put the data there, and nothing else has
      changed. */
  lemma AtomicEffect(t: Tree, u: Tree, jail: Option<Path>, v: Path, h: Path, data: seq<int>, limit: nat)
    requires IsTree(t) && CleanArgs(jail, v) && Spot(t, jail, v, limit).Some?
    requires HostForOpen(t, jail, v, limit) == Good(h) && h != [] && WrittenAt(t, u, h, data, limit)
    ensures AtomicSpot(t, jail, v, limit).Some? && u == t[AtomicSpot(t, jail, v, limit).value := File(data)]
  {
    SpotMeans(t, jail, v, limit);
    match jail
    case None =>
      hide Walk, Spot, WrittenAt;
      WrittenBeside(t, u, v, data, limit);
    case Some(j) =>
      hide Walk, Spot, WrittenAt;
      JailAtomicEffect(t, u, j, v, h, data, limit);
  }

  lemma JailAtomicEffect(t: Tree, u: Tree, j: Path, v: Path, h: Path, data: seq<int>, limit: nat)
    requires IsTree(t) && Names(j) && Names(v) && v != [] && Spot(t, Some(j), v, limit).Some?
    requires ForOpen(t, j, v, limit) == Good(h) && h != [] && WrittenAt(t, u, h, data, limit)
    ensures FileSpot(t, Some(j), v, limit) == Some(h) && u == t[h := File(data)]
  {
    hide ForOpen, ForCreate, CanonicalJail, IsInJail, Walk, Spot, WrittenAt;
    SpotIsPlace(t, Some(j), v, limit);
    var q := Spot(t, Some(j), v, limit).value;
    OpenAnswers(t, j, v, q, limit);
    WalkEnds(t, [], q, limit, true);
    ParentResolves(t, h, limit);
    hide IsTree;
    WrittenBeside(t, u, h, data, limit);
  }

  /** The directory of a place in a directory that is there. */
  lemma ParentResolves(t: Tree, h: Path, limit: nat)
    requires IsTree(t) && h != [] && (h in t || (Up(h) in t && t[Up(h)].Dir?))
    ensures Walk(t, [], Up(h), limit, true) == At(Up(h), limit) && Up(h) in t && t[Up(h)].Dir?
    ensures h == Up(h) + [h[|h| - 1]]
  {
    assert Up(h) in t && t[Up(h)].Dir?;
    NodesResolve(t, Up(h), limit, true);
  }
}
