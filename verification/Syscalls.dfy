/** The system calls and os-package helpers the jailed filesystem uses, as functions on trees. Each
    keeps the tree a tree and changes it only where the path resolves to. */
module Syscalls {
  import opened Paths
  import opened Os

  /** The tree after a call, and why it failed if it did. */
  datatype Done = Ok(t: Tree) | Err(t: Tree, e: Errno)

  datatype Result<T> = Good(value: T) | Bad(e: Errno)

  /** The error of looking up a node. */
  function LookupError(r: Found): Errno
    requires !r.At?
  {
    match r
    case Missing(_, _) => ENOENT
    case Fail(e) => e
  }

  function Lstat(t: Tree, p: Path, limit: nat): Result<Node>
    requires IsTree(t)
  {
    var r := Walk(t, [], p, limit, false);
    WalkEnds(t, [], p, limit, false);
    if r.At? then Good(t[r.path]) else Bad(LookupError(r))
  }

  function Stat(t: Tree, p: Path, limit: nat): Result<Node>
    requires IsTree(t)
  {
    var r := Walk(t, [], p, limit, true);
    WalkEnds(t, [], p, limit, true);
    if r.At? then Good(t[r.path]) else Bad(LookupError(r))
  }

  /** filepath.EvalSymlinks: the physical path, or failure exactly when following fails. */
  function EvalSymlinks(t: Tree, p: Path, limit: nat): Result<Path> {
    var r := Walk(t, [], p, limit, true);
    if r.At? then Good(r.path) else Bad(LookupError(r))
  }

  function ReadFile(t: Tree, p: Path, limit: nat): Result<seq<int>>
    requires IsTree(t)
  {
    match Stat(t, p, limit)
    case Bad(e) => Bad(e)
    case Good(node) => if node.File? then Good(node.data) else Bad(EISDIR)
  }

  /** open(O_WRONLY|O_CREAT|O_TRUNC) and write: follows a final link, and creates what it leads to. */
  function WriteFile(t: Tree, p: Path, data: seq<int>, limit: nat): Done
    requires IsTree(t)
  {
    WalkEnds(t, [], p, limit, true);
    match Walk(t, [], p, limit, true)
    case At(q, _) => if t[q].Dir? then Err(t, EISDIR) else Ok(t[q := File(data)])
    case Missing(q, _) => Ok(t[q := File(data)])
    case Fail(e) => Err(t, e)
  }

  /** Creates a node where nothing is yet; a final link counts as something. */
  function Create(t: Tree, p: Path, node: Node, limit: nat): Done {
    match Walk(t, [], p, limit, false)
    case At(_, _) => Err(t, EEXIST)
    case Missing(q, _) => Ok(t[q := node])
    case Fail(e) => Err(t, e)
  }

  function Mkdir(t: Tree, p: Path, limit: nat): Done {
    Create(t, p, Dir, limit)
  }

  /** os.MkdirAll: done if the path is a directory; else makes the parent first. */
  function MkdirAll(t: Tree, p: Path, limit: nat): (d: Done)
    requires IsTree(t)
    ensures IsTree(d.t)
    decreases |p|
  {
    match Stat(t, p, limit)
    case Good(node) => if node.Dir? then Ok(t) else Err(t, ENOTDIR)
    case Bad(e) =>
      if p == [] then Err(t, e)
      else
        var above := MkdirAll(t, Up(p), limit);
        if above.Err? then above
        else
          var made := Mkdir(above.t, p, limit);
          CreateKeepsTree(above.t, p, Dir, limit);
          if made.Ok? || Lstat(above.t, p, limit) == Good(Dir) then Ok(made.t) else made
  }

  predicate HasChild(t: Tree, q: Path) {
    exists p :: p in t && q < p
  }

  function Without(t: Tree, q: Path): Tree {
    map p | p in t && !(q <= p) :: t[p]
  }

  /** os.Remove: unlink, or rmdir of an empty directory. */
  function Remove(t: Tree, p: Path, limit: nat): Done {
    match Walk(t, [], p, limit, false)
    case At(q, _) => if q == [] then Err(t, EBUSY) else if HasChild(t, q) then Err(t, ENOTEMPTY) else Ok(Without(t, q))
    case Missing(_, _) => Err(t, ENOENT)
    case Fail(e) => Err(t, e)
  }

  /** os.RemoveAll: what is not there is already removed. */
  function RemoveAll(t: Tree, p: Path, limit: nat): Done {
    match Walk(t, [], p, limit, false)
    case At(q, _) => if q == [] then Err(t, EBUSY) else Ok(Without(t, q))
    case Missing(_, _) => Ok(t)
    case Fail(e) => if e == ENOENT then Ok(t) else Err(t, e)
  }

  /** Where the node at o goes when `from` moves to `to`. */
  function NewPlace(o: Path, from: Path, to: Path): Path
    requires from <= o
  {
    to + o[|from|..]
  }

  lemma NewPlacesDiffer(from: Path, to: Path)
    ensures forall o, p :: from <= o && from <= p && NewPlace(o, from, to) == NewPlace(p, from, to) ==> o == p
  {
    forall o, p | from <= o && from <= p && NewPlace(o, from, to) == NewPlace(p, from, to) ensures o == p {
      assert NewPlace(o, from, to)[|to|..] == o[|from|..] && NewPlace(p, from, to)[|to|..] == p[|from|..];
      assert o == from + o[|from|..] && p == from + p[|from|..];
    }
  }

  /** The tree with the node at `from`, and all below it, moved to `to`. */
  function Moved(t: Tree, from: Path, to: Path): Tree {
    NewPlacesDiffer(from, to);
    (map p | p in t && !(from <= p) && p != to :: t[p])
    + (map p | p in t && from <= p :: NewPlace(p, from, to) := t[p])
  }

  /** os.Rename: neither final component is followed; an existing directory is never replaced. */
  function Rename(t: Tree, src: Path, dst: Path, limit: nat): Done {
    match Walk(t, [], src, limit, false)
    case Missing(_, _) => Err(t, ENOENT)
    case Fail(e) => Err(t, e)
    case At(from, _) =>
      match Walk(t, [], dst, limit, false)
      case Fail(e) => Err(t, e)
      case At(to, _) =>
        if from == [] then Err(t, EBUSY)
        else if to !in t || t[to].Dir? then Err(t, EEXIST)
        else if from == to then Ok(t)
        else if from in t && t[from].Dir? then Err(t, ENOTDIR)
        else Ok(Moved(t, from, to))
      case Missing(to, _) =>
        if from <= to then Err(t, EINVAL) else Ok(Moved(t, from, to))
  }

  // ----- trees stay trees

  lemma PutKeepsTree(t: Tree, q: Path, node: Node)
    requires IsTree(t) && q != [] && Up(q) in t && t[Up(q)].Dir? && IsName(q[|q| - 1])
    requires q in t ==> !t[q].Dir?
    ensures IsTree(t[q := node])
  {
    forall p {:trigger Up(p)} | p in t[q := node] && p != [] ensures Up(p) != q || node.Dir? || p == q {
      if p != q { assert Up(p) in t && t[Up(p)].Dir?; }
    }
  }

  lemma WriteKeepsTree(t: Tree, p: Path, data: seq<int>, limit: nat)
    requires IsTree(t)
    ensures IsTree(WriteFile(t, p, data, limit).t)
  {
    var r := Walk(t, [], p, limit, true);
    WalkEnds(t, [], p, limit, true);
    if r.At? && !t[r.path].Dir? {
      assert Up(r.path) in t && t[Up(r.path)].Dir?;
      PutKeepsTree(t, r.path, File(data));
    } else if r.Missing? {
      PutKeepsTree(t, r.path, File(data));
    }
  }

  lemma CreateKeepsTree(t: Tree, p: Path, node: Node, limit: nat)
    requires IsTree(t)
    ensures IsTree(Create(t, p, node, limit).t)
  {
    var r := Walk(t, [], p, limit, false);
    WalkEnds(t, [], p, limit, false);
    if r.Missing? { PutKeepsTree(t, r.path, node); }
  }

  lemma WithoutKeepsTree(t: Tree, q: Path)
    requires IsTree(t) && q != []
    ensures IsTree(Without(t, q))
  {
    var u := Without(t, q);
    forall p {:trigger Up(p)} | p in u && p != [] ensures Up(p) in u && u[Up(p)].Dir? && IsName(p[|p| - 1]) {
      assert q <= Up(p) ==> q <= p;
    }
  }

  /** A node that is not a directory has nothing below it. */
  lemma LeavesHaveNoChildren(t: Tree, q: Path, p: Path)
    requires IsTree(t) && q in t && !t[q].Dir? && p in t && q <= p
    ensures p == q
  {
    PrefixesAreDirs(t, p, |q|);
    assert p[..|q|] == q;
  }

  lemma MovedKeepsTree(t: Tree, from: Path, to: Path)
    requires IsTree(t) && from in t && from != [] && !(from <= to)
    requires to != [] && Up(to) in t && t[Up(to)].Dir? && IsName(to[|to| - 1])
    requires to in t ==> !t[to].Dir?
    ensures IsTree(Moved(t, from, to))
  {
    var u := Moved(t, from, to);
    KeptNode(t, from, to, []);
    forall p {:trigger Up(p)} | p in u && p != [] ensures Up(p) in u && u[Up(p)].Dir? && IsName(p[|p| - 1]) {
      HasParent(t, from, to, p);
    }
  }

  lemma WhatMoved(t: Tree, from: Path, to: Path, p: Path)
    requires p in Moved(t, from, to)
    ensures (p in t && !(from <= p)) || exists o :: o in t && from <= o && p == NewPlace(o, from, to)
  {
  }

  lemma HasParent(t: Tree, from: Path, to: Path, p: Path)
    requires IsTree(t) && from in t && from != [] && !(from <= to)
    requires to != [] && Up(to) in t && t[Up(to)].Dir? && IsName(to[|to| - 1])
    requires (to in t ==> !t[to].Dir?) && p in Moved(t, from, to) && p != []
    ensures Up(p) in Moved(t, from, to) && Moved(t, from, to)[Up(p)].Dir? && IsName(p[|p| - 1])
  {
    WhatMoved(t, from, to, p);
    hide Moved;
    if o :| o in t && from <= o && p == NewPlace(o, from, to) {
      MovedNode(t, from, to, o);
    } else {
      assert Up(p) in t && t[Up(p)].Dir?;
      assert from <= Up(p) ==> from <= p;
      KeptNode(t, from, to, Up(p));
    }
  }

  /** A node outside the moved subtree stays, unless it is the file that gives way. */
  lemma KeptNode(t: Tree, from: Path, to: Path, p: Path)
    requires IsTree(t) && p in t && !(from <= p) && (to in t ==> !t[to].Dir?) && p != to
    ensures p in Moved(t, from, to) && Moved(t, from, to)[p] == t[p]
  {
    assert to <= p ==> p[..|to|] == to;
    if to <= p { PrefixesAreDirs(t, p, |to|); }
  }

  lemma MovedNode(t: Tree, from: Path, to: Path, o: Path)
    requires IsTree(t) && from in t && from != [] && !(from <= to) && o in t && from <= o
    requires to != [] && Up(to) in t && t[Up(to)].Dir? && IsName(to[|to| - 1])
    requires to in t ==> !t[to].Dir?
    ensures var p := NewPlace(o, from, to);
            p != [] && Up(p) in Moved(t, from, to) && Moved(t, from, to)[Up(p)].Dir? && IsName(p[|p| - 1])
  {
    NewPlacesDiffer(from, to);
    if o == from {
      assert NewPlace(o, from, to) == to;
      assert from <= Up(to) ==> from <= to;
      assert Up(to) != to;
    } else {
      MovedChild(t, from, to, o);
    }
  }

  lemma MovedChild(t: Tree, from: Path, to: Path, o: Path)
    requires IsTree(t) && from in t && from != [] && !(from <= to) && o in t && from < o
    requires to != []
    ensures var p := NewPlace(o, from, to);
            p != [] && Up(p) in Moved(t, from, to) && Moved(t, from, to)[Up(p)].Dir? && IsName(p[|p| - 1])
  {
    hide Moved, NewPlace;
    assert Up(o) in t && t[Up(o)].Dir? && from <= Up(o);
    UpOfNewPlace(o, from, to);
    MovedIsThere(t, from, to, Up(o));
  }

  lemma UpOfNewPlace(o: Path, from: Path, to: Path)
    requires from < o && to != []
    ensures from <= Up(o) && NewPlace(o, from, to) != []
    ensures Up(NewPlace(o, from, to)) == NewPlace(Up(o), from, to)
    ensures NewPlace(o, from, to)[|NewPlace(o, from, to)| - 1] == o[|o| - 1]
  {
  }

  lemma MovedIsThere(t: Tree, from: Path, to: Path, o: Path)
    requires o in t && from <= o
    ensures NewPlace(o, from, to) in Moved(t, from, to) && Moved(t, from, to)[NewPlace(o, from, to)] == t[o]
  {
    NewPlacesDiffer(from, to);
  }
}
