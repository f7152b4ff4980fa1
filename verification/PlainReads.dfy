/** Reading after writing without a jail: a write always reads back; an atomic write does unless the link
    it replaces is one that the path itself goes through. */
module PlainReads {
  import opened Paths
  import opened Os
  import opened Syscalls
  import opened AtomicWrite
  import opened AtomicEffects

  /** ReadFile without a jail: the path resolved, and a plain read. */
  function PlainRead(t: Tree, h: Path, limit: nat): Result<seq<int>>
    requires IsTree(t)
  {
    match EvalSymlinks(t, h, limit)
    case Bad(e) => Bad(e)
    case Good(p) => Syscalls.ReadFile(t, p, limit)
  }

  lemma PlainReadFinds(t: Tree, h: Path, q: Path, left: nat, limit: nat)
    requires IsTree(t) && Walk(t, [], h, limit, true) == At(q, left) && q in t && t[q].File?
    ensures PlainRead(t, h, limit) == Good(t[q].data)
  {
    NodesResolve(t, q, limit, true);
  }

  // ----- after WriteFile

  /** A walk that ended at a free place ends at the file that is put there. */
  lemma {:induction false} WalkFindsNew(t: Tree, q: Path, data: seq<int>, cur: Path, rest: seq<string>, n: nat)
    requires var r := Walk(t, cur, rest, n, true); r.Missing? && r.path == q && q !in t
    ensures Walk(t[q := File(data)], cur, rest, n, true) == At(q, Walk(t, cur, rest, n, true).left)
    decreases n, |rest|
  {
    if rest[0] == "." {
      WalkFindsNew(t, q, data, cur, rest[1..], n);
    } else if rest[0] == ".." {
      WalkFindsNew(t, q, data, Up(cur), rest[1..], n);
    } else {
      var p := cur + [rest[0]];
      if p in t && !t[p].Link? {
        WalkFindsNew(t, q, data, p, rest[1..], n);
      } else if p in t {
        WalkFindsNew(t, q, data, if t[p].target.abs then [] else cur, t[p].target.comps + rest[1..], n - 1);
      }
    }
  }

  /** Without a jail a successful WriteFile reads back, through whatever links. */
  lemma ReadAfterPlainWrite(t: Tree, h: Path, data: seq<int>, limit: nat)
    requires IsTree(t) && WriteFile(t, h, data, limit).Ok?
    ensures var u := WriteFile(t, h, data, limit).t; IsTree(u) && PlainRead(u, h, limit) == Good(data)
  {
    WriteKeepsTree(t, h, data, limit);
    WalkEnds(t, [], h, limit, true);
    var (u, r) := (WriteFile(t, h, data, limit).t, Walk(t, [], h, limit, true));
    if r.Missing? {
      WalkFindsNew(t, r.path, data, [], h, limit);
    } else {
      WalkInLargerTree(t, u, [], h, limit, true);
    }
    PlainReadFinds(u, h, r.path, r.left, limit);
  }

  // ----- after AtomicWriteFile

  /** The way to the target's directory meets the very link that the write replaces. */
  predicate CutsItsOwnPath(t: Tree, h: Path, limit: nat)
    requires IsTree(t) && h != []
  {
    Passes(MkdirAll(t, Up(h), limit).t, Target(t, h, limit), [], Up(h), limit)
  }

  /** Without a jail a successful AtomicWriteFile reads back if and only if it has not replaced a link on its
      own path; otherwise the read fails. */
  lemma ReadAfterPlainAtomicWriteIff(t: Tree, u: Tree, h: Path, data: seq<int>, limit: nat)
    requires IsTree(t) && h != [] && Names(h) && WrittenAt(t, u, h, data, limit)
    ensures IsTree(u) && PlainRead(u, h, limit).Good? == (PlainRead(u, h, limit) == Good(data))
    ensures PlainRead(u, h, limit) == Good(data) <==> !CutsItsOwnPath(t, h, limit)
  {
    var (made, at, last) := (MkdirAll(t, Up(h), limit).t, Target(t, h, limit), h[|h| - 1]);
    MadeDirResolves(t, Up(h), limit);
    var r := Walk(made, [], Up(h), limit, true);
    assert h == Up(h) + [last] && at == r.path + [last] && IsName(last);
    UpOfChild(r.path, last);
    hide MkdirAll, Passes, Target;
    PutKeepsTree(made, at, File(data));
    WalkPastFile(made, at, data, [], Up(h), limit);
    WalkSplits(u, [], Up(h), [last], limit, true);
    var s := Walk(u, [], Up(h), limit, true);
    if s == r {
      LastStep(u, r.path, last, r.left, true);
      PlainReadFinds(u, h, at, r.left, limit);
    }
  }

  /** A tree with one link, l, to the root. */
  function RootLink(l: string): Tree {
    map[[] := Dir, [l] := Link(Raw(true, []))]
  }

  lemma RootLinkResolves(l: string, limit: nat)
    requires IsName(l) && limit > 0
    ensures var t := RootLink(l);
            && IsTree(t) && MkdirAll(t, [l], limit) == Ok(t) && Landing(t, [l, l], limit) == [l]
            && Passes(t, [l], [], [l], limit)
  {
    var t := RootLink(l);
    assert Up([l]) == [] && Up([l, l]) == [l] && [] + [l] == [l] && [l][1..] == [];
    assert Walk(t, [], [l], limit, true) == At([], limit - 1);
  }

  /** l/l is written in place of l, and then there is no way to it. */
  lemma WrittenButCutOff(l: string, data: seq<int>, limit: nat)
    requires IsName(l) && limit > 0
    ensures var t := RootLink(l);
            var u := t[[l] := File(data)];
            IsTree(t) && WrittenAt(t, u, [l, l], data, limit) && IsTree(u) && PlainRead(u, [l, l], limit).Bad?
  {
    RootLinkResolves(l, limit);
    assert Up([l, l]) == [l];
    hide Walk, MkdirAll, Landing, Passes, PlainRead, IsTree;
    ReadAfterPlainAtomicWriteIff(RootLink(l), RootLink(l)[[l] := File(data)], [l, l], data, limit);
  }
}
