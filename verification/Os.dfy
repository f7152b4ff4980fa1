/** A filesystem tree with symbolic links, pathname resolution after section 4.13 (Pathname
    Resolution) of the Base Definitions volume of IEEE Std 1003.1-2017, and the system calls the
    jailed filesystem makes. */
module Os {
  import opened Paths

  datatype Node = Dir | File(data: seq<int>) | Link(target: Raw)

  /** A tree maps the physical path of every node to the node. */
  type Tree = map<Path, Node>

  predicate IsTree(t: Tree) {
    && [] in t && t[[]].Dir?
    && forall p {:trigger Up(p)} :: p in t && p != [] ==> Up(p) in t && t[Up(p)].Dir? && IsName(p[|p| - 1])
  }

  datatype Errno = ENOENT | ENOTDIR | ELOOP | EEXIST | EISDIR | ENOTEMPTY | EINVAL | EBUSY | EIO | Escape

  /** Resolution ends at a node, at the free place of a missing last component, or fails. `left` is
      what remains of the limit on links. */
  datatype Found = At(path: Path, left: nat) | Missing(path: Path, left: nat) | Fail(e: Errno)

  /** Resolves `rest` from directory `cur`, following at most n links. The last component, if it is
      a link, is followed only on request. */
  function Walk(t: Tree, cur: Path, rest: seq<string>, n: nat, follow: bool): Found
    decreases n, |rest|
  {
    if rest == [] then At(cur, n)
    else if cur !in t || !t[cur].Dir? then Fail(ENOTDIR)
    else if rest[0] == "." then Walk(t, cur, rest[1..], n, follow)
    else if rest[0] == ".." then Walk(t, Up(cur), rest[1..], n, follow)
    else
      var p := cur + [rest[0]];
      if p !in t then if |rest| == 1 then Missing(p, n) else Fail(ENOENT)
      else if !t[p].Link? then Walk(t, p, rest[1..], n, follow)
      else if |rest| == 1 && !follow then At(p, n)
      else if n == 0 then Fail(ELOOP)
      else Walk(t, if t[p].target.abs then [] else cur, t[p].target.comps + rest[1..], n - 1, follow)
  }

  // ----- facts about resolution

  lemma UpOfChild(p: Path, c: string)
    ensures Up(p + [c]) == p && (p + [c])[|p|] == c
  {
  }

  /** Every node of a tree has a clean path, and every prefix of it is a directory. */
  lemma {:induction false} PrefixesAreDirs(t: Tree, p: Path, n: nat)
    requires IsTree(t) && p in t && n <= |p|
    ensures Names(p) && p[..n] in t && (n < |p| ==> t[p[..n]].Dir?)
    decreases |p|
  {
    if p != [] {
      PrefixesAreDirs(t, Up(p), if n < |p| then n else |p| - 1);
      assert p == Up(p) + [p[|p| - 1]];
      if n < |p| { assert p[..n] == Up(p)[..n]; } else { assert p[..n] == p; }
    }
  }

  ghost predicate EndsWell(t: Tree, r: Found, n: nat, follow: bool) {
    match r
    case At(q, left) => q in t && left <= n && (follow ==> !t[q].Link?)
    case Missing(q, left) => q !in t && q != [] && Up(q) in t && t[Up(q)].Dir? && IsName(q[|q| - 1]) && left <= n
    case Fail(_) => true
  }

  /** Resolution from a node of the tree ends at a node or at a free place in a directory; when it
      follows, it does not end at a link. */
  lemma {:induction false} WalkEnds(t: Tree, cur: Path, rest: seq<string>, n: nat, follow: bool)
    requires IsTree(t) && cur in t && (follow ==> !t[cur].Link?)
    ensures EndsWell(t, Walk(t, cur, rest, n, follow), n, follow)
    decreases n, |rest|
  {
    if rest != [] && t[cur].Dir? {
      if rest[0] == "." {
        WalkEnds(t, cur, rest[1..], n, follow);
      } else if rest[0] == ".." {
        assert Up(cur) in t && t[Up(cur)].Dir?;
        WalkEnds(t, Up(cur), rest[1..], n, follow);
      } else {
        var p := cur + [rest[0]];
        UpOfChild(cur, rest[0]);
        assert p != [] && Up(p) == cur;
        if p in t && !t[p].Link? {
          WalkEnds(t, p, rest[1..], n, follow);
        } else if p in t && !(|rest| == 1 && !follow) && n > 0 {
          WalkEnds(t, if t[p].target.abs then [] else cur, t[p].target.comps + rest[1..], n - 1, follow);
        }
      }
    }
  }

  /** What resolving a and then b comes to. */
  function Then(t: Tree, first: Found, b: seq<string>, follow: bool): Found {
    match first
    case At(q, left) => Walk(t, q, b, left, follow)
    case Missing(_, _) => Fail(ENOENT)
    case Fail(e) => Fail(e)
  }

  /** A longer path is resolved by following its front and then resolving the rest from there. */
  lemma {:induction false} WalkSplits(t: Tree, cur: Path, a: seq<string>, b: seq<string>, n: nat, follow: bool)
    requires b != []
    ensures Walk(t, cur, a + b, n, follow) == Then(t, Walk(t, cur, a, n, true), b, follow)
    decreases n, |a|
  {
    if a == [] {
      assert a + b == b;
    } else if cur in t && t[cur].Dir? {
      assert (a + b)[0] == a[0] && (a + b)[1..] == a[1..] + b;
      if a[0] == "." {
        WalkSplits(t, cur, a[1..], b, n, follow);
      } else if a[0] == ".." {
        WalkSplits(t, Up(cur), a[1..], b, n, follow);
      } else {
        var p := cur + [a[0]];
        if p in t && !t[p].Link? {
          WalkSplits(t, p, a[1..], b, n, follow);
        } else if p in t && n > 0 {
          var from := if t[p].target.abs then [] else cur;
          assert t[p].target.comps + (a[1..] + b) == (t[p].target.comps + a[1..]) + b;
          WalkSplits(t, from, t[p].target.comps + a[1..], b, n - 1, follow);
        }
      }
    }
  }

  /** From a node of the tree straight down to another one: no link is met. */
  lemma {:induction false} WalkDown(t: Tree, cur: Path, rest: seq<string>, n: nat, follow: bool)
    requires IsTree(t) && cur + rest in t && (follow ==> !t[cur + rest].Link?)
    ensures cur in t && Walk(t, cur, rest, n, follow) == At(cur + rest, n)
    decreases |rest|
  {
    PrefixesAreDirs(t, cur + rest, |cur|);
    assert (cur + rest)[..|cur|] == cur;
    if rest == [] {
      assert cur + rest == cur;
    } else {
      var p := cur + [rest[0]];
      PrefixesAreDirs(t, cur + rest, |p|);
      assert (cur + rest)[..|p|] == p && p + rest[1..] == cur + rest;
      assert rest[0] in cur + rest;
      if |rest| > 1 { WalkDown(t, p, rest[1..], n, follow); } else { assert cur + rest == p; }
    }
  }

  /** The physical path of a node resolves to the node. */
  lemma NodesResolve(t: Tree, p: Path, n: nat, follow: bool)
    requires IsTree(t) && p in t && (follow ==> !t[p].Link?)
    ensures Walk(t, [], p, n, follow) == At(p, n)
  {
    assert [] + p == p;
    WalkDown(t, [], p, n, follow);
  }

  /** Following changes the outcome only where the last component is a link. */
  lemma {:induction false} FollowOnlyMattersAtLinks(t: Tree, cur: Path, rest: seq<string>, n: nat)
    requires IsTree(t) && cur in t
    ensures var r := Walk(t, cur, rest, n, false);
            (!r.At? || (r.path in t && !t[r.path].Link?)) ==> Walk(t, cur, rest, n, true) == r
    decreases n, |rest|
  {
    if rest != [] && t[cur].Dir? {
      if rest[0] == "." {
        FollowOnlyMattersAtLinks(t, cur, rest[1..], n);
      } else if rest[0] == ".." {
        FollowOnlyMattersAtLinks(t, Up(cur), rest[1..], n);
      } else {
        var p := cur + [rest[0]];
        if p in t && !t[p].Link? {
          FollowOnlyMattersAtLinks(t, p, rest[1..], n);
        } else if p in t && |rest| > 1 && n > 0 {
          FollowOnlyMattersAtLinks(t, if t[p].target.abs then [] else cur, t[p].target.comps + rest[1..], n - 1);
        }
      }
    }
  }

  /** u has every node of t; files may differ in their data. */
  ghost predicate Extends(t: Tree, u: Tree) {
    forall p :: p in t ==> p in u && (u[p] == t[p] || (u[p].File? && t[p].File?))
  }

  /** A resolution that succeeds, or runs out of links, does the same in an extended tree. */
  lemma {:induction false} WalkInLargerTree(t: Tree, u: Tree, cur: Path, rest: seq<string>, n: nat, follow: bool)
    requires Extends(t, u)
    requires Walk(t, cur, rest, n, follow).At? || Walk(t, cur, rest, n, follow) == Fail(ELOOP)
    ensures Walk(u, cur, rest, n, follow) == Walk(t, cur, rest, n, follow)
    decreases n, |rest|
  {
    if rest != [] {
      if rest[0] == "." {
        WalkInLargerTree(t, u, cur, rest[1..], n, follow);
      } else if rest[0] == ".." {
        WalkInLargerTree(t, u, Up(cur), rest[1..], n, follow);
      } else {
        var p := cur + [rest[0]];
        if !t[p].Link? {
          WalkInLargerTree(t, u, p, rest[1..], n, follow);
        } else if !(|rest| == 1 && !follow) && n > 0 {
          WalkInLargerTree(t, u, if t[p].target.abs then [] else cur, t[p].target.comps + rest[1..], n - 1, follow);
        }
      }
    }
  }

  function Spend(r: Found, k: nat): Found {
    match r
    case At(q, left) => if left >= k then At(q, left - k) else Fail(ELOOP)
    case Missing(q, left) => if left >= k then Missing(q, left - k) else Fail(ELOOP)
    case Fail(e) => Fail(e)
  }

  /** A lower limit on links gives the same outcome, or ELOOP. */
  lemma {:induction false} WalkWithLowerLimit(t: Tree, cur: Path, rest: seq<string>, n: nat, k: nat, follow: bool)
    requires k <= n
    ensures var r := Walk(t, cur, rest, n - k, follow);
            r == Fail(ELOOP) || r == Spend(Walk(t, cur, rest, n, follow), k)
    decreases n, |rest|
  {
    if rest != [] && cur in t && t[cur].Dir? {
      if rest[0] == "." {
        WalkWithLowerLimit(t, cur, rest[1..], n, k, follow);
      } else if rest[0] == ".." {
        WalkWithLowerLimit(t, Up(cur), rest[1..], n, k, follow);
      } else {
        var p := cur + [rest[0]];
        if p in t && !t[p].Link? {
          WalkWithLowerLimit(t, p, rest[1..], n, k, follow);
        } else if p in t && !(|rest| == 1 && !follow) && n - k > 0 {
          WalkWithLowerLimit(t, if t[p].target.abs then [] else cur, t[p].target.comps + rest[1..], n - 1, k, follow);
        }
      }
    }
  }

  /** Looking up one name in a directory. */
  lemma LastStep(t: Tree, d: Path, name: string, n: nat, follow: bool)
    requires d in t && t[d].Dir? && IsName(name)
    ensures var p := d + [name];
            && (p !in t ==> Walk(t, d, [name], n, follow) == Missing(p, n))
            && (p in t && (!t[p].Link? || !follow) ==> Walk(t, d, [name], n, follow) == At(p, n))
  {
    assert [name][1..] == [];
  }
}
