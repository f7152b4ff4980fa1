/** The path resolvers of the jailed filesystem, as functions of the tree, and where the paths they
    return lead. */
module Resolvers {
  import opened Paths
  import opened Os
  import opened Syscalls

  /** A path argument: empty, blank or ".", or anything else. */
  datatype Arg = Blank | Given(raw: Raw)

  /** The cleaned virtual path of an argument. */
  function Virtual(wd: Path, a: Arg): Path {
    match a
    case Blank => wd
    case Given(raw) => Clean([], if raw.abs then raw.comps else wd + raw.comps)
  }

  /** The jail with its links resolved, or as it stands if it does not resolve. */
  function CanonicalJail(t: Tree, j: Path, limit: nat): Path {
    match EvalSymlinks(t, j, limit)
    case Good(r) => r
    case Bad(_) => j
  }

  /** The lexical check: the jail and the virtual path are clean, so joining them only concatenates. */
  function Lexical(j: Path, v: Path): Result<Path> {
    if IsInJail(j, j + v) then Good(v) else Bad(Escape)
  }

  /** resolveVirtual with symlinks followed, in a jail. */
  function Follow(t: Tree, j: Path, v: Path, limit: nat): Result<Path> {
    if Lexical(j, v).Bad? then Bad(Escape)
    else
      match EvalSymlinks(t, j + v, limit)
      case Bad(e) => Bad(e)
      case Good(r) =>
        var cj := CanonicalJail(t, j, limit);
        if IsInJail(cj, r) then Good(RemoveJailPrefix(cj, r)) else Bad(Escape)
  }

  /** The walk up from `cur` to the longest ancestor that exists, with the components passed on the way. */
  function Ancestor(t: Tree, cur: Path, missing: seq<string>, limit: nat): Result<(Path, seq<string>)>
    requires IsTree(t)
    decreases |cur|
  {
    match Lstat(t, cur, limit)
    case Good(_) => Good((cur, missing))
    case Bad(e) =>
      if e != ENOENT then Bad(e)
      else if cur == [] then Good((cur, missing))
      else Ancestor(t, Up(cur), [cur[|cur| - 1]] + missing, limit)
  }

  /** resolveHostForCreate of a virtual path, in a jail. */
  function ForCreate(t: Tree, j: Path, v: Path, limit: nat): Result<Path>
    requires IsTree(t)
  {
    if Lexical(j, v).Bad? then Bad(Escape)
    else if v == [] then Good(j)
    else
      match Ancestor(t, Up(j + v), [v[|v| - 1]], limit)
      case Bad(e) => Bad(e)
      case Good((cur, missing)) =>
        var canonical := match EvalSymlinks(t, cur, limit) case Good(r) => r case Bad(_) => cur;
        if IsInJail(CanonicalJail(t, j, limit), canonical) then Good(canonical + missing) else Bad(Escape)
  }

  /** resolveHostForOpen of a virtual path, in a jail. */
  function ForOpen(t: Tree, j: Path, v: Path, limit: nat): Result<Path>
    requires IsTree(t)
  {
    match ForCreate(t, j, v, limit)
    case Bad(e) => Bad(e)
    case Good(host) =>
      match Lstat(t, host, limit)
      case Bad(_) => Good(host)
      case Good(node) =>
        if !node.Link? then Good(host)
        else
          match EvalSymlinks(t, host, limit)
          case Bad(e) => Bad(e)
          case Good(r) => if IsInJail(CanonicalJail(t, j, limit), r) then Good(r) else Bad(Escape)
  }

  // ----- the walk up

  /** The walk up keeps the path; it stops at an existing ancestor, and whatever it passed is not
      there. */
  lemma {:induction false} AncestorIsLongest(t: Tree, cur: Path, missing: seq<string>, limit: nat)
    requires IsTree(t) && missing != []
    ensures var r := Ancestor(t, cur, missing, limit);
            r.Good? ==>
              && r.value.0 + r.value.1 == cur + missing && r.value.1 != []
              && Lstat(t, r.value.0, limit).Good?
              && (r.value.1 == missing || Lstat(t, r.value.0 + [r.value.1[0]], limit) == Bad(ENOENT))
    decreases |cur|
  {
    match Lstat(t, cur, limit) {
      case Good(_) =>
      case Bad(e) =>
        if e == ENOENT && cur != [] {
          var up := [cur[|cur| - 1]] + missing;
          AncestorIsLongest(t, Up(cur), up, limit);
          assert Up(cur) + up == cur + missing;
          assert Up(cur) + [up[0]] == cur;
          var r := Ancestor(t, Up(cur), up, limit);
          if r.Good? && r.value.1 == up { assert r.value.0 == (cur + missing)[..|cur| - 1] == Up(cur); }
        }
    }
  }

  /** What is known of an ancestor and the rest. */
  ghost predicate Located(t: Tree, cur: Path, missing: seq<string>, limit: nat)
    requires IsTree(t)
  {
    && missing != [] && Lstat(t, cur, limit).Good?
    && (|missing| > 1 ==> Lstat(t, cur + [missing[0]], limit) == Bad(ENOENT))
  }

  lemma LastNotThere(t: Tree, c: Path, name: string, n: nat)
    requires IsTree(t) && c in t && IsName(name)
    requires var r := Walk(t, c, [name], n, false); r == Fail(ENOENT) || r.Missing?
    ensures c + [name] !in t
  {
    assert [name][1..] == [];
  }

  /** Under a resolved ancestor only the last component can exist. */
  lemma BelowCanonical(t: Tree, cur: Path, missing: seq<string>, limit: nat)
    requires IsTree(t) && Names(missing) && Located(t, cur, missing, limit)
    requires Walk(t, [], cur, limit, true).At?
    ensures var c := Walk(t, [], cur, limit, true).path;
            && c in t && !t[c].Link?
            && (|missing| > 1 ==> c + [missing[0]] !in t)
            && (forall n: nat :: Walk(t, [], c + missing, n, false) == Walk(t, c, missing, n, false))
  {
    var r := Walk(t, [], cur, limit, true);
    WalkEnds(t, [], cur, limit, true);
    var c := r.path;
    if |missing| > 1 {
      WalkSplits(t, [], cur, [missing[0]], limit, false);
      LastNotThere(t, c, missing[0], r.left);
    }
    forall n: nat ensures Walk(t, [], c + missing, n, false) == Walk(t, c, missing, n, false) {
      WalkSplits(t, [], c, missing, n, false);
      NodesResolve(t, c, n, true);
    }
  }

  /** If the ancestor does not resolve, neither does anything under it. */
  lemma BelowDangling(t: Tree, cur: Path, missing: seq<string>, limit: nat, follow: bool)
    requires missing != [] && !Walk(t, [], cur, limit, true).At?
    ensures Walk(t, [], cur + missing, limit, follow).Fail?
  {
    WalkSplits(t, [], cur, missing, limit, follow);
  }

  lemma OneStepDown(t: Tree, c: Path, missing: seq<string>, n: nat)
    requires IsTree(t) && c in t && missing != [] && Names(missing) && (|missing| > 1 ==> c + [missing[0]] !in t)
    ensures var r := Walk(t, c, missing, n, false);
            && (r.At? ==> |missing| == 1 && r == At(c + missing, n) && t[c].Dir?)
            && (r.Missing? ==> |missing| == 1 && r == Missing(c + missing, n) && t[c].Dir?)
  {
    assert IsName(missing[0]);
    if |missing| == 1 { assert c + missing == c + [missing[0]]; }
  }

  // ----- where the resolved paths lead

  /** r, if resolution succeeds, is strictly below the jail. */
  ghost predicate Below(j: Path, r: Found) {
    match r
    case At(q, _) => j < q
    case Missing(q, _) => j < q
    case Fail(_) => true
  }

  /** r, if resolution succeeds, is the jail or below it. */
  ghost predicate Within(j: Path, r: Found) {
    match r
    case At(q, _) => j <= q
    case Missing(q, _) => j < q
    case Fail(_) => true
  }

  /** The parts ForCreate's answer is made of. */
  lemma CreateParts(t: Tree, j: Path, v: Path, limit: nat) returns (cur: Path, missing: seq<string>)
    requires IsTree(t) && Names(j) && Names(v) && v != [] && ForCreate(t, j, v, limit).Good?
    ensures Located(t, cur, missing, limit) && Names(missing) && cur + missing == j + v
    ensures var r := Walk(t, [], cur, limit, true);
            var canonical := if r.At? then r.path else cur;
            && CanonicalJail(t, j, limit) <= canonical && IsInJail(CanonicalJail(t, j, limit), canonical)
            && ForCreate(t, j, v, limit) == Good(canonical + missing)
  {
    var last := [v[|v| - 1]];
    AncestorIsLongest(t, Up(j + v), last, limit);
    assert Up(j + v) + last == j + v;
    var pair := Ancestor(t, Up(j + v), last, limit).value;
    cur, missing := pair.0, pair.1;
    forall c | c in missing ensures IsName(c) { assert c in cur + missing; }
    var r := Walk(t, [], cur, limit, true);
    var canonical := if r.At? then r.path else cur;
    InJailMeansUnder(CanonicalJail(t, j, limit), canonical);
  }

  /** Containment of the create resolver. For every tree and every virtual path but the root, the
      path it returns, resolved without following its last component, fails or leads strictly below
      the canonical jail. */
  lemma CreateIsContained(t: Tree, j: Path, v: Path, limit: nat)
    requires IsTree(t) && Names(j) && Names(v) && v != [] && ForCreate(t, j, v, limit).Good?
    ensures Below(CanonicalJail(t, j, limit), Walk(t, [], ForCreate(t, j, v, limit).value, limit, false))
  {
    var cur, missing := CreateParts(t, j, v, limit);
    if Walk(t, [], cur, limit, true).At? {
      BelowCanonical(t, cur, missing, limit);
      OneStepDown(t, Walk(t, [], cur, limit, true).path, missing, limit);
    } else {
      BelowDangling(t, cur, missing, limit, false);
    }
  }

  /** Containment of the open resolver: the same with the last component followed. */
  lemma OpenIsContained(t: Tree, j: Path, v: Path, limit: nat)
    requires IsTree(t) && Names(j) && Names(v) && v != [] && ForOpen(t, j, v, limit).Good?
    ensures Within(CanonicalJail(t, j, limit), Walk(t, [], ForOpen(t, j, v, limit).value, limit, true))
  {
    CreateIsContained(t, j, v, limit);
    var host := ForCreate(t, j, v, limit).value;
    var h := ForOpen(t, j, v, limit).value;
    var r := Walk(t, [], host, limit, false);
    WalkEnds(t, [], host, limit, false);
    if r.At? && t[r.path].Link? {
      WalkEnds(t, [], host, limit, true);
      InJailMeansUnder(CanonicalJail(t, j, limit), h);
      NodesResolve(t, h, limit, true);
    } else {
      FollowOnlyMattersAtLinks(t, [], host, limit);
    }
  }
}
