/** Path algebra on component lists, and the jail tests built on it. An absolute cleaned path is
    the list of its components. */
module Paths {

  type Path = seq<string>

  /** A path as a caller or a symlink writes it: it may hold "." and ".." components. */
  datatype Raw = Raw(abs: bool, comps: seq<string>)

  predicate IsName(c: string) {
    c != "." && c != ".."
  }

  predicate Names(p: Path) {
    forall c :: c in p ==> IsName(c)
  }

  /** The containing directory; the root contains itself. */
  function Up(p: Path): Path {
    if p == [] then [] else p[..|p| - 1]
  }

  /** filepath.Clean of `done` followed by `todo`, for absolute paths: "." vanishes and ".." removes
      the component before it. */
  function Clean(done: Path, todo: seq<string>): (r: Path)
    decreases |todo|
  {
    if todo == [] then done
    else if todo[0] == "." then Clean(done, todo[1..])
    else if todo[0] == ".." then Clean(Up(done), todo[1..])
    else Clean(done + [todo[0]], todo[1..])
  }

  lemma {:induction false} CleanIsClean(done: Path, todo: seq<string>)
    requires Names(done)
    ensures Names(Clean(done, todo))
    decreases |todo|
  {
    if todo == [] {
    } else if todo[0] == "." {
      CleanIsClean(done, todo[1..]);
    } else if todo[0] == ".." {
      CleanIsClean(Up(done), todo[1..]);
    } else {
      CleanIsClean(done + [todo[0]], todo[1..]);
    }
  }

  /** Cleaning a clean path changes nothing. */
  lemma {:induction false} CleanOfNames(done: Path, todo: seq<string>)
    requires Names(todo)
    ensures Clean(done, todo) == done + todo
    decreases |todo|
  {
    if todo == [] {
      assert done + todo == done;
    } else {
      assert IsName(todo[0]);
      CleanOfNames(done + [todo[0]], todo[1..]);
      assert (done + [todo[0]]) + todo[1..] == done + todo;
    }
  }

  /** "." changes nothing, ".." takes away the last name, and a name is added. */
  lemma CleanOne(done: Path, c: string)
    ensures Clean(done, [c]) == if c == "." then done else if c == ".." then Up(done) else done + [c]
  {
    assert [c][1..] == [];
  }

  /** Cleaning goes from left to right. */
  lemma {:induction false} CleanConcat(done: Path, a: seq<string>, b: seq<string>)
    ensures Clean(done, a + b) == Clean(Clean(done, a), b)
    decreases |a|
  {
    if a == [] {
      assert a + b == b;
    } else {
      assert (a + b)[0] == a[0] && (a + b)[1..] == a[1..] + b;
      CleanConcat(if a[0] == "." then done else if a[0] == ".." then Up(done) else done + [a[0]], a[1..], b);
    }
  }

  /** A path below a clean directory is cleaned starting from there. */
  lemma CleanBelow(d: Path, rest: seq<string>)
    requires Names(d)
    ensures Clean([], d + rest) == Clean(d, rest)
  {
    CleanConcat([], d, rest);
    CleanOfNames([], d);
    assert [] + d == d;
  }

  function CommonPrefix(a: Path, b: Path): (n: nat)
    ensures n <= |a| && n <= |b| && a[..n] == b[..n]
    ensures n == |a| || n == |b| || a[n] != b[n]
  {
    if a == [] || b == [] || a[0] != b[0] then 0
    else
      var n := 1 + CommonPrefix(a[1..], b[1..]);
      assert a[..n] == [a[0]] + a[1..][..n - 1] && b[..n] == [b[0]] + b[1..][..n - 1];
      n
  }

  function Ups(n: nat): seq<string> {
    seq(n, i => "..")
  }

  /** filepath.Rel between absolute cleaned paths: up to the common prefix, then down. */
  function Rel(base: Path, target: Path): seq<string> {
    var n := CommonPrefix(base, target);
    Ups(|base| - n) + target[n..]
  }

  predicate StartsDotDot(c: string) {
    |c| >= 2 && c[0] == '.' && c[1] == '.'
  }

  /** Whether p, absolute and clean, counts as inside the jail j: the text of its relative path must
      not begin with "..". */
  predicate IsInJail(j: Path, p: Path) {
    var r := Rel(j, p);
    r == [] || !StartsDotDot(r[0])
  }

  /** The path as seen from inside the jail. */
  function RemoveJailPrefix(j: Path, p: Path): Path {
    Clean([], Rel(j, p))
  }

  lemma CommonPrefixOfPrefix(a: Path, b: Path)
    requires a <= b
    ensures CommonPrefix(a, b) == |a|
  {
    assert forall k :: 0 <= k < |a| ==> a[k] == b[k];
  }

  /** Stripping the jail from a path built under it gives back the virtual path. */
  lemma RemoveUndoesJoin(j: Path, v: Path)
    requires Names(v)
    ensures RemoveJailPrefix(j, j + v) == v
  {
    CommonPrefixOfPrefix(j, j + v);
    assert Rel(j, j + v) == v;
    CleanOfNames([], v);
  }

  /** The text test is a component-prefix test, except that it also turns away paths in the jail
      whose first component below it begins with "..". */
  lemma InJailMeansUnder(j: Path, p: Path)
    ensures IsInJail(j, p) <==> j <= p && (|p| > |j| ==> !StartsDotDot(p[|j|]))
  {
    var n := CommonPrefix(j, p);
    if j <= p { CommonPrefixOfPrefix(j, p); }
    if n == |j| {
      assert j == j[..n] <= p;
      assert Rel(j, p) == p[n..];
    } else {
      assert Rel(j, p)[0] == "..";
    }
  }

  lemma NamesOfParts(p: Path, n: nat)
    requires Names(p) && n <= |p|
    ensures Names(p[..n]) && Names(p[n..])
  {
  }
}
