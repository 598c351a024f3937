/** Lexical paths: the part of `path/filepath` that roving relies on, on component sequences. */
module Paths {
  import opened Text

  /** The components of a cleaned path; `[]` is the root (or, for a relative path, "."). */
  type Path = seq<string>

  /** A name that denotes exactly one step down. */
  predicate Component(c: string) {
    c != "" && c != "." && c != ".." && '/' !in c
  }

  predicate Clean(p: Path) {
    forall i | 0 <= i < |p| :: Component(p[i])
  }

  /** Follows components from a directory, as `filepath.Clean` does for a rooted path. */
  function Walk(from: Path, parts: seq<string>): Path
    decreases |parts|
  {
    if parts == [] then from
    else
      var c := parts[0];
      if c == "" || c == "." then Walk(from, parts[1..])
      else if c == ".." then Walk(if from == [] then [] else from[..|from| - 1], parts[1..])
      else Walk(from + [c], parts[1..])
  }

  function Join(dir: Path, name: string): Path {
    Walk(dir, Split(name, '/'))
  }

  function CommonPrefix(a: Path, b: Path): (n: nat)
    ensures n <= |a| && n <= |b| && a[..n] == b[..n]
    ensures n < |a| && n < |b| ==> a[n] != b[n]
  {
    if a == [] || b == [] || a[0] != b[0] then 0
    else
      var m := CommonPrefix(a[1..], b[1..]);
      assert a[..1 + m] == [a[0]] + a[1..][..m] && b[..1 + m] == [b[0]] + b[1..][..m];
      1 + m
  }

  /** `filepath.Rel`: up to the common ancestor, then down. */
  function Rel(base: Path, target: Path): Path {
    var n := CommonPrefix(base, target);
    seq(|base| - n, _ => "..") + target[n..]
  }

  /** Joining a single component is one step down; anything else may land elsewhere. */
  lemma JoinComponent(dir: Path, name: string)
    requires Component(name)
    ensures Join(dir, name) == dir + [name]
  {
    SplitWhole(name, '/');
    assert Walk(dir + [name], []) == dir + [name];
  }

  lemma {:induction false} WalkDown(from: Path, parts: Path)
    requires Clean(parts)
    ensures Walk(from, parts) == from + parts
    decreases |parts|
  {
    if parts == [] {
      assert from + parts == from;
    } else {
      WalkDown(from + [parts[0]], parts[1..]);
      assert from + [parts[0]] + parts[1..] == from + parts;
    }
  }

  lemma {:induction false} WalkClean(from: Path, parts: seq<string>)
    requires Clean(from) && forall i | 0 <= i < |parts| :: '/' !in parts[i]
    ensures Clean(Walk(from, parts))
    decreases |parts|
  {
    if parts != [] {
      var c := parts[0];
      WalkClean(if c == "" || c == "." then from
                else if c == ".." then if from == [] then [] else from[..|from| - 1]
                else from + [c], parts[1..]);
    }
  }

  lemma JoinClean(dir: Path, name: string)
    requires Clean(dir)
    ensures Clean(Join(dir, name))
  {
    SplitParts(name, '/');
    WalkClean(dir, Split(name, '/'));
  }

  /** A name joins as one step down under its own name exactly if it is a component. */
  lemma JoinIsStepDown(dir: Path, name: string)
    requires Clean(dir)
    ensures Join(dir, name) == dir + [name] <==> Component(name)
  {
    if Component(name) {
      JoinComponent(dir, name);
    }
    JoinClean(dir, name);
    assert (dir + [name])[|dir|] == name;
  }

  function AfterLast(s: string, c: char): (r: string)
    ensures c !in r && (c !in s ==> r == s)
  {
    if s == "" || s[|s| - 1] == c then "" else AfterLast(s[..|s| - 1], c) + [s[|s| - 1]]
  }

  /** `filepath.Base` */
  function Base(name: string): string {
    var s := TrimRight(name, '/');
    if name == "" then "." else if s == "" then "/" else AfterLast(s, '/')
  }

  /** Which names are their own base. */
  lemma OwnBase(name: string)
    ensures Base(name) == name <==> name == "/" || (name != "" && '/' !in name)
  {
    if name == "/" {
      assert TrimRight("/", '/') == TrimRight("", '/');
    }
    if name != "" && '/' !in name {
      assert name[|name| - 1] in name;
      assert TrimRight(name, '/') == name;
    }
  }

  /** Joining the names that are their own base but no component. */
  lemma JoinSpecial(dir: Path)
    ensures Join(dir, ".") == dir && Join(dir, "/") == dir
    ensures Join(dir, "..") == if dir == [] then [] else Parent(dir)
  {
    SplitWhole(".", '/');
    SplitWhole("..", '/');
    assert Split("/", '/') == ["", ""] by {
      assert "/"[1..] == "";
    }
    assert [".."][1..] == [] && ["."][1..] == [] && ["", ""][1..] == [""] && [""][1..] == [];
    assert Walk(dir, [""]) == Walk(dir, []);
    if dir != [] {
      assert Walk(dir, [".."]) == Walk(Parent(dir), []);
    }
  }

  lemma {:induction false} WalkUp(from: Path, k: nat, parts: Path)
    requires k <= |from|
    ensures Walk(from, seq(k, _ => "..") + parts) == Walk(from[..|from| - k], parts)
  {
    var ups := seq(k, _ => "..");
    if k == 0 {
      assert ups + parts == parts && from[..|from|] == from;
    } else {
      assert (ups + parts)[1..] == seq(k - 1, _ => "..") + parts;
      assert from[..|from| - 1][..|from| - k] == from[..|from| - k];
      WalkUp(from[..|from| - 1], k - 1, parts);
    }
  }

  /** Following the relative path from the base reaches the target. */
  lemma RelReaches(base: Path, target: Path)
    requires Clean(target)
    ensures Walk(base, Rel(base, target)) == target
  {
    var n := CommonPrefix(base, target);
    WalkUp(base, |base| - n, target[n..]);
    assert base[..|base| - (|base| - n)] == base[..n];
    WalkDown(base[..n], target[n..]);
    assert target[..n] + target[n..] == target;
  }

  lemma RelBelow(base: Path, below: Path)
    ensures Rel(base, base + below) == below
  {
    var n := CommonPrefix(base, base + below);
    assert forall i | 0 <= i < |base| :: (base + below)[i] == base[i];
    assert n == |base|;
  }

  /** All directories on the way to `p`, `p` included. */
  function Prefixes(p: Path): set<Path> {
    set n | 0 <= n <= |p| :: p[..n]
  }

  function Parent(p: Path): Path
    requires p != []
  {
    p[..|p| - 1]
  }
}
